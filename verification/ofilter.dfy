/** `ofilter`: keep the objects of an array that pass every clause of a filter
    spec. A clause is one entry of the spec array, and what it tests depends on
    the entry's shape: a bare property name, `name => value`, `name => callback`,
    or a nested array `[outer, k => v]` that descends one level. */
module ObjectFilter {
  import opened PhpValues
  import opened Seqs

  /** A non-array entry value: a literal string or a (pure, total) callback. */
  datatype Atom = Text(s: string) | Call(pred: Value -> bool)

  /** An entry value of the spec array. `Nested(outer, rest)` is the array
      `[outer, rest...]`: its first element names the sub-object, the remaining
      key/value pairs are what `array_shift` leaves behind. */
  datatype Entry = Leaf(atom: Atom) | Nested(outer: string, rest: seq<(Key, Atom)>)

  /** One key/value entry of the spec array. */
  type Clause = (Key, Entry)

  /** The `$properties` argument: a single property name, or a spec array. */
  datatype Properties = Single(name: string) | Many(clauses: seq<Clause>)

  /** The spec array `ofilter` iterates over: a string becomes `[ $name ]`,
      whose only key is the integer 0. */
  function Clauses(p: Properties): seq<Clause>
  {
    match p
    case Single(name) => [(Pos(0), Leaf(Text(name)))]
    case Many(cs) => cs
  }

  /** The `$isValid` closure: one key/value pair tested against one object.
      An integer key means "the named property exists and is non-empty"; a
      string key means "the property exists and the callback accepts it" or
      "the property exists and equals the literal, ignoring case". */
  predicate IsValid(o: Object, key: Key, atom: Atom)
  {
    match key
    case Pos(_) =>
      // `property_exists($obj, $callback)` is a TypeError; the element is rejected
      atom.Text? && atom.s in o && !IsEmpty(o[atom.s])
    case Named(k) =>
      k in o &&
      match atom
      case Call(f) => f(o[k])
      case Text(t) => AsText(o[k]).Some? && SameIgnoringCase(AsText(o[k]).value, t)
  }

  /** One iteration of the `foreach` over the spec: arrays descend into the
      sub-object and test only the first remaining pair; everything else goes
      to `IsValid` with the entry's own key. A nested array with no pair left
      tests the property `""`, which no PHP object has, so it fails. */
  predicate ClausePasses(o: Object, c: Clause)
  {
    match c.1
    case Leaf(atom) => IsValid(o, c.0, atom)
    case Nested(outer, rest) =>
      outer in o && o[outer].Obj? && |rest| > 0 && IsValid(o[outer].props, rest[0].0, rest[0].1)
  }

  /** The `array_filter` callback: the clauses in order, stopping at the first that fails. */
  predicate Keep(o: Object, cs: seq<Clause>)
  {
    if |cs| == 0 then true
    else ClausePasses(o, cs[0]) && Keep(o, cs[1..])
  }

  /** `array_filter`: the items the callback keeps, in order and with their keys. */
  function Select(a: seq<Item>, cs: seq<Clause>): (r: seq<Item>)
    ensures IsSubsequence(r, a)
    ensures forall x :: multiset(r)[x] == if Keep(x.obj, cs) then multiset(a)[x] else 0
    ensures forall x :: x in r <==> x in a && Keep(x.obj, cs)
  {
    if |a| == 0 then []
    else
      assert a == [a[0]] + a[1..];
      var rest := Select(a[1..], cs);
      if Keep(a[0].obj, cs) then [a[0]] + rest else rest
  }

  /** `ofilter($array, $properties)`: `null` (None) for an empty array, otherwise
      the filtered array. */
  function OFilter(a: seq<Item>, p: Properties): (r: Option<seq<Item>>)
    ensures r.None? <==> |a| == 0
    ensures r.Some? ==> IsSubsequence(r.value, a)
    ensures r.Some? ==> forall x :: multiset(r.value)[x] == if Keep(x.obj, Clauses(p)) then multiset(a)[x] else 0
    ensures r.Some? ==> forall x :: x in r.value <==> x in a && Keep(x.obj, Clauses(p))
  {
    if |a| == 0 then None else Some(Select(a, Clauses(p)))
  }

  /** A one-clause spec keeps what that clause passes. */
  lemma KeepOne(c: Clause)
    ensures forall o :: Keep(o, [c]) == ClausePasses(o, c)
  {
    forall o
      ensures Keep(o, [c]) == ClausePasses(o, c)
    {
      assert [c][1..] == [];
    }
  }

  /** An element is kept iff every clause passes. */
  lemma {:induction false} KeepIsConjunction(o: Object, cs: seq<Clause>)
    ensures Keep(o, cs) <==> forall i :: 0 <= i < |cs| ==> ClausePasses(o, cs[i])
    decreases |cs|
  {
    if |cs| > 0 {
      KeepIsConjunction(o, cs[1..]);
      assert forall i :: 1 <= i < |cs| ==> cs[i] == cs[1..][i - 1];
    }
  }

  /** Passing a concatenated spec means passing both parts. */
  lemma {:induction false} KeepAppend(o: Object, cs: seq<Clause>, ds: seq<Clause>)
    ensures Keep(o, cs + ds) <==> Keep(o, cs) && Keep(o, ds)
    decreases |cs|
  {
    if |cs| > 0 {
      assert (cs + ds)[1..] == cs[1..] + ds;
      KeepAppend(o, cs[1..], ds);
    } else {
      assert cs + ds == ds;
    }
  }

  /** Filtering by `cs + ds` is filtering by `cs`, then by `ds`. */
  lemma {:induction false} SelectAppend(a: seq<Item>, cs: seq<Clause>, ds: seq<Clause>)
    ensures Select(a, cs + ds) == Select(Select(a, cs), ds)
    decreases |a|
  {
    if |a| > 0 {
      KeepAppend(a[0].obj, cs, ds);
      SelectAppend(a[1..], cs, ds);
    }
  }

  /** With no clauses every element is kept. */
  lemma {:induction false} SelectNoClauses(a: seq<Item>)
    ensures Select(a, []) == a
    decreases |a|
  {
    if |a| > 0 {
      SelectNoClauses(a[1..]);
      assert a == [a[0]] + a[1..];
    }
  }

  /** An empty spec array keeps everything. */
  lemma EmptySpecKeepsAll(a: seq<Item>)
    requires |a| > 0
    ensures OFilter(a, Many([])) == Some(a)
  {
    SelectNoClauses(a);
  }

  /** Adding clauses can only shrink the result: the longer spec's result is a
      subsequence of the shorter one's, and equals filtering that again. */
  lemma MoreClausesShrink(a: seq<Item>, cs: seq<Clause>, ds: seq<Clause>)
    requires |a| > 0
    ensures OFilter(a, Many(cs + ds)).Some? && OFilter(a, Many(cs)).Some?
    ensures IsSubsequence(OFilter(a, Many(cs + ds)).value, OFilter(a, Many(cs)).value)
    ensures OFilter(a, Many(cs + ds)).value == Select(OFilter(a, Many(cs)).value, ds)
  {
    SelectAppend(a, cs, ds);
  }

  /** A string spec is the one-element array holding that string. */
  lemma StringSpecIsSingletonArray(a: seq<Item>, name: string)
    ensures OFilter(a, Single(name)) == OFilter(a, Many([(Pos(0), Leaf(Text(name)))]))
    ensures OFilter(a, Single(name)).Some? ==>
              forall x :: x in OFilter(a, Single(name)).value <==>
                x in a && name in x.obj && !IsEmpty(x.obj[name])
  {
    KeepOne((Pos(0), Leaf(Text(name))));
  }

  /** A bare property name (integer key) keeps exactly the objects where the
      property exists and is non-empty, whatever the integer key is. */
  lemma BareNameClause(a: seq<Item>, i: int, name: string)
    requires |a| > 0
    ensures forall x :: x in OFilter(a, Many([(Pos(i), Leaf(Text(name)))])).value <==>
              x in a && name in x.obj && !IsEmpty(x.obj[name])
  {
    KeepOne((Pos(i), Leaf(Text(name))));
  }

  /** `name => value` keeps exactly the objects whose property exists and equals
      the value ignoring case; changing the literal's case changes nothing. */
  lemma ValueClause(a: seq<Item>, name: string, v: string)
    requires |a| > 0
    ensures forall x :: x in OFilter(a, Many([(Named(name), Leaf(Text(v)))])).value <==>
              x in a && name in x.obj && AsText(x.obj[name]).Some? &&
              Lower(AsText(x.obj[name]).value) == Lower(v)
    ensures OFilter(a, Many([(Named(name), Leaf(Text(v)))])) ==
            OFilter(a, Many([(Named(name), Leaf(Text(Lower(v))))]))
  {
    LowerIdempotent(v);
    var cs := [(Named(name), Leaf(Text(v)))];
    var ds := [(Named(name), Leaf(Text(Lower(v))))];
    forall x: Item
      ensures Keep(x.obj, cs) == Keep(x.obj, ds)
    {
    }
    SelectSameVerdicts(a, cs, ds);
  }

  /** Two specs that agree on every object select the same elements. */
  lemma {:induction false} SelectSameVerdicts(a: seq<Item>, cs: seq<Clause>, ds: seq<Clause>)
    requires forall x: Item :: Keep(x.obj, cs) == Keep(x.obj, ds)
    ensures Select(a, cs) == Select(a, ds)
    decreases |a|
  {
    if |a| > 0 {
      assert Keep(a[0].obj, cs) == Keep(a[0].obj, ds);
      SelectSameVerdicts(a[1..], cs, ds);
    }
  }

  /** `name => callback` keeps exactly the objects whose property exists and
      is accepted by the callback. */
  lemma CallbackClause(a: seq<Item>, name: string, f: Value -> bool)
    requires |a| > 0
    ensures forall x :: x in OFilter(a, Many([(Named(name), Leaf(Call(f)))])).value <==>
              x in a && name in x.obj && f(x.obj[name])
  {
    KeepOne((Named(name), Leaf(Call(f))));
  }

  /** A nested clause fails when the outer property is missing, and otherwise
      tests only the first remaining pair against the sub-object: further pairs
      are ignored. */
  lemma NestedClause(o: Object, key: Key, outer: string, first: (Key, Atom), more: seq<(Key, Atom)>)
    ensures outer !in o ==> !ClausePasses(o, (key, Nested(outer, [first] + more)))
    ensures ClausePasses(o, (key, Nested(outer, [first] + more))) <==>
            outer in o && o[outer].Obj? && IsValid(o[outer].props, first.0, first.1)
    ensures ClausePasses(o, (key, Nested(outer, [first] + more))) ==
            ClausePasses(o, (key, Nested(outer, [first])))
  {
  }

  /** A nested array holding only the outer name has no pair to test, and fails. */
  lemma NestedWithoutPair(a: seq<Item>, key: Key, outer: string)
    requires |a| > 0
    ensures OFilter(a, Many([(key, Nested(outer, []))])) == Some([])
  {
    KeepOne((key, Nested(outer, [])));
  }
}
