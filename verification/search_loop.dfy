/** The grouping step of the custom search loop: the main query's posts are
    split by post type, in a fixed order of types, and empty groups are dropped.
    Only the choice of groups is modelled, not the HTML around them. */
module SearchLoop {
  import opened PhpValues
  import opened Seqs
  import opened ObjectFilter

  /** The post types shown, in display order. */
  const TypeOrder: seq<string> := ["documentation", "page", "post", "forum"]

  /** The posts of one type, under the type's heading. */
  datatype Group = Group(postType: string, posts: seq<Item>)

  /** The spec `array( 'post_type' => $type )` handed to `ofilter`. */
  function TypeSpec(postType: string): Properties
  {
    Many([(Named("post_type"), Leaf(Text(postType)))])
  }

  /** The object's `post_type` property equals `t`, ignoring case. */
  predicate HasType(o: Object, t: string)
  {
    "post_type" in o && AsText(o["post_type"]).Some? && SameIgnoringCase(AsText(o["post_type"]).value, t)
  }

  /** `HasType` is exactly what the type spec's filter keeps. */
  lemma TypeSpecKeeps(t: string)
    ensures forall o :: Keep(o, Clauses(TypeSpec(t))) <==> HasType(o, t)
  {
    KeepOne((Named("post_type"), Leaf(Text(t))));
  }

  /** A group that is non-empty and holds exactly the posts of its type, as
      ordered and keyed in the query's results, each as often as there. */
  ghost predicate ExactGroup(g: Group, posts: seq<Item>)
  {
    && |g.posts| > 0
    && IsSubsequence(g.posts, posts)
    && (forall x :: x in g.posts <==> x in posts && HasType(x.obj, g.postType))
    && forall x :: multiset(g.posts)[x] == if HasType(x.obj, g.postType) then multiset(posts)[x] else 0
  }

  /** One group per type of `types` that has posts, in the order of `types`. */
  function GroupsFor(posts: seq<Item>, types: seq<string>): seq<Group>
    requires |posts| > 0
    decreases |types|
  {
    if |types| == 0 then []
    else
      var selected := OFilter(posts, TypeSpec(types[0])).value;
      var rest := GroupsFor(posts, types[1..]);
      if |selected| > 0 then [Group(types[0], selected)] + rest else rest
  }

  /** The groups' types are the types that have posts, in the given order. */
  lemma {:induction false} GroupsForOrder(posts: seq<Item>, types: seq<string>)
    requires |posts| > 0
    ensures IsSubsequence(Heads(GroupsFor(posts, types)), types)
    decreases |types|
  {
    if |types| > 0 {
      var rest := GroupsFor(posts, types[1..]);
      GroupsForOrder(posts, types[1..]);
      var hs := Heads(GroupsFor(posts, types));
      if hs == Heads(rest) {
        assert |hs| == 0 || IsSubsequence(hs, types[1..]);
      } else {
        HeadsCons(Group(types[0], OFilter(posts, TypeSpec(types[0])).value), rest);
        assert hs[0] == types[0] && hs[1..] == Heads(rest);
      }
    }
  }

  /** A type list without repeats gives each type at most one group. */
  lemma GroupsForDistinct(posts: seq<Item>, types: seq<string>)
    requires |posts| > 0
    requires NoDup(types)
    ensures NoDup(Heads(GroupsFor(posts, types)))
  {
    GroupsForOrder(posts, types);
    SubsequenceNoDup(Heads(GroupsFor(posts, types)), types);
  }

  lemma HeadsCons(g: Group, gs: seq<Group>)
    ensures Heads([g] + gs) == [g.postType] + Heads(gs)
  {
  }

  /** Every group is non-empty, of a listed type, and holds exactly the posts of that type. */
  lemma {:induction false} GroupsForExact(posts: seq<Item>, types: seq<string>)
    requires |posts| > 0
    ensures forall g :: g in GroupsFor(posts, types) ==> g.postType in types && ExactGroup(g, posts)
    decreases |types|
  {
    if |types| > 0 {
      GroupsForExact(posts, types[1..]);
      var selected := OFilter(posts, TypeSpec(types[0])).value;
      var rest := GroupsFor(posts, types[1..]);
      if |selected| > 0 {
        SelectedGroupIsExact(posts, types[0]);
        forall g | g in GroupsFor(posts, types)
          ensures g.postType in types && ExactGroup(g, posts)
        {
          if g in rest {
            assert g.postType in types[1..];
          }
        }
      } else {
        forall g | g in GroupsFor(posts, types)
          ensures g.postType in types && ExactGroup(g, posts)
        {
          assert g.postType in types[1..];
        }
      }
    }
  }

  /** A non-empty `ofilter` result for one type is an exact group of that type. */
  lemma SelectedGroupIsExact(posts: seq<Item>, t: string)
    requires |posts| > 0
    requires |OFilter(posts, TypeSpec(t)).value| > 0
    ensures ExactGroup(Group(t, OFilter(posts, TypeSpec(t)).value), posts)
  {
    TypeSpecKeeps(t);
  }

  /** Every listed type that some post has gets a group. */
  lemma {:induction false} GroupsForComplete(posts: seq<Item>, types: seq<string>, t: string, x: Item)
    requires |posts| > 0
    requires t in types && x in posts && HasType(x.obj, t)
    ensures exists g :: g in GroupsFor(posts, types) && g.postType == t
    decreases |types|
  {
    TypeSpecKeeps(types[0]);
    if types[0] == t {
      assert x in OFilter(posts, TypeSpec(t)).value;
      var g := Group(t, OFilter(posts, TypeSpec(t)).value);
      assert g in GroupsFor(posts, types);
    } else {
      GroupsForComplete(posts, types[1..], t, x);
      var g :| g in GroupsFor(posts, types[1..]) && g.postType == t;
      assert g in GroupsFor(posts, types);
    }
  }

  /** The post types of a list of groups. */
  function Heads(gs: seq<Group>): seq<string>
  {
    seq(|gs|, i requires 0 <= i < |gs| => gs[i].postType)
  }

  /** The groups printed for the main query's posts; none when there are no posts. */
  function SearchGroups(posts: seq<Item>): seq<Group>
  {
    if |posts| == 0 then [] else GroupsFor(posts, TypeOrder)
  }

  /** The printed groups follow the fixed type order, each type at most once, each non-empty and holding
      exactly the posts of its type; every post of a listed type is in its group,
      and posts of other types appear nowhere. */
  lemma SearchGroupsSpec(posts: seq<Item>)
    ensures |posts| == 0 ==> SearchGroups(posts) == []
    ensures IsSubsequence(Heads(SearchGroups(posts)), TypeOrder)
    ensures NoDup(Heads(SearchGroups(posts)))
    ensures forall g :: g in SearchGroups(posts) ==> g.postType in TypeOrder && ExactGroup(g, posts)
    ensures forall t, x :: t in TypeOrder && x in posts && HasType(x.obj, t) ==>
              exists g :: g in SearchGroups(posts) && g.postType == t
    ensures forall g, x :: g in SearchGroups(posts) && x in g.posts ==>
              exists t :: t in TypeOrder && HasType(x.obj, t)
  {
    if |posts| > 0 {
      GroupsForOrder(posts, TypeOrder);
      GroupsForDistinct(posts, TypeOrder);
      GroupsForExact(posts, TypeOrder);
      forall t, x | t in TypeOrder && x in posts && HasType(x.obj, t)
        ensures exists g :: g in SearchGroups(posts) && g.postType == t
      {
        GroupsForComplete(posts, TypeOrder, t, x);
      }
    }
  }
}
