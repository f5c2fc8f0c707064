/** Order-aware facts about sequences, used for PHP arrays whose keys are
    kept (`array_filter`) or renumbered (`array_values(array_unique(..))`). */
module Seqs {

  /** `sub` is `s` with some elements deleted and the rest kept in order. */
  predicate IsSubsequence<T(==)>(sub: seq<T>, s: seq<T>)
    decreases |s|
  {
    if |sub| == 0 then true
    else if |s| == 0 then false
    else (sub[0] == s[0] && IsSubsequence(sub[1..], s[1..])) || IsSubsequence(sub, s[1..])
  }

  /** No element occurs twice. */
  predicate NoDup<T(==)>(s: seq<T>)
  {
    forall i, j :: 0 <= i < j < |s| ==> s[i] != s[j]
  }

  /** Position of the first occurrence of `x` in `s`. */
  function FirstIndex<T(==)>(s: seq<T>, x: T): (k: nat)
    requires x in s
    ensures k < |s| && s[k] == x
    ensures x !in s[..k]
  {
    if s[0] == x then 0
    else
      assert x in s[1..];
      var k := 1 + FirstIndex(s[1..], x);
      assert s[..k] == [s[0]] + s[1..][..k - 1];
      k
  }

  /** Elements of a subsequence come from the sequence. */
  lemma {:induction false} SubsequenceMembers<T>(sub: seq<T>, s: seq<T>, x: T)
    requires IsSubsequence(sub, s) && x in sub
    ensures x in s
    decreases |s|
  {
    if sub[0] == s[0] && IsSubsequence(sub[1..], s[1..]) {
      if x != sub[0] {
        assert x in sub[1..];
        SubsequenceMembers(sub[1..], s[1..], x);
      }
    } else {
      SubsequenceMembers(sub, s[1..], x);
    }
  }

  /** A subsequence of a duplicate-free sequence is duplicate-free. */
  lemma {:induction false} SubsequenceNoDup<T>(sub: seq<T>, s: seq<T>)
    requires IsSubsequence(sub, s) && NoDup(s)
    ensures NoDup(sub)
    decreases |s|
  {
    if |sub| > 0 {
      assert NoDup(s[1..]) by {
        forall i, j | 0 <= i < j < |s[1..]|
          ensures s[1..][i] != s[1..][j]
        {
          assert s[1..][i] == s[i + 1] && s[1..][j] == s[j + 1];
        }
      }
      if sub[0] == s[0] && IsSubsequence(sub[1..], s[1..]) {
        SubsequenceNoDup(sub[1..], s[1..]);
        assert s[0] !in s[1..] by {
          forall m | 0 <= m < |s[1..]|
            ensures s[1..][m] != s[0]
          {
            assert s[1..][m] == s[m + 1];
          }
        }
        forall y | y in sub[1..]
          ensures y != sub[0]
        {
          SubsequenceMembers(sub[1..], s[1..], y);
        }
        forall i, j | 0 <= i < j < |sub|
          ensures sub[i] != sub[j]
        {
          if i == 0 {
            assert sub[j] == sub[1..][j - 1] && sub[1..][j - 1] in sub[1..];
          } else {
            assert sub[i] == sub[1..][i - 1] && sub[j] == sub[1..][j - 1];
          }
        }
      } else {
        SubsequenceNoDup(sub, s[1..]);
      }
    }
  }

  /** The elements of `s` not in `seen`, each at its first occurrence, in order:
      the effect of PHP's `array_values(array_unique(..))` when `seen` is empty. */
  function Dedup<T(==,!new)>(s: seq<T>, seen: set<T>): (r: seq<T>)
    ensures NoDup(r)
    ensures forall x :: x in r <==> x in s && x !in seen
    ensures IsSubsequence(r, s)
    decreases |s|
  {
    if |s| == 0 then []
    else if s[0] in seen then Dedup(s[1..], seen)
    else [s[0]] + Dedup(s[1..], seen + {s[0]})
  }

  /** `Dedup` lists its elements in the order of their first occurrence in the input. */
  lemma {:induction false} DedupFirstOccurrenceOrder<T(!new)>(s: seq<T>, seen: set<T>)
    ensures forall i, j :: 0 <= i < j < |Dedup(s, seen)| ==>
              FirstIndex(s, Dedup(s, seen)[i]) < FirstIndex(s, Dedup(s, seen)[j])
    decreases |s|
  {
    if |s| > 0 {
      var r := Dedup(s, seen);
      var seen' := if s[0] in seen then seen else seen + {s[0]};
      var tail := Dedup(s[1..], seen');
      DedupFirstOccurrenceOrder(s[1..], seen');
      forall x | x in tail
        ensures x in s && FirstIndex(s, x) == 1 + FirstIndex(s[1..], x)
      {
        assert x != s[0];
      }
      forall i, j | 0 <= i < j < |r|
        ensures FirstIndex(s, r[i]) < FirstIndex(s, r[j])
      {
        if s[0] in seen {
          assert r[i] == tail[i] && r[j] == tail[j];
        } else {
          assert r[j] == tail[j - 1];
          if i > 0 {
            assert r[i] == tail[i - 1];
          }
        }
      }
    }
  }
}
