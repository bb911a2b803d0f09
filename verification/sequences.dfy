/** Order-related facts about sequences: subsequences and filtering. */
module Sequences {

  /** `a` is `b` with some elements deleted: the elements of `a` occur in `b`
      in the same relative order. */
  predicate SubSeq<T(==)>(a: seq<T>, b: seq<T>)
    decreases |b|
  {
    || |a| == 0
    || (&& |b| > 0
        && ((a[0] == b[0] && SubSeq(a[1..], b[1..])) || SubSeq(a, b[1..])))
  }

  /** Every sequence is a subsequence of itself. */
  lemma {:induction false} SubSeqRefl<T>(s: seq<T>)
    ensures SubSeq(s, s)
    decreases |s|
  {
    if |s| > 0 {
      SubSeqRefl(s[1..]);
    }
  }

  /** Deleting elements never introduces new ones. */
  lemma {:induction false} SubSeqMembers<T>(a: seq<T>, b: seq<T>)
    requires SubSeq(a, b)
    ensures forall x :: x in a ==> x in b
    decreases |b|
  {
    if |a| > 0 {
      if a[0] == b[0] && SubSeq(a[1..], b[1..]) {
        SubSeqMembers(a[1..], b[1..]);
        assert a == [a[0]] + a[1..];
      } else {
        SubSeqMembers(a, b[1..]);
      }
    }
  }

  /** The subsequence relation is transitive. */
  lemma {:induction false} SubSeqTrans<T>(a: seq<T>, b: seq<T>, c: seq<T>)
    requires SubSeq(a, b) && SubSeq(b, c)
    ensures SubSeq(a, c)
    decreases |c|
  {
    if |a| > 0 {
      assert |b| > 0 && |c| > 0;
      if b[0] == c[0] && SubSeq(b[1..], c[1..]) {
        if a[0] == b[0] && SubSeq(a[1..], b[1..]) {
          SubSeqTrans(a[1..], b[1..], c[1..]);
        } else {
          SubSeqTrans(a, b[1..], c[1..]);
        }
      } else {
        SubSeqTrans(a, b, c[1..]);
      }
    }
  }

  /** The elements of `s` satisfying `keep`, in their original order. */
  function Filter<T>(s: seq<T>, keep: T -> bool): (r: seq<T>)
    ensures forall i :: 0 <= i < |r| ==> r[i] in s && keep(r[i])
    ensures forall i :: 0 <= i < |s| && keep(s[i]) ==> s[i] in r
    ensures SubSeq(r, s)
    ensures |r| <= |s|
    decreases |s|
  {
    if |s| == 0 then []
    else if keep(s[0]) then
      var rest := Filter(s[1..], keep);
      assert ([s[0]] + rest)[1..] == rest;
      [s[0]] + rest
    else
      Filter(s[1..], keep)
  }

  /** Filtering with a predicate every element satisfies changes nothing. */
  lemma {:induction false} FilterKeepsAll<T>(s: seq<T>, keep: T -> bool)
    requires forall i :: 0 <= i < |s| ==> keep(s[i])
    ensures Filter(s, keep) == s
    decreases |s|
  {
    if |s| > 0 {
      FilterKeepsAll(s[1..], keep);
      assert s == [s[0]] + s[1..];
    }
  }
}
