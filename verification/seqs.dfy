/** Row-wise operations on tables: the boolean-mask selection `df[mask]` and
    the row-wise `apply`, with the facts about them the cleaning models use. */
module Seqs {

  /** The elements of `s` that satisfy `p`, in their original order. */
  function Filter<T>(p: T -> bool, s: seq<T>): (r: seq<T>)
    ensures |r| <= |s|
  {
    if s == [] then []
    else if p(s[0]) then [s[0]] + Filter(p, s[1..])
    else Filter(p, s[1..])
  }

  /** The selection holds exactly the elements of `s` that satisfy `p`. */
  lemma {:induction false} FilterMembers<T>(p: T -> bool, s: seq<T>)
    ensures forall x :: x in Filter(p, s) <==> x in s && p(x)
  {
    if s != [] {
      FilterMembers(p, s[1..]);
      assert forall x :: x in s <==> x == s[0] || x in s[1..];
    }
  }

  /** `f` applied to every element of `s`. */
  function MapSeq<T, U>(f: T -> U, s: seq<T>): (r: seq<U>)
    ensures |r| == |s|
    ensures forall i :: 0 <= i < |s| ==> r[i] == f(s[i])
  {
    if s == [] then [] else [f(s[0])] + MapSeq(f, s[1..])
  }

  /** `xs` is `ys` with some elements removed, the rest kept in order. */
  ghost predicate IsSubsequence<T>(xs: seq<T>, ys: seq<T>)
    decreases |ys|
  {
    xs == [] ||
    (ys != [] &&
     ((xs[0] == ys[0] && IsSubsequence(xs[1..], ys[1..])) || IsSubsequence(xs, ys[1..])))
  }

  lemma {:induction false} FilterIsSubsequence<T>(p: T -> bool, s: seq<T>)
    ensures IsSubsequence(Filter(p, s), s)
  {
    if s != [] {
      FilterIsSubsequence(p, s[1..]);
    }
  }

  /** Two selections in a row are one selection by the conjunction. */
  lemma {:induction false} FilterFilter<T>(p: T -> bool, q: T -> bool, pq: T -> bool, s: seq<T>)
    requires forall x :: pq(x) == (p(x) && q(x))
    ensures Filter(q, Filter(p, s)) == Filter(pq, s)
  {
    if s != [] {
      FilterFilter(p, q, pq, s[1..]);
      if p(s[0]) {
        assert Filter(p, s) == [s[0]] + Filter(p, s[1..]);
        assert ([s[0]] + Filter(p, s[1..]))[1..] == Filter(p, s[1..]);
      }
    }
  }

  /** Selecting after a row-wise rewrite is rewriting after selecting by the
      predicate as seen through the rewrite. */
  lemma {:induction false} FilterMapSeq<T>(p: T -> bool, f: T -> T, pf: T -> bool, s: seq<T>)
    requires forall x :: pf(x) == p(f(x))
    ensures Filter(p, MapSeq(f, s)) == MapSeq(f, Filter(pf, s))
  {
    if s != [] {
      FilterMapSeq(p, f, pf, s[1..]);
      assert MapSeq(f, s)[1..] == MapSeq(f, s[1..]);
      if pf(s[0]) {
        assert ([s[0]] + Filter(pf, s[1..]))[1..] == Filter(pf, s[1..]);
      }
    }
  }

  /** A rewrite that leaves every element of `s` alone leaves `s` alone. */
  lemma {:induction false} MapSeqIdentity<T>(f: T -> T, s: seq<T>)
    requires forall x :: x in s ==> f(x) == x
    ensures MapSeq(f, s) == s
  {
    if s != [] {
      MapSeqIdentity(f, s[1..]);
    }
  }
}
