/** Sequence helpers shared by the preprocessing model: flattening a list of
    strings, dropping empty strings, and the ascending list of positions at
    which a predicate holds (the shape of Python's `re.finditer` over a
    one-character lookahead, and of a pandas boolean mask). */
module Seqs {

  /** `"".join(xs)`: the strings of `xs` glued together in order. */
  function Concat<T>(xs: seq<seq<T>>): (r: seq<T>)
  {
    if xs == [] then [] else xs[0] + Concat(xs[1..])
  }

  /** The elements of `xs` that are not empty, in their original order. */
  function NonEmpty<T>(xs: seq<seq<T>>): (r: seq<seq<T>>)
    ensures forall k :: 0 <= k < |r| ==> r[k] != []
    ensures |r| <= |xs|
  {
    if xs == [] then []
    else (if xs[0] == [] then [] else [xs[0]]) + NonEmpty(xs[1..])
  }

  /** Dropping empty strings does not change what they glue to. */
  lemma {:induction false} ConcatNonEmpty<T>(xs: seq<seq<T>>)
    ensures Concat(NonEmpty(xs)) == Concat(xs)
  {
    if xs != [] {
      ConcatNonEmpty(xs[1..]);
      ConcatAppend(if xs[0] == [] then [] else [xs[0]], NonEmpty(xs[1..]));
    }
  }

  /** Gluing distributes over concatenation of the lists. */
  lemma {:induction false} ConcatAppend<T>(xs: seq<seq<T>>, ys: seq<seq<T>>)
    ensures Concat(xs + ys) == Concat(xs) + Concat(ys)
  {
    if xs == [] {
      assert xs + ys == ys;
    } else {
      assert (xs + ys)[1..] == xs[1..] + ys;
      ConcatAppend(xs[1..], ys);
    }
  }

  /** Python's `s[a:b]` for non-negative bounds: both bounds are clamped to
      the length, and a slice whose end precedes its start is empty. */
  function Slice<T>(s: seq<T>, a: nat, b: nat): (r: seq<T>)
    ensures a <= b <= |s| ==> r == s[a..b]
    ensures |r| <= |s|
  {
    var lo := if a < |s| then a else |s|;
    var hi := if b < |s| then b else |s|;
    if lo <= hi then s[lo..hi] else []
  }

  /** Sequence strictly increasing. */
  predicate Increasing(r: seq<nat>)
  {
    forall a, b :: 0 <= a < b < |r| ==> r[a] < r[b]
  }

  /** The positions `j >= i` of `s` at which `p` holds, in ascending order. */
  function PositionsFrom<T>(s: seq<T>, p: T -> bool, i: nat): (r: seq<nat>)
    requires i <= |s|
    ensures forall k :: 0 <= k < |r| ==> i <= r[k] < |s| && p(s[r[k]])
    ensures forall j :: i <= j < |s| && p(s[j]) ==> j in r
    ensures Increasing(r)
    decreases |s| - i
  {
    if i == |s| then []
    else (if p(s[i]) then [i] else []) + PositionsFrom(s, p, i + 1)
  }

  /** The positions of `s` at which `p` holds, in ascending order. */
  function Positions<T>(s: seq<T>, p: T -> bool): (r: seq<nat>)
    ensures forall k :: 0 <= k < |r| ==> r[k] < |s| && p(s[r[k]])
    ensures forall j :: 0 <= j < |s| && p(s[j]) ==> j in r
    ensures Increasing(r)
  {
    PositionsFrom(s, p, 0)
  }

  /** Two sequences on which `p` agrees position by position have the same
      positions. */
  lemma {:induction false} PositionsFromSame<T, U>(a: seq<T>, b: seq<U>, p: T -> bool, q: U -> bool, i: nat)
    requires |a| == |b| && i <= |a|
    requires forall j :: 0 <= j < |a| ==> p(a[j]) == q(b[j])
    ensures PositionsFrom(a, p, i) == PositionsFrom(b, q, i)
    decreases |a| - i
  {
    if i < |a| {
      PositionsFromSame(a, b, p, q, i + 1);
      PositionsFromStep(a, b, p, q, i);
    }
  }

  /** One step of `PositionsFromSame`: equal tails and agreement at `i` give
      equal positions from `i`. */
  lemma PositionsFromStep<T, U>(a: seq<T>, b: seq<U>, p: T -> bool, q: U -> bool, i: nat)
    requires |a| == |b| && i < |a|
    requires p(a[i]) == q(b[i])
    requires PositionsFrom(a, p, i + 1) == PositionsFrom(b, q, i + 1)
    ensures PositionsFrom(a, p, i) == PositionsFrom(b, q, i)
  {
  }

  /** How many elements of `s` satisfy `p`. */
  function Count<T>(s: seq<T>, p: T -> bool): (n: nat)
    ensures n <= |s|
  {
    if s == [] then 0 else (if p(s[0]) then 1 else 0) + Count(s[1..], p)
  }

  /** Counting distributes over concatenation. */
  lemma {:induction false} CountAppend<T>(s: seq<T>, t: seq<T>, p: T -> bool)
    ensures Count(s + t, p) == Count(s, p) + Count(t, p)
  {
    if s == [] {
      assert s + t == t;
    } else {
      assert (s + t)[1..] == s[1..] + t;
      CountAppend(s[1..], t, p);
    }
  }

  lemma {:induction false} PositionsFromCount<T>(s: seq<T>, p: T -> bool, i: nat)
    requires i <= |s|
    ensures |PositionsFrom(s, p, i)| == Count(s[i..], p)
    decreases |s| - i
  {
    if i < |s| {
      PositionsFromCount(s, p, i + 1);
      assert s[i..][1..] == s[i + 1..];
    }
  }

  /** There are exactly as many positions as elements satisfying `p`. */
  lemma PositionsCount<T>(s: seq<T>, p: T -> bool)
    ensures |Positions(s, p)| == Count(s, p)
  {
    PositionsFromCount(s, p, 0);
    assert s[0..] == s;
  }
}
