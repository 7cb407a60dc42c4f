/** Small general-purpose definitions shared by every module of the model. */
module Util {

  /** An optional value: JavaScript's `undefined`/`null` versus a present value. */
  datatype Option<+T> = None | Some(value: T) {
    function GetOr(default: T): T {
      match this
      case Some(v) => v
      case None => default
    }
  }

  /** The outcome of an operation that may throw: `Err` carries the thrown error's message. */
  datatype Result<+T> = Ok(value: T) | Err(error: string)

  function Min(a: int, b: int): int {
    if a <= b then a else b
  }

  lemma AppendAssoc<T>(a: seq<T>, b: seq<T>, c: seq<T>)
    ensures a + (b + c) == (a + b) + c
  {
  }

  /** `xs.slice(0, n)` for a non-negative `n`. */
  function Take<T>(xs: seq<T>, n: nat): (r: seq<T>)
    ensures |r| == Min(n, |xs|)
    ensures r <= xs
  {
    if n <= |xs| then xs[..n] else xs
  }

  /** `xs.filter(keep)`: the elements of `xs` that `keep` accepts, in their original order. */
  function Filter<T>(xs: seq<T>, keep: T -> bool): (r: seq<T>)
    ensures IsSubsequence(r, xs)
    ensures forall i :: 0 <= i < |r| ==> keep(r[i])
    ensures forall x :: x in xs && keep(x) ==> x in r
    decreases |xs|
  {
    if xs == [] then []
    else if keep(xs[0]) then [xs[0]] + Filter(xs[1..], keep)
    else Filter(xs[1..], keep)
  }

  /** `Filter` keeps every copy of an accepted element and no copy of a rejected one. */
  lemma {:induction false} FilterCount<T>(xs: seq<T>, keep: T -> bool, x: T)
    ensures multiset(Filter(xs, keep))[x] == if keep(x) then multiset(xs)[x] else 0
    decreases |xs|
  {
    if xs != [] {
      FilterCount(xs[1..], keep, x);
      assert xs == [xs[0]] + xs[1..];
    }
  }

  /** `xs` can be obtained from `ys` by deleting elements (order is kept). */
  ghost predicate IsSubsequence<T>(xs: seq<T>, ys: seq<T>)
    decreases |ys|
  {
    xs == [] ||
    (ys != [] &&
     ((xs[0] == ys[0] && IsSubsequence(xs[1..], ys[1..])) || IsSubsequence(xs, ys[1..])))
  }

  /** A prefix of a sequence is a subsequence of it. */
  lemma {:induction false} PrefixIsSubsequence<T>(xs: seq<T>, ys: seq<T>)
    requires xs <= ys
    ensures IsSubsequence(xs, ys)
    decreases |ys|
  {
    if xs != [] {
      assert xs[0] == ys[0];
      PrefixIsSubsequence(xs[1..], ys[1..]);
    }
  }

  /** Subsequences compose. */
  lemma {:induction false} SubsequenceTransitive<T>(xs: seq<T>, ys: seq<T>, zs: seq<T>)
    requires IsSubsequence(xs, ys) && IsSubsequence(ys, zs)
    ensures IsSubsequence(xs, zs)
    decreases |zs|
  {
    if xs == [] {
    } else if zs == [] {
    } else if ys != [] && ys[0] == zs[0] && IsSubsequence(ys[1..], zs[1..]) {
      if xs[0] == ys[0] && IsSubsequence(xs[1..], ys[1..]) {
        SubsequenceTransitive(xs[1..], ys[1..], zs[1..]);
      } else {
        SubsequenceTransitive(xs, ys[1..], zs[1..]);
        SubsequenceDropLeft(xs, zs[1..], zs[0]);
      }
    } else {
      SubsequenceTransitive(xs, ys, zs[1..]);
    }
  }

  lemma SubsequenceDropLeft<T>(xs: seq<T>, zs: seq<T>, z: T)
    requires IsSubsequence(xs, zs)
    ensures IsSubsequence(xs, [z] + zs)
  {
    assert ([z] + zs)[1..] == zs;
  }

  /** Every element of a subsequence occurs in the sequence. */
  lemma {:induction false} SubsequenceElements<T>(xs: seq<T>, ys: seq<T>)
    requires IsSubsequence(xs, ys)
    ensures forall x :: x in xs ==> x in ys
    decreases |ys|
  {
    if xs != [] && ys != [] {
      if xs[0] == ys[0] && IsSubsequence(xs[1..], ys[1..]) {
        SubsequenceElements(xs[1..], ys[1..]);
        assert forall x :: x in xs ==> x == xs[0] || x in xs[1..];
      } else {
        SubsequenceElements(xs, ys[1..]);
      }
    }
  }

  /** A subsequence is never longer than the sequence. */
  lemma {:induction false} SubsequenceLength<T>(xs: seq<T>, ys: seq<T>)
    requires IsSubsequence(xs, ys)
    ensures |xs| <= |ys|
    decreases |ys|
  {
    if xs != [] && ys != [] {
      if xs[0] == ys[0] && IsSubsequence(xs[1..], ys[1..]) {
        SubsequenceLength(xs[1..], ys[1..]);
      } else {
        SubsequenceLength(xs, ys[1..]);
      }
    }
  }
}
