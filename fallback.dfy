/**
 * "Try each candidate in order and stop at the first that succeeds", the shape shared by
 * every retrieval loop: hosts, host-by-path pairs, subreddits.
 */
module Fallback {
  import opened Util

  /** The index of the first element of `xs` whose probe succeeds. */
  function FirstHit<A, T>(xs: seq<A>, probe: A -> Option<T>): (r: Option<nat>)
    ensures r.Some? ==> r.value < |xs| && probe(xs[r.value]).Some?
    ensures r.Some? ==> forall j :: 0 <= j < r.value ==> probe(xs[j]).None?
    ensures r.None? <==> forall j :: 0 <= j < |xs| ==> probe(xs[j]).None?
    decreases |xs|
  {
    if xs == [] then None
    else if probe(xs[0]).Some? then Some(0)
    else match FirstHit(xs[1..], probe)
      case Some(k) => Some(k + 1)
      case None => None
  }

  /** What the first successful probe produced. */
  function FirstValue<A, T>(xs: seq<A>, probe: A -> Option<T>): (v: Option<T>)
    ensures v.Some? <==> FirstHit(xs, probe).Some?
    ensures v.Some? ==> v == probe(xs[FirstHit(xs, probe).value])
  {
    match FirstHit(xs, probe)
    case Some(k) => probe(xs[k])
    case None => None
  }

  /** The elements probed before stopping: up to and including the first hit, or all of them. */
  function Consulted<A, T>(xs: seq<A>, probe: A -> Option<T>): (ys: seq<A>)
    ensures ys <= xs
    ensures FirstHit(xs, probe).Some? ==> |ys| == FirstHit(xs, probe).value + 1
    ensures FirstHit(xs, probe).None? ==> ys == xs
  {
    match FirstHit(xs, probe)
    case Some(k) => xs[..k + 1]
    case None => xs
  }

  /** An index where the probe succeeds after failing everywhere before is the first hit. */
  lemma FirstHitUnique<A, T>(xs: seq<A>, probe: A -> Option<T>, k: nat)
    requires k < |xs| && probe(xs[k]).Some?
    requires forall j :: 0 <= j < k ==> probe(xs[j]).None?
    ensures FirstHit(xs, probe) == Some(k)
  {
  }

  /** The first hit after a prefix of misses, stated over the elements missed. */
  lemma HitAfterMisses<A, T>(xs: seq<A>, probe: A -> Option<T>, n: nat)
    requires n < |xs| && probe(xs[n]).Some?
    requires forall x :: x in xs[..n] ==> probe(x).None?
    ensures FirstHit(xs, probe) == Some(n)
  {
    forall j | 0 <= j < n ensures probe(xs[j]).None? {
      assert xs[j] in xs[..n];
    }
    FirstHitUnique(xs, probe, n);
  }

  lemma NoHit<A, T>(xs: seq<A>, probe: A -> Option<T>)
    requires forall x :: x in xs ==> probe(x).None?
    ensures FirstHit(xs, probe).None?
  {
    forall j | 0 <= j < |xs| ensures probe(xs[j]).None? {
      assert xs[j] in xs;
    }
  }

  /** Trying `xs` and then `ys`: `ys` is reached only when every element of `xs` fails. */
  lemma FirstHitAppend<A, T>(xs: seq<A>, ys: seq<A>, probe: A -> Option<T>)
    ensures FirstHit(xs, probe).Some? ==> FirstHit(xs + ys, probe) == FirstHit(xs, probe)
    ensures FirstHit(xs, probe).None? && FirstHit(ys, probe).Some? ==>
      FirstHit(xs + ys, probe) == Some(|xs| + FirstHit(ys, probe).value)
    ensures FirstHit(xs, probe).None? && FirstHit(ys, probe).None? ==> FirstHit(xs + ys, probe).None?
  {
    var zs := xs + ys;
    match FirstHit(xs, probe)
    case Some(k) =>
      FirstHitUnique(zs, probe, k);
    case None =>
      match FirstHit(ys, probe)
      case Some(k) =>
        assert zs[|xs| + k] == ys[k];
        forall j | 0 <= j < |xs| + k ensures probe(zs[j]).None? {
          if j < |xs| { assert zs[j] == xs[j]; } else { assert zs[j] == ys[j - |xs|]; }
        }
        FirstHitUnique(zs, probe, |xs| + k);
      case None =>
        forall j | 0 <= j < |zs| ensures probe(zs[j]).None? {
          if j < |xs| { assert zs[j] == xs[j]; } else { assert zs[j] == ys[j - |xs|]; }
        }
  }

  /** Probing `xs` and then `ys` consults `ys` only when every element of `xs` fails. */
  lemma ConsultedAppend<A, T>(xs: seq<A>, ys: seq<A>, probe: A -> Option<T>)
    ensures FirstHit(xs, probe).Some? ==> Consulted(xs + ys, probe) == Consulted(xs, probe)
    ensures FirstHit(xs, probe).None? ==> Consulted(xs + ys, probe) == xs + Consulted(ys, probe)
  {
    FirstHitAppend(xs, ys, probe);
    var zs := xs + ys;
    match FirstHit(xs, probe)
    case Some(k) =>
      assert zs[..k + 1] == xs[..k + 1];
    case None =>
      match FirstHit(ys, probe)
      case Some(k) =>
        assert zs[..|xs| + k + 1] == xs + ys[..k + 1];
      case None =>
  }

  /** Probing `xs` and then `ys` yields what `xs` yields, or else what `ys` yields. */
  lemma FirstValueAppend<A, T>(xs: seq<A>, ys: seq<A>, probe: A -> Option<T>)
    ensures FirstValue(xs + ys, probe) ==
      if FirstValue(xs, probe).Some? then FirstValue(xs, probe) else FirstValue(ys, probe)
  {
    FirstHitAppend(xs, ys, probe);
    var zs := xs + ys;
    match FirstHit(xs, probe)
    case Some(k) =>
      assert zs[k] == xs[k];
    case None =>
      match FirstHit(ys, probe)
      case Some(k) =>
        assert zs[|xs| + k] == ys[k];
      case None =>
  }
}
