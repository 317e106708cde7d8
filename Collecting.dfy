/**
 * The loop shape shared by the flight-log import and `idose_flights` of main/views.py: walk a
 * list in order, let each item give a value, nothing or an exception, append the values, and
 * stop at the first exception.
 */
module Collecting {
  import opened Wrappers

  /** What the first k items give, in order; the first failing item ends the walk. */
  function Collect<A, B, E>(xs: seq<A>, f: A -> Result<Option<B>, E>, k: nat): Result<seq<B>, E>
    requires k <= |xs|
  {
    if k == 0 then Success([])
    else
      match Collect(xs, f, k - 1)
      case Failure(e) => Failure(e)
      case Success(vs) =>
        match f(xs[k - 1])
        case Failure(e) => Failure(e)
        case Success(None) => Success(vs)
        case Success(Some(v)) => Success(vs + [v])
  }

  /** The item gives a value. */
  predicate Gives<A, B, E>(f: A -> Result<Option<B>, E>, x: A)
  {
    f(x).Success? && f(x).value.Some?
  }

  /** The indices, below k, of the items that give a value, in increasing order. */
  function Kept<A, B, E>(xs: seq<A>, f: A -> Result<Option<B>, E>, k: nat): seq<nat>
    requires k <= |xs|
  {
    if k == 0 then []
    else if Gives(f, xs[k - 1]) then Kept(xs, f, k - 1) + [k - 1]
    else Kept(xs, f, k - 1)
  }

  /** Kept lists exactly the giving items below k, each once and in increasing order. */
  lemma {:induction false} KeptSpec<A, B, E>(xs: seq<A>, f: A -> Result<Option<B>, E>, k: nat)
    requires k <= |xs|
    ensures forall j | 0 <= j < |Kept(xs, f, k)| :: Kept(xs, f, k)[j] < k && Gives(f, xs[Kept(xs, f, k)[j]])
    ensures forall a, b | 0 <= a < b < |Kept(xs, f, k)| :: Kept(xs, f, k)[a] < Kept(xs, f, k)[b]
    ensures forall i | 0 <= i < k :: Gives(f, xs[i]) <==> i in Kept(xs, f, k)
  {
    if k > 0 {
      KeptSpec(xs, f, k - 1);
    }
  }

  /**
   * The walk succeeds exactly when no item fails; then it holds one value per giving item,
   * the value that item gives, in the order of the items.
   */
  lemma {:induction false} CollectSpec<A, B, E>(xs: seq<A>, f: A -> Result<Option<B>, E>, k: nat)
    requires k <= |xs|
    ensures Collect(xs, f, k).Success? <==> forall i | 0 <= i < k :: f(xs[i]).Success?
    ensures Collect(xs, f, k).Success? ==>
      var vs, ks := Collect(xs, f, k).value, Kept(xs, f, k);
      |vs| == |ks| && forall j | 0 <= j < |vs| :: ks[j] < k && Gives(f, xs[ks[j]]) && f(xs[ks[j]]).value.value == vs[j]
  {
    if k > 0 {
      CollectSpec(xs, f, k - 1);
      KeptSpec(xs, f, k - 1);
    }
  }

  /** An item that fails makes the whole walk fail, whatever the items after it. */
  lemma CollectFailsAt<A, B, E>(xs: seq<A>, f: A -> Result<Option<B>, E>, i: nat)
    requires i < |xs| && f(xs[i]).Failure?
    ensures Collect(xs, f, |xs|).Failure?
  {
    CollectSpec(xs, f, |xs|);
  }

  /** Once an item fails after a successful prefix, the walk ends with that item's error. */
  lemma {:induction false} CollectStopsAt<A, B, E>(xs: seq<A>, f: A -> Result<Option<B>, E>, i: nat, k: nat)
    requires i < k <= |xs| && Collect(xs, f, i).Success? && f(xs[i]).Failure?
    ensures Collect(xs, f, k) == Failure(f(xs[i]).error)
    decreases k
  {
    if k > i + 1 {
      CollectStopsAt(xs, f, i, k - 1);
    }
  }
}
