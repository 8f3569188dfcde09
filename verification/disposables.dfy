/**
 * Disposables as values. `DefaultDisposable` is the stateless no-op singleton;
 * every other disposable (single-assignment, composite, anonymous, a source's
 * subscription) is represented by a `Resource` with an identity, whose disposal
 * releases that resource.
 */
module Disposables {

  datatype Disposable = DefaultDisposable | Resource(id: nat)

  /** The resources one `dispose()` call releases, in order. */
  function DisposeEffect(d: Disposable): (released: seq<nat>)
    ensures |released| <= 1
    ensures released == [] <==> d.DefaultDisposable?
    ensures forall i :: 0 <= i < |released| ==> d == Resource(released[i])
  {
    match d
    case DefaultDisposable => []
    case Resource(id) => [id]
  }

  /**
   * `DefaultDisposable.Instance()`: the shared instance. The constructor has no
   * fields, so every call yields the same value, and disposing it releases nothing.
   */
  function Instance(): (d: Disposable)
    ensures DisposeEffect(d) == []
    ensures forall other: Disposable :: DisposeEffect(other) == [] ==> other == d
  {
    DefaultDisposable
  }

  /** The resources released by calling `dispose()` on `d` `n` times. */
  function DisposeCalls(d: Disposable, n: nat): seq<nat>
    decreases n
  {
    if n == 0 then [] else DisposeEffect(d) + DisposeCalls(d, n - 1)
  }

  /** Disposing the default any number of times is the same as never disposing it. */
  lemma {:induction false} DefaultDisposeIsInert(n: nat)
    ensures DisposeCalls(Instance(), n) == DisposeCalls(Instance(), 0)
    decreases n
  {
    if n > 0 {
      DefaultDisposeIsInert(n - 1);
    }
  }

  /** `n` calls of `dispose()` on one non-default disposable release its resource `n` times; the observe-on sink swaps `cancel` out so that it never makes a second call. */
  lemma {:induction false} ResourceDisposeCalls(id: nat, n: nat)
    ensures |DisposeCalls(Resource(id), n)| == n
    ensures forall i :: 0 <= i < n ==> DisposeCalls(Resource(id), n)[i] == id
    decreases n
  {
    if n > 0 {
      ResourceDisposeCalls(id, n - 1);
    }
  }
}
