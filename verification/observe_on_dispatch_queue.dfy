/**
 * The observe-on operator for a dispatch-queue scheduler: its sink, whose
 * `dispose` swaps the `cancel` field for the default disposable before disposing
 * the old value, and the producer's `run`, which wires the sink to the source.
 *
 * The effects of the collaborators that are not modelled (the superclass that
 * forwards events onto the queue, the producer's `setSink`, the source's
 * `subscribe`, the disposal of a resource) are recorded as steps of a shared
 * `Trace`, so the order in which they happen is part of the contracts.
 */
module ObserveOnDispatchQueue {
  import opened Results
  import opened Disposables

  datatype Event<E> = Next(value: E) | Error(error: ErrorType) | Completed

  datatype Step =
    | SuperDisposed             // the sink's own `super.dispose()`
    | Released(id: nat)         // a resource was disposed
    | SinkSet(sink: object)     // the producer's `setSink` received `sink`
    | SourceSubscribed(observer: object)  // `source.subscribe(observer)` ran

  class Trace {
    var steps: seq<Step>

    constructor ()
      ensures steps == []
    {
      steps := [];
    }
  }

  /** The steps one `dispose()` of `d` adds to the trace. */
  function ReleaseSteps(d: Disposable): (s: seq<Step>)
    ensures |s| == |DisposeEffect(d)|
    ensures forall i :: 0 <= i < |s| ==> s[i] == Released(DisposeEffect(d)[i])
  {
    if d.Resource? then [Released(d.id)] else []
  }

  /** The resources released by a run of steps, in order. */
  function Releases(steps: seq<Step>): seq<nat>
  {
    if steps == [] then []
    else (if steps[0].Released? then [steps[0].id] else []) + Releases(steps[1..])
  }

  /** How many times the sink's `super.dispose()` ran in a run of steps. */
  function SuperDisposals(steps: seq<Step>): nat
  {
    if steps == [] then 0
    else (if steps[0] == SuperDisposed then 1 else 0) + SuperDisposals(steps[1..])
  }

  lemma {:induction false} ReleasesAppend(a: seq<Step>, b: seq<Step>)
    ensures Releases(a + b) == Releases(a) + Releases(b)
    ensures SuperDisposals(a + b) == SuperDisposals(a) + SuperDisposals(b)
    decreases |a|
  {
    if a == [] {
      assert a + b == b;
    } else {
      var head := if a[0].Released? then [a[0].id] else [];
      assert (a + b)[0] == a[0];
      assert (a + b)[1..] == a[1..] + b;
      ReleasesAppend(a[1..], b);
      assert Releases(a + b) == head + (Releases(a[1..]) + Releases(b));
      assert Releases(a) == head + Releases(a[1..]);
    }
  }

  /** One call of the sink's `dispose`: the new `cancel` field and the steps taken. */
  datatype DisposeCall = DisposeCall(cancel: Disposable, steps: seq<Step>)

  function SinkDispose(cancel: Disposable): (r: DisposeCall)
    ensures r.cancel == Instance()
    ensures |r.steps| >= 1 && r.steps[0] == SuperDisposed
    ensures Releases(r.steps) == DisposeEffect(cancel)
  {
    var steps := [SuperDisposed] + ReleaseSteps(cancel);
    assert Releases(steps) == DisposeEffect(cancel) by {
      assert steps[1..] == ReleaseSteps(cancel);
      if cancel.Resource? {
        assert ReleaseSteps(cancel)[1..] == [];
        assert Releases(ReleaseSteps(cancel)) == [cancel.id] + Releases([]);
      }
    }
    DisposeCall(Instance(), steps)
  }

  /** The steps of `n` successive `dispose()` calls on a sink whose `cancel` starts as `cancel`. */
  function SinkDisposeRepeatedly(cancel: Disposable, n: nat): seq<Step>
    decreases n
  {
    if n == 0 then []
    else
      var call := SinkDispose(cancel);
      call.steps + SinkDisposeRepeatedly(call.cancel, n - 1)
  }

  /**
   * However many times the sink is disposed, the original `cancel` is released
   * exactly once (and a default `cancel` never), while `super.dispose()` runs
   * on every call.
   */
  lemma {:induction false} RepeatedDisposeReleasesOriginalOnce(cancel: Disposable, n: nat)
    requires n >= 1
    ensures Releases(SinkDisposeRepeatedly(cancel, n)) == DisposeEffect(cancel)
    ensures SuperDisposals(SinkDisposeRepeatedly(cancel, n)) == n
    decreases n
  {
    var call := SinkDispose(cancel);
    ReleasesAppend(call.steps, SinkDisposeRepeatedly(call.cancel, n - 1));
    assert SuperDisposals(call.steps) == 1 by {
      ReleasesAppend([SuperDisposed], ReleaseSteps(cancel));
      assert SuperDisposals(ReleaseSteps(cancel)) == 0 by {
        if cancel.Resource? {
          assert ReleaseSteps(cancel)[1..] == [];
        }
      }
      assert [SuperDisposed][1..] == [];
    }
    if n > 1 {
      RepeatedDisposeReleasesOriginalOnce(call.cancel, n - 1);
    }
  }

  /** `ObserveOnDispatchQueueSink`. The lock around the swap is left out: the swap is one sequential step. */
  class ObserveOnDispatchQueueSink<E> {
    var cancel: Disposable
    /** Stand-in for the superclass: the events handed on for delivery on the queue. */
    var forwarded: seq<Event<E>>
    const trace: Trace

    constructor (cancel: Disposable, trace: Trace)
      ensures this.cancel == cancel && this.trace == trace && forwarded == []
    {
      this.cancel := cancel;
      this.trace := trace;
      forwarded := [];
    }

    /** `onCore` hands the event unchanged to the superclass. */
    method OnCore(event: Event<E>)
      modifies this
      ensures forwarded == old(forwarded) + [event]
      ensures cancel == old(cancel)
    {
      forwarded := forwarded + [event];
    }

    /**
     * `super.dispose()`, then swap `cancel` for the default disposable, then
     * dispose the value `cancel` held before the swap.
     */
    method Dispose()
      modifies this, trace
      ensures cancel == SinkDispose(old(cancel)).cancel
      ensures trace.steps == old(trace.steps) + SinkDispose(old(cancel)).steps
      ensures forwarded == old(forwarded)
    {
      trace.steps := trace.steps + [SuperDisposed];
      var toDispose := cancel;
      cancel := Instance();
      trace.steps := trace.steps + ReleaseSteps(toDispose);
    }
  }

  /** Stand-in for the source observable: records its subscribers and hands out one subscription. */
  class Source<E> {
    var observers: seq<ObserveOnDispatchQueueSink<E>>
    const subscription: Disposable

    constructor (subscription: Disposable)
      ensures observers == [] && this.subscription == subscription
    {
      observers := [];
      this.subscription := subscription;
    }

    method Subscribe(observer: ObserveOnDispatchQueueSink<E>, trace: Trace) returns (d: Disposable)
      modifies this, trace
      ensures observers == old(observers) + [observer]
      ensures trace.steps == old(trace.steps) + [SourceSubscribed(observer)]
      ensures d == subscription
    {
      observers := observers + [observer];
      trace.steps := trace.steps + [SourceSubscribed(observer)];
      d := subscription;
    }
  }

  /** `ObserveOnDispatchQueue`, the producer; its scheduler is not part of this model. */
  class ObserveOnDispatchQueue<E> {
    const source: Source<E>

    constructor (source: Source<E>)
      ensures this.source == source
    {
      this.source := source;
    }

    /**
     * `run`: build the sink around `cancel`, hand it to `setSink`, then subscribe
     * it to the source and return that subscription.
     */
    method Run(cancel: Disposable, trace: Trace) returns (sink: ObserveOnDispatchQueueSink<E>, subscription: Disposable)
      modifies source, trace
      ensures fresh(sink)
      ensures sink.cancel == cancel && sink.trace == trace && sink.forwarded == []
      ensures trace.steps == old(trace.steps) + [SinkSet(sink), SourceSubscribed(sink)]
      ensures source.observers == old(source.observers) + [sink]
      ensures subscription == source.subscription
    {
      sink := new ObserveOnDispatchQueueSink(cancel, trace);
      trace.steps := trace.steps + [SinkSet(sink)];
      subscription := source.Subscribe(sink, trace);
    }
  }
}
