/**
 * `VirtualTimeSchedulerBase`: a single-threaded scheduler over an integer clock.
 * Scheduling appends an item to a plain queue and returns a handle whose
 * disposal removes that item at once; `start` repeatedly pops the item due
 * first and runs it, moving the clock forward only.
 *
 * Actions are abstract: running one appends an `Execution` to `executed`.
 */
module VirtualTimeScheduler {
  import opened Integers
  import opened Results
  import opened VirtualTimeQueue

  /**
   * The queued items carry the ids of their serial numbers (the count of earlier
   * `schedule` calls); serials strictly increase along the queue and stay below `bound`.
   */
  ghost predicate Tagged(q: seq<Item>, serials: seq<nat>, bound: nat)
    decreases |q|
  {
    && |q| == |serials|
    && (q != [] ==>
      var n := |q| - 1;
      && q[n].id == Wrap(serials[n])
      && serials[n] < bound
      && Tagged(q[..n], serials[..n], serials[n]))
  }

  lemma TaggedRaiseBound(q: seq<Item>, serials: seq<nat>, bound: nat, bound': nat)
    requires Tagged(q, serials, bound) && bound <= bound'
    ensures Tagged(q, serials, bound')
  {
  }

  /** Appending an item tagged with a serial above all the others keeps the tagging. */
  lemma TaggedSnoc(q: seq<Item>, serials: seq<nat>, x: Item, serial: nat, bound: nat)
    requires Tagged(q, serials, serial)
    requires x.id == Wrap(serial) && serial < bound
    ensures Tagged(q + [x], serials + [serial], bound)
  {
    assert (q + [x])[..|q|] == q;
    assert (serials + [serial])[..|serials|] == serials;
  }

  /** Scheduling appends an item tagged with the next serial. */
  lemma TaggedAppend(q: seq<Item>, serials: seq<nat>, issued: nat, time: Int)
    requires Tagged(q, serials, issued)
    ensures Tagged(q + [Item(Wrap(issued), time)], serials + [issued], issued + 1)
  {
    TaggedSnoc(q, serials, Item(Wrap(issued), time), issued, issued + 1);
  }

  /** Removing an item and its serial together keeps the tagging. */
  lemma {:induction false} TaggedRemoveAt(q: seq<Item>, serials: seq<nat>, bound: nat, k: nat)
    requires Tagged(q, serials, bound) && k < |q|
    ensures Tagged(RemoveAt(q, k), RemoveAt(serials, k), bound)
    decreases |q|
  {
    var n := |q| - 1;
    var p, ps := q[..n], serials[..n];
    if k == n {
      assert RemoveAt(q, k) == p;
      assert RemoveAt(serials, k) == ps;
      TaggedRaiseBound(p, ps, serials[n], bound);
    } else {
      TaggedRemoveAt(p, ps, serials[n], k);
      assert RemoveAt(q, k) == RemoveAt(p, k) + [q[n]];
      assert RemoveAt(serials, k) == RemoveAt(ps, k) + [serials[n]];
      TaggedSnoc(RemoveAt(p, k), RemoveAt(ps, k), q[n], serials[n], bound);
    }
  }

  /** The tagging, stated index by index. */
  lemma {:induction false} TaggedAt(q: seq<Item>, serials: seq<nat>, bound: nat)
    requires Tagged(q, serials, bound)
    ensures forall i :: 0 <= i < |q| ==> q[i].id == Wrap(serials[i]) && serials[i] < bound
    ensures forall i, j :: 0 <= i < j < |serials| ==> serials[i] < serials[j]
    decreases |q|
  {
    if q != [] {
      var n := |q| - 1;
      TaggedAt(q[..n], serials[..n], serials[n]);
    }
  }

  /** While fewer than 2^64 ids have been handed out, queued ids are pairwise distinct. */
  lemma TaggedIdsDistinct(q: seq<Item>, serials: seq<nat>, bound: nat)
    requires Tagged(q, serials, bound) && bound <= Modulus
    ensures forall i, j :: 0 <= i < j < |q| ==> q[i].id != q[j].id
  {
    TaggedAt(q, serials, bound);
    DistinctSerialsGiveDistinctIds(serials);
  }

  /**
   * Removing the first item with an id keeps the tagging and, while ids are
   * distinct, leaves no item with that id.
   */
  lemma RemoveFirstMatch(q: seq<Item>, serials: seq<nat>, bound: nat, k: nat, id: Int)
    requires Tagged(q, serials, bound)
    requires k < |q| && q[k].id == id
    requires forall j :: 0 <= j < k ==> q[j].id != id
    ensures FirstIndexOf(q, id) == Some(k)
    ensures Tagged(RemoveAt(q, k), RemoveAt(serials, k), bound)
    ensures bound <= Modulus ==> forall i :: 0 <= i < |q| - 1 ==> RemoveAt(q, k)[i].id != id
  {
    FirstIndexOfIs(q, id, k);
    TaggedRemoveAt(q, serials, bound, k);
    if bound <= Modulus {
      TaggedIdsDistinct(q, serials, bound);
    }
  }

  /**
   * Cancelling the handle that `schedule` has just returned removes exactly the
   * item it queued, restoring the queue, while fewer than 2^64 ids have been handed out.
   */
  lemma CancelUndoesSchedule(q: seq<Item>, serials: seq<nat>, issued: nat, time: Int)
    requires Tagged(q, serials, issued) && issued < Modulus
    ensures var q' := q + [Item(Wrap(issued), time)];
      && FirstIndexOf(q', Wrap(issued)) == Some(|q|)
      && RemoveAt(q', |q|) == q
  {
    var q' := q + [Item(Wrap(issued), time)];
    TaggedAt(q, serials, issued);
    forall j | 0 <= j < |q|
      ensures q'[j].id != Wrap(issued)
    {
      WrapInjective(serials[j], issued);
    }
    FirstIndexOfIs(q', Wrap(issued), |q|);
    assert RemoveAt(q', |q|) == q;
  }

  /** What `getNext`'s scan has found after looking at the first `index` items. */
  ghost predicate ScanState(q: seq<Item>, index: nat, minDate: Int, minIndex: int, minElement: Option<Item>)
    requires index <= |q|
  {
    match NextIndex(q[..index])
    case None => minElement == None && minIndex == -1 && minDate == IntMax
    case Some(k) => minElement == Some(q[k]) && minIndex == k && minDate == q[k].time
  }

  /** One turn of the scan: an item due strictly before the best so far replaces it. */
  lemma ScanAdvance(q: seq<Item>, index: nat, minDate: Int, minIndex: int, minElement: Option<Item>)
    requires index < |q| && ScanState(q, index, minDate, minIndex, minElement)
    ensures q[index].time < minDate ==> ScanState(q, index + 1, q[index].time, index, Some(q[index]))
    ensures q[index].time >= minDate ==> ScanState(q, index + 1, minDate, minIndex, minElement)
  {
    NextIndexSnoc(q[..index], q[index]);
    assert q[..index + 1] == q[..index] + [q[index]];
  }

  /**
   * When the scan has seen every item it holds the pick of the whole queue, and
   * removing the pick keeps the tagging.
   */
  lemma ScanDone(q: seq<Item>, serials: seq<nat>, bound: nat, minDate: Int, minIndex: int, minElement: Option<Item>)
    requires ScanState(q, |q|, minDate, minIndex, minElement)
    requires Tagged(q, serials, bound)
    ensures NextIndex(q).None? ==> minElement == None
    ensures NextIndex(q).Some? ==>
      && minElement == Some(q[minIndex]) && minIndex == NextIndex(q).value
      && Tagged(RemoveAt(q, minIndex), RemoveAt(serials, minIndex), bound)
  {
    assert q[..|q|] == q;
    if NextIndex(q).Some? {
      TaggedRemoveAt(q, serials, bound, minIndex);
    }
  }

  /** The handle `schedule` returns: its disposal runs the cancel closure for this id. */
  datatype CancelHandle = CancelHandle(id: Int)

  class VirtualTimeSchedulerBase {
    var clock: Int
    var enabled: bool
    /** `ID`, the next id to hand out. */
    var nextId: Int
    /** `schedulerQueue`, in insertion order. */
    var queue: seq<Item>
    /** The actions run so far, with the clock at which each ran. */
    var executed: seq<Execution>

    /** How many ids have been handed out since construction. */
    ghost var issued: nat
    /** For each queued item, the number of the `schedule` call that created it. */
    ghost var serials: seq<nat>

    ghost predicate Valid()
      reads this
    {
      && nextId == Wrap(issued)
      && Tagged(queue, serials, issued)
    }

    constructor (initialClock: Int)
      ensures Valid()
      ensures clock == initialClock && !enabled && queue == [] && nextId == 0 && executed == []
    {
      clock := initialClock;
      enabled := false;
      nextId := 0;
      queue := [];
      executed := [];
      issued := 0;
      serials := [];
    }

    /** `now` */
    function Now(): (r: Int)
      reads this
      ensures r == clock
    {
      clock
    }

    /**
     * `schedule(state, time:, action:)`: queue an item due at `time`, tagged with
     * the current id, and advance the id with a wrapping increment.
     */
    method ScheduleAt(time: Int) returns (r: RxResult<CancelHandle>)
      requires Valid()
      modifies this
      ensures Valid()
      ensures r == Success(CancelHandle(old(nextId)))
      ensures queue == old(queue) + [Item(old(nextId), time)]
      ensures nextId == WrappingIncrement(old(nextId))
      ensures issued == old(issued) + 1
      ensures clock == old(clock) && enabled == old(enabled) && executed == old(executed)
    {
      TaggedAppend(queue, serials, issued, time);
      var latestId := nextId;
      nextId := WrappingIncrement(nextId);
      queue := queue + [Item(latestId, time)];
      serials := serials + [issued];
      issued := issued + 1;
      r := Success(CancelHandle(latestId));
    }

    /**
     * `scheduleRelative`: queue the item at `now + dueTime`. Swift's `+` traps on
     * overflow, so a due time outside `Int` crashes and changes nothing.
     */
    method ScheduleRelative(dueTime: Int) returns (r: Outcome<RxResult<CancelHandle>>)
      requires Valid()
      modifies this
      ensures Valid()
      ensures r.Returns? <==> MinInt <= old(clock) as int + dueTime as int <= MaxInt
      ensures r.Crashes? ==> r.fault == IntegerOverflow && unchanged(this)
      ensures r.Returns? ==>
        && r.value == Success(CancelHandle(old(nextId)))
        && queue == old(queue) + [Item(old(nextId), (old(clock) as int + dueTime as int) as Int)]
        && nextId == WrappingIncrement(old(nextId))
        && issued == old(issued) + 1
        && clock == old(clock) && enabled == old(enabled) && executed == old(executed)
    {
      var due := Now() as int + dueTime as int;
      if due < MinInt || due > MaxInt {
        r := Crashes(IntegerOverflow);
      } else {
        var handle := ScheduleAt(due as Int);
        r := Returns(handle);
      }
    }

    /** `schedule(state, action)`: a relative schedule with delay 0, so due now. */
    method Schedule() returns (r: RxResult<CancelHandle>)
      requires Valid()
      modifies this
      ensures Valid()
      ensures r == Success(CancelHandle(old(nextId)))
      ensures queue == old(queue) + [Item(old(nextId), old(clock))]
      ensures nextId == WrappingIncrement(old(nextId))
      ensures issued == old(issued) + 1
      ensures clock == old(clock) && enabled == old(enabled) && executed == old(executed)
    {
      var outcome := ScheduleRelative(0);
      r := outcome.value;
    }

    /**
     * The cancel closure of the handle: remove the first queued item with the
     * handle's id, if there is one. An item already popped leaves the queue as it is.
     */
    method Cancel(handle: CancelHandle)
      requires Valid()
      modifies this
      ensures Valid()
      ensures match FirstIndexOf(old(queue), handle.id)
        case None => queue == old(queue)
        case Some(k) => queue == RemoveAt(old(queue), k)
      ensures issued <= Modulus ==> forall i :: 0 <= i < |queue| ==> queue[i].id != handle.id
      ensures clock == old(clock) && enabled == old(enabled) && nextId == old(nextId)
      ensures executed == old(executed) && issued == old(issued)
    {
      for index := 0 to |queue|
        invariant unchanged(this)
        invariant forall j :: 0 <= j < index ==> queue[j].id != handle.id
      {
        if queue[index].id == handle.id {
          RemoveFirstMatch(queue, serials, issued, index, handle.id);
          queue := RemoveAt(queue, index);
          serials := RemoveAt(serials, index);
          return;
        }
      }
      assert FirstIndexOf(queue, handle.id) == None;
    }

    /**
     * `getNext`: scan for the item with the smallest due time, keeping the first
     * of equal ones because the test is strict, starting from `Int.max` so that an
     * item due at `Int.max` is never picked; remove the pick from the queue.
     */
    method GetNext() returns (next: Option<Item>)
      requires Valid()
      modifies this
      ensures Valid()
      ensures match NextIndex(old(queue))
        case None => next == None && queue == old(queue)
        case Some(k) => next == Some(old(queue)[k]) && queue == RemoveAt(old(queue), k)
      ensures clock == old(clock) && enabled == old(enabled) && nextId == old(nextId)
      ensures executed == old(executed) && issued == old(issued)
    {
      var minDate := IntMax;
      var minElement: Option<Item> := None;
      var minIndex := -1;
      assert queue[..0] == [];
      for index := 0 to |queue|
        invariant unchanged(this)
        invariant ScanState(queue, index, minDate, minIndex, minElement)
      {
        var item := queue[index];
        ScanAdvance(queue, index, minDate, minIndex, minElement);
        if item.time < minDate {
          minDate := item.time;
          minElement := Some(item);
          minIndex := index;
        }
      }
      ScanDone(queue, serials, issued, minDate, minIndex, minElement);
      if minElement.Some? {
        queue := RemoveAt(queue, minIndex);
        serials := RemoveAt(serials, minIndex);
      }
      next := minElement;
    }

    /**
     * `start`: unless already running, drain the queue. Each popped item moves the
     * clock forward to its due time if that is later and then runs; the loop stops,
     * clearing `enabled`, when `getNext` finds nothing.
     */
    method Start()
      requires Valid()
      modifies this
      ensures Valid()
      ensures old(enabled) ==> enabled && clock == old(clock) && queue == old(queue) && executed == old(executed)
      ensures !old(enabled) ==>
        var r := Drain(old(clock), old(queue));
        && !enabled
        && clock == r.clock
        && queue == r.remaining
        && executed == old(executed) + r.trace
      ensures clock >= old(clock)
      ensures nextId == old(nextId) && issued == old(issued)
    {
      if !enabled {
        enabled := true;
        ghost var goal := Drain(clock, queue);
        while enabled
          invariant Valid()
          invariant nextId == old(nextId) && issued == old(issued)
          invariant DrainsTo(clock, queue, executed, old(executed), goal)
          invariant !enabled ==> NextIndex(queue).None?
          decreases |queue| + (if enabled then 1 else 0)
        {
          ghost var before, beforeClock, beforeExecuted := queue, clock, executed;
          var next := GetNext();
          if next.Some? {
            DrainsToStep(beforeClock, before, beforeExecuted, old(executed), goal, NextIndex(before).value);
            var item := next.value;
            if item.time > clock {
              clock := item.time;
            }
            executed := executed + [Execution(item, clock)];
          } else {
            enabled := false;
          }
        }
        DrainsToEnd(clock, queue, executed, old(executed), goal);
      }
    }
  }
}
