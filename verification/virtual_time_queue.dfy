/**
 * The virtual-time scheduler's work queue as values: an item is its id and due
 * time (the action and boxed state are abstract), `NextIndex` is the item
 * `getNext` selects, and `Drain` is what `start` does with a queue whose actions
 * schedule no further work.
 */
module VirtualTimeQueue {
  import opened Integers
  import opened Results

  datatype Item = Item(id: Int, time: Int)

  /** An action invoked by `start`, with the clock at the moment it ran. */
  datatype Execution = Execution(item: Item, clock: Int)

  /** `removeAtIndex(k)` */
  function RemoveAt<T>(s: seq<T>, k: nat): (r: seq<T>)
    requires k < |s|
    ensures |r| == |s| - 1
  {
    s[..k] + s[k + 1..]
  }

  /** Removing index `k` takes out exactly `s[k]`; every other element stays, in order. */
  lemma RemoveAtKeepsOthers<T>(s: seq<T>, k: nat)
    requires k < |s|
    ensures forall i :: 0 <= i < k ==> RemoveAt(s, k)[i] == s[i]
    ensures forall i :: k <= i < |s| - 1 ==> RemoveAt(s, k)[i] == s[i + 1]
    ensures multiset(RemoveAt(s, k)) + multiset{s[k]} == multiset(s)
  {
    assert s == s[..k] + [s[k]] + s[k + 1..];
  }

  /**
   * `k` is the index `getNext` picks: due before `Int.max`, due no later than any
   * other item, and due strictly before every item queued ahead of it.
   */
  predicate IsNext(q: seq<Item>, k: int) {
    && 0 <= k < |q|
    && q[k].time < IntMax
    && (forall j :: 0 <= j < |q| ==> q[k].time <= q[j].time)
    && (forall j :: 0 <= j < k ==> q[k].time < q[j].time)
  }

  /** The item `getNext` removes, if any: nothing exactly when every item is due at `Int.max`. */
  function NextIndex(q: seq<Item>): (r: Option<nat>)
    ensures r.Some? ==> IsNext(q, r.value)
    ensures r.None? <==> forall j :: 0 <= j < |q| ==> q[j].time == IntMax
    decreases |q|
  {
    if q == [] then None
    else
      var rest := NextIndex(q[1..]);
      assert forall j :: 1 <= j < |q| ==> q[j] == q[1..][j - 1];
      if q[0].time < IntMax && (rest.None? || q[0].time <= q[1 + rest.value].time) then Some(0)
      else if rest.None? then None
      else Some(1 + rest.value)
  }

  /** At most one index satisfies `IsNext`, and `NextIndex` finds it. */
  lemma NextIndexIsTheNext(q: seq<Item>, k: int)
    requires IsNext(q, k)
    ensures NextIndex(q) == Some(k)
  {
    var r := NextIndex(q);
    assert r.Some? by {
      assert q[k].time != IntMax;
    }
  }

  /** An appended item due strictly before the current pick (or, with no pick, before `Int.max`) is the new pick. */
  lemma SnocPicksNew(q: seq<Item>, x: Item)
    requires match NextIndex(q)
      case None => x.time < IntMax
      case Some(k) => x.time < q[k].time
    ensures NextIndex(q + [x]) == Some(|q|)
  {
    var qx := q + [x];
    assert forall j :: 0 <= j < |q| ==> qx[j] == q[j];
    assert forall j :: 0 <= j < |q| ==> x.time < q[j].time;
    NextIndexIsTheNext(qx, |q|);
  }

  /** An appended item due no earlier than the current pick leaves the pick as it was. */
  lemma SnocKeepsPick(q: seq<Item>, x: Item, k: nat)
    requires NextIndex(q) == Some(k) && q[k].time <= x.time
    ensures NextIndex(q + [x]) == Some(k)
  {
    var qx := q + [x];
    assert forall j :: 0 <= j < |q| ==> qx[j] == q[j];
    NextIndexIsTheNext(qx, k);
  }

  /** One step of the `getNext` scan: appending `x` moves the pick to `x` exactly when `x` is due strictly earlier. */
  lemma NextIndexSnoc(q: seq<Item>, x: Item)
    ensures NextIndex(q + [x]) ==
      match NextIndex(q)
      case None => if x.time < IntMax then Some(|q|) else None
      case Some(k) => if x.time < q[k].time then Some(|q|) else Some(k)
  {
    match NextIndex(q)
    case None =>
      if x.time < IntMax {
        SnocPicksNew(q, x);
      } else {
        assert forall j :: 0 <= j < |q| ==> (q + [x])[j] == q[j];
      }
    case Some(k) =>
      if x.time < q[k].time {
        SnocPicksNew(q, x);
      } else {
        SnocKeepsPick(q, x, k);
      }
  }

  /** The index of the first item with this id, as the cancel closure's scan finds it. */
  function FirstIndexOf(q: seq<Item>, id: Int): (r: Option<nat>)
    ensures r.Some? ==> r.value < |q| && q[r.value].id == id
    ensures r.Some? ==> forall j :: 0 <= j < r.value ==> q[j].id != id
    ensures r.None? <==> forall j :: 0 <= j < |q| ==> q[j].id != id
    decreases |q|
  {
    if q == [] then None
    else if q[0].id == id then Some(0)
    else
      var rest := FirstIndexOf(q[1..], id);
      assert forall j :: 1 <= j < |q| ==> q[j] == q[1..][j - 1];
      if rest.None? then None else Some(1 + rest.value)
  }

  /** The scan stops at the first match. */
  lemma FirstIndexOfIs(q: seq<Item>, id: Int, k: int)
    requires 0 <= k < |q| && q[k].id == id
    requires forall j :: 0 <= j < k ==> q[j].id != id
    ensures FirstIndexOf(q, id) == Some(k)
  {
  }

  /** The items of `q`, in order, that are due at `Int.max` (`atMax`) or before it (`!atMax`). */
  function Select(q: seq<Item>, atMax: bool): seq<Item>
    decreases |q|
  {
    if q == [] then []
    else (if (q[0].time == IntMax) == atMax then [q[0]] else []) + Select(q[1..], atMax)
  }

  /** The selection keeps only items of `q`, and only those on the chosen side of `Int.max`. */
  lemma {:induction false} SelectMembers(q: seq<Item>, atMax: bool, x: Item)
    requires x in Select(q, atMax)
    ensures x in q && (x.time == IntMax) == atMax
    decreases |q|
  {
    if x in Select(q[1..], atMax) {
      SelectMembers(q[1..], atMax, x);
    }
  }

  lemma {:induction false} SelectAppend(a: seq<Item>, b: seq<Item>, atMax: bool)
    ensures Select(a + b, atMax) == Select(a, atMax) + Select(b, atMax)
    decreases |a|
  {
    if a == [] {
      assert a + b == b;
    } else {
      var head := if (a[0].time == IntMax) == atMax then [a[0]] else [];
      assert (a + b)[0] == a[0];
      assert (a + b)[1..] == a[1..] + b;
      SelectAppend(a[1..], b, atMax);
      assert Select(a + b, atMax) == head + (Select(a[1..], atMax) + Select(b, atMax));
      assert Select(a, atMax) == head + Select(a[1..], atMax);
    }
  }

  /** Selecting from a queue with one item cut out is selecting from the parts around it. */
  lemma SelectAround(q: seq<Item>, k: nat, atMax: bool)
    requires k < |q|
    ensures Select(q, atMax) == Select(q[..k], atMax) + Select([q[k]], atMax) + Select(q[k + 1..], atMax)
    ensures Select(RemoveAt(q, k), atMax) == Select(q[..k], atMax) + Select(q[k + 1..], atMax)
  {
    var a, b := q[..k], q[k + 1..];
    assert q == a + ([q[k]] + b);
    assert RemoveAt(q, k) == a + b;
    SelectAppend(a, [q[k]] + b, atMax);
    SelectAppend([q[k]], b, atMax);
    SelectAppend(a, b, atMax);
  }

  lemma SelectOne(x: Item, atMax: bool)
    ensures Select([x], atMax) == if (x.time == IntMax) == atMax then [x] else []
  {
    assert [x][1..] == [];
  }

  /** Removing an item due before `Int.max` takes exactly that item out of the due selection. */
  lemma SelectDueRemoveAt(q: seq<Item>, k: nat)
    requires k < |q| && q[k].time < IntMax
    ensures multiset(Select(RemoveAt(q, k), false)) + multiset{q[k]} == multiset(Select(q, false))
  {
    var a, b := Select(q[..k], false), Select(q[k + 1..], false);
    SelectAround(q, k, false);
    SelectOne(q[k], false);
    assert Select(q, false) == a + [q[k]] + b;
  }

  /** Removing an item leaves the selection of the other side of `Int.max` as it was. */
  lemma SelectOtherSideRemoveAt(q: seq<Item>, k: nat, atMax: bool)
    requires k < |q| && (q[k].time == IntMax) != atMax
    ensures Select(RemoveAt(q, k), atMax) == Select(q, atMax)
  {
    var a, b := Select(q[..k], atMax), Select(q[k + 1..], atMax);
    SelectAround(q, k, atMax);
    SelectOne(q[k], atMax);
    assert a + [] + b == a + b;
  }

  /** A queue whose items are all due at `Int.max` is entirely stranded. */
  lemma {:induction false} SelectAllAtMax(q: seq<Item>)
    requires forall j :: 0 <= j < |q| ==> q[j].time == IntMax
    ensures Select(q, true) == q && Select(q, false) == []
    decreases |q|
  {
    if q != [] {
      SelectAllAtMax(q[1..]);
      assert q == [q[0]] + q[1..];
    }
  }

  function Items(t: seq<Execution>): (r: seq<Item>)
    ensures |r| == |t|
    ensures forall i :: 0 <= i < |t| ==> r[i] == t[i].item
    decreases |t|
  {
    if t == [] then [] else [t[0].item] + Items(t[1..])
  }

  lemma ItemsPrepend(e: Execution, t: seq<Execution>)
    ensures Items([e] + t) == [e.item] + Items(t)
  {
    assert ([e] + t)[1..] == t;
  }

  /** Final clock, the actions run in order, and the items left behind. */
  datatype DrainResult = DrainResult(clock: Int, trace: seq<Execution>, remaining: seq<Item>)

  /**
   * `start`'s drain loop on actions that schedule nothing: pop the next item,
   * move the clock forward to its due time if that is later, run it, repeat
   * until `getNext` finds nothing.
   */
  function Drain(clock: Int, q: seq<Item>): (r: DrainResult)
    ensures r.clock >= clock
    decreases |q|
  {
    match NextIndex(q)
    case None => DrainResult(clock, [], q)
    case Some(k) =>
      var c := if q[k].time > clock then q[k].time else clock;
      var rest := Drain(c, RemoveAt(q, k));
      DrainResult(rest.clock, [Execution(q[k], c)] + rest.trace, rest.remaining)
  }

  /** One turn of the drain loop, as `start` takes it. */
  lemma DrainStep(clock: Int, q: seq<Item>)
    ensures NextIndex(q).None? ==> Drain(clock, q) == DrainResult(clock, [], q)
    ensures NextIndex(q).Some? ==>
      var k := NextIndex(q).value;
      var c := Max(clock, q[k].time);
      var rest := Drain(c, RemoveAt(q, k));
      Drain(clock, q) == DrainResult(rest.clock, [Execution(q[k], c)] + rest.trace, rest.remaining)
  {
  }

  /**
   * Invariant of `start`'s loop: draining what is left from here ends where the
   * whole drain from `start` ends, and what has run plus what will run is what
   * the whole drain runs.
   */
  ghost predicate DrainsTo(clock: Int, q: seq<Item>, ran: seq<Execution>, before: seq<Execution>, goal: DrainResult) {
    var r := Drain(clock, q);
    r.clock == goal.clock && r.remaining == goal.remaining && ran + r.trace == before + goal.trace
  }

  /** Popping the next item, moving the clock and running the item keeps the loop invariant. */
  lemma DrainsToStep(clock: Int, q: seq<Item>, ran: seq<Execution>, before: seq<Execution>, goal: DrainResult, k: nat)
    requires DrainsTo(clock, q, ran, before, goal)
    requires NextIndex(q) == Some(k)
    ensures var c := Max(clock, q[k].time);
      DrainsTo(c, RemoveAt(q, k), ran + [Execution(q[k], c)], before, goal)
  {
    DrainStep(clock, q);
    var c := Max(clock, q[k].time);
    var rest := Drain(c, RemoveAt(q, k));
    assert ran + [Execution(q[k], c)] + rest.trace == ran + ([Execution(q[k], c)] + rest.trace);
  }

  /** When `getNext` finds nothing the loop has reached the end of the drain. */
  lemma DrainsToEnd(clock: Int, q: seq<Item>, ran: seq<Execution>, before: seq<Execution>, goal: DrainResult)
    requires DrainsTo(clock, q, ran, before, goal)
    requires NextIndex(q).None?
    ensures clock == goal.clock && q == goal.remaining && ran == before + goal.trace
  {
    DrainStep(clock, q);
  }

  /**
   * Every queued item due before `Int.max` runs exactly once (as a multiset), and
   * the items due at `Int.max` stay queued, in their order.
   */
  lemma {:induction false} DrainRunsEachDueItemOnce(clock: Int, q: seq<Item>)
    ensures multiset(Items(Drain(clock, q).trace)) == multiset(Select(q, false))
    ensures Drain(clock, q).remaining == Select(q, true)
    decreases |q|
  {
    match NextIndex(q)
    case None =>
      SelectAllAtMax(q);
    case Some(k) =>
      var c := if q[k].time > clock then q[k].time else clock;
      var rest := Drain(c, RemoveAt(q, k));
      DrainRunsEachDueItemOnce(c, RemoveAt(q, k));
      SelectDueRemoveAt(q, k);
      SelectOtherSideRemoveAt(q, k, true);
      ItemsPrepend(Execution(q[k], c), rest.trace);
  }

  /** Only items that were queued, and due before `Int.max`, are run. */
  lemma DrainRunsQueuedItems(clock: Int, q: seq<Item>, j: int)
    requires 0 <= j < |Drain(clock, q).trace|
    ensures Drain(clock, q).trace[j].item in q
    ensures Drain(clock, q).trace[j].item in Select(q, false)
  {
    var t := Drain(clock, q).trace;
    var x := t[j].item;
    DrainRunsEachDueItemOnce(clock, q);
    assert x == Items(t)[j];
    assert x in multiset(Select(q, false));
    SelectMembers(q, false, x);
  }

  /** Every action the drain runs after the next item is due no earlier than that item. */
  lemma LaterRunsAreDueNoEarlier(c: Int, q: seq<Item>, k: nat, j: nat)
    requires NextIndex(q) == Some(k)
    requires j < |Drain(c, RemoveAt(q, k)).trace|
    ensures q[k].time <= Drain(c, RemoveAt(q, k)).trace[j].item.time
  {
    var q' := RemoveAt(q, k);
    var x := Drain(c, q').trace[j].item;
    DrainRunsQueuedItems(c, q', j);
    RemoveAtKeepsOthers(q, k);
    assert x in multiset(q');
    assert x in q;
  }

  /** Actions run in non-decreasing order of due time. */
  predicate InDueTimeOrder(t: seq<Execution>) {
    forall i, j :: 0 <= i < j < |t| ==> t[i].item.time <= t[j].item.time
  }

  /** Each action runs with the clock at the later of `clock` and its own due time. */
  predicate RunsAtDueTime(clock: Int, t: seq<Execution>) {
    forall i :: 0 <= i < |t| ==> t[i].clock == Max(clock, t[i].item.time)
  }

  /** Putting a run due no later than everything after it at the front keeps both properties. */
  lemma PrependRun(clock: Int, e: Execution, t: seq<Execution>)
    requires InDueTimeOrder(t) && RunsAtDueTime(e.clock, t)
    requires e.clock == Max(clock, e.item.time)
    requires forall j :: 0 <= j < |t| ==> e.item.time <= t[j].item.time
    ensures InDueTimeOrder([e] + t) && RunsAtDueTime(clock, [e] + t)
  {
    var t' := [e] + t;
    assert forall i :: 1 <= i < |t'| ==> t'[i] == t[i - 1];
  }

  /** `start` runs actions in due-time order, each at the later of the starting clock and its due time. */
  lemma {:induction false} DrainRunsInDueTimeOrder(clock: Int, q: seq<Item>)
    ensures InDueTimeOrder(Drain(clock, q).trace)
    ensures RunsAtDueTime(clock, Drain(clock, q).trace)
    decreases |q|
  {
    match NextIndex(q)
    case None =>
    case Some(k) =>
      var c := if q[k].time > clock then q[k].time else clock;
      var q' := RemoveAt(q, k);
      var rest := Drain(c, q');
      DrainRunsInDueTimeOrder(c, q');
      forall j | 0 <= j < |rest.trace|
        ensures q[k].time <= rest.trace[j].item.time
      {
        LaterRunsAreDueNoEarlier(c, q, k, j);
      }
      PrependRun(clock, Execution(q[k], c), rest.trace);
  }

  /** The final clock is the starting clock if nothing ran, otherwise the later of it and the last due time run. */
  lemma {:induction false} DrainFinalClock(clock: Int, q: seq<Item>)
    ensures var r := Drain(clock, q);
      && (r.trace == [] ==> r.clock == clock)
      && (r.trace != [] ==> r.clock == Max(clock, r.trace[|r.trace| - 1].item.time))
    decreases |q|
  {
    DrainStep(clock, q);
    match NextIndex(q)
    case None =>
    case Some(k) =>
      var c := Max(clock, q[k].time);
      var q' := RemoveAt(q, k);
      var rest := Drain(c, q');
      var t := [Execution(q[k], c)] + rest.trace;
      assert Drain(clock, q).trace == t && Drain(clock, q).clock == rest.clock;
      DrainFinalClock(c, q');
      if rest.trace == [] {
        assert t[|t| - 1].item == q[k];
      } else {
        LaterRunsAreDueNoEarlier(c, q, k, |rest.trace| - 1);
        assert t[|t| - 1] == rest.trace[|rest.trace| - 1];
      }
  }

  /**
   * The drain leaves the clock at the maximum of its starting value and the due
   * times of all items due before `Int.max`.
   */
  lemma DrainEndsAtLatestDueTime(clock: Int, q: seq<Item>)
    ensures var r := Drain(clock, q);
      && (forall x :: x in Select(q, false) ==> x.time <= r.clock)
      && (r.clock == clock || exists x :: x in Select(q, false) && x.time == r.clock)
  {
    var r := Drain(clock, q);
    var t := r.trace;
    DrainRunsEachDueItemOnce(clock, q);
    DrainFinalClock(clock, q);
    if t != [] {
      DrainRunsInDueTimeOrder(clock, q);
      DrainRunsQueuedItems(clock, q, |t| - 1);
      forall x | x in Select(q, false)
        ensures x.time <= r.clock
      {
        assert x in multiset(Items(t));
        LastRunIsLatest(t, x);
      }
    } else {
      assert multiset(Select(q, false)) == multiset{};
    }
  }

  /** In a run in due-time order no action is due later than the last one. */
  lemma LastRunIsLatest(t: seq<Execution>, x: Item)
    requires InDueTimeOrder(t) && x in Items(t)
    ensures x.time <= t[|t| - 1].item.time
  {
    var j :| 0 <= j < |t| && Items(t)[j] == x;
    assert t[j].item == x;
    if j < |t| - 1 {
      assert t[j].item.time <= t[|t| - 1].item.time;
    }
  }
}
