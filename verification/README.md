# RxSwift scheduling core in Dafny

This project models four pieces of RxSwift's scheduling machinery:

- **The virtual-time scheduler** (`VirtualTimeSchedulerBase`) of the test suite. It is a class with:
  - a virtual `clock` and an `enabled` flag;
  - an `ID` counter that advances with Swift's wrapping `&+`;
  - a queue of scheduled items in insertion order.

  Its operations are `schedule` at an absolute time (which hands out a cancel closure), `scheduleRelative`, `schedule` with no delay, `getNext` and `start`.

  `getNext` does the following:
  - it scans for the smallest due time, starting from `Int.max` and using a strict `<`;
  - so among equal due times the earliest-queued item wins, and an item due at `Int.max` is never picked;
  - it removes the item it picks.

  The cancel closure removes the first queued item with its id at once (VirtualTimeSchedulerBase.swift:70-81).

  `start` does the following:
  - it pops items one at a time;
  - it moves the clock forward to an item's due time when that is later;
  - it runs the item;
  - it stops, clearing `enabled`, when `getNext` finds nothing.
- **The scheduler base and the scheduled-action error policy** (`Scheduler.swift`):
  - the abstract members crash with `abstractMethod()`;
  - `ensureScheduledSuccessfully` lets a success through;
  - it turns a failure into the fatal `ScheduledActionError` exception.
- **The observe-on operator for dispatch queues**:
  - the sink forwards events to its superclass;
  - the sink's `dispose` first runs its superclass's `dispose`, then swaps `cancel` for the default disposable and then disposes the value it held;
  - the producer's `run` builds the sink, hands it to `setSink` and subscribes it to the source.
- **`DefaultDisposable`**: the shared no-op disposable.

## Modules

- `integers.dfy` (`Integers`): Swift's 64-bit `Int` as a newtype, `&+ 1` written out as a wrapping increment, and the value of the id counter after `n` increments.
- `results.dfy` (`Results`):
  - `RxResult`, `Option` and the error type;
  - `Outcome`, which says whether a call returns or ends the process. Raising an `NSException`, calling `abstractMethod()` and an overflowing `+` all end the process.
- `scheduler.dfy` (`Scheduler`): the abstract base and the error policy.
- `disposables.dfy` (`Disposables`):
  - disposables as values. `DefaultDisposable` stands for the singleton, and `Resource(id)` for any other disposable, whose disposal releases that resource.
- `observe_on_dispatch_queue.dfy` (`ObserveOnDispatchQueue`): the sink and the producer as classes.
  - The effects of code outside the model are recorded in a shared `Trace`, so their order is part of the contracts. This covers the superclass's `dispose`, `setSink`, `source.subscribe` and releasing a resource.
- `virtual_time_queue.dfy` (`VirtualTimeQueue`): the scheduler's queue as values.
  - `NextIndex` is the item `getNext` picks.
  - `FirstIndexOf` is the item the cancel closure finds.
  - `Drain` is what `start` does to a queue, with its clock, its run order and what it leaves behind.
- `virtual_time_scheduler.dfy` (`VirtualTimeScheduler`): the scheduler class.
  - Its methods are proved against those functions.
  - Its invariant `Valid` says that each queued item carries the id of the `schedule` call that created it.
  - Because of that invariant, ids are pairwise distinct while fewer than 2^64 have been handed out.

## Model

| member | source | states |
|---|---|---|
| Integers.WrappingIncrement | RxTests/RxSwiftTests/TestImplementations/Schedulers/VirtualTimeSchedulerBase.swift:57 | `ID &+ 1` adds one below `Int.max` and wraps `Int.max` to `Int.min` |
| Integers.WrapClosedForm | RxTests/RxSwiftTests/TestImplementations/Schedulers/VirtualTimeSchedulerBase.swift:37-57 | after `n < 2^64` increments from 0 the counter is `n` up to `Int.max` and `n - 2^64` beyond it |
| Integers.WrapInjective | RxTests/RxSwiftTests/TestImplementations/Schedulers/VirtualTimeSchedulerBase.swift:37-57 | two different increment counts below 2^64 give different ids |
| Integers.DistinctSerialsGiveDistinctIds | RxTests/RxSwiftTests/TestImplementations/Schedulers/VirtualTimeSchedulerBase.swift:56-57 | strictly increasing call numbers below 2^64 give pairwise distinct ids |
| Scheduler.ErrorDuringScheduledAction | RxSwift/RxSwift/Scheduler.swift:59-64 | always ends in a raised `ScheduledActionError` exception that carries the error; the `SuccessResult` after the raise is never returned |
| Scheduler.EnsureScheduledSuccessfully | RxSwift/RxSwift/Scheduler.swift:49-57 | returns exactly when the result is a success, and then returns `SuccessResult`; a failure raises the exception for its error |
| Scheduler.SchedulerBase.Now | RxSwift/RxSwift/Scheduler.swift:17-21 | without an override, `now` ends in `abstractMethod()` |
| Scheduler.SchedulerBase.Schedule | RxSwift/RxSwift/Scheduler.swift:27-29 | without an override, `schedule` ends in `abstractMethod()` |
| Scheduler.SchedulerBase.ScheduleRelative | RxSwift/RxSwift/Scheduler.swift:31-33 | without an override, `scheduleRelative` ends in `abstractMethod()` |
| Disposables.DisposeEffect | RxSwift/RxSwift/Disposables/DefaultDisposable.swift:25-26 | a dispose call releases at most one resource: nothing exactly for the default disposable, otherwise only the disposable's own resource |
| Disposables.Instance | RxSwift/RxSwift/Disposables/DefaultDisposable.swift:13-19 | the shared instance releases nothing when disposed, and it is the only disposable that releases nothing |
| Disposables.DefaultDisposeIsInert | RxSwift/RxSwift/Disposables/DefaultDisposable.swift:25-26 | disposing the shared instance any number of times releases nothing |
| Disposables.ResourceDisposeCalls | RxSwift/RxSwift/Observables/Implementations/ObserveOnDispatchQueue.swift:28-34 | `n` calls of `dispose()` on the same non-default disposable release its resource `n` times; the swap in the sink's `dispose` is what keeps the sink from making a second call |
| ObserveOnDispatchQueue.ReleaseSteps | RxSwift/RxSwift/Observables/Implementations/ObserveOnDispatchQueue.swift:34 | the trace steps of `toDispose.dispose()` are one release step per resource the disposable releases |
| ObserveOnDispatchQueue.SinkDispose | RxSwift/RxSwift/Observables/Implementations/ObserveOnDispatchQueue.swift:25-35 | one `dispose` leaves `cancel` as the shared default, runs `super.dispose()` first, and releases exactly what the old `cancel` releases |
| ObserveOnDispatchQueue.RepeatedDisposeReleasesOriginalOnce | RxSwift/RxSwift/Observables/Implementations/ObserveOnDispatchQueue.swift:25-35 | for any `n >= 1` dispose calls, the original `cancel` is released exactly once and `super.dispose()` runs `n` times |
| ObserveOnDispatchQueue.ObserveOnDispatchQueueSink.constructor | RxSwift/RxSwift/Observables/Implementations/ObserveOnDispatchQueue.swift:16-19 | the sink stores the `cancel` it is given and has forwarded nothing |
| ObserveOnDispatchQueue.ObserveOnDispatchQueueSink.OnCore | RxSwift/RxSwift/Observables/Implementations/ObserveOnDispatchQueue.swift:21-23 | the event is passed unchanged to the superclass and `cancel` is untouched |
| ObserveOnDispatchQueue.ObserveOnDispatchQueueSink.Dispose | RxSwift/RxSwift/Observables/Implementations/ObserveOnDispatchQueue.swift:25-35 | the new `cancel` and the steps added to the trace are those of `SinkDispose` for the old `cancel`; forwarded events are untouched |
| ObserveOnDispatchQueue.Source.Subscribe | RxSwift/RxSwift/Observables/Implementations/ObserveOnDispatchQueue.swift:50 | the source records the observer, logs that subscription with that observer, and returns its subscription |
| ObserveOnDispatchQueue.ObserveOnDispatchQueue.constructor | RxSwift/RxSwift/Observables/Implementations/ObserveOnDispatchQueue.swift:42-45 | the producer keeps its source |
| ObserveOnDispatchQueue.ObserveOnDispatchQueue.Run | RxSwift/RxSwift/Observables/Implementations/ObserveOnDispatchQueue.swift:47-51 | a fresh sink holds `cancel`; `setSink` receives that sink, and then the source is subscribed with that same sink; the sink is the source's new observer, and the source's subscription is returned |
| VirtualTimeQueue.RemoveAtKeepsOthers | RxTests/RxSwiftTests/TestImplementations/Schedulers/VirtualTimeSchedulerBase.swift:75 | `removeAtIndex(k)` keeps every other element in order and takes out exactly the element at `k` |
| VirtualTimeQueue.NextIndex | RxTests/RxSwiftTests/TestImplementations/Schedulers/VirtualTimeSchedulerBase.swift:105-125 | the pick is due before `Int.max`, due no later than any item, and due strictly earlier than every item ahead of it; there is no pick exactly when every item is due at `Int.max` |
| VirtualTimeQueue.NextIndexIsTheNext | RxTests/RxSwiftTests/TestImplementations/Schedulers/VirtualTimeSchedulerBase.swift:105-125 | any index meeting that description is the pick, so the pick is unique |
| VirtualTimeQueue.NextIndexSnoc | RxTests/RxSwiftTests/TestImplementations/Schedulers/VirtualTimeSchedulerBase.swift:111-119 | one scan step moves the pick to the new item exactly when it is due strictly earlier than the best so far, or before `Int.max` when there is no pick yet |
| VirtualTimeQueue.SnocPicksNew | RxTests/RxSwiftTests/TestImplementations/Schedulers/VirtualTimeSchedulerBase.swift:112-116 | an appended item due strictly earlier than the current pick becomes the pick |
| VirtualTimeQueue.SnocKeepsPick | RxTests/RxSwiftTests/TestImplementations/Schedulers/VirtualTimeSchedulerBase.swift:112 | an appended item due no earlier than the current pick leaves the pick as it was |
| VirtualTimeQueue.FirstIndexOf | RxTests/RxSwiftTests/TestImplementations/Schedulers/VirtualTimeSchedulerBase.swift:71-80 | the cancel closure's scan finds the first item with the id, or nothing exactly when no item has it |
| VirtualTimeQueue.FirstIndexOfIs | RxTests/RxSwiftTests/TestImplementations/Schedulers/VirtualTimeSchedulerBase.swift:73-77 | the scan stops at the first match |
| VirtualTimeQueue.Drain | RxTests/RxSwiftTests/TestImplementations/Schedulers/VirtualTimeSchedulerBase.swift:86-103 | the clock never moves backwards |
| VirtualTimeQueue.DrainsToStep | RxTests/RxSwiftTests/TestImplementations/Schedulers/VirtualTimeSchedulerBase.swift:90-95 | popping, moving the clock and running the pick keeps the loop on course for the whole drain |
| VirtualTimeQueue.DrainsToEnd | RxTests/RxSwiftTests/TestImplementations/Schedulers/VirtualTimeSchedulerBase.swift:97-101 | when `getNext` finds nothing, the clock, the queue and what has run are exactly the drain's result |
| VirtualTimeQueue.DrainRunsEachDueItemOnce | RxTests/RxSwiftTests/TestImplementations/Schedulers/VirtualTimeSchedulerBase.swift:86-103 | `start` runs every queued item due before `Int.max` exactly once, counted as a multiset, and leaves the items due at `Int.max` queued in their order |
| VirtualTimeQueue.DrainRunsQueuedItems | RxTests/RxSwiftTests/TestImplementations/Schedulers/VirtualTimeSchedulerBase.swift:90-95 | every action run is one that was queued and due before `Int.max` |
| VirtualTimeQueue.LaterRunsAreDueNoEarlier | RxTests/RxSwiftTests/TestImplementations/Schedulers/VirtualTimeSchedulerBase.swift:90-95 | everything run after the first pick is due no earlier than that pick |
| VirtualTimeQueue.DrainRunsInDueTimeOrder | RxTests/RxSwiftTests/TestImplementations/Schedulers/VirtualTimeSchedulerBase.swift:89-95 | actions run in non-decreasing due-time order, each with the clock at the later of the starting clock and its own due time |
| VirtualTimeQueue.DrainFinalClock | RxTests/RxSwiftTests/TestImplementations/Schedulers/VirtualTimeSchedulerBase.swift:91-93 | the final clock is the starting clock if nothing ran, otherwise the later of it and the last due time run |
| VirtualTimeQueue.DrainEndsAtLatestDueTime | RxTests/RxSwiftTests/TestImplementations/Schedulers/VirtualTimeSchedulerBase.swift:86-103 | the final clock is at least every due time before `Int.max`, and is either the starting clock or one of those due times |
| VirtualTimeScheduler.TaggedAppend | RxTests/RxSwiftTests/TestImplementations/Schedulers/VirtualTimeSchedulerBase.swift:56-68 | appending an item with the current id keeps every queued item tagged with its call number |
| VirtualTimeScheduler.TaggedRemoveAt | RxTests/RxSwiftTests/TestImplementations/Schedulers/VirtualTimeSchedulerBase.swift:75 | removing any item keeps the tagging |
| VirtualTimeScheduler.TaggedAt | RxTests/RxSwiftTests/TestImplementations/Schedulers/VirtualTimeSchedulerBase.swift:56-68 | each queued id is the counter value of its call number; call numbers increase along the queue and stay below the number of calls |
| VirtualTimeScheduler.TaggedIdsDistinct | RxTests/RxSwiftTests/TestImplementations/Schedulers/VirtualTimeSchedulerBase.swift:56-57 | while fewer than 2^64 ids have been handed out, queued ids are pairwise distinct |
| VirtualTimeScheduler.RemoveFirstMatch | RxTests/RxSwiftTests/TestImplementations/Schedulers/VirtualTimeSchedulerBase.swift:70-81 | the first match is what `FirstIndexOf` finds; removing it keeps the tagging and, while ids are distinct, leaves no item with that id |
| VirtualTimeScheduler.CancelUndoesSchedule | RxTests/RxSwiftTests/TestImplementations/Schedulers/VirtualTimeSchedulerBase.swift:55-81 | cancelling the handle `schedule` just returned finds exactly the item it queued, and removing it gives back the previous queue |
| VirtualTimeScheduler.ScanAdvance | RxTests/RxSwiftTests/TestImplementations/Schedulers/VirtualTimeSchedulerBase.swift:111-119 | each turn of `getNext`'s loop keeps `minDate`, `minElement` and `minIndex` equal to the pick of the items scanned so far |
| VirtualTimeScheduler.ScanDone | RxTests/RxSwiftTests/TestImplementations/Schedulers/VirtualTimeSchedulerBase.swift:121-125 | after the scan, `minElement` is nil exactly when there is no pick, otherwise it is the pick at `minIndex`; removing it keeps the tagging |
| VirtualTimeScheduler.VirtualTimeSchedulerBase.constructor | RxTests/RxSwiftTests/TestImplementations/Schedulers/VirtualTimeSchedulerBase.swift:36-43 | starts at the initial clock, not enabled, with an empty queue and id 0 |
| VirtualTimeScheduler.VirtualTimeSchedulerBase.Now | RxTests/RxSwiftTests/TestImplementations/Schedulers/VirtualTimeSchedulerBase.swift:24-28 | `now` is the virtual clock |
| VirtualTimeScheduler.VirtualTimeSchedulerBase.ScheduleAt | RxTests/RxSwiftTests/TestImplementations/Schedulers/VirtualTimeSchedulerBase.swift:55-84 | succeeds with a handle for the current id, appends an item with that id and due time, advances the id with `&+ 1` and changes nothing else |
| VirtualTimeScheduler.VirtualTimeSchedulerBase.ScheduleRelative | RxTests/RxSwiftTests/TestImplementations/Schedulers/VirtualTimeSchedulerBase.swift:51-53 | schedules at `now + dueTime`; if that sum overflows `Int` the process traps and nothing changes |
| VirtualTimeScheduler.VirtualTimeSchedulerBase.Schedule | RxTests/RxSwiftTests/TestImplementations/Schedulers/VirtualTimeSchedulerBase.swift:45-49 | schedules at the current clock, which never overflows |
| VirtualTimeScheduler.VirtualTimeSchedulerBase.Cancel | RxTests/RxSwiftTests/TestImplementations/Schedulers/VirtualTimeSchedulerBase.swift:70-81 | removes the first item with the handle's id, or leaves the queue as it is if there is none; while ids are distinct no item with that id remains |
| VirtualTimeScheduler.VirtualTimeSchedulerBase.GetNext | RxTests/RxSwiftTests/TestImplementations/Schedulers/VirtualTimeSchedulerBase.swift:105-126 | returns and removes the `NextIndex` pick, or returns nil and leaves the queue as it is |
| VirtualTimeScheduler.VirtualTimeSchedulerBase.Start | RxTests/RxSwiftTests/TestImplementations/Schedulers/VirtualTimeSchedulerBase.swift:86-103 | when already enabled it does nothing; otherwise the clock, the queue and the actions run become those of `Drain` from the old clock and queue, and `enabled` ends false |

## Left out

- The `disposeLock` around the swap in the sink's `dispose`: the model is sequential, so the swap is one step and concurrent calls are not modelled.
- Thread safety in general: the virtual-time scheduler has no lock, and the dispatch queues are not modelled.
- The bodies of scheduled actions. An action is an opaque item, and `start` records each run with the clock at that moment. The result of the action is ignored, as in the code.
- VirtualTimeScheduler.VirtualTimeSchedulerBase.Start: the contract covers actions that do not call back into the scheduler. Reentrant `schedule`, cancel or `start` calls made from inside a running action are not modelled.
- The `CompositeDisposable` that `schedule` returns is modelled as a `CancelHandle` that carries the id. Adding the action's own disposable to it is not modelled. A `CompositeDisposable` runs its cancel closure at most once, but the model's `Cancel` can be called again with the same handle; after the id counter has wrapped, such a second call can remove a different item that shares the id.
- The boxed `state` and the `state` argument: they are only handed to the action.
- `description` and the `Printable` conformance (VirtualTimeSchedulerBase.swift:30-34): string formatting.
- The superclass `ScheduledSerialSchedulerObserver`:
  - its delivery of events on the queue appears only as the `forwarded` list;
  - its `dispose` appears only as the `SuperDisposed` step.
- The producer's scheduler: not used by `run` beyond building the sink, so it is not modelled.
- `DispatchQueueScheduler`, `MainScheduler`, `Observable+Concurrency` and the UI files are not part of this model.
- VirtualTimeScheduler.VirtualTimeSchedulerBase.Cancel: "no item with the id remains" is stated only while fewer than 2^64 ids have been handed out. After the counter wraps, two queued items can share an id, and the closure removes only the first.
