/** The rebuild scheduler of `observeSwagger`: a mutation batch that adds nodes
    asks for a rebuild of the sidebar; the request is coalesced through the
    `rebuildScheduled` flag so that at most one rebuild is pending, and the flag
    drops back when the scheduled work runs, even if the work throws.  The same
    callback also asks the response panel to refresh for every operation block
    that a class change has just opened. */
module Scheduler {
  import opened Dom

  datatype MutationType = ChildList | Attributes

  /** A MutationRecord: its type, how many nodes it adds, the name of the
      attribute it changed (`None` for child-list records) and its target. */
  datatype MutationRecord = MutationRecord(
    kind: MutationType,
    addedNodes: nat,
    attributeName: Option<string>,
    target: Node)

  /** The batch decision: some record of the batch adds nodes. */
  predicate AddsNodes(batch: seq<MutationRecord>) {
    exists i | 0 <= i < |batch| :: batch[i].addedNodes > 0
  }

  /** The record says that the `class` attribute of an operation block changed
      and the block is now open. */
  predicate OpensOperation(m: MutationRecord) {
    && m.kind == Attributes
    && m.attributeName == Some("class")
    && m.target.classList.Some?
    && "opblock" in m.target.classList.value
    && "is-open" in m.target.classList.value
  }

  /** The blocks the panel is asked to show, one per opening record, in order:
      the last clicked block when there is one, else the opened block itself. */
  function RefreshTargets(batch: seq<MutationRecord>, lastClicked: Option<Node>): seq<Node> {
    if batch == [] then []
    else
      var m := batch[|batch| - 1];
      RefreshTargets(batch[..|batch| - 1], lastClicked)
      + (if OpensOperation(m) then [lastClicked.GetOr(m.target)] else [])
  }

  /** The loop of the observer callback over one batch: whether to schedule a
      rebuild, and the panel refreshes to request. */
  method ScanBatch(batch: seq<MutationRecord>, lastClicked: Option<Node>)
    returns (shouldRebuild: bool, refreshes: seq<Node>)
    ensures shouldRebuild <==> AddsNodes(batch)
    ensures refreshes == RefreshTargets(batch, lastClicked)
  {
    shouldRebuild := false;
    refreshes := [];
    for i := 0 to |batch|
      invariant shouldRebuild <==> exists j :: 0 <= j < i && batch[j].addedNodes > 0
      invariant refreshes == RefreshTargets(batch[..i], lastClicked)
    {
      var m := batch[i];
      if m.addedNodes > 0 {
        shouldRebuild := true;
      }
      if m.kind == Attributes && m.attributeName == Some("class") {
        var t := m.target;
        if t.classList.Some? && "opblock" in t.classList.value && "is-open" in t.classList.value {
          var preferred := if lastClicked.Some? then lastClicked.value else t;
          refreshes := refreshes + [preferred];
        }
      }
      assert batch[..i + 1][..i] == batch[..i];
    }
    assert batch[..|batch|] == batch;
  }

  /** With a block clicked before, every refresh targets that block; otherwise
      each targets a block whose opening the batch reports. */
  lemma {:induction false} RefreshTargetsChoice(batch: seq<MutationRecord>, lastClicked: Option<Node>)
    ensures lastClicked.Some? ==>
      forall t :: t in RefreshTargets(batch, lastClicked) ==> t == lastClicked.value
    ensures lastClicked.None? ==>
      forall t :: t in RefreshTargets(batch, lastClicked) ==>
        exists i :: 0 <= i < |batch| && OpensOperation(batch[i]) && batch[i].target == t
  {
    if batch != [] {
      var init := batch[..|batch| - 1];
      RefreshTargetsChoice(init, lastClicked);
      if lastClicked.None? {
        forall t | t in RefreshTargets(batch, lastClicked)
          ensures exists i :: 0 <= i < |batch| && OpensOperation(batch[i]) && batch[i].target == t
        {
          if t in RefreshTargets(init, lastClicked) {
            var i :| 0 <= i < |init| && OpensOperation(init[i]) && init[i].target == t;
            assert batch[i] == init[i];
          }
        }
      }
    }
  }

  // ---------------------------------------------------------------------------
  // The scheduling state machine

  /** The flag, the number of idle/timer callbacks queued by the scheduler and
      not yet run, and the number of rebuilds run so far. */
  datatype SchedulerState = SchedulerState(rebuildScheduled: bool, queuedCallbacks: nat, rebuildsRun: nat)

  /** The flag is raised exactly while one callback is queued: never two. */
  predicate Consistent(s: SchedulerState) {
    s.queuedCallbacks <= 1 && (s.rebuildScheduled <==> s.queuedCallbacks == 1)
  }

  /** `scheduleRebuild`: returns at once while a rebuild is pending, otherwise
      raises the flag and queues the work. */
  function Schedule(s: SchedulerState): SchedulerState {
    if s.rebuildScheduled then s
    else s.(rebuildScheduled := true, queuedCallbacks := s.queuedCallbacks + 1)
  }

  /** The queued `work` callback: rebuilds, and in its `finally` lowers the flag. */
  function Work(s: SchedulerState): SchedulerState
    requires s.queuedCallbacks > 0
  {
    s.(rebuildScheduled := false, queuedCallbacks := s.queuedCallbacks - 1, rebuildsRun := s.rebuildsRun + 1)
  }

  /** What reaches the scheduler: a mutation batch, or the event loop running
      the queued callback. */
  datatype Event = Batch(records: seq<MutationRecord>) | IdleCallback

  function Step(s: SchedulerState, e: Event): SchedulerState {
    match e
    case Batch(records) => if AddsNodes(records) then Schedule(s) else s
    case IdleCallback => if s.queuedCallbacks > 0 then Work(s) else s
  }

  function Run(s: SchedulerState, events: seq<Event>): SchedulerState
    decreases |events|
  {
    if events == [] then s else Run(Step(s, events[0]), events[1..])
  }

  /** Every step keeps the flag and the queue in agreement, so at most one
      rebuild is ever pending. */
  lemma {:induction false} RunConsistent(s: SchedulerState, events: seq<Event>)
    requires Consistent(s)
    ensures Consistent(Run(s, events))
    decreases |events|
  {
    if events != [] {
      RunConsistent(Step(s, events[0]), events[1..]);
    }
  }

  lemma {:induction false} RunAppend(s: SchedulerState, a: seq<Event>, b: seq<Event>)
    ensures Run(s, a + b) == Run(Run(s, a), b)
    decreases |a|
  {
    if a != [] {
      assert (a + b)[0] == a[0];
      assert (a + b)[1..] == a[1..] + b;
      RunAppend(Step(s, a[0]), a[1..], b);
    } else {
      assert a + b == b;
    }
  }

  predicate SomeBatchAddsNodes(events: seq<Event>) {
    exists i | 0 <= i < |events| :: events[i].Batch? && AddsNodes(events[i].records)
  }

  /** Any number of batches arriving while no callback runs leave at most one
      rebuild pending, pending exactly when one of them (or an earlier one)
      added nodes, and run no rebuild. */
  lemma {:induction false} BatchesCoalesce(s: SchedulerState, events: seq<Event>)
    requires Consistent(s)
    requires forall i :: 0 <= i < |events| ==> events[i].Batch?
    ensures Run(s, events).rebuildsRun == s.rebuildsRun
    ensures Run(s, events).rebuildScheduled == (s.rebuildScheduled || SomeBatchAddsNodes(events))
    ensures Run(s, events).queuedCallbacks == (if Run(s, events).rebuildScheduled then 1 else 0)
    decreases |events|
  {
    if events != [] {
      var t := Step(s, events[0]);
      BatchesCoalesce(t, events[1..]);
      if SomeBatchAddsNodes(events[1..]) {
        var i :| 0 <= i < |events[1..]| && events[1..][i].Batch? && AddsNodes(events[1..][i].records);
        assert events[i + 1] == events[1..][i];
      }
      if SomeBatchAddsNodes(events) && !AddsNodes(events[0].records) {
        var i :| 0 <= i < |events| && events[i].Batch? && AddsNodes(events[i].records);
        assert events[1..][i - 1] == events[i];
      }
    }
  }

  /** M batches, at least one adding nodes, that arrive before the scheduled
      work runs lead to exactly one rebuild, after which the scheduler is idle. */
  lemma RebuildRunsOnce(s: SchedulerState, batches: seq<Event>)
    requires Consistent(s) && !s.rebuildScheduled
    requires forall i :: 0 <= i < |batches| ==> batches[i].Batch?
    requires SomeBatchAddsNodes(batches)
    ensures Run(s, batches + [IdleCallback]) == s.(rebuildsRun := s.rebuildsRun + 1)
  {
    RunAppend(s, batches, [IdleCallback]);
    BatchesCoalesce(s, batches);
  }

  /** The scheduler as the closure of `observeSwagger` holds it: only the flag
      is real state; the queue of the event loop and the count of rebuilds run
      are ghost bookkeeping. */
  class RebuildScheduler {
    var rebuildScheduled: bool
    ghost var queuedCallbacks: nat
    ghost var rebuildsRun: nat

    ghost function Snapshot(): SchedulerState
      reads this
    {
      SchedulerState(rebuildScheduled, queuedCallbacks, rebuildsRun)
    }

    ghost predicate Valid()
      reads this
    {
      Consistent(Snapshot())
    }

    constructor ()
      ensures Valid() && Snapshot() == SchedulerState(false, 0, 0)
    {
      rebuildScheduled := false;
      queuedCallbacks := 0;
      rebuildsRun := 0;
    }

    /** `scheduleRebuild`: a call while a rebuild is pending changes nothing. */
    method ScheduleRebuild()
      requires Valid()
      modifies this
      ensures Valid() && Snapshot() == Schedule(old(Snapshot()))
      ensures old(rebuildScheduled) ==> Snapshot() == old(Snapshot())
      ensures rebuildScheduled && queuedCallbacks == 1
    {
      if rebuildScheduled {
        return;
      }
      rebuildScheduled := true;
      queuedCallbacks := queuedCallbacks + 1;
    }

    /** The queued `work` callback.  `workThrows` says whether rebuilding threw;
        either way the flag is lowered and the exception, if any, is passed on. */
    method RunWork(workThrows: bool) returns (threw: bool)
      requires Valid() && queuedCallbacks > 0
      modifies this
      ensures Valid() && Snapshot() == Work(old(Snapshot()))
      ensures !rebuildScheduled && queuedCallbacks == 0
      ensures threw == workThrows
    {
      queuedCallbacks := queuedCallbacks - 1;
      rebuildsRun := rebuildsRun + 1;
      threw := workThrows;
      rebuildScheduled := false;
    }

    /** The MutationObserver callback: scans the batch, schedules a rebuild when
        some record added nodes, and returns the panel refreshes it requests. */
    method OnMutations(batch: seq<MutationRecord>, lastClicked: Option<Node>) returns (refreshes: seq<Node>)
      requires Valid()
      modifies this
      ensures Valid() && Snapshot() == Step(old(Snapshot()), Batch(batch))
      ensures refreshes == RefreshTargets(batch, lastClicked)
    {
      var shouldRebuild;
      shouldRebuild, refreshes := ScanBatch(batch, lastClicked);
      if shouldRebuild {
        ScheduleRebuild();
      }
    }
  }
}
