/** Detection and order management run together: a source trade that the tracker emits is taken by the
    pipeline once, may become one order, and that order is sent to the adapter at most once
    (crates/wallet_tracker/src/tracker.rs, crates/app/src/tasks.rs, crates/app/src/pipeline.rs,
    crates/execution/src/order_manager.rs). */
module CopyRuns {
  import opened Money
  import opened Orders
  import opened Dedup
  import opened Tracker
  import OM = OrderManagement

  /** The tracker's log, the manager's history, which emitted trade each order copies, and which of the
      emitted trades the pipeline has taken. */
  datatype Copier = Copier(log: Log, history: OM.History, origins: map<OrderId, nat>, taken: set<nat>)

  datatype CopyStep =
    | Delivered(event: Event)
    | Copied(trade: nat, request: OrderRequest)
    | Passed(ignored: nat)
    | Managed(step: OM.Step)

  /** The `n`th emitted trade waits for the pipeline. */
  predicate Waits(c: Copier, n: nat) {
    n < |c.log.actionable| && n !in c.taken
  }

  /** The pipeline takes each emitted trade once, in any order, and registers at most one order for it,
      under a fresh id; only the pipeline registers orders. */
  predicate Legal(c: Copier, s: CopyStep) {
    match s
    case Delivered(_) => true
    case Copied(n, r) => Waits(c, n) && r.id !in c.history.orders
    case Passed(n) => Waits(c, n)
    case Managed(step) => !step.RegisterStep?
  }

  function TakeCopyStep(c: Copier, s: CopyStep): Copier
    requires Legal(c, s)
  {
    match s
    case Delivered(e) => c.(log := TakeEvent(c.log, e))
    case Copied(n, r) =>
      var h := OM.TakeStep(c.history, OM.RegisterStep(r));
      c.(history := h,
         origins := if r.id in h.orders then c.origins[r.id := n] else c.origins,
         taken := c.taken + {n})
    case Passed(n) => c.(taken := c.taken + {n})
    case Managed(step) => c.(history := OM.TakeStep(c.history, step))
  }

  /** `run` starts from a tracker in any state and no orders, and each state follows from the one before. */
  ghost predicate IsCopyRun(run: seq<Copier>, steps: seq<CopyStep>, start: TrackerState) {
    && |run| == |steps| + 1
    && run[0] == Copier(Log(start, []), OM.EMPTY_HISTORY, map[], {})
    && forall i :: 0 <= i < |steps| ==> Legal(run[i], steps[i]) && run[i + 1] == TakeCopyStep(run[i], steps[i])
  }

  /** Emitted trades are pairwise distinct, new since the start, and held by the index. */
  ghost predicate EmittedOnce(l: Log, start: Index) {
    && (forall i, j :: 0 <= i < j < |l.actionable| ==> l.actionable[i] != l.actionable[j])
    && (forall e :: e in l.actionable ==> Count(start, e.key) <= e.occurrence < Count(l.state.index, e.key))
    && (forall k :: Count(start, k) <= Count(l.state.index, k))
  }

  /** Every order copies one of the trades taken so far, and no two copy the same. */
  ghost predicate CopiedOnce(c: Copier) {
    && (forall n :: n in c.taken ==> n < |c.log.actionable|)
    && c.origins.Keys == c.history.orders.Keys
    && (forall id :: id in c.origins ==> c.origins[id] in c.taken)
    && (forall i, j :: i in c.origins && j in c.origins && i != j ==> c.origins[i] != c.origins[j])
  }

  ghost predicate CopyInv(c: Copier, start: Index) {
    EmittedOnce(c.log, start) && CopiedOnce(c) && OM.HistoryInv(c.history)
  }

  lemma EventKeepsEmittedOnce(l: Log, e: Event, start: Index)
    requires EmittedOnce(l, start)
    ensures EmittedOnce(TakeEvent(l, e), start) && l.actionable <= TakeEvent(l, e).actionable
  {
    hide TakeEvent, Count;
    ActionsClaimUnheldOrdinals(l, e);
    var l' := TakeEvent(l, e);
    if l'.actionable != l.actionable {
      var id :| l'.actionable == l.actionable + [id]
        && Count(l.state.index, id.key) <= id.occurrence < Count(l'.state.index, id.key);
      assert id !in l.actionable;
      assert forall d :: d in l'.actionable <==> d in l.actionable || d == id;
      assert Count(start, id.key) <= Count(l.state.index, id.key);
    }
  }

  /** Only registering adds an order. */
  lemma ManagingAddsNoOrder(h: OM.History, step: OM.Step)
    requires !step.RegisterStep?
    ensures OM.TakeStep(h, step).orders.Keys == h.orders.Keys
  {
  }

  lemma StepKeepsCopyInv(c: Copier, s: CopyStep, start: Index)
    requires CopyInv(c, start) && Legal(c, s)
    ensures CopyInv(TakeCopyStep(c, s), start)
  {
    hide OM.HistoryInv, TakeEvent, OM.TakeStep, Count;
    match s
    case Delivered(e) => EventKeepsEmittedOnce(c.log, e, start);
    case Copied(_, r) =>
      OM.StepKeepsInv(c.history, OM.RegisterStep(r));
      RegisteringAddsOne(c.history, r);
    case Passed(_) =>
    case Managed(step) =>
      OM.StepKeepsInv(c.history, step);
      ManagingAddsNoOrder(c.history, step);
  }

  lemma RegisteringAddsOne(h: OM.History, r: OrderRequest)
    requires r.id !in h.orders
    ensures var h' := OM.TakeStep(h, OM.RegisterStep(r));
      h'.orders.Keys == h.orders.Keys || h'.orders.Keys == h.orders.Keys + {r.id}
  {
  }

  lemma {:induction false} RunsKeepCopyInv(run: seq<Copier>, steps: seq<CopyStep>, start: TrackerState, i: nat)
    requires IsCopyRun(run, steps, start) && i <= |steps|
    ensures CopyInv(run[i], start.index)
  {
    hide CopyInv, TakeCopyStep, Legal;
    if i == 0 {
      NothingCopiedYet(start);
    } else {
      RunsKeepCopyInv(run, steps, start, i - 1);
      StepKeepsCopyInv(run[i - 1], steps[i - 1], start.index);
    }
  }

  lemma NothingCopiedYet(start: TrackerState)
    ensures CopyInv(Copier(Log(start, []), OM.EMPTY_HISTORY, map[], {}), start.index)
  {
    OM.EmptyHistoryInv();
  }

  /** The source trade an order copies. */
  function SourceOf(c: Copier, id: OrderId): Option<EventId> {
    if id in c.origins && c.origins[id] < |c.log.actionable| then Some(c.log.actionable[c.origins[id]]) else None
  }

  /** However live and backfilled rows, restores, wallet changes, the pipeline, submissions, fills and
      cancellations interleave, no source trade reaches the adapter twice, and none does that the index
      already held when the run began. */
  lemma TradesReachTheAdapterAtMostOnce(run: seq<Copier>, steps: seq<CopyStep>, start: TrackerState, i: nat)
    requires IsCopyRun(run, steps, start) && i <= |steps|
    ensures var c := run[i];
      && (forall id :: id in c.history.calls ==>
            && SourceOf(c, id).Some?
            && Count(start.index, SourceOf(c, id).value.key) <= SourceOf(c, id).value.occurrence)
      && (forall j, k :: 0 <= j < k < |c.history.calls| ==>
            SourceOf(c, c.history.calls[j]) != SourceOf(c, c.history.calls[k]))
  {
    hide Count;
    RunsKeepCopyInv(run, steps, start, i);
  }
}
