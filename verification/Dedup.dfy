/** Idempotency of source trades (crates/wallet_tracker/src/dedup.rs). Fills carry no unique key, so
    an event is identified by its content and an ordinal among identical fills. The digest of the
    two is modelled as the pair itself. */
module Dedup {
  import opened Money

  type Address = nat

  datatype ContentKey = ContentKey(txHash: nat, trader: Address, token: TokenId, side: Side, price: Price, size: Qty)

  datatype EventId = EventId(key: ContentKey, occurrence: nat)

  datatype Verdict = New(event: EventId) | Duplicate(event: EventId)

  const MAX_OCCURRENCES_PER_CONTENT := 64

  /** The value of the index at one moment. */
  datatype Index = Index(counts: map<ContentKey, nat>, suspicious: nat)

  const EMPTY_INDEX := Index(map[], 0)

  function Count(x: Index, k: ContentKey): nat {
    if k in x.counts then x.counts[k] else 0
  }

  function MaxNat(a: nat, b: nat): nat {
    if a < b then b else a
  }

  function MinNat(a: nat, b: nat): nat {
    if a < b then a else b
  }

  datatype Observed = Observed(index: Index, verdict: Verdict)

  /** A live arrival is always the next occurrence, up to the ceiling. */
  function AfterLive(x: Index, k: ContentKey): Observed {
    var n := Count(x, k);
    if n >= MAX_OCCURRENCES_PER_CONTENT then
      Observed(Index(x.counts[k := n], x.suspicious + 1), Duplicate(EventId(k, n)))
    else
      Observed(x.(counts := x.counts[k := n + 1]), New(EventId(k, n)))
  }

  /** A backfilled row claims the ordinal it has in its batch, unless that one is already held. */
  function AfterBackfill(x: Index, k: ContentKey, ordinal: nat): Observed {
    var e := EventId(k, ordinal);
    if ordinal >= MAX_OCCURRENCES_PER_CONTENT then Observed(x.(suspicious := x.suspicious + 1), Duplicate(e))
    else if ordinal < Count(x, k) then Observed(x, Duplicate(e))
    else Observed(x.(counts := x.counts[k := ordinal + 1]), New(e))
  }

  function AfterRestore(x: Index, k: ContentKey, occurrences: nat): Index {
    x.(counts := x.counts[k := MaxNat(Count(x, k), occurrences)])
  }

  // ----- the index and the batch counter as they are updated in place

  class DedupIndex {
    var counts: map<ContentKey, nat>
    var suspicious: nat

    ghost function View(): Index
      reads this
    {
      Index(counts, suspicious)
    }

    constructor ()
      ensures View() == EMPTY_INDEX
    {
      counts, suspicious := map[], 0;
    }

    method Restore(k: ContentKey, occurrences: nat)
      modifies this
      ensures View() == AfterRestore(old(View()), k, occurrences)
    {
      var n := if k in counts then counts[k] else 0;
      counts := counts[k := if n < occurrences then occurrences else n];
    }

    method ObserveLive(k: ContentKey) returns (v: Verdict)
      modifies this
      ensures Observed(View(), v) == AfterLive(old(View()), k)
    {
      if k !in counts {
        counts := counts[k := 0];
      }
      var occurrence := counts[k];
      if occurrence >= MAX_OCCURRENCES_PER_CONTENT {
        suspicious := suspicious + 1;
        return Duplicate(EventId(k, occurrence));
      }
      counts := counts[k := occurrence + 1];
      v := New(EventId(k, occurrence));
    }

    method ObserveBackfill(k: ContentKey, ordinal: nat) returns (v: Verdict)
      modifies this
      ensures Observed(View(), v) == AfterBackfill(old(View()), k, ordinal)
    {
      if ordinal >= MAX_OCCURRENCES_PER_CONTENT {
        suspicious := suspicious + 1;
        return Duplicate(EventId(k, ordinal));
      }
      var existing := if k in counts then counts[k] else 0;
      if ordinal < existing {
        return Duplicate(EventId(k, ordinal));
      }
      counts := counts[k := ordinal + 1];
      v := New(EventId(k, ordinal));
    }
  }

  class BatchOrdinals {
    var seen: map<ContentKey, nat>
    ghost var rows: seq<ContentKey>

    ghost predicate Valid()
      reads this
    {
      forall k :: multiset(rows)[k] == if k in seen then seen[k] else 0
    }

    constructor ()
      ensures Valid() && rows == []
    {
      seen, rows := map[], [];
    }

    /** The number of identical rows that came before in this batch. */
    method Next(k: ContentKey) returns (ordinal: nat)
      requires Valid()
      modifies this
      ensures Valid() && rows == old(rows) + [k]
      ensures ordinal == multiset(old(rows))[k]
    {
      ordinal := if k in seen then seen[k] else 0;
      seen := seen[k := ordinal + 1];
      rows := rows + [k];
    }
  }

  // ----- any interleaving of deliveries

  datatype Step =
    | Live(key: ContentKey)
    | Backfill(row: ContentKey, ordinal: nat)
    | Restored(content: ContentKey, occurrences: nat)

  datatype Trace = Trace(index: Index, news: seq<EventId>)

  function NewsIn(v: Verdict): seq<EventId> {
    if v.New? then [v.event] else []
  }

  function TakeStep(t: Trace, s: Step): Trace {
    match s
    case Live(k) =>
      var o := AfterLive(t.index, k);
      Trace(o.index, t.news + NewsIn(o.verdict))
    case Backfill(k, i) =>
      var o := AfterBackfill(t.index, k, i);
      Trace(o.index, t.news + NewsIn(o.verdict))
    case Restored(k, n) => t.(index := AfterRestore(t.index, k, n))
  }

  function TakeSteps(x: Index, steps: seq<Step>): Trace {
    if steps == [] then Trace(x, []) else TakeStep(TakeSteps(x, steps[..|steps| - 1]), steps[|steps| - 1])
  }

  predicate RestoresWithinCeiling(steps: seq<Step>) {
    forall i :: 0 <= i < |steps| && steps[i].Restored? ==> steps[i].occurrences <= MAX_OCCURRENCES_PER_CONTENT
  }

  /** What each step reports: a live fill below the ceiling is the next occurrence of its content, a
      backfilled one is its own ordinal if that is unheld and below the ceiling, and a restore is none. */
  lemma StepsReportExactly(t: Trace, s: Step)
    ensures TakeStep(t, s).news == t.news + match s
      case Live(k) =>
        if Count(t.index, k) < MAX_OCCURRENCES_PER_CONTENT then [EventId(k, Count(t.index, k))] else []
      case Backfill(k, i) => if Count(t.index, k) <= i < MAX_OCCURRENCES_PER_CONTENT then [EventId(k, i)] else []
      case Restored(_, _) => []
  {
  }

  /** A step only raises counts, and reports at most one event, whose ordinal was not yet held. */
  lemma NewsClaimUnheldOrdinals(t: Trace, s: Step)
    ensures var t' := TakeStep(t, s);
      && (forall k :: Count(t'.index, k) >= Count(t.index, k))
      && (t'.news == t.news || exists e ::
            && t'.news == t.news + [e]
            && Count(t.index, e.key) <= e.occurrence < Count(t'.index, e.key)
            && e.occurrence < MAX_OCCURRENCES_PER_CONTENT)
  {
  }

  /** In any interleaving of live, backfill and restore steps, with any ordinals: counts never fall,
      no event is reported New twice, none that the index already held at the start is reported at
      all, and what was reported is held ever after. */
  lemma {:induction false} NewAtMostOnce(x: Index, steps: seq<Step>)
    ensures var t := TakeSteps(x, steps);
      && (forall k :: Count(t.index, k) >= Count(x, k))
      && (forall i, j :: 0 <= i < j < |t.news| ==> t.news[i] != t.news[j])
      && (forall e :: e in t.news ==>
            Count(x, e.key) <= e.occurrence < Count(t.index, e.key) && e.occurrence < MAX_OCCURRENCES_PER_CONTENT)
  {
    hide TakeStep, Count;
    if steps != [] {
      NewAtMostOnce(x, steps[..|steps| - 1]);
      var before := TakeSteps(x, steps[..|steps| - 1]);
      NewsClaimUnheldOrdinals(before, steps[|steps| - 1]);
      var after := TakeSteps(x, steps);
      if after.news != before.news {
        var e :|
          && after.news == before.news + [e]
          && Count(before.index, e.key) <= e.occurrence < Count(after.index, e.key)
          && e.occurrence < MAX_OCCURRENCES_PER_CONTENT;
        assert forall d :: d in after.news <==> d in before.news || d == e;
        assert Count(x, e.key) <= Count(before.index, e.key);
        assert e !in before.news;
      }
    }
  }

  /** With restored counts within the ceiling, no count ever passes it. */
  lemma {:induction false} CountsStayWithinCeiling(x: Index, steps: seq<Step>)
    requires forall k :: Count(x, k) <= MAX_OCCURRENCES_PER_CONTENT
    requires RestoresWithinCeiling(steps)
    ensures forall k :: Count(TakeSteps(x, steps).index, k) <= MAX_OCCURRENCES_PER_CONTENT
  {
    if steps != [] {
      var before := steps[..|steps| - 1];
      assert forall i :: 0 <= i < |before| ==> before[i] == steps[i];
      CountsStayWithinCeiling(x, before);
      var last := steps[|steps| - 1];
      assert last.Restored? ==> last.occurrences <= MAX_OCCURRENCES_PER_CONTENT;
      var t := TakeSteps(x, before);
      assert TakeSteps(x, steps) == TakeStep(t, last);
      forall k
        ensures Count(TakeStep(t, last).index, k) <= MAX_OCCURRENCES_PER_CONTENT
      {
        assert Count(t.index, k) <= MAX_OCCURRENCES_PER_CONTENT;
      }
    }
  }

  // ----- one backfill batch

  /** Every row takes the ordinal it has among identical rows of the batch. */
  function BatchSteps(rows: seq<ContentKey>): seq<Step> {
    if rows == [] then []
    else
      var n := |rows| - 1;
      BatchSteps(rows[..n]) + [Backfill(rows[n], multiset(rows[..n])[rows[n]])]
  }

  function RunBatch(x: Index, rows: seq<ContentKey>): Trace {
    TakeSteps(x, BatchSteps(rows))
  }

  /** How many of the events concern one content. */
  function NewsOf(news: seq<EventId>, k: ContentKey): nat {
    if news == [] then 0 else NewsOf(news[..|news| - 1], k) + if news[|news| - 1].key == k then 1 else 0
  }

  function Capped(m: nat): nat {
    MinNat(m, MAX_OCCURRENCES_PER_CONTENT)
  }

  lemma BatchSplits(x: Index, rows: seq<ContentKey>)
    requires rows != []
    ensures var n := |rows| - 1;
      RunBatch(x, rows) == TakeStep(RunBatch(x, rows[..n]), Backfill(rows[n], multiset(rows[..n])[rows[n]]))
  {
    var n := |rows| - 1;
    var steps := BatchSteps(rows);
    assert steps[..|steps| - 1] == BatchSteps(rows[..n]);
  }

  /** A backfilled row is New for its content exactly when its ordinal is unheld and under the ceiling. */
  lemma BackfillOne(t: Trace, row: ContentKey, ordinal: nat, k: ContentKey)
    ensures var t' := TakeStep(t, Backfill(row, ordinal));
      var taken := row == k && Count(t.index, k) <= ordinal < MAX_OCCURRENCES_PER_CONTENT;
      && Count(t'.index, k) == (if taken then ordinal + 1 else Count(t.index, k))
      && NewsOf(t'.news, k) == NewsOf(t.news, k) + if taken then 1 else 0
  {
    var t' := TakeStep(t, Backfill(row, ordinal));
    if t'.news != t.news {
      assert t'.news[..|t.news|] == t.news;
    }
  }

  lemma NothingReportedYet(x: Index, k: ContentKey)
    ensures RunBatch(x, []).index == x && NewsOf(RunBatch(x, []).news, k) == 0
  {
  }

  /** A batch holding m rows of a content the index holds e times, mixed freely with any other
      contents, reports exactly max(0, min(m, 64) - e) of them as New and leaves the count at
      max(e, min(m, 64)). */
  lemma {:induction false} BatchReconciles(x: Index, rows: seq<ContentKey>, k: ContentKey)
    ensures var t := RunBatch(x, rows);
      var e, m := Count(x, k), multiset(rows)[k];
      && Count(t.index, k) == MaxNat(e, Capped(m))
      && NewsOf(t.news, k) == Count(t.index, k) - e
  {
    hide TakeStep, Count, NewsOf;
    NothingReportedYet(x, k);
    if rows != [] {
      var n := |rows| - 1;
      var before := RunBatch(x, rows[..n]);
      BatchReconciles(x, rows[..n], k);
      BatchSplits(x, rows);
      assert rows == rows[..n] + [rows[n]];
      BackfillOne(before, rows[n], multiset(rows[..n])[rows[n]], k);
    }
  }

  function Copies(k: ContentKey, m: nat): seq<ContentKey> {
    seq(m, _ => k)
  }

  /** Of m identical rows, those past the ceiling are counted as suspicious, and no others. */
  lemma {:induction false} RowsPastTheCeilingAreCounted(x: Index, k: ContentKey, m: nat)
    ensures RunBatch(x, Copies(k, m)).index.suspicious == x.suspicious + m - Capped(m)
  {
    if m > 0 {
      var rows := Copies(k, m);
      assert rows[..m - 1] == Copies(k, m - 1);
      RowsPastTheCeilingAreCounted(x, k, m - 1);
      BatchSplits(x, rows);
      CopiesCount(k, m - 1);
    }
  }

  lemma {:induction false} CopiesCount(k: ContentKey, m: nat)
    ensures multiset(Copies(k, m))[k] == m
  {
    if m > 0 {
      CopiesCount(k, m - 1);
      assert Copies(k, m) == Copies(k, m - 1) + [k];
    }
  }

  /** A batch delivered again reports nothing and changes no count. */
  lemma BatchIsIdempotent(x: Index, rows: seq<ContentKey>, k: ContentKey)
    ensures var once := RunBatch(x, rows).index;
      var again := RunBatch(once, rows);
      NewsOf(again.news, k) == 0 && Count(again.index, k) == Count(once, k)
  {
    BatchReconciles(x, rows, k);
    BatchReconciles(RunBatch(x, rows).index, rows, k);
  }

  /** Two batches end, in either order, at the largest multiplicity either reported, and together
      report the same number of New fills. */
  lemma BatchesCommute(x: Index, a: seq<ContentKey>, b: seq<ContentKey>, k: ContentKey)
    ensures var ab, ba := RunBatch(RunBatch(x, a).index, b), RunBatch(RunBatch(x, b).index, a);
      && Count(ab.index, k) == Count(ba.index, k)
           == MaxNat(Count(x, k), Capped(MaxNat(multiset(a)[k], multiset(b)[k])))
      && NewsOf(RunBatch(x, a).news, k) + NewsOf(ab.news, k) == NewsOf(RunBatch(x, b).news, k) + NewsOf(ba.news, k)
  {
    BatchReconciles(x, a, k);
    BatchReconciles(x, b, k);
    BatchReconciles(RunBatch(x, a).index, b, k);
    BatchReconciles(RunBatch(x, b).index, a, k);
  }

  function Repeat(k: ContentKey, n: nat): seq<Step> {
    seq(n, _ => Live(k))
  }

  lemma {:induction false} LiveCounts(k: ContentKey, n: nat)
    ensures Count(TakeSteps(EMPTY_INDEX, Repeat(k, n)).index, k) == Capped(n)
    ensures TakeSteps(EMPTY_INDEX, Repeat(k, n)).index.suspicious == n - Capped(n)
  {
    if n > 0 {
      assert Repeat(k, n)[..n - 1] == Repeat(k, n - 1);
      LiveCounts(k, n - 1);
    }
  }

  /** Multiset reconciliation: if the live feed saw a fill n times, a batch that reports it m times
      adds only the m - n the feed missed (within the ceiling). */
  lemma LiveThenBackfill(k: ContentKey, n: nat, rows: seq<ContentKey>)
    ensures var live := TakeSteps(EMPTY_INDEX, Repeat(k, n)).index;
      NewsOf(RunBatch(live, rows).news, k) == MaxNat(Capped(n), Capped(multiset(rows)[k])) - Capped(n)
  {
    LiveCounts(k, n);
    BatchReconciles(TakeSteps(EMPTY_INDEX, Repeat(k, n)).index, rows, k);
  }
}
