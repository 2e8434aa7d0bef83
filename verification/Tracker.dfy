/** Wallet matching, admission and idempotency on the hot path (crates/wallet_tracker/src/tracker.rs,
    crates/domain/src/wallet.rs). */
module Tracker {
  import opened Money
  import opened Products
  import opened Dedup

  datatype Wallet = Wallet(
    enabled: bool,
    allowedMarkets: seq<MarketId>,
    blockedMarkets: seq<MarketId>,
    minSourceNotional: Usd)

  datatype SkipReason = DuplicateEvent | WalletDisabled | MarketBlocked | MarketNotAllowed | BelowMinNotional

  /** Why the wallet does not copy a trade, if it does not. */
  function Admits(w: Wallet, market: MarketId, notional: Usd): Option<SkipReason> {
    if !w.enabled then Some(WalletDisabled)
    else if market in w.blockedMarkets then Some(MarketBlocked)
    else if w.allowedMarkets != [] && market !in w.allowedMarkets then Some(MarketNotAllowed)
    else if notional < w.minSourceNotional then Some(BelowMinNotional)
    else None
  }

  datatype ParsedTrade = ParsedTrade(market: MarketId, key: ContentKey)

  datatype Detection = Actionable(event: EventId) | Skipped(reason: SkipReason) | NotTracked

  datatype Stats = Stats(
    framesExamined: nat, walletMatches: nat, duplicatesSuppressed: nat, actionable: nat, skipped: nat)

  datatype TrackerState = TrackerState(wallets: map<Address, Wallet>, index: Index, stats: Stats)

  datatype Seen = Seen(state: TrackerState, detection: Detection)

  /** `ordinal` is present for a backfilled row. */
  function AfterTrade(s: TrackerState, t: ParsedTrade, ordinal: Option<nat>): Seen {
    var examined := s.stats.(framesExamined := s.stats.framesExamined + 1);
    if t.key.trader !in s.wallets then Seen(s.(stats := examined), NotTracked)
    else
      var matched := examined.(walletMatches := examined.walletMatches + 1);
      var refusal := Admits(s.wallets[t.key.trader], t.market, Times(t.key.size, t.key.price));
      if refusal.Some? then
        Seen(s.(stats := matched.(skipped := matched.skipped + 1)), Skipped(refusal.value))
      else
        var o := if ordinal.Some? then AfterBackfill(s.index, t.key, ordinal.value) else AfterLive(s.index, t.key);
        match o.verdict
        case New(e) =>
          Seen(TrackerState(s.wallets, o.index, matched.(actionable := matched.actionable + 1)), Actionable(e))
        case Duplicate(_) =>
          Seen(TrackerState(s.wallets, o.index,
                 matched.(duplicatesSuppressed := matched.duplicatesSuppressed + 1, skipped := matched.skipped + 1)),
               Skipped(DuplicateEvent))
  }

  class WalletTracker {
    var wallets: map<Address, Wallet>
    const dedup: DedupIndex
    var stats: Stats

    ghost function View(): TrackerState
      reads this, dedup
    {
      TrackerState(wallets, dedup.View(), stats)
    }

    constructor (wallets: map<Address, Wallet>)
      ensures View() == TrackerState(wallets, EMPTY_INDEX, Stats(0, 0, 0, 0, 0)) && fresh(dedup)
    {
      this.wallets := wallets;
      dedup := new DedupIndex();
      stats := Stats(0, 0, 0, 0, 0);
    }

    method Observe(t: ParsedTrade, ordinal: Option<nat>) returns (d: Detection)
      modifies this, dedup
      ensures Seen(View(), d) == AfterTrade(old(View()), t, ordinal)
    {
      hide Times, Admits;
      stats := stats.(framesExamined := stats.framesExamined + 1);
      if t.key.trader !in wallets {
        return NotTracked;
      }
      stats := stats.(walletMatches := stats.walletMatches + 1);
      var refusal := Admits(wallets[t.key.trader], t.market, Times(t.key.size, t.key.price));
      if refusal.Some? {
        stats := stats.(skipped := stats.skipped + 1);
        return Skipped(refusal.value);
      }
      var verdict: Verdict;
      if ordinal.Some? {
        verdict := dedup.ObserveBackfill(t.key, ordinal.value);
      } else {
        verdict := dedup.ObserveLive(t.key);
      }
      match verdict {
        case Duplicate(_) =>
          stats := stats.(duplicatesSuppressed := stats.duplicatesSuppressed + 1, skipped := stats.skipped + 1);
          d := Skipped(DuplicateEvent);
        case New(e) =>
          stats := stats.(actionable := stats.actionable + 1);
          d := Actionable(e);
      }
    }

    /** The batch counter advances for every row, admitted or not. */
    method ObserveBackfilled(t: ParsedTrade, batch: BatchOrdinals) returns (d: Detection)
      requires batch.Valid()
      modifies this, dedup, batch
      ensures batch.Valid() && batch.rows == old(batch.rows) + [t.key]
      ensures Seen(View(), d) == AfterTrade(old(View()), t, Some(multiset(old(batch.rows))[t.key]))
    {
      var ordinal := batch.Next(t.key);
      d := Observe(t, Some(ordinal));
    }

    method RestoreDedup(entries: seq<(ContentKey, nat)>)
      modifies dedup
      ensures View() == old(View()).(index := RestoreAll(old(View()).index, entries))
    {
      for i := 0 to |entries|
        invariant View() == old(View()).(index := dedup.View())
        invariant dedup.View() == RestoreAll(old(View()).index, entries[..i])
      {
        assert entries[..i + 1][..i] == entries[..i];
        dedup.Restore(entries[i].0, entries[i].1);
      }
      assert entries[..|entries|] == entries;
    }
  }

  function RestoreAll(x: Index, entries: seq<(ContentKey, nat)>): Index {
    if entries == [] then x
    else AfterRestore(RestoreAll(x, entries[..|entries| - 1]), entries[|entries| - 1].0, entries[|entries| - 1].1)
  }

  // ----- any interleaving of deliveries and registry changes

  datatype Event =
    | Trade(trade: ParsedTrade, ordinal: Option<nat>)
    | WalletsChanged(wallets: map<Address, Wallet>)
    | RestoredEntries(entries: seq<(ContentKey, nat)>)

  datatype Log = Log(state: TrackerState, actionable: seq<EventId>)

  function TakeEvent(l: Log, e: Event): Log {
    match e
    case Trade(t, ordinal) =>
      var s := AfterTrade(l.state, t, ordinal);
      Log(s.state, if s.detection.Actionable? then l.actionable + [s.detection.event] else l.actionable)
    case WalletsChanged(w) => l.(state := l.state.(wallets := w))
    case RestoredEntries(entries) => l.(state := l.state.(index := RestoreAll(l.state.index, entries)))
  }

  function TakeEvents(s: TrackerState, events: seq<Event>): Log {
    if events == [] then Log(s, []) else TakeEvent(TakeEvents(s, events[..|events| - 1]), events[|events| - 1])
  }

  lemma {:induction false} RestoreOnlyRaises(x: Index, entries: seq<(ContentKey, nat)>)
    ensures forall k :: Count(RestoreAll(x, entries), k) >= Count(x, k)
  {
    if entries != [] {
      RestoreOnlyRaises(x, entries[..|entries| - 1]);
    }
  }

  lemma ActionsClaimUnheldOrdinals(l: Log, e: Event)
    ensures var l' := TakeEvent(l, e);
      && (forall k :: Count(l'.state.index, k) >= Count(l.state.index, k))
      && (l'.actionable == l.actionable || exists id ::
            && l'.actionable == l.actionable + [id]
            && Count(l.state.index, id.key) <= id.occurrence < Count(l'.state.index, id.key))
  {
    hide Times, Admits;
    if e.RestoredEntries? {
      RestoreOnlyRaises(l.state.index, e.entries);
    }
  }

  /** However live rows, backfilled rows with any ordinals, restores and wallet changes interleave,
      all actionable trades have pairwise distinct identities, none of which the index held before. */
  lemma {:induction false} ActionableAtMostOnce(s: TrackerState, events: seq<Event>)
    ensures var l := TakeEvents(s, events);
      && (forall k :: Count(l.state.index, k) >= Count(s.index, k))
      && (forall i, j :: 0 <= i < j < |l.actionable| ==> l.actionable[i] != l.actionable[j])
      && (forall e :: e in l.actionable ==> Count(s.index, e.key) <= e.occurrence < Count(l.state.index, e.key))
  {
    hide TakeEvent, Count;
    if events != [] {
      var before := TakeEvents(s, events[..|events| - 1]);
      ActionableAtMostOnce(s, events[..|events| - 1]);
      ActionsClaimUnheldOrdinals(before, events[|events| - 1]);
      var after := TakeEvents(s, events);
      if after.actionable != before.actionable {
        var e :| after.actionable == before.actionable + [e]
          && Count(before.state.index, e.key) <= e.occurrence < Count(after.state.index, e.key);
        assert forall d :: d in after.actionable <==> d in before.actionable || d == e;
        assert Count(s.index, e.key) <= Count(before.state.index, e.key);
        assert e !in before.actionable;
      }
    }
  }

  // ----- what one row does, and what a batch of rows does

  /** The wallet that made the trade is followed, enabled, allowed in the market, and the trade is not dust. */
  predicate Admitted(wallets: map<Address, Wallet>, t: ParsedTrade) {
    && t.key.trader in wallets
    && var w := wallets[t.key.trader];
      && w.enabled && t.market !in w.blockedMarkets && (t.market in w.allowedMarkets || w.allowedMarkets == [])
      && w.minSourceNotional <= Times(t.key.size, t.key.price)
  }

  /** One trade counted: every trade is examined, a followed wallet's is a match, and a match is either
      actionable or skipped, as a duplicate if it was admitted. */
  predicate Counted(s: Stats, s': Stats, followed: bool, admitted: bool, gained: bool) {
    s' == Stats(
      s.framesExamined + 1,
      if followed then s.walletMatches + 1 else s.walletMatches,
      if admitted && !gained then s.duplicatesSuppressed + 1 else s.duplicatesSuppressed,
      if gained then s.actionable + 1 else s.actionable,
      if followed && !gained then s.skipped + 1 else s.skipped)
  }

  /** `id` is the one trade the log gains, and the index then holds it and nothing else new. */
  ghost predicate Gains(l: Log, l': Log, id: EventId) {
    && l'.actionable == l.actionable + [id]
    && forall k :: Count(l'.state.index, k) == if k == id.key then id.occurrence + 1 else Count(l.state.index, k)
  }

  ghost predicate GainsNothing(l: Log, l': Log) {
    l'.actionable == l.actionable && forall k :: Count(l'.state.index, k) == Count(l.state.index, k)
  }

  /** A live row is actionable exactly when it is admitted and its content is below the ceiling, and is
      then the next occurrence of it. */
  lemma LiveRowExactly(l: Log, t: ParsedTrade)
    ensures var l', n := TakeEvent(l, Trade(t, None)), Count(l.state.index, t.key);
      && l'.state.wallets == l.state.wallets
      && Counted(l.state.stats, l'.state.stats, t.key.trader in l.state.wallets, Admitted(l.state.wallets, t),
                 Admitted(l.state.wallets, t) && n < MAX_OCCURRENCES_PER_CONTENT)
      && if Admitted(l.state.wallets, t) && n < MAX_OCCURRENCES_PER_CONTENT then Gains(l, l', EventId(t.key, n))
         else GainsNothing(l, l')
  {
    hide Times;
  }

  /** A backfilled row is actionable exactly when it is admitted and its own ordinal is unheld and below
      the ceiling, and is then the occurrence of that ordinal. */
  lemma BackfilledRowExactly(l: Log, t: ParsedTrade, ordinal: nat)
    ensures var l', n := TakeEvent(l, Trade(t, Some(ordinal))), Count(l.state.index, t.key);
      && l'.state.wallets == l.state.wallets
      && Counted(l.state.stats, l'.state.stats, t.key.trader in l.state.wallets, Admitted(l.state.wallets, t),
                 Admitted(l.state.wallets, t) && n <= ordinal < MAX_OCCURRENCES_PER_CONTENT)
      && if Admitted(l.state.wallets, t) && Count(l.state.index, t.key) <= ordinal < MAX_OCCURRENCES_PER_CONTENT
         then Gains(l, l', EventId(t.key, ordinal)) else GainsNothing(l, l')
  {
    hide Times;
  }

  /** A refused row says the first reason that applies: the wallet, then the market, then the size, then
      that the event is known. */
  lemma SkipReasonsInOrder(s: TrackerState, t: ParsedTrade, ordinal: Option<nat>)
    ensures var d := AfterTrade(s, t, ordinal).detection;
      && (d == NotTracked <==> t.key.trader !in s.wallets)
      && (d.Skipped? ==>
            var w := s.wallets[t.key.trader];
            match d.reason
            case WalletDisabled => !w.enabled
            case MarketBlocked => w.enabled && t.market in w.blockedMarkets
            case MarketNotAllowed =>
              w.enabled && t.market !in w.blockedMarkets && w.allowedMarkets != [] && t.market !in w.allowedMarkets
            case BelowMinNotional =>
              && w.enabled && t.market !in w.blockedMarkets && (w.allowedMarkets == [] || t.market in w.allowedMarkets)
              && Times(t.key.size, t.key.price) < w.minSourceNotional
            case DuplicateEvent => Admitted(s.wallets, t))
  {
    hide Times;
  }

  /** Replacing the wallets or restoring entries emits nothing; after a restore every content is held at
      least as often as any of its entries says, and no oftener than some entry or the index before it. */
  lemma OtherEventsExactly(l: Log, e: Event)
    ensures e.WalletsChanged? ==> TakeEvent(l, e) == l.(state := l.state.(wallets := e.wallets))
    ensures e.RestoredEntries? ==>
      var x, x' := l.state.index, TakeEvent(l, e).state.index;
      && TakeEvent(l, e) == l.(state := l.state.(index := x'))
      && (forall i :: 0 <= i < |e.entries| ==> e.entries[i].1 <= Count(x', e.entries[i].0))
      && (forall k :: Count(x', k) == Count(x, k)
                      || exists i :: 0 <= i < |e.entries| && e.entries[i] == (k, Count(x', k)))
      && x'.suspicious == x.suspicious
  {
    hide Count, RestoreAll;
    if e.RestoredEntries? {
      RestoreHoldsEveryEntry(l.state.index, e.entries);
      RestoreOnlyRaises(l.state.index, e.entries);
    }
  }

  lemma {:induction false} RestoreHoldsEveryEntry(x: Index, entries: seq<(ContentKey, nat)>)
    ensures var x' := RestoreAll(x, entries);
      && (forall i :: 0 <= i < |entries| ==> entries[i].1 <= Count(x', entries[i].0))
      && (forall k :: Count(x', k) == Count(x, k) || exists i :: 0 <= i < |entries| && entries[i] == (k, Count(x', k)))
      && x'.suspicious == x.suspicious
  {
    hide Count;
    if entries != [] {
      var n := |entries| - 1;
      var before := RestoreAll(x, entries[..n]);
      RestoreHoldsEveryEntry(x, entries[..n]);
      RestoreOne(before, entries[n].0, entries[n].1);
      forall k
        ensures Count(RestoreAll(x, entries), k) == Count(x, k)
          || exists i :: 0 <= i < |entries| && entries[i] == (k, Count(RestoreAll(x, entries), k))
      {
        if Count(before, k) != Count(x, k) {
          var i :| 0 <= i < n && entries[..n][i] == (k, Count(before, k));
          assert entries[i] == (k, Count(before, k));
        }
      }
    }
  }

  lemma RestoreOne(x: Index, k: ContentKey, n: nat)
    ensures var x' := AfterRestore(x, k, n);
      && Count(x', k) == (if Count(x, k) < n then n else Count(x, k))
      && (forall j :: j != k ==> Count(x', j) == Count(x, j))
      && x'.suspicious == x.suspicious
  {
  }

  function KeysOf(rows: seq<ParsedTrade>): seq<ContentKey> {
    seq(|rows|, i requires 0 <= i < |rows| => rows[i].key)
  }

  /** The number of identical rows earlier in the batch. */
  function Ordinal(rows: seq<ParsedTrade>, i: nat): nat
    requires i < |rows|
  {
    multiset(KeysOf(rows)[..i])[rows[i].key]
  }

  /** Every row of a batch, each with its ordinal. */
  function BatchEvents(rows: seq<ParsedTrade>): seq<Event> {
    seq(|rows|, i requires 0 <= i < |rows| => Trade(rows[i], Some(Ordinal(rows, i))))
  }

  function RunRows(s: TrackerState, rows: seq<ParsedTrade>): Log {
    TakeEvents(s, BatchEvents(rows))
  }

  lemma RowsSplit(s: TrackerState, rows: seq<ParsedTrade>)
    requires rows != []
    ensures var n := |rows| - 1;
      && RunRows(s, rows) == TakeEvent(RunRows(s, rows[..n]), Trade(rows[n], Some(Ordinal(rows, n))))
      && Ordinal(rows, n) == multiset(KeysOf(rows[..n]))[rows[n].key]
      && (forall k :: multiset(KeysOf(rows))[k] == multiset(KeysOf(rows[..n]))[k] + if rows[n].key == k then 1 else 0)
      && (forall i :: 0 <= i < n ==> Ordinal(rows[..n], i) == Ordinal(rows, i))
  {
    hide TakeEvent;
    var n := |rows| - 1;
    assert forall i :: 0 <= i <= n ==> KeysOf(rows[..n])[..i] == KeysOf(rows)[..i];
    assert KeysOf(rows[..n])[..n] == KeysOf(rows[..n]);
    assert KeysOf(rows) == KeysOf(rows[..n]) + [rows[n].key];
    assert BatchEvents(rows)[..n] == BatchEvents(rows[..n]);
  }

  /** Row `i` of the batch is an admitted row of the content, with that ordinal. */
  predicate AdmittedAt(wallets: map<Address, Wallet>, rows: seq<ParsedTrade>, i: nat, id: EventId)
    requires i < |rows|
  {
    rows[i].key == id.key && Ordinal(rows, i) == id.occurrence && Admitted(wallets, rows[i])
  }

  ghost predicate Offers(wallets: map<Address, Wallet>, rows: seq<ParsedTrade>, id: EventId) {
    exists i :: 0 <= i < |rows| && AdmittedAt(wallets, rows, i, id)
  }

  lemma OffersSplit(wallets: map<Address, Wallet>, rows: seq<ParsedTrade>, id: EventId)
    requires rows != []
    ensures Offers(wallets, rows, id) <==>
      Offers(wallets, rows[..|rows| - 1], id) || AdmittedAt(wallets, rows, |rows| - 1, id)
  {
    hide Admitted, Ordinal;
    var n := |rows| - 1;
    RowsSplit(TrackerState(wallets, EMPTY_INDEX, Stats(0, 0, 0, 0, 0)), rows);
    if i :| 0 <= i < |rows| && AdmittedAt(wallets, rows, i, id) {
      assert i < n ==> AdmittedAt(wallets, rows[..n], i, id);
    }
    if i :| 0 <= i < n && AdmittedAt(wallets, rows[..n], i, id) {
      assert AdmittedAt(wallets, rows, i, id);
    }
  }

  /** Whatever rows a batch mixes, refused ones leaving gaps included: its actionable trades are exactly
      the ordinals of its admitted rows that the index did not hold, below the ceiling, and the index
      then holds every one of them. */
  lemma {:induction false} BatchClaimsItsOrdinals(s: TrackerState, rows: seq<ParsedTrade>)
    ensures var l := RunRows(s, rows);
      && l.state.wallets == s.wallets
      && (forall id :: id in l.actionable <==>
            Count(s.index, id.key) <= id.occurrence < MAX_OCCURRENCES_PER_CONTENT && Offers(s.wallets, rows, id))
      && (forall k :: Count(s.index, k) <= Count(l.state.index, k))
      && (forall id :: Offers(s.wallets, rows, id) && id.occurrence < MAX_OCCURRENCES_PER_CONTENT ==>
            id.occurrence < Count(l.state.index, id.key))
      && (forall k :: Count(l.state.index, k) <= Count(s.index, k)
                      || Count(l.state.index, k) <= multiset(KeysOf(rows))[k])
  {
    hide TakeEvent, Count, Admitted, Ordinal, KeysOf, Offers, AdmittedAt;
    if rows == [] {
      NoRows(s);
    } else {
      var n := |rows| - 1;
      var before, t, o := RunRows(s, rows[..n]), rows[n], Ordinal(rows, n);
      BatchClaimsItsOrdinals(s, rows[..n]);
      RowsSplit(s, rows);
      BackfilledRowExactly(before, t, o);
      forall id
        ensures Offers(s.wallets, rows, id) <==>
          Offers(s.wallets, rows[..n], id) || (id == EventId(t.key, o) && Admitted(s.wallets, t))
      {
        OffersSplit(s.wallets, rows, id);
        OfferedBy(s.wallets, rows, n, id);
      }
      var l := RunRows(s, rows);
      if l.actionable != before.actionable {
        assert forall d :: d in l.actionable <==> d in before.actionable || d == EventId(t.key, o);
      }
    }
  }

  lemma NoRows(s: TrackerState)
    ensures RunRows(s, []) == Log(s, []) && forall id :: !Offers(s.wallets, [], id)
  {
  }

  lemma OfferedBy(wallets: map<Address, Wallet>, rows: seq<ParsedTrade>, i: nat, id: EventId)
    requires i < |rows|
    ensures AdmittedAt(wallets, rows, i, id) <==>
      id == EventId(rows[i].key, Ordinal(rows, i)) && Admitted(wallets, rows[i])
  {
  }

  /** The same batch again yields nothing. */
  lemma RepeatedBatchYieldsNothing(s: TrackerState, rows: seq<ParsedTrade>)
    ensures RunRows(RunRows(s, rows).state, rows).actionable == []
  {
    hide RunRows, Count, Offers;
    BatchClaimsItsOrdinals(s, rows);
    var once := RunRows(s, rows).state;
    BatchClaimsItsOrdinals(once, rows);
    var again := RunRows(once, rows).actionable;
    EmptyWhenNothingIsIn(again);
  }

  lemma EmptyWhenNothingIsIn(news: seq<EventId>)
    requires |news| > 0 ==> news[0] !in news
    ensures news == []
  {
  }

  /** With every row of a content admitted, a batch that reports it m times to an index that holds it e
      times makes exactly max(0, min(m, 64) - e) of them actionable and leaves max(e, min(m, 64)). */
  lemma {:induction false} TrackedBatchReconciles(s: TrackerState, rows: seq<ParsedTrade>, k: ContentKey)
    requires forall t :: t in rows && t.key == k ==> Admitted(s.wallets, t)
    ensures var l := RunRows(s, rows);
      var e, m := Count(s.index, k), multiset(KeysOf(rows))[k];
      && l.state.wallets == s.wallets
      && Count(l.state.index, k) == MaxNat(e, Capped(m))
      && NewsOf(l.actionable, k) == Count(l.state.index, k) - e
  {
    hide TakeEvent, Count, Admitted, Ordinal, KeysOf, NewsOf;
    if rows == [] {
      NoNews(s, k);
    } else {
      var n := |rows| - 1;
      assert rows[n] in rows;
      assert forall t :: t in rows[..n] ==> t in rows;
      TrackedBatchReconciles(s, rows[..n], k);
      RowsSplit(s, rows);
      var before := RunRows(s, rows[..n]);
      BackfilledRowExactly(before, rows[n], Ordinal(rows, n));
      var l := RunRows(s, rows);
      if l.actionable != before.actionable {
        OneMoreNews(before.actionable, EventId(rows[n].key, Ordinal(rows, n)), k);
      }
    }
  }

  lemma NoNews(s: TrackerState, k: ContentKey)
    ensures RunRows(s, []) == Log(s, []) && NewsOf([], k) == 0 && multiset(KeysOf([]))[k] == 0
  {
  }

  lemma OneMoreNews(news: seq<EventId>, id: EventId, k: ContentKey)
    ensures NewsOf(news + [id], k) == NewsOf(news, k) + if id.key == k then 1 else 0
  {
    assert (news + [id])[..|news|] == news;
  }

  predicate Consistent(s: Stats) {
    && s.walletMatches == s.actionable + s.skipped
    && s.duplicatesSuppressed <= s.skipped
    && s.walletMatches <= s.framesExamined
  }

  /** The counters account for every frame: each match is either actionable or skipped, each
      suppressed duplicate is a skip, and the actionable counter is the number of trades emitted. */
  lemma {:induction false} CountersAddUp(s: TrackerState, events: seq<Event>)
    requires Consistent(s.stats)
    ensures var l := TakeEvents(s, events);
      Consistent(l.state.stats) && l.state.stats.actionable == s.stats.actionable + |l.actionable|
  {
    hide Times, Admits;
    if events != [] {
      CountersAddUp(s, events[..|events| - 1]);
    }
  }
}
