/** Position reconciliation against the venue (crates/execution/src/reconciliation.rs), and what it
    reports about the paper venue's own positions (crates/execution/src/paper.rs). */
module Reconciliation {
  import opened Money
  import opened Products
  import opened Orders
  import opened OrderBooks
  import opened OrderManagement
  import opened PaperVenue
  import opened Portfolios
  import opened TradingSystem
  import opened Matching
  import Positions

  datatype VenuePosition = VenuePosition(token: TokenId, quantity: Qty)

  datatype Mismatch = Mismatch(token: TokenId, ours: real, theirs: real, difference: real)

  datatype Report = Report(
    checked: nat,
    mismatches: seq<Mismatch>,
    unexpected: seq<TokenId>,
    missing: seq<TokenId>)

  predicate IsClean(r: Report) {
    r.mismatches == [] && r.unexpected == [] && r.missing == []
  }

  predicate WarrantsHalt(r: Report, tolerance: real) {
    r.unexpected != [] || exists i :: 0 <= i < |r.mismatches| && Abs(r.mismatches[i].difference) > tolerance
  }

  /** A later row for the same token replaces an earlier one. */
  function VenueMap(venue: seq<VenuePosition>): map<TokenId, Qty> {
    if venue == [] then map[]
    else VenueMap(venue[..|venue| - 1])[venue[|venue| - 1].token := venue[|venue| - 1].quantity]
  }

  ghost predicate Distinct(s: seq<TokenId>) {
    forall i, j :: 0 <= i < j < |s| ==> s[i] != s[j]
  }

  ghost predicate DistinctTokens(s: seq<Mismatch>) {
    forall i, j :: 0 <= i < j < |s| ==> s[i].token != s[j].token
  }

  function Compare(ours: map<TokenId, real>, theirs: map<TokenId, real>, t: TokenId): Mismatch
    requires t in ours && t in theirs
  {
    Mismatch(t, ours[t], theirs[t], ours[t] - theirs[t])
  }

  ghost predicate MismatchesOver(
    ms: seq<Mismatch>, keys: set<TokenId>, ours: map<TokenId, real>, theirs: map<TokenId, real>, tolerance: real)
  {
    && DistinctTokens(ms)
    && forall m :: m in ms <==>
         && m.token in keys && m.token in ours && m.token in theirs
         && m.ours == ours[m.token] && m.theirs == theirs[m.token] && m.theirs + m.difference == m.ours
         && Abs(m.difference) > tolerance
  }

  /** The tokens among `keys` that `a` holds beyond tolerance and `b` does not know. */
  ghost predicate OnlyIn(
    ts: seq<TokenId>, keys: set<TokenId>, a: map<TokenId, real>, b: map<TokenId, real>, tolerance: real)
  {
    Distinct(ts) && forall t :: t in ts <==> t in keys && t in a && t !in b && Abs(a[t]) > tolerance
  }

  /** `r` reports on `ours` against `theirs`. Its lists may come in any order. */
  ghost predicate Reports(r: Report, ours: map<TokenId, real>, theirs: map<TokenId, real>, tolerance: real) {
    && MismatchesOver(r.mismatches, ours.Keys, ours, theirs, tolerance)
    && OnlyIn(r.missing, ours.Keys, ours, theirs, tolerance)
    && OnlyIn(r.unexpected, theirs.Keys, theirs, ours, tolerance)
    && |ours| <= r.checked && |theirs| <= r.checked && (r.checked == |ours| || r.checked == |theirs|)
  }

  method Reconcile(ours: map<TokenId, real>, venue: seq<VenuePosition>, tolerance: real) returns (r: Report)
    ensures Reports(r, ours, VenueMap(venue), tolerance)
  {
    var theirs: map<TokenId, real> := VenueMap(venue);
    var mismatches, missing := CompareOurs(ours, theirs, tolerance);
    var unexpected := FindUnexpected(ours, theirs, tolerance);
    r := Report(if |ours| >= |theirs| then |ours| else |theirs|, mismatches, unexpected, missing);
  }

  /** The loop over our own positions. */
  method CompareOurs(ours: map<TokenId, real>, theirs: map<TokenId, real>, tolerance: real)
    returns (mismatches: seq<Mismatch>, missing: seq<TokenId>)
    ensures MismatchesOver(mismatches, ours.Keys, ours, theirs, tolerance)
    ensures OnlyIn(missing, ours.Keys, ours, theirs, tolerance)
  {
    hide MismatchesOver, OnlyIn, Abs;
    mismatches, missing := [], [];
    NothingYet(ours, theirs, tolerance);
    var keys := ours.Keys;
    ghost var done: set<TokenId> := {};
    while keys != {}
      invariant done + keys == ours.Keys && done !! keys
      invariant MismatchesOver(mismatches, done, ours, theirs, tolerance)
      invariant OnlyIn(missing, done, ours, theirs, tolerance)
    {
      var t :| t in keys;
      MismatchStep(mismatches, done, ours, theirs, tolerance, t);
      OnlyInStep(missing, done, ours, theirs, tolerance, t);
      if t in theirs {
        var m := Compare(ours, theirs, t);
        if Abs(m.difference) > tolerance {
          mismatches := mismatches + [m];
        }
      } else if Abs(ours[t]) > tolerance {
        missing := missing + [t];
      }
      keys := keys - {t};
      done := done + {t};
    }
    assert done == ours.Keys;
  }

  /** The filter over the venue's positions. */
  method FindUnexpected(ours: map<TokenId, real>, theirs: map<TokenId, real>, tolerance: real)
    returns (unexpected: seq<TokenId>)
    ensures OnlyIn(unexpected, theirs.Keys, theirs, ours, tolerance)
  {
    hide OnlyIn, Abs;
    unexpected := [];
    NothingYet(theirs, ours, tolerance);
    var keys := theirs.Keys;
    ghost var done: set<TokenId> := {};
    while keys != {}
      invariant done + keys == theirs.Keys && done !! keys
      invariant OnlyIn(unexpected, done, theirs, ours, tolerance)
    {
      var t :| t in keys;
      OnlyInStep(unexpected, done, theirs, ours, tolerance, t);
      if t !in ours && Abs(theirs[t]) > tolerance {
        unexpected := unexpected + [t];
      }
      keys := keys - {t};
      done := done + {t};
    }
    assert done == theirs.Keys;
  }

  lemma NothingYet(a: map<TokenId, real>, b: map<TokenId, real>, tolerance: real)
    ensures MismatchesOver([], {}, a, b, tolerance) && OnlyIn([], {}, a, b, tolerance)
  {
  }

  lemma MismatchStep(
    ms: seq<Mismatch>, keys: set<TokenId>, a: map<TokenId, real>, b: map<TokenId, real>, tolerance: real, t: TokenId)
    requires MismatchesOver(ms, keys, a, b, tolerance) && t !in keys && t in a
    ensures MismatchesOver(
      if t in b && Abs(a[t] - b[t]) > tolerance then ms + [Compare(a, b, t)] else ms, keys + {t}, a, b, tolerance)
  {
  }

  lemma OnlyInStep(
    ts: seq<TokenId>, keys: set<TokenId>, a: map<TokenId, real>, b: map<TokenId, real>, tolerance: real, t: TokenId)
    requires OnlyIn(ts, keys, a, b, tolerance) && t !in keys && t in a
    ensures OnlyIn(if t !in b && Abs(a[t]) > tolerance then ts + [t] else ts, keys + {t}, a, b, tolerance)
  {
  }

  ghost predicate Agree(ours: map<TokenId, real>, theirs: map<TokenId, real>, t: TokenId, tolerance: real) {
    Abs(PositionOf(ours, t) - PositionOf(theirs, t)) <= tolerance
  }

  function MismatchTokens(ms: seq<Mismatch>): (ts: seq<TokenId>)
    ensures |ts| == |ms| && forall i :: 0 <= i < |ms| ==> ts[i] == ms[i].token
  {
    if ms == [] then [] else [ms[0].token] + MismatchTokens(ms[1..])
  }

  /** How many times a token is listed, over all three lists. */
  function TimesListed(r: Report, t: TokenId): nat {
    multiset(MismatchTokens(r.mismatches))[t] + multiset(r.unexpected)[t] + multiset(r.missing)[t]
  }

  lemma {:induction false} DistinctCount(s: seq<TokenId>, t: TokenId)
    requires Distinct(s)
    ensures multiset(s)[t] == if t in s then 1 else 0
  {
    if s != [] {
      assert s == [s[0]] + s[1..];
      DistinctCount(s[1..], t);
    }
  }

  /** A token the two sides disagree on beyond tolerance is listed exactly once; any other token is
      not listed at all. */
  lemma DisagreementsAreListedOnce(
    r: Report, ours: map<TokenId, real>, theirs: map<TokenId, real>, tolerance: real, t: TokenId)
    requires tolerance >= 0.0 && Reports(r, ours, theirs, tolerance)
    ensures TimesListed(r, t) == if Agree(ours, theirs, t, tolerance) then 0 else 1
  {
    var ts := MismatchTokens(r.mismatches);
    assert t in ts <==> t in ours && t in theirs && Abs(ours[t] - theirs[t]) > tolerance by {
      if t in ours && t in theirs && Abs(ours[t] - theirs[t]) > tolerance {
        var m := Compare(ours, theirs, t);
        assert m in r.mismatches;
        var i :| 0 <= i < |r.mismatches| && r.mismatches[i] == m;
        assert ts[i] == t;
      }
      if t in ts {
        var i :| 0 <= i < |ts| && ts[i] == t;
        assert r.mismatches[i] in r.mismatches;
      }
    }
    DistinctCount(ts, t);
    DistinctCount(r.unexpected, t);
    DistinctCount(r.missing, t);
  }

  /** The report is clean exactly when the two sides agree within tolerance on every token. */
  lemma CleanExactlyWhenAllAgree(r: Report, ours: map<TokenId, real>, theirs: map<TokenId, real>, tolerance: real)
    requires tolerance >= 0.0 && Reports(r, ours, theirs, tolerance)
    ensures IsClean(r) <==> forall t :: Agree(ours, theirs, t, tolerance)
  {
    if IsClean(r) {
      forall t
        ensures Agree(ours, theirs, t, tolerance)
      {
        DisagreementsAreListedOnce(r, ours, theirs, tolerance, t);
      }
    } else {
      var t :=
        if r.mismatches != [] then r.mismatches[0].token
        else if r.unexpected != [] then r.unexpected[0] else r.missing[0];
      assert r.mismatches != [] ==> r.mismatches[0] in r.mismatches;
      assert r.unexpected != [] ==> r.unexpected[0] in r.unexpected;
      assert r.missing != [] ==> r.missing[0] in r.missing;
      assert !Agree(ours, theirs, t, tolerance);
    }
  }

  /** An unknown venue position beyond tolerance, or a known one off by more than both thresholds: a
      difference within the reporting tolerance is never seen by the halting one. */
  predicate Alarming(
    ours: map<TokenId, real>, theirs: map<TokenId, real>, t: TokenId, tolerance: real, haltAt: real)
  {
    t in theirs && if t in ours then Abs(ours[t] - theirs[t]) > Max(tolerance, haltAt) else Abs(theirs[t]) > tolerance
  }

  /** A report warrants a halt exactly when some token is alarming. */
  lemma HaltsExactlyWhenAlarming(
    r: Report, ours: map<TokenId, real>, theirs: map<TokenId, real>, tolerance: real, haltAt: real)
    requires Reports(r, ours, theirs, tolerance)
    ensures WarrantsHalt(r, haltAt) <==> exists t :: Alarming(ours, theirs, t, tolerance, haltAt)
  {
    if t :| Alarming(ours, theirs, t, tolerance, haltAt) {
      if t in ours {
        assert Compare(ours, theirs, t) in r.mismatches;
        var i :| 0 <= i < |r.mismatches| && r.mismatches[i] == Compare(ours, theirs, t);
        assert Abs(r.mismatches[i].difference) > haltAt;
      } else {
        assert t in r.unexpected;
      }
    }
    if r.unexpected != [] {
      assert r.unexpected[0] in r.unexpected;
      assert Alarming(ours, theirs, r.unexpected[0], tolerance, haltAt);
    }
    if i :| 0 <= i < |r.mismatches| && Abs(r.mismatches[i].difference) > haltAt {
      assert r.mismatches[i] in r.mismatches;
      assert Alarming(ours, theirs, r.mismatches[i].token, tolerance, haltAt);
    }
  }

  /** With distinct tokens, nothing the venue reports is lost in the map. */
  lemma {:induction false} DistinctRowsSurvive(venue: seq<VenuePosition>)
    requires forall i, j :: 0 <= i < j < |venue| ==> venue[i].token != venue[j].token
    ensures forall p: VenuePosition ::
      p in venue <==> p.token in VenueMap(venue) && VenueMap(venue)[p.token] == p.quantity
  {
    if venue != [] {
      var n := |venue| - 1;
      DistinctRowsSurvive(venue[..n]);
      assert venue == venue[..n] + [venue[n]];
    }
  }

  // ----- reconciling the paper venue

  /** The venue's answer to a position query: one row per non-zero position, with its absolute size. */
  ghost predicate AnswersQuery(rows: seq<VenuePosition>, positions: map<TokenId, real>, keys: set<TokenId>) {
    && (forall i, j :: 0 <= i < j < |rows| ==> rows[i].token != rows[j].token)
    && forall p: VenuePosition :: p in rows <==>
         p.token in keys && p.token in positions && positions[p.token] != 0.0 && p.quantity == Abs(positions[p.token])
  }

  method QueryPositions(venue: PaperExecution) returns (rows: seq<VenuePosition>)
    ensures AnswersQuery(rows, venue.positions, venue.positions.Keys)
  {
    rows := [];
    var positions := venue.positions;
    var keys := positions.Keys;
    while keys != {}
      invariant keys <= positions.Keys
      invariant AnswersQuery(rows, positions, positions.Keys - keys)
    {
      var t :| t in keys;
      if positions[t] != 0.0 {
        rows := rows + [VenuePosition(t, Abs(positions[t]))];
      }
      keys := keys - {t};
    }
    assert positions.Keys - keys == positions.Keys;
  }

  /** The portfolio's side of the comparison. */
  function ExposureMap(h: map<TokenId, Positions.Holding>): map<TokenId, real> {
    map t | t in h :: h[t].net
  }

  lemma QueryHolds(rows: seq<VenuePosition>, positions: map<TokenId, real>, t: TokenId)
    requires AnswersQuery(rows, positions, positions.Keys)
    ensures PositionOf(VenueMap(rows), t) == Abs(PositionOf(positions, t))
  {
    DistinctRowsSurvive(rows);
    var vm := VenueMap(rows);
    if t in vm {
      assert VenuePosition(t, vm[t]) in rows;
    }
    var p := VenuePosition(t, Abs(PositionOf(positions, t)));
    assert p in rows <==> PositionOf(positions, t) != 0.0;
  }

  /** Reconciling any reachable paper system never reports an unknown or a missing position, and is
      clean exactly when no token is short by more than half the tolerance: the venue reports sizes
      without sign, so a short of n differs from the books by 2n. It warrants a halt exactly when
      some short exceeds half of both the halting difference and the tolerance. */
  lemma PaperReconcilesExactlyWhenNotShort(
    s: System, rows: seq<VenuePosition>, r: Report, tolerance: real, haltAt: real)
    requires SystemInv(s) && tolerance >= 0.0
    requires AnswersQuery(rows, s.venue.positions, s.venue.positions.Keys)
    requires Reports(r, ExposureMap(s.ledger.holdings), VenueMap(rows), tolerance)
    ensures r.unexpected == [] && r.missing == []
    ensures IsClean(r) <==> forall t :: NetQty(s.ledger.holdings, t) >= -tolerance / 2.0
    ensures WarrantsHalt(r, haltAt) <==> exists t :: NetQty(s.ledger.holdings, t) < -Max(tolerance, haltAt) / 2.0
  {
    hide LedgerInv, FilledExposure;
    var ours := ExposureMap(s.ledger.holdings);
    var theirs := VenueMap(rows);
    forall t
      ensures PositionOf(theirs, t) == Abs(PositionOf(ours, t))
      ensures Agree(ours, theirs, t, tolerance) <==> NetQty(s.ledger.holdings, t) >= -tolerance / 2.0
      ensures Alarming(ours, theirs, t, tolerance, haltAt)
        <==> NetQty(s.ledger.holdings, t) < -Max(tolerance, haltAt) / 2.0
    {
      QueryHolds(rows, s.venue.positions, t);
      assert PositionOf(ours, t) == NetQty(s.ledger.holdings, t) == PositionOf(s.venue.positions, t);
    }
    CleanExactlyWhenAllAgree(r, ours, theirs, tolerance);
    HaltsExactlyWhenAlarming(r, ours, theirs, tolerance, haltAt);
    assert forall t :: t in r.unexpected ==> PositionOf(ours, t) == 0.0 && PositionOf(theirs, t) != 0.0;
    assert forall t :: t in r.missing ==> PositionOf(theirs, t) == 0.0 && PositionOf(ours, t) != 0.0;
    NoMembers(r.unexpected);
    NoMembers(r.missing);
  }

  lemma NoMembers(s: seq<TokenId>)
    requires |s| > 0 ==> s[0] !in s
    ensures s == []
  {
  }

  /** So over every run of the paper system reconciliation sees exactly the shorts. */
  lemma PaperRunsReconcile(
    run: seq<System>, steps: seq<SystemStep>, params: MatchParams, startingCash: Usd, i: nat,
    rows: seq<VenuePosition>, r: Report, tolerance: real, haltAt: real)
    requires IsRun(run, steps, params, startingCash) && i <= |steps| && tolerance >= 0.0
    requires AnswersQuery(rows, run[i].venue.positions, run[i].venue.positions.Keys)
    requires Reports(r, ExposureMap(run[i].ledger.holdings), VenueMap(rows), tolerance)
    ensures r.unexpected == [] && r.missing == []
    ensures IsClean(r) <==> forall t :: NetQty(run[i].ledger.holdings, t) >= -tolerance / 2.0
    ensures WarrantsHalt(r, haltAt) <==> exists t :: NetQty(run[i].ledger.holdings, t) < -Max(tolerance, haltAt) / 2.0
  {
    hide SystemInv, AnswersQuery, Reports, WarrantsHalt, IsClean;
    RunsKeepSystemInv(run, steps, params, startingCash, i);
    PaperReconcilesExactlyWhenNotShort(run[i], rows, r, tolerance, haltAt);
  }

  /** Every reconciliation of `s` reports something. */
  ghost predicate NeverClean(s: System, tolerance: real) {
    forall rows, r ::
      && AnswersQuery(rows, s.venue.positions, s.venue.positions.Keys)
      && Reports(r, ExposureMap(s.ledger.holdings), VenueMap(rows), tolerance)
      ==> !IsClean(r)
  }

  ghost predicate EndsUnclean(
    run: seq<System>, steps: seq<SystemStep>, params: MatchParams, startingCash: Usd, tolerance: real)
  {
    IsRun(run, steps, params, startingCash) && NeverClean(run[|steps|], tolerance)
  }

  /** Whatever the tolerance, some run ends in a state that reconciliation cannot find clean: selling
      from flat is enough. */
  lemma SomeRunNeverReconciles(tolerance: real, startingCash: Usd)
    requires tolerance >= 0.0
    ensures exists run, steps, params :: EndsUnclean(run, steps, params, startingCash, tolerance)
  {
    hide LedgerInv, VenueSubmit, Submit, Linked, LedgerFill, LedgerFills, Reports, AnswersQuery, IsClean;
    var q: Qty := tolerance + 1.0;
    var book := OrderBook(0, 0, [Level(0.5, q)], [], 0.01, 1.0, 0, 0);
    var order := OrderRequest(1, 0, 0, Sell, OrderType.Market, Ioc, q, 0.5, 0.5);
    var params, d := MatchParams(0, 0, true, 1.0, 0.0), Draws(0.0, 0.0, 0.5);
    var steps := [FetchBook(book), Register(order), SubmitOrder(1, d)];
    var s0 := System(map[], EMPTY_VENUE, FreshLedger(startingCash));
    var s1 := TradingSystem.TakeStep(s0, params, steps[0]);
    var s2 := TradingSystem.TakeStep(s1, params, steps[1]);
    var s3 := TradingSystem.TakeStep(s2, params, steps[2]);
    assert s2.orders == map[1 := Order(order, Validated, 0.0, 0.0, 0.0)] && s2.ledger == s0.ledger;
    SellFillsWhole(s2.venue, params, order, d);
    var a := VenueSubmit(s2.venue, params, order, d).answer;
    assert a.immediate == [a.immediate[0]];
    FreshFillIsBooked(s2.orders, 1, a.immediate[0], a.terminal);
    LedgerTakesOne(s2.ledger, a.immediate[0]);
    LedgerFillMovesNet(s2.ledger, a.immediate[0]);
    assert NetQty(s3.ledger.holdings, 0) == -(tolerance + 1.0);
    var run := [s0, s1, s2, s3];
    forall rows, r
      | && AnswersQuery(rows, s3.venue.positions, s3.venue.positions.Keys)
        && Reports(r, ExposureMap(s3.ledger.holdings), VenueMap(rows), tolerance)
      ensures !IsClean(r)
    {
      PaperRunsReconcile(run, steps, params, startingCash, 3, rows, r, tolerance, 0.0);
    }
    assert EndsUnclean(run, steps, params, startingCash, tolerance);
  }

  /** A market sell the bid covers exactly fills whole. */
  lemma SellFillsWhole(v: Venue, params: MatchParams, r: OrderRequest, d: Draws)
    requires r.quantity > 0.0 && r.side == Sell && r.orderType == OrderType.Market && r.token in v.books
    requires v.books[r.token].bids == [Level(r.limitPrice, r.quantity)]
    requires d.reject >= params.rejectProbability && params.fillProbability >= 1.0
    ensures var a := VenueSubmit(v, params, r, d).answer;
      && a.Acked? && |a.immediate| == 1
      && a.immediate[0].quantity == r.quantity && a.immediate[0].token == r.token && a.immediate[0].side == Sell
  {
    hide Times, Quot, MatchOrder, Recorded;
    var bids := v.books[r.token].bids;
    assert LiquidityWithin(Sell, bids[1..], r.limitPrice) == 0.0;
    assert LiquidityWithin(Sell, bids, r.limitPrice) == r.quantity;
    FillQuantityExactly(r, v.books[r.token], params, d);
  }

  /** A fresh order acknowledged with its whole quantity has that fill booked. */
  lemma FreshFillIsBooked(orders: OrderMap, id: OrderId, f: Fill, terminal: bool)
    requires id in orders && orders[id] == Order(orders[id].request, Validated, 0.0, 0.0, 0.0)
    requires f.quantity == orders[id].request.quantity
    ensures Submit(orders, id, Acked([f], terminal)).applied == [f]
  {
    hide Times;
    assert [f][1..] == [];
    var acked := Transition(Transition(orders[id], Submitted), Acknowledged);
    assert BookImmediate(acked, [f]).applied == [f];
  }
}
