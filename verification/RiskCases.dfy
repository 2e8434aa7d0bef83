/** Gated runs that end past a cap: what the hypotheses of the cap theorems are for
    (crates/risk/src/engine.rs, crates/app/src/pipeline.rs, crates/app/src/tasks.rs). */
module RiskCases {
  import opened Money
  import opened Products
  import opened MapSums
  import opened Orders
  import opened OrderBooks
  import opened Matching
  import opened Positions
  import opened Portfolios
  import opened OrderManagement
  import opened PaperVenue
  import opened TradingSystem
  import opened RiskGate

  // ----- states that gated runs reach

  ghost predicate GatedTo(
    s: System, run: seq<System>, steps: seq<SystemStep>, approvals: seq<Approval>,
    limits: RiskLimits, params: MatchParams, startingCash: Usd, immediate: bool)
  {
    && IsRun(run, steps, params, startingCash) && GatedRun(run, steps, approvals, limits)
    && (immediate ==> ImmediateOnly(steps)) && run[|steps|] == s
  }

  /** Some gated run, of immediate orders only if so asked, ends in `s`. */
  ghost predicate GatedlyReachable(
    s: System, limits: RiskLimits, params: MatchParams, startingCash: Usd, immediate: bool)
  {
    exists run, steps, approvals :: GatedTo(s, run, steps, approvals, limits, params, startingCash, immediate)
  }

  /** A legal, gated step leads from `s` to `s'`. */
  ghost predicate Follows(
    s: System, step: SystemStep, s': System, params: MatchParams, limits: RiskLimits, a: Approval)
  {
    Legal(s, step) && s' == TradingSystem.TakeStep(s, params, step) && GatedStep(s, step, limits, a)
  }

  lemma FreshIsReachable(limits: RiskLimits, params: MatchParams, startingCash: Usd)
    ensures GatedlyReachable(
      System(map[], EMPTY_VENUE, FreshLedger(startingCash)), limits, params, startingCash, true)
  {
    var s := System(map[], EMPTY_VENUE, FreshLedger(startingCash));
    assert GatedTo(s, [s], [], [], limits, params, startingCash, true);
  }

  lemma ReachesNext(
    s: System, step: SystemStep, s': System, params: MatchParams, limits: RiskLimits, a: Approval,
    startingCash: Usd, immediate: bool)
    requires GatedlyReachable(s, limits, params, startingCash, immediate)
    requires Follows(s, step, s', params, limits, a)
    requires immediate && step.Register? ==> step.request.tif != Gtc
    ensures GatedlyReachable(s', limits, params, startingCash, immediate)
  {
    hide TradingSystem.TakeStep, Legal, GatedStep;
    var run, steps, approvals :| GatedTo(s, run, steps, approvals, limits, params, startingCash, immediate);
    var run', steps', approvals' := run + [s'], steps + [step], approvals + [a];
    assert forall i :: 0 <= i < |steps| ==> run'[i] == run[i] && steps'[i] == steps[i] && approvals'[i] == approvals[i];
    assert IsRun(run', steps', params, startingCash);
    assert GatedRun(run', steps', approvals', limits);
    assert GatedTo(s', run', steps', approvals', limits, params, startingCash, immediate);
  }

  /** Resting orders reach no less than immediate ones. */
  lemma ReachableAnyway(s: System, limits: RiskLimits, params: MatchParams, startingCash: Usd)
    requires GatedlyReachable(s, limits, params, startingCash, true)
    ensures GatedlyReachable(s, limits, params, startingCash, false)
  {
    var run, steps, approvals :| GatedTo(s, run, steps, approvals, limits, params, startingCash, true);
    assert GatedTo(s, run, steps, approvals, limits, params, startingCash, false);
  }

  // ----- one set of limits, settings and draws for every case

  const EMPTY_BOOK := OrderBook(0, 0, [], [], 0.01, 1.0, 0, 0)

  function CapOf(cap: Usd): RiskLimits {
    RiskLimits(cap, 0.0, cap, cap, cap, 0.0, 2, 0, 0.0, 0, cap, false)
  }

  const OPEN_GATE := Approval(Gate(false, false, false, true, false, true, true), 0.0, 0, None, 0)
  const WHOLE_FILLS := MatchParams(0, 0, true, 1.0, 0.0)
  const ANY_DRAWS := Draws(0.0, 0.0, 0.5)

  lemma ApprovedWithin(cap: Usd, l: Ledger, order: OrderRequest)
    requires cap > 0.0
    requires var room := cap - RequestNotional(order);
      && room >= 0.0 && TokenExposure(l.holdings, order.token) <= room
      && MarketExposure(l.holdings, order.market) <= room && GrossExposure(l.holdings) <= room
    ensures ApprovedOn(l, CapOf(cap), order, OPEN_GATE)
  {
    hide Times, TokenExposure, MarketExposure, GrossExposure;
    TimesSign(order.quantity, order.limitPrice);
  }

  // ----- buying whole, and marking

  function Registered(s: System, r: OrderRequest): System {
    s.(orders := s.orders[r.id := Order(r, Validated, 0.0, 0.0, 0.0)])
  }

  /** An immediate buy on token 0 at 0.50. */
  function BuyAt50(id: OrderId, quantity: Qty): OrderRequest {
    OrderRequest(id, 0, 0, Buy, OrderType.Market, Ioc, quantity, 0.5, 0.5)
  }

  function WholeFill(r: OrderRequest): Fill {
    FillFor(r, r.quantity, r.limitPrice, 0.0, false)
  }

  /** The only ask is at the buy's limit, and large enough. */
  predicate Covers(book: OrderBook, r: OrderRequest) {
    |book.asks| == 1 && book.asks[0].price == r.limitPrice && book.asks[0].size >= r.quantity
  }

  lemma BuyMatchesWhole(r: OrderRequest, book: OrderBook, d: Draws)
    requires r.side == Buy && r.quantity > 0.0 && Covers(book, r) && IsMarketable(r, book)
    ensures var m := MatchOrder(r, book, WHOLE_FILLS, d);
      m.Filled? && m.quantity == r.quantity && m.price == r.limitPrice && m.fee == 0.0
  {
    hide Times, Quot, MatchOrder;
    assert LiquidityWithin(Buy, book.asks[1..], r.limitPrice) == 0.0;
    assert LiquidityWithin(Buy, book.asks, r.limitPrice) == book.asks[0].size;
    FillQuantityExactly(r, book, WHOLE_FILLS, d);
    SweepReport(Buy, book.asks, r.quantity, r.limitPrice);
    UnslippedMatch(r, book, d);
  }

  lemma UnslippedMatch(r: OrderRequest, book: OrderBook, d: Draws)
    ensures
      var m := MatchOrder(r, book, WHOLE_FILLS, d);
      && m.Filled? && SweepForOrder(r, book).Some? && SweepForOrder(r, book).value.vwap == r.limitPrice
      ==> m.price == r.limitPrice && m.fee == 0.0
  {
    hide Times, Quot, LiquidityWithin;
    forall n: real
      ensures Times(n, 0.0) == 0.0
    {
      TimesZero(n);
    }
  }

  /** Registering and submitting a buy that the cached book covers books it whole. */
  lemma BoughtWhole(s: System, r: OrderRequest, after: System)
    requires r.side == Buy && r.tif == Ioc && r.orderType == OrderType.Market && r.quantity > 0.0 && r.id !in s.orders
    requires r.token in s.venue.books && Covers(s.venue.books[r.token], r)
    requires after == TradingSystem.TakeStep(Registered(s, r), WHOLE_FILLS, SubmitOrder(r.id, ANY_DRAWS))
    ensures TradingSystem.TakeStep(s, WHOLE_FILLS, Register(r)) == Registered(s, r)
    ensures after.ledger == LedgerFill(s.ledger, WholeFill(r))
    ensures after.orders.Keys == s.orders.Keys + {r.id}
    ensures after.venue.resting == s.venue.resting && after.venue.books == s.venue.books
  {
    hide MatchOrder, LedgerFill, LedgerFills, BookImmediate, Times;
    BuyMatchesWhole(r, s.venue.books[r.token], ANY_DRAWS);
    var f := WholeFill(r);
    var sub := VenueSubmit(s.venue, WHOLE_FILLS, r, ANY_DRAWS);
    assert sub.answer == Acked([f], true);
    WholeIsBooked(Order(r, Acknowledged, 0.0, 0.0, 0.0), f);
    LedgerTakesOne(s.ledger, f);
  }

  lemma WholeIsBooked(o: Order, f: Fill)
    requires o == Order(o.request, Acknowledged, 0.0, 0.0, 0.0) && f.quantity == o.request.quantity
    ensures BookImmediate(o, [f]).applied == [f]
  {
    assert [f][1..] == [];
  }

  /** One gated purchase. */
  lemma BuyWhole(s: System, r: OrderRequest, cap: Usd, startingCash: Usd) returns (after: System)
    requires r.side == Buy && r.tif == Ioc && r.orderType == OrderType.Market && r.quantity > 0.0 && r.id !in s.orders
    requires r.token in s.venue.books && Covers(s.venue.books[r.token], r) && KeepsMarket(s.ledger.holdings, r)
    ensures
      && GatedlyReachable(s, CapOf(cap), WHOLE_FILLS, startingCash, true)
      && ApprovedOn(s.ledger, CapOf(cap), r, OPEN_GATE)
      ==>
        && GatedlyReachable(Registered(s, r), CapOf(cap), WHOLE_FILLS, startingCash, true)
        && Follows(Registered(s, r), SubmitOrder(r.id, ANY_DRAWS), after, WHOLE_FILLS, CapOf(cap), OPEN_GATE)
        && GatedlyReachable(after, CapOf(cap), WHOLE_FILLS, startingCash, true)
    ensures after.ledger == LedgerFill(s.ledger, WholeFill(r))
    ensures after.orders.Keys == s.orders.Keys + {r.id}
    ensures after.venue.resting == s.venue.resting && after.venue.books == s.venue.books
  {
    hide GatedlyReachable, ApprovedOn, TradingSystem.TakeStep, LedgerFill;
    after := TradingSystem.TakeStep(Registered(s, r), WHOLE_FILLS, SubmitOrder(r.id, ANY_DRAWS));
    BoughtWhole(s, r, after);
    if
      && GatedlyReachable(s, CapOf(cap), WHOLE_FILLS, startingCash, true)
      && ApprovedOn(s.ledger, CapOf(cap), r, OPEN_GATE)
    {
      ReachesNext(s, Register(r), Registered(s, r), WHOLE_FILLS, CapOf(cap), OPEN_GATE, startingCash, true);
      ReachesNext(
        Registered(s, r), SubmitOrder(r.id, ANY_DRAWS), after, WHOLE_FILLS, CapOf(cap), OPEN_GATE, startingCash, true);
    }
  }

  /** A book that offers `size` at 0.50, and a two-sided one around 0.90. */
  function Offer(size: Qty): OrderBook {
    EMPTY_BOOK.(asks := [Level(0.5, size)])
  }

  const HIGH_BOOK := EMPTY_BOOK.(bids := [Level(0.85, 1.0)], asks := [Level(0.95, 1.0)])

  function Fetched(s: System, book: OrderBook): System {
    s.(venue := s.venue.(books := s.venue.books[book.token := book]))
  }

  lemma Fetch(s: System, book: OrderBook, cap: Usd, startingCash: Usd)
    requires GatedlyReachable(s, CapOf(cap), WHOLE_FILLS, startingCash, true)
    ensures GatedlyReachable(Fetched(s, book), CapOf(cap), WHOLE_FILLS, startingCash, true)
  {
    hide GatedlyReachable;
    ReachesNext(s, FetchBook(book), Fetched(s, book), WHOLE_FILLS, CapOf(cap), OPEN_GATE, startingCash, true);
  }

  /** With nothing resting, the high book arriving only marks token 0 at 0.90. */
  lemma MarkHigh(s: System, cap: Usd, startingCash: Usd) returns (after: System)
    requires GatedlyReachable(s, CapOf(cap), WHOLE_FILLS, startingCash, true) && s.venue.resting == map[]
    ensures GatedlyReachable(after, CapOf(cap), WHOLE_FILLS, startingCash, true)
    ensures after.ledger == LedgerMark(s.ledger, 0, 0.9) && after.orders == s.orders && after.venue.resting == map[]
  {
    hide GatedlyReachable, LedgerMark;
    var draws: OrderId -> Draws := _ => ANY_DRAWS;
    var step := NewBook(HIGH_BOOK, [], draws);
    assert Mid(HIGH_BOOK) == Some(0.9);
    after := TradingSystem.TakeStep(s, WHOLE_FILLS, step);
    assert Candidates(s.venue.resting, 0, []) == [];
    assert BookUpdate(s.venue, WHOLE_FILLS, HIGH_BOOK, [], draws).fills == [];
    ReachesNext(s, step, after, WHOLE_FILLS, CapOf(cap), OPEN_GATE, startingCash, true);
  }

  /** A first purchase at 0.50, and what it is worth. */
  lemma FirstPurchase(l: Ledger, r: OrderRequest)
    requires l.holdings == map[] && r.side == Buy && r.quantity > 0.0 && r.limitPrice == 0.5 && r.token == r.market == 0
    ensures var h := LedgerFill(l, WholeFill(r)).holdings;
      h == map[0 := Holding(0, r.quantity, 0.5, h[0].realized, h[0].fees, None)]
  {
    hide Times, Quot, Equity;
    var f := WholeFill(r);
    TimesZero(0.0);
    TimesComm(f.quantity, f.price);
    QuotOf(Times(f.quantity, f.price), f.quantity, f.price);
  }

  /** One holding in its own market is the whole exposure. */
  lemma OnlyHolding(p: Holding)
    requires p.market == 0
    ensures var h := map[0 := p];
      TokenExposure(h, 0) == MarketExposure(h, 0) == GrossExposure(h) == Exposure(p)
  {
    hide Exposure;
    NothingIsExposed();
    var none: map<TokenId, Holding> := map[];
    OneHoldingMovesExposure(none, 0, p);
    assert none[0 := p] == map[0 := p];
    assert MarketExposure(none, 0) == 0.0;
  }

  // ----- the cases

  ghost predicate ExceedsCap(s: System, limits: RiskLimits) {
    exists t :: TokenExposure(s.ledger.holdings, t) > limits.maxPosition
  }

  /** A mark is enough: whatever the cap, a gated run of immediate orders buys up to it, and a two-sided
      book then marks the position past it. */
  lemma AMarkCanBreakAnyCap(cap: Usd, startingCash: Usd)
    requires cap > 0.0
    ensures exists s: System ::
      GatedlyReachable(s, CapOf(cap), WHOLE_FILLS, startingCash, true) && ExceedsCap(s, CapOf(cap))
  {
    hide GatedlyReachable, LedgerFill, LedgerMark, Exposure, ApprovedOn;
    var s0 := System(map[], EMPTY_VENUE, FreshLedger(startingCash));
    var r := BuyAt50(1, cap * 2.0);
    var s1 := Fetched(s0, Offer(cap * 2.0));
    FreshIsReachable(CapOf(cap), WHOLE_FILLS, startingCash);
    Fetch(s0, Offer(cap * 2.0), cap, startingCash);
    NothingIsExposed();
    HalfOf(cap * 2.0);
    ApprovedWithin(cap, s1.ledger, r);
    var s2 := BuyWhole(s1, r, cap, startingCash);
    FirstPurchase(s1.ledger, r);
    var s3 := MarkHigh(s2, cap, startingCash);
    MarkedAt90(s2.ledger, cap * 2.0);
    assert TokenExposure(s3.ledger.holdings, 0) > CapOf(cap).maxPosition;
  }

  lemma HalfOf(q: Qty)
    ensures Times(q, 0.5) == q / 2.0
  {
  }

  /** A holding bought at 0.50 and marked at 0.90 is worth 0.90 a share. */
  lemma MarkedAt90(l: Ledger, q: Qty)
    requires l.holdings.Keys == {0} && q > 0.0
    requires l.holdings[0].market == 0 && l.holdings[0].net == q
    ensures var h := LedgerMark(l, 0, 0.9).holdings;
      && h == map[0 := l.holdings[0].(mark := Some(0.9))]
      && TokenExposure(h, 0) == q * 0.9
  {
    hide Equity;
  }

  /** `order` is approved within the cap in `before`, and its submission carries its token past it. */
  ghost predicate ApprovedPastCap(before: System, order: OrderRequest, after: System, cap: Usd, startingCash: Usd) {
    && GatedlyReachable(before, CapOf(cap), WHOLE_FILLS, startingCash, true)
    && order.id in before.orders && before.orders[order.id].request == order
    && Follows(before, SubmitOrder(order.id, ANY_DRAWS), after, WHOLE_FILLS, CapOf(cap), OPEN_GATE)
    && TokenExposure(before.ledger.holdings, order.token) + RequestNotional(order) <= cap
    && TokenExposure(after.ledger.holdings, order.token) > cap
  }

  /** The gate's projection is not conservative on a token marked above the order's limit: whatever the
      cap, a gated run of immediate orders ends with an approved buy that passes it. */
  lemma AnApprovedBuyCanPassAnyCap(cap: Usd, startingCash: Usd)
    requires cap > 0.0
    ensures exists before, order, after :: ApprovedPastCap(before, order, after, cap, startingCash)
  {
    hide GatedlyReachable, LedgerFill, LedgerMark, Exposure, ApprovedOn, Follows, MarketExposure, GrossExposure;
    var s0 := System(map[], EMPTY_VENUE, FreshLedger(startingCash));
    var a, b := BuyAt50(1, cap), BuyAt50(2, cap * 0.2);
    var s1 := Fetched(s0, Offer(cap));
    FreshIsReachable(CapOf(cap), WHOLE_FILLS, startingCash);
    Fetch(s0, Offer(cap), cap, startingCash);
    NothingIsExposed();
    HalfOf(cap);
    ApprovedWithin(cap, s1.ledger, a);
    var s2 := BuyWhole(s1, a, cap, startingCash);
    FirstPurchase(s1.ledger, a);
    var s3 := MarkHigh(s2, cap, startingCash);
    MarkedAt90(s2.ledger, cap);
    var s4 := Fetched(s3, Offer(cap));
    Fetch(s3, Offer(cap), cap, startingCash);
    var p := s4.ledger.holdings[0];
    OnlyHolding(p);
    HalfOf(cap * 0.2);
    ApprovedWithin(cap, s4.ledger, b);
    var s5 := BuyWhole(s4, b, cap, startingCash);
    SecondPurchase(s4.ledger, b);
    assert ApprovedPastCap(Registered(s4, b), b, s5, cap, startingCash);
  }

  /** Adding to a holding marked at 0.90 adds 0.90 a share, whatever was paid. */
  lemma SecondPurchase(l: Ledger, r: OrderRequest)
    requires l.holdings.Keys == {0} && r.side == Buy && r.quantity > 0.0 && r.token == r.market == 0
    requires var p := l.holdings[0];
      p.market == 0 && p.net > 0.0 && p.mark == Some(0.9) && SoundAverage(p)
    ensures TokenExposure(LedgerFill(l, WholeFill(r)).holdings, 0)
      == TokenExposure(l.holdings, 0) + r.quantity * 0.9
  {
    hide Equity, Exposure, ApplyFill;
    IncreaseMovesExposure(l.holdings[0], WholeFill(r));
  }

  // ----- two resting orders

  /** A limit buy that finds no asks rests whole and books nothing. */
  lemma RestsWhole(s: System, params: MatchParams, id: OrderId, d: Draws)
    requires id in s.orders && s.orders[id].state == Validated && s.orders[id].request.id == id
    requires d.reject >= params.rejectProbability
    requires var r := s.orders[id].request;
      && r.tif == Gtc && r.orderType == OrderType.Limit && r.side == Buy
      && r.token in s.venue.books && s.venue.books[r.token].asks == []
    ensures var r := s.orders[id].request;
      SubmitTo(s, params, id, d) == System(
        s.orders[id := s.orders[id].(state := Acknowledged)],
        s.venue.(resting := s.venue.resting[id := RestingOrder(r, r.quantity)], seqNo := s.venue.seqNo + 1),
        s.ledger)
  {
    LedgerTakesNone(s.ledger);
  }

  /** A resting limit buy whose price is the only ask is filled whole at that price. */
  lemma HitWhole(v: Venue, params: MatchParams, c: Candidate, book: OrderBook, d: Draws)
    requires c.order.request.orderType == OrderType.Limit && c.order.request.side == Buy && c.order.remaining > 0.0
    requires d.reject >= params.rejectProbability && params.slippageBps == 0 && params.fillProbability >= 1.0
    requires |book.asks| == 1 && book.asks[0].price == c.order.request.limitPrice
    requires book.asks[0].size >= c.order.remaining
    ensures var h, r := HitOne(v, params, c, book, d), c.order.request;
      exists fee ::
        var f := FillFor(r, c.order.remaining, r.limitPrice, fee, true);
        && h.fills == [f]
        && h.venue == v.(resting := v.resting - {c.id}, positions := Recorded(v.positions, f))
  {
    hide Times, Quot, MatchOrder, Recorded;
    var r, o := c.order.request, c.order.request.(quantity := c.order.remaining);
    assert LiquidityWithin(Buy, book.asks[1..], o.limitPrice) == 0.0;
    assert LiquidityWithin(Buy, book.asks, o.limitPrice) == book.asks[0].size;
    FillQuantityExactly(o, book, params, d);
    SweepReport(Buy, book.asks, o.quantity, o.limitPrice);
    FillPriceUnslipped(o, book, params, d);
    var m := MatchOrder(o, book, params, d);
    assert HitOne(v, params, c, book, d).fills == [FillFor(r, c.order.remaining, r.limitPrice, m.fee, true)];
  }

  lemma FillPriceUnslipped(order: OrderRequest, book: OrderBook, params: MatchParams, d: Draws)
    requires params.slippageBps == 0
    ensures
      && MatchOrder(order, book, params, d).Filled?
      && SweepForOrder(order, book).Some? && SweepForOrder(order, book).value.vwap == order.limitPrice
      ==> MatchOrder(order, book, params, d).price == order.limitPrice
  {
    hide Times, Quot;
  }

  function TwinOrder(id: OrderId, cap: Usd): OrderRequest
    requires cap > 0.0
  {
    OrderRequest(id, 0, 0, Buy, OrderType.Limit, Gtc, cap * 2.0, 0.5, 0.5)
  }

  function Rested(s: System, r: OrderRequest): System {
    System(
      s.orders[r.id := Order(r, Acknowledged, 0.0, 0.0, 0.0)],
      s.venue.(resting := s.venue.resting[r.id := RestingOrder(r, r.quantity)], seqNo := s.venue.seqNo + 1),
      s.ledger)
  }

  /** Registering and submitting a limit buy that finds no asks leaves it resting. */
  lemma PlacedOrderRests(s: System, params: MatchParams, r: OrderRequest, d: Draws)
    requires r.id !in s.orders && r.quantity > 0.0 && r.tif == Gtc && r.orderType == OrderType.Limit && r.side == Buy
    requires r.token in s.venue.books && s.venue.books[r.token].asks == [] && d.reject >= params.rejectProbability
    ensures TradingSystem.TakeStep(s, params, Register(r)) == Registered(s, r)
    ensures TradingSystem.TakeStep(Registered(s, r), params, SubmitOrder(r.id, d)) == Rested(s, r)
  {
    hide SubmitTo;
    RestsWhole(Registered(s, r), params, r.id, d);
  }

  lemma PlacingFollows(s: System, params: MatchParams, limits: RiskLimits, a: Approval, r: OrderRequest, d: Draws)
    requires r.id !in s.orders && r.quantity > 0.0 && r.tif == Gtc && r.orderType == OrderType.Limit && r.side == Buy
    requires r.token in s.venue.books && s.venue.books[r.token].asks == [] && d.reject >= params.rejectProbability
    requires ApprovedOn(s.ledger, limits, r, a) && r.token !in s.ledger.holdings
    ensures Follows(s, Register(r), Registered(s, r), params, limits, a)
    ensures Follows(Registered(s, r), SubmitOrder(r.id, d), Rested(s, r), params, limits, a)
  {
    hide ApprovedOn, TradingSystem.TakeStep;
    PlacedOrderRests(s, params, r, d);
  }

  function Listening(startingCash: Usd): System {
    System(map[], EMPTY_VENUE.(books := map[0 := EMPTY_BOOK]), FreshLedger(startingCash))
  }

  /** Twins placed on an empty book both rest, each approved while nothing is exposed. */
  lemma TwinsRest(cap: Usd, startingCash: Usd)
    requires cap > 0.0
    ensures var a, b, s := TwinOrder(1, cap), TwinOrder(2, cap), Listening(startingCash);
      var one := Rested(s, a);
      var both := Rested(one, b);
      && Follows(s, Register(a), Registered(s, a), WHOLE_FILLS, CapOf(cap), OPEN_GATE)
      && Follows(Registered(s, a), SubmitOrder(1, ANY_DRAWS), one, WHOLE_FILLS, CapOf(cap), OPEN_GATE)
      && Follows(one, Register(b), Registered(one, b), WHOLE_FILLS, CapOf(cap), OPEN_GATE)
      && Follows(Registered(one, b), SubmitOrder(2, ANY_DRAWS), both, WHOLE_FILLS, CapOf(cap), OPEN_GATE)
      && both.orders == map[1 := Order(a, Acknowledged, 0.0, 0.0, 0.0), 2 := Order(b, Acknowledged, 0.0, 0.0, 0.0)]
      && both.venue.resting == map[1 := RestingOrder(a, a.quantity), 2 := RestingOrder(b, b.quantity)]
      && both.ledger == FreshLedger(startingCash)
  {
    hide ApprovedOn, Follows;
    var a, b, s := TwinOrder(1, cap), TwinOrder(2, cap), Listening(startingCash);
    NothingIsExposed();
    ApprovedWithin(cap, s.ledger, a);
    ApprovedWithin(cap, s.ledger, b);
    PlacingFollows(s, WHOLE_FILLS, CapOf(cap), OPEN_GATE, a, ANY_DRAWS);
    PlacingFollows(Rested(s, a), WHOLE_FILLS, CapOf(cap), OPEN_GATE, b, ANY_DRAWS);
  }

  /** Immediate orders are needed too: the gate's snapshot counts filled exposure only, so in a run of
      gated steps two resting orders, each within the cap when approved, fill and pass it together. */
  lemma RestingOrdersCanBreakAnyCap(cap: Usd, startingCash: Usd)
    requires cap > 0.0
    ensures exists s: System ::
      GatedlyReachable(s, CapOf(cap), WHOLE_FILLS, startingCash, false) && ExceedsCap(s, CapOf(cap))
  {
    hide BookArrives, Follows, Rested, Registered, TokenExposure, TwinOrder, GatedlyReachable;
    var a, b, s := TwinOrder(1, cap), TwinOrder(2, cap), Listening(startingCash);
    var fresh' := System(map[], EMPTY_VENUE, FreshLedger(startingCash));
    var one := Rested(s, a);
    var both := Rested(one, b);
    var deep := EMPTY_BOOK.(asks := [Level(0.5, cap * 2.0)]);
    var draws: OrderId -> Draws := _ => ANY_DRAWS;
    FreshIsReachable(CapOf(cap), WHOLE_FILLS, startingCash);
    Fetch(fresh', EMPTY_BOOK, cap, startingCash);
    assert Fetched(fresh', EMPTY_BOOK) == s;
    ReachableAnyway(s, CapOf(cap), WHOLE_FILLS, startingCash);
    TwinsRest(cap, startingCash);
    ReachesNext(s, Register(a), Registered(s, a), WHOLE_FILLS, CapOf(cap), OPEN_GATE, startingCash, false);
    ReachesNext(
      Registered(s, a), SubmitOrder(1, ANY_DRAWS), one, WHOLE_FILLS, CapOf(cap), OPEN_GATE, startingCash, false);
    ReachesNext(one, Register(b), Registered(one, b), WHOLE_FILLS, CapOf(cap), OPEN_GATE, startingCash, false);
    ReachesNext(
      Registered(one, b), SubmitOrder(2, ANY_DRAWS), both, WHOLE_FILLS, CapOf(cap), OPEN_GATE, startingCash, false);
    BookFollows(both, WHOLE_FILLS, CapOf(cap), OPEN_GATE, deep, draws);
    TwinsFill(both, WHOLE_FILLS, cap, startingCash, deep, draws);
    var filled := BookArrives(both, WHOLE_FILLS, deep, [1, 2], draws);
    ReachesNext(
      both, NewBook(deep, [1, 2], draws), filled, WHOLE_FILLS, CapOf(cap), OPEN_GATE, startingCash, false);
    assert ExceedsCap(filled, CapOf(cap));
  }

  lemma BookFollows(
    s: System, params: MatchParams, limits: RiskLimits, a: Approval, book: OrderBook, draws: OrderId -> Draws)
    requires s.venue.resting.Keys == {1, 2} && book.bids == []
    ensures Follows(
      s, NewBook(book, [1, 2], draws), BookArrives(s, params, book, [1, 2], draws), params, limits, a)
  {
    hide BookArrives;
  }

  /** Both twins fill when the ask arrives, and leave twice the cap. */
  lemma TwinsFill(
    s: System, params: MatchParams, cap: Usd, startingCash: Usd, book: OrderBook, draws: OrderId -> Draws)
    requires cap > 0.0 && params == MatchParams(0, 0, true, 1.0, 0.0)
    requires book == OrderBook(0, 0, [], [Level(0.5, cap * 2.0)], 0.01, 1.0, 0, 0)
    requires var a, b := TwinOrder(1, cap), TwinOrder(2, cap);
      && s.orders == map[1 := Order(a, Acknowledged, 0.0, 0.0, 0.0), 2 := Order(b, Acknowledged, 0.0, 0.0, 0.0)]
      && s.venue.resting == map[1 := RestingOrder(a, a.quantity), 2 := RestingOrder(b, b.quantity)]
      && s.ledger == FreshLedger(startingCash)
    ensures TokenExposure(BookArrives(s, params, book, [1, 2], draws).ledger.holdings, 0) == cap * 2.0
  {
    hide Times, Quot, HitOne, Equity, ApplyFill;
    var a, b := TwinOrder(1, cap), TwinOrder(2, cap);
    var c, e := Candidate(1, RestingOrder(a, a.quantity)), Candidate(2, RestingOrder(b, b.quantity));
    assert [1, 2][1..] == [2] && [2][1..] == [];
    assert Candidates(s.venue.resting, 0, [2]) == [e];
    assert Candidates(s.venue.resting, 0, [1, 2]) == [c, e];
    HitWhole(s.venue, params, c, book, draws(1));
    var h1 := HitOne(s.venue, params, c, book, draws(1));
    HitWhole(h1.venue, params, e, book, draws(2));
    var h2 := HitOne(h1.venue, params, e, book, draws(2));
    assert [c, e][..1] == [c] && [c][..0] == [];
    assert HitAll(s.venue, params, [c], book, draws) == Hits(h1.venue, h1.fills);
    assert HitAll(s.venue, params, [c, e], book, draws) == Hits(h2.venue, h1.fills + h2.fills);
    var f, g := h1.fills[0], h2.fills[0];
    var fills := h1.fills + h2.fills;
    assert fills == [f, g] && fills[1..] == [g] && [g][1..] == [];
    var p := ApplyFill(FreshHolding(0), f).holding;
    var q := ApplyFill(p, g).holding;
    AddingAtTheSamePrice(f, g, p, q);
    var orders' := ExternalFill(s.orders, f).orders;
    assert AcceptsExternal(s.orders, f) && AcceptsExternal(orders', g);
    assert Deliver(orders', LedgerFill(s.ledger, f), [g]).ledger == LedgerFill(LedgerFill(s.ledger, f), g);
    assert Deliver(s.orders, s.ledger, fills).ledger == LedgerFill(LedgerFill(s.ledger, f), g);
    assert Deliver(s.orders, s.ledger, fills).ledger.holdings[0] == q;
    HalfPriced(q, cap);
  }

  lemma HalfPriced(q: Holding, cap: Usd)
    requires cap > 0.0 && q.net == cap * 4.0 && q.avg == 0.5 && q.mark.None?
    ensures Exposure(q) == cap * 2.0
  {
  }

  lemma AddingAtTheSamePrice(f: Fill, g: Fill, p: Holding, q: Holding)
    requires f.side == g.side == Buy && f.quantity == g.quantity > 0.0 && f.price == g.price
    requires p == ApplyFill(FreshHolding(0), f).holding && q == ApplyFill(p, g).holding
    ensures q.net == f.quantity * 2.0 && q.avg == f.price && q.mark.None?
  {
    hide Times, Quot;
    TimesZero(0.0);
    TimesComm(f.quantity, f.price);
    QuotOf(Times(f.quantity, f.price), f.quantity, f.price);
    TimesPlus(f.price, f.quantity, f.quantity);
    TimesComm(f.quantity * 2.0, f.price);
    QuotOf(Times(f.quantity, f.price) + Times(f.quantity, f.price), f.quantity * 2.0, f.price);
  }
}
