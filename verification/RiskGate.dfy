/** The pre-trade risk gate (crates/risk/src/engine.rs), and the caps it keeps over whole runs of
    the trading system behind it (crates/app/src/pipeline.rs). */
module RiskGate {
  import opened Money
  import opened Products
  import opened MapSums
  import opened Orders
  import opened OrderBooks
  import opened Matching
  import opened Positions
  import opened Portfolios
  import opened OrderManagement
  import opened PaperVenue
  import opened TradingSystem

  datatype RiskLimits = RiskLimits(
    maxTrade: Usd,
    minTrade: Usd,
    maxPosition: Usd,
    maxMarketExposure: Usd,
    maxPortfolioExposure: Usd,
    maxDailyLoss: Usd,
    maxOpenOrders: nat,
    maxSlippageBps: nat,
    minLiquidity: Usd,
    maxMarketDataAge: int,
    maxLiveOrder: Usd,
    requireMarketData: bool)

  datatype RiskSnapshot = RiskSnapshot(
    dailyPnl: Usd,
    grossExposure: Usd,
    marketExposure: Usd,
    tokenExposure: Usd,
    openOrders: nat)

  /** The categorical inputs of the first six checks. */
  datatype Gate = Gate(
    killSwitchEngaged: bool,
    live: bool,
    liveArmed: bool,
    healthy: bool,
    alreadyProcessed: bool,
    walletEnabled: bool,
    marketTradable: bool)

  datatype Rejection =
    | KillSwitchActive
    | LiveExecutionNotArmed
    | SystemUnhealthy
    | DuplicateOrder
    | WalletDisabled
    | MarketNotTradable
    | DailyLossLimitReached
    | MaxOpenOrdersReached
    | BelowMinimumOrderSize
    | MaxTradeSizeExceeded(limit: Usd)
    | MaxPositionExceeded
    | MaxMarketExposureExceeded
    | MaxPortfolioExposureExceeded
    | StaleMarketData
    | InsufficientLiquidity
    | SlippageTooWide

  datatype Verdict = Approved | Blocked(rejection: Rejection)

  /** Realised slippage in basis points; positive is worse for us. */
  function SlippageBps(reference: Price, actual: Price, side: Side): real {
    Quot(Signed(side, actual - reference), reference) * 10000.0
  }

  function CheckMarketData(
    limits: RiskLimits, order: OrderRequest, book: Option<OrderBook>, now: int): Verdict
  {
    if book.None? then
      if limits.requireMarketData then Blocked(StaleMarketData) else Approved
    else
      var levels := TakingSide(book.value, order.side);
      var sweep := SweepOf(order.side, levels, order.quantity, order.limitPrice);
      if now - book.value.timestamp > limits.maxMarketDataAge then Blocked(StaleMarketData)
      else if NotionalWithin(order.side, levels, order.limitPrice) < limits.minLiquidity then
        Blocked(InsufficientLiquidity)
      else if sweep.None? then Blocked(InsufficientLiquidity)
      else if SlippageBps(order.referencePrice, sweep.value.vwap, order.side) > limits.maxSlippageBps as real then
        Blocked(SlippageTooWide)
      else Approved
  }

  lemma MarketDataVerdicts(limits: RiskLimits, order: OrderRequest, book: Option<OrderBook>, now: int)
    ensures var v := CheckMarketData(limits, order, book, now);
      v.Blocked? ==> v.rejection.StaleMarketData? || v.rejection.InsufficientLiquidity? || v.rejection.SlippageTooWide?
  {
  }

  function Check(
    limits: RiskLimits, gate: Gate, order: OrderRequest, snap: RiskSnapshot,
    book: Option<OrderBook>, now: int): Verdict
  {
    var notional := RequestNotional(order);
    if gate.killSwitchEngaged then Blocked(KillSwitchActive)
    else if gate.live && !gate.liveArmed then Blocked(LiveExecutionNotArmed)
    else if !gate.healthy then Blocked(SystemUnhealthy)
    else if gate.alreadyProcessed then Blocked(DuplicateOrder)
    else if !gate.walletEnabled then Blocked(WalletDisabled)
    else if !gate.marketTradable then Blocked(MarketNotTradable)
    else if snap.dailyPnl < -limits.maxDailyLoss then Blocked(DailyLossLimitReached)
    else if snap.openOrders >= limits.maxOpenOrders then Blocked(MaxOpenOrdersReached)
    else if notional < limits.minTrade then Blocked(BelowMinimumOrderSize)
    else if notional > limits.maxTrade then Blocked(MaxTradeSizeExceeded(limits.maxTrade))
    else if gate.live && notional > limits.maxLiveOrder then Blocked(MaxTradeSizeExceeded(limits.maxLiveOrder))
    else if snap.tokenExposure + notional > limits.maxPosition then Blocked(MaxPositionExceeded)
    else if snap.marketExposure + notional > limits.maxMarketExposure then Blocked(MaxMarketExposureExceeded)
    else if snap.grossExposure + notional > limits.maxPortfolioExposure then Blocked(MaxPortfolioExposureExceeded)
    else CheckMarketData(limits, order, book, now)
  }

  /** Nothing categorical stands in the way of an order. */
  predicate GateOpen(g: Gate) {
    && !g.killSwitchEngaged && (g.live ==> g.liveArmed) && g.healthy
    && !g.alreadyProcessed && g.walletEnabled && g.marketTradable
  }

  /** The book, if there is one, is fresh, deep enough, and walking it stays within the slippage limit;
      if there is none, none is required. */
  ghost predicate ReachableData(limits: RiskLimits, order: OrderRequest, book: Option<OrderBook>, now: int) {
    if book.None? then !limits.requireMarketData
    else
      && book.value.timestamp >= now - limits.maxMarketDataAge
      && Deep(limits, order, book.value) && WalkWithinBudget(limits, order, book.value)
  }

  /** The part of an order that a book can fill within its limit. */
  function Reachable(order: OrderRequest, book: OrderBook): Qty {
    Min(order.quantity, LiquidityWithin(order.side, TakingSide(book, order.side), order.limitPrice))
  }

  /** There is enough money on offer within the order's limit, and something of it can be taken. */
  predicate Deep(limits: RiskLimits, order: OrderRequest, book: OrderBook) {
    && NotionalWithin(order.side, TakingSide(book, order.side), order.limitPrice) >= limits.minLiquidity
    && Reachable(order, book) > 0.0
  }

  /** Walking the book costs no more over the reference price than the slippage limit allows. */
  ghost predicate WalkWithinBudget(limits: RiskLimits, order: OrderRequest, book: OrderBook) {
    WalksWithin(
      order.side, order.referencePrice, Reachable(order, book),
      WalkCost(order.side, TakingSide(book, order.side), order.quantity, order.limitPrice), limits.maxSlippageBps)
  }

  /** A buy of `quantity` for `cost` pays at most `bps` hundredths of a percent over the reference price
      for all of it; a sell receives at most that much under it. */
  predicate WalksWithin(side: Side, reference: Price, quantity: Qty, cost: Usd, bps: nat) {
    var fair := Times(quantity, reference);
    var over := if side == Buy then cost - fair else fair - cost;
    Times(over, 10000.0) <= Times(fair, bps as real)
  }

  /** Slippage measured per share in basis points is within the limit exactly when the whole cost is. */
  lemma SlippageIsOverpayment(side: Side, reference: Price, vwap: Price, quantity: Qty, bps: nat)
    requires quantity > 0.0
    ensures SlippageBps(reference, vwap, side) <= bps as real
      <==> WalksWithin(side, reference, quantity, Times(vwap, quantity), bps)
  {
    hide Times, Quot;
    var over: real := if side == Buy then vwap - reference else reference - vwap;
    var share, most := Quot(over, reference), Times(reference, bps as real);
    assert share * 10000.0 <= bps as real <==> Times(over, 10000.0) <= most by {
      QuotTimes(over, reference);
      TimesComm(share, reference);
      Tenthousand(share, reference, bps as real);
    }
    TimesMonotone(Times(over, 10000.0), most, quantity);
    TimesMonotone(most, Times(over, 10000.0), quantity);
    TimesMinus(quantity, vwap, reference);
    TimesMinus(quantity, reference, vwap);
    TimesComm(quantity, reference);
    TimesSwap(over, 10000.0, quantity);
    TimesSwap(reference, bps as real, quantity);
  }

  lemma Tenthousand(share: real, reference: Price, most: real)
    ensures share * 10000.0 <= most <==> Times(Times(reference, share), 10000.0) <= Times(reference, most)
  {
    hide Times;
    TimesAssoc(reference, share, 10000.0);
    TimesMonotone(Times(share, 10000.0), most, reference);
    TimesMonotone(most, Times(share, 10000.0), reference);
    InTenThousandths(share);
  }

  lemma InTenThousandths(share: real)
    ensures Times(share, 10000.0) == share * 10000.0
  {
  }

  lemma MarketDataExactly(limits: RiskLimits, order: OrderRequest, book: Option<OrderBook>, now: int)
    ensures CheckMarketData(limits, order, book, now) == Approved <==> ReachableData(limits, order, book, now)
  {
    hide Times, Quot, SlippageBps, WalksWithin;
    if book.Some? {
      var levels := TakingSide(book.value, order.side);
      SweepReport(order.side, levels, order.quantity, order.limitPrice);
      var sweep := SweepOf(order.side, levels, order.quantity, order.limitPrice);
      if sweep.Some? {
        SweepPaysItsWalk(order.side, levels, order.quantity, order.limitPrice);
        SlippageIsOverpayment(
          order.side, order.referencePrice, sweep.value.vwap, sweep.value.taken, limits.maxSlippageBps);
      }
    }
  }

  /** Approval means every limit at once: none of the ordered checks masks another. */
  lemma ApprovedExactlyWithinEveryLimit(
    limits: RiskLimits, gate: Gate, order: OrderRequest, snap: RiskSnapshot, book: Option<OrderBook>, now: int)
    ensures Check(limits, gate, order, snap, book, now) == Approved <==>
      var notional := RequestNotional(order);
      && GateOpen(gate)
      && -limits.maxDailyLoss <= snap.dailyPnl
      && snap.openOrders < limits.maxOpenOrders
      && limits.minTrade <= notional <= limits.maxTrade
      && (gate.live ==> notional <= limits.maxLiveOrder)
      && notional <= limits.maxPosition - snap.tokenExposure
      && notional <= limits.maxMarketExposure - snap.marketExposure
      && notional <= limits.maxPortfolioExposure - snap.grossExposure
      && ReachableData(limits, order, book, now)
  {
    hide Times, Quot;
    MarketDataExactly(limits, order, book, now);
  }

  /** The order in which the limits are tested. */
  function Rank(x: Rejection): nat {
    match x
    case KillSwitchActive => 0
    case LiveExecutionNotArmed => 1
    case SystemUnhealthy => 2
    case DuplicateOrder => 3
    case WalletDisabled => 4
    case MarketNotTradable => 5
    case DailyLossLimitReached => 6
    case MaxOpenOrdersReached => 7
    case BelowMinimumOrderSize => 8
    case MaxTradeSizeExceeded(_) => 9
    case MaxPositionExceeded => 10
    case MaxMarketExposureExceeded => 11
    case MaxPortfolioExposureExceeded => 12
    case StaleMarketData => 13
    case InsufficientLiquidity => 14
    case SlippageTooWide => 15
  }

  /** The order is outside the limit that a rejection names. */
  ghost predicate Breaks(
    x: Rejection, limits: RiskLimits, gate: Gate, order: OrderRequest, snap: RiskSnapshot,
    book: Option<OrderBook>, now: int)
  {
    var notional := RequestNotional(order);
    match x
    case KillSwitchActive => gate.killSwitchEngaged
    case LiveExecutionNotArmed => gate.live && !gate.liveArmed
    case SystemUnhealthy => !gate.healthy
    case DuplicateOrder => gate.alreadyProcessed
    case WalletDisabled => !gate.walletEnabled
    case MarketNotTradable => !gate.marketTradable
    case DailyLossLimitReached => snap.dailyPnl + limits.maxDailyLoss < 0.0
    case MaxOpenOrdersReached => limits.maxOpenOrders <= snap.openOrders
    case BelowMinimumOrderSize => notional < limits.minTrade
    case MaxTradeSizeExceeded(limit) =>
      || limit == limits.maxTrade < notional
      || (gate.live && notional <= limits.maxTrade && limit == limits.maxLiveOrder < notional)
    case MaxPositionExceeded => limits.maxPosition < snap.tokenExposure + notional
    case MaxMarketExposureExceeded => limits.maxMarketExposure < snap.marketExposure + notional
    case MaxPortfolioExposureExceeded => limits.maxPortfolioExposure < snap.grossExposure + notional
    case StaleMarketData =>
      if book.None? then limits.requireMarketData else book.value.timestamp + limits.maxMarketDataAge < now
    case InsufficientLiquidity => book.Some? && !Deep(limits, order, book.value)
    case SlippageTooWide =>
      book.Some? && Deep(limits, order, book.value) && !WalkWithinBudget(limits, order, book.value)
  }

  /** A rejection names a limit that the order breaks and, of all that it breaks, the first one tested. */
  lemma RejectionIsTheFirstBroken(
    limits: RiskLimits, gate: Gate, order: OrderRequest, snap: RiskSnapshot,
    book: Option<OrderBook>, now: int, other: Rejection)
    ensures var v := Check(limits, gate, order, snap, book, now);
      && (v.Blocked? ==> Breaks(v.rejection, limits, gate, order, snap, book, now))
      && (Breaks(other, limits, gate, order, snap, book, now) ==>
          v.Blocked? && (v.rejection == other || Rank(v.rejection) < Rank(other)))
  {
    hide RequestNotional, CheckMarketData, Deep, WalkWithinBudget;
    MarketDataRejection(limits, gate, order, snap, book, now, other);
  }

  lemma MarketDataRejection(
    limits: RiskLimits, gate: Gate, order: OrderRequest, snap: RiskSnapshot,
    book: Option<OrderBook>, now: int, other: Rejection)
    ensures var v := CheckMarketData(limits, order, book, now);
      && (v.Blocked? ==> Rank(v.rejection) >= 13 && Breaks(v.rejection, limits, gate, order, snap, book, now))
      && (Rank(other) >= 13 && Breaks(other, limits, gate, order, snap, book, now) ==>
          v.Blocked? && (v.rejection == other || Rank(v.rejection) < Rank(other)))
  {
    hide Times, Quot, SlippageBps, WalksWithin, RequestNotional;
    if book.Some? {
      var levels := TakingSide(book.value, order.side);
      SweepReport(order.side, levels, order.quantity, order.limitPrice);
      var sweep := SweepOf(order.side, levels, order.quantity, order.limitPrice);
      if sweep.Some? {
        SweepPaysItsWalk(order.side, levels, order.quantity, order.limitPrice);
        SlippageIsOverpayment(
          order.side, order.referencePrice, sweep.value.vwap, sweep.value.taken, limits.maxSlippageBps);
      }
    }
  }

  // ----- the snapshot of a portfolio

  ghost function SnapshotFor(
    h: map<TokenId, Holding>, order: OrderRequest, dailyPnl: Usd, openOrders: nat): RiskSnapshot
  {
    RiskSnapshot(dailyPnl, GrossExposure(h), MarketExposure(h, order.market), TokenExposure(h, order.token), openOrders)
  }

  // ----- approval

  /** What the gate is told at one submission besides the portfolio. */
  datatype Approval = Approval(gate: Gate, dailyPnl: Usd, openOrders: nat, seen: Option<OrderBook>, now: int)

  ghost predicate ApprovedOn(l: Ledger, limits: RiskLimits, order: OrderRequest, a: Approval) {
    Check(limits, a.gate, order, SnapshotFor(l.holdings, order, a.dailyPnl, a.openOrders), a.seen, a.now) == Approved
  }

  /** The holding an order would add to. */
  function HeldFor(h: map<TokenId, Holding>, order: OrderRequest): Holding {
    if order.token in h then h[order.token] else FreshHolding(order.market)
  }

  /** A token always belongs to the market it was first traded in. */
  predicate KeepsMarket(h: map<TokenId, Holding>, order: OrderRequest) {
    HeldFor(h, order).market == order.market
  }

  /** A fill that an order can get: part of it, on its side, no worse than its limit. */
  predicate FillsWithin(f: Fill, order: OrderRequest) {
    && f.side == order.side && f.token == order.token && f.market == order.market
    && 0.0 < f.quantity <= order.quantity && AtLeastAsGood(order.side, f.price, order.limitPrice)
  }

  // ----- when the gate's projection is conservative

  /** The most one share traded by the order can count for: its mark, or without one the price paid,
      which a buy's limit bounds and a sell's does not. */
  function WorstPrice(p: Holding, order: OrderRequest): real {
    if p.mark.Some? then p.mark.value else if order.side == Buy then order.limitPrice else 1.0
  }

  /** An order that adds to the holding counts its shares at its limit or above; one that turns against
      the holding either cannot take it through zero, or leaves no more than is projected on the other
      side. */
  predicate Covered(p: Holding, order: OrderRequest) {
    var ahead := Signed(order.side, p.net);
    if ahead >= 0.0 then WorstPrice(p, order) <= order.limitPrice
    else
      || ahead + order.quantity <= 0.0
      || Times(ahead + order.quantity, WorstPrice(p, order)) <= Exposure(p) + RequestNotional(order)
  }

  /** What one share of a holding counts for. */
  function Worth(p: Holding): real {
    if p.mark.Some? then p.mark.value else p.avg
  }

  lemma ExposureIsWorth(p: Holding)
    requires SoundAverage(p)
    ensures Exposure(p) == Times(Abs(p.net), Worth(p)) >= 0.0
    ensures 0.0 <= Worth(p)
  {
    hide Times;
    TimesSign(Abs(p.net), Worth(p));
    TimesNeg(p.net, Worth(p));
  }

  /** A fill that adds to a holding, or opens one, moves its exposure by the fill's quantity at the mark,
      or at the fill's own price while there is no mark. */
  lemma IncreaseMovesExposure(p: Holding, f: Fill)
    requires SoundAverage(p) && Increases(p, SignedQty(f)) && f.quantity > 0.0
    ensures Exposure(ApplyFill(p, f).holding)
      == Exposure(p) + Times(f.quantity, if p.mark.Some? then p.mark.value else f.price)
  {
    hide Times, Quot;
    var after := ApplyFill(p, f).holding;
    ApplyKeepsSoundAverage(p, f);
    ExposureIsWorth(p);
    ExposureIsWorth(after);
    assert Abs(after.net) == Abs(p.net) + f.quantity;
    TimesPlus(Worth(after), Abs(p.net), f.quantity);
    if p.mark.None? {
      FillConservesValue(p, f);
      TimesNeg(p.net, p.avg);
      TimesNeg(after.net, after.avg);
    }
  }

  /** A fill that only reduces a holding never adds exposure. */
  lemma ReductionAddsNoExposure(p: Holding, f: Fill)
    requires SoundAverage(p) && !Increases(p, SignedQty(f)) && f.quantity <= Abs(p.net)
    ensures Exposure(ApplyFill(p, f).holding) <= Exposure(p)
  {
    hide Times, Quot;
    var after := ApplyFill(p, f).holding;
    ApplyKeepsSoundAverage(p, f);
    ExposureIsWorth(p);
    ExposureIsWorth(after);
    TimesMonotone(Abs(after.net), Abs(p.net), Worth(p));
    TimesZero(Worth(after));
  }

  /** A fill that takes a holding through zero leaves what it trades beyond it, at the mark or at the
      fill's own price. */
  lemma CrossingLeavesTheRest(p: Holding, f: Fill)
    requires SoundAverage(p) && !Increases(p, SignedQty(f)) && f.quantity > Abs(p.net)
    ensures Exposure(ApplyFill(p, f).holding)
      == Times(f.quantity - Abs(p.net), if p.mark.Some? then p.mark.value else f.price)
  {
    hide Times, Quot;
    ApplyKeepsSoundAverage(p, f);
    ExposureIsWorth(ApplyFill(p, f).holding);
  }

  /** Every fill within a covered order lands within what the gate projects for the whole order. */
  lemma CoveredFillStaysProjected(p: Holding, order: OrderRequest, f: Fill)
    requires SoundAverage(p) && Covered(p, order) && FillsWithin(f, order)
    ensures Exposure(ApplyFill(p, f).holding) <= Exposure(p) + RequestNotional(order)
  {
    hide Times, Quot, Exposure, ApplyFill;
    var per: real := if p.mark.Some? then p.mark.value else f.price;
    ExposureIsWorth(p);
    TimesSign(order.quantity, order.limitPrice);
    if Increases(p, SignedQty(f)) {
      IncreaseMovesExposure(p, f);
      TimesMonotone(f.quantity, order.quantity, per);
      TimesMonotone(per, order.limitPrice, order.quantity);
    } else if f.quantity <= Abs(p.net) {
      ReductionAddsNoExposure(p, f);
    } else {
      CrossingLeavesTheRest(p, f);
      TimesMonotone(f.quantity - Abs(p.net), order.quantity - Abs(p.net), per);
      TimesMonotone(per, WorstPrice(p, order), order.quantity - Abs(p.net));
    }
  }

  /** A price the order can trade at that comes as close to the worst as `bound` needs. */
  function BadPrice(p: Holding, order: OrderRequest, bound: real): Price {
    if order.side == Sell && bound < 1.0 then (Max(order.limitPrice, bound) + 1.0) / 2.0 else order.limitPrice
  }

  /** The gate's projection bounds every fill an order can get exactly when the order is covered. */
  lemma ProjectionIsConservativeExactly(p: Holding, order: OrderRequest)
    requires SoundAverage(p) && order.quantity > 0.0
    ensures Covered(p, order) <==>
      forall f :: FillsWithin(f, order) ==> Exposure(ApplyFill(p, f).holding) <= Exposure(p) + RequestNotional(order)
  {
    hide Times, Quot, Exposure, ApplyFill;
    if Covered(p, order) {
      forall f | FillsWithin(f, order)
        ensures Exposure(ApplyFill(p, f).holding) <= Exposure(p) + RequestNotional(order)
      {
        CoveredFillStaysProjected(p, order, f);
      }
    } else {
      var f := UncoveredFill(p, order);
      assert FillsWithin(f, order) && Exposure(ApplyFill(p, f).holding) > Exposure(p) + RequestNotional(order);
    }
  }

  /** Filled whole, at a bad enough price, an uncovered order passes the projection. */
  lemma UncoveredFill(p: Holding, order: OrderRequest) returns (f: Fill)
    requires SoundAverage(p) && order.quantity > 0.0 && !Covered(p, order)
    ensures FillsWithin(f, order) && Exposure(ApplyFill(p, f).holding) > Exposure(p) + RequestNotional(order)
  {
    hide Times, Quot, Exposure, ApplyFill;
    var projected, beyond := Exposure(p) + RequestNotional(order), order.quantity - Abs(p.net);
    ExposureIsWorth(p);
    TimesSign(order.quantity, order.limitPrice);
    if Signed(order.side, p.net) >= 0.0 {
      f := Fill(order.id, order.market, order.token, order.side, order.quantity, BadPrice(p, order, 0.0), 0.0, false);
      IncreaseMovesExposure(p, f);
      TimesMonotone(order.limitPrice, if p.mark.Some? then p.mark.value else f.price, order.quantity);
    } else {
      QuotTimes(projected, beyond);
      TimesZero(beyond);
      var bound := Quot(projected, beyond);
      f := Fill(order.id, order.market, order.token, order.side, order.quantity, BadPrice(p, order, bound), 0.0, false);
      CrossingLeavesTheRest(p, f);
      var per: real := if p.mark.Some? then p.mark.value else f.price;
      TimesMonotone(WorstPrice(p, order), bound, beyond);
      TimesMonotone(bound, per, beyond);
      TimesComm(bound, beyond);
    }
  }

  // ----- what an approved fill does to the caps

  ghost predicate CapsHold(h: map<TokenId, Holding>, limits: RiskLimits) {
    && (forall t :: TokenExposure(h, t) <= limits.maxPosition)
    && (forall m :: MarketExposure(h, m) <= limits.maxMarketExposure)
    && GrossExposure(h) <= limits.maxPortfolioExposure
  }

  /** An order's own token, its market and the whole portfolio are within their caps. */
  ghost predicate LandsWithin(h: map<TokenId, Holding>, limits: RiskLimits, order: OrderRequest) {
    && TokenExposure(h, order.token) <= limits.maxPosition
    && MarketExposure(h, order.market) <= limits.maxMarketExposure
    && GrossExposure(h) <= limits.maxPortfolioExposure
  }

  /** Nothing that was within its cap has left it, and nothing past its cap has grown. */
  ghost predicate NoNewBreach(h: map<TokenId, Holding>, h': map<TokenId, Holding>, limits: RiskLimits) {
    && (forall t :: TokenExposure(h', t) <= Max(limits.maxPosition, TokenExposure(h, t)))
    && (forall m :: MarketExposure(h', m) <= Max(limits.maxMarketExposure, MarketExposure(h, m)))
    && GrossExposure(h') <= Max(limits.maxPortfolioExposure, GrossExposure(h))
  }

  /** Replacing one holding moves the exposure of its token, of its market and of the portfolio alike. */
  lemma OneHoldingMovesExposure(h: map<TokenId, Holding>, t: TokenId, p: Holding)
    requires t in h ==> h[t].market == p.market
    ensures var moved := Exposure(p) - TokenExposure(h, t);
      && (forall u :: TokenExposure(h[t := p], u) == TokenExposure(h, u) + if u == t then moved else 0.0)
      && (forall m :: MarketExposure(h[t := p], m) == MarketExposure(h, m) + if m == p.market then moved else 0.0)
      && GrossExposure(h[t := p]) == GrossExposure(h) + moved
  {
    hide Exposure;
    var h' := h[t := p];
    assert Exposures(h') == Exposures(h)[t := Exposure(p)];
    SumUpdate(Exposures(h), t, Exposure(p));
    forall m
      ensures MarketExposure(h', m)
        == MarketExposure(h, m) + if m == p.market then Exposure(p) - TokenExposure(h, t) else 0.0
    {
      var e := if p.market == m then Exposure(p) else 0.0;
      assert MarketExposures(h', m) == MarketExposures(h, m)[t := e];
      SumUpdate(MarketExposures(h, m), t, e);
    }
  }

  /** Whatever else is held or marked: booking a fill within a covered order that the gate approved on
      this ledger leaves the order's token, its market and the portfolio within their caps, and every
      other exposure where it was. */
  lemma ApprovedFillKeepsCaps(l: Ledger, limits: RiskLimits, order: OrderRequest, a: Approval, f: Fill)
    requires SoundAverage(HeldFor(l.holdings, order)) && KeepsMarket(l.holdings, order)
    requires Covered(HeldFor(l.holdings, order), order) && FillsWithin(f, order)
    ensures ApprovedOn(l, limits, order, a) ==>
      && LandsWithin(LedgerFill(l, f).holdings, limits, order)
      && NoNewBreach(l.holdings, LedgerFill(l, f).holdings, limits)
  {
    hide Exposure, Check, ReachableData, RequestNotional, ApplyFill, SoundAverage, Equity, MarketExposure;
    hide GrossExposure, Covered;
    if !ApprovedOn(l, limits, order, a) {
      return;
    }
    ApprovedExactlyWithinEveryLimit(
      limits, a.gate, order, SnapshotFor(l.holdings, order, a.dailyPnl, a.openOrders), a.seen, a.now);
    var p := HeldFor(l.holdings, order);
    FreshHasNoExposure(order.market);
    CoveredFillStaysProjected(p, order, f);
    MarketSurvives(p, f);
    OneHoldingMovesExposure(l.holdings, f.token, ApplyFill(p, f).holding);
  }

  lemma FreshHasNoExposure(market: MarketId)
    ensures Exposure(FreshHolding(market)) == 0.0
  {
  }

  lemma MarketSurvives(p: Holding, f: Fill)
    ensures ApplyFill(p, f).holding.market == p.market
  {
  }

  // ----- runs of the trading system whose submissions the gate approved

  /** A submission that reaches the venue was approved on the snapshot of that moment. */
  ghost predicate GatedStep(s: System, step: SystemStep, limits: RiskLimits, a: Approval) {
    step.SubmitOrder? && ReachesAdapter(s.orders, step.id) ==>
      var order := s.orders[step.id].request;
      ApprovedOn(s.ledger, limits, order, a) && KeepsMarket(s.ledger.holdings, order)
  }

  ghost predicate GatedRun(
    run: seq<System>, steps: seq<SystemStep>, approvals: seq<Approval>, limits: RiskLimits)
  {
    && |run| == |steps| + 1 && |approvals| == |steps|
    && forall i :: 0 <= i < |steps| ==> GatedStep(run[i], steps[i], limits, approvals[i])
  }

  /** No order is good-til-cancelled, so each fills at once or not at all. */
  predicate ImmediateOnly(steps: seq<SystemStep>) {
    forall i :: 0 <= i < |steps| && steps[i].Register? ==> steps[i].request.tif != Gtc
  }

  /** The step marks a token that is held. */
  predicate MarksHeld(s: System, step: SystemStep) {
    match step
    case NewBook(book, _, _) => Mid(book).Some? && book.token in s.ledger.holdings
    case MarkToken(t, _) => t in s.ledger.holdings
    case _ => false
  }

  /** The step does not submit an order whose fills the gate's projection fails to bound. */
  predicate CoveredStep(s: System, step: SystemStep) {
    step.SubmitOrder? && ReachesAdapter(s.orders, step.id) ==>
      Covered(HeldFor(s.ledger.holdings, s.orders[step.id].request), s.orders[step.id].request)
  }

  /** The venue answers a submission with at most one fill, within the order. */
  lemma SubmissionBooksOneFill(s: System, params: MatchParams, id: OrderId, d: Draws)
    requires SystemInv(s) && ReachesAdapter(s.orders, id)
    ensures var after, r := SubmitTo(s, params, id, d), s.orders[id].request;
      && (after.ledger == s.ledger || exists f :: FillsWithin(f, r) && after.ledger == LedgerFill(s.ledger, f))
      && after.orders == s.orders[id := after.orders[id]] && after.orders[id].request == r
  {
    hide LedgerFill, LedgerFills, VenueSubmit, Submit, LedgerInv, Linked, OrderInv, Recorded;
    var r := s.orders[id].request;
    var sub := VenueSubmit(s.venue, params, r, d);
    SoundParts(s.orders, s.venue, s.ledger, id);
    PaperSubmissionCases(s.venue, params, r, d);
    if sub.answer.Acked? && sub.answer.immediate != [] {
      var f := sub.answer.immediate[0];
      SubmitFilled(s.orders, id, f, sub.answer.terminal);
      LedgerTakesOne(s.ledger, f);
      assert FillsWithin(f, r);
    } else {
      SubmitUnfilled(s.orders, id, sub.answer);
      LedgerTakesNone(s.ledger);
    }
  }

  lemma HeldIsSound(s: System, order: OrderRequest)
    requires SystemInv(s)
    ensures SoundAverage(HeldFor(s.ledger.holdings, order))
  {
    hide Linked;
  }

  lemma NothingBreaks(h: map<TokenId, Holding>, limits: RiskLimits)
    ensures NoNewBreach(h, h, limits)
  {
  }

  lemma BreachesChain(
    h: map<TokenId, Holding>, h': map<TokenId, Holding>, h'': map<TokenId, Holding>, limits: RiskLimits)
    requires NoNewBreach(h, h', limits) && NoNewBreach(h', h'', limits)
    ensures NoNewBreach(h, h'', limits)
  {
    hide TokenExposure, MarketExposure, GrossExposure;
    forall t
      ensures TokenExposure(h'', t) <= Max(limits.maxPosition, TokenExposure(h, t))
    {
      assert TokenExposure(h', t) <= Max(limits.maxPosition, TokenExposure(h, t));
    }
    forall m
      ensures MarketExposure(h'', m) <= Max(limits.maxMarketExposure, MarketExposure(h, m))
    {
      assert MarketExposure(h', m) <= Max(limits.maxMarketExposure, MarketExposure(h, m));
    }
  }

  lemma SubmissionLandsWithinCaps(
    s: System, params: MatchParams, limits: RiskLimits, id: OrderId, d: Draws, a: Approval)
    requires SystemInv(s) && ReachesAdapter(s.orders, id) && CoveredStep(s, SubmitOrder(id, d))
    ensures GatedStep(s, SubmitOrder(id, d), limits, a) ==>
      var h, h' := s.ledger.holdings, SubmitTo(s, params, id, d).ledger.holdings;
      && (h' != h ==> LandsWithin(h', limits, s.orders[id].request))
      && NoNewBreach(h, h', limits)
  {
    hide SystemInv, SubmitTo, ApprovedOn, LandsWithin, NoNewBreach, LedgerFill, Covered, SoundAverage, FillsWithin;
    if !GatedStep(s, SubmitOrder(id, d), limits, a) {
      return;
    }
    var r := s.orders[id].request;
    SubmissionBooksOneFill(s, params, id, d);
    NothingBreaks(s.ledger.holdings, limits);
    HeldIsSound(s, r);
    var after := SubmitTo(s, params, id, d).ledger;
    if after != s.ledger {
      var f :| FillsWithin(f, r) && after == LedgerFill(s.ledger, f);
      ApprovedFillKeepsCaps(s.ledger, limits, r, a, f);
    }
  }

  /** At any point of any run, with resting orders and with marks moving freely: when a covered order is
      approved on the current snapshot and its submission fills, the order's token, its market and the
      portfolio are then within their caps. */
  lemma ApprovedSubmissionsLandWithinCaps(
    run: seq<System>, steps: seq<SystemStep>, approvals: seq<Approval>, limits: RiskLimits,
    params: MatchParams, startingCash: Usd, i: nat)
    requires IsRun(run, steps, params, startingCash) && GatedRun(run, steps, approvals, limits)
    requires i < |steps| && steps[i].SubmitOrder? && CoveredStep(run[i], steps[i])
    ensures run[i + 1].ledger.holdings != run[i].ledger.holdings ==>
      LandsWithin(run[i + 1].ledger.holdings, limits, run[i].orders[steps[i].id].request)
  {
    hide SystemInv, GatedStep, CoveredStep, LandsWithin, NoNewBreach;
    RunsKeepSystemInv(run, steps, params, startingCash, i);
    if ReachesAdapter(run[i].orders, steps[i].id) {
      assert GatedStep(run[i], SubmitOrder(steps[i].id, steps[i].draws), limits, approvals[i]);
      assert CoveredStep(run[i], SubmitOrder(steps[i].id, steps[i].draws));
      SubmissionLandsWithinCaps(run[i], params, limits, steps[i].id, steps[i].draws, approvals[i]);
    }
  }

  predicate AllImmediate(s: System) {
    forall id :: id in s.orders ==> s.orders[id].request.tif != Gtc
  }

  /** With nothing resting, a new book fills nothing and at most marks its own token. */
  lemma NewBookOnlyMarks(
    s: System, params: MatchParams, book: OrderBook, order: seq<OrderId>, draws: OrderId -> Draws)
    requires SystemInv(s) && AllImmediate(s) && IterationOrder(order, s.venue.resting.Keys)
    ensures var after := BookArrives(s, params, book, order, draws);
      && after.orders == s.orders
      && (!MarksHeld(s, NewBook(book, order, draws)) ==> after.ledger.holdings == s.ledger.holdings)
  {
    hide LedgerInv, OrderInv, FilledExposure, MoneyAgrees, PositionsAgree, OrdersSound, QuantitiesAgree, DueSound;
    assert s.venue.resting.Keys == {};
    assert BookUpdate(s.venue, params, book, order, draws).fills == [];
  }

  lemma StepStaysImmediate(s: System, params: MatchParams, step: SystemStep)
    requires SystemInv(s) && AllImmediate(s) && Legal(s, step)
    requires step.Register? ==> step.request.tif != Gtc
    ensures AllImmediate(TradingSystem.TakeStep(s, params, step))
  {
    hide SystemInv, SubmitTo, BookArrives;
    match step
    case SubmitOrder(id, d) =>
      if ReachesAdapter(s.orders, id) {
        SubmissionBooksOneFill(s, params, id, d);
      } else {
        UnsubmittedStays(s, params, id, d);
      }
    case NewBook(book, order, draws) => NewBookOnlyMarks(s, params, book, order, draws);
    case _ =>
  }

  lemma UnsubmittedStays(s: System, params: MatchParams, id: OrderId, d: Draws)
    requires !ReachesAdapter(s.orders, id)
    ensures SubmitTo(s, params, id, d) == s
  {
  }

  lemma StepAddsNoBreach(s: System, params: MatchParams, limits: RiskLimits, step: SystemStep, a: Approval)
    requires SystemInv(s) && AllImmediate(s) && Legal(s, step)
    requires GatedStep(s, step, limits, a) && CoveredStep(s, step) && !MarksHeld(s, step)
    ensures NoNewBreach(s.ledger.holdings, TradingSystem.TakeStep(s, params, step).ledger.holdings, limits)
  {
    hide SystemInv, SubmitTo, BookArrives, NoNewBreach, GatedStep, CoveredStep;
    NothingBreaks(s.ledger.holdings, limits);
    match step
    case SubmitOrder(id, d) =>
      if ReachesAdapter(s.orders, id) {
        SubmissionLandsWithinCaps(s, params, limits, id, d, a);
      } else {
        UnsubmittedStays(s, params, id, d);
      }
    case NewBook(book, order, draws) => NewBookOnlyMarks(s, params, book, order, draws);
    case _ =>
  }

  lemma {:induction false} RunsStayImmediate(
    run: seq<System>, steps: seq<SystemStep>, params: MatchParams, startingCash: Usd, i: nat)
    requires IsRun(run, steps, params, startingCash) && ImmediateOnly(steps) && i <= |steps|
    ensures AllImmediate(run[i])
  {
    hide SystemInv, AllImmediate, TradingSystem.TakeStep, Legal;
    if i == 0 {
      NoOrdersYet(run[0]);
    } else {
      RunsStayImmediate(run, steps, params, startingCash, i - 1);
      RunsKeepSystemInv(run, steps, params, startingCash, i - 1);
      StepStaysImmediate(run[i - 1], params, steps[i - 1]);
    }
  }

  lemma NoOrdersYet(s: System)
    requires s.orders == map[]
    ensures AllImmediate(s)
  {
  }

  /** In a run of immediate orders, each approved on the snapshot of its moment, only a mark of a held
      token or a submission the projection does not cover can carry an exposure past its cap, or further
      past it: over any stretch without those, whatever marks came before, no cap is newly broken. */
  lemma {:induction false} BreachesComeFromMarks(
    run: seq<System>, steps: seq<SystemStep>, approvals: seq<Approval>, limits: RiskLimits,
    params: MatchParams, startingCash: Usd, i: nat, j: nat)
    requires IsRun(run, steps, params, startingCash) && ImmediateOnly(steps)
    requires GatedRun(run, steps, approvals, limits) && i <= j <= |steps|
    requires forall k :: i <= k < j ==> CoveredStep(run[k], steps[k]) && !MarksHeld(run[k], steps[k])
    ensures NoNewBreach(run[i].ledger.holdings, run[j].ledger.holdings, limits)
  {
    hide SystemInv, NoNewBreach, TradingSystem.TakeStep, Legal, GatedStep, CoveredStep, MarksHeld, AllImmediate;
    if i == j {
      NothingBreaks(run[i].ledger.holdings, limits);
    } else {
      BreachesComeFromMarks(run, steps, approvals, limits, params, startingCash, i, j - 1);
      RunsKeepSystemInv(run, steps, params, startingCash, j - 1);
      RunsStayImmediate(run, steps, params, startingCash, j - 1);
      StepAddsNoBreach(run[j - 1], params, limits, steps[j - 1], approvals[j - 1]);
      BreachesChain(run[i].ledger.holdings, run[j - 1].ledger.holdings, run[j].ledger.holdings, limits);
    }
  }

  /** So while nothing held is marked, and sells only reduce longs, every token, market and gross exposure
      stays within its cap forever. */
  lemma CapsHoldForever(
    run: seq<System>, steps: seq<SystemStep>, approvals: seq<Approval>, limits: RiskLimits,
    params: MatchParams, startingCash: Usd, i: nat)
    requires limits.maxPosition >= 0.0 && limits.maxMarketExposure >= 0.0 && limits.maxPortfolioExposure >= 0.0
    requires IsRun(run, steps, params, startingCash) && ImmediateOnly(steps)
    requires GatedRun(run, steps, approvals, limits) && i <= |steps|
    requires forall k :: 0 <= k < i ==> CoveredStep(run[k], steps[k]) && !MarksHeld(run[k], steps[k])
    ensures CapsHold(run[i].ledger.holdings, limits)
  {
    hide TokenExposure, MarketExposure, GrossExposure, CoveredStep, MarksHeld, GatedRun;
    BreachesComeFromMarks(run, steps, approvals, limits, params, startingCash, 0, i);
    NothingIsExposed();
  }

  lemma NothingIsExposed()
    ensures forall t :: TokenExposure(map[], t) == 0.0
    ensures forall m :: MarketExposure(map[], m) == 0.0
    ensures GrossExposure(map[]) == 0.0
  {
    SumAllZero(Exposures(map[]));
    forall m
      ensures MarketExposure(map[], m) == 0.0
    {
      SumAllZero(MarketExposures(map[], m));
    }
  }
}
