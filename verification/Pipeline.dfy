/** Sizing and the risk gate fed from the same portfolio and limits (crates/app/src/pipeline.rs). */
module Pipeline {
  import opened Money
  import opened Products
  import opened MapSums
  import opened Orders
  import opened OrderBooks
  import opened Matching
  import opened OrderManagement
  import opened TradingSystem
  import opened Positions
  import opened Portfolios
  import opened Sizing
  import opened RiskGate

  /** What sizing is told: portfolio state, the limits, and the book's liquidity and increment. */
  ghost function ContextFor(
    l: Ledger, limits: RiskLimits, market: MarketId, dailyPnl: Usd, liquidity: Usd, minOrderSize: real): SizingContext
  {
    var lostToday := Max(-dailyPnl, 0.0);
    SizingContext(
      Equity(l), MarketExposure(l.holdings, market), limits.maxPosition, limits.maxTrade, limits.minTrade,
      liquidity, Max(limits.maxDailyLoss - lostToday, 0.0), minOrderSize)
  }

  /** The source trade being copied. */
  datatype SourceTrade = SourceTrade(market: MarketId, token: TokenId, side: Side, price: Price, notional: Usd)

  /** A marketable limit that takes what it can at once. */
  function OrderFor(id: OrderId, t: SourceTrade, quantity: Qty, limit: Price): OrderRequest {
    OrderRequest(id, t.market, t.token, t.side, OrderType.Market, Ioc, quantity, limit, t.price)
  }

  /** Submitting a copy moves the position in the copied token the way the source moved, by at most the
      copy's size, moves no other position, and leaves nothing of it resting. A token first held through
      it belongs to the source's market. */
  lemma CopyFollowsItsSource(
    s: System, params: MatchParams, t: SourceTrade, id: OrderId, quantity: Qty, limit: Price, d: Draws)
    requires SystemInv(s) && ReachesAdapter(s.orders, id)
    requires s.orders[id].request == OrderFor(id, t, quantity, limit)
    ensures var before, after := s.ledger.holdings, SubmitTo(s, params, id, d);
      && (exists x: Qty, price: Price, fee: Usd ::
            && x <= quantity && (if t.side == Buy then price <= limit else price >= limit)
            && MovedBy(s.ledger, after.ledger, t, x, price, fee))
      && id !in after.venue.resting
      && (t.token !in before && t.token in after.ledger.holdings ==>
            after.ledger.holdings[t.token].market == t.market)
  {
    hide SystemInv, SubmitTo, ApplyFill, Equity, Times;
    SubmissionBooksOneFill(s, params, id, d);
    TradingSystem.SubmitKeepsInv(s, params, id, d);
    var after := SubmitTo(s, params, id, d);
    NothingImmediateRests(after, id);
    if after.ledger == s.ledger {
      TimesZero(limit);
      assert MovedBy(s.ledger, after.ledger, t, 0.0, limit, 0.0);
    } else {
      var f :| FillsWithin(f, s.orders[id].request) && after.ledger == LedgerFill(s.ledger, f);
      LedgerFillMovesNet(s.ledger, f);
      MarketSurvives(HoldingFor(s.ledger.holdings, f), f);
      assert MovedBy(s.ledger, after.ledger, t, f.quantity, f.price, f.fee);
    }
  }

  /** `x` of the copied token was traded at `price` in the source's direction: the token's net quantity
      and the cash moved accordingly, less the fee, and no other quantity moved. */
  ghost predicate MovedBy(l: Ledger, l': Ledger, t: SourceTrade, x: Qty, price: Price, fee: Usd) {
    var h, h' := l.holdings, l'.holdings;
    && (match t.side
        case Buy =>
          && NetQty(h', t.token) == NetQty(h, t.token) + x
          && l'.cash == l.cash - Times(x, price) - fee
        case Sell =>
          && NetQty(h', t.token) == NetQty(h, t.token) - x
          && l'.cash == l.cash + Times(x, price) - fee)
    && forall u :: u != t.token ==> NetQty(h', u) == NetQty(h, u)
  }

  lemma NothingImmediateRests(s: System, id: OrderId)
    requires SystemInv(s) && id in s.orders && s.orders[id].request.tif != Gtc
    ensures id !in s.venue.resting
  {
    hide LedgerInv;
  }

  /** `r` is an accepted size for copying `t` with this portfolio and these limits. */
  ghost predicate IsAcceptedSize(
    r: Sized, w: TargetWallet, t: SourceTrade, limit: Price,
    l: Ledger, limits: RiskLimits, dailyPnl: Usd, liquidity: Usd, minOrderSize: real)
  {
    r.Accepted?
    && IsSizing(r, w, t.notional, limit, ContextFor(l, limits, t.market, dailyPnl, liquidity, minOrderSize))
  }

  lemma TokenExposureWithinMarket(h: map<TokenId, Holding>, t: TokenId, m: MarketId)
    requires t in h ==> h[t].market == m
    ensures 0.0 <= TokenExposure(h, t) <= MarketExposure(h, m)
  {
    hide Exposure;
    forall u | u in h
      ensures Exposure(h[u]) >= 0.0
    {
      ExposureNonNegative(h[u]);
    }
    if t in h {
      SumAtLeastEntry(MarketExposures(h, m), t);
    } else {
      var zeros: map<TokenId, Usd> := map u | u in h :: 0.0;
      SumAllZero(zeros);
      SumMonotone(zeros, MarketExposures(h, m));
    }
  }

  lemma ExposureNonNegative(p: Holding)
    ensures Exposure(p) >= 0.0
  {
    hide Times;
  }

  /** What an accepted size of a copy costs, on the portfolio and the limits themselves: no more than the
      wallet asks for, of our equity where it asks for a share of that, and no more than the caps of the
      wallet, the trade ceiling, the room left under the position cap and what may still be lost today. */
  lemma SizedNotional(
    l: Ledger, limits: RiskLimits, w: TargetWallet, t: SourceTrade, id: OrderId, limit: Price,
    dailyPnl: Usd, liquidity: Usd, minOrderSize: real, r: Sized)
    ensures IsAcceptedSize(r, w, t, limit, l, limits, dailyPnl, liquidity, minOrderSize) ==>
        && RequestNotional(OrderFor(id, t, r.order.quantity, limit)) == r.order.notional
        && r.order.notional <= limits.maxTrade
        && r.order.notional <= limits.maxPosition - MarketExposure(l.holdings, t.market)
        && r.order.notional <= w.maxTrade && r.order.notional <= w.maxExposure
        && dailyPnl >= -limits.maxDailyLoss
        && r.order.notional <= limits.maxDailyLoss + Min(dailyPnl, 0.0)
        && (w.sizing.PortfolioPercent? ==> r.order.notional <= Times(Equity(l), w.sizing.pct))
        && (w.sizing.FixedRatio? ==> r.order.notional <= Times(t.notional, w.sizing.ratio))
        && (w.sizing.FixedUsd? ==> r.order.notional <= w.sizing.amount)
        && (w.sizing.RiskAdjusted? ==> r.order.notional <= Times(liquidity, w.sizing.liquidityCapPct))
  {
    hide Times, Quot, RawNotional, NamesBinding, Equity, MarketExposure, Allowed, LargestWithin, Caps, SharesFor;
    if !IsAcceptedSize(r, w, t, limit, l, limits, dailyPnl, liquidity, minOrderSize) {
      return;
    }
    var ctx := ContextFor(l, limits, t.market, dailyPnl, liquidity, minOrderSize);
    RawIsWhatIsAsked(w.sizing, t.notional, ctx);
    AcceptedSizeOnItsInputs(r, w, t.notional, limit, ctx, RawNotional(w.sizing, t.notional, ctx));
  }

  /** With sizing and the gate fed from the same portfolio and limits, an order built from an
      accepted size is never stopped by the daily loss limit, the global trade ceiling or the
      position cap; a trade-size rejection can only be the tighter live cap, and the minimum
      rejects it only when rounding down took it below the floor. */
  lemma SizedOrdersPassTheirCaps(
    l: Ledger, limits: RiskLimits, w: TargetWallet, t: SourceTrade, id: OrderId, limit: Price,
    dailyPnl: Usd, liquidity: Usd, minOrderSize: real, r: Sized,
    gate: Gate, openOrders: nat, book: Option<OrderBook>, now: int)
    requires t.token in l.holdings ==> l.holdings[t.token].market == t.market
    ensures IsAcceptedSize(r, w, t, limit, l, limits, dailyPnl, liquidity, minOrderSize) ==>
        var order := OrderFor(id, t, r.order.quantity, limit);
        var v := Check(limits, gate, order, SnapshotFor(l.holdings, order, dailyPnl, openOrders), book, now);
        && v != Blocked(DailyLossLimitReached)
        && v != Blocked(MaxPositionExceeded)
        && (v.Blocked? && v.rejection.MaxTradeSizeExceeded? ==> gate.live && r.order.notional > limits.maxLiveOrder)
        && (v == Blocked(BelowMinimumOrderSize) ==> r.order.notional < limits.minTrade)
  {
    if !r.Accepted? {
      return;
    }
    hide Times, RequestNotional, MarketExposure, GrossExposure, TokenExposure, CheckMarketData, IsSizing, ContextFor;
    SizedNotional(l, limits, w, t, id, limit, dailyPnl, liquidity, minOrderSize, r);
    TokenExposureWithinMarket(l.holdings, t.token, t.market);
    MarketDataVerdicts(limits, OrderFor(id, t, r.order.quantity, limit), book, now);
  }

  // ----- accepted, rounded down, and then too small for the gate

  /** One copied trade: what sizing was given and answered, and the gate's other inputs. */
  datatype Copied = Copied(
    wallet: TargetWallet, trade: SourceTrade, ledger: Ledger, limits: RiskLimits, dailyPnl: Usd, liquidity: Usd,
    sized: Sized, id: OrderId, gate: Gate, openOrders: nat, book: Option<OrderBook>, now: int)

  ghost predicate IsCopy(c: Copied, limit: Price, step: real) {
    IsAcceptedSize(c.sized, c.wallet, c.trade, limit, c.ledger, c.limits, c.dailyPnl, c.liquidity, step)
  }

  /** Sizing accepted the trade, and the gate stops its order as smaller than the global minimum. */
  ghost predicate StoppedAsTooSmall(c: Copied, limit: Price, step: real) {
    && IsCopy(c, limit, step)
    && var order := OrderFor(c.id, c.trade, c.sized.order.quantity, limit);
      Check(c.limits, c.gate, order, SnapshotFor(c.ledger.holdings, order, c.dailyPnl, c.openOrders), c.book, c.now)
      == Blocked(BelowMinimumOrderSize)
  }

  /** What an accepted size is worth: no multiple of the increment that its bound pays for is worth
      more, and it is worth at least one increment. */
  lemma CopyIsLargest(c: Copied, limit: Price, step: real)
    ensures IsCopy(c, limit, step) ==>
      var hi, n := Max(c.wallet.minTrade, c.limits.minTrade), c.sized.order.notional;
      && (step <= 0.0 ==> n >= hi)
      && (step > 0.0 ==> n >= Times(step, limit))
      && (step > 0.0 ==>
            forall k: int :: Times(Multiple(k, step), limit) <= hi ==> Times(Multiple(k, step), limit) <= n)
  {
    hide Times, Quot, RawNotional, NamesBinding, Equity, MarketExposure, SharesFor, ShutBy;
    if !IsCopy(c, limit, step) {
      return;
    }
    var ctx := ContextFor(c.ledger, c.limits, c.trade.market, c.dailyPnl, c.liquidity, step);
    var raw, caps := RawNotional(c.wallet.sizing, c.trade.notional, ctx), Caps(c.wallet, ctx);
    var q := c.sized.order.quantity;
    var n :| IsCapped(n, raw, caps) && q == SharesFor(n, limit, step);
    AcceptedSizeIsLargest(c.sized, c.wallet, c.trade.notional, limit, ctx, n);
    if step > 0.0 {
      var j: int :| j >= 0 && q == Multiple(j, step);
      TimesZero(step);
      TimesMonotone(1.0, j as real, step);
      TimesMonotone(step, q, limit);
      forall k: int | Times(Multiple(k, step), limit) <= n
        ensures Times(Multiple(k, step), limit) <= Times(q, limit)
      {
        TimesMonotone(Multiple(k, step), q, limit);
      }
    }
  }

  /** The smallest size a wallet asking for a fixed amount can be granted, with nothing else in the way. */
  function SmallestCopy(walletMin: Usd, globalMin: Usd, limit: Price, step: real): Copied {
    var hi := Max(walletMin, globalMin);
    var q := SharesFor(hi, limit, step);
    Copied(
      TargetWallet(FixedUsd(hi), hi, hi, walletMin), SourceTrade(0, 0, Buy, limit, hi), FreshLedger(0.0),
      RiskLimits(hi, globalMin, hi, hi, hi, hi, 1, 0, 0.0, 0, hi, false), 0.0, 0.0,
      Sized.Accepted(SizedOrder(q, Times(q, limit), None)), 0,
      Gate(false, false, false, true, false, true, true), 0, None, 0)
  }

  lemma SmallestCopyIsAccepted(walletMin: Usd, globalMin: Usd, limit: Price, step: real)
    requires var hi := Max(walletMin, globalMin);
      hi > 0.0 && (step > 0.0 ==> Times(step, limit) <= hi)
    ensures IsCopy(SmallestCopy(walletMin, globalMin, limit, step), limit, step)
  {
    hide Times, Quot, SharesFor, Equity;
    var c, hi := SmallestCopy(walletMin, globalMin, limit, step), Max(walletMin, globalMin);
    NothingIsExposed();
    SomeSharesExactlyWhen(hi, limit, step);
    var ctx := ContextFor(c.ledger, c.limits, 0, 0.0, 0.0, step);
    assert forall p :: p in Caps(c.wallet, ctx) ==> p.limit == hi;
    assert IsCapped(hi, hi, Caps(c.wallet, ctx)) && NamesBinding(None, hi, hi, Caps(c.wallet, ctx));
  }

  /** Sizing tests its floor, the larger of the wallet's and the global minimum, before it rounds
      down. For given minimums some accepted size is then stopped by the gate exactly when there is an
      increment, one increment costs less than the global minimum, and no number of increments costs
      an amount between the global minimum and the floor. */
  lemma AcceptedSizesCanBeTooSmallExactly(walletMin: Usd, globalMin: Usd, limit: Price, step: real)
    ensures
      (exists c: Copied ::
         c.wallet.minTrade == walletMin && c.limits.minTrade == globalMin && StoppedAsTooSmall(c, limit, step))
      <==>
      && step > 0.0 && Times(step, limit) < globalMin
      && !exists k: int :: globalMin <= Times(Multiple(k, step), limit) <= Max(walletMin, globalMin)
  {
    hide Times, IsCopy, SharesFor, RequestNotional;
    if c: Copied :|
      c.wallet.minTrade == walletMin && c.limits.minTrade == globalMin && StoppedAsTooSmall(c, limit, step)
    {
      CopyIsLargest(c, limit, step);
      StoppedIsWorthLess(c, limit, step);
    }
    if step > 0.0 && Times(step, limit) < globalMin
      && !exists k: int :: globalMin <= Times(Multiple(k, step), limit) <= Max(walletMin, globalMin)
    {
      TimesSign(step, limit);
      var c, hi := SmallestCopy(walletMin, globalMin, limit, step), Max(walletMin, globalMin);
      SmallestCopyIsAccepted(walletMin, globalMin, limit, step);
      SharesAreLargest(hi, limit, step);
      var k: int :| c.sized.order.quantity == Multiple(k, step);
      assert Times(Multiple(k, step), limit) < globalMin;
      WorthLessIsStopped(c, limit, step);
    }
  }

  lemma StoppedIsWorthLess(c: Copied, limit: Price, step: real)
    ensures StoppedAsTooSmall(c, limit, step) ==> c.sized.order.notional < c.limits.minTrade
  {
    hide Times, IsSizing, MarketExposure, GrossExposure, CheckMarketData;
    if !StoppedAsTooSmall(c, limit, step) {
      return;
    }
    SizedNotional(c.ledger, c.limits, c.wallet, c.trade, c.id, limit, c.dailyPnl, c.liquidity, step, c.sized);
    MarketDataVerdicts(c.limits, OrderFor(c.id, c.trade, c.sized.order.quantity, limit), c.book, c.now);
  }

  lemma WorthLessIsStopped(c: Copied, limit: Price, step: real)
    requires GateOpen(c.gate) && c.openOrders < c.limits.maxOpenOrders
    ensures IsCopy(c, limit, step) && c.sized.order.notional < c.limits.minTrade ==> StoppedAsTooSmall(c, limit, step)
  {
    hide Times, IsSizing, MarketExposure, GrossExposure, CheckMarketData;
    if !IsCopy(c, limit, step) {
      return;
    }
    SizedNotional(c.ledger, c.limits, c.wallet, c.trade, c.id, limit, c.dailyPnl, c.liquidity, step, c.sized);
  }

  /** Sizing accepts $5.20 against a minimum of $5.20, rounds it to ten shares at 0.50, and the gate
      then finds $5.00 too small. */
  lemma AnAcceptedSizeIsTooSmall()
    ensures var c := SmallestCopy(0.0, 5.2, 0.5, 1.0);
      c.sized.order.quantity == 10.0 && c.limits.minTrade == 5.2 && StoppedAsTooSmall(c, 0.5, 1.0)
  {
    var c := SmallestCopy(0.0, 5.2, 0.5, 1.0);
    assert c.sized.order.quantity == 10.0 && c.sized.order.notional == 5.0;
    SmallestCopyIsAccepted(0.0, 5.2, 0.5, 1.0);
    WorthLessIsStopped(c, 0.5, 1.0);
  }
}
