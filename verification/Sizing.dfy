/** Copy-trade sizing: a raw notional, a chain of caps that can only reduce it, and rounding down to
    the venue's size increment (crates/strategy/src/sizing.rs). */
module Sizing {
  import opened Money
  import opened Products

  datatype SizingMode =
    | FixedRatio(ratio: real)
    | FixedUsd(amount: Usd)
    | PortfolioPercent(pct: real)
    | RiskAdjusted(baseRatio: real, liquidityCapPct: real)

  datatype TargetWallet = TargetWallet(sizing: SizingMode, maxTrade: Usd, maxExposure: Usd, minTrade: Usd)

  datatype SizingContext = SizingContext(
    equity: Usd,
    currentMarketExposure: Usd,
    maxPosition: Usd,
    maxTrade: Usd,
    minTrade: Usd,
    availableLiquidity: Usd,
    remainingDailyRisk: Usd,
    minOrderSize: real)

  datatype SizingRefusal = BelowMinimum | NoPositionHeadroom | DailyRiskExhausted | NoLiquidity

  datatype CapName =
    | WalletMaxTrade | GlobalMaxTrade | PositionHeadroom | WalletMaxExposure | DailyRiskBudget | Liquidity

  datatype SizedOrder = SizedOrder(quantity: Qty, notional: Usd, binding: Option<CapName>)

  datatype Sized = Accepted(order: SizedOrder) | Refused(reason: SizingRefusal)

  function RawNotional(mode: SizingMode, source: Usd, ctx: SizingContext): Usd {
    match mode
    case FixedRatio(ratio) => Times(source, ratio)
    case FixedUsd(amount) => amount
    case PortfolioPercent(pct) => Times(ctx.equity, pct)
    case RiskAdjusted(baseRatio, _) =>
      var used :=
        if ctx.maxPosition > 0.0 then Max(0.0, Min(1.0, Quot(ctx.currentMarketExposure, ctx.maxPosition))) else 1.0;
      Times(Times(source, baseRatio), 1.0 - used)
  }

  /** Risk-adjusted sizing takes the base size in proportion to the headroom left under the position
      cap: nothing at or past the cap, everything with no exposure, and nothing without a cap. */
  lemma RiskAdjustedIsProportional(baseRatio: real, liquidityCapPct: real, source: Usd, ctx: SizingContext)
    ensures var raw := RawNotional(RiskAdjusted(baseRatio, liquidityCapPct), source, ctx);
      if ctx.maxPosition > 0.0
      then Times(raw, ctx.maxPosition) == Times(Times(source, baseRatio), Min(Headroom(ctx), ctx.maxPosition))
      else raw == 0.0
  {
    hide Times, Quot;
    var base, cap, e := Times(source, baseRatio), ctx.maxPosition, ctx.currentMarketExposure;
    if cap <= 0.0 {
      TimesZero(base);
      return;
    }
    var used := Quot(e, cap);
    QuotBetween(e, cap, 0.0, 1.0);
    TimesZero(cap);
    QuotTimes(e, cap);
    QuotSign(e, cap);
    QuotBetween(e, cap, 1.0, 1.0);
    var free := 1.0 - Max(0.0, Min(1.0, used));
    TimesMinus(cap, 1.0, used);
    assert Times(cap, free) == Min(Headroom(ctx), cap) by {
      if e >= cap {
        assert free == 0.0;
      } else if e < 0.0 {
        assert free == 1.0;
      } else {
        assert free == 1.0 - used;
      }
    }
    TimesAssoc(base, free, cap);
    TimesComm(free, cap);
  }

  function Headroom(ctx: SizingContext): Usd {
    Max(ctx.maxPosition - ctx.currentMarketExposure, 0.0)
  }

  datatype Cap = Cap(name: CapName, limit: Usd)

  /** Every cap that applies to the wallet. */
  function Caps(w: TargetWallet, ctx: SizingContext): seq<Cap> {
    [Cap(WalletMaxTrade, w.maxTrade), Cap(GlobalMaxTrade, ctx.maxTrade), Cap(PositionHeadroom, Headroom(ctx)),
     Cap(WalletMaxExposure, w.maxExposure), Cap(DailyRiskBudget, ctx.remainingDailyRisk)]
    + if w.sizing.RiskAdjusted? then [Cap(Liquidity, Times(ctx.availableLiquidity, w.sizing.liquidityCapPct))] else []
  }

  /** `n` is the smaller of `raw` and the lowest cap. */
  ghost predicate IsCapped(n: Usd, raw: Usd, caps: seq<Cap>) {
    && n <= raw && (forall c :: c in caps ==> n <= c.limit)
    && (n == raw || exists c :: c in caps && c.limit == n)
  }

  /** No cap is named exactly when none reduced the raw size; a named one is the first, in the order
      they are applied, that equals the result. */
  ghost predicate NamesBinding(binding: Option<CapName>, n: Usd, raw: Usd, caps: seq<Cap>) {
    && (binding.None? <==> n == raw)
    && (binding.Some? ==> exists i :: FirstAt(caps, i, n) && caps[i] == Cap(binding.value, n))
  }

  ghost predicate FirstAt(caps: seq<Cap>, i: int, n: Usd) {
    0 <= i < |caps| && caps[i].limit == n && forall j :: 0 <= j < i ==> caps[j].limit != n
  }

  method ApplyCap(c: Cap, n: Usd, binding: Option<CapName>, ghost raw: Usd, ghost before: seq<Cap>)
    returns (n': Usd, binding': Option<CapName>)
    requires IsCapped(n, raw, before) && NamesBinding(binding, n, raw, before)
    ensures IsCapped(n', raw, before + [c]) && NamesBinding(binding', n', raw, before + [c])
  {
    n', binding' := n, binding;
    assert forall d :: d in before + [c] <==> d in before || d == c;
    if n > c.limit {
      n', binding' := c.limit, Some(c.name);
      assert forall j :: 0 <= j < |before| ==> before[j] in before;
      assert FirstAt(before + [c], |before|, n');
    } else if binding.Some? {
      ghost var i :| FirstAt(before, i, n) && before[i] == Cap(binding.value, n);
      assert FirstAt(before + [c], i, n);
    }
  }

  /** The number of whole increments that fit, and what they cost at the limit price. */
  function SharesFor(n: Usd, limit: Price, step: real): Qty {
    FloorTo(SharesAt(n, limit), step)
  }

  /** The first refusal that does not depend on the capped size, if any applies. */
  function ShutBy(w: TargetWallet, ctx: SizingContext): Option<SizingRefusal> {
    if ctx.remainingDailyRisk <= 0.0 then Some(DailyRiskExhausted)
    else if Headroom(ctx) <= 0.0 then Some(NoPositionHeadroom)
    else if w.sizing.RiskAdjusted? && ctx.availableLiquidity <= 0.0 then Some(NoLiquidity)
    else None
  }

  /** What `Size` promises. */
  ghost predicate IsSizing(r: Sized, w: TargetWallet, source: Usd, limit: Price, ctx: SizingContext) {
    var raw := RawNotional(w.sizing, source, ctx);
    var caps := Caps(w, ctx);
    var shut := ShutBy(w, ctx);
    if shut.Some? then r == Refused(shut.value)
    else
      exists n ::
        && IsCapped(n, raw, caps)
        && if r.Accepted? then
             && n >= Max(w.minTrade, ctx.minTrade)
             && NamesBinding(r.order.binding, n, raw, caps)
             && r.order.quantity == SharesFor(n, limit, ctx.minOrderSize) > 0.0
             && r.order.notional == Times(r.order.quantity, limit)
           else
             && r.reason == BelowMinimum
             && (n < Max(w.minTrade, ctx.minTrade) || SharesFor(n, limit, ctx.minOrderSize) == 0.0)
  }

  method Size(w: TargetWallet, source: Usd, limit: Price, ctx: SizingContext) returns (r: Sized)
    ensures IsSizing(r, w, source, limit, ctx)
  {
    hide RawNotional, SharesFor, IsCapped, NamesBinding, Times, IsSizing, Caps, Min, Quot;
    RefusalsBeforeCaps(w, source, limit, ctx);
    if ctx.remainingDailyRisk <= 0.0 {
      return Refused(DailyRiskExhausted);
    }
    var raw := RawNotional(w.sizing, source, ctx);
    var notional, binding: Option<CapName> := raw, None;
    NoCapsYet(raw);
    ghost var caps: seq<Cap> := [];
    notional, binding := ApplyCap(Cap(WalletMaxTrade, w.maxTrade), notional, binding, raw, caps);
    caps := caps + [Cap(WalletMaxTrade, w.maxTrade)];
    notional, binding := ApplyCap(Cap(GlobalMaxTrade, ctx.maxTrade), notional, binding, raw, caps);
    caps := caps + [Cap(GlobalMaxTrade, ctx.maxTrade)];
    var headroom := Max(ctx.maxPosition - ctx.currentMarketExposure, 0.0);
    if headroom <= 0.0 {
      return Refused(NoPositionHeadroom);
    }
    notional, binding := ApplyCap(Cap(PositionHeadroom, headroom), notional, binding, raw, caps);
    caps := caps + [Cap(PositionHeadroom, headroom)];
    notional, binding := ApplyCap(Cap(WalletMaxExposure, w.maxExposure), notional, binding, raw, caps);
    caps := caps + [Cap(WalletMaxExposure, w.maxExposure)];
    notional, binding := ApplyCap(Cap(DailyRiskBudget, ctx.remainingDailyRisk), notional, binding, raw, caps);
    caps := caps + [Cap(DailyRiskBudget, ctx.remainingDailyRisk)];
    if w.sizing.RiskAdjusted? {
      if ctx.availableLiquidity <= 0.0 {
        return Refused(NoLiquidity);
      }
      var liquidityCap := Times(ctx.availableLiquidity, w.sizing.liquidityCapPct);
      notional, binding := ApplyCap(Cap(Liquidity, liquidityCap), notional, binding, raw, caps);
      caps := caps + [Cap(Liquidity, liquidityCap)];
    }
    CapsInOrder(w, ctx, caps);
    SizingAfterCaps(w, source, limit, ctx, notional, binding);
    if notional < Max(w.minTrade, ctx.minTrade) {
      return Refused(BelowMinimum);
    }
    var shares := SharesFor(notional, limit, ctx.minOrderSize);
    if shares == 0.0 {
      return Refused(BelowMinimum);
    }
    r := Accepted(SizedOrder(shares, Times(shares, limit), binding));
  }

  lemma RefusalsBeforeCaps(w: TargetWallet, source: Usd, limit: Price, ctx: SizingContext)
    ensures ShutBy(w, ctx).Some? ==> IsSizing(Refused(ShutBy(w, ctx).value), w, source, limit, ctx)
  {
  }

  lemma CapsInOrder(w: TargetWallet, ctx: SizingContext, caps: seq<Cap>)
    requires caps == [] + [Cap(WalletMaxTrade, w.maxTrade)] + [Cap(GlobalMaxTrade, ctx.maxTrade)]
      + [Cap(PositionHeadroom, Headroom(ctx))] + [Cap(WalletMaxExposure, w.maxExposure)]
      + [Cap(DailyRiskBudget, ctx.remainingDailyRisk)]
      + if w.sizing.RiskAdjusted? then [Cap(Liquidity, Times(ctx.availableLiquidity, w.sizing.liquidityCapPct))] else []
    ensures caps == Caps(w, ctx)
  {
  }

  lemma SizingAfterCaps(
    w: TargetWallet, source: Usd, limit: Price, ctx: SizingContext, n: Usd, binding: Option<CapName>)
    requires ShutBy(w, ctx).None?
    requires IsCapped(n, RawNotional(w.sizing, source, ctx), Caps(w, ctx))
    requires NamesBinding(binding, n, RawNotional(w.sizing, source, ctx), Caps(w, ctx))
    ensures var shares := SharesFor(n, limit, ctx.minOrderSize);
      if n < Max(w.minTrade, ctx.minTrade) || shares == 0.0 then IsSizing(Refused(BelowMinimum), w, source, limit, ctx)
      else IsSizing(Accepted(SizedOrder(shares, Times(shares, limit), binding)), w, source, limit, ctx)
  {
    hide RawNotional, SharesFor, NamesBinding, Times, Caps;
  }

  lemma NoCapsYet(raw: Usd)
    ensures IsCapped(raw, raw, []) && NamesBinding(None, raw, raw, [])
  {
  }

  lemma CappedIsUnique(a: Usd, b: Usd, raw: Usd, caps: seq<Cap>)
    requires IsCapped(a, raw, caps) && IsCapped(b, raw, caps)
    ensures a == b
  {
  }

  /** `n` dollars buy `q`: the largest whole number of increments whose cost at the limit is within
      `n`, or exactly `n` dollars' worth when there is no increment. */
  ghost predicate LargestWithin(q: Qty, n: Usd, limit: Price, step: real) {
    if step <= 0.0 then Times(q, limit) == n
    else
      && Times(q, limit) <= n
      && (exists k: int :: k >= 0 && q == Multiple(k, step))
      && forall k: int :: Times(Multiple(k, step), limit) <= n ==> Multiple(k, step) <= q
  }

  lemma SharesAreLargest(n: Usd, limit: Price, step: real)
    requires n >= 0.0
    ensures LargestWithin(SharesFor(n, limit, step), n, limit, step)
  {
    hide Times, Quot;
    var worth := SharesAt(n, limit);
    QuotSign(n, limit);
    QuotTimes(n, limit);
    assert Times(worth, limit) == n;
    if step > 0.0 {
      var k := Quot(worth, step).Floor;
      FloorMultiple(worth, step);
      assert SharesFor(n, limit, step) == Multiple(k, step);
      TimesMonotone(Multiple(k, step), worth, limit);
      forall j: int | Times(Multiple(j, step), limit) <= n
        ensures Multiple(j, step) <= Multiple(k, step)
      {
        if j > k {
          TimesMonotone((k + 1) as real, j as real, step);
          TimesPlus(step, k as real, 1.0);
          TimesZero(step);
          assert worth < Multiple(j, step);
          TimesMonotone(worth, Multiple(j, step), limit);
          assert false;
        } else {
          TimesMonotone(j as real, k as real, step);
        }
      }
    }
  }

  /** Every accepted size is positive, and is the largest the increment allows whose notional at the
      limit stays within the raw size and every applicable cap; the binding cap is named exactly
      when some cap reduced the raw size, and then equals that bound. */
  lemma AcceptedSizeIsLargest(r: Sized, w: TargetWallet, source: Usd, limit: Price, ctx: SizingContext, bound: Usd)
    requires IsCapped(bound, RawNotional(w.sizing, source, ctx), Caps(w, ctx))
    ensures IsSizing(r, w, source, limit, ctx) && r.Accepted? ==>
      && r.order.quantity > 0.0 && bound > 0.0 && bound >= Max(w.minTrade, ctx.minTrade)
      && LargestWithin(r.order.quantity, bound, limit, ctx.minOrderSize)
      && r.order.notional == Times(r.order.quantity, limit) <= bound
      && NamesBinding(r.order.binding, bound, RawNotional(w.sizing, source, ctx), Caps(w, ctx))
  {
    hide Times, Quot, RawNotional, Caps, NamesBinding;
    if !IsSizing(r, w, source, limit, ctx) || !r.Accepted? {
      return;
    }
    var raw, caps := RawNotional(w.sizing, source, ctx), Caps(w, ctx);
    var n :|
      && IsCapped(n, raw, caps) && n >= Max(w.minTrade, ctx.minTrade)
      && NamesBinding(r.order.binding, n, raw, caps)
      && r.order.quantity == SharesFor(n, limit, ctx.minOrderSize) > 0.0
      && r.order.notional == Times(r.order.quantity, limit);
    CappedIsUnique(n, bound, raw, caps);
    PositiveSharesNeedMoney(n, limit, ctx.minOrderSize);
    SharesAreLargest(n, limit, ctx.minOrderSize);
  }

  /** What the wallet asks for before any cap: a fixed amount, a share of the source's notional or of our
      equity, or a share of the source's notional in proportion to the headroom left under the position cap. */
  predicate AsksFor(raw: Usd, mode: SizingMode, source: Usd, ctx: SizingContext) {
    match mode
    case FixedUsd(amount) => raw == amount
    case FixedRatio(ratio) => raw == Times(source, ratio)
    case PortfolioPercent(pct) => raw == Times(ctx.equity, pct)
    case RiskAdjusted(ratio, _) =>
      if ctx.maxPosition > 0.0
      then Times(raw, ctx.maxPosition) == Times(Times(source, ratio), Min(Headroom(ctx), ctx.maxPosition))
      else raw == 0.0
  }

  /** The amount a cap allows; an order's amount where no cap is named. */
  function Allowed(name: Option<CapName>, raw: Usd, w: TargetWallet, ctx: SizingContext): Usd {
    match name
    case None => raw
    case Some(WalletMaxTrade) => w.maxTrade
    case Some(GlobalMaxTrade) => ctx.maxTrade
    case Some(PositionHeadroom) => Max(ctx.maxPosition - ctx.currentMarketExposure, 0.0)
    case Some(WalletMaxExposure) => w.maxExposure
    case Some(DailyRiskBudget) => ctx.remainingDailyRisk
    case Some(Liquidity) =>
      if w.sizing.RiskAdjusted? then Times(ctx.availableLiquidity, w.sizing.liquidityCapPct) else raw
  }

  /** On the inputs alone: an accepted size costs no more than the wallet asks for and no more than any
      cap allows, and it is the largest that costs no more than what the named cap allows, or than what
      the wallet asks for when no cap is named, which is then at least both minimums. */
  lemma AcceptedSizeOnItsInputs(
    r: Sized, w: TargetWallet, source: Usd, limit: Price, ctx: SizingContext, raw: Usd)
    requires AsksFor(raw, w.sizing, source, ctx)
    ensures IsSizing(r, w, source, limit, ctx) && r.Accepted? ==>
      var most := Allowed(r.order.binding, raw, w, ctx);
      && r.order.notional == Times(r.order.quantity, limit) <= raw
      && r.order.notional <= w.maxTrade && r.order.notional <= ctx.maxTrade
      && r.order.notional <= ctx.maxPosition - ctx.currentMarketExposure
      && r.order.notional <= w.maxExposure && r.order.notional <= ctx.remainingDailyRisk
      && (w.sizing.RiskAdjusted? ==> r.order.notional <= Times(ctx.availableLiquidity, w.sizing.liquidityCapPct))
      && (r.order.binding == Some(Liquidity) ==> w.sizing.RiskAdjusted?)
      && LargestWithin(r.order.quantity, most, limit, ctx.minOrderSize)
      && most >= w.minTrade && most >= ctx.minTrade
      && (r.order.binding.Some? ==> most < raw)
  {
    hide Times, Quot, IsSizing, NamesBinding, RawNotional, LargestWithin;
    if !IsSizing(r, w, source, limit, ctx) || !r.Accepted? {
      return;
    }
    RawIsAskedFor(raw, w.sizing, source, ctx);
    var n := BoundOf(r, w, source, limit, ctx);
    AcceptedSizeIsLargest(r, w, source, limit, ctx, n);
    var caps := Caps(w, ctx);
    assert forall i :: 0 <= i < |caps| ==> caps[i] in caps;
    assert n <= caps[0].limit && n <= caps[1].limit && n <= caps[2].limit && n <= caps[3].limit && n <= caps[4].limit;
    assert w.sizing.RiskAdjusted? ==> n <= caps[5].limit;
    NamedCapAllows(r.order.binding, n, raw, w, ctx);
  }

  lemma RawIsAskedFor(raw: Usd, mode: SizingMode, source: Usd, ctx: SizingContext)
    requires AsksFor(raw, mode, source, ctx)
    ensures RawNotional(mode, source, ctx) == raw
  {
    hide Times, Quot;
    if mode.RiskAdjusted? {
      RiskAdjustedIsProportional(mode.baseRatio, mode.liquidityCapPct, source, ctx);
      var r := RawNotional(mode, source, ctx);
      if ctx.maxPosition > 0.0 {
        TimesMonotone(r, raw, ctx.maxPosition);
        TimesMonotone(raw, r, ctx.maxPosition);
      }
    }
  }

  lemma RawIsWhatIsAsked(mode: SizingMode, source: Usd, ctx: SizingContext)
    ensures AsksFor(RawNotional(mode, source, ctx), mode, source, ctx)
  {
    hide Times, Quot;
    if mode.RiskAdjusted? {
      RiskAdjustedIsProportional(mode.baseRatio, mode.liquidityCapPct, source, ctx);
    }
  }

  lemma BoundOf(r: Sized, w: TargetWallet, source: Usd, limit: Price, ctx: SizingContext) returns (n: Usd)
    ensures IsSizing(r, w, source, limit, ctx) && r.Accepted? ==>
      && IsCapped(n, RawNotional(w.sizing, source, ctx), Caps(w, ctx))
      && NamesBinding(r.order.binding, n, RawNotional(w.sizing, source, ctx), Caps(w, ctx))
  {
    hide Times, Quot, RawNotional, Caps, NamesBinding, IsCapped, SharesFor;
    if !IsSizing(r, w, source, limit, ctx) || !r.Accepted? {
      return 0.0;
    }
    n :|
      && IsCapped(n, RawNotional(w.sizing, source, ctx), Caps(w, ctx))
      && NamesBinding(r.order.binding, n, RawNotional(w.sizing, source, ctx), Caps(w, ctx));
  }

  lemma NamedCapAllows(name: Option<CapName>, n: Usd, raw: Usd, w: TargetWallet, ctx: SizingContext)
    requires IsCapped(n, raw, Caps(w, ctx)) && NamesBinding(name, n, raw, Caps(w, ctx))
    ensures n == Allowed(name, raw, w, ctx)
    ensures name == Some(Liquidity) ==> w.sizing.RiskAdjusted?
    ensures name.Some? ==> n < raw
  {
    hide Times;
    if name.Some? {
      var caps := Caps(w, ctx);
      var i :| FirstAt(caps, i, n) && caps[i] == Cap(name.value, n);
      assert |caps| <= 6;
    }
  }

  lemma PositiveSharesNeedMoney(n: Usd, limit: Price, step: real)
    requires SharesFor(n, limit, step) > 0.0
    ensures n > 0.0
  {
    hide Times, Quot;
    QuotSign(n, limit);
    if step > 0.0 {
      FloorMultiple(SharesAt(n, limit), step);
    }
  }

  /** The least of what the wallet asks for and what each cap allows. */
  ghost predicate IsLeastAllowed(n: Usd, raw: Usd, w: TargetWallet, ctx: SizingContext) {
    && (forall name :: n <= Allowed(name, raw, w, ctx))
    && exists name :: n == Allowed(name, raw, w, ctx)
  }

  lemma LeastAllowedIsCapped(n: Usd, raw: Usd, w: TargetWallet, ctx: SizingContext)
    requires IsLeastAllowed(n, raw, w, ctx)
    ensures IsCapped(n, raw, Caps(w, ctx))
  {
    hide Times;
    var caps := Caps(w, ctx);
    assert n <= Allowed(None, raw, w, ctx) == raw;
    forall c | c in caps
      ensures n <= c.limit
    {
      assert n <= Allowed(Some(c.name), raw, w, ctx);
    }
    var name :| n == Allowed(name, raw, w, ctx);
    if n != raw {
      assert caps[0].limit == w.maxTrade && caps[1].limit == ctx.maxTrade && caps[2].limit == Headroom(ctx)
        && caps[3].limit == w.maxExposure && caps[4].limit == ctx.remainingDailyRisk;
      assert w.sizing.RiskAdjusted? ==> caps[5].limit == Times(ctx.availableLiquidity, w.sizing.liquidityCapPct);
      assert exists i :: 0 <= i < |caps| && caps[i].limit == n;
    }
  }

  /** Nothing shuts sizing before the caps: there is daily risk left, headroom in the market and, where
      liquidity matters, some of it. */
  predicate Open(w: TargetWallet, ctx: SizingContext) {
    && ctx.remainingDailyRisk > 0.0 && ctx.currentMarketExposure < ctx.maxPosition
    && (w.sizing.RiskAdjusted? ==> ctx.availableLiquidity > 0.0)
  }

  /** Sizing accepts exactly when nothing shuts it, the least of what is asked for and allowed reaches
      both minimums, and it buys at least one increment. A refusal says which of these failed, the first
      in the order they are tested. */
  lemma AcceptedExactlyWhen(
    r: Sized, w: TargetWallet, source: Usd, limit: Price, ctx: SizingContext, raw: Usd, bound: Usd)
    requires AsksFor(raw, w.sizing, source, ctx) && IsLeastAllowed(bound, raw, w, ctx)
    ensures IsSizing(r, w, source, limit, ctx) ==>
      && (r.Accepted? <==>
          && Open(w, ctx)
          && bound >= Max(w.minTrade, ctx.minTrade)
          && bound > 0.0 && (ctx.minOrderSize > 0.0 ==> Times(ctx.minOrderSize, limit) <= bound))
      && (r == Refused(DailyRiskExhausted) <==> ctx.remainingDailyRisk <= 0.0)
      && (r == Refused(NoPositionHeadroom) <==>
          ctx.remainingDailyRisk > 0.0 && ctx.currentMarketExposure >= ctx.maxPosition)
      && (r == Refused(BelowMinimum) <==> Open(w, ctx) && r.Refused?)
  {
    hide Times, Quot, RawNotional, Caps, NamesBinding, IsLeastAllowed, AsksFor;
    if !IsSizing(r, w, source, limit, ctx) {
      return;
    }
    RawIsAskedFor(raw, w.sizing, source, ctx);
    LeastAllowedIsCapped(bound, raw, w, ctx);
    var caps := Caps(w, ctx);
    forall n | IsCapped(n, raw, caps)
      ensures n == bound
    {
      CappedIsUnique(n, bound, raw, caps);
    }
    SomeSharesExactlyWhen(bound, limit, ctx.minOrderSize);
  }

  lemma SomeSharesExactlyWhen(n: Usd, limit: Price, step: real)
    ensures SharesFor(n, limit, step) > 0.0 <==> n > 0.0 && (step > 0.0 ==> Times(step, limit) <= n)
  {
    hide Times, Quot, SharesFor;
    if SharesFor(n, limit, step) > 0.0 {
      PositiveSharesNeedMoney(n, limit, step);
      SharesAreLargest(n, limit, step);
      if step > 0.0 {
        var k: int :| k >= 0 && SharesFor(n, limit, step) == Multiple(k, step);
        TimesZero(step);
        TimesMonotone(1.0, k as real, step);
        TimesMonotone(step, Multiple(k, step), limit);
      }
    }
    if n > 0.0 && (step > 0.0 ==> Times(step, limit) <= n) {
      SharesAreLargest(n, limit, step);
      TimesZero(limit);
      TimesZero(step);
      assert step > 0.0 ==> Multiple(1, step) <= SharesFor(n, limit, step);
    }
  }

  /** The inputs settle the outcome: the size, its notional, the cap that is named, or which refusal
      is returned when several apply. */
  lemma SizingIsDetermined(a: Sized, b: Sized, w: TargetWallet, source: Usd, limit: Price, ctx: SizingContext)
    requires IsSizing(a, w, source, limit, ctx) && IsSizing(b, w, source, limit, ctx)
    ensures a == b
  {
    hide Times, Quot, RawNotional, Caps, SharesFor, NamesBinding;
    var raw, caps := RawNotional(w.sizing, source, ctx), Caps(w, ctx);
    forall m, n | IsCapped(m, raw, caps) && IsCapped(n, raw, caps)
      ensures m == n
    {
      CappedIsUnique(m, n, raw, caps);
    }
    if a.Accepted? && b.Accepted? {
      var n :| IsCapped(n, raw, caps) && NamesBinding(a.order.binding, n, raw, caps);
      BindingIsUnique(a.order.binding, b.order.binding, n, raw, caps);
    }
  }

  lemma BindingIsUnique(a: Option<CapName>, b: Option<CapName>, n: Usd, raw: Usd, caps: seq<Cap>)
    requires NamesBinding(a, n, raw, caps) && NamesBinding(b, n, raw, caps)
    ensures a == b
  {
    if a.Some? {
      var i :| FirstAt(caps, i, n) && caps[i] == Cap(a.value, n);
      var j :| FirstAt(caps, j, n) && caps[j] == Cap(b.value, n);
      assert i == j;
    }
  }

  // ----- the limit price

  function LimitPrice(reference: Price, side: Side, maxSlippageBps: nat, tick: real): Price {
    var budget := maxSlippageBps as real / 10000.0;
    var adjusted := if side == Buy then Times(reference, 1.0 + budget) else Times(reference, 1.0 - budget);
    RoundToTick(Saturating(adjusted), tick, side)
  }

  /** The limit is tradable, and rounding gives up less than one tick of the slippage budget. It never
      spends more than the budget exactly when the budget does not end outside the tradable range on
      the far side, where the clamp pushes the limit past it. */
  lemma LimitPriceStaysWithinBudget(reference: Price, side: Side, maxSlippageBps: nat, tick: real)
    ensures var budget := maxSlippageBps as real / 10000.0;
      var limit := LimitPrice(reference, side, maxSlippageBps, tick);
      var worst := Times(reference, 1.0 + Signed(side, budget));
      && MIN_PRICE <= limit <= MAX_PRICE
      && (side == Buy ==> (limit <= worst <==> worst >= MIN_PRICE))
      && (side == Sell ==> (limit >= worst <==> worst <= MAX_PRICE))
      && (tick > 0.0 ==> Abs(limit - Saturating(worst)) < tick)
  {
    hide Times, Quot;
    var budget := maxSlippageBps as real / 10000.0;
    var adjusted := if side == Buy then Times(reference, 1.0 + budget) else Times(reference, 1.0 - budget);
    if tick > 0.0 {
      RoundToTickNeverMoreAggressive(Saturating(adjusted), tick, side);
      FloorMultiple(Saturating(adjusted), tick);
      CeilMultiple(Saturating(adjusted), tick);
    }
  }

  /** A buy that allows no slippage at all, with a limit at twice its reference price. */
  lemma ALimitCanPassItsBudget()
    ensures LimitPrice(0.00005, Buy, 0, 0.0) == MIN_PRICE > 0.00005
  {
    hide Times;
    TimesZero(0.00005);
  }
}
