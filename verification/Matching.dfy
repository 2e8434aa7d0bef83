/** Fill simulation against book liquidity (crates/simulator/src/matching.rs).
    The random draws are inputs, so every statement holds for every outcome of the generator. */
module Matching {
  import opened Money
  import opened Products
  import opened Orders
  import opened OrderBooks

  datatype SimOutcome =
    | Filled(quantity: Qty, price: Price, fee: Usd)
    | Resting
    | Rejected
    | NoLiquidity

  datatype MatchParams = MatchParams(
    feeBps: nat,
    slippageBps: nat,
    partialFillEnabled: bool,
    fillProbability: real,
    rejectProbability: real)

  type Unit = u: real | 0.0 <= u < 1.0 witness 0.0
  type Fraction = f: real | 0.2 <= f < 0.8 witness 0.5

  /** One draw per place where the matcher consults its generator. */
  datatype Draws = Draws(reject: Unit, queue: Unit, fraction: Fraction)

  predicate IsMarketable(order: OrderRequest, book: OrderBook) {
    if order.orderType == Market then true
    else if order.side == Buy then book.asks != [] && book.asks[0].price <= order.limitPrice
    else book.bids != [] && book.bids[0].price >= order.limitPrice
  }

  function ApplySlippage(p: Price, side: Side, bps: nat): Price {
    if bps == 0 then p
    else
      var f := bps as real / 10000.0;
      Saturating(if side == Buy then Times(p, 1.0 + f) else Times(p, 1.0 - f))
  }

  /** Adverse slippage on the walk's price, held at the order's own limit. */
  function FillPrice(order: OrderRequest, vwap: Price, slippageBps: nat): Price {
    var slipped := ApplySlippage(vwap, order.side, slippageBps);
    if AtLeastAsGood(order.side, slipped, order.limitPrice) then slipped else order.limitPrice
  }

  function FeeOf(qty: Qty, price: Price, feeBps: nat): Usd {
    Times(Times(qty, price), feeBps as real / 10000.0)
  }

  function SweepForOrder(order: OrderRequest, book: OrderBook): Option<Sweep> {
    SweepOf(order.side, TakingSide(book, order.side), order.quantity, order.limitPrice)
  }

  /** The queue draw shortens the fill. */
  predicate Shortened(params: MatchParams, d: Draws) {
    params.fillProbability < 1.0 && d.queue > params.fillProbability
  }

  function MatchOrder(order: OrderRequest, book: OrderBook, params: MatchParams, d: Draws): SimOutcome {
    if d.reject < params.rejectProbability then SimOutcome.Rejected
    else if !IsMarketable(order, book) then
      if order.tif == Gtc then Resting else NoLiquidity
    else
      var sweep := SweepForOrder(order, book);
      if sweep == None then NoLiquidity
      else
        var price := FillPrice(order, sweep.value.vwap, params.slippageBps);
        var available := sweep.value.taken;
        if available < order.quantity && (order.tif == Fok || !params.partialFillEnabled) then NoLiquidity
        else if Shortened(params, d) then
          var qty := Max(Times(available, d.fraction), 0.0);
          if !params.partialFillEnabled || qty == 0.0 then NoLiquidity
          else SimOutcome.Filled(qty, price, FeeOf(qty, price, params.feeBps))
        else SimOutcome.Filled(available, price, FeeOf(available, price, params.feeBps))
  }

  function AvailableWithin(order: OrderRequest, book: OrderBook): Qty {
    LiquidityWithin(order.side, TakingSide(book, order.side), order.limitPrice)
  }

  /** Against a touch of positive size a limit order crosses exactly when something is within its limit;
      an order without a price always does. */
  lemma LimitOrderCrossesExactly(order: OrderRequest, book: OrderBook)
    requires TakingSide(book, order.side) != [] ==> TakingSide(book, order.side)[0].size > 0.0
    ensures IsMarketable(order, book) <==> order.orderType == Market || AvailableWithin(order, book) > 0.0
  {
  }

  /** Whatever is drawn, a fill is a positive quantity no larger than the order and the liquidity
      within its limit, at a price never worse than the limit. */
  lemma FillStaysWithinOrderAndBook(order: OrderRequest, book: OrderBook, params: MatchParams, d: Draws)
    ensures var o := MatchOrder(order, book, params, d);
      o.Filled? ==>
        && 0.0 < o.quantity <= order.quantity
        && o.quantity <= AvailableWithin(order, book)
        && AtLeastAsGood(order.side, o.price, order.limitPrice)
  {
    hide Times, Quot;
    var levels := TakingSide(book, order.side);
    SweepReport(order.side, levels, order.quantity, order.limitPrice);
    var sweep := SweepForOrder(order, book);
    if sweep.Some? {
      var available := sweep.value.taken;
      assert 0.0 < available <= order.quantity && available <= AvailableWithin(order, book);
      TimesShrinks(available, d.fraction);
    }
  }

  /** What a crossing order that is not rejected at random gets, exactly. Unshortened, it is filled
      when something is reachable and either everything is or a partial is allowed, for all that is
      reachable; shortened, for between a fifth and four fifths of that. The fee is its share of the
      notional. */
  lemma FillQuantityExactly(order: OrderRequest, book: OrderBook, params: MatchParams, d: Draws)
    requires d.reject >= params.rejectProbability && IsMarketable(order, book)
    ensures var o, reachable := MatchOrder(order, book, params, d), Min(order.quantity, AvailableWithin(order, book));
      && (o.Filled? <==>
            && reachable > 0.0
            && (reachable == order.quantity || (order.tif != Fok && params.partialFillEnabled))
            && (d.queue > params.fillProbability ==> params.partialFillEnabled))
      && (o.Filled? && d.queue <= params.fillProbability ==> o.quantity == reachable)
      && (o.Filled? && d.queue > params.fillProbability ==>
            o.quantity == Times(reachable, d.fraction) && Times(0.2, reachable) <= o.quantity < Times(0.8, reachable))
      && (o.Filled? ==> Times(o.fee, 10000.0) == Times(Times(o.quantity, o.price), params.feeBps as real))
  {
    hide Times, Quot;
    SweepReport(order.side, TakingSide(book, order.side), order.quantity, order.limitPrice);
    var o, sweep := MatchOrder(order, book, params, d), SweepForOrder(order, book);
    if sweep.Some? {
      ShortenedShare(sweep.value.taken, d.fraction);
    }
    if o.Filled? {
      FeeIsExact(o.quantity, o.price, params.feeBps);
    }
  }

  lemma ShortenedShare(q: Qty, f: Fraction)
    requires q > 0.0
    ensures 0.0 < Times(q, f) && Times(0.2, q) <= Times(q, f) < Times(0.8, q)
  {
    hide Times;
    var share: real := f;
    TimesSign(q, share);
    TimesComm(q, share);
    TimesMonotone(0.2, share, q);
    TimesMonotone(share, 0.8, q);
  }

  lemma FeeIsExact(qty: Qty, price: Price, feeBps: nat)
    ensures Times(FeeOf(qty, price, feeBps), 10000.0) == Times(Times(qty, price), feeBps as real)
  {
    var n := Times(qty, price);
    var share := feeBps as real / 10000.0;
    assert Times(Times(n, share), 10000.0) == Times(n, feeBps as real) by {
      hide Times;
      Regroup(n, share, feeBps as real);
    }
  }

  lemma Regroup(n: real, share: real, bps: real)
    requires share * 10000.0 == bps
    ensures Times(Times(n, share), 10000.0) == Times(n, bps)
  {
  }

  /** The book's own price for the order's size: what an honest walk would have paid. */
  predicate NeverBetterThanBook(order: OrderRequest, vwap: Price, slippageBps: nat) {
    AtLeastAsGood(order.side, vwap, FillPrice(order, vwap, slippageBps))
  }

  /** Slippage is adverse for every walk price except where the clamp at the edge of the tradable
      range overshoots it: a buy above the highest tradable price, or a sell below the lowest. */
  lemma SlippageIsAdverseExactly(order: OrderRequest, vwap: Price, slippageBps: nat)
    requires AtLeastAsGood(order.side, vwap, order.limitPrice)
    ensures NeverBetterThanBook(order, vwap, slippageBps)
      <==> slippageBps == 0 || (if order.side == Buy then vwap <= MAX_PRICE else vwap >= MIN_PRICE)
  {
    hide Times;
    var f := slippageBps as real / 10000.0;
    TimesMonotone(1.0, 1.0 + f, vwap);
    TimesMonotone(1.0 - f, 1.0, vwap);
    TimesZero(vwap);
  }

  /** With a limit inside the tradable range the fill price lies between the book's price for the
      size and the limit, on either side and for every draw. */
  lemma FillPriceBetweenBookAndLimit(order: OrderRequest, book: OrderBook, params: MatchParams, d: Draws)
    requires MIN_PRICE <= order.limitPrice <= MAX_PRICE
    ensures var o := MatchOrder(order, book, params, d);
      o.Filled? ==>
        && SweepForOrder(order, book).Some?
        && AtLeastAsGood(order.side, SweepForOrder(order, book).value.vwap, o.price)
        && AtLeastAsGood(order.side, o.price, order.limitPrice)
  {
    hide Times, Quot;
    SweepReport(order.side, TakingSide(book, order.side), order.quantity, order.limitPrice);
    var sweep := SweepForOrder(order, book);
    if sweep.Some? {
      SlippageIsAdverseExactly(order, sweep.value.vwap, params.slippageBps);
    }
  }

  /** Whatever is drawn, a fill beats the book's own price for the order's size exactly when there
      is slippage to apply and that price lies outside the tradable range, where the clamp pulls it
      back in the order's favour. */
  lemma FillBeatsBookExactly(order: OrderRequest, book: OrderBook, params: MatchParams, d: Draws)
    ensures var o := MatchOrder(order, book, params, d);
      o.Filled? ==>
        && SweepForOrder(order, book).Some?
        && var vwap := SweepForOrder(order, book).value.vwap;
          var outside := if order.side == Buy then vwap > MAX_PRICE else vwap < MIN_PRICE;
          (!AtLeastAsGood(order.side, vwap, o.price) <==> params.slippageBps > 0 && outside)
  {
    hide Times, Quot;
    SweepReport(order.side, TakingSide(book, order.side), order.quantity, order.limitPrice);
    var sweep := SweepForOrder(order, book);
    if sweep.Some? {
      SlippageIsAdverseExactly(order, sweep.value.vwap, params.slippageBps);
    }
  }

  /** The tradable price nearest to `moved`, on which a fill at the order's limit or better settles. */
  predicate SettlesAt(order: OrderRequest, moved: real, price: Price) {
    var tradable: real := if moved < MIN_PRICE then MIN_PRICE else if moved > MAX_PRICE then MAX_PRICE else moved;
    price == if order.side == Buy && tradable > order.limitPrice then order.limitPrice
      else if order.side == Sell && tradable < order.limitPrice then order.limitPrice else tradable
  }

  /** The fill price for every order, book and draw. Without slippage it is the price of the walk. With
      it, let `moved` be the price that is worse than the walk's by that many hundredths of a percent of
      it: the fill settles at `moved`, unless `moved` is outside the tradable range or past the limit. */
  lemma FillPriceExactly(order: OrderRequest, book: OrderBook, params: MatchParams, d: Draws, moved: real)
    ensures var o := MatchOrder(order, book, params, d);
      o.Filled? ==>
        && SweepForOrder(order, book).Some?
        && var vwap, bps := SweepForOrder(order, book).value.vwap, params.slippageBps;
          && (bps == 0 ==> o.price == vwap)
          && (bps > 0 && IsWorseBy(order.side, vwap, moved, bps) ==> SettlesAt(order, moved, o.price))
  {
    hide Times, Quot, IsWorseBy;
    SweepReport(order.side, TakingSide(book, order.side), order.quantity, order.limitPrice);
    var sweep := SweepForOrder(order, book);
    if sweep.Some? && IsWorseBy(order.side, sweep.value.vwap, moved, params.slippageBps) {
      SlippedIsMoved(sweep.value.vwap, order.side, params.slippageBps, moved);
    }
  }

  /** For a taker on `side`, `moved` is worse than `price` by `bps` hundredths of a percent of it. */
  predicate IsWorseBy(side: Side, price: Price, moved: real, bps: nat) {
    Times(Signed(side, moved - price), 10000.0) == Times(price, bps as real)
  }

  lemma SlippedIsMoved(vwap: Price, side: Side, bps: nat, moved: real)
    requires IsWorseBy(side, vwap, moved, bps)
    ensures moved
      == if side == Buy then Times(vwap, 1.0 + bps as real / 10000.0) else Times(vwap, 1.0 - bps as real / 10000.0)
  {
    hide Times;
    var f := bps as real / 10000.0;
    TimesPlus(vwap, 1.0, f);
    TimesMinus(vwap, 1.0, f);
    TimesZero(vwap);
    assert Times(vwap, f) == Signed(side, moved - vwap) by {
      Hundredths(vwap, f, bps as real, Signed(side, moved - vwap));
    }
  }

  lemma Hundredths(vwap: real, f: real, bps: real, slip: real)
    requires f * 10000.0 == bps && Times(slip, 10000.0) == Times(vwap, bps)
    ensures Times(vwap, f) == slip
  {
  }

  /** A buy near certainty that the simulator fills below every ask in the book. */
  lemma SlippageCanImproveNearCertainty()
    ensures exists order: OrderRequest, book: OrderBook, params: MatchParams, d: Draws ::
      && order.side == Buy && IsWellFormed(book) && book.asks != []
      && MatchOrder(order, book, params, d).Filled?
      && MatchOrder(order, book, params, d).price < book.asks[0].price
  {
    hide Times, Quot, MatchOrder;
    var order := OrderRequest(0, 0, 0, Buy, Limit, Gtc, 1.0, 0.99999, 0.5);
    var book := OrderBook(0, 0, [], [Level(0.99995, 1.0)], 0.001, 1.0, 0, 0);
    var params, d := MatchParams(0, 1, true, 1.0, 0.0), Draws(0.0, 0.0, 0.5);
    assert book.asks[1..] == [] && AvailableWithin(order, book) == 1.0;
    FillQuantityExactly(order, book, params, d);
    SweepReport(Buy, book.asks, 1.0, order.limitPrice);
    var sweep := SweepForOrder(order, book);
    assert sweep.value.vwap >= 0.99995;
    assert MatchOrder(order, book, params, d).price <= MAX_PRICE by {
      FillPriceIsClamped(order, book, params, d);
    }
  }

  /** A buy that slips and may go past the highest tradable price is priced at it or below. */
  lemma FillPriceIsClamped(order: OrderRequest, book: OrderBook, params: MatchParams, d: Draws)
    requires order.side == Buy && order.limitPrice >= MAX_PRICE && params.slippageBps > 0
    ensures MatchOrder(order, book, params, d).Filled? ==> MatchOrder(order, book, params, d).price <= MAX_PRICE
  {
    hide Times, Quot;
  }

  /** An order that is not rejected at random, crosses, and whose full size rests within its limit. */
  predicate FullyCovered(order: OrderRequest, book: OrderBook) {
    order.quantity > 0.0 && IsMarketable(order, book) && AvailableWithin(order, book) >= order.quantity
  }

  /** Fill-or-kill is all-or-nothing for every draw exactly when the queue draw cannot shorten a
      fill: the fill probability is at least one or partial fills are off. */
  lemma FillOrKillIsAllOrNothingExactly(order: OrderRequest, book: OrderBook, params: MatchParams)
    requires order.tif == Fok && FullyCovered(order, book) && params.rejectProbability < 1.0
    ensures (forall d: Draws :: MatchOrder(order, book, params, d).Filled? ==>
               MatchOrder(order, book, params, d).quantity == order.quantity)
      <==> params.fillProbability >= 1.0 || !params.partialFillEnabled
  {
    hide Times, Quot;
    SweepReport(order.side, TakingSide(book, order.side), order.quantity, order.limitPrice);
    var sweep := SweepForOrder(order, book);
    assert sweep.Some? && sweep.value.taken == order.quantity;
    if params.fillProbability < 1.0 && params.partialFillEnabled {
      var reject: Unit := Max(params.rejectProbability, 0.0);
      var queue: Unit := Max((params.fillProbability + 1.0) / 2.0, 0.0);
      var d := Draws(reject, queue, 0.5);
      TimesShrinks(sweep.value.taken, d.fraction);
      assert MatchOrder(order, book, params, d).Filled?;
    }
  }

  /** A fill-or-kill the book cannot cover is never filled. */
  lemma FillOrKillNeedsFullCover(order: OrderRequest, book: OrderBook, params: MatchParams, d: Draws)
    requires order.tif == Fok && AvailableWithin(order, book) < order.quantity
    ensures !MatchOrder(order, book, params, d).Filled?
  {
    hide Times, Quot;
    SweepReport(order.side, TakingSide(book, order.side), order.quantity, order.limitPrice);
  }

  /** Only a good-til-cancelled order can rest. */
  lemma OnlyGtcRests(order: OrderRequest, book: OrderBook, params: MatchParams, d: Draws)
    ensures MatchOrder(order, book, params, d).Resting? <==>
      d.reject >= params.rejectProbability && !IsMarketable(order, book) && order.tif == Gtc
  {
    hide Times, Quot;
  }
}
