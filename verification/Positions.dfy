/** Weighted-average-cost accounting of one position (crates/domain/src/position.rs). */
module Positions {
  import opened Money
  import opened Products
  import opened Orders

  /** The value of a position at one moment. */
  datatype Holding = Holding(
    market: MarketId,
    net: real,
    avg: real,
    realized: Usd,
    fees: Usd,
    mark: Option<Price>)

  function FreshHolding(market: MarketId): Holding {
    Holding(market, 0.0, 0.0, 0.0, 0.0, None)
  }

  predicate Increases(h: Holding, signed: real) {
    h.net == 0.0 || (h.net > 0.0) == (signed > 0.0)
  }

  predicate Crosses(h: Holding, signed: real) {
    h.net + signed != 0.0 && (h.net + signed > 0.0) != (h.net > 0.0)
  }

  /** The average entry after a trade of `signed` shares at `price`. */
  function NextAvg(h: Holding, signed: real, price: Price): real {
    var net := h.net + signed;
    if Increases(h, signed) then
      if net == 0.0 then h.avg else Quot(Times(h.net, h.avg) + Times(signed, price), net)
    else if net == 0.0 then 0.0
    else if Crosses(h, signed) then price
    else h.avg
  }

  /** Profit booked by the closing leg, before fees. */
  function ClosedProfit(h: Holding, signed: real, price: Price): Usd {
    if Increases(h, signed) then 0.0
    else
      var closing := Min(Abs(signed), Abs(h.net));
      if h.net > 0.0 then Times(closing, price - h.avg) else Times(closing, h.avg - price)
  }

  datatype Applied = Applied(holding: Holding, booked: Usd)

  function ApplyFill(h: Holding, f: Fill): Applied {
    var signed := SignedQty(f);
    var booked := ClosedProfit(h, signed, f.price) - f.fee;
    Applied(
      h.(net := h.net + signed,
         avg := NextAvg(h, signed, f.price),
         realized := h.realized + booked,
         fees := h.fees + f.fee),
      booked)
  }

  function CostBasis(h: Holding): Usd {
    Times(h.net, h.avg)
  }

  /** The size of a holding in dollars, priced at its mark if it has one and at cost otherwise. */
  function Exposure(h: Holding): Usd {
    Abs(Times(h.net, if h.mark.Some? then h.mark.value else h.avg))
  }

  function UnrealizedPnl(h: Holding): Option<Usd> {
    if h.mark.Some? then Some(Times(h.net, h.mark.value - h.avg)) else None
  }

  // ----- the position as it is updated in place

  class Position {
    const market: MarketId
    var netQuantity: real
    var avgEntry: real
    var realizedPnl: Usd
    var feesPaid: Usd
    var markPrice: Option<Price>

    ghost function State(): Holding
      reads this
    {
      Holding(market, netQuantity, avgEntry, realizedPnl, feesPaid, markPrice)
    }

    constructor (market: MarketId)
      ensures State() == FreshHolding(market)
    {
      this.market := market;
      netQuantity, avgEntry, realizedPnl, feesPaid, markPrice := 0.0, 0.0, 0.0, 0.0, None;
    }

    method Apply(f: Fill) returns (booked: Usd)
      modifies this
      ensures Applied(State(), booked) == ApplyFill(old(State()), f)
    {
      hide Times, Quot;
      var signed := SignedQty(f);
      var oldQty := netQuantity;
      var profit := 0.0;
      var newQty := oldQty + signed;
      if oldQty == 0.0 || (oldQty > 0.0) == (signed > 0.0) {
        if newQty != 0.0 {
          avgEntry := Quot(Times(oldQty, avgEntry) + Times(signed, f.price), newQty);
        }
      } else {
        var closing := Min(Abs(signed), Abs(oldQty));
        if oldQty > 0.0 {
          profit := Times(closing, f.price - avgEntry);
        } else {
          profit := Times(closing, avgEntry - f.price);
        }
        if newQty == 0.0 {
          avgEntry := 0.0;
        } else if (newQty > 0.0) != (oldQty > 0.0) {
          avgEntry := f.price;
        }
      }
      netQuantity := newQty;
      realizedPnl := realizedPnl + profit;
      feesPaid := feesPaid + f.fee;
      realizedPnl := realizedPnl - f.fee;
      booked := profit - f.fee;
    }

    method Mark(price: Price)
      modifies this`markPrice
      ensures State() == old(State()).(mark := Some(price))
    {
      markPrice := Some(price);
    }
  }

  // ----- what one fill does

  /** The average entry is zero exactly when flat, and is a price otherwise. */
  predicate SoundAverage(h: Holding) {
    if h.net == 0.0 then h.avg == 0.0 else 0.0 < h.avg < 1.0
  }

  /** A weighted average of two prices in a band stays in the band. */
  lemma AverageStaysBetween(net: real, avg: real, signed: real, price: real, lo: real, hi: real)
    requires net + signed != 0.0 && ((net >= 0.0 && signed >= 0.0) || (net <= 0.0 && signed <= 0.0))
    requires net != 0.0 ==> lo <= avg <= hi
    requires signed != 0.0 ==> lo <= price <= hi
    ensures lo <= Quot(Times(net, avg) + Times(signed, price), net + signed) <= hi
    decreases net + signed < 0.0
  {
    hide Times, Quot;
    if net + signed < 0.0 {
      TimesNeg(net, avg);
      TimesNeg(signed, price);
      var c, t := Times(net, avg) + Times(signed, price), net + signed;
      QuotTimes(c, t);
      TimesNeg(t, Quot(c, t));
      TimesComm(t, Quot(c, t));
      TimesComm(-t, Quot(c, t));
      QuotOf(-c, -t, Quot(c, t));
      AverageStaysBetween(-net, avg, -signed, price, lo, hi);
    } else {
      TimesPlus(lo, net, signed);
      TimesPlus(hi, net, signed);
      TimesComm(net, avg);
      TimesComm(signed, price);
      TimesZero(avg);
      TimesZero(price);
      TimesZero(lo);
      TimesZero(hi);
      TimesMonotone(lo, avg, net);
      TimesMonotone(avg, hi, net);
      TimesMonotone(lo, price, signed);
      TimesMonotone(price, hi, signed);
      QuotBetween(Times(net, avg) + Times(signed, price), net + signed, lo, hi);
    }
  }

  lemma AverageIsStrictlyInside(net: real, avg: real, signed: real, price: Price)
    requires net + signed != 0.0 && ((net >= 0.0 && signed >= 0.0) || (net <= 0.0 && signed <= 0.0))
    requires net != 0.0 ==> 0.0 < avg < 1.0
    ensures 0.0 < Quot(Times(net, avg) + Times(signed, price), net + signed) < 1.0
  {
    hide Times, Quot;
    var lo := if net != 0.0 then Min(avg, price) else price;
    var hi := if net != 0.0 then Max(avg, price) else price;
    AverageStaysBetween(net, avg, signed, price, lo, hi);
  }

  lemma ApplyKeepsSoundAverage(h: Holding, f: Fill)
    requires SoundAverage(h)
    ensures SoundAverage(ApplyFill(h, f).holding)
  {
    hide Times, Quot;
    var signed := SignedQty(f);
    if Increases(h, signed) && h.net + signed != 0.0 {
      AverageIsStrictlyInside(h.net, h.avg, signed, f.price);
    }
  }

  /** The conservation law of one fill: what it books is its cash impact plus the change of the
      cost basis, whether it opens, adds, reduces, closes or crosses zero. */
  lemma FillConservesValue(h: Holding, f: Fill)
    ensures var a := ApplyFill(h, f);
      a.booked == CashDelta(f) + CostBasis(a.holding) - CostBasis(h)
  {
    hide Times, Quot;
    var signed, net := SignedQty(f), h.net + SignedQty(f);
    TimesNeg(f.quantity, f.price);
    assert CashDelta(f) == -Times(signed, f.price) - f.fee;
    TimesZero(h.avg);
    TimesZero(NextAvg(h, signed, f.price));
    TimesZero(f.price);
    if Increases(h, signed) {
      if net != 0.0 {
        QuotTimes(Times(h.net, h.avg) + Times(signed, f.price), net);
      }
    } else {
      var closing := Min(Abs(signed), Abs(h.net));
      TimesMinus(closing, f.price, h.avg);
      TimesMinus(closing, h.avg, f.price);
      TimesNeg(signed, f.price);
      TimesNeg(signed, h.avg);
      TimesNeg(h.net, h.avg);
      TimesNeg(h.net, f.price);
      TimesPlus(f.price, h.net, signed);
      TimesPlus(h.avg, h.net, signed);
    }
  }

  // ----- what a whole sequence of fills does

  ghost function AfterFills(h: Holding, fills: seq<Fill>): Holding {
    if fills == [] then h
    else ApplyFill(AfterFills(h, fills[..|fills| - 1]), fills[|fills| - 1]).holding
  }

  ghost function TotalCash(fills: seq<Fill>): Usd {
    if fills == [] then 0.0 else TotalCash(fills[..|fills| - 1]) + CashDelta(fills[|fills| - 1])
  }

  ghost function TotalSigned(fills: seq<Fill>): real {
    if fills == [] then 0.0 else TotalSigned(fills[..|fills| - 1]) + SignedQty(fills[|fills| - 1])
  }

  /** After any fills: the net quantity is their signed sum, the average is zero exactly when flat,
      and realised profit is the cash they moved plus the cost of what is still held. */
  lemma {:induction false} FillsAccountForCash(market: MarketId, fills: seq<Fill>)
    ensures var h := AfterFills(FreshHolding(market), fills);
      && h.net == TotalSigned(fills)
      && SoundAverage(h)
      && h.realized == TotalCash(fills) + CostBasis(h)
  {
    hide Times, Quot;
    if fills == [] {
      TimesZero(0.0);
    } else {
      var before := fills[..|fills| - 1];
      FillsAccountForCash(market, before);
      var h := AfterFills(FreshHolding(market), before);
      ApplyKeepsSoundAverage(h, fills[|fills| - 1]);
      FillConservesValue(h, fills[|fills| - 1]);
    }
  }

  /** The fill that opened the position held after `fills`, or carried it through zero. */
  ghost function OpenedAt(market: MarketId, fills: seq<Fill>): nat
    requires fills != []
    ensures OpenedAt(market, fills) < |fills|
  {
    var before := fills[..|fills| - 1];
    var h := AfterFills(FreshHolding(market), before);
    var signed := SignedQty(fills[|fills| - 1]);
    if before == [] || h.net == 0.0 || (!Increases(h, signed) && Crosses(h, signed)) then |fills| - 1
    else OpenedAt(market, before)
  }

  /** `f` adds to a position held in the direction of `net`. */
  predicate AddsTo(f: Fill, net: real) {
    f.quantity > 0.0 && (net > 0.0 <==> f.side == Buy)
  }

  /** The fills that built an exposure of sign `net`, from the one that opened it, are priced in the band. */
  ghost predicate BuiltWithin(market: MarketId, fills: seq<Fill>, net: real, lo: real, hi: real)
    requires fills != []
  {
    forall i :: OpenedAt(market, fills) <= i < |fills| ==> AddsTo(fills[i], net) ==> lo <= fills[i].price <= hi
  }

  /** The average entry lies within any band that holds the prices of the fills that built the
      current exposure: those since it last opened or crossed zero, reductions excluded. */
  lemma {:induction false} AverageWithinBuildingFills(market: MarketId, fills: seq<Fill>, lo: real, hi: real)
    requires fills != []
    ensures var h := AfterFills(FreshHolding(market), fills);
      h.net != 0.0 && BuiltWithin(market, fills, h.net, lo, hi) ==> lo <= h.avg <= hi
  {
    hide Times, Quot;
    var n := |fills| - 1;
    var before, f := fills[..n], fills[n];
    var h := AfterFills(FreshHolding(market), before);
    var signed := SignedQty(f);
    FillsAccountForCash(market, before);
    var after := ApplyFill(h, f).holding;
    if after.net != 0.0 && BuiltWithin(market, fills, after.net, lo, hi) {
      if h.net != 0.0 && (Increases(h, signed) || !Crosses(h, signed)) {
        assert forall i :: 0 <= i < n ==> before[i] == fills[i];
        assert BuiltWithin(market, before, h.net, lo, hi);
        AverageWithinBuildingFills(market, before, lo, hi);
      }
      if Increases(h, signed) {
        AverageStaysBetween(h.net, h.avg, signed, f.price, lo, hi);
      }
    }
  }

  // ----- order does not matter once flat

  lemma {:induction false} TotalsTakeOut(fills: seq<Fill>, i: nat)
    requires i < |fills|
    ensures TotalCash(fills) == TotalCash(fills[..i] + fills[i + 1..]) + CashDelta(fills[i])
    ensures TotalSigned(fills) == TotalSigned(fills[..i] + fills[i + 1..]) + SignedQty(fills[i])
  {
    hide Times;
    var n := |fills| - 1;
    var without := fills[..i] + fills[i + 1..];
    if i == n {
      assert without == fills[..n];
    } else {
      TotalsTakeOut(fills[..n], i);
      assert without[..n - 1] == fills[..n][..i] + fills[..n][i + 1..];
    }
  }

  lemma TakeOutOne(s: seq<Fill>, i: nat)
    requires i < |s|
    ensures multiset(s[..i] + s[i + 1..]) == multiset(s) - multiset{s[i]}
  {
    assert s == s[..i] + [s[i]] + s[i + 1..];
  }

  lemma {:induction false} TotalsIgnoreOrder(a: seq<Fill>, b: seq<Fill>)
    requires multiset(a) == multiset(b)
    ensures TotalCash(a) == TotalCash(b) && TotalSigned(a) == TotalSigned(b)
    decreases |a|
  {
    hide Times;
    if a == [] {
      assert |multiset(b)| == 0;
    } else {
      var n := |a| - 1;
      assert a[n] in multiset(a);
      assert a[n] in b;
      var i :| 0 <= i < |b| && b[i] == a[n];
      TakeOutOne(a, n);
      TakeOutOne(b, i);
      assert a[..n] + a[n + 1..] == a[..n];
      TotalsTakeOut(b, i);
      TotalsIgnoreOrder(a[..n], b[..i] + b[i + 1..]);
    }
  }

  /** Two orders of the same fills end with the same net quantity; and if that is flat, with the
      same realised profit, which is then exactly the cash the fills moved. */
  lemma FlatProfitIgnoresOrder(market: MarketId, a: seq<Fill>, b: seq<Fill>)
    requires multiset(a) == multiset(b)
    ensures var x, y := AfterFills(FreshHolding(market), a), AfterFills(FreshHolding(market), b);
      && x.net == y.net
      && (x.net == 0.0 ==> x.realized == y.realized == TotalCash(a))
  {
    hide Times, Quot;
    FillsAccountForCash(market, a);
    FillsAccountForCash(market, b);
    TotalsIgnoreOrder(a, b);
    TimesZero(0.0);
  }
}
