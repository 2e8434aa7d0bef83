/** Cash, positions, profit and equity (crates/portfolio/src/lib.rs). */
module Portfolios {
  import opened Money
  import opened Products
  import opened MapSums
  import opened Orders
  import opened Positions

  /** The value of a portfolio at one moment. */
  datatype Ledger = Ledger(
    startingCash: Usd,
    cash: Usd,
    holdings: map<TokenId, Holding>,
    realized: Usd,
    fees: Usd,
    peak: Usd,
    byMarket: map<MarketId, Usd>)

  function FreshLedger(startingCash: Usd): Ledger {
    Ledger(startingCash, startingCash, map[], 0.0, 0.0, startingCash, map[])
  }

  // ----- per-token amounts and their sums

  ghost function Basis(h: map<TokenId, Holding>): map<TokenId, Usd> {
    map t | t in h :: CostBasis(h[t])
  }

  /** Mark-to-market value; only held positions count, and every one of them needs a mark. */
  ghost function Marked(h: map<TokenId, Holding>): map<TokenId, Usd> {
    map t | t in h :: MarkedValue(h[t])
  }

  function MarkedValue(p: Holding): Usd {
    if p.net == 0.0 || p.mark == None then 0.0 else Times(p.net, p.mark.value)
  }

  ghost function Unrealized(h: map<TokenId, Holding>): map<TokenId, Usd> {
    map t | t in h :: if h[t].net == 0.0 || h[t].mark == None then 0.0 else UnrealizedPnl(h[t]).value
  }

  ghost function Realized(h: map<TokenId, Holding>): map<TokenId, Usd> {
    map t | t in h :: h[t].realized
  }

  ghost function Fees(h: map<TokenId, Holding>): map<TokenId, Usd> {
    map t | t in h :: h[t].fees
  }

  ghost function Exposures(h: map<TokenId, Holding>): map<TokenId, Usd> {
    map t | t in h :: Exposure(h[t])
  }

  function TokenExposure(h: map<TokenId, Holding>, t: TokenId): Usd {
    if t in h then Exposure(h[t]) else 0.0
  }

  ghost function MarketExposures(h: map<TokenId, Holding>, m: MarketId): map<TokenId, Usd> {
    map t | t in h :: if h[t].market == m then Exposure(h[t]) else 0.0
  }

  ghost function MarketExposure(h: map<TokenId, Holding>, m: MarketId): Usd {
    Sum(MarketExposures(h, m))
  }

  ghost function GrossExposure(h: map<TokenId, Holding>): Usd {
    Sum(Exposures(h))
  }

  ghost predicate AllHeldMarked(h: map<TokenId, Holding>) {
    forall t :: t in h && h[t].net != 0.0 ==> h[t].mark.Some?
  }

  ghost function PositionValue(h: map<TokenId, Holding>): Option<Usd> {
    if AllHeldMarked(h) then Some(Sum(Marked(h))) else None
  }

  ghost function TotalUnrealized(h: map<TokenId, Holding>): Option<Usd> {
    if AllHeldMarked(h) then Some(Sum(Unrealized(h))) else None
  }

  /** Cash plus position value, falling back to cost while some held position is unmarked. */
  ghost function Equity(l: Ledger): Usd {
    l.cash + if AllHeldMarked(l.holdings) then Sum(Marked(l.holdings)) else Sum(Basis(l.holdings))
  }

  ghost function RefreshPeak(l: Ledger): Ledger {
    l.(peak := Max(Equity(l), l.peak))
  }

  // ----- the two steps

  function HoldingFor(h: map<TokenId, Holding>, f: Fill): Holding {
    if f.token in h then h[f.token] else FreshHolding(f.market)
  }

  function Credited(m: map<MarketId, Usd>, k: MarketId, v: Usd): map<MarketId, Usd> {
    m[k := (if k in m then m[k] else 0.0) + v]
  }

  function EnterFill(l: Ledger, f: Fill): Ledger {
    var a := Positions.ApplyFill(HoldingFor(l.holdings, f), f);
    l.(
      cash := l.cash + CashDelta(f),
      fees := l.fees + f.fee,
      holdings := l.holdings[f.token := a.holding],
      realized := l.realized + a.booked,
      byMarket := Credited(l.byMarket, f.market, a.booked))
  }

  ghost function LedgerFill(l: Ledger, f: Fill): Ledger {
    RefreshPeak(EnterFill(l, f))
  }

  ghost function LedgerMark(l: Ledger, t: TokenId, price: Price): Ledger {
    RefreshPeak(
      if t in l.holdings then l.(holdings := l.holdings[t := l.holdings[t].(mark := Some(price))]) else l)
  }

  function NetQty(h: map<TokenId, Holding>, t: TokenId): real {
    if t in h then h[t].net else 0.0
  }

  // ----- the portfolio as it is updated in place

  class Portfolio {
    const startingCash: Usd
    var cash: Usd
    var positions: map<TokenId, Position>
    var realized: Usd
    var fees: Usd
    var peakEquity: Usd
    var byMarket: map<MarketId, Usd>

    /** Every token has a position of its own. */
    ghost predicate Valid()
      reads this`positions
    {
      forall t, u :: t in positions && u in positions && t != u ==> positions[t] != positions[u]
    }

    ghost function Holdings(): map<TokenId, Holding>
      reads this`positions, positions.Values
    {
      map t | t in positions :: positions[t].State()
    }

    ghost function View(): Ledger
      reads this, positions.Values
    {
      Ledger(startingCash, cash, Holdings(), realized, fees, peakEquity, byMarket)
    }

    constructor (startingCash: Usd)
      ensures Valid() && View() == FreshLedger(startingCash)
    {
      this.startingCash := startingCash;
      cash, realized, fees, peakEquity := startingCash, 0.0, 0.0, startingCash;
      positions, byMarket := map[], map[];
    }

    /** Sums the mark-to-market value of held positions, in any order; None if one is unmarked. */
    method ComputePositionValue() returns (value: Option<Usd>)
      ensures value == PositionValue(Holdings())
    {
      hide Times, Quot;
      ghost var holdings := Holdings();
      var keys := positions.Keys;
      assert (map t | t in keys :: holdings[t]) == holdings;
      var total: Usd := 0.0;
      while keys != {}
        invariant keys <= positions.Keys && holdings == Holdings()
        invariant total + Sum(Marked(map t | t in keys :: holdings[t])) == Sum(Marked(holdings))
        invariant forall t :: t in holdings && t !in keys && holdings[t].net != 0.0 ==> holdings[t].mark.Some?
      {
        ghost var rest := map t | t in keys :: holdings[t];
        var t :| t in keys;
        var p := positions[t];
        assert holdings[t] == p.State();
        if p.netQuantity != 0.0 && p.markPrice == None {
          return None;
        }
        SumTakesOut(Marked(rest), t);
        assert Marked(rest) - {t} == Marked(map u | u in keys - {t} :: holdings[u]);
        if p.netQuantity != 0.0 {
          total := total + Times(p.netQuantity, p.markPrice.value);
        }
        keys := keys - {t};
      }
      value := Some(total);
    }

    method ComputeCostBasis() returns (value: Usd)
      ensures value == Sum(Basis(Holdings()))
    {
      hide Times, Quot;
      ghost var holdings := Holdings();
      var keys := positions.Keys;
      assert (map t | t in keys :: holdings[t]) == holdings;
      value := 0.0;
      while keys != {}
        invariant keys <= positions.Keys && holdings == Holdings()
        invariant value + Sum(Basis(map t | t in keys :: holdings[t])) == Sum(Basis(holdings))
      {
        ghost var rest := map t | t in keys :: holdings[t];
        var t :| t in keys;
        assert holdings[t] == positions[t].State();
        SumTakesOut(Basis(rest), t);
        assert Basis(rest) - {t} == Basis(map u | u in keys - {t} :: holdings[u]);
        value := value + Times(positions[t].netQuantity, positions[t].avgEntry);
        keys := keys - {t};
      }
    }

    /** Exposure summed over the tokens that belong to `m`. */
    method ComputeMarketExposure(m: MarketId) returns (value: Usd)
      ensures value == MarketExposure(Holdings(), m)
    {
      hide Times, Quot;
      ghost var holdings := Holdings();
      var keys := positions.Keys;
      assert (map t | t in keys :: holdings[t]) == holdings;
      value := 0.0;
      while keys != {}
        invariant keys <= positions.Keys && holdings == Holdings()
        invariant value + MarketExposure(map t | t in keys :: holdings[t], m) == MarketExposure(holdings, m)
      {
        ghost var rest := map t | t in keys :: holdings[t];
        var t :| t in keys;
        var p := positions[t];
        assert holdings[t] == p.State();
        SumTakesOut(MarketExposures(rest, m), t);
        assert MarketExposures(rest, m) - {t} == MarketExposures(map u | u in keys - {t} :: holdings[u], m);
        if p.market == m {
          value := value + Abs(Times(p.netQuantity, if p.markPrice.Some? then p.markPrice.value else p.avgEntry));
        }
        keys := keys - {t};
      }
    }

    method ComputeGrossExposure() returns (value: Usd)
      ensures value == GrossExposure(Holdings())
    {
      hide Times, Quot;
      ghost var holdings := Holdings();
      var keys := positions.Keys;
      assert (map t | t in keys :: holdings[t]) == holdings;
      value := 0.0;
      while keys != {}
        invariant keys <= positions.Keys && holdings == Holdings()
        invariant value + GrossExposure(map t | t in keys :: holdings[t]) == GrossExposure(holdings)
      {
        ghost var rest := map t | t in keys :: holdings[t];
        var t :| t in keys;
        var p := positions[t];
        assert holdings[t] == p.State();
        SumTakesOut(Exposures(rest), t);
        assert Exposures(rest) - {t} == Exposures(map u | u in keys - {t} :: holdings[u]);
        value := value + Abs(Times(p.netQuantity, if p.markPrice.Some? then p.markPrice.value else p.avgEntry));
        keys := keys - {t};
      }
    }

    method ComputeEquity() returns (equity: Usd)
      ensures equity == Equity(View())
    {
      hide Times, Quot;
      var value := ComputePositionValue();
      if value.Some? {
        equity := cash + value.value;
      } else {
        var basis := ComputeCostBasis();
        equity := cash + basis;
      }
    }

    method UpdatePeak()
      modifies this`peakEquity
      ensures View() == RefreshPeak(old(View()))
    {
      var e := ComputeEquity();
      assert Holdings() == old(Holdings());
      if e > peakEquity {
        peakEquity := e;
      }
      assert Holdings() == old(Holdings());
    }

    method ApplyFill(f: Fill)
      requires Valid()
      modifies this, positions.Values
      ensures Valid() && fresh(positions.Values - old(positions.Values))
      ensures View() == LedgerFill(old(View()), f)
    {
      hide Times, Quot, CashDelta, Equity, Positions.ApplyFill, HoldingFor, Credited, Holdings, Valid;
      cash := cash + CashDelta(f);
      fees := fees + f.fee;
      var booked := ApplyToPosition(f);
      realized := realized + booked;
      byMarket := Credited(byMarket, f.market, booked);
      assert View() == EnterFill(old(View()), f);
      UpdatePeak();
    }

    /** Finds or creates the token's position and updates it in place. */
    method ApplyToPosition(f: Fill) returns (booked: Usd)
      requires Valid()
      modifies this`positions, positions.Values
      ensures Valid() && fresh(positions.Values - old(positions.Values))
      ensures var a := Positions.ApplyFill(HoldingFor(old(Holdings()), f), f);
        booked == a.booked && Holdings() == old(Holdings())[f.token := a.holding]
    {
      hide Times, Quot, NextAvg, ClosedProfit;
      var p: Position;
      if f.token in positions {
        p := positions[f.token];
      } else {
        p := new Position(f.market);
        positions := positions[f.token := p];
      }
      assert p.State() == HoldingFor(old(Holdings()), f);
      booked := p.Apply(f);
    }

    method Mark(t: TokenId, price: Price)
      requires Valid()
      modifies this, positions.Values
      ensures Valid() && positions == old(positions)
      ensures View() == LedgerMark(old(View()), t, price)
    {
      hide Times, Quot;
      if t in positions {
        positions[t].Mark(price);
        assert Holdings() == old(Holdings())[t := old(Holdings())[t].(mark := Some(price))];
      }
      UpdatePeak();
    }
  }

  // ----- what every run of fills and marks keeps

  ghost predicate Balanced(l: Ledger) {
    && l.cash == l.startingCash + l.realized - Sum(Basis(l.holdings))
    && l.realized == Sum(Realized(l.holdings)) == Sum(l.byMarket)
    && l.fees == Sum(Fees(l.holdings))
    && forall t :: t in l.holdings ==> SoundAverage(l.holdings[t])
  }

  ghost predicate LedgerInv(l: Ledger) {
    Balanced(l) && l.peak >= Equity(l)
  }

  datatype LedgerStep = FillStep(fill: Fill) | MarkStep(token: TokenId, price: Price)

  ghost function TakeStep(l: Ledger, s: LedgerStep): Ledger {
    match s
    case FillStep(f) => LedgerFill(l, f)
    case MarkStep(t, p) => LedgerMark(l, t, p)
  }

  ghost function TakeSteps(l: Ledger, steps: seq<LedgerStep>): Ledger {
    if steps == [] then l else TakeStep(TakeSteps(l, steps[..|steps| - 1]), steps[|steps| - 1])
  }

  /** Replacing one holding moves the total cost, profit and fees by what that holding's moved by. */
  lemma OneHoldingMovesTotals(h: map<TokenId, Holding>, t: TokenId, before: Holding, after: Holding)
    requires before == (if t in h then h[t] else FreshHolding(before.market))
    ensures Sum(Basis(h[t := after])) == Sum(Basis(h)) + CostBasis(after) - CostBasis(before)
    ensures Sum(Realized(h[t := after])) == Sum(Realized(h)) + after.realized - before.realized
    ensures Sum(Fees(h[t := after])) == Sum(Fees(h)) + after.fees - before.fees
  {
    hide CostBasis;
    FreshCostsNothing(before.market);
    assert Basis(h[t := after]) == Basis(h)[t := CostBasis(after)];
    SumUpdate(Basis(h), t, CostBasis(after));
    assert Realized(h[t := after]) == Realized(h)[t := after.realized];
    SumUpdate(Realized(h), t, after.realized);
    assert Fees(h[t := after]) == Fees(h)[t := after.fees];
    SumUpdate(Fees(h), t, after.fees);
  }

  lemma BookingKeepsBalance(l: Ledger, f: Fill)
    requires Balanced(l)
    ensures Balanced(EnterFill(l, f))
  {
    hide Times, Quot, NextAvg, ClosedProfit, CashDelta, CostBasis, SoundAverage, Basis, Realized, Fees;
    var before := HoldingFor(l.holdings, f);
    var a := Positions.ApplyFill(before, f);
    FillConservesValue(before, f);
    FreshCostsNothing(f.market);
    ApplyKeepsSoundAverage(before, f);
    OneHoldingMovesTotals(l.holdings, f.token, before, a.holding);
    SumUpdate(l.byMarket, f.market, Credited(l.byMarket, f.market, a.booked)[f.market]);
  }

  lemma FreshCostsNothing(market: MarketId)
    ensures CostBasis(FreshHolding(market)) == 0.0 && SoundAverage(FreshHolding(market))
  {
  }

  lemma FillKeepsInv(l: Ledger, f: Fill)
    requires LedgerInv(l)
    ensures LedgerInv(LedgerFill(l, f))
  {
    hide Times, Quot, EnterFill, SoundAverage;
    BookingKeepsBalance(l, f);
  }

  lemma MarkKeepsInv(l: Ledger, t: TokenId, price: Price)
    requires LedgerInv(l)
    ensures LedgerInv(LedgerMark(l, t, price))
  {
    hide Times, Quot;
    if t in l.holdings {
      var after := l.holdings[t := l.holdings[t].(mark := Some(price))];
      assert Basis(after) == Basis(l.holdings);
      assert Realized(after) == Realized(l.holdings);
      assert Fees(after) == Fees(l.holdings);
    }
  }

  /** After any fills and marks from a fresh portfolio: cash is starting cash plus realised profit
      less the cost of what is held, the per-position and per-market profits each add up to the
      realised profit, and the peak is at least the equity. */
  lemma {:induction false} RunsKeepInv(startingCash: Usd, steps: seq<LedgerStep>)
    ensures LedgerInv(TakeSteps(FreshLedger(startingCash), steps))
    ensures TakeSteps(FreshLedger(startingCash), steps).startingCash == startingCash
  {
    if steps != [] {
      var before := steps[..|steps| - 1];
      RunsKeepInv(startingCash, before);
      var l := TakeSteps(FreshLedger(startingCash), before);
      match steps[|steps| - 1]
      case FillStep(f) => FillKeepsInv(l, f);
      case MarkStep(t, p) => MarkKeepsInv(l, t, p);
    }
  }

  /** The fills among the steps. */
  function FillsIn(steps: seq<LedgerStep>): seq<Fill> {
    if steps == [] then []
    else
      var last := steps[|steps| - 1];
      FillsIn(steps[..|steps| - 1]) + if last.FillStep? then [last.fill] else []
  }

  /** The fills of one token among the steps. */
  function FillsOn(steps: seq<LedgerStep>, t: TokenId): seq<Fill> {
    if steps == [] then []
    else
      var last := steps[|steps| - 1];
      FillsOn(steps[..|steps| - 1], t) + if last.FillStep? && last.fill.token == t then [last.fill] else []
  }

  /** The last mark of a token that had been traded by then. */
  function LastMark(steps: seq<LedgerStep>, t: TokenId): Option<Price> {
    if steps == [] then None
    else
      var before, last := steps[..|steps| - 1], steps[|steps| - 1];
      if last.MarkStep? && last.token == t && FillsOn(before, t) != [] then Some(last.price) else LastMark(before, t)
  }

  /** What a step does to cash and to one token's holding. */
  lemma StepMovesOneHolding(l: Ledger, s: LedgerStep, t: TokenId)
    ensures var l', filled := TakeStep(l, s), s.FillStep? && s.fill.token == t;
      && l'.cash == l.cash + (if s.FillStep? then CashDelta(s.fill) else 0.0)
      && (t in l'.holdings <==> filled || t in l.holdings)
      && (filled ==> l'.holdings[t] == Positions.ApplyFill(HoldingFor(l.holdings, s.fill), s.fill).holding)
      && (!filled && t in l.holdings ==>
            l'.holdings[t] == l.holdings[t].(
              mark := if s.MarkStep? && s.token == t then Some(s.price) else l.holdings[t].mark))
  {
    hide CashDelta, Equity, Positions.ApplyFill;
  }

  /** Cash moves by every fill and by nothing else. */
  lemma {:induction false} CashMovesByTheFills(startingCash: Usd, steps: seq<LedgerStep>)
    ensures TakeSteps(FreshLedger(startingCash), steps).cash == startingCash + TotalCash(FillsIn(steps))
  {
    hide CashDelta, TakeStep;
    if steps != [] {
      var before, last := steps[..|steps| - 1], steps[|steps| - 1];
      CashMovesByTheFills(startingCash, before);
      StepMovesOneHolding(TakeSteps(FreshLedger(startingCash), before), last, 0);
      if last.FillStep? {
        OneMoreFill(FillsIn(before), last.fill);
      } else {
        assert FillsIn(steps) == FillsIn(before);
      }
    }
  }

  /** A token is known exactly when it was filled, and its holding is then what its own fills alone make
      of a fresh position in the market of the first, at its last mark. */
  lemma {:induction false} HoldingsAreTheirOwnFills(startingCash: Usd, steps: seq<LedgerStep>, t: TokenId)
    ensures var h, fills := TakeSteps(FreshLedger(startingCash), steps).holdings, FillsOn(steps, t);
      && (t in h <==> fills != [])
      && (t in h ==> h[t] == AfterFills(FreshHolding(fills[0].market), fills).(mark := LastMark(steps, t)))
      && (t !in h ==> LastMark(steps, t) == None)
  {
    hide TakeStep, Positions.ApplyFill;
    if steps != [] {
      var before, last := steps[..|steps| - 1], steps[|steps| - 1];
      HoldingsAreTheirOwnFills(startingCash, before, t);
      StepMovesOneHolding(TakeSteps(FreshLedger(startingCash), before), last, t);
      var fills := FillsOn(before, t);
      if last.FillStep? && last.fill.token == t {
        OneMoreFill(fills, last.fill);
        var first := (fills + [last.fill])[0];
        FillIgnoresMark(AfterFills(FreshHolding(first.market), fills), last.fill, LastMark(before, t));
      } else {
        assert FillsOn(steps, t) == fills;
      }
    }
  }

  lemma OneMoreFill(fills: seq<Fill>, f: Fill)
    ensures TotalCash(fills + [f]) == TotalCash(fills) + CashDelta(f)
    ensures forall h :: AfterFills(h, fills + [f]) == Positions.ApplyFill(AfterFills(h, fills), f).holding
  {
    hide CashDelta, Positions.ApplyFill;
    assert (fills + [f])[..|fills|] == fills;
  }

  lemma FillIgnoresMark(h: Holding, f: Fill, mark: Option<Price>)
    ensures Positions.ApplyFill(h.(mark := mark), f).holding == Positions.ApplyFill(h, f).holding.(mark := mark)
  {
    hide Times, Quot;
  }

  // ----- attribution by market

  ghost function RealizedIn(h: map<TokenId, Holding>, m: MarketId): map<TokenId, Usd> {
    map t | t in h :: if h[t].market == m then h[t].realized else 0.0
  }

  function Attributed(l: Ledger, m: MarketId): Usd {
    if m in l.byMarket then l.byMarket[m] else 0.0
  }

  /** Profit is attributed to a market exactly when its tokens booked it. */
  ghost predicate AttributionInv(l: Ledger) {
    forall m :: Attributed(l, m) == Sum(RealizedIn(l.holdings, m))
  }

  /** The fill names the market its token was first traded in, or its fee eats exactly what it closes. */
  predicate CreditsItsMarket(l: Ledger, f: Fill) {
    var before := HoldingFor(l.holdings, f);
    before.market == f.market || ClosedProfit(before, SignedQty(f), f.price) == f.fee
  }

  ghost predicate AllCreditTheirMarket(startingCash: Usd, steps: seq<LedgerStep>) {
    steps != [] ==>
      var before, s := steps[..|steps| - 1], steps[|steps| - 1];
      && AllCreditTheirMarket(startingCash, before)
      && (s.FillStep? ==> CreditsItsMarket(TakeSteps(FreshLedger(startingCash), before), s.fill))
  }

  /** A fill keeps the attribution exact if and only if it credits its token's own market. */
  lemma FillKeepsAttributionExactly(l: Ledger, f: Fill)
    requires AttributionInv(l)
    ensures AttributionInv(LedgerFill(l, f)) <==> CreditsItsMarket(l, f)
  {
    hide Times, Quot, NextAvg, ClosedProfit, CashDelta, Equity;
    var h, before := l.holdings, HoldingFor(l.holdings, f);
    var a := Positions.ApplyFill(before, f);
    forall m
      ensures Attributed(LedgerFill(l, f), m) - Sum(RealizedIn(h[f.token := a.holding], m))
        == (if m == f.market then a.booked else 0.0) - (if m == before.market then a.booked else 0.0)
    {
      var v := if before.market == m then a.holding.realized else 0.0;
      assert RealizedIn(h[f.token := a.holding], m) == RealizedIn(h, m)[f.token := v];
      SumUpdate(RealizedIn(h, m), f.token, v);
      assert Attributed(l, m) == Sum(RealizedIn(h, m));
    }
    if AttributionInv(LedgerFill(l, f)) {
      assert Attributed(LedgerFill(l, f), f.market) == Sum(RealizedIn(h[f.token := a.holding], f.market));
    }
  }

  /** While no fill credits a market that is not its token's, each market is credited exactly what its
      tokens realised; the first fill that does breaks it. */
  lemma {:induction false} MarketsGetTheirOwnProfit(startingCash: Usd, steps: seq<LedgerStep>)
    ensures AllCreditTheirMarket(startingCash, steps) ==>
      AttributionInv(TakeSteps(FreshLedger(startingCash), steps))
  {
    hide Times, Quot, Equity, LedgerFill, CreditsItsMarket;
    if !AllCreditTheirMarket(startingCash, steps) {
      return;
    }
    if steps == [] {
      forall m
        ensures Sum(RealizedIn(map[], m)) == 0.0
      {
        SumAllZero(RealizedIn(map[], m));
      }
    } else {
      var before := steps[..|steps| - 1];
      MarketsGetTheirOwnProfit(startingCash, before);
      var l := TakeSteps(FreshLedger(startingCash), before);
      match steps[|steps| - 1]
      case FillStep(f) => FillKeepsAttributionExactly(l, f);
      case MarkStep(t, price) =>
        var l' := LedgerMark(l, t, price);
        forall m
          ensures Attributed(l', m) == Sum(RealizedIn(l'.holdings, m))
        {
          assert RealizedIn(l'.holdings, m) == RealizedIn(l.holdings, m);
          assert Attributed(l, m) == Sum(RealizedIn(l.holdings, m));
        }
    }
  }

  // ----- equity

  lemma EquityOfInv(l: Ledger)
    requires LedgerInv(l)
    ensures Equity(l) == l.startingCash + l.realized
      + if AllHeldMarked(l.holdings) then TotalUnrealized(l.holdings).value else 0.0
  {
    hide Times, Quot;
    if AllHeldMarked(l.holdings) {
      forall t | t in l.holdings
        ensures Marked(l.holdings)[t] == Basis(l.holdings)[t] + Unrealized(l.holdings)[t]
      {
        var h := l.holdings[t];
        TimesZero(h.avg);
        if h.net != 0.0 {
          TimesMinus(h.net, h.mark.value, h.avg);
        }
      }
      SumAdds(Basis(l.holdings), Unrealized(l.holdings), Marked(l.holdings));
    }
  }

  /** Equity in every reachable portfolio: starting cash plus realised plus unrealised profit while
      every held position is marked, when it is cash plus position value, and starting cash plus
      realised profit otherwise, when there is no position value. */
  lemma EquityOfRuns(startingCash: Usd, steps: seq<LedgerStep>)
    ensures var l := TakeSteps(FreshLedger(startingCash), steps);
      && (TotalUnrealized(l.holdings).Some? ==>
            Equity(l) == startingCash + l.realized + TotalUnrealized(l.holdings).value)
      && (TotalUnrealized(l.holdings).None? ==> Equity(l) == startingCash + l.realized)
      && PositionValue(l.holdings) == (
           if exists t :: t in l.holdings && l.holdings[t].net != 0.0 && l.holdings[t].mark.None? then None
           else Some(Equity(l) - l.cash))
  {
    RunsKeepInv(startingCash, steps);
    EquityOfInv(TakeSteps(FreshLedger(startingCash), steps));
  }

  /** The peak never falls over any continuation of a run, and bounds the equity at every point. */
  lemma {:induction false} PeakNeverFalls(l: Ledger, steps: seq<LedgerStep>)
    requires l.peak >= Equity(l)
    ensures TakeSteps(l, steps).peak >= l.peak
    ensures TakeSteps(l, steps).peak >= Equity(TakeSteps(l, steps))
  {
    hide Times, Quot;
    if steps != [] {
      PeakNeverFalls(l, steps[..|steps| - 1]);
    }
  }

  /** The peak is the largest equity the portfolio has had: it is reached at some point of the run, and
      bounds the equity at every point. */
  lemma {:induction false} PeakIsTheLargestEquity(startingCash: Usd, steps: seq<LedgerStep>)
    ensures var l := TakeSteps(FreshLedger(startingCash), steps);
      && (exists i :: 0 <= i <= |steps| && l.peak == Equity(TakeSteps(FreshLedger(startingCash), steps[..i])))
      && (forall i :: 0 <= i <= |steps| ==> Equity(TakeSteps(FreshLedger(startingCash), steps[..i])) <= l.peak)
  {
    hide Times, Quot, Equity, EnterFill;
    var fresh' := FreshLedger(startingCash);
    var n := |steps|;
    assert steps[..n] == steps;
    if n == 0 {
      FreshEquity(startingCash);
    } else {
      var before := steps[..n - 1];
      PeakIsTheLargestEquity(startingCash, before);
      assert forall i :: 0 <= i < n ==> before[..i] == steps[..i];
      var l, l' := TakeSteps(fresh', before), TakeSteps(fresh', steps);
      StepRaisesPeak(l, steps[n - 1]);
      var j :| 0 <= j <= n - 1 && l.peak == Equity(TakeSteps(fresh', before[..j]));
      var k := if l'.peak == l.peak then j else n;
      assert l'.peak == Equity(TakeSteps(fresh', steps[..k]));
    }
  }

  lemma FreshEquity(startingCash: Usd)
    ensures Equity(FreshLedger(startingCash)) == startingCash == FreshLedger(startingCash).peak
  {
  }

  /** A step leaves the peak where it was or raises it to the new equity. */
  lemma StepRaisesPeak(l: Ledger, s: LedgerStep)
    ensures var l' := TakeStep(l, s);
      l'.peak == if Equity(l') > l.peak then Equity(l') else l.peak
  {
    hide Times, Quot, Marked, Basis, Positions.ApplyFill, CashDelta, Credited;
  }
}
