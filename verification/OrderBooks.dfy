/** Order books and the sweep that prices a taking order (crates/domain/src/market.rs). */
module OrderBooks {
  import opened Money
  import opened Products

  datatype Level = Level(price: Price, size: Qty)

  /** Both sides are stored best-first: bids descending, asks ascending. */
  datatype OrderBook = OrderBook(
    market: MarketId,
    token: TokenId,
    bids: seq<Level>,
    asks: seq<Level>,
    tickSize: real,
    minOrderSize: real,
    timestamp: int,
    seqNo: nat)

  function BestBid(b: OrderBook): Option<Price> {
    if b.bids == [] then None else Some(b.bids[0].price)
  }

  function BestAsk(b: OrderBook): Option<Price> {
    if b.asks == [] then None else Some(b.asks[0].price)
  }

  function Mid(b: OrderBook): Option<Price> {
    if b.bids == [] || b.asks == [] then None
    else Some((b.bids[0].price + b.asks[0].price) / 2.0)
  }

  /** The levels an incoming order trades against. */
  function TakingSide(b: OrderBook, side: Side): seq<Level> {
    if side == Buy then b.asks else b.bids
  }

  predicate AtLeastAsGood(side: Side, p: real, q: real) {
    if side == Buy then p <= q else p >= q
  }

  predicate Within(side: Side, l: Level, limit: Price) {
    AtLeastAsGood(side, l.price, limit)
  }

  /** Best-first for a taker on `side`. */
  predicate BestFirst(side: Side, levels: seq<Level>) {
    forall i, j :: 0 <= i < j < |levels| ==> AtLeastAsGood(side, levels[i].price, levels[j].price)
  }

  predicate Uncrossed(b: OrderBook) {
    b.bids == [] || b.asks == [] || b.bids[0].price < b.asks[0].price
  }

  /** Neighbouring levels are in order and the book is not crossed. */
  predicate IsWellFormed(b: OrderBook) {
    && (forall i {:trigger b.bids[i]} :: 0 < i < |b.bids| ==> b.bids[i - 1].price >= b.bids[i].price)
    && (forall i {:trigger b.asks[i]} :: 0 < i < |b.asks| ==> b.asks[i - 1].price <= b.asks[i].price)
    && Uncrossed(b)
  }

  ghost predicate NeighboursInOrder(side: Side, levels: seq<Level>) {
    forall k {:trigger levels[k]} :: 0 < k < |levels| ==> AtLeastAsGood(side, levels[k - 1].price, levels[k].price)
  }

  lemma {:induction false} NeighboursOrderAPair(side: Side, levels: seq<Level>, i: nat, j: nat)
    requires NeighboursInOrder(side, levels) && i < j < |levels|
    ensures AtLeastAsGood(side, levels[i].price, levels[j].price)
    decreases j - i
  {
    if i + 1 < j {
      NeighboursOrderAPair(side, levels, i, j - 1);
      assert AtLeastAsGood(side, levels[j - 1].price, levels[j].price);
    }
  }

  /** Neighbours in order put a whole side in order. */
  lemma NeighboursOrderTheSide(side: Side, levels: seq<Level>)
    ensures NeighboursInOrder(side, levels) <==> BestFirst(side, levels)
  {
    hide AtLeastAsGood;
    if NeighboursInOrder(side, levels) {
      forall i, j | 0 <= i < j < |levels|
        ensures AtLeastAsGood(side, levels[i].price, levels[j].price)
      {
        NeighboursOrderAPair(side, levels, i, j);
      }
    }
  }

  /** What is checked on neighbours and on the two touches says that both sides are best-first throughout
      and that every bid is below every ask. */
  lemma WellFormedExactly(b: OrderBook)
    ensures IsWellFormed(b) <==>
      && BestFirst(Sell, b.bids) && BestFirst(Buy, b.asks)
      && forall i, j :: 0 <= i < |b.bids| && 0 <= j < |b.asks| ==> b.bids[i].price < b.asks[j].price
  {
    NeighboursOrderTheSide(Sell, b.bids);
    NeighboursOrderTheSide(Buy, b.asks);
    if BestFirst(Sell, b.bids) && BestFirst(Buy, b.asks) && Uncrossed(b) {
      forall i, j | 0 <= i < |b.bids| && 0 <= j < |b.asks|
        ensures b.bids[i].price < b.asks[j].price
      {
        assert AtLeastAsGood(Sell, b.bids[0].price, b.bids[i].price);
        assert AtLeastAsGood(Buy, b.asks[0].price, b.asks[j].price);
      }
    }
  }

  function LiquidityWithin(side: Side, levels: seq<Level>, limit: Price): Qty {
    if levels == [] || !Within(side, levels[0], limit) then 0.0
    else levels[0].size + LiquidityWithin(side, levels[1..], limit)
  }

  function NotionalWithin(side: Side, levels: seq<Level>, limit: Price): Usd {
    if levels == [] || !Within(side, levels[0], limit) then 0.0
    else Times(levels[0].size, levels[0].price) + NotionalWithin(side, levels[1..], limit)
  }

  // ----- allocations: how much of a quantity is drawn from each level

  function Total(alloc: seq<real>): real {
    if alloc == [] then 0.0 else alloc[0] + Total(alloc[1..])
  }

  function Cost(levels: seq<Level>, alloc: seq<real>): Usd
    requires |levels| == |alloc|
  {
    if alloc == [] then 0.0 else Times(alloc[0], levels[0].price) + Cost(levels[1..], alloc[1..])
  }

  /** Draws from every level no more than it holds, and only from levels within the limit. */
  ghost predicate IsAllocation(side: Side, levels: seq<Level>, limit: Price, alloc: seq<real>) {
    && |alloc| == |levels|
    && forall i :: 0 <= i < |levels| ==>
         && 0.0 <= alloc[i] <= levels[i].size
         && (alloc[i] > 0.0 ==> Within(side, levels[i], limit))
  }

  /** What the walk takes from each level. Once it stops, it takes nothing more. */
  function Walk(side: Side, levels: seq<Level>, qty: real, limit: Price): (alloc: seq<real>)
    ensures |alloc| == |levels|
  {
    if levels == [] then []
    else if Within(side, levels[0], limit) && qty > 0.0 then
      var take := Min(qty, levels[0].size);
      [take] + Walk(side, levels[1..], qty - take, limit)
    else
      [0.0] + Walk(side, levels[1..], 0.0, limit)
  }

  /** Price times quantity of a sweep is the notional of its walk. */
  lemma SweepPaysItsWalk(side: Side, levels: seq<Level>, qty: Qty, limit: Price)
    ensures match SweepOf(side, levels, qty, limit)
      case Some(s) => Times(s.vwap, s.taken) == WalkCost(side, levels, qty, limit)
      case None => true
  {
    hide Times, Quot;
    WalkTotal(side, levels, qty, limit);
    var walk := Walk(side, levels, qty, limit);
    if Total(walk) != 0.0 {
      QuotTimes(Cost(levels, walk), Total(walk));
    }
  }

  function Average(levels: seq<Level>, alloc: seq<real>): real
    requires |levels| == |alloc| && Total(alloc) > 0.0
  {
    Quot(Cost(levels, alloc), Total(alloc))
  }

  datatype Sweep = Sweep(vwap: Price, taken: Qty)

  /** The outcome of a walk: nothing taken, or a volume-weighted price for what was taken. */
  function SweepOf(side: Side, levels: seq<Level>, qty: Qty, limit: Price): Option<Sweep> {
    var alloc := Walk(side, levels, qty, limit);
    WalkTotal(side, levels, qty, limit);
    if Total(alloc) == 0.0 then None
    else
      var vwap := Average(levels, alloc);
      if 0.0 < vwap < 1.0 then Some(Sweep(vwap, Total(alloc))) else None
  }

  // ----- the walk itself

  method SweepVwap(book: OrderBook, side: Side, qty: Qty, limit: Price) returns (r: Option<Sweep>)
    ensures r == SweepOf(side, TakingSide(book, side), qty, limit)
  {
    hide Times, Quot;
    var levels := TakingSide(book, side);
    var remaining: real, notional, taken: real := qty, 0.0, 0.0;
    ghost var cost, total := WalkCost(side, levels, qty, limit), WalkTaken(side, levels, qty, limit);
    var i := 0;
    while i < |levels|
      invariant 0 <= i <= |levels| && remaining >= 0.0
      invariant taken + WalkTaken(side, levels[i..], remaining, limit) == total
      invariant notional + WalkCost(side, levels[i..], remaining, limit) == cost
    {
      var l := levels[i];
      assert levels[i..][0] == l && levels[i..][1..] == levels[i + 1..];
      WalkHead(side, levels[i..], remaining, limit);
      if !Within(side, l, limit) || remaining <= 0.0 {
        TimesZero(l.price);
        WalkStopped(side, levels[i + 1..], limit);
        break;
      }
      var take := Min(remaining, l.size);
      notional := notional + Times(take, l.price);
      taken := taken + take;
      remaining := remaining - take;
      i := i + 1;
    }
    WalkTotal(side, levels, qty, limit);
    if taken == 0.0 {
      return None;
    }
    var vwap := Quot(notional, taken);
    r := if 0.0 < vwap < 1.0 then Some(Sweep(vwap, taken)) else None;
  }

  ghost function WalkTaken(side: Side, levels: seq<Level>, qty: real, limit: Price): real {
    Total(Walk(side, levels, qty, limit))
  }

  ghost function WalkCost(side: Side, levels: seq<Level>, qty: real, limit: Price): real {
    Cost(levels, Walk(side, levels, qty, limit))
  }

  /** One level of the walk. */
  lemma WalkHead(side: Side, levels: seq<Level>, qty: real, limit: Price)
    requires levels != []
    ensures var go := Within(side, levels[0], limit) && qty > 0.0;
      var take := if go then Min(qty, levels[0].size) else 0.0;
      var tail := Walk(side, levels[1..], if go then qty - take else 0.0, limit);
      && Walk(side, levels, qty, limit) == [take] + tail
      && Total(Walk(side, levels, qty, limit)) == take + Total(tail)
      && Cost(levels, Walk(side, levels, qty, limit)) == Times(take, levels[0].price) + Cost(levels[1..], tail)
  {
    hide Times;
    var go := Within(side, levels[0], limit) && qty > 0.0;
    var take := if go then Min(qty, levels[0].size) else 0.0;
    var tail := Walk(side, levels[1..], if go then qty - take else 0.0, limit);
    assert ([take] + tail)[1..] == tail;
  }

  lemma {:induction false} WalkStopped(side: Side, levels: seq<Level>, limit: Price)
    ensures Total(Walk(side, levels, 0.0, limit)) == 0.0
    ensures Cost(levels, Walk(side, levels, 0.0, limit)) == 0.0
  {
    if levels != [] {
      TimesZero(levels[0].price);
      WalkStopped(side, levels[1..], limit);
      var w := Walk(side, levels, 0.0, limit);
      assert w[1..] == Walk(side, levels[1..], 0.0, limit);
    }
  }

  /** On any book, sorted or not, the walk takes exactly the smaller of what was asked and what
      rests within the limit. */
  lemma {:induction false} WalkTotal(side: Side, levels: seq<Level>, qty: real, limit: Price)
    requires qty >= 0.0
    ensures Total(Walk(side, levels, qty, limit)) == Min(qty, LiquidityWithin(side, levels, limit))
  {
    hide Times;
    if levels != [] {
      var w := Walk(side, levels, qty, limit);
      if Within(side, levels[0], limit) && qty > 0.0 {
        var take := Min(qty, levels[0].size);
        assert w[1..] == Walk(side, levels[1..], qty - take, limit);
        WalkTotal(side, levels[1..], qty - take, limit);
      } else {
        assert w[1..] == Walk(side, levels[1..], 0.0, limit);
        WalkStopped(side, levels[1..], limit);
      }
    }
  }

  lemma {:induction false} WalkIsAllocation(side: Side, levels: seq<Level>, qty: real, limit: Price)
    requires qty >= 0.0
    ensures IsAllocation(side, levels, limit, Walk(side, levels, qty, limit))
  {
    if levels != [] {
      var go := Within(side, levels[0], limit) && qty > 0.0;
      var rest := if go then qty - Min(qty, levels[0].size) else 0.0;
      WalkIsAllocation(side, levels[1..], rest, limit);
      var w := Walk(side, levels, qty, limit);
      assert w[1..] == Walk(side, levels[1..], rest, limit);
      forall i | 0 <= i < |levels|
        ensures 0.0 <= w[i] <= levels[i].size && (w[i] > 0.0 ==> Within(side, levels[i], limit))
      {
        if i > 0 {
          assert w[i] == w[1..][i - 1] && levels[i] == levels[1..][i - 1];
        }
      }
    }
  }

  lemma {:induction false} TotalNonNegative(alloc: seq<real>)
    requires forall i :: 0 <= i < |alloc| ==> alloc[i] >= 0.0
    ensures Total(alloc) >= 0.0
  {
    if alloc != [] {
      TotalNonNegative(alloc[1..]);
    }
  }

  /** Cost signed so that smaller is better for the taker. */
  function Burden(side: Side, levels: seq<Level>, alloc: seq<real>): real
    requires |levels| == |alloc|
  {
    Signed(side, Cost(levels, alloc))
  }

  /** Exchange argument: an allocation that draws `extra` shares more than the walk pays at least
      the touch price for each of them. */
  lemma {:induction false} ExtraSharesCostAtLeastTheBound(
    side: Side, levels: seq<Level>, qty: real, limit: Price, alloc: seq<real>, bound: real, extra: real)
    requires qty >= 0.0 && BestFirst(side, levels) && IsAllocation(side, levels, limit, alloc)
    requires forall i :: 0 <= i < |levels| ==> bound <= Signed(side, levels[i].price)
    requires extra == Total(alloc) - Total(Walk(side, levels, qty, limit)) && extra >= 0.0
    ensures Burden(side, levels, alloc) - Burden(side, levels, Walk(side, levels, qty, limit)) >= Times(bound, extra)
  {
    hide Times;
    if levels != [] {
      var walk := Walk(side, levels, qty, limit);
      var go := Within(side, levels[0], limit) && qty > 0.0;
      var rest := if go then qty - walk[0] else 0.0;
      var tail := levels[1..];
      assert walk[1..] == Walk(side, tail, rest, limit);
      if rest == 0.0 {
        WalkStopped(side, tail, limit);
      }
      TailOfAllocation(side, levels, limit, alloc);
      var key := Signed(side, levels[0].price);
      var tailExtra := Total(alloc[1..]) - Total(walk[1..]);
      ExtraSharesCostAtLeastTheBound(side, tail, rest, limit, alloc[1..], key, tailExtra);
      HeadAndTail(side, levels, alloc, walk, key, extra, tailExtra);
      TimesMonotone(bound, key, extra);
    } else {
      TimesZero(bound);
    }
  }

  lemma TailOfAllocation(side: Side, levels: seq<Level>, limit: Price, alloc: seq<real>)
    requires levels != [] && BestFirst(side, levels) && IsAllocation(side, levels, limit, alloc)
    ensures BestFirst(side, levels[1..]) && IsAllocation(side, levels[1..], limit, alloc[1..])
    ensures forall i :: 0 <= i < |levels| - 1 ==> Signed(side, levels[0].price) <= Signed(side, levels[1..][i].price)
    ensures Total(alloc[1..]) >= 0.0
    ensures !Within(side, levels[0], limit) ==> alloc[0] == 0.0
  {
    forall i | 0 <= i < |levels| - 1
      ensures 0.0 <= alloc[1..][i] <= levels[1..][i].size
      ensures alloc[1..][i] > 0.0 ==> Within(side, levels[1..][i], limit)
      ensures Signed(side, levels[0].price) <= Signed(side, levels[1..][i].price)
    {
      assert levels[1..][i] == levels[i + 1] && alloc[1..][i] == alloc[i + 1];
      assert AtLeastAsGood(side, levels[0].price, levels[i + 1].price);
    }
    TotalNonNegative(alloc[1..]);
  }

  lemma HeadAndTail(
    side: Side, levels: seq<Level>, a: seq<real>, b: seq<real>, key: real, extra: real, tailExtra: real)
    requires |a| == |b| == |levels| && levels != [] && key == Signed(side, levels[0].price)
    requires tailExtra == extra - (a[0] - b[0])
    requires Burden(side, levels[1..], a[1..]) - Burden(side, levels[1..], b[1..]) >= Times(key, tailExtra)
    ensures Burden(side, levels, a) - Burden(side, levels, b) >= Times(key, extra)
  {
    hide Times;
    TimesMinus(key, extra, a[0] - b[0]);
    TimesMinus(key, a[0], b[0]);
    TimesNeg(levels[0].price, a[0]);
    TimesNeg(levels[0].price, b[0]);
    TimesComm(levels[0].price, a[0]);
    TimesComm(levels[0].price, b[0]);
  }

  /** The greedy walk is the best way to draw the quantity it draws: least cost for a buy,
      greatest proceeds for a sell. */
  lemma WalkIsOptimal(side: Side, levels: seq<Level>, qty: Qty, limit: Price, alloc: seq<real>)
    requires BestFirst(side, levels) && IsAllocation(side, levels, limit, alloc)
    requires Total(alloc) == Min(qty, LiquidityWithin(side, levels, limit))
    ensures IsAllocation(side, levels, limit, Walk(side, levels, qty, limit))
    ensures Total(Walk(side, levels, qty, limit)) == Total(alloc)
    ensures side == Buy ==> Cost(levels, Walk(side, levels, qty, limit)) <= Cost(levels, alloc)
    ensures side == Sell ==> Cost(levels, Walk(side, levels, qty, limit)) >= Cost(levels, alloc)
  {
    hide Times;
    WalkTotal(side, levels, qty, limit);
    WalkIsAllocation(side, levels, qty, limit);
    var bound := if levels == [] then 0.0 else Signed(side, levels[0].price);
    forall i | 0 <= i < |levels|
      ensures bound <= Signed(side, levels[i].price)
    {
      if i > 0 {
        assert AtLeastAsGood(side, levels[0].price, levels[i].price);
      }
    }
    ExtraSharesCostAtLeastTheBound(side, levels, qty, limit, alloc, bound, 0.0);
    TimesZero(bound);
  }

  lemma {:induction false} CostBetween(levels: seq<Level>, alloc: seq<real>, lo: real, hi: real)
    requires |levels| == |alloc|
    requires forall i :: 0 <= i < |levels| ==> alloc[i] >= 0.0
    requires forall i :: 0 <= i < |levels| && alloc[i] > 0.0 ==> lo <= levels[i].price <= hi
    ensures Times(lo, Total(alloc)) <= Cost(levels, alloc) <= Times(hi, Total(alloc))
  {
    hide Times;
    if levels == [] {
      TimesZero(lo);
      TimesZero(hi);
    } else {
      forall i | 0 <= i < |levels| - 1
        ensures alloc[1..][i] >= 0.0
        ensures alloc[1..][i] > 0.0 ==> lo <= levels[1..][i].price <= hi
      {
        assert alloc[1..][i] == alloc[i + 1] && levels[1..][i] == levels[i + 1];
      }
      CostBetween(levels[1..], alloc[1..], lo, hi);
      TimesPlus(lo, alloc[0], Total(alloc[1..]));
      TimesPlus(hi, alloc[0], Total(alloc[1..]));
      TimesComm(levels[0].price, alloc[0]);
      TimesMonotone(lo, levels[0].price, alloc[0]);
      TimesMonotone(levels[0].price, hi, alloc[0]);
      if alloc[0] == 0.0 {
        TimesZero(lo);
        TimesZero(hi);
        TimesZero(levels[0].price);
      }
    }
  }

  /** What a sweep reports, in full: it fails exactly when nothing can be taken (so its price is
      never out of range), takes exactly what it can, never prices beyond the limit, and on a
      best-first book never prices better than the touch. */
  lemma SweepReport(side: Side, levels: seq<Level>, qty: Qty, limit: Price)
    ensures SweepOf(side, levels, qty, limit) == None <==> Min(qty, LiquidityWithin(side, levels, limit)) == 0.0
    ensures SweepOf(side, levels, qty, limit).Some? ==>
      var s := SweepOf(side, levels, qty, limit).value;
      && s.taken == Min(qty, LiquidityWithin(side, levels, limit))
      && AtLeastAsGood(side, s.vwap, limit)
      && (BestFirst(side, levels) ==> AtLeastAsGood(side, levels[0].price, s.vwap))
  {
    hide Times, Quot;
    WalkTotal(side, levels, qty, limit);
    var walk := Walk(side, levels, qty, limit);
    if Total(walk) > 0.0 {
      var best := BestPrice(side, levels);
      WalkIsAllocation(side, levels, qty, limit);
      AverageOfAllocation(side, levels, limit, walk, best);
      if BestFirst(side, levels) {
        assert forall i :: 0 < i < |levels| ==> AtLeastAsGood(side, levels[0].price, levels[i].price);
        AverageOfAllocation(side, levels, limit, walk, levels[0].price);
      }
    }
  }

  lemma AverageOfAllocation(side: Side, levels: seq<Level>, limit: Price, alloc: seq<real>, best: Price)
    requires IsAllocation(side, levels, limit, alloc) && Total(alloc) > 0.0
    requires forall i :: 0 <= i < |levels| ==> AtLeastAsGood(side, best, levels[i].price)
    ensures AtLeastAsGood(side, best, Average(levels, alloc))
    ensures AtLeastAsGood(side, Average(levels, alloc), limit)
    ensures Times(Average(levels, alloc), Total(alloc)) == Cost(levels, alloc)
  {
    hide Times, Quot;
    var lo, hi := if side == Buy then best else limit, if side == Buy then limit else best;
    CostBetween(levels, alloc, lo, hi);
    QuotBetween(Cost(levels, alloc), Total(alloc), lo, hi);
    QuotTimes(Cost(levels, alloc), Total(alloc));
  }

  ghost function BestPrice(side: Side, levels: seq<Level>): (p: Price)
    ensures forall i :: 0 <= i < |levels| ==> AtLeastAsGood(side, p, levels[i].price)
  {
    if levels == [] then 0.5
    else
      var rest := BestPrice(side, levels[1..]);
      assert forall i :: 0 < i < |levels| ==> levels[i] == levels[1..][i - 1];
      if side == Buy then Min(levels[0].price, rest) else Max(levels[0].price, rest)
  }

  /** On a best-first book the prefix the liquidity sum walks is every level within the limit. */
  lemma {:induction false} LiquidityIsEveryLevelWithin(side: Side, levels: seq<Level>, limit: Price)
    requires BestFirst(side, levels)
    ensures LiquidityWithin(side, levels, limit)
      == Total(seq(|levels|, i requires 0 <= i < |levels| => SizeWithin(side, levels[i], limit)))
    decreases |levels|
  {
    var sizes := seq(|levels|, i requires 0 <= i < |levels| => SizeWithin(side, levels[i], limit));
    if levels != [] {
      var tail := levels[1..];
      assert BestFirst(side, tail) by {
        forall i, j | 0 <= i < j < |tail| ensures AtLeastAsGood(side, tail[i].price, tail[j].price) {
          assert AtLeastAsGood(side, levels[i + 1].price, levels[j + 1].price);
        }
      }
      LiquidityIsEveryLevelWithin(side, tail, limit);
      assert sizes[1..] == seq(|tail|, i requires 0 <= i < |tail| => SizeWithin(side, tail[i], limit));
      if !Within(side, levels[0], limit) && tail != [] {
        assert AtLeastAsGood(side, levels[0].price, levels[1].price);
        assert !Within(side, tail[0], limit);
      }
    }
  }

  /** The notional within a limit is what it costs, or brings, to take all the liquidity within it. */
  lemma {:induction false} NotionalIsTheCostOfEverything(side: Side, levels: seq<Level>, limit: Price)
    ensures NotionalWithin(side, levels, limit)
      == WalkCost(side, levels, LiquidityWithin(side, levels, limit), limit)
  {
    hide Times;
    if levels != [] {
      var all := LiquidityWithin(side, levels, limit);
      WalkHead(side, levels, all, limit);
      TimesZero(levels[0].price);
      if Within(side, levels[0], limit) {
        NotionalIsTheCostOfEverything(side, levels[1..], limit);
        if all == 0.0 {
          WalkStopped(side, levels[1..], limit);
        }
      } else {
        WalkStopped(side, levels[1..], limit);
      }
    }
  }

  function SizeWithin(side: Side, l: Level, limit: Price): Qty {
    if Within(side, l, limit) then l.size else 0.0
  }
}
