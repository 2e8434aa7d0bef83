/** Prices, quantities and dollar amounts (crates/domain/src/money.rs).
    A decimal is an exact real here; identifiers are opaque keys. */
module Money {
  import opened Products

  type Price = p: real | 0.0 < p < 1.0 witness 0.5
  type Qty = q: real | 0.0 <= q witness 0.0
  type Usd = real

  type TokenId = nat
  type MarketId = nat
  type OrderId = nat

  const MIN_PRICE: Price := 0.0001
  const MAX_PRICE: Price := 0.9999

  datatype Option<+T> = None | Some(value: T)

  datatype Side = Buy | Sell

  function Signed(side: Side, x: real): real {
    if side == Buy then x else -x
  }

  /** The nearest tradable price: never an error, even for a number that is not a price. */
  function Saturating(d: real): Price {
    if d < MIN_PRICE then MIN_PRICE else if d > MAX_PRICE then MAX_PRICE else d
  }

  /** The multiple of the tick next to `p`, on the side that is less aggressive for `side`. */
  function TickMultiple(p: Price, tick: real, side: Side): real
    requires tick > 0.0
  {
    var steps := Quot(p, tick);
    Times((if side == Buy then steps.Floor else Ceil(steps)) as real, tick)
  }

  function RoundToTick(p: Price, tick: real, side: Side): Price {
    if tick <= 0.0 then p else Saturating(TickMultiple(p, tick, side))
  }

  /** Rounds down to a whole number of `step`s; a non-positive step leaves the quantity alone. */
  function FloorTo(q: Qty, step: real): Qty {
    if step <= 0.0 then q
    else
      FloorMultiple(q, step);
      Times(Quot(q, step).Floor as real, step)
  }

  function SharesAt(u: Usd, p: Price): Qty {
    Max(Quot(u, p), 0.0)
  }

  function SaturatingSub(a: Qty, b: Qty): Qty {
    Max(a - b, 0.0)
  }

  /** Tick rounding moves a limit toward the less aggressive side exactly when the clamp at the
      edge of the tradable range does not push it the other way. */
  lemma RoundToTickNeverMoreAggressive(p: Price, tick: real, side: Side)
    requires tick > 0.0
    ensures side == Buy ==> (RoundToTick(p, tick, side) <= p <==> p >= MIN_PRICE)
    ensures side == Sell ==> (RoundToTick(p, tick, side) >= p <==> p <= MAX_PRICE)
  {
    hide Times, Quot;
    FloorMultiple(p, tick);
    CeilMultiple(p, tick);
  }

  /** A whole number of steps. */
  function Multiple(k: int, step: real): real {
    Times(k as real, step)
  }

  /** `m` is the nearest to `p` on the side that is less aggressive, and `r` is `m` or, where that is not
      tradable, the nearer end of the tradable range. */
  predicate RoundsTo(p: Price, tick: real, side: Side, m: real, r: Price) {
    && (if side == Buy then p - tick < m <= p else p <= m < p + tick)
    && r == if m < 0.0001 then 0.0001 else if m > 0.9999 then 0.9999 else m
  }

  /** A rounded limit is a whole number of ticks, the nearest on the less aggressive side, unless that
      number of ticks is outside the tradable range, whose nearer end it then is. */
  lemma RoundedLimitIsOnTick(p: Price, tick: real, side: Side)
    requires tick > 0.0
    ensures exists k: int :: RoundsTo(p, tick, side, Multiple(k, tick), RoundToTick(p, tick, side))
  {
    hide Times, Quot;
    FloorMultiple(p, tick);
    CeilMultiple(p, tick);
    var k := if side == Buy then Quot(p, tick).Floor else Ceil(Quot(p, tick));
    assert RoundsTo(p, tick, side, Multiple(k, tick), RoundToTick(p, tick, side));
  }

  /** A buy limit that rounding to the cent doubles. */
  lemma TickRoundingCanRaiseAPrice()
    ensures RoundToTick(0.00005, 0.01, Buy) == 0.0001
  {
    assert Quot(0.00005, 0.01) == 0.005;
  }
}
