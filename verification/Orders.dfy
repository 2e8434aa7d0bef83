/** Orders and the order state machine (crates/domain/src/order.rs), and the fills that drive it
    (crates/domain/src/trade.rs). */
module Orders {
  import opened Money
  import opened Products

  datatype OrderState =
    | Created | Validated | Submitted | Acknowledged | PartiallyFilled | Filled
    | CancelRequested | Cancelled | Rejected | Failed | Unknown

  predicate IsTerminal(s: OrderState) {
    s.Filled? || s.Cancelled? || s.Rejected? || s.Failed?
  }

  predicate IsOpen(s: OrderState) {
    !IsTerminal(s)
  }

  predicate MayHaveExecuted(s: OrderState) {
    s.Submitted? || s.Acknowledged? || s.PartiallyFilled? || s.Filled? || s.CancelRequested? || s.Unknown?
  }

  /** Working at the venue: acknowledged and not being cancelled. */
  predicate IsWorking(s: OrderState) {
    s.Acknowledged? || s.PartiallyFilled?
  }

  predicate CanTransition(s: OrderState, next: OrderState) {
    if IsTerminal(s) then false
    else if next.Unknown? then true
    else match s
      case Unknown =>
        next.Acknowledged? || next.PartiallyFilled? || next.Filled? || next.Cancelled? || next.Rejected? || next.Failed?
      case Created => next.Validated? || next.Rejected? || next.Failed?
      case Validated => next.Submitted? || next.Rejected? || next.Failed?
      case Submitted =>
        next.Acknowledged? || next.PartiallyFilled? || next.Filled? || next.Rejected? || next.Failed? || next.Cancelled?
      case Acknowledged =>
        next.PartiallyFilled? || next.Filled? || next.CancelRequested? || next.Cancelled? || next.Rejected?
      case PartiallyFilled =>
        next.PartiallyFilled? || next.Filled? || next.CancelRequested? || next.Cancelled?
      case CancelRequested => next.Cancelled? || next.Filled? || next.PartiallyFilled?
      case _ => false
  }

  datatype OrderType = Market | Limit

  datatype TimeInForce = Gtc | Ioc | Fok

  datatype OrderRequest = OrderRequest(
    id: OrderId,
    market: MarketId,
    token: TokenId,
    side: Side,
    orderType: OrderType,
    tif: TimeInForce,
    quantity: Qty,
    limitPrice: Price,
    referencePrice: Price)

  function RequestNotional(r: OrderRequest): Usd {
    Times(r.quantity, r.limitPrice)
  }

  /** A trade that counts toward an order: some of its quantity, at a price, for a fee. */
  datatype Fill = Fill(
    orderId: OrderId,
    market: MarketId,
    token: TokenId,
    side: Side,
    quantity: Qty,
    price: Price,
    fee: Usd,
    isMaker: bool)

  function FillNotional(f: Fill): Usd {
    Times(f.quantity, f.price)
  }

  /** Signed share count of a fill. */
  function SignedQty(f: Fill): real {
    Signed(f.side, f.quantity)
  }

  /** Signed cash impact including fees. */
  function CashDelta(f: Fill): Usd {
    if f.side == Buy then -(FillNotional(f) + f.fee) else FillNotional(f) - f.fee
  }

  datatype Order = Order(
    request: OrderRequest,
    state: OrderState,
    filledQty: Qty,
    filledNotional: Usd,
    feesPaid: Usd)

  function Remaining(o: Order): Qty {
    SaturatingSub(o.request.quantity, o.filledQty)
  }

  /** A zero quantity is refused. */
  function NewOrder(r: OrderRequest): Option<Order> {
    if r.quantity == 0.0 then None else Some(Order(r, Created, 0.0, 0.0, 0.0))
  }

  /** Moves to `next` when the state machine allows it; otherwise the order is unchanged. */
  function Transition(o: Order, next: OrderState): Order {
    if CanTransition(o.state, next) then o.(state := next) else o
  }

  predicate AcceptsFill(o: Order, qty: Qty) {
    MayHaveExecuted(o.state) && qty <= Remaining(o)
  }

  function BookFill(o: Order, qty: Qty, price: Price, fee: Usd): Order
    requires AcceptsFill(o, qty)
  {
    var filled := o.(
      filledQty := o.filledQty + qty,
      filledNotional := o.filledNotional + Times(qty, price),
      feesPaid := o.feesPaid + fee);
    filled.(state := if Remaining(filled) == 0.0 then Filled else PartiallyFilled)
  }

  datatype OrderError =
    | IllegalTransition(from: OrderState, to: OrderState)
    | Overfill(fill: Qty, remaining: Qty)

  /** A clone of an order while it is being worked on in place. */
  class LiveOrder {
    const request: OrderRequest
    var state: OrderState
    var filledQty: Qty
    var filledNotional: Usd
    var feesPaid: Usd

    function Value(): Order
      reads this
    {
      Order(request, state, filledQty, filledNotional, feesPaid)
    }

    constructor Clone(o: Order)
      ensures Value() == o
    {
      request, state := o.request, o.state;
      filledQty, filledNotional, feesPaid := o.filledQty, o.filledNotional, o.feesPaid;
    }

    method MoveTo(next: OrderState) returns (error: Option<OrderError>)
      modifies this`state
      ensures Value() == Transition(old(Value()), next)
      ensures error == if CanTransition(old(state), next) then None else Some(IllegalTransition(old(state), next))
    {
      if !CanTransition(state, next) {
        return Some(IllegalTransition(state, next));
      }
      state := next;
      error := None;
    }

    /** Refuses, without changing anything, a fill on an order that cannot have executed, and one
        larger than what remains. */
    method ApplyFill(qty: Qty, price: Price, fee: Usd) returns (error: Option<OrderError>)
      modifies this
      ensures error.None? <==> AcceptsFill(old(Value()), qty)
      ensures error.None? ==> Value() == BookFill(old(Value()), qty, price, fee)
      ensures error.Some? ==> Value() == old(Value())
      ensures error.Some? && !MayHaveExecuted(old(state)) ==>
        error.value == IllegalTransition(old(state), PartiallyFilled)
      ensures error.Some? && MayHaveExecuted(old(state)) ==> error.value == Overfill(qty, Remaining(old(Value())))
    {
      hide Times;
      if !MayHaveExecuted(state) {
        return Some(IllegalTransition(state, PartiallyFilled));
      }
      if qty > Remaining(Value()) {
        return Some(Overfill(qty, Remaining(Value())));
      }
      filledQty := filledQty + qty;
      filledNotional := filledNotional + Times(qty, price);
      feesPaid := feesPaid + fee;
      state := if Remaining(Value()) == 0.0 then Filled else PartiallyFilled;
      error := None;
    }
  }

  function AvgFillPrice(o: Order): Option<Price> {
    if o.filledQty == 0.0 then None
    else
      var avg := Quot(o.filledNotional, o.filledQty);
      if 0.0 < avg < 1.0 then Some(avg) else None
  }

  /** What every reachable order satisfies. */
  ghost predicate OrderInv(o: Order) {
    && 0.0 <= o.filledQty <= o.request.quantity
    && o.request.quantity > 0.0
    && (o.state == Filled <==> o.filledQty == o.request.quantity)
    && (o.filledQty > 0.0 ==> o.state != Created && o.state != Validated)
  }

  /** A booked fill never passes the requested quantity, and completes the order exactly when
      nothing is left. */
  lemma BookFillKeepsOrder(o: Order, qty: Qty, price: Price, fee: Usd)
    requires OrderInv(o) && AcceptsFill(o, qty)
    ensures OrderInv(BookFill(o, qty, price, fee))
    ensures IsTerminal(o.state) ==> BookFill(o, qty, price, fee).state == o.state && qty == 0.0
  {
  }

  /** Where each state can be entered from. */
  lemma MovesByDestination(s: OrderState, next: OrderState)
    ensures CanTransition(s, next) <==> match next
      case Created => false
      case Validated => s == Created
      case Submitted => s == Validated
      case Acknowledged => s in {Submitted, Unknown}
      case PartiallyFilled => s in {Submitted, Acknowledged, PartiallyFilled, CancelRequested, Unknown}
      case Filled => s in {Submitted, Acknowledged, PartiallyFilled, CancelRequested, Unknown}
      case CancelRequested => s in {Acknowledged, PartiallyFilled}
      case Cancelled => s in {Submitted, Acknowledged, PartiallyFilled, CancelRequested, Unknown}
      case Rejected => s in {Created, Validated, Submitted, Acknowledged, Unknown}
      case Failed => s in {Created, Validated, Submitted, Unknown}
      case Unknown => s !in {OrderState.Filled, Cancelled, OrderState.Rejected, Failed}
  {
  }

  /** A fill is booked without consulting the state machine, which would allow it in every case but one:
      the empty fill of an order that is already Filled. */
  lemma BookedFillsAreLegalMoves(o: Order, qty: Qty, price: Price, fee: Usd)
    requires OrderInv(o) && AcceptsFill(o, qty)
    ensures CanTransition(o.state, BookFill(o, qty, price, fee).state) <==> !o.state.Filled?
  {
    hide Times;
  }

  /** A terminal order refuses every fill, except that a Filled one takes an empty fill, whose fee is
      then the only thing booked. */
  lemma TerminalTakesOnlyEmptyFills(o: Order, qty: Qty, price: Price, fee: Usd)
    requires OrderInv(o) && IsTerminal(o.state)
    ensures AcceptsFill(o, qty) <==> o.state.Filled? && qty == 0.0
    ensures AcceptsFill(o, qty) ==> BookFill(o, qty, price, fee) == o.(feesPaid := o.feesPaid + fee)
  {
    hide Times;
    TimesZero(price);
  }
}
