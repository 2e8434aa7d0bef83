/** The order manager's steps and what every run of them keeps (crates/execution/src/order_manager.rs).
    The adapter is unconstrained here: its answers are inputs. */
module OrderManagement {
  import opened Money
  import opened Products
  import opened Orders

  type OrderMap = map<OrderId, Order>

  /** What an adapter may answer to a submission. The terminal flag is part of the acknowledgement,
      and the manager does not look at it. */
  datatype Answer =
    | Acked(immediate: seq<Fill>, terminal: bool)
    | Refused(requiresReconciliation: bool)

  datatype CancelAnswer = CancelDone | CancelUnknownOrder | CancelFailed

  function RegisterValidated(orders: OrderMap, r: OrderRequest): Option<OrderMap> {
    var o := NewOrder(r);
    if o.None? then None else Some(orders[r.id := Transition(o.value, Validated)])
  }

  datatype Booked = Booked(order: Order, applied: seq<Fill>)

  /** Books the fills an acknowledgement carries. A refused one is flagged, not absorbed. */
  function BookImmediate(o: Order, fills: seq<Fill>): Booked
    decreases |fills|
  {
    if fills == [] then Booked(o, [])
    else if AcceptsFill(o, fills[0].quantity) then
      var rest := BookImmediate(BookFill(o, fills[0].quantity, fills[0].price, fills[0].fee), fills[1..]);
      Booked(rest.order, [fills[0]] + rest.applied)
    else
      BookImmediate(Transition(o, Unknown), fills[1..])
  }

  function AfterAnswer(o: Order, a: Answer): Booked {
    match a
    case Acked(fills, _) => BookImmediate(Transition(o, Acknowledged), fills)
    case Refused(ambiguous) => Booked(Transition(o, if ambiguous then Unknown else OrderState.Rejected), [])
  }

  /** The adapter is called exactly when this holds. */
  predicate ReachesAdapter(orders: OrderMap, id: OrderId) {
    id in orders && CanTransition(orders[id].state, Submitted)
  }

  datatype Managed = Managed(orders: OrderMap, applied: seq<Fill>)

  function Submit(orders: OrderMap, id: OrderId, a: Answer): Managed {
    if !ReachesAdapter(orders, id) then Managed(orders, [])
    else
      var b := AfterAnswer(Transition(orders[id], Submitted), a);
      Managed(orders[id := b.order], b.applied)
  }

  predicate AcceptsExternal(orders: OrderMap, f: Fill) {
    f.orderId in orders && AcceptsFill(orders[f.orderId], f.quantity)
  }

  /** A fill delivered outside a submission; a refused one changes nothing. */
  function ExternalFill(orders: OrderMap, f: Fill): Managed {
    if !AcceptsExternal(orders, f) then Managed(orders, [])
    else Managed(orders[f.orderId := BookFill(orders[f.orderId], f.quantity, f.price, f.fee)], [f])
  }

  predicate Cancellable(orders: OrderMap, id: OrderId) {
    id in orders && CanTransition(orders[id].state, CancelRequested)
  }

  function Cancel(orders: OrderMap, id: OrderId, a: CancelAnswer): OrderMap {
    if !Cancellable(orders, id) then orders
    else
      var o := Transition(orders[id], CancelRequested);
      orders[id := if a == CancelFailed then o else Transition(o, Cancelled)]
  }

  /** A cancel of a working order ends it, whether the venue cancelled it or no longer knows it, and
      leaves it asked for when the venue's answer is an error; it changes nothing else of any order. */
  lemma CancelExactly(orders: OrderMap, id: OrderId, a: CancelAnswer)
    ensures Cancel(orders, id, a) ==
      if id in orders && orders[id].state in {Acknowledged, PartiallyFilled}
      then orders[id := orders[id].(state := if a.CancelFailed? then CancelRequested else Cancelled)]
      else orders
  {
  }

  // ----- runs, with a record of adapter calls and accepted fills

  datatype Accepted = Accepted(id: OrderId, qty: Qty, price: Price)

  datatype History = History(orders: OrderMap, calls: seq<OrderId>, accepted: seq<Accepted>)

  datatype Step =
    | RegisterStep(request: OrderRequest)
    | SubmitStep(id: OrderId, answer: Answer)
    | ExternalStep(fill: Fill)
    | CancelStep(id: OrderId, cancelAnswer: CancelAnswer)

  function Log(id: OrderId, fills: seq<Fill>): seq<Accepted> {
    if fills == [] then [] else [Accepted(id, fills[0].quantity, fills[0].price)] + Log(id, fills[1..])
  }

  function TakeStep(h: History, s: Step): History {
    match s
    case RegisterStep(r) =>
      var m := RegisterValidated(h.orders, r);
      if m.None? then h else h.(orders := m.value)
    case SubmitStep(id, a) =>
      var m := Submit(h.orders, id, a);
      History(m.orders,
              if ReachesAdapter(h.orders, id) then h.calls + [id] else h.calls,
              h.accepted + Log(id, m.applied))
    case ExternalStep(f) =>
      var m := ExternalFill(h.orders, f);
      h.(orders := m.orders, accepted := h.accepted + Log(f.orderId, m.applied))
    case CancelStep(id, a) => h.(orders := Cancel(h.orders, id, a))
  }

  function TakeSteps(h: History, steps: seq<Step>): History {
    if steps == [] then h else TakeStep(TakeSteps(h, steps[..|steps| - 1]), steps[|steps| - 1])
  }

  /** Order ids are minted fresh. */
  predicate FreshIds(h: History, steps: seq<Step>) {
    steps != [] ==>
      var before, s := steps[..|steps| - 1], steps[|steps| - 1];
      && FreshIds(h, before)
      && (s.RegisterStep? ==> s.request.id !in TakeSteps(h, before).orders)
  }

  const EMPTY_HISTORY := History(map[], [], [])

  function AcceptedQty(log: seq<Accepted>, id: OrderId): real {
    if log == [] then 0.0
    else AcceptedQty(log[1..], id) + if log[0].id == id then log[0].qty else 0.0
  }

  function AcceptedNotional(log: seq<Accepted>, id: OrderId): Usd {
    if log == [] then 0.0
    else AcceptedNotional(log[1..], id) + if log[0].id == id then Times(log[0].qty, log[0].price) else 0.0
  }

  /** What every reachable history satisfies. */
  ghost predicate HistoryInv(h: History) {
    && (forall id :: id in h.orders ==>
          && h.orders[id].request.id == id
          && OrderInv(h.orders[id])
          && h.orders[id].state != Created
          && h.orders[id].filledQty == AcceptedQty(h.accepted, id)
          && h.orders[id].filledNotional == AcceptedNotional(h.accepted, id))
    && (forall a :: a in h.accepted ==> a.id in h.orders)
    && (forall id :: id in h.calls ==> id in h.orders && h.orders[id].state != Validated)
    && (forall i, j :: 0 <= i < j < |h.calls| ==> h.calls[i] != h.calls[j])
  }

  lemma {:induction false} AcceptedAppend(a: seq<Accepted>, b: seq<Accepted>, id: OrderId)
    ensures AcceptedQty(a + b, id) == AcceptedQty(a, id) + AcceptedQty(b, id)
    ensures AcceptedNotional(a + b, id) == AcceptedNotional(a, id) + AcceptedNotional(b, id)
  {
    hide Times;
    if a == [] {
      assert a + b == b;
    } else {
      assert (a + b)[1..] == a[1..] + b;
      AcceptedAppend(a[1..], b, id);
    }
  }

  lemma {:induction false} AcceptedOfOthers(log: seq<Accepted>, id: OrderId)
    requires forall a :: a in log ==> a.id != id
    ensures AcceptedQty(log, id) == 0.0 && AcceptedNotional(log, id) == 0.0
  {
    hide Times;
    if log != [] {
      AcceptedOfOthers(log[1..], id);
    }
  }

  lemma {:induction false} LogIds(id: OrderId, fills: seq<Fill>)
    ensures forall a :: a in Log(id, fills) ==> a.id == id
  {
    if fills != [] {
      LogIds(id, fills[1..]);
    }
  }

  /** Booking an acknowledgement's fills keeps the order sound, adds exactly the applied ones, and
      cannot reopen a terminal order. */
  lemma {:induction false} BookImmediateKeepsOrder(o: Order, fills: seq<Fill>)
    requires OrderInv(o) && o.state != Created && o.state != Validated
    ensures var b := BookImmediate(o, fills);
      && OrderInv(b.order) && b.order.state != Created && b.order.state != Validated
      && b.order.request == o.request
      && b.order.filledQty == o.filledQty + AcceptedQty(Log(o.request.id, b.applied), o.request.id)
      && b.order.filledNotional == o.filledNotional + AcceptedNotional(Log(o.request.id, b.applied), o.request.id)
      && (IsTerminal(o.state) ==> b.order.state == o.state)
    decreases |fills|
  {
    hide Times;
    if fills != [] {
      var f := fills[0];
      if AcceptsFill(o, f.quantity) {
        BookFillKeepsOrder(o, f.quantity, f.price, f.fee);
        var o' := BookFill(o, f.quantity, f.price, f.fee);
        BookImmediateKeepsOrder(o', fills[1..]);
        var rest := BookImmediate(o', fills[1..]);
        assert ([f] + rest.applied)[1..] == rest.applied;
      } else {
        BookImmediateKeepsOrder(Transition(o, Unknown), fills[1..]);
      }
    }
  }

  lemma UpdatedOrderKeepsInv(h: History, id: OrderId, o: Order, calls: seq<OrderId>, applied: seq<Fill>)
    requires HistoryInv(h) && id in h.orders
    requires OrderInv(o) && o.request == h.orders[id].request && o.state != Created && o.state != Validated
    requires o.filledQty == h.orders[id].filledQty + AcceptedQty(Log(id, applied), id)
    requires o.filledNotional == h.orders[id].filledNotional + AcceptedNotional(Log(id, applied), id)
    requires calls == h.calls || (calls == h.calls + [id] && h.orders[id].state == Validated)
    ensures HistoryInv(History(h.orders[id := o], calls, h.accepted + Log(id, applied)))
  {
    hide Times, OrderInv, AcceptedQty, AcceptedNotional, Log;
    LogIds(id, applied);
    forall j | j in h.orders[id := o]
      ensures AcceptedQty(h.accepted + Log(id, applied), j) == h.orders[id := o][j].filledQty
      ensures AcceptedNotional(h.accepted + Log(id, applied), j) == h.orders[id := o][j].filledNotional
    {
      AcceptedAppend(h.accepted, Log(id, applied), j);
      if j != id {
        AcceptedOfOthers(Log(id, applied), j);
      }
    }
  }

  lemma SubmitKeepsInv(h: History, id: OrderId, a: Answer)
    requires HistoryInv(h)
    ensures HistoryInv(TakeStep(h, SubmitStep(id, a)))
  {
    hide Times, BookImmediate, AcceptedQty, AcceptedNotional;
    if ReachesAdapter(h.orders, id) {
      var o := Transition(h.orders[id], Submitted);
      match a {
        case Acked(fills, _) => BookImmediateKeepsOrder(Transition(o, Acknowledged), fills);
        case Refused(_) => NothingAccepted(id);
      }
      var b := AfterAnswer(o, a);
      UpdatedOrderKeepsInv(h, id, b.order, h.calls + [id], b.applied);
    } else {
      assert h.accepted + Log(id, []) == h.accepted;
    }
  }

  lemma NothingAccepted(id: OrderId)
    ensures AcceptedQty(Log(id, []), id) == 0.0 && AcceptedNotional(Log(id, []), id) == 0.0
  {
  }

  lemma StepKeepsInv(h: History, s: Step)
    requires HistoryInv(h)
    requires s.RegisterStep? ==> s.request.id !in h.orders
    ensures HistoryInv(TakeStep(h, s))
  {
    hide Times;
    match s
    case RegisterStep(r) =>
      AcceptedOfOthers(h.accepted, r.id);
    case SubmitStep(id, a) => SubmitKeepsInv(h, id, a);
    case ExternalStep(f) =>
      if AcceptsExternal(h.orders, f) {
        var o := h.orders[f.orderId];
        BookFillKeepsOrder(o, f.quantity, f.price, f.fee);
        assert [f][1..] == [];
        UpdatedOrderKeepsInv(h, f.orderId, BookFill(o, f.quantity, f.price, f.fee), h.calls, [f]);
      } else {
        assert h.accepted + Log(f.orderId, []) == h.accepted;
      }
    case CancelStep(id, a) =>
      if Cancellable(h.orders, id) {
        UpdatedOrderKeepsInv(h, id, Cancel(h.orders, id, a)[id], h.calls, []);
        assert h.accepted + Log(id, []) == h.accepted;
      }
  }

  /** Over every run with fresh ids and every behaviour of the adapter: no order is sent to the
      adapter twice, filled quantity never passes the request, an order is Filled exactly when
      nothing is left, and filled quantity and notional are the sums over the accepted fills. */
  lemma {:induction false} RunsKeepInv(steps: seq<Step>)
    requires FreshIds(EMPTY_HISTORY, steps)
    ensures HistoryInv(TakeSteps(EMPTY_HISTORY, steps))
  {
    hide HistoryInv, TakeStep;
    if steps != [] {
      RunsKeepInv(steps[..|steps| - 1]);
      StepKeepsInv(TakeSteps(EMPTY_HISTORY, steps[..|steps| - 1]), steps[|steps| - 1]);
    } else {
      EmptyHistoryInv();
    }
  }

  lemma EmptyHistoryInv()
    ensures HistoryInv(EMPTY_HISTORY)
  {
  }

  /** A step calls the adapter exactly when it submits an order that is Validated at that moment. */
  lemma AdapterSeesOnlyValidated(h: History, s: Step)
    requires HistoryInv(h)
    ensures TakeStep(h, s).calls != h.calls
      <==> s.SubmitStep? && s.id in h.orders && h.orders[s.id].state == Validated
    ensures TakeStep(h, s).calls != h.calls ==> s.id !in h.calls && TakeStep(h, s).calls == h.calls + [s.id]
  {
  }

  lemma StepKeepsTerminal(h: History, s: Step, id: OrderId)
    requires HistoryInv(h) && id in h.orders && IsTerminal(h.orders[id].state)
    requires s.RegisterStep? ==> s.request.id !in h.orders
    ensures id in TakeStep(h, s).orders && TakeStep(h, s).orders[id].state == h.orders[id].state
    ensures TakeStep(h, s).orders[id].filledQty == h.orders[id].filledQty
  {
    hide Times, AcceptedQty, AcceptedNotional;
    if s.ExternalStep? && s.fill.orderId == id && AcceptsExternal(h.orders, s.fill) {
      BookFillKeepsOrder(h.orders[id], s.fill.quantity, s.fill.price, s.fill.fee);
    }
  }

  /** Terminal states are never left, whatever follows, and what was filled stays filled. */
  lemma {:induction false} TerminalIsForever(h: History, steps: seq<Step>, id: OrderId)
    requires HistoryInv(h) && FreshIds(h, steps)
    requires id in h.orders && IsTerminal(h.orders[id].state)
    ensures var o := TakeSteps(h, steps).orders;
      id in o && o[id].state == h.orders[id].state && o[id].filledQty == h.orders[id].filledQty
    ensures HistoryInv(TakeSteps(h, steps))
  {
    hide HistoryInv, TakeStep, IsTerminal;
    if steps != [] {
      var before, s := steps[..|steps| - 1], steps[|steps| - 1];
      TerminalIsForever(h, before, id);
      StepKeepsInv(TakeSteps(h, before), s);
      StepKeepsTerminal(TakeSteps(h, before), s, id);
    }
  }

  lemma {:induction false} NotionalBetween(log: seq<Accepted>, id: OrderId, lo: real, hi: real)
    requires forall a :: a in log && a.id == id ==> lo <= a.price <= hi
    ensures Times(lo, AcceptedQty(log, id)) <= AcceptedNotional(log, id) <= Times(hi, AcceptedQty(log, id))
    ensures AcceptedQty(log, id) >= 0.0
  {
    hide Times;
    if log == [] {
      TimesZero(lo);
      TimesZero(hi);
    } else {
      NotionalBetween(log[1..], id, lo, hi);
      var a := log[0];
      TimesPlus(lo, AcceptedQty(log[1..], id), a.qty);
      TimesPlus(hi, AcceptedQty(log[1..], id), a.qty);
      TimesComm(a.qty, a.price);
      TimesMonotone(lo, a.price, a.qty);
      TimesMonotone(a.price, hi, a.qty);
    }
  }

  lemma {:induction false} NotionalInside(log: seq<Accepted>, id: OrderId)
    ensures var q, n := AcceptedQty(log, id), AcceptedNotional(log, id);
      if q == 0.0 then n == 0.0 else 0.0 < n < q
    ensures AcceptedQty(log, id) >= 0.0
  {
    hide Times;
    if log != [] {
      NotionalInside(log[1..], id);
      var a := log[0];
      TimesZero(a.price);
      TimesZero(a.qty);
      TimesSign(a.qty, a.price);
      TimesMonotone(a.price, 1.0, a.qty);
    }
  }

  /** In every reachable history an order with fills has an average fill price: a valid price, and
      within any band that holds the prices of its accepted fills. */
  lemma AvgFillPriceIsAnAverage(h: History, id: OrderId, lo: real, hi: real)
    requires HistoryInv(h) && id in h.orders
    requires forall a :: a in h.accepted && a.id == id ==> lo <= a.price <= hi
    ensures AvgFillPrice(h.orders[id]).Some? <==> h.orders[id].filledQty > 0.0
    ensures AvgFillPrice(h.orders[id]).Some? ==> lo <= AvgFillPrice(h.orders[id]).value <= hi
  {
    hide Times, Quot;
    var o := h.orders[id];
    NotionalBetween(h.accepted, id, lo, hi);
    NotionalInside(h.accepted, id);
    if o.filledQty > 0.0 {
      QuotBetween(o.filledNotional, o.filledQty, lo, hi);
      QuotBetween(o.filledNotional, o.filledQty, 0.0, 1.0);
      TimesZero(o.filledQty);
    }
  }

  // ----- refused fills

  /** The two orders differ in their state at most. */
  predicate SameButState(a: Order, b: Order) {
    a.(state := b.state) == b
  }

  /** Acceptance never looks at which state an executing order is in, so leaving the refused fills
      out of a list changes nothing but the state the order ends in. */
  lemma {:induction false} RefusalsOnlyFlag(o: Order, p: Order, fills: seq<Fill>)
    requires SameButState(o, p) && MayHaveExecuted(o.state) && MayHaveExecuted(p.state)
    ensures var b := BookImmediate(o, fills);
      var clean := BookImmediate(p, b.applied);
      clean.applied == b.applied && SameButState(b.order, clean.order) && MayHaveExecuted(b.order.state)
    decreases |fills|
  {
    hide Times;
    if fills != [] {
      var f := fills[0];
      if AcceptsFill(o, f.quantity) {
        var o' := BookFill(o, f.quantity, f.price, f.fee);
        assert o' == BookFill(p, f.quantity, f.price, f.fee);
        RefusalsOnlyFlag(o', o', fills[1..]);
        var rest := BookImmediate(o', fills[1..]);
        assert ([f] + rest.applied)[1..] == rest.applied;
      } else {
        RefusalsOnlyFlag(Transition(o, Unknown), p, fills[1..]);
      }
    }
  }

  /** The last fill of a list is booked or refused by the order the others leave behind. */
  lemma {:induction false} BookImmediateLast(o: Order, fills: seq<Fill>)
    requires fills != []
    ensures var n := |fills| - 1;
      var b, f := BookImmediate(o, fills[..n]), fills[n];
      BookImmediate(o, fills) ==
        if AcceptsFill(b.order, f.quantity)
        then Booked(BookFill(b.order, f.quantity, f.price, f.fee), b.applied + [f])
        else Booked(Transition(b.order, Unknown), b.applied)
    decreases |fills|
  {
    hide Times, AcceptsFill, BookFill, Transition;
    var n, f := |fills| - 1, fills[0];
    if n == 0 {
      assert fills[..0] == [] && fills[1..] == [];
    } else {
      assert fills[1..][..n - 1] == fills[..n][1..];
      BookImmediateLast(
        if AcceptsFill(o, f.quantity) then BookFill(o, f.quantity, f.price, f.fee) else Transition(o, Unknown),
        fills[1..]);
    }
  }

  /** What a list of fills leaves of `room`: each takes its quantity if it fits and is passed over
      if it does not. */
  function Room(room: Qty, fills: seq<Fill>): Qty
    decreases |fills|
  {
    if fills == [] then room
    else Room(if fills[0].quantity <= room then room - fills[0].quantity else room, fills[1..])
  }

  lemma {:induction false} RemainingIsRoom(o: Order, fills: seq<Fill>)
    requires MayHaveExecuted(o.state)
    ensures Remaining(BookImmediate(o, fills).order) == Room(Remaining(o), fills)
    decreases |fills|
  {
    hide Times;
    if fills != [] {
      var f := fills[0];
      RemainingIsRoom(
        if AcceptsFill(o, f.quantity) then BookFill(o, f.quantity, f.price, f.fee) else Transition(o, Unknown),
        fills[1..]);
    }
  }

  /** Whatever mix of fills an acknowledgement carries, the refused ones leave every booked amount as
      if they had not been sent. The order is left flagged for reconciliation exactly when the last
      fill asks for more than the others left and they left something: a later fill that fits, or
      completion, hides an earlier refusal. */
  lemma RefusedFillsBookNothing(h: History, id: OrderId, fills: seq<Fill>, terminal: bool)
    requires HistoryInv(h) && ReachesAdapter(h.orders, id) && fills != []
    ensures var m := Submit(h.orders, id, Acked(fills, terminal));
      var clean := Submit(h.orders, id, Acked(m.applied, terminal));
      var n := |fills| - 1;
      var left := Room(h.orders[id].request.quantity, fills[..n]);
      && clean.applied == m.applied && SameButState(m.orders[id], clean.orders[id])
      && (m.orders[id].state == Unknown <==> 0.0 < left < fills[n].quantity)
  {
    hide Times, AcceptedQty, AcceptedNotional, Room, BookFill;
    var acked, n := h.orders[id].(state := Acknowledged), |fills| - 1;
    assert acked == Transition(Transition(h.orders[id], Submitted), Acknowledged);
    RefusalsOnlyFlag(acked, acked, fills);
    RefusalsOnlyFlag(acked, acked, fills[..n]);
    BookImmediateLast(acked, fills);
    BookImmediateKeepsOrder(acked, fills[..n]);
    RemainingIsRoom(acked, fills[..n]);
    var before := BookImmediate(acked, fills[..n]).order;
    if AcceptsFill(before, fills[n].quantity) {
      BookedState(before, fills[n]);
    }
  }

  lemma BookedState(o: Order, f: Fill)
    requires AcceptsFill(o, f.quantity)
    ensures BookFill(o, f.quantity, f.price, f.fee).state != Unknown
  {
  }

  /** A run of one order, ended by `state`, in which the venue reported more fills than were accepted. */
  ghost predicate HidesRefusal(steps: seq<Step>, state: OrderState) {
    && |steps| == 2 && FreshIds(EMPTY_HISTORY, steps)
    && steps[1].SubmitStep? && steps[1].answer.Acked?
    && var h := TakeSteps(EMPTY_HISTORY, steps);
      && steps[1].id in h.orders && h.orders[steps[1].id].state == state
      && |h.accepted| < |steps[1].answer.immediate|
  }

  /** An overfill that goes unflagged because a smaller fill after it in the same acknowledgement fits. */
  lemma ALaterFillHidesAnOverfill()
    ensures exists steps :: HidesRefusal(steps, PartiallyFilled)
  {
    var over, part := Fill(1, 0, 0, Buy, 2.0, 0.5, 0.0, false), Fill(1, 0, 0, Buy, 0.5, 0.5, 0.0, false);
    TwoFills(over, part);
    RunOfOne([over, part]);
  }

  /** An overfill that goes unflagged because the order was already complete. */
  lemma CompletionHidesAnOverfill()
    ensures exists steps :: HidesRefusal(steps, OrderState.Filled)
  {
    var full := Fill(1, 0, 0, Buy, 1.0, 0.5, 0.0, false);
    TwoFills(full, full);
    RunOfOne([full, full]);
  }

  const ONE_SHARE := OrderRequest(1, 0, 0, Buy, Limit, Gtc, 1.0, 0.5, 0.5)

  /** Registering and submitting an order for one share ends in the state its fills leave. */
  lemma RunOfOne(fills: seq<Fill>)
    requires |BookImmediate(Order(ONE_SHARE, Acknowledged, 0.0, 0.0, 0.0), fills).applied| < |fills|
    ensures var state := BookImmediate(Order(ONE_SHARE, Acknowledged, 0.0, 0.0, 0.0), fills).order.state;
      exists steps :: HidesRefusal(steps, state)
  {
    hide Times, TakeSteps, FreshIds, BookImmediate;
    var register, submit := RegisterStep(ONE_SHARE), SubmitStep(1, Acked(fills, true));
    StepAfter([], register);
    StepAfter([register], submit);
    NoSteps();
    assert [] + [register] == [register];
    var b := BookImmediate(Order(ONE_SHARE, Acknowledged, 0.0, 0.0, 0.0), fills);
    LogSize(1, b.applied);
    assert HidesRefusal([register] + [submit], b.order.state);
  }

  /** Two fills of one share ordered, one of which does not fit. */
  lemma TwoFills(f: Fill, g: Fill)
    requires f.quantity > 1.0 > g.quantity > 0.0 || (f.quantity == 1.0 && g.quantity > 0.0)
    ensures var b := BookImmediate(Order(ONE_SHARE, Acknowledged, 0.0, 0.0, 0.0), [f, g]);
      && |b.applied| == 1
      && b.order.state == if f.quantity == 1.0 then OrderState.Filled else PartiallyFilled
  {
    hide Times, BookImmediate;
    var acked := Order(ONE_SHARE, Acknowledged, 0.0, 0.0, 0.0);
    BookImmediateLast(acked, [f, g]);
    BookImmediateLast(acked, [f]);
    NoFills(acked);
    assert [f, g][..1] == [f] && [f][..0] == [];
  }

  lemma NoFills(o: Order)
    ensures BookImmediate(o, []) == Booked(o, [])
  {
  }

  lemma {:induction false} LogSize(id: OrderId, fills: seq<Fill>)
    ensures |Log(id, fills)| == |fills|
  {
    if fills != [] {
      LogSize(id, fills[1..]);
    }
  }

  /** A run in which an empty fill is accepted after the order is Filled, and charges its fee. */
  lemma AFilledOrderTakesAnEmptyFill(fee: Usd)
    ensures exists steps: seq<Step> ::
      && |steps| == 3 && FreshIds(EMPTY_HISTORY, steps) && steps[2].ExternalStep?
      && var before, after := TakeSteps(EMPTY_HISTORY, steps[..2]), TakeSteps(EMPTY_HISTORY, steps);
      && 1 in before.orders && before.orders[1].state == Filled
      && after.orders == before.orders[1 := before.orders[1].(feesPaid := before.orders[1].feesPaid + fee)]
      && |after.accepted| == |before.accepted| + 1
  {
    hide Times, TakeSteps, FreshIds, BookImmediate, TakeStep;
    var r := OrderRequest(1, 0, 0, Buy, Limit, Gtc, 1.0, 0.5, 0.5);
    var full, empty := Fill(1, 0, 0, Buy, 1.0, 0.5, 0.0, false), Fill(1, 0, 0, Buy, 0.0, 0.5, fee, false);
    var register, submit, extra := RegisterStep(r), SubmitStep(1, Acked([full], true)), ExternalStep(empty);
    StepAfter([], register);
    StepAfter([register], submit);
    StepAfter([register, submit], extra);
    NoSteps();
    assert [] + [register] == [register] && [register] + [submit] == [register, submit];
    var steps := [register, submit] + [extra];
    assert steps[..2] == [register, submit];
    var h1 := TakeStep(EMPTY_HISTORY, register);
    var h2 := TakeStep(h1, submit);
    RegisterAndFill(r, full);
    EmptyFillOnFilled(h2, empty);
  }

  /** An empty fill delivered to a Filled order is accepted and logged, and only its fee is booked. */
  lemma EmptyFillOnFilled(h: History, f: Fill)
    requires f.orderId in h.orders && h.orders[f.orderId].state == Filled && OrderInv(h.orders[f.orderId])
    requires f.quantity == 0.0
    ensures var o, after := h.orders[f.orderId], TakeStep(h, ExternalStep(f));
      && after.orders == h.orders[f.orderId := o.(feesPaid := o.feesPaid + f.fee)]
      && |after.accepted| == |h.accepted| + 1
  {
    hide Times;
    TerminalTakesOnlyEmptyFills(h.orders[f.orderId], f.quantity, f.price, f.fee);
    assert [f][1..] == [] && |Log(f.orderId, [f])| == 1;
  }

  lemma NoSteps()
    ensures TakeSteps(EMPTY_HISTORY, []) == EMPTY_HISTORY && FreshIds(EMPTY_HISTORY, [])
  {
  }

  /** A fresh order whose whole quantity comes back with the acknowledgement is Filled. */
  lemma RegisterAndFill(r: OrderRequest, full: Fill)
    requires r.quantity == full.quantity > 0.0
    ensures var h := TakeStep(TakeStep(EMPTY_HISTORY, RegisterStep(r)), SubmitStep(r.id, Acked([full], true)));
      r.id in h.orders && h.orders[r.id].state == Filled && OrderInv(h.orders[r.id])
  {
    hide Times;
    assert [full][1..] == [];
    var acked := Order(r, Acknowledged, 0.0, 0.0, 0.0);
    assert BookImmediate(acked, [full]).order == BookFill(acked, full.quantity, full.price, full.fee);
  }

  lemma StepAfter(steps: seq<Step>, s: Step)
    ensures TakeSteps(EMPTY_HISTORY, steps + [s]) == TakeStep(TakeSteps(EMPTY_HISTORY, steps), s)
    ensures FreshIds(EMPTY_HISTORY, steps + [s]) <==>
      && FreshIds(EMPTY_HISTORY, steps)
      && (s.RegisterStep? ==> s.request.id !in TakeSteps(EMPTY_HISTORY, steps).orders)
  {
    assert (steps + [s])[..|steps|] == steps;
  }

  /** Freshness is needed: registering a used id forgets a completed order and its fills. */
  lemma ReusedIdForgetsFills(orders: OrderMap, r: OrderRequest)
    requires r.quantity > 0.0 && r.id in orders && orders[r.id].state == Filled && OrderInv(orders[r.id])
    ensures var m := RegisterValidated(orders, r);
      m.Some? && m.value[r.id].state == Validated && m.value[r.id].filledQty == 0.0 < orders[r.id].filledQty
  {
  }

  // ----- exposure by token

  ghost function FilledIn(orders: OrderMap, t: TokenId): map<OrderId, real> {
    map id | id in orders ::
      if orders[id].request.token == t then Signed(orders[id].request.side, orders[id].filledQty) else 0.0
  }
}
