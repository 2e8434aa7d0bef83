/** The order manager, the paper venue and the portfolio driven together: three ledgers of the same
    fills (crates/execution/src/order_manager.rs, crates/execution/src/paper.rs,
    crates/portfolio/src/lib.rs, wired in crates/app/src/tasks.rs and crates/app/src/pipeline.rs). */
module TradingSystem {
  import opened Money
  import opened MapSums
  import opened Products
  import opened Orders
  import opened OrderBooks
  import opened Matching
  import opened OrderManagement
  import opened PaperVenue
  import opened Portfolios
  import Positions

  datatype System = System(orders: OrderMap, venue: Venue, ledger: Ledger)

  datatype SystemStep =
    | Register(request: OrderRequest)
    | SubmitOrder(id: OrderId, draws: Draws)
    | NewBook(book: OrderBook, order: seq<OrderId>, hitDraws: OrderId -> Draws)
    | FetchBook(fetched: OrderBook)
    | CancelOrder(cancelled: OrderId)
    | MarkToken(token: TokenId, price: Price)

  ghost function LedgerFills(l: Ledger, fills: seq<Fill>): Ledger
    decreases |fills|
  {
    if fills == [] then l else LedgerFills(LedgerFill(l, fills[0]), fills[1..])
  }

  datatype Delivered = Delivered(orders: OrderMap, ledger: Ledger)

  /** Each fill goes to the order manager, and to the portfolio if the manager took it. */
  ghost function Deliver(orders: OrderMap, l: Ledger, fills: seq<Fill>): Delivered
    decreases |fills|
  {
    if fills == [] then Delivered(orders, l)
    else if AcceptsExternal(orders, fills[0]) then
      Deliver(ExternalFill(orders, fills[0]).orders, LedgerFill(l, fills[0]), fills[1..])
    else Deliver(orders, l, fills[1..])
  }

  ghost function SubmitTo(s: System, params: MatchParams, id: OrderId, d: Draws): System {
    if !ReachesAdapter(s.orders, id) then s
    else
      var sub := VenueSubmit(s.venue, params, s.orders[id].request, d);
      var m := Submit(s.orders, id, sub.answer);
      System(m.orders, sub.venue, LedgerFills(s.ledger, m.applied))
  }

  /** A new book marks the position, fills resting orders, and is then cached. */
  ghost function BookArrives(
    s: System, params: MatchParams, book: OrderBook, order: seq<OrderId>, draws: OrderId -> Draws): System
    requires IterationOrder(order, s.venue.resting.Keys)
  {
    var marked := if Mid(book).Some? then LedgerMark(s.ledger, book.token, Mid(book).value) else s.ledger;
    var h := BookUpdate(s.venue, params, book, order, draws);
    var d := Deliver(s.orders, marked, h.fills);
    System(d.orders, h.venue.(books := h.venue.books[book.token := book]), d.ledger)
  }

  function CancelIn(s: System, id: OrderId): System {
    if !Cancellable(s.orders, id) then s
    else
      var c := VenueCancel(s.venue, id);
      s.(orders := Cancel(s.orders, id, c.answer), venue := c.venue)
  }

  ghost predicate Legal(s: System, step: SystemStep) {
    match step
    case Register(r) => r.id !in s.orders
    case NewBook(_, order, _) => IterationOrder(order, s.venue.resting.Keys)
    case _ => true
  }

  ghost function TakeStep(s: System, params: MatchParams, step: SystemStep): System
    requires Legal(s, step)
  {
    match step
    case Register(r) =>
      var m := RegisterValidated(s.orders, r);
      if m.None? then s else s.(orders := m.value)
    case SubmitOrder(id, d) => SubmitTo(s, params, id, d)
    case NewBook(book, order, draws) => BookArrives(s, params, book, order, draws)
    case FetchBook(book) => s.(venue := s.venue.(books := s.venue.books[book.token := book]))
    case CancelOrder(id) => CancelIn(s, id)
    case MarkToken(t, p) => s.(ledger := LedgerMark(s.ledger, t, p))
  }

  /** `run` is a run of the system: it starts fresh and each state follows from the one before. */
  ghost predicate IsRun(run: seq<System>, steps: seq<SystemStep>, params: MatchParams, startingCash: Usd) {
    && |run| == |steps| + 1
    && run[0] == System(map[], EMPTY_VENUE, FreshLedger(startingCash))
    && forall i :: 0 <= i < |steps| ==> Legal(run[i], steps[i]) && run[i + 1] == TakeStep(run[i], params, steps[i])
  }

  // ----- the joint invariant

  /** Shares of an order that the venue still holds. */
  function RestingQty(v: Venue, id: OrderId): Qty {
    if id in v.resting then v.resting[id].remaining else 0.0
  }

  /** Shares filled at the venue but not yet delivered to the order manager. */
  function DueQty(due: seq<Fill>, id: OrderId): Qty {
    if due == [] then 0.0 else (if due[0].orderId == id then due[0].quantity else 0.0) + DueQty(due[1..], id)
  }

  /** What a fill does to the signed quantity of a token. */
  function Moves(f: Fill, t: TokenId): real {
    if f.token == t then SignedQty(f) else 0.0
  }

  function DueSigned(due: seq<Fill>, t: TokenId): real {
    if due == [] then 0.0 else Moves(due[0], t) + DueSigned(due[1..], t)
  }

  ghost predicate OrdersSound(orders: OrderMap) {
    forall id :: id in orders ==>
      orders[id].request.id == id && OrderInv(orders[id]) && orders[id].state != Created
  }

  predicate WorkingGtc(o: Order) {
    IsWorking(o.state) && o.request.tif == Gtc
  }

  /** Every share of a working good-til-cancelled order is filled, due, or resting. */
  ghost predicate QuantitiesAgree(orders: OrderMap, v: Venue, due: seq<Fill>) {
    forall id :: id in orders && WorkingGtc(orders[id]) ==>
      orders[id].filledQty + DueQty(due, id) + RestingQty(v, id) == orders[id].request.quantity
  }

  ghost predicate RestingSound(orders: OrderMap, v: Venue) {
    forall id :: id in v.resting ==>
      && id in orders && WorkingGtc(orders[id])
      && v.resting[id].request == orders[id].request && v.resting[id].remaining > 0.0
  }

  ghost predicate MatchesOrder(orders: OrderMap, f: Fill) {
    && f.orderId in orders && f.quantity > 0.0
    && f.token == orders[f.orderId].request.token && f.side == orders[f.orderId].request.side
  }

  ghost predicate DueSound(orders: OrderMap, due: seq<Fill>) {
    forall f :: f in due ==> MatchesOrder(orders, f) && WorkingGtc(orders[f.orderId])
  }

  ghost function FilledExposure(orders: OrderMap, t: TokenId): real {
    Sum(FilledIn(orders, t))
  }

  ghost predicate PositionsAgree(orders: OrderMap, v: Venue, l: Ledger, due: seq<Fill>) {
    forall t ::
      && PositionOf(v.positions, t) == FilledExposure(orders, t) + DueSigned(due, t)
      && NetQty(l.holdings, t) == FilledExposure(orders, t)
  }

  /** Dollars the order manager says each order has spent, before fees. */
  ghost function SpentOn(orders: OrderMap): map<OrderId, Usd> {
    map id | id in orders :: Signed(orders[id].request.side, orders[id].filledNotional)
  }

  ghost function FeesOn(orders: OrderMap): map<OrderId, Usd> {
    map id | id in orders :: orders[id].feesPaid
  }

  /** The portfolio's cash and fees are what the order manager's own amounts imply. */
  ghost predicate MoneyAgrees(orders: OrderMap, l: Ledger) {
    && l.fees == Sum(FeesOn(orders))
    && l.cash == l.startingCash - Sum(SpentOn(orders)) - Sum(FeesOn(orders))
  }

  ghost predicate Linked(orders: OrderMap, v: Venue, l: Ledger, due: seq<Fill>) {
    && OrdersSound(orders) && QuantitiesAgree(orders, v, due)
    && RestingSound(orders, v) && DueSound(orders, due)
    && PositionsAgree(orders, v, l, due) && MoneyAgrees(orders, l)
  }

  ghost predicate SystemInv(s: System) {
    Linked(s.orders, s.venue, s.ledger, []) && LedgerInv(s.ledger)
  }

  // ----- arithmetic of the shares due

  lemma {:induction false} DueAppend(due: seq<Fill>, f: Fill)
    ensures forall id :: DueQty(due + [f], id) == DueQty(due, id) + if f.orderId == id then f.quantity else 0.0
    ensures forall t :: DueSigned(due + [f], t) == DueSigned(due, t) + Moves(f, t)
  {
    if due == [] {
      assert due + [f] == [f] && [f][1..] == [];
    } else {
      assert (due + [f])[1..] == due[1..] + [f];
      DueAppend(due[1..], f);
    }
  }

  /** `o'` is `o` with one more fill booked. */
  predicate TakesFill(o: Order, o': Order, f: Fill) {
    && o'.request == o.request && o'.filledQty == o.filledQty + f.quantity
    && o'.filledNotional == o.filledNotional + FillNotional(f) && o'.feesPaid == o.feesPaid + f.fee
  }

  /** `o` has booked exactly what the order with its id has, or nothing if there is none. */
  predicate BooksNothing(orders: OrderMap, id: OrderId, o: Order) {
    if id in orders then o.(state := orders[id].state) == orders[id]
    else o.filledQty == 0.0 && o.filledNotional == 0.0 && o.feesPaid == 0.0
  }

  /** Booking a fill moves the exposure of its own token by its signed quantity, and no other. */
  lemma BookingMovesExposure(orders: OrderMap, f: Fill, o: Order)
    requires MatchesOrder(orders, f) && TakesFill(orders[f.orderId], o, f)
    ensures forall t :: FilledExposure(orders[f.orderId := o], t) == FilledExposure(orders, t) + Moves(f, t)
  {
    forall t
      ensures FilledExposure(orders[f.orderId := o], t)
        == FilledExposure(orders, t) + Moves(f, t)
    {
      var v := if o.request.token == t then Signed(o.request.side, o.filledQty) else 0.0;
      assert FilledIn(orders[f.orderId := o], t) == FilledIn(orders, t)[f.orderId := v];
      SumUpdate(FilledIn(orders, t), f.orderId, v);
    }
  }

  lemma SameFillsSameExposure(orders: OrderMap, id: OrderId, o: Order)
    requires BooksNothing(orders, id, o)
    ensures forall t :: FilledExposure(orders[id := o], t) == FilledExposure(orders, t)
  {
    forall t
      ensures FilledExposure(orders[id := o], t) == FilledExposure(orders, t)
    {
      var v := if o.request.token == t then Signed(o.request.side, o.filledQty) else 0.0;
      assert FilledIn(orders[id := o], t) == FilledIn(orders, t)[id := v];
      SumUpdate(FilledIn(orders, t), id, v);
    }
  }

  /** Booking one fill on both sides moves cash and fees by the same amounts on both. */
  lemma BookingMovesMoney(orders: OrderMap, l: Ledger, f: Fill, o: Order)
    requires MatchesOrder(orders, f) && TakesFill(orders[f.orderId], o, f)
    ensures MoneyAgrees(orders, l) ==> MoneyAgrees(orders[f.orderId := o], LedgerFill(l, f))
  {
    hide Times, Positions.ApplyFill;
    var spent := Signed(o.request.side, o.filledNotional);
    assert SpentOn(orders[f.orderId := o]) == SpentOn(orders)[f.orderId := spent];
    assert FeesOn(orders[f.orderId := o]) == FeesOn(orders)[f.orderId := o.feesPaid];
    SumUpdate(SpentOn(orders), f.orderId, spent);
    SumUpdate(FeesOn(orders), f.orderId, o.feesPaid);
  }

  lemma SameFillsSameMoney(orders: OrderMap, l: Ledger, id: OrderId, o: Order)
    requires MoneyAgrees(orders, l) && BooksNothing(orders, id, o)
    ensures MoneyAgrees(orders[id := o], l)
  {
    var spent := Signed(o.request.side, o.filledNotional);
    assert SpentOn(orders[id := o]) == SpentOn(orders)[id := spent];
    assert FeesOn(orders[id := o]) == FeesOn(orders)[id := o.feesPaid];
    SumUpdate(SpentOn(orders), id, spent);
    SumUpdate(FeesOn(orders), id, o.feesPaid);
  }

  lemma LedgerFillMovesNet(l: Ledger, f: Fill)
    ensures forall t :: NetQty(LedgerFill(l, f).holdings, t) == NetQty(l.holdings, t) + Moves(f, t)
  {
  }

  lemma MarkKeepsNet(l: Ledger, t: TokenId, price: Price)
    ensures forall u :: NetQty(LedgerMark(l, t, price).holdings, u) == NetQty(l.holdings, u)
    ensures var l' := LedgerMark(l, t, price);
      l'.cash == l.cash && l'.fees == l.fees && l'.startingCash == l.startingCash
  {
  }

  // ----- the venue fills resting orders

  lemma HitOneKeepsLink(orders: OrderMap, v: Venue, l: Ledger, due: seq<Fill>,
                        params: MatchParams, c: Candidate, book: OrderBook, d: Draws)
    requires Linked(orders, v, l, due) && c.id in v.resting && v.resting[c.id] == c.order
    ensures var h := HitOne(v, params, c, book, d);
      && Linked(orders, h.venue, l, due + h.fills)
      && forall id :: id != c.id && id in v.resting ==> id in h.venue.resting && h.venue.resting[id] == v.resting[id]
  {
    hide MatchOrder, IsMarketable, OrderInv, FilledExposure, SignedQty, PositionsAgree, AvailableWithin, MoneyAgrees;
    var h := HitOne(v, params, c, book, d);
    var probe := c.order.request.(quantity := c.order.remaining);
    FillStaysWithinOrderAndBook(probe, book, params, d);
    if h.fills == [] {
      assert due + h.fills == due;
    } else {
      var f := h.fills[0];
      assert h.fills == [f];
      DueAppend(due, f);
      RecordingDueKeepsPositions(orders, v, h.venue, l, due, f);
    }
  }

  lemma RecordingDueKeepsPositions(orders: OrderMap, v: Venue, v': Venue, l: Ledger, due: seq<Fill>, f: Fill)
    requires PositionsAgree(orders, v, l, due) && v'.positions == Recorded(v.positions, f)
    ensures PositionsAgree(orders, v', l, due + [f])
  {
    hide FilledExposure, SignedQty;
    DueAppend(due, f);
  }

  ghost predicate CurrentCandidates(v: Venue, cs: seq<Candidate>) {
    && (forall c :: c in cs ==> c.id in v.resting && v.resting[c.id] == c.order)
    && (forall i, j :: 0 <= i < j < |cs| ==> cs[i].id != cs[j].id)
  }

  lemma {:induction false} HitAllKeepsLink(
    orders: OrderMap, v: Venue, l: Ledger,
    params: MatchParams, cs: seq<Candidate>, book: OrderBook, draws: OrderId -> Draws)
    requires Linked(orders, v, l, []) && CurrentCandidates(v, cs)
    ensures var h := HitAll(v, params, cs, book, draws);
      && Linked(orders, h.venue, l, h.fills)
      && forall id :: id in v.resting && (forall c :: c in cs ==> c.id != id) ==>
           id in h.venue.resting && h.venue.resting[id] == v.resting[id]
  {
    hide Linked, HitOne;
    if cs != [] {
      var n := |cs| - 1;
      HitAllKeepsLink(orders, v, l, params, cs[..n], book, draws);
      var h := HitAll(v, params, cs[..n], book, draws);
      assert cs[n] in cs;
      assert forall c :: c in cs[..n] ==> c.id != cs[n].id;
      HitOneKeepsLink(orders, h.venue, l, h.fills, params, cs[n], book, draws(cs[n].id));
      assert forall c :: c in cs[..n] ==> c in cs;
    }
  }

  lemma CandidatesAreCurrent(v: Venue, t: TokenId, order: seq<OrderId>)
    requires forall id :: id in order ==> id in v.resting
    requires forall i, j :: 0 <= i < j < |order| ==> order[i] != order[j]
    ensures var cs := Candidates(v.resting, t, order);
      CurrentCandidates(v, cs) && forall c :: c in cs ==> c.id in order
  {
    CandidatesExactly(v.resting, t, order);
  }

  /** In a reachable system every resting order is filed under its own id, so a book update examines each. */
  lemma BooksExamineEveryRestingOrder(
    run: seq<System>, steps: seq<SystemStep>, params: MatchParams, startingCash: Usd, i: nat, id: OrderId)
    requires IsRun(run, steps, params, startingCash) && i < |steps| && steps[i].NewBook?
    requires id in run[i].venue.resting
    ensures var v, step := run[i].venue, steps[i];
      Examined(v, BookUpdate(v, params, step.book, step.order, step.hitDraws), step.book, params, id, step.hitDraws(id))
  {
    hide LedgerInv, FilledExposure, OrderInv, Examined, BookUpdate;
    RunsKeepSystemInv(run, steps, params, startingCash, i);
    BookUpdateExaminesEveryOrder(run[i].venue, params, steps[i].book, steps[i].order, steps[i].hitDraws, id);
  }

  // ----- the fills reach the order manager and the portfolio

  /** Every fill is taken when its turn comes. */
  ghost predicate AllTaken(orders: OrderMap, fills: seq<Fill>) {
    fills == [] ||
    (AcceptsExternal(orders, fills[0]) && AllTaken(ExternalFill(orders, fills[0]).orders, fills[1..]))
  }

  lemma {:induction false} DueIncludes(due: seq<Fill>, f: Fill)
    requires f in due
    ensures DueQty(due, f.orderId) >= f.quantity
  {
    if due[0] != f {
      DueIncludes(due[1..], f);
    }
  }

  /** The order of the fill that is next can take it, and what else is due still matches its order. */
  lemma DeliverOneKeepsDue(orders: OrderMap, v: Venue, due: seq<Fill>)
    requires OrdersSound(orders) && QuantitiesAgree(orders, v, due) && DueSound(orders, due)
    requires due != []
    ensures AcceptsExternal(orders, due[0])
    ensures MatchesOrder(orders, due[0]) && WorkingGtc(orders[due[0].orderId])
    ensures DueSound(ExternalFill(orders, due[0]).orders, due[1..])
  {
    hide Times;
    var f := due[0];
    assert f in due;
    var o := orders[f.orderId];
    var orders' := orders[f.orderId := BookFill(o, f.quantity, f.price, f.fee)];
    forall g | g in due[1..]
      ensures MatchesOrder(orders', g) && WorkingGtc(orders'[g.orderId])
    {
      assert g in due;
      DueIncludes(due[1..], g);
    }
  }

  lemma DeliverOneKeepsOrders(orders: OrderMap, v: Venue, due: seq<Fill>)
    requires OrdersSound(orders) && QuantitiesAgree(orders, v, due) && RestingSound(orders, v) && DueSound(orders, due)
    requires due != []
    ensures AcceptsExternal(orders, due[0])
    ensures var after := ExternalFill(orders, due[0]).orders;
      && OrdersSound(after) && QuantitiesAgree(after, v, due[1..])
      && RestingSound(after, v) && DueSound(after, due[1..])
  {
    hide Times, DueSound;
    DeliverOneKeepsDue(orders, v, due);
    var f := due[0];
    BookFillKeepsOrder(orders[f.orderId], f.quantity, f.price, f.fee);
  }

  lemma DeliverOneKeepsLink(orders: OrderMap, v: Venue, l: Ledger, due: seq<Fill>)
    requires Linked(orders, v, l, due) && due != []
    ensures AcceptsExternal(orders, due[0])
    ensures Linked(ExternalFill(orders, due[0]).orders, v, LedgerFill(l, due[0]), due[1..])
  {
    hide FilledExposure, SignedQty, LedgerFill, OrdersSound, QuantitiesAgree, RestingSound, MoneyAgrees, Times;
    DeliverOneKeepsOrders(orders, v, due);
    var f := due[0];
    assert f in due;
    var booked := BookFill(orders[f.orderId], f.quantity, f.price, f.fee);
    LedgerFillMovesNet(l, f);
    BookingMovesExposure(orders, f, booked);
    BookingMovesMoney(orders, l, f, booked);
  }

  lemma {:induction false} DeliverKeepsLink(orders: OrderMap, v: Venue, l: Ledger, due: seq<Fill>)
    requires Linked(orders, v, l, due) && LedgerInv(l)
    ensures AllTaken(orders, due)
    ensures var d := Deliver(orders, l, due);
      Linked(d.orders, v, d.ledger, []) && LedgerInv(d.ledger)
    decreases |due|
  {
    hide Linked, LedgerInv, LedgerFill, AcceptsExternal, ExternalFill;
    if due != [] {
      DeliverOneKeepsLink(orders, v, l, due);
      FillKeepsInv(l, due[0]);
      DeliverKeepsLink(ExternalFill(orders, due[0]).orders, v, LedgerFill(l, due[0]), due[1..]);
    } else {
      assert due == [];
    }
  }

  lemma MarkKeepsLink(orders: OrderMap, v: Venue, l: Ledger, t: TokenId, price: Price)
    requires Linked(orders, v, l, []) && LedgerInv(l)
    ensures Linked(orders, v, LedgerMark(l, t, price), []) && LedgerInv(LedgerMark(l, t, price))
  {
    hide LedgerInv, LedgerMark, FilledExposure;
    MarkKeepsNet(l, t, price);
    MarkKeepsInv(l, t, price);
  }

  lemma LinkIgnoresBooks(orders: OrderMap, v: Venue, v': Venue, l: Ledger)
    requires Linked(orders, v, l, []) && v'.resting == v.resting && v'.positions == v.positions
    ensures Linked(orders, v', l, [])
  {
    hide FilledExposure;
  }

  lemma NewBookKeepsInv(s: System, params: MatchParams, book: OrderBook, order: seq<OrderId>, draws: OrderId -> Draws)
    requires SystemInv(s) && IterationOrder(order, s.venue.resting.Keys)
    ensures SystemInv(BookArrives(s, params, book, order, draws))
    ensures AllTaken(s.orders, BookUpdate(s.venue, params, book, order, draws).fills)
  {
    hide Linked, LedgerInv, LedgerMark, HitAll, AllTaken, Deliver, CurrentCandidates, Candidates;
    var marked := if Mid(book).Some? then LedgerMark(s.ledger, book.token, Mid(book).value) else s.ledger;
    if Mid(book).Some? {
      MarkKeepsLink(s.orders, s.venue, s.ledger, book.token, Mid(book).value);
    }
    var cs := Candidates(s.venue.resting, book.token, order);
    CandidatesAreCurrent(s.venue, book.token, order);
    HitAllKeepsLink(s.orders, s.venue, marked, params, cs, book, draws);
    var h := HitAll(s.venue, params, cs, book, draws);
    DeliverKeepsLink(s.orders, h.venue, marked, h.fills);
    var s' := BookArrives(s, params, book, order, draws);
    LinkIgnoresBooks(s'.orders, h.venue, s'.venue, s'.ledger);
  }

  /** A book that arrives or is fetched is the one the next submission on its token meets, and the books
      of other tokens stay. */
  lemma NewestBookIsCached(s: System, params: MatchParams, step: SystemStep, t: TokenId)
    requires SystemInv(s) && Legal(s, step) && (step.NewBook? || step.FetchBook?)
    ensures var book := if step.NewBook? then step.book else step.fetched;
      var after := TakeStep(s, params, step).venue.books;
      if t == book.token then t in after && after[t] == book
      else (t in after <==> t in s.venue.books) && (t in after ==> after[t] == s.venue.books[t])
  {
    hide LedgerInv, HitAll, Candidates, Deliver, LedgerMark, BookUpdate, OrderInv, FilledExposure;
    match step
    case NewBook(book, order, draws) => BookUpdateKeepsBooks(s.venue, params, book, order, draws);
    case FetchBook(_) =>
  }

  lemma BookUpdateKeepsBooks(v: Venue, params: MatchParams, book: OrderBook,
                             order: seq<OrderId>, draws: OrderId -> Draws)
    requires IterationOrder(order, v.resting.Keys)
    ensures BookUpdate(v, params, book, order, draws).venue.books == v.books
  {
    hide HitOne;
    HitsKeepBooks(v, params, Candidates(v.resting, book.token, order), book, draws);
  }

  lemma {:induction false} HitsKeepBooks(
    v: Venue, params: MatchParams, cs: seq<Candidate>, book: OrderBook, draws: OrderId -> Draws)
    ensures HitAll(v, params, cs, book, draws).venue.books == v.books
  {
    hide MatchOrder, IsMarketable, Recorded;
    if cs != [] {
      HitsKeepBooks(v, params, cs[..|cs| - 1], book, draws);
    }
  }

  // ----- the other steps

  lemma RegisterKeepsInv(s: System, params: MatchParams, r: OrderRequest)
    requires SystemInv(s) && r.id !in s.orders
    ensures SystemInv(TakeStep(s, params, Register(r)))
  {
    hide LedgerInv, FilledExposure, MoneyAgrees;
    if r.quantity != 0.0 {
      SameFillsSameExposure(s.orders, r.id, Transition(NewOrder(r).value, Validated));
      SameFillsSameMoney(s.orders, s.ledger, r.id, Transition(NewOrder(r).value, Validated));
    }
  }

  /** `v'` holds the shares of `o` that are still working, if any, and nothing else changed. */
  ghost predicate HoldsRest(v: Venue, v': Venue, id: OrderId, o: Order) {
    if WorkingGtc(o) then
      var rest := o.request.quantity - o.filledQty;
      rest > 0.0 && v'.resting == v.resting[id := RestingOrder(o.request, rest)]
    else v'.resting == v.resting
  }

  lemma AdvancedOrderKeepsLink(orders: OrderMap, v: Venue, v': Venue, l: Ledger, id: OrderId, o: Order)
    requires Linked(orders, v, l, []) && id in orders && id !in v.resting
    requires BooksNothing(orders, id, o)
    requires OrderInv(o) && o.state != Created && HoldsRest(v, v', id, o) && v'.positions == v.positions
    ensures Linked(orders[id := o], v', l, [])
  {
    hide FilledExposure, OrderInv, MoneyAgrees;
    SameFillsSameExposure(orders, id, o);
    SameFillsSameMoney(orders, l, id, o);
  }

  lemma FilledOrderKeepsLink(orders: OrderMap, v: Venue, v': Venue, l: Ledger, f: Fill, o: Order)
    requires Linked(orders, v, l, []) && MatchesOrder(orders, f) && f.orderId !in v.resting
    requires TakesFill(orders[f.orderId], o, f)
    requires OrderInv(o) && o.state != Created && HoldsRest(v, v', f.orderId, o)
    requires v'.positions == Recorded(v.positions, f)
    ensures Linked(orders[f.orderId := o], v', LedgerFill(l, f), [])
  {
    hide FilledExposure, OrderInv, LedgerFill, SignedQty, MoneyAgrees, FillNotional;
    BookingMovesExposure(orders, f, o);
    BookingMovesMoney(orders, l, f, o);
    LedgerFillMovesNet(l, f);
  }

  /** The order a fresh acknowledgement with one fill leaves behind. */
  lemma SubmitFilled(orders: OrderMap, id: OrderId, f: Fill, terminal: bool)
    requires OrdersSound(orders) && ReachesAdapter(orders, id) && 0.0 < f.quantity <= orders[id].request.quantity
    ensures var m := Submit(orders, id, Acked([f], terminal));
      && m.applied == [f] && m.orders == orders[id := m.orders[id]]
      && OrderInv(m.orders[id]) && TakesFill(orders[id], m.orders[id], f)
      && m.orders[id].filledQty == f.quantity
      && m.orders[id].state == if f.quantity == orders[id].request.quantity then OrderState.Filled else PartiallyFilled
  {
    assert [f][1..] == [];
    var acked := Transition(Transition(orders[id], Submitted), Acknowledged);
    BookFillKeepsOrder(acked, f.quantity, f.price, f.fee);
    assert BookImmediate(acked, [f]).applied == [f];
  }

  /** The three ways a paper submission ends: nothing changed, everything rests, or one fill with
      whatever a good-til-cancelled order has left resting. */
  lemma PaperSubmissionCases(v: Venue, params: MatchParams, r: OrderRequest, d: Draws)
    ensures var a, matched := VenueSubmit(v, params, r, d).answer,
      if r.token in v.books then MatchOrder(r, v.books[r.token], params, d) else NoLiquidity;
      && (a.Acked? && a.immediate != [] <==> matched.Filled?)
      && (a.Acked? && a.immediate == [] <==> matched.Resting?)
      && (matched.Filled? ==>
        matched == SimOutcome.Filled(a.immediate[0].quantity, a.immediate[0].price, a.immediate[0].fee))
    ensures var sub := VenueSubmit(v, params, r, d);
      match sub.answer {
        case Refused(ambiguous) => !ambiguous && sub.venue == v
        case Acked(fills, terminal) =>
          && (terminal <==> r.tif != Gtc || (fills != [] && fills[0].quantity == r.quantity))
          && sub.venue.seqNo == v.seqNo + 1 && sub.venue.books == v.books
          && if fills == [] then
            && r.tif == Gtc && sub.venue.positions == v.positions
            && sub.venue.resting == v.resting[r.id := RestingOrder(r, r.quantity)]
          else
            var f := fills[0];
            && fills == [f] && f.orderId == r.id && f.token == r.token && f.side == r.side && f.market == r.market
            && 0.0 < f.quantity <= r.quantity && AtLeastAsGood(r.side, f.price, r.limitPrice)
            && sub.venue.positions == Recorded(v.positions, f)
            && sub.venue.resting ==
                 if r.tif == Gtc && f.quantity < r.quantity
                 then v.resting[r.id := RestingOrder(r, r.quantity - f.quantity)] else v.resting
      }
  {
    hide MatchOrder, Recorded, IsMarketable, AvailableWithin;
    if r.token in v.books {
      FillStaysWithinOrderAndBook(r, v.books[r.token], params, d);
      OnlyGtcRests(r, v.books[r.token], params, d);
    }
  }

  lemma FilledSubmissionKeepsInv(s: System, id: OrderId, v: Venue, f: Fill, terminal: bool)
    requires SystemInv(s) && ReachesAdapter(s.orders, id)
    requires MatchesOrder(s.orders, f) && f.orderId == id && f.quantity <= s.orders[id].request.quantity
    requires v.positions == Recorded(s.venue.positions, f)
    requires v.resting == if s.orders[id].request.tif == Gtc && f.quantity < s.orders[id].request.quantity
      then s.venue.resting[id := RestingOrder(s.orders[id].request, s.orders[id].request.quantity - f.quantity)]
      else s.venue.resting
    ensures var m := Submit(s.orders, id, Acked([f], terminal));
      m.applied == [f] && SystemInv(System(m.orders, v, LedgerFill(s.ledger, f)))
  {
    hide LedgerInv, LedgerFill, Recorded, Submit, Linked, OrderInv;
    SoundParts(s.orders, s.venue, s.ledger, id);
    SubmitFilled(s.orders, id, f, terminal);
    FillKeepsInv(s.ledger, f);
    FilledOrderKeepsLink(s.orders, s.venue, v, s.ledger, f, Submit(s.orders, id, Acked([f], terminal)).orders[id]);
  }

  lemma UnfilledSubmissionKeepsInv(s: System, id: OrderId, v: Venue, a: Answer)
    requires SystemInv(s) && ReachesAdapter(s.orders, id)
    requires (a.Acked? ==> a.immediate == []) && v.positions == s.venue.positions
    requires if a.Acked?
      then s.orders[id].request.tif == Gtc &&
        v.resting == s.venue.resting[id := RestingOrder(s.orders[id].request, s.orders[id].request.quantity)]
      else v.resting == s.venue.resting
    ensures SystemInv(System(Submit(s.orders, id, a).orders, v, s.ledger))
  {
    hide LedgerInv, Submit, Linked, OrderInv;
    SoundParts(s.orders, s.venue, s.ledger, id);
    SubmitUnfilled(s.orders, id, a);
    AdvancedOrderKeepsLink(s.orders, s.venue, v, s.ledger, id, Submit(s.orders, id, a).orders[id]);
  }

  lemma SubmitKeepsInv(s: System, params: MatchParams, id: OrderId, d: Draws)
    requires SystemInv(s)
    ensures SystemInv(SubmitTo(s, params, id, d))
    ensures ReachesAdapter(s.orders, id) ==>
      var sub := VenueSubmit(s.venue, params, s.orders[id].request, d);
      sub.answer.Acked? ==> Submit(s.orders, id, sub.answer).applied == sub.answer.immediate
  {
    hide SystemInv, LedgerFill, LedgerFills, Recorded, Submit, VenueSubmit;
    if ReachesAdapter(s.orders, id) {
      SystemSoundParts(s, id);
      var sub := VenueSubmit(s.venue, params, s.orders[id].request, d);
      PaperSubmissionCases(s.venue, params, s.orders[id].request, d);
      if sub.answer.Acked? && sub.answer.immediate != [] {
        var f := sub.answer.immediate[0];
        FilledSubmissionKeepsInv(s, id, sub.venue, f, sub.answer.terminal);
        LedgerTakesOne(s.ledger, f);
      } else {
        UnfilledSubmissionKeepsInv(s, id, sub.venue, sub.answer);
        SystemSubmitUnfilled(s, id, sub.answer);
        LedgerTakesNone(s.ledger);
      }
    }
  }

  lemma SystemSoundParts(s: System, id: OrderId)
    requires SystemInv(s) && ReachesAdapter(s.orders, id)
    ensures s.orders[id].request.id == id && s.orders[id].request.quantity > 0.0
  {
  }

  lemma SystemSubmitUnfilled(s: System, id: OrderId, a: Answer)
    requires SystemInv(s) && ReachesAdapter(s.orders, id) && (a.Acked? ==> a.immediate == [])
    ensures Submit(s.orders, id, a).applied == []
  {
  }

  lemma LedgerTakesOne(l: Ledger, f: Fill)
    ensures LedgerFills(l, [f]) == LedgerFill(l, f)
  {
    hide LedgerFill;
    assert [f][1..] == [];
    LedgerTakesNone(LedgerFill(l, f));
  }

  lemma LedgerTakesNone(l: Ledger)
    ensures LedgerFills(l, []) == l
  {
  }

  lemma SoundParts(orders: OrderMap, v: Venue, l: Ledger, id: OrderId)
    requires Linked(orders, v, l, []) && ReachesAdapter(orders, id)
    ensures OrdersSound(orders) && id !in v.resting && orders[id].request.id == id && orders[id].request.quantity > 0.0
  {
  }

  lemma SubmitUnfilled(orders: OrderMap, id: OrderId, a: Answer)
    requires OrdersSound(orders) && ReachesAdapter(orders, id) && (a.Acked? ==> a.immediate == [])
    ensures var m := Submit(orders, id, a);
      && m.applied == [] && m.orders == orders[id := m.orders[id]]
      && m.orders[id] == orders[id].(state := m.orders[id].state)
      && OrderInv(m.orders[id]) && orders[id].filledQty == 0.0
      && m.orders[id].state ==
           if a.Acked? then Acknowledged
           else if a.requiresReconciliation then Unknown else OrderState.Rejected
  {
  }

  lemma CancelKeepsInv(s: System, id: OrderId)
    requires SystemInv(s)
    ensures SystemInv(CancelIn(s, id))
  {
    hide LedgerInv, FilledExposure, OrderInv, NetQty, MoneyAgrees;
    if Cancellable(s.orders, id) {
      CancelKeepsOrder(s, id);
      SameFillsSameExposure(s.orders, id, CancelIn(s, id).orders[id]);
      SameFillsSameMoney(s.orders, s.ledger, id, CancelIn(s, id).orders[id]);
    }
  }

  lemma CancelKeepsOrder(s: System, id: OrderId)
    requires OrdersSound(s.orders) && Cancellable(s.orders, id)
    ensures OrderInv(CancelIn(s, id).orders[id])
  {
  }

  lemma StepKeepsInv(s: System, params: MatchParams, step: SystemStep)
    requires SystemInv(s) && Legal(s, step)
    ensures SystemInv(TakeStep(s, params, step))
  {
    hide LedgerInv, FilledExposure, LedgerMark, BookArrives, SubmitTo, CancelIn;
    match step
    case Register(r) => RegisterKeepsInv(s, params, r);
    case SubmitOrder(id, d) => SubmitKeepsInv(s, params, id, d);
    case NewBook(book, order, draws) => NewBookKeepsInv(s, params, book, order, draws);
    case FetchBook(_) =>
    case CancelOrder(id) => CancelKeepsInv(s, id);
    case MarkToken(t, p) =>
      MarkKeepsNet(s.ledger, t, p);
      MarkKeepsInv(s.ledger, t, p);
  }

  lemma FreshSystemInv(startingCash: Usd)
    ensures SystemInv(System(map[], EMPTY_VENUE, FreshLedger(startingCash)))
  {
    Portfolios.RunsKeepInv(startingCash, []);
    forall t
      ensures FilledExposure(map[], t) == 0.0
    {
      SumAllZero(FilledIn(map[], t));
    }
    SumAllZero(SpentOn(map[]));
    SumAllZero(FeesOn(map[]));
  }

  /** The joint invariant holds at every point of every run. */
  lemma {:induction false} RunsKeepSystemInv(
    run: seq<System>, steps: seq<SystemStep>, params: MatchParams, startingCash: Usd, i: nat)
    requires IsRun(run, steps, params, startingCash) && i <= |steps|
    ensures SystemInv(run[i])
  {
    hide SystemInv, TakeStep, Legal;
    if i == 0 {
      FreshSystemInv(startingCash);
    } else {
      RunsKeepSystemInv(run, steps, params, startingCash, i - 1);
      StepKeepsInv(run[i - 1], params, steps[i - 1]);
    }
  }

  lemma {:induction false} BookingKeepsStartingCash(l: Ledger, fills: seq<Fill>)
    ensures LedgerFills(l, fills).startingCash == l.startingCash
    decreases |fills|
  {
    if fills != [] {
      BookingKeepsStartingCash(LedgerFill(l, fills[0]), fills[1..]);
    }
  }

  lemma {:induction false} DeliveryKeepsStartingCash(orders: OrderMap, l: Ledger, fills: seq<Fill>)
    ensures Deliver(orders, l, fills).ledger.startingCash == l.startingCash
    decreases |fills|
  {
    hide AcceptsExternal, ExternalFill;
    if fills != [] {
      if AcceptsExternal(orders, fills[0]) {
        DeliveryKeepsStartingCash(ExternalFill(orders, fills[0]).orders, LedgerFill(l, fills[0]), fills[1..]);
      } else {
        DeliveryKeepsStartingCash(orders, l, fills[1..]);
      }
    }
  }

  lemma StepKeepsStartingCash(s: System, params: MatchParams, step: SystemStep)
    requires Legal(s, step)
    ensures TakeStep(s, params, step).ledger.startingCash == s.ledger.startingCash
  {
    hide LedgerFill, LedgerFills, Deliver, BookUpdate, VenueSubmit, Submit, LedgerMark;
    match step
    case SubmitOrder(id, d) =>
      if ReachesAdapter(s.orders, id) {
        var sub := VenueSubmit(s.venue, params, s.orders[id].request, d);
        BookingKeepsStartingCash(s.ledger, Submit(s.orders, id, sub.answer).applied);
      }
    case NewBook(book, order, draws) =>
      var marked := if Mid(book).Some? then LedgerMark(s.ledger, book.token, Mid(book).value) else s.ledger;
      if Mid(book).Some? {
        MarkKeepsNet(s.ledger, book.token, Mid(book).value);
      }
      DeliveryKeepsStartingCash(s.orders, marked, BookUpdate(s.venue, params, book, order, draws).fills);
    case MarkToken(t, p) => MarkKeepsNet(s.ledger, t, p);
    case _ =>
  }

  lemma {:induction false} RunsKeepStartingCash(
    run: seq<System>, steps: seq<SystemStep>, params: MatchParams, startingCash: Usd, i: nat)
    requires IsRun(run, steps, params, startingCash) && i <= |steps|
    ensures run[i].ledger.startingCash == startingCash
  {
    hide TakeStep, Legal;
    if i > 0 {
      RunsKeepStartingCash(run, steps, params, startingCash, i - 1);
      StepKeepsStartingCash(run[i - 1], params, steps[i - 1]);
    }
  }

  /** At every point of every run, each resting order's filled and resting shares add up to its
      request and it is working at the order manager; a working order rests exactly when it is
      good-til-cancelled; per token the venue position, the order manager's filled exposure and the
      portfolio's net quantity are equal; and the portfolio's fees and cash are, to the cent, what the
      order manager's filled notionals and fees add up to. */
  lemma ThreeLedgersAgree(
    run: seq<System>, steps: seq<SystemStep>, params: MatchParams, startingCash: Usd, i: nat)
    requires IsRun(run, steps, params, startingCash) && i <= |steps|
    ensures var s := run[i];
      && (forall id :: id in s.venue.resting ==>
            && id in s.orders && IsWorking(s.orders[id].state)
            && s.venue.resting[id].remaining > 0.0
            && s.orders[id].filledQty + s.venue.resting[id].remaining == s.orders[id].request.quantity)
      && (forall id :: id in s.orders && IsWorking(s.orders[id].state) ==>
            (id in s.venue.resting <==> s.orders[id].request.tif == Gtc))
      && (forall t :: PositionOf(s.venue.positions, t) == FilledExposure(s.orders, t) == NetQty(s.ledger.holdings, t))
      && s.ledger.fees == Sum(FeesOn(s.orders))
      && s.ledger.cash == startingCash - Sum(SpentOn(s.orders)) - Sum(FeesOn(s.orders))
  {
    hide LedgerInv, FilledExposure;
    RunsKeepSystemInv(run, steps, params, startingCash, i);
    RunsKeepStartingCash(run, steps, params, startingCash, i);
  }

  /** The order manager refuses no fill of the paper venue, on any step of any run. */
  lemma NoPaperFillIsRefused(
    run: seq<System>, steps: seq<SystemStep>, params: MatchParams, startingCash: Usd, i: nat)
    requires IsRun(run, steps, params, startingCash) && i < |steps|
    ensures steps[i].NewBook? ==>
      AllTaken(run[i].orders, BookUpdate(run[i].venue, params, steps[i].book, steps[i].order, steps[i].hitDraws).fills)
    ensures steps[i].SubmitOrder? && ReachesAdapter(run[i].orders, steps[i].id) ==>
      var sub := VenueSubmit(run[i].venue, params, run[i].orders[steps[i].id].request, steps[i].draws);
      sub.answer.Acked? ==> Submit(run[i].orders, steps[i].id, sub.answer).applied == sub.answer.immediate
  {
    hide SystemInv, AllTaken, BookUpdate, VenueSubmit, Submit;
    RunsKeepSystemInv(run, steps, params, startingCash, i);
    match steps[i]
    case NewBook(book, order, draws) => NewBookKeepsInv(run[i], params, book, order, draws);
    case SubmitOrder(id, d) => SubmitKeepsInv(run[i], params, id, d);
    case _ =>
  }

  // ----- immediate orders left open

  /** After a submission an immediate order, which can never be filled again, is still open exactly
      when partial fills are on, the venue filled some of it, and either the book was too short (never
      for fill-or-kill) or the queue draw shortened the fill. It is then partly filled and nothing
      rests. */
  lemma ImmediateOrderStaysOpenExactly(s: System, params: MatchParams, id: OrderId, d: Draws)
    requires SystemInv(s) && ReachesAdapter(s.orders, id) && s.orders[id].request.tif != Gtc
    ensures var r, after := s.orders[id].request, SubmitTo(s, params, id, d);
      var reachable :=
        if r.token in s.venue.books then Min(r.quantity, AvailableWithin(r, s.venue.books[r.token])) else 0.0;
      && (IsOpen(after.orders[id].state) <==>
            && r.token in s.venue.books && IsMarketable(r, s.venue.books[r.token])
            && d.reject >= params.rejectProbability && params.partialFillEnabled
            && reachable > 0.0
            && (reachable == r.quantity || r.tif == Ioc)
            && (reachable < r.quantity || d.queue > params.fillProbability))
      && (IsOpen(after.orders[id].state) ==> after.orders[id].state == PartiallyFilled && id !in after.venue.resting)
      && after.orders[id].request == r
  {
    hide Times, MatchOrder, IsMarketable, AvailableWithin, Recorded, Submit, LedgerFills, Linked, LedgerInv, OrderInv;
    var r := s.orders[id].request;
    var sub := VenueSubmit(s.venue, params, r, d);
    SoundParts(s.orders, s.venue, s.ledger, id);
    PaperSubmissionCases(s.venue, params, r, d);
    if r.token in s.venue.books {
      var book := s.venue.books[r.token];
      var reachable := Min(r.quantity, AvailableWithin(r, book));
      UnmatchedOrders(r, book, params, d);
      if d.reject >= params.rejectProbability && IsMarketable(r, book) {
        FillQuantityExactly(r, book, params, d);
        if reachable > 0.0 {
          TimesShrinks(reachable, 0.8);
          TimesComm(reachable, 0.8);
        }
      }
    }
    if sub.answer.Acked? && sub.answer.immediate != [] {
      SubmitFilled(s.orders, id, sub.answer.immediate[0], sub.answer.terminal);
    } else {
      SubmitUnfilled(s.orders, id, sub.answer);
    }
  }

  lemma UnmatchedOrders(r: OrderRequest, book: OrderBook, params: MatchParams, d: Draws)
    ensures MatchOrder(r, book, params, d).Filled? ==> d.reject >= params.rejectProbability && IsMarketable(r, book)
  {
  }

  lemma {:induction false} DeliveryLeavesOthers(orders: OrderMap, l: Ledger, fills: seq<Fill>, id: OrderId)
    requires id in orders && forall f :: f in fills ==> f.orderId != id
    ensures var after := Deliver(orders, l, fills).orders;
      id in after && after[id] == orders[id]
    decreases |fills|
  {
    hide AcceptsFill, BookFill;
    if fills != [] {
      assert fills[0] in fills;
      if AcceptsExternal(orders, fills[0]) {
        DeliveryLeavesOthers(ExternalFill(orders, fills[0]).orders, LedgerFill(l, fills[0]), fills[1..], id);
      } else {
        DeliveryLeavesOthers(orders, l, fills[1..], id);
      }
    }
  }

  lemma BookLeavesStranded(
    s: System, params: MatchParams, book: OrderBook, order: seq<OrderId>, draws: OrderId -> Draws, id: OrderId)
    requires SystemInv(s) && IterationOrder(order, s.venue.resting.Keys)
    requires id in s.orders && s.orders[id].request.tif != Gtc
    ensures var after := BookArrives(s, params, book, order, draws).orders;
      id in after && after[id] == s.orders[id]
  {
    hide LedgerInv, LedgerMark, HitAll, Deliver, CurrentCandidates, Candidates, OrdersSound, QuantitiesAgree;
    hide RestingSound, PositionsAgree, MoneyAgrees;
    var marked := if Mid(book).Some? then LedgerMark(s.ledger, book.token, Mid(book).value) else s.ledger;
    var cs := Candidates(s.venue.resting, book.token, order);
    CandidatesAreCurrent(s.venue, book.token, order);
    HitAllKeepsLink(s.orders, s.venue, s.ledger, params, cs, book, draws);
    DeliveryLeavesOthers(s.orders, marked, HitAll(s.venue, params, cs, book, draws).fills, id);
  }

  /** An immediate order left working keeps its place among the open orders, unchanged, over any
      continuation of a run that does not cancel it. */
  lemma {:induction false} OnlyCancellingFreesAStrandedOrder(
    run: seq<System>, steps: seq<SystemStep>, params: MatchParams, startingCash: Usd, i: nat, j: nat, id: OrderId)
    requires IsRun(run, steps, params, startingCash) && i <= j <= |steps|
    requires id in run[i].orders && IsWorking(run[i].orders[id].state) && run[i].orders[id].request.tif != Gtc
    requires forall k :: i <= k < j ==> steps[k] != CancelOrder(id)
    ensures id in run[j].orders && run[j].orders[id] == run[i].orders[id]
  {
    hide SystemInv, BookArrives, VenueSubmit, AfterAnswer;
    if j > i {
      OnlyCancellingFreesAStrandedOrder(run, steps, params, startingCash, i, j - 1, id);
      var s := run[j - 1];
      match steps[j - 1]
      case NewBook(book, order, draws) =>
        RunsKeepSystemInv(run, steps, params, startingCash, j - 1);
        BookLeavesStranded(s, params, book, order, draws, id);
      case _ =>
    }
  }

  /** A run that ends with order 1 open and nothing of it resting. */
  ghost predicate Strands(
    run: seq<System>, steps: seq<SystemStep>, params: MatchParams, startingCash: Usd, tif: TimeInForce)
  {
    && IsRun(run, steps, params, startingCash)
    && var s := run[|steps|];
      1 in s.orders && s.orders[1].request.tif == tif && IsOpen(s.orders[1].state) && 1 !in s.venue.resting
  }

  /** The book covers the order, and the queue draw shortens it. */
  lemma ShortenedOrderIsStranded(s: System, book: OrderBook, r: OrderRequest)
    requires SystemInv(s) && s.orders == map[1 := Order(r, Validated, 0.0, 0.0, 0.0)]
    requires r.tif != Gtc && r.side == Buy && r.orderType == OrderType.Market && r.quantity > 0.0
    requires r.token in s.venue.books && s.venue.books[r.token] == book
    requires book.asks == [Level(r.limitPrice, r.quantity)]
    ensures var after := SubmitTo(s, MatchParams(0, 0, true, 0.5, 0.0), 1, Draws(0.0, 0.6, 0.5));
      && after.orders.Keys == {1} && after.orders[1].request == r
      && IsOpen(after.orders[1].state) && 1 !in after.venue.resting
  {
    hide LedgerInv, MatchOrder, Linked, LedgerFills, VenueSubmit, BookImmediate;
    assert LiquidityWithin(Buy, book.asks[1..], r.limitPrice) == 0.0;
    assert AvailableWithin(r, book) == r.quantity;
    ImmediateOrderStaysOpenExactly(s, MatchParams(0, 0, true, 0.5, 0.0), 1, Draws(0.0, 0.6, 0.5));
  }

  /** Both immediate kinds can be stranded. */
  lemma StrandedOrdersAreReachable(tif: TimeInForce, startingCash: Usd)
    requires tif != Gtc
    ensures exists run, steps, params :: Strands(run, steps, params, startingCash, tif)
  {
    hide SystemInv, SubmitTo, IsOpen;
    var book := OrderBook(0, 0, [], [Level(0.5, 2.0)], 0.01, 1.0, 0, 0);
    var r := OrderRequest(1, 0, 0, Buy, OrderType.Market, tif, 2.0, 0.5, 0.5);
    var params, d := MatchParams(0, 0, true, 0.5, 0.0), Draws(0.0, 0.6, 0.5);
    var steps := [FetchBook(book), Register(r), SubmitOrder(1, d)];
    var s0 := System(map[], EMPTY_VENUE, FreshLedger(startingCash));
    var s1 := TakeStep(s0, params, steps[0]);
    var s2 := TakeStep(s1, params, steps[1]);
    FreshSystemInv(startingCash);
    StepKeepsInv(s0, params, steps[0]);
    StepKeepsInv(s1, params, steps[1]);
    assert s2.orders == map[1 := Order(r, Validated, 0.0, 0.0, 0.0)];
    ShortenedOrderIsStranded(s2, book, r);
    var run := [s0, s1, s2, SubmitTo(s2, params, 1, d)];
    assert Strands(run, steps, params, startingCash, tif);
  }

  // ----- cancelling everything

  /** `ids` cancelled one after the other. */
  function CancelMany(s: System, ids: seq<OrderId>): System
    decreases |ids|
  {
    if ids == [] then s else CancelMany(CancelIn(s, ids[0]), ids[1..])
  }

  /** How many of those cancellations succeed. */
  function CancelCount(s: System, ids: seq<OrderId>): nat
    decreases |ids|
  {
    if ids == [] then 0
    else (if Cancellable(s.orders, ids[0]) then 1 else 0) + CancelCount(CancelIn(s, ids[0]), ids[1..])
  }

  function WorkingAmong(orders: OrderMap, ids: seq<OrderId>): nat {
    if ids == [] then 0
    else (if ids[0] in orders && IsWorking(orders[ids[0]].state) then 1 else 0) + WorkingAmong(orders, ids[1..])
  }

  lemma {:induction false} WorkingElsewhere(orders: OrderMap, id: OrderId, o: Order, ids: seq<OrderId>)
    requires id !in ids
    ensures WorkingAmong(orders[id := o], ids) == WorkingAmong(orders, ids)
  {
    if ids != [] {
      WorkingElsewhere(orders, id, o, ids[1..]);
    }
  }

  /** Exactly the working orders are cancelled; the other open ones are reported as failures. */
  lemma {:induction false} CancelCountIsWorkingCount(s: System, ids: seq<OrderId>)
    requires forall i, j :: 0 <= i < j < |ids| ==> ids[i] != ids[j]
    ensures CancelCount(s, ids) == WorkingAmong(s.orders, ids)
    decreases |ids|
  {
    if ids != [] {
      CancelCountIsWorkingCount(CancelIn(s, ids[0]), ids[1..]);
      if Cancellable(s.orders, ids[0]) {
        WorkingElsewhere(s.orders, ids[0], CancelIn(s, ids[0]).orders[ids[0]], ids[1..]);
      }
    }
  }

  ghost function WorkingIds(orders: OrderMap): set<OrderId> {
    set id | id in orders && IsWorking(orders[id].state)
  }

  ghost function WorkingIn(orders: OrderMap, ids: seq<OrderId>): set<OrderId> {
    set id | id in ids && id in WorkingIds(orders)
  }

  lemma {:induction false} WorkingAmongIsASize(orders: OrderMap, ids: seq<OrderId>)
    requires forall i, j :: 0 <= i < j < |ids| ==> ids[i] != ids[j]
    ensures WorkingAmong(orders, ids) == |WorkingIn(orders, ids)|
  {
    if ids != [] {
      WorkingAmongIsASize(orders, ids[1..]);
      var rest := WorkingIn(orders, ids[1..]);
      if ids[0] in WorkingIds(orders) {
        assert WorkingIn(orders, ids) == rest + {ids[0]};
        assert ids[0] !in rest;
      } else {
        assert WorkingIn(orders, ids) == rest;
      }
    }
  }

  /** Cancelling a duplicate-free list that holds every open order succeeds once per working order. */
  lemma CancelAllCountsTheWorking(s: System, open: seq<OrderId>)
    requires forall i, j :: 0 <= i < j < |open| ==> open[i] != open[j]
    requires forall id :: id in s.orders && IsOpen(s.orders[id].state) ==> id in open
    ensures CancelCount(s, open) == |WorkingIds(s.orders)|
  {
    CancelCountIsWorkingCount(s, open);
    WorkingAmongIsASize(s.orders, open);
    assert WorkingIn(s.orders, open) == WorkingIds(s.orders);
  }

  lemma {:induction false} CancelManyStopsWorking(s: System, ids: seq<OrderId>)
    requires SystemInv(s)
    ensures var s' := CancelMany(s, ids);
      && SystemInv(s') && s'.orders.Keys == s.orders.Keys
      && (forall id :: id in s.orders && (id in ids || !IsWorking(s.orders[id].state)) ==>
            !IsWorking(s'.orders[id].state))
      && (forall id :: id in s.orders ==> s'.orders[id].filledQty == s.orders[id].filledQty)
    decreases |ids|
  {
    hide SystemInv;
    if ids != [] {
      CancelKeepsInv(s, ids[0]);
      CancelManyStopsWorking(CancelIn(s, ids[0]), ids[1..]);
    }
  }

  /** What one order is after a list of cancellations: a working one that was on the list is Cancelled,
      with all it had filled, and any other is untouched. */
  predicate EndsAs(before: Order, listed: bool, after: Order) {
    after == if listed && (before.state.Acknowledged? || before.state.PartiallyFilled?)
      then before.(state := OrderState.Cancelled) else before
  }

  lemma {:induction false} CancelManyEndsOrders(s: System, ids: seq<OrderId>)
    ensures var s' := CancelMany(s, ids);
      && s'.ledger == s.ledger
      && s'.orders.Keys == s.orders.Keys
      && forall id :: id in s.orders ==> EndsAs(s.orders[id], id in ids, s'.orders[id])
    decreases |ids|
  {
    if ids != [] {
      CancelManyEndsOrders(CancelIn(s, ids[0]), ids[1..]);
      OneCancelled(s, ids[0]);
    }
  }

  lemma OneCancelled(s: System, id: OrderId)
    ensures var s' := CancelIn(s, id);
      && s'.ledger == s.ledger && s'.orders.Keys == s.orders.Keys
      && forall j :: j in s.orders ==> EndsAs(s.orders[j], j == id, s'.orders[j])
  {
  }

  /** The kill switch's cancel-all leaves nothing resting at the venue, books nothing, and ends exactly
      the working orders, as Cancelled. */
  lemma CancelAllClearsTheVenue(s: System, open: seq<OrderId>)
    requires SystemInv(s)
    requires forall id :: id in s.orders && IsOpen(s.orders[id].state) ==> id in open
    ensures CancelMany(s, open).venue.resting == map[]
    ensures CancelMany(s, open).venue.positions == s.venue.positions && CancelMany(s, open).ledger == s.ledger
    ensures forall id :: id in s.orders ==>
      id in CancelMany(s, open).orders && EndsAs(s.orders[id], true, CancelMany(s, open).orders[id])
  {
    hide LedgerInv, FilledExposure, PositionsAgree, MoneyAgrees, QuantitiesAgree, OrderInv, CancelMany;
    CancelManyStopsWorking(s, open);
    CancelManyKeepsPositions(s, open);
    CancelManyEndsOrders(s, open);
  }

  lemma {:induction false} CancelManyKeepsPositions(s: System, ids: seq<OrderId>)
    ensures CancelMany(s, ids).venue.positions == s.venue.positions
    decreases |ids|
  {
    if ids != [] {
      CancelManyKeepsPositions(CancelIn(s, ids[0]), ids[1..]);
    }
  }
}
