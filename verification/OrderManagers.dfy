/** The order manager as it is updated in place over the paper venue, and the wiring that carries
    fills on to the portfolio (crates/execution/src/order_manager.rs, crates/app/src/tasks.rs). */
module OrderManagers {
  import opened Money
  import opened MapSums
  import opened Orders
  import opened OrderBooks
  import opened Matching
  import opened OrderManagement
  import opened PaperVenue
  import opened Portfolios
  import opened TradingSystem

  class OrderManager {
    const adapter: PaperExecution
    var orders: OrderMap

    constructor (adapter: PaperExecution)
      ensures orders == map[] && this.adapter == adapter
    {
      this.adapter := adapter;
      orders := map[];
    }

    method RegisterValidated(r: OrderRequest) returns (ok: bool)
      modifies this`orders
      ensures ok <==> OrderManagement.RegisterValidated(old(orders), r).Some?
      ensures orders == if ok then OrderManagement.RegisterValidated(old(orders), r).value else old(orders)
    {
      var created := NewOrder(r);
      if created.None? {
        return false;
      }
      var o := new LiveOrder.Clone(created.value);
      var _ := o.MoveTo(Validated);
      orders := orders[r.id := o.Value()];
      ok := true;
    }

    method Submit(id: OrderId, d: Draws) returns (applied: seq<Fill>)
      modifies this`orders, adapter
      ensures if ReachesAdapter(old(orders), id)
        then var sub := VenueSubmit(old(adapter.View()), adapter.params, old(orders)[id].request, d);
          adapter.View() == sub.venue && Managed(orders, applied) == OrderManagement.Submit(old(orders), id, sub.answer)
        else adapter.View() == old(adapter.View()) && orders == old(orders) && applied == []
    {
      hide VenueSubmit, BookImmediate, Transition;
      applied := [];
      if !ReachesAdapter(orders, id) {
        return;
      }
      var order := new LiveOrder.Clone(orders[id]);
      var _ := order.MoveTo(Submitted);
      orders := orders[id := order.Value()];
      RequestSurvives(old(orders)[id], Submitted);
      var answer := adapter.Submit(order.request, d);
      match answer {
        case Refused(ambiguous) =>
          var _ := order.MoveTo(if ambiguous then Unknown else OrderState.Rejected);
        case Acked(immediate, _) =>
          var _ := order.MoveTo(Acknowledged);
          applied := BookFills(order, immediate);
      }
      orders := orders[id := order.Value()];
    }

    /** Books an acknowledgement's fills in turn; a refused one flags the order for reconciliation. */
    method BookFills(order: LiveOrder, immediate: seq<Fill>) returns (applied: seq<Fill>)
      modifies order
      ensures Booked(order.Value(), applied) == BookImmediate(old(order.Value()), immediate)
    {
      hide AcceptsFill, Orders.BookFill, Transition;
      applied := [];
      ghost var all := BookImmediate(order.Value(), immediate);
      for i := 0 to |immediate|
        invariant all.order == BookImmediate(order.Value(), immediate[i..]).order
        invariant all.applied == applied + BookImmediate(order.Value(), immediate[i..]).applied
      {
        var f := immediate[i];
        assert immediate[i..][0] == f && immediate[i..][1..] == immediate[i + 1..];
        var error := order.ApplyFill(f.quantity, f.price, f.fee);
        if error.None? {
          applied := applied + [f];
        } else {
          var _ := order.MoveTo(Unknown);
        }
      }
    }

    method ApplyExternalFill(f: Fill) returns (ok: bool)
      modifies this`orders
      ensures ok <==> AcceptsExternal(old(orders), f)
      ensures orders == ExternalFill(old(orders), f).orders
    {
      if f.orderId !in orders {
        return false;
      }
      var o := new LiveOrder.Clone(orders[f.orderId]);
      var error := o.ApplyFill(f.quantity, f.price, f.fee);
      if error.Some? {
        return false;
      }
      orders := orders[f.orderId := o.Value()];
      ok := true;
    }

    method Cancel(id: OrderId) returns (ok: bool)
      modifies this`orders, adapter
      ensures ok <==> Cancellable(old(orders), id)
      ensures if ok
        then var c := VenueCancel(old(adapter.View()), id);
          adapter.View() == c.venue && orders == OrderManagement.Cancel(old(orders), id, c.answer)
        else adapter.View() == old(adapter.View()) && orders == old(orders)
    {
      if id !in orders {
        return false;
      }
      var o := new LiveOrder.Clone(orders[id]);
      var error := o.MoveTo(CancelRequested);
      if error.Some? {
        return false;
      }
      orders := orders[id := o.Value()];
      var answer := adapter.Cancel(id);
      error := o.MoveTo(Cancelled);
      if error.None? {
        orders := orders[id := o.Value()];
      }
      ok := true;
    }

    /** Cancels every open order, copied out in the map's iteration order. The successes are exactly
        the working orders, and nothing is left resting at a venue that was in step. */
    method CancelAll(order: seq<OrderId>, ghost ledger: Ledger) returns (ok: nat, fail: nat)
      requires IterationOrder(order, orders.Keys)
      modifies this`orders, adapter
      ensures System(orders, adapter.View(), ledger)
        == CancelMany(old(System(orders, adapter.View(), ledger)), OpenIds(old(orders), order))
      ensures ok + fail == |OpenIds(old(orders), order)|
      ensures ok == |WorkingIds(old(orders))|
      ensures old(SystemInv(System(orders, adapter.View(), ledger))) ==> adapter.resting == map[]
    {
      hide SystemInv, WorkingIds, CancelIn, VenueCancel, OrderManagement.Cancel, Cancellable;
      var open := OpenIds(orders, order);
      ghost var before := System(orders, adapter.View(), ledger);
      CancellingAllOpen(before, order);
      ghost var total, end := CancelCount(before, open), CancelMany(before, open);
      ok, fail := 0, 0;
      for i := 0 to |open|
        invariant ok + fail == i
        invariant ok + CancelCount(System(orders, adapter.View(), ledger), open[i..]) == total
        invariant CancelMany(System(orders, adapter.View(), ledger), open[i..]) == end
      {
        assert open[i..][0] == open[i] && open[i..][1..] == open[i + 1..];
        ghost var now := System(orders, adapter.View(), ledger);
        var done := Cancel(open[i]);
        CancelIsOneStep(now, open[i], System(orders, adapter.View(), ledger));
        if done {
          ok := ok + 1;
        } else {
          fail := fail + 1;
        }
      }
    }

    /** Net signed filled quantity per token; tokens without fills are absent. */
    method ComputeFilledExposure() returns (m: map<TokenId, real>)
      ensures forall t :: PositionOf(m, t) == FilledExposure(orders, t)
    {
      m := map[];
      var ids := orders.Keys;
      assert Among(orders, ids) == orders;
      while ids != {}
        invariant ids <= orders.Keys
        invariant forall t :: PositionOf(m, t) + FilledExposure(Among(orders, ids), t) == FilledExposure(orders, t)
      {
        ghost var rest := Among(orders, ids);
        var id :| id in ids;
        var o := orders[id];
        ghost var less := Among(orders, ids - {id});
        forall t
          ensures FilledExposure(rest, t) - FilledExposure(less, t)
            == if o.request.token == t then Signed(o.request.side, o.filledQty) else 0.0
        {
          SumTakesOut(FilledIn(rest, t), id);
          assert FilledIn(rest, t) - {id} == FilledIn(less, t);
        }
        if o.filledQty != 0.0 {
          m := m[o.request.token := PositionOf(m, o.request.token) + Signed(o.request.side, o.filledQty)];
        }
        ids := ids - {id};
      }
      forall t
        ensures FilledExposure(Among(orders, {}), t) == 0.0
      {
        assert FilledIn(Among(orders, {}), t) == map[];
      }
    }
  }

  ghost function Among(orders: OrderMap, ids: set<OrderId>): OrderMap {
    map id | id in ids && id in orders :: orders[id]
  }

  lemma RequestSurvives(o: Order, next: OrderState)
    ensures Transition(o, next).request == o.request
  {
  }

  /** What cancelling the open orders once each comes to. */
  lemma CancellingAllOpen(s: System, order: seq<OrderId>)
    requires IterationOrder(order, s.orders.Keys)
    ensures CancelCount(s, OpenIds(s.orders, order)) == |WorkingIds(s.orders)|
    ensures SystemInv(s) ==> CancelMany(s, OpenIds(s.orders, order)).venue.resting == map[]
  {
    hide SystemInv, WorkingIds, CancelMany, CancelCount;
    var open := OpenIds(s.orders, order);
    CancelAllCountsTheWorking(s, open);
    if SystemInv(s) {
      CancelAllClearsTheVenue(s, open);
    }
  }

  lemma CancelIsOneStep(s: System, id: OrderId, s': System)
    requires s'.ledger == s.ledger
    requires if Cancellable(s.orders, id)
      then var c := VenueCancel(s.venue, id);
        s'.venue == c.venue && s'.orders == OrderManagement.Cancel(s.orders, id, c.answer)
      else s'.venue == s.venue && s'.orders == s.orders
    ensures s' == CancelIn(s, id)
  {
  }

  /** The open orders in iteration order. */
  function OpenIds(orders: OrderMap, order: seq<OrderId>): (r: seq<OrderId>)
    requires forall id :: id in order ==> id in orders
    ensures forall id :: id in r <==> id in order && IsOpen(orders[id].state)
    ensures (forall i, j :: 0 <= i < j < |order| ==> order[i] != order[j]) ==>
      forall i, j :: 0 <= i < j < |r| ==> r[i] != r[j]
  {
    if order == [] then []
    else (if IsOpen(orders[order[0]].state) then [order[0]] else []) + OpenIds(orders, order[1..])
  }

  // ----- the wiring

  /** One order manager, one paper venue and one portfolio, as the application connects them. */
  class Desk {
    const paper: PaperExecution
    const manager: OrderManager
    const portfolio: Portfolio

    ghost predicate Valid()
      reads this, portfolio
    {
      manager.adapter == paper && portfolio.Valid()
      && forall t :: t in portfolio.positions ==> portfolio.positions[t] as object !in {this, paper, manager, portfolio}
    }

    ghost function View(): System
      reads this, paper, manager, portfolio, portfolio.positions.Values
    {
      System(manager.orders, paper.View(), portfolio.View())
    }

    constructor (params: MatchParams, startingCash: Usd)
      ensures Valid() && View() == System(map[], EMPTY_VENUE, FreshLedger(startingCash)) && paper.params == params
    {
      var p := new PaperExecution(params);
      paper := p;
      manager := new OrderManager(p);
      portfolio := new Portfolio(startingCash);
    }

    method PlaceRegistered(id: OrderId, d: Draws)
      requires Valid()
      modifies manager, paper, portfolio, portfolio.positions.Values
      ensures Valid() && View() == SubmitTo(old(View()), paper.params, id, d)
    {
      hide VenueSubmit, OrderManagement.Submit, LedgerFill;
      ghost var before := View();
      var fills := manager.Submit(id, d);
      label AfterSubmit:
      assert portfolio.View() == before.ledger;
      for i := 0 to |fills|
        invariant Valid() && fresh(portfolio.positions.Values - old(portfolio.positions.Values))
        invariant manager.orders == old@AfterSubmit(manager.orders) && paper.View() == old@AfterSubmit(paper.View())
        invariant LedgerFills(portfolio.View(), fills[i..]) == LedgerFills(before.ledger, fills)
      {
        assert fills[i..][0] == fills[i] && fills[i..][1..] == fills[i + 1..];
        portfolio.ApplyFill(fills[i]);
      }
    }

    /** A book arrives: mark, fill resting orders, tell the manager and the portfolio, cache it. */
    method OnBook(book: OrderBook, order: seq<OrderId>, draws: OrderId -> Draws)
      requires Valid() && IterationOrder(order, paper.resting.Keys)
      modifies manager, paper, portfolio, portfolio.positions.Values
      ensures Valid() && View() == BookArrives(old(View()), paper.params, book, order, draws)
    {
      hide LedgerFill, LedgerMark, BookUpdate, AcceptsExternal;
      ghost var before := View();
      var mid := Mid(book);
      if mid.Some? {
        portfolio.Mark(book.token, mid.value);
      }
      label Marked:
      ghost var marked := portfolio.View();
      var fills := paper.OnBookUpdate(book, order, draws);
      assert portfolio.View() == marked;
      label AfterHits:
      for i := 0 to |fills|
        invariant Valid() && fresh(portfolio.positions.Values - old(portfolio.positions.Values))
        invariant paper.View() == old@AfterHits(paper.View())
        invariant Deliver(manager.orders, portfolio.View(), fills[i..]) == Deliver(before.orders, marked, fills)
      {
        assert fills[i..][0] == fills[i] && fills[i..][1..] == fills[i + 1..];
        ghost var l := portfolio.View();
        var ok := manager.ApplyExternalFill(fills[i]);
        assert portfolio.View() == l;
        if ok {
          portfolio.ApplyFill(fills[i]);
        }
      }
      paper.PutBook(book);
    }
  }
}
