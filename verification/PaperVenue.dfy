/** The simulated venue (crates/execution/src/paper.rs): resting orders, signed positions, fills. */
module PaperVenue {
  import opened Money
  import opened Products
  import opened Orders
  import opened OrderBooks
  import opened Matching
  import opened OrderManagement

  datatype RestingOrder = RestingOrder(request: OrderRequest, remaining: Qty)

  /** The value of the venue at one moment. */
  datatype Venue = Venue(
    books: map<TokenId, OrderBook>,
    resting: map<OrderId, RestingOrder>,
    positions: map<TokenId, real>,
    pending: seq<Fill>,
    seqNo: nat)

  const EMPTY_VENUE := Venue(map[], map[], map[], [], 0)

  function PositionOf(positions: map<TokenId, real>, t: TokenId): real {
    if t in positions then positions[t] else 0.0
  }

  function FillFor(r: OrderRequest, qty: Qty, price: Price, fee: Usd, isMaker: bool): Fill {
    Fill(r.id, r.market, r.token, r.side, qty, price, fee, isMaker)
  }

  function Recorded(positions: map<TokenId, real>, f: Fill): map<TokenId, real> {
    positions[f.token := PositionOf(positions, f.token) + SignedQty(f)]
  }

  datatype Submission = Submission(venue: Venue, answer: Answer)

  function VenueSubmit(v: Venue, params: MatchParams, r: OrderRequest, d: Draws): Submission {
    if r.token !in v.books then Submission(v, Refused(false))
    else match MatchOrder(r, v.books[r.token], params, d)
      case Rejected => Submission(v, Refused(false))
      case NoLiquidity => Submission(v, Refused(false))
      case Resting =>
        Submission(
          v.(resting := v.resting[r.id := RestingOrder(r, r.quantity)], seqNo := v.seqNo + 1),
          Acked([], false))
      case Filled(qty, price, fee) =>
        var f := FillFor(r, qty, price, fee, false);
        var complete := qty >= r.quantity;
        var resting :=
          if !complete && r.tif == Gtc then v.resting[r.id := RestingOrder(r, SaturatingSub(r.quantity, qty))]
          else v.resting;
        Submission(
          v.(resting := resting, positions := Recorded(v.positions, f), seqNo := v.seqNo + 1),
          Acked([f], complete || r.tif != Gtc))
  }

  datatype Cancellation = Cancellation(venue: Venue, answer: CancelAnswer)

  function VenueCancel(v: Venue, id: OrderId): Cancellation {
    if id in v.resting then Cancellation(v.(resting := v.resting - {id}), CancelDone)
    else Cancellation(v, CancelUnknownOrder)
  }

  datatype Candidate = Candidate(id: OrderId, order: RestingOrder)

  /** `order` lists the keys of a hash map once each, in the order it happens to iterate. */
  ghost predicate IterationOrder(order: seq<OrderId>, keys: set<OrderId>) {
    (forall k :: k in order <==> k in keys) && (forall i, j :: 0 <= i < j < |order| ==> order[i] != order[j])
  }

  /** The resting orders on a token, copied out in iteration order. */
  function Candidates(resting: map<OrderId, RestingOrder>, t: TokenId, order: seq<OrderId>): seq<Candidate>
    requires forall id :: id in order ==> id in resting
  {
    if order == [] then []
    else
      var id := order[0];
      (if resting[id].request.token == t then [Candidate(id, resting[id])] else []) + Candidates(resting, t, order[1..])
  }

  datatype Hits = Hits(venue: Venue, fills: seq<Fill>)

  /** One resting order examined against a new book. */
  function HitOne(v: Venue, params: MatchParams, c: Candidate, book: OrderBook, d: Draws): Hits {
    var r := c.order;
    if !IsMarketable(r.request, book) then Hits(v, [])
    else match MatchOrder(r.request.(quantity := r.remaining), book, params, d)
      case Filled(qty, price, fee) =>
        var f := FillFor(r.request, qty, price, fee, true);
        var left := SaturatingSub(r.remaining, qty);
        var resting :=
          if left == 0.0 then v.resting - {c.id}
          else if c.id in v.resting then v.resting[c.id := v.resting[c.id].(remaining := left)]
          else v.resting;
        Hits(v.(resting := resting, positions := Recorded(v.positions, f)), [f])
      case _ => Hits(v, [])
  }

  function HitAll(v: Venue, params: MatchParams, cs: seq<Candidate>, book: OrderBook, draws: OrderId -> Draws): Hits {
    if cs == [] then Hits(v, [])
    else
      var n := |cs| - 1;
      var h := HitAll(v, params, cs[..n], book, draws);
      var last := HitOne(h.venue, params, cs[n], book, draws(cs[n].id));
      Hits(last.venue, h.fills + last.fills)
  }

  function BookUpdate(
    v: Venue, params: MatchParams, book: OrderBook, order: seq<OrderId>, draws: OrderId -> Draws): Hits
    requires forall id :: id in order ==> id in v.resting
  {
    var h := HitAll(v, params, Candidates(v.resting, book.token, order), book, draws);
    Hits(h.venue.(pending := h.venue.pending + h.fills), h.fills)
  }

  // ----- what a book update does to each resting order

  /** What a new book gives a resting order: nothing unless it is for the book's token and crosses, and
      then what the matcher gives an order for the shares that rest. */
  function GivenBy(book: OrderBook, params: MatchParams, r: RestingOrder, d: Draws): SimOutcome {
    if r.request.token != book.token || !IsMarketable(r.request, book) then NoLiquidity
    else MatchOrder(r.request.(quantity := r.remaining), book, params, d)
  }

  /** What is left of a resting order, if anything. */
  predicate LeftAs(before: RestingOrder, given: SimOutcome, resting: map<OrderId, RestingOrder>, id: OrderId) {
    if !given.Filled? then id in resting && resting[id] == before
    else if given.quantity >= before.remaining then id !in resting
    else id in resting && resting[id] == RestingOrder(before.request, before.remaining - given.quantity)
  }

  function MakerFill(r: OrderRequest, given: SimOutcome): Fill
    requires given.Filled?
  {
    Fill(r.id, r.market, r.token, r.side, given.quantity, given.price, given.fee, true)
  }

  /** The resting orders keep their own ids. */
  ghost predicate OwnIds(resting: map<OrderId, RestingOrder>) {
    forall id :: id in resting ==> resting[id].request.id == id
  }

  lemma {:induction false} CandidatesExactly(resting: map<OrderId, RestingOrder>, t: TokenId, order: seq<OrderId>)
    requires forall id :: id in order ==> id in resting
    requires forall i, j :: 0 <= i < j < |order| ==> order[i] != order[j]
    ensures var cs := Candidates(resting, t, order);
      && (forall c :: c in cs <==> c.id in order && resting[c.id].request.token == t && c.order == resting[c.id])
      && (forall i, j :: 0 <= i < j < |cs| ==> cs[i].id != cs[j].id)
  {
    if order != [] {
      CandidatesExactly(resting, t, order[1..]);
      assert forall id :: id in order <==> id == order[0] || id in order[1..];
    }
  }

  lemma HitOneExactly(v: Venue, params: MatchParams, c: Candidate, book: OrderBook, d: Draws)
    requires c.id in v.resting && v.resting[c.id] == c.order && c.order.request.token == book.token
    ensures var h, given := HitOne(v, params, c, book, d), GivenBy(book, params, c.order, d);
      && LeftAs(c.order, given, h.venue.resting, c.id)
      && (forall id :: id != c.id ==>
            (id in h.venue.resting <==> id in v.resting)
            && (id in v.resting ==> h.venue.resting[id] == v.resting[id]))
      && h.fills == (if given.Filled? then [MakerFill(c.order.request, given)] else [])
      && h.venue.books == v.books && h.venue.pending == v.pending && h.venue.seqNo == v.seqNo
  {
    hide MatchOrder, IsMarketable, Recorded;
  }

  /** The fills of one order among others. */
  function FillsOf(fills: seq<Fill>, id: OrderId): seq<Fill> {
    if fills == [] then []
    else
      var n := |fills| - 1;
      FillsOf(fills[..n], id) + if fills[n].orderId == id then [fills[n]] else []
  }

  lemma FillsOfMore(fills: seq<Fill>, more: seq<Fill>, id: OrderId)
    requires |more| <= 1
    ensures FillsOf(fills + more, id) == FillsOf(fills, id) + if |more| == 1 && more[0].orderId == id then more else []
  {
    if |more| == 1 {
      assert (fills + more)[..|fills|] == fills;
      assert more == [more[0]];
    } else {
      assert fills + more == fills;
    }
  }

  /** What happened to one order: it is left as the book's outcome says, and has that one fill or none. */
  ghost predicate Examined(v: Venue, h: Hits, book: OrderBook, params: MatchParams, id: OrderId, d: Draws)
    requires id in v.resting
  {
    var given := GivenBy(book, params, v.resting[id], d);
    && LeftAs(v.resting[id], given, h.venue.resting, id)
    && FillsOf(h.fills, id) == if given.Filled? then [MakerFill(v.resting[id].request, given)] else []
  }

  ghost predicate Untouched(v: Venue, h: Hits, id: OrderId) {
    && (id in h.venue.resting <==> id in v.resting)
    && (id in v.resting ==> h.venue.resting[id] == v.resting[id])
    && FillsOf(h.fills, id) == []
  }

  lemma {:induction false} HitAllExactly(
    v: Venue, params: MatchParams, cs: seq<Candidate>, book: OrderBook, draws: OrderId -> Draws)
    requires OwnIds(v.resting)
    requires forall c :: c in cs ==>
      c.id in v.resting && v.resting[c.id] == c.order && c.order.request.token == book.token
    requires forall i, j :: 0 <= i < j < |cs| ==> cs[i].id != cs[j].id
    ensures var h := HitAll(v, params, cs, book, draws);
      && (forall c :: c in cs ==> Examined(v, h, book, params, c.id, draws(c.id)))
      && (forall id :: (forall c :: c in cs ==> c.id != id) ==> Untouched(v, h, id))
      && h.venue.books == v.books && h.venue.pending == v.pending && h.venue.seqNo == v.seqNo
  {
    hide HitOne, Examined, Untouched;
    if cs == [] {
      NoHits(v, params, book, draws);
    } else {
      var n := |cs| - 1;
      var c, before := cs[n], HitAll(v, params, cs[..n], book, draws);
      var h := HitAll(v, params, cs, book, draws);
      assert forall e :: e in cs[..n] ==> e in cs && e.id != c.id;
      assert c in cs;
      HitAllExactly(v, params, cs[..n], book, draws);
      LastHit(v, before, h, params, c, book, draws(c.id));
      forall e | e in cs
        ensures Examined(v, h, book, params, e.id, draws(e.id))
      {
        if e.id != c.id {
          assert e in cs[..n];
          OtherHit(v, before, h, params, c, book, draws(c.id), e.id, draws(e.id));
        } else {
          assert e == c;
        }
      }
      forall id | forall e :: e in cs ==> e.id != id
        ensures Untouched(v, h, id)
      {
        assert Untouched(v, before, id);
        OtherHit(v, before, h, params, c, book, draws(c.id), id, draws(id));
      }
    }
  }

  lemma NoHits(v: Venue, params: MatchParams, book: OrderBook, draws: OrderId -> Draws)
    ensures var h := HitAll(v, params, [], book, draws);
      h.venue == v && forall id :: Untouched(v, h, id)
  {
  }

  /** The candidate examined last. */
  lemma LastHit(v: Venue, before: Hits, h: Hits, params: MatchParams, c: Candidate, book: OrderBook, d: Draws)
    requires c.id in v.resting && v.resting[c.id] == c.order && c.order.request.token == book.token
    requires c.order.request.id == c.id && Untouched(v, before, c.id)
    requires var last := HitOne(before.venue, params, c, book, d);
      h == Hits(last.venue, before.fills + last.fills)
    ensures Examined(v, h, book, params, c.id, d)
    ensures h.venue.books == before.venue.books && h.venue.pending == before.venue.pending
    ensures h.venue.seqNo == before.venue.seqNo
  {
    hide HitOne, GivenBy, LeftAs, FillsOf;
    HitOneExactly(before.venue, params, c, book, d);
    FillsOfMore(before.fills, HitOne(before.venue, params, c, book, d).fills, c.id);
  }

  /** Every other order, examined before or not at all. */
  lemma OtherHit(
    v: Venue, before: Hits, h: Hits, params: MatchParams, c: Candidate, book: OrderBook, d: Draws,
    id: OrderId, own: Draws)
    requires c.id in v.resting && v.resting[c.id] == c.order && c.order.request.token == book.token
    requires c.order.request.id == c.id != id && Untouched(v, before, c.id)
    requires var last := HitOne(before.venue, params, c, book, d);
      h == Hits(last.venue, before.fills + last.fills)
    ensures id in v.resting && Examined(v, before, book, params, id, own) ==> Examined(v, h, book, params, id, own)
    ensures Untouched(v, before, id) ==> Untouched(v, h, id)
  {
    hide HitOne, GivenBy, FillsOf;
    HitOneExactly(before.venue, params, c, book, d);
    FillsOfMore(before.fills, HitOne(before.venue, params, c, book, d).fills, id);
  }

  /** A book update examines every resting order exactly once, whatever order the map iterates in: each is
      left as the new book's outcome for it alone says, has that one fill or none, and the fills are
      queued for polling. */
  lemma BookUpdateExaminesEveryOrder(
    v: Venue, params: MatchParams, book: OrderBook, order: seq<OrderId>, draws: OrderId -> Draws, id: OrderId)
    requires IterationOrder(order, v.resting.Keys) && OwnIds(v.resting) && id in v.resting
    ensures var h := BookUpdate(v, params, book, order, draws);
      && Examined(v, h, book, params, id, draws(id))
      && h.venue.pending == v.pending + h.fills && h.venue.books == v.books && h.venue.seqNo == v.seqNo
  {
    hide HitAll, Candidates, FillsOf, MatchOrder, IsMarketable;
    var cs := Candidates(v.resting, book.token, order);
    CandidatesExactly(v.resting, book.token, order);
    HitAllExactly(v, params, cs, book, draws);
    if v.resting[id].request.token == book.token {
      assert Candidate(id, v.resting[id]) in cs;
    } else {
      assert forall c :: c in cs ==> c.id != id;
      assert Untouched(v, HitAll(v, params, cs, book, draws), id);
    }
  }

  // ----- the venue as it is updated in place

  class PaperExecution {
    const params: MatchParams
    var books: map<TokenId, OrderBook>
    var resting: map<OrderId, RestingOrder>
    var positions: map<TokenId, real>
    var pendingFills: seq<Fill>
    var seqNo: nat

    ghost function View(): Venue
      reads this
    {
      Venue(books, resting, positions, pendingFills, seqNo)
    }

    constructor (params: MatchParams)
      ensures View() == EMPTY_VENUE && this.params == params
    {
      this.params := params;
      books, resting, positions, pendingFills, seqNo := map[], map[], map[], [], 0;
    }

    method PutBook(b: OrderBook)
      modifies this`books
      ensures View() == old(View()).(books := old(books)[b.token := b])
    {
      books := books[b.token := b];
    }

    method RecordFill(r: OrderRequest, qty: Qty, price: Price, fee: Usd, isMaker: bool) returns (f: Fill)
      modifies this`positions
      ensures f == FillFor(r, qty, price, fee, isMaker) && positions == Recorded(old(positions), f)
    {
      f := FillFor(r, qty, price, fee, isMaker);
      positions := positions[r.token := PositionOf(positions, r.token) + Signed(r.side, qty)];
    }

    method Submit(r: OrderRequest, d: Draws) returns (a: Answer)
      modifies this
      ensures Submission(View(), a) == VenueSubmit(old(View()), params, r, d)
    {
      hide MatchOrder, Recorded;
      if r.token !in books {
        return Refused(false);
      }
      var outcome := MatchOrder(r, books[r.token], params, d);
      match outcome {
        case Rejected => a := Refused(false);
        case NoLiquidity => a := Refused(false);
        case Resting =>
          resting := resting[r.id := RestingOrder(r, r.quantity)];
          seqNo := seqNo + 1;
          a := Acked([], false);
        case Filled(qty, price, fee) =>
          var f := RecordFill(r, qty, price, fee, false);
          var complete := qty >= r.quantity;
          if !complete && r.tif == Gtc {
            resting := resting[r.id := RestingOrder(r, SaturatingSub(r.quantity, qty))];
          }
          seqNo := seqNo + 1;
          a := Acked([f], complete || r.tif != Gtc);
      }
    }

    method Cancel(id: OrderId) returns (a: CancelAnswer)
      modifies this`resting
      ensures Cancellation(View(), a) == VenueCancel(old(View()), id)
    {
      if id in resting {
        resting := resting - {id};
        a := CancelDone;
      } else {
        a := CancelUnknownOrder;
      }
    }

    method OnBookUpdate(book: OrderBook, order: seq<OrderId>, draws: OrderId -> Draws) returns (fills: seq<Fill>)
      requires IterationOrder(order, resting.Keys)
      modifies this
      ensures Hits(View(), fills) == BookUpdate(old(View()), params, book, order, draws)
    {
      hide MatchOrder, Recorded, IsMarketable;
      var candidates := Candidates(resting, book.token, order);
      fills := [];
      for i := 0 to |candidates|
        invariant Hits(View(), fills) == HitAll(old(View()), params, candidates[..i], book, draws)
      {
        assert candidates[..i + 1][..i] == candidates[..i];
        var id, r := candidates[i].id, candidates[i].order;
        if !IsMarketable(r.request, book) {
          continue;
        }
        var outcome := MatchOrder(r.request.(quantity := r.remaining), book, params, draws(id));
        if outcome.Filled? {
          var f := RecordFill(r.request, outcome.quantity, outcome.price, outcome.fee, true);
          var left := SaturatingSub(r.remaining, outcome.quantity);
          if left == 0.0 {
            resting := resting - {id};
          } else if id in resting {
            resting := resting[id := resting[id].(remaining := left)];
          }
          fills := fills + [f];
        }
      }
      assert candidates[..|candidates|] == candidates;
      pendingFills := pendingFills + fills;
    }
  }
}
