/** Streamed order books: snapshots, absolute level replacements and the venue's own best prices as
    an integrity check (crates/market_data/src/market_ws.rs). Text has been parsed: a field that did
    not parse is absent. */
module BookBuilding {
  import opened Money
  import opened OrderBooks

  datatype WireLevel = WireLevel(price: Option<real>, size: Option<real>)

  datatype WireBook = WireBook(
    market: MarketId, token: TokenId, bids: seq<WireLevel>, asks: seq<WireLevel>,
    tickSize: Option<real>, timestamp: int)

  datatype MarketEvent =
    | Snapshot(book: OrderBook)
    | LevelChange(token: TokenId, side: Side, price: Price, size: real, bestBid: Option<Price>, bestAsk: Option<Price>)
    | TickSizeChanged(tickToken: TokenId, tickSize: real)
    | Ignored

  /** Levels whose price and size parse into range, empty ones dropped. */
  function LevelsOf(raw: seq<WireLevel>): seq<Level> {
    if raw == [] then []
    else
      var l := raw[0];
      (if l.price.Some? && 0.0 < l.price.value < 1.0 && l.size.Some? && l.size.value > 0.0
       then [Level(l.price.value, l.size.value)] else [])
      + LevelsOf(raw[1..])
  }

  // ----- sorting a side; `taker` is the side that takes from it

  predicate Better(taker: Side, p: Price, q: Price) {
    if taker == Buy then p < q else p > q
  }

  function InsertLevel(taker: Side, l: Level, s: seq<Level>): seq<Level> {
    if s == [] || AtLeastAsGood(taker, l.price, s[0].price) then [l] + s
    else [s[0]] + InsertLevel(taker, l, s[1..])
  }

  /** A stable sort, best price first. */
  function SortSide(taker: Side, s: seq<Level>): seq<Level> {
    if s == [] then [] else InsertLevel(taker, s[0], SortSide(taker, s[1..]))
  }

  function SnapshotSide(taker: Side, raw: seq<WireLevel>): seq<Level> {
    SortSide(taker, LevelsOf(raw))
  }

  function ToBook(w: WireBook, seqNo: nat): OrderBook {
    OrderBook(
      w.market, w.token, SnapshotSide(Sell, w.bids), SnapshotSide(Buy, w.asks),
      if w.tickSize.Some? then w.tickSize.value else 0.01, 5.0, w.timestamp, seqNo)
  }

  /** One message of the feed, or one change of a message that carries several. */
  datatype WireFrame =
    | BookFrame(book: WireBook, seqNo: nat)
    | PriceChange(
        token: TokenId, side: Side, price: Option<real>, size: Option<real>,
        bestBid: Option<real>, bestAsk: Option<real>)
    | NewTickSize(tickToken: TokenId, newTick: Option<real>)
    | Unrecognised

  function AsPrice(d: Option<real>): Option<Price> {
    if d.Some? && 0.0 < d.value < 1.0 then Some(d.value) else None
  }

  /** A change whose price or size is unusable is skipped; an unusable quote counts as no quote. */
  function Parsed(w: WireFrame): MarketEvent {
    match w
    case BookFrame(b, n) => Snapshot(ToBook(b, n))
    case PriceChange(t, side, price, size, bid, ask) =>
      if AsPrice(price).None? || size.None? then Ignored
      else LevelChange(t, side, AsPrice(price).value, size.value, AsPrice(bid), AsPrice(ask))
    case NewTickSize(t, tick) => if tick.None? then Ignored else TickSizeChanged(t, tick.value)
    case Unrecognised => Ignored
  }

  function WithoutPrice(s: seq<Level>, price: Price): seq<Level> {
    if s == [] then []
    else (if s[0].price == price then [] else [s[0]]) + WithoutPrice(s[1..], price)
  }

  /** The size is the new aggregate at the price; zero or less removes the level. */
  function ReplaceLevel(taker: Side, s: seq<Level>, price: Price, size: real): seq<Level> {
    SortSide(taker, WithoutPrice(s, price) + if size > 0.0 then [Level(price, size)] else [])
  }

  function Drifted(b: OrderBook, bestBid: Option<Price>, bestAsk: Option<Price>): bool {
    (bestBid.Some? && BestBid(b) != bestBid) || (bestAsk.Some? && BestAsk(b) != bestAsk)
  }

  // ----- the builder

  datatype Books = Books(books: map<TokenId, OrderBook>, minOrderSize: map<TokenId, real>, integrityFailures: nat)

  datatype Applied = Applied(state: Books, token: Option<TokenId>)

  function ChangedBook(b: OrderBook, side: Side, price: Price, size: real, at: int): OrderBook {
    var moved :=
      if side == Buy then b.(bids := ReplaceLevel(Sell, b.bids, price, size))
      else b.(asks := ReplaceLevel(Buy, b.asks, price, size));
    moved.(timestamp := at, seqNo := b.seqNo + 1)
  }

  function AfterEvent(s: Books, ev: MarketEvent, at: int): Applied {
    match ev
    case Ignored => Applied(s, None)
    case Snapshot(b) =>
      var b' := if b.token in s.minOrderSize then b.(minOrderSize := s.minOrderSize[b.token]) else b;
      Applied(s.(books := s.books[b.token := b']), Some(b.token))
    case TickSizeChanged(t, tick) =>
      Applied(
        if t in s.books then s.(books := s.books[t := s.books[t].(tickSize := tick, timestamp := at)]) else s, Some(t))
    case LevelChange(t, side, price, size, bestBid, bestAsk) =>
      if t !in s.books then Applied(s, None)
      else
        var b := ChangedBook(s.books[t], side, price, size, at);
        Applied(
          if Drifted(b, bestBid, bestAsk)
          then s.(books := s.books - {t}, integrityFailures := s.integrityFailures + 1)
          else s.(books := s.books[t := b]),
          Some(t))
  }

  class BookBuilder {
    var books: map<TokenId, OrderBook>
    var minOrderSize: map<TokenId, real>
    var integrityFailures: nat

    ghost function View(): Books
      reads this
    {
      Books(books, minOrderSize, integrityFailures)
    }

    constructor ()
      ensures View() == Books(map[], map[], 0)
    {
      books, minOrderSize, integrityFailures := map[], map[], 0;
    }

    method SetMinOrderSize(t: TokenId, v: real)
      modifies this`minOrderSize
      ensures View() == old(View()).(minOrderSize := old(minOrderSize)[t := v])
    {
      minOrderSize := minOrderSize[t := v];
    }

    method Apply(ev: MarketEvent, at: int) returns (changed: Option<TokenId>)
      modifies this
      ensures Applied(View(), changed) == AfterEvent(old(View()), ev, at)
    {
      match ev {
        case Ignored => changed := None;
        case Snapshot(book) =>
          var b := book;
          if b.token in minOrderSize {
            b := b.(minOrderSize := minOrderSize[b.token]);
          }
          books := books[b.token := b];
          changed := Some(b.token);
        case TickSizeChanged(t, tick) =>
          if t in books {
            books := books[t := books[t].(tickSize := tick, timestamp := at)];
          }
          changed := Some(t);
        case LevelChange(t, side, price, size, bestBid, bestAsk) =>
          if t !in books {
            return None;
          }
          var b := books[t];
          var levels := if side == Buy then b.bids else b.asks;
          levels := WithoutPrice(levels, price);
          if size > 0.0 {
            levels := levels + [Level(price, size)];
          } else {
            assert levels + [] == levels;
          }
          if side == Buy {
            b := b.(bids := SortSide(Sell, levels));
          } else {
            b := b.(asks := SortSide(Buy, levels));
          }
          b := b.(timestamp := at, seqNo := b.seqNo + 1);
          books := books[t := b];
          if Drifted(b, bestBid, bestAsk) {
            integrityFailures := integrityFailures + 1;
            books := books - {t};
            assert books == old(books) - {t};
          }
          changed := Some(t);
      }
    }
  }

  // ----- a side as a price-to-size map

  type PriceMap = map<Price, Qty>

  /** Strictly best-first, with positive sizes. */
  ghost predicate StrictSide(taker: Side, s: seq<Level>) {
    && (forall i, j :: 0 <= i < j < |s| ==> Better(taker, s[i].price, s[j].price))
    && (forall i :: 0 <= i < |s| ==> s[i].size > 0.0)
  }

  ghost predicate StrictBook(b: OrderBook) {
    StrictSide(Sell, b.bids) && StrictSide(Buy, b.asks)
  }

  /** The levels are exactly the entries of the map. */
  ghost predicate Represents(s: seq<Level>, m: PriceMap) {
    forall l: Level :: l in s <==> l.price in m && m[l.price] == l.size
  }

  ghost predicate DistinctPrices(s: seq<Level>) {
    forall i, j :: 0 <= i < j < |s| ==> s[i].price != s[j].price
  }

  ghost predicate PositiveSizes(s: seq<Level>) {
    forall i :: 0 <= i < |s| ==> s[i].size > 0.0
  }

  function Replaced(m: PriceMap, price: Price, size: real): PriceMap {
    if size > 0.0 then m[price := size] else m - {price}
  }

  lemma {:induction false} InsertStrict(taker: Side, l: Level, s: seq<Level>)
    requires StrictSide(taker, s) && l.size > 0.0
    requires forall i :: 0 <= i < |s| ==> s[i].price != l.price
    ensures StrictSide(taker, InsertLevel(taker, l, s))
    ensures forall k: Level :: k in InsertLevel(taker, l, s) <==> k == l || k in s
  {
    if s != [] && !AtLeastAsGood(taker, l.price, s[0].price) {
      InsertStrict(taker, l, s[1..]);
      var r := InsertLevel(taker, l, s[1..]);
      forall j | 0 <= j < |r|
        ensures Better(taker, s[0].price, r[j].price)
      {
        assert r[j] in r;
        assert r[j] == l || r[j] in s[1..];
      }
    }
  }

  lemma {:induction false} SortStrict(taker: Side, s: seq<Level>)
    requires DistinctPrices(s) && PositiveSizes(s)
    ensures StrictSide(taker, SortSide(taker, s))
    ensures forall k: Level :: k in SortSide(taker, s) <==> k in s
  {
    if s != [] {
      SortStrict(taker, s[1..]);
      var r := SortSide(taker, s[1..]);
      forall i | 0 <= i < |r|
        ensures r[i].price != s[0].price
      {
        assert r[i] in r;
        assert r[i] in s[1..];
      }
      InsertStrict(taker, s[0], r);
    }
  }

  lemma {:induction false} WithoutPriceKeeps(s: seq<Level>, price: Price)
    requires DistinctPrices(s) && PositiveSizes(s)
    ensures var r := WithoutPrice(s, price);
      && DistinctPrices(r) && PositiveSizes(r)
      && forall k: Level :: k in r <==> k in s && k.price != price
  {
    if s != [] {
      WithoutPriceKeeps(s[1..], price);
      var r := WithoutPrice(s[1..], price);
      forall i | 0 <= i < |r|
        ensures r[i].price != s[0].price
      {
        assert r[i] in r;
        assert r[i] in s[1..];
      }
    }
  }

  /** Replacing a level in the list is replacing the entry in the map. */
  lemma ReplaceLevelRefines(taker: Side, s: seq<Level>, m: PriceMap, price: Price, size: real)
    requires StrictSide(taker, s) && Represents(s, m)
    ensures StrictSide(taker, ReplaceLevel(taker, s, price, size))
    ensures Represents(ReplaceLevel(taker, s, price, size), Replaced(m, price, size))
  {
    assert DistinctPrices(s) && PositiveSizes(s);
    WithoutPriceKeeps(s, price);
    var rest := WithoutPrice(s, price);
    var grown := rest + if size > 0.0 then [Level(price, size)] else [];
    forall i | 0 <= i < |rest|
      ensures rest[i].price != price
    {
      assert rest[i] in rest;
    }
    SortStrict(taker, grown);
    forall k: Level
      ensures k in grown <==> k.price in Replaced(m, price, size) && Replaced(m, price, size)[k.price] == k.size
    {
      assert k in grown <==> k in rest || (size > 0.0 && k == Level(price, size));
    }
  }

  // ----- what a snapshot side keeps of the wire

  /** A row whose price is a price and whose size is positive. */
  predicate Usable(r: WireLevel) {
    r.price.Some? && 0.0 < r.price.value < 1.0 && r.size.Some? && r.size.value > 0.0
  }

  function RowOf(l: Level): WireLevel {
    WireLevel(Some(l.price), Some(l.size))
  }

  ghost predicate DistinctRows(raw: seq<WireLevel>) {
    forall i, j :: 0 <= i < j < |raw| && Usable(raw[i]) && Usable(raw[j]) ==> raw[i].price != raw[j].price
  }

  /** The usable rows read as a map, a later row for a price replacing an earlier one. */
  function Listed(raw: seq<WireLevel>): PriceMap {
    if raw == [] then map[]
    else
      var n := |raw| - 1;
      if Usable(raw[n]) then Listed(raw[..n])[raw[n].price.value := raw[n].size.value] else Listed(raw[..n])
  }

  /** With distinct prices the map says of a price exactly what the wire lists. */
  lemma {:induction false} ListedExactly(raw: seq<WireLevel>)
    requires DistinctRows(raw)
    ensures forall l: Level ::
      l.price in Listed(raw) && Listed(raw)[l.price] == l.size <==> l.size > 0.0 && RowOf(l) in raw
  {
    if raw != [] {
      var n := |raw| - 1;
      ListedExactly(raw[..n]);
      assert raw == raw[..n] + [raw[n]];
      assert Usable(raw[n]) ==> forall r :: r in raw[..n] && Usable(r) ==> r.price != raw[n].price;
      forall l: Level
        ensures l.price in Listed(raw) && Listed(raw)[l.price] == l.size <==> l.size > 0.0 && RowOf(l) in raw
      {
        assert RowOf(l) in raw <==> RowOf(l) in raw[..n] || RowOf(l) == raw[n];
      }
    }
  }

  lemma {:induction false} InsertKeepsLevels(taker: Side, l: Level, s: seq<Level>)
    ensures multiset(InsertLevel(taker, l, s)) == multiset(s) + multiset{l}
  {
    if s != [] && !AtLeastAsGood(taker, l.price, s[0].price) {
      InsertKeepsLevels(taker, l, s[1..]);
      assert s == [s[0]] + s[1..];
    }
  }

  lemma {:induction false} SortKeepsLevels(taker: Side, s: seq<Level>)
    ensures multiset(SortSide(taker, s)) == multiset(s)
  {
    if s != [] {
      SortKeepsLevels(taker, s[1..]);
      InsertKeepsLevels(taker, s[0], SortSide(taker, s[1..]));
      assert s == [s[0]] + s[1..];
    }
  }

  lemma {:induction false} LevelsAreTheUsableRows(raw: seq<WireLevel>, l: Level)
    ensures multiset(LevelsOf(raw))[l] == if l.size > 0.0 then multiset(raw)[RowOf(l)] else 0
  {
    if raw != [] {
      LevelsAreTheUsableRows(raw[1..], l);
      assert raw == [raw[0]] + raw[1..];
    }
  }

  /** A snapshot side holds a level exactly as often as the wire lists it with a positive size, and
      nothing else: no row is lost, and no unusable one gets in. */
  lemma SideListsTheWire(taker: Side, raw: seq<WireLevel>, l: Level)
    ensures multiset(SnapshotSide(taker, raw))[l] == if l.size > 0.0 then multiset(raw)[RowOf(l)] else 0
  {
    SortKeepsLevels(taker, LevelsOf(raw));
    LevelsAreTheUsableRows(raw, l);
  }

  lemma {:induction false} LevelsArePositive(raw: seq<WireLevel>)
    ensures PositiveSizes(LevelsOf(raw))
  {
    if raw != [] {
      LevelsArePositive(raw[1..]);
    }
  }

  function CountPrice(s: seq<Level>, p: Price): nat {
    if s == [] then 0 else (if s[0].price == p then 1 else 0) + CountPrice(s[1..], p)
  }

  lemma {:induction false} InsertCounts(taker: Side, l: Level, s: seq<Level>, p: Price)
    ensures CountPrice(InsertLevel(taker, l, s), p) == CountPrice(s, p) + if l.price == p then 1 else 0
  {
    if s == [] || AtLeastAsGood(taker, l.price, s[0].price) {
      assert ([l] + s)[1..] == s;
    } else {
      InsertCounts(taker, l, s[1..], p);
      assert ([s[0]] + InsertLevel(taker, l, s[1..]))[1..] == InsertLevel(taker, l, s[1..]);
    }
  }

  lemma {:induction false} SortCounts(taker: Side, s: seq<Level>, p: Price)
    ensures CountPrice(SortSide(taker, s), p) == CountPrice(s, p)
  {
    if s != [] {
      SortCounts(taker, s[1..], p);
      InsertCounts(taker, s[0], SortSide(taker, s[1..]), p);
    }
  }

  lemma {:induction false} CountPositive(s: seq<Level>, i: nat)
    requires i < |s|
    ensures CountPrice(s, s[i].price) >= 1
  {
    if i > 0 {
      CountPositive(s[1..], i - 1);
    }
  }

  lemma {:induction false} CountTwice(s: seq<Level>, i: nat, j: nat)
    requires i < j < |s| && s[i].price == s[j].price
    ensures CountPrice(s, s[i].price) >= 2
  {
    if i == 0 {
      CountPositive(s[1..], j - 1);
    } else {
      CountTwice(s[1..], i - 1, j - 1);
    }
  }

  lemma {:induction false} NotAmong(s: seq<Level>, p: Price)
    requires forall i :: 0 <= i < |s| ==> s[i].price != p
    ensures CountPrice(s, p) == 0
  {
    if s != [] {
      NotAmong(s[1..], p);
    }
  }

  lemma {:induction false} DistinctCountsOnce(s: seq<Level>, p: Price)
    requires DistinctPrices(s)
    ensures CountPrice(s, p) <= 1
  {
    if s != [] {
      DistinctCountsOnce(s[1..], p);
      if s[0].price == p {
        NotAmong(s[1..], p);
      }
    }
  }

  lemma {:induction false} NoRowAt(raw: seq<WireLevel>, p: Price)
    ensures CountPrice(LevelsOf(raw), p) == 0 <==> forall r :: r in raw && Usable(r) ==> r.price != Some(p)
  {
    if raw != [] {
      NoRowAt(raw[1..], p);
      assert forall r :: r in raw <==> r == raw[0] || r in raw[1..];
      CountsSplit(raw, p);
    }
  }

  lemma CountsSplit(raw: seq<WireLevel>, p: Price)
    requires raw != []
    ensures CountPrice(LevelsOf(raw), p)
      == CountPrice(LevelsOf(raw[1..]), p) + if Usable(raw[0]) && raw[0].price == Some(p) then 1 else 0
  {
    var tail := LevelsOf(raw[1..]);
    if Usable(raw[0]) {
      OneMoreCount(Level(raw[0].price.value, raw[0].size.value), tail, p);
    } else {
      assert [] + tail == tail;
    }
  }

  lemma OneMoreCount(l: Level, s: seq<Level>, p: Price)
    ensures CountPrice([l] + s, p) == CountPrice(s, p) + if l.price == p then 1 else 0
  {
    assert ([l] + s)[1..] == s;
  }

  lemma {:induction false} DistinctRowsCountOnce(raw: seq<WireLevel>, p: Price)
    requires DistinctRows(raw)
    ensures CountPrice(LevelsOf(raw), p) <= 1
  {
    hide LevelsOf;
    if raw != [] {
      assert forall i :: 0 <= i < |raw[1..]| ==> raw[1..][i] == raw[i + 1];
      DistinctRowsCountOnce(raw[1..], p);
      CountsSplit(raw, p);
      NoRowAt(raw[1..], p);
    } else {
      NoRowAt([], p);
    }
  }

  lemma {:induction false} RowsCountPositive(raw: seq<WireLevel>, i: nat, p: Price)
    requires i < |raw| && Usable(raw[i]) && raw[i].price == Some(p)
    ensures CountPrice(LevelsOf(raw), p) >= 1
  {
    hide LevelsOf;
    CountsSplit(raw, p);
    if i > 0 {
      RowsCountPositive(raw[1..], i - 1, p);
    }
  }

  lemma {:induction false} RowsCountTwice(raw: seq<WireLevel>, i: nat, j: nat, p: Price)
    requires i < j < |raw| && Usable(raw[i]) && Usable(raw[j]) && raw[i].price == raw[j].price == Some(p)
    ensures CountPrice(LevelsOf(raw), p) >= 2
  {
    hide LevelsOf;
    CountsSplit(raw, p);
    if i == 0 {
      RowsCountPositive(raw[1..], j - 1, p);
    } else {
      RowsCountTwice(raw[1..], i - 1, j - 1, p);
    }
  }

  lemma DistinctRowsExactly(raw: seq<WireLevel>)
    ensures DistinctPrices(LevelsOf(raw)) <==> DistinctRows(raw)
  {
    hide LevelsOf;
    var s := LevelsOf(raw);
    if DistinctPrices(s) {
      forall i, j | 0 <= i < j < |raw| && Usable(raw[i]) && Usable(raw[j])
        ensures raw[i].price != raw[j].price
      {
        if raw[i].price == raw[j].price {
          DistinctCountsOnce(s, raw[i].price.value);
          RowsCountTwice(raw, i, j, raw[i].price.value);
        }
      }
    }
    if DistinctRows(raw) {
      forall i, j | 0 <= i < j < |s|
        ensures s[i].price != s[j].price
      {
        if s[i].price == s[j].price {
          DistinctRowsCountOnce(raw, s[i].price);
          CountTwice(s, i, j);
        }
      }
    }
  }

  /** A snapshot side is strict exactly when the usable rows of the wire have distinct prices, and has
      then exactly the entries the wire lists, whatever order it has them in. */
  lemma SnapshotSideIsStrictExactly(taker: Side, raw: seq<WireLevel>)
    ensures StrictSide(taker, SnapshotSide(taker, raw)) <==> DistinctRows(raw)
    ensures DistinctRows(raw) ==> Represents(SnapshotSide(taker, raw), Listed(raw))
  {
    var s := LevelsOf(raw);
    LevelsArePositive(raw);
    DistinctRowsExactly(raw);
    if DistinctRows(raw) {
      SortStrict(taker, s);
      ListedExactly(raw);
      forall l: Level
        ensures l in SnapshotSide(taker, raw) <==> l.size > 0.0 && RowOf(l) in raw
      {
        SideListsTheWire(taker, raw, l);
        assert l in SnapshotSide(taker, raw) <==> l in multiset(SnapshotSide(taker, raw));
        assert RowOf(l) in raw <==> RowOf(l) in multiset(raw);
      }
    }
    if StrictSide(taker, SnapshotSide(taker, raw)) {
      forall i, j | 0 <= i < j < |s|
        ensures s[i].price != s[j].price
      {
        DistinctCountsOnce(SortSide(taker, s), s[i].price);
        SortCounts(taker, s, s[i].price);
        if s[i].price == s[j].price {
          CountTwice(s, i, j);
        }
      }
    }
  }

  /** Two strict sides with the same levels are the same list: the map determines the book. */
  lemma {:induction false} MapDeterminesSide(taker: Side, a: seq<Level>, b: seq<Level>)
    requires StrictSide(taker, a) && StrictSide(taker, b)
    requires forall l: Level :: l in a <==> l in b
    ensures a == b
  {
    assert |b| > 0 ==> b[0] in b;
    if a != [] {
      assert a[0] in a;
      assert a[0] in b;
      assert b[0] in b;
      assert b[0] in a;
      assert a[0] == b[0];
      forall l: Level
        ensures l in a[1..] <==> l in b[1..]
      {
        assert l in a <==> l == a[0] || l in a[1..];
        assert l in b <==> l == b[0] || l in b[1..];
      }
      MapDeterminesSide(taker, a[1..], b[1..]);
    }
  }

  // ----- the builder refines a map of maps

  datatype PriceMaps = PriceMaps(bids: PriceMap, asks: PriceMap)

  /** The number is there and is a price. */
  predicate IsPrice(d: Option<real>) {
    d.Some? && 0.0 < d.value < 1.0
  }

  /** A change that says what happened to a level: one without a usable price and size is passed over. */
  predicate IsChange(w: WireFrame) {
    w.PriceChange? && IsPrice(w.price) && w.size.Some?
  }

  /** `q` is the best price of the map, if a usable quote is given at all. */
  ghost predicate QuoteAgrees(taker: Side, m: PriceMap, q: Option<real>) {
    IsPrice(q) ==> q.value in m && forall p :: p in m ==> AtLeastAsGood(taker, q.value, p)
  }

  /** What a change does to the maps of its token. */
  function Moved(m: PriceMaps, w: WireFrame): PriceMaps
    requires IsChange(w)
  {
    if w.side == Buy then m.(bids := Replaced(m.bids, w.price.value, w.size.value))
    else m.(asks := Replaced(m.asks, w.price.value, w.size.value))
  }

  ghost predicate QuotesAgree(m: PriceMaps, w: WireFrame)
    requires IsChange(w)
  {
    QuoteAgrees(Sell, m.bids, w.bestBid) && QuoteAgrees(Buy, m.asks, w.bestAsk)
  }

  /** A change on the maps: replace or delete, then keep the token if it agrees with the quotes. */
  ghost function AbstractChange(a: map<TokenId, PriceMaps>, w: WireFrame): map<TokenId, PriceMaps> {
    if !IsChange(w) || w.token !in a then a
    else
      var m := Moved(a[w.token], w);
      if QuotesAgree(m, w) then a[w.token := m] else a - {w.token}
  }

  ghost predicate BookRefines(b: OrderBook, m: PriceMaps) {
    StrictBook(b) && Represents(b.bids, m.bids) && Represents(b.asks, m.asks)
  }

  /** The token is held exactly where the maps hold it, and its book is then theirs. */
  ghost predicate Refines(s: Books, a: map<TokenId, PriceMaps>, t: TokenId) {
    && (t in s.books <==> t in a)
    && (t in a ==> BookRefines(s.books[t], a[t]))
  }

  /** What reaches a builder over time: parsed frames, and minimum sizes learned elsewhere. */
  datatype FeedStep =
    | Received(frame: WireFrame, at: int)
    | MinimumLearned(learned: TokenId, minimum: real)

  function AfterStep(s: Books, step: FeedStep): Books {
    match step
    case Received(w, at) => AfterEvent(s, Parsed(w), at).state
    case MinimumLearned(t, v) => s.(minOrderSize := s.minOrderSize[t := v])
  }

  /** The builder after a whole feed, from nothing. */
  function Fed(feed: seq<FeedStep>): Books {
    if feed == [] then Books(map[], map[], 0) else AfterStep(Fed(feed[..|feed| - 1]), feed[|feed| - 1])
  }

  function WireMaps(w: WireBook): PriceMaps {
    PriceMaps(Listed(w.bids), Listed(w.asks))
  }

  /** The maps read a snapshot straight off the wire, in whatever order it lists its levels. */
  ghost function AbstractStep(a: map<TokenId, PriceMaps>, step: FeedStep): map<TokenId, PriceMaps> {
    if step.MinimumLearned? then a
    else if step.frame.BookFrame? then a[step.frame.book.token := WireMaps(step.frame.book)]
    else AbstractChange(a, step.frame)
  }

  ghost function AbstractFed(feed: seq<FeedStep>): map<TokenId, PriceMaps> {
    if feed == [] then map[] else AbstractStep(AbstractFed(feed[..|feed| - 1]), feed[|feed| - 1])
  }

  /** The step changes a level of the token. */
  predicate ChangesLevel(step: FeedStep, t: TokenId) {
    step.Received? && IsChange(step.frame) && step.frame.token == t
  }

  /** The step is a book frame of the token. */
  predicate Announces(step: FeedStep, t: TokenId) {
    step.Received? && step.frame.BookFrame? && step.frame.book.token == t
  }

  /** A book frame of the token has distinct usable prices on either side. */
  ghost predicate DistinctFrame(step: FeedStep, t: TokenId) {
    Announces(step, t) ==>
      DistinctRows(step.frame.book.bids) && DistinctRows(step.frame.book.asks)
  }

  ghost predicate DistinctFrames(feed: seq<FeedStep>, t: TokenId) {
    forall i :: 0 <= i < |feed| ==> DistinctFrame(feed[i], t)
  }

  lemma BestIsFirst(taker: Side, s: seq<Level>, m: PriceMap, q: Price)
    requires StrictSide(taker, s) && Represents(s, m)
    ensures s != [] && s[0].price == q <==> QuoteAgrees(taker, m, Some(q))
  {
    if s != [] {
      assert s[0] in s;
      forall p | p in m
        ensures AtLeastAsGood(taker, s[0].price, p)
      {
        assert Level(p, m[p]) in s;
      }
    }
    if QuoteAgrees(taker, m, Some(q)) {
      assert Level(q, m[q]) in s;
    }
  }

  lemma ParsedChange(w: WireFrame)
    requires IsChange(w)
    ensures var ev := Parsed(w);
      && ev.LevelChange? && ev.token == w.token && ev.side == w.side
      && ev.price == w.price.value && ev.size == w.size.value
      && (if IsPrice(w.bestBid) then ev.bestBid == Some(w.bestBid.value) else ev.bestBid == None)
      && (if IsPrice(w.bestAsk) then ev.bestAsk == Some(w.bestAsk.value) else ev.bestAsk == None)
  {
  }

  lemma ParsedOther(w: WireFrame)
    requires !IsChange(w)
    ensures !Parsed(w).LevelChange?
    ensures Parsed(w).Snapshot? <==> w.BookFrame?
  {
  }

  lemma DriftIsDisagreement(b: OrderBook, m: PriceMaps, w: WireFrame)
    requires BookRefines(b, m) && IsChange(w)
    ensures !Drifted(b, Parsed(w).bestBid, Parsed(w).bestAsk) <==> QuotesAgree(m, w)
  {
    hide StrictSide, Represents, Parsed;
    ParsedChange(w);
    if IsPrice(w.bestBid) {
      BestIsFirst(Sell, b.bids, m.bids, w.bestBid.value);
    }
    if IsPrice(w.bestAsk) {
      BestIsFirst(Buy, b.asks, m.asks, w.bestAsk.value);
    }
  }

  /** The book a change leaves, before it is checked against the quotes. */
  function Changed(b: OrderBook, w: WireFrame, at: int): OrderBook
    requires IsChange(w)
  {
    ChangedBook(b, w.side, w.price.value, w.size.value, at)
  }

  lemma ChangeRefines(b: OrderBook, m: PriceMaps, w: WireFrame, at: int)
    requires BookRefines(b, m) && IsChange(w)
    ensures BookRefines(Changed(b, w, at), Moved(m, w))
  {
    hide StrictSide, Represents, Replaced, ReplaceLevel;
    if w.side == Buy {
      ReplaceLevelRefines(Sell, b.bids, m.bids, w.price.value, w.size.value);
    } else {
      ReplaceLevelRefines(Buy, b.asks, m.asks, w.price.value, w.size.value);
    }
  }

  lemma SnapshotRefines(w: WireBook, n: nat)
    requires DistinctRows(w.bids) && DistinctRows(w.asks)
    ensures BookRefines(ToBook(w, n), WireMaps(w))
  {
    hide Listed, Represents, StrictSide, SnapshotSide, DistinctRows;
    SnapshotSideIsStrictExactly(Sell, w.bids);
    SnapshotSideIsStrictExactly(Buy, w.asks);
  }

  lemma StepRefines(s: Books, a: map<TokenId, PriceMaps>, step: FeedStep, t: TokenId)
    requires Refines(s, a, t) && DistinctFrame(step, t)
    ensures Refines(AfterStep(s, step), AbstractStep(a, step), t)
  {
    hide StrictSide, Represents, Moved, ChangedBook, QuotesAgree, Drifted, Listed, DistinctRows, SnapshotSide, IsChange;
    if Announces(step, t) {
      SnapshotRefines(step.frame.book, step.frame.seqNo);
    } else if ChangesLevel(step, t) {
      ParsedChange(step.frame);
      if t in a {
        ChangeRefines(s.books[t], a[t], step.frame, step.at);
        DriftIsDisagreement(Changed(s.books[t], step.frame, step.at), Moved(a[t], step.frame), step.frame);
      }
    } else if step.Received? {
      if IsChange(step.frame) {
        ParsedChange(step.frame);
      } else {
        ParsedOther(step.frame);
      }
    }
  }

  /** Over any feed in which the token's own book frames have distinct usable prices, whatever other
      tokens do and with minimum sizes learned at any time, the builder holds its book exactly where the
      replace-or-delete maps say one survives, and the book is strictly best-first with positive sizes
      and has exactly the entries of its maps. */
  lemma {:induction false} StreamRefinesMaps(feed: seq<FeedStep>, t: TokenId)
    requires DistinctFrames(feed, t)
    ensures Refines(Fed(feed), AbstractFed(feed), t)
  {
    hide BookRefines, AfterStep, AbstractStep, DistinctFrame;
    if feed != [] {
      var before := feed[..|feed| - 1];
      assert forall i :: 0 <= i < |before| ==> before[i] == feed[i];
      StreamRefinesMaps(before, t);
      StepRefines(Fed(before), AbstractFed(before), feed[|feed| - 1], t);
    }
  }

  // ----- a venue that tells the truth

  /** The step tells the truth about the token: a book frame shows its levels, a change is what happened
      to them and quotes their best prices, and nothing else happens to them. */
  ghost predicate HonestStep(m: PriceMaps, m': PriceMaps, step: FeedStep, t: TokenId) {
    if Announces(step, t) then DistinctFrame(step, t) && m' == WireMaps(step.frame.book)
    else if ChangesLevel(step, t) then m' == Moved(m, step.frame) && QuotesAgree(m', step.frame)
    else m' == m
  }

  /** `truth` is what the token's levels really were before, between and after the steps. */
  ghost predicate HonestFeed(truth: seq<PriceMaps>, feed: seq<FeedStep>, t: TokenId) {
    |truth| == |feed| + 1 && forall i :: 0 <= i < |feed| ==> HonestStep(truth[i], truth[i + 1], feed[i], t)
  }

  lemma HonestStepKeepsBook(s: Books, m: PriceMaps, m': PriceMaps, step: FeedStep, t: TokenId)
    requires (t in s.books ==> BookRefines(s.books[t], m)) && HonestStep(m, m', step, t)
    ensures var s' := AfterStep(s, step);
      && (t in s'.books <==> t in s.books || Announces(step, t))
      && (t in s'.books ==> BookRefines(s'.books[t], m'))
      && (ChangesLevel(step, t) ==> s'.integrityFailures == s.integrityFailures)
  {
    hide StrictSide, Represents, Moved, ChangedBook, QuotesAgree, Drifted, Listed, DistinctRows, SnapshotSide, IsChange;
    if Announces(step, t) {
      SnapshotRefines(step.frame.book, step.frame.seqNo);
    } else if ChangesLevel(step, t) {
      ParsedChange(step.frame);
      if t in s.books {
        ChangeRefines(s.books[t], m, step.frame, step.at);
        DriftIsDisagreement(Changed(s.books[t], step.frame, step.at), m', step.frame);
      }
    } else if step.Received? {
      if IsChange(step.frame) {
        ParsedChange(step.frame);
      } else {
        ParsedOther(step.frame);
      }
    }
  }

  /** While the venue is honest about a token, its book is held from its first book frame on, is never
      dropped, and is at every moment exactly the true book. */
  lemma {:induction false} HonestFeedsKeepTrueBooks(truth: seq<PriceMaps>, feed: seq<FeedStep>, t: TokenId, k: nat)
    requires HonestFeed(truth, feed, t) && k <= |feed|
    ensures t in Fed(feed[..k]).books <==> exists i :: 0 <= i < k && Announces(feed[i], t)
    ensures t in Fed(feed[..k]).books ==> BookRefines(Fed(feed[..k]).books[t], truth[k])
  {
    hide BookRefines, AfterStep, HonestStep, Announces;
    if k > 0 {
      HonestFeedsKeepTrueBooks(truth, feed, t, k - 1);
      assert feed[..k][..k - 1] == feed[..k - 1];
      HonestStepKeepsBook(Fed(feed[..k - 1]), truth[k - 1], truth[k], feed[k - 1], t);
    }
  }

  /** While the venue is honest about every token, the integrity check never fires. */
  lemma {:induction false} HonestFeedsNeverFail(truths: TokenId -> seq<PriceMaps>, feed: seq<FeedStep>, k: nat)
    requires (forall t :: HonestFeed(truths(t), feed, t)) && k <= |feed|
    ensures Fed(feed[..k]).integrityFailures == 0
  {
    hide BookRefines, AfterStep, HonestStep, Announces, HonestFeed;
    if k > 0 {
      HonestFeedsNeverFail(truths, feed, k - 1);
      assert feed[..k][..k - 1] == feed[..k - 1];
      var s, step := Fed(feed[..k - 1]), feed[k - 1];
      if step.Received? && IsChange(step.frame) {
        var t := step.frame.token;
        var truth := truths(t);
        assert HonestFeed(truth, feed, t);
        HonestFeedsKeepTrueBooks(truth, feed, t, k - 1);
        HonestAt(truth, feed, t, k - 1);
        HonestStepKeepsBook(s, truth[k - 1], truth[k], step, t);
      } else {
        OnlyChangesFail(s, step);
      }
    }
  }

  lemma HonestAt(truth: seq<PriceMaps>, feed: seq<FeedStep>, t: TokenId, i: nat)
    requires HonestFeed(truth, feed, t) && i < |feed|
    ensures |truth| == |feed| + 1 && HonestStep(truth[i], truth[i + 1], feed[i], t)
  {
  }

  lemma OnlyChangesFail(s: Books, step: FeedStep)
    requires step.Received? ==> !IsChange(step.frame)
    ensures AfterStep(s, step).integrityFailures == s.integrityFailures
  {
    hide Parsed;
    if step.Received? {
      ParsedOther(step.frame);
    }
  }

  // ----- agreement with the venue's own best prices

  /** A book that survives a level change agrees with every best price quoted on it, and is uncrossed
      if both were quoted in order; one that does not survive disagreed with a quote. */
  lemma SurvivorsAgreeWithQuotes(s: Books, ev: MarketEvent, at: int)
    requires ev.LevelChange? && ev.token in s.books
    ensures var s' := AfterEvent(s, ev, at).state;
      if ev.token in s'.books then
        var b := s'.books[ev.token];
        && (ev.bestBid.Some? ==> BestBid(b) == ev.bestBid)
        && (ev.bestAsk.Some? ==> BestAsk(b) == ev.bestAsk)
        && (ev.bestBid.Some? && ev.bestAsk.Some? && ev.bestBid.value < ev.bestAsk.value ==> Uncrossed(b))
        && s'.integrityFailures == s.integrityFailures
      else
        var b := ChangedBook(s.books[ev.token], ev.side, ev.price, ev.size, at);
        && ((ev.bestBid.Some? && BestBid(b) != ev.bestBid) || (ev.bestAsk.Some? && BestAsk(b) != ev.bestAsk))
        && s'.integrityFailures == s.integrityFailures + 1
  {
    hide ChangedBook;
  }

  /** The last frame that set or changed the levels of a token's book. */
  function LastOn(feed: seq<FeedStep>, t: TokenId): Option<WireFrame> {
    if feed == [] then None
    else
      var n := |feed| - 1;
      if Announces(feed[n], t) || ChangesLevel(feed[n], t) then Some(feed[n].frame) else LastOn(feed[..n], t)
  }

  /** `b` shows the levels of a book frame, or the best prices a change quoted. */
  predicate Shows(b: OrderBook, w: WireFrame) {
    if w.BookFrame? then b.bids == SnapshotSide(Sell, w.book.bids) && b.asks == SnapshotSide(Buy, w.book.asks)
    else
      && w.PriceChange?
      && (IsPrice(w.bestBid) ==> b.bids != [] && b.bids[0].price == w.bestBid.value)
      && (IsPrice(w.bestAsk) ==> b.asks != [] && b.asks[0].price == w.bestAsk.value)
  }

  /** Over any feed, whatever came for other tokens in between, a book that is held agrees with the
      last snapshot or change of its own token, including every best price quoted on it. */
  lemma {:induction false} HeldBooksAgreeWithLastQuotes(feed: seq<FeedStep>, t: TokenId)
    requires t in Fed(feed).books
    ensures LastOn(feed, t).Some? && Shows(Fed(feed).books[t], LastOn(feed, t).value)
  {
    hide ChangedBook, Parsed, SnapshotSide;
    var n := |feed| - 1;
    var before, last := Fed(feed[..n]), feed[n];
    if Announces(last, t) {
      ParsedSnapshot(last.frame);
    } else if ChangesLevel(last, t) {
      ParsedChange(last.frame);
      SurvivorsAgreeWithQuotes(before, Parsed(last.frame), last.at);
    } else {
      StepKeepsOthers(before, last, t);
      HeldBooksAgreeWithLastQuotes(feed[..n], t);
    }
  }

  lemma ParsedSnapshot(w: WireFrame)
    requires w.BookFrame?
    ensures Parsed(w) == Snapshot(ToBook(w.book, w.seqNo))
  {
  }

  lemma StepKeepsOthers(s: Books, step: FeedStep, t: TokenId)
    requires !Announces(step, t) && !ChangesLevel(step, t)
    requires t in AfterStep(s, step).books
    ensures t in s.books
    ensures var b, b' := s.books[t], AfterStep(s, step).books[t];
      b'.bids == b.bids && b'.asks == b.asks
  {
    hide ChangedBook, Parsed, SnapshotSide;
    if step.Received? {
      if IsChange(step.frame) {
        ParsedChange(step.frame);
      } else {
        ParsedOther(step.frame);
        if step.frame.BookFrame? {
          ParsedSnapshot(step.frame);
        }
      }
    }
  }

  /** The minimum size last learned for a token. */
  function LastMinimum(feed: seq<FeedStep>, t: TokenId): Option<real> {
    if feed == [] then None
    else
      var n := |feed| - 1;
      if feed[n].MinimumLearned? && feed[n].learned == t then Some(feed[n].minimum) else LastMinimum(feed[..n], t)
  }

  /** What a book says besides its levels. */
  datatype Header = Header(market: MarketId, tickSize: real, minOrderSize: real, timestamp: int, seqNo: nat)

  /** What the feed has last said of a token. A book frame says all of it: a tick of 0.01 if it gives
      none, and the minimum size learned by then, or 5. A change is one more event, at its own time; a
      tick change renews the time. */
  function HeaderOn(feed: seq<FeedStep>, t: TokenId): Option<Header> {
    if feed == [] then None
    else
      var n := |feed| - 1;
      var h := HeaderOn(feed[..n], t);
      if Announces(feed[n], t) then
        var w, learned := feed[n].frame.book, LastMinimum(feed[..n], t);
        Some(Header(
          w.market, if w.tickSize.Some? then w.tickSize.value else 0.01, if learned.Some? then learned.value else 5.0,
          w.timestamp, feed[n].frame.seqNo))
      else if h.None? then None
      else if ChangesLevel(feed[n], t) then Some(h.value.(timestamp := feed[n].at, seqNo := h.value.seqNo + 1))
      else if feed[n].Received? && feed[n].frame.NewTickSize? && feed[n].frame.tickToken == t then
        match feed[n].frame.newTick
        case Some(tick) => Some(h.value.(tickSize := tick, timestamp := feed[n].at))
        case None => h
      else h
  }

  lemma {:induction false} MinimumsAreRemembered(feed: seq<FeedStep>, t: TokenId)
    ensures (t in Fed(feed).minOrderSize <==> LastMinimum(feed, t).Some?)
    ensures t in Fed(feed).minOrderSize ==> Fed(feed).minOrderSize[t] == LastMinimum(feed, t).value
  {
    hide Parsed, ChangedBook, Drifted;
    if feed != [] {
      MinimumsAreRemembered(feed[..|feed| - 1], t);
    }
  }

  /** Over any feed, a held book is its token's and says of it what the feed last said. */
  lemma {:induction false} HeldBooksCarryTheirHeader(feed: seq<FeedStep>, t: TokenId)
    requires t in Fed(feed).books
    ensures var b := Fed(feed).books[t];
      b.token == t && HeaderOn(feed, t) == Some(Header(b.market, b.tickSize, b.minOrderSize, b.timestamp, b.seqNo))
  {
    hide SnapshotSide, ReplaceLevel, Drifted, LastMinimum, Parsed;
    var n := |feed| - 1;
    MinimumsAreRemembered(feed[..n], t);
    if Announces(feed[n], t) {
      ParsedSnapshot(feed[n].frame);
    } else {
      HeldBeforehand(Fed(feed[..n]), feed[n], t);
      HeldBooksCarryTheirHeader(feed[..n], t);
      if feed[n].Received? {
        if IsChange(feed[n].frame) {
          ParsedChange(feed[n].frame);
        } else {
          ParsedOther(feed[n].frame);
          if feed[n].frame.BookFrame? {
            ParsedSnapshot(feed[n].frame);
          } else {
            ParsedTick(feed[n].frame);
          }
        }
      }
    }
  }

  lemma ParsedTick(w: WireFrame)
    requires !IsChange(w) && !w.BookFrame?
    ensures Parsed(w)
      == if w.NewTickSize? && w.newTick.Some? then TickSizeChanged(w.tickToken, w.newTick.value) else Ignored
  {
  }

  /** The token reported with an event is the only one whose book can have come, gone or changed. */
  lemma OnlyTheReportedTokenChanges(s: Books, ev: MarketEvent, at: int, t: TokenId)
    ensures var r := AfterEvent(s, ev, at);
      r.token != Some(t) ==>
        (t in r.state.books <==> t in s.books) && (t in s.books ==> r.state.books[t] == s.books[t])
  {
    hide ChangedBook, Drifted;
  }

  lemma HeldBeforehand(s: Books, step: FeedStep, t: TokenId)
    requires t in AfterStep(s, step).books && !Announces(step, t)
    ensures t in s.books
  {
    hide ChangedBook, SnapshotSide;
  }

  /** A book frame every bid of which is below every ask, or a change that quotes both best prices in order. */
  ghost predicate QuotedInOrder(w: WireFrame) {
    if w.BookFrame? then
      forall x, y :: x in w.book.bids && y in w.book.asks && Usable(x) && Usable(y) ==> x.price.value < y.price.value
    else
      w.PriceChange? && IsPrice(w.bestBid) && IsPrice(w.bestAsk) && w.bestBid.value < w.bestAsk.value
  }

  /** The best price of a snapshot side is one the wire lists. */
  lemma TouchIsListed(taker: Side, raw: seq<WireLevel>)
    ensures var side := SnapshotSide(taker, raw);
      side != [] ==> exists r :: r in raw && Usable(r) && r.price == Some(side[0].price)
  {
    hide SnapshotSide, LevelsOf;
    var side := SnapshotSide(taker, raw);
    if side != [] {
      SideListsTheWire(taker, raw, side[0]);
      assert side[0] in multiset(side);
      assert RowOf(side[0]) in raw && Usable(RowOf(side[0]));
    }
  }

  lemma OrderedIsUncrossed(b: OrderBook, w: WireFrame)
    requires Shows(b, w) && QuotedInOrder(w)
    ensures Uncrossed(b)
  {
    hide SnapshotSide;
    if w.BookFrame? {
      TouchIsListed(Sell, w.book.bids);
      TouchIsListed(Buy, w.book.asks);
    }
  }

  lemma StrictIsWellFormed(b: OrderBook)
    requires StrictBook(b) && Uncrossed(b)
    ensures IsWellFormed(b)
  {
    forall i | 0 < i < |b.bids|
      ensures b.bids[i - 1].price >= b.bids[i].price
    {
      assert Better(Sell, b.bids[i - 1].price, b.bids[i].price);
    }
    forall i | 0 < i < |b.asks|
      ensures b.asks[i - 1].price <= b.asks[i].price
    {
      assert Better(Buy, b.asks[i - 1].price, b.asks[i].price);
    }
  }

  /** Over any feed with distinct prices in a token's own book frames, its book is well formed whenever
      it is held and the last event on the token was an uncrossed snapshot or was quoted on both sides in order. */
  lemma QuotedBooksAreWellFormed(feed: seq<FeedStep>, t: TokenId)
    requires DistinctFrames(feed, t) && t in Fed(feed).books
    ensures LastOn(feed, t).Some? && (QuotedInOrder(LastOn(feed, t).value) ==> IsWellFormed(Fed(feed).books[t]))
  {
    hide StrictBook, IsWellFormed, Shows, QuotedInOrder;
    StreamRefinesMaps(feed, t);
    HeldBooksAgreeWithLastQuotes(feed, t);
    if QuotedInOrder(LastOn(feed, t).value) {
      OrderedIsUncrossed(Fed(feed).books[t], LastOn(feed, t).value);
      StrictIsWellFormed(Fed(feed).books[t]);
    }
  }
}
