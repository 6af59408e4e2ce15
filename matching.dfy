/** The crossing walk of `matchLimitOrder` as functions on book values, and
    what it guarantees: trades at the resting level's price and never beyond
    the taker's limit, price-time priority, conservation of quantity, and a
    book that stays well formed. */
module Matching {
  import opened Book

  /** One execution: taker id, maker id, quantity, and the resting level's price. */
  datatype Trade = Trade(taker: string, maker: string, quantity: int, price: int)

  /** An incoming order at `limit` may trade against a level at `levelPrice`. */
  predicate Crosses(side: Side, limit: int, levelPrice: int) {
    (side == Buy && limit >= levelPrice) || (side == Sell && limit <= levelPrice)
  }

  function Min(a: int, b: int): int {
    if a <= b then a else b
  }

  /** The sum of the quantities of some trades. */
  function Traded(trades: seq<Trade>): int {
    if trades == [] then 0 else trades[0].quantity + Traded(trades[1..])
  }

  /** What filling against one queue (or a whole book) produces: the trades in
      the order they happen, the queue (or book) left behind, the taker's
      remaining quantity, and the ids removed from the index. */
  datatype Fill = Fill(trades: seq<Trade>, orders: seq<Order>, remaining: int, filled: set<string>)
  datatype Outcome = Outcome(trades: seq<Trade>, book: Book, remaining: int, filled: set<string>)

  /** The inner loop of the walk: fill the head of the queue for the smaller
      of the two quantities, drop the head when it reaches zero, and go on
      while both the queue and the taker's quantity last. */
  function FillLevel(taker: string, qty: int, price: int, orders: seq<Order>): Fill
    decreases |orders|, qty
  {
    if orders == [] || qty <= 0 then Fill([], orders, qty, {})
    else
      var maker := orders[0];
      var t := Min(qty, maker.quantity);
      var m := maker.(quantity := maker.quantity - t);
      var trade := Trade(taker, maker.id, t, price);
      if m.quantity == 0 then
        var r := FillLevel(taker, qty - t, price, orders[1..]);
        Fill([trade] + r.trades, r.orders, r.remaining, {maker.id} + r.filled)
      else
        var r := FillLevel(taker, qty - t, price, [m] + orders[1..]);
        Fill([trade] + r.trades, r.orders, r.remaining, r.filled)
  }

  /** The outer loop of the walk over the opposite book, best level first:
      stop at the first level that does not cross, fill a crossing level,
      delete it when it empties. */
  function Match(taker: string, side: Side, limit: int, qty: int, book: Book): Outcome
    decreases |book|
  {
    if book == [] || qty <= 0 || !Crosses(side, limit, book[0].price) then Outcome([], book, qty, {})
    else
      var f := FillLevel(taker, qty, book[0].price, book[0].orders);
      if f.orders == [] then
        var r := Match(taker, side, limit, f.remaining, book[1..]);
        Outcome(f.trades + r.trades, r.book, r.remaining, f.filled + r.filled)
      else
        Outcome(f.trades, [Level(book[0].price, f.orders)] + book[1..], f.remaining, f.filled)
  }

  /** Price-time priority, stated over the resting orders `F` in priority
      order and what is left of them, `rest`: some number k of orders at the
      front of F were consumed whole, in order; the trades hit F[0], F[1], ...
      at those orders' prices; at most one more order, F[k], was partly filled
      and stays in front with its quantity reduced by its trade; everything
      behind is untouched; and the ids taken out of the index are exactly
      those of the k consumed orders. */
  ghost predicate Consumed(F: seq<Order>, trades: seq<Trade>, rest: seq<Order>, filled: set<string>) {
    var k := |F| - |rest|;
    && 0 <= k && |trades| <= |F| && (|trades| == k || |trades| == k + 1)
    && TradedInOrder(F, trades, k)
    && filled == Ids(F[..k])
    && if |trades| == k then rest == F[k..] else PartlyFilled(F, trades, rest, k)
  }

  /** The trades hit F[0], F[1], ... at their prices, the first k for their whole quantity. */
  ghost predicate TradedInOrder(F: seq<Order>, trades: seq<Trade>, k: int) {
    && (forall i :: 0 <= i < |trades| && i < |F| ==> trades[i].maker == F[i].id && trades[i].price == F[i].price)
    && (forall i :: 0 <= i < k && i < |trades| && i < |F| ==> trades[i].quantity == F[i].quantity)
  }

  /** F[k] was partly filled by trade k and stays in front of the untouched rest. */
  ghost predicate PartlyFilled(F: seq<Order>, trades: seq<Trade>, rest: seq<Order>, k: int) {
    && 0 <= k < |F| && k < |trades|
    && 0 < trades[k].quantity < F[k].quantity
    && rest == [F[k].(quantity := F[k].quantity - trades[k].quantity)] + F[k + 1..]
  }

  /** The ids of some orders, as a set: the index removes a key once however
      many orders carry it. Kept recursive, next to the bag `IdBag`, so that
      the walk's proofs can unfold it one order at a time; `IdsInBag` relates
      the two. */
  function Ids(orders: seq<Order>): set<string> {
    if orders == [] then {} else {orders[0].id} + Ids(orders[1..])
  }

  /** One pass of the walk's inner loop. */
  lemma FillStep(taker: string, qty: int, price: int, orders: seq<Order>)
    requires orders != [] && qty > 0
    ensures var maker := orders[0];
      var t := Min(qty, maker.quantity);
      var m := maker.(quantity := maker.quantity - t);
      var rest := if m.quantity == 0 then orders[1..] else [m] + orders[1..];
      var r := FillLevel(taker, qty - t, price, rest);
      FillLevel(taker, qty, price, orders) ==
        Fill([Trade(taker, maker.id, t, price)] + r.trades, r.orders, r.remaining,
             (if m.quantity == 0 then {maker.id} else {}) + r.filled)
  {
  }

  /** One pass of the walk's outer loop over a crossing level. */
  lemma MatchStep(taker: string, side: Side, limit: int, qty: int, book: Book)
    requires book != [] && qty > 0 && Crosses(side, limit, book[0].price)
    ensures var f := FillLevel(taker, qty, book[0].price, book[0].orders);
      var r := Match(taker, side, limit, f.remaining, book[1..]);
      Match(taker, side, limit, qty, book) ==
        if f.orders == [] then Outcome(f.trades + r.trades, r.book, r.remaining, f.filled + r.filled)
        else Outcome(f.trades, [Level(book[0].price, f.orders)] + book[1..], f.remaining, f.filled)
  {
  }

  // ------------------------------------------------------------ one level

  /** The taker's quantity is conserved across the fills of one level, and
      so is the level's: each trade takes the same amount from both. */
  lemma {:induction false} FillConserves(taker: string, qty: int, price: int, orders: seq<Order>)
    ensures var f := FillLevel(taker, qty, price, orders);
      && qty == Traded(f.trades) + f.remaining
      && TotalQuantity(orders) == Traded(f.trades) + TotalQuantity(f.orders)
      && (qty >= 0 ==> f.remaining >= 0)
      && (f.orders != [] ==> f.remaining <= 0)
    decreases |orders|, qty
  {
    if orders == [] || qty <= 0 {
    } else {
      var maker := orders[0];
      var t := Min(qty, maker.quantity);
      var m := maker.(quantity := maker.quantity - t);
      var trade := Trade(taker, maker.id, t, price);
      if m.quantity == 0 {
        var r := FillLevel(taker, qty - t, price, orders[1..]);
        FillConserves(taker, qty - t, price, orders[1..]);
        assert ([trade] + r.trades)[1..] == r.trades;
      } else {
        var rest := [m] + orders[1..];
        var r := FillLevel(taker, qty - t, price, rest);
        FillConserves(taker, qty - t, price, rest);
        assert ([trade] + r.trades)[1..] == r.trades;
        assert rest[1..] == orders[1..];
      }
    }
  }

  /** Every order of the queue is at `price`. */
  predicate AtPrice(price: int, orders: seq<Order>) {
    forall k :: 0 <= k < |orders| ==> orders[k].price == price
  }

  /** Within one level only the head order is ever filled: the queue is
      consumed strictly oldest first. */
  lemma {:induction false} FillPriority(taker: string, qty: int, price: int, orders: seq<Order>)
    requires AtPrice(price, orders)
    ensures Consumed(orders, FillLevel(taker, qty, price, orders).trades,
                     FillLevel(taker, qty, price, orders).orders, FillLevel(taker, qty, price, orders).filled)
    decreases |orders|, qty
  {
    if orders == [] || qty <= 0 {
      assert orders[0..] == orders;
    } else if orders[0].quantity <= qty {
      assert AtPrice(price, orders[1..]) by {
        forall k | 0 <= k < |orders[1..]| ensures orders[1..][k].price == price {
          assert orders[1..][k] == orders[k + 1];
        }
      }
      FillPriority(taker, qty - orders[0].quantity, price, orders[1..]);
      FillWholeStep(taker, qty, price, orders);
    } else {
      FillPartialStep(taker, qty, price, orders);
    }
  }

  /** The head order is consumed whole, then the rest of the queue is walked. */
  lemma FillWholeStep(taker: string, qty: int, price: int, orders: seq<Order>)
    requires orders != [] && 0 < qty && orders[0].quantity <= qty && orders[0].price == price
    requires var s := FillLevel(taker, qty - orders[0].quantity, price, orders[1..]);
      Consumed(orders[1..], s.trades, s.orders, s.filled)
    ensures var r := FillLevel(taker, qty, price, orders);
      Consumed(orders, r.trades, r.orders, r.filled)
  {
    var maker := orders[0];
    var trade := Trade(taker, maker.id, maker.quantity, price);
    var s := FillLevel(taker, qty - maker.quantity, price, orders[1..]);
    var r := FillLevel(taker, qty, price, orders);
    assert Min(qty, maker.quantity) == maker.quantity;
    assert r == Fill([trade] + s.trades, s.orders, s.remaining, {maker.id} + s.filled);
    ConsumedWhole(orders, trade, s.trades, s.orders, s.filled, r.trades, r.filled);
  }

  /** The head order is partly filled and the walk of the level ends. */
  lemma FillPartialStep(taker: string, qty: int, price: int, orders: seq<Order>)
    requires orders != [] && 0 < qty < orders[0].quantity && orders[0].price == price
    ensures var r := FillLevel(taker, qty, price, orders);
      Consumed(orders, r.trades, r.orders, r.filled)
  {
    var maker := orders[0];
    var rest := [maker.(quantity := maker.quantity - qty)] + orders[1..];
    var r := FillLevel(taker, qty, price, orders);
    FillStep(taker, qty, price, orders);
    assert FillLevel(taker, 0, price, rest) == Fill([], rest, 0, {});
    assert r.trades == [Trade(taker, maker.id, qty, price)] && r.orders == rest && r.filled == {};
    ConsumedPartial(orders, Trade(taker, maker.id, qty, price));
  }

  /** Every fill of a level is a trade of the taker's. */
  lemma {:induction false} FillByTaker(taker: string, qty: int, price: int, orders: seq<Order>)
    ensures forall i :: 0 <= i < |FillLevel(taker, qty, price, orders).trades| ==>
      FillLevel(taker, qty, price, orders).trades[i].taker == taker
    decreases |orders|, qty
  {
    if orders != [] && qty > 0 {
      var maker := orders[0];
      var t := Min(qty, maker.quantity);
      var rest := if maker.quantity - t == 0 then orders[1..] else [maker.(quantity := maker.quantity - t)] + orders[1..];
      FillStep(taker, qty, price, orders);
      FillByTaker(taker, qty - t, price, rest);
    }
  }

  /** The head order consumed whole by one trade, then the rest of the queue. */
  lemma ConsumedWhole(orders: seq<Order>, trade: Trade, ts: seq<Trade>, rest: seq<Order>, filled: set<string>,
                      ts': seq<Trade>, filled': set<string>)
    requires orders != []
    requires trade.maker == orders[0].id && trade.price == orders[0].price && trade.quantity == orders[0].quantity
    requires Consumed(orders[1..], ts, rest, filled)
    requires ts' == [trade] + ts && filled' == {orders[0].id} + filled
    ensures Consumed(orders, ts', rest, filled')
  {
    var maker := orders[0];
    assert Consumed([maker], [trade], [], {maker.id}) by {
      assert [maker][..1] == [maker];
    }
    ConsumedAppend([maker], [trade], {maker.id}, orders[1..], ts, rest, filled);
    assert [maker] + orders[1..] == orders;
  }

  /** The head order partly filled by one trade. */
  lemma ConsumedPartial(orders: seq<Order>, trade: Trade)
    requires orders != []
    requires trade.maker == orders[0].id && trade.price == orders[0].price
    requires 0 < trade.quantity < orders[0].quantity
    ensures Consumed(orders, [trade], [orders[0].(quantity := orders[0].quantity - trade.quantity)] + orders[1..], {})
  {
    assert orders[..0] == [];
  }

  // ------------------------------------------------------ composing levels

  lemma TradedAppend(a: seq<Trade>, b: seq<Trade>)
    ensures Traded(a + b) == Traded(a) + Traded(b)
  {
    if a != [] {
      assert (a + b)[1..] == a[1..] + b;
      TradedAppend(a[1..], b);
    } else {
      assert a + b == b;
    }
  }

  /** A level consumed whole, followed by the rest of the walk. */
  lemma ConsumedAppend(A: seq<Order>, t1: seq<Trade>, f1: set<string>,
                       B: seq<Order>, t2: seq<Trade>, C: seq<Order>, f2: set<string>)
    requires Consumed(A, t1, [], f1) && Consumed(B, t2, C, f2)
    ensures Consumed(A + B, t1 + t2, C, f1 + f2)
  {
    var F, trades := A + B, t1 + t2;
    var k1, k2 := |A|, |B| - |C|;
    var k := k1 + k2;
    assert |t1| == k1 && A[..k1] == A;
    assert TradedInOrder(F, trades, k) by {
      forall i | 0 <= i < |trades| && i < |F|
        ensures trades[i].maker == F[i].id && trades[i].price == F[i].price
        ensures i < k ==> trades[i].quantity == F[i].quantity
      {
        if i >= k1 {
          assert trades[i] == t2[i - k1] && F[i] == B[i - k1];
        } else {
          assert trades[i] == t1[i] && F[i] == A[i];
        }
      }
    }
    assert f1 + f2 == Ids(F[..k]) by {
      assert F[..k] == A + B[..k2];
      IdsAppend(A, B[..k2]);
    }
    assert |F| - |C| == k && |trades| == k1 + |t2|;
    if |t2| == k2 {
      assert F[k..] == B[k2..];
    } else {
      assert F[k] == B[k2];
      assert trades[k] == t2[k2];
      assert F[k + 1..] == B[k2 + 1..];
    }
  }

  lemma {:induction false} IdsAppend(a: seq<Order>, b: seq<Order>)
    ensures Ids(a + b) == Ids(a) + Ids(b)
  {
    if a == [] {
      assert a + b == b;
    } else {
      assert (a + b)[1..] == a[1..] + b;
      IdsAppend(a[1..], b);
    }
  }

  /** A level left non-empty, with the untouched levels behind it. */
  lemma ConsumedExtend(A: seq<Order>, t: seq<Trade>, A': seq<Order>, f: set<string>, B: seq<Order>)
    requires Consumed(A, t, A', f) && A' != []
    ensures Consumed(A + B, t, A' + B, f)
  {
    var F := A + B;
    var k := |A| - |A'|;
    forall i | 0 <= i < |t| ensures F[i] == A[i] {
    }
    assert F[..k] == A[..k];
    if |t| == k {
      assert A' == A[k..];
      assert A' + B == F[k..];
    } else {
      assert F[k] == A[k];
      assert A[k + 1..] + B == F[k + 1..];
    }
  }

  /** What is left of a queue after the walk still holds only resting orders. */
  lemma ConsumedRestOk(bookSide: Side, price: int, F: seq<Order>, trades: seq<Trade>, rest: seq<Order>, filled: set<string>)
    requires Consumed(F, trades, rest, filled)
    requires forall k :: 0 <= k < |F| ==> RestingAt(bookSide, price, F[k])
    ensures forall j :: 0 <= j < |rest| ==> RestingAt(bookSide, price, rest[j])
  {
    var k := |F| - |rest|;
    forall j | 0 <= j < |rest| ensures RestingAt(bookSide, price, rest[j]) {
      assert RestingAt(bookSide, price, F[k + j]);
    }
  }

  // ------------------------------------------------------- the whole walk

  /** Conservation: the taker's original quantity is what it traded plus what
      is left, and the opposite book loses exactly the traded quantity. */
  lemma {:induction false} MatchConserves(taker: string, side: Side, limit: int, qty: int, book: Book)
    ensures qty == Traded(Match(taker, side, limit, qty, book).trades) + Match(taker, side, limit, qty, book).remaining
    ensures TotalQuantity(Flatten(book)) ==
      Traded(Match(taker, side, limit, qty, book).trades) + TotalQuantity(Flatten(Match(taker, side, limit, qty, book).book))
    ensures qty >= 0 ==> Match(taker, side, limit, qty, book).remaining >= 0
    decreases |book|
  {
    if book == [] || qty <= 0 || !Crosses(side, limit, book[0].price) {
    } else {
      var f := FillLevel(taker, qty, book[0].price, book[0].orders);
      FillConserves(taker, qty, book[0].price, book[0].orders);
      TotalAppend(book[0].orders, Flatten(book[1..]));
      if f.orders == [] {
        var r := Match(taker, side, limit, f.remaining, book[1..]);
        MatchConserves(taker, side, limit, f.remaining, book[1..]);
        TradedAppend(f.trades, r.trades);
      } else {
        var nb := [Level(book[0].price, f.orders)] + book[1..];
        assert nb[1..] == book[1..];
        TotalAppend(f.orders, Flatten(book[1..]));
      }
    }
  }

  /** Price-time priority across the whole walk: the trades consume the
      opposite book's resting orders in its priority order (best level
      first, oldest first within a level), each at that order's price,
      leaving at most one of them partly filled at the front. */
  lemma {:induction false} MatchPriority(taker: string, side: Side, limit: int, qty: int, book: Book, bookSide: Side)
    requires WellFormed(bookSide, book)
    ensures var r := Match(taker, side, limit, qty, book);
      Consumed(Flatten(book), r.trades, Flatten(r.book), r.filled)
    decreases |book|
  {
    var r := Match(taker, side, limit, qty, book);
    if book == [] || qty <= 0 || !Crosses(side, limit, book[0].price) {
      var F := Flatten(book);
      assert F[0..] == F;
    } else {
      var l := book[0];
      assert LevelOk(bookSide, l);
      var f := FillLevel(taker, qty, l.price, l.orders);
      FillPriority(taker, qty, l.price, l.orders);
      MatchStep(taker, side, limit, qty, book);
      assert WellFormed(bookSide, book[1..]);
      if f.orders == [] {
        var s := Match(taker, side, limit, f.remaining, book[1..]);
        MatchPriority(taker, side, limit, f.remaining, book[1..], bookSide);
        ConsumedAppend(l.orders, f.trades, f.filled, Flatten(book[1..]), s.trades, Flatten(s.book), s.filled);
      } else {
        var nb := [Level(l.price, f.orders)] + book[1..];
        assert nb[1..] == book[1..];
        ConsumedExtend(l.orders, f.trades, f.orders, f.filled, Flatten(book[1..]));
      }
    }
  }

  /** The walk keeps the opposite book well formed: sorted, no empty level,
      positive quantities. */
  lemma {:induction false} MatchWellFormed(taker: string, side: Side, limit: int, qty: int, book: Book, bookSide: Side)
    requires WellFormed(bookSide, book)
    ensures WellFormed(bookSide, Match(taker, side, limit, qty, book).book)
    ensures var r := Match(taker, side, limit, qty, book);
      |r.book| <= |book| && Prices(r.book) == Prices(book)[|book| - |r.book|..] &&
      (r.book != [] ==> r.book[1..] == book[|book| - |r.book| + 1..])
    decreases |book|
  {
    MatchLeavesSuffix(taker, side, limit, qty, book);
    if book == [] || qty <= 0 || !Crosses(side, limit, book[0].price) {
    } else {
      var l := book[0];
      assert LevelOk(bookSide, l);
      var f := FillLevel(taker, qty, l.price, l.orders);
      FillPriority(taker, qty, l.price, l.orders);
      MatchStep(taker, side, limit, qty, book);
      assert WellFormed(bookSide, book[1..]);
      if f.orders == [] {
        MatchWellFormed(taker, side, limit, f.remaining, book[1..], bookSide);
      } else {
        var nb := [Level(l.price, f.orders)] + book[1..];
        ConsumedRestOk(bookSide, l.price, l.orders, f.trades, f.orders, f.filled);
        assert LevelOk(bookSide, nb[0]);
        forall i | 0 <= i < |nb| ensures LevelOk(bookSide, nb[i]) {
          if i > 0 {
            assert nb[i] == book[i];
          }
        }
        forall i, j | 0 <= i < j < |nb| ensures Ahead(bookSide, nb[i].price, nb[j].price) {
          assert nb[i].price == book[i].price && nb[j].price == book[j].price;
        }
      }
    }
  }

  /** What the walk leaves is the old book with some best levels removed and
      possibly its new best level reduced: the remaining level prices are a
      suffix of the old ones, and every level behind the new best is an old
      level untouched. */
  lemma {:induction false} MatchLeavesSuffix(taker: string, side: Side, limit: int, qty: int, book: Book)
    ensures var r := Match(taker, side, limit, qty, book);
      |r.book| <= |book| && Prices(r.book) == Prices(book)[|book| - |r.book|..] &&
      (r.book != [] ==> r.book[1..] == book[|book| - |r.book| + 1..])
    decreases |book|
  {
    if book == [] || qty <= 0 || !Crosses(side, limit, book[0].price) {
    } else {
      var l := book[0];
      var f := FillLevel(taker, qty, l.price, l.orders);
      MatchStep(taker, side, limit, qty, book);
      assert Prices(book) == [l.price] + Prices(book[1..]);
      if f.orders == [] {
        MatchLeavesSuffix(taker, side, limit, f.remaining, book[1..]);
      } else {
        var nb := [Level(l.price, f.orders)] + book[1..];
        assert nb[1..] == book[1..];
        assert Prices(nb) == [l.price] + Prices(book[1..]);
      }
    }
  }

  /** Every trade is with `taker`, of a positive quantity, at a price that
      crosses `limit`. */
  predicate WithinLimit(taker: string, side: Side, limit: int, ts: seq<Trade>) {
    forall i :: 0 <= i < |ts| ==> ts[i].taker == taker && ts[i].quantity > 0 && Crosses(side, limit, ts[i].price)
  }

  lemma WithinLimitAppend(taker: string, side: Side, limit: int, a: seq<Trade>, b: seq<Trade>)
    requires WithinLimit(taker, side, limit, a) && WithinLimit(taker, side, limit, b)
    ensures WithinLimit(taker, side, limit, a + b)
  {
    forall i | |a| <= i < |a + b| ensures (a + b)[i] == b[i - |a|] {
    }
  }

  /** The fills of one crossing level are all with the taker, positive, and at
      the level's price. */
  lemma FillWithinLimit(taker: string, side: Side, limit: int, qty: int, l: Level, bookSide: Side)
    requires LevelOk(bookSide, l) && Crosses(side, limit, l.price)
    ensures WithinLimit(taker, side, limit, FillLevel(taker, qty, l.price, l.orders).trades)
  {
    var f := FillLevel(taker, qty, l.price, l.orders);
    FillPriority(taker, qty, l.price, l.orders);
    FillByTaker(taker, qty, l.price, l.orders);
    ConsumedTradesPositive(bookSide, l.price, l.orders, f.trades, f.orders, f.filled);
  }

  /** The trades that consume resting orders of one level are positive and at the level's price. */
  lemma ConsumedTradesPositive(bookSide: Side, price: int, F: seq<Order>, trades: seq<Trade>, rest: seq<Order>, filled: set<string>)
    requires Consumed(F, trades, rest, filled)
    requires forall k :: 0 <= k < |F| ==> RestingAt(bookSide, price, F[k])
    ensures forall i :: 0 <= i < |trades| ==> trades[i].quantity > 0 && trades[i].price == price
  {
    forall i | 0 <= i < |trades| ensures trades[i].quantity > 0 && trades[i].price == price {
      assert RestingAt(bookSide, price, F[i]);
    }
  }

  /** Every trade is with the taker, of a positive quantity, and at a level
      price that crosses the taker's limit: a buy never pays above its limit,
      a sell never receives below it. */
  lemma {:induction false} MatchWithinLimit(taker: string, side: Side, limit: int, qty: int, book: Book, bookSide: Side)
    requires WellFormed(bookSide, book)
    ensures WithinLimit(taker, side, limit, Match(taker, side, limit, qty, book).trades)
    decreases |book|
  {
    if book == [] || qty <= 0 || !Crosses(side, limit, book[0].price) {
    } else {
      var l := book[0];
      assert LevelOk(bookSide, l);
      var f := FillLevel(taker, qty, l.price, l.orders);
      FillWithinLimit(taker, side, limit, qty, l, bookSide);
      MatchStep(taker, side, limit, qty, book);
      if f.orders == [] {
        assert WellFormed(bookSide, book[1..]);
        MatchWithinLimit(taker, side, limit, f.remaining, book[1..], bookSide);
        WithinLimitAppend(taker, side, limit, f.trades, Match(taker, side, limit, f.remaining, book[1..]).trades);
      }
    }
  }

  /** The walk stops early only when the taker is filled: if quantity is left,
      no level of the remaining opposite book crosses the taker's limit. */
  lemma {:induction false} MatchStopsAtFirstNonCrossing(taker: string, side: Side, limit: int, qty: int, book: Book)
    requires Sorted(Opposite(side), book)
    ensures var r := Match(taker, side, limit, qty, book);
      r.remaining > 0 ==> forall i :: 0 <= i < |r.book| ==> !Crosses(side, limit, r.book[i].price)
    decreases |book|
  {
    if book == [] || qty <= 0 {
    } else if !Crosses(side, limit, book[0].price) {
      forall i | 0 <= i < |book| ensures !Crosses(side, limit, book[i].price) {
        if i > 0 {
          assert Ahead(Opposite(side), book[0].price, book[i].price);
        }
      }
    } else {
      var f := FillLevel(taker, qty, book[0].price, book[0].orders);
      FillConserves(taker, qty, book[0].price, book[0].orders);
      if f.orders == [] {
        MatchStopsAtFirstNonCrossing(taker, side, limit, f.remaining, book[1..]);
      }
    }
  }

  /** Prices along the priority order of a well-formed book never improve. */
  lemma {:induction false} FlattenInPriorityOrder(bookSide: Side, book: Book)
    requires WellFormed(bookSide, book)
    ensures book != [] ==> forall i :: 0 <= i < |Flatten(book)| ==>
      Flatten(book)[i].price == book[0].price || Ahead(bookSide, book[0].price, Flatten(book)[i].price)
    ensures forall i, j :: 0 <= i < j < |Flatten(book)| ==>
      Flatten(book)[i].price == Flatten(book)[j].price || Ahead(bookSide, Flatten(book)[i].price, Flatten(book)[j].price)
    decreases |book|
  {
    if book != [] {
      var l := book[0];
      var F, G := Flatten(book), Flatten(book[1..]);
      assert LevelOk(bookSide, l);
      assert WellFormed(bookSide, book[1..]);
      FlattenInPriorityOrder(bookSide, book[1..]);
      assert F == l.orders + G;
      forall i | 0 <= i < |F| ensures F[i].price == l.price || Ahead(bookSide, l.price, F[i].price) {
        if i < |l.orders| {
          assert F[i] == l.orders[i];
          assert RestingAt(bookSide, l.price, l.orders[i]);
        } else {
          assert F[i] == G[i - |l.orders|];
          assert book[1..] != [] && book[1..][0] == book[1];
          assert Ahead(bookSide, l.price, book[1].price);
        }
      }
      forall i, j | 0 <= i < j < |F| ensures F[i].price == F[j].price || Ahead(bookSide, F[i].price, F[j].price) {
        if j < |l.orders| {
          assert F[i] == l.orders[i] && F[j] == l.orders[j];
          assert RestingAt(bookSide, l.price, l.orders[i]);
          assert RestingAt(bookSide, l.price, l.orders[j]);
        } else if i < |l.orders| {
          assert F[i] == l.orders[i];
          assert RestingAt(bookSide, l.price, l.orders[i]);
        } else {
          assert F[i] == G[i - |l.orders|] && F[j] == G[j - |l.orders|];
        }
      }
    }
  }

  /** Price priority: the walk visits opposite levels best first, so the trade
      prices of one incoming order never improve from one trade to the next. */
  lemma MatchBestFirst(taker: string, side: Side, limit: int, qty: int, book: Book, bookSide: Side)
    requires WellFormed(bookSide, book)
    ensures var ts := Match(taker, side, limit, qty, book).trades;
      forall i, j :: 0 <= i < j < |ts| ==> ts[i].price == ts[j].price || Ahead(bookSide, ts[i].price, ts[j].price)
  {
    var r := Match(taker, side, limit, qty, book);
    MatchPriority(taker, side, limit, qty, book, bookSide);
    FlattenInPriorityOrder(bookSide, book);
    var F := Flatten(book);
    forall i, j | 0 <= i < j < |r.trades| ensures r.trades[i].price == r.trades[j].price || Ahead(bookSide, r.trades[i].price, r.trades[j].price) {
      assert r.trades[i].price == F[i].price && r.trades[j].price == F[j].price;
    }
  }

  /** An id is among some orders' ids exactly when it is in their id bag. */
  lemma {:induction false} IdsInBag(orders: seq<Order>, x: string)
    ensures x in Ids(orders) <==> x in IdBag(orders)
  {
    if orders != [] {
      IdsInBag(orders[1..], x);
    }
  }

  /** The walk takes a prefix of the book's orders away: the ids left in the
      book are those of the rest, and the filled makers are the ids of the
      prefix. */
  lemma MatchRemovesIds(taker: string, side: Side, limit: int, qty: int, book: Book, bookSide: Side)
    requires WellFormed(bookSide, book)
    ensures var r := Match(taker, side, limit, qty, book);
      var F, G := Flatten(book), Flatten(r.book);
      && |G| <= |F|
      && IdBag(F) == IdBag(F[..|F| - |G|]) + IdBag(G)
      && r.filled == Ids(F[..|F| - |G|])
      && forall x :: x in r.filled ==> x in IdBag(F[..|F| - |G|])
  {
    var r := Match(taker, side, limit, qty, book);
    MatchPriority(taker, side, limit, qty, book, bookSide);
    ConsumedIds(Flatten(book), r.trades, Flatten(r.book), r.filled);
  }

  /** The ids of a consumed queue: those of the prefix taken plus those left. */
  lemma ConsumedIds(F: seq<Order>, trades: seq<Trade>, rest: seq<Order>, filled: set<string>)
    requires Consumed(F, trades, rest, filled)
    ensures |rest| <= |F|
    ensures IdBag(F) == IdBag(F[..|F| - |rest|]) + IdBag(rest) && filled == Ids(F[..|F| - |rest|])
    ensures forall x :: x in filled ==> x in IdBag(F[..|F| - |rest|])
  {
    var k := |F| - |rest|;
    var done, left := F[..k], F[k..];
    assert filled == Ids(done);
    forall x | x in filled ensures x in IdBag(done) {
      IdsInBag(done, x);
    }
    assert IdBag(F) == IdBag(done) + IdBag(left) by {
      assert F == done + left;
      IdBagAppend(done, left);
    }
    assert IdBag(rest) == IdBag(left) by {
      ConsumedRestIds(F, trades, rest, filled);
    }
  }

  /** What is left of a consumed queue carries the ids of its untaken suffix. */
  lemma ConsumedRestIds(F: seq<Order>, trades: seq<Trade>, rest: seq<Order>, filled: set<string>)
    requires Consumed(F, trades, rest, filled)
    ensures IdBag(rest) == IdBag(F[|F| - |rest|..])
  {
    var k := |F| - |rest|;
    if |trades| == k {
      assert rest == F[k..];
    } else {
      PartlyFilledIds(F, trades, rest, k);
    }
  }

  /** A partly filled front order keeps the ids of the untaken suffix. */
  lemma PartlyFilledIds(F: seq<Order>, trades: seq<Trade>, rest: seq<Order>, k: int)
    requires PartlyFilled(F, trades, rest, k)
    ensures IdBag(rest) == IdBag(F[k..])
  {
    var G := F[k..];
    assert G[0] == F[k] && G[1..] == F[k + 1..];
    ReducedHeadIds(G, rest, F[k].quantity - trades[k].quantity);
  }

  /** Reducing the quantity of the head order keeps the ids. */
  lemma ReducedHeadIds(G: seq<Order>, rest: seq<Order>, q: int)
    requires G != [] && rest == [G[0].(quantity := q)] + G[1..]
    ensures IdBag(rest) == IdBag(G)
  {
    assert rest[1..] == G[1..];
  }
}
