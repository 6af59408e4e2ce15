/** Orders, price levels and the two price-ordered books of the matching engine,
    with the two book operations the engine relies on: resting an order at the
    tail of its level, and the per-level aggregate snapshot. */
module Book {

  datatype Side = Buy | Sell

  /** A limit order: its id, side, remaining quantity and limit price. */
  datatype Order = Order(id: string, side: Side, quantity: int, price: int)

  /** A price level: the orders resting at one price, oldest first. */
  datatype Level = Level(price: int, orders: seq<Order>)

  /** A book lists its levels best price first: bids descending, asks ascending. */
  type Book = seq<Level>

  const INT_MIN: int := -0x8000_0000
  const INT_MAX: int := 0x7fff_ffff

  /** The values of a Java `int`. */
  predicate IsInt32(x: int) {
    INT_MIN <= x <= INT_MAX
  }

  function Opposite(side: Side): (r: Side)
    ensures r != side
  {
    if side == Buy then Sell else Buy
  }

  /** Price p ranks strictly ahead of price q in the book of `side`. */
  predicate Ahead(side: Side, p: int, q: int) {
    if side == Buy then p > q else p < q
  }

  /** Levels strictly in priority order (so no price appears twice). */
  predicate Sorted(side: Side, book: Book) {
    forall i, j :: 0 <= i < j < |book| ==> Ahead(side, book[i].price, book[j].price)
  }

  /** A resting order: on the book's side, at its level's price, with a positive Java `int` quantity. */
  predicate RestingAt(side: Side, price: int, o: Order) {
    o.side == side && o.price == price && 0 < o.quantity <= INT_MAX
  }

  /** A level is never empty and holds only resting orders of its price. */
  predicate LevelOk(side: Side, l: Level) {
    l.orders != [] && forall k :: 0 <= k < |l.orders| ==> RestingAt(side, l.price, l.orders[k])
  }

  /** The invariant of one book. */
  predicate WellFormed(side: Side, book: Book) {
    Sorted(side, book) && forall i :: 0 <= i < |book| ==> LevelOk(side, book[i])
  }

  /** All resting orders of a book in priority order: best level first, oldest first within a level. */
  function Flatten(book: Book): seq<Order> {
    if book == [] then [] else book[0].orders + Flatten(book[1..])
  }

  /** The level prices of a book, in its order. */
  function Prices(book: Book): (r: seq<int>)
    ensures |r| == |book|
  {
    if book == [] then [] else [book[0].price] + Prices(book[1..])
  }

  /** The orders resting at price p, or none. */
  function LevelAt(book: Book, p: int): seq<Order> {
    if book == [] then []
    else if book[0].price == p then book[0].orders
    else LevelAt(book[1..], p)
  }

  /** The ids of some orders, counted with multiplicity. */
  function IdBag(orders: seq<Order>): multiset<string> {
    if orders == [] then multiset{} else multiset{orders[0].id} + IdBag(orders[1..])
  }

  /** The exact sum of the remaining quantities of some orders. */
  function TotalQuantity(orders: seq<Order>): int {
    if orders == [] then 0 else orders[0].quantity + TotalQuantity(orders[1..])
  }

  /** Java `int` arithmetic: the value congruent to x modulo 2^32 in the `int` range. */
  function Wrap32(x: int): (r: int)
    ensures IsInt32(r)
    ensures (r - x) % 0x1_0000_0000 == 0
    ensures IsInt32(x) ==> r == x
  {
    (x - INT_MIN) % 0x1_0000_0000 + INT_MIN
  }

  /** Adding to a wrapped value wraps like adding to the exact one. */
  lemma WrapAdd(x: int, y: int)
    ensures Wrap32(Wrap32(x) + y) == Wrap32(x + y)
  {
    var u := x - INT_MIN;
    var k := u / 0x1_0000_0000;
    assert u == (u % 0x1_0000_0000) + 0x1_0000_0000 * k;
    ModShift(u % 0x1_0000_0000 + y, k);
    assert x + y - INT_MIN == (u % 0x1_0000_0000 + y) + 0x1_0000_0000 * k;
  }

  /** Adding a multiple of 2^32 does not change the remainder. */
  lemma ModShift(z: int, k: int)
    ensures (z + 0x1_0000_0000 * k) % 0x1_0000_0000 == z % 0x1_0000_0000
  {
  }

  /** The book with `o` at the tail of its price level, or in a new level
      inserted in price order if there was none (`putIfAbsent` then `add`). */
  function Rest(book: Book, side: Side, o: Order): Book
    decreases |book|
  {
    if book == [] then [Level(o.price, [o])]
    else if book[0].price == o.price then [book[0].(orders := book[0].orders + [o])] + book[1..]
    else if Ahead(side, o.price, book[0].price) then [Level(o.price, [o])] + book
    else [book[0]] + Rest(book[1..], side, o)
  }

  /** What `displayOrderBook` prints for one book: each level's price and the
      `int` sum of its quantities, in the book's order. */
  function Snapshot(book: Book): seq<(int, int)> {
    seq(|book|, i requires 0 <= i < |book| => (book[i].price, Wrap32(TotalQuantity(book[i].orders))))
  }

  // ---------------------------------------------------------------- lemmas

  lemma {:induction false} TotalAppend(a: seq<Order>, b: seq<Order>)
    ensures TotalQuantity(a + b) == TotalQuantity(a) + TotalQuantity(b)
  {
    if a == [] {
      assert a + b == b;
    } else {
      assert (a + b)[1..] == a[1..] + b;
      TotalAppend(a[1..], b);
    }
  }

  lemma {:induction false} IdBagAppend(a: seq<Order>, b: seq<Order>)
    ensures IdBag(a + b) == IdBag(a) + IdBag(b)
  {
    if a == [] {
      assert a + b == b;
    } else {
      assert (a + b)[1..] == a[1..] + b;
      IdBagAppend(a[1..], b);
    }
  }

  /** Every resting order is counted: the quantities of positive orders add up to a positive total. */
  lemma {:induction false} TotalPositive(orders: seq<Order>)
    requires forall k :: 0 <= k < |orders| ==> orders[k].quantity > 0
    ensures orders != [] ==> TotalQuantity(orders) > 0
    ensures TotalQuantity(orders) >= 0
  {
    if orders != [] {
      TotalPositive(orders[1..]);
    }
  }

  lemma {:induction false} PricesAt(book: Book, i: int)
    requires 0 <= i < |book|
    ensures Prices(book)[i] == book[i].price
  {
    if i > 0 {
      PricesAt(book[1..], i - 1);
    }
  }

  /** A price that ranks ahead of the best level has no level in a sorted book. */
  lemma {:induction false} LevelAtAbsent(side: Side, book: Book, p: int)
    requires Sorted(side, book)
    requires book != [] && Ahead(side, p, book[0].price)
    ensures LevelAt(book, p) == []
  {
    if |book| > 1 {
      assert Ahead(side, book[0].price, book[1].price);
      LevelAtAbsent(side, book[1..], p);
    }
  }

  /** Resting appends the order at the tail of its own price level and leaves
      every other level as it was. */
  lemma {:induction false} RestAppendsAtTail(side: Side, book: Book, o: Order, p: int)
    requires Sorted(side, book)
    ensures LevelAt(Rest(book, side, o), p) == LevelAt(book, p) + (if p == o.price then [o] else [])
  {
    if book == [] {
    } else if book[0].price == o.price {
      assert ([book[0].(orders := book[0].orders + [o])] + book[1..])[1..] == book[1..];
    } else if Ahead(side, o.price, book[0].price) {
      assert ([Level(o.price, [o])] + book)[1..] == book;
      if p == o.price {
        LevelAtAbsent(side, book, p);
      }
    } else {
      assert ([book[0]] + Rest(book[1..], side, o))[1..] == Rest(book[1..], side, o);
      RestAppendsAtTail(side, book[1..], o, p);
    }
  }

  /** The best level after resting: the order's own price when it ranks at or
      ahead of the old best, the old best otherwise. */
  lemma {:induction false} RestBest(side: Side, book: Book, o: Order)
    ensures Rest(book, side, o) != []
    ensures Rest(book, side, o)[0].price ==
      (if book == [] || !Ahead(side, book[0].price, o.price) then o.price else book[0].price)
  {
  }

  /** Resting keeps a book well formed when the order belongs on it. */
  lemma {:induction false} RestWellFormed(side: Side, book: Book, o: Order)
    requires WellFormed(side, book)
    requires o.side == side && 0 < o.quantity <= INT_MAX
    ensures WellFormed(side, Rest(book, side, o))
    ensures |Rest(book, side, o)| <= |book| + 1
  {
    var r := Rest(book, side, o);
    if book == [] {
    } else if book[0].price == o.price {
      var l := book[0].(orders := book[0].orders + [o]);
      assert LevelOk(side, l) by {
        forall k | 0 <= k < |l.orders| ensures RestingAt(side, l.price, l.orders[k]) {
          if k < |book[0].orders| {
            assert RestingAt(side, book[0].price, book[0].orders[k]);
          }
        }
      }
      forall i | 0 <= i < |r| ensures LevelOk(side, r[i]) {
        if i > 0 {
          assert r[i] == book[i];
        }
      }
    } else if Ahead(side, o.price, book[0].price) {
      forall i | 0 <= i < |r| ensures LevelOk(side, r[i]) {
        if i > 0 {
          assert r[i] == book[i - 1];
        }
      }
    } else {
      var tail := Rest(book[1..], side, o);
      RestWellFormed(side, book[1..], o);
      RestBest(side, book[1..], o);
      assert r == [book[0]] + tail;
      forall i, j | 0 <= i < j < |r| ensures Ahead(side, r[i].price, r[j].price) {
        if i == 0 {
          assert Ahead(side, book[0].price, tail[0].price);
          if j > 1 {
            assert Ahead(side, tail[0].price, tail[j - 1].price);
          }
        } else {
          assert Ahead(side, tail[i - 1].price, tail[j - 1].price);
        }
      }
      forall i | 0 <= i < |r| ensures LevelOk(side, r[i]) {
        if i > 0 {
          assert r[i] == tail[i - 1];
        }
      }
    }
  }

  /** Resting inserts the order at one position of the book's priority order
      and keeps every other order, in the same order. */
  lemma {:induction false} RestInserts(side: Side, book: Book, o: Order) returns (j: nat)
    ensures j <= |Flatten(book)|
    ensures Flatten(Rest(book, side, o)) == Flatten(book)[..j] + [o] + Flatten(book)[j..]
  {
    if book == [] {
      j := 0;
      FlattenCons(Level(o.price, [o]), []);
    } else {
      var F, R, G := Flatten(book), Flatten(Rest(book, side, o)), Flatten(book[1..]);
      assert F == book[0].orders + G;
      if book[0].price == o.price {
        j := |book[0].orders|;
        assert Rest(book, side, o) == [book[0].(orders := book[0].orders + [o])] + book[1..];
        FlattenCons(book[0].(orders := book[0].orders + [o]), book[1..]);
        InsertBehind(book[0].orders, G, [o] + G, 0, o, F, R);
      } else if Ahead(side, o.price, book[0].price) {
        j := 0;
        assert Rest(book, side, o) == [Level(o.price, [o])] + book;
        FlattenCons(Level(o.price, [o]), book);
      } else {
        var j' := RestInserts(side, book[1..], o);
        j := |book[0].orders| + j';
        assert Rest(book, side, o) == [book[0]] + Rest(book[1..], side, o);
        FlattenCons(book[0], Rest(book[1..], side, o));
        InsertBehind(book[0].orders, G, Flatten(Rest(book[1..], side, o)), j', o, F, R);
      }
    }
  }

  lemma FlattenCons(l: Level, book: Book)
    ensures Flatten([l] + book) == l.orders + Flatten(book)
  {
    assert ([l] + book)[1..] == book;
  }

  /** Inserting into a sequence behind a fixed head moves the insertion point
      by the head's length. */
  lemma InsertBehind(head: seq<Order>, G: seq<Order>, T: seq<Order>, j: nat, o: Order,
                     F: seq<Order>, R: seq<Order>)
    requires j <= |G| && T == G[..j] + [o] + G[j..]
    requires F == head + G && R == head + T
    ensures |head| + j <= |F| && R == F[..|head| + j] + [o] + F[|head| + j..]
  {
    assert F[..|head| + j] == head + G[..j];
    assert F[|head| + j..] == G[j..];
  }

  /** Resting adds exactly the given order to the book's orders and changes no
      other order: the multiset of orders, their total quantity and the
      multiset of their ids each grow by that one order. */
  lemma RestAddsOrder(side: Side, book: Book, o: Order)
    ensures multiset(Flatten(Rest(book, side, o))) == multiset(Flatten(book)) + multiset{o}
    ensures TotalQuantity(Flatten(Rest(book, side, o))) == TotalQuantity(Flatten(book)) + o.quantity
    ensures IdBag(Flatten(Rest(book, side, o))) == IdBag(Flatten(book)) + multiset{o.id}
  {
    var j := RestInserts(side, book, o);
    var F := Flatten(book);
    assert F == F[..j] + F[j..];
    InsertedTotal(F[..j], o, F[j..]);
    InsertedIds(F[..j], o, F[j..]);
  }

  /** Inserting one order anywhere adds its quantity to the total. */
  lemma InsertedTotal(P: seq<Order>, o: Order, Q: seq<Order>)
    ensures TotalQuantity(P + [o] + Q) == TotalQuantity(P + Q) + o.quantity
  {
    assert [o][1..] == [];
    TotalAppend(P, [o]);
    TotalAppend(P + [o], Q);
    TotalAppend(P, Q);
  }

  /** Inserting one order anywhere adds its id to the ids. */
  lemma InsertedIds(P: seq<Order>, o: Order, Q: seq<Order>)
    ensures IdBag(P + [o] + Q) == IdBag(P + Q) + multiset{o.id}
  {
    assert [o][1..] == [];
    IdBagAppend(P, [o]);
    IdBagAppend(P + [o], Q);
    IdBagAppend(P, Q);
  }

  /** The snapshot lists the levels in the book's priority order, and each
      quantity is the exact positive total of the level when that total fits
      in an `int`; otherwise it is that total wrapped to 32 bits. */
  lemma SnapshotLevels(side: Side, book: Book)
    requires WellFormed(side, book)
    ensures |Snapshot(book)| == |book|
    ensures forall i :: 0 <= i < |book| ==> Snapshot(book)[i].0 == book[i].price && IsInt32(Snapshot(book)[i].1)
    ensures forall i, j :: 0 <= i < j < |book| ==> Ahead(side, Snapshot(book)[i].0, Snapshot(book)[j].0)
    ensures forall i :: 0 <= i < |book| && TotalQuantity(book[i].orders) <= INT_MAX ==>
      Snapshot(book)[i].1 == TotalQuantity(book[i].orders) > 0
    ensures forall i :: 0 <= i < |book| ==>
      (Snapshot(book)[i].1 - TotalQuantity(book[i].orders)) % 0x1_0000_0000 == 0
  {
    forall i | 0 <= i < |book| ensures TotalQuantity(book[i].orders) > 0 {
      assert LevelOk(side, book[i]);
      TotalPositive(book[i].orders);
    }
  }

  /** Java's `int` sum wraps: two maximal orders at one price are reported as -2. */
  lemma SnapshotOverflow(o: Order)
    requires o.quantity == INT_MAX
    ensures Snapshot([Level(o.price, [o, o])]) == [(o.price, -2)]
  {
    assert [o, o][1..] == [o];
    assert [o][1..] == [];
    assert TotalQuantity([o]) == INT_MAX;
    assert TotalQuantity([o, o]) == 2 * INT_MAX;
    assert Wrap32(2 * INT_MAX) == -2;
  }
}
