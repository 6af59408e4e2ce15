/** The matching engine `Application`: its state (two books and the id index),
    `placeLimitOrder` as a function on that state and what it keeps true, the
    demo sequence of `main`, and the class whose methods run the crossing walk
    step by step as the Java program does. */
module Engine {
  import opened Book
  import opened Matching

  /** `buyOrders`, `sellOrders`, and the key set of `orderMap`. */
  datatype State = State(bids: Book, asks: Book, index: set<string>)

  /** The result of submitting one order: the new state and the trades, in order. */
  datatype Placement = Placement(state: State, trades: seq<Trade>)

  function BookOf(s: State, side: Side): Book {
    if side == Buy then s.bids else s.asks
  }

  function WithBook(s: State, side: Side, book: Book): State {
    if side == Buy then s.(bids := book) else s.(asks := book)
  }

  /** Both books well formed: sorted best-first, no empty level, positive quantities. */
  predicate Invariant(s: State) {
    WellFormed(Buy, s.bids) && WellFormed(Sell, s.asks)
  }

  /** The best bid is below the best ask. */
  predicate Uncrossed(s: State) {
    s.bids == [] || s.asks == [] || s.bids[0].price < s.asks[0].price
  }

  /** `matchLimitOrder`: walk the opposite book, remove filled makers from the
      index, and rest what is left at the tail of the order's own price level. */
  function MatchAndRest(s: State, o: Order): Placement {
    var r := Match(o.id, o.side, o.price, o.quantity, BookOf(s, Opposite(o.side)));
    var same := BookOf(s, o.side);
    var same' := if r.remaining > 0 then Rest(same, o.side, o.(quantity := r.remaining)) else same;
    var s' := WithBook(WithBook(s, Opposite(o.side), r.book), o.side, same');
    Placement(s'.(index := s.index - r.filled), r.trades)
  }

  /** `placeLimitOrder`: index the order by its id (overwriting), then match it. */
  function Place(s: State, side: Side, qty: int, price: int, id: string): Placement {
    MatchAndRest(s.(index := s.index + {id}), Order(id, side, qty, price))
  }

  /** The ids of all resting orders, with multiplicity. */
  function Resident(s: State): multiset<string> {
    IdBag(Flatten(s.bids)) + IdBag(Flatten(s.asks))
  }

  // ---------------------------------------------------------------- lemmas

  /** The new state of a placement, side by side: the opposite book is what the
      walk leaves, the own book gains the remainder if any, and the index has
      the new id put and the filled makers' ids removed. */
  lemma PlaceShape(s: State, side: Side, qty: int, price: int, id: string)
    ensures var r := Match(id, side, price, qty, BookOf(s, Opposite(side)));
      var s' := Place(s, side, qty, price, id).state;
      && BookOf(s', Opposite(side)) == r.book
      && BookOf(s', side) == (if r.remaining > 0 then Rest(BookOf(s, side), side, Order(id, side, r.remaining, price)) else BookOf(s, side))
      && s'.index == (s.index + {id}) - r.filled
      && Place(s, side, qty, price, id).trades == r.trades
  {
  }

  lemma InvariantBySide(s: State, side: Side)
    ensures Invariant(s) <==> WellFormed(side, BookOf(s, side)) && WellFormed(Opposite(side), BookOf(s, Opposite(side)))
  {
  }

  lemma {:induction false} TradedNonNegative(ts: seq<Trade>)
    requires forall i :: 0 <= i < |ts| ==> ts[i].quantity > 0
    ensures Traded(ts) >= 0
  {
    if ts != [] {
      TradedNonNegative(ts[1..]);
    }
  }

  /** The taker's remainder is what it did not trade, and never more than it asked for. */
  lemma Remainder(id: string, side: Side, price: int, qty: int, book: Book)
    requires WellFormed(Opposite(side), book)
    ensures var r := Match(id, side, price, qty, book);
      r.remaining == qty - Traded(r.trades) && r.remaining <= qty && (qty >= 0 ==> r.remaining >= 0)
  {
    var r := Match(id, side, price, qty, book);
    MatchConserves(id, side, price, qty, book);
    MatchWithinLimit(id, side, price, qty, book, Opposite(side));
    TradedNonNegative(r.trades);
  }

  /** Placing an order keeps both books well formed: no empty level persists
      and every resting quantity stays positive. */
  lemma PlaceKeepsInvariant(s: State, side: Side, qty: int, price: int, id: string)
    requires Invariant(s) && qty <= INT_MAX
    ensures Invariant(Place(s, side, qty, price, id).state)
  {
    var opp := BookOf(s, Opposite(side));
    var r := Match(id, side, price, qty, opp);
    PlaceShape(s, side, qty, price, id);
    InvariantBySide(s, side);
    InvariantBySide(Place(s, side, qty, price, id).state, side);
    MatchWellFormed(id, side, price, qty, opp, Opposite(side));
    Remainder(id, side, price, qty, opp);
    if r.remaining > 0 {
      RestWellFormed(side, BookOf(s, side), Order(id, side, r.remaining, price));
    }
  }

  /** After the walk, the best level left in a book is no better than the old best. */
  lemma BestNotImproved(bookSide: Side, book: Book, left: Book)
    requires Sorted(bookSide, book)
    requires |left| <= |book| && Prices(left) == Prices(book)[|book| - |left|..]
    requires left != []
    ensures book != []
    ensures left[0].price == book[0].price || Ahead(bookSide, book[0].price, left[0].price)
  {
    var d := |book| - |left|;
    PricesAt(left, 0);
    PricesAt(book, d);
    assert Prices(left)[0] == Prices(book)[d];
  }

  /** An uncrossed book stays uncrossed: after any placement the best bid is
      still below the best ask. */
  lemma PlaceKeepsUncrossed(s: State, side: Side, qty: int, price: int, id: string)
    requires Invariant(s) && Uncrossed(s)
    ensures Uncrossed(Place(s, side, qty, price, id).state)
  {
    var s' := Place(s, side, qty, price, id).state;
    var opp, same := BookOf(s, Opposite(side)), BookOf(s, side);
    var r := Match(id, side, price, qty, opp);
    var o := Order(id, side, r.remaining, price);
    PlaceShape(s, side, qty, price, id);
    MatchWellFormed(id, side, price, qty, opp, Opposite(side));
    MatchStopsAtFirstNonCrossing(id, side, price, qty, opp);
    if r.book != [] {
      BestNotImproved(Opposite(side), opp, r.book);
    }
    if r.remaining > 0 {
      RestBest(side, same, o);
    }
  }

  /** Conservation: the opposite book loses exactly the traded quantity, and
      the order's own book gains exactly what the order did not trade. */
  lemma PlaceConserves(s: State, side: Side, qty: int, price: int, id: string)
    requires Invariant(s)
    ensures var p := Place(s, side, qty, price, id);
      && TotalQuantity(Flatten(BookOf(s, Opposite(side)))) ==
         Traded(p.trades) + TotalQuantity(Flatten(BookOf(p.state, Opposite(side))))
      && (qty >= 0 ==> TotalQuantity(Flatten(BookOf(p.state, side))) ==
                       TotalQuantity(Flatten(BookOf(s, side))) + qty - Traded(p.trades))
  {
    var opp, same := BookOf(s, Opposite(side)), BookOf(s, side);
    var r := Match(id, side, price, qty, opp);
    MatchConserves(id, side, price, qty, opp);
    Remainder(id, side, price, qty, opp);
    if r.remaining > 0 {
      RestAddsOrder(side, same, Order(id, side, r.remaining, price));
    }
  }

  /** The remainder rests at the order's own limit price (not the trade price),
      at the tail of that level of its own book; no other level of that book
      changes. */
  lemma PlaceRestsAtTail(s: State, side: Side, qty: int, price: int, id: string, p: int)
    requires Invariant(s)
    ensures var r := Match(id, side, price, qty, BookOf(s, Opposite(side)));
      LevelAt(BookOf(Place(s, side, qty, price, id).state, side), p) ==
        LevelAt(BookOf(s, side), p) + (if p == price && r.remaining > 0 then [Order(id, side, r.remaining, price)] else [])
  {
    var r := Match(id, side, price, qty, BookOf(s, Opposite(side)));
    if r.remaining > 0 {
      RestAppendsAtTail(side, BookOf(s, side), Order(id, side, r.remaining, price), p);
    }
  }

  /** The resting ids after a placement: those of the order's own book, those
      the walk leaves in the opposite book, and the new id if a remainder rests. */
  lemma ResidentAfterPlace(s: State, side: Side, qty: int, price: int, id: string)
    requires Invariant(s)
    ensures var r := Match(id, side, price, qty, BookOf(s, Opposite(side)));
      Resident(Place(s, side, qty, price, id).state) ==
        IdBag(Flatten(BookOf(s, side))) + IdBag(Flatten(r.book)) + (if r.remaining > 0 then multiset{id} else multiset{})
  {
    var opp, same := BookOf(s, Opposite(side)), BookOf(s, side);
    var r := Match(id, side, price, qty, opp);
    var s' := Place(s, side, qty, price, id).state;
    var added: multiset<string> := if r.remaining > 0 then multiset{id} else multiset{};
    PlaceShape(s, side, qty, price, id);
    assert IdBag(Flatten(BookOf(s', side))) == IdBag(Flatten(same)) + added by {
      if r.remaining > 0 {
        RestAddsOrder(side, same, Order(id, side, r.remaining, price));
      }
    }
    ResidentBySide(s', side);
  }

  lemma ResidentBySide(s: State, side: Side)
    ensures Resident(s) == IdBag(Flatten(BookOf(s, side))) + IdBag(Flatten(BookOf(s, Opposite(side))))
  {
  }

  /** The id index, for an id that is not resting (it may still be indexed, as
      a filled taker's id is): `orderMap` is `put` the new id and has the ids
      of the fully filled makers `remove`d; so if every resting id is distinct
      and indexed before, it still is after, the new id is indexed whether the
      order rests or is filled at once, and no filled maker stays reachable by
      id. */
  lemma PlaceKeepsIndex(s: State, side: Side, qty: int, price: int, id: string)
    requires Invariant(s)
    requires forall x :: Resident(s)[x] <= 1
    requires forall x :: x in Resident(s) ==> x in s.index
    requires id !in Resident(s)
    ensures var s' := Place(s, side, qty, price, id).state;
      && (forall x :: Resident(s')[x] <= 1)
      && (forall x :: x in Resident(s') ==> x in s'.index)
      && id in s'.index
      && forall x :: x in Match(id, side, price, qty, BookOf(s, Opposite(side))).filled ==>
           x !in s'.index && x !in Resident(s')
  {
    var s' := Place(s, side, qty, price, id).state;
    var r := Match(id, side, price, qty, BookOf(s, Opposite(side)));
    var same, gone, left, added := PlaceIdAccounting(s, side, qty, price, id);
    IndexBookkeeping(Resident(s), Resident(s'), same, gone, left, added, s.index, s'.index, r.filled, id);
  }

  /** The resting ids before and after a placement, split into the own book's
      (`same`), the walked prefix of the opposite book (`gone`), the rest of
      the opposite book (`left`) and the remainder's (`added`). */
  lemma PlaceIdAccounting(s: State, side: Side, qty: int, price: int, id: string)
    returns (same: multiset<string>, gone: multiset<string>, left: multiset<string>, added: multiset<string>)
    requires Invariant(s)
    ensures var p := Place(s, side, qty, price, id);
      var r := Match(id, side, price, qty, BookOf(s, Opposite(side)));
      && Resident(s) == same + (gone + left) && Resident(p.state) == same + left + added
      && p.state.index == (s.index + {id}) - r.filled
      && (added == multiset{} || added == multiset{id})
      && forall x :: x in r.filled ==> x in gone
  {
    var r := Match(id, side, price, qty, BookOf(s, Opposite(side)));
    same, gone, left := ResidentBeforePlace(s, side, qty, price, id);
    added := if r.remaining > 0 then multiset{id} else multiset{};
    ResidentAfterPlace(s, side, qty, price, id);
    PlaceShape(s, side, qty, price, id);
  }

  /** The resting ids before a placement: the own book's, the prefix of the
      opposite book the walk will take (which holds every filled maker's id),
      and the rest of the opposite book. */
  lemma ResidentBeforePlace(s: State, side: Side, qty: int, price: int, id: string)
    returns (same: multiset<string>, gone: multiset<string>, left: multiset<string>)
    requires Invariant(s)
    ensures var r := Match(id, side, price, qty, BookOf(s, Opposite(side)));
      && same == IdBag(Flatten(BookOf(s, side))) && left == IdBag(Flatten(r.book))
      && Resident(s) == same + (gone + left)
      && forall x :: x in r.filled ==> x in gone
  {
    var opp := BookOf(s, Opposite(side));
    var r := Match(id, side, price, qty, opp);
    var F := Flatten(opp);
    MatchRemovesIds(id, side, price, qty, opp, Opposite(side));
    var k := |F| - |Flatten(r.book)|;
    same, gone, left := IdBag(Flatten(BookOf(s, side))), IdBag(F[..k]), IdBag(Flatten(r.book));
    assert IdBag(F) == gone + left;
    ResidentBySide(s, side);
  }

  /** The bookkeeping behind `PlaceKeepsIndex`, on bags and sets: the resting
      ids `before` become `after` as the walk takes `gone` away and the
      remainder adds `added`; the index gains `id` and loses `filled`, and
      every filled id is among the `gone` ones. */
  lemma IndexBookkeeping(before: multiset<string>, after: multiset<string>,
                         same: multiset<string>, gone: multiset<string>, left: multiset<string>,
                         added: multiset<string>, index: set<string>, index': set<string>,
                         filled: set<string>, id: string)
    requires before == same + (gone + left) && after == same + left + added
    requires index' == (index + {id}) - filled
    requires forall x :: before[x] <= 1
    requires forall x :: x in before ==> x in index
    requires id !in before
    requires added == multiset{} || added == multiset{id}
    requires forall x :: x in filled ==> x in gone
    ensures forall x :: after[x] <= 1
    ensures forall x :: x in after ==> x in index'
    ensures id in index'
    ensures forall x :: x in filled ==> x !in index' && x !in after
  {
    forall x ensures after[x] <= 1 {
      assert before[x] == same[x] + gone[x] + left[x];
      assert after[x] == same[x] + left[x] + added[x];
    }
    forall x | x in filled ensures x !in after {
      assert before[x] == same[x] + gone[x] + left[x];
    }
  }

  /** The sequence of `main`: two trades at 100, then bids [(100, 5)] and asks [(101, 8)]. */
  lemma DemoScenario()
    ensures var p1 := Place(State([], [], {}), Buy, 10, 100, "1000");
      var p2 := Place(p1.state, Sell, 20, 100, "1001");
      var p3 := Place(p2.state, Sell, 8, 101, "1002");
      var p4 := Place(p3.state, Buy, 15, 100, "1003");
      && p1.trades == [] && p2.trades == [Trade("1001", "1000", 10, 100)]
      && p3.trades == [] && p4.trades == [Trade("1003", "1001", 10, 100)]
      && Snapshot(p4.state.bids) == [(100, 5)] && Snapshot(p4.state.asks) == [(101, 8)]
      && p4.state.index == {"1002", "1003"}
  {
    DemoFirstBuyRests();
    DemoSellFillsBuy();
    DemoSecondSellRests();
    DemoBuyFillsBestAsk();
    var b1003, s1002 := Order("1003", Buy, 5, 100), Order("1002", Sell, 8, 101);
    assert Snapshot([Level(100, [b1003])]) == [(100, 5)] by {
      assert [b1003][1..] == [];
    }
    assert Snapshot([Level(101, [s1002])]) == [(101, 8)] by {
      assert [s1002][1..] == [];
    }
  }

  /** Buy 10 @ 100 on an empty book rests. */
  lemma DemoFirstBuyRests()
    ensures Place(State([], [], {}), Buy, 10, 100, "1000") ==
      Placement(State([Level(100, [Order("1000", Buy, 10, 100)])], [], {"1000"}), [])
  {
  }

  /** Sell 20 @ 100 fills the resting buy for 10 and rests 10 @ 100. */
  lemma DemoSellFillsBuy()
    ensures Place(State([Level(100, [Order("1000", Buy, 10, 100)])], [], {"1000"}), Sell, 20, 100, "1001") ==
      Placement(State([], [Level(100, [Order("1001", Sell, 10, 100)])], {"1001"}), [Trade("1001", "1000", 10, 100)])
  {
    var b1000 := Order("1000", Buy, 10, 100);
    var s1 := State([Level(100, [b1000])], [], {"1000"});
    assert FillLevel("1001", 20, 100, [b1000]) == Fill([Trade("1001", "1000", 10, 100)], [], 10, {"1000"}) by {
      assert [b1000][1..] == [];
    }
    assert Match("1001", Sell, 100, 20, s1.bids) == Outcome([Trade("1001", "1000", 10, 100)], [], 10, {"1000"}) by {
      MatchStep("1001", Sell, 100, 20, s1.bids);
      assert s1.bids[1..] == [];
    }
    PlaceShape(s1, Sell, 20, 100, "1001");
  }

  /** Sell 8 @ 101 does not cross and rests behind the 100 level. */
  lemma DemoSecondSellRests()
    ensures Place(State([], [Level(100, [Order("1001", Sell, 10, 100)])], {"1001"}), Sell, 8, 101, "1002") ==
      Placement(State([], [Level(100, [Order("1001", Sell, 10, 100)]), Level(101, [Order("1002", Sell, 8, 101)])],
                      {"1001", "1002"}), [])
  {
    var s1001, s1002 := Order("1001", Sell, 10, 100), Order("1002", Sell, 8, 101);
    assert Rest([Level(100, [s1001])], Sell, s1002) == [Level(100, [s1001]), Level(101, [s1002])] by {
      assert [Level(100, [s1001])][1..] == [];
    }
  }

  /** Buy 15 @ 100 fills the 100 ask for 10, stops at 101 and rests 5 @ 100. */
  lemma DemoBuyFillsBestAsk()
    ensures var s1001, s1002 := Order("1001", Sell, 10, 100), Order("1002", Sell, 8, 101);
      Place(State([], [Level(100, [s1001]), Level(101, [s1002])], {"1001", "1002"}), Buy, 15, 100, "1003") ==
      Placement(State([Level(100, [Order("1003", Buy, 5, 100)])], [Level(101, [s1002])], {"1002", "1003"}),
                [Trade("1003", "1001", 10, 100)])
  {
    var s1001, s1002 := Order("1001", Sell, 10, 100), Order("1002", Sell, 8, 101);
    var s3 := State([], [Level(100, [s1001]), Level(101, [s1002])], {"1001", "1002"});
    assert FillLevel("1003", 15, 100, [s1001]) == Fill([Trade("1003", "1001", 10, 100)], [], 5, {"1001"}) by {
      assert [s1001][1..] == [];
    }
    assert s3.asks[1..] == [Level(101, [s1002])];
    assert Match("1003", Buy, 100, 15, s3.asks) == Outcome([Trade("1003", "1001", 10, 100)], [Level(101, [s1002])], 5, {"1001"}) by {
      MatchStep("1003", Buy, 100, 15, s3.asks);
      assert Match("1003", Buy, 100, 5, [Level(101, [s1002])]) == Outcome([], [Level(101, [s1002])], 5, {});
    }
    PlaceShape(s3, Buy, 15, 100, "1003");
  }

  /** Reusing a resting maker's id: buy 10 @ 100 as "X" against the ask "X" of
      5 @ 100 removes "X" from the index with that fill, yet the remainder
      rests under "X", so a resting id is no longer indexed. */
  lemma SameIdMakerFilledThenRests()
    ensures var x := Order("X", Sell, 5, 100);
      Place(State([], [Level(100, [x])], {"X"}), Buy, 10, 100, "X") ==
      Placement(State([Level(100, [Order("X", Buy, 5, 100)])], [], {}), [Trade("X", "X", 5, 100)])
  {
    var x := Order("X", Sell, 5, 100);
    var s := State([], [Level(100, [x])], {"X"});
    assert FillLevel("X", 10, 100, [x]) == Fill([Trade("X", "X", 5, 100)], [], 5, {"X"}) by {
      assert [x][1..] == [];
    }
    assert Match("X", Buy, 100, 10, s.asks) == Outcome([Trade("X", "X", 5, 100)], [], 5, {"X"}) by {
      MatchStep("X", Buy, 100, 10, s.asks);
      assert s.asks[1..] == [];
    }
    PlaceShape(s, Buy, 10, 100, "X");
  }

  // ------------------------------------------------------------- snapshot

  /** `orders.stream().mapToInt(o -> o.quantity).sum()`: a running `int` sum. */
  method LevelSum(orders: seq<Order>) returns (sum: int)
    ensures sum == Wrap32(TotalQuantity(orders))
  {
    sum := 0;
    for k := 0 to |orders|
      invariant sum == Wrap32(TotalQuantity(orders[..k]))
    {
      TotalAppend(orders[..k], [orders[k]]);
      assert orders[..k + 1] == orders[..k] + [orders[k]];
      assert [orders[k]][1..] == [];
      WrapAdd(TotalQuantity(orders[..k]), orders[k].quantity);
      sum := Wrap32(sum + orders[k].quantity);
    }
    assert orders[..|orders|] == orders;
  }

  /** One `forEach` of `displayOrderBook`: each level's price and `int` total, in book order. */
  method SnapshotOf(book: Book) returns (r: seq<(int, int)>)
    ensures r == Snapshot(book)
  {
    r := [];
    for i := 0 to |book|
      invariant |r| == i
      invariant forall j :: 0 <= j < i ==> r[j] == (book[j].price, Wrap32(TotalQuantity(book[j].orders)))
    {
      var total := LevelSum(book[i].orders);
      r := r + [(book[i].price, total)];
    }
  }

  // ---------------------------------------------------------------- class

  /** The walk so far plus the walk still to come is the whole walk `goal`. */
  ghost predicate StillToMatch(incoming: Order, goal: Outcome, book: Book, qty: int,
                               trades: seq<Trade>, filled: set<string>)
  {
    var m := Match(incoming.id, incoming.side, incoming.price, qty, book);
    m.book == goal.book && m.remaining == goal.remaining
    && trades + m.trades == goal.trades && filled + m.filled == goal.filled
  }

  /** The fills so far plus the fills still to come are the whole level's fills `goal`. */
  ghost predicate StillToFill(taker: string, price: int, goal: Fill, orders: seq<Order>, qty: int,
                              trades: seq<Trade>, filled: set<string>)
  {
    var f := FillLevel(taker, qty, price, orders);
    f.orders == goal.orders && f.remaining == goal.remaining
    && trades + f.trades == goal.trades && filled + f.filled == goal.filled
  }

  /** One fill against the head of the queue keeps `StillToFill`. */
  lemma FillLoopStep(taker: string, price: int, goal: Fill, orders: seq<Order>, qty: int,
                     trades: seq<Trade>, filled: set<string>)
    requires StillToFill(taker, price, goal, orders, qty, trades, filled)
    requires orders != [] && qty > 0
    ensures var maker := orders[0];
      var t := Min(qty, maker.quantity);
      var m := maker.(quantity := maker.quantity - t);
      StillToFill(taker, price, goal,
                  if m.quantity == 0 then orders[1..] else [m] + orders[1..], qty - t,
                  trades + [Trade(taker, maker.id, t, price)],
                  filled + (if m.quantity == 0 then {maker.id} else {}))
  {
    var maker := orders[0];
    var t := Min(qty, maker.quantity);
    var m := maker.(quantity := maker.quantity - t);
    var rest := if m.quantity == 0 then orders[1..] else [m] + orders[1..];
    var r := FillLevel(taker, qty - t, price, rest);
    FillStep(taker, qty, price, orders);
    assert trades + [Trade(taker, maker.id, t, price)] + r.trades == trades + ([Trade(taker, maker.id, t, price)] + r.trades);
  }

  /** When the queue or the taker is exhausted, what was filled is the whole level's fills. */
  lemma FillDone(taker: string, price: int, goal: Fill, orders: seq<Order>, qty: int,
                 trades: seq<Trade>, filled: set<string>)
    requires StillToFill(taker, price, goal, orders, qty, trades, filled)
    requires orders == [] || qty <= 0
    ensures orders == goal.orders && qty == goal.remaining && trades == goal.trades && filled == goal.filled
  {
  }

  /** One crossing level of the walk keeps `StillToMatch`. */
  lemma WalkStep(incoming: Order, goal: Outcome, book: Book, qty: int,
                 trades: seq<Trade>, filled: set<string>)
    requires StillToMatch(incoming, goal, book, qty, trades, filled)
    requires book != [] && qty > 0 && Crosses(incoming.side, incoming.price, book[0].price)
    ensures var f := FillLevel(incoming.id, qty, book[0].price, book[0].orders);
      StillToMatch(incoming, goal,
                   if f.orders == [] then book[1..] else [Level(book[0].price, f.orders)] + book[1..],
                   f.remaining, trades + f.trades, filled + f.filled)
  {
    var f := FillLevel(incoming.id, qty, book[0].price, book[0].orders);
    MatchStep(incoming.id, incoming.side, incoming.price, qty, book);
    if f.orders == [] {
      var m := Match(incoming.id, incoming.side, incoming.price, f.remaining, book[1..]);
      assert trades + f.trades + m.trades == trades + (f.trades + m.trades);
    } else {
      var m := Match(incoming.id, incoming.side, incoming.price, f.remaining,
                     [Level(book[0].price, f.orders)] + book[1..]);
      FillConserves(incoming.id, qty, book[0].price, book[0].orders);
      assert m.trades == [];
    }
  }

  /** When the walk stops, what it has done is the whole walk. */
  lemma WalkDone(incoming: Order, goal: Outcome, book: Book, qty: int,
                 trades: seq<Trade>, filled: set<string>)
    requires StillToMatch(incoming, goal, book, qty, trades, filled)
    requires book == [] || qty <= 0 || !Crosses(incoming.side, incoming.price, book[0].price)
    ensures book == goal.book && qty == goal.remaining && trades == goal.trades && filled == goal.filled
  {
  }

  class Application {
    var buyOrders: Book
    var sellOrders: Book
    var orderMap: set<string>

    function Current(): State
      reads this
    {
      State(buyOrders, sellOrders, orderMap)
    }

    ghost predicate Valid()
      reads this
    {
      Invariant(Current())
    }

    constructor ()
      ensures Valid() && Uncrossed(Current())
      ensures buyOrders == [] && sellOrders == [] && orderMap == {}
    {
      buyOrders, sellOrders, orderMap := [], [], {};
    }

    /** `placeLimitOrder`: index the order, match it, return its id and the
        trades that the Java program prints. */
    method PlaceLimitOrder(side: Side, quantity: int, price: int, orderId: string) returns (id: string, trades: seq<Trade>)
      requires Valid() && IsInt32(quantity) && IsInt32(price)
      modifies this
      ensures Valid()
      ensures id == orderId
      ensures Placement(Current(), trades) == Place(old(Current()), side, quantity, price, orderId)
      ensures Uncrossed(old(Current())) ==> Uncrossed(Current())
    {
      var order := Order(orderId, side, quantity, price);
      orderMap := orderMap + {order.id};
      trades := MatchLimitOrder(order);
      id := order.id;
      PlaceKeepsInvariant(old(Current()), side, quantity, price, orderId);
      if Uncrossed(old(Current())) {
        PlaceKeepsUncrossed(old(Current()), side, quantity, price, orderId);
      }
    }

    /** `matchLimitOrder`: the crossing walk over the opposite book, then the
        remainder, if any, rests on the order's own book at its limit price. */
    method MatchLimitOrder(incoming: Order) returns (trades: seq<Trade>)
      modifies this
      ensures Placement(Current(), trades) == MatchAndRest(old(Current()), incoming)
    {
      var book, qty;
      book, qty, trades := Walk(incoming);
      if incoming.side == Buy {
        sellOrders := book;
      } else {
        buyOrders := book;
      }
      if qty > 0 {
        var rested := incoming.(quantity := qty);
        if incoming.side == Buy {
          buyOrders := Rest(buyOrders, Buy, rested);
        } else {
          sellOrders := Rest(sellOrders, Sell, rested);
        }
      }
    }

    /** The outer loop of `matchLimitOrder`: visit the opposite book best level
        first, stop at the first level that does not cross, fill a crossing
        level and delete it once it is empty. Returns what is left of the
        opposite book, the taker's remaining quantity and the trades. */
    method Walk(incoming: Order) returns (book: Book, qty: int, trades: seq<Trade>)
      modifies this
      ensures var goal := Match(incoming.id, incoming.side, incoming.price, incoming.quantity,
                                BookOf(old(Current()), Opposite(incoming.side)));
        && book == goal.book && qty == goal.remaining && trades == goal.trades
        && orderMap == old(orderMap) - goal.filled
      ensures buyOrders == old(buyOrders) && sellOrders == old(sellOrders)
    {
      book := BookOf(Current(), Opposite(incoming.side));
      ghost var goal := Match(incoming.id, incoming.side, incoming.price, incoming.quantity, book);
      ghost var filled: set<string> := {};
      qty := incoming.quantity;
      trades := [];
      while book != [] && qty > 0
        invariant StillToMatch(incoming, goal, book, qty, trades, filled)
        invariant orderMap == old(orderMap) - filled
        invariant buyOrders == old(buyOrders) && sellOrders == old(sellOrders)
        decreases |book|, qty
      {
        var level := book[0];
        if !Crosses(incoming.side, incoming.price, level.price) {
          WalkDone(incoming, goal, book, qty, trades, filled);
          break;
        }
        ghost var book0, qty0, trades0, filled0 := book, qty, trades, filled;
        ghost var f := FillLevel(incoming.id, qty, level.price, level.orders);
        var orders, levelTrades;
        qty, orders, levelTrades := FillQueue(incoming.id, qty, level);
        trades := trades + levelTrades;
        filled := filled + f.filled;
        if orders == [] {
          book := book[1..];
        } else {
          book := [Level(level.price, orders)] + book[1..];
        }
        WalkStep(incoming, goal, book0, qty0, trades0, filled0);
      }
      if book == [] || qty <= 0 {
        WalkDone(incoming, goal, book, qty, trades, filled);
      }
    }

    /** The inner loop of `matchLimitOrder` over one crossing level: fill the
        head for the smaller quantity at the level's price, remove a head that
        reaches zero from the queue and from `orderMap`. */
    method FillQueue(taker: string, qty: int, level: Level) returns (remaining: int, orders: seq<Order>, trades: seq<Trade>)
      requires qty > 0
      modifies this
      ensures var f := FillLevel(taker, qty, level.price, level.orders);
        && trades == f.trades && orders == f.orders && remaining == f.remaining
        && orderMap == old(orderMap) - f.filled
      ensures remaining >= 0 && (orders == [] || remaining == 0)
      ensures buyOrders == old(buyOrders) && sellOrders == old(sellOrders)
    {
      ghost var goal := FillLevel(taker, qty, level.price, level.orders);
      ghost var filled: set<string> := {};
      remaining, orders, trades := qty, level.orders, [];
      while orders != [] && remaining > 0
        invariant remaining >= 0
        invariant StillToFill(taker, level.price, goal, orders, remaining, trades, filled)
        invariant orderMap == old(orderMap) - filled
        invariant buyOrders == old(buyOrders) && sellOrders == old(sellOrders)
        decreases |orders|, remaining
      {
        FillLoopStep(taker, level.price, goal, orders, remaining, trades, filled);
        var maker := orders[0];
        var t := Min(remaining, maker.quantity);
        remaining := remaining - t;
        maker := maker.(quantity := maker.quantity - t);
        trades := trades + [Trade(taker, maker.id, t, level.price)];
        if maker.quantity == 0 {
          orders := orders[1..];
          orderMap := orderMap - {maker.id};
          filled := filled + {maker.id};
        } else {
          orders := [maker] + orders[1..];
        }
      }
      FillDone(taker, level.price, goal, orders, remaining, trades, filled);
    }

    /** `displayOrderBook`: the bid levels then the ask levels, each with its `int` total. */
    method DisplayOrderBook() returns (bids: seq<(int, int)>, asks: seq<(int, int)>)
      ensures bids == Snapshot(buyOrders) && asks == Snapshot(sellOrders)
    {
      bids := SnapshotOf(buyOrders);
      asks := SnapshotOf(sellOrders);
    }
  }
}
