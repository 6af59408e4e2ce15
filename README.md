# Limit-order matching engine in Dafny

This project models the engine of `Application` (`src/Application.java`):
- It holds a bid book and an ask book, each a price-ordered map from price to a FIFO queue of orders.
- It matches each incoming limit order against the opposite book by price-time priority.
- It rests any remainder at the tail of its own price level.
- It keeps an id index (`orderMap`) beside the books.
- It reports a per-level aggregate snapshot.

The project has three modules, one per concern:

- `Book` (`book.dfy`):
  - orders, price levels and books;
  - the book invariant: sorted best price first, no empty level, positive `int` quantities;
  - resting an order (`putIfAbsent` + `add`), as the function `Rest`;
  - the `displayOrderBook` snapshot, with Java's 32-bit `int` sum written out (`Wrap32`).
- `Matching` (`matching.dfy`):
  - the crossing walk of `matchLimitOrder` as two specification functions. `FillLevel` is the inner loop over one queue; `Match` is the outer loop over the levels.
  - the lemmas about them: price validity, price-time priority, conservation, well-formedness and the early stop.
- `Engine` (`application.dfy`):
  - the engine state, and `placeLimitOrder` as the function `Place` over it;
  - the invariants that `Place` preserves;
  - the `main` scenario;
  - the class `Application`, with the fields `buyOrders`, `sellOrders` and `orderMap`. Its methods run the two nested `while` loops of `matchLimitOrder` step by step. `Walk` and `FillQueue` are proved equal to `Match` and `FillLevel`, and `LevelSum` and `SnapshotOf` equal to the snapshot, through loop invariants. `PlaceLimitOrder`, `MatchLimitOrder` and `DisplayOrderBook` have no loop and are proved through the contracts of the methods and lemmas they call.

A book is a `seq<Level>`, best level first:
- bids are in descending price order, like the `TreeMap` built with `Comparator.reverseOrder()`;
- asks are in ascending price order.

A level is a price with its queue of orders, oldest first. `orderMap` is modelled by its key set, because the code only ever `put`s and `remove`s in it.

The trades the Java program prints are returned as a sequence of `Trade(taker, maker, quantity, price)`.

Input checks and id handling are modelled exactly as the code does them:
- There is no input validation.
- A repeated id overwrites the index entry.
- A taker that is filled at once stays in `orderMap`, unless one of the makers it fills has the same id: the removal at line 66 is by key.
- An incoming order with quantity `<= 0` trades nothing and does not rest, but its id is indexed.

A level's snapshot total is Java's `int` sum. It can wrap when the quantities resting at one price add up to more than `Integer.MAX_VALUE`. `SnapshotOverflow` exhibits this.

## Model

| member | source | states |
|---|---|---|
| Book.Wrap32 | src/Application.java:90 | the `int` result of a Java sum: in the `int` range, congruent to the exact value modulo 2^32, and equal to it when that value fits |
| Book.WrapAdd | src/Application.java:90 | summing in `int` step by step gives the exact sum wrapped once at the end |
| Book.RestAppendsAtTail | src/Application.java:79-81 | resting appends the order at the tail of its own price level (creating the level if absent) and leaves every other level's queue unchanged |
| Book.RestBest | src/Application.java:79-81 | after resting, the book is non-empty and its best price is the order's own price if that ranks at or ahead of the old best, else the old best |
| Book.RestWellFormed | src/Application.java:79-81 | resting a positive `int` order on its own side keeps the book sorted with no empty level, and adds at most one level |
| Book.RestInserts | src/Application.java:79-81 | the orders in priority order after resting are the old ones with the new order inserted at one position, all others kept in order |
| Book.RestAddsOrder | src/Application.java:79-81 | resting adds exactly that order: the multiset of orders, the total quantity and the multiset of ids each grow by it |
| Book.SnapshotLevels | src/Application.java:88-94 | the snapshot has one entry per level, entry i carrying level i's price and an `int` total, so prices run in the book's priority order; each total is the exact positive level sum when it fits in an `int`, and is congruent to it modulo 2^32 otherwise |
| Book.SnapshotOverflow | src/Application.java:90 | two orders of `Integer.MAX_VALUE` at one price are reported with total -2 |
| Matching.FillConserves | src/Application.java:58-60 | across one level's fills, the taker's quantity equals its traded quantity plus its remainder |
| Matching.FillPriority | src/Application.java:56-67 | within one level the queue is consumed strictly from the head: a prefix is filled whole, in order, at the level's price; at most one next order is partly filled and stays at the front; the rest is untouched; the index loses exactly the prefix's ids |
| Matching.FillByTaker | src/Application.java:62 | every trade of a level names the incoming order as taker |
| Matching.MatchConserves | src/Application.java:47-77 | over the whole walk, the taker's original quantity equals the traded quantity plus the remainder, and the opposite book loses exactly the traded quantity |
| Matching.MatchPriority | src/Application.java:45-77 | the walk consumes the opposite book's resting orders in priority order (best level first, oldest first), each trade hitting the next order at its own price, with at most one order partly filled and the rest untouched |
| Matching.MatchWellFormed | src/Application.java:64-72 | the walk keeps the opposite book well formed (emptied levels are deleted, reduced makers stay positive) and leaves a suffix of its price levels |
| Matching.MatchLeavesSuffix | src/Application.java:70-72 | the walk deletes some best levels and may reduce the new best one; the prices left are a suffix of the old prices, and every level behind the new best is an old level unchanged |
| Matching.MatchWithinLimit | src/Application.java:49-62 | every trade is with the taker, of a positive quantity, at a level price that crosses the limit: a buy never pays above its limit, a sell never receives below it |
| Matching.MatchStopsAtFirstNonCrossing | src/Application.java:47-76 | if quantity remains after the walk, no level left in the opposite book crosses the taker's limit |
| Matching.FlattenInPriorityOrder | src/Application.java:12-13 | along a well-formed book's priority order, prices never improve |
| Matching.MatchBestFirst | src/Application.java:45-52 | the trade prices of one incoming order never improve from one trade to the next |
| Matching.MatchRemovesIds | src/Application.java:64-67 | the walk removes a prefix of the book's orders; the ids removed from the index are exactly that prefix's ids, and the ids still resting are those of the rest |
| Engine.Remainder | src/Application.java:58-60 | the taker's remainder is its quantity minus what it traded, never more than it asked for, and not negative for a non-negative quantity |
| Engine.PlaceKeepsInvariant | src/Application.java:64-81 | placing an `int` order keeps both books sorted, with no empty level and only positive `int` quantities |
| Engine.PlaceKeepsUncrossed | src/Application.java:47-81 | if the best bid is below the best ask before a placement, it still is after |
| Engine.PlaceConserves | src/Application.java:58-81 | the opposite book loses exactly the traded quantity; for a non-negative quantity, the order's own book gains exactly the quantity it did not trade |
| Engine.PlaceRestsAtTail | src/Application.java:79-81 | a remainder rests at the order's own limit price (not the trade price), at the tail of that level; no other level of its book changes |
| Engine.PlaceKeepsIndex | src/Application.java:25-67 | for a new id that is not resting (for example, the id of an earlier filled taker): resting ids stay distinct and indexed, the new id is indexed, and no fully filled maker stays reachable by id or resting |
| Engine.SameIdMakerFilledThenRests | src/Application.java:25-81 | placing buy 10 @ 100 under the id of a resting ask 5 @ 100 trades 5, removes that id from the index with the filled maker, and rests the remaining 5 under the same id, which is then not indexed |
| Engine.DemoScenario | src/Application.java:99-105 | the `main` sequence trades (1001, 1000, 10, 100) and (1003, 1001, 10, 100), then shows bids [(100, 5)] and asks [(101, 8)], with ids 1002 and 1003 indexed |
| Engine.LevelSum | src/Application.java:90 | the stream's `int` sum of a level's quantities is the exact total wrapped to 32 bits |
| Engine.SnapshotOf | src/Application.java:90 | one `forEach` over a book yields its snapshot |
| Engine.Application.constructor | src/Application.java:12-14 | a new engine has empty books and an empty index, which are well formed and uncrossed |
| Engine.Application.PlaceLimitOrder | src/Application.java:25-34 | returns the given id; the new books, index and trades are those of `Place`; the books stay well formed and an uncrossed book stays uncrossed |
| Engine.Application.MatchLimitOrder | src/Application.java:44-83 | the new state and trades are those of `MatchAndRest`: the walk's result on the opposite book, the filled makers removed from the index, and the remainder rested if positive |
| Engine.Application.Walk | src/Application.java:45-77 | the outer loop leaves exactly `Match`'s book, remainder and trades and removes exactly its filled ids from `orderMap`; the books are not yet reassigned |
| Engine.Application.FillQueue | src/Application.java:56-68 | the inner loop leaves exactly `FillLevel`'s queue, remainder and trades and removes its filled ids from `orderMap`; it ends with the queue empty or the taker filled |
| Engine.Application.DisplayOrderBook | src/Application.java:88-94 | returns the snapshot of the bid book and of the ask book |

## Left out

- Console output (`System.out.println` and `print`): it is replaced by the returned trade sequence and the returned snapshot pairs; the text format is not modelled.
- `synchronized` and `ConcurrentHashMap`: the model is one sequential instance, and locking is not modelled.
- `main` as an entry point: its four orders appear only in `DemoScenario` and its four step lemmas.
- The `orderIdCounter` field: the code never uses it.
- The string side with `equalsIgnoreCase`: the side is the enum `Buy | Sell`. A side string that is neither "B" nor "S" is not modelled.
- The values of `orderMap`: each is the `Order` object put at line 27, which is also the object in a queue while that order rests; the code never reads them, so the index is its key set.
- Object identity and aliasing: orders, queues and books are values that the methods reassign, not shared objects updated in place.
- Iterator removal during the walk: it is modelled as dropping the best level of a sequence.
- Engine.Application.PlaceLimitOrder: requires `Valid()` (both books well formed) and requires `quantity` and `price` to be Java `int` values, as their Java type does. It requires nothing about their sign, so quantities `<= 0` and any price are handled as the code handles them.
- Engine.PlaceKeepsInvariant: requires the quantity to be at most `Integer.MAX_VALUE`, as its Java type does.
- Engine.PlaceKeepsIndex: is stated only for an id that is not resting. An id that is only indexed, such as a filled taker's, is allowed. The code overwrites an existing id without rejecting it, so placing the id of an order that is still resting can leave two resting orders with one id. It can also leave a resting order whose id is no longer in `orderMap`: this happens when the new order fully fills a maker with the same id and then rests (`SameIdMakerFilledThenRests`).
- Null arguments: a null `orderId` makes `ConcurrentHashMap.put` throw at line 27, and a null `side` throws at line 28 after the id is already indexed. Dafny strings and the `Side` enum cannot be null, so these exceptions have no counterpart.
- Input validation, duplicate-id rejection, cancellation and lookups by id: the code has none of these, so the model has none.
