/**
 The order-accounting core of the day-trading game: the ledger a session keeps
 (cash, signed position, average entry price, trade log, chart markers) and the
 effect of one buy or sell on it, as a function of the ledger before the order.
 The class in module Game performs the same effect by updating fields in place
 and is proved to agree with `Execute`.
 */
module Orders {

  /** Transaction fee, charged on the full order quantity. */
  const FeeRate: real := 0.002

  /** Cash every game starts with (ten million). */
  const StartingCapital: real := 10000000.0

  datatype Action = Buy | Sell

  /**
   One line of the trade log. The displayed wording ("take profit" versus
   "stop loss") is derived from the sign of `profit`; the text itself is not modelled.
   */
  datatype Entry =
    | Added(action: Action, qty: nat, price: real)      // adding to, or opening, a side
    | Closed(wasLong: bool, qty: nat, profit: real)     // selling a long or covering a short
    | Reversed(action: Action, qty: nat, price: real)   // the opposite side opened by a flip

  /** A chart annotation: the bar it was placed on, the fill price and the side. */
  datatype Marker = Marker(index: int, price: real, side: Action)

  /** The accounting part of a session: cash, signed share count, average entry price. */
  datatype Book = Book(balance: real, position: int, avgCost: real)

  /** The whole ledger: the book plus the trade log and the chart markers. */
  datatype Ledger = Ledger(book: Book, history: seq<Entry>, markers: seq<Marker>)

  /** What the player is told: nothing, "not enough money", or "not enough money to reverse". */
  datatype Outcome = Executed | InsufficientFunds | ReversalSkipped

  /** The book after one order, what the player is told, and the log entries it writes. */
  datatype Trade = Trade(book: Book, outcome: Outcome, entries: seq<Entry>)

  datatype Fill = Fill(ledger: Ledger, outcome: Outcome)

  /** The ledger of a fresh game. */
  const Initial: Ledger := Ledger(Book(StartingCapital, 0, 0.0), [], [])

  function Abs(x: int): nat { if x < 0 then -x else x }

  function Min(a: nat, b: nat): nat { if a <= b then a else b }

  /** The position after `qty` shares change hands on the given side. */
  function Move(position: int, action: Action, qty: nat): int {
    if action == Buy then position + qty else position - qty
  }

  function Fee(price: real, qty: nat): real { price * qty as real * FeeRate }

  /** The order adds to the open side; a flat book counts as either side. */
  predicate Adds(position: int, action: Action) {
    (position >= 0 && action == Buy) || (position <= 0 && action == Sell)
  }

  /** Profit realised by closing `cover` shares of `position` at `price`. */
  function Profit(position: int, avgCost: real, price: real, cover: nat): real {
    if position > 0 then (price - avgCost) * cover as real else (avgCost - price) * cover as real
  }

  /**
   The accounting of one call of the trade executor. Only a buy is checked for
   funds, against the principal without the fee; a rejected order changes
   nothing and writes nothing. An accepted order writes one log entry, or two
   when it flips the position.
   */
  function Execute(b: Book, action: Action, price: real, qty: nat): (r: Trade)
    requires qty > 0
    ensures r.outcome == InsufficientFunds <==> action == Buy && b.balance < price * qty as real
    ensures r.outcome == InsufficientFunds ==> r.book == b && r.entries == []
    ensures r.outcome != InsufficientFunds ==> 1 <= |r.entries| <= 2
    ensures r.outcome == ReversalSkipped ==> !Adds(b.position, action) && qty > Abs(b.position)
  {
    var pos := b.position;
    var fee := Fee(price, qty);
    if action == Buy && b.balance < price * qty as real then
      Trade(b, InsufficientFunds, [])
    else if Adds(pos, action) then
      var cost := price * qty as real;
      var avg := (b.avgCost * Abs(pos) as real + cost) / (Abs(pos) + qty) as real;
      Trade(Book(b.balance - (cost + fee), Move(pos, action, qty), avg),
            Executed, [Added(action, qty, price)])
    else
      var cover := Min(Abs(pos), qty);
      var remaining := qty - cover;
      var closed := CloseOut(b, action, price, qty);
      var close := Closed(pos > 0, cover, Profit(pos, b.avgCost, price, cover));
      if remaining > 0 && closed.balance >= price * remaining as real then
        Trade(Book(closed.balance - (price * remaining as real + fee), Move(closed.position, action, remaining), price),
              Executed, [close, Reversed(action, remaining, price)])
      else
        Trade(closed, if remaining > 0 then ReversalSkipped else Executed, [close])
  }

  /**
   The close leg of an order against the open side: as many shares as the
   order and the position both have are closed. Selling a long credits the
   proceeds less the fee; covering a short pays the price and the fee and
   then credits the price and the profit back, so cash moves by the profit
   less the fee. The fee is on the full order quantity. The average price is
   left as it was.
   */
  function CloseOut(b: Book, action: Action, price: real, qty: nat): (c: Book)
    requires !Adds(b.position, action)
    ensures var cover := Min(Abs(b.position), qty);
      && c.position == Move(b.position, action, cover)
      && c.avgCost == b.avgCost
      && (b.position > 0 ==> c.balance == b.balance + price * cover as real - Fee(price, qty))
      && (b.position < 0 ==> c.balance == b.balance + (b.avgCost - price) * cover as real - Fee(price, qty))
  {
    var pos := b.position;
    var fee := Fee(price, qty);
    var cover := Min(Abs(pos), qty);
    var profit := Profit(pos, b.avgCost, price, cover);
    var balance :=
      if pos > 0 then b.balance + (price * cover as real - fee)
      else b.balance - (price * cover as real + fee) + (price * cover as real + profit);
    Book(balance, Move(pos, action, cover), b.avgCost)
  }

  /**
   One call of the trade executor on the whole ledger: the book as `Execute`
   leaves it, its log entries appended to the history, and one marker for the
   bar the order was placed on, unless the order was rejected.
   */
  function Apply(l: Ledger, action: Action, price: real, qty: nat, index: int): (r: Fill)
    requires qty > 0
    ensures r.outcome == InsufficientFunds ==> r.ledger == l
    ensures r.outcome != InsufficientFunds ==> r.ledger.markers == l.markers + [Marker(index, price, action)]
    ensures |l.history| <= |r.ledger.history| && r.ledger.history[..|l.history|] == l.history
  {
    var t := Execute(l.book, action, price, qty);
    if t.outcome == InsufficientFunds then Fill(l, InsufficientFunds)
    else Fill(Ledger(t.book, l.history + t.entries, l.markers + [Marker(index, price, action)]), t.outcome)
  }

  /**
   Adding to the open side, or opening from flat: cash falls by the principal and
   the fee, the position grows by the quantity, and the open cost (average price
   times size) grows by the principal. From flat the average becomes the fill
   price, whatever stale average was left behind.
   */
  lemma AddToSide(b: Book, action: Action, price: real, qty: nat)
    requires qty > 0 && Adds(b.position, action)
    requires action == Sell || b.balance >= price * qty as real
    ensures var r := Execute(b, action, price, qty);
      && r.outcome == Executed
      && r.book.balance == b.balance - price * qty as real - Fee(price, qty)
      && r.book.position == Move(b.position, action, qty)
      && Abs(r.book.position) == Abs(b.position) + qty
      && r.book.avgCost == (OpenCost(b) + price * qty as real) / (Abs(b.position) + qty) as real
      && OpenCost(r.book) == OpenCost(b) + price * qty as real
      && (b.position == 0 ==> r.book.avgCost == price)
      && r.entries == [Added(action, qty, price)]
  {
    var r := Execute(b, action, price, qty);
    var m := Abs(b.position);
    var cost := price * qty as real;
    var avg := (b.avgCost * m as real + cost) / (m + qty) as real;
    assert r == Trade(Book(b.balance - (cost + Fee(price, qty)), Move(b.position, action, qty), avg),
                      Executed, [Added(action, qty, price)]);
    QuotientOfProduct(b.avgCost * m as real + cost, (m + qty) as real);
  }

  /** Average price times size: what the open side cost to build. */
  function OpenCost(b: Book): real {
    b.avgCost * Abs(b.position) as real
  }

  /** The new average price after adding lies between the old average and the fill price. */
  lemma AddedAverageBetween(b: Book, action: Action, price: real, qty: nat)
    requires qty > 0 && Adds(b.position, action)
    requires action == Sell || b.balance >= price * qty as real
    ensures var a := Execute(b, action, price, qty).book.avgCost;
      (b.avgCost <= price ==> b.avgCost <= a <= price) && (price <= b.avgCost ==> price <= a <= b.avgCost)
  {
    AddToSide(b, action, price, qty);
    var a := Execute(b, action, price, qty).book.avgCost;
    WeightedMeanBetween(a, b.avgCost, price, Abs(b.position) as real, qty as real);
  }

  /** A value whose total over `m + q` units is `x * m + y * q` lies between `x` and `y`. */
  lemma WeightedMeanBetween(a: real, x: real, y: real, m: real, q: real)
    requires m >= 0.0 && q > 0.0 && a * (m + q) == x * m + y * q
    ensures (x <= y ==> x <= a <= y) && (y <= x ==> y <= a <= x)
  {
    assert (a - x) * (m + q) == (y - x) * q;
    assert (y - a) * (m + q) == (y - x) * m;
    if x <= y {
      MulNonNegative(y - x, q);
      MulNonNegative(y - x, m);
      NonNegativeFactor(a - x, m + q);
      NonNegativeFactor(y - a, m + q);
    }
    if y <= x {
      MulNonNegative(x - y, q);
      MulNonNegative(x - y, m);
      assert (x - a) * (m + q) == (x - y) * q;
      assert (a - y) * (m + q) == (x - y) * m;
      NonNegativeFactor(x - a, m + q);
      NonNegativeFactor(a - y, m + q);
    }
  }

  lemma NonNegativeFactor(u: real, w: real)
    requires w > 0.0 && u * w >= 0.0
    ensures u >= 0.0
  {
  }

  lemma MulNonNegative(a: real, b: real)
    requires a >= 0.0 && b >= 0.0
    ensures a * b >= 0.0
  {
  }

  /**
   A closing order no larger than the open position: a long sale credits the
   proceeds less the fee, a short cover changes cash by the profit less the fee.
   The position moves toward zero by the quantity without crossing it, and the
   average price is left as it was, also when the position reaches zero.
   */
  lemma CloseWithoutFlip(b: Book, action: Action, price: real, qty: nat)
    requires qty > 0 && !Adds(b.position, action) && qty <= Abs(b.position)
    requires action == Sell || b.balance >= price * qty as real
    ensures var r := Execute(b, action, price, qty);
      && r.outcome == Executed
      && (b.position > 0 ==> r.book.balance == b.balance + price * qty as real - Fee(price, qty))
      && (b.position < 0 ==> r.book.balance == b.balance + (b.avgCost - price) * qty as real - Fee(price, qty))
      && r.book.position == Move(b.position, action, qty)
      && Abs(r.book.position) == Abs(b.position) - qty
      && (b.position > 0 ==> r.book.position >= 0)
      && (b.position < 0 ==> r.book.position <= 0)
      && r.book.avgCost == b.avgCost
      && r.entries == [Closed(b.position > 0, qty, Profit(b.position, b.avgCost, price, qty))]
  {
  }

  /**
   An order larger than the open position closes all of it first. If the cash
   left then covers the principal of the remainder, the opposite side is opened
   at the fill price and the fee on the full quantity is charged a second time;
   otherwise the close stands, the position is flat and no opening is logged.
   */
  lemma Flip(b: Book, action: Action, price: real, qty: nat)
    requires qty > Abs(b.position) && !Adds(b.position, action)
    requires action == Sell || b.balance >= price * qty as real
    ensures var r := Execute(b, action, price, qty);
      var remaining := qty - Abs(b.position);
      var close := Closed(b.position > 0, Abs(b.position), Profit(b.position, b.avgCost, price, Abs(b.position)));
      && (CloseOut(b, action, price, qty).balance >= price * remaining as real ==>
            && r.outcome == Executed
            && r.book.position == Move(0, action, remaining)
            && r.book.avgCost == price
            && r.book.balance == CloseOut(b, action, price, qty).balance - price * remaining as real - Fee(price, qty)
            && r.entries == [close, Reversed(action, remaining, price)])
      && (CloseOut(b, action, price, qty).balance < price * remaining as real ==>
            && r.outcome == ReversalSkipped
            && r.book.position == 0
            && r.book.avgCost == b.avgCost
            && r.book.balance == CloseOut(b, action, price, qty).balance
            && r.entries == [close])
  {
  }

  /**
   Every accepted call leaves one marker and one or two log entries; two exactly
   when a flip opened the opposite side. Earlier entries are never rewritten.
   */
  lemma LogPerCall(l: Ledger, action: Action, price: real, qty: nat, index: int)
    requires qty > 0
    ensures var r := Apply(l, action, price, qty, index);
      r.outcome != InsufficientFunds ==>
        && r.ledger.markers == l.markers + [Marker(index, price, action)]
        && |l.history| < |r.ledger.history| <= |l.history| + 2
        && r.ledger.history[..|l.history|] == l.history
        && (|r.ledger.history| == |l.history| + 2
            <==> !Adds(l.book.position, action) && qty > Abs(l.book.position) && r.outcome == Executed)
  {
  }

  /**
   An executed order moves the position by its full signed quantity; only a
   skipped reversal stops short, leaving the position flat.
   */
  lemma PositionMoves(b: Book, action: Action, price: real, qty: nat)
    requires qty > 0
    ensures var r := Execute(b, action, price, qty);
      && (r.outcome == Executed ==> r.book.position == Move(b.position, action, qty))
      && (r.outcome == ReversalSkipped ==> r.book.position == 0)
  {
  }

  /** With non-negative prices the average price never becomes negative. */
  lemma AvgCostStaysNonNegative(b: Book, action: Action, price: real, qty: nat)
    requires qty > 0 && b.avgCost >= 0.0 && price >= 0.0
    ensures Execute(b, action, price, qty).book.avgCost >= 0.0
  {
    var r := Execute(b, action, price, qty);
    if r.outcome != InsufficientFunds {
      if Adds(b.position, action) {
        AddedAverageBetween(b, action, price, qty);
      } else if qty <= Abs(b.position) {
        CloseWithoutFlip(b, action, price, qty);
      } else {
        Flip(b, action, price, qty);
      }
    }
  }

  /** An order as the player places it: side, price and quantity. */
  datatype Order = Order(action: Action, price: real, qty: nat)

  predicate ValidOrders(orders: seq<Order>) {
    forall k | 0 <= k < |orders| :: orders[k].qty > 0
  }

  /** The book after a sequence of orders, one call of the executor each. */
  function Replay(b: Book, orders: seq<Order>): (r: Book)
    requires ValidOrders(orders)
    decreases |orders|
  {
    if orders == [] then b
    else
      var o := orders[0];
      Replay(Execute(b, o.action, o.price, o.qty).book, orders[1..])
  }

  /** The orders of a sequence that were not rejected for funds, in order. */
  function Filled(b: Book, orders: seq<Order>): (f: seq<Order>)
    requires ValidOrders(orders)
    ensures |f| <= |orders|
    ensures forall o | o in f :: o in orders
    decreases |orders|
  {
    if orders == [] then []
    else
      var o := orders[0];
      var r := Execute(b, o.action, o.price, o.qty);
      (if r.outcome == InsufficientFunds then [] else [o]) + Filled(r.book, orders[1..])
  }

  function Shares(f: seq<Order>): nat {
    if f == [] then 0 else f[0].qty + Shares(f[1..])
  }

  function Notional(f: seq<Order>): real {
    if f == [] then 0.0 else f[0].price * f[0].qty as real + Notional(f[1..])
  }

  lemma SharesAppendFront(o: Order, f: seq<Order>)
    ensures Shares([o] + f) == o.qty + Shares(f)
    ensures Notional([o] + f) == o.price * o.qty as real + Notional(f)
  {
    assert ([o] + f)[1..] == f;
  }

  /** One step of a replay, with the executor's result named. */
  lemma ReplayFront(b: Book, orders: seq<Order>)
    requires ValidOrders(orders) && orders != []
    ensures ValidOrders(orders[1..])
    ensures var o := orders[0];
      var s := Execute(b, o.action, o.price, o.qty);
      && Replay(b, orders) == Replay(s.book, orders[1..])
      && Filled(b, orders) == (if s.outcome == InsufficientFunds then [] else [o]) + Filled(s.book, orders[1..])
  {
    var rest := orders[1..];
    forall k | 0 <= k < |rest| ensures rest[k].qty > 0 { assert rest[k] == orders[k + 1]; }
  }

  /**
   One more order at the end of a sequence: the replay is the executor applied
   to the book the earlier orders left, and the order is among the filled ones
   exactly when that call did not reject it.
   */
  lemma {:induction false} ReplaySnoc(b: Book, orders: seq<Order>, o: Order)
    requires ValidOrders(orders) && o.qty > 0
    ensures ValidOrders(orders + [o])
    ensures var s := Execute(Replay(b, orders), o.action, o.price, o.qty);
      && Replay(b, orders + [o]) == s.book
      && Filled(b, orders + [o]) == Filled(b, orders) + (if s.outcome == InsufficientFunds then [] else [o])
    decreases |orders|
  {
    var all := orders + [o];
    assert forall k | 0 <= k < |all| :: all[k].qty > 0 by {
      forall k | 0 <= k < |all| ensures all[k].qty > 0 {
        if k < |orders| { assert all[k] == orders[k]; }
      }
    }
    if orders == [] {
      assert all == [o];
      ReplayFront(b, all);
      assert all[1..] == [];
    } else {
      var x := orders[0];
      assert all[0] == x && all[1..] == orders[1..] + [o];
      ReplayFront(b, all);
      ReplayFront(b, orders);
      var s := Execute(b, x.action, x.price, x.qty);
      ReplaySnoc(s.book, orders[1..], o);
    }
  }

  /**
   Orders that all add to the same side: the position grows by the filled
   shares, and the open cost grows by the notional of the filled orders.
   */
  lemma {:induction false} SameSideAccumulates(b: Book, action: Action, orders: seq<Order>)
    requires ValidOrders(orders) && Adds(b.position, action)
    requires forall k | 0 <= k < |orders| :: orders[k].action == action
    ensures var r := Replay(b, orders);
      var f := Filled(b, orders);
      && r.position == Move(b.position, action, Shares(f))
      && OpenCost(r) == OpenCost(b) + Notional(f)
    decreases |orders|
  {
    if orders != [] {
      var o := orders[0];
      var rest := orders[1..];
      assert o.action == action && o.qty > 0;
      SameSideTail(action, orders);
      SameSideStep(b, o.action, o.price, o.qty);
      var s := Execute(b, o.action, o.price, o.qty);
      SameSideAccumulates(s.book, action, rest);
      ReplayFront(b, orders);
      Combine(b, s, o, Replay(s.book, rest), Filled(s.book, rest));
    }
  }

  /** The tail of a run of valid same-side orders is one too. */
  lemma SameSideTail(action: Action, orders: seq<Order>)
    requires orders != [] && ValidOrders(orders)
    requires forall k | 0 <= k < |orders| :: orders[k].action == action
    ensures ValidOrders(orders[1..])
    ensures forall k | 0 <= k < |orders| - 1 :: orders[1..][k].action == action
  {
    var rest := orders[1..];
    forall k | 0 <= k < |rest| ensures rest[k].action == action && rest[k].qty > 0 {
      assert rest[k] == orders[k + 1];
    }
  }

  /** Chaining the first same-side order with the orders after it. */
  lemma Combine(b: Book, s: Trade, o: Order, r: Book, tail: seq<Order>)
    requires s.outcome == InsufficientFunds ==> s.book == b
    requires s.outcome != InsufficientFunds ==>
      s.book.position == Move(b.position, o.action, o.qty) && OpenCost(s.book) == OpenCost(b) + o.price * o.qty as real
    requires r.position == Move(s.book.position, o.action, Shares(tail)) && OpenCost(r) == OpenCost(s.book) + Notional(tail)
    ensures var f := (if s.outcome == InsufficientFunds then [] else [o]) + tail;
      r.position == Move(b.position, o.action, Shares(f)) && OpenCost(r) == OpenCost(b) + Notional(f)
  {
    if s.outcome == InsufficientFunds {
      assert [] + tail == tail;
    } else {
      SharesAppendFront(o, tail);
    }
  }

  /** One same-side order: rejected and nothing changes, or filled and added in full. */
  lemma SameSideStep(b: Book, action: Action, price: real, qty: nat)
    requires qty > 0 && Adds(b.position, action)
    ensures var s := Execute(b, action, price, qty);
      && Adds(s.book.position, action)
      && (s.outcome == InsufficientFunds ==> s.book == b)
      && (s.outcome != InsufficientFunds ==>
            s.book.position == Move(b.position, action, qty)
            && OpenCost(s.book) == OpenCost(b) + price * qty as real)
  {
    if Execute(b, action, price, qty).outcome != InsufficientFunds {
      AddToSide(b, action, price, qty);
    }
  }

  /**
   From a flat book, a run of same-side orders leaves the size-weighted mean
   of the filled prices as the average price.
   */
  lemma WeightedMeanFromFlat(b: Book, action: Action, orders: seq<Order>)
    requires ValidOrders(orders) && b.position == 0
    requires forall k | 0 <= k < |orders| :: orders[k].action == action
    ensures var r := Replay(b, orders);
      var f := Filled(b, orders);
      && Abs(r.position) == Shares(f)
      && (Shares(f) > 0 ==> r.avgCost == Notional(f) / Shares(f) as real)
  {
    SameSideAccumulates(b, action, orders);
    MeanFromTotal(b, Replay(b, orders), action, Shares(Filled(b, orders)), Notional(Filled(b, orders)));
  }

  /** Built up from flat, the open side costs `total` over `n` shares: its average is `total / n`. */
  lemma MeanFromTotal(b: Book, r: Book, action: Action, n: nat, total: real)
    requires b.position == 0
    requires r.position == Move(b.position, action, n) && OpenCost(r) == OpenCost(b) + total
    ensures Abs(r.position) == n
    ensures n > 0 ==> r.avgCost == total / n as real
  {
    assert r.avgCost * n as real == total;
    if n > 0 {
      QuotientOfProduct(r.avgCost, n as real);
    }
  }

  lemma QuotientOfProduct(a: real, n: real)
    requires n > 0.0
    ensures a * n / n == a
  {
  }

  /** Sells are never checked for funds: every sell in a sequence is filled. */
  lemma {:induction false} SellsAlwaysFill(b: Book, orders: seq<Order>)
    requires ValidOrders(orders)
    requires forall k | 0 <= k < |orders| :: orders[k].action == Sell
    ensures Filled(b, orders) == orders
    decreases |orders|
  {
    if orders != [] {
      var o := orders[0];
      var s := Execute(b, o.action, o.price, o.qty);
      var rest := orders[1..];
      assert forall k | 0 <= k < |rest| :: rest[k] == orders[k + 1];
      SellsAlwaysFill(s.book, rest);
      assert orders == [o] + rest;
    }
  }

  /** Buy 1000 at 100 then sell 1000 at 110 from a fresh game; the average price is not reset. */
  lemma LongRoundTripScenario()
    ensures var a := Apply(Initial, Buy, 100.0, 1000, 60);
      var b := Apply(a.ledger, Sell, 110.0, 1000, 61);
      && a.ledger.book == Book(9899800.0, 1000, 100.0)
      && b.ledger.book == Book(10009580.0, 0, 100.0)
      && b.ledger.history == [Added(Buy, 1000, 100.0), Closed(true, 1000, 10000.0)]
      && b.ledger.markers == [Marker(60, 100.0, Buy), Marker(61, 110.0, Sell)]
  {
  }

  /**
   Sell 1000 at 100 then buy 1000 back at 100 from a fresh game: the cover
   returns only the (zero) profit less the fee, so the notional set aside when
   the short was opened is not returned to cash.
   */
  lemma ShortRoundTripScenario()
    ensures var a := Execute(Initial.book, Sell, 100.0, 1000);
      var b := Execute(a.book, Buy, 100.0, 1000);
      && a.book == Book(9899800.0, -1000, 100.0)
      && b.outcome == Executed && b.book == Book(9899600.0, 0, 100.0)
  {
  }

  /** Long 10 at 100, sell 15 at 90: a loss of 100 on ten shares, then a fresh short of five at 90. */
  lemma FlipScenario()
    ensures var r := Execute(Book(1000000.0, 10, 100.0), Sell, 90.0, 15);
      && r.outcome == Executed
      && r.book == Book(1000000.0 + 900.0 - 2.7 - 450.0 - 2.7, -5, 90.0)
      && r.entries == [Closed(true, 10, -100.0), Reversed(Sell, 5, 90.0)]
  {
  }
}
