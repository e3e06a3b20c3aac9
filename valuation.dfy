/**
 The equity panel of the game: unrealised profit, estimated total assets and
 return on the starting capital, valued at the current bar's close, and how one
 order at that close moves the estimated assets.
 */
module Valuation {
  import opened Orders

  datatype Valuation = Valuation(unrealized: real, assets: real, roi: real)

  /**
   The panel for a book at `price`. A long is valued at the market; a short is
   valued as its entry notional plus its unrealised profit. Either way the
   unrealised profit is what closing the whole position at `price` would
   realise, and the assets are cash plus open cost plus that profit.
   */
  function Value(b: Book, price: real): (v: Valuation)
    ensures v.unrealized == Profit(b.position, b.avgCost, price, Abs(b.position))
    ensures v.assets == b.balance + OpenCost(b) + v.unrealized
    ensures b.position >= 0 ==> v.assets == b.balance + b.position as real * price
    ensures b.position == 0 ==> v.unrealized == 0.0 && v.assets == b.balance
    ensures v.roi * StartingCapital == (v.assets - StartingCapital) * 100.0
    ensures v.roi >= 0.0 <==> v.assets >= StartingCapital
  {
    var pos := b.position;
    var unrealized :=
      if pos > 0 then (price - b.avgCost) * pos as real
      else if pos < 0 then (b.avgCost - price) * Abs(pos) as real
      else 0.0;
    var assets :=
      if pos > 0 then b.balance + pos as real * price
      else if pos < 0 then b.balance + Abs(pos) as real * b.avgCost + unrealized
      else b.balance;
    Valuation(unrealized, assets, (assets - StartingCapital) / StartingCapital * 100.0)
  }

  /** A fresh game shows ten million in assets and no return. */
  lemma FreshGame(price: real)
    ensures Value(Initial.book, price) == Valuation(0.0, StartingCapital, 0.0)
  {
  }

  /** The estimated assets of a book, written without case split on the side. */
  function Assets(b: Book, price: real): real {
    if b.position >= 0 then b.balance + b.position as real * price
    else b.balance + Abs(b.position) as real * (2.0 * b.avgCost - price)
  }

  lemma AssetsAgree(b: Book, price: real)
    ensures Value(b, price).assets == Assets(b, price)
  {
  }

  /**
   The estimated assets, valued at the fill price, after one order. A rejected
   order changes nothing. Every other order costs exactly its fee, twice when it
   flips the position, and a short cover additionally loses the entry notional
   of the covered shares, because the cover credits back only the profit.
   */
  lemma AssetsAfterOrder(b: Book, action: Action, price: real, qty: nat)
    requires qty > 0
    ensures var r := Execute(b, action, price, qty);
      var before := Value(b, price).assets;
      var after := Value(r.book, price).assets;
      var fees := if |r.entries| == 2 then 2.0 * Fee(price, qty) else Fee(price, qty);
      && (r.outcome == InsufficientFunds ==> after == before)
      && (r.outcome != InsufficientFunds && Adds(b.position, action) ==> after == before - fees)
      && (r.outcome != InsufficientFunds && b.position > 0 && action == Sell ==> after == before - fees)
      && (r.outcome != InsufficientFunds && b.position < 0 && action == Buy ==>
            after == before - b.avgCost * Min(Abs(b.position), qty) as real - fees)
  {
    var r := Execute(b, action, price, qty);
    AssetsAgree(b, price);
    AssetsAgree(r.book, price);
    if r.outcome != InsufficientFunds {
      if Adds(b.position, action) {
        AddingCostsTheFee(b, action, price, qty);
      } else if b.position > 0 {
        LongCloseCostsTheFee(b, price, qty);
      } else {
        ShortCoverLosesNotional(b, price, qty);
      }
    }
  }

  /** Adding to either side, or opening from flat, costs exactly the fee. */
  lemma AddingCostsTheFee(b: Book, action: Action, price: real, qty: nat)
    requires qty > 0 && Adds(b.position, action)
    requires action == Sell || b.balance >= price * qty as real
    ensures Assets(Execute(b, action, price, qty).book, price) == Assets(b, price) - Fee(price, qty)
  {
    AddToSide(b, action, price, qty);
  }

  /** Selling out of a long, in part or in full, costs the fee, and once more when it flips short. */
  lemma LongCloseCostsTheFee(b: Book, price: real, qty: nat)
    requires qty > 0 && b.position > 0
    ensures var r := Execute(b, Sell, price, qty);
      Assets(r.book, price) == Assets(b, price) - (if |r.entries| == 2 then 2.0 * Fee(price, qty) else Fee(price, qty))
  {
    if qty <= Abs(b.position) {
      CloseWithoutFlip(b, Sell, price, qty);
    } else {
      Flip(b, Sell, price, qty);
    }
  }

  /**
   Covering a short, in part or in full, costs the fee (twice when it flips
   long) and the entry notional of the covered shares.
   */
  lemma ShortCoverLosesNotional(b: Book, price: real, qty: nat)
    requires qty > 0 && b.position < 0 && b.balance >= price * qty as real
    ensures var r := Execute(b, Buy, price, qty);
      var fees := if |r.entries| == 2 then 2.0 * Fee(price, qty) else Fee(price, qty);
      Assets(r.book, price) == Assets(b, price) - b.avgCost * Min(Abs(b.position), qty) as real - fees
  {
    if qty <= Abs(b.position) {
      ShortPartialCover(b, price, qty);
    } else {
      ShortCoverAndFlip(b, price, qty);
    }
  }

  lemma ShortPartialCover(b: Book, price: real, qty: nat)
    requires qty > 0 && b.position < 0 && qty <= Abs(b.position) && b.balance >= price * qty as real
    ensures var r := Execute(b, Buy, price, qty);
      |r.entries| == 1 && Assets(r.book, price) == Assets(b, price) - b.avgCost * qty as real - Fee(price, qty)
  {
    CloseWithoutFlip(b, Buy, price, qty);
    CoverArithmetic(b.balance, b.avgCost, price, Abs(b.position) as real, qty as real, Fee(price, qty));
  }

  /** Cash and short-side value after covering `q` of `m` shorted shares entered at `a`. */
  lemma CoverArithmetic(cash: real, a: real, p: real, m: real, q: real, fee: real)
    ensures (cash + (a - p) * q - fee) + (m - q) * (2.0 * a - p) == cash + m * (2.0 * a - p) - a * q - fee
  {
  }

  lemma ShortCoverAndFlip(b: Book, price: real, qty: nat)
    requires b.position < 0 && qty > Abs(b.position) && b.balance >= price * qty as real
    ensures var r := Execute(b, Buy, price, qty);
      var fees := if |r.entries| == 2 then 2.0 * Fee(price, qty) else Fee(price, qty);
      Assets(r.book, price) == Assets(b, price) - b.avgCost * Abs(b.position) as real - fees
  {
    var m := Abs(b.position) as real;
    Flip(b, Buy, price, qty);
    CoverArithmetic(b.balance, b.avgCost, price, m, m, Fee(price, qty));
  }

  /**
   Buying at `p` and selling the same shares at `q` from a flat book: the
   assets move by exactly the price difference times the shares, less one fee
   per order.
   */
  lemma LongRoundTrip(b: Book, p: real, q: real, qty: nat)
    requires qty > 0 && b.position == 0 && b.balance >= p * qty as real
    ensures var r := Execute(Execute(b, Buy, p, qty).book, Sell, q, qty);
      && r.outcome == Executed && r.book.position == 0
      && r.book.balance == b.balance + (q - p) * qty as real - Fee(p, qty) - Fee(q, qty)
  {
    AddToSide(b, Buy, p, qty);
    var s := Execute(b, Buy, p, qty).book;
    CloseWithoutFlip(s, Sell, q, qty);
  }
}
