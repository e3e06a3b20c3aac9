/**
 The game session: the state one player's browser session keeps between
 renders, and the operations that update it in place — executing an order,
 starting a new game, reading the current bar, and moving the cursor by hand
 or by auto-play. The order, reset, read, next-bar and render methods are
 proved equal to the matching functions of modules Orders and Cursor; the
 play/pause and auto-advance methods state their effect directly.
 */
module Game {
  import opened Options
  import opened Orders
  import Cursor

  /** A loaded chart: the ticker, the stock's name and the closing price of each five-minute bar. */
  datatype Round = Round(ticker: string, name: string, closes: seq<real>)

  class Session {
    var balance: real
    var position: int
    var avgCost: real
    var step: nat
    var history: seq<Entry>
    var tradesVisual: seq<Marker>
    var round: Option<Round>
    var autoPlay: bool

    /** A loaded chart is always long enough to play. */
    predicate Valid()
      reads this
    {
      round.Some? ==> |round.value.closes| >= Cursor.MinBars
    }

    /** The cursor is at most one past the last bar of the loaded chart. */
    predicate CursorInRange()
      reads this
    {
      round.Some? ==> step <= |round.value.closes|
    }

    /** The ledger the session fields hold. */
    function Snapshot(): Ledger
      reads this
    {
      Ledger(Book(balance, position, avgCost), history, tradesVisual)
    }

    /** The session before the first game: a fresh ledger, cursor 0, no chart, auto-play off. */
    constructor ()
      ensures Snapshot() == Initial && step == 0 && round == None && !autoPlay
      ensures Valid() && CursorInRange()
    {
      balance := StartingCapital;
      position := 0;
      avgCost := 0.0;
      step := 0;
      history := [];
      tradesVisual := [];
      round := None;
      autoPlay := false;
    }

    /**
     One order of `qty` shares at `price`, placed on bar `index`: the ledger
     fields end up exactly as `Apply` says, and nothing else changes.
     */
    method ExecuteTrade(action: Action, price: real, qty: nat, index: int) returns (outcome: Outcome)
      requires qty > 0
      modifies this`balance, this`position, this`avgCost, this`history, this`tradesVisual
      ensures Fill(Snapshot(), outcome) == Apply(old(Snapshot()), action, price, qty, index)
    {
      var fee := price * qty as real * FeeRate;
      if action == Buy && balance < price * qty as real {
        return InsufficientFunds;
      }
      var pos := position;
      if (pos >= 0 && action == Buy) || (pos <= 0 && action == Sell) {
        AddLeg(action, price, qty, fee);
        outcome := Executed;
      } else {
        outcome := CloseLeg(action, price, qty, fee);
      }
      tradesVisual := tradesVisual + [Marker(index, price, action)];
    }

    /** The add branch of `ExecuteTrade`: pay principal and fee, re-average, grow the position. */
    method AddLeg(action: Action, price: real, qty: nat, fee: real)
      requires qty > 0 && Adds(position, action) && fee == Fee(price, qty)
      requires action == Sell || balance >= price * qty as real
      modifies this`balance, this`position, this`avgCost, this`history
      ensures var t := Execute(old(Snapshot().book), action, price, qty);
        && t.outcome == Executed
        && Snapshot().book == t.book && history == old(history) + t.entries
    {
      AddToSide(Snapshot().book, action, price, qty);
      var pos := position;
      var direction: int := if action == Buy then 1 else -1;
      var cost := price * qty as real;
      balance := balance - (cost + fee);
      var totalCost := avgCost * Abs(pos) as real + cost;
      var newPosSize := Abs(pos) + qty;
      avgCost := totalCost / newPosSize as real;
      position := position + qty * direction;
      assert position == Move(pos, action, qty);
      history := history + [Added(action, qty, price)];
    }

    /**
     The close branch of `ExecuteTrade`: close up to the whole position, then
     open the opposite side with what is left of the order if cash allows.
     */
    method CloseLeg(action: Action, price: real, qty: nat, fee: real) returns (outcome: Outcome)
      requires qty > 0 && !Adds(position, action) && fee == Fee(price, qty)
      requires action == Sell || balance >= price * qty as real
      modifies this`balance, this`position, this`avgCost, this`history
      ensures var t := Execute(old(Snapshot().book), action, price, qty);
        && outcome == t.outcome
        && Snapshot().book == t.book && history == old(history) + t.entries
    {
      var direction: int := if action == Buy then 1 else -1;
      var cover := Min(Abs(position), qty);
      var remaining := qty - cover;
      CoverLeg(action, price, qty, fee);

      outcome := Executed;
      if remaining > 0 {
        var cost := price * remaining as real;
        if balance >= cost {
          balance := balance - (cost + fee);
          position := position + remaining * direction;
          avgCost := price;
          history := history + [Reversed(action, remaining, price)];
        } else {
          outcome := ReversalSkipped;
        }
      }
    }

    /** The closing part of `CloseLeg`: the book becomes `CloseOut` of the old one, and the close is logged. */
    method CoverLeg(action: Action, price: real, qty: nat, fee: real)
      requires !Adds(position, action) && fee == Fee(price, qty)
      modifies this`balance, this`position, this`history
      ensures Snapshot().book == CloseOut(old(Snapshot().book), action, price, qty)
      ensures var cover := Min(Abs(old(position)), qty);
        history == old(history) + [Closed(old(position) > 0, cover, Profit(old(position), avgCost, price, cover))]
    {
      var pos := position;
      var avg := avgCost;
      var direction: int := if action == Buy then 1 else -1;
      var cover := Min(Abs(pos), qty);
      var profit;
      if pos > 0 {
        profit := (price - avg) * cover as real;
        var revenue := price * cover as real;
        balance := balance + (revenue - fee);
      } else {
        profit := (avg - price) * cover as real;
        var cost := price * cover as real;
        balance := balance - (cost + fee);
        balance := balance + (cost + profit);
      }
      assert profit == Profit(pos, avg, price, cover);
      position := position + cover * direction;
      history := history + [Closed(pos > 0, cover, profit)];
    }

    /**
     Starting a new game: the ledger is fresh and auto-play is off; `feed` is
     what the market-data loader returned, and on success the cursor is put on
     the starting bar chosen by the random draw `pick`. On failure the cursor
     keeps its old value.
     */
    method ResetGame(feed: Option<Round>, pick: int)
      requires feed.Some? ==> |feed.value.closes| >= Cursor.MinBars
      requires feed.Some? && |feed.value.closes| - Cursor.Ahead > Cursor.Lead ==>
        Cursor.Lead <= pick <= |feed.value.closes| - Cursor.Ahead
      modifies this
      ensures Snapshot() == Initial && !autoPlay && round == feed
      ensures feed.Some? ==> step == Cursor.StartIndex(|feed.value.closes|, pick).value
      ensures feed.Some? ==> Cursor.Lead <= step && step + Cursor.Ahead <= |feed.value.closes|
      ensures feed.None? ==> step == old(step)
      ensures Valid() && CursorInRange()
    {
      balance := StartingCapital;
      position := 0;
      avgCost := 0.0;
      history := [];
      tradesVisual := [];
      autoPlay := false;
      if feed.Some? {
        step := Cursor.StartIndex(|feed.value.closes|, pick).value;
      }
      round := feed;
    }

    /**
     The bar a render reads and its closing price; auto-play is switched off
     when the cursor has run past the last bar.
     */
    method ReadCursor() returns (index: nat, price: real)
      requires round.Some? && Valid()
      modifies this`autoPlay
      ensures index == Cursor.ReadIndex(step, |round.value.closes|)
      ensures index < |round.value.closes| && price == round.value.closes[index]
      ensures autoPlay <==> old(autoPlay) && step < |round.value.closes|
    {
      var closes := round.value.closes;
      index := step;
      if index >= |closes| {
        autoPlay := false;
        index := |closes| - 1;
      }
      price := closes[index];
    }

    /** The next-bar button: one bar forward, never past the last bar. */
    method NextBar()
      requires round.Some?
      modifies this`step
      ensures step == Cursor.ManualStep(old(step), |round.value.closes|)
      ensures old(CursorInRange()) ==> CursorInRange()
    {
      if step < |round.value.closes| - 1 {
        step := step + 1;
      }
    }

    /** The play and pause buttons. */
    method SetAutoPlay(on: bool)
      modifies this`autoPlay
      ensures autoPlay == on
    {
      autoPlay := on;
    }

    /** The end of a render: auto-play moves the cursor one bar, unguarded. */
    method AutoAdvance()
      modifies this`step
      ensures step == if autoPlay then old(step) + 1 else old(step)
    {
      if autoPlay {
        step := step + 1;
      }
    }

    /**
     A render with no button pressed: read the cursor, then let auto-play move
     it. The cursor never runs more than one past the last bar.
     */
    method Refresh()
      requires round.Some? && Valid()
      modifies this`step, this`autoPlay
      ensures Cursor.Play(step, autoPlay) == Cursor.Render(Cursor.Play(old(step), old(autoPlay)), |round.value.closes|)
      ensures old(CursorInRange()) ==> CursorInRange()
    {
      var _, _ := ReadCursor();
      AutoAdvance();
    }

    /**
     A buy or sell button pressed during a render: the order is filled at the
     close of the bar the render read, and its marker is placed on that bar.
     */
    method Trade(action: Action, qty: nat) returns (outcome: Outcome)
      requires round.Some? && Valid() && qty > 0
      modifies this`balance, this`position, this`avgCost, this`history, this`tradesVisual, this`autoPlay
      ensures var closes := round.value.closes;
        var i := Cursor.ReadIndex(step, |closes|);
        Fill(Snapshot(), outcome) == Apply(old(Snapshot()), action, closes[i], qty, i)
      ensures autoPlay <==> old(autoPlay) && step < |round.value.closes|
    {
      var index, price := ReadCursor();
      outcome := ExecuteTrade(action, price, qty, index);
    }
  }
}
