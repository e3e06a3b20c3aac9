/**
 What the chart shows around the current bar: the window of at most 101 bars
 ending at it, the trade markers that fall inside that window split by side,
 and the stock name with all but its first character hidden.
 */
module Chart {
  import opened Orders

  /** Bars of history drawn before the current bar. */
  const Window: nat := 100

  /** First bar drawn: one hundred bars back, or the first bar of the chart. */
  function DisplayStart(current: nat): (s: nat)
    ensures s <= current && current - s <= Window
    ensures s == 0 || current - s == Window
    ensures current >= Window ==> current - s == Window
  {
    if current < Window then 0 else current - Window
  }

  /** The markers whose bar lies in `[lo, hi]`, in the order they were placed. */
  function Visible(markers: seq<Marker>, lo: int, hi: int): (v: seq<Marker>)
    ensures |v| <= |markers|
    ensures forall m | m in v :: m in markers && lo <= m.index <= hi
    ensures forall m | m in markers && lo <= m.index <= hi :: m in v
    ensures multiset(v) <= multiset(markers)
  {
    if markers == [] then []
    else
      var m := markers[0];
      assert markers == [m] + markers[1..];
      (if lo <= m.index <= hi then [m] else []) + Visible(markers[1..], lo, hi)
  }

  /** The markers of one side. */
  function Side(markers: seq<Marker>, side: Action): (s: seq<Marker>)
    ensures |s| <= |markers|
    ensures forall m | m in s :: m in markers && m.side == side
    ensures forall m | m in markers && m.side == side :: m in s
    ensures multiset(s) <= multiset(markers)
  {
    if markers == [] then []
    else
      var m := markers[0];
      assert markers == [m] + markers[1..];
      (if m.side == side then [m] else []) + Side(markers[1..], side)
  }

  /** Filtering a log with one more marker: the old visible markers, then the new one if it falls inside. */
  lemma {:induction false} VisibleAppend(markers: seq<Marker>, m: Marker, lo: int, hi: int)
    ensures Visible(markers + [m], lo, hi) == Visible(markers, lo, hi) + (if lo <= m.index <= hi then [m] else [])
    decreases |markers|
  {
    if markers == [] {
      assert [] + [m] == [m];
    } else {
      var x := markers[0];
      assert (markers + [m])[0] == x;
      assert (markers + [m])[1..] == markers[1..] + [m];
      VisibleAppend(markers[1..], m, lo, hi);
    }
  }

  /** Every marker is drawn exactly once: the two sides together are as many as the visible markers. */
  lemma {:induction false} SidesPartition(markers: seq<Marker>)
    ensures |Side(markers, Buy)| + |Side(markers, Sell)| == |markers|
    decreases |markers|
  {
    if markers != [] {
      SidesPartition(markers[1..]);
    }
  }

  /**
   The marker an accepted order leaves on the current bar is drawn at once: it
   is among the visible markers of the window that ends at that bar, and the
   markers already visible stay visible.
   */
  lemma NewMarkerVisible(l: Ledger, action: Action, price: real, qty: nat, current: nat)
    requires qty > 0
    ensures var r := Apply(l, action, price, qty, current);
      var lo := DisplayStart(current);
      r.outcome != InsufficientFunds ==>
        Visible(r.ledger.markers, lo, current) == Visible(l.markers, lo, current) + [Marker(current, price, action)]
  {
    VisibleAppend(l.markers, Marker(current, price, action), DisplayStart(current), current);
  }

  /** The displayed name: the first character followed by two full-width O's, or the name itself when it is that short. */
  function Masked(name: string): (r: string)
    ensures |name| > 1 ==> |r| == 3 && r[0] == name[0] && r[1..] == "ＯＯ"
    ensures |name| <= 1 ==> r == name
  {
    if |name| > 1 then [name[0]] + "ＯＯ" else name
  }
}
