/**
 The bar cursor of a game: where a freshly loaded chart starts, which bar a
 render reads, and how the cursor moves on a manual step and on auto-play.
 The cursor itself lives in the session (module Game); these are the rules it
 follows.
 */
module Cursor {
  import opened Options

  /** Bars a loaded chart must have left after cleaning. */
  const MinBars: nat := 200

  /** Bars of history shown before the starting bar. */
  const Lead: nat := 50

  /** Bars kept ahead of the starting bar. */
  const Ahead: nat := 150

  /**
   The starting bar of a chart of `n` bars: nothing when the chart is too short
   to play, otherwise the random pick from `[Lead, n - Ahead]`, or `Lead` when
   that range holds a single bar. `pick` is the outcome of the random draw.
   */
  function StartIndex(n: nat, pick: int): (s: Option<nat>)
    requires n >= MinBars && n - Ahead > Lead ==> Lead <= pick <= n - Ahead
    ensures s.Some? <==> n >= MinBars
    ensures s.Some? ==> Lead <= s.value && s.value + Ahead <= n
    ensures s.Some? && n - Ahead > Lead ==> s.value == pick
  {
    if n < MinBars then None
    else
      var maxStart := n - Ahead;
      Some(if maxStart > Lead then pick else Lead)
  }

  /**
   The bar a render reads: the cursor, or the last bar when the cursor has run
   past the end.
   */
  function ReadIndex(step: nat, n: nat): (i: nat)
    requires n > 0
    ensures i < n && i <= step
    ensures step < n ==> i == step
    ensures step >= n ==> i == n - 1
  {
    if step >= n then n - 1 else step
  }

  /** A manual step: one bar forward, unless the cursor is already on the last bar or beyond. */
  function ManualStep(step: nat, n: nat): (s: nat)
    ensures step < n - 1 ==> s == step + 1
    ensures step >= n - 1 ==> s == step
    ensures step < n ==> s < n
  {
    if step < n - 1 then step + 1 else step
  }

  /** Cursor and auto-play flag. */
  datatype Play = Play(step: nat, auto: bool)

  /**
   One render of the game screen as far as the cursor is concerned: auto-play
   is switched off when the cursor has run past the last bar, and otherwise
   auto-play moves the cursor one bar forward, with no bound of its own.
   */
  function Render(p: Play, n: nat): (r: Play)
    ensures r.auto <==> p.auto && p.step < n
    ensures r.step == if r.auto then p.step + 1 else p.step
    ensures p.step <= n ==> r.step <= n
  {
    var auto := p.auto && !(p.step >= n);
    Play(if auto then p.step + 1 else p.step, auto)
  }

  /** `k` renders in a row, with no button pressed between them. */
  function Renders(p: Play, n: nat, k: nat): (r: Play)
    decreases k
  {
    if k == 0 then p else Renders(Render(p, n), n, k - 1)
  }

  /**
   Renders never move a cursor that is at most one past the last bar any
   further than that.
   */
  lemma {:induction false} RendersStayInBounds(p: Play, n: nat, k: nat)
    requires p.step <= n
    ensures Renders(p, n, k).step <= n
    decreases k
  {
    if k > 0 {
      RendersStayInBounds(Render(p, n), n, k - 1);
    }
  }

  /**
   Auto-play from bar `s` runs the cursor one bar per render until it is one
   past the last bar, then switches itself off: after `n - s` renders the
   cursor stands at `n` with auto-play still on, and one more render stops it.
   */
  lemma {:induction false} AutoPlayRunsToEnd(s: nat, n: nat, k: nat)
    requires s + k <= n
    ensures Renders(Play(s, true), n, k) == Play(s + k, true)
    ensures Render(Renders(Play(s, true), n, k), n) == (if s + k < n then Play(s + k + 1, true) else Play(n, false))
    decreases k
  {
    if k > 0 {
      AutoPlayRunsToEnd(s + 1, n, k - 1);
    }
  }

  /** Once auto-play is off, renders leave the cursor where it is. */
  lemma {:induction false} PausedStaysPut(p: Play, n: nat, k: nat)
    requires !p.auto
    ensures Renders(p, n, k) == p
    decreases k
  {
    if k > 0 {
      PausedStaysPut(Render(p, n), n, k - 1);
    }
  }

  /** Manual steps from a readable bar never leave the chart. */
  lemma {:induction false} ManualStepsStayOnChart(step: nat, n: nat, k: nat)
    requires step < n
    ensures ManualSteps(step, n, k) < n
    ensures ManualSteps(step, n, k) == if step + k < n then step + k else n - 1
    decreases k
  {
    if k > 0 {
      ManualStepsStayOnChart(ManualStep(step, n), n, k - 1);
    }
  }

  /** `k` presses of the next-bar button. */
  function ManualSteps(step: nat, n: nat, k: nat): nat
    decreases k
  {
    if k == 0 then step else ManualSteps(ManualStep(step, n), n, k - 1)
  }
}
