/**
 Budget windows over a log of hits (milliseconds): what a limiter decides when it never forgets.
 The pruning stores are refinements of this module.
 */
module Windows {
  import opened Prelude

  /** At most `limit` hits inside any `windowMs` milliseconds. */
  datatype BudgetWindow = BudgetWindow(limit: int, windowMs: int)

  /** Seconds to wait; `Forever` is the program's Infinity, the minimum of an empty list. */
  datatype Wait = Seconds(n: int) | Forever

  datatype Decision = Accept | Refuse(wait: Wait)

  predicate Ordered(s: seq<int>) {
    forall i, j :: 0 <= i < j < |s| ==> s[i] <= s[j]
  }

  predicate UpTo(s: seq<int>, now: int) {
    forall i :: 0 <= i < |s| ==> s[i] <= now
  }

  /** The hits later than `cut`, in order. */
  function After(s: seq<int>, cut: int): seq<int> {
    if s == [] then []
    else if s[0] > cut then [s[0]] + After(s[1..], cut)
    else After(s[1..], cut)
  }

  function Minimum(s: seq<int>): int
    requires s != []
  {
    if |s| == 1 then s[0] else Min(s[0], Minimum(s[1..]))
  }

  function CeilSeconds(ms: int): int {
    (ms + 999) / 1000
  }

  function LongerOf(a: Wait, b: Wait): Wait {
    if a.Forever? || b.Forever? then Forever else Seconds(Max(a.n, b.n))
  }

  /** The wait one window asks for; zero when it has room. */
  function WaitOf(hits: seq<int>, w: BudgetWindow, now: int): Wait {
    var inWindow := After(hits, now - w.windowMs);
    if |inWindow| < w.limit then Seconds(0)
    else if inWindow == [] then Forever
    else Seconds(CeilSeconds(Minimum(inWindow) + w.windowMs - now))
  }

  function LongestWait(hits: seq<int>, windows: seq<BudgetWindow>, now: int): Wait {
    if windows == [] then Seconds(0)
    else LongerOf(LongestWait(hits, windows[..|windows| - 1], now), WaitOf(hits, windows[|windows| - 1], now))
  }

  /** The decision over the hits that matter, all windows together. */
  function Verdict(hits: seq<int>, windows: seq<BudgetWindow>, now: int): Decision {
    var wait := LongestWait(hits, windows, now);
    if wait == Seconds(0) then Accept else Refuse(wait)
  }

  function Horizon(windows: seq<BudgetWindow>): int {
    if windows == [] then 0 else Max(Horizon(windows[..|windows| - 1]), windows[|windows| - 1].windowMs)
  }

  // ---------------------------------------------------------------- After

  lemma {:induction false} AfterFacts(s: seq<int>, cut: int)
    ensures forall h :: h in After(s, cut) <==> h in s && h > cut
    ensures |After(s, cut)| <= |s|
  {
    if s != [] {
      AfterFacts(s[1..], cut);
      assert s == [s[0]] + s[1..];
    }
  }

  lemma {:induction false} AfterOrdered(s: seq<int>, cut: int)
    requires Ordered(s)
    ensures Ordered(After(s, cut))
  {
    if s != [] {
      AfterOrdered(s[1..], cut);
      AfterFacts(s[1..], cut);
      var tail := After(s[1..], cut);
      forall i | 0 <= i < |tail| ensures s[0] <= tail[i] {
        assert tail[i] in After(s[1..], cut);
        assert tail[i] in s[1..];
      }
    }
  }

  lemma {:induction false} AfterAfter(s: seq<int>, a: int, b: int)
    ensures After(After(s, a), b) == After(s, Max(a, b))
  {
    if s != [] {
      AfterAfter(s[1..], a, b);
      if s[0] > a {
        var r := After(s, a);
        assert r[0] == s[0] && r[1..] == After(s[1..], a);
      }
    }
  }

  lemma {:induction false} AfterConcat(s: seq<int>, t: seq<int>, cut: int)
    ensures After(s + t, cut) == After(s, cut) + After(t, cut)
  {
    if s == [] {
      assert s + t == t;
    } else {
      AfterConcat(s[1..], t, cut);
      var whole := s + t;
      assert whole != [] && whole[0] == s[0] && whole[1..] == s[1..] + t;
      assert [s[0]] + (After(s[1..], cut) + After(t, cut)) == ([s[0]] + After(s[1..], cut)) + After(t, cut);
    }
  }

  lemma {:induction false} AfterShrinks(s: seq<int>, a: int, b: int)
    requires a <= b
    ensures |After(s, b)| <= |After(s, a)|
  {
    AfterAfter(s, a, b);
    AfterFacts(After(s, a), b);
  }

  lemma {:induction false} AfterAll(s: seq<int>, cut: int)
    requires forall h :: h in s ==> h > cut
    ensures After(s, cut) == s
  {
    if s != [] {
      assert s[0] in s;
      assert forall h :: h in s[1..] ==> h in s;
      AfterAll(s[1..], cut);
    }
  }

  lemma {:induction false} AfterNone(s: seq<int>, cut: int)
    requires forall i :: 0 <= i < |s| ==> s[i] <= cut
    ensures After(s, cut) == []
  {
    if s != [] {
      AfterNone(s[1..], cut);
    }
  }

  lemma {:induction false} AfterSameLength(s: seq<int>, cut: int)
    requires |After(s, cut)| == |s|
    ensures After(s, cut) == s
  {
    if s != [] {
      AfterFacts(s[1..], cut);
      AfterSameLength(s[1..], cut);
    }
  }

  lemma {:induction false} MinimumFacts(s: seq<int>)
    requires s != []
    ensures Minimum(s) in s && forall h :: h in s ==> Minimum(s) <= h
  {
    if |s| > 1 {
      MinimumFacts(s[1..]);
      assert s == [s[0]] + s[1..];
    }
  }

  // ---------------------------------------------------------------- refinement

  /** A pruned list agrees with the full log on every hit that can still matter for horizon `h`. */
  ghost predicate Agree(stored: seq<int>, log: seq<int>, now: int, h: int) {
    forall cut {:trigger After(stored, cut)} :: cut >= now - h ==> After(stored, cut) == After(log, cut)
  }

  lemma AgreeLater(stored: seq<int>, log: seq<int>, now: int, later: int, h: int)
    requires Agree(stored, log, now, h) && now <= later
    ensures Agree(stored, log, later, h)
  {
  }

  // Pruning at or beyond the horizon is invisible.
  lemma AgreePruned(stored: seq<int>, log: seq<int>, now: int, h: int, cut: int)
    requires Agree(stored, log, now, h) && cut <= now - h
    ensures Agree(After(stored, cut), log, now, h)
  {
    forall c | c >= now - h
      ensures After(After(stored, cut), c) == After(log, c)
    {
      AfterAfter(stored, cut, c);
    }
  }

  lemma AgreeRecorded(stored: seq<int>, log: seq<int>, now: int, h: int)
    requires Agree(stored, log, now, h)
    ensures Agree(stored + [now], log + [now], now, h)
  {
    forall c | c >= now - h
      ensures After(stored + [now], c) == After(log + [now], c)
    {
      AfterConcat(stored, [now], c);
      AfterConcat(log, [now], c);
    }
  }

  // The decision on an agreeing list is the decision on the log.
  lemma {:induction false} AgreeOnWait(stored: seq<int>, log: seq<int>, windows: seq<BudgetWindow>, now: int, h: int)
    requires Agree(stored, log, now, h) && Horizon(windows) <= h
    ensures LongestWait(stored, windows, now) == LongestWait(log, windows, now)
    decreases |windows|
  {
    if windows != [] {
      var last := windows[|windows| - 1];
      AgreeOnWait(stored, log, windows[..|windows| - 1], now, h);
      assert now - last.windowMs >= now - h;
    }
  }

  lemma AgreeWithItself(log: seq<int>, now: int, h: int)
    ensures Agree(log, log, now, h)
  {
  }

  // ---------------------------------------------------------------- the cap

  /** Each hit, when it was recorded, was at most the `limit`-th of its window. */
  ghost predicate Capped(log: seq<int>, w: BudgetWindow) {
    forall i :: 0 <= i < |log| ==> |After(log[..i + 1], log[i] - w.windowMs)| <= w.limit
  }

  /** Hits in the window that ends at `t`. */
  function InWindow(log: seq<int>, w: BudgetWindow, t: int): nat {
    if log == [] then 0
    else
      var front, last := log[..|log| - 1], log[|log| - 1];
      InWindow(front, w, t) + if t - w.windowMs < last <= t then 1 else 0
  }

  lemma {:induction false} InWindowIsAfter(log: seq<int>, w: BudgetWindow, t: int)
    requires UpTo(log, t)
    ensures InWindow(log, w, t) == |After(log, t - w.windowMs)|
    decreases |log|
  {
    if log != [] {
      var front, last := log[..|log| - 1], log[|log| - 1];
      InWindowIsAfter(front, w, t);
      AfterConcat(front, [last], t - w.windowMs);
      assert log == front + [last];
    }
  }

  // No window of a capped log, wherever it ends, ever holds more than its limit.
  lemma {:induction false} CappedAtEveryInstant(log: seq<int>, w: BudgetWindow, t: int)
    requires Ordered(log) && Capped(log, w) && w.limit >= 0
    ensures InWindow(log, w, t) <= w.limit
    decreases |log|
  {
    if log != [] {
      var n := |log| - 1;
      var front := log[..n];
      assert forall i :: 0 <= i < |front| ==> front[..i + 1] == log[..i + 1] && front[i] == log[i];
      if log[n] <= t {
        assert UpTo(log, t) by {
          forall i | 0 <= i < |log| ensures log[i] <= t { if i < n { assert log[i] <= log[n]; } }
        }
        InWindowIsAfter(log, w, t);
        assert log[..n + 1] == log;
        AfterShrinks(log, log[n] - w.windowMs, t - w.windowMs);
      } else {
        CappedAtEveryInstant(front, w, t);
      }
    }
  }

  lemma {:induction false} AcceptedHasRoom(hits: seq<int>, windows: seq<BudgetWindow>, now: int, k: nat)
    requires LongestWait(hits, windows, now) == Seconds(0) && k < |windows|
    requires UpTo(hits, now)
    ensures |After(hits, now - windows[k].windowMs)| < windows[k].limit
    decreases |windows|
  {
    var front, last := windows[..|windows| - 1], windows[|windows| - 1];
    WaitsAreNatural(hits, front, now);
    WindowWaitIsNatural(hits, last, now);
    if k < |front| {
      AcceptedHasRoom(hits, front, now, k);
    }
  }

  // A full window asks for at least one second.
  lemma WindowWaitIsNatural(hits: seq<int>, w: BudgetWindow, now: int)
    ensures WaitOf(hits, w, now).Seconds? ==> WaitOf(hits, w, now).n >= 0
    ensures |After(hits, now - w.windowMs)| >= w.limit <==> WaitOf(hits, w, now) != Seconds(0)
  {
    var inWindow := After(hits, now - w.windowMs);
    AfterFacts(hits, now - w.windowMs);
    if |inWindow| >= w.limit && inWindow != [] {
      MinimumFacts(inWindow);
    }
  }

  lemma {:induction false} WaitsAreNatural(hits: seq<int>, windows: seq<BudgetWindow>, now: int)
    ensures LongestWait(hits, windows, now).Seconds? ==> LongestWait(hits, windows, now).n >= 0
    decreases |windows|
  {
    if windows != [] {
      WaitsAreNatural(hits, windows[..|windows| - 1], now);
      WindowWaitIsNatural(hits, windows[|windows| - 1], now);
    }
  }

  lemma CappedGrows(log: seq<int>, windows: seq<BudgetWindow>, now: int, k: nat)
    requires k < |windows| && Capped(log, windows[k]) && UpTo(log, now)
    requires Verdict(log, windows, now).Accept?
    ensures Capped(log + [now], windows[k])
  {
    AcceptedHasRoom(log, windows, now, k);
    var w, more := windows[k], log + [now];
    forall i | 0 <= i < |more|
      ensures |After(more[..i + 1], more[i] - w.windowMs)| <= w.limit
    {
      if i < |log| {
        assert more[..i + 1] == log[..i + 1];
      } else {
        assert more[..i + 1] == log + [now];
        AfterConcat(log, [now], now - w.windowMs);
      }
    }
  }

  // ---------------------------------------------------------------- Retry-After

  /** A window with room keeps it; a full one gets room when its oldest hit leaves. */
  lemma WindowRetry(hits: seq<int>, w: BudgetWindow, now: int, later: int)
    requires Ordered(hits) && UpTo(hits, now) && now <= later && w.limit >= 1
    requires |After(hits, now - w.windowMs)| <= w.limit
    ensures WaitOf(hits, w, now).Seconds?
    ensures |After(hits, later - w.windowMs)| < w.limit <==>
      WaitOf(hits, w, now) == Seconds(0)
      || Minimum(After(hits, now - w.windowMs)) + w.windowMs <= later
  {
    var inWindow := After(hits, now - w.windowMs);
    AfterFacts(hits, now - w.windowMs);
    AfterShrinks(hits, now - w.windowMs, later - w.windowMs);
    AfterAfter(hits, now - w.windowMs, later - w.windowMs);
    WindowWaitIsNatural(hits, w, now);
    if |inWindow| >= w.limit {
      MinimumFacts(inWindow);
      var oldest := Minimum(inWindow);
      if oldest + w.windowMs <= later {
        OldestLeaves(inWindow, later - w.windowMs);
      } else {
        AfterAll(inWindow, later - w.windowMs);
      }
    }
  }

  lemma {:induction false} OldestLeaves(s: seq<int>, cut: int)
    requires s != [] && Minimum(s) <= cut
    ensures |After(s, cut)| < |s|
  {
    MinimumFacts(s);
    if s[0] <= cut {
      AfterFacts(s[1..], cut);
    } else {
      OldestLeaves(s[1..], cut);
    }
  }

  // Retry-After is exact: with no other hit recorded, the call is accepted after x whole seconds
  // exactly when x is at least the announced wait, over all windows together.
  lemma {:induction false} RetryAfterIsExact(hits: seq<int>, windows: seq<BudgetWindow>, now: int, x: nat)
    requires Ordered(hits) && UpTo(hits, now)
    requires forall k :: 0 <= k < |windows| ==>
      windows[k].limit >= 1 && |After(hits, now - windows[k].windowMs)| <= windows[k].limit
    ensures LongestWait(hits, windows, now).Seconds?
    ensures Verdict(hits, windows, now + 1000 * x).Accept? <==> x >= LongestWait(hits, windows, now).n
    decreases |windows|
  {
    if windows != [] {
      var front, last, later := windows[..|windows| - 1], windows[|windows| - 1], now + 1000 * x;
      RetryAfterIsExact(hits, front, now, x);
      WindowRetry(hits, last, now, later);
      WaitsAreNatural(hits, front, later);
      WindowWaitIsNatural(hits, last, later);
      WindowWaitIsNatural(hits, last, now);
      AcceptSplits(hits, windows, later);
    }
  }

  /** The window has room, or asks for ever: it lets nothing through and holds nothing. */
  predicate HasRoom(hits: seq<int>, w: BudgetWindow, now: int) {
    InWindow(hits, w, now) < w.limit
  }

  predicate Closed(hits: seq<int>, w: BudgetWindow, now: int) {
    w.limit <= 0 && InWindow(hits, w, now) == 0
  }

  // A call is accepted exactly when every window holds fewer hits than its limit, and refused for ever
  // exactly when some window never lets anything through.
  lemma {:induction false} AcceptedExactly(hits: seq<int>, windows: seq<BudgetWindow>, now: int)
    requires UpTo(hits, now)
    ensures Verdict(hits, windows, now).Accept? <==> forall k :: 0 <= k < |windows| ==> HasRoom(hits, windows[k], now)
    ensures Verdict(hits, windows, now) == Refuse(Forever) <==> exists k :: 0 <= k < |windows| && Closed(hits, windows[k], now)
    decreases |windows|
  {
    if windows != [] {
      var n := |windows| - 1;
      var front := windows[..n];
      AcceptedExactly(hits, front, now);
      AcceptSplits(hits, windows, now);
      WindowWaitIsNatural(hits, windows[n], now);
      InWindowIsAfter(hits, windows[n], now);
      assert forall k :: 0 <= k < n ==> front[k] == windows[k];
      hide HasRoom, Closed, After, InWindow;
      assert HasRoom(hits, windows[n], now) <==> WaitOf(hits, windows[n], now) == Seconds(0);
    }
  }

  lemma AcceptSplits(hits: seq<int>, windows: seq<BudgetWindow>, now: int)
    requires windows != []
    ensures Verdict(hits, windows, now).Accept? <==>
      Verdict(hits, windows[..|windows| - 1], now).Accept? && WaitOf(hits, windows[|windows| - 1], now) == Seconds(0)
  {
    WaitsAreNatural(hits, windows[..|windows| - 1], now);
    WindowWaitIsNatural(hits, windows[|windows| - 1], now);
  }
}
