/**
 What the limiter's two shortcuts cost, in terms a caller can check (tile-proxy.ts, 656-696): when
 the purge leaves an idle key behind, and when the cap makes the limiter forget a key.
 */
module LimiterRuns {
  import opened Prelude
  import opened Windows
  import opened Limiter
  import B = Budgets

  // ---------------------------------------------------------------- one more check

  lemma {:induction false} RunSplits(g: Guard, w: BudgetWindow, maxKeys: nat, a: seq<B.Call>, b: seq<B.Call>)
    ensures RunChecks(g, w, maxKeys, a + b) == RunChecks(RunChecks(g, w, maxKeys, a), w, maxKeys, b)
    decreases |a|
  {
    if a == [] {
      assert a + b == b;
    } else {
      var calls := a + b;
      assert calls[0] == a[0] && calls[1..] == a[1..] + b;
      RunSplits(Step(g, w, maxKeys, a[0].key, a[0].now), w, maxKeys, a[1..], b);
    }
  }

  lemma OneMore(w: BudgetWindow, maxKeys: nat, calls: seq<B.Call>, c: B.Call)
    ensures AfterChecks(w, maxKeys, calls + [c]) == Step(AfterChecks(w, maxKeys, calls), w, maxKeys, c.key, c.now)
  {
    RunSplits(Guard([], map[], {}), w, maxKeys, calls, [c]);
    assert [c][1..] == [];
  }

  function EndOf(at: int, calls: seq<B.Call>): int {
    if calls == [] then at else calls[|calls| - 1].now
  }

  lemma AfterIsInv(w: BudgetWindow, maxKeys: nat, at: int, calls: seq<B.Call>)
    requires w.limit >= 1 && B.Timed(at, calls)
    ensures Inv(AfterChecks(w, maxKeys, calls), w, maxKeys, EndOf(at, calls)) && at <= EndOf(at, calls)
  {
    var end := ChecksKeep(Guard([], map[], {}), w, maxKeys, at, calls);
    if calls != [] {
      var front := calls[..|calls| - 1];
      assert calls == front + [calls[|calls| - 1]];
      B.TimedSplits(at, front, [calls[|calls| - 1]]);
    }
  }

  lemma FrontIsTimed(at: int, calls: seq<B.Call>)
    requires calls != [] && B.Timed(at, calls)
    ensures var front, c := calls[..|calls| - 1], calls[|calls| - 1];
            calls == front + [c] && B.Timed(at, front) && EndOf(at, front) <= c.now
  {
    var front, c := calls[..|calls| - 1], calls[|calls| - 1];
    assert calls == front + [c];
    B.TimedSplits(at, front, [c]);
  }

  // ---------------------------------------------------------------- the purge

  function LastOf(s: seq<int>): int {
    if s == [] then 0 else s[|s| - 1]
  }

  /** Every entry has a hit, and the last hits do not decrease along the queue. */
  predicate Queued(t: Table) {
    && (forall i :: 0 <= i < |t| ==> t[i].hits != [])
    && forall i, j :: 0 <= i < j < |t| ==> LastOf(t[i].hits) <= LastOf(t[j].hits)
  }

  /** The purge leaves no idle key behind. */
  predicate PurgedCompletely(t: Table, windowStart: int) {
    forall i :: 0 <= i < |Purged(t, windowStart)| ==> Live(Purged(t, windowStart)[i], windowStart)
  }

  lemma {:induction false} WithoutIsQueued(t: Table, key: string)
    requires Queued(t)
    ensures Queued(Without(t, key))
    decreases |t|
  {
    if t != [] {
      WithoutIsQueued(t[1..], key);
      WithoutFacts(t[1..], key);
      hide LastOf;
      var rest := Without(t[1..], key);
      forall i | 0 <= i < |rest| ensures LastOf(t[0].hits) <= LastOf(rest[i].hits) {
        assert rest[i] in rest;
        var j :| 0 <= j < |t[1..]| && t[1..][j] == rest[i];
        assert t[j + 1] == rest[i];
      }
    }
  }

  lemma QueueGrows(t: Table, e: Entry)
    requires Queued(t) && e.hits != [] && forall i :: 0 <= i < |t| ==> LastOf(t[i].hits) <= LastOf(e.hits)
    ensures Queued(t + [e])
  {
  }

  // An accepted check goes last with the latest hit; so does a refused one when the window is so
  // short that only hits of this very instant count.
  lemma CheckKeepsQueue(t: Table, w: BudgetWindow, maxKeys: nat, at: int, key: string, now: int)
    requires Distinct(t) && Timely(t, at) && Queued(t) && at <= now && w.limit >= 1
    requires Answer(t, w, key, now).Accept? || w.windowMs <= 1
    ensures Queued(Checked(t, w, maxKeys, key, now))
  {
    var purged, moved := Purged(t, now - w.windowMs), Moved(t, w, key, now);
    var rest := Without(purged, key);
    SuffixIsQueued(t, PurgeCount(t, now - w.windowMs));
    WithoutIsQueued(purged, key);
    MovedIsLate(t, w, at, key, now);
    RestIsEarly(t, at, now - w.windowMs, key);
    hide Purged, Without, LastOf, Answer, Recent, Queued;
    var e := moved[|rest|];
    assert moved == rest + [e];
    QueueGrows(rest, e);
    SuffixIsQueued(moved, Victims(t, w, maxKeys, key, now));
  }

  lemma SuffixIsQueued(t: Table, n: nat)
    requires n <= |t| && Queued(t)
    ensures Queued(t[n..])
  {
  }

  lemma RestIsEarly(t: Table, at: int, windowStart: int, key: string)
    requires Timely(t, at) && Queued(t)
    ensures forall i :: 0 <= i < |Without(Purged(t, windowStart), key)| ==>
              LastOf(Without(Purged(t, windowStart), key)[i].hits) <= at
  {
    var purged, rest := Purged(t, windowStart), Without(Purged(t, windowStart), key);
    WithoutFacts(purged, key);
    forall i | 0 <= i < |rest| ensures LastOf(rest[i].hits) <= at {
      assert rest[i] in rest;
      var j :| 0 <= j < |purged| && purged[j] == rest[i];
    }
  }

  lemma MovedIsLate(t: Table, w: BudgetWindow, at: int, key: string, now: int)
    requires Distinct(t) && Timely(t, at) && at <= now && w.limit >= 1
    requires Answer(t, w, key, now).Accept? || w.windowMs <= 1
    ensures var moved := Moved(t, w, key, now);
            moved != [] && moved[|moved| - 1].hits != [] && LastOf(moved[|moved| - 1].hits) >= now
  {
    var recent := Recent(t, w, key, now);
    if Answer(t, w, key, now).Refuse? {
      AfterFacts(Lookup(Purged(t, now - w.windowMs), key), now - w.windowMs);
      assert recent[|recent| - 1] in recent;
    }
  }

  /** No check of the run was refused. */
  ghost predicate AllAccepted(w: BudgetWindow, maxKeys: nat, calls: seq<B.Call>) {
    forall n :: 0 <= n < |calls| ==> Answer(AfterChecks(w, maxKeys, calls[..n]).table, w, calls[n].key, calls[n].now).Accept?
  }

  lemma {:induction false} QueueHolds(w: BudgetWindow, maxKeys: nat, at: int, calls: seq<B.Call>)
    requires w.limit >= 1 && B.Timed(at, calls) && (w.windowMs <= 1 || AllAccepted(w, maxKeys, calls))
    ensures Queued(AfterChecks(w, maxKeys, calls).table)
    decreases |calls|
  {
    if calls != [] {
      var front, c := calls[..|calls| - 1], calls[|calls| - 1];
      FrontIsTimed(at, calls);
      assert forall n :: 0 <= n < |front| ==> calls[..n] == front[..n] && calls[n] == front[n];
      QueueHolds(w, maxKeys, at, front);
      AfterIsInv(w, maxKeys, at, front);
      OneMore(w, maxKeys, front, c);
      CheckKeepsQueue(AfterChecks(w, maxKeys, front).table, w, maxKeys, EndOf(at, front), c.key, c.now);
    }
  }

  // Until something is refused, each purge drops every idle key.
  lemma PurgesCompletelyUntilRefused(w: BudgetWindow, maxKeys: nat, at: int, calls: seq<B.Call>, windowStart: int)
    requires w.limit >= 1 && B.Timed(at, calls) && (w.windowMs <= 1 || AllAccepted(w, maxKeys, calls))
    ensures PurgedCompletely(AfterChecks(w, maxKeys, calls).table, windowStart)
  {
    QueueHolds(w, maxKeys, at, calls);
    PurgeIsCompleteWhen(AfterChecks(w, maxKeys, calls).table, windowStart);
  }

  /** After any run, the purge of the next check leaves no idle key behind. */
  ghost predicate AlwaysPurges(w: BudgetWindow, maxKeys: nat) {
    forall at, calls, now :: B.Timed(at, calls) && at <= now && OverBy(calls, now) ==>
      PurgedCompletely(AfterChecks(w, maxKeys, calls).table, now - w.windowMs)
  }

  // Exactly when the purge keeps its promise on every run: when only one key is ever tracked, or the
  // window is too short for a refused key to be older than the one it is queued behind.
  lemma AlwaysPurgesWhen(w: BudgetWindow, maxKeys: nat)
    requires w.limit >= 1
    ensures AlwaysPurges(w, maxKeys) <==> w.windowMs <= 1 || maxKeys <= 1
  {
    if w.windowMs <= 1 || maxKeys <= 1 {
      forall at, calls, now | B.Timed(at, calls) && at <= now && OverBy(calls, now)
        ensures PurgedCompletely(AfterChecks(w, maxKeys, calls).table, now - w.windowMs)
      {
        if w.windowMs <= 1 {
          PurgesCompletelyUntilRefused(w, maxKeys, at, calls, now - w.windowMs);
        } else {
          AfterIsInv(w, maxKeys, at, calls);
          PurgeIsCompleteWhen(AfterChecks(w, maxKeys, calls).table, now - w.windowMs);
        }
      }
    } else {
      IdleKeyStays(w, maxKeys);
      assert !AlwaysPurges(w, maxKeys);
    }
  }

  /** "a" uses up its limit at 0, "b" comes at 1, and "a" is refused at 1. */
  function LeavesIdle(limit: nat): seq<B.Call> {
    B.Burst("a", limit) + [B.Call("b", 1, true)] + [B.Call("a", 1, true)]
  }

  // One window later "a" is idle, yet it stays: the purge stops at the live "b" queued before it.
  lemma IdleKeyStays(w: BudgetWindow, maxKeys: nat)
    requires w.limit >= 1 && w.windowMs >= 2 && maxKeys >= 2
    ensures B.Timed(0, LeavesIdle(w.limit)) && OverBy(LeavesIdle(w.limit), w.windowMs)
    ensures var t := AfterChecks(w, maxKeys, LeavesIdle(w.limit)).table;
            && t == [Entry("b", [1]), Entry("a", B.Zeros(w.limit))]
            && Purged(t, 0) == t && !Live(t[1], 0) && !PurgedCompletely(t, 0)
  {
    hide RunChecks, Checked, Answer, Purged;
    var burst, b, again := B.Burst("a", w.limit), B.Call("b", 1, true), B.Call("a", 1, true);
    var a := Entry("a", B.Zeros(w.limit));
    BurstFills(w, maxKeys, "a", w.limit);
    OneMore(w, maxKeys, burst, b);
    SecondKeyJoins(a, w, maxKeys, "b", 1);
    OneMore(w, maxKeys, burst + [b], again);
    AfterAll(a.hits, 1 - w.windowMs);
    RefusedGoesLast(a, Entry("b", [1]), w, maxKeys, 1);
    LeavesIdleIsTimed(w.limit);
    BehindLive(Entry("b", [1]), a, 0);
  }

  lemma BehindLive(b: Entry, a: Entry, windowStart: int)
    requires Live(b, windowStart) && !Live(a, windowStart)
    ensures Purged([b, a], windowStart) == [b, a] && !PurgedCompletely([b, a], windowStart)
  {
    var t := [b, a];
    assert Purged(t, windowStart) == t && Purged(t, windowStart)[1] == a;
  }

  lemma {:induction false} LeavesIdleIsTimed(limit: nat)
    ensures B.Timed(0, LeavesIdle(limit))
  {
    var calls := LeavesIdle(limit);
    if limit == 0 {
      assert calls[1..] == [B.Call("a", 1, true)] && calls[1..][1..] == [];
    } else {
      assert calls[0] == B.Call("a", 0, true) && calls[1..] == LeavesIdle(limit - 1);
      LeavesIdleIsTimed(limit - 1);
    }
  }

  // The n-th hit of a burst is accepted as long as the limit is not used up.
  lemma {:induction false} BurstFills(w: BudgetWindow, maxKeys: nat, key: string, n: nat)
    requires 1 <= n <= w.limit && w.windowMs >= 1 && maxKeys >= 1
    ensures var g := AfterChecks(w, maxKeys, B.Burst(key, n));
            g.table == [Entry(key, B.Zeros(n))] && g.log == map[key := B.Zeros(n)]
  {
    var front := B.Burst(key, n - 1);
    var g := AfterChecks(w, maxKeys, front);
    assert B.Burst(key, n) == front + [B.Call(key, 0, true)];
    OneMore(w, maxKeys, front, B.Call(key, 0, true));
    assert B.Zeros(n) == B.Zeros(n - 1) + [0];
    if n == 1 {
      assert front == [] && B.Zeros(0) == [];
      FirstHit(w, maxKeys, key);
    } else {
      BurstFills(w, maxKeys, key, n - 1);
      AfterAll(B.Zeros(n - 1), 0 - w.windowMs);
      OnlyKeyAgain(Entry(key, B.Zeros(n - 1)), w, maxKeys, 0);
    }
  }

  lemma FirstHit(w: BudgetWindow, maxKeys: nat, key: string)
    requires w.limit >= 1 && maxKeys >= 1
    ensures Answer([], w, key, 0).Accept? && Checked([], w, maxKeys, key, 0) == [Entry(key, [0])]
  {
    assert Recent([], w, key, 0) == [];
    assert [] + [0] == [0];
    assert Moved([], w, key, 0) == [Entry(key, [0])];
  }

  lemma OnlyKeyAgain(a: Entry, w: BudgetWindow, maxKeys: nat, now: int)
    requires Live(a, now - w.windowMs) && After(a.hits, now - w.windowMs) == a.hits && |a.hits| < w.limit && maxKeys >= 1
    ensures Answer([a], w, a.key, now).Accept? && Checked([a], w, maxKeys, a.key, now) == [Entry(a.key, a.hits + [now])]
  {
    var t := [a];
    assert t[1..] == [];
    assert Purged(t, now - w.windowMs) == t;
    assert Recent(t, w, a.key, now) == a.hits;
    assert Without(t, a.key) == [];
    assert Moved(t, w, a.key, now) == [Entry(a.key, a.hits + [now])];
  }

  lemma SecondKeyJoins(a: Entry, w: BudgetWindow, maxKeys: nat, key: string, now: int)
    requires a.key != key && Live(a, now - w.windowMs) && w.limit >= 1 && maxKeys >= 2
    ensures Answer([a], w, key, now).Accept? && Checked([a], w, maxKeys, key, now) == [a, Entry(key, [now])]
  {
    var t := [a];
    assert t[1..] == [];
    assert Purged(t, now - w.windowMs) == t;
    assert Lookup(t, key) == [];
    assert Recent(t, w, key, now) == [];
    assert Without(t, key) == t;
    assert [] + [now] == [now];
    assert Moved(t, w, key, now) == [a, Entry(key, [now])];
  }

  // ---------------------------------------------------------------- the cap, in the caller's terms

  /** The other keys checked since the last check of `key`. */
  function Rivals(calls: seq<B.Call>, key: string): set<string>
    decreases |calls|
  {
    if calls == [] then {}
    else
      var front, last := calls[..|calls| - 1], calls[|calls| - 1];
      if last.key == key then {} else Rivals(front, key) + {last.key}
  }

  predicate WasChecked(calls: seq<B.Call>, key: string) {
    exists i :: 0 <= i < |calls| && calls[i].key == key
  }

  /** At some moment after its first check, `maxKeys` other keys had been checked since its last one. */
  ghost predicate Crowded(calls: seq<B.Call>, key: string, maxKeys: nat) {
    exists n :: 0 <= n <= |calls| && WasChecked(calls[..n], key) && |Rivals(calls[..n], key)| >= maxKeys
  }

  lemma RivalsOneMore(calls: seq<B.Call>, c: B.Call, key: string)
    ensures Rivals(calls + [c], key) == if c.key == key then {} else Rivals(calls, key) + {c.key}
    ensures WasChecked(calls + [c], key) <==> WasChecked(calls, key) || c.key == key
  {
    var all := calls + [c];
    assert all[..|all| - 1] == calls && all[|all| - 1] == c;
    assert forall i :: 0 <= i < |calls| ==> all[i] == calls[i];
  }

  lemma CrowdedOneMore(calls: seq<B.Call>, c: B.Call, key: string, maxKeys: nat)
    ensures Crowded(calls, key, maxKeys) ==> Crowded(calls + [c], key, maxKeys)
    ensures WasChecked(calls + [c], key) && |Rivals(calls + [c], key)| >= maxKeys ==> Crowded(calls + [c], key, maxKeys)
  {
    var all := calls + [c];
    assert all[..|all|] == all;
    if Crowded(calls, key, maxKeys) {
      var n :| 0 <= n <= |calls| && WasChecked(calls[..n], key) && |Rivals(calls[..n], key)| >= maxKeys;
      assert all[..n] == calls[..n];
    }
  }

  /** The keys queued behind `key`. */
  function Behind(t: Table, key: string): set<string> {
    if t == [] then {} else if t[0].key == key then KeysOf(t[1..]) else Behind(t[1..], key)
  }

  lemma KeysUnfold(t: Table)
    requires t != []
    ensures KeysOf(t) == {t[0].key} + KeysOf(t[1..])
  {
    KeysSplit(t, 1);
    assert t[..1] == [t[0]] && t[..1][0].key in KeysOf(t[..1]);
  }

  lemma KeysSnoc(t: Table, e: Entry)
    ensures KeysOf(t + [e]) == KeysOf(t) + {e.key}
  {
    KeysSplit(t + [e], |t|);
    assert (t + [e])[..|t|] == t && (t + [e])[|t|..] == [e] && [e][0].key in KeysOf([e]);
  }

  lemma {:induction false} KeysWithout(t: Table, key: string)
    ensures KeysOf(Without(t, key)) == KeysOf(t) - {key}
  {
    if t != [] {
      KeysWithout(t[1..], key);
      KeysUnfold(t);
      var kept := [t[0]] + Without(t[1..], key);
      KeysUnfold(kept);
      assert kept[1..] == Without(t[1..], key);
    }
  }

  lemma {:induction false} BehindWithout(t: Table, k: string, key: string)
    requires k != key
    ensures Behind(Without(t, k), key) == Behind(t, key) - {k}
  {
    if t != [] {
      BehindWithout(t[1..], k, key);
      KeysWithout(t[1..], k);
      if t[0].key != k {
        assert ([t[0]] + Without(t[1..], k))[1..] == Without(t[1..], k);
      } else {
        assert Behind(t[1..], key) <= KeysOf(t[1..]) by { BehindIsTracked(t[1..], key); }
      }
    }
  }

  lemma {:induction false} BehindIsTracked(t: Table, key: string)
    ensures Behind(t, key) <= KeysOf(t)
  {
    if t != [] {
      KeysUnfold(t);
      BehindIsTracked(t[1..], key);
    }
  }

  lemma {:induction false} BehindSnoc(t: Table, e: Entry, key: string)
    ensures key in KeysOf(t) ==> Behind(t + [e], key) == Behind(t, key) + {e.key}
    ensures key !in KeysOf(t) ==> Behind(t + [e], key) == {}
  {
    var all := t + [e];
    if t == [] {
      assert all[1..] == [];
    } else {
      assert all[0] == t[0] && all[1..] == t[1..] + [e];
      KeysUnfold(t);
      KeysSnoc(t[1..], e);
      BehindSnoc(t[1..], e, key);
    }
  }

  lemma {:induction false} BehindSuffix(t: Table, n: nat, key: string)
    requires n <= |t| && key !in KeysOf(t[..n])
    ensures Behind(t[n..], key) == Behind(t, key)
  {
    if n > 0 {
      KeysUnfold(t[..n]);
      assert t[..n][0] == t[0] && t[..n][1..] == t[1..][..n - 1];
      BehindSuffix(t[1..], n - 1, key);
      assert t[1..][n - 1..] == t[n..];
    }
  }

  // What follows a prefix holding the key is queued behind it.
  lemma {:induction false} BehindPrefix(t: Table, n: nat, key: string)
    requires n <= |t| && key in KeysOf(t[..n])
    ensures KeysOf(t[n..]) <= Behind(t, key)
  {
    KeysUnfold(t[..n]);
    assert t[..n][0] == t[0] && t[..n][1..] == t[1..][..n - 1] && t[1..][n - 1..] == t[n..];
    if t[0].key == key {
      KeysSplit(t[1..], n - 1);
    } else {
      BehindPrefix(t[1..], n - 1, key);
    }
  }

  lemma {:induction false} DistinctSize(t: Table)
    requires Distinct(t)
    ensures |KeysOf(t)| == |t|
  {
    if t != [] {
      DistinctSize(t[1..]);
      KeysUnfold(t);
      forall i | 0 <= i < |t[1..]| ensures t[1..][i].key != t[0].key {
        assert t[1..][i] == t[i + 1];
      }
    }
  }

  lemma {:induction false} BehindSize(t: Table, key: string)
    requires Distinct(t) && key in KeysOf(t)
    ensures |Behind(t, key)| < |t|
  {
    DistinctSize(t[1..]);
    if t[0].key != key {
      KeysUnfold(t);
      BehindSize(t[1..], key);
    }
  }

  /** The last accepted hit of the key still counts at `now`. */
  predicate HasLiveHit(g: Guard, w: BudgetWindow, key: string, now: int) {
    B.ListOf(g.log, key) != [] && LastOf(B.ListOf(g.log, key)) > now - w.windowMs
  }

  /** What the queue says of one key, in terms of the calls made so far. */
  ghost predicate Placed(g: Guard, w: BudgetWindow, maxKeys: nat, calls: seq<B.Call>, key: string, now: int) {
    && (key in g.evicted ==> Crowded(calls, key, maxKeys))
    && (key in KeysOf(g.table) ==>
          && WasChecked(calls, key) && Behind(g.table, key) <= Rivals(calls, key)
          && Lookup(g.table, key) != [] && B.ListOf(g.log, key) != []
          && LastOf(Lookup(g.table, key)) == LastOf(B.ListOf(g.log, key)))
    && (HasLiveHit(g, w, key, now) ==>
          if key in KeysOf(g.table) then Behind(g.table, key) == Rivals(calls, key) else |Rivals(calls, key)| >= maxKeys)
  }

  // The purge never reaches a key with a live hit, and passing over others leaves the queue behind
  // each key as it was.
  lemma PurgePlaces(g: Guard, w: BudgetWindow, maxKeys: nat, calls: seq<B.Call>, key: string, at: int, now: int)
    requires Inv(g, w, maxKeys, at) && at <= now && Placed(g, w, maxKeys, calls, key, at)
    ensures var purged := Purged(g.table, now - w.windowMs);
            && KeysOf(purged) <= KeysOf(g.table)
            && (key in KeysOf(purged) ==> Behind(purged, key) == Behind(g.table, key) && Lookup(purged, key) == Lookup(g.table, key))
            && (key in KeysOf(g.table) && HasLiveHit(g, w, key, now) ==> key in KeysOf(purged))
  {
    var t, n := g.table, PurgeCount(g.table, now - w.windowMs);
    KeysSplit(t, n);
    PurgeCountFacts(t, now - w.windowMs);
    if key in KeysOf(t[..n]) {
      var i := LookupPrefix(t, n, key);
      assert !Live(t[i], now - w.windowMs);
    } else {
      BehindSuffix(t, n, key);
      LookupSuffix(t, n, key);
    }
  }

  // Another key goes to the end of the queue.
  lemma MovePlaces(purged: Table, e: Entry, key: string)
    requires e.key != key
    ensures var moved := Without(purged, e.key) + [e];
            && (key in KeysOf(moved) <==> key in KeysOf(purged))
            && (key in KeysOf(moved) ==>
                  Behind(moved, key) == Behind(purged, key) + {e.key} && Lookup(moved, key) == Lookup(purged, key))
  {
    var rest := Without(purged, e.key);
    KeysWithout(purged, e.key);
    KeysSnoc(rest, e);
    BehindWithout(purged, e.key, key);
    BehindSnoc(rest, e, key);
    LookupMoved(purged, e.key, e.hits, key);
    assert e == Entry(e.key, e.hits);
  }

  // The cap evicts a key only when enough others are queued behind it.
  lemma CapPlaces(moved: Table, n: nat, maxKeys: nat, key: string)
    requires Distinct(moved) && n <= |moved| && (n > 0 ==> |moved| - n == maxKeys)
    ensures KeysOf(moved[n..]) <= KeysOf(moved) && KeysOf(moved[..n]) <= KeysOf(moved)
    ensures key in KeysOf(moved) && key !in KeysOf(moved[n..]) ==> |Behind(moved, key)| >= maxKeys
    ensures key in KeysOf(moved[..n]) ==> |Behind(moved, key)| >= maxKeys && key !in KeysOf(moved[n..])
    ensures key in KeysOf(moved[n..]) ==>
              Behind(moved[n..], key) == Behind(moved, key) && Lookup(moved[n..], key) == Lookup(moved, key)
  {
    KeysSplit(moved, n);
    if key in KeysOf(moved[..n]) {
      BehindPrefix(moved, n, key);
      var i := LookupPrefix(moved, n, key);
      var last := moved[n..];
      assert Distinct(last) by { SuffixIsDistinct(moved, n); }
      DistinctSize(last);
      Larger(KeysOf(last), Behind(moved, key));
      assert n > 0;
    } else {
      BehindSuffix(moved, n, key);
      LookupSuffix(moved, n, key);
    }
  }

  lemma SuffixIsDistinct(t: Table, n: nat)
    requires n <= |t| && Distinct(t)
    ensures Distinct(t[n..])
  {
  }

  lemma Larger(a: set<string>, b: set<string>)
    requires a <= b
    ensures |a| <= |b|
  {
    assert b == a + (b - a);
  }

  /** `Moved` without its last entry. */
  lemma MovedShape(t: Table, w: BudgetWindow, maxKeys: nat, key: string, now: int) returns (e: Entry)
    ensures e.key == key && Moved(t, w, key, now) == Without(Purged(t, now - w.windowMs), key) + [e]
    ensures var n, size := Victims(t, w, maxKeys, key, now), |Moved(t, w, key, now)|;
            n <= size && (n > 0 ==> size - n == maxKeys) && (Answer(t, w, key, now).Accept? ==> size - n <= maxKeys)
            && Checked(t, w, maxKeys, key, now) == Moved(t, w, key, now)[n..]
    ensures e.hits == Recent(t, w, key, now) + if Answer(t, w, key, now).Accept? then [now] else []
  {
    e := Moved(t, w, key, now)[|Moved(t, w, key, now)| - 1];
    assert Recent(t, w, key, now) + [] == Recent(t, w, key, now);
  }

  // A check of another key.
  lemma OtherChecked(g: Guard, w: BudgetWindow, maxKeys: nat, calls: seq<B.Call>, key: string, at: int, c: B.Call)
    requires Inv(g, w, maxKeys, at) && at <= c.now && Placed(g, w, maxKeys, calls, key, at) && c.key != key
    ensures Placed(Step(g, w, maxKeys, c.key, c.now), w, maxKeys, calls + [c], key, c.now)
  {
    hide Moved, Checked, Answer, Recent, Purged, Rivals, WasChecked, Crowded, Behind, KeysOf, Victims, Lookup, Without, LastOf;
    var g', now := Step(g, w, maxKeys, c.key, c.now), c.now;
    var purged, moved, n := Purged(g.table, now - w.windowMs), Moved(g.table, w, c.key, now), Victims(g.table, w, maxKeys, c.key, now);
    RivalsOneMore(calls, c, key);
    CrowdedOneMore(calls, c, key, maxKeys);
    PurgePlaces(g, w, maxKeys, calls, key, at, now);
    var e := MovedShape(g.table, w, maxKeys, c.key, now);
    MovePlaces(purged, e, key);
    MovedKeeps(g.table, w, at, c.key, now);
    CapPlaces(moved, n, maxKeys, key);
    var rivals, rivals' := Rivals(calls, key), Rivals(calls + [c], key);
    assert rivals' == rivals + {c.key};
    assert B.ListOf(g'.log, key) == B.ListOf(g.log, key);
    assert HasLiveHit(g', w, key, now) ==> HasLiveHit(g, w, key, at) && HasLiveHit(g, w, key, now);
    Larger(rivals, rivals');
    if key in KeysOf(moved) {
      assert Behind(moved, key) <= rivals';
      Larger(Behind(moved, key), rivals');
    }
  }

  // A check of the key itself.
  lemma SelfChecked(g: Guard, w: BudgetWindow, maxKeys: nat, calls: seq<B.Call>, at: int, c: B.Call)
    requires Inv(g, w, maxKeys, at) && at <= c.now && Placed(g, w, maxKeys, calls, c.key, at) && w.limit >= 1
    ensures Placed(Step(g, w, maxKeys, c.key, c.now), w, maxKeys, calls + [c], c.key, c.now)
  {
    hide Moved, Checked, Answer, Recent, Purged, Rivals, WasChecked, Crowded, Behind, KeysOf, Victims, Lookup, Without, LastOf;
    var key, now := c.key, c.now;
    var g', purged, moved := Step(g, w, maxKeys, key, now), Purged(g.table, now - w.windowMs), Moved(g.table, w, key, now);
    var n := Victims(g.table, w, maxKeys, key, now);
    RivalsOneMore(calls, c, key);
    CrowdedOneMore(calls, c, key, maxKeys);
    PurgePlaces(g, w, maxKeys, calls, key, at, now);
    var e := MovedShape(g.table, w, maxKeys, key, now);
    var rest := Without(purged, key);
    KeysWithout(purged, key);
    KeysSnoc(rest, e);
    BehindSnoc(rest, e, key);
    LookupMoved(purged, key, e.hits, key);
    assert e == Entry(key, e.hits);
    MovedKeeps(g.table, w, at, key, now);
    CapPlaces(moved, n, maxKeys, key);
    OwnHits(g, w, maxKeys, calls, at, key, now);
  }

  // The hits kept for the key end with the last one of its log.
  lemma OwnHits(g: Guard, w: BudgetWindow, maxKeys: nat, calls: seq<B.Call>, at: int, key: string, now: int)
    requires Inv(g, w, maxKeys, at) && at <= now && Placed(g, w, maxKeys, calls, key, at) && w.limit >= 1
    ensures var hits := Recent(g.table, w, key, now) + if Answer(g.table, w, key, now).Accept? then [now] else [];
            var log := B.ListOf(Step(g, w, maxKeys, key, now).log, key);
            hits != [] && log != [] && LastOf(hits) == LastOf(log)
  {
    var purged, cut, recent := Purged(g.table, now - w.windowMs), now - w.windowMs, Recent(g.table, w, key, now);
    if Answer(g.table, w, key, now).Refuse? {
      assert recent + [] == recent;
      PurgePlaces(g, w, maxKeys, calls, key, at, now);
      LookupFacts(purged, key);
      var list := Lookup(purged, key);
      AfterFacts(list, cut);
      if i :| 0 <= i < |purged| && purged[i] == Entry(key, list) {
        assert purged[i].key in KeysOf(purged);
        assert purged[i] in g.table;
      }
      assert Ordered(list);
      AfterKeepsLast(list, cut);
    }
  }

  lemma {:induction false} AfterKeepsLast(s: seq<int>, cut: int)
    requires Ordered(s) && After(s, cut) != []
    ensures s != [] && LastOf(After(s, cut)) == LastOf(s)
    decreases |s|
  {
    var front, last := s[..|s| - 1], s[|s| - 1];
    assert s == front + [last];
    AfterConcat(front, [last], cut);
    AfterFacts(s, cut);
    assert After(s, cut)[0] in After(s, cut);
    var i :| 0 <= i < |s| && s[i] == After(s, cut)[0];
    assert s[i] <= last;
  }

  lemma {:induction false} RunPlaces(w: BudgetWindow, maxKeys: nat, at: int, calls: seq<B.Call>, key: string)
    requires w.limit >= 1 && B.Timed(at, calls)
    ensures Placed(AfterChecks(w, maxKeys, calls), w, maxKeys, calls, key, EndOf(at, calls))
    decreases |calls|
  {
    if calls != [] {
      var front, c := calls[..|calls| - 1], calls[|calls| - 1];
      FrontIsTimed(at, calls);
      RunPlaces(w, maxKeys, at, front, key);
      AfterIsInv(w, maxKeys, at, front);
      OneMore(w, maxKeys, front, c);
      hide Placed, Inv, Step, RunChecks;
      if c.key == key {
        SelfChecked(AfterChecks(w, maxKeys, front), w, maxKeys, front, EndOf(at, front), c);
      } else {
        OtherChecked(AfterChecks(w, maxKeys, front), w, maxKeys, front, key, EndOf(at, front), c);
      }
    }
  }

  // A key with a hit that still counts is tracked exactly when fewer than `maxKeys` other keys have
  // been checked since its own last check.
  lemma TrackedExactly(w: BudgetWindow, maxKeys: nat, at: int, calls: seq<B.Call>, key: string)
    requires w.limit >= 1 && B.Timed(at, calls)
    requires HasLiveHit(AfterChecks(w, maxKeys, calls), w, key, EndOf(at, calls))
    ensures key in KeysOf(AfterChecks(w, maxKeys, calls).table) <==> |Rivals(calls, key)| < maxKeys
  {
    RunPlaces(w, maxKeys, at, calls, key);
    AfterIsInv(w, maxKeys, at, calls);
    var t := AfterChecks(w, maxKeys, calls).table;
    if key in KeysOf(t) {
      BehindSize(t, key);
    }
  }

  // A key is evicted only after `maxKeys` other keys were checked since its own last check.
  lemma EvictedMeansCrowded(w: BudgetWindow, maxKeys: nat, at: int, calls: seq<B.Call>, key: string)
    requires w.limit >= 1 && B.Timed(at, calls) && !Crowded(calls, key, maxKeys)
    ensures key !in AfterChecks(w, maxKeys, calls).evicted
  {
    RunPlaces(w, maxKeys, at, calls, key);
  }

  // So, for a key that was never crowded, the limiter is the full log and its Retry-After is exact.
  lemma UncrowdedFollowsTheLog(w: BudgetWindow, maxKeys: nat, at: int, calls: seq<B.Call>, key: string, now: int, t: int)
    requires w.limit >= 1 && B.Timed(at, calls) && at <= now && OverBy(calls, now) && !Crowded(calls, key, maxKeys)
    ensures var g := AfterChecks(w, maxKeys, calls);
            && Answer(g.table, w, key, now) == Verdict(B.ListOf(g.log, key), [w], now)
            && InWindow(B.ListOf(g.log, key), w, t) <= w.limit
  {
    EvictedMeansCrowded(w, maxKeys, at, calls, key);
    LimiterFollowsTheLog(w, maxKeys, at, calls, key, now, t);
  }

  lemma UncrowdedRetryAfter(
    w: BudgetWindow, maxKeys: nat, at: int, calls: seq<B.Call>, more: seq<B.Call>, key: string, now: int, x: nat)
    requires w.limit >= 1 && B.Timed(at, calls) && at <= now && OverBy(calls, now)
    requires B.Timed(at, calls + more) && OverBy(calls + more, now + 1000 * x) && !Crowded(calls + more, key, maxKeys)
    requires var g, h := AfterChecks(w, maxKeys, calls), AfterChecks(w, maxKeys, calls + more);
             B.ListOf(h.log, key) == B.ListOf(g.log, key) && Answer(g.table, w, key, now).Refuse?
    ensures var refusal := Answer(AfterChecks(w, maxKeys, calls).table, w, key, now);
            && refusal.wait.Seconds?
            && (Answer(AfterChecks(w, maxKeys, calls + more).table, w, key, now + 1000 * x).Accept? <==> x >= refusal.wait.n)
  {
    CrowdedStays(calls, more, key, maxKeys);
    EvictedMeansCrowded(w, maxKeys, at, calls, key);
    EvictedMeansCrowded(w, maxKeys, at, calls + more, key);
    RetryAfterIsHonoured(w, maxKeys, at, calls, more, key, now, x);
  }

  lemma CrowdedStays(calls: seq<B.Call>, more: seq<B.Call>, key: string, maxKeys: nat)
    ensures Crowded(calls, key, maxKeys) ==> Crowded(calls + more, key, maxKeys)
  {
    assert forall n :: 0 <= n <= |calls| ==> (calls + more)[..n] == calls[..n];
  }

  // ---------------------------------------------------------------- how many readers the cap allows

  predicate AllFrom(calls: seq<B.Call>, readers: set<string>) {
    forall i :: 0 <= i < |calls| ==> calls[i].key in readers
  }

  /** Over every run of these readers, each is answered as the full log of its accepted hits says. */
  ghost predicate FaithfulTo(w: BudgetWindow, maxKeys: nat, readers: set<string>) {
    forall at, calls, key, now ::
      B.Timed(at, calls) && at <= now && OverBy(calls, now) && AllFrom(calls, readers) && key in readers ==>
        FaithfulAt(w, maxKeys, calls, key, now)
  }

  ghost predicate FaithfulAt(w: BudgetWindow, maxKeys: nat, calls: seq<B.Call>, key: string, now: int) {
    var g := AfterChecks(w, maxKeys, calls);
    Answer(g.table, w, key, now) == Verdict(B.ListOf(g.log, key), [w], now)
  }

  // Exactly when the cap is harmless: when it leaves room for every reader, or the window is empty.
  lemma CapIsHarmlessWhen(w: BudgetWindow, maxKeys: nat, readers: set<string>)
    requires w.limit >= 1
    ensures FaithfulTo(w, maxKeys, readers) <==> |readers| <= maxKeys || w.windowMs <= 0
  {
    if |readers| <= maxKeys || w.windowMs <= 0 {
      forall at, calls, key, now |
        B.Timed(at, calls) && at <= now && OverBy(calls, now) && AllFrom(calls, readers) && key in readers
        ensures FaithfulAt(w, maxKeys, calls, key, now)
      {
        if w.windowMs <= 0 {
          EmptyWindow(w, maxKeys, at, calls, key, now);
        } else {
          FewAreNeverCrowded(calls, readers, key, maxKeys);
          UncrowdedFollowsTheLog(w, maxKeys, at, calls, key, now, now);
        }
      }
    } else {
      var key :| key in readers;
      var others := Chosen(readers - {key}, maxKeys);
      EvictionForgets(w, maxKeys, key, others);
      assert AllFrom(CrowdsOut(key, w.limit, others), readers);
      assert !FaithfulAt(w, maxKeys, CrowdsOut(key, w.limit, others), key, 0);
    }
  }

  lemma {:induction false} RivalsAreReaders(calls: seq<B.Call>, readers: set<string>, key: string)
    requires AllFrom(calls, readers)
    ensures Rivals(calls, key) <= readers - {key}
    decreases |calls|
  {
    if calls != [] {
      RivalsAreReaders(calls[..|calls| - 1], readers, key);
    }
  }

  lemma FewAreNeverCrowded(calls: seq<B.Call>, readers: set<string>, key: string, maxKeys: nat)
    requires AllFrom(calls, readers) && key in readers && |readers| <= maxKeys
    ensures !Crowded(calls, key, maxKeys)
  {
    forall n | 0 <= n <= |calls|
      ensures |Rivals(calls[..n], key)| < maxKeys
    {
      RivalsAreReaders(calls[..n], readers, key);
      Larger(Rivals(calls[..n], key), readers - {key});
    }
  }

  lemma {:induction false} LogIsPast(w: BudgetWindow, maxKeys: nat, at: int, calls: seq<B.Call>, key: string)
    requires B.Timed(at, calls)
    ensures UpTo(B.ListOf(AfterChecks(w, maxKeys, calls).log, key), EndOf(at, calls))
    decreases |calls|
  {
    if calls != [] {
      var front, c := calls[..|calls| - 1], calls[|calls| - 1];
      FrontIsTimed(at, calls);
      LogIsPast(w, maxKeys, at, front, key);
      OneMore(w, maxKeys, front, c);
    }
  }

  lemma EmptyWindow(w: BudgetWindow, maxKeys: nat, at: int, calls: seq<B.Call>, key: string, now: int)
    requires w.limit >= 1 && w.windowMs <= 0 && B.Timed(at, calls) && at <= now && OverBy(calls, now)
    ensures FaithfulAt(w, maxKeys, calls, key, now)
  {
    var g := AfterChecks(w, maxKeys, calls);
    AfterIsInv(w, maxKeys, at, calls);
    LogIsPast(w, maxKeys, at, calls, key);
    AfterNone(B.ListOf(g.log, key), now - w.windowMs);
    B.OneWindow(B.ListOf(g.log, key), w, now);
    RecentIsTimely(g.table, w, EndOf(at, calls), key, now);
    var list := Lookup(Purged(g.table, now - w.windowMs), key);
    AfterAfter(list, now - w.windowMs, now - w.windowMs);
    AfterNone(Recent(g.table, w, key, now), now - w.windowMs);
  }

  predicate AllDistinct(keys: seq<string>) {
    forall i, j :: 0 <= i < j < |keys| ==> keys[i] != keys[j]
  }

  lemma {:induction false} Chosen(from: set<string>, n: nat) returns (keys: seq<string>)
    requires n <= |from|
    ensures |keys| == n && AllDistinct(keys) && forall i :: 0 <= i < n ==> keys[i] in from
    decreases n
  {
    keys := [];
    if n > 0 {
      var k :| k in from;
      var rest := Chosen(from - {k}, n - 1);
      keys := [k] + rest;
    }
  }

  function OnceEach(keys: seq<string>): seq<B.Call> {
    seq(|keys|, i requires 0 <= i < |keys| => B.Call(keys[i], 0, true))
  }

  /** The key uses up its limit, then each of the others is checked once, all at the same instant. */
  function CrowdsOut(key: string, limit: nat, others: seq<string>): seq<B.Call> {
    B.Burst(key, limit) + OnceEach(others)
  }

  // From the empty table: `maxKeys` other keys are enough to make the limiter forget a key, which is
  // then accepted although the log of its hits would refuse it.
  lemma EvictionForgets(w: BudgetWindow, maxKeys: nat, key: string, others: seq<string>)
    requires w.limit >= 1 && w.windowMs >= 1
    requires |others| == maxKeys && AllDistinct(others) && key !in others
    ensures var calls := CrowdsOut(key, w.limit, others);
            var g := AfterChecks(w, maxKeys, calls);
            && B.Timed(0, calls) && OverBy(calls, 0)
            && Answer(g.table, w, key, 0).Accept? && Verdict(B.ListOf(g.log, key), [w], 0).Refuse?
  {
    var calls := CrowdsOut(key, w.limit, others);
    var g := AfterChecks(w, maxKeys, calls);
    AtOnce(calls);
    CrowdsOutLog(w, maxKeys, key, w.limit, others);
    CrowdsOutRivals(key, w.limit, others);
    TrackedExactly(w, maxKeys, 0, calls, key);
    PurgedIsTracked(g.table, 0 - w.windowMs);
    LookupFacts(Purged(g.table, 0 - w.windowMs), key);
    AfterAll(B.Zeros(w.limit), 0 - w.windowMs);
    B.OneWindowVerdict(B.Zeros(w.limit), w, 0);
    KeyOfEntry(Purged(g.table, 0 - w.windowMs), key);
  }

  lemma PurgedIsTracked(t: Table, windowStart: int)
    ensures KeysOf(Purged(t, windowStart)) <= KeysOf(t)
  {
    KeysSplit(t, PurgeCount(t, windowStart));
  }

  lemma KeyOfEntry(t: Table, key: string)
    ensures key !in KeysOf(t) ==> Lookup(t, key) == []
  {
    LookupFacts(t, key);
    assert forall i :: 0 <= i < |t| ==> t[i].key in KeysOf(t);
  }

  lemma {:induction false} AtOnce(calls: seq<B.Call>)
    requires forall i :: 0 <= i < |calls| ==> calls[i].now == 0
    ensures B.Timed(0, calls)
    decreases |calls|
  {
    if calls != [] {
      AtOnce(calls[1..]);
    }
  }

  lemma CrowdsOutUnfolds(key: string, limit: nat, others: seq<string>)
    requires limit >= 1
    ensures others == [] ==> CrowdsOut(key, limit, others) == B.Burst(key, limit - 1) + [B.Call(key, 0, true)]
    ensures others != [] ==>
              CrowdsOut(key, limit, others)
              == CrowdsOut(key, limit, others[..|others| - 1]) + [B.Call(others[|others| - 1], 0, true)]
  {
  }

  lemma {:induction false} CrowdsOutRivals(key: string, limit: nat, others: seq<string>)
    requires limit >= 1 && AllDistinct(others) && key !in others
    ensures forall k :: k in Rivals(CrowdsOut(key, limit, others), key) <==> k in others
    ensures |Rivals(CrowdsOut(key, limit, others), key)| == |others|
    decreases |others|
  {
    hide CrowdsOut, Rivals;
    CrowdsOutUnfolds(key, limit, others);
    if others == [] {
      RivalsOneMore(B.Burst(key, limit - 1), B.Call(key, 0, true), key);
    } else {
      var front, last := others[..|others| - 1], others[|others| - 1];
      CrowdsOutRivals(key, limit, front);
      RivalsOneMore(CrowdsOut(key, limit, front), B.Call(last, 0, true), key);
      assert others == front + [last] && last !in front;
    }
  }

  // The key's own log: the whole burst was accepted, and nobody else touches it.
  lemma {:induction false} CrowdsOutLog(w: BudgetWindow, maxKeys: nat, key: string, n: nat, others: seq<string>)
    requires 1 <= n <= w.limit && w.windowMs >= 1 && key !in others
    ensures B.ListOf(AfterChecks(w, maxKeys, CrowdsOut(key, n, others)).log, key) == B.Zeros(n)
    decreases |others|
  {
    hide CrowdsOut, AfterChecks, B.Zeros;
    CrowdsOutUnfolds(key, n, others);
    if others == [] {
      BurstLog(w, maxKeys, key, n);
      B.BurstUnfolds(key, n - 1, B.Call(key, 0, true));
    } else {
      var front, last := others[..|others| - 1], others[|others| - 1];
      CrowdsOutLog(w, maxKeys, key, n, front);
      OneMore(w, maxKeys, CrowdsOut(key, n, front), B.Call(last, 0, true));
    }
  }

  // A burst within the limit is accepted whole, tracked or not.
  lemma {:induction false} BurstLog(w: BudgetWindow, maxKeys: nat, key: string, n: nat)
    requires 1 <= n <= w.limit && w.windowMs >= 1
    ensures B.ListOf(AfterChecks(w, maxKeys, B.Burst(key, n - 1) + [B.Call(key, 0, true)]).log, key) == B.Zeros(n)
    decreases n
  {
    var front, c := B.Burst(key, n - 1), B.Call(key, 0, true);
    if maxKeys >= 1 {
      assert front + [c] == B.Burst(key, n);
      BurstFills(w, maxKeys, key, n);
    } else {
      AtOnce(front);
      AfterIsInv(w, maxKeys, 0, front);
      OneMore(w, maxKeys, front, c);
      Untracked(w, key);
      if n == 1 {
        assert front == [] && B.Zeros(1) == [] + [0];
      } else {
        BurstLog(w, maxKeys, key, n - 1);
        assert front == B.Burst(key, n - 2) + [c];
        assert B.Zeros(n) == B.Zeros(n - 1) + [0];
      }
    }
  }

  lemma Untracked(w: BudgetWindow, key: string)
    requires w.limit >= 1
    ensures Answer([], w, key, 0).Accept?
  {
    assert Recent([], w, key, 0) == [];
  }
}
