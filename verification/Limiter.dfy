/**
 The sliding-window limiter in front of the OSM relay (tile-proxy.ts): keys in recency order,
 purged when idle and evicted beyond a cap. Main result: for a key the cap has never evicted it
 answers as over the full log of accepted hits, and it never tracks more than `maxKeys` keys.
 */
module Limiter {
  import opened Prelude
  import opened Windows
  import B = Budgets

  /** An insertion-ordered map: the least recently checked key first. */
  datatype Entry = Entry(key: string, hits: seq<int>)
  type Table = seq<Entry>

  function Lookup(t: Table, key: string): seq<int> {
    if t == [] then [] else if t[0].key == key then t[0].hits else Lookup(t[1..], key)
  }

  function Without(t: Table, key: string): Table {
    if t == [] then [] else if t[0].key == key then Without(t[1..], key) else [t[0]] + Without(t[1..], key)
  }

  predicate Live(e: Entry, windowStart: int) {
    e.hits != [] && e.hits[|e.hits| - 1] > windowStart
  }

  /** How many leading entries the purge removes: it stops at the first live one. */
  function PurgeCount(t: Table, windowStart: int): (n: nat)
    ensures n <= |t|
  {
    if t == [] || Live(t[0], windowStart) then 0 else 1 + PurgeCount(t[1..], windowStart)
  }

  function Purged(t: Table, windowStart: int): Table {
    t[PurgeCount(t, windowStart)..]
  }

  function Excess(t: Table, maxKeys: nat): (n: nat)
    ensures n <= |t|
  {
    if |t| > maxKeys then |t| - maxKeys else 0
  }

  // ---------------------------------------------------------------- one check, on values

  function Recent(t: Table, w: BudgetWindow, key: string, now: int): seq<int> {
    After(Lookup(Purged(t, now - w.windowMs), key), now - w.windowMs)
  }

  function Answer(t: Table, w: BudgetWindow, key: string, now: int): Decision {
    var hits := Recent(t, w, key, now);
    if |hits| < w.limit then Accept
    else if hits == [] then Refuse(Forever)
    else Refuse(Seconds(Max(1, CeilSeconds(hits[0] + w.windowMs - now))))
  }

  /** The table after the check, before the cap is applied. */
  function Moved(t: Table, w: BudgetWindow, key: string, now: int): Table {
    var recent := Recent(t, w, key, now);
    var hits := if Answer(t, w, key, now).Accept? then recent + [now] else recent;
    Without(Purged(t, now - w.windowMs), key) + [Entry(key, hits)]
  }

  function Victims(t: Table, w: BudgetWindow, maxKeys: nat, key: string, now: int): nat {
    if Answer(t, w, key, now).Accept? then Excess(Moved(t, w, key, now), maxKeys) else 0
  }

  function Checked(t: Table, w: BudgetWindow, maxKeys: nat, key: string, now: int): Table {
    Moved(t, w, key, now)[Victims(t, w, maxKeys, key, now)..]
  }

  // ---------------------------------------------------------------- the object

  class SlidingWindowLimiter {
    const w: BudgetWindow
    const maxKeys: nat
    var table: Table

    constructor (w: BudgetWindow, maxKeys: nat)
      ensures this.w == w && this.maxKeys == maxKeys && table == []
    {
      this.w, this.maxKeys := w, maxKeys;
      table := [];
    }

    method PurgeIdle(windowStart: int)
      modifies this
      ensures table == Purged(old(table), windowStart)
    {
      ghost var was, gone := table, 0;
      while table != [] && !Live(table[0], windowStart)
        invariant 0 <= gone <= |was| && table == was[gone..]
        invariant PurgeCount(was, windowStart) == gone + PurgeCount(table, windowStart)
        decreases |table|
      {
        assert was[gone..][1..] == was[gone + 1..];
        table := table[1..];
        gone := gone + 1;
      }
    }

    method Check(key: string, now: int) returns (r: Decision)
      modifies this
      ensures r == Answer(old(table), w, key, now)
      ensures table == Checked(old(table), w, maxKeys, key, now)
    {
      var windowStart := now - w.windowMs;
      PurgeIdle(windowStart);
      var hits := After(Lookup(table, key), windowStart);
      table := Without(table, key);
      if |hits| >= w.limit {
        table := table + [Entry(key, hits)];
        if hits == [] {
          return Refuse(Forever);
        }
        return Refuse(Seconds(Max(1, CeilSeconds(hits[0] + w.windowMs - now))));
      }
      hits := hits + [now];
      table := table + [Entry(key, hits)];
      ghost var moved, gone := table, 0;
      while |table| > maxKeys
        invariant 0 <= gone <= |moved| && table == moved[gone..]
        invariant gone <= Excess(moved, maxKeys)
        decreases |table|
      {
        table := table[1..];
        gone := gone + 1;
      }
      r := Accept;
    }
  }

  lemma {:induction false} OldestIsFirst(s: seq<int>)
    requires s != [] && Ordered(s)
    ensures Minimum(s) == s[0]
  {
    MinimumFacts(s);
    assert s[0] in s;
  }

  // ---------------------------------------------------------------- runs, and the log

  /** The limiter, every hit it has accepted, and every key its cap has evicted. */
  datatype Guard = Guard(table: Table, log: B.Hits, evicted: set<string>)

  function KeysOf(t: Table): set<string> {
    set i | 0 <= i < |t| :: t[i].key
  }

  function Step(g: Guard, w: BudgetWindow, maxKeys: nat, key: string, now: int): Guard {
    var moved, n := Moved(g.table, w, key, now), Victims(g.table, w, maxKeys, key, now);
    Guard(Checked(g.table, w, maxKeys, key, now),
          if Answer(g.table, w, key, now).Accept? then g.log[key := B.ListOf(g.log, key) + [now]] else g.log,
          g.evicted + KeysOf(moved[..n]))
  }

  function RunChecks(g: Guard, w: BudgetWindow, maxKeys: nat, calls: seq<B.Call>): Guard
    decreases |calls|
  {
    if calls == [] then g
    else RunChecks(Step(g, w, maxKeys, calls[0].key, calls[0].now), w, maxKeys, calls[1..])
  }

  // ---------------------------------------------------------------- the invariant

  predicate Distinct(t: Table) {
    forall i, j :: 0 <= i < j < |t| ==> t[i].key != t[j].key
  }

  predicate Timely(t: Table, at: int) {
    forall i :: 0 <= i < |t| ==> Ordered(t[i].hits) && UpTo(t[i].hits, at)
  }

  /** What the log of one key satisfies as long as the cap has not evicted it. */
  ghost predicate Followed(g: Guard, w: BudgetWindow, at: int, key: string) {
    && Agree(Lookup(g.table, key), B.ListOf(g.log, key), at, w.windowMs)
    && Ordered(B.ListOf(g.log, key)) && UpTo(B.ListOf(g.log, key), at) && Capped(B.ListOf(g.log, key), w)
  }

  ghost predicate Inv(g: Guard, w: BudgetWindow, maxKeys: nat, at: int) {
    && Distinct(g.table) && Timely(g.table, at) && |g.table| <= maxKeys
    && forall key :: key !in g.evicted ==> Followed(g, w, at, key)
  }

  lemma {:induction false} LookupFacts(t: Table, key: string)
    ensures (exists i :: 0 <= i < |t| && t[i] == Entry(key, Lookup(t, key)))
            || (Lookup(t, key) == [] && key !in KeysOf(t))
  {
    if t != [] && t[0].key != key {
      LookupFacts(t[1..], key);
      if i :| 0 <= i < |t[1..]| && t[1..][i] == Entry(key, Lookup(t[1..], key)) {
        assert t[i + 1] == Entry(key, Lookup(t, key));
      } else {
        forall i | 0 <= i < |t| ensures t[i].key != key {
          if i > 0 { assert t[1..][i - 1].key in KeysOf(t[1..]); }
        }
      }
    } else if t != [] {
      assert t[0] == Entry(key, Lookup(t, key));
    }
  }

  // Dropping a prefix that does not hold the key does not change what is found.
  lemma {:induction false} LookupSuffix(t: Table, n: nat, key: string)
    requires n <= |t| && key !in KeysOf(t[..n])
    ensures Lookup(t[n..], key) == Lookup(t, key)
  {
    if n > 0 {
      assert t[..n][0] == t[0] && t[..n][0].key in KeysOf(t[..n]);
      forall k | k in KeysOf(t[1..][..n - 1]) ensures k in KeysOf(t[..n]) {
        var i :| 0 <= i < n - 1 && t[1..][..n - 1][i].key == k;
        assert t[..n][i + 1].key == k;
      }
      LookupSuffix(t[1..], n - 1, key);
      assert t[1..][n - 1..] == t[n..];
    }
  }

  lemma {:induction false} LookupMoved(t: Table, key: string, hits: seq<int>, k: string)
    ensures Lookup(Without(t, key) + [Entry(key, hits)], k) == if k == key then hits else Lookup(t, k)
  {
    var r := Without(t, key) + [Entry(key, hits)];
    if t == [] {
      assert r[1..] == [];
    } else {
      LookupMoved(t[1..], key, hits, k);
      if t[0].key != key {
        assert r[0] == t[0] && r[1..] == Without(t[1..], key) + [Entry(key, hits)];
      }
    }
  }

  lemma {:induction false} WithoutFacts(t: Table, key: string)
    ensures forall e :: e in Without(t, key) <==> e in t && e.key != key
    ensures |Without(t, key)| <= |t|
  {
    if t != [] {
      WithoutFacts(t[1..], key);
      assert t == [t[0]] + t[1..];
    }
  }

  lemma {:induction false} WithoutIsSmaller(t: Table, key: string)
    requires key in KeysOf(t)
    ensures |Without(t, key)| < |t|
  {
    WithoutFacts(t[1..], key);
    if t[0].key != key {
      var i :| 0 <= i < |t| && t[i].key == key;
      assert t[1..][i - 1].key in KeysOf(t[1..]);
      WithoutIsSmaller(t[1..], key);
    }
  }

  lemma {:induction false} WithoutIsDistinct(t: Table, key: string)
    requires Distinct(t)
    ensures Distinct(Without(t, key))
  {
    if t != [] {
      WithoutIsDistinct(t[1..], key);
      WithoutFacts(t[1..], key);
      var rest := Without(t[1..], key);
      forall i | 0 <= i < |rest| ensures rest[i].key != t[0].key {
        assert rest[i] in rest;
        var j :| 0 <= j < |t[1..]| && t[1..][j] == rest[i];
      }
    }
  }

  lemma {:induction false} PurgeCountFacts(t: Table, windowStart: int)
    ensures forall i :: 0 <= i < PurgeCount(t, windowStart) ==> !Live(t[i], windowStart)
  {
    if t != [] && !Live(t[0], windowStart) {
      PurgeCountFacts(t[1..], windowStart);
      forall i | 0 <= i < PurgeCount(t, windowStart) ensures !Live(t[i], windowStart) {
        if i > 0 { assert t[i] == t[1..][i - 1]; }
      }
    }
  }

  lemma KeysSplit(t: Table, n: nat)
    requires n <= |t|
    ensures KeysOf(t) == KeysOf(t[..n]) + KeysOf(t[n..])
  {
    forall key | key in KeysOf(t) ensures key in KeysOf(t[..n]) + KeysOf(t[n..]) {
      var i :| 0 <= i < |t| && t[i].key == key;
      if i < n { assert t[..n][i].key == key; } else { assert t[n..][i - n].key == key; }
    }
    forall i | 0 <= i < |t[n..]| ensures t[n..][i].key in KeysOf(t) {
      assert t[n..][i] == t[n + i];
    }
  }

  // A key found in a prefix of distinct keys is looked up there, and nowhere else.
  lemma LookupPrefix(t: Table, n: nat, key: string) returns (i: nat)
    requires Distinct(t) && n <= |t| && key in KeysOf(t[..n])
    ensures i < n && t[i] == Entry(key, Lookup(t, key)) && key !in KeysOf(t[n..])
  {
    i :| 0 <= i < n && t[..n][i].key == key;
    assert t[i].key in KeysOf(t);
    LookupFacts(t, key);
    var j :| 0 <= j < |t| && t[j] == Entry(key, Lookup(t, key));
    assert i == j;
    forall k | 0 <= k < |t[n..]| ensures t[n..][k].key != key {
      assert t[n..][k] == t[n + k];
    }
  }

  // The purge removes only keys with no hit in the window.
  lemma PurgeRemovesOnlyIdle(t: Table, at: int, windowStart: int, key: string, c: int)
    requires Distinct(t) && Timely(t, at) && windowStart <= c
    ensures After(Lookup(Purged(t, windowStart), key), c) == After(Lookup(t, key), c)
    ensures key in KeysOf(t) && key !in KeysOf(Purged(t, windowStart)) ==> After(Lookup(t, key), c) == []
  {
    var n := PurgeCount(t, windowStart);
    PurgeCountFacts(t, windowStart);
    if key in KeysOf(t[..n]) {
      var i := LookupPrefix(t, n, key);
      NothingLate(t[i].hits, windowStart, c);
      LookupFacts(t[n..], key);
      assert After([], c) == [];
    } else {
      LookupSuffix(t, n, key);
      KeysSplit(t, n);
    }
  }

  lemma NothingLate(hits: seq<int>, windowStart: int, c: int)
    requires Ordered(hits) && !Live(Entry("", hits), windowStart) && windowStart <= c
    ensures After(hits, c) == []
  {
    assert forall i :: 0 <= i < |hits| ==> hits[i] <= hits[|hits| - 1];
    AfterNone(hits, c);
  }

  // ---------------------------------------------------------------- every check keeps the invariant

  lemma RecentIsTimely(t: Table, w: BudgetWindow, at: int, key: string, now: int)
    requires Timely(t, at) && at <= now
    ensures Ordered(Recent(t, w, key, now)) && UpTo(Recent(t, w, key, now), now)
  {
    var purged, cut := Purged(t, now - w.windowMs), now - w.windowMs;
    LookupFacts(purged, key);
    var list := Lookup(purged, key);
    AfterOrdered(list, cut);
    AfterFacts(list, cut);
    forall i | 0 <= i < |After(list, cut)| ensures After(list, cut)[i] <= now {
      assert After(list, cut)[i] in After(list, cut);
      assert After(list, cut)[i] in list;
    }
  }

  // For a key never evicted, the answer is the one the full log gives.
  lemma AnswerIsTheLogs(g: Guard, w: BudgetWindow, maxKeys: nat, at: int, key: string, now: int)
    requires Inv(g, w, maxKeys, at) && at <= now && key !in g.evicted
    ensures Answer(g.table, w, key, now) == Verdict(B.ListOf(g.log, key), [w], now)
    ensures Agree(Recent(g.table, w, key, now), B.ListOf(g.log, key), now, w.windowMs)
  {
    var cut, list, full := now - w.windowMs, Lookup(g.table, key), B.ListOf(g.log, key);
    assert Followed(g, w, at, key);
    AgreeLater(list, full, at, now, w.windowMs);
    AgreePruned(list, full, now, w.windowMs, cut);
    PurgeRemovesOnlyIdle(g.table, at, cut, key, cut);
    var recent := Recent(g.table, w, key, now);
    assert recent == After(full, cut);
    RecentIsTimely(g.table, w, at, key, now);
    B.OneWindowVerdict(full, w, now);
    B.OneWindow(recent, w, now);
    B.OneWindow(full, w, now);
    AfterAfter(full, cut, cut);
    if recent != [] {
      OldestIsFirst(recent);
    }
  }

  lemma MovedKeeps(t: Table, w: BudgetWindow, at: int, key: string, now: int)
    requires Distinct(t) && Timely(t, at) && at <= now
    ensures Distinct(Moved(t, w, key, now)) && Timely(Moved(t, w, key, now), now)
  {
    hide Answer;
    var purged, moved, recent := Purged(t, now - w.windowMs), Moved(t, w, key, now), Recent(t, w, key, now);
    var rest := Without(purged, key);
    RecentIsTimely(t, w, at, key, now);
    WithoutFacts(purged, key);
    WithoutIsDistinct(purged, key);
    forall i | 0 <= i < |rest|
      ensures rest[i].key != key && Ordered(rest[i].hits) && UpTo(rest[i].hits, now)
    {
      assert rest[i] in rest;
      var j :| 0 <= j < |purged| && purged[j] == rest[i];
    }
    assert moved[..|rest|] == rest;
    assert moved[|rest|].hits in {recent, recent + [now]};
  }

  // A refused key was tracked already, so only an accepted one can make the table grow.
  lemma RefusalDoesNotGrow(t: Table, w: BudgetWindow, key: string, now: int)
    requires w.limit >= 1 && Answer(t, w, key, now).Refuse?
    ensures |Moved(t, w, key, now)| <= |t|
  {
    var purged, cut := Purged(t, now - w.windowMs), now - w.windowMs;
    AfterFacts(Lookup(purged, key), cut);
    LookupFacts(purged, key);
    WithoutIsSmaller(purged, key);
  }

  lemma TableKeeps(t: Table, w: BudgetWindow, maxKeys: nat, at: int, key: string, now: int)
    requires Distinct(t) && Timely(t, at) && |t| <= maxKeys && at <= now && w.limit >= 1
    ensures var t' := Checked(t, w, maxKeys, key, now); Distinct(t') && Timely(t', now) && |t'| <= maxKeys
  {
    MovedKeeps(t, w, at, key, now);
    if Answer(t, w, key, now).Refuse? {
      RefusalDoesNotGrow(t, w, key, now);
    }
    hide Moved, Answer;
    var moved, n := Moved(t, w, key, now), Victims(t, w, maxKeys, key, now);
    assert Checked(t, w, maxKeys, key, now) == moved[n..];
  }

  // What the table holds for a key after a check, unless the check evicted it.
  lemma LookupChecked(t: Table, w: BudgetWindow, maxKeys: nat, key: string, now: int, k: string)
    requires k !in KeysOf(Moved(t, w, key, now)[..Victims(t, w, maxKeys, key, now)])
    ensures Lookup(Checked(t, w, maxKeys, key, now), k)
            == if k != key then Lookup(Purged(t, now - w.windowMs), k)
               else Recent(t, w, key, now) + if Answer(t, w, key, now).Accept? then [now] else []
  {
    hide Answer, Recent, Purged;
    var recent := Recent(t, w, key, now);
    LookupSuffix(Moved(t, w, key, now), Victims(t, w, maxKeys, key, now), k);
    LookupMoved(Purged(t, now - w.windowMs), key, recent + [now], k);
    LookupMoved(Purged(t, now - w.windowMs), key, recent, k);
    assert recent + [] == recent;
  }

  lemma FollowedKeeps(g: Guard, w: BudgetWindow, maxKeys: nat, at: int, key: string, now: int, k: string)
    requires Inv(g, w, maxKeys, at) && at <= now && w.limit >= 1
    requires k !in Step(g, w, maxKeys, key, now).evicted
    ensures Followed(Step(g, w, maxKeys, key, now), w, now, k)
  {
    hide Purged, Moved, Checked, Answer, Recent, Victims;
    var g', cut := Step(g, w, maxKeys, key, now), now - w.windowMs;
    var full, recent := B.ListOf(g.log, k), Recent(g.table, w, key, now);
    assert Followed(g, w, at, k);
    LookupChecked(g.table, w, maxKeys, key, now, k);
    if k == key {
      AnswerIsTheLogs(g, w, maxKeys, at, key, now);
      AgreeRecorded(recent, full, now, w.windowMs);
      assert recent + [] == recent;
      if Answer(g.table, w, key, now).Accept? {
        CappedGrows(full, [w], now, 0);
      }
    } else {
      assert B.ListOf(g'.log, k) == full;
      forall c | c >= cut ensures After(Lookup(g'.table, k), c) == After(full, c) {
        PurgeRemovesOnlyIdle(g.table, at, cut, k, c);
      }
    }
  }

  lemma {:induction false} ChecksKeep(g: Guard, w: BudgetWindow, maxKeys: nat, at: int, calls: seq<B.Call>) returns (end: int)
    requires Inv(g, w, maxKeys, at) && B.Timed(at, calls) && w.limit >= 1
    ensures end == if calls == [] then at else calls[|calls| - 1].now
    ensures Inv(RunChecks(g, w, maxKeys, calls), w, maxKeys, end)
    decreases |calls|
  {
    end := at;
    if calls != [] {
      var key, now := calls[0].key, calls[0].now;
      var g' := Step(g, w, maxKeys, key, now);
      TableKeeps(g.table, w, maxKeys, at, key, now);
      forall k | k !in g'.evicted ensures Followed(g', w, now, k) {
        FollowedKeeps(g, w, maxKeys, at, key, now, k);
      }
      end := ChecksKeep(g', w, maxKeys, now, calls[1..]);
    }
  }

  function AfterChecks(w: BudgetWindow, maxKeys: nat, calls: seq<B.Call>): Guard {
    RunChecks(Guard([], map[], {}), w, maxKeys, calls)
  }

  /** The calls are over by `now`. */
  predicate OverBy(calls: seq<B.Call>, now: int) {
    calls != [] ==> calls[|calls| - 1].now <= now
  }

  /**
   After any run: at most `maxKeys` keys are tracked; a key the cap never evicted gets the answer of
   the full log of its accepted hits; and no window of that log, wherever it ends, holds more than
   `maxRequests`.
   */
  lemma LimiterFollowsTheLog(w: BudgetWindow, maxKeys: nat, at: int, calls: seq<B.Call>, key: string, now: int, t: int)
    requires w.limit >= 1 && B.Timed(at, calls) && at <= now && OverBy(calls, now)
    ensures var g := AfterChecks(w, maxKeys, calls);
            && |g.table| <= maxKeys
            && (key !in g.evicted ==>
                  && Answer(g.table, w, key, now) == Verdict(B.ListOf(g.log, key), [w], now)
                  && Ordered(B.ListOf(g.log, key)) && UpTo(B.ListOf(g.log, key), now)
                  && InWindow(B.ListOf(g.log, key), w, t) <= w.limit)
  {
    var end := ChecksKeep(Guard([], map[], {}), w, maxKeys, at, calls);
    var g := AfterChecks(w, maxKeys, calls);
    if key !in g.evicted {
      AnswerIsTheLogs(g, w, maxKeys, end, key, now);
      assert Followed(g, w, end, key);
      CappedAtEveryInstant(B.ListOf(g.log, key), w, t);
    }
  }

  /**
   Its Retry-After is exact: a key refused after `calls` that asks again x seconds later, with no hit
   of its own accepted by `more` and never evicted, is accepted exactly when x is at least the wait.
   */
  lemma RetryAfterIsHonoured(
    w: BudgetWindow, maxKeys: nat, at: int, calls: seq<B.Call>, more: seq<B.Call>, key: string, now: int, x: nat)
    requires w.limit >= 1 && B.Timed(at, calls) && at <= now && OverBy(calls, now)
    requires B.Timed(at, calls + more) && OverBy(calls + more, now + 1000 * x)
    requires var g, h := AfterChecks(w, maxKeys, calls), AfterChecks(w, maxKeys, calls + more);
             key !in g.evicted && key !in h.evicted && B.ListOf(h.log, key) == B.ListOf(g.log, key)
             && Answer(g.table, w, key, now).Refuse?
    ensures var refusal := Answer(AfterChecks(w, maxKeys, calls).table, w, key, now);
            && refusal.wait.Seconds?
            && (Answer(AfterChecks(w, maxKeys, calls + more).table, w, key, now + 1000 * x).Accept? <==> x >= refusal.wait.n)
  {
    hide AfterChecks, Answer;
    var hits := B.ListOf(AfterChecks(w, maxKeys, calls).log, key);
    LimiterFollowsTheLog(w, maxKeys, at, calls, key, now, now);
    LimiterFollowsTheLog(w, maxKeys, at, calls + more, key, now + 1000 * x, now);
    InWindowIsAfter(hits, w, now);
    RetryAfterIsExact(hits, [w], now, x);
  }

  // The purge stops at the first live key, so it leaves no idle key behind exactly when no idle
  // key is queued after a live one.
  lemma PurgeIsCompleteWhen(t: Table, windowStart: int)
    ensures (forall i :: 0 <= i < |Purged(t, windowStart)| ==> Live(Purged(t, windowStart)[i], windowStart))
            <==> forall i, j :: 0 <= i < j < |t| && Live(t[i], windowStart) ==> Live(t[j], windowStart)
  {
    var n := PurgeCount(t, windowStart);
    PurgeCountFacts(t, windowStart);
    PurgeStopsAtLive(t, windowStart);
    assert forall i :: n <= i < |t| ==> t[i] == Purged(t, windowStart)[i - n];
  }

  lemma {:induction false} PurgeStopsAtLive(t: Table, windowStart: int)
    ensures PurgeCount(t, windowStart) < |t| ==> Live(t[PurgeCount(t, windowStart)], windowStart)
  {
    if t != [] && !Live(t[0], windowStart) {
      PurgeStopsAtLive(t[1..], windowStart);
    }
  }

  // A refusal queues its key behind the younger ones.
  lemma RefusedGoesLast(a: Entry, b: Entry, w: BudgetWindow, maxKeys: nat, now: int)
    requires a.key != b.key && Live(a, now - w.windowMs)
    requires After(a.hits, now - w.windowMs) == a.hits && |a.hits| >= w.limit >= 1
    ensures Answer([a, b], w, a.key, now).Refuse? && Checked([a, b], w, maxKeys, a.key, now) == [b, a]
  {
    var t, hits := [a, b], a.hits;
    assert t[1..] == [b] && t[1..][1..] == [];
    assert Purged(t, now - w.windowMs) == t;
    assert Recent(t, w, a.key, now) == hits;
    assert Without(t, a.key) == Without([b], a.key) == [b];
    assert Moved(t, w, a.key, now) == [b] + [a] == [b, a];
  }
}
