/**
 The per-reader budget store (reader-budgets.ts): in-place pruning, an hourly horizon and a
 periodic sweep. Main results: over every run the pruning store answers exactly as a log that
 never drops a hit, so every window holds at most its limit at every instant, and a refusal's
 Retry-After is exact.
 */
module Budgets {
  import opened Prelude
  import opened Windows

  const MAX_HORIZON_MS := 3_600_000
  const SWEEP_EVERY_MS := 60_000

  type Hits = map<string, seq<int>>

  /** `lastSweep` is None before the first sweep (the program's minus infinity). */
  datatype Store = Store(hits: Hits, lastSweep: Option<int>)

  function ListOf(hits: Hits, key: string): seq<int> {
    if key in hits then hits[key] else []
  }

  // ---------------------------------------------------------------- one call, on values

  function Swept(hits: Hits, cut: int): Hits {
    map key | key in hits && After(hits[key], cut) != [] :: After(hits[key], cut)
  }

  function SweepStep(s: Store, now: int): Store {
    if s.lastSweep.Some? && now - s.lastSweep.value < SWEEP_EVERY_MS then s
    else Store(Swept(s.hits, now - MAX_HORIZON_MS), Some(now))
  }

  function Kept(hits: Hits, key: string, list: seq<int>): Hits {
    if list == [] then hits - {key} else hits[key := list]
  }

  function DecisionOf(s: Store, key: string, windows: seq<BudgetWindow>, now: int): Decision {
    Verdict(After(ListOf(SweepStep(s, now).hits, key), now - Horizon(windows)), windows, now)
  }

  function Decided(s: Store, key: string, windows: seq<BudgetWindow>, now: int, record: bool): Store {
    var swept := SweepStep(s, now);
    var seen := After(ListOf(swept.hits, key), now - Horizon(windows));
    if Verdict(seen, windows, now).Refuse? then swept.(hits := Kept(swept.hits, key, seen))
    else if record then swept.(hits := swept.hits[key := seen + [now]])
    else swept
  }

  // ---------------------------------------------------------------- the object

  class BudgetStore {
    var hits: Hits
    var lastSweep: Option<int>

    ghost function Value(): Store
      reads this
    {
      Store(hits, lastSweep)
    }

    constructor ()
      ensures Value() == Store(map[], None)
    {
      hits, lastSweep := map[], None;
    }

    method Sweep(now: int)
      modifies this
      ensures Value() == SweepStep(old(Value()), now)
    {
      if lastSweep.Some? && now - lastSweep.value < SWEEP_EVERY_MS {
        return;
      }
      lastSweep := Some(now);
      ghost var was := hits;
      var cut := now - MAX_HORIZON_MS;
      var todo := hits.Keys;
      while todo != {}
        invariant todo <= was.Keys && lastSweep == Some(now)
        invariant forall key :: key in todo ==> key in hits && hits[key] == was[key]
        invariant forall key :: key !in todo ==> Get(hits, key) == Get(Swept(was, cut), key)
        decreases |todo|
      {
        var key :| key in todo;
        var live := After(hits[key], cut);
        if live == [] {
          hits := hits - {key};
        } else if |live| != |hits[key]| {
          hits := hits[key := live];
        } else {
          AfterSameLength(hits[key], cut);
        }
        todo := todo - {key};
      }
      SameMap(hits, Swept(was, cut));
    }

    // The loop of `decide` over the windows.
    static method RetryAfter(seen: seq<int>, windows: seq<BudgetWindow>, now: int) returns (wait: Wait)
      ensures wait == LongestWait(seen, windows, now)
    {
      wait := Seconds(0);
      for i := 0 to |windows|
        invariant wait == LongestWait(seen, windows[..i], now)
      {
        var w := windows[i];
        var inWindow := After(seen, now - w.windowMs);
        OneWindowMore(seen, windows, i, now);
        if |inWindow| >= w.limit {
          wait := LongerOf(wait,
                           if inWindow == [] then Forever
                           else Seconds(CeilSeconds(Minimum(inWindow) + w.windowMs - now)));
        }
      }
      assert windows[..|windows|] == windows;
    }

    method Decide(key: string, windows: seq<BudgetWindow>, now: int, record: bool) returns (r: Decision)
      modifies this
      ensures r == DecisionOf(old(Value()), key, windows, now)
      ensures Value() == Decided(old(Value()), key, windows, now, record)
    {
      Sweep(now);
      var horizon := Horizon(windows);
      var seen := After(if key in hits then hits[key] else [], now - horizon);
      var wait := RetryAfter(seen, windows, now);
      WaitsAreNatural(seen, windows, now);
      if wait != Seconds(0) {
        hits := if seen != [] then hits[key := seen] else hits - {key};
        r := Refuse(LongerOf(wait, Seconds(1)));
      } else {
        if record {
          seen := seen + [now];
          hits := hits[key := seen];
        }
        r := Accept;
      }
    }

    method Check(key: string, windows: seq<BudgetWindow>, now: int) returns (r: Decision)
      modifies this
      ensures r == DecisionOf(old(Value()), key, windows, now)
      ensures Value() == Decided(old(Value()), key, windows, now, false)
    {
      r := Decide(key, windows, now, false);
    }

    method Consume(key: string, windows: seq<BudgetWindow>, now: int) returns (r: Decision)
      modifies this
      ensures r == DecisionOf(old(Value()), key, windows, now)
      ensures Value() == Decided(old(Value()), key, windows, now, true)
    {
      r := Decide(key, windows, now, true);
    }
  }

  // One more turn of the loop over the windows; a window with room asks for nothing.
  lemma OneWindowMore(seen: seq<int>, windows: seq<BudgetWindow>, i: nat, now: int)
    requires i < |windows|
    ensures LongestWait(seen, windows[..i + 1], now)
         == LongerOf(LongestWait(seen, windows[..i], now), WaitOf(seen, windows[i], now))
    ensures LongerOf(LongestWait(seen, windows[..i], now), Seconds(0)) == LongestWait(seen, windows[..i], now)
  {
    assert windows[..i + 1][..i] == windows[..i];
    WaitsAreNatural(seen, windows[..i], now);
  }

  lemma SameMap(a: Hits, b: Hits)
    requires forall key :: Get(a, key) == Get(b, key)
    ensures a == b
  {
    forall key
      ensures key in a <==> key in b
      ensures key in a && key in b ==> a[key] == b[key]
    {
      assert Get(a, key) == Get(b, key);
    }
  }

  // ---------------------------------------------------------------- runs, and the log

  /** One `check` or `consume` call. */
  datatype Call = Call(key: string, now: int, record: bool)

  /** One fixed list of windows for each key, none longer than the store remembers. */
  type Plan = string -> seq<BudgetWindow>

  ghost predicate Remembered(plan: Plan) {
    forall key :: Horizon(plan(key)) <= MAX_HORIZON_MS
  }

  predicate Timed(at: int, calls: seq<Call>)
    decreases |calls|
  {
    calls == [] || (at <= calls[0].now && Timed(calls[0].now, calls[1..]))
  }

  function StoreStep(s: Store, plan: Plan, c: Call): Store {
    Decided(s, c.key, plan(c.key), c.now, c.record)
  }

  /** The reference: keep every recorded hit for ever and look at all of them. */
  function LogDecision(log: Hits, plan: Plan, c: Call): Decision {
    Verdict(ListOf(log, c.key), plan(c.key), c.now)
  }

  function LogStep(log: Hits, plan: Plan, c: Call): Hits {
    if c.record && LogDecision(log, plan, c).Accept? then log[c.key := ListOf(log, c.key) + [c.now]] else log
  }

  function Answers(s: Store, plan: Plan, calls: seq<Call>): (r: seq<Decision>)
    ensures |r| == |calls|
    decreases |calls|
  {
    if calls == [] then []
    else [DecisionOf(s, calls[0].key, plan(calls[0].key), calls[0].now)]
         + Answers(StoreStep(s, plan, calls[0]), plan, calls[1..])
  }

  function LogAnswers(log: Hits, plan: Plan, calls: seq<Call>): (r: seq<Decision>)
    ensures |r| == |calls|
    decreases |calls|
  {
    if calls == [] then []
    else [LogDecision(log, plan, calls[0])] + LogAnswers(LogStep(log, plan, calls[0]), plan, calls[1..])
  }

  function LogAfter(log: Hits, plan: Plan, calls: seq<Call>): Hits
    decreases |calls|
  {
    if calls == [] then log else LogAfter(LogStep(log, plan, calls[0]), plan, calls[1..])
  }

  // ---------------------------------------------------------------- the sweep

  /** The key has a hit later than that. */
  ghost predicate HitSince(hits: Hits, key: string, cut: int) {
    key in hits && exists h :: h in hits[key] && h > cut
  }

  /** The hits of a list later than that, and no more of them. */
  ghost predicate RestOf(rest: seq<int>, list: seq<int>, cut: int) {
    |rest| <= |list| && forall h :: h in rest <==> h in list && h > cut
  }

  // Never sooner than a minute after the last one, a sweep leaves exactly the hits of the last hour and
  // the keys that have one.
  lemma SweepExactly(s: Store, now: int)
    ensures var t := SweepStep(s, now);
      if s.lastSweep.Some? && now < s.lastSweep.value + 60000 then t == s
      else
        && t.lastSweep == Some(now)
        && (forall key :: key in t.hits <==> HitSince(s.hits, key, now - 3600000))
        && (forall key :: key in t.hits ==> RestOf(t.hits[key], s.hits[key], now - 3600000))
  {
    forall key | key in s.hits
      ensures After(s.hits[key], now - 3600000) != [] <==> HitSince(s.hits, key, now - 3600000)
      ensures RestOf(After(s.hits[key], now - 3600000), s.hits[key], now - 3600000)
    {
      KeyIsSwept(s.hits, key, now - 3600000);
      AfterFacts(s.hits[key], now - 3600000);
    }
    hide HitSince, RestOf;
  }

  lemma KeyIsSwept(hits: Hits, key: string, cut: int)
    requires key in hits
    ensures After(hits[key], cut) != [] <==> HitSince(hits, key, cut)
  {
    var kept := After(hits[key], cut);
    AfterFacts(hits[key], cut);
    if kept != [] {
      assert kept[0] in kept;
      assert kept[0] in hits[key] && kept[0] > cut;
    }
    if HitSince(hits, key, cut) {
      var h :| h in hits[key] && h > cut;
      assert h in kept;
    }
  }

  function StoreAfter(s: Store, plan: Plan, calls: seq<Call>): Store
    decreases |calls|
  {
    if calls == [] then s else StoreAfter(StoreStep(s, plan, calls[0]), plan, calls[1..])
  }

  lemma CallKeepsSwept(s: Store, plan: Plan, c: Call)
    requires s.lastSweep.Some? ==> s.lastSweep.value <= c.now
    requires forall key :: key in s.hits ==> s.lastSweep.Some? && HitSince(s.hits, key, s.lastSweep.value - 3600000)
    ensures var t := StoreStep(s, plan, c);
      && t.lastSweep.Some? && t.lastSweep.value <= c.now < t.lastSweep.value + 60000
      && forall key :: key in t.hits ==> HitSince(t.hits, key, t.lastSweep.value - 3600000)
  {
    SweepExactly(s, c.now);
    var swept, t := SweepStep(s, c.now), StoreStep(s, plan, c);
    var cut := swept.lastSweep.value - 3600000;
    var from := c.now - Horizon(plan(c.key));
    var list := ListOf(swept.hits, c.key);
    var seen := After(list, from);
    AfterFacts(list, from);
    hide SweepStep, After;
    forall key | key in t.hits
      ensures HitSince(t.hits, key, cut)
    {
      if key == c.key && t.hits[key] == seen + [c.now] {
        assert c.now in t.hits[key];
      } else if key == c.key && t.hits[key] == seen && seen != [] {
        var h :| h in list && h > cut;
        assert (if h > from then h else seen[0]) in seen;
      } else {
        assert key in swept.hits && t.hits[key] == swept.hits[key];
      }
    }
  }

  /** The instant of the last call. */
  function LastCall(at: int, calls: seq<Call>): int {
    if calls == [] then at else calls[|calls| - 1].now
  }

  lemma {:induction false} SweptThroughout(s: Store, plan: Plan, at: int, calls: seq<Call>)
    requires Timed(at, calls) && s.lastSweep.Some? && s.lastSweep.value <= at < s.lastSweep.value + 60000
    requires forall key :: key in s.hits ==> HitSince(s.hits, key, s.lastSweep.value - 3600000)
    ensures var t := StoreAfter(s, plan, calls);
      forall key :: key in t.hits ==> HitSince(t.hits, key, LastCall(at, calls) - 3660000)
    decreases |calls|
  {
    if calls != [] {
      var c := calls[0];
      CallKeepsSwept(s, plan, c);
      var mid := StoreStep(s, plan, c);
      SweptThroughout(mid, plan, c.now, calls[1..]);
      assert LastCall(at, calls) == LastCall(c.now, calls[1..]);
      assert StoreAfter(s, plan, calls) == StoreAfter(mid, plan, calls[1..]);
      forall key | key in StoreAfter(s, plan, calls).hits
        ensures HitSince(StoreAfter(s, plan, calls).hits, key, LastCall(at, calls) - 3660000)
      {
        assert HitSince(StoreAfter(mid, plan, calls[1..]).hits, key, LastCall(c.now, calls[1..]) - 3660000);
      }
    } else {
      forall key | key in s.hits
        ensures HitSince(s.hits, key, at - 3660000)
      {
        var h :| h in s.hits[key] && h > s.lastSweep.value - 3600000;
        assert h > at - 3660000;
      }
    }
  }

  // The store forgets readers: after every run each tracked key has a hit of the last hour and a minute.
  lemma KeysStayRecent(plan: Plan, at: int, calls: seq<Call>, key: string)
    requires Timed(at, calls)
    requires key in StoreAfter(Store(map[], None), plan, calls).hits
    ensures HitSince(StoreAfter(Store(map[], None), plan, calls).hits, key, LastCall(at, calls) - 3660000)
  {
    var s := Store(map[], None);
    assert StoreAfter(s, plan, []) == s;
    if calls != [] {
      var c := calls[0];
      CallKeepsSwept(s, plan, c);
      SweptThroughout(StoreStep(s, plan, c), plan, c.now, calls[1..]);
      assert LastCall(at, calls) == LastCall(c.now, calls[1..]);
      assert StoreAfter(s, plan, calls) == StoreAfter(StoreStep(s, plan, c), plan, calls[1..]);
      hide HitSince;
    }
  }

  // ---------------------------------------------------------------- refinement

  ghost predicate Refines(s: Store, log: Hits, plan: Plan, now: int) {
    forall key :: Agree(ListOf(s.hits, key), ListOf(log, key), now, Horizon(plan(key)))
  }

  lemma SweptList(s: Store, key: string, now: int)
    ensures ListOf(SweepStep(s, now).hits, key) == ListOf(s.hits, key)
            || ListOf(SweepStep(s, now).hits, key) == After(ListOf(s.hits, key), now - MAX_HORIZON_MS)
  {
  }

  lemma SweepIsInvisible(s: Store, log: Hits, plan: Plan, at: int, now: int, key: string)
    requires Refines(s, log, plan, at) && at <= now && Remembered(plan)
    ensures Agree(ListOf(SweepStep(s, now).hits, key), ListOf(log, key), now, Horizon(plan(key)))
  {
    var h := Horizon(plan(key));
    AgreeLater(ListOf(s.hits, key), ListOf(log, key), at, now, h);
    SweptList(s, key, now);
    AgreePruned(ListOf(s.hits, key), ListOf(log, key), now, h, now - MAX_HORIZON_MS);
  }

  // One call answers as the log does, and leaves a store that still agrees with the log.
  lemma CallRefines(s: Store, log: Hits, plan: Plan, at: int, c: Call)
    requires Refines(s, log, plan, at) && at <= c.now && Remembered(plan)
    ensures DecisionOf(s, c.key, plan(c.key), c.now) == LogDecision(log, plan, c)
    ensures Refines(StoreStep(s, plan, c), LogStep(log, plan, c), plan, c.now)
  {
    var swept, t, log' := SweepStep(s, c.now), StoreStep(s, plan, c), LogStep(log, plan, c);
    var windows := plan(c.key);
    var h := Horizon(windows);
    var list, full := ListOf(swept.hits, c.key), ListOf(log, c.key);
    var seen := After(list, c.now - h);
    SweepIsInvisible(s, log, plan, at, c.now, c.key);
    AgreePruned(list, full, c.now, h, c.now - h);
    AgreeOnWait(seen, full, windows, c.now, h);
    AgreeRecorded(seen, full, c.now, h);
    forall key
      ensures Agree(ListOf(t.hits, key), ListOf(log', key), c.now, Horizon(plan(key)))
    {
      if key != c.key {
        SweepIsInvisible(s, log, plan, at, c.now, key);
        assert ListOf(t.hits, key) == ListOf(swept.hits, key) && ListOf(log', key) == ListOf(log, key);
      }
    }
  }

  // The pruning store is indistinguishable from the log over every run.
  lemma {:induction false} AnswersAreTheLogs(s: Store, log: Hits, plan: Plan, at: int, calls: seq<Call>)
    requires Refines(s, log, plan, at) && Remembered(plan) && Timed(at, calls)
    ensures Answers(s, plan, calls) == LogAnswers(log, plan, calls)
    decreases |calls|
  {
    if calls != [] {
      CallRefines(s, log, plan, at, calls[0]);
      AnswersAreTheLogs(StoreStep(s, plan, calls[0]), LogStep(log, plan, calls[0]), plan, calls[0].now, calls[1..]);
    }
  }

  lemma StoreAnswersAsLog(plan: Plan, at: int, calls: seq<Call>)
    requires Remembered(plan) && Timed(at, calls)
    ensures Answers(Store(map[], None), plan, calls) == LogAnswers(map[], plan, calls)
  {
    forall key
      ensures Agree([], [], at, Horizon(plan(key)))
    {
      AgreeWithItself([], at, Horizon(plan(key)));
    }
    AnswersAreTheLogs(Store(map[], None), map[], plan, at, calls);
  }

  ghost predicate Faithful(plan: Plan) {
    forall at, calls :: Timed(at, calls) ==>
      Answers(Store(map[], None), plan, calls) == LogAnswers(map[], plan, calls)
  }

  // The horizon is tight: one window is served faithfully on all runs exactly when it is not longer
  // than the hour the store remembers, or lets nothing through anyway.
  lemma HorizonIsTight(w: BudgetWindow)
    ensures Faithful((key: string) => [w]) <==> w.windowMs <= MAX_HORIZON_MS || w.limit <= 0
  {
    var plan: Plan := (key: string) => [w];
    if w.windowMs <= MAX_HORIZON_MS {
      assert Horizon([w]) == Max(Horizon([w][..0]), w.windowMs);
      forall at, calls | Timed(at, calls)
        ensures Answers(Store(map[], None), plan, calls) == LogAnswers(map[], plan, calls)
      {
        StoreAnswersAsLog(plan, at, calls);
      }
    } else if w.limit <= 0 {
      forall at, calls | Timed(at, calls)
        ensures Answers(Store(map[], None), plan, calls) == LogAnswers(map[], plan, calls)
      {
        NothingIsAccepted(w, None, calls);
      }
    } else {
      LongWindowForgets(w);
      assert !Faithful(plan);
    }
  }

  lemma {:induction false} NothingIsAccepted(w: BudgetWindow, lastSweep: Option<int>, calls: seq<Call>)
    requires w.limit <= 0
    ensures Answers(Store(map[], lastSweep), (key: string) => [w], calls) == LogAnswers(map[], (key: string) => [w], calls)
    decreases |calls|
  {
    if calls != [] {
      var c, plan, s := calls[0], (key: string) => [w], Store(map[], lastSweep);
      OneWindowVerdict([], w, c.now);
      assert SweepStep(s, c.now).hits == map[];
      assert StoreStep(s, plan, c).hits == map[];
      NothingIsAccepted(w, StoreStep(s, plan, c).lastSweep, calls[1..]);
    }
  }

  function Zeros(n: nat): seq<int> {
    seq(n, _ => 0)
  }

  /** The same key, n times at once. */
  function Burst(key: string, n: nat): seq<Call> {
    seq(n, _ => Call(key, 0, true))
  }

  // As many hits as the window allows, all at once; when the hour is over the sweep has dropped them,
  // though a longer window still counts them.
  lemma LongWindowForgets(w: BudgetWindow)
    requires w.limit >= 1 && w.windowMs > MAX_HORIZON_MS
    ensures var plan: Plan := (key: string) => [w];
            var calls := Burst("k", w.limit) + [Call("k", MAX_HORIZON_MS, true)];
            Timed(0, calls) && Answers(Store(map[], None), plan, calls) != LogAnswers(map[], plan, calls)
  {
    var plan: Plan := (key: string) => [w];
    var last, first := Call("k", MAX_HORIZON_MS, true), Call("k", 0, true);
    var rest := Burst("k", w.limit - 1) + [last];
    var calls := Burst("k", w.limit) + [last];
    assert calls == [first] + rest;
    BurstIsTimed(w.limit);
    OneWindowVerdict([], w, 0);
    assert SweepStep(Store(map[], None), 0) == Store(map[], Some(0));
    assert [] + [0] == Zeros(1);
    assert StoreStep(Store(map[], None), plan, first) == Store(map["k" := Zeros(1)], Some(0));
    assert LogStep(map[], plan, first) == map["k" := Zeros(1)];
    BurstFills(w, 1, w.limit - 1);
    Later(Store(map[], None), map[], plan, first, rest, w.limit - 1);
  }

  lemma {:induction false} BurstIsTimed(n: nat)
    ensures Timed(0, Burst("k", n) + [Call("k", MAX_HORIZON_MS, true)])
  {
    var calls := Burst("k", n) + [Call("k", MAX_HORIZON_MS, true)];
    if n == 0 {
      assert calls[1..] == [];
    } else {
      assert calls[1..] == Burst("k", n - 1) + [Call("k", MAX_HORIZON_MS, true)];
      BurstIsTimed(n - 1);
    }
  }

  // With m of its hits in store and log, n more fill the window; then the two part.
  lemma {:induction false} BurstFills(w: BudgetWindow, m: nat, n: nat)
    requires 1 <= m && m + n == w.limit && w.windowMs > MAX_HORIZON_MS
    ensures var plan: Plan := (key: string) => [w];
            var calls := Burst("k", n) + [Call("k", MAX_HORIZON_MS, true)];
            && |calls| == n + 1
            && Answers(Store(map["k" := Zeros(m)], Some(0)), plan, calls)[n].Accept?
            && LogAnswers(map["k" := Zeros(m)], plan, calls)[n].Refuse?
    decreases n
  {
    hide StoreStep, LogStep, DecisionOf, LogDecision, Zeros, Burst;
    var plan: Plan := (key: string) => [w];
    var last := Call("k", MAX_HORIZON_MS, true);
    BurstUnfolds("k", n, last);
    if n == 0 {
      TheyPart(w);
    } else {
      FillsOne(w, m);
      BurstFills(w, m + 1, n - 1);
      Later(Store(map["k" := Zeros(m)], Some(0)), map["k" := Zeros(m)], plan, Call("k", 0, true), Burst("k", n - 1) + [last], n - 1);
      hide *;
    }
  }

  lemma BurstUnfolds(key: string, n: nat, last: Call)
    ensures Burst(key, n) + [last] == if n == 0 then [last] else [Call(key, 0, true)] + (Burst(key, n - 1) + [last])
    ensures |Burst(key, n)| == n
  {
  }

  lemma Later(s: Store, log: Hits, plan: Plan, c: Call, calls: seq<Call>, n: nat)
    requires n < |calls|
    ensures Answers(s, plan, [c] + calls)[n + 1] == Answers(StoreStep(s, plan, c), plan, calls)[n]
    ensures LogAnswers(log, plan, [c] + calls)[n + 1] == LogAnswers(LogStep(log, plan, c), plan, calls)[n]
  {
    hide StoreStep, LogStep, DecisionOf, LogDecision;
    assert ([c] + calls)[1..] == calls;
  }

  // An hour later the store has nothing left to count, the log still has it all.
  lemma TheyPart(w: BudgetWindow)
    requires w.limit >= 1 && w.windowMs > MAX_HORIZON_MS
    ensures DecisionOf(Store(map["k" := Zeros(w.limit)], Some(0)), "k", [w], MAX_HORIZON_MS).Accept?
    ensures LogDecision(map["k" := Zeros(w.limit)], (key: string) => [w], Call("k", MAX_HORIZON_MS, true)).Refuse?
  {
    var s, now := Store(map["k" := Zeros(w.limit)], Some(0)), MAX_HORIZON_MS;
    AfterNone(Zeros(w.limit), 0);
    assert SweepStep(s, now).hits == map[];
    OneWindowVerdict([], w, now);
    AfterAll(Zeros(w.limit), now - w.windowMs);
    OneWindowVerdict(Zeros(w.limit), w, now);
  }

  lemma FillsOne(w: BudgetWindow, m: nat)
    requires 1 <= m < w.limit && w.windowMs > 0
    ensures var plan: Plan := (key: string) => [w];
            && StoreStep(Store(map["k" := Zeros(m)], Some(0)), plan, Call("k", 0, true)) == Store(map["k" := Zeros(m + 1)], Some(0))
            && LogStep(map["k" := Zeros(m)], plan, Call("k", 0, true)) == map["k" := Zeros(m + 1)]
  {
    var s := Store(map["k" := Zeros(m)], Some(0));
    assert Horizon([w]) == Max(Horizon([w][..0]), w.windowMs);
    assert SweepStep(s, 0) == s;
    AfterAll(Zeros(m), 0 - w.windowMs);
    OneWindowVerdict(Zeros(m), w, 0);
    assert Zeros(m) + [0] == Zeros(m + 1);
  }

  lemma OneWindow(hits: seq<int>, w: BudgetWindow, now: int)
    ensures LongestWait(hits, [w], now) == LongerOf(Seconds(0), WaitOf(hits, w, now))
  {
    assert [w][..0] == [];
  }

  // The verdict of a single window on hits already pruned to it.
  lemma OneWindowVerdict(list: seq<int>, w: BudgetWindow, now: int)
    ensures var hits := After(list, now - w.windowMs);
            && (|hits| < w.limit <==> Verdict(hits, [w], now) == Accept)
            && (|hits| >= w.limit && hits == [] ==> Verdict(hits, [w], now) == Refuse(Forever))
            && (|hits| >= w.limit && hits != [] ==>
                  var wait := CeilSeconds(Minimum(hits) + w.windowMs - now);
                  wait >= 1 && Verdict(hits, [w], now) == Refuse(Seconds(wait)))
  {
    var hits := After(list, now - w.windowMs);
    AfterAfter(list, now - w.windowMs, now - w.windowMs);
    OneWindow(hits, w, now);
    WindowWaitIsNatural(hits, w, now);
    if hits != [] {
      MinimumFacts(hits);
      AfterFacts(list, now - w.windowMs);
    }
  }

  // ---------------------------------------------------------------- the cap

  ghost predicate WellLogged(log: Hits, plan: Plan, at: int) {
    forall key :: && Ordered(ListOf(log, key)) && UpTo(ListOf(log, key), at)
                  && forall k :: 0 <= k < |plan(key)| ==> Capped(ListOf(log, key), plan(key)[k])
  }

  lemma LogStepKeeps(log: Hits, plan: Plan, at: int, c: Call)
    requires WellLogged(log, plan, at) && at <= c.now
    ensures WellLogged(LogStep(log, plan, c), plan, c.now)
  {
    var log', list := LogStep(log, plan, c), ListOf(log, c.key);
    forall key
      ensures Ordered(ListOf(log', key)) && UpTo(ListOf(log', key), c.now)
      ensures forall k :: 0 <= k < |plan(key)| ==> Capped(ListOf(log', key), plan(key)[k])
    {
      if key == c.key && log' != log {
        forall k | 0 <= k < |plan(key)|
          ensures Capped(ListOf(log', key), plan(key)[k])
        {
          CappedGrows(list, plan(key), c.now, k);
        }
      } else {
        assert ListOf(log', key) == ListOf(log, key);
      }
    }
  }

  lemma {:induction false} LogStaysWell(log: Hits, plan: Plan, at: int, calls: seq<Call>) returns (end: int)
    requires WellLogged(log, plan, at) && Timed(at, calls)
    ensures WellLogged(LogAfter(log, plan, calls), plan, end)
    ensures end == if calls == [] then at else calls[|calls| - 1].now
    decreases |calls|
  {
    end := at;
    if calls != [] {
      LogStepKeeps(log, plan, at, calls[0]);
      end := LogStaysWell(LogStep(log, plan, calls[0]), plan, calls[0].now, calls[1..]);
    }
  }

  // At every instant, every window of every key holds at most its limit of recorded hits.
  lemma BudgetsHold(plan: Plan, at: int, calls: seq<Call>, key: string, k: nat, t: int)
    requires Timed(at, calls) && k < |plan(key)| && plan(key)[k].limit >= 0
    ensures InWindow(ListOf(LogAfter(map[], plan, calls), key), plan(key)[k], t) <= plan(key)[k].limit
  {
    var end := LogStaysWell(map[], plan, at, calls);
    CappedAtEveryInstant(ListOf(LogAfter(map[], plan, calls), key), plan(key)[k], t);
  }

  // ---------------------------------------------------------------- Retry-After

  lemma {:induction false} AnswerAt(log: Hits, plan: Plan, a: seq<Call>, c: Call, b: seq<Call>)
    ensures LogAnswers(log, plan, a + [c] + b)[|a|] == LogDecision(LogAfter(log, plan, a), plan, c)
    decreases |a|
  {
    hide LogStep, LogDecision;
    var calls := a + [c] + b;
    if a == [] {
      assert calls[0] == c;
    } else {
      assert calls[0] == a[0] && calls[1..] == a[1..] + [c] + b;
      AnswerAt(LogStep(log, plan, a[0]), plan, a[1..], c, b);
    }
  }

  lemma {:induction false} TimedSplits(at: int, a: seq<Call>, b: seq<Call>)
    requires Timed(at, a + b)
    ensures Timed(at, a)
    ensures b != [] && a != [] ==> a[|a| - 1].now <= b[0].now
    ensures b != [] ==> at <= b[0].now
    decreases |a|
  {
    if a == [] {
      assert a + b == b;
    } else {
      assert (a + b)[0] == a[0] && (a + b)[1..] == a[1..] + b;
      TimedSplits(a[0].now, a[1..], b);
    }
  }

  // A log capped for its windows is never over any of them.
  lemma CappedNow(log: seq<int>, w: BudgetWindow, now: int)
    requires Ordered(log) && UpTo(log, now) && Capped(log, w) && w.limit >= 0
    ensures |After(log, now - w.windowMs)| <= w.limit
  {
    CappedAtEveryInstant(log, w, now);
    InWindowIsAfter(log, w, now);
  }

  // When a call arrives, no window of its key holds more than its limit.
  lemma WindowsAreNotOver(plan: Plan, at: int, before: seq<Call>, c: Call, rest: seq<Call>)
    requires Timed(at, before + [c] + rest)
    ensures var hits := ListOf(LogAfter(map[], plan, before), c.key);
            && Ordered(hits) && UpTo(hits, c.now)
            && forall k :: 0 <= k < |plan(c.key)| && plan(c.key)[k].limit >= 0 ==>
                 |After(hits, c.now - plan(c.key)[k].windowMs)| <= plan(c.key)[k].limit
  {
    assert before + [c] + rest == before + ([c] + rest);
    TimedSplits(at, before, [c] + rest);
    var end := LogStaysWell(map[], plan, at, before);
    var hits, windows := ListOf(LogAfter(map[], plan, before), c.key), plan(c.key);
    forall k | 0 <= k < |windows| && windows[k].limit >= 0
      ensures |After(hits, c.now - windows[k].windowMs)| <= windows[k].limit
    {
      CappedNow(hits, windows[k], c.now);
    }
  }

  /** `again` asks for the same key x seconds after `refused`, and no hit was recorded for it between. */
  ghost predicate AsksAgain(plan: Plan, before: seq<Call>, refused: Call, between: seq<Call>, again: Call, x: nat) {
    && again.key == refused.key && again.now == refused.now + 1000 * x
    && (forall k :: 0 <= k < |plan(refused.key)| ==> plan(refused.key)[k].limit >= 1)
    && ListOf(LogAfter(map[], plan, before + [refused] + between), again.key)
       == ListOf(LogAfter(map[], plan, before), again.key)
  }

  lemma LogRetryAfter(plan: Plan, at: int, before: seq<Call>, refused: Call, between: seq<Call>, again: Call, x: nat)
    requires Timed(at, before + [refused] + between + [again])
    requires AsksAgain(plan, before, refused, between, again, x)
    requires LogAnswers(map[], plan, before + [refused] + between + [again])[|before|].Refuse?
    ensures var answers := LogAnswers(map[], plan, before + [refused] + between + [again]);
            && answers[|before|].wait.Seconds?
            && (answers[|before| + 1 + |between|].Accept? <==> x >= answers[|before|].wait.n)
  {
    var prefix := before + [refused] + between;
    var calls, windows := prefix + [again], plan(refused.key);
    var hits := ListOf(LogAfter(map[], plan, before), refused.key);
    assert calls == before + [refused] + (between + [again]) && calls == prefix + [again] + [];
    AnswerAt(map[], plan, before, refused, between + [again]);
    AnswerAt(map[], plan, prefix, again, []);
    WindowsAreNotOver(plan, at, before, refused, between + [again]);
    RetryAfterIsExact(hits, windows, refused.now, x);
  }

  /**
   `refused` is answered with a wait of n seconds; x whole seconds later the same key asks again
   and, in between, no hit was recorded for it, though anything else may have happened: the second
   call is accepted exactly when x is at least n.
   */
  lemma RetryAfterIsHonoured(
    plan: Plan, at: int, before: seq<Call>, refused: Call, between: seq<Call>, again: Call, x: nat)
    requires Remembered(plan) && Timed(at, before + [refused] + between + [again])
    requires AsksAgain(plan, before, refused, between, again, x)
    requires Answers(Store(map[], None), plan, before + [refused] + between + [again])[|before|].Refuse?
    ensures var answers := Answers(Store(map[], None), plan, before + [refused] + between + [again]);
            && answers[|before|].wait.Seconds?
            && (answers[|before| + 1 + |between|].Accept? <==> x >= answers[|before|].wait.n)
  {
    StoreAnswersAsLog(plan, at, before + [refused] + between + [again]);
    LogRetryAfter(plan, at, before, refused, between, again, x);
  }
}
