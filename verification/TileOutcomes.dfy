/**
 What one segment of a tile call does, over the tables of the proxy: which answers count as what,
 when a note, a copy, the breaker or an upstream decides, and what is asked next.
 */
module TileOutcomes {
  import opened Prelude
  import opened Machine
  import opened TileCache
  import opened TileProxy
  import opened TileRuns

  // ---------------------------------------------------------------- answers

  /** A day without a usable max-age, otherwise that many seconds, a week at most. */
  predicate Lasts(maxAge: Option<nat>, ms: int) {
    ms == if maxAge.None? || maxAge.value == 0 then 86400000
          else if maxAge.value > 604800 then 604800000 else maxAge.value * 1000
  }

  predicate Clamped(wanted: int, ms: int) {
    ms == if wanted < 1000 then 1000 else if wanted > 900000 then 900000 else wanted
  }

  /** A minute without a usable header, otherwise as long as it says, between a second and fifteen minutes. */
  predicate Pauses(header: RetryAfter, now: int, ms: int) {
    match header
    case Delta(s) => Clamped(s * 1000, ms)
    case Date(at) => Clamped(at - now, ms)
    case _ => ms == 60000
  }

  // What each upstream answer counts as.
  lemma ClassifiesExactly(r: Response, now: int)
    ensures var o := Classify(r, now);
      && (o.NotFound? <==> r.Response? && r.status == 404)
      && (o.NotModified? <==> r.Response? && r.status == 304)
      && (o.NotModified? ==> Lasts(r.maxAge, o.maxAgeMs))
      && (o.Throttled? <==> r.Response? && (r.status == 429 || r.status == 403 || r.status == 418))
      && (o.Throttled? ==> Pauses(r.retryAfter, now, o.retryAfterMs))
      && (o.Ok? <==> r.Response? && r.status == 200 && r.body.Some? && Image(r.body.value, r.contentType))
      && (o.Ok? ==> o.body == r.body.value && o.contentType == r.contentType && o.etag == r.etag && Lasts(r.maxAge, o.maxAgeMs))
  {
  }

  // ---------------------------------------------------------------- up to the first await

  /** The upstream a call asks first. */
  function Wanted(v: Visit): Upstream {
    match v.only
    case Some(u) => u
    case None => if v.tile.layer == Labels then Rncan else Quebec
  }

  ghost predicate NoteHolds(p: Proxy, v: Visit) {
    exists until :: Slot(MissKey(v.only, v.tile), until) in p.negative && until > v.started
  }

  /** The breaker keeps this call from asking. */
  predicate Shut(p: Proxy, v: Visit) {
    Wanted(v) == Osm && Osm in p.breaker && p.breaker[Osm] > v.started
  }

  /** The fewest whole seconds, at least one, that cover so many milliseconds. */
  predicate LeastSeconds(n: int, ms: int) {
    n >= 1 && 1000 * n >= ms && (n > 1 ==> 1000 * (n - 1) < ms)
  }

  /** The call waits for the fetch of that key: the one under way, or a new one that names its own copy. */
  predicate Awaits(p: Proxy, q: Proxy, v: Visit, key: EntryKey, loop: Loop, cached: Option<int>, etag: Option<string>, r: Progress) {
    && r.Waiting? && r.task == Task(v, loop, cached, r.task.fetch)
    && if key in p.inFlight then r.task.fetch == p.inFlight[key] && q.fetches == p.fetches && q.inFlight == p.inFlight
       else
         && r.task.fetch == |p.fetches| && q.fetches == p.fetches + [Fetch(key, etag, v.started, Running)]
         && q.inFlight == p.inFlight[key := |p.fetches|]
  }

  /** The copy at `ref` answers when it is fresh; otherwise its upstream is asked. */
  predicate FreshOrAsked(p: Proxy, q: Proxy, v: Visit, u: Upstream, loop: Loop, ref: int, r: Progress) {
    && 0 <= ref < |p.heap|
    && var e := p.heap[ref];
       if e.storedAt + e.maxAgeMs > v.started
       then r == Finished(TileReply(u, e.body, e.contentType), loop.outcomes) && q.fetches == p.fetches
       else Awaits(p, q, v, EntryKey(u, v.tile), loop, Some(ref), e.etag, r)
  }

  ghost predicate HasCopy(p: Proxy, key: EntryKey) {
    exists ref :: Slot(key, ref) in p.entries
  }

  /** The upstream of that place is reached: a fresh copy answers, otherwise its fetch is awaited. */
  ghost predicate Tried(p: Proxy, q: Proxy, v: Visit, u: Upstream, loop: Loop, r: Progress) {
    var key := EntryKey(u, v.tile);
    && (forall ref :: Slot(key, ref) in p.entries ==> FreshOrAsked(p, q, v, u, loop, ref, r))
    && (!HasCopy(p, key) ==> Awaits(p, q, v, key, loop, None, None, r))
  }

  /** The first segment of a call. */
  ghost predicate BeginsExactly(p: Proxy, v: Visit, q: Proxy, r: Progress) {
    var u := Wanted(v);
    var key := EntryKey(u, v.tile);
    if NoteHolds(p, v) then q == p && r == Finished(Missing, [])
    else if v.tile.layer == Labels && u != Rncan then q.fetches == p.fetches && r == Finished(Unavailable, [])
    else if Shut(p, v) then
      && q.fetches == p.fetches && q.breaker == p.breaker
      && (forall ref :: Slot(key, ref) in p.entries ==>
            0 <= ref < |p.heap| && r == Finished(TileReply(u, p.heap[ref].body, p.heap[ref].contentType), []))
      && (!HasCopy(p, key) ==>
            r.Finished? && r.outcomes == [] && r.reply.Busy? && LeastSeconds(r.reply.retryAfterSec, p.breaker[Osm] - v.started))
    else Tried(p, q, v, u, Loop(0, false, None, []), r)
  }

  lemma {:induction false} FindIsTheSlot<K(!new), V(!new)>(m: seq<Slot<K, V>>, key: K)
    requires Distinct(m)
    ensures forall x :: Slot(key, x) in m <==> Find(m, key) == Some(x)
  {
    FindFacts(m, key);
    if m != [] {
      FindIsTheSlot(m[1..], key);
      assert m == [m[0]] + m[1..];
      assert forall slot :: slot in m[1..] ==> slot.key != m[0].key;
    }
  }

  // An upstream that has a template and no closed breaker.
  lemma WalkTries(p: Proxy, lim: Limits, v: Visit, l: Loop, now: int)
    requires Proper(p.entries, |p.heap|) && l.at < |Order(v)|
    requires var u := Order(v)[l.at]; HasTemplate(u, v.tile.layer) && (u == Osm ==> !Shut(p, v) && v.only == Some(Osm))
    ensures var (q, r) := Walk(p, lim, v, l, now); Tried(p, q, v, Order(v)[l.at], l, r)
  {
    var key := EntryKey(Order(v)[l.at], v.tile);
    FindIsTheSlot(p.entries, key);
    ProperFind(p, key);
    hide Find, Renewed;
  }

  lemma ProperFind(p: Proxy, key: EntryKey)
    requires Proper(p.entries, |p.heap|)
    ensures Find(p.entries, key).Some? ==> 0 <= Find(p.entries, key).value < |p.heap|
  {
    FindFacts(p.entries, key);
  }

  lemma WalkIsShut(p: Proxy, lim: Limits, v: Visit, now: int)
    requires Proper(p.entries, |p.heap|) && Shut(p, v) && v.tile.layer == Base && v.only == Some(Osm) && now == v.started
    ensures var (q, r) := Walk(p, lim, v, Loop(0, false, None, []), now);
      var key := EntryKey(Osm, v.tile);
      && q.fetches == p.fetches && q.breaker == p.breaker
      && (forall ref :: Slot(key, ref) in p.entries ==>
            0 <= ref < |p.heap| && r == Finished(TileReply(Osm, p.heap[ref].body, p.heap[ref].contentType), []))
      && (!HasCopy(p, key) ==>
            r.Finished? && r.outcomes == [] && r.reply.Busy? && LeastSeconds(r.reply.retryAfterSec, p.breaker[Osm] - v.started))
  {
    var key := EntryKey(Osm, v.tile);
    FindIsTheSlot(p.entries, key);
    ProperFind(p, key);
    hide Find, Renewed;
  }

  // The first segment, over the tables.
  lemma StartsExactly(p: Proxy, lim: Limits, v: Visit)
    requires Proper(p.entries, |p.heap|) && Distinct(p.negative)
    ensures var (q, r) := Started(p, lim, v); BeginsExactly(p, v, q, r)
  {
    FindIsTheSlot(p.negative, MissOf(v));
    var p' := p.(negative := Without(p.negative, MissOf(v)));
    var l := Loop(0, false, None, []);
    if !NoteHolds(p, v) {
      assert Started(p, lim, v) == Walk(p', lim, v, l, v.started);
      if v.tile.layer == Labels && Wanted(v) != Rncan {
        assert Walk(p', lim, v, l, v.started) == Walk(p', lim, v, l.(at := 1), v.started);
      } else if Shut(p, v) {
        WalkIsShut(p', lim, v, v.started);
        hide Walk, Find, Without;
      } else {
        WalkTries(p', lim, v, l, v.started);
        hide Walk, Find, Without;
      }
    }
  }

  // ---------------------------------------------------------------- after an await

  /** The upstream that the call has waited for. */
  function Awaited(t: Task): Upstream {
    match t.visit.only
    case Some(u) => u
    case None => if t.visit.tile.layer == Labels || t.loop.at > 0 then Rncan else Quebec
  }

  /** The federal upstream is still to be tried. */
  predicate Falls(t: Task) {
    t.visit.only.None? && t.visit.tile.layer == Base && t.loop.at == 0
  }

  function Said(t: Task, outcome: Outcome): seq<Outcome> {
    t.loop.outcomes + [outcome]
  }

  /** The breaker of OSM after a throttle: never shortened, and nothing else moves. */
  predicate Raised(before: map<Upstream, int>, until: int, after: map<Upstream, int>) {
    var was := if Osm in before then before[Osm] else 0;
    && after.Keys == before.Keys + {Osm} && (forall u :: u in before && u != Osm ==> after[u] == before[u])
    && after[Osm] >= until && after[Osm] >= was && after[Osm] in {until, was}
  }

  /** The segment after an awaited answer. */
  ghost predicate GoesOnExactly(p: Proxy, t: Task, outcome: Outcome, now: int, q: Proxy, r: Progress) {
    var v, u := t.visit, Awaited(t);
    if outcome.Ok? then
      && r == Finished(TileReply(u, outcome.body, outcome.contentType), Said(t, outcome))
      && q.heap == p.heap + [CacheEntry(outcome.body, outcome.contentType, outcome.etag, now, outcome.maxAgeMs)]
      && q.evictions - p.evictions == |p.entries| + (if HasCopy(p, EntryKey(u, v.tile)) then 0 else 1) - |q.entries|
      && (forall slot :: slot in q.entries ==> slot == Slot(EntryKey(u, v.tile), |p.heap|) || (slot in p.entries && slot.key != EntryKey(u, v.tile)))
    else if outcome.NotModified? && t.cached.Some? then
      && 0 <= t.cached.value < |p.heap| && q.entries == p.entries
      && var e := p.heap[t.cached.value];
         && r == Finished(TileReply(u, e.body, e.contentType), Said(t, outcome))
         && q.heap == p.heap[t.cached.value := e.(storedAt := now, maxAgeMs := outcome.maxAgeMs)]
    else if outcome.Throttled? && u == Osm then
      && Raised(p.breaker, now + outcome.retryAfterMs, q.breaker)
      && q.entries == p.entries && q.heap == p.heap && q.fetches == p.fetches
      && (if t.cached.Some? then
            && 0 <= t.cached.value < |p.heap|
            && r == Finished(TileReply(Osm, p.heap[t.cached.value].body, p.heap[t.cached.value].contentType), Said(t, outcome))
          else
            && r.Finished? && r.outcomes == Said(t, outcome)
            && if NotFound in t.loop.outcomes then r.reply.Missing?
               else r.reply.Busy? && LeastSeconds(r.reply.retryAfterSec, outcome.retryAfterMs))
    else if Falls(t) then Tried(p, q, v, Rncan, Loop(1, NotFound in Said(t, outcome), None, Said(t, outcome)), r)
    else
      && q.fetches == p.fetches && q.entries == p.entries && q.heap == p.heap
      && r == Finished(if NotFound in Said(t, outcome) then Missing else Unavailable, Said(t, outcome))
  }

  /** What a waiting call has come to: one of its upstreams, without having met an open breaker. */
  predicate Suspended(p: Proxy, t: Task) {
    && t.loop.at < |Order(t.visit)| && t.loop.throttledUntil.None? && TaskExplained(t)
    && (t.cached.Some? ==> 0 <= t.cached.value < |p.heap|)
    && HasTemplate(Order(t.visit)[t.loop.at], t.visit.tile.layer)
  }

  lemma StoredExactly(p: Proxy, lim: Limits, key: EntryKey, e: CacheEntry)
    requires Proper(p.entries, |p.heap|)
    ensures var q := Stored(p, lim, key, e);
      && q.heap == p.heap + [e]
      && q.evictions - p.evictions == |p.entries| + (if HasCopy(p, key) then 0 else 1) - |q.entries|
      && forall slot :: slot in q.entries ==> slot == Slot(key, |p.heap|) || (slot in p.entries && slot.key != key)
  {
    RenewedFacts(p.entries, key, |p.heap|);
    FindIsTheSlot(p.entries, key);
    var list, q := Renewed(p.entries, key, |p.heap|), Stored(p, lim, key, e);
    assert forall slot :: slot in q.entries ==> slot in list;
    hide Find, Renewed;
  }

  // Past its last upstream a call ends.
  lemma WalkEnds(p: Proxy, lim: Limits, v: Visit, l: Loop, now: int)
    requires l.at >= |Order(v)| && l.throttledUntil.None?
    ensures var (q, r) := Walk(p, lim, v, l, now);
      && q.fetches == p.fetches && q.entries == p.entries && q.heap == p.heap
      && r == Finished(if l.sawNotFound then Missing else Unavailable, l.outcomes)
  {
  }

  lemma ThrottleEnds(p: Proxy, lim: Limits, t: Task, outcome: Outcome, now: int)
    requires Proper(p.entries, |p.heap|) && Suspended(p, t) && outcome.Throttled? && Awaited(t) == Osm
    ensures var (q, r) := Continued(p, lim, t, outcome, now); GoesOnExactly(p, t, outcome, now, q, r)
  {
    assert Order(t.visit) == [Osm];
    var until := now + outcome.retryAfterMs;
    var q := p.(breaker := RaisedBreaker(p, until));
    assert Raised(p.breaker, until, q.breaker);
    var next := Loop(1, t.loop.sawNotFound, Some(until), Said(t, outcome));
    if t.cached.None? {
      assert Continued(p, lim, t, outcome, now) == Walk(q, lim, t.visit, next, now) == Concluded(q, lim, t.visit, next, now);
    }
    hide Raised, Walk;
  }

  lemma SentTileEnds(p: Proxy, lim: Limits, t: Task, outcome: Outcome, now: int)
    requires Proper(p.entries, |p.heap|) && Suspended(p, t) && outcome.Ok?
    ensures var (q, r) := Continued(p, lim, t, outcome, now); GoesOnExactly(p, t, outcome, now, q, r)
  {
    var u := Awaited(t);
    assert Order(t.visit)[t.loop.at] == u;
    var e := CacheEntry(outcome.body, outcome.contentType, outcome.etag, now, outcome.maxAgeMs);
    StoredExactly(p, lim, EntryKey(u, t.visit.tile), e);
    assert Continued(p, lim, t, outcome, now)
        == (Stored(p, lim, EntryKey(u, t.visit.tile), e), Finished(ServeEntry(u, e), Said(t, outcome)));
    hide Stored, Walk, Continued;
  }

  lemma CopyEnds(p: Proxy, lim: Limits, t: Task, outcome: Outcome, now: int)
    requires Suspended(p, t) && outcome.NotModified? && t.cached.Some?
    ensures var (q, r) := Continued(p, lim, t, outcome, now); GoesOnExactly(p, t, outcome, now, q, r)
  {
    var u := Awaited(t);
    assert Order(t.visit)[t.loop.at] == u;
    var e := p.heap[t.cached.value].(storedAt := now, maxAgeMs := outcome.maxAgeMs);
    assert Continued(p, lim, t, outcome, now)
        == (p.(heap := p.heap[t.cached.value := e]), Finished(ServeEntry(u, e), Said(t, outcome)));
    hide Stored, Walk, Continued;
  }

  /** The answer gives no tile and closes no breaker. */
  predicate Fruitless(t: Task, outcome: Outcome) {
    !outcome.Ok? && !(outcome.NotModified? && t.cached.Some?) && !(outcome.Throttled? && Awaited(t) == Osm)
  }

  lemma FruitlessWalks(p: Proxy, lim: Limits, t: Task, outcome: Outcome, now: int)
    requires Suspended(p, t) && Fruitless(t, outcome)
    ensures Continued(p, lim, t, outcome, now)
         == Walk(p, lim, t.visit, Loop(t.loop.at + 1, NotFound in Said(t, outcome), None, Said(t, outcome)), now)
  {
    assert Order(t.visit)[t.loop.at] == Awaited(t);
    hide Stored, Walk;
  }

  lemma FruitlessEnds(p: Proxy, lim: Limits, t: Task, outcome: Outcome, now: int)
    requires Proper(p.entries, |p.heap|) && Suspended(p, t) && Fruitless(t, outcome)
    ensures var (q, r) := Continued(p, lim, t, outcome, now); GoesOnExactly(p, t, outcome, now, q, r)
  {
    var next := Loop(t.loop.at + 1, NotFound in Said(t, outcome), None, Said(t, outcome));
    FruitlessWalks(p, lim, t, outcome, now);
    if Falls(t) {
      assert Order(t.visit) == [Quebec, Rncan];
      WalkTries(p, lim, t.visit, next, now);
    } else {
      WalkEnds(p, lim, t.visit, next, now);
    }
    hide Continued, Walk, Tried, Suspended;
  }

  // The segment after an await, over the tables.
  lemma ContinuesExactly(p: Proxy, lim: Limits, t: Task, outcome: Outcome, now: int)
    requires Proper(p.entries, |p.heap|) && Suspended(p, t)
    ensures var (q, r) := Continued(p, lim, t, outcome, now); GoesOnExactly(p, t, outcome, now, q, r)
  {
    if outcome.Ok? {
      SentTileEnds(p, lim, t, outcome, now);
    } else if outcome.NotModified? && t.cached.Some? {
      CopyEnds(p, lim, t, outcome, now);
    } else if Fruitless(t, outcome) {
      FruitlessEnds(p, lim, t, outcome, now);
    } else {
      ThrottleEnds(p, lim, t, outcome, now);
    }
    hide Continued, GoesOnExactly;
  }

  // ---------------------------------------------------------------- over every run

  ghost predicate AllSuspended(s: Sys) {
    forall id :: id in s.tasks ==> Suspended(s.p, s.tasks[id])
  }

  /** Where a call stands after its segment. */
  predicate Stands(t: Sys, id: nat, r: Progress) {
    match r
    case Waiting(task) => id in t.tasks && t.tasks[id] == task
    case Finished(reply, outcomes) => id in t.done && t.done[id].reply == reply && t.done[id].outcomes == outcomes
  }

  lemma TriedSuspends(p: Proxy, q: Proxy, v: Visit, u: Upstream, loop: Loop, r: Progress)
    requires Tried(p, q, v, u, loop, r) && q.heap == p.heap
    requires loop.at < |Order(v)| && Order(v)[loop.at] == u && HasTemplate(u, v.tile.layer)
    requires loop.throttledUntil.None? && (loop.sawNotFound <==> NotFound in loop.outcomes)
    ensures r.Waiting? ==> Suspended(q, r.task) && r.task.visit == v
  {
    var key := EntryKey(u, v.tile);
    if HasCopy(p, key) {
      var ref :| Slot(key, ref) in p.entries;
      assert FreshOrAsked(p, q, v, u, loop, ref, r);
    }
  }

  lemma StartSuspends(p: Proxy, lim: Limits, v: Visit)
    requires Proper(p.entries, |p.heap|) && Distinct(p.negative)
    ensures var (q, r) := Started(p, lim, v); r.Waiting? ==> Suspended(q, r.task)
  {
    StartsExactly(p, lim, v);
    StartedFrame(p, lim, v);
    var (q, r) := Started(p, lim, v);
    hide Started, Suspended, Tried;
    if r.Waiting? {
      assert Shut(p, v) && HasCopy(p, EntryKey(Wanted(v), v.tile)) ==> v.tile.layer == Labels;
      TriedSuspends(p, q, v, Wanted(v), Loop(0, false, None, []), r);
    }
  }

  lemma ContinueSuspends(p: Proxy, lim: Limits, t: Task, outcome: Outcome, now: int)
    requires Proper(p.entries, |p.heap|) && Suspended(p, t)
    ensures var (q, r) := Continued(p, lim, t, outcome, now); r.Waiting? ==> Suspended(q, r.task)
  {
    ContinuesExactly(p, lim, t, outcome, now);
    var (q, r) := Continued(p, lim, t, outcome, now);
    if r.Waiting? {
      var next := Loop(1, NotFound in Said(t, outcome), None, Said(t, outcome));
      assert Fruitless(t, outcome) && Falls(t);
      FruitlessWalks(p, lim, t, outcome, now);
      WalkFrame(p, lim, t.visit, next, now);
      assert Order(t.visit) == [Quebec, Rncan];
      TriedSuspends(p, q, t.visit, Rncan, next, r);
    }
    hide Continued, Suspended;
  }

  lemma StaysSuspended(p: Proxy, q: Proxy, t: Task)
    requires Suspended(p, t) && |p.heap| <= |q.heap|
    ensures Suspended(q, t)
  {
  }

  lemma HeapGrows(p: Proxy, lim: Limits, t: Task, outcome: Outcome, now: int)
    ensures |p.heap| <= |Continued(p, lim, t, outcome, now).0.heap|
  {
    ContinuedGoesOn(p, lim, t, outcome, now);
    var on := GoesOn(p, t, outcome, now);
    if on.Some? {
      WalkFrame(on.value.0, lim, t.visit, on.value.1, now);
    }
    hide Walk, Touched, FetchFrame, BreakerFrame, MissFrame;
  }

  lemma StepSuspends(lim: Limits, s: Sys, a: Action, t: Sys)
    requires CacheOk(s.p, lim) && AllSuspended(s) && Step(lim, s, a, t)
    ensures AllSuspended(t)
  {
    hide Suspended, Started, Continued;
    match a
    case Serve(id, tile, only, now) =>
      StartSuspends(s.p, lim, Visit(tile, only, now));
      StartedFrame(s.p, lim, Visit(tile, only, now));
      KeepsOthers(s, t, id);
    case Answer(f, response, now) =>
      KeepsOthers(s, t, 0);
    case Settle(f) =>
      KeepsOthers(s, t, 0);
    case Resume(id, now) =>
      var task := s.tasks[id];
      var outcome := s.p.fetches[task.fetch].phase.outcome;
      ContinueSuspends(s.p, lim, task, outcome, now);
      HeapGrows(s.p, lim, task, outcome, now);
      KeepsOthers(s, t, id);
  }

  lemma KeepsOthers(s: Sys, t: Sys, id: nat)
    requires AllSuspended(s) && |s.p.heap| <= |t.p.heap|
    ensures forall k :: k in s.tasks && k in t.tasks && t.tasks[k] == s.tasks[k] ==> Suspended(t.p, t.tasks[k])
  {
    forall k | k in s.tasks && k in t.tasks && t.tasks[k] == s.tasks[k]
      ensures Suspended(t.p, t.tasks[k])
    {
      StaysSuspended(s.p, t.p, s.tasks[k]);
    }
  }

  ghost predicate Tidy(lim: Limits, s: Sys) {
    CacheOk(s.p, lim) && SourcedSys(s) && AllSuspended(s)
  }

  lemma RunsSuspend(lim: Limits, actions: seq<Action>, s: Sys)
    requires Reachable(lim, actions, s)
    ensures CacheOk(s.p, lim) && AllSuspended(s)
  {
    RunsKeepInv(lim, actions, s);
    forall u: Sys, a, w: Sys | Tidy(lim, u) && Step(lim, u, a, w)
      ensures Tidy(lim, w)
    {
      hide Step, SourcedSys, CacheOk, AllSuspended;
      StepSuspends(lim, u, a, w);
      StepKeepsCache(lim, u, a, w);
      StepSourced(lim, u, a, w);
    }
    RunKeeps((s, a, t) => Step(lim, s, a, t), s => Tidy(lim, s), INITIAL, actions, s);
  }

  // In every interleaving, the first segment of a call is decided by the note of its tile, its copy,
  // the breaker of OSM and the fetch under way, in that order, and by nothing else.
  lemma ServesExactly(lim: Limits, actions: seq<Action>, s: Sys, id: nat, tile: Tile, only: Option<Upstream>, now: int, t: Sys)
    requires Reachable(lim, actions, s) && Step(lim, s, Serve(id, tile, only, now), t)
    ensures exists r :: Stands(t, id, r) && BeginsExactly(s.p, Visit(tile, only, now), t.p, r)
  {
    RunsSuspend(lim, actions, s);
    var v := Visit(tile, only, now);
    StartsExactly(s.p, lim, v);
    var (q, r) := Started(s.p, lim, v);
    hide Started, BeginsExactly, Reachable;
    assert Stands(t, id, r);
  }

  // In every interleaving, the segment after an answer gives a tile, or falls back to the federal
  // upstream, or ends, as that answer, the call's own copy and its earlier answers say.
  lemma ResumesExactly(lim: Limits, actions: seq<Action>, s: Sys, id: nat, now: int, t: Sys)
    requires Reachable(lim, actions, s) && Step(lim, s, Resume(id, now), t)
    ensures var task := s.tasks[id];
      exists r :: Stands(t, id, r) && GoesOnExactly(s.p, task, s.p.fetches[task.fetch].phase.outcome, now, t.p, r)
  {
    RunsSuspend(lim, actions, s);
    var task := s.tasks[id];
    var outcome := s.p.fetches[task.fetch].phase.outcome;
    ContinuesExactly(s.p, lim, task, outcome, now);
    var (q, r) := Continued(s.p, lim, task, outcome, now);
    hide Continued, GoesOnExactly, Reachable;
    assert Stands(t, id, r);
  }
}
