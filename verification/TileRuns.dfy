/**
 Every interleaving of `serve` calls, upstream answers and settling fetches (tile-proxy.ts,
 412-506). Main results: a 200 carries bytes a tried upstream sent for that very tile; one fetch
 per cache key at a time; no call to OSM while a processed throttle lasts; and exactly when a miss
 is remembered.
 */
module TileRuns {
  import opened Prelude
  import opened Machine
  import opened TileCache
  import opened TileProxy

  /** A body an upstream sent with status 200 for one entry key. */
  datatype Sent = Sent(key: EntryKey, body: Bytes, contentType: string)

  /** A processed OSM throttle: when it ends, and how many fetches had been made by then. */
  datatype Throttle = Throttle(until: int, asked: nat)

  datatype Done = Done(visit: Visit, outcomes: seq<Outcome>, reply: Reply, ended: int)

  /** The proxy, its suspended calls and the history. */
  datatype Sys = Sys(
    p: Proxy,
    tasks: map<nat, Task>,
    done: map<nat, Done>,
    sent: set<Sent>,
    throttles: seq<Throttle>,
    clock: int)

  datatype Action =
    | Serve(id: nat, tile: Tile, only: Option<Upstream>, now: int)
    | Answer(f: nat, response: Response, now: int)
    | Settle(f: nat)
    | Resume(id: nat, now: int)

  const INITIAL := Sys(EMPTY, map[], map[], {}, [], 0)

  function Landed(s: Sys, id: nat, v: Visit, r: (Proxy, Progress)): Sys {
    match r.1
    case Waiting(task) => s.(p := r.0, tasks := s.tasks[id := task])
    case Finished(reply, outcomes) =>
      s.(p := r.0, tasks := s.tasks - {id}, done := s.done[id := Done(v, outcomes, reply, s.clock)])
  }

  function AnsweredFetch(p: Proxy, f: nat, outcome: Outcome): Proxy
    requires f < |p.fetches|
  {
    p.(fetches := p.fetches[f := p.fetches[f].(phase := Answered(outcome))])
  }

  function SentBy(key: EntryKey, r: Response): set<Sent> {
    if r.Response? && r.status == 200 && r.body.Some? then {Sent(key, r.body.value, r.contentType)} else {}
  }

  function UpstreamOf(t: Task): Option<Upstream> {
    if t.loop.at < |Order(t.visit)| then Some(Order(t.visit)[t.loop.at]) else None
  }

  function NewThrottles(s: Sys, t: Task, outcome: Outcome, now: int): seq<Throttle> {
    if outcome.Throttled? && UpstreamOf(t) == Some(Osm) then [Throttle(now + outcome.retryAfterMs, |s.p.fetches|)] else []
  }

  ghost predicate ServeStep(lim: Limits, s: Sys, id: nat, v: Visit, t: Sys) {
    && s.clock <= v.started && id !in s.tasks && id !in s.done
    && t == Landed(s.(clock := v.started), id, v, Started(s.p, lim, v))
  }

  ghost predicate AnswerStep(s: Sys, f: nat, response: Response, now: int, t: Sys) {
    && s.clock <= now && f < |s.p.fetches| && s.p.fetches[f].phase.Running?
    && t == s.(clock := now, p := AnsweredFetch(s.p, f, Classify(response, now)),
               sent := s.sent + SentBy(s.p.fetches[f].key, response))
  }

  ghost predicate SettleStep(s: Sys, f: nat, t: Sys) {
    && f < |s.p.fetches| && s.p.fetches[f].phase.Answered?
    && t == s.(p := SettledFetch(s.p, f))
  }

  ghost predicate ResumeStep(lim: Limits, s: Sys, id: nat, now: int, t: Sys) {
    && s.clock <= now && id in s.tasks
    && var task := s.tasks[id];
    && task.fetch < |s.p.fetches| && s.p.fetches[task.fetch].phase.Settled?
    && var outcome := s.p.fetches[task.fetch].phase.outcome;
    && t == Landed(s.(clock := now, throttles := s.throttles + NewThrottles(s, task, outcome, now)),
                   id, task.visit, Continued(s.p, lim, task, outcome, now))
  }

  ghost predicate Step(lim: Limits, s: Sys, a: Action, t: Sys) {
    match a
    case Serve(id, tile, only, now) => ServeStep(lim, s, id, Visit(tile, only, now), t)
    case Answer(f, response, now) => AnswerStep(s, f, response, now, t)
    case Settle(f) => SettleStep(s, f, t)
    case Resume(id, now) => ResumeStep(lim, s, id, now, t)
  }

  // ================================================================ sourced bytes

  /** A JPEG or PNG of at most one mebibyte, by its type and its first two bytes. */
  predicate Image(body: Bytes, contentType: string) {
    && 2 <= |body| <= 1048576
    && ((contentType == "image/jpeg" && body[0] == 255 && body[1] == 216)
        || (contentType == "image/png" && body[0] == 137 && body[1] == 80))
  }

  predicate EntrySent(key: EntryKey, e: CacheEntry, sent: set<Sent>) {
    Sent(key, e.body, e.contentType) in sent && Image(e.body, e.contentType)
  }

  predicate FetchSent(f: Fetch, sent: set<Sent>) {
    match f.phase
    case Running => true
    case Answered(o) => OutcomeSent(f.key, o, sent)
    case Settled(o) => OutcomeSent(f.key, o, sent)
  }

  predicate OutcomeSent(key: EntryKey, o: Outcome, sent: set<Sent>) {
    o.Ok? ==> Sent(key, o.body, o.contentType) in sent && Image(o.body, o.contentType)
  }

  ghost predicate EntriesSent(p: Proxy, sent: set<Sent>) {
    forall s :: s in p.entries ==> 0 <= s.value < |p.heap| && EntrySent(s.key, p.heap[s.value], sent)
  }

  ghost predicate Sourced(p: Proxy, sent: set<Sent>) {
    && Distinct(p.entries) && EntriesSent(p, sent)
    && (forall i :: 0 <= i < |p.fetches| ==> FetchSent(p.fetches[i], sent))
    && (forall key :: key in p.inFlight ==> p.inFlight[key] < |p.fetches| && p.fetches[p.inFlight[key]].key == key)
  }

  /** What a suspended call relies on: its fetch is for its own key, and so is its cached entry. */
  ghost predicate TaskSourced(p: Proxy, t: Task, sent: set<Sent>) {
    && t.loop.at < |Order(t.visit)|
    && var key := EntryKey(Order(t.visit)[t.loop.at], t.visit.tile);
    && t.fetch < |p.fetches| && p.fetches[t.fetch].key == key
    && (t.cached.Some? ==> 0 <= t.cached.value < |p.heap| && EntrySent(key, p.heap[t.cached.value], sent))
  }

  predicate ReplySourced(v: Visit, r: Reply, sent: set<Sent>) {
    r.TileReply? ==>
      && r.upstream in Order(v) && Sent(EntryKey(r.upstream, v.tile), r.body, r.contentType) in sent
      && Image(r.body, r.contentType)
  }

  ghost predicate ProgressSourced(p: Proxy, v: Visit, r: Progress, sent: set<Sent>) {
    match r
    case Waiting(task) => task.visit == v && TaskSourced(p, task, sent)
    case Finished(reply, _) => ReplySourced(v, reply, sent)
  }

  /** Fetches and entry objects only accumulate; an object keeps its body for ever. */
  ghost predicate Grows(p: Proxy, q: Proxy) {
    && |p.heap| <= |q.heap| && |p.fetches| <= |q.fetches|
    && (forall i :: 0 <= i < |p.heap| ==>
          q.heap[i].body == p.heap[i].body && q.heap[i].contentType == p.heap[i].contentType)
    && (forall i :: 0 <= i < |p.fetches| ==> q.fetches[i].key == p.fetches[i].key)
  }

  lemma TaskStaysSourced(p: Proxy, q: Proxy, t: Task, sent: set<Sent>, more: set<Sent>)
    requires Grows(p, q) && sent <= more && TaskSourced(p, t, sent)
    ensures TaskSourced(q, t, more)
  {
  }

  lemma JoinedSourced(p: Proxy, key: EntryKey, etag: Option<string>, startedAt: int, sent: set<Sent>)
    requires Sourced(p, sent)
    ensures var (q, f) := Joined(p, key, etag, startedAt);
            Sourced(q, sent) && Grows(p, q) && q.heap == p.heap && f < |q.fetches| && q.fetches[f].key == key
  {
  }

  lemma TouchSourced(p: Proxy, key: EntryKey, ref: int, sent: set<Sent>)
    requires Sourced(p, sent) && Find(p.entries, key) == Some(ref)
    ensures Sourced(p.(entries := Renewed(p.entries, key, ref)), sent)
  {
    FindFacts(p.entries, key);
    RenewedFacts(p.entries, key, ref);
  }

  lemma StoredSourced(p: Proxy, lim: Limits, key: EntryKey, e: CacheEntry, sent: set<Sent>)
    requires Sourced(p, sent) && EntrySent(key, e, sent)
    ensures Sourced(Stored(p, lim, key, e), sent) && Grows(p, Stored(p, lim, key, e))
  {
    RenewedFacts(p.entries, key, |p.heap|);
    var list, q := Renewed(p.entries, key, |p.heap|), Stored(p, lim, key, e);
    SuffixIsDistinct(list, |list| - |q.entries|);
    assert forall s :: s in q.entries ==> s in list;
  }

  lemma {:induction false} WalkSourced(p: Proxy, lim: Limits, v: Visit, l: Loop, now: int, sent: set<Sent>)
    requires Sourced(p, sent)
    ensures var (q, r) := Walk(p, lim, v, l, now);
            Sourced(q, sent) && Grows(p, q) && ProgressSourced(q, v, r, sent)
    decreases |Order(v)| - l.at
  {
    hide Sourced, EntriesSent, Distinct, Renewed, Find, Joined;
    if l.at < |Order(v)| {
      var u, next := Order(v)[l.at], l.(at := l.at + 1);
      if !HasTemplate(u, v.tile.layer) {
        WalkSourced(p, lim, v, next, now, sent);
      } else {
        var key := EntryKey(u, v.tile);
        var cached := Find(p.entries, key);
        FoundSourced(p, key, sent);
        if cached.Some? && Fresh(At(p.heap, cached.value), v.started) {
          TouchSourced(p, key, cached.value, sent);
        } else {
          var q := if u.Osm? then BreakerChecked(p, u, v.started) else p;
          assert Sourced(q, sent) by { BreakerIsApart(p, u, v.started, sent); }
          if u.Osm? && u in q.breaker {
            if cached.None? {
              WalkSourced(q, lim, v, next.(throttledUntil := Earliest(l.throttledUntil, q.breaker[u])), now, sent);
            }
          } else {
            JoinedSourced(q, key, if cached.Some? then At(q.heap, cached.value).etag else None, v.started, sent);
          }
        }
      }
    } else {
      NotedSourced(p, lim, MissOf(v), now, sent);
    }
  }

  lemma FoundSourced(p: Proxy, key: EntryKey, sent: set<Sent>)
    requires Sourced(p, sent)
    ensures var ref := Find(p.entries, key);
            ref.Some? ==> 0 <= ref.value < |p.heap| && EntrySent(key, p.heap[ref.value], sent)
  {
    FindFacts(p.entries, key);
  }

  lemma BreakerIsApart(p: Proxy, u: Upstream, now: int, sent: set<Sent>)
    requires Sourced(p, sent)
    ensures Sourced(BreakerChecked(p, u, now), sent)
  {
  }

  lemma NotedSourced(p: Proxy, lim: Limits, key: MissKey, now: int, sent: set<Sent>)
    requires Sourced(p, sent)
    ensures Sourced(Noted(p, lim, key, now), sent)
  {
  }

  lemma StartedSourced(p: Proxy, lim: Limits, v: Visit, sent: set<Sent>)
    requires Sourced(p, sent)
    ensures var (q, r) := Started(p, lim, v);
            Sourced(q, sent) && Grows(p, q) && ProgressSourced(q, v, r, sent)
  {
    var p' := p.(negative := Without(p.negative, MissOf(v)));
    assert Sourced(p', sent);
    WalkSourced(p', lim, v, Loop(0, false, None, []), v.started, sent);
  }

  lemma RefreshedSourced(p: Proxy, ref: int, e: CacheEntry, sent: set<Sent>)
    requires Sourced(p, sent) && 0 <= ref < |p.heap|
    requires e.body == p.heap[ref].body && e.contentType == p.heap[ref].contentType
    ensures Sourced(p.(heap := p.heap[ref := e]), sent) && Grows(p, p.(heap := p.heap[ref := e]))
  {
  }

  lemma ContinuedSourced(p: Proxy, lim: Limits, t: Task, outcome: Outcome, now: int, sent: set<Sent>)
    requires Sourced(p, sent) && TaskSourced(p, t, sent)
    requires p.fetches[t.fetch].phase == Settled(outcome)
    ensures var (q, r) := Continued(p, lim, t, outcome, now);
            Sourced(q, sent) && Grows(p, q) && ProgressSourced(q, t.visit, r, sent)
  {
    var u := Order(t.visit)[t.loop.at];
    var key, said := EntryKey(u, t.visit.tile), t.loop.outcomes + [outcome];
    var next := t.loop.(at := t.loop.at + 1, outcomes := said);
    assert FetchSent(p.fetches[t.fetch], sent);
    hide Sourced, Walk, Stored, EntriesSent;
    if outcome.NotModified? && t.cached.Some? {
      RefreshedSourced(p, t.cached.value, p.heap[t.cached.value].(storedAt := now, maxAgeMs := outcome.maxAgeMs), sent);
    } else if outcome.Ok? {
      StoredSourced(p, lim, key, CacheEntry(outcome.body, outcome.contentType, outcome.etag, now, outcome.maxAgeMs), sent);
    } else if outcome.NotFound? {
      WalkSourced(p, lim, t.visit, next.(sawNotFound := true), now, sent);
    } else if outcome.Throttled? && u.Osm? {
      var until := now + outcome.retryAfterMs;
      var q := p.(breaker := p.breaker[u := Max(if u in p.breaker then p.breaker[u] else 0, until)]);
      BreakerSetIsApart(p, q.breaker, sent);
      WalkSourced(q, lim, t.visit, next.(throttledUntil := Earliest(t.loop.throttledUntil, until)), now, sent);
    } else {
      WalkSourced(p, lim, t.visit, next, now, sent);
    }
  }

  lemma BreakerSetIsApart(p: Proxy, breaker: map<Upstream, int>, sent: set<Sent>)
    requires Sourced(p, sent)
    ensures Sourced(p.(breaker := breaker), sent)
  {
  }

  // ================================================================ what one segment changes

  /** The fetch table after `Joined`. */
  ghost predicate Asked(p: Proxy, q: Proxy, key: EntryKey, etag: Option<string>, startedAt: int) {
    var r := Joined(p, key, etag, startedAt).0;
    q.fetches == r.fetches && q.inFlight == r.inFlight
  }

  ghost predicate Touched(p: Proxy, q: Proxy) {
    q.entries == p.entries
    || exists key :: Find(p.entries, key).Some? && q.entries == Renewed(p.entries, key, Find(p.entries, key).value)
  }

  ghost predicate FetchFrame(p: Proxy, q: Proxy, v: Visit, at: nat, r: Progress) {
    if r.Finished? then q.fetches == p.fetches && q.inFlight == p.inFlight
    else
      && at <= r.task.loop.at < |Order(v)| && r.task.visit == v
      && exists etag :: Asked(p, q, EntryKey(Order(v)[r.task.loop.at], v.tile), etag, v.started)
  }

  ghost predicate BreakerFrame(p: Proxy, q: Proxy, v: Visit, r: Progress) {
    && q.breaker in {p.breaker, BreakerChecked(p, Osm, v.started).breaker}
    && (r.Waiting? && r.task.loop.at < |Order(v)| && Order(v)[r.task.loop.at] == Osm ==> Osm !in q.breaker)
  }

  ghost predicate MissFrame(p: Proxy, q: Proxy, lim: Limits, v: Visit, l: Loop, now: int, r: Progress) {
    match r
    case Waiting(task) =>
      task.loop.outcomes == l.outcomes && task.loop.sawNotFound == l.sawNotFound && q.negative == p.negative
    case Finished(reply, outcomes) =>
      && outcomes == l.outcomes
      && (reply.Missing? <==> l.sawNotFound && !reply.TileReply?)
      && q.negative == if reply.Missing? then Noted(p, lim, MissOf(v), now).negative else p.negative
  }

  lemma {:induction false} WalkFrame(p: Proxy, lim: Limits, v: Visit, l: Loop, now: int)
    ensures var (q, r) := Walk(p, lim, v, l, now);
            && q.heap == p.heap && q.bytes == p.bytes && Touched(p, q)
            && FetchFrame(p, q, v, l.at, r)
            && BreakerFrame(p, q, v, r)
            && MissFrame(p, q, lim, v, l, now, r)
    decreases |Order(v)| - l.at
  {
    hide Renewed, Find, Fresh, Joined;
    var (q, r) := Walk(p, lim, v, l, now);
    if l.at < |Order(v)| {
      var u, next := Order(v)[l.at], l.(at := l.at + 1);
      if !HasTemplate(u, v.tile.layer) {
        WalkFrame(p, lim, v, next, now);
      } else {
        var key := EntryKey(u, v.tile);
        var cached := Find(p.entries, key);
        var p' := if u.Osm? then BreakerChecked(p, u, v.started) else p;
        if cached.Some? && Fresh(At(p.heap, cached.value), v.started) {
        } else if u.Osm? && u in p'.breaker {
          if cached.None? {
            WalkFrame(p', lim, v, next.(throttledUntil := Earliest(l.throttledUntil, p'.breaker[u])), now);
          }
        } else {
          var etag := if cached.Some? then At(p'.heap, cached.value).etag else None;
          JoinedIgnoresBreaker(p, p', key, etag, v.started);
          assert Asked(p, q, EntryKey(u, v.tile), etag, v.started);
        }
      }
    }
  }

  lemma JoinedIgnoresBreaker(p: Proxy, q: Proxy, key: EntryKey, etag: Option<string>, startedAt: int)
    requires q == p.(breaker := q.breaker)
    ensures var (j, f) := Joined(p, key, etag, startedAt);
            && Joined(q, key, etag, startedAt) == (j.(breaker := q.breaker), f)
            && j == p.(fetches := j.fetches, inFlight := j.inFlight)
  {
  }

  lemma StartedFrame(p: Proxy, lim: Limits, v: Visit)
    ensures var p' := p.(negative := Without(p.negative, MissOf(v)));
            var (q, r) := Started(p, lim, v);
            if Find(p.negative, MissOf(v)).Some? && Find(p.negative, MissOf(v)).value > v.started
            then q == p && r == Finished(Missing, [])
            else
              && q.heap == p.heap && q.bytes == p.bytes && Touched(p', q)
              && FetchFrame(p', q, v, 0, r) && BreakerFrame(p', q, v, r)
              && MissFrame(p', q, lim, v, Loop(0, false, None, []), v.started, r)
  {
    WalkFrame(p.(negative := Without(p.negative, MissOf(v))), lim, v, Loop(0, false, None, []), v.started);
  }

  /** The proxy and the loop state with which `Continued` goes on to the next upstream, if it does. */
  function GoesOn(p: Proxy, t: Task, outcome: Outcome, now: int): Option<(Proxy, Loop)> {
    if t.loop.at >= |Order(t.visit)| then None
    else
      var u, next := Order(t.visit)[t.loop.at], t.loop.(at := t.loop.at + 1, outcomes := t.loop.outcomes + [outcome]);
      if (outcome.NotModified? && t.cached.Some? && 0 <= t.cached.value < |p.heap|) || outcome.Ok? then None
      else if outcome.NotFound? then Some((p, next.(sawNotFound := true)))
      else if outcome.Throttled? && u.Osm? then
        if t.cached.Some? then None
        else
          var until := now + outcome.retryAfterMs;
          Some((p.(breaker := RaisedBreaker(p, until)), next.(throttledUntil := Earliest(t.loop.throttledUntil, until))))
      else Some((p, next))
  }

  function RaisedBreaker(p: Proxy, until: int): map<Upstream, int> {
    p.breaker[Osm := Max(if Osm in p.breaker then p.breaker[Osm] else 0, until)]
  }

  lemma ContinuedGoesOn(p: Proxy, lim: Limits, t: Task, outcome: Outcome, now: int)
    ensures var on := GoesOn(p, t, outcome, now);
            on.Some? ==> Continued(p, lim, t, outcome, now) == Walk(on.value.0, lim, t.visit, on.value.1, now)
    ensures var (q, r) := Continued(p, lim, t, outcome, now);
            GoesOn(p, t, outcome, now).None? && t.loop.at < |Order(t.visit)| ==>
              && r.Finished? && r.reply.TileReply?
              && q.fetches == p.fetches && q.inFlight == p.inFlight && q.negative == p.negative
              && q.breaker == if outcome.Throttled? && Order(t.visit)[t.loop.at].Osm?
                              then RaisedBreaker(p, now + outcome.retryAfterMs) else p.breaker
  {
  }

  // ================================================================ single flight

  /** Whatever has not settled is the one fetch its key maps to, and nothing else is mapped. */
  ghost predicate SingleFlight(p: Proxy) {
    && (forall f :: 0 <= f < |p.fetches| && !p.fetches[f].phase.Settled? ==> Get(p.inFlight, p.fetches[f].key) == Some(f))
    && (forall key :: key in p.inFlight ==>
          p.inFlight[key] < |p.fetches| && p.fetches[p.inFlight[key]].key == key && !p.fetches[p.inFlight[key]].phase.Settled?)
  }

  lemma FrameKeepsFlight(p: Proxy, q: Proxy, v: Visit, at: nat, r: Progress)
    requires SingleFlight(p) && FetchFrame(p, q, v, at, r)
    ensures SingleFlight(q)
  {
  }

  // ================================================================ the breaker

  /** A processed throttle is over, or the breaker still covers it; nobody asked OSM meanwhile. */
  ghost predicate Honoured(p: Proxy, th: Throttle, clock: int) {
    && th.asked <= |p.fetches|
    && (th.until <= clock || (Osm in p.breaker && th.until <= p.breaker[Osm]))
    && forall f :: th.asked <= f < |p.fetches| && p.fetches[f].key.upstream.Osm? ==> th.until <= p.fetches[f].startedAt
  }

  lemma FrameHonours(p: Proxy, q: Proxy, v: Visit, at: nat, r: Progress, th: Throttle, clock: int)
    requires FetchFrame(p, q, v, at, r) && BreakerFrame(p, q, v, r)
    requires Honoured(p, th, clock) && v.started <= clock && (at >= 1 || v.started == clock)
    ensures Honoured(q, th, clock)
  {
    if r.Waiting? {
      var etag :| Asked(p, q, EntryKey(Order(v)[r.task.loop.at], v.tile), etag, v.started);
    }
  }

  // ================================================================ misses

  /** The call ended in 404 after an upstream said so, and left the note of its key until `until`. */
  predicate Notes(d: Done, key: MissKey, until: int, ttlMs: int) {
    MissOf(d.visit) == key && NotFound in d.outcomes && d.reply.Missing? && d.ended + ttlMs == until
  }

  ghost predicate Witnessed(done: map<nat, Done>, key: MissKey, until: int, ttlMs: int) {
    exists id :: id in done && Notes(done[id], key, until, ttlMs)
  }

  ghost predicate MissesWitnessed(p: Proxy, done: map<nat, Done>, ttlMs: int) {
    forall s :: s in p.negative ==> Witnessed(done, s.key, s.value, ttlMs)
  }

  /** At `at`, the note of an earlier call for this very key was still in force. */
  ghost predicate Remembered(done: map<nat, Done>, key: MissKey, at: int, ttlMs: int) {
    exists id :: id in done && Notes(done[id], key, done[id].ended + ttlMs, ttlMs)
                 && done[id].ended <= at < done[id].ended + ttlMs
  }

  ghost predicate DoneExplained(done: map<nat, Done>, d: Done, ttlMs: int) {
    && (NotFound in d.outcomes ==> d.reply.Missing? || d.reply.TileReply?)
    && (d.reply.Missing? ==>
          NotFound in d.outcomes || (d.outcomes == [] && Remembered(done, MissOf(d.visit), d.visit.started, ttlMs)))
  }

  predicate TaskExplained(t: Task) {
    t.loop.sawNotFound <==> NotFound in t.loop.outcomes
  }

  lemma WitnessStays(done: map<nat, Done>, id: nat, d: Done)
    requires id !in done
    ensures forall key, until, ttlMs :: Witnessed(done, key, until, ttlMs) ==> Witnessed(done[id := d], key, until, ttlMs)
    ensures forall key, at, ttlMs :: Remembered(done, key, at, ttlMs) ==> Remembered(done[id := d], key, at, ttlMs)
  {
    assert forall k :: k in done ==> done[id := d][k] == done[k];
    forall key, until, ttlMs | Witnessed(done, key, until, ttlMs)
      ensures Witnessed(done[id := d], key, until, ttlMs)
    {
      var w :| w in done && Notes(done[w], key, until, ttlMs);
      assert Notes(done[id := d][w], key, until, ttlMs);
    }
    forall key, at, ttlMs | Remembered(done, key, at, ttlMs)
      ensures Remembered(done[id := d], key, at, ttlMs)
    {
      var w :| w in done && Notes(done[w], key, done[w].ended + ttlMs, ttlMs) && done[w].ended <= at < done[w].ended + ttlMs;
      assert Notes(done[id := d][w], key, done[w].ended + ttlMs, ttlMs);
    }
  }

  // A note still in force was left by an earlier call.
  lemma NoteIsRemembered(done: map<nat, Done>, key: MissKey, until: int, at: int, ttlMs: int)
    requires Witnessed(done, key, until, ttlMs) && at < until && forall id :: id in done ==> done[id].ended <= at
    ensures Remembered(done, key, at, ttlMs)
  {
  }

  lemma NotedFacts(p: Proxy, lim: Limits, key: MissKey, now: int)
    requires Distinct(p.negative)
    ensures forall s :: s in Noted(p, lim, key, now).negative ==> s == Slot(key, now + lim.negativeTtlMs) || s in p.negative
    ensures Distinct(Noted(p, lim, key, now).negative)
    ensures |Noted(p, lim, key, now).negative| <= lim.negativeMaxEntries
  {
    var list := Renewed(p.negative, key, now + lim.negativeTtlMs);
    RenewedFacts(p.negative, key, now + lim.negativeTtlMs);
    SuffixIsDistinct(list, Excess(|list|, lim.negativeMaxEntries));
  }

  // ================================================================ the invariant

  ghost predicate SourcedSys(s: Sys) {
    && Sourced(s.p, s.sent)
    && (forall id :: id in s.tasks ==> TaskSourced(s.p, s.tasks[id], s.sent))
    && (forall id :: id in s.done ==> ReplySourced(s.done[id].visit, s.done[id].reply, s.sent))
  }

  ghost predicate HonouredSys(s: Sys) {
    && (forall id :: id in s.tasks ==> s.tasks[id].visit.started <= s.clock && s.tasks[id].loop.at < |Order(s.tasks[id].visit)|)
    && (forall i :: 0 <= i < |s.throttles| ==> Honoured(s.p, s.throttles[i], s.clock))
  }

  ghost predicate ExplainedSys(lim: Limits, s: Sys) {
    && Distinct(s.p.negative) && MissesWitnessed(s.p, s.done, lim.negativeTtlMs) && s.tasks.Keys !! s.done.Keys
    && (forall id :: id in s.tasks ==> TaskExplained(s.tasks[id]) && s.tasks[id].loop.at < |Order(s.tasks[id].visit)|)
    && (forall id :: id in s.done ==> DoneExplained(s.done, s.done[id], lim.negativeTtlMs) && s.done[id].ended <= s.clock)
  }

  ghost predicate Inv(lim: Limits, s: Sys) {
    SourcedSys(s) && SingleFlight(s.p) && HonouredSys(s) && ExplainedSys(lim, s) && CacheOk(s.p, lim)
  }

  // ---------------------------------------------------------------- sourced bytes, step by step

  lemma LandedSourced(s: Sys, id: nat, v: Visit, r: (Proxy, Progress))
    requires SourcedSys(s) && Grows(s.p, r.0) && Sourced(r.0, s.sent) && ProgressSourced(r.0, v, r.1, s.sent)
    ensures SourcedSys(Landed(s, id, v, r))
  {
    var t := Landed(s, id, v, r);
    forall k | k in t.tasks ensures TaskSourced(t.p, t.tasks[k], t.sent) {
      if k in s.tasks && t.tasks[k] == s.tasks[k] {
        TaskStaysSourced(s.p, t.p, s.tasks[k], s.sent, t.sent);
      }
    }
  }

  lemma AnswerSourced(s: Sys, f: nat, response: Response, now: int, t: Sys)
    requires SourcedSys(s) && AnswerStep(s, f, response, now, t)
    ensures SourcedSys(t)
  {
    hide Order;
    assert FetchSent(t.p.fetches[f], t.sent);
    assert forall e: CacheEntry, key :: EntrySent(key, e, s.sent) ==> EntrySent(key, e, t.sent);
    forall i | 0 <= i < |t.p.fetches| ensures FetchSent(t.p.fetches[i], t.sent) {
      assert FetchSent(s.p.fetches[i], s.sent);
    }
    forall id | id in t.tasks ensures TaskSourced(t.p, t.tasks[id], t.sent) {
      TaskStaysSourced(s.p, t.p, s.tasks[id], s.sent, t.sent);
    }
  }

  lemma SettleSourced(s: Sys, f: nat, t: Sys)
    requires SourcedSys(s) && SettleStep(s, f, t)
    ensures SourcedSys(t)
  {
    hide Order;
    forall i | 0 <= i < |t.p.fetches| ensures FetchSent(t.p.fetches[i], t.sent) {
      assert FetchSent(s.p.fetches[i], s.sent);
    }
    forall id | id in t.tasks ensures TaskSourced(t.p, t.tasks[id], t.sent) {
      TaskStaysSourced(s.p, t.p, s.tasks[id], s.sent, t.sent);
    }
  }

  lemma StepSourced(lim: Limits, s: Sys, a: Action, t: Sys)
    requires SourcedSys(s) && Step(lim, s, a, t)
    ensures SourcedSys(t)
  {
    hide Landed, Started, Continued, Sourced, TaskSourced, ReplySourced;
    match a
    case Serve(id, tile, only, now) =>
      StartedSourced(s.p, lim, Visit(tile, only, now), s.sent);
      LandedSourced(s.(clock := now), id, Visit(tile, only, now), Started(s.p, lim, Visit(tile, only, now)));
    case Answer(f, response, now) =>
      AnswerSourced(s, f, response, now, t);
    case Settle(f) =>
      SettleSourced(s, f, t);
    case Resume(id, now) =>
      var task := s.tasks[id];
      var outcome := s.p.fetches[task.fetch].phase.outcome;
      ContinuedSourced(s.p, lim, task, outcome, now, s.sent);
      LandedSourced(s.(clock := now, throttles := s.throttles + NewThrottles(s, task, outcome, now)), id, task.visit,
                    Continued(s.p, lim, task, outcome, now));
  }

  // ---------------------------------------------------------------- single flight, step by step

  lemma StepKeepsFlight(lim: Limits, s: Sys, a: Action, t: Sys)
    requires SingleFlight(s.p) && HonouredSys(s) && Step(lim, s, a, t)
    ensures SingleFlight(t.p)
  {
    match a
    case Serve(id, tile, only, now) =>
      StartedKeepsFlight(s.p, lim, Visit(tile, only, now));
      hide Started, SingleFlight;
    case Answer(f, response, now) =>
    case Settle(f) =>
    case Resume(id, now) =>
      ContinuedKeepsFlight(s.p, lim, s.tasks[id], s.p.fetches[s.tasks[id].fetch].phase.outcome, now);
      hide Continued, SingleFlight;
  }

  lemma StartedKeepsFlight(p: Proxy, lim: Limits, v: Visit)
    requires SingleFlight(p)
    ensures SingleFlight(Started(p, lim, v).0)
  {
    hide Started, FetchFrame, BreakerFrame, MissFrame, Touched;
    StartedFrame(p, lim, v);
    var p' := p.(negative := Without(p.negative, MissOf(v)));
    if Started(p, lim, v).0 != p {
      FrameKeepsFlight(p', Started(p, lim, v).0, v, 0, Started(p, lim, v).1);
    }
  }

  lemma ContinuedKeepsFlight(p: Proxy, lim: Limits, task: Task, outcome: Outcome, now: int)
    requires SingleFlight(p) && task.loop.at < |Order(task.visit)|
    ensures SingleFlight(Continued(p, lim, task, outcome, now).0)
  {
    hide Continued, Walk, FetchFrame, BreakerFrame, MissFrame, Touched, Order;
    ContinuedGoesOn(p, lim, task, outcome, now);
    var on := GoesOn(p, task, outcome, now);
    if on.Some? {
      WalkFrame(on.value.0, lim, task.visit, on.value.1, now);
      FrameKeepsFlight(on.value.0, Continued(p, lim, task, outcome, now).0, task.visit, on.value.1.at,
                       Continued(p, lim, task, outcome, now).1);
    }
  }

  // ---------------------------------------------------------------- the breaker, step by step

  lemma StepHonours(lim: Limits, s: Sys, a: Action, t: Sys)
    requires HonouredSys(s) && Step(lim, s, a, t)
    ensures HonouredSys(t)
  {
    match a
    case Serve(id, tile, only, now) => ServeHonours(lim, s, id, Visit(tile, only, now), t);
    case Answer(f, response, now) =>
    case Settle(f) =>
    case Resume(id, now) => ResumeHonours(lim, s, id, now, t);
  }

  lemma ServeHonours(lim: Limits, s: Sys, id: nat, v: Visit, t: Sys)
    requires HonouredSys(s) && ServeStep(lim, s, id, v, t)
    ensures HonouredSys(t)
  {
    hide Started, FetchFrame, BreakerFrame, MissFrame, Touched;
    StartedFrame(s.p, lim, v);
    var p', r := s.p.(negative := Without(s.p.negative, MissOf(v))), Started(s.p, lim, v).1;
    forall i | 0 <= i < |t.throttles| ensures Honoured(t.p, t.throttles[i], t.clock) {
      assert Honoured(s.p, s.throttles[i], s.clock);
      if t.p != s.p {
        assert Honoured(p', s.throttles[i], t.clock);
        FrameHonours(p', t.p, v, 0, r, s.throttles[i], t.clock);
      }
    }
    WaitsInOrder(p', t.p, v, 0, r);
  }

  lemma WaitsInOrder(p: Proxy, q: Proxy, v: Visit, at: nat, r: Progress)
    ensures FetchFrame(p, q, v, at, r) && r.Waiting? ==> r.task.visit == v && r.task.loop.at < |Order(v)|
  {
  }

  lemma ResumeHonours(lim: Limits, s: Sys, id: nat, now: int, t: Sys)
    requires HonouredSys(s) && ResumeStep(lim, s, id, now, t)
    ensures HonouredSys(t)
  {
    hide Continued, FetchFrame, BreakerFrame, MissFrame, Touched, Walk;
    var task := s.tasks[id];
    var outcome := s.p.fetches[task.fetch].phase.outcome;
    var v, r, on := task.visit, Continued(s.p, lim, task, outcome, now).1, GoesOn(s.p, task, outcome, now);
    ContinuedGoesOn(s.p, lim, task, outcome, now);
    var raised := s.p.(breaker := if outcome.Throttled? && UpstreamOf(task) == Some(Osm)
                                  then RaisedBreaker(s.p, now + outcome.retryAfterMs) else s.p.breaker);
    if on.Some? {
      WalkFrame(on.value.0, lim, v, on.value.1, now);
      WaitsInOrder(on.value.0, t.p, v, on.value.1.at, r);
    }
    forall i | 0 <= i < |t.throttles| ensures Honoured(t.p, t.throttles[i], t.clock) {
      var th := t.throttles[i];
      assert Honoured(raised, th, now) by {
        if i < |s.throttles| {
          assert Honoured(s.p, s.throttles[i], s.clock);
        }
      }
      if on.Some? {
        FrameHonours(raised, t.p, v, on.value.1.at, r, th, now);
      }
    }
  }

  // ---------------------------------------------------------------- misses, step by step

  // A finished call is explained, and its note in the negative cache is witnessed by it.
  lemma LandedExplained(lim: Limits, s: Sys, id: nat, v: Visit, q: Proxy, r: Progress)
    requires ExplainedSys(lim, s) && id !in s.done && Distinct(q.negative)
    requires r.Waiting? ==> TaskExplained(r.task) && r.task.loop.at < |Order(r.task.visit)|
    requires forall slot :: slot in q.negative ==>
               slot in s.p.negative
               || (r.Finished? && slot == Slot(MissOf(v), s.clock + lim.negativeTtlMs) && NotFound in r.outcomes && r.reply.Missing?)
    requires r.Finished? && NotFound in r.outcomes ==> r.reply.Missing? || r.reply.TileReply?
    requires r.Finished? && r.reply.Missing? ==>
               NotFound in r.outcomes || (r.outcomes == [] && Remembered(s.done, MissOf(v), v.started, lim.negativeTtlMs))
    ensures ExplainedSys(lim, Landed(s, id, v, (q, r)))
  {
    var t, ttlMs := Landed(s, id, v, (q, r)), lim.negativeTtlMs;
    if r.Finished? {
      var d := Done(v, r.outcomes, r.reply, s.clock);
      assert t.done == s.done[id := d] && t.done[id] == d;
      WitnessStays(s.done, id, d);
      forall slot | slot in q.negative ensures Witnessed(t.done, slot.key, slot.value, ttlMs) {
        if slot !in s.p.negative {
          assert Notes(t.done[id], slot.key, slot.value, ttlMs);
        }
      }
      forall k | k in t.done ensures DoneExplained(t.done, t.done[k], ttlMs) && t.done[k].ended <= t.clock {
        if k != id {
          assert DoneExplained(s.done, s.done[k], ttlMs);
        }
      }
    }
  }

  lemma StepExplains(lim: Limits, s: Sys, a: Action, t: Sys)
    requires ExplainedSys(lim, s) && Step(lim, s, a, t)
    ensures ExplainedSys(lim, t)
  {
    match a
    case Serve(id, tile, only, now) => ServeExplains(lim, s, id, Visit(tile, only, now), t);
    case Answer(f, response, now) =>
    case Settle(f) =>
    case Resume(id, now) => ResumeExplains(lim, s, id, now, t);
  }

  lemma ServeExplains(lim: Limits, s: Sys, id: nat, v: Visit, t: Sys)
    requires ExplainedSys(lim, s) && ServeStep(lim, s, id, v, t)
    ensures ExplainedSys(lim, t)
  {
    hide Started, FetchFrame, BreakerFrame, Touched, Noted, Witnessed, Remembered, Distinct, Landed, Order;
    StartedFrame(s.p, lim, v);
    var (q, r) := Started(s.p, lim, v);
    var p', key := s.p.(negative := Without(s.p.negative, MissOf(v))), MissOf(v);
    FindFacts(s.p.negative, key);
    WithoutFacts(s.p.negative, key);
    WithoutIsDistinct(s.p.negative, key);
    NotedFacts(p', lim, key, v.started);
    WaitsInOrder(p', q, v, 0, r);
    if Find(s.p.negative, key).Some? && Find(s.p.negative, key).value > v.started {
      NoteIsRemembered(s.done, key, Find(s.p.negative, key).value, v.started, lim.negativeTtlMs);
    }
    LandedExplained(lim, s.(clock := v.started), id, v, q, r);
  }

  lemma ResumeExplains(lim: Limits, s: Sys, id: nat, now: int, t: Sys)
    requires ExplainedSys(lim, s) && ResumeStep(lim, s, id, now, t)
    ensures ExplainedSys(lim, t)
  {
    hide Continued, FetchFrame, BreakerFrame, Touched, Walk, Noted, Witnessed, Remembered, Distinct, Landed, Order, RaisedBreaker;
    var task := s.tasks[id];
    var outcome := s.p.fetches[task.fetch].phase.outcome;
    var v, on := task.visit, GoesOn(s.p, task, outcome, now);
    var (q, r) := Continued(s.p, lim, task, outcome, now);
    ContinuedGoesOn(s.p, lim, task, outcome, now);
    if on.Some? {
      WalkFrame(on.value.0, lim, v, on.value.1, now);
      WaitsInOrder(on.value.0, q, v, on.value.1.at, r);
      NotedFacts(on.value.0, lim, MissOf(v), now);
    }
    LandedExplained(lim, s.(clock := now, throttles := s.throttles + NewThrottles(s, task, outcome, now)), id, v, q, r);
  }

  // ---------------------------------------------------------------- the cache, step by step

  lemma StoredKeepsCache(p: Proxy, lim: Limits, key: EntryKey, e: CacheEntry)
    requires CacheOk(p, lim)
    ensures CacheOk(Stored(p, lim, key, e), lim)
  {
    var list, heap := Renewed(p.entries, key, |p.heap|), p.heap + [e];
    StoredIsProper(p, key, e);
    var n := Dropped(list, SizesOf(heap), lim.maxBytes, lim.maxEntries);
    KeepsLongestSuffix(list, SizesOf(heap), lim.maxBytes, lim.maxEntries, n);
    SuffixIsProper(list, n, |heap|);
  }

  lemma TouchedKeepsCache(p: Proxy, q: Proxy, lim: Limits)
    requires CacheOk(p, lim) && Touched(p, q) && q.heap == p.heap && q.bytes == p.bytes
    requires Distinct(q.negative) && |q.negative| <= lim.negativeMaxEntries
    ensures CacheOk(q, lim)
  {
    if q.entries != p.entries {
      var key :| Find(p.entries, key).Some? && q.entries == Renewed(p.entries, key, Find(p.entries, key).value);
      TouchKeeps(p, lim, key, Find(p.entries, key).value);
    }
  }

  lemma WalkKeepsCache(p: Proxy, lim: Limits, v: Visit, l: Loop, now: int)
    requires CacheOk(p, lim)
    ensures CacheOk(Walk(p, lim, v, l, now).0, lim)
  {
    hide Walk, Touched, FetchFrame, BreakerFrame, Noted, SizesOf, Weight;
    WalkFrame(p, lim, v, l, now);
    NotedFacts(p, lim, MissOf(v), now);
    TouchedKeepsCache(p, Walk(p, lim, v, l, now).0, lim);
  }

  lemma StepKeepsCache(lim: Limits, s: Sys, a: Action, t: Sys)
    requires CacheOk(s.p, lim) && SourcedSys(s) && Step(lim, s, a, t)
    ensures CacheOk(t.p, lim)
  {
    match a
    case Serve(id, tile, only, now) =>
      var v := Visit(tile, only, now);
      WithoutFacts(s.p.negative, MissOf(v));
      WithoutIsDistinct(s.p.negative, MissOf(v));
      var p' := s.p.(negative := Without(s.p.negative, MissOf(v)));
      hide Walk;
      WalkKeepsCache(p', lim, v, Loop(0, false, None, []), now);
    case Answer(f, response, now) =>
    case Settle(f) =>
    case Resume(id, now) =>
      ResumeKeepsCache(lim, s.p, s.tasks[id], s.p.fetches[s.tasks[id].fetch].phase.outcome, now);
  }

  lemma ResumeKeepsCache(lim: Limits, p: Proxy, task: Task, outcome: Outcome, now: int)
    requires CacheOk(p, lim)
    ensures CacheOk(Continued(p, lim, task, outcome, now).0, lim)
  {
    hide Walk, Stored, Proper, Weight, SizesOf;
    ContinuedGoesOn(p, lim, task, outcome, now);
    var on := GoesOn(p, task, outcome, now);
    if on.Some? {
      WalkKeepsCache(on.value.0, lim, task.visit, on.value.1, now);
    } else if task.loop.at < |Order(task.visit)| {
      if outcome.NotModified? && task.cached.Some? && 0 <= task.cached.value < |p.heap| {
        SameSizes(p.heap, task.cached.value, p.heap[task.cached.value].(storedAt := now, maxAgeMs := outcome.maxAgeMs));
      } else if outcome.Ok? {
        StoredKeepsCache(p, lim, EntryKey(Order(task.visit)[task.loop.at], task.visit.tile),
                         CacheEntry(outcome.body, outcome.contentType, outcome.etag, now, outcome.maxAgeMs));
      }
    }
  }

  // ================================================================ over every run

  ghost predicate RunsTo(lim: Limits, s: Sys, actions: seq<Action>, t: Sys) {
    Run((s, a, t) => Step(lim, s, a, t), s, actions, t)
  }

  ghost predicate Reachable(lim: Limits, actions: seq<Action>, t: Sys) {
    RunsTo(lim, INITIAL, actions, t)
  }

  lemma RunsKeepInv(lim: Limits, actions: seq<Action>, t: Sys)
    requires Reachable(lim, actions, t)
    ensures Inv(lim, t)
  {
    forall s, a, u | Inv(lim, s) && Step(lim, s, a, u)
      ensures Inv(lim, u)
    {
      hide Step, SourcedSys, SingleFlight, HonouredSys, ExplainedSys, CacheOk;
      StepSourced(lim, s, a, u);
      StepKeepsFlight(lim, s, a, u);
      StepHonours(lim, s, a, u);
      StepExplains(lim, s, a, u);
      StepKeepsCache(lim, s, a, u);
    }
    RunKeeps((s, a, t) => Step(lim, s, a, t), s => Inv(lim, s), INITIAL, actions, t);
  }

  // A 200 carries an image that an upstream sent for this very tile: the one the call was fixed to, or
  // else for labels the federal one, and for the base map the provincial or the federal one.
  lemma TilesComeFromTheirUpstream(lim: Limits, actions: seq<Action>, t: Sys, id: nat)
    requires Reachable(lim, actions, t) && id in t.done && t.done[id].reply.TileReply?
    ensures var d := t.done[id];
            && Sent(EntryKey(d.reply.upstream, d.visit.tile), d.reply.body, d.reply.contentType) in t.sent
            && Image(d.reply.body, d.reply.contentType)
            && (d.visit.only.Some? ==> d.reply.upstream == d.visit.only.value)
            && (d.visit.only.None? ==> d.reply.upstream == Rncan || (d.reply.upstream == Quebec && d.visit.tile.layer == Base))
  {
    RunsKeepInv(lim, actions, t);
  }

  // At most one fetch per cache key is in the air.
  lemma OneFetchPerKey(lim: Limits, actions: seq<Action>, t: Sys, f: nat, g: nat)
    requires Reachable(lim, actions, t) && f < |t.p.fetches| && g < |t.p.fetches|
    requires !t.p.fetches[f].phase.Settled? && !t.p.fetches[g].phase.Settled?
    requires t.p.fetches[f].key == t.p.fetches[g].key
    ensures f == g
  {
    RunsKeepInv(lim, actions, t);
  }

  // Once an OSM throttle until T is processed, every later call to OSM belongs to a serve that
  // started at T or later.
  lemma ThrottlesAreHonoured(lim: Limits, actions: seq<Action>, t: Sys, i: nat, f: nat)
    requires Reachable(lim, actions, t) && i < |t.throttles|
    requires t.throttles[i].asked <= f < |t.p.fetches| && t.p.fetches[f].key.upstream.Osm?
    ensures t.p.fetches[f].startedAt >= t.throttles[i].until
  {
    RunsKeepInv(lim, actions, t);
    assert Honoured(t.p, t.throttles[i], t.clock);
  }

  // A call that consulted an upstream ends in 404 exactly when some upstream said 404 and none
  // produced a tile: an error from the other upstream does not prevent it. A 404 answered without
  // asking anyone falls within the time to live of a note that such a call for the same tile and the
  // same upstream choice has left.
  lemma MissesAreWitnessed(lim: Limits, actions: seq<Action>, t: Sys, id: nat)
    requires Reachable(lim, actions, t) && id in t.done
    ensures var d := t.done[id];
            if d.outcomes != []
            then d.reply.Missing? <==> NotFound in d.outcomes && !d.reply.TileReply?
            else d.reply.Missing? ==> Remembered(t.done, MissOf(d.visit), d.visit.started, lim.negativeTtlMs)
  {
    RunsKeepInv(lim, actions, t);
  }

  /** A fresh copy of the tile from the upstream at place `at` of the order. */
  predicate FreshAt(p: Proxy, v: Visit, at: nat) {
    && at < |Order(v)|
    && var ref := Find(p.entries, EntryKey(Order(v)[at], v.tile));
    && ref.Some? && Fresh(At(p.heap, ref.value), v.started)
  }

  /**
   The call has a tile to give: the one just sent, its cached copy if the answer lets it be used, or
   a fresh copy from the next upstream.
   */
  predicate HasTile(p: Proxy, t: Task, outcome: Outcome) {
    || outcome.Ok?
    || (t.cached.Some? && (outcome.NotModified? || (outcome.Throttled? && UpstreamOf(t) == Some(Osm))))
    || FreshAt(p, t.visit, t.loop.at + 1)
  }

  // When a call that awaited an upstream ends, it ends in 404 exactly when some upstream said 404 and
  // it has no tile to give; then, and only then, the negative cache gains the note of its key.
  lemma NotesAreExact(lim: Limits, actions: seq<Action>, s: Sys, id: nat, now: int, t: Sys)
    requires Reachable(lim, actions, s) && Step(lim, s, Resume(id, now), t) && id in t.done
    ensures var d, task := t.done[id], s.tasks[id];
            var outcome := s.p.fetches[task.fetch].phase.outcome;
            && d.outcomes == task.loop.outcomes + [outcome]
            && (d.reply.TileReply? <==> HasTile(s.p, task, outcome))
            && (d.reply.Missing? <==> NotFound in d.outcomes && !HasTile(s.p, task, outcome))
            && t.p.negative == if d.reply.Missing? then Noted(s.p, lim, MissOf(d.visit), now).negative else s.p.negative
  {
    RunsKeepInv(lim, actions, s);
    hide Reachable, Sourced, SingleFlight, HonouredSys, CacheOk, Continued, HasTile;
    assert ExplainedSys(lim, s) && SourcedSys(s) && id in s.tasks && id !in s.done;
    EndingIsExact(s.p, lim, s.tasks[id], s.p.fetches[s.tasks[id].fetch].phase.outcome, now);
  }

  lemma EndingIsExact(p: Proxy, lim: Limits, task: Task, outcome: Outcome, now: int)
    requires TaskExplained(task) && task.loop.at < |Order(task.visit)|
    requires task.cached.Some? ==> 0 <= task.cached.value < |p.heap|
    ensures var (q, r) := Continued(p, lim, task, outcome, now);
            r.Finished? ==>
              && r.outcomes == task.loop.outcomes + [outcome]
              && (r.reply.TileReply? <==> HasTile(p, task, outcome))
              && (r.reply.Missing? <==> NotFound in r.outcomes && !r.reply.TileReply?)
              && q.negative == if r.reply.Missing? then Noted(p, lim, MissOf(task.visit), now).negative else p.negative
  {
    ContinuedGoesOn(p, lim, task, outcome, now);
    var on := GoesOn(p, task, outcome, now);
    EndingGoesOn(p, lim, task, outcome, now);
    if on.Some? {
      WalkFrame(on.value.0, lim, task.visit, on.value.1, now);
      WalkGivesTile(on.value.0, lim, task.visit, on.value.1, now);
      NotedIgnoresBreaker(p, on.value.0, lim, MissOf(task.visit), now);
      hide Continued, Walk, FetchFrame, BreakerFrame, Touched, Noted, Order, Find, Fresh;
    }
  }

  lemma EndingGoesOn(p: Proxy, lim: Limits, task: Task, outcome: Outcome, now: int)
    requires task.loop.at < |Order(task.visit)| && (task.cached.Some? ==> 0 <= task.cached.value < |p.heap|)
    ensures var on := GoesOn(p, task, outcome, now);
            && (on.None? <==> outcome.Ok? || (task.cached.Some? && (outcome.NotModified? || (outcome.Throttled? && UpstreamOf(task) == Some(Osm)))))
            && (on.None? ==> var r := Continued(p, lim, task, outcome, now).1;
                             r.Finished? && r.reply.TileReply? && r.outcomes == task.loop.outcomes + [outcome] && outcome != NotFound)
            && (on.Some? ==> on.value.1.outcomes == task.loop.outcomes + [outcome] && on.value.1.at == task.loop.at + 1
                             && on.value.0.entries == p.entries && on.value.0.heap == p.heap && on.value.0.negative == p.negative
                             && (on.value.1.sawNotFound <==> task.loop.sawNotFound || outcome == NotFound))
  {
    hide Walk, Stored;
  }

  // Past its first upstream a call that does not suspend ends with a fresh copy, or with none at all.
  lemma WalkGivesTile(p: Proxy, lim: Limits, v: Visit, l: Loop, now: int)
    requires l.at >= 1
    ensures var r := Walk(p, lim, v, l, now).1;
            r.Finished? ==> (r.reply.TileReply? <==> FreshAt(p, v, l.at))
  {
    hide Find, Fresh, Renewed, Joined;
  }

  lemma NotedIgnoresBreaker(p: Proxy, q: Proxy, lim: Limits, key: MissKey, now: int)
    requires q.negative == p.negative
    ensures Noted(q, lim, key, now).negative == Noted(p, lim, key, now).negative
  {
  }

  // The counters and the cache agree, within both bounds, in every reachable state.
  lemma CacheStaysBounded(lim: Limits, actions: seq<Action>, t: Sys)
    requires Reachable(lim, actions, t)
    ensures t.p.bytes == Weight(t.p.entries, SizesOf(t.p.heap)) <= lim.maxBytes
    ensures |t.p.entries| <= lim.maxEntries && |t.p.negative| <= lim.negativeMaxEntries
  {
    RunsKeepInv(lim, actions, t);
  }

  // ================================================================ code and comment

  // States joined by steps are a run.
  lemma {:induction false} StepsRun(lim: Limits, states: seq<Sys>, actions: seq<Action>)
    requires |states| == |actions| + 1
    requires forall i :: 0 <= i < |actions| ==> Step(lim, states[i], actions[i], states[i + 1])
    ensures RunsTo(lim, states[0], actions, states[|actions|])
    decreases |actions|
  {
    hide Step;
    if actions != [] {
      StepsRun(lim, states[1..], actions[1..]);
      RunOne((s, a, t) => Step(lim, s, a, t), states[0], actions[0], states[1], actions[1..], states[|actions|]);
      assert actions == [actions[0]] + actions[1..];
    }
  }

  /** The default upstreams in turn: the first exchange fails, the second answers 404. */
  function FailsThenMisses(tile: Tile, missing: Response): seq<Action> {
    [Serve(0, tile, None, 0), Answer(0, Failed, 0), Settle(0), Resume(0, 0), Answer(1, missing, 0), Settle(1), Resume(0, 0)]
  }

  /** What the two fetches of that run have come to after `k` actions. */
  function FetchesAt(tile: Tile, k: nat): seq<Fetch> {
    var quebec := if k <= 1 then Running else if k == 2 then Answered(Error) else Settled(Error);
    var rncan := if k <= 4 then Running else if k == 5 then Answered(NotFound) else Settled(NotFound);
    if k == 0 then []
    else if k <= 3 then [Fetch(EntryKey(Quebec, tile), None, 0, quebec)]
    else [Fetch(EntryKey(Quebec, tile), None, 0, quebec), Fetch(EntryKey(Rncan, tile), None, 0, rncan)]
  }

  /** The state of that run after `k` actions. */
  function Stage(lim: Limits, tile: Tile, k: nat): Sys {
    var v := Visit(tile, None, 0);
    var p := EMPTY.(
      fetches := FetchesAt(tile, k),
      inFlight := if 1 <= k <= 2 then map[EntryKey(Quebec, tile) := 0]
                  else if 4 <= k <= 5 then map[EntryKey(Rncan, tile) := 1] else map[],
      negative := if k <= 6 then [] else [Slot(MissOf(v), lim.negativeTtlMs)]);
    INITIAL.(
      p := p,
      tasks := if 1 <= k <= 3 then map[0 := Task(v, Loop(0, false, None, []), None, 0)]
               else if 4 <= k <= 6 then map[0 := Task(v, Loop(1, false, None, [Error]), None, 1)] else map[],
      done := if k <= 6 then map[] else map[0 := Done(v, [Error, NotFound], Missing, 0)])
  }

  lemma ServeAndFail(lim: Limits, tile: Tile)
    requires tile.layer.Base?
    ensures Step(lim, Stage(lim, tile, 0), Serve(0, tile, None, 0), Stage(lim, tile, 1))
    ensures Step(lim, Stage(lim, tile, 1), Answer(0, Failed, 0), Stage(lim, tile, 2))
  {
    FirstSegment(lim, Visit(tile, None, 0));
    hide Started, Walk;
  }

  lemma SettleAndResume(lim: Limits, tile: Tile)
    requires tile.layer.Base?
    ensures Step(lim, Stage(lim, tile, 2), Settle(0), Stage(lim, tile, 3))
    ensures Step(lim, Stage(lim, tile, 3), Resume(0, 0), Stage(lim, tile, 4))
  {
    var s := Stage(lim, tile, 3);
    SecondSegment(lim, s.p, s.tasks[0]);
    hide Continued, Walk;
  }

  lemma MissAndSettle(lim: Limits, tile: Tile, missing: Response)
    requires tile.layer.Base? && missing.Response? && missing.status == 404
    ensures Step(lim, Stage(lim, tile, 4), Answer(1, missing, 0), Stage(lim, tile, 5))
    ensures Step(lim, Stage(lim, tile, 5), Settle(1), Stage(lim, tile, 6))
  {
    assert Classify(missing, 0) == NotFound;
    hide Classify;
  }

  lemma LastResume(lim: Limits, tile: Tile)
    requires tile.layer.Base? && lim.negativeMaxEntries >= 1
    ensures Step(lim, Stage(lim, tile, 6), Resume(0, 0), Stage(lim, tile, 7))
  {
    var s := Stage(lim, tile, 6);
    LastSegment(lim, s.p, s.tasks[0]);
    hide Continued, Walk;
  }

  /**
   The comment beside the code (tile-proxy.ts:484-487) says that a miss is remembered only when every
   tried upstream answered 404, and that an error leaves no negative entry. The code remembers it
   exactly when at least one said 404: this run ends with the note although the first upstream failed.
   */
  lemma ErrorDoesNotPreventTheNote(lim: Limits, tile: Tile, missing: Response) returns (t: Sys)
    requires tile.layer.Base? && lim.negativeMaxEntries >= 1 && missing.Response? && missing.status == 404
    ensures Reachable(lim, FailsThenMisses(tile, missing), t)
    ensures 0 in t.done && t.done[0].reply == Missing && t.done[0].outcomes == [Error, NotFound]
    ensures t.p.negative == [Slot(MissKey(None, tile), lim.negativeTtlMs)]
  {
    t := Stage(lim, tile, 7);
    StagesRun(lim, tile, missing);
    assert Stage(lim, tile, 0) == INITIAL;
    hide Step;
  }

  lemma StagesRun(lim: Limits, tile: Tile, missing: Response)
    requires tile.layer.Base? && lim.negativeMaxEntries >= 1 && missing.Response? && missing.status == 404
    ensures RunsTo(lim, Stage(lim, tile, 0), FailsThenMisses(tile, missing), Stage(lim, tile, 7))
  {
    ServeAndFail(lim, tile);
    SettleAndResume(lim, tile);
    MissAndSettle(lim, tile, missing);
    LastResume(lim, tile);
    hide Step, Stage, RunsTo;
    var stages := seq(8, k requires 0 <= k < 8 => Stage(lim, tile, k));
    StepsRun(lim, stages, FailsThenMisses(tile, missing));
  }

  lemma FirstSegment(lim: Limits, v: Visit)
    requires v.only.None? && v.tile.layer.Base?
    ensures var key := EntryKey(Quebec, v.tile);
            Started(EMPTY, lim, v)
            == (EMPTY.(fetches := [Fetch(key, None, v.started, Running)], inFlight := map[key := 0]),
                Waiting(Task(v, Loop(0, false, None, []), None, 0)))
  {
    var none: seq<Fetch>, fetch := [], Fetch(EntryKey(Quebec, v.tile), None, v.started, Running);
    assert none + [fetch] == [fetch];
  }

  lemma SecondSegment(lim: Limits, p: Proxy, task: Task)
    requires p.entries == [] && p.inFlight == map[]
    requires task.visit.only.None? && task.visit.tile.layer.Base? && task.loop == Loop(0, false, None, []) && task.cached.None?
    ensures var key := EntryKey(Rncan, task.visit.tile);
            Continued(p, lim, task, Error, 0)
            == (p.(fetches := p.fetches + [Fetch(key, None, task.visit.started, Running)], inFlight := map[key := |p.fetches|]),
                Waiting(Task(task.visit, Loop(1, false, None, [Error]), None, |p.fetches|)))
  {
    assert task.loop.outcomes + [Error] == [Error];
  }

  lemma LastSegment(lim: Limits, p: Proxy, task: Task)
    requires p.negative == [] && lim.negativeMaxEntries >= 1
    requires task.visit.only.None? && task.visit.tile.layer.Base? && task.loop == Loop(1, false, None, [Error])
    ensures Continued(p, lim, task, NotFound, 0)
         == (p.(negative := [Slot(MissOf(task.visit), lim.negativeTtlMs)]), Finished(Missing, [Error, NotFound]))
  {
    assert task.loop.outcomes + [NotFound] == [Error, NotFound];
  }
}
