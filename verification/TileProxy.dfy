/**
 The tile proxy (tile-proxy.ts, `serve`): every `await` ends a segment, and any other call or
 upstream answer may run before the next one. The class holds the segments; TileRuns proves what
 every interleaving keeps.
 */
module TileProxy {
  import opened Prelude
  import opened TileCache

  const MAX_TILE_BYTES := 1024 * 1024
  const FRESHNESS_CAP_MS := 7 * 24 * 60 * 60 * 1000
  const DEFAULT_FRESHNESS_MS := 24 * 60 * 60 * 1000
  const BREAKER_DEFAULT_MS := 60 * 1000
  const BREAKER_MIN_MS := 1000
  const BREAKER_MAX_MS := 15 * 60 * 1000

  type Bytes = seq<int>

  datatype Upstream = Quebec | Rncan | Osm
  datatype Layer = Base | Labels
  datatype Tile = Tile(layer: Layer, z: int, x: int, y: int)
  datatype EntryKey = EntryKey(upstream: Upstream, tile: Tile)
  datatype MissKey = MissKey(only: Option<Upstream>, tile: Tile)

  datatype CacheEntry = CacheEntry(body: Bytes, contentType: string, etag: Option<string>, storedAt: int, maxAgeMs: int)

  // ---------------------------------------------------------------- upstream answers

  /** A Retry-After header; `Overflow` is a run of digits too long to be a finite number. */
  datatype RetryAfter = NoHeader | Delta(seconds: nat) | Overflow | Date(at: int) | Garbled

  /** What the upstream sends, or the failed exchange. `maxAge` is the max-age value, when finite. */
  datatype Response =
    | Response(status: int, contentType: string, etag: Option<string>, maxAge: Option<nat>, retryAfter: RetryAfter, body: Option<Bytes>)
    | Failed

  datatype Outcome =
    | Ok(body: Bytes, contentType: string, etag: Option<string>, maxAgeMs: int)
    | NotModified(maxAgeMs: int)
    | NotFound
    | Throttled(retryAfterMs: int)
    | Error

  function RetryAfterMs(header: RetryAfter, now: int): (ms: int)
    ensures BREAKER_MIN_MS <= ms <= BREAKER_MAX_MS
    ensures header.Delta? && 1 <= header.seconds <= 900 ==> ms == 1000 * header.seconds
    ensures header.Date? && BREAKER_MIN_MS <= header.at - now <= BREAKER_MAX_MS ==> now + ms == header.at
  {
    var ms := match header
      case Delta(s) => s * 1000
      case Date(at) => at - now
      case _ => BREAKER_DEFAULT_MS;
    Min(Max(ms, BREAKER_MIN_MS), BREAKER_MAX_MS)
  }

  function MaxAgeMs(maxAge: Option<nat>): (ms: int)
    ensures 1000 <= ms <= FRESHNESS_CAP_MS
  {
    if maxAge.None? || maxAge.value == 0 then DEFAULT_FRESHNESS_MS else Min(maxAge.value * 1000, FRESHNESS_CAP_MS)
  }

  predicate LooksLike(contentType: string, body: Bytes) {
    && |body| >= 2
    && if contentType == "image/png" then body[0] == 0x89 && body[1] == 0x50
       else body[0] == 0xff && body[1] == 0xd8
  }

  function Classify(r: Response, now: int): Outcome {
    if r.Failed? then Error
    else if r.status == 304 then NotModified(MaxAgeMs(r.maxAge))
    else if r.status == 404 then NotFound
    else if r.status in {429, 403, 418} then Throttled(RetryAfterMs(r.retryAfter, now))
    else if r.status != 200 || r.contentType !in {"image/jpeg", "image/png"} then Error
    else if r.body.None? || |r.body.value| > MAX_TILE_BYTES || !LooksLike(r.contentType, r.body.value) then Error
    else Ok(r.body.value, r.contentType, r.etag, MaxAgeMs(r.maxAge))
  }

  // ---------------------------------------------------------------- state

  datatype Phase = Running | Answered(outcome: Outcome) | Settled(outcome: Outcome)

  /** A shared promise: which entry it is for, and when the serve that created it started. */
  datatype Fetch = Fetch(key: EntryKey, etag: Option<string>, startedAt: int, phase: Phase)

  datatype Limits = Limits(maxBytes: nat, maxEntries: nat, negativeMaxEntries: nat, negativeTtlMs: int)

  /** `entries` maps a key to an entry object, a position in `heap`: a 304 updates that object. */
  datatype Proxy = Proxy(
    entries: seq<Slot<EntryKey, int>>,
    heap: seq<CacheEntry>,
    bytes: int,
    evictions: int,
    negative: seq<Slot<MissKey, int>>,
    fetches: seq<Fetch>,
    inFlight: map<EntryKey, nat>,
    breaker: map<Upstream, int>)

  const EMPTY := Proxy([], [], 0, 0, [], [], map[], map[])

  function SizesOf(heap: seq<CacheEntry>): (s: Sizes)
    ensures |s| == |heap|
  {
    seq(|heap|, i requires 0 <= i < |heap| => |heap[i].body|)
  }

  const NO_ENTRY := CacheEntry([], "", None, 0, 0)

  function At(heap: seq<CacheEntry>, ref: int): CacheEntry {
    if 0 <= ref < |heap| then heap[ref] else NO_ENTRY
  }

  predicate Fresh(e: CacheEntry, now: int) {
    e.storedAt + e.maxAgeMs > now
  }

  // ---------------------------------------------------------------- one serve call

  datatype Visit = Visit(tile: Tile, only: Option<Upstream>, started: int)

  /** The loop variables of `serve`; `outcomes` is the history of what this call was answered. */
  datatype Loop = Loop(at: nat, sawNotFound: bool, throttledUntil: Option<int>, outcomes: seq<Outcome>)

  /** A call suspended on a fetch. */
  datatype Task = Task(visit: Visit, loop: Loop, cached: Option<int>, fetch: nat)

  datatype Reply = TileReply(upstream: Upstream, body: Bytes, contentType: string) | Missing | Busy(retryAfterSec: int) | Unavailable

  datatype Progress = Waiting(task: Task) | Finished(reply: Reply, outcomes: seq<Outcome>)

  function Order(v: Visit): (order: seq<Upstream>)
    ensures |order| >= 1
  {
    if v.only.Some? then [v.only.value] else if v.tile.layer.Labels? then [Rncan] else [Quebec, Rncan]
  }

  predicate HasTemplate(u: Upstream, layer: Layer) {
    layer.Labels? ==> u.Rncan?
  }

  function MissOf(v: Visit): MissKey {
    MissKey(v.only, v.tile)
  }

  function Earliest(a: Option<int>, b: int): Option<int> {
    Some(if a.Some? then Min(a.value, b) else b)
  }

  function ServeEntry(u: Upstream, e: CacheEntry): Reply {
    TileReply(u, e.body, e.contentType)
  }

  // ---------------------------------------------------------------- the pieces, on values

  function Stored(p: Proxy, lim: Limits, key: EntryKey, e: CacheEntry): Proxy {
    var list, heap := Renewed(p.entries, key, |p.heap|), p.heap + [e];
    var n := Dropped(list, SizesOf(heap), lim.maxBytes, lim.maxEntries);
    p.(entries := list[n..], heap := heap, bytes := Weight(list[n..], SizesOf(heap)), evictions := p.evictions + n)
  }

  function Excess(size: nat, most: nat): (n: nat)
    ensures n <= size
  {
    if size > most then size - most else 0
  }

  function Noted(p: Proxy, lim: Limits, key: MissKey, now: int): Proxy {
    var list := Renewed(p.negative, key, now + lim.negativeTtlMs);
    p.(negative := list[Excess(|list|, lim.negativeMaxEntries)..])
  }

  /** An expired breaker entry is dropped when it is looked at; what stays is open. */
  function BreakerChecked(p: Proxy, u: Upstream, now: int): Proxy {
    if u in p.breaker && p.breaker[u] <= now then p.(breaker := p.breaker - {u}) else p
  }

  /** Join the running fetch of this key, or start one. */
  function Joined(p: Proxy, key: EntryKey, etag: Option<string>, startedAt: int): (Proxy, nat) {
    if key in p.inFlight then (p, p.inFlight[key])
    else (p.(fetches := p.fetches + [Fetch(key, etag, startedAt, Running)], inFlight := p.inFlight[key := |p.fetches|]), |p.fetches|)
  }

  function Concluded(p: Proxy, lim: Limits, v: Visit, l: Loop, now: int): (Proxy, Progress) {
    if l.sawNotFound then (Noted(p, lim, MissOf(v), now), Finished(Missing, l.outcomes))
    else if l.throttledUntil.Some? then
      (p, Finished(Busy(Max(1, (l.throttledUntil.value - now + 999) / 1000)), l.outcomes))
    else (p, Finished(Unavailable, l.outcomes))
  }

  function Walk(p: Proxy, lim: Limits, v: Visit, l: Loop, now: int): (Proxy, Progress)
    decreases |Order(v)| - l.at
  {
    if l.at >= |Order(v)| then Concluded(p, lim, v, l, now)
    else
      var u, next := Order(v)[l.at], l.(at := l.at + 1);
      if !HasTemplate(u, v.tile.layer) then Walk(p, lim, v, next, now)
      else
        var key := EntryKey(u, v.tile);
        var cached := Find(p.entries, key);
        if cached.Some? && Fresh(At(p.heap, cached.value), v.started) then
          (p.(entries := Renewed(p.entries, key, cached.value)), Finished(ServeEntry(u, At(p.heap, cached.value)), l.outcomes))
        else
          var q := if u.Osm? then BreakerChecked(p, u, v.started) else p;
          if u.Osm? && u in q.breaker then
            if cached.Some? then (q, Finished(ServeEntry(u, At(q.heap, cached.value)), l.outcomes))
            else Walk(q, lim, v, next.(throttledUntil := Earliest(l.throttledUntil, q.breaker[u])), now)
          else
            var etag := if cached.Some? then At(q.heap, cached.value).etag else None;
            var (r, f) := Joined(q, key, etag, v.started);
            (r, Waiting(Task(v, l, cached, f)))
  }

  /** The first segment of `serve`. */
  function Started(p: Proxy, lim: Limits, v: Visit): (Proxy, Progress) {
    var until := Find(p.negative, MissOf(v));
    if until.Some? && until.value > v.started then (p, Finished(Missing, []))
    else Walk(p.(negative := Without(p.negative, MissOf(v))), lim, v, Loop(0, false, None, []), v.started)
  }

  /** The segment after an awaited fetch. */
  function Continued(p: Proxy, lim: Limits, t: Task, outcome: Outcome, now: int): (Proxy, Progress) {
    if t.loop.at >= |Order(t.visit)| then (p, Finished(Unavailable, t.loop.outcomes))
    else
      var u := Order(t.visit)[t.loop.at];
      var key, said := EntryKey(u, t.visit.tile), t.loop.outcomes + [outcome];
      var next := t.loop.(at := t.loop.at + 1, outcomes := said);
      if outcome.NotModified? && t.cached.Some? && 0 <= t.cached.value < |p.heap| then
        var e := p.heap[t.cached.value].(storedAt := now, maxAgeMs := outcome.maxAgeMs);
        (p.(heap := p.heap[t.cached.value := e]), Finished(ServeEntry(u, e), said))
      else if outcome.Ok? then
        var e := CacheEntry(outcome.body, outcome.contentType, outcome.etag, now, outcome.maxAgeMs);
        (Stored(p, lim, key, e), Finished(ServeEntry(u, e), said))
      else if outcome.NotFound? then Walk(p, lim, t.visit, next.(sawNotFound := true), now)
      else if outcome.Throttled? && u.Osm? then
        var until := now + outcome.retryAfterMs;
        var q := p.(breaker := p.breaker[u := Max(if u in p.breaker then p.breaker[u] else 0, until)]);
        if t.cached.Some? then (q, Finished(ServeEntry(u, At(p.heap, t.cached.value)), said))
        else Walk(q, lim, t.visit, next.(throttledUntil := Earliest(t.loop.throttledUntil, until)), now)
      else Walk(p, lim, t.visit, next, now)
  }

  function SettledFetch(p: Proxy, f: nat): Proxy {
    if f < |p.fetches| && p.fetches[f].phase.Answered? then
      var fetch := p.fetches[f];
      p.(fetches := p.fetches[f := fetch.(phase := Settled(fetch.phase.outcome))],
         inFlight := if Get(p.inFlight, fetch.key) == Some(f) then p.inFlight - {fetch.key} else p.inFlight)
    else p
  }

  ghost predicate Proper(entries: seq<Slot<EntryKey, int>>, size: nat) {
    Distinct(entries) && forall i :: 0 <= i < |entries| ==> 0 <= entries[i].value < size
  }

  /** The cache part of every reachable state. */
  ghost predicate CacheOk(p: Proxy, lim: Limits) {
    && Proper(p.entries, |p.heap|) && Distinct(p.negative)
    && p.bytes == Weight(p.entries, SizesOf(p.heap))
    && Fits(p.entries, SizesOf(p.heap), lim.maxBytes, lim.maxEntries)
    && |p.negative| <= lim.negativeMaxEntries
  }

  // ---------------------------------------------------------------- the object

  class TileProxy {
    const lim: Limits
    var entries: seq<Slot<EntryKey, int>>
    var heap: seq<CacheEntry>
    var bytes: int
    var evictions: int
    var negative: seq<Slot<MissKey, int>>
    var fetches: seq<Fetch>
    var inFlight: map<EntryKey, nat>
    var breaker: map<Upstream, int>

    ghost function Value(): Proxy
      reads this
    {
      Proxy(entries, heap, bytes, evictions, negative, fetches, inFlight, breaker)
    }

    constructor (lim: Limits)
      ensures this.lim == lim && Value() == EMPTY && CacheOk(Value(), lim)
    {
      this.lim := lim;
      entries, heap, bytes, evictions, negative, fetches := [], [], 0, 0, [], [];
      inFlight, breaker := map[], map[];
    }

    method Store(key: EntryKey, e: CacheEntry)
      requires CacheOk(Value(), lim)
      modifies this
      ensures Value() == Stored(old(Value()), lim, key, e)
      ensures CacheOk(Value(), lim)
    {
      hide Dropped, Fits, Weight, Renewed, Find, SizesOf;
      ghost var p := Value();
      var previous := Find(entries, key);
      FindFacts(entries, key);
      if previous.Some? {
        bytes := bytes - |heap[previous.value].body|;
      }
      StoredWeight(p, key, e);
      StoredIsProper(p, key, e);
      heap := heap + [e];
      entries := Renewed(entries, key, |heap| - 1);
      bytes := bytes + |e.body|;
      Evict();
    }

    // The loop of `store`: drop the oldest until both bounds hold.
    method Evict()
      requires bytes == Weight(entries, SizesOf(heap)) && Proper(entries, |heap|)
      modifies this`entries, this`bytes, this`evictions
      ensures var n := Dropped(old(entries), SizesOf(heap), lim.maxBytes, lim.maxEntries);
              entries == old(entries)[n..] && evictions == old(evictions) + n
      ensures bytes == Weight(entries, SizesOf(heap)) && Proper(entries, |heap|)
      ensures Fits(entries, SizesOf(heap), lim.maxBytes, lim.maxEntries)
    {
      ghost var list, gone := entries, 0;
      while (bytes > lim.maxBytes || |entries| > lim.maxEntries) && |entries| > 0
        invariant gone <= |list| && entries == list[gone..] && evictions == old(evictions) + gone
        invariant bytes == Weight(entries, SizesOf(heap)) && Proper(entries, |heap|)
        invariant Dropped(list, SizesOf(heap), lim.maxBytes, lim.maxEntries)
               == gone + Dropped(entries, SizesOf(heap), lim.maxBytes, lim.maxEntries)
        decreases |entries|
      {
        assert list[gone..][1..] == list[gone + 1..];
        SuffixIsProper(entries, 1, |heap|);
        var oldest := entries[0];
        entries := entries[1..];
        bytes := bytes - |heap[oldest.value].body|;
        evictions := evictions + 1;
        gone := gone + 1;
      }
    }

    method RememberNegative(key: MissKey, now: int)
      requires CacheOk(Value(), lim)
      modifies this`negative
      ensures Value() == Noted(old(Value()), lim, key, now)
      ensures CacheOk(Value(), lim)
    {
      RenewedFacts(negative, key, now + lim.negativeTtlMs);
      negative := Renewed(negative, key, now + lim.negativeTtlMs);
      EvictNegative();
    }

    // The loop of `rememberNegative`.
    method EvictNegative()
      requires Distinct(negative)
      modifies this`negative
      ensures negative == old(negative)[Excess(|old(negative)|, lim.negativeMaxEntries)..]
      ensures Distinct(negative) && |negative| <= lim.negativeMaxEntries
    {
      ghost var list, gone := negative, 0;
      while |negative| > lim.negativeMaxEntries
        invariant gone <= |list| && negative == list[gone..]
        invariant gone <= Excess(|list|, lim.negativeMaxEntries)
        decreases |negative|
      {
        assert list[gone..][1..] == list[gone + 1..];
        negative := negative[1..];
        gone := gone + 1;
      }
      SuffixIsDistinct(list, gone);
    }

    method BreakerOpenUntil(u: Upstream, now: int) returns (until: Option<int>)
      requires CacheOk(Value(), lim)
      modifies this`breaker
      ensures Value() == BreakerChecked(old(Value()), u, now)
      ensures until == Get(breaker, u) && (until.Some? ==> until.value > now)
      ensures CacheOk(Value(), lim)
    {
      if u !in breaker {
        return None;
      }
      if breaker[u] <= now {
        breaker := breaker - {u};
        return None;
      }
      return Some(breaker[u]);
    }

    method InFlightFetch(key: EntryKey, etag: Option<string>, startedAt: int) returns (f: nat)
      requires CacheOk(Value(), lim)
      modifies this`fetches, this`inFlight
      ensures (Value(), f) == Joined(old(Value()), key, etag, startedAt)
      ensures CacheOk(Value(), lim)
    {
      if key in inFlight {
        return inFlight[key];
      }
      f := |fetches|;
      fetches := fetches + [Fetch(key, etag, startedAt, Running)];
      inFlight := inFlight[key := f];
    }

    // `serve` up to its first await.
    method Serve(v: Visit) returns (r: Progress)
      requires CacheOk(Value(), lim)
      modifies this
      ensures (Value(), r) == Started(old(Value()), lim, v)
      ensures CacheOk(Value(), lim)
    {
      var until := Find(negative, MissOf(v));
      if until.Some? && until.value > v.started {
        return Finished(Missing, []);
      }
      WithoutFacts(negative, MissOf(v));
      WithoutIsDistinct(negative, MissOf(v));
      negative := Without(negative, MissOf(v));
      r := TryUpstreams(v, Loop(0, false, None, []), v.started);
    }

    // The loop over the upstreams, up to the next await or the end of the call.
    method TryUpstreams(v: Visit, start: Loop, now: int) returns (r: Progress)
      requires CacheOk(Value(), lim)
      modifies this
      ensures (Value(), r) == Walk(old(Value()), lim, v, start, now)
      ensures CacheOk(Value(), lim)
    {
      hide CacheOk, Concluded, Find, Joined, BreakerChecked, Renewed, Earliest;
      var l, order := start, Order(v);
      while l.at < |order|
        invariant Walk(Value(), lim, v, l, now) == Walk(old(Value()), lim, v, start, now)
        invariant CacheOk(Value(), lim)
        decreases |order| - l.at
      {
        var u := order[l.at];
        if HasTemplate(u, v.tile.layer) {
          var key := EntryKey(u, v.tile);
          var cached := Find(entries, key);
          FoundIsStored(Value(), lim, key);
          if cached.Some? && Fresh(heap[cached.value], v.started) {
            TouchKeeps(Value(), lim, key, cached.value);
            entries := Renewed(entries, key, cached.value);
            return Finished(ServeEntry(u, heap[cached.value]), l.outcomes);
          }
          var openUntil: Option<int> := None;
          if u.Osm? {
            openUntil := BreakerOpenUntil(u, v.started);
          }
          if openUntil.None? {
            var f := InFlightFetch(key, if cached.Some? then heap[cached.value].etag else None, v.started);
            return Waiting(Task(v, l, cached, f));
          }
          if cached.Some? {
            return Finished(ServeEntry(u, heap[cached.value]), l.outcomes);
          }
          l := l.(throttledUntil := Earliest(l.throttledUntil, openUntil.value));
        }
        l := l.(at := l.at + 1);
      }
      r := Conclude(v, l, now);
    }

    method Conclude(v: Visit, l: Loop, now: int) returns (r: Progress)
      requires CacheOk(Value(), lim)
      modifies this`negative
      ensures (Value(), r) == Concluded(old(Value()), lim, v, l, now)
      ensures CacheOk(Value(), lim)
    {
      if l.sawNotFound {
        RememberNegative(MissOf(v), now);
        return Finished(Missing, l.outcomes);
      }
      if l.throttledUntil.Some? {
        return Finished(Busy(Max(1, (l.throttledUntil.value - now + 999) / 1000)), l.outcomes);
      }
      r := Finished(Unavailable, l.outcomes);
    }

    // `serve` from an await to the next one.
    method Resume(t: Task, outcome: Outcome, now: int) returns (r: Progress)
      requires CacheOk(Value(), lim)
      requires t.loop.at < |Order(t.visit)| && (t.cached.Some? ==> 0 <= t.cached.value < |heap|)
      modifies this
      ensures (Value(), r) == Continued(old(Value()), lim, t, outcome, now)
      ensures CacheOk(Value(), lim)
    {
      var u := Order(t.visit)[t.loop.at];
      var l := t.loop.(at := t.loop.at + 1, outcomes := t.loop.outcomes + [outcome]);
      if outcome.NotModified? && t.cached.Some? {
        var e := heap[t.cached.value].(storedAt := now, maxAgeMs := outcome.maxAgeMs);
        SameSizes(heap, t.cached.value, e);
        heap := heap[t.cached.value := e];
        return Finished(ServeEntry(u, e), l.outcomes);
      }
      if outcome.Ok? {
        var e := CacheEntry(outcome.body, outcome.contentType, outcome.etag, now, outcome.maxAgeMs);
        Store(EntryKey(u, t.visit.tile), e);
        return Finished(ServeEntry(u, e), l.outcomes);
      }
      if outcome.NotFound? {
        l := l.(sawNotFound := true);
      } else if outcome.Throttled? && u.Osm? {
        var until := now + outcome.retryAfterMs;
        breaker := breaker[u := Max(if u in breaker then breaker[u] else 0, until)];
        if t.cached.Some? {
          return Finished(ServeEntry(u, heap[t.cached.value]), l.outcomes);
        }
        l := l.(throttledUntil := Earliest(l.throttledUntil, until));
      }
      r := TryUpstreams(t.visit, l, now);
    }

    // The `finally` of a fetch: it leaves the in-flight map before any waiter runs.
    method Settle(f: nat)
      requires f < |fetches| && fetches[f].phase.Answered?
      modifies this`fetches, this`inFlight
      ensures Value() == SettledFetch(old(Value()), f)
    {
      var fetch := fetches[f];
      fetches := fetches[f := fetch.(phase := Settled(fetch.phase.outcome))];
      if fetch.key in inFlight && inFlight[fetch.key] == f {
        inFlight := inFlight - {fetch.key};
      }
    }
  }

  // ---------------------------------------------------------------- lemmas of the object

  lemma SuffixIsDistinct<K(!new), V(!new)>(m: seq<Slot<K, V>>, n: nat)
    requires n <= |m| && Distinct(m)
    ensures Distinct(m[n..])
  {
    forall i, j | 0 <= i < j < |m[n..]| ensures m[n..][i].key != m[n..][j].key {
      assert m[n..][i] == m[n + i] && m[n..][j] == m[n + j];
    }
  }

  lemma SuffixIsProper(m: seq<Slot<EntryKey, int>>, n: nat, size: nat)
    requires n <= |m| && Proper(m, size)
    ensures Proper(m[n..], size)
  {
    SuffixIsDistinct(m, n);
  }

  lemma StoredIsProper(p: Proxy, key: EntryKey, e: CacheEntry)
    requires Proper(p.entries, |p.heap|)
    ensures Proper(Renewed(p.entries, key, |p.heap|), |p.heap + [e]|)
  {
    var list := Renewed(p.entries, key, |p.heap|);
    RenewedFacts(p.entries, key, |p.heap|);
    forall i | 0 <= i < |list| ensures 0 <= list[i].value <= |p.heap| {
      assert list[i] in list;
    }
  }

  // The running byte count, before any eviction, is the weight of the renewed map.
  lemma StoredWeight(p: Proxy, key: EntryKey, e: CacheEntry)
    requires Proper(p.entries, |p.heap|)
    ensures var was := Find(p.entries, key);
            Weight(Renewed(p.entries, key, |p.heap|), SizesOf(p.heap + [e]))
            == Weight(p.entries, SizesOf(p.heap)) + |e.body|
               - if was.Some? && 0 <= was.value < |p.heap| then |p.heap[was.value].body| else 0
  {
    var rest, sizes, sizes' := Without(p.entries, key), SizesOf(p.heap), SizesOf(p.heap + [e]);
    var slot: seq<Slot<EntryKey, int>> := [Slot(key, |p.heap|)];
    WeightSplits(rest, slot, sizes');
    WeightWithout(p.entries, key, sizes);
    WithoutFacts(p.entries, key);
    WeightSameSizes(rest, sizes, sizes');
    assert slot[1..] == [];
    assert Weight(slot, sizes') == |e.body|;
  }

  lemma FoundIsStored(p: Proxy, lim: Limits, key: EntryKey)
    requires CacheOk(p, lim)
    ensures Find(p.entries, key).Some? ==> 0 <= Find(p.entries, key).value < |p.heap|
  {
    FindFacts(p.entries, key);
  }

  lemma TouchKeeps(p: Proxy, lim: Limits, key: EntryKey, ref: int)
    requires CacheOk(p, lim) && Find(p.entries, key) == Some(ref)
    ensures CacheOk(p.(entries := Renewed(p.entries, key, ref)), lim)
  {
    var rest, sizes, slot := Without(p.entries, key), SizesOf(p.heap), [Slot(key, ref)];
    RenewedFacts(p.entries, key, ref);
    FindFacts(p.entries, key);
    WeightSplits(rest, slot, sizes);
    WeightWithout(p.entries, key, sizes);
    assert slot[1..] == [];
    assert Weight(slot, sizes) == sizes[ref];
  }

  lemma SameSizes(heap: seq<CacheEntry>, ref: int, e: CacheEntry)
    requires 0 <= ref < |heap| && e.body == heap[ref].body
    ensures SizesOf(heap[ref := e]) == SizesOf(heap)
  {
  }
}
