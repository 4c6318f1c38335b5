/**
 The release activation registry (release-activation.ts): concurrent `activate` calls against a
 moving authority. A call is cut at its awaits; `Segment` is the code that runs when the awaited
 answer arrives, and between two segments the authority and every other call may move.
 */
module Activation {
  import opened Prelude
  import opened Authority
  import Machine

  /** `id` is the identity of the record object: the registry compares records by reference. */
  datatype Record = Record(
    id: nat, artifactId: string, releaseId: string,
    profileName: string, policyRevision: string, activatedAt: int)

  /** The answer a suspended call waits for. */
  datatype Pc = ReadVersion | ReadRelease | ReadProfile | RereadRelease | RereadProfile | ConfirmRelease | ConfirmVersion

  datatype Call = Call(
    artifactId: string, releaseId: string, previous: Option<Record>,
    pc: Pc, version: string, profile: Option<Profile>, draft: Option<Record>)

  datatype Progress = Waiting(call: Call) | Finished(result: Option<Record>)

  /** The registry as a value: the Map, and a counter from which record identities are drawn. */
  datatype View = View(active: map<string, Record>, nextId: nat)

  function QueryOf(artifactId: string): Query {
    Query(artifactId, None, None)
  }

  predicate Points(w: World, artifactId: string, releaseId: string) {
    var release := ReleaseOf(w, artifactId, None);
    release.Some? && release.value.artifactId == artifactId && release.value.releaseId == releaseId
  }

  function BeginCall(v: View, artifactId: string, releaseId: string): Call {
    Call(artifactId, releaseId, Get(v.active, artifactId), ReadVersion, "", None, None)
  }

  /** The code between one await and the next; `w` is the state the awaited answer came from. */
  function Segment(v: View, c: Call, w: World, now: int): (View, Progress) {
    var refused := (v, Finished(None));
    match c.pc
    case ReadVersion =>
      var version := VersionOf(w, QueryOf(c.artifactId));
      if version.None? then refused else (v, Waiting(c.(pc := ReadRelease, version := version.value)))
    case ReadRelease =>
      if !Points(w, c.artifactId, c.releaseId) then refused else (v, Waiting(c.(pc := ReadProfile)))
    case ReadProfile =>
      var profile := ProfileOf(w, c.artifactId);
      if profile.None? then refused else (v, Waiting(c.(pc := RereadRelease, profile := profile)))
    case RereadRelease =>
      if !Points(w, c.artifactId, c.releaseId) then refused else (v, Waiting(c.(pc := RereadProfile)))
    case RereadProfile =>
      var profile := ProfileOf(w, c.artifactId);
      if profile.None? || c.profile.None? || profile.value.name != c.profile.value.name
         || profile.value.policyRevision != c.profile.value.policyRevision then refused
      else
        var draft := Record(v.nextId, c.artifactId, c.releaseId, profile.value.name, profile.value.policyRevision, now);
        (v.(nextId := v.nextId + 1), Waiting(c.(pc := ConfirmRelease, draft := Some(draft))))
    case ConfirmRelease =>
      if !Points(w, c.artifactId, c.releaseId) then refused else (v, Waiting(c.(pc := ConfirmVersion)))
    case ConfirmVersion =>
      if VersionOf(w, QueryOf(c.artifactId)) != Some(c.version) || c.draft.None? then refused
      else if Get(v.active, c.artifactId) != c.previous then refused
      else (v.(active := v.active[c.artifactId := c.draft.value]), Finished(c.draft))
  }

  class ActivationRegistry {
    var active: map<string, Record>
    var nextId: nat

    ghost function State(): View
      reads this
    {
      View(active, nextId)
    }

    constructor ()
      ensures State() == View(map[], 0)
    {
      active, nextId := map[], 0;
    }

    method Begin(artifactId: string, releaseId: string) returns (c: Call)
      ensures c == BeginCall(State(), artifactId, releaseId)
    {
      var previous := if artifactId in active then Some(active[artifactId]) else None;
      c := Call(artifactId, releaseId, previous, ReadVersion, "", None, None);
    }

    method Resume(c: Call, w: World, now: int) returns (p: Progress)
      modifies this
      ensures (State(), p) == Segment(old(State()), c, w, now)
    {
      p := Finished(None);
      match c.pc {
        case ReadVersion =>
          var version := VersionOf(w, QueryOf(c.artifactId));
          if version.Some? { p := Waiting(c.(pc := ReadRelease, version := version.value)); }
        case ReadRelease =>
          if Points(w, c.artifactId, c.releaseId) { p := Waiting(c.(pc := ReadProfile)); }
        case ReadProfile =>
          var profile := ProfileOf(w, c.artifactId);
          if profile.Some? { p := Waiting(c.(pc := RereadRelease, profile := profile)); }
        case RereadRelease =>
          if Points(w, c.artifactId, c.releaseId) { p := Waiting(c.(pc := RereadProfile)); }
        case RereadProfile =>
          var profile := ProfileOf(w, c.artifactId);
          if profile.None? || c.profile.None? { return; }
          if profile.value.name != c.profile.value.name { return; }
          if profile.value.policyRevision != c.profile.value.policyRevision { return; }
          var draft := Record(nextId, c.artifactId, c.releaseId, profile.value.name, profile.value.policyRevision, now);
          nextId := nextId + 1;
          p := Waiting(c.(pc := ConfirmRelease, draft := Some(draft)));
        case ConfirmRelease =>
          if Points(w, c.artifactId, c.releaseId) { p := Waiting(c.(pc := ConfirmVersion)); }
        case ConfirmVersion =>
          if VersionOf(w, QueryOf(c.artifactId)) != Some(c.version) || c.draft.None? { return; }
          var current := if c.artifactId in active then Some(active[c.artifactId]) else None;
          if current != c.previous { return; }
          active := active[c.artifactId := c.draft.value];
          p := Finished(c.draft);
      }
    }

    method Matches(artifactId: string, releaseId: string, policyRevision: string) returns (r: bool)
      ensures r <==> artifactId in active && active[artifactId].releaseId == releaseId
                     && active[artifactId].policyRevision == policyRevision
    {
      r := artifactId in active && active[artifactId].releaseId == releaseId
        && active[artifactId].policyRevision == policyRevision;
    }

    method CanUpgrade(artifactId: string, releaseId: string) returns (r: bool)
      ensures r <==> artifactId in active && active[artifactId].releaseId != releaseId
    {
      r := artifactId in active && active[artifactId].releaseId != releaseId;
    }
  }

  // ---------------------------------------------------------------- all interleavings

  /**
   A suspended call. `begun` is the timeline index at which it was called, `asked` the one at which
   its pending question was asked, `first` the one its version was read at.
   */
  datatype Flight = Flight(call: Call, begun: nat, asked: nat, first: nat)

  /** A write to the registry: its record, its version, and when that version was first and last read. */
  datatype Stored = Stored(record: Record, version: string, first: nat, last: nat)

  datatype State = State(timeline: seq<World>, view: View, flights: map<nat, Flight>, log: seq<Stored>)

  datatype Action =
    | Update(w: World)                                        // the authority moves
    | Begin(id: nat, artifactId: string, releaseId: string)   // a caller invokes activate
    | Resume(id: nat, at: nat, now: int)                      // an answer, completed at index `at`, is handled
    | Fail(id: nat)                                           // a read rejects and so does the call

  ghost predicate Enabled(s: State, a: Action) {
    match a
    case Update(w) => Timeline(s.timeline + [w])
    case Begin(id, _, _) => id !in s.flights
    case Resume(id, at, _) => id in s.flights && s.flights[id].asked <= at < |s.timeline|
    case Fail(id) => id in s.flights
  }

  function Resumed(s: State, id: nat, at: nat, now: int): State
    requires id in s.flights && at < |s.timeline|
  {
    var f := s.flights[id];
    var (view, progress) := Segment(s.view, f.call, s.timeline[at], now);
    match progress
    case Waiting(call) =>
      var first := if f.call.pc == ReadVersion then at else f.first;
      s.(view := view, flights := s.flights[id := Flight(call, f.begun, |s.timeline| - 1, first)])
    case Finished(result) =>
      s.(view := view, flights := s.flights - {id},
         log := if result.Some? then s.log + [Stored(result.value, f.call.version, f.first, at)] else s.log)
  }

  ghost predicate Step(s: State, a: Action, t: State) {
    Enabled(s, a) && |s.timeline| > 0 &&
    match a
    case Update(w) => t == s.(timeline := s.timeline + [w])
    case Begin(id, artifactId, releaseId) =>
      var now := |s.timeline| - 1;
      t == s.(flights := s.flights[id := Flight(BeginCall(s.view, artifactId, releaseId), now, now, now)])
    case Resume(id, at, now) => t == Resumed(s, id, at, now)
    case Fail(id) => t == s.(flights := s.flights - {id})
  }

  ghost predicate Init(s: State) {
    |s.timeline| > 0 && Timeline(s.timeline) && s.view == View(map[], 0) && s.flights == map[] && s.log == []
  }

  // ---------------------------------------------------------------- the invariant

  /** What a call has established by the time it waits at `pc`. */
  ghost predicate FlightGood(s: State, f: Flight) {
    var c := f.call;
    var q := QueryOf(c.artifactId);
    && f.begun <= f.asked < |s.timeline|
    && f.begun <= f.first
    && (c.pc != ReadVersion ==> f.first <= f.asked && VersionOf(s.timeline[f.first], q) == Some(c.version))
    && (c.previous.Some? ==> exists k :: 0 <= k < |s.log| && s.log[k].record == c.previous.value)
    && (c.pc == ConfirmRelease || c.pc == ConfirmVersion ==> c.draft.Some? && DraftGood(s, f, c.draft.value))
    && (c.pc == ConfirmVersion ==>
      exists i :: f.first <= i <= f.asked && Points(s.timeline[i], c.artifactId, c.releaseId))
  }

  ghost predicate DraftGood(s: State, f: Flight, r: Record)
    requires f.asked < |s.timeline|
  {
    var c := f.call;
    && r.artifactId == c.artifactId && r.releaseId == c.releaseId && r.id < s.view.nextId
    && (forall k :: 0 <= k < |s.log| ==> s.log[k].record.id != r.id)
    && exists i :: f.first <= i <= f.asked && Shows(s.timeline[i], r)
  }

  /** The authority shows the profile and policy revision of the record. */
  ghost predicate Shows(w: World, r: Record) {
    var profile := ProfileOf(w, r.artifactId);
    profile.Some? && profile.value.name == r.profileName && profile.value.policyRevision == r.policyRevision
  }

  ghost predicate DraftsDistinct(s: State) {
    forall x, y :: x in s.flights && y in s.flights && x != y
      && s.flights[x].call.draft.Some? && s.flights[y].call.draft.Some?
      ==> s.flights[x].call.draft.value.id != s.flights[y].call.draft.value.id
  }

  /** A record is the authority's release and profile at one version, in force from first to last. */
  ghost predicate StoredGood(tl: seq<World>, e: Stored) {
    var q := QueryOf(e.record.artifactId);
    && e.first <= e.last < |tl|
    && VersionOf(tl[e.first], q) == Some(e.version) && VersionOf(tl[e.last], q) == Some(e.version)
    && forall i :: e.first <= i <= e.last ==> Points(tl[i], e.record.artifactId, e.record.releaseId) && Shows(tl[i], e.record)
  }

  ghost predicate Ordered(s: State) {
    forall j, k :: 0 <= j < k < |s.log| && s.log[j].record.artifactId == s.log[k].record.artifactId
      ==> s.log[j].last <= s.log[k].first
  }

  /** A call whose captured record is still active began after every write for its artifact. */
  ghost predicate Current(s: State, f: Flight) {
    Get(s.view.active, f.call.artifactId) == f.call.previous ==>
      forall k :: 0 <= k < |s.log| && s.log[k].record.artifactId == f.call.artifactId ==> s.log[k].last <= f.begun
  }

  ghost predicate ActiveLogged(s: State) {
    && (forall a :: a in s.view.active ==>
      s.view.active[a].artifactId == a && exists k :: 0 <= k < |s.log| && s.log[k].record == s.view.active[a])
    && (forall k :: 0 <= k < |s.log| ==> s.log[k].record.id < s.view.nextId)
  }

  ghost predicate FlightsGood(s: State) {
    forall x :: x in s.flights ==> FlightGood(s, s.flights[x]) && Current(s, s.flights[x])
  }

  ghost predicate DraftsBounded(s: State) {
    forall x :: x in s.flights && s.flights[x].call.draft.Some? ==> s.flights[x].call.draft.value.id < s.view.nextId
  }

  ghost predicate LogGood(s: State) {
    forall k :: 0 <= k < |s.log| ==> StoredGood(s.timeline, s.log[k])
  }

  ghost predicate Calls(s: State) {
    && |s.timeline| > 0
    && FlightsGood(s) && DraftsBounded(s) && DraftsDistinct(s)
    && LogGood(s) && Ordered(s) && ActiveLogged(s)
  }

  ghost predicate Inv(s: State) {
    Timeline(s.timeline) && Calls(s)
  }

  // An update only extends the timeline.
  lemma LongerTimeline(s: State, f: Flight, t: State)
    requires FlightGood(s, f) && Current(s, f)
    requires s.timeline <= t.timeline && t.view == s.view && t.log == s.log
    ensures FlightGood(t, f) && Current(t, f)
  {
    assert forall i :: 0 <= i < |s.timeline| ==> t.timeline[i] == s.timeline[i];
  }

  lemma UpdateKeeps(s: State, w: World, t: State)
    requires Calls(s) && t == s.(timeline := s.timeline + [w])
    ensures Calls(t)
  {
    hide FlightGood, Current;
    assert s.timeline <= t.timeline;
    forall x | x in t.flights
      ensures FlightGood(t, t.flights[x]) && Current(t, t.flights[x])
    {
      LongerTimeline(s, s.flights[x], t);
    }
    forall k | 0 <= k < |t.log|
      ensures StoredGood(t.timeline, t.log[k])
    {
      LongerForStored(s.timeline, t.timeline, s.log[k]);
    }
    hide StoredGood;
  }

  lemma LongerForStored(tl: seq<World>, more: seq<World>, e: Stored)
    requires StoredGood(tl, e) && tl <= more
    ensures StoredGood(more, e)
  {
    assert forall i :: 0 <= i < |tl| ==> more[i] == tl[i];
  }

  lemma NewFlight(s: State, artifactId: string, releaseId: string, f: Flight, t: State)
    requires LogGood(s) && ActiveLogged(s) && |s.timeline| > 0
    requires t.timeline == s.timeline && t.view == s.view && t.log == s.log
    requires f.call == BeginCall(s.view, artifactId, releaseId)
    requires f.begun == f.asked == f.first == |s.timeline| - 1
    ensures FlightGood(t, f) && Current(t, f)
  {
    assert forall k :: 0 <= k < |s.log| ==> StoredGood(s.timeline, s.log[k]);
  }

  lemma BeginKeeps(s: State, id: nat, artifactId: string, releaseId: string, f: Flight, t: State)
    requires Calls(s) && id !in s.flights && t == s.(flights := s.flights[id := f])
    requires f.call == BeginCall(s.view, artifactId, releaseId)
    requires f.begun == f.asked == f.first == |s.timeline| - 1
    ensures Calls(t)
  {
    hide FlightGood, Current, StoredGood;
    NewFlight(s, artifactId, releaseId, f, t);
    forall x | x in t.flights && x != id
      ensures FlightGood(t, t.flights[x]) && Current(t, t.flights[x])
    {
      FlightFrame(s, s.flights[x], t);
    }
  }

  lemma DropKeeps(s: State, id: nat, t: State)
    requires Calls(s) && t == s.(flights := s.flights - {id})
    ensures Calls(t)
  {
    forall x | x in t.flights
      ensures FlightGood(t, t.flights[x]) && Current(t, t.flights[x])
    {
      assert FlightGood(s, s.flights[x]) && Current(s, s.flights[x]);
    }
  }

  // A segment that suspends again establishes what the next segment relies on ...
  lemma WaitEstablishes(s: State, id: nat, at: nat, now: int, t: State)
    requires Calls(s) && Answered(s, id, at)
    requires t == Resumed(s, id, at, now) && id in t.flights
    ensures FlightGood(t, t.flights[id]) && Current(t, t.flights[id])
  {
    var f := s.flights[id];
    assert FlightGood(s, f) && Current(s, f);
    hide FlightGood, Current, Points, Shows;
    if f.call.pc == RereadProfile {
      DraftEstablished(s, id, at, now, t);
    } else {
      CheckEstablished(s, id, at, now, t);
    }
  }

  lemma DraftEstablished(s: State, id: nat, at: nat, now: int, t: State)
    requires ActiveLogged(s) && Answered(s, id, at) && s.flights[id].call.pc == RereadProfile
    requires FlightGood(s, s.flights[id]) && Current(s, s.flights[id])
    requires t == Resumed(s, id, at, now) && id in t.flights
    ensures FlightGood(t, t.flights[id]) && Current(t, t.flights[id])
  {
    hide Points;
    assert Shows(t.timeline[at], t.flights[id].call.draft.value);
  }

  lemma CheckEstablished(s: State, id: nat, at: nat, now: int, t: State)
    requires Answered(s, id, at) && s.flights[id].call.pc != RereadProfile
    requires FlightGood(s, s.flights[id]) && Current(s, s.flights[id])
    requires t == Resumed(s, id, at, now) && id in t.flights
    ensures FlightGood(t, t.flights[id]) && Current(t, t.flights[id])
  {
    hide Points, Shows;
    var f, g := s.flights[id], t.flights[id];
    if f.call.pc == ConfirmRelease {
      assert Points(t.timeline[at], g.call.artifactId, g.call.releaseId);
    }
  }

  // ... and leaves the other calls and the log alone.
  lemma WaitKeeps(s: State, id: nat, g: Flight, t: State)
    requires Calls(s) && id in s.flights && t.flights == s.flights[id := g]
    requires t.timeline == s.timeline && t.log == s.log && t.view.active == s.view.active
    requires t.view.nextId >= s.view.nextId
    requires g.call.draft == s.flights[id].call.draft
          || (g.call.draft.Some? && g.call.draft.value.id == s.view.nextId < t.view.nextId)
    requires FlightGood(t, g) && Current(t, g)
    ensures Calls(t)
  {
    hide FlightGood, Current, StoredGood;
    forall x | x in t.flights && x != id
      ensures FlightGood(t, t.flights[x]) && Current(t, t.flights[x])
    {
      FlightFrame(s, s.flights[x], t);
    }
  }

  lemma FlightFrame(s: State, f: Flight, t: State)
    requires FlightGood(s, f) && Current(s, f)
    requires t.timeline == s.timeline && t.log == s.log && t.view.active == s.view.active
    requires t.view.nextId >= s.view.nextId
    ensures FlightGood(t, f) && Current(t, f)
  {
  }

  /** The state after the write of record `r` by call `id`. */
  ghost predicate Committed(s: State, id: nat, at: nat, r: Record, t: State) {
    && id in s.flights && s.flights[id].call.pc == ConfirmVersion && s.flights[id].asked <= at < |s.timeline|
    && s.flights[id].call.draft == Some(r)
    && (var f := s.flights[id]; var c := f.call;
        && Get(s.view.active, c.artifactId) == c.previous
        && VersionOf(s.timeline[at], QueryOf(c.artifactId)) == Some(c.version)
        && t == s.(view := s.view.(active := s.view.active[c.artifactId := r]), flights := s.flights - {id},
                   log := s.log + [Stored(r, c.version, f.first, at)]))
  }

  // The fence: between the two version reads the authority showed exactly this record.
  lemma CommitIsOneState(s: State, id: nat, at: nat, r: Record, t: State)
    requires Calls(s) && Timeline(s.timeline) && Committed(s, id, at, r, t)
    ensures StoredGood(s.timeline, Stored(r, s.flights[id].call.version, s.flights[id].first, at))
  {
    var f := s.flights[id];
    assert FlightGood(s, f);
    var i :| f.first <= i <= f.asked && Points(s.timeline[i], f.call.artifactId, f.call.releaseId);
    var j :| f.first <= j <= f.asked && Shows(s.timeline[j], r);
    FencedRecord(s.timeline, f.call, f.first, i, j, at, r);
  }

  lemma FencedRecord(tl: seq<World>, c: Call, first: nat, i: nat, j: nat, last: nat, r: Record)
    requires Timeline(tl) && first <= i <= last && first <= j <= last < |tl|
    requires VersionOf(tl[first], QueryOf(c.artifactId)) == VersionOf(tl[last], QueryOf(c.artifactId)) == Some(c.version)
    requires Points(tl[i], c.artifactId, c.releaseId) && Shows(tl[j], r)
    requires r.artifactId == c.artifactId && r.releaseId == c.releaseId
    ensures StoredGood(tl, Stored(r, c.version, first, last))
  {
    var q := QueryOf(c.artifactId);
    FencedRead(tl, q, first, last);
    forall k | first <= k <= last
      ensures Points(tl[k], c.artifactId, c.releaseId) && Shows(tl[k], r)
    {
      SameAnswers(tl[k], tl[i], tl[j], c, r);
    }
  }

  lemma SameAnswers(w: World, u: World, v: World, c: Call, r: Record)
    requires AnswersFor(w, QueryOf(c.artifactId)) == AnswersFor(u, QueryOf(c.artifactId)) == AnswersFor(v, QueryOf(c.artifactId))
    requires Points(u, c.artifactId, c.releaseId) && Shows(v, r) && r.artifactId == c.artifactId
    ensures Points(w, c.artifactId, c.releaseId) && Shows(w, r)
  {
  }

  // The comparison: no other call for the artifact still holds the record that is now active.
  lemma CommitSpares(s: State, id: nat, x: nat, at: nat, r: Record, t: State)
    requires Committed(s, id, at, r, t) && x in s.flights && x != id
    requires DraftsDistinct(s) && FlightGood(s, s.flights[id])
    requires FlightGood(s, s.flights[x]) && Current(s, s.flights[x])
    ensures FlightGood(t, t.flights[x]) && Current(t, t.flights[x])
  {
    var h := s.flights[x];
    assert DraftGood(s, s.flights[id], r);
    if h.call.previous.Some? {
      var k :| 0 <= k < |s.log| && s.log[k].record == h.call.previous.value;
      assert s.log[k].record.id != r.id;
    }
    GrownLog(s, h, r, t);
  }

  lemma GrownLog(s: State, h: Flight, r: Record, t: State)
    requires FlightGood(s, h) && Current(s, h)
    requires t.timeline == s.timeline && t.view.nextId == s.view.nextId
    requires |t.log| == |s.log| + 1 && t.log[..|s.log|] == s.log && t.log[|s.log|].record == r
    requires h.call.draft.Some? ==> h.call.draft.value.id != r.id
    requires t.view.active == s.view.active[r.artifactId := r] && h.call.previous != Some(r)
    ensures FlightGood(t, h) && Current(t, h)
  {
    assert forall k :: 0 <= k < |s.log| ==> t.log[k] == t.log[..|s.log|][k];
  }

  lemma CommitOrders(s: State, id: nat, at: nat, r: Record, t: State)
    requires Calls(s) && Committed(s, id, at, r, t)
    ensures Ordered(t)
  {
    assert FlightGood(s, s.flights[id]) && Current(s, s.flights[id]);
  }

  lemma CommitKeeps(s: State, id: nat, at: nat, r: Record, t: State)
    requires Calls(s) && Committed(s, id, at, r, t)
    requires StoredGood(s.timeline, Stored(r, s.flights[id].call.version, s.flights[id].first, at))
    ensures Calls(t)
  {
    hide FlightGood, Current, StoredGood;
    forall x | x in t.flights
      ensures FlightGood(t, t.flights[x]) && Current(t, t.flights[x])
    {
      CommitSpares(s, id, x, at, r, t);
    }
    CommitOrders(s, id, at, r, t);
    CommitLogs(s, id, at, r, t);
  }

  lemma CommitLogs(s: State, id: nat, at: nat, r: Record, t: State)
    requires ActiveLogged(s) && Committed(s, id, at, r, t) && FlightGood(s, s.flights[id])
    ensures ActiveLogged(t)
  {
    assert t.log[|s.log|].record == r;
    assert forall k :: 0 <= k < |s.log| ==> t.log[k] == s.log[k];
    forall a | a in t.view.active
      ensures t.view.active[a].artifactId == a && exists k :: 0 <= k < |t.log| && t.log[k].record == t.view.active[a]
    {
      if a != s.flights[id].call.artifactId {
        var k :| 0 <= k < |s.log| && s.log[k].record == s.view.active[a];
        assert t.log[k].record == t.view.active[a];
      }
    }
  }

  ghost predicate Answered(s: State, id: nat, at: nat) {
    id in s.flights && s.flights[id].asked <= at < |s.timeline|
  }

  lemma Frames(s: State, id: nat, at: nat, now: int, t: State)
    requires Answered(s, id, at) && t == Resumed(s, id, at, now)
    ensures id !in t.flights && t.log == s.log ==> t == s.(flights := s.flights - {id})
    ensures id in t.flights ==> t.flights == s.flights[id := t.flights[id]]
    ensures id in t.flights ==> t.timeline == s.timeline && t.log == s.log && t.view.active == s.view.active
    ensures id in t.flights ==> t.view.nextId >= s.view.nextId
    ensures id in t.flights ==> var d := t.flights[id].call.draft;
      d == s.flights[id].call.draft || (d.Some? && d.value.id == s.view.nextId < t.view.nextId)
  {
  }

  lemma WaitStep(s: State, id: nat, at: nat, now: int, t: State)
    requires Calls(s) && Answered(s, id, at) && t == Resumed(s, id, at, now) && id in t.flights
    ensures Calls(t)
  {
    Frames(s, id, at, now, t);
    WaitEstablishes(s, id, at, now, t);
    WaitKeeps(s, id, t.flights[id], t);
  }

  lemma CommitStep(s: State, id: nat, at: nat, r: Record, t: State)
    requires Calls(s) && Timeline(s.timeline) && Committed(s, id, at, r, t)
    ensures Calls(t)
  {
    CommitIsOneState(s, id, at, r, t);
    CommitKeeps(s, id, at, r, t);
  }

  lemma ResumeKeeps(s: State, id: nat, at: nat, now: int, t: State)
    requires Calls(s) && Timeline(s.timeline) && Answered(s, id, at) && t == Resumed(s, id, at, now)
    ensures Calls(t)
  {
    if id in t.flights {
      WaitStep(s, id, at, now, t);
    } else if t.log == s.log {
      Frames(s, id, at, now, t);
      DropKeeps(s, id, t);
    } else {
      var r := CommitOf(s, id, at, now, t);
      CommitStep(s, id, at, r, t);
    }
  }

  lemma CommitOf(s: State, id: nat, at: nat, now: int, t: State) returns (r: Record)
    requires Answered(s, id, at)
    requires t == Resumed(s, id, at, now) && id !in t.flights && t.log != s.log
    ensures Committed(s, id, at, r, t)
  {
    r := s.flights[id].call.draft.value;
  }

  lemma StepKeeps(s: State, a: Action, t: State)
    requires Inv(s) && Step(s, a, t)
    ensures Inv(t)
  {
    match a
    case Update(w) => UpdateKeeps(s, w, t);
    case Begin(id, artifactId, releaseId) => BeginKeeps(s, id, artifactId, releaseId, t.flights[id], t);
    case Resume(id, at, now) => ResumeKeeps(s, id, at, now, t);
    case Fail(id) => DropKeeps(s, id, t);
  }

  lemma Preservation()
    ensures Machine.Preserves(Step, Inv)
  {
    forall s, a, t | Inv(s) && Step(s, a, t)
      ensures Inv(t)
    {
      StepKeeps(s, a, t);
    }
  }

  // ---------------------------------------------------------------- the authority's own tables

  /** The authority has the artifact released as `releaseId`. */
  ghost predicate ReleasedAs(w: World, artifactId: string, releaseId: string) {
    && (artifactId, None) in w.releases
    && w.releases[(artifactId, None)].artifactId == artifactId && w.releases[(artifactId, None)].releaseId == releaseId
  }

  ghost predicate ProfiledAs(w: World, artifactId: string, name: string, policyRevision: string) {
    && artifactId in w.profiles
    && w.profiles[artifactId].name == name && w.profiles[artifactId].policyRevision == policyRevision
  }

  ghost predicate AtVersion(w: World, artifactId: string, version: string) {
    && version != ""
    && Query(artifactId, None, None) in w.versions && w.versions[Query(artifactId, None, None)] == version
  }

  lemma TablesSaySo(w: World, artifactId: string, releaseId: string, r: Record, version: string)
    ensures Points(w, artifactId, releaseId) <==> ReleasedAs(w, artifactId, releaseId)
    ensures Shows(w, r) <==> ProfiledAs(w, r.artifactId, r.profileName, r.policyRevision)
    ensures VersionOf(w, QueryOf(artifactId)) == Some(version) <==> AtVersion(w, artifactId, version)
  {
  }

  /** What a write to the registry promises, in terms of the tables alone. */
  ghost predicate InForceThroughout(tl: seq<World>, e: Stored) {
    && e.first <= e.last < |tl|
    && AtVersion(tl[e.first], e.record.artifactId, e.version) && AtVersion(tl[e.last], e.record.artifactId, e.version)
    && forall i :: e.first <= i <= e.last ==>
         && ReleasedAs(tl[i], e.record.artifactId, e.record.releaseId)
         && ProfiledAs(tl[i], e.record.artifactId, e.record.profileName, e.record.policyRevision)
  }

  lemma StoredInForce(tl: seq<World>, e: Stored)
    requires StoredGood(tl, e)
    ensures InForceThroughout(tl, e)
  {
    TablesSaySo(tl[e.first], e.record.artifactId, e.record.releaseId, e.record, e.version);
    TablesSaySo(tl[e.last], e.record.artifactId, e.record.releaseId, e.record, e.version);
    forall i | e.first <= i <= e.last
      ensures ReleasedAs(tl[i], e.record.artifactId, e.record.releaseId)
      ensures ProfiledAs(tl[i], e.record.artifactId, e.record.profileName, e.record.policyRevision)
    {
      TablesSaySo(tl[i], e.record.artifactId, e.record.releaseId, e.record, e.version);
    }
  }

  // ---------------------------------------------------------------- main results

  // In every interleaving, each stored record is what the authority showed at one version, and for
  // one artifact a record validated at an older version is never stored after a newer one.
  lemma ActivationIsOrdered(s0: State, actions: seq<Action>, s: State)
    requires Init(s0) && Machine.Run(Step, s0, actions, s)
    ensures forall k :: 0 <= k < |s.log| ==> InForceThroughout(s.timeline, s.log[k])
    ensures forall j, k :: 0 <= j < k < |s.log| && s.log[j].record.artifactId == s.log[k].record.artifactId ==>
      !Older(s.timeline, QueryOf(s.log[j].record.artifactId), s.log[k].version, s.log[j].version)
  {
    Preservation();
    Machine.RunKeeps(Step, Inv, s0, actions, s);
    forall k | 0 <= k < |s.log| ensures InForceThroughout(s.timeline, s.log[k]) {
      StoredInForce(s.timeline, s.log[k]);
    }
    forall j, k | 0 <= j < k < |s.log| && s.log[j].record.artifactId == s.log[k].record.artifactId
      ensures !Older(s.timeline, QueryOf(s.log[j].record.artifactId), s.log[k].version, s.log[j].version)
    {
      assert StoredGood(s.timeline, s.log[j]) && StoredGood(s.timeline, s.log[k]);
      NotOlder(s.timeline, QueryOf(s.log[j].record.artifactId), s.log[j].version, s.log[j].last,
               s.log[k].version, s.log[k].first);
    }
  }

  // What `active` and `matches` answer was, at some moment, the authority's release and policy.
  lemma ActiveWasAuthorised(s0: State, actions: seq<Action>, s: State, artifactId: string)
    requires Init(s0) && Machine.Run(Step, s0, actions, s) && artifactId in s.view.active
    ensures var r := s.view.active[artifactId];
      exists i :: 0 <= i < |s.timeline| && ReleasedAs(s.timeline[i], artifactId, r.releaseId)
                  && ProfiledAs(s.timeline[i], artifactId, r.profileName, r.policyRevision)
  {
    Preservation();
    Machine.RunKeeps(Step, Inv, s0, actions, s);
    StoredWasShown(s, artifactId);
  }

  lemma StoredWasShown(s: State, artifactId: string)
    requires LogGood(s) && ActiveLogged(s) && artifactId in s.view.active
    ensures var r := s.view.active[artifactId];
      exists i :: 0 <= i < |s.timeline| && ReleasedAs(s.timeline[i], artifactId, r.releaseId)
                  && ProfiledAs(s.timeline[i], artifactId, r.profileName, r.policyRevision)
  {
    hide ReleasedAs, ProfiledAs, AtVersion;
    var k :| 0 <= k < |s.log| && s.log[k].record == s.view.active[artifactId];
    assert StoredGood(s.timeline, s.log[k]);
    StoredInForce(s.timeline, s.log[k]);
    assert ReleasedAs(s.timeline[s.log[k].first], artifactId, s.log[k].record.releaseId);
  }

  // ---------------------------------------------------------------- one call on its own

  /** All segments of one call, with nothing else writing to the registry meanwhile. */
  function Alone(v: View, c: Call, answers: seq<World>, now: int): (View, Progress)
    decreases |answers|
  {
    if answers == [] then (v, Waiting(c))
    else
      var (v', p) := Segment(v, c, answers[0], now);
      match p
      case Finished(_) => (v', p)
      case Waiting(c') => Alone(v', c', answers[1..], now)
  }

  /** The call finished; it wrote exactly when `ok`, and then a record that `shown` shows. */
  ghost predicate Ends(v: View, c: Call, now: int, outcome: (View, Progress), ok: bool, shown: World) {
    && outcome.1.Finished?
    && (outcome.1.result.Some? <==> ok)
    && (ok ==>
      var r := outcome.1.result.value;
      && outcome.0.active == v.active[c.artifactId := r]
      && r.artifactId == c.artifactId && r.releaseId == c.releaseId && r.activatedAt == now && r.id == v.nextId
      && ProfiledAs(shown, r.artifactId, r.profileName, r.policyRevision))
    && (!ok ==> outcome.0.active == v.active)
  }

  lemma AfterRereadProfile(v: View, c: Call, ws: seq<World>, now: int)
    requires c.pc == RereadProfile && |ws| == 3 && c.profile.Some? && Get(v.active, c.artifactId) == c.previous
    ensures var profile := ProfileOf(ws[0], c.artifactId);
      Ends(v, c, now, Alone(v, c, ws, now),
           && profile.Some? && profile.value.name == c.profile.value.name
           && profile.value.policyRevision == c.profile.value.policyRevision
           && Points(ws[1], c.artifactId, c.releaseId)
           && VersionOf(ws[2], QueryOf(c.artifactId)) == Some(c.version), ws[0])
  {
    var (v1, p1) := Segment(v, c, ws[0], now);
    if p1.Waiting? {
      var rest := ws[1..];
      var (v2, p2) := Segment(v1, p1.call, rest[0], now);
      assert Alone(v, c, ws, now) == Alone(v1, p1.call, rest, now);
      if p2.Waiting? {
        assert Alone(v1, p1.call, rest, now) == Alone(v2, p2.call, rest[1..], now);
        assert rest[1..][0] == ws[2];
      }
    }
  }

  lemma AfterReadProfile(v: View, c: Call, ws: seq<World>, now: int)
    requires c.pc == ReadProfile && |ws| == 5 && Get(v.active, c.artifactId) == c.previous
    ensures var first, second := ProfileOf(ws[0], c.artifactId), ProfileOf(ws[2], c.artifactId);
      Ends(v, c, now, Alone(v, c, ws, now),
           && first.Some? && Points(ws[1], c.artifactId, c.releaseId)
           && second.Some? && second.value.name == first.value.name
           && second.value.policyRevision == first.value.policyRevision
           && Points(ws[3], c.artifactId, c.releaseId)
           && VersionOf(ws[4], QueryOf(c.artifactId)) == Some(c.version), ws[2])
  {
    var (v1, p1) := Segment(v, c, ws[0], now);
    if p1.Waiting? {
      var rest := ws[1..];
      var (v2, p2) := Segment(v1, p1.call, rest[0], now);
      assert Alone(v, c, ws, now) == Alone(v1, p1.call, rest, now);
      if p2.Waiting? {
        assert Alone(v1, p1.call, rest, now) == Alone(v2, p2.call, rest[1..], now);
        AfterRereadProfile(v2, p2.call, rest[1..], now);
      }
    }
  }

  lemma AfterBegin(v: View, c: Call, ws: seq<World>, now: int)
    requires c.pc == ReadVersion && |ws| == 7 && Get(v.active, c.artifactId) == c.previous
    ensures var q := QueryOf(c.artifactId);
      var first, second := ProfileOf(ws[2], c.artifactId), ProfileOf(ws[4], c.artifactId);
      Ends(v, c, now, Alone(v, c, ws, now),
           && VersionOf(ws[0], q).Some? && Points(ws[1], c.artifactId, c.releaseId)
           && first.Some? && Points(ws[3], c.artifactId, c.releaseId)
           && second.Some? && second.value.name == first.value.name
           && second.value.policyRevision == first.value.policyRevision
           && Points(ws[5], c.artifactId, c.releaseId)
           && VersionOf(ws[6], q) == VersionOf(ws[0], q), ws[4])
  {
    var (v1, p1) := Segment(v, c, ws[0], now);
    if p1.Waiting? {
      var rest := ws[1..];
      var (v2, p2) := Segment(v1, p1.call, rest[0], now);
      assert Alone(v, c, ws, now) == Alone(v1, p1.call, rest, now);
      if p2.Waiting? {
        assert Alone(v1, p1.call, rest, now) == Alone(v2, p2.call, rest[1..], now);
        AfterReadProfile(v2, p2.call, rest[1..], now);
      }
    }
  }

  /** What the authority must have in its tables for an activation to go through. */
  ghost predicate Activatable(w: World, artifactId: string, releaseId: string) {
    ReleasedAs(w, artifactId, releaseId) && artifactId in w.profiles
  }

  // Seven answers from seven moments: the call activates exactly when the version at the first and
  // the last moment is the same and that one state is activatable.
  lemma AloneActivates(tl: seq<World>, at: seq<nat>, v: View, artifactId: string, releaseId: string, now: int)
    requires Timeline(tl) && |at| == 7
    requires forall i, j :: 0 <= i <= j < 7 ==> at[i] <= at[j] < |tl|
    ensures var c := BeginCall(v, artifactId, releaseId);
      var first, last := tl[at[0]], tl[at[6]];
      Ends(v, c, now, Alone(v, c, seq(7, i requires 0 <= i < 7 => tl[at[i]]), now),
           (exists version :: AtVersion(first, artifactId, version) && AtVersion(last, artifactId, version))
           && Activatable(first, artifactId, releaseId), first)
  {
    var q, first, last := QueryOf(artifactId), tl[at[0]], tl[at[6]];
    var ws := seq(7, i requires 0 <= i < 7 => tl[at[i]]);
    AfterBegin(v, BeginCall(v, artifactId, releaseId), ws, now);
    assert (exists version :: AtVersion(first, artifactId, version) && AtVersion(last, artifactId, version))
      <==> VersionOf(first, q).Some? && VersionOf(last, q) == VersionOf(first, q) by { SameVersion(first, last, artifactId); }
    if VersionOf(ws[0], q).Some? && VersionOf(ws[6], q) == VersionOf(ws[0], q) {
      FencedRead(tl, q, at[0], at[6]);
      forall i | 0 <= i < 7
        ensures AnswersFor(ws[i], q) == AnswersFor(ws[0], q)
      {
        assert at[0] <= at[i] <= at[6];
      }
      SameChecks(ws, artifactId, releaseId);
    }
  }

  lemma SameVersion(w: World, u: World, artifactId: string)
    ensures (exists version :: AtVersion(w, artifactId, version) && AtVersion(u, artifactId, version))
            <==> VersionOf(w, QueryOf(artifactId)).Some? && VersionOf(u, QueryOf(artifactId)) == VersionOf(w, QueryOf(artifactId))
  {
    if VersionOf(w, QueryOf(artifactId)).Some? {
      assert AtVersion(w, artifactId, VersionOf(w, QueryOf(artifactId)).value);
    }
  }

  lemma SameChecks(ws: seq<World>, artifactId: string, releaseId: string)
    requires forall i :: 0 <= i < |ws| ==> AnswersFor(ws[i], QueryOf(artifactId)) == AnswersFor(ws[0], QueryOf(artifactId))
    ensures forall i :: 0 <= i < |ws| ==>
      (Points(ws[i], artifactId, releaseId) <==> Points(ws[0], artifactId, releaseId))
    ensures forall i :: 0 <= i < |ws| ==> ProfileOf(ws[i], artifactId) == ProfileOf(ws[0], artifactId)
  {
    forall i | 0 <= i < |ws|
      ensures Points(ws[i], artifactId, releaseId) <==> Points(ws[0], artifactId, releaseId)
      ensures ProfileOf(ws[i], artifactId) == ProfileOf(ws[0], artifactId)
    {
      assert AnswersFor(ws[i], QueryOf(artifactId)) == AnswersFor(ws[0], QueryOf(artifactId));
    }
  }
}
