/** When the follow-up poll goes on, when it stops and when it sends, in every reachable state. */
module PollOutcomes {
  import opened Prelude
  import opened Poll
  import opened PollRuns
  import Machine

  /** The poll will ask again by itself. */
  predicate GoesOn(t: Tab) {
    t.poll.timer && !t.poll.stopped
  }

  /** The next time may not come before these many milliseconds have passed, rate limits included. */
  function Pause(s: Status): int {
    if s.Refused? && s.code == 429 then
      if s.retryAfterSec < 2 then 2000 else if s.retryAfterSec > 60 then 60000 else s.retryAfterSec * 1000
    else 2000
  }

  /** The answer says that the outcome is still open. */
  predicate StillOpen(s: Status) {
    s == Ok(Pending) || (s.Refused? && s.code == 429)
  }

  predicate Limited(s: Status) {
    s.Refused? && s.code == 429
  }

  /** The earliest next time after an answer, before the spacing of requests is added. */
  function Opening(t: Tab, s: Status, now: int): int {
    if s.Failed? || s.BadEnvelope? then t.poll.nextAt
    else if Limited(s) then Max(0, now + Pause(s))
    else 0
  }

  /** What every answer leaves: the counters, the announced pause, and the next time. */
  predicate Paces(t: Tab, s: Status, spaced: int, now: int, u: Tab, displaying: bool) {
    && u.poll.count == t.poll.count && u.poll.startedAt == t.poll.startedAt && u.poll.manualAt == t.poll.manualAt
    && (u.poll.restoredLease <==> t.poll.restoredLease || Limited(s))
    && u.poll.nextAt == if displaying then 0 else Max(Opening(t, s, now), spaced)
  }

  /** An automatic answer: the poll goes on exactly when the outcome is open and the budget could be written. */
  ghost predicate AutomaticExactly(t: Tab, flight: nat, s: Status, now: int, io: Io, u: Tab, displaying: bool) {
    && (displaying <==> s == Ok(Committed))
    && u.poll.inFlight.None?
    && (GoesOn(u) <==> !t.poll.stopped && StillOpen(s) && io.last)
    && (!StillOpen(s) ==> u.poll.stopped && !u.poll.timer)
    && (!GoesOn(u) ==> u.poll.stopped)
    && Paces(t, s, now + 2000, now, u, displaying)
    && (GoesOn(u) ==> u.poll.intentId.Some? && u.poll.intentId.value in u.storage
                      && u.storage[u.poll.intentId.value].nextAt == u.poll.nextAt)
  }

  /** A manual answer: it never starts the poll again. */
  ghost predicate ManualExactly(t: Tab, s: Status, now: int, u: Tab, displaying: bool) {
    && (displaying <==> s == Ok(Committed))
    && (u.poll.timer ==> t.poll.timer) && (t.poll.stopped ==> u.poll.stopped)
    && u.poll.inFlight.None?
    && Paces(t, s, t.poll.manualAt + 30000, now, u, displaying)
  }

  lemma StatusDecides(t: Tab, r: Request, s: Status, now: int, ok: bool)
    requires Mirrored(t) && !s.Failed?
    ensures var u := StatusHandled(t, r, s, now, ok);
      && (StillOpen(s) ==> u.poll.stopped == t.poll.stopped && u.poll.cacheOK == t.poll.cacheOK)
      && (!StillOpen(s) ==> u.poll.stopped && !u.poll.timer)
      && u.poll.nextAt == (if s.Refused? && s.code == 429 then Max(t.poll.nextAt, now + Pause(s)) else t.poll.nextAt)
      && u.poll.timer == (if s.Refused? && s.code == 429 && !r.manual then true else StillOpen(s) && t.poll.timer)
      && u.poll.inFlight == (if s.Ok? && s.state != Pending then None else t.poll.inFlight)
      && u.poll.intentId == t.poll.intentId && u.poll.version == t.poll.version && u.poll.count == t.poll.count
      && (t.poll.stopped ==> u.poll.stopped)
      && u.poll.startedAt == t.poll.startedAt && u.poll.manualAt == t.poll.manualAt
      && (u.poll.restoredLease <==> t.poll.restoredLease || Limited(s))
  {
  }

  lemma EndDecides(t: Tab, flight: nat, r: Request, now: int, ok: bool)
    requires Mirrored(t) && Current(t, r)
    ensures var u := FlightEnded(t, flight, r, now, ok);
      && u.poll.inFlight == (if t.poll.inFlight == Some(flight) then None else t.poll.inFlight)
      && u.poll.timer == t.poll.timer && (u.poll.stopped <==> t.poll.stopped || !ok)
      && u.poll.nextAt == Max(t.poll.nextAt, if r.manual then t.poll.manualAt + 30000 else now + 2000)
      && u.poll.intentId == t.poll.intentId && u.poll.count == t.poll.count
      && u.poll.startedAt == t.poll.startedAt && u.poll.manualAt == t.poll.manualAt
      && u.poll.restoredLease == t.poll.restoredLease
      && (t.poll.cacheOK && ok ==> u.poll.intentId.Some? && u.poll.intentId.value in u.storage
                                   && u.storage[u.poll.intentId.value].nextAt == u.poll.nextAt)
  {
  }

  lemma ZeroedIsMirrored(t: Tab, s: Status)
    requires Mirrored(t)
    ensures Mirrored(t.(poll := t.poll.(nextAt := 0)))
  {
  }

  lemma FailureDecides(t: Tab, ok: bool)
    requires Mirrored(t)
    ensures var u := StopPolled(t, ok);
      && u.poll.stopped && !u.poll.timer && Mirrored(u)
      && u == t.(poll := t.poll.(stopped := true, timer := false, cacheOK := u.poll.cacheOK), storage := u.storage)
  {
  }

  lemma FailedDecides(t: Tab, flight: nat, r: Request, s: Status, now: int, io: Io)
    requires Mirrored(t) && t.poll.inFlight == Some(flight)
    requires t.poll.intentId == Some(r.intentId) && t.poll.version == r.version
    requires s.Failed?
    ensures var (u, displaying) := Responded(t, flight, r, s, now, io);
      if r.manual then ManualExactly(t, s, now, u, displaying) else AutomaticExactly(t, flight, s, now, io, u, displaying)
  {
    hide FlightEnded, StatusHandled, StopPolled, Mirrored;
    FailureDecides(t, io.stop);
    EndDecides(if r.manual then t else StopPolled(t, io.stop), flight, r, now, io.last);
  }

  lemma AutomaticReply(t: Tab, flight: nat, r: Request, s: Status, now: int, io: Io)
    requires Mirrored(t) && t.poll.inFlight == Some(flight)
    requires t.poll.intentId == Some(r.intentId) && t.poll.version == r.version
    requires !s.Failed? && !r.manual
    ensures var (u, displaying) := Responded(t, flight, r, s, now, io);
      AutomaticExactly(t, flight, s, now, io, u, displaying)
  {
    hide FlightEnded, StatusHandled, StopPolled, Mirrored;
    var u := if s.BadEnvelope? then t else t.(poll := t.poll.(nextAt := 0));
    ZeroedIsMirrored(t, s);
    StatusDecides(u, r, s, now, io.stop);
    HandleIsQuiet(u, r, s, now, io.stop);
    var v := StatusHandled(u, r, s, now, io.stop);
    PacingIsQuiet(v, Scheduled(v));
    hide SameAccounts;
    var w := if !v.poll.stopped && !v.poll.timer && (s.Ok? ==> s.state.Pending?) then Scheduled(v) else v;
    EndDecides(w, flight, r, now, io.last);
    MirroredMeans(w);
  }

  lemma ManualReply(t: Tab, flight: nat, r: Request, s: Status, now: int, io: Io)
    requires Mirrored(t) && t.poll.inFlight == Some(flight)
    requires t.poll.intentId == Some(r.intentId) && t.poll.version == r.version
    requires !s.Failed? && r.manual
    ensures var (u, displaying) := Responded(t, flight, r, s, now, io);
      ManualExactly(t, s, now, u, displaying)
  {
    hide FlightEnded, StatusHandled, StopPolled, Mirrored;
    var u := if s.BadEnvelope? then t else t.(poll := t.poll.(nextAt := 0));
    ZeroedIsMirrored(t, s);
    StatusDecides(u, r, s, now, io.stop);
    HandleIsQuiet(u, r, s, now, io.stop);
    var v := StatusHandled(u, r, s, now, io.stop);
    hide SameAccounts;
    var w := v;
    EndDecides(w, flight, r, now, io.last);
    MirroredMeans(w);
  }

  // An answer to the request in the air, under the version that sent it.
  lemma AnswerDecides(t: Tab, flight: nat, r: Request, s: Status, now: int, io: Io)
    requires Mirrored(t) && t.poll.inFlight == Some(flight)
    requires t.poll.intentId == Some(r.intentId) && t.poll.version == r.version
    ensures var (u, displaying) := Responded(t, flight, r, s, now, io);
      if r.manual then ManualExactly(t, s, now, u, displaying) else AutomaticExactly(t, flight, s, now, io, u, displaying)
  {
    if s.Failed? {
      FailedDecides(t, flight, r, s, now, io);
    } else if r.manual {
      ManualReply(t, flight, r, s, now, io);
    } else {
      AutomaticReply(t, flight, r, s, now, io);
    }
    hide Responded, Mirrored, ManualExactly, AutomaticExactly;
  }

  lemma MirroredMeans(t: Tab)
    requires Mirrored(t)
    ensures !t.poll.stopped ==> t.poll.cacheOK && t.poll.intentId.Some?
  {
  }

  // In every run, the answer to the request the page is waiting for: a pending or rate-limited
  // automatic answer keeps the poll going, at the time it announces, every other one stops it, and a
  // manual answer never starts it.
  lemma AnswersAreExact(actions: seq<Action>, s: Sys, flight: nat, status: Status, now: int, io: Io, t: Sys)
    requires Reachable(actions, s) && Step(s, Answer(flight, status, now, io), t)
    requires s.tab.poll.intentId == Some(s.air[flight].intentId) && s.tab.poll.version == s.air[flight].version
    ensures var displaying := flight in t.showing;
      if s.air[flight].manual then ManualExactly(s.tab, status, now, t.tab, displaying)
      else AutomaticExactly(s.tab, flight, status, now, io, t.tab, displaying)
  {
    RunsKeepInv(actions, s);
    AnswerDecides(s.tab, flight, s.air[flight], status, now, io);
    hide Responded, Mirrored, BudgetsOk, ManualExactly, AutomaticExactly;
  }

  // ---------------------------------------------------------------- when requests are sent

  /** What a sent request leaves: it is counted in storage before it goes out, and its flight is taken. */
  predicate SentFor(t: Tab, flight: nat, now: int, manual: bool, u: Tab, r: Request) {
    && t.poll.intentId == Some(r.intentId) && r.version == t.poll.version && r.manual == manual
    && u.poll.inFlight == Some(flight) && u.poll.nextAt == now + 15000
    && r.intentId in u.storage && u.storage[r.intentId].count == u.poll.count
    && u.storage[r.intentId].manualAt == u.poll.manualAt && u.storage[r.intentId].nextAt == u.poll.nextAt
    && u.poll.count == (if manual then t.poll.count else t.poll.count + 1)
    && u.poll.manualAt == (if manual then now else t.poll.manualAt)
  }

  // The timer sends exactly when the poll is not stopped, nothing is in the air, the page is visible,
  // neither the window nor the budget is spent, and the budget could be written first.
  lemma TimerSendsExactly(t: Tab, flight: nat, now: int, hidden: bool, io: Io)
    requires Mirrored(t)
    ensures var (u, r) := Ticked(t, flight, now, hidden, io);
      && (r.Some? <==> !t.poll.stopped && t.poll.inFlight.None? && !hidden
                       && now - t.poll.startedAt < 120000 && t.poll.count < 60 && io.write)
      && (r.Some? ==> SentFor(t, flight, now, false, u, r.value) && !u.poll.stopped)
      && (r.None? ==> u.poll.inFlight == t.poll.inFlight && (GoesOn(u) || u.poll.stopped))
      && (GoesOn(u) <==> !t.poll.stopped && (t.poll.inFlight.Some? || hidden))
  {
  }

  // A click sends exactly when a budget is at hand, nothing is in the air, no announced pause is
  // running, the last click is 30 seconds ago, and both writes succeed.
  lemma ClickSendsExactly(t: Tab, flight: nat, now: int, io: Io)
    requires Mirrored(t)
    ensures var (u, r) := Clicked(t, flight, now, io);
      && (r.Some? <==>
            && t.poll.cacheOK && t.poll.intentId.Some? && t.poll.inFlight.None?
            && !(t.poll.restoredLease && now < t.poll.nextAt) && now - t.poll.manualAt >= 30000
            && io.stop && io.write)
      && (r.Some? ==> SentFor(t, flight, now, true, u, r.value) && u.poll.stopped && !u.poll.timer)
      && (r.None? ==> u == t || (u.poll.stopped && u.poll.inFlight == t.poll.inFlight))
  {
  }

  /** A stored budget that can be followed up. */
  predicate Resumable(saved: Saved, now: int) {
    && 0 < saved.startedAt <= now && now - saved.startedAt < 120000
    && 0 <= saved.count < 60 && saved.manualAt >= 0 && saved.nextAt >= 0 && !saved.stopped
  }

  /** The poll starts, from what was stored, exactly when storage works and holds no budget or a resumable one. */
  predicate StartsExactly(stored: Option<Saved>, intentId: string, now: int, io: Io, u: Tab) {
    && (GoesOn(u) <==> io.read && io.write && (stored.Some? ==> Resumable(stored.value, now)))
    && (GoesOn(u) ==>
          && u.poll.intentId == Some(intentId)
          && u.poll.count == (if stored.Some? then stored.value.count else 0)
          && u.poll.startedAt == (if stored.Some? then stored.value.startedAt else now)
          && u.poll.manualAt == (if stored.Some? then stored.value.manualAt else 0)
          && (u.poll.restoredLease <==> stored.Some? && stored.value.nextAt > now))
    && (!GoesOn(u) ==> u.poll.stopped && !u.poll.timer)
  }

  // Following another intent starts the poll exactly when storage can be read and written, and holds
  // nothing of that intent or a budget that is neither stopped nor spent; and it goes on from there.
  lemma FollowingStartsExactly(t: Tab, intentId: string, now: int, io: Io)
    requires t.poll.intentId != Some(intentId)
    ensures StartsExactly(Get(t.storage, intentId), intentId, now, io, PollStarted(t, intentId, now, io))
  {
    hide StopPolled, StartsExactly;
    LeavesOthers(t, intentId, io.stop);
    FollowedStarts(StopPolled(t.(poll := t.poll.(version := t.poll.version + 1)), io.stop), intentId, now, io);
    hide Restored, Followed;
  }

  lemma FollowedStarts(t: Tab, intentId: string, now: int, io: Io)
    requires t.poll.stopped && !t.poll.timer
    ensures StartsExactly(Get(t.storage, intentId), intentId, now, io, Followed(Restored(t, intentId, now, io), now, io))
  {
    hide Restored, Followed;
    RestoredExactly(t, intentId, now, io);
    FollowedExactly(Restored(t, intentId, now, io), now, io);
  }

  // Turning away writes at most the budget of the intent left behind.
  lemma LeavesOthers(t: Tab, intentId: string, ok: bool)
    requires t.poll.intentId != Some(intentId)
    ensures var away := StopPolled(t.(poll := t.poll.(version := t.poll.version + 1)), ok);
      && (intentId in away.storage <==> intentId in t.storage)
      && (intentId in t.storage ==> away.storage[intentId] == t.storage[intentId])
      && away.poll.stopped && !away.poll.timer
  {
  }

  /** A stored budget that makes sense at that time. */
  predicate Sensible(saved: Saved, now: int) {
    0 < saved.startedAt <= now && 0 <= saved.count <= 60 && saved.manualAt >= 0 && saved.nextAt >= 0
  }

  lemma RestoredExactly(t: Tab, intentId: string, now: int, io: Io)
    requires t.poll.stopped && !t.poll.timer
    ensures var (u, ok) := Restored(t, intentId, now, io);
      && (ok <==> io.read && io.write && (intentId in t.storage ==> Sensible(t.storage[intentId], now)))
      && !u.poll.timer && (!ok ==> u.poll.stopped)
      && (ok ==>
            && u.poll.intentId == Some(intentId)
            && u.poll.stopped == (intentId in t.storage && t.storage[intentId].stopped)
            && u.poll.count == (if intentId in t.storage then t.storage[intentId].count else 0)
            && u.poll.startedAt == (if intentId in t.storage then t.storage[intentId].startedAt else now)
            && u.poll.manualAt == (if intentId in t.storage then t.storage[intentId].manualAt else 0)
            && (u.poll.restoredLease <==> intentId in t.storage && t.storage[intentId].nextAt > now))
  {
  }

  lemma FollowedExactly(r: (Tab, bool), now: int, io: Io)
    ensures var u := Followed(r, now, io);
      && (!r.1 ==> u == r.0)
      && (r.1 ==> (GoesOn(u) <==> !r.0.poll.stopped && now - r.0.poll.startedAt < 120000 && r.0.poll.count < 60))
      && (r.1 && !GoesOn(u) ==> u.poll.stopped && !u.poll.timer)
      && (r.1 ==>
            && u.poll.intentId == r.0.poll.intentId && u.poll.count == r.0.poll.count
            && u.poll.startedAt == r.0.poll.startedAt && u.poll.manualAt == r.0.poll.manualAt
            && u.poll.restoredLease == r.0.poll.restoredLease)
  {
  }

  // ---------------------------------------------------------------- a running poll never stalls

  // Becoming visible arms exactly a running poll that neither waits for its timer nor for an answer.
  lemma VisibleArmsExactly(t: Tab)
    ensures var u := BecameVisible(t);
      && u == t.(poll := t.poll.(timer := u.poll.timer))
      && (u.poll.timer <==> t.poll.timer || (!t.poll.stopped && t.poll.inFlight.None?))
  {
  }

  /** A poll that is not stopped waits for its timer or for an answer that will let it go on. */
  ghost predicate Moving(s: Sys) {
    && (s.tab.poll.inFlight.Some? ==> s.tab.poll.inFlight.value in s.air)
    && (!s.tab.poll.stopped ==> s.tab.poll.timer || (s.tab.poll.inFlight.Some? && Awaited(s.tab, s.air[s.tab.poll.inFlight.value])))
    && (forall f :: f in s.air && s.air[f].manual && Awaited(s.tab, s.air[f]) ==> s.tab.poll.stopped)
  }

  /** The request is for the intent and the version the page follows. */
  predicate Awaited(t: Tab, r: Request) {
    t.poll.intentId == Some(r.intentId) && t.poll.version == r.version
  }

  lemma StartMoves(s: Sys, intentId: string, now: int, io: Io, t: Sys)
    requires Inv(s) && NeverAhead(s) && Moving(s) && Step(s, Start(intentId, now, io), t)
    ensures Moving(t)
  {
    StartAccounts(s.tab, intentId, now, io);
    if s.tab.poll.intentId != Some(intentId) {
      FollowingStartsExactly(s.tab, intentId, now, io);
      StartRaisesVersion(s.tab, intentId, now, io);
      hide PollStarted, Mirrored, Opened, BudgetsOk;
    }
  }

  lemma TimerMoves(s: Sys, now: int, hidden: bool, io: Io, t: Sys)
    requires Inv(s) && NeverAhead(s) && Moving(s) && Step(s, Timer(now, hidden, io), t)
    ensures Moving(t)
  {
    TimerSendsExactly(s.tab, s.used, now, hidden, io);
    TickStays(s.tab, s.used, now, hidden, io);
    hide Ticked, Mirrored, BudgetsOk, Logged;
  }

  lemma TickStays(t: Tab, flight: nat, now: int, hidden: bool, io: Io)
    ensures var u := Ticked(t, flight, now, hidden, io).0;
      u.poll.intentId == t.poll.intentId && u.poll.version == t.poll.version && (t.poll.stopped ==> u.poll.stopped)
  {
  }

  lemma ClickMoves(s: Sys, now: int, io: Io, t: Sys)
    requires Inv(s) && NeverAhead(s) && Moving(s) && Step(s, ManualCheck(now, io), t)
    ensures Moving(t)
  {
    ClickSendsExactly(s.tab, s.used, now, io);
    hide Clicked, Mirrored, BudgetsOk, Logged;
  }

  lemma AnswerMoves(s: Sys, flight: nat, status: Status, now: int, io: Io, t: Sys)
    requires Inv(s) && Moving(s) && Step(s, Answer(flight, status, now, io), t)
    ensures Moving(t)
  {
    var r := s.air[flight];
    if Awaited(s.tab, r) {
      AnswerDecides(s.tab, flight, r, status, now, io);
      hide Responded, Mirrored, BudgetsOk, Paces;
    } else {
      assert t.tab == s.tab.(poll := s.tab.poll.(inFlight := None));
      hide Responded, Mirrored, BudgetsOk;
    }
  }

  lemma EndMoves(s: Sys, flight: nat, now: int, ok: bool, t: Sys)
    requires Inv(s) && Moving(s) && Step(s, Displayed(flight, now, ok), t)
    ensures Moving(t)
  {
    if Awaited(s.tab, s.showing[flight]) {
      EndDecides(s.tab, flight, s.showing[flight], now, ok);
      EndKeepsVersion(s.tab, flight, s.showing[flight], now, ok);
      hide FlightEnded, Mirrored, BudgetsOk;
    }
  }

  lemma StepMoves(s: Sys, a: Action, t: Sys)
    requires Inv(s) && NeverAhead(s) && Moving(s) && Step(s, a, t)
    ensures Moving(t)
  {
    hide Inv, Moving, Step, NeverAhead;
    match a
    case Start(intentId, now, io) => StartMoves(s, intentId, now, io, t);
    case Timer(now, hidden, io) => TimerMoves(s, now, hidden, io, t);
    case ManualCheck(now, io) => ClickMoves(s, now, io, t);
    case Answer(flight, status, now, io) => AnswerMoves(s, flight, status, now, io, t);
    case Displayed(flight, now, ok) => EndMoves(s, flight, now, ok, t);
    case Visible => VisibleMoves(s, t);
    case Reload => ReloadMoves(s, t);
  }

  lemma VisibleMoves(s: Sys, t: Sys)
    requires Moving(s) && Step(s, Visible, t)
    ensures Moving(t)
  {
  }

  lemma ReloadMoves(s: Sys, t: Sys)
    requires Step(s, Reload, t)
    ensures Moving(t)
  {
  }

  ghost predicate Lively(s: Sys) {
    Inv(s) && NeverAhead(s) && Moving(s)
  }

  // In every reachable state a poll that is not stopped has its timer armed or a request in the air
  // whose answer it will take; so becoming visible changes nothing.
  lemma NeverStalls(actions: seq<Action>, s: Sys)
    requires Reachable(actions, s)
    ensures !s.tab.poll.stopped && !s.tab.poll.timer ==>
      exists f :: f in s.air && s.tab.poll.inFlight == Some(f) && !s.air[f].manual
                  && s.tab.poll.intentId == Some(s.air[f].intentId) && s.tab.poll.version == s.air[f].version
    ensures BecameVisible(s.tab) == s.tab
  {
    forall u, a, v | Lively(u) && Step(u, a, v)
      ensures Lively(v)
    {
      hide Inv, Step, Moving, NeverAhead;
      StepKeepsInv(u, a, v);
      StepMoves(u, a, v);
      StepNeverAhead(u, a, v);
    }
    Machine.RunKeeps((s, a, t) => Step(s, a, t), s => Lively(s), INITIAL, actions, s);
  }
}
