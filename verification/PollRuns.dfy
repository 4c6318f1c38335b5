/**
 Every run of the follow-up poll: timers, clicks, answers in any order, switches between intents,
 page reloads and storage failures. Main results: at most 60 automatic requests for an intent, all
 within 120 seconds of its first start; at most one request in the air; manual requests at least
 30 seconds apart; and an answer that arrives after a switch changes nothing of the new budget.
 */
module PollRuns {
  import opened Prelude
  import opened Machine
  import opened Poll

  type Times = map<string, seq<int>>

  function TimesOf(log: Times, intentId: string): seq<int> {
    if intentId in log then log[intentId] else []
  }

  function Logged(log: Times, intentId: string, now: int): Times {
    log[intentId := TimesOf(log, intentId) + [now]]
  }

  /** The tab, the flights whose request is in the air or whose receipt is being displayed, and history. */
  datatype Sys = Sys(
    tab: Tab,
    air: map<nat, Request>,
    showing: map<nat, Request>,
    used: nat,
    auto: Times,
    manual: Times,
    clock: int)

  datatype Action =
    | Start(intentId: string, now: int, io: Io)
    | Timer(now: int, hidden: bool, io: Io)
    | ManualCheck(now: int, io: Io)
    | Answer(flight: nat, status: Status, now: int, io: Io)
    | Displayed(flight: nat, now: int, ok: bool)
    | Visible
    | Reload

  const INITIAL := Sys(Tab(FRESH_POLL, map[]), map[], map[], 0, map[], map[], 0)

  /** What a sent request adds: it is in the air, and logged. */
  function Flown(s: Sys, tab: Tab, r: Option<Request>, now: int): Sys {
    var u := s.(tab := tab, used := s.used + 1, clock := now);
    if r.None? then u
    else
      var v := u.(air := s.air[s.used := r.value]);
      if r.value.manual then v.(manual := Logged(s.manual, r.value.intentId, now))
      else v.(auto := Logged(s.auto, r.value.intentId, now))
  }

  ghost predicate AnswerStep(s: Sys, flight: nat, status: Status, now: int, io: Io, t: Sys) {
    && s.clock <= now && flight in s.air
    && var (tab, displaying) := Responded(s.tab, flight, s.air[flight], status, now, io);
    && t == s.(tab := tab, clock := now, air := s.air - {flight},
               showing := if displaying then s.showing[flight := s.air[flight]] else s.showing)
  }

  ghost predicate Step(s: Sys, a: Action, t: Sys) {
    match a
    case Start(intentId, now, io) =>
      s.clock <= now && t == s.(tab := PollStarted(s.tab, intentId, now, io), clock := now)
    case Timer(now, hidden, io) =>
      && s.clock <= now && s.tab.poll.timer
      && var (tab, r) := Ticked(s.tab, s.used, now, hidden, io); t == Flown(s, tab, r, now)
    case ManualCheck(now, io) =>
      && s.clock <= now
      && var (tab, r) := Clicked(s.tab, s.used, now, io); t == Flown(s, tab, r, now)
    case Answer(flight, status, now, io) =>
      AnswerStep(s, flight, status, now, io, t)
    case Displayed(flight, now, ok) =>
      && s.clock <= now && flight in s.showing
      && t == s.(tab := FlightEnded(s.tab, flight, s.showing[flight], now, ok), clock := now, showing := s.showing - {flight})
    case Visible => t == s.(tab := BecameVisible(s.tab))
    case Reload => t == s.(tab := Tab(FRESH_POLL, s.tab.storage), air := map[], showing := map[])
  }

  // ---------------------------------------------------------------- the budget invariant

  predicate Within(times: seq<int>, startedAt: int) {
    forall i :: 0 <= i < |times| ==> 0 <= times[i] - startedAt < WINDOW_MS
  }

  predicate Spaced(times: seq<int>) {
    forall i :: 0 <= i < |times| - 1 ==> times[i + 1] - times[i] >= MANUAL_SPACING_MS
  }

  /** What is stored for an intent accounts for every request made for it. */
  predicate Accounted(saved: Saved, auto: seq<int>, manual: seq<int>, clock: int) {
    && |auto| == saved.count <= MAX_POLLS && Within(auto, saved.startedAt) && saved.startedAt <= clock
    && Spaced(manual) && (manual != [] ==> manual[|manual| - 1] <= saved.manualAt)
  }

  ghost predicate BudgetsOk(storage: map<string, Saved>, auto: Times, manual: Times, clock: int) {
    forall i :: if i in storage then Accounted(storage[i], TimesOf(auto, i), TimesOf(manual, i), clock)
                else TimesOf(auto, i) == [] && TimesOf(manual, i) == []
  }

  /** As long as the budget can be written, memory and storage agree. */
  predicate Mirrored(t: Tab) {
    && (!t.poll.stopped ==> t.poll.cacheOK && t.poll.intentId.Some?)
    && (t.poll.cacheOK && t.poll.intentId.Some? ==>
          var i := t.poll.intentId.value;
          && i in t.storage && t.storage[i].startedAt == t.poll.startedAt
          && t.storage[i].count == t.poll.count && t.storage[i].manualAt == t.poll.manualAt)
  }

  /** The request in the air, if any, is the one the page is waiting for. */
  ghost predicate Inv(s: Sys) {
    && Mirrored(s.tab) && BudgetsOk(s.tab.storage, s.auto, s.manual, s.clock)
    && (forall f :: f in s.air ==> f < s.used && s.tab.poll.inFlight == Some(f) && f !in s.showing)
    && (forall f :: f in s.showing ==> f < s.used)
  }

  // ---------------------------------------------------------------- segments that account for nothing new

  predicate SameAccount(a: Saved, b: Saved) {
    a.startedAt == b.startedAt && a.count == b.count && a.manualAt == b.manualAt
  }

  ghost predicate SameAccounts(a: map<string, Saved>, b: map<string, Saved>) {
    a.Keys == b.Keys && forall i :: i in a ==> SameAccount(a[i], b[i])
  }

  ghost predicate Quiet(t: Tab, u: Tab) {
    Mirrored(u) && SameAccounts(t.storage, u.storage)
  }

  lemma CheckpointIsQuiet(t: Tab, ok: bool)
    requires Mirrored(t)
    ensures Quiet(t, Checkpointed(t, ok).0) && Checkpointed(t, ok).0.poll.inFlight == t.poll.inFlight
  {
  }

  lemma StopIsQuiet(t: Tab, ok: bool)
    requires Mirrored(t)
    ensures Quiet(t, StopPolled(t, ok)) && StopPolled(t, ok).poll.stopped
    ensures StopPolled(t, ok).poll.inFlight == t.poll.inFlight && StopPolled(t, ok).poll.intentId == t.poll.intentId
  {
    CheckpointIsQuiet(t.(poll := t.poll.(stopped := true, timer := false)), ok);
  }

  lemma EndIsQuiet(t: Tab, flight: nat, r: Request, now: int, ok: bool)
    requires Mirrored(t)
    ensures var u := FlightEnded(t, flight, r, now, ok);
            && Quiet(t, u)
            && u.poll.inFlight == if t.poll.inFlight == Some(flight) then None else t.poll.inFlight
  {
    var u := if t.poll.inFlight == Some(flight) then t.(poll := t.poll.(inFlight := None)) else t;
    assert Mirrored(u);
    SameAsItself(t.storage);
    var next := if r.manual then u.poll.manualAt + MANUAL_SPACING_MS else now + INTERVAL_MS;
    var v := u.(poll := u.poll.(nextAt := Max(u.poll.nextAt, next)));
    PacingIsQuiet(u, v);
    CheckpointIsQuiet(v, ok);
    hide Mirrored, SameAccounts, Checkpointed;
  }

  lemma HandleIsQuiet(t: Tab, r: Request, s: Status, now: int, ok: bool)
    requires Mirrored(t)
    ensures Quiet(t, StatusHandled(t, r, s, now, ok))
  {
    StopIsQuiet(t, ok);
    hide StopPolled;
  }

  lemma RespondIsQuiet(t: Tab, flight: nat, r: Request, s: Status, now: int, io: Io)
    requires Mirrored(t)
    ensures Quiet(t, Responded(t, flight, r, s, now, io).0)
  {
    hide FlightEnded, StatusHandled, StopPolled, Mirrored, SameAccounts;
    assert SameAccounts(t.storage, t.storage) by { SameAsItself(t.storage); }
    if !Current(t, r) {
      EndIsQuiet(t, flight, r, now, io.last);
    } else if s.Failed? {
      StopIsQuiet(t, io.stop);
      var u := if r.manual then t else StopPolled(t, io.stop);
      EndIsQuiet(u, flight, r, now, io.last);
      QuietTwice(t, u, FlightEnded(u, flight, r, now, io.last));
    } else {
      var u := if s.BadEnvelope? then t else t.(poll := t.poll.(nextAt := 0));
      PacingIsQuiet(t, u);
      HandleIsQuiet(u, r, s, now, io.stop);
      var v := StatusHandled(u, r, s, now, io.stop);
      var w := if !r.manual && !v.poll.stopped && !v.poll.timer && (s.Ok? ==> s.state.Pending?) then Scheduled(v) else v;
      PacingIsQuiet(v, w);
      EndIsQuiet(w, flight, r, now, io.last);
      QuietTwice(v, w, FlightEnded(w, flight, r, now, io.last));
      QuietTwice(u, v, FlightEnded(w, flight, r, now, io.last));
    }
  }

  lemma SameAsItself(a: map<string, Saved>)
    ensures SameAccounts(a, a)
  {
  }

  // Arming a timer or moving the next time changes no account.
  lemma PacingIsQuiet(t: Tab, u: Tab)
    requires Mirrored(t) && u == t.(poll := t.poll.(timer := u.poll.timer, nextAt := u.poll.nextAt))
    ensures Quiet(t, u)
  {
  }

  lemma QuietTwice(t: Tab, u: Tab, v: Tab)
    requires Quiet(t, u) && Quiet(u, v)
    ensures Quiet(t, v)
  {
    SameThrough(t.storage, u.storage, v.storage);
  }

  lemma SameThrough(a: map<string, Saved>, b: map<string, Saved>, c: map<string, Saved>)
    requires SameAccounts(a, b) && SameAccounts(b, c)
    ensures SameAccounts(a, c)
  {
    forall i | i in a ensures SameAccount(a[i], c[i]) {
      assert i in b && SameAccount(a[i], b[i]);
    }
  }

  lemma SameUpdate(a: map<string, Saved>, b: map<string, Saved>, i: string, saved: Saved)
    requires SameAccounts(a, b)
    ensures SameAccounts(a[i := saved], b[i := saved])
  {
  }

  // ---------------------------------------------------------------- segments that do

  /** Nothing changed, or intent `i`, unknown before, got an empty account from `now` on. */
  ghost predicate Opened(a: map<string, Saved>, b: map<string, Saved>, i: string, now: int) {
    SameAccounts(a, b) || (i !in a && SameAccounts(a[i := Saved(now, 0, 0, 0, false)], b))
  }

  lemma RestoreAccounts(t: Tab, intentId: string, now: int, io: Io)
    requires t.poll.stopped
    ensures var u := Restored(t, intentId, now, io).0;
            Mirrored(u) && u.poll.inFlight == t.poll.inFlight && Opened(t.storage, u.storage, intentId, now)
  {
    SameAsItself(t.storage);
    SameAsItself(t.storage[intentId := Saved(now, 0, 0, 0, false)]);
  }

  lemma OpenedByNothing(a: map<string, Saved>, i: string, now: int)
    ensures Opened(a, a, i, now)
  {
    SameAsItself(a);
  }

  lemma OpenedBetween(a: map<string, Saved>, b: map<string, Saved>, c: map<string, Saved>, d: map<string, Saved>, i: string, now: int)
    requires SameAccounts(a, b) && Opened(b, c, i, now) && SameAccounts(c, d)
    ensures Opened(a, d, i, now)
  {
    var created := Saved(now, 0, 0, 0, false);
    assert i in a <==> i in b;
    if SameAccounts(b, c) {
      SameThrough(a, b, c);
      SameThrough(a, c, d);
    } else {
      SameUpdate(a, b, i, created);
      SameThrough(a[i := created], b[i := created], c);
      SameThrough(a[i := created], c, d);
    }
  }

  lemma FollowedIsQuiet(r: (Tab, bool), now: int, io: Io)
    requires Mirrored(r.0)
    ensures Quiet(r.0, Followed(r, now, io)) && Followed(r, now, io).poll.inFlight == r.0.poll.inFlight
  {
    StopIsQuiet(r.0, io.last);
    SameAsItself(r.0.storage);
    hide StopPolled, SameAccounts;
  }

  lemma TurnedIsQuiet(t: Tab, ok: bool)
    requires Mirrored(t)
    ensures var away := StopPolled(t.(poll := t.poll.(version := t.poll.version + 1)), ok);
            Quiet(t, away) && away.poll.stopped && away.poll.inFlight == t.poll.inFlight
  {
    StopIsQuiet(t.(poll := t.poll.(version := t.poll.version + 1)), ok);
  }

  // A switch loses nothing, and an intent never seen before gets an empty account from now on.
  lemma StartAccounts(t: Tab, intentId: string, now: int, io: Io)
    requires Mirrored(t)
    ensures var u := PollStarted(t, intentId, now, io);
            Mirrored(u) && u.poll.inFlight == t.poll.inFlight && Opened(t.storage, u.storage, intentId, now)
  {
    hide StopPolled, Restored, Followed, SameAccounts, Mirrored, Opened;
    if t.poll.intentId == Some(intentId) {
      OpenedByNothing(t.storage, intentId, now);
    } else {
      var away := StopPolled(t.(poll := t.poll.(version := t.poll.version + 1)), io.stop);
      TurnedIsQuiet(t, io.stop);
      var u := Restored(away, intentId, now, io);
      RestoreAccounts(away, intentId, now, io);
      FollowedIsQuiet(u, now, io);
      OpenedBetween(t.storage, away.storage, u.0.storage, Followed(u, now, io).storage, intentId, now);
    }
  }

  // A request goes out only after the account that counts it is in storage.
  lemma TickAccounts(t: Tab, flight: nat, now: int, hidden: bool, io: Io)
    requires Mirrored(t)
    ensures var (u, r) := Ticked(t, flight, now, hidden, io);
            && Mirrored(u)
            && (r.None? ==> SameAccounts(t.storage, u.storage) && u.poll.inFlight == t.poll.inFlight)
            && (r.Some? ==>
                  var i := r.value.intentId;
                  && !r.value.manual && t.poll.inFlight.None? && u.poll.inFlight == Some(flight)
                  && i in t.storage && t.storage[i].count < MAX_POLLS && now - t.storage[i].startedAt < WINDOW_MS
                  && SameAccounts(t.storage[i := t.storage[i].(count := t.storage[i].count + 1)], u.storage))
  {
    StopIsQuiet(t.(poll := t.poll.(timer := false)), io.stop);
    hide StopPolled;
  }

  lemma ClickAccounts(t: Tab, flight: nat, now: int, io: Io)
    requires Mirrored(t)
    ensures var (u, r) := Clicked(t, flight, now, io);
            && Mirrored(u)
            && (r.None? ==> u.poll.inFlight == t.poll.inFlight)
            && (r.Some? ==> r.value.manual && t.poll.inFlight.None? && u.poll.inFlight == Some(flight)
                            && t.poll.intentId == Some(r.value.intentId) && !SameAccounts(t.storage, u.storage))
            && (SameAccounts(t.storage, u.storage)
                || (t.poll.intentId.Some? &&
                    var i := t.poll.intentId.value;
                    && i in t.storage && now - t.storage[i].manualAt >= MANUAL_SPACING_MS
                    && SameAccounts(t.storage[i := t.storage[i].(manualAt := now)], u.storage)))
  {
    var p := t.poll;
    if p.cacheOK && p.intentId.Some? && p.inFlight.None? && now - p.manualAt >= MANUAL_SPACING_MS {
      var i := p.intentId.value;
      var moved := t.(poll := p.(manualAt := now));
      var stopped := StopPolled(moved, io.stop);
      if io.stop {
        assert stopped.storage == t.storage[i := SavedOf(stopped.poll)];
        assert stopped.storage[i].manualAt == now != t.storage[i].manualAt;
      }
      assert Mirrored(stopped);
      hide StopPolled;
    }
  }

  // ---------------------------------------------------------------- the accounts hold

  lemma LogsOnly(log: Times, i: string, now: int)
    ensures TimesOf(Logged(log, i, now), i) == TimesOf(log, i) + [now]
    ensures forall k :: k != i ==> TimesOf(Logged(log, i, now), k) == TimesOf(log, k)
  {
  }

  lemma AutoAccounted(saved: Saved, auto: seq<int>, manual: seq<int>, now: int)
    requires Accounted(saved, auto, manual, now) && saved.count < MAX_POLLS && now - saved.startedAt < WINDOW_MS
    ensures Accounted(saved.(count := saved.count + 1), auto + [now], manual, now)
  {
  }

  lemma ManualAccounted(saved: Saved, auto: seq<int>, manual: seq<int>, now: int, sent: bool)
    requires Accounted(saved, auto, manual, now) && now - saved.manualAt >= MANUAL_SPACING_MS
    ensures Accounted(saved.(manualAt := now), auto, if sent then manual + [now] else manual, now)
  {
  }

  lemma SameAccountsOk(a: map<string, Saved>, b: map<string, Saved>, auto: Times, manual: Times, clock: int, now: int)
    requires BudgetsOk(a, auto, manual, clock) && SameAccounts(a, b) && clock <= now
    ensures BudgetsOk(b, auto, manual, now)
  {
    forall i
      ensures if i in b then Accounted(b[i], TimesOf(auto, i), TimesOf(manual, i), now)
              else TimesOf(auto, i) == [] && TimesOf(manual, i) == []
    {
      assert i in a <==> i in b;
      assert i in a ==> SameAccount(a[i], b[i]);
    }
  }

  // One account changes, together with what is logged for it.
  lemma OneAccountOk(a: map<string, Saved>, i: string, saved: Saved, auto: Times, auto': Times, manual: Times, manual': Times, clock: int)
    requires BudgetsOk(a, auto, manual, clock)
    requires Accounted(saved, TimesOf(auto', i), TimesOf(manual', i), clock)
    requires forall k :: k != i ==> TimesOf(auto', k) == TimesOf(auto, k) && TimesOf(manual', k) == TimesOf(manual, k)
    ensures BudgetsOk(a[i := saved], auto', manual', clock)
  {
  }

  lemma StartBudgets(s: Sys, intentId: string, now: int, io: Io)
    requires Inv(s) && s.clock <= now
    ensures BudgetsOk(PollStarted(s.tab, intentId, now, io).storage, s.auto, s.manual, now)
  {
    hide PollStarted, Mirrored;
    var a, b := s.tab.storage, PollStarted(s.tab, intentId, now, io).storage;
    assert Mirrored(s.tab);
    StartAccounts(s.tab, intentId, now, io);
    SameAsItself(a);
    SameAccountsOk(a, a, s.auto, s.manual, s.clock, now);
    if SameAccounts(a, b) {
      SameAccountsOk(a, b, s.auto, s.manual, s.clock, now);
    } else {
      var created := Saved(now, 0, 0, 0, false);
      OneAccountOk(a, intentId, created, s.auto, s.auto, s.manual, s.manual, now);
      SameAccountsOk(a[intentId := created], b, s.auto, s.manual, now, now);
    }
  }

  lemma TickBudgets(s: Sys, now: int, hidden: bool, io: Io)
    requires Inv(s) && s.clock <= now
    ensures var (u, r) := Ticked(s.tab, s.used, now, hidden, io);
            BudgetsOk(u.storage, if r.Some? then Logged(s.auto, r.value.intentId, now) else s.auto, s.manual, now)
  {
    hide Ticked, Mirrored;
    var a := s.tab.storage;
    var (u, r) := Ticked(s.tab, s.used, now, hidden, io);
    assert Mirrored(s.tab);
    TickAccounts(s.tab, s.used, now, hidden, io);
    if r.None? {
      SameAccountsOk(a, u.storage, s.auto, s.manual, s.clock, now);
    } else {
      var i := r.value.intentId;
      var auto', saved := Logged(s.auto, i, now), a[i].(count := a[i].count + 1);
      SameAsItself(a);
      SameAccountsOk(a, a, s.auto, s.manual, s.clock, now);
      LogsOnly(s.auto, i, now);
      assert Accounted(a[i], TimesOf(s.auto, i), TimesOf(s.manual, i), now);
      AutoAccounted(a[i], TimesOf(s.auto, i), TimesOf(s.manual, i), now);
      hide Logged, TimesOf, Accounted, BudgetsOk, SameAccounts;
      OneAccountOk(a, i, saved, s.auto, auto', s.manual, s.manual, now);
      SameAccountsOk(a[i := saved], u.storage, auto', s.manual, now, now);
    }
  }

  lemma ClickBudgets(s: Sys, now: int, io: Io)
    requires Inv(s) && s.clock <= now
    ensures var (u, r) := Clicked(s.tab, s.used, now, io);
            BudgetsOk(u.storage, s.auto, if r.Some? then Logged(s.manual, r.value.intentId, now) else s.manual, now)
  {
    hide Clicked, Mirrored;
    var a := s.tab.storage;
    var (u, r) := Clicked(s.tab, s.used, now, io);
    assert Mirrored(s.tab);
    ClickAccounts(s.tab, s.used, now, io);
    if SameAccounts(a, u.storage) {
      SameAccountsOk(a, u.storage, s.auto, s.manual, s.clock, now);
    } else {
      var i := s.tab.poll.intentId.value;
      var manual', saved := if r.Some? then Logged(s.manual, i, now) else s.manual, a[i].(manualAt := now);
      SameAsItself(a);
      SameAccountsOk(a, a, s.auto, s.manual, s.clock, now);
      LogsOnly(s.manual, i, now);
      assert Accounted(a[i], TimesOf(s.auto, i), TimesOf(s.manual, i), now);
      ManualAccounted(a[i], TimesOf(s.auto, i), TimesOf(s.manual, i), now, r.Some?);
      hide Logged, TimesOf, Accounted, BudgetsOk, SameAccounts;
      OneAccountOk(a, i, saved, s.auto, s.auto, s.manual, manual', now);
      SameAccountsOk(a[i := saved], u.storage, s.auto, manual', now, now);
    }
  }

  lemma TimerKeepsInv(s: Sys, now: int, hidden: bool, io: Io, t: Sys)
    requires Inv(s) && Step(s, Timer(now, hidden, io), t)
    ensures Inv(t)
  {
    hide Ticked, BudgetsOk, SameAccounts, Mirrored, Logged;
    TickAccounts(s.tab, s.used, now, hidden, io);
    TickBudgets(s, now, hidden, io);
    FlightsHold(s, Ticked(s.tab, s.used, now, hidden, io).0, Ticked(s.tab, s.used, now, hidden, io).1, now);
  }

  lemma ClickKeepsInv(s: Sys, now: int, io: Io, t: Sys)
    requires Inv(s) && Step(s, ManualCheck(now, io), t)
    ensures Inv(t)
  {
    hide Clicked, BudgetsOk, SameAccounts, Mirrored, Logged;
    ClickAccounts(s.tab, s.used, now, io);
    ClickBudgets(s, now, io);
    FlightsHold(s, Clicked(s.tab, s.used, now, io).0, Clicked(s.tab, s.used, now, io).1, now);
  }

  lemma StepKeepsInv(s: Sys, a: Action, t: Sys)
    requires Inv(s) && Step(s, a, t)
    ensures Inv(t)
  {
    hide PollStarted, Ticked, Clicked, Responded, FlightEnded, BudgetsOk, SameAccounts, Mirrored, Logged;
    match a
    case Start(intentId, now, io) =>
      StartAccounts(s.tab, intentId, now, io);
      StartBudgets(s, intentId, now, io);
    case Timer(now, hidden, io) =>
      TimerKeepsInv(s, now, hidden, io, t);
    case ManualCheck(now, io) =>
      ClickKeepsInv(s, now, io, t);
    case Answer(flight, status, now, io) =>
      RespondIsQuiet(s.tab, flight, s.air[flight], status, now, io);
      SameAccountsOk(s.tab.storage, t.tab.storage, s.auto, s.manual, s.clock, now);
    case Displayed(flight, now, ok) =>
      EndIsQuiet(s.tab, flight, s.showing[flight], now, ok);
      SameAccountsOk(s.tab.storage, t.tab.storage, s.auto, s.manual, s.clock, now);
    case Visible =>
      VisibleIsQuiet(s.tab);
    case Reload =>
      ReloadIsMirrored(s.tab.storage);
  }

  // A new flight takes off only when none is in the air.
  lemma FlightsHold(s: Sys, tab: Tab, r: Option<Request>, now: int)
    requires Inv(s)
    requires if r.Some? then s.tab.poll.inFlight.None? && tab.poll.inFlight == Some(s.used)
             else tab.poll.inFlight == s.tab.poll.inFlight
    ensures var t := Flown(s, tab, r, now);
            && (forall f :: f in t.air ==> f < t.used && t.tab.poll.inFlight == Some(f) && f !in t.showing)
            && (forall f :: f in t.showing ==> f < t.used)
  {
    hide BudgetsOk, Mirrored, Logged;
  }

  lemma VisibleIsQuiet(t: Tab)
    requires Mirrored(t)
    ensures Quiet(t, BecameVisible(t))
  {
    PacingIsQuiet(t, BecameVisible(t));
  }

  lemma ReloadIsMirrored(storage: map<string, Saved>)
    ensures Mirrored(Tab(FRESH_POLL, storage))
  {
  }

  // ---------------------------------------------------------------- over every run

  ghost predicate Reachable(actions: seq<Action>, t: Sys) {
    Run((s, a, t) => Step(s, a, t), INITIAL, actions, t)
  }

  lemma RunsKeepInv(actions: seq<Action>, t: Sys)
    requires Reachable(actions, t)
    ensures Inv(t)
  {
    forall s, a, u | Inv(s) && Step(s, a, u)
      ensures Inv(u)
    {
      hide Inv, Step;
      StepKeepsInv(s, a, u);
    }
    RunKeeps((s, a, t) => Step(s, a, t), s => Inv(s), INITIAL, actions, t);
  }

  // Across reloads and switches: at most 60 automatic requests for an intent, all within 120
  // seconds of the start that storage remembers, and storage counts every one of them.
  lemma AutomaticRequestsAreBounded(actions: seq<Action>, t: Sys, intentId: string)
    requires Reachable(actions, t)
    ensures var times := TimesOf(t.auto, intentId);
            && |times| <= MAX_POLLS
            && (times != [] ==>
                  && intentId in t.tab.storage && t.tab.storage[intentId].count == |times|
                  && forall i :: 0 <= i < |times| ==>
                       t.tab.storage[intentId].startedAt <= times[i] < t.tab.storage[intentId].startedAt + WINDOW_MS)
  {
    RunsKeepInv(actions, t);
    assert intentId in t.tab.storage ==>
        Accounted(t.tab.storage[intentId], TimesOf(t.auto, intentId), TimesOf(t.manual, intentId), t.clock);
  }

  lemma ManualRequestsAreSpaced(actions: seq<Action>, t: Sys, intentId: string, i: nat)
    requires Reachable(actions, t) && i + 1 < |TimesOf(t.manual, intentId)|
    ensures TimesOf(t.manual, intentId)[i + 1] - TimesOf(t.manual, intentId)[i] >= MANUAL_SPACING_MS
  {
    RunsKeepInv(actions, t);
    assert intentId in t.tab.storage ==>
        Accounted(t.tab.storage[intentId], TimesOf(t.auto, intentId), TimesOf(t.manual, intentId), t.clock);
  }

  lemma OneRequestInTheAir(actions: seq<Action>, t: Sys, f: nat, g: nat)
    requires Reachable(actions, t) && f in t.air && g in t.air
    ensures f == g
  {
    RunsKeepInv(actions, t);
  }

  /** The first start of an intent that storage remembers never moves. */
  ghost predicate StartsFixed(s: Sys, t: Sys) {
    Fixed(s.tab.storage, t.tab.storage)
  }

  ghost predicate Fixed(a: map<string, Saved>, b: map<string, Saved>) {
    forall i :: i in a ==> i in b && b[i].startedAt == a[i].startedAt && b[i].count >= a[i].count
  }

  lemma FixedBySame(a: map<string, Saved>, b: map<string, Saved>)
    ensures SameAccounts(a, b) ==> Fixed(a, b)
  {
  }

  lemma FixedByUpdate(a: map<string, Saved>, i: string, saved: Saved, b: map<string, Saved>)
    requires i in a ==> saved.startedAt == a[i].startedAt && saved.count >= a[i].count
    ensures SameAccounts(a[i := saved], b) ==> Fixed(a, b)
  {
    forall k | k in a && SameAccounts(a[i := saved], b)
      ensures k in b && b[k].startedAt == a[k].startedAt && b[k].count >= a[k].count
    {
      assert SameAccount(a[i := saved][k], b[k]);
    }
  }

  lemma StepFixesStarts(s: Sys, a: Action, t: Sys)
    requires Inv(s) && Step(s, a, t)
    ensures StartsFixed(s, t)
  {
    hide PollStarted, Ticked, Clicked, Responded, FlightEnded, BudgetsOk, Mirrored, SameAccounts, Fixed, Logged, BecameVisible;
    var before, after := s.tab.storage, t.tab.storage;
    FixedBySame(before, after);
    match a
    case Start(intentId, now, io) =>
      StartAccounts(s.tab, intentId, now, io);
      if !SameAccounts(before, after) {
        FixedByUpdate(before, intentId, Saved(now, 0, 0, 0, false), after);
      }
    case Timer(now, hidden, io) =>
      TickAccounts(s.tab, s.used, now, hidden, io);
      var r := Ticked(s.tab, s.used, now, hidden, io).1;
      if r.Some? {
        FixedByUpdate(before, r.value.intentId, before[r.value.intentId].(count := before[r.value.intentId].count + 1), after);
      }
    case ManualCheck(now, io) =>
      ClickAccounts(s.tab, s.used, now, io);
      if !SameAccounts(before, after) {
        var i := s.tab.poll.intentId.value;
        FixedByUpdate(before, i, before[i].(manualAt := now), after);
      }
    case Answer(flight, status, now, io) =>
      RespondIsQuiet(s.tab, flight, s.air[flight], status, now, io);
    case Displayed(flight, now, ok) =>
      EndIsQuiet(s.tab, flight, s.showing[flight], now, ok);
    case Visible =>
      VisibleIsQuiet(s.tab);
    case Reload =>
      SameAsItself(before);
  }

  // Once stored, the first start of an intent never moves and its count never goes down, so the
  // bounds above are over the whole life of the tab.
  lemma StartsNeverMove(s: Sys, actions: seq<Action>, t: Sys)
    requires Inv(s) && Run((s, a, t) => Step(s, a, t), s, actions, t)
    ensures StartsFixed(s, t)
  {
    forall u, a, v | Inv(u) && Step(u, a, v)
      ensures Inv(v) && StartsFixed(u, v)
    {
      hide Inv, Step, StartsFixed;
      StepKeepsInv(u, a, v);
      StepFixesStarts(u, a, v);
    }
    RunAdvances((s, a, t) => Step(s, a, t), s => Inv(s), (s, t) => StartsFixed(s, t), s, actions, t);
  }

  // ---------------------------------------------------------------- late answers

  // An answer that belongs to another version: the whole tab stays as it was, but for the mark that
  // the old flight has ended.
  lemma StaleAnswerIsInert(t: Tab, flight: nat, r: Request, s: Status, now: int, io: Io)
    requires t.poll.version != r.version
    ensures Responded(t, flight, r, s, now, io)
         == (t.(poll := t.poll.(inFlight := if t.poll.inFlight == Some(flight) then None else t.poll.inFlight)), false)
  {
  }

  lemma VisibleKeepsVersion(t: Tab)
    ensures BecameVisible(t).poll.version == t.poll.version
  {
  }

  lemma HandlingKeepsVersion(t: Tab, r: Request, s: Status, now: int, ok: bool)
    ensures StopPolled(t, ok).poll.version == t.poll.version
    ensures StatusHandled(t, r, s, now, ok).poll.version == t.poll.version
  {
  }

  lemma EndKeepsVersion(t: Tab, flight: nat, r: Request, now: int, ok: bool)
    ensures FlightEnded(t, flight, r, now, ok).poll.version == t.poll.version
  {
  }

  lemma RespondKeepsVersion(t: Tab, flight: nat, r: Request, s: Status, now: int, io: Io)
    ensures Responded(t, flight, r, s, now, io).0.poll.version == t.poll.version
  {
    hide StopPolled, StatusHandled, FlightEnded;
    HandlingKeepsVersion(t, r, s, now, io.stop);
    var u := if s.BadEnvelope? then t else t.(poll := t.poll.(nextAt := 0));
    HandlingKeepsVersion(u, r, s, now, io.stop);
    var v := StatusHandled(u, r, s, now, io.stop);
    forall w: Tab ensures FlightEnded(w, flight, r, now, io.last).poll.version == w.poll.version {
      EndKeepsVersion(w, flight, r, now, io.last);
    }
  }

  lemma StartRaisesVersion(t: Tab, intentId: string, now: int, io: Io)
    ensures PollStarted(t, intentId, now, io).poll.version
         == t.poll.version + if t.poll.intentId == Some(intentId) then 0 else 1
  {
  }

  /** A request once overtaken by a switch stays overtaken for as long as it is in the air. */
  ghost predicate StaysLate(s: Sys, t: Sys) {
    && s.used <= t.used
    && forall f :: f < s.used && f in t.air ==>
         && f in s.air && t.air[f] == s.air[f]
         && (s.air[f].version < s.tab.poll.version ==> t.air[f].version < t.tab.poll.version)
  }

  /** Within a page the version never goes back, and a request carries the version that sent it. */
  ghost predicate VersionsGoOn(s: Sys, t: Sys) {
    && s.used <= t.used
    && (t.air != map[] ==> s.tab.poll.version <= t.tab.poll.version)
    && forall f :: f in t.air ==>
         if f < s.used then f in s.air && t.air[f] == s.air[f] else t.air[f].version == t.tab.poll.version
  }

  lemma StepVersions(s: Sys, a: Action, t: Sys)
    requires Step(s, a, t) && forall f :: f in s.air ==> f < s.used
    ensures VersionsGoOn(s, t)
  {
    hide PollStarted, Responded, FlightEnded, Logged, BecameVisible;
    match a
    case Start(intentId, now, io) =>
      StartRaisesVersion(s.tab, intentId, now, io);
    case Timer(now, hidden, io) =>
      SentVersion(s.tab, s.used, now, hidden, io);
      hide Ticked;
    case ManualCheck(now, io) =>
      SentVersion(s.tab, s.used, now, false, io);
      hide Clicked;
    case Answer(flight, status, now, io) =>
      RespondKeepsVersion(s.tab, flight, s.air[flight], status, now, io);
    case Displayed(flight, now, ok) =>
      EndKeepsVersion(s.tab, flight, s.showing[flight], now, ok);
    case Visible =>
      assert BecameVisible(s.tab).poll.version == s.tab.poll.version by { VisibleKeepsVersion(s.tab); }
    case Reload =>
  }

  /**
   A request that a switch has overtaken: whenever its answer arrives, after whatever else happens,
   it changes nothing of the budget or the state of the intent now followed.
   */
  lemma LateAnswersChangeNothing(s: Sys, actions: seq<Action>, t: Sys, f: nat, status: Status, now: int, io: Io)
    requires Inv(s) && Run((s, a, t) => Step(s, a, t), s, actions, t)
    requires f in s.air && s.air[f].version < s.tab.poll.version && f in t.air
    ensures Responded(t.tab, f, t.air[f], status, now, io)
         == (t.tab.(poll := t.tab.poll.(inFlight := if t.tab.poll.inFlight == Some(f) then None else t.tab.poll.inFlight)), false)
  {
    forall u, a, v | Inv(u) && Step(u, a, v)
      ensures Inv(v) && StaysLate(u, v)
    {
      StepKeepsInv(u, a, v);
      StepVersions(u, a, v);
      hide BudgetsOk, Mirrored, Step;
    }
    RunAdvances((s, a, t) => Step(s, a, t), s => Inv(s), (s, t) => StaysLate(s, t), s, actions, t);
    StaleAnswerIsInert(t.tab, f, t.air[f], status, now, io);
  }

  // A switch to another intent overtakes every request then in the air.
  lemma SwitchesOvertake(actions: seq<Action>, s: Sys, intentId: string, now: int, io: Io, t: Sys, f: nat)
    requires Reachable(actions, s) && Step(s, Start(intentId, now, io), t)
    requires s.tab.poll.intentId != Some(intentId) && f in t.air
    ensures t.air[f].version < t.tab.poll.version
  {
    RunsNeverAhead(actions, s);
    hide PollStarted, Reachable;
    StartRaisesVersion(s.tab, intentId, now, io);
    assert t.air == s.air && t.tab == PollStarted(s.tab, intentId, now, io);
  }

  lemma RunsNeverAhead(actions: seq<Action>, s: Sys)
    requires Reachable(actions, s)
    ensures NeverAhead(s)
  {
    forall u, a, v | NeverAhead(u) && Step(u, a, v)
      ensures NeverAhead(v)
    {
      hide Step, NeverAhead;
      StepNeverAhead(u, a, v);
    }
    RunKeeps((s, a, t) => Step(s, a, t), s => NeverAhead(s), INITIAL, actions, s);
  }

  lemma StepNeverAhead(s: Sys, a: Action, t: Sys)
    requires NeverAhead(s) && Step(s, a, t)
    ensures NeverAhead(t)
  {
    StepVersions(s, a, t);
    AirIsUsed(s, a, t);
    hide Step;
  }

  lemma AirIsUsed(s: Sys, a: Action, t: Sys)
    requires Step(s, a, t) && forall f :: f in s.air ==> f < s.used
    ensures forall f :: f in t.air ==> f < t.used
  {
    hide PollStarted, Ticked, Clicked, Responded, FlightEnded, Logged, BecameVisible;
  }

  ghost predicate NeverAhead(s: Sys) {
    forall f :: f in s.air ==> f < s.used && s.air[f].version <= s.tab.poll.version
  }

  lemma SentVersion(t: Tab, flight: nat, now: int, hidden: bool, io: Io)
    ensures var (u, r) := Ticked(t, flight, now, hidden, io);
            u.poll.version == t.poll.version && (r.Some? ==> r.value.version == t.poll.version)
    ensures var (u, r) := Clicked(t, flight, now, io);
            u.poll.version == t.poll.version && (r.Some? ==> r.value.version == t.poll.version)
  {
  }
}
