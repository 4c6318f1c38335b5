/**
 The follow-up poll of a write page (write-intent-page.ts) and its persisted budget
 (write-intent-page-budget.ts). The class holds the script's segments, each running from one
 event to the next await; PollRuns proves what every run of them keeps.
 */
module Poll {
  import opened Prelude

  const INTERVAL_MS := 2000
  const WINDOW_MS := 120000
  const MAX_POLLS := 60
  const MANUAL_SPACING_MS := 30000
  const REQUEST_TIMEOUT_MS := 15000

  /** `inFlight` is the flight whose request is in the air; `timer` says that one is armed. */
  datatype Poll = Poll(
    timer: bool, inFlight: Option<nat>, intentId: Option<string>, startedAt: int, count: int, stopped: bool,
    manualAt: int, nextAt: int, cacheOK: bool, restoredLease: bool, version: nat)

  /** What sessionStorage keeps for one intent. */
  datatype Saved = Saved(startedAt: int, count: int, manualAt: int, nextAt: int, stopped: bool)

  datatype Tab = Tab(poll: Poll, storage: map<string, Saved>)

  const FRESH_POLL := Poll(false, None, None, 0, 0, true, 0, 0, false, false, 0)

  /** Whether each access to the storage in a segment succeeds; a failing one throws. */
  datatype Io = Io(stop: bool, read: bool, write: bool, last: bool)

  /** A status request that was sent: for which intent, under which version. */
  datatype Request = Request(intentId: string, version: nat, manual: bool)

  datatype State = Pending | Committed | Rejected | Expired | Revoked

  /** A status answer; `BadEnvelope` is a 200 that fails validation, `Failed` a throwing fetch. */
  datatype Status = Ok(state: State) | Refused(code: int, retryAfterSec: int) | BadEnvelope | Failed

  predicate Valid(saved: Saved, now: int) {
    0 < saved.startedAt <= now && 0 <= saved.count <= MAX_POLLS && saved.manualAt >= 0 && saved.nextAt >= 0
  }

  // ---------------------------------------------------------------- the budget, on values

  function Unavailable(t: Tab): Tab {
    t.(poll := t.poll.(cacheOK := false, stopped := true))
  }

  function SavedOf(p: Poll): Saved {
    Saved(p.startedAt, p.count, p.manualAt, p.nextAt, p.stopped)
  }

  function Checkpointed(t: Tab, ok: bool): (Tab, bool) {
    if !t.poll.cacheOK || t.poll.intentId.None? then (t, false)
    else if !ok then (Unavailable(t), false)
    else (t.(storage := t.storage[t.poll.intentId.value := SavedOf(t.poll)]), true)
  }

  function Loaded(p: Poll, saved: Saved, lease: bool): Poll {
    p.(startedAt := saved.startedAt, count := saved.count, manualAt := saved.manualAt, nextAt := saved.nextAt,
       stopped := saved.stopped, restoredLease := lease)
  }

  function Restored(t: Tab, intentId: string, now: int, io: Io): (Tab, bool) {
    var p := t.poll.(intentId := Some(intentId), cacheOK := true);
    if !io.read then (Unavailable(t.(poll := p)), false)
    else if intentId in t.storage then
      var saved := t.storage[intentId];
      if !Valid(saved, now) then (Unavailable(t.(poll := p)), false)
      else Checkpointed(t.(poll := Loaded(p, saved, saved.nextAt > now)), io.write)
    else Checkpointed(t.(poll := Loaded(p, Saved(now, 0, 0, 0, false), false)), io.write)
  }

  // ---------------------------------------------------------------- the segments, on values

  function StopPolled(t: Tab, ok: bool): Tab {
    Checkpointed(t.(poll := t.poll.(stopped := true, timer := false)), ok).0
  }

  function Scheduled(t: Tab): Tab {
    t.(poll := t.poll.(timer := true))
  }

  predicate Spent(p: Poll, now: int) {
    now - p.startedAt >= WINDOW_MS || p.count >= MAX_POLLS
  }

  function PollStarted(t: Tab, intentId: string, now: int, io: Io): Tab {
    if t.poll.intentId == Some(intentId) then t
    else
      var away := StopPolled(t.(poll := t.poll.(version := t.poll.version + 1)), io.stop);
      Followed(Restored(away, intentId, now, io), now, io)
  }

  /** A restored budget is followed up, unless it is stopped or spent. */
  function Followed(r: (Tab, bool), now: int, io: Io): Tab {
    if !r.1 then r.0
    else if r.0.poll.stopped || Spent(r.0.poll, now) then StopPolled(r.0, io.last)
    else Scheduled(r.0)
  }

  /** Take the flight, and send unless the budget cannot be written first. */
  function Sent(t: Tab, flight: nat, now: int, manual: bool, ok: bool): (Tab, Option<Request>) {
    var p := t.poll.(inFlight := Some(flight), nextAt := now + REQUEST_TIMEOUT_MS);
    var (u, written) := Checkpointed(t.(poll := p), ok);
    if !written || u.poll.intentId.None? then (u.(poll := u.poll.(inFlight := None)), None)
    else (u, Some(Request(u.poll.intentId.value, u.poll.version, manual)))
  }

  function Ticked(t: Tab, flight: nat, now: int, hidden: bool, io: Io): (Tab, Option<Request>) {
    var u := t.(poll := t.poll.(timer := false));
    if u.poll.stopped then (u, None)
    else if u.poll.inFlight.Some? || hidden then (Scheduled(u), None)
    else if Spent(u.poll, now) then (StopPolled(u, io.stop), None)
    else Sent(u.(poll := u.poll.(count := u.poll.count + 1)), flight, now, false, io.write)
  }

  function Clicked(t: Tab, flight: nat, now: int, io: Io): (Tab, Option<Request>) {
    var p := t.poll;
    if !p.cacheOK || p.intentId.None? || p.inFlight.Some? then (t, None)
    else if (p.restoredLease && now < p.nextAt) || now - p.manualAt < MANUAL_SPACING_MS then (t, None)
    else Sent(StopPolled(t.(poll := p.(manualAt := now)), io.stop), flight, now, true, io.write)
  }

  predicate Current(t: Tab, r: Request) {
    t.poll.intentId == Some(r.intentId) && t.poll.version == r.version
  }

  function WaitSeconds(retryAfterSec: int): (s: int)
    ensures 2 <= s <= 60
  {
    Min(60, Max(INTERVAL_MS / 1000, retryAfterSec))
  }

  /** `handleStatus` up to the display of a committed receipt. */
  function StatusHandled(t: Tab, r: Request, s: Status, now: int, ok: bool): Tab {
    match s
    case Ok(state) =>
      if state.Pending? then t
      else var u := StopPolled(t, ok); u.(poll := u.poll.(inFlight := None))
    case Refused(code, retry) =>
      if code == 429 then
        var wait := WaitSeconds(retry) * 1000;
        var u := t.(poll := t.poll.(nextAt := Max(t.poll.nextAt, now + wait), restoredLease := true));
        if r.manual then u else Scheduled(u)
      else StopPolled(t, ok)
    case _ => StopPolled(t, ok)
  }

  /** The `finally` of a flight. */
  function FlightEnded(t: Tab, flight: nat, r: Request, now: int, ok: bool): Tab {
    var u := if t.poll.inFlight == Some(flight) then t.(poll := t.poll.(inFlight := None)) else t;
    if !Current(u, r) then u
    else
      var next := if r.manual then u.poll.manualAt + MANUAL_SPACING_MS else now + INTERVAL_MS;
      Checkpointed(u.(poll := u.poll.(nextAt := Max(u.poll.nextAt, next))), ok).0
  }

  /** An answer arrives; true when the flight goes on to display a committed receipt. */
  function Responded(t: Tab, flight: nat, r: Request, s: Status, now: int, io: Io): (Tab, bool) {
    if !Current(t, r) then (FlightEnded(t, flight, r, now, io.last), false)
    else if s.Failed? then
      (FlightEnded(if r.manual then t else StopPolled(t, io.stop), flight, r, now, io.last), false)
    else
      var u := if s.BadEnvelope? then t else t.(poll := t.poll.(nextAt := 0));
      var v := StatusHandled(u, r, s, now, io.stop);
      if s == Ok(Committed) then (v, true)
      else
        var w := if !r.manual && !v.poll.stopped && !v.poll.timer && (s.Ok? ==> s.state.Pending?) then Scheduled(v) else v;
        (FlightEnded(w, flight, r, now, io.last), false)
  }

  function BecameVisible(t: Tab): Tab {
    if !t.poll.stopped && !t.poll.timer && t.poll.inFlight.None? then Scheduled(t) else t
  }

  // ---------------------------------------------------------------- the object

  class PollPage {
    var timer: bool
    var inFlight: Option<nat>
    var intentId: Option<string>
    var startedAt: int
    var count: int
    var stopped: bool
    var manualAt: int
    var nextAt: int
    var cacheOK: bool
    var restoredLease: bool
    var version: nat
    var storage: map<string, Saved>

    ghost function Value(): Tab
      reads this
    {
      Tab(Poll(timer, inFlight, intentId, startedAt, count, stopped, manualAt, nextAt, cacheOK, restoredLease, version), storage)
    }

    // A page load: the poll starts afresh over whatever the tab's storage holds.
    constructor (storage: map<string, Saved>)
      ensures Value() == Tab(FRESH_POLL, storage)
    {
      timer, inFlight, intentId, startedAt, count, stopped := false, None, None, 0, 0, true;
      manualAt, nextAt, cacheOK, restoredLease, version := 0, 0, false, false, 0;
      this.storage := storage;
    }

    method UnavailableBudget()
      modifies this
      ensures Value() == Unavailable(old(Value()))
    {
      cacheOK := false;
      stopped := true;
    }

    method CheckpointBudget(ok: bool) returns (written: bool)
      modifies this
      ensures (Value(), written) == Checkpointed(old(Value()), ok)
    {
      if !cacheOK || intentId.None? {
        return false;
      }
      if !ok {
        UnavailableBudget();
        return false;
      }
      storage := storage[intentId.value := Saved(startedAt, count, manualAt, nextAt, stopped)];
      written := true;
    }

    method Load(saved: Saved, lease: bool)
      modifies this
      ensures Value() == old(Value()).(poll := Loaded(old(Value()).poll, saved, lease))
    {
      startedAt, count, manualAt, nextAt := saved.startedAt, saved.count, saved.manualAt, saved.nextAt;
      stopped, restoredLease := saved.stopped, lease;
    }

    method RestoreBudget(intent: string, now: int, io: Io) returns (restored: bool)
      modifies this
      ensures (Value(), restored) == Restored(old(Value()), intent, now, io)
    {
      hide Checkpointed, Valid, Loaded;
      intentId := Some(intent);
      cacheOK := true;
      if !io.read {
        UnavailableBudget();
        return false;
      }
      if intent in storage {
        var saved := storage[intent];
        if !Valid(saved, now) {
          UnavailableBudget();
          return false;
        }
        Load(saved, saved.nextAt > now);
      } else {
        Load(Saved(now, 0, 0, 0, false), false);
      }
      restored := CheckpointBudget(io.write);
    }

    method StopPoll(ok: bool)
      modifies this
      ensures Value() == StopPolled(old(Value()), ok)
    {
      stopped := true;
      timer := false;
      var written := CheckpointBudget(ok);
    }

    method StartPoll(intent: string, now: int, io: Io)
      modifies this
      ensures Value() == PollStarted(old(Value()), intent, now, io)
    {
      hide StopPolled, Restored;
      if intentId == Some(intent) {
        return;
      }
      version := version + 1;
      StopPoll(io.stop);
      var ok := RestoreBudget(intent, now, io);
      if !ok {
        return;
      }
      if stopped || now >= startedAt + WINDOW_MS || MAX_POLLS <= count {
        StopPoll(io.last);
        return;
      }
      timer := true;
    }

    method Send(flight: nat, now: int, manual: bool, ok: bool) returns (r: Option<Request>)
      modifies this
      ensures (Value(), r) == Sent(old(Value()), flight, now, manual, ok)
    {
      inFlight := Some(flight);
      nextAt := now + REQUEST_TIMEOUT_MS;
      var written := CheckpointBudget(ok);
      if !written || intentId.None? {
        inFlight := None;
        return None;
      }
      return Some(Request(intentId.value, version, manual));
    }

    method Tick(flight: nat, now: int, hidden: bool, io: Io) returns (r: Option<Request>)
      modifies this
      ensures (Value(), r) == Ticked(old(Value()), flight, now, hidden, io)
    {
      timer := false;
      if stopped {
        return None;
      }
      if inFlight.Some? || hidden {
        timer := true;
        return None;
      }
      if now - startedAt >= WINDOW_MS || count >= MAX_POLLS {
        StopPoll(io.stop);
        return None;
      }
      count := count + 1;
      r := Send(flight, now, false, io.write);
    }

    method Click(flight: nat, now: int, io: Io) returns (r: Option<Request>)
      modifies this
      ensures (Value(), r) == Clicked(old(Value()), flight, now, io)
    {
      if !cacheOK || intentId.None? || inFlight.Some? {
        return None;
      }
      if (restoredLease && now < nextAt) || now - manualAt < MANUAL_SPACING_MS {
        return None;
      }
      manualAt := now;
      StopPoll(io.stop);
      r := Send(flight, now, true, io.write);
    }

    method HandleStatus(r: Request, s: Status, now: int, ok: bool)
      modifies this
      ensures Value() == StatusHandled(old(Value()), r, s, now, ok)
    {
      match s
      case Ok(state) =>
        if !state.Pending? {
          StopPoll(ok);
          inFlight := None;
        }
      case Refused(code, retry) =>
        if code == 429 {
          nextAt := Max(nextAt, now + WaitSeconds(retry) * 1000);
          restoredLease := true;
          if !r.manual {
            timer := true;
          }
        } else {
          StopPoll(ok);
        }
      case _ =>
        StopPoll(ok);
    }

    // An answer arrives, or the fetch throws, up to the display of a committed receipt.
    method Respond(flight: nat, r: Request, s: Status, now: int, io: Io) returns (displaying: bool)
      modifies this
      ensures (Value(), displaying) == Responded(old(Value()), flight, r, s, now, io)
    {
      hide FlightEnded, StatusHandled, StopPolled;
      var current := intentId == Some(r.intentId) && version == r.version;
      if current {
        if s.Failed? {
          if !r.manual {
            StopPoll(io.stop);
          }
        } else {
          if !s.BadEnvelope? {
            nextAt := 0;
          }
          HandleStatus(r, s, now, io.stop);
          if s == Ok(Committed) {
            return true;
          }
          if !r.manual && !stopped && !timer && (s.Ok? ==> s.state.Pending?) {
            timer := true;
          }
        }
      }
      EndFlight(flight, r, now, io.last);
      displaying := false;
    }

    method EndFlight(flight: nat, r: Request, now: int, ok: bool)
      modifies this
      ensures Value() == FlightEnded(old(Value()), flight, r, now, ok)
    {
      if inFlight == Some(flight) {
        inFlight := None;
      }
      if intentId == Some(r.intentId) && version == r.version {
        nextAt := Max(nextAt, if r.manual then manualAt + MANUAL_SPACING_MS else now + INTERVAL_MS);
        var written := CheckpointBudget(ok);
      }
    }

    method BecomeVisible()
      modifies this
      ensures Value() == BecameVisible(old(Value()))
    {
      if !stopped && !timer && inFlight.None? {
        timer := true;
      }
    }
  }
}
