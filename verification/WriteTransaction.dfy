/**
 The deadline-raced write transaction (write-intent-transaction.ts). A timer, a cancellation and the
 transaction coroutine share flags and one leased connection; the caller races them. Every await is
 a point where any of the others may move, so every interleaving is a run of the actions below.
 */
module WriteTransaction {
  import opened Prelude
  import Machine

  /** `Unavailable` is the refusal write_fence_unavailable; everything else keeps its code. */
  datatype Error = Unavailable | Failure(code: string)

  datatype Timer = Armed | Fired | Cleared

  datatype Cancellation = NotStarted | Terminating | Settled

  /** What the transaction coroutine waits for, or how it ended. */
  datatype Txn =
    | Connecting | ControlConnecting | QueryingPid
    | Beginning | SettingLock | SettingStatement | Working
    | Committing(value: int) | RollingBack(error: Error)
    | Resolved(value: int) | Rejected(error: Error)

  datatype Outcome = Returned(value: int) | Threw(error: Error)

  /** The caller: racing, awaiting the cancellation, closing the control connection, or done. */
  datatype Main = Racing | Finalizing(outcome: Outcome) | Closing(outcome: Outcome) | Done(outcome: Outcome)

  /** What happened to the pool's lease and to the database, for the statements about runs. */
  datatype History = History(
    acquired: nat, releases: nat, returned: bool, misused: bool, commitIssued: bool, committed: Option<int>)

  datatype State = State(
    client: bool, expired: bool, destroyed: bool, control: bool, pid: bool,
    timer: Timer, cancellation: Cancellation, deadlineRejected: bool,
    txn: Txn, main: Main, history: History)

  const INITIAL := State(false, false, false, false, false, Armed, NotStarted, false, Connecting, Racing,
                         History(0, 0, false, false, false, None))

  /** An awaited answer: `pidOk` and `late` are read only after the pid query and after the work. */
  datatype Reply = Ok(value: int, pidOk: bool, late: bool) | Err(error: Error)

  datatype Action =
    | TimerFires
    | CancellationSettles
    | Answer(reply: Reply)
    | RaceSettles(byDeadline: bool)
    | FinallyResumes
    | ControlEnds(ok: bool)

  // ---------------------------------------------------------------- the segments

  /** 55P03 (lock timeout) and 57014 (cancelled) become the refusal; other errors pass through. */
  function Mapped(e: Error): Error {
    if e == Failure("55P03") || e == Failure("57014") then Unavailable else e
  }

  function FireTimer(s: State): State {
    s.(expired := true, timer := Fired, cancellation := Terminating)
  }

  function SettleCancellation(s: State): State {
    var t := s.(cancellation := Settled, deadlineRejected := true);
    if s.client then t.(destroyed := true, history := s.history.(releases := s.history.releases + 1)) else t
  }

  /** Sends a statement on the leased connection and waits for it. */
  function Send(s: State, txn: Txn): State {
    s.(txn := txn, history := s.history.(misused := s.history.misused || s.history.returned))
  }

  function Connected(s: State): State {
    var h := s.history.(acquired := s.history.acquired + 1);
    if s.expired then s.(txn := Rejected(Unavailable), history := h.(releases := h.releases + 1, returned := true))
    else s.(client := true, control := true, txn := ControlConnecting, history := h)
  }

  /** Before BEGIN: every answer that arrives after the deadline is refused. */
  function SetUp(s: State, r: Reply): State {
    match s.txn
    case Connecting => if r.Ok? then Connected(s) else s.(txn := Rejected(Unavailable))
    case ControlConnecting =>
      if r.Err? || s.expired then s.(txn := Rejected(Unavailable)) else Send(s, QueryingPid)
    case QueryingPid =>
      if r.Err? then s.(txn := Rejected(r.error))
      else if !r.pidOk || s.expired then s.(txn := Rejected(Unavailable), pid := r.pidOk)
      else Send(s.(pid := true), Beginning)
    case _ => s
  }

  /** After the work: the last look at the deadline, then the point of no return. */
  function FinishWork(s: State, r: Reply): State {
    if r.Err? then Send(s, RollingBack(Mapped(r.error)))
    else if s.expired || r.late then Send(s, RollingBack(Unavailable))
    else
      Send(s.(timer := if s.timer == Armed then Cleared else s.timer,
              history := s.history.(commitIssued := true)), Committing(r.value))
  }

  /** BEGIN and the two SET LOCAL statements. */
  function Prepare(s: State, r: Reply): State {
    match s.txn
    case Beginning => if r.Err? then s.(txn := Rejected(r.error)) else Send(s, SettingLock)
    case SettingLock => if r.Err? then Send(s, RollingBack(Mapped(r.error))) else Send(s, SettingStatement)
    case SettingStatement => if r.Err? then Send(s, RollingBack(Mapped(r.error))) else Send(s, Working)
    case _ => s
  }

  /** The answers to COMMIT and ROLLBACK. */
  function Conclude(s: State, r: Reply): State {
    match s.txn
    case Committing(v) =>
      if r.Err? then Send(s, RollingBack(r.error))
      else s.(txn := Resolved(v), history := s.history.(committed := Some(v)))
    case RollingBack(e) => s.(txn := Rejected(if r.Err? then r.error else e))
    case _ => s
  }

  predicate SettingUp(txn: Txn) {
    txn.Connecting? || txn.ControlConnecting? || txn.QueryingPid?
  }

  predicate Preparing(txn: Txn) {
    txn.Beginning? || txn.SettingLock? || txn.SettingStatement?
  }

  function Resume(s: State, r: Reply): State {
    if SettingUp(s.txn) then SetUp(s, r)
    else if Preparing(s.txn) then Prepare(s, r)
    else if s.txn.Working? then FinishWork(s, r)
    else Conclude(s, r)
  }

  function SettleRace(s: State, byDeadline: bool): State {
    var outcome :=
      if !byDeadline && s.txn.Resolved? then Returned(s.txn.value)
      else if s.expired || byDeadline || !s.txn.Rejected? then Threw(Unavailable)
      else Threw(s.txn.error);
    s.(main := Finalizing(outcome), timer := if s.timer == Armed then Cleared else s.timer)
  }

  function ResumeFinally(s: State): State
    requires s.main.Finalizing?
  {
    var t := s.(main := Closing(s.main.outcome));
    if s.client && !s.destroyed then
      t.(history := s.history.(releases := s.history.releases + 1, returned := true))
    else t
  }

  function EndControl(s: State, ok: bool): State
    requires s.main.Closing?
  {
    s.(main := Done(if s.control && !ok then Threw(Failure("control")) else s.main.outcome))
  }

  // ---------------------------------------------------------------- the shared variables, in place

  class WriteIntentTransaction {
    var client: bool
    var expired: bool
    var destroyed: bool
    var control: bool
    var pid: bool
    var timer: Timer
    var cancellation: Cancellation
    var deadlineRejected: bool
    var txn: Txn
    var main: Main
    ghost var history: History

    ghost function View(): State
      reads this
    {
      State(client, expired, destroyed, control, pid, timer, cancellation, deadlineRejected, txn, main, history)
    }

    constructor ()
      ensures View() == INITIAL
    {
      client, expired, destroyed, control, pid := false, false, false, false, false;
      timer, cancellation, deadlineRejected := Armed, NotStarted, false;
      txn, main, history := Connecting, Racing, History(0, 0, false, false, false, None);
    }

    method Expire()
      modifies this
      ensures View() == FireTimer(old(View()))
    {
      expired := true;
      timer := Fired;
      cancellation := Terminating;
    }

    method Cancelled()
      modifies this
      ensures View() == SettleCancellation(old(View()))
    {
      if client {
        destroyed := true;
        history := history.(releases := history.releases + 1);
      }
      deadlineRejected := true;
      cancellation := Settled;
    }

    method Issue(next: Txn)
      modifies this`txn, this`history
      ensures View() == Send(old(View()), next)
    {
      history := history.(misused := history.misused || history.returned);
      txn := next;
    }

    // pool.connect() answered: keep the lease, or give a late one straight back.
    method Lease()
      modifies this
      ensures View() == Connected(old(View()))
    {
      history := history.(acquired := history.acquired + 1);
      if expired {
        history := history.(releases := history.releases + 1, returned := true);
        txn := Rejected(Unavailable);
      } else {
        client := true;
        control := true;
        txn := ControlConnecting;
      }
    }

    method CommitOrRefuse(r: Reply)
      requires txn == Working
      modifies this
      ensures View() == FinishWork(old(View()), r)
    {
      if r.Err? {
        Issue(RollingBack(Mapped(r.error)));
      } else if expired || r.late {
        Issue(RollingBack(Unavailable));
      } else {
        if timer == Armed { timer := Cleared; }
        history := history.(commitIssued := true);
        Issue(Committing(r.value));
      }
    }

    method Continue(r: Reply)
      modifies this
      ensures View() == Resume(old(View()), r)
    {
      hide Mapped, Connected, FinishWork;
      match txn {
        case Connecting =>
          if r.Err? { txn := Rejected(Unavailable); } else { Lease(); }
        case ControlConnecting =>
          if r.Err? || expired { txn := Rejected(Unavailable); } else { Issue(QueryingPid); }
        case QueryingPid =>
          if r.Err? { txn := Rejected(r.error); return; }
          pid := r.pidOk;
          if !pid || expired { txn := Rejected(Unavailable); } else { Issue(Beginning); }
        case Beginning =>
          if r.Err? { txn := Rejected(r.error); } else { Issue(SettingLock); }
        case SettingLock =>
          if r.Err? { Issue(RollingBack(Mapped(r.error))); } else { Issue(SettingStatement); }
        case SettingStatement =>
          if r.Err? { Issue(RollingBack(Mapped(r.error))); } else { Issue(Working); }
        case Working =>
          CommitOrRefuse(r);
        case Committing(v) =>
          if r.Err? { Issue(RollingBack(r.error)); return; }
          history := history.(committed := Some(v));
          txn := Resolved(v);
        case RollingBack(e) =>
          txn := Rejected(if r.Err? then r.error else e);
        case Resolved(_) =>
        case Rejected(_) =>
      }
    }

    method Settle(byDeadline: bool)
      modifies this
      ensures View() == SettleRace(old(View()), byDeadline)
    {
      var outcome := Threw(Unavailable);
      if !byDeadline && txn.Resolved? {
        outcome := Returned(txn.value);
      } else if !expired && !byDeadline && txn.Rejected? {
        outcome := Threw(txn.error);
      }
      if timer == Armed { timer := Cleared; }
      main := Finalizing(outcome);
    }

    method Release()
      requires main.Finalizing?
      modifies this
      ensures View() == ResumeFinally(old(View()))
    {
      if client && !destroyed {
        history := history.(releases := history.releases + 1, returned := true);
      }
      main := Closing(main.outcome);
    }

    method Close(ok: bool)
      requires main.Closing?
      modifies this
      ensures View() == EndControl(old(View()), ok)
    {
      main := Done(if control && !ok then Threw(Failure("control")) else main.outcome);
    }
  }

  // ---------------------------------------------------------------- all interleavings

  ghost predicate Enabled(s: State, a: Action) {
    match a
    case TimerFires => s.timer == Armed
    case CancellationSettles => s.cancellation == Terminating
    case Answer(r) =>
      && !s.txn.Resolved? && !s.txn.Rejected?
      && (r.Err? && !s.txn.Working? ==> r.error.Failure?)   // only the work throws the refusal itself
    case RaceSettles(byDeadline) =>
      s.main.Racing? && if byDeadline then s.deadlineRejected else s.txn.Resolved? || s.txn.Rejected?
    case FinallyResumes => s.main.Finalizing? && s.cancellation != Terminating
    case ControlEnds(_) => s.main.Closing?
  }

  ghost predicate Step(s: State, a: Action, t: State) {
    Enabled(s, a) &&
    match a
    case TimerFires => t == FireTimer(s)
    case CancellationSettles => t == SettleCancellation(s)
    case Answer(r) => t == Resume(s, r)
    case RaceSettles(byDeadline) => t == SettleRace(s, byDeadline)
    case FinallyResumes => t == ResumeFinally(s)
    case ControlEnds(ok) => t == EndControl(s, ok)
  }

  predicate Finished(txn: Txn) {
    txn.Resolved? || txn.Rejected?
  }

  /** The lease: who holds it, who gave it back. */
  ghost predicate LeaseGood(s: State) {
    var h := s.history;
    && (s.txn.Connecting? ==> !s.client && h.acquired == h.releases == 0)
    && h.acquired <= 1 && (s.client ==> h.acquired == 1)
    && (!s.client ==> h.acquired == h.releases && !s.destroyed)
    && (!s.client && h.acquired == 1 ==> Finished(s.txn))
    && (s.client && (s.main.Racing? || s.main.Finalizing?) ==> h.releases == if s.destroyed then 1 else 0)
    && (s.client && (s.main.Closing? || s.main.Done?) ==> h.releases == 1)
    && (s.destroyed ==> s.cancellation == Settled)
    && (s.client && s.cancellation == Settled ==> s.destroyed)
    && (h.returned ==> Finished(s.txn)) && !h.misused
  }

  /** Timer, flag and cancellation move together, and the lease is not taken once the deadline passed. */
  ghost predicate DeadlineGood(s: State) {
    && (s.expired <==> s.timer == Fired)
    && (s.expired <==> s.cancellation != NotStarted)
    && (s.deadlineRejected <==> s.cancellation == Settled)
    && (s.main.Racing? || s.timer != Armed)
    && (s.main.Closing? || s.main.Done? ==> s.cancellation != Terminating)
    && (s.main.Racing? || s.expired || Finished(s.txn))
  }

  /** The commit point: reached only in time, and then the timer is gone. */
  ghost predicate CommitGood(s: State) {
    var h := s.history;
    && (h.commitIssued ==> s.timer == Cleared)
    && (h.commitIssued ==> s.txn.Committing? || s.txn.RollingBack? || Finished(s.txn))
    && (s.txn.Committing? ==> h.commitIssued)
    && (h.committed.Some? <==> s.txn.Resolved?)
    && (h.committed.Some? ==> h.committed.value == s.txn.value && h.commitIssued)
    && (h.commitIssued && (s.txn.RollingBack? || s.txn.Rejected?) ==> s.txn.error.Failure?)
  }

  function OutcomeOf(m: Main): Option<Outcome> {
    match m
    case Racing => None
    case Finalizing(o) => Some(o)
    case Closing(o) => Some(o)
    case Done(o) => Some(o)
  }

  ghost predicate OutcomeGood(s: State) {
    var o := OutcomeOf(s.main);
    && (o == Some(Threw(Unavailable)) ==> !s.history.commitIssued)
    && (o.Some? && o.value.Returned? ==> s.history.committed == Some(o.value.value))
    && (o.Some? && s.history.committed.Some? ==>
         o.value == Returned(s.history.committed.value) || (s.main.Done? && o.value == Threw(Failure("control"))))
  }

  ghost predicate Inv(s: State) {
    LeaseGood(s) && DeadlineGood(s) && CommitGood(s) && OutcomeGood(s)
  }

  lemma TimerKeeps(s: State, t: State)
    requires Inv(s) && Step(s, TimerFires, t)
    ensures Inv(t)
  {
  }

  lemma CancellationKeeps(s: State, t: State)
    requires Inv(s) && Step(s, CancellationSettles, t)
    ensures Inv(t)
  {
  }

  /** What no segment of the coroutine touches. */
  ghost predicate Framed(s: State, t: State) {
    && t.main == s.main && t.expired == s.expired && t.destroyed == s.destroyed
    && t.cancellation == s.cancellation && t.deadlineRejected == s.deadlineRejected
    && (t.timer == s.timer || (s.timer == Armed && t.timer == Cleared && s.txn == Working))
  }

  /** The commit point of a segment. */
  ghost predicate Commits(s: State, t: State) {
    && (t.txn.Committing? ==> s.txn.Working? && t.history.commitIssued && !s.expired && t.timer != Armed)
    && (t.history.commitIssued && !s.history.commitIssued ==> t.txn.Committing?)
    && (s.history.commitIssued ==> t.history.commitIssued)
    && (t.txn.Resolved? ==> s.txn.Committing? && t.txn.value == s.txn.value && t.history.committed == Some(t.txn.value))
    && (!t.txn.Resolved? ==> t.history.committed == s.history.committed)
    && (s.txn.Committing? && !t.txn.Resolved? ==> t.txn.RollingBack? && t.txn.error.Failure?)
    && (s.txn.RollingBack? ==> t.txn.Rejected? && (t.txn.error == s.txn.error || t.txn.error.Failure?))
  }

  ghost predicate LeaseFrame(s: State, t: State) {
    && !t.txn.Connecting? && t.client == s.client
    && t.history.acquired == s.history.acquired && t.history.releases == s.history.releases
    && t.history.returned == s.history.returned && (t.history.misused ==> s.history.misused || s.history.returned)
  }

  lemma SetUpFrame(s: State, r: Reply)
    requires SettingUp(s.txn)
    ensures Framed(s, SetUp(s, r))
  {
  }

  lemma Sending(s: State)
    ensures forall txn :: Send(s, txn) == s.(txn := txn, history := Send(s, txn).history)
    ensures forall txn :: var h := Send(s, txn).history;
      h == s.history.(misused := h.misused) && (h.misused ==> s.history.misused || s.history.returned)
  {
  }

  lemma SetUpCommits(s: State, r: Reply)
    requires SettingUp(s.txn)
    ensures Commits(s, SetUp(s, r))
  {
    Sending(s);
    Sending(s.(pid := true));
    hide Send;
  }

  lemma SetUpKeepsLease(s: State, r: Reply)
    requires SettingUp(s.txn) && !s.txn.Connecting?
    ensures LeaseFrame(s, SetUp(s, r))
  {
    Sending(s);
    Sending(s.(pid := true));
    hide Send;
  }

  lemma FinishWorkEffect(s: State, r: Reply)
    requires s.txn.Working?
    ensures Framed(s, FinishWork(s, r)) && Commits(s, FinishWork(s, r)) && LeaseFrame(s, FinishWork(s, r))
  {
    hide Mapped;
  }

  lemma PrepareFrame(s: State, r: Reply)
    requires Preparing(s.txn)
    ensures Framed(s, Prepare(s, r)) && LeaseFrame(s, Prepare(s, r))
  {
    Sending(s);
    hide Mapped, Send;
  }

  lemma PrepareCommits(s: State, r: Reply)
    requires Preparing(s.txn)
    ensures Commits(s, Prepare(s, r))
  {
    Sending(s);
    hide Mapped, Send;
  }

  lemma ConcludeEffect(s: State, r: Reply)
    requires s.txn.Committing? || s.txn.RollingBack?
    requires r.Err? ==> r.error.Failure?
    ensures Framed(s, Conclude(s, r)) && Commits(s, Conclude(s, r)) && LeaseFrame(s, Conclude(s, r))
  {
  }

  lemma AnswerEffect(s: State, r: Reply)
    requires Enabled(s, Answer(r))
    ensures var t := Resume(s, r); Framed(s, t) && Commits(s, t) && (!s.txn.Connecting? ==> LeaseFrame(s, t))
  {
    hide SetUp, Prepare, FinishWork, Conclude, Framed, Commits, LeaseFrame;
    if SettingUp(s.txn) {
      SetUpFrame(s, r);
      SetUpCommits(s, r);
      if !s.txn.Connecting? {
        SetUpKeepsLease(s, r);
      }
    } else if Preparing(s.txn) {
      PrepareFrame(s, r);
      PrepareCommits(s, r);
    } else if s.txn.Working? {
      FinishWorkEffect(s, r);
    } else {
      ConcludeEffect(s, r);
    }
  }

  lemma AnswerKeepsLease(s: State, r: Reply, t: State)
    requires LeaseGood(s) && DeadlineGood(s) && Enabled(s, Answer(r)) && t == Resume(s, r)
    ensures LeaseGood(t)
  {
    AnswerEffect(s, r);
    if !s.txn.Connecting? {
      hide Resume;
    }
  }

  lemma AnswerKeepsRest(s: State, r: Reply, t: State)
    requires DeadlineGood(s) && CommitGood(s) && OutcomeGood(s) && Enabled(s, Answer(r)) && t == Resume(s, r)
    ensures DeadlineGood(t) && CommitGood(t) && OutcomeGood(t)
  {
    AnswerEffect(s, r);
    hide Resume;
  }

  lemma MainKeeps(s: State, a: Action, t: State)
    requires Inv(s) && Step(s, a, t) && (a.RaceSettles? || a.FinallyResumes? || a.ControlEnds?)
    ensures Inv(t)
  {
  }

  lemma AnswerKeeps(s: State, r: Reply, t: State)
    requires Inv(s) && Step(s, Answer(r), t)
    ensures Inv(t)
  {
    hide Resume, LeaseGood, DeadlineGood, CommitGood, OutcomeGood, Enabled;
    AnswerKeepsLease(s, r, t);
    AnswerKeepsRest(s, r, t);
  }

  lemma StepKeeps(s: State, a: Action, t: State)
    requires Inv(s) && Step(s, a, t)
    ensures Inv(t)
  {
    hide LeaseGood, DeadlineGood, CommitGood, OutcomeGood, Step;
    match a
    case TimerFires => TimerKeeps(s, t);
    case CancellationSettles => CancellationKeeps(s, t);
    case Answer(r) =>
      AnswerKeeps(s, r, t);
    case _ => MainKeeps(s, a, t);
  }

  lemma Preservation()
    ensures Machine.Preserves(Step, Inv)
  {
    hide Inv, Step;
    forall s, a, t | Inv(s) && Step(s, a, t)
      ensures Inv(t)
    {
      StepKeeps(s, a, t);
    }
  }

  // ---------------------------------------------------------------- main results

  // A refusal means that COMMIT was not issued, and that it never will be, whatever the abandoned
  // coroutine still does.
  lemma RefusalMeansNoCommit(before: seq<Action>, s: State, after: seq<Action>, t: State)
    requires Machine.Run(Step, INITIAL, before, s) && s.main == Done(Threw(Unavailable))
    requires Machine.Run(Step, s, after, t)
    ensures !s.history.commitIssued && !t.history.commitIssued
  {
    Preservation();
    Machine.RunKeeps(Step, Inv, INITIAL, before, s);
    RefusalPreserved();
    Machine.RunKeeps(Step, Refused, s, after, t);
  }

  lemma RefusalPreserved()
    ensures Machine.Preserves(Step, Refused)
  {
    forall x, a, y | Refused(x) && Step(x, a, y)
      ensures Refused(y)
    {
      hide Inv, LeaseGood;
      StepKeeps(x, a, y);
      if a.Answer? {
        AnswerEffect(x, a.reply);
        hide Resume;
      }
    }
  }

  ghost predicate Refused(s: State) {
    Inv(s) && s.main == Done(Threw(Unavailable))
  }

  // A returned value was committed, and a committed value is returned unless closing the control
  // connection fails afterwards.
  lemma ReturnMeansCommitted(actions: seq<Action>, s: State)
    requires Machine.Run(Step, INITIAL, actions, s) && s.main.Done?
    ensures s.main.outcome.Returned? ==> s.history.committed == Some(s.main.outcome.value)
    ensures s.history.committed.Some? ==>
      s.main.outcome == Returned(s.history.committed.value) || s.main.outcome == Threw(Failure("control"))
  {
    Preservation();
    Machine.RunKeeps(Step, Inv, INITIAL, actions, s);
  }

  // Leases: never more than one, never released twice, released exactly once when the caller is done
  // (also a lease that arrives after the deadline), and a connection given back to the pool for reuse
  // is never used again.
  lemma LeaseReleasedOnce(actions: seq<Action>, s: State)
    requires Machine.Run(Step, INITIAL, actions, s)
    ensures s.history.releases <= s.history.acquired <= 1
    ensures s.main.Done? ==> s.history.releases == s.history.acquired
    ensures s.history.releases == 1 && !s.destroyed ==> s.txn.Resolved? || s.txn.Rejected?
    ensures s.client ==> (s.history.releases == 1 <==> s.destroyed || s.main.Closing? || s.main.Done?)
    ensures !s.history.misused
  {
    Preservation();
    Machine.RunKeeps(Step, Inv, INITIAL, actions, s);
  }
}
