/** The outcome of a write transaction as a function of what happened to it, in every interleaving. */
module WriteOutcomes {
  import opened Prelude
  import opened WriteTransaction
  import Machine

  /**
   What happened: the answers awaited by the coroutine, in order; whether the deadline passed; whether
   a lease had arrived before it did; and how closing the control connection ended.
   */
  datatype Trace = Trace(replies: seq<Reply>, fired: bool, leased: bool, ends: seq<bool>)

  const NOTHING := Trace([], false, false, [])

  function Noted(tr: Trace, a: Action): Trace {
    match a
    case TimerFires => tr.(fired := true)
    case Answer(r) => tr.(replies := tr.replies + [r], leased := tr.leased || (tr.replies == [] && r.Ok? && !tr.fired))
    case ControlEnds(ok) => tr.(ends := tr.ends + [ok])
    case _ => tr
  }

  function TraceOf(tr: Trace, actions: seq<Action>): Trace
    decreases |actions|
  {
    if actions == [] then tr else TraceOf(Noted(tr, actions[0]), actions[1..])
  }

  // The answers, by place.
  const LEASE := 0
  const CONTROL := 1
  const PID := 2
  const BEGIN := 3
  const LOCK_TIMEOUT := 4
  const STATEMENT_TIMEOUT := 5
  const WORK := 6
  const COMMIT := 7

  /** The answer in place `n` lets the transaction go on. */
  predicate Fine(r: Reply, n: nat) {
    r.Ok? && (n == PID ==> r.pidOk) && (n == WORK ==> !r.late)
  }

  predicate FineBefore(replies: seq<Reply>, n: nat) {
    n <= |replies| && forall i :: 0 <= i < n ==> Fine(replies[i], i)
  }

  /** The error for a first bad answer in place `n`. */
  predicate ErrorFor(r: Reply, n: nat, e: Error) {
    if n == LEASE || n == CONTROL then e == Unavailable
    else if r.Ok? then e == Unavailable
    else if LOCK_TIMEOUT <= n <= WORK && r.error in {Failure("55P03"), Failure("57014")} then e == Unavailable
    else e == r.error
  }

  /** The answer in place `n` is the first bad one, and the last but for that of ROLLBACK. */
  predicate FailsAt(replies: seq<Reply>, n: nat, e: Error) {
    && n < |replies| && n <= COMMIT && FineBefore(replies, n) && !Fine(replies[n], n)
    && if n <= BEGIN then |replies| == n + 1 && ErrorFor(replies[n], n, e)
       else
         && |replies| == n + 2
         && if replies[n + 1].Err? then e == replies[n + 1].error else ErrorFor(replies[n], n, e)
  }

  /** The outcome of the race, in time. */
  ghost predicate Decided(replies: seq<Reply>, o: Outcome) {
    match o
    case Returned(v) => |replies| == COMMIT + 1 && FineBefore(replies, COMMIT + 1) && v == replies[WORK].value
    case Threw(e) => exists n: nat :: FailsAt(replies, n, e)
  }

  ghost predicate TracksTxn(txn: Txn, replies: seq<Reply>) {
    match txn
    case Connecting => replies == []
    case ControlConnecting => |replies| == CONTROL && FineBefore(replies, CONTROL)
    case QueryingPid => |replies| == PID && FineBefore(replies, PID)
    case Beginning => |replies| == BEGIN && FineBefore(replies, BEGIN)
    case SettingLock => |replies| == LOCK_TIMEOUT && FineBefore(replies, LOCK_TIMEOUT)
    case SettingStatement => |replies| == STATEMENT_TIMEOUT && FineBefore(replies, STATEMENT_TIMEOUT)
    case Working => |replies| == WORK && FineBefore(replies, WORK)
    case Committing(v) => |replies| == COMMIT && FineBefore(replies, COMMIT) && v == replies[WORK].value
    case RollingBack(e) =>
      && |replies| > LOCK_TIMEOUT && |replies| <= COMMIT + 1
      && var n := |replies| - 1;
         FineBefore(replies, n) && !Fine(replies[n], n) && ErrorFor(replies[n], n, e)
    case Resolved(v) => Decided(replies, Returned(v))
    case Rejected(e) => Decided(replies, Threw(e))
  }

  function Closed(tr: Trace, o: Outcome, ok: bool): Outcome {
    if tr.leased && !ok then Threw(Failure("control")) else o
  }

  ghost predicate TracksMain(tr: Trace, o: Outcome) {
    if tr.fired then o == Threw(Unavailable) else Decided(tr.replies, o)
  }

  ghost predicate Tracks(s: State, tr: Trace) {
    && (s.expired <==> tr.fired) && (s.control <==> tr.leased)
    && (tr.replies == [] <==> s.txn.Connecting?)
    && (tr.leased ==> tr.replies != [])
    && (!tr.fired && tr.replies != [] ==> (tr.leased <==> tr.replies[0].Ok?))
    && (!tr.fired ==> TracksTxn(s.txn, tr.replies))
    && match s.main
       case Racing => tr.ends == []
       case Finalizing(o) => tr.ends == [] && TracksMain(tr, o)
       case Closing(o) => tr.ends == [] && TracksMain(tr, o)
       case Done(o) => |tr.ends| == 1 && exists raced :: TracksMain(tr, raced) && o == Closed(tr, raced, tr.ends[0])
  }

  lemma FineSoFar(replies: seq<Reply>, r: Reply, n: nat)
    requires n <= |replies|
    ensures FineBefore(replies + [r], n) <==> FineBefore(replies, n)
    ensures n == |replies| ==> (FineBefore(replies + [r], n + 1) <==> FineBefore(replies, n) && Fine(r, n))
  {
    var all := replies + [r];
    assert all[..|replies|] == replies;
    assert forall i :: 0 <= i < n ==> all[i] == replies[i];
    assert all[|replies|] == r;
  }

  lemma SendingOn(s: State)
    ensures forall txn :: Send(s, txn).txn == txn && Send(s, txn).control == s.control
  {
  }

  lemma SetUpTracks(s: State, r: Reply, replies: seq<Reply>)
    requires SettingUp(s.txn) && !s.expired && TracksTxn(s.txn, replies)
    ensures TracksTxn(SetUp(s, r).txn, replies + [r])
  {
    FineSoFar(replies, r, |replies|);
    assert (replies + [r])[|replies|] == r;
    hide FineBefore;
    if !Fine(r, |replies|) {
      assert FailsAt(replies + [r], |replies|, SetUp(s, r).txn.error);
    }
  }

  lemma PreparedTxn(s: State, r: Reply)
    requires Preparing(s.txn)
    ensures var txn := Prepare(s, r).txn;
      && (r.Ok? ==> txn == match s.txn case Beginning => SettingLock case SettingLock => SettingStatement case _ => Working)
      && (r.Err? ==> txn == if s.txn == Beginning then Rejected(r.error) else RollingBack(Mapped(r.error)))
  {
    SendingOn(s);
    hide Send, Mapped;
  }

  lemma PrepareTracks(s: State, r: Reply, replies: seq<Reply>)
    requires Preparing(s.txn) && TracksTxn(s.txn, replies)
    ensures TracksTxn(Prepare(s, r).txn, replies + [r])
  {
    var n := |replies|;
    FineSoFar(replies, r, n);
    assert (replies + [r])[n] == r;
    PreparedTxn(s, r);
    hide FineBefore, Prepare;
    if r.Err? {
      assert n == BEGIN ==> FailsAt(replies + [r], BEGIN, r.error);
    }
  }

  lemma FinishWorkTracks(s: State, r: Reply, replies: seq<Reply>)
    requires s.txn.Working? && !s.expired && TracksTxn(s.txn, replies)
    ensures TracksTxn(FinishWork(s, r).txn, replies + [r])
  {
    FineSoFar(replies, r, WORK);
    assert (replies + [r])[WORK] == r;
    hide FineBefore;
  }

  lemma ConcludeTracks(s: State, r: Reply, replies: seq<Reply>)
    requires (s.txn.Committing? || s.txn.RollingBack?) && TracksTxn(s.txn, replies)
    ensures TracksTxn(Conclude(s, r).txn, replies + [r])
  {
    var n := |replies|;
    FineSoFar(replies, r, n);
    FineSoFar(replies, r, n - 1);
    var all := replies + [r];
    assert all[n] == r && all[n - 1] == replies[n - 1] && (n > WORK ==> all[WORK] == replies[WORK]);
    hide FineBefore;
    if s.txn.RollingBack? {
      assert FailsAt(all, n - 1, Conclude(s, r).txn.error);
    }
  }

  lemma AnswerTracks(s: State, r: Reply, replies: seq<Reply>)
    requires Enabled(s, Answer(r)) && !s.expired && TracksTxn(s.txn, replies)
    ensures TracksTxn(Resume(s, r).txn, replies + [r])
  {
    hide TracksTxn, SetUp, Prepare, FinishWork, Conclude;
    if SettingUp(s.txn) {
      SetUpTracks(s, r, replies);
    } else if Preparing(s.txn) {
      PrepareTracks(s, r, replies);
    } else if s.txn.Working? {
      FinishWorkTracks(s, r, replies);
    } else {
      ConcludeTracks(s, r, replies);
    }
  }

  lemma AnswerStepTracks(s: State, r: Reply, t: State, tr: Trace)
    requires Inv(s) && Step(s, Answer(r), t) && Tracks(s, tr)
    ensures Tracks(t, Noted(tr, Answer(r)))
  {
    AnswerEffect(s, r);
    if !s.expired {
      AnswerTracks(s, r, tr.replies);
    }
    LeaseIsNoted(s, r);
    hide Resume, TracksTxn, Decided;
    FollowsRace(s, t, tr, Noted(tr, Answer(r)));
  }

  // A coroutine that still waits when the race is over was overtaken by the deadline.
  lemma FollowsRace(s: State, t: State, tr: Trace, tr': Trace)
    requires Tracks(s, tr) && DeadlineGood(s) && !Finished(s.txn)
    requires tr'.fired == tr.fired && tr'.ends == tr.ends
    ensures forall o :: tr.fired && TracksMain(tr, o) ==> TracksMain(tr', o)
    ensures !s.main.Racing? ==> tr.fired
  {
  }

  lemma SetUpLease(s: State, r: Reply)
    requires SettingUp(s.txn) && (s.txn.Connecting? ==> !s.control)
    ensures SetUp(s, r).control <==> s.control || (s.txn.Connecting? && r.Ok? && !s.expired)
    ensures !SetUp(s, r).txn.Connecting?
  {
    SendingOn(s);
    SendingOn(s.(pid := true));
    hide Send;
  }

  lemma FinishWorkLease(s: State, r: Reply)
    ensures FinishWork(s, r).control == s.control && !FinishWork(s, r).txn.Connecting?
  {
    SendingOn(s);
    SendingOn(s.(timer := if s.timer == Armed then Cleared else s.timer, history := s.history.(commitIssued := true)));
    hide Send, Mapped;
  }

  lemma LeaseIsNoted(s: State, r: Reply)
    requires Enabled(s, Answer(r)) && (s.txn.Connecting? ==> !s.control)
    ensures Resume(s, r).control <==> s.control || (s.txn.Connecting? && r.Ok? && !s.expired)
    ensures !Resume(s, r).txn.Connecting?
  {
    hide SetUp, FinishWork;
    if SettingUp(s.txn) {
      SetUpLease(s, r);
    } else if Preparing(s.txn) {
      SendingOn(s);
      PreparedTxn(s, r);
      hide Send, Mapped;
    } else if s.txn.Working? {
      FinishWorkLease(s, r);
    } else {
      SendingOn(s);
      hide Send;
    }
  }

  lemma StepTracks(s: State, a: Action, t: State, tr: Trace)
    requires Inv(s) && Step(s, a, t) && Tracks(s, tr)
    ensures Tracks(t, Noted(tr, a))
  {
    if a.Answer? {
      AnswerStepTracks(s, a.reply, t, tr);
      hide Step, Tracks;
    } else if a.RaceSettles? && !s.expired {
      hide FineBefore;
    } else if a.ControlEnds? {
      assert TracksMain(Noted(tr, a), s.main.outcome);
      hide TracksTxn, TracksMain;
    } else {
      hide TracksTxn, Decided;
    }
  }

  lemma {:induction false} RunTracks(s: State, actions: seq<Action>, t: State, tr: Trace)
    requires Inv(s) && Tracks(s, tr) && Machine.Run(Step, s, actions, t)
    ensures Tracks(t, TraceOf(tr, actions))
    decreases |actions|
  {
    if actions != [] {
      var mid :| Step(s, actions[0], mid) && Machine.Run(Step, mid, actions[1..], t);
      StepKeeps(s, actions[0], mid);
      StepTracks(s, actions[0], mid, tr);
      RunTracks(mid, actions[1..], t, Noted(tr, actions[0]));
    }
  }

  // Every interleaving ends as what happened to it says: after the deadline with the refusal, in time
  // with the value of the work when all answers were good and with the first bad one's error
  // otherwise, unless a control connection was opened and fails to close.
  lemma OutcomeIsExact(actions: seq<Action>, s: State)
    requires Machine.Run(Step, INITIAL, actions, s) && s.main.Done?
    ensures var tr := TraceOf(NOTHING, actions);
      && |tr.ends| == 1
      && (s.main.outcome.Returned? <==> !tr.fired && FineBefore(tr.replies, COMMIT + 1) && tr.ends[0])
      && (s.main.outcome.Returned? ==> s.main.outcome.value == tr.replies[WORK].value)
      && (tr.leased && !tr.ends[0] ==> s.main.outcome == Threw(Failure("control")))
      && ((tr.leased ==> tr.ends[0]) && tr.fired ==> s.main.outcome == Threw(Unavailable))
      && ((tr.leased ==> tr.ends[0]) && !tr.fired && !FineBefore(tr.replies, COMMIT + 1) ==>
            exists n: nat :: FailsAt(tr.replies, n, s.main.outcome.error))
  {
    RunTracks(INITIAL, actions, s, NOTHING);
  }
}
