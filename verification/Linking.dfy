/**
 Linking under concurrency: ingestions are atomic, logins interleave statement by statement with
 them and with each other, and may stop anywhere.
 */
module Linking {
  import opened Prelude
  import opened Text
  import opened Snapshot
  import opened Admission
  import opened Jit
  import AdmissionRuns
  import Machine

  /**
   The tables, the logins under way, the answers given so far (with the login's sub and email), and
   what happened: which logins began, and what each of them read in staging.
   */
  datatype State = State(db: Db, calls: map<nat, Call>, answers: seq<Answer>, history: seq<Fact>)

  datatype Fact = Began(login: Login, trusted: set<string>) | Read(k: Text, staged: Option<Profile>)

  datatype Answer = Answer(sub: string, k: Text, outcome: Outcome)

  datatype Action =
    | Deliver(p: Payload)
    | Start(id: nat, login: Login, trusted: set<string>, now: int)
    | Execute(id: nat)
    | Crash(id: nat)

  function Resumed(s: State, id: nat): State
    requires id in s.calls && ReadyToWrite(s.calls[id])
  {
    var c := s.calls[id];
    var (db, p) := Statement(s.db, c);
    match p
    case Next(c') => State(db, s.calls[id := c'], s.answers, History(s, c))
    case Done(outcome) => State(db, s.calls - {id}, s.answers + [Answer(c.sub, c.email.key, outcome)], History(s, c))
  }

  function History(s: State, c: Call): seq<Fact> {
    if c.pc == SelectStaged then s.history + [Read(c.email.key, Get(s.db.profiles, c.email.key))] else s.history
  }

  ghost predicate Step(s: State, a: Action, t: State) {
    match a
    case Deliver(p) => t == s.(db := Ingested(s.db, p))
    case Start(id, login, trusted, now) =>
      var p := Begin(login, trusted, now);
      var begun := s.(history := s.history + [Began(login, trusted)]);
      id !in s.calls && t == if p.Next? then begun.(calls := s.calls[id := p.call]) else begun
    case Execute(id) => id in s.calls && ReadyToWrite(s.calls[id]) && t == Resumed(s, id)
    case Crash(id) => t == s.(calls := s.calls - {id})
  }

  // ---------------------------------------------------------------- the invariant

  /** The partial unique index on lower(email). */
  ghost predicate UniqueLinks(accounts: map<string, Account>) {
    forall x, y :: x in accounts && y in accounts && x != y
      && accounts[x].source == ProdSync && accounts[y].source == ProdSync
      && accounts[x].email.Some? && accounts[y].email.Some?
      ==> accounts[x].email.value.key != accounts[y].email.value.key
  }

  ghost predicate IsLink(accounts: map<string, Account>, sub: string, k: Text) {
    sub in accounts && accounts[sub].source == ProdSync && EmailMatches(accounts[sub], k)
  }

  /** The row a login may adopt: its own local row, pending, never approved, with its email. */
  predicate Adoptable(a: Account, k: Text) {
    a.source == Local && a.status == Pending && a.approvedAt.None? && EmailMatches(a, k)
  }

  /** What a login knows of its own row, however long ago it read it. */
  ghost predicate CallGood(accounts: map<string, Account>, c: Call) {
    var own := if c.sub in accounts then Some(accounts[c.sub]) else None;
    && ReadyToWrite(c)
    && match c.pc
       case SelectStaged => true
       case SelectBySub => true
       case Reapprove => IsLink(accounts, c.sub, c.email.key)
       case UpgradeLinkCheck => own.Some? && (own.value.source == ProdSync || Adoptable(own.value, c.email.key))
       case UpgradeLocalCheck => own.Some? && (own.value.source == ProdSync || Adoptable(own.value, c.email.key))
       case UpgradeWrite => own.Some? && (own.value.source == ProdSync || Adoptable(own.value, c.email.key))
       case CreateLinkCheck => own.Some? ==> own.value.source == ProdSync
       case CreateLocalCheck => own.Some? ==> own.value.source == ProdSync
       case CreateWrite => own.Some? ==> own.value.source == ProdSync
       case ReadWinner => own.Some? ==> own.value.source == ProdSync
  }

  /** What a login was told: "already" may speak of an approved local row, any other success of a link. */
  ghost predicate AnswerGood(accounts: map<string, Account>, a: Answer) {
    a.outcome.Linked? ==>
      || IsLink(accounts, a.sub, a.k)
      || (a.outcome.mode == Already && a.sub in accounts
          && accounts[a.sub].source == Local && accounts[a.sub].status == Approved)
  }

  // ---------------------------------------------------------------- what one row may become

  /** Links are forever; local rows stay as they are, except that an adoptable one may become a link. */
  ghost predicate RowKept(a: Account, b: Account) {
    if a.source == ProdSync then b.source == ProdSync && b.email == a.email
    else b == a || (b.source == ProdSync && b.email.Some? && Adoptable(a, b.email.value.key))
  }

  /** No row disappears, every new row is a link. */
  ghost predicate Kept(x: map<string, Account>, y: map<string, Account>) {
    && (forall s :: s in x ==> s in y && RowKept(x[s], y[s]))
    && (forall s :: s in y && s !in x ==> y[s].source == ProdSync)
  }

  ghost predicate LinksKept(s: State, t: State) {
    Kept(s.db.accounts, t.db.accounts)
  }

  lemma KeptCallGood(x: map<string, Account>, y: map<string, Account>, c: Call)
    requires Kept(x, y) && CallGood(x, c)
    ensures CallGood(y, c)
  {
  }

  lemma KeptAnswerGood(x: map<string, Account>, y: map<string, Account>, a: Answer)
    requires Kept(x, y) && AnswerGood(x, a)
    ensures AnswerGood(y, a)
  {
  }

  /** The part of the invariant that speaks of the accounts alone. */
  ghost predicate LinksSound(accounts: map<string, Account>) {
    && UniqueLinks(accounts)
    && forall s :: s in accounts && accounts[s].source == ProdSync ==> accounts[s].email.Some?
  }

  lemma IngestKeeps(db: Db, p: Payload)
    requires LinksSound(db.accounts)
    ensures Kept(db.accounts, Ingested(db, p).accounts) && LinksSound(Ingested(db, p).accounts)
  {
    var db' := Ingested(db, p);
    forall s | s in db.accounts
      ensures s in db'.accounts && RowKept(db.accounts[s], db'.accounts[s])
      ensures db'.accounts[s].source == db.accounts[s].source && db'.accounts[s].email == db.accounts[s].email
    {
    }
  }

  // Writing a link for `sub` when nobody else holds the email.
  lemma WriteKeeps(accounts: map<string, Account>, sub: string, a: Account)
    requires LinksSound(accounts) && a.source == ProdSync && a.email.Some?
    requires sub in accounts ==> RowKept(accounts[sub], a)
    requires (sub in accounts && accounts[sub].source == ProdSync)
          || !Held(accounts, ProdSync, a.email.value.key, Some(sub))
    ensures Kept(accounts, accounts[sub := a]) && LinksSound(accounts[sub := a])
  {
  }

  lemma StatementKeeps(db: Db, c: Call)
    requires LinksSound(db.accounts) && CallGood(db.accounts, c)
    ensures Kept(db.accounts, Statement(db, c).0.accounts) && LinksSound(Statement(db, c).0.accounts)
  {
    var db' := Statement(db, c).0;
    if db' != db {
      assert Held(db.accounts, ProdSync, c.email.key, Some(c.sub)) ==> Held(db.accounts, ProdSync, c.email.key, None);
      WriteKeeps(db.accounts, c.sub, db'.accounts[c.sub]);
    }
  }

  lemma StatementEstablishes(db: Db, c: Call)
    requires LinksSound(db.accounts) && CallGood(db.accounts, c)
    ensures var (db', p) := Statement(db, c);
      && (p.Next? ==> CallGood(db'.accounts, p.call) && p.call.sub == c.sub && p.call.email == c.email)
      && (p.Done? ==> AnswerGood(db'.accounts, Answer(c.sub, c.email.key, p.outcome)))
  {
  }

  ghost predicate Good(s: State) {
    && LinksSound(s.db.accounts)
    && (forall id :: id in s.calls ==> CallGood(s.db.accounts, s.calls[id]))
    && (forall i :: 0 <= i < |s.answers| ==> AnswerGood(s.db.accounts, s.answers[i]))
  }

  lemma OthersKeep(s: State, t: State, ids: set<nat>)
    requires Good(s) && Kept(s.db.accounts, t.db.accounts)
    requires ids <= s.calls.Keys && forall id :: id in ids ==> id in t.calls && t.calls[id] == s.calls[id]
    requires |s.answers| <= |t.answers| && s.answers == t.answers[..|s.answers|]
    ensures forall id :: id in ids ==> CallGood(t.db.accounts, t.calls[id])
    ensures forall i :: 0 <= i < |s.answers| ==> AnswerGood(t.db.accounts, t.answers[i])
  {
    forall id | id in ids
      ensures CallGood(t.db.accounts, t.calls[id])
    {
      KeptCallGood(s.db.accounts, t.db.accounts, s.calls[id]);
    }
    forall i | 0 <= i < |s.answers|
      ensures AnswerGood(t.db.accounts, t.answers[i])
    {
      assert t.answers[i] == s.answers[i];
      KeptAnswerGood(s.db.accounts, t.db.accounts, s.answers[i]);
    }
  }

  lemma StepKeeps(s: State, a: Action, t: State)
    requires Good(s) && Step(s, a, t)
    ensures Good(t) && LinksKept(s, t)
  {
    match a
    case Deliver(p) =>
      IngestKeeps(s.db, p);
      OthersKeep(s, t, s.calls.Keys);
    case Start(id, login, trusted, now) =>
      OthersKeep(s, t, s.calls.Keys);
    case Execute(id) =>
      StatementKeeps(s.db, s.calls[id]);
      StatementEstablishes(s.db, s.calls[id]);
      OthersKeep(s, t, s.calls.Keys - {id});
    case Crash(id) =>
      OthersKeep(s, t, s.calls.Keys - {id});
  }

  lemma KeptIsPreorder(x: map<string, Account>, y: map<string, Account>, z: map<string, Account>)
    ensures Kept(x, x)
    ensures Kept(x, y) && Kept(y, z) ==> Kept(x, z)
  {
  }

  lemma Preservation()
    ensures Machine.Preserves(Step, Good) && Machine.Advances(Step, Good, LinksKept)
  {
    forall s, a, t | Good(s) && Step(s, a, t)
      ensures Good(t) && LinksKept(s, t)
    {
      StepKeeps(s, a, t);
    }
    forall s, t, u
      ensures LinksKept(s, s)
      ensures LinksKept(s, t) && LinksKept(t, u) ==> LinksKept(s, u)
    {
      KeptIsPreorder(s.db.accounts, t.db.accounts, u.db.accounts);
    }
  }

  // In every interleaving a link, once made, never changes its sub or its email; approved, rejected
  // and suspended local rows are never written; no email has two links; and every login that was told
  // it is linked is linked at the end of the run, to the email it came with.
  lemma LinksAreForever(s: State, actions: seq<Action>, t: State)
    requires Good(s) && Machine.Run(Step, s, actions, t)
    ensures forall sub :: sub in s.db.accounts && s.db.accounts[sub].source == ProdSync ==>
      sub in t.db.accounts && t.db.accounts[sub].source == ProdSync && t.db.accounts[sub].email == s.db.accounts[sub].email
    ensures forall sub :: sub in s.db.accounts && s.db.accounts[sub].source == Local && s.db.accounts[sub].status != Pending ==>
      sub in t.db.accounts && t.db.accounts[sub] == s.db.accounts[sub]
    ensures UniqueLinks(t.db.accounts)
    ensures forall i :: 0 <= i < |t.answers| ==> AnswerGood(t.db.accounts, t.answers[i])
  {
    Preservation();
    Machine.RunKeeps(Step, Good, s, actions, t);
    Machine.RunAdvances(Step, Good, LinksKept, s, actions, t);
  }

  // Two logins that were both told they are newly linked, with one email: they are the same sub.
  lemma OneLinkPerEmail(s: State, actions: seq<Action>, t: State, i: nat, j: nat)
    requires Good(s) && Machine.Run(Step, s, actions, t) && i < |t.answers| && j < |t.answers|
    requires t.answers[i].k == t.answers[j].k
    requires t.answers[i].outcome.Linked? && t.answers[i].outcome.mode != Already
    requires t.answers[j].outcome.Linked? && t.answers[j].outcome.mode != Already
    ensures t.answers[i].sub == t.answers[j].sub
  {
    LinksAreForever(s, actions, t);
    assert AnswerGood(t.db.accounts, t.answers[i]) && AnswerGood(t.db.accounts, t.answers[j]);
  }

  // ---------------------------------------------------------------- where links come from

  /** The login was verified, by a trusted issuer, for that address. */
  predicate Verifies(f: Fact, sub: string, k: Text) {
    && f.Began? && f.login.sub == sub && f.login.emailVerified && f.login.issuer in f.trusted
    && k != [] && f.login.email.Some? && f.login.email.value.key == k
  }

  ghost predicate Vouched(history: seq<Fact>, sub: string, k: Text) {
    exists i :: 0 <= i < |history| && Verifies(history[i], sub, k)
  }

  /** Staging held that profile, approved, when a login read it. */
  ghost predicate WasApproved(history: seq<Fact>, k: Text, p: Profile) {
    p.status == Approved && Read(k, Some(p)) in history
  }

  /** A link that was there before, or that a verified login of an approved address made. */
  ghost predicate LinkSourced(before: map<string, Account>, history: seq<Fact>, sub: string, a: Account) {
    a.source == ProdSync && !(sub in before && before[sub].source == ProdSync) ==>
      && a.email.Some? && Vouched(history, sub, a.email.value.key)
      && exists p :: WasApproved(history, a.email.value.key, p)
  }

  ghost predicate CallSourced(history: seq<Fact>, c: Call) {
    && Vouched(history, c.sub, c.email.key)
    && (c.pc != SelectStaged ==> c.admission.Some? && WasApproved(history, c.email.key, c.admission.value))
  }

  ghost predicate Sourced(before: map<string, Account>, s: State) {
    && (forall sub :: sub in s.db.accounts ==> LinkSourced(before, s.history, sub, s.db.accounts[sub]))
    && (forall id :: id in s.calls ==> CallSourced(s.history, s.calls[id]))
    && (forall i :: 0 <= i < |s.answers| ==> Vouched(s.history, s.answers[i].sub, s.answers[i].k))
  }

  /** The step wrote one row: that of a verified login, as its approved admission says. */
  ghost predicate WriteSourced(s: State, id: nat, t: State) {
    exists p ::
      && id in s.calls && Vouched(s.history, s.calls[id].sub, s.calls[id].email.key)
      && WasApproved(s.history, s.calls[id].email.key, p)
      && WrittenFor(s.db.accounts, s.calls[id], p, t.db.accounts)
      && t.db.profiles == s.db.profiles && t.db.kids == s.db.kids
  }

  ghost predicate WrittenFor(x: map<string, Account>, c: Call, p: Profile, y: map<string, Account>) {
    && y.Keys == x.Keys + {c.sub}
    && (forall sub :: sub in x && sub != c.sub ==> y[sub] == x[sub])
    && var a := y[c.sub];
       && a.source == ProdSync && a.status == Approved && (a.isAdmin <==> p.role == Admin)
       && a.email.Some? && a.email.value.key == c.email.key
  }

  lemma HistoryGrows(h: seq<Fact>, h': seq<Fact>, sub: string, k: Text)
    requires |h| <= |h'| && h == h'[..|h|]
    ensures Vouched(h, sub, k) ==> Vouched(h', sub, k)
    ensures forall p :: WasApproved(h, k, p) ==> WasApproved(h', k, p)
  {
    if Vouched(h, sub, k) {
      var i :| 0 <= i < |h| && Verifies(h[i], sub, k);
      assert h'[i] == h[i];
    }
    forall f | f in h
      ensures f in h'
    {
      var i :| 0 <= i < |h| && h[i] == f;
      assert h'[i] == f;
    }
  }

  lemma ExecuteWrites(s: State, id: nat, t: State)
    requires Good(s) && Step(s, Execute(id), t) && CallSourced(s.history, s.calls[id])
    ensures t.db != s.db ==> WriteSourced(s, id, t)
  {
    var c := s.calls[id];
    if t.db != s.db {
      assert WrittenFor(s.db.accounts, c, c.admission.value, t.db.accounts);
    }
  }

  // What was vouched for stays vouched for.
  lemma SourcesStay(before: map<string, Account>, s: State, history: seq<Fact>)
    requires Sourced(before, s) && |s.history| <= |history| && s.history == history[..|s.history|]
    ensures Sourced(before, s.(history := history))
  {
    forall sub, k
      ensures Vouched(s.history, sub, k) ==> Vouched(history, sub, k)
      ensures forall p :: WasApproved(s.history, k, p) ==> WasApproved(history, k, p)
    {
      HistoryGrows(s.history, history, sub, k);
    }
    hide Vouched, WasApproved;
  }

  lemma CallStaysSourced(s: State, c: Call, c': Call)
    requires ReadyToWrite(c) && CallSourced(History(s, c), c) && Statement(s.db, c).1 == Next(c')
    ensures CallSourced(History(s, c), c')
  {
    hide Vouched, Held;
  }

  lemma LinksStaySourced(before: map<string, Account>, s: State, id: nat, t: State)
    requires Sourced(before, s.(history := t.history)) && Step(s, Execute(id), t)
    requires t.db == s.db || WriteSourced(s, id, t)
    requires |s.history| <= |t.history| && s.history == t.history[..|s.history|]
    ensures forall sub :: sub in t.db.accounts ==> LinkSourced(before, t.history, sub, t.db.accounts[sub])
  {
    if t.db != s.db {
      var c := s.calls[id];
      HistoryGrows(s.history, t.history, c.sub, c.email.key);
    }
    hide Vouched, WasApproved, Step;
  }

  lemma ExecuteSources(before: map<string, Account>, s: State, id: nat, t: State)
    requires Good(s) && Sourced(before, s) && Step(s, Execute(id), t)
    ensures Sourced(before, t)
  {
    var c := s.calls[id];
    ExecuteWrites(s, id, t);
    SourcesStay(before, s, t.history);
    LinksStaySourced(before, s, id, t);
    var p := Statement(s.db, c).1;
    if p.Next? {
      CallStaysSourced(s, c, p.call);
    }
    hide Vouched, WasApproved, Statement, History, LinkSourced, WriteSourced, Good, CallSourced;
  }

  lemma StepSources(before: map<string, Account>, s: State, a: Action, t: State)
    requires Good(s) && Sourced(before, s) && Step(s, a, t)
    ensures Sourced(before, t)
  {
    match a
    case Deliver(p) =>
      IngestKeeps(s.db, p);
    case Start(id, login, trusted, now) =>
      SourcesStay(before, s, t.history);
      assert t.history[|s.history|] == Began(login, trusted);
    case Execute(id) =>
      ExecuteSources(before, s, id, t);
    case Crash(id) =>
  }

  // In every interleaving each link that was not there at the start, each answer and each row written
  // by a login belongs to a login that began with an address verified by a trusted issuer, and the
  // written row is the one of an admission that staging held as approved when that login read it.
  lemma {:induction false} LinksComeFromVerifiedLogins(before: map<string, Account>, s: State, actions: seq<Action>, t: State)
    requires Good(s) && Sourced(before, s) && Machine.Run(Step, s, actions, t)
    ensures Sourced(before, t)
    ensures forall id, u :: Step(t, Execute(id), u) && u.db != t.db ==> WriteSourced(t, id, u)
    decreases |actions|
  {
    if actions == [] {
      forall id, u | Step(t, Execute(id), u) && u.db != t.db
        ensures WriteSourced(t, id, u)
      {
        ExecuteWrites(t, id, u);
      }
    } else {
      var mid :| Step(s, actions[0], mid) && Machine.Run(Step, mid, actions[1..], t);
      StepKeeps(s, actions[0], mid);
      StepSources(before, s, actions[0], mid);
      LinksComeFromVerifiedLogins(before, mid, actions[1..], t);
    }
  }

  // ---------------------------------------------------------------- mirror agreement, statement by statement

  /** The admission a login acts on is still what staging says: approved, and of the same role. */
  predicate StillAdmitted(db: Db, c: Call) {
    && c.admission.Some? && c.email.key in db.profiles && db.profiles[c.email.key].status == Approved
    && (db.profiles[c.email.key].role == Admin <==> c.admission.value.role == Admin)
  }

  // Exactly when a statement keeps mirror agreement: when it writes nothing, or when the admission
  // that its login read, possibly long ago, is still the one staged.
  lemma StatementAgreement(db: Db, c: Call)
    requires LinksSound(db.accounts) && CallGood(db.accounts, c) && AdmissionRuns.MirrorAgreement(db)
    ensures AdmissionRuns.MirrorAgreement(Statement(db, c).0) <==> Statement(db, c).0 == db || StillAdmitted(db, c)
  {
    var db' := Statement(db, c).0;
    if db' != db {
      var a := db'.accounts[c.sub];
      assert AdmissionRuns.Agrees(a, db'.profiles) <==> StillAdmitted(db, c);
      assert forall s :: s in db'.accounts && s != c.sub ==> s in db.accounts && db'.accounts[s] == db.accounts[s];
    }
  }

  /** The action does not write a link on the strength of an admission that has changed since. */
  ghost predicate Timely(s: State, a: Action) {
    a.Execute? && a.id in s.calls && ReadyToWrite(s.calls[a.id]) ==>
      Statement(s.db, s.calls[a.id]).0 == s.db || StillAdmitted(s.db, s.calls[a.id])
  }

  ghost predicate TimelyStep(s: State, a: Action, t: State) {
    Step(s, a, t) && Timely(s, a)
  }

  ghost predicate AgreeingStep(s: State, a: Action, t: State) {
    Step(s, a, t) && AdmissionRuns.MirrorAgreement(t.db)
  }

  lemma StepAgreement(s: State, a: Action, t: State)
    requires Good(s) && AdmissionRuns.MirrorAgreement(s.db) && Step(s, a, t)
    ensures AdmissionRuns.MirrorAgreement(t.db) <==> Timely(s, a)
  {
    match a
    case Deliver(p) => AdmissionRuns.MirrorStep(s.db, AdmissionRuns.Event.Deliver(p), t.db);
    case Start(id, login, trusted, now) =>
    case Execute(id) => StatementAgreement(s.db, s.calls[id]);
    case Crash(id) =>
  }

  // Every interleaving: mirrored rows agree with staging in every state of a run exactly when no login
  // in it writes a link after the admission it read has changed.
  lemma {:induction false} AgreementInEveryInterleaving(s: State, actions: seq<Action>, t: State)
    requires Good(s) && AdmissionRuns.MirrorAgreement(s.db)
    ensures Machine.Run(AgreeingStep, s, actions, t) <==> Machine.Run(TimelyStep, s, actions, t)
    decreases |actions|
  {
    if actions != [] {
      forall mid | Step(s, actions[0], mid)
        ensures AgreeingStep(s, actions[0], mid) <==> TimelyStep(s, actions[0], mid)
        ensures AgreeingStep(s, actions[0], mid) ==>
                  (Machine.Run(AgreeingStep, mid, actions[1..], t) <==> Machine.Run(TimelyStep, mid, actions[1..], t))
      {
        StepAgreement(s, actions[0], mid);
        if AgreeingStep(s, actions[0], mid) {
          StepKeeps(s, actions[0], mid);
          AgreementInEveryInterleaving(mid, actions[1..], t);
        }
      }
    }
  }

  // ---------------------------------------------------------------- what interleaving costs

  /** A full snapshot that names nobody. */
  function Empty(kid: string, issuedAt: int): Payload {
    Payload(1, kid, issuedAt, true, [])
  }

  lemma ExecuteOne(db: Db, c: Call, db': Db, c': Call, h: seq<Fact>, actions: seq<Action>, t: State)
    requires ReadyToWrite(c) && Statement(db, c) == (db', Next(c'))
    requires Machine.Run(Step, State(db', map[0 := c'], [], History(State(db, map[0 := c], [], h), c)), actions, t)
    ensures Machine.Run(Step, State(db, map[0 := c], [], h), [Execute(0)] + actions, t)
  {
    var s := State(db, map[0 := c], [], h);
    var mid := State(db', map[0 := c'], [], History(s, c));
    assert mid.calls == s.calls[0 := c'];
    assert Step(s, Execute(0), mid);
    Machine.RunOne(Step, s, Execute(0), mid, actions, t);
  }

  // A login that has read an approved admission creates its link, whatever staging says by then.
  lemma CreatesLater(db: Db, c: Call, h: seq<Fact>) returns (actions: seq<Action>, t: State)
    requires db.accounts == map[] && c.pc == SelectBySub && c.admission.Some?
    ensures Machine.Run(Step, State(db, map[0 := c], [], h), actions, t)
    ensures t.db == db.(accounts := map[c.sub := LinkedRow(c.admission.value.name, c)])
  {
    var c1, c2, c3 := c.(pc := CreateLinkCheck), c.(pc := CreateLocalCheck), c.(pc := CreateWrite);
    var s3 := State(db, map[0 := c3], [], h);
    t := Resumed(s3, 0);
    assert t.db.accounts == map[c.sub := LinkedRow(c.admission.value.name, c)];
    Machine.RunOne(Step, s3, Execute(0), t, [], t);
    actions := [Execute(0)] + [];
    ExecuteOne(db, c2, db, c3, h, actions, t);
    actions := [Execute(0)] + actions;
    ExecuteOne(db, c1, db, c2, h, actions, t);
    actions := [Execute(0)] + actions;
    ExecuteOne(db, c, db, c1, h, actions, t);
    actions := [Execute(0)] + actions;
  }

  // A run that is not timely. A login reads the admission, a full snapshot without it is applied, and
  // the login writes its link: the row disagrees with staging, and no snapshot that still omits the
  // email changes that, because the email is already rejected.
  lemma AgreementNeedsAtomicLogins(sub: string, email: Address, issuer: string, kid: string)
    returns (s: State, actions: seq<Action>, t: State)
    requires email.key != []
    ensures Good(s) && AdmissionRuns.MirrorAgreement(s.db) && Machine.Run(Step, s, actions, t)
    ensures !AdmissionRuns.AgreesOn(t.db, email.key)
    ensures forall q: Payload :: !Names(q, email.key) ==> !AdmissionRuns.AgreesOn(Ingested(t.db, q), email.key)
  {
    var approved := Profile(email.text, None, Approved, Member, None, None);
    var db0 := Db(map[], map[email.key := approved], map[]);
    var c := Call(sub, email, 0, SelectStaged, None);
    var read := c.(pc := SelectBySub, admission := Some(approved));
    var login := Login(sub, Some(email), true, issuer);
    var p := Empty(kid, 0);
    var db1 := Ingested(db0, p);
    assert db1.profiles == map[email.key := approved.(status := Rejected)] && db1.accounts == map[];

    var began := [Began(login, {issuer})];
    var h := began + [Read(email.key, Some(approved))];
    actions, t := CreatesLater(db1, read, h);
    var s2, s3 := State(db0, map[0 := read], [], h), State(db1, map[0 := read], [], h);
    assert Step(s2, Deliver(p), s3);
    Machine.RunOne(Step, s2, Deliver(p), s3, actions, t);
    actions := [Deliver(p)] + actions;
    ExecuteOne(db0, c, db0, read, began, actions, t);
    actions := [Execute(0)] + actions;
    s := State(db0, map[], [], []);
    var s1 := State(db0, map[0 := c], [], began);
    assert s1.calls == s.calls[0 := c];
    assert Step(s, Start(0, login, {issuer}, 0), s1);
    Machine.RunOne(Step, s, Start(0, login, {issuer}, 0), s1, actions, t);
    actions := [Start(0, login, {issuer}, 0)] + actions;
    StaysApart(t.db, sub, email);
  }

  lemma StaysApart(db: Db, sub: string, email: Address)
    requires sub in db.accounts && Mirrors(db.accounts[sub], email.key) && db.accounts[sub].status == Approved
    requires email.key in db.profiles && db.profiles[email.key].status == Rejected
    ensures !AdmissionRuns.AgreesOn(db, email.key)
    ensures forall q: Payload :: !Names(q, email.key) ==> !AdmissionRuns.AgreesOn(Ingested(db, q), email.key)
  {
    forall q: Payload | !Names(q, email.key)
      ensures !AdmissionRuns.AgreesOn(Ingested(db, q), email.key)
    {
      if !Stale(db.kids, q.issuedAt) {
        AdmissionRuns.IngestRestoresAgreement(db, q, email.key);
      }
    }
  }
}
