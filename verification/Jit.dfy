/**
 Login-time reconciliation (jit.ts), statement by statement. Each SQL statement is atomic; the
 unique indexes of account_users make the conflicting write fail.
 */
module Jit {
  import opened Prelude
  import opened Text
  import opened Snapshot
  import opened Admission

  /** Claims of a login; the address is trimmed, and a blank one has an empty key. */
  datatype Login = Login(sub: string, email: Option<Address>, emailVerified: bool, issuer: string)

  datatype Mode = Created | Upgraded | Reapproved | Already

  datatype Reason =
    | UnverifiedEmail | UntrustedIssuer | MissingEmail | NotAdmitted | NotApproved
    | AlreadyLinkedElsewhere | LocalConflict | AccountBlocked

  datatype Outcome = Linked(mode: Mode) | NotLinked(reason: Reason)

  /** The statement a call executes next. */
  datatype Pc =
    | SelectStaged | SelectBySub | Reapprove
    | UpgradeLinkCheck | UpgradeLocalCheck | UpgradeWrite
    | CreateLinkCheck | CreateLocalCheck | CreateWrite | ReadWinner

  datatype Call = Call(sub: string, email: Address, now: int, pc: Pc, admission: Option<Profile>)

  datatype Progress = Next(call: Call) | Done(outcome: Outcome)

  function Begin(login: Login, trusted: set<string>, now: int): Progress {
    if !login.emailVerified then Done(NotLinked(UnverifiedEmail))
    else if login.issuer !in trusted then Done(NotLinked(UntrustedIssuer))
    else if login.email.None? || login.email.value.key == [] then Done(NotLinked(MissingEmail))
    else Next(Call(login.sub, login.email.value, now, SelectStaged, None))
  }

  predicate EmailMatches(a: Account, k: Text) {
    a.email.Some? && a.email.value.key == k
  }

  /** findProdSyncLink and findLocalSameEmail: a row of that source and email, of another sub. */
  predicate Held(accounts: map<string, Account>, source: Source, k: Text, exclude: Option<string>) {
    exists s :: s in accounts && accounts[s].source == source && EmailMatches(accounts[s], k) && Some(s) != exclude
  }

  /** What the link columns become. */
  function LinkedRow(name: Option<Text>, c: Call): Account
    requires c.admission.Some?
  {
    Account(Some(c.email), name, Approved, c.admission.value.role == Admin, Some(c.now), Some("prod-sync"), ProdSync)
  }

  /** The branch taken on the row found by sub. */
  function OnRow(c: Call, row: Account): Progress {
    if row.source == ProdSync then
      if !EmailMatches(row, c.email.key) then Done(NotLinked(AlreadyLinkedElsewhere))
      else if row.status == Approved then Done(Linked(Already))
      else Next(c.(pc := Reapprove))
    else if row.status == Approved then Done(Linked(Already))
    else if row.status == Rejected || row.status == Suspended then Done(NotLinked(AccountBlocked))
    else if row.status != Pending || row.approvedAt.Some? then Done(NotLinked(LocalConflict))
    else if row.email.None? || !EmailMatches(row, c.email.key) then Done(NotLinked(LocalConflict))
    else Next(c.(pc := UpgradeLinkCheck))
  }

  predicate ReadyToWrite(c: Call) {
    c.pc != SelectStaged ==> c.admission.Some?
  }

  /** One statement and the code up to the next one. */
  function Statement(db: Db, c: Call): (Db, Progress)
    requires ReadyToWrite(c)
  {
    var k := c.email.key;
    match c.pc
    case SelectStaged =>
      if k !in db.profiles then (db, Done(NotLinked(NotAdmitted)))
      else if db.profiles[k].status != Approved then (db, Done(NotLinked(NotApproved)))
      else (db, Next(c.(pc := SelectBySub, admission := Some(db.profiles[k]))))
    case SelectBySub =>
      (db, if c.sub in db.accounts then OnRow(c, db.accounts[c.sub]) else Next(c.(pc := CreateLinkCheck)))
    case Reapprove =>
      if c.sub in db.accounts && db.accounts[c.sub].source == ProdSync then
        var row := db.accounts[c.sub].(status := Approved, isAdmin := c.admission.value.role == Admin);
        (db.(accounts := db.accounts[c.sub := row]), Done(Linked(Reapproved)))
      else (db, Done(NotLinked(NotApproved)))
    case UpgradeLinkCheck =>
      (db, if Held(db.accounts, ProdSync, k, Some(c.sub)) then Done(NotLinked(AlreadyLinkedElsewhere))
           else Next(c.(pc := UpgradeLocalCheck)))
    case UpgradeLocalCheck =>
      (db, if Held(db.accounts, Local, k, Some(c.sub)) then Done(NotLinked(LocalConflict))
           else Next(c.(pc := UpgradeWrite)))
    case UpgradeWrite =>
      if c.sub !in db.accounts || db.accounts[c.sub].status != Pending || db.accounts[c.sub].source != Local then
        (db, Done(NotLinked(LocalConflict)))
      else if Held(db.accounts, ProdSync, k, Some(c.sub)) then (db, Done(NotLinked(AlreadyLinkedElsewhere)))
      else
        var name := if c.admission.value.name.Some? then c.admission.value.name else db.accounts[c.sub].name;
        (db.(accounts := db.accounts[c.sub := LinkedRow(name, c)]), Done(Linked(Upgraded)))
    case CreateLinkCheck =>
      (db, if Held(db.accounts, ProdSync, k, None) then Done(NotLinked(AlreadyLinkedElsewhere))
           else Next(c.(pc := CreateLocalCheck)))
    case CreateLocalCheck =>
      (db, if Held(db.accounts, Local, k, None) then Done(NotLinked(LocalConflict))
           else Next(c.(pc := CreateWrite)))
    case CreateWrite =>
      if c.sub in db.accounts || Held(db.accounts, ProdSync, k, None) then (db, Next(c.(pc := ReadWinner)))
      else (db.(accounts := db.accounts[c.sub := LinkedRow(c.admission.value.name, c)]), Done(Linked(Created)))
    case ReadWinner =>
      (db, if c.sub in db.accounts && EmailMatches(db.accounts[c.sub], k) then Done(Linked(Created))
           else Done(NotLinked(AlreadyLinkedElsewhere)))
  }

  function Rank(pc: Pc): nat {
    match pc
    case SelectStaged => 6
    case SelectBySub => 5
    case UpgradeLinkCheck => 3
    case UpgradeLocalCheck => 2
    case UpgradeWrite => 1
    case CreateLinkCheck => 4
    case CreateLocalCheck => 3
    case CreateWrite => 2
    case ReadWinner => 1
    case Reapprove => 1
  }

  /** A call that runs to its end with no other statement in between. */
  function Alone(db: Db, p: Progress): (Db, Outcome)
    requires p.Next? ==> ReadyToWrite(p.call)
    decreases if p.Next? then Rank(p.call.pc) else 0
  {
    match p
    case Done(outcome) => (db, outcome)
    case Next(c) =>
      var (db', p') := Statement(db, c);
      Alone(db', p')
  }

  // ---------------------------------------------------------------- who is linked, over the tables

  /** The login itself may be trusted with its address. */
  predicate Verified(login: Login, trusted: set<string>) {
    login.emailVerified && login.issuer in trusted && login.email.Some? && login.email.value.key != []
  }

  /** Prod has approved the address. */
  predicate Admitted(db: Db, login: Login) {
    login.email.Some? && login.email.value.key in db.profiles && db.profiles[login.email.value.key].status == Approved
  }

  predicate SameEmail(a: Account, login: Login) {
    a.email.Some? && login.email.Some? && a.email.value.key == login.email.value.key
  }

  /** Another sub has a row of that source with the address. */
  ghost predicate Taken(db: Db, login: Login, source: Source) {
    exists s :: s in db.accounts && s != login.sub && db.accounts[s].source == source && SameEmail(db.accounts[s], login)
  }

  /** No row yet, or a pending local one with the address that nobody ever approved. */
  predicate Free(db: Db, login: Login) {
    login.sub in db.accounts ==>
      var row := db.accounts[login.sub];
      row.source == Local && row.status == Pending && row.approvedAt.None? && SameEmail(row, login)
  }

  /** The mode of a successful login, by its own row. */
  ghost predicate ModeExactly(db: Db, login: Login, mode: Mode) {
    var own := Get(db.accounts, login.sub);
    match mode
    case Created => own.None? && !Taken(db, login, ProdSync) && !Taken(db, login, Local)
    case Upgraded => own.Some? && Free(db, login) && !Taken(db, login, ProdSync) && !Taken(db, login, Local)
    case Reapproved => own.Some? && own.value.source == ProdSync && SameEmail(own.value, login) && own.value.status != Approved
    case Already => own.Some? && own.value.status == Approved && (own.value.source == Local || SameEmail(own.value, login))
  }

  /** The refusals of an admitted login, by its own row and the rows of others. */
  ghost predicate RefusedExactly(db: Db, login: Login, reason: Reason) {
    var own := Get(db.accounts, login.sub);
    if Free(db, login) then
      if Taken(db, login, ProdSync) then reason == AlreadyLinkedElsewhere
      else Taken(db, login, Local) && reason == LocalConflict
    else if own.value.source == ProdSync then !SameEmail(own.value, login) && reason == AlreadyLinkedElsewhere
    else if own.value.status == Pending then reason == LocalConflict
    else own.value.status != Approved && reason == AccountBlocked
  }

  /** The answer a login deserves. */
  ghost predicate Deserves(db: Db, login: Login, trusted: set<string>, outcome: Outcome) {
    if !login.emailVerified then outcome == NotLinked(UnverifiedEmail)
    else if login.issuer !in trusted then outcome == NotLinked(UntrustedIssuer)
    else if login.email.None? || login.email.value.key == [] then outcome == NotLinked(MissingEmail)
    else if login.email.value.key !in db.profiles then outcome == NotLinked(NotAdmitted)
    else if db.profiles[login.email.value.key].status != Approved then outcome == NotLinked(NotApproved)
    else if outcome.Linked? then ModeExactly(db, login, outcome.mode)
    else RefusedExactly(db, login, outcome.reason)
  }

  /** The row a login leaves behind, and nothing else moves. */
  ghost predicate RowExactly(db: Db, login: Login, now: int, db': Db, outcome: Outcome) {
    if outcome.NotLinked? || outcome.mode == Already then db' == db
    else
      && Admitted(db, login) && (outcome.mode == Created <==> login.sub !in db.accounts)
      && db'.profiles == db.profiles && db'.kids == db.kids
      && db'.accounts.Keys == db.accounts.Keys + {login.sub}
      && (forall s :: s in db.accounts && s != login.sub ==> db'.accounts[s] == db.accounts[s])
      && LinkExactly(Get(db.accounts, login.sub), db.profiles[login.email.value.key], login, now, db'.accounts[login.sub])
  }

  /** The new link of a sub without one, or the own link approved again. */
  predicate LinkExactly(own: Option<Account>, p: Profile, login: Login, now: int, after: Account) {
    && after.source == ProdSync && after.status == Approved && (after.isAdmin <==> p.role == Admin)
    && if own.Some? && own.value.source == ProdSync then
         after == own.value.(status := after.status, isAdmin := after.isAdmin)
       else
         && after.email == login.email && after.approvedAt == Some(now) && after.approvedBy == Some("prod-sync")
         && after.name == (if p.name.None? && own.Some? then own.value.name else p.name)
  }

  /**
   Linked exactly for verified logins of an approved address whose own row allows it, otherwise refused
   for exactly one reason; only a link made or approved again changes a row.
   */
  ghost predicate LoginExactly(db: Db, login: Login, trusted: set<string>, now: int, db': Db, outcome: Outcome) {
    && (forall o :: Deserves(db, login, trusted, o) <==> o == outcome)
    && RowExactly(db, login, now, db', outcome)
  }

  class Reconciler {
    const store: AdmissionStore
    const trusted: set<string>

    constructor (store: AdmissionStore, trusted: set<string>)
      ensures this.store == store && this.trusted == trusted
    {
      this.store, this.trusted := store, trusted;
    }

    // reconcilePreprodSub, run without interleaving.
    method Reconcile(login: Login, now: int) returns (outcome: Outcome)
      modifies store`accounts
      ensures (store.State(), outcome) == Alone(old(store.State()), Begin(login, trusted, now))
      ensures LoginExactly(old(store.State()), login, trusted, now, store.State(), outcome)
    {
      LogsInExactly(store.State(), login, trusted, now);
      hide LoginExactly;
      if !login.emailVerified { return NotLinked(UnverifiedEmail); }
      if login.issuer !in trusted { return NotLinked(UntrustedIssuer); }
      if login.email.None? || login.email.value.key == [] { return NotLinked(MissingEmail); }
      var norm := login.email.value.key;
      if norm !in store.profiles { return NotLinked(NotAdmitted); }
      var admission := store.profiles[norm];
      if admission.status != Approved { return NotLinked(NotApproved); }
      var link := Call(login.sub, login.email.value, now, SelectBySub, Some(admission));
      if login.sub in store.accounts {
        outcome := WithRow(link, store.accounts[login.sub]);
      } else {
        outcome := WithoutRow(link);
      }
    }

    method WithRow(c: Call, row: Account) returns (outcome: Outcome)
      requires c.pc == SelectBySub && c.admission.Some?
      requires c.sub in store.accounts && store.accounts[c.sub] == row
      modifies store`accounts
      ensures (store.State(), outcome) == Alone(old(store.State()), Next(c))
    {
      if row.source == ProdSync {
        if !EmailMatches(row, c.email.key) { return NotLinked(AlreadyLinkedElsewhere); }
        if row.status == Approved { return Linked(Already); }
        assert OnRow(c, row) == Next(c.(pc := Reapprove));
        ghost var after := Statement(store.State(), c.(pc := Reapprove));
        assert Alone(store.State(), Next(c)) == Alone(store.State(), Next(c.(pc := Reapprove))) == Alone(after.0, after.1);
        store.accounts := store.accounts[c.sub := row.(status := Approved, isAdmin := c.admission.value.role == Admin)];
        return Linked(Reapproved);
      }
      if row.status == Approved { return Linked(Already); }
      if row.status == Rejected || row.status == Suspended { return NotLinked(AccountBlocked); }
      if row.status != Pending || row.approvedAt.Some? { return NotLinked(LocalConflict); }
      if row.email.None? || !EmailMatches(row, c.email.key) { return NotLinked(LocalConflict); }
      UnfoldUpgrade(store.State(), c);
      var linked := FindRow(ProdSync, c.email.key, Some(c.sub));
      if linked { return NotLinked(AlreadyLinkedElsewhere); }
      var local := FindRow(Local, c.email.key, Some(c.sub));
      if local { return NotLinked(LocalConflict); }
      var name := if c.admission.value.name.Some? then c.admission.value.name else row.name;
      store.accounts := store.accounts[c.sub := LinkedRow(name, c)];
      return Linked(Upgraded);
    }

    method WithoutRow(c: Call) returns (outcome: Outcome)
      requires c.pc == SelectBySub && c.admission.Some? && c.sub !in store.accounts
      modifies store`accounts
      ensures (store.State(), outcome) == Alone(old(store.State()), Next(c))
    {
      UnfoldCreate(store.State(), c);
      var linked := FindRow(ProdSync, c.email.key, None);
      if linked { return NotLinked(AlreadyLinkedElsewhere); }
      var local := FindRow(Local, c.email.key, None);
      if local { return NotLinked(LocalConflict); }
      store.accounts := store.accounts[c.sub := LinkedRow(c.admission.value.name, c)];
      return Linked(Created);
    }

    // SELECT ... WHERE admission_source = source AND lower(email) = k [AND sub <> exclude] LIMIT 1
    method FindRow(source: Source, k: Text, exclude: Option<string>) returns (found: bool)
      ensures found <==> Held(store.accounts, source, k, exclude)
    {
      var rows := set s | s in store.accounts && store.accounts[s].source == source
                          && EmailMatches(store.accounts[s], k) && Some(s) != exclude;
      found := rows != {};
      if Held(store.accounts, source, k, exclude) {
        ghost var s :| s in store.accounts && store.accounts[s].source == source
                       && EmailMatches(store.accounts[s], k) && Some(s) != exclude;
        assert s in rows;
      }
    }
  }

  lemma UnfoldUpgrade(db: Db, c: Call)
    requires c.pc == SelectBySub && c.admission.Some? && c.sub in db.accounts
    requires OnRow(c, db.accounts[c.sub]) == Next(c.(pc := UpgradeLinkCheck))
    ensures var row := db.accounts[c.sub];
      var k := c.email.key;
      var name := if c.admission.value.name.Some? then c.admission.value.name else row.name;
      Alone(db, Next(c)) ==
        if Held(db.accounts, ProdSync, k, Some(c.sub)) then (db, NotLinked(AlreadyLinkedElsewhere))
        else if Held(db.accounts, Local, k, Some(c.sub)) then (db, NotLinked(LocalConflict))
        else (db.(accounts := db.accounts[c.sub := LinkedRow(name, c)]), Linked(Upgraded))
  {
    var c1, c2, c3 := c.(pc := UpgradeLinkCheck), c.(pc := UpgradeLocalCheck), c.(pc := UpgradeWrite);
    assert Alone(db, Next(c)) == Alone(db, Next(c1));
    if !Held(db.accounts, ProdSync, c.email.key, Some(c.sub)) {
      assert Alone(db, Next(c1)) == Alone(db, Next(c2));
      if !Held(db.accounts, Local, c.email.key, Some(c.sub)) {
        assert Alone(db, Next(c2)) == Alone(db, Next(c3));
        var (db', p') := Statement(db, c3);
        assert Alone(db, Next(c3)) == Alone(db', p') == (db', Linked(Upgraded));
      } else {
        assert Alone(db, Next(c2)) == (db, NotLinked(LocalConflict));
      }
    } else {
      assert Statement(db, c1) == (db, Done(NotLinked(AlreadyLinkedElsewhere)));
      assert Alone(db, Next(c1)) == (db, NotLinked(AlreadyLinkedElsewhere));
    }
  }

  lemma UnfoldCreate(db: Db, c: Call)
    requires c.pc == SelectBySub && c.admission.Some? && c.sub !in db.accounts
    ensures var k := c.email.key;
      Alone(db, Next(c)) ==
        if Held(db.accounts, ProdSync, k, None) then (db, NotLinked(AlreadyLinkedElsewhere))
        else if Held(db.accounts, Local, k, None) then (db, NotLinked(LocalConflict))
        else (db.(accounts := db.accounts[c.sub := LinkedRow(c.admission.value.name, c)]), Linked(Created))
  {
    var c1, c2, c3 := c.(pc := CreateLinkCheck), c.(pc := CreateLocalCheck), c.(pc := CreateWrite);
    assert Alone(db, Next(c)) == Alone(db, Next(c1));
    if !Held(db.accounts, ProdSync, c.email.key, None) {
      assert Alone(db, Next(c1)) == Alone(db, Next(c2));
      if !Held(db.accounts, Local, c.email.key, None) {
        assert Alone(db, Next(c2)) == Alone(db, Next(c3));
        var (db', p') := Statement(db, c3);
        assert Alone(db, Next(c3)) == Alone(db', p') == (db', Linked(Created));
      } else {
        assert Alone(db, Next(c2)) == (db, NotLinked(LocalConflict));
      }
    } else {
      assert Statement(db, c1) == (db, Done(NotLinked(AlreadyLinkedElsewhere)));
      assert Alone(db, Next(c1)) == (db, NotLinked(AlreadyLinkedElsewhere));
    }
  }

  /** Another sub's link holds the address of the call. */
  ghost predicate LinkedElsewhere(db: Db, c: Call) {
    exists s :: s in db.accounts && s != c.sub && db.accounts[s].source == ProdSync
                && db.accounts[s].email.Some? && db.accounts[s].email.value.key == c.email.key
  }

  // What the writing statements answer, whatever has happened since the call read its row: a lost race
  // is a refusal, except that a subject whose own row holds the address by now is told it was created.
  lemma WritesExactly(db: Db, c: Call)
    requires ReadyToWrite(c) && c.pc in {Reapprove, UpgradeWrite, CreateWrite, ReadWinner}
    ensures var (db', p) := Statement(db, c);
      var own := Get(db.accounts, c.sub);
      && (p.Next? || p.outcome.NotLinked? || c.pc == ReadWinner ==> db' == db)
      && match c.pc
         case Reapprove =>
           p == Done(if own.Some? && own.value.source == ProdSync then Linked(Reapproved) else NotLinked(NotApproved))
         case UpgradeWrite =>
           if own.None? || own.value.source != Local || own.value.status != Pending then p == Done(NotLinked(LocalConflict))
           else p == Done(if LinkedElsewhere(db, c) then NotLinked(AlreadyLinkedElsewhere) else Linked(Upgraded))
         case CreateWrite =>
           p == if own.Some? || LinkedElsewhere(db, c) then Next(c.(pc := ReadWinner)) else Done(Linked(Created))
         case _ =>
           p == Done(if own.Some? && own.value.email.Some? && own.value.email.value.key == c.email.key
                     then Linked(Created) else NotLinked(AlreadyLinkedElsewhere))
  {
    assert Held(db.accounts, ProdSync, c.email.key, Some(c.sub)) <==> LinkedElsewhere(db, c);
    assert c.sub !in db.accounts ==> (Held(db.accounts, ProdSync, c.email.key, None) <==> LinkedElsewhere(db, c));
  }

  // The lookups of a call, over the tables.
  lemma HeldIsTaken(db: Db, c: Call, login: Login, source: Source)
    requires login.email == Some(c.email) && login.sub == c.sub
    ensures Held(db.accounts, source, c.email.key, Some(c.sub)) <==> Taken(db, login, source)
    ensures c.sub !in db.accounts ==> (Held(db.accounts, source, c.email.key, None) <==> Taken(db, login, source))
  {
  }

  lemma OneAnswer(db: Db, login: Login, trusted: set<string>, o: Outcome, outcome: Outcome)
    requires Deserves(db, login, trusted, o) && Deserves(db, login, trusted, outcome)
    ensures o == outcome
  {
    hide Taken;
  }

  lemma AnswersExactly(db: Db, login: Login, trusted: set<string>, now: int, db': Db, outcome: Outcome)
    requires Deserves(db, login, trusted, outcome) && RowExactly(db, login, now, db', outcome)
    ensures LoginExactly(db, login, trusted, now, db', outcome)
  {
    forall o | Deserves(db, login, trusted, o)
      ensures o == outcome
    {
      OneAnswer(db, login, trusted, o, outcome);
    }
    hide Deserves, RowExactly;
  }

  /** The call has read the approved admission of its login. */
  predicate HasRead(db: Db, login: Login, now: int, c: Call) {
    && Admitted(db, login)
    && c == Call(login.sub, login.email.value, now, SelectBySub, Some(db.profiles[login.email.value.key]))
  }

  lemma CreatesExactly(db: Db, login: Login, trusted: set<string>, now: int, c: Call)
    requires Verified(login, trusted) && HasRead(db, login, now, c) && login.sub !in db.accounts
    ensures var (db', outcome) := Alone(db, Next(c));
      Deserves(db, login, trusted, outcome) && RowExactly(db, login, now, db', outcome)
  {
    HeldIsTaken(db, c, login, ProdSync);
    HeldIsTaken(db, c, login, Local);
    UnfoldCreate(db, c);
    hide Alone, Held, Taken;
  }

  lemma AdoptsExactly(db: Db, login: Login, trusted: set<string>, now: int, c: Call)
    requires Verified(login, trusted) && HasRead(db, login, now, c) && login.sub in db.accounts && Free(db, login)
    ensures var (db', outcome) := Alone(db, Next(c));
      Deserves(db, login, trusted, outcome) && RowExactly(db, login, now, db', outcome)
  {
    HeldIsTaken(db, c, login, ProdSync);
    HeldIsTaken(db, c, login, Local);
    UnfoldUpgrade(db, c);
    hide Alone, Held, Taken;
  }

  lemma FollowsRowExactly(db: Db, login: Login, trusted: set<string>, now: int, c: Call)
    requires Verified(login, trusted) && HasRead(db, login, now, c) && login.sub in db.accounts && !Free(db, login)
    ensures var (db', outcome) := Alone(db, Next(c));
      Deserves(db, login, trusted, outcome) && RowExactly(db, login, now, db', outcome)
  {
    var next := OnRow(c, db.accounts[c.sub]);
    assert Alone(db, Next(c)) == Alone(db, next);
    if next.Next? {
      var (db', p') := Statement(db, next.call);
      assert Alone(db, next) == Alone(db', p') == (db', Linked(Reapproved));
    }
    hide Alone, Statement;
  }

  // An uninterrupted login: its outcome and what it writes, stated over the tables alone.
  lemma LogsInExactly(db: Db, login: Login, trusted: set<string>, now: int)
    ensures var (db', outcome) := Alone(db, Begin(login, trusted, now));
      LoginExactly(db, login, trusted, now, db', outcome)
  {
    var (db', outcome) := Alone(db, Begin(login, trusted, now));
    if Verified(login, trusted) {
      var c := Call(login.sub, login.email.value, now, SelectStaged, None);
      var next := Statement(db, c);
      assert Alone(db, Next(c)) == Alone(next.0, next.1);
      if Admitted(db, login) {
        if login.sub !in db.accounts {
          CreatesExactly(db, login, trusted, now, next.1.call);
        } else if Free(db, login) {
          AdoptsExactly(db, login, trusted, now, next.1.call);
        } else {
          FollowsRowExactly(db, login, trusted, now, next.1.call);
        }
      }
    }
    AnswersExactly(db, login, trusted, now, db', outcome);
  }
}
