/** Runs of deliveries and logins, each taken as one atomic step. */
module AdmissionRuns {
  import opened Prelude
  import opened Text
  import opened Snapshot
  import opened Admission
  import opened Jit
  import Machine

  /** A verified snapshot arrives, or somebody logs in. */
  datatype Event = Deliver(p: Payload) | LogIn(login: Login, trusted: set<string>, now: int)

  function After(db: Db, e: Event): Db {
    match e
    case Deliver(p) => Ingested(db, p)
    case LogIn(login, trusted, now) => Alone(db, Begin(login, trusted, now)).0
  }

  ghost predicate Step(db: Db, e: Event, db': Db) {
    db' == After(db, e)
  }

  // ---------------------------------------------------------------- mirror agreement

  /** A mirrored row and the staged profile of its email say the same. */
  ghost predicate Agrees(a: Account, profiles: map<Text, Profile>) {
    a.source == ProdSync ==>
      && a.email.Some? && a.email.value.key in profiles
      && var p := profiles[a.email.value.key];
         && a.status == p.status
         && (a.isAdmin ==> p.role == Admin)
         && (a.status == Approved ==> (a.isAdmin <==> p.role == Admin))
  }

  ghost predicate MirrorAgreement(db: Db) {
    forall s :: s in db.accounts ==> Agrees(db.accounts[s], db.profiles)
  }

  lemma IngestAgrees(db: Db, p: Payload, a: Account)
    requires Agrees(a, db.profiles)
    ensures var firsts, absent := Firsts(p.entries), AbsentFrom(db, p);
      Agrees(AccountAfter(a, firsts, absent), ProfilesAfter(db.profiles, firsts, absent))
  {
  }

  // The branches of a call that reads staging and accounts without interruption.
  lemma AloneOutcome(db: Db, c: Call)
    requires c.pc == SelectStaged
    ensures var (db', outcome) := Alone(db, Next(c));
      && db'.profiles == db.profiles && db'.kids == db.kids
      && (db'.accounts == db.accounts
          || exists a :: db'.accounts == db.accounts[c.sub := a] && WrittenBy(db, c, a))
      && (outcome == Linked(Reapproved) ==>
           c.sub in db.accounts && db.accounts[c.sub].source == ProdSync
           && EmailMatches(db.accounts[c.sub], c.email.key) && db.accounts[c.sub].status != Approved
           && c.email.key in db.profiles && db.profiles[c.email.key].status == Approved)
  {
    var k := c.email.key;
    if k in db.profiles && db.profiles[k].status == Approved {
      var c1 := c.(pc := SelectBySub, admission := Some(db.profiles[k]));
      assert Alone(db, Next(c)) == Alone(db, Next(c1));
      if c.sub !in db.accounts {
        UnfoldCreate(db, c1);
        assert WrittenBy(db, c, LinkedRow(db.profiles[k].name, c1));
      } else {
        var row := db.accounts[c.sub];
        var next := OnRow(c1, row);
        assert Alone(db, Next(c1)) == Alone(db, next);
        if next == Next(c1.(pc := UpgradeLinkCheck)) {
          UnfoldUpgrade(db, c1);
          var name := if db.profiles[k].name.Some? then db.profiles[k].name else row.name;
          assert WrittenBy(db, c, LinkedRow(name, c1));
        } else if next.Next? {
          var (db', p') := Statement(db, next.call);
          assert Alone(db, next) == Alone(db', p');
          assert WrittenBy(db, c, row.(status := Approved, isAdmin := db.profiles[k].role == Admin));
        }
      }
    }
  }

  /** The row a login may write: its own, mirroring the approved admission of its email. */
  ghost predicate WrittenBy(db: Db, c: Call, a: Account) {
    && c.email.key in db.profiles && db.profiles[c.email.key].status == Approved
    && a.source == ProdSync && EmailMatches(a, c.email.key) && a.status == Approved
    && a.isAdmin == (db.profiles[c.email.key].role == Admin)
  }

  lemma MirrorStep(db: Db, e: Event, db': Db)
    requires MirrorAgreement(db) && Step(db, e, db')
    ensures MirrorAgreement(db')
  {
    match e
    case Deliver(p) =>
      forall s | s in db'.accounts
        ensures Agrees(db'.accounts[s], db'.profiles)
      {
        IngestAgrees(db, p, db.accounts[s]);
      }
    case LogIn(login, trusted, now) =>
      var begun := Begin(login, trusted, now);
      if begun.Next? {
        AloneOutcome(db, begun.call);
      }
  }

  lemma MirrorPreserved()
    ensures Machine.Preserves(Step, MirrorAgreement)
  {
    forall db, e, db' | MirrorAgreement(db) && Step(db, e, db')
      ensures MirrorAgreement(db')
    {
      MirrorStep(db, e, db');
    }
  }

  // Over every run, mirrored rows agree with staging.
  lemma MirrorHoldsInEveryRun(db: Db, events: seq<Event>, db': Db)
    requires MirrorAgreement(db) && Machine.Run(Step, db, events, db')
    ensures MirrorAgreement(db')
  {
    MirrorPreserved();
    Machine.RunKeeps(Step, MirrorAgreement, db, events, db');
  }

  // Hence in such a run no login ever has to re-approve a row: ingestion already did.
  lemma ReapprovalNeedsInterleaving(db: Db, events: seq<Event>, db': Db, login: Login, trusted: set<string>, now: int)
    requires MirrorAgreement(db) && Machine.Run(Step, db, events, db')
    ensures Alone(db', Begin(login, trusted, now)).1 != Linked(Reapproved)
  {
    MirrorHoldsInEveryRun(db, events, db');
    var begun := Begin(login, trusted, now);
    if begun.Next? {
      AloneOutcome(db', begun.call);
    }
  }

  /** Agreement of the rows of one email. */
  ghost predicate AgreesOn(db: Db, k: Text) {
    forall s :: s in db.accounts && Mirrors(db.accounts[s], k) ==> Agrees(db.accounts[s], db.profiles)
  }

  // From any state whatever, an applied snapshot leaves an email in agreement exactly when it names
  // it, when it is full and finds it staged as anything but rejected, or when it agreed before.
  lemma IngestRestoresAgreement(db: Db, p: Payload, k: Text)
    requires !Stale(db.kids, p.issuedAt)
    ensures AgreesOn(Ingested(db, p), k) <==> Names(p, k) || LeftOut(db, p, k) || AgreesOn(db, k)
  {
    FirstsAreHeads(p.entries, k);
    FirstsName(p, k);
    hide Names, FirstFor;
    var db' := Ingested(db, p);
    assert db'.accounts.Keys == db.accounts.Keys;
    if !Names(p, k) && !LeftOut(db, p, k) {
      assert k in db'.profiles <==> k in db.profiles;
      assert k in db.profiles ==> db'.profiles[k] == db.profiles[k];
      forall s | s in db.accounts && Mirrors(db.accounts[s], k)
        ensures db'.accounts[s] == db.accounts[s]
      {
      }
      SameAgreement(db, db', k);
    }
  }

  lemma SameAgreement(db: Db, db': Db, k: Text)
    requires db'.accounts.Keys == db.accounts.Keys
    requires forall s :: s in db.accounts ==> Mirrors(db'.accounts[s], k) == Mirrors(db.accounts[s], k)
    requires forall s :: s in db.accounts && Mirrors(db.accounts[s], k) ==> db'.accounts[s] == db.accounts[s]
    requires k in db'.profiles <==> k in db.profiles
    requires k in db.profiles ==> db'.profiles[k] == db.profiles[k]
    ensures AgreesOn(db', k) <==> AgreesOn(db, k)
  {
    forall s | s in db.accounts && Mirrors(db.accounts[s], k)
      ensures Agrees(db'.accounts[s], db'.profiles) == Agrees(db.accounts[s], db.profiles)
    {
    }
  }

  // ---------------------------------------------------------------- convergence

  /** Every snapshot the events deliver is `newest` itself or older. */
  ghost predicate Bounded(events: seq<Event>, newest: Payload) {
    forall i :: 0 <= i < |events| && events[i].Deliver? ==>
      events[i].p == newest || events[i].p.issuedAt < newest.issuedAt
  }

  function RunOf(db: Db, events: seq<Event>): Db
    decreases |events|
  {
    if events == [] then db else RunOf(After(db, events[0]), events[1..])
  }

  lemma LoginLeavesStaging(db: Db, login: Login, trusted: set<string>, now: int)
    ensures var db' := After(db, LogIn(login, trusted, now)); db'.profiles == db.profiles && db'.kids == db.kids
  {
    var begun := Begin(login, trusted, now);
    if begun.Next? {
      AloneOutcome(db, begun.call);
    }
  }

  // Until the newest arrives nothing newer is recorded.
  lemma {:induction false} NothingNewerYet(db: Db, events: seq<Event>, newest: Payload)
    requires Bounded(events, newest) && !Stale(db.kids, newest.issuedAt) && Deliver(newest) !in events
    ensures !Stale(RunOf(db, events).kids, newest.issuedAt)
    decreases |events|
  {
    if events != [] {
      match events[0] {
        case Deliver(p) =>
          assert p != newest;
          NewestIsRemembered(db, p, newest.issuedAt);
        case LogIn(login, trusted, now) => LoginLeavesStaging(db, login, trusted, now);
      }
      NothingNewerYet(After(db, events[0]), events[1..], newest);
    }
  }

  // Once it has arrived, deliveries change nothing: the tables move only by logins.
  lemma {:induction false} NothingAfterNewest(db: Db, events: seq<Event>, newest: Payload)
    requires Bounded(events, newest) && Stale(db.kids, newest.issuedAt)
    ensures RunOf(db, events).profiles == db.profiles && RunOf(db, events).kids == db.kids
    ensures forall i :: 0 <= i < |events| && events[i].Deliver? ==>
      Ingested(RunOf(db, events[..i]), events[i].p) == RunOf(db, events[..i])
    decreases |events|
  {
    if events != [] {
      match events[0] {
        case Deliver(p) =>
          var k :| k in db.kids && newest.issuedAt <= db.kids[k].issuedAt;
          assert p.issuedAt <= db.kids[k].issuedAt;
        case LogIn(login, trusted, now) => LoginLeavesStaging(db, login, trusted, now);
      }
      var rest := events[1..];
      NothingAfterNewest(After(db, events[0]), rest, newest);
      forall i | 0 <= i < |events| && events[i].Deliver?
        ensures Ingested(RunOf(db, events[..i]), events[i].p) == RunOf(db, events[..i])
      {
        if i > 0 {
          assert events[i] == rest[i - 1] && events[..i][1..] == rest[..i - 1] && events[..i][0] == events[0];
        } else {
          assert events[..0] == [];
        }
      }
    }
  }

  lemma {:induction false} RunConcat(db: Db, a: seq<Event>, b: seq<Event>)
    ensures RunOf(db, a + b) == RunOf(RunOf(db, a), b)
    decreases |a|
  {
    if a == [] {
      assert a + b == b;
    } else {
      assert (a + b)[1..] == a[1..] + b && (a + b)[0] == a[0];
      RunConcat(After(db, a[0]), a[1..], b);
    }
  }

  // Convergence. Deliver the newest snapshot, full, among older ones in any order, any number of
  // times, under any keys, with logins anywhere: at the end the emails staged as approved are exactly
  // its approved first-per-email entries, and no delivery after it changed anything.
  lemma Convergence(db: Db, before: seq<Event>, newest: Payload, after: seq<Event>)
    requires newest.full && !Stale(db.kids, newest.issuedAt)
    requires Bounded(before, newest) && Deliver(newest) !in before && Bounded(after, newest)
    ensures var events := before + [Deliver(newest)] + after;
      && ApprovedEmails(RunOf(db, events).profiles) == ApprovedFirsts(newest)
      && (forall k :: k in Firsts(newest.entries) ==>
           k in RunOf(db, events).profiles && RunOf(db, events).profiles[k] == Staged(Firsts(newest.entries)[k]))
    ensures var db' := RunOf(db, before + [Deliver(newest)]);
      forall i :: 0 <= i < |after| && after[i].Deliver? ==>
        Ingested(RunOf(db', after[..i]), after[i].p) == RunOf(db', after[..i])
  {
    var db1 := RunOf(db, before);
    NothingNewerYet(db, before, newest);
    FullSnapshotDecidesApproval(db1, newest);
    var db2 := Ingested(db1, newest);
    NewestIsRemembered(db1, newest, newest.issuedAt);
    RunConcat(db, before, [Deliver(newest)]);
    assert RunOf(db1, [Deliver(newest)]) == RunOf(db2, []) by {
      assert [Deliver(newest)][1..] == [];
    }
    RunConcat(db, before + [Deliver(newest)], after);
    NothingAfterNewest(db2, after, newest);
  }

  // Two replicas that both received the newest full snapshot agree on who is approved.
  lemma ReplicasAgree(db1: Db, before1: seq<Event>, after1: seq<Event>,
                      db2: Db, before2: seq<Event>, after2: seq<Event>, newest: Payload)
    requires newest.full && !Stale(db1.kids, newest.issuedAt) && !Stale(db2.kids, newest.issuedAt)
    requires Bounded(before1, newest) && Deliver(newest) !in before1 && Bounded(after1, newest)
    requires Bounded(before2, newest) && Deliver(newest) !in before2 && Bounded(after2, newest)
    ensures ApprovedEmails(RunOf(db1, before1 + [Deliver(newest)] + after1).profiles)
         == ApprovedEmails(RunOf(db2, before2 + [Deliver(newest)] + after2).profiles)
  {
    Convergence(db1, before1, newest, after1);
    Convergence(db2, before2, newest, after2);
  }
}
