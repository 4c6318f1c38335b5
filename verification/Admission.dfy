/** Preprod ingestion of admission snapshots (ingest.ts), run as one transaction under a lock. */
module Admission {
  import opened Prelude
  import opened Text
  import opened Snapshot

  datatype Source = Local | ProdSync

  datatype Account = Account(
    email: Option<Address>, name: Option<Text>, status: Status, isAdmin: bool,
    approvedAt: Option<int>, approvedBy: Option<string>, source: Source)

  /** A staged admission, stored under the normalised email. */
  datatype Profile = Profile(
    display: Text, name: Option<Text>, status: Status, role: Role, approvedAt: Option<int>, createdAt: Option<int>)

  datatype KidRow = KidRow(issuedAt: int, entries: nat)

  /** The three tables: account_users by sub, admission_sync_profiles by email, admission_sync_state by kid. */
  datatype Db = Db(accounts: map<string, Account>, profiles: map<Text, Profile>, kids: map<string, KidRow>)

  datatype IngestResult = IngestResult(applied: bool, upserted: nat, propagated: nat, markedAbsent: nat)

  // ---------------------------------------------------------------- verification

  datatype Envelope = Envelope(payload: Payload, signature: string)

  datatype Verdict = Accepted(payload: Payload) | Malformed | UnknownKid | InvalidSignature

  /** `valid(kid, canonical, signature)` abstracts the Ed25519 check over the canonical bytes. */
  function VerifySnapshot(env: Envelope, kids: set<string>, valid: (string, Payload, string) -> bool): Verdict {
    if env.payload.version != 1 then Malformed
    else if env.payload.kid !in kids then UnknownKid
    else if !valid(env.payload.kid, Canonical(env.payload), env.signature) then InvalidSignature
    else Accepted(env.payload)
  }

  // ---------------------------------------------------------------- what one snapshot does

  /** The first entry of each normalised email. */
  function Firsts(s: seq<Entry>): map<Text, Entry> {
    if s == [] then map[]
    else
      var before := Firsts(s[..|s| - 1]);
      var e := s[|s| - 1];
      if e.email.key in before then before else before[e.email.key := e]
  }

  function Staged(e: Entry): Profile {
    Profile(e.email.text, e.name, e.status, e.role, e.approvedAt, e.createdAt)
  }

  /** Rows `admission_source = 'prod_sync' AND lower(email) = k`. */
  predicate Mirrors(a: Account, k: Text) {
    a.source == ProdSync && a.email.Some? && a.email.value.key == k
  }

  function Propagated(a: Account, e: Entry): Account {
    a.(status := e.status, isAdmin := e.role == Admin, name := if e.name.Some? then e.name else a.name)
  }

  function Revoked(a: Account): Account {
    a.(status := Rejected, isAdmin := false)
  }

  function MirrorSubs(accounts: map<string, Account>, keys: set<Text>): set<string> {
    set s | s in accounts && accounts[s].source == ProdSync && accounts[s].email.Some? && accounts[s].email.value.key in keys
  }

  function PropagatedTo(accounts: map<string, Account>, k: Text, e: Entry): map<string, Account> {
    map s | s in accounts :: if Mirrors(accounts[s], k) then Propagated(accounts[s], e) else accounts[s]
  }

  function RevokedFor(accounts: map<string, Account>, k: Text): map<string, Account> {
    map s | s in accounts :: if Mirrors(accounts[s], k) then Revoked(accounts[s]) else accounts[s]
  }

  /** Staged emails a full snapshot no longer mentions; those already rejected are skipped. */
  function Absent(profiles: map<Text, Profile>, seen: set<Text>): set<Text> {
    set k | k in profiles && k !in seen && profiles[k].status != Rejected
  }

  function AccountAfter(a: Account, firsts: map<Text, Entry>, absent: set<Text>): Account {
    if a.source != ProdSync || a.email.None? then a
    else if a.email.value.key in firsts then Propagated(a, firsts[a.email.value.key])
    else if a.email.value.key in absent then Revoked(a)
    else a
  }

  function AccountsAfter(accounts: map<string, Account>, firsts: map<Text, Entry>, absent: set<Text>): map<string, Account> {
    map s | s in accounts :: AccountAfter(accounts[s], firsts, absent)
  }

  function ProfilesAfter(profiles: map<Text, Profile>, firsts: map<Text, Entry>, absent: set<Text>): map<Text, Profile> {
    map k | k in profiles.Keys + firsts.Keys ::
      if k in firsts then Staged(firsts[k])
      else if k in absent then profiles[k].(status := Rejected)
      else profiles[k]
  }

  /** The guard across all keys: some applied snapshot is at least as new. */
  predicate Stale(kids: map<string, KidRow>, issuedAt: int) {
    exists k :: k in kids && issuedAt <= kids[k].issuedAt
  }

  function AbsentFrom(db: Db, p: Payload): set<Text> {
    if p.full then Absent(db.profiles, Firsts(p.entries).Keys) else {}
  }

  function Ingested(db: Db, p: Payload): Db {
    if Stale(db.kids, p.issuedAt) then db
    else
      var firsts := Firsts(p.entries);
      Db(AccountsAfter(db.accounts, firsts, AbsentFrom(db, p)),
         ProfilesAfter(db.profiles, firsts, AbsentFrom(db, p)),
         db.kids[p.kid := KidRow(p.issuedAt, |p.entries|)])
  }

  function ResultOf(db: Db, p: Payload): IngestResult {
    if Stale(db.kids, p.issuedAt) then IngestResult(false, 0, 0, 0)
    else
      var firsts := Firsts(p.entries);
      IngestResult(true, |firsts|, |MirrorSubs(db.accounts, firsts.Keys + AbsentFrom(db, p))|, |AbsentFrom(db, p)|)
  }

  // ---------------------------------------------------------------- what one snapshot does, row by row

  predicate Names(p: Payload, k: Text) {
    exists i :: 0 <= i < |p.entries| && p.entries[i].email.key == k
  }

  /** Entry `i` is the first of the payload for email `k`. */
  predicate FirstFor(p: Payload, k: Text, i: nat) {
    i < |p.entries| && p.entries[i].email.key == k && forall j :: 0 <= j < i ==> p.entries[j].email.key != k
  }

  /** A full snapshot leaves the email out, and staging does not hold it as rejected yet. */
  predicate LeftOut(db: Db, p: Payload, k: Text) {
    p.full && !Names(p, k) && k in db.profiles && db.profiles[k].status != Rejected
  }

  predicate StagedAs(e: Entry, after: Option<Profile>) {
    after == Some(Profile(e.email.text, e.name, e.status, e.role, e.approvedAt, e.createdAt))
  }

  predicate MirroredAs(e: Entry, a: Account, after: Account) {
    && after == Account(a.email, after.name, e.status, e.role == Admin, a.approvedAt, a.approvedBy, ProdSync)
    && after.name == (if e.name.Some? then e.name else a.name)
  }

  /** Staging of one email: its first entry, or rejected if left out, or as it was. */
  ghost predicate StagedExactly(db: Db, p: Payload, k: Text, after: Option<Profile>) {
    && (Names(p, k) ==> exists i: nat :: FirstFor(p, k, i) && StagedAs(p.entries[i], after))
    && (LeftOut(db, p, k) ==>
          var was := db.profiles[k];
          after == Some(Profile(was.display, was.name, Rejected, was.role, was.approvedAt, was.createdAt)))
    && (!Names(p, k) && !LeftOut(db, p, k) ==> after == if k in db.profiles then Some(db.profiles[k]) else None)
  }

  /** One account: only the status, the admin flag and the name of a mirrored row follow its email. */
  ghost predicate AccountExactly(db: Db, p: Payload, a: Account, after: Account) {
    if a.source == Local || a.email.None? then after == a
    else
      var k := a.email.value.key;
      && (Names(p, k) ==> exists i: nat :: FirstFor(p, k, i) && MirroredAs(p.entries[i], a, after))
      && (LeftOut(db, p, k) ==>
            after == Account(a.email, a.name, Rejected, false, a.approvedAt, a.approvedBy, ProdSync))
      && (!Names(p, k) && !LeftOut(db, p, k) ==> after == a)
  }

  /** What a verified snapshot does to every row of the three tables, and what it reports. */
  ghost predicate IngestedExactly(db: Db, p: Payload, after: Db, r: IngestResult) {
    if exists kid :: kid in db.kids && p.issuedAt <= db.kids[kid].issuedAt then
      after == db && r == IngestResult(false, 0, 0, 0)
    else
      && (forall k :: StagedExactly(db, p, k, Get(after.profiles, k)))
      && after.accounts.Keys == db.accounts.Keys
      && (forall s :: s in db.accounts ==> AccountExactly(db, p, db.accounts[s], after.accounts[s]))
      && after.kids == db.kids[p.kid := KidRow(p.issuedAt, |p.entries|)]
      && r.applied
      && r.upserted == |set e | e in p.entries :: e.email.key|
      && r.markedAbsent == |set k | k in db.profiles && LeftOut(db, p, k)|
      && r.propagated == |set s | s in db.accounts && Reached(db, p, db.accounts[s])|
  }

  /** A mirrored row whose email the snapshot names or leaves out. */
  predicate Reached(db: Db, p: Payload, a: Account) {
    a.source == ProdSync && a.email.Some? && (Names(p, a.email.value.key) || LeftOut(db, p, a.email.value.key))
  }

  // Firsts holds the first entry of every email that is named.
  lemma {:induction false} FirstsAreFirst(p: Payload, n: nat, k: Text)
    requires n <= |p.entries|
    ensures k in Firsts(p.entries[..n]) <==> exists i :: 0 <= i < n && p.entries[i].email.key == k
    ensures forall i: nat :: i < n && FirstFor(p, k, i) ==> k in Firsts(p.entries[..n]) && Firsts(p.entries[..n])[k] == p.entries[i]
    ensures k in Firsts(p.entries[..n]) ==> exists i: nat :: i < n && FirstFor(p, k, i)
  {
    if n > 0 {
      FirstsAreFirst(p, n - 1, k);
      assert p.entries[..n][..n - 1] == p.entries[..n - 1];
      if k !in Firsts(p.entries[..n - 1]) && p.entries[n - 1].email.key == k {
        assert FirstFor(p, k, n - 1);
      }
    }
  }

  lemma FirstsName(p: Payload, k: Text)
    ensures k in Firsts(p.entries) <==> Names(p, k)
    ensures forall i: nat :: FirstFor(p, k, i) ==> k in Firsts(p.entries) && Firsts(p.entries)[k] == p.entries[i]
    ensures Names(p, k) ==> exists i: nat :: FirstFor(p, k, i)
  {
    FirstsAreFirst(p, |p.entries|, k);
    assert p.entries[..|p.entries|] == p.entries;
  }

  lemma CountsExactly(db: Db, p: Payload)
    requires forall k :: k in Firsts(p.entries) <==> Names(p, k)
    ensures Firsts(p.entries).Keys == set e | e in p.entries :: e.email.key
    ensures AbsentFrom(db, p) == set k | k in db.profiles && LeftOut(db, p, k)
    ensures MirrorSubs(db.accounts, Firsts(p.entries).Keys + AbsentFrom(db, p))
         == set s | s in db.accounts && Reached(db, p, db.accounts[s])
  {
    forall k
      ensures Names(p, k) <==> k in (set e | e in p.entries :: e.email.key)
    {
    }
    hide Names, Firsts;
  }

  lemma StagesExactly(db: Db, p: Payload, k: Text)
    requires !Stale(db.kids, p.issuedAt)
    ensures StagedExactly(db, p, k, Get(Ingested(db, p).profiles, k))
  {
    FirstsName(p, k);
    hide Firsts, FirstFor, Names;
  }

  lemma MirrorsExactly(db: Db, p: Payload, a: Account)
    ensures AccountExactly(db, p, a, AccountAfter(a, Firsts(p.entries), AbsentFrom(db, p)))
  {
    if a.email.Some? {
      FirstsName(p, a.email.value.key);
    }
    hide Firsts, FirstFor, Names;
  }

  lemma ReportsExactly(db: Db, p: Payload)
    requires !Stale(db.kids, p.issuedAt)
    ensures var r := ResultOf(db, p);
      && r.applied
      && r.upserted == |set e | e in p.entries :: e.email.key|
      && r.markedAbsent == |set k | k in db.profiles && LeftOut(db, p, k)|
      && r.propagated == |set s | s in db.accounts && Reached(db, p, db.accounts[s])|
  {
    forall k
      ensures k in Firsts(p.entries) <==> Names(p, k)
    {
      FirstsName(p, k);
    }
    CountsExactly(db, p);
    hide Firsts, Names, LeftOut, Reached, AbsentFrom, MirrorSubs;
  }

  // What ingestion does, stated over the rows of the tables alone.
  lemma IngestsExactly(db: Db, p: Payload)
    ensures IngestedExactly(db, p, Ingested(db, p), ResultOf(db, p))
  {
    hide Firsts, StagedExactly, LeftOut, Reached, AbsentFrom, MirrorSubs, ProfilesAfter;
    if !Stale(db.kids, p.issuedAt) {
      forall k
        ensures StagedExactly(db, p, k, Get(Ingested(db, p).profiles, k))
      {
        StagesExactly(db, p, k);
      }
      forall s | s in db.accounts
        ensures AccountExactly(db, p, db.accounts[s], Ingested(db, p).accounts[s])
      {
        MirrorsExactly(db, p, db.accounts[s]);
      }
      hide AccountExactly, AccountAfter;
      ReportsExactly(db, p);
      hide ResultOf;
    }
  }

  // ---------------------------------------------------------------- the tables, updated in place

  class AdmissionStore {
    var accounts: map<string, Account>
    var profiles: map<Text, Profile>
    var kids: map<string, KidRow>

    ghost function State(): Db
      reads this
    {
      Db(accounts, profiles, kids)
    }

    method NewestApplied() returns (newest: Option<int>)
      ensures newest.None? <==> kids == map[]
      ensures newest.Some? ==> forall t :: t <= newest.value <==> Stale(kids, t)
    {
      newest := None;
      var left := kids.Keys;
      while left != {}
        invariant left <= kids.Keys
        invariant newest.None? <==> left == kids.Keys
        invariant newest.Some? ==> exists k :: k in kids.Keys - left && kids[k].issuedAt == newest.value
        invariant newest.Some? ==> forall k :: k in kids.Keys - left ==> kids[k].issuedAt <= newest.value
        decreases left
      {
        var kid :| kid in left;
        if newest.None? || newest.value < kids[kid].issuedAt {
          newest := Some(kids[kid].issuedAt);
          assert kid in kids.Keys - (left - {kid});
        }
        left := left - {kid};
      }
      assert newest.None? ==> kids.Keys == {};
    }

    // UPDATE account_users ... WHERE prod_sync AND lower(email) = norm
    method PropagateToMirrorRow(norm: Text, entry: Entry) returns (updated: nat)
      modifies this`accounts
      ensures accounts == PropagatedTo(old(accounts), norm, entry)
      ensures updated == |MirrorSubs(old(accounts), {norm})|
    {
      updated := |MirrorSubs(accounts, {norm})|;
      accounts := map s | s in accounts :: if Mirrors(accounts[s], norm) then Propagated(accounts[s], entry) else accounts[s];
    }

    method PropagateRevocationToMirrorRow(norm: Text) returns (updated: nat)
      modifies this`accounts
      ensures accounts == RevokedFor(old(accounts), norm)
      ensures updated == |MirrorSubs(old(accounts), {norm})|
    {
      updated := |MirrorSubs(accounts, {norm})|;
      accounts := map s | s in accounts :: if Mirrors(accounts[s], norm) then Revoked(accounts[s]) else accounts[s];
    }

    // The loop over the entries: the first entry of each email is staged and mirrored.
    method UpsertEntries(entries: seq<Entry>) returns (seen: set<Text>, upserted: nat, propagated: nat)
      modifies this`accounts, this`profiles
      ensures seen == Firsts(entries).Keys && upserted == |Firsts(entries)|
      ensures accounts == AccountsAfter(old(accounts), Firsts(entries), {})
      ensures profiles == ProfilesAfter(old(profiles), Firsts(entries), {})
      ensures propagated == |MirrorSubs(old(accounts), seen)|
    {
      seen, upserted, propagated := {}, 0, 0;
      NothingYet(accounts, profiles);
      for i := 0 to |entries|
        invariant seen == Firsts(entries[..i]).Keys && upserted == |Firsts(entries[..i])|
        invariant accounts == AccountsAfter(old(accounts), Firsts(entries[..i]), {})
        invariant profiles == ProfilesAfter(old(profiles), Firsts(entries[..i]), {})
        invariant propagated == |MirrorSubs(old(accounts), seen)|
      {
        var entry := entries[i];
        var norm := entry.email.key;
        if norm in seen {
          SkippedEntry(entries, i);
          continue;
        }
        ghost var firsts := Firsts(entries[..i]);
        FirstOfItsEmail(entries, i);
        OneMoreKey(firsts, entry);
        OneMoreAccount(old(accounts), firsts, entry);
        OneMoreProfile(old(profiles), firsts, entry);
        OneMoreCount(old(accounts), firsts, norm);
        seen := seen + {norm};
        profiles := profiles[norm := Staged(entry)];
        upserted := upserted + 1;
        var updated := PropagateToMirrorRow(norm, entry);
        propagated := propagated + updated;
      }
      assert entries[..|entries|] == entries;
    }

    // The loop over the staged emails a full snapshot does not mention; `rows` lists those it rejected.
    method MarkAbsent(seen: set<Text>) returns (propagated: nat, ghost rows: seq<Text>, markedAbsent: nat)
      modifies this`accounts, this`profiles
      ensures Listed(rows, Absent(old(profiles), seen)) && markedAbsent == |rows|
      ensures accounts == RevokedForAll(old(accounts), rows) && profiles == RejectedAll(old(profiles), rows)
      ensures propagated == RevokedCount(old(accounts), rows)
    {
      hide MirrorSubs, RevokedFor;
      propagated, rows, markedAbsent := 0, [], 0;
      var staged := Absent(profiles, {});
      while staged != {}
        invariant forall k :: k in Absent(old(profiles), seen) <==> k in rows || (k in staged && k !in seen)
        invariant forall i :: 0 <= i < |rows| ==> rows[i] !in staged && rows[i] !in rows[..i]
        invariant staged <= profiles.Keys && markedAbsent == |rows|
        invariant accounts == RevokedForAll(old(accounts), rows) && profiles == RejectedAll(old(profiles), rows)
        invariant propagated == RevokedCount(old(accounts), rows)
        decreases staged
      {
        var row :| row in staged;
        staged := staged - {row};
        if row !in seen {
          ghost var rows' := rows + [row];
          assert rows'[..|rows|] == rows;
          assert forall i :: 0 <= i < |rows| ==> rows'[..i] == rows[..i];
          rows := rows';
          profiles := profiles[row := profiles[row].(status := Rejected)];
          markedAbsent := markedAbsent + 1;
          var updated := PropagateRevocationToMirrorRow(row);
          propagated := propagated + updated;
        }
      }
    }

    method ApplyAdmissionSnapshot(p: Payload) returns (r: IngestResult)
      modifies this
      ensures State() == Ingested(old(State()), p)
      ensures r == ResultOf(old(State()), p)
      ensures IngestedExactly(old(State()), p, State(), r)
    {
      IngestsExactly(State(), p);
      hide IngestedExactly, MirrorSubs, AccountsAfter, ProfilesAfter, RevokedForAll, RejectedAll, RevokedCount, Firsts;
      var newest := NewestApplied();
      if newest.Some? && p.issuedAt <= newest.value {
        return IngestResult(false, 0, 0, 0);
      }
      assert !Stale(kids, p.issuedAt);
      var seen, upserted, propagated := UpsertEntries(p.entries);
      var markedAbsent := 0;
      if p.full {
        var more, marked;
        ghost var rows;
        more, rows, marked := MarkAbsent(seen);
        RejectionsAreAbsent(old(accounts), old(profiles), Firsts(p.entries), rows);
        propagated, markedAbsent := propagated + more, marked;
      } else {
        assert seen + {} == seen;
      }
      kids := kids[p.kid := KidRow(p.issuedAt, |p.entries|)];
      r := IngestResult(true, upserted, propagated, markedAbsent);
    }

    // The call with its envelope: the signature is checked before the tables are touched.
    method Receive(env: Envelope, publicKeys: set<string>, valid: (string, Payload, string) -> bool)
      returns (r: Option<IngestResult>)
      modifies this
      ensures var p := env.payload;
        && (r.Some? <==>
             && p.version == 1 && p.kid in publicKeys
             && valid(p.kid, Payload(1, p.kid, p.issuedAt, p.full, StableSort(p.entries)), env.signature))
        && (r.None? ==> State() == old(State()))
        && (r.Some? ==> IngestedExactly(old(State()), p, State(), r.value))
    {
      r := None;
      var verdict := VerifySnapshot(env, publicKeys, valid);
      if verdict.Accepted? {
        var applied := ApplyAdmissionSnapshot(verdict.payload);
        r := Some(applied);
      }
    }
  }

  lemma NothingYet(accounts: map<string, Account>, profiles: map<Text, Profile>)
    ensures AccountsAfter(accounts, map[], {}) == accounts
    ensures ProfilesAfter(profiles, map[], {}) == profiles
    ensures MirrorSubs(accounts, {}) == {}
  {
    assert ProfilesAfter(profiles, map[], {}).Keys == profiles.Keys;
  }

  lemma OneMoreMirror(accounts: map<string, Account>, firsts: map<Text, Entry>, absent: set<Text>, k: Text)
    requires k !in firsts.Keys + absent
    ensures MirrorSubs(AccountsAfter(accounts, firsts, absent), {k}) == MirrorSubs(accounts, {k})
    ensures |MirrorSubs(accounts, firsts.Keys + absent + {k})|
         == |MirrorSubs(accounts, firsts.Keys + absent)| + |MirrorSubs(accounts, {k})|
  {
    var a, b := MirrorSubs(accounts, firsts.Keys + absent), MirrorSubs(accounts, {k});
    assert MirrorSubs(accounts, firsts.Keys + absent + {k}) == a + b && a !! b;
  }

  lemma OneMoreAccount(accounts: map<string, Account>, firsts: map<Text, Entry>, e: Entry)
    requires e.email.key !in firsts
    ensures AccountsAfter(accounts, firsts[e.email.key := e], {})
         == PropagatedTo(AccountsAfter(accounts, firsts, {}), e.email.key, e)
  {
  }

  lemma OneMoreProfile(profiles: map<Text, Profile>, firsts: map<Text, Entry>, e: Entry)
    requires e.email.key !in firsts
    ensures ProfilesAfter(profiles, firsts[e.email.key := e], {})
         == ProfilesAfter(profiles, firsts, {})[e.email.key := Staged(e)]
  {
  }

  lemma RevokedAccount(accounts: map<string, Account>, firsts: map<Text, Entry>, absent: set<Text>, k: Text)
    requires k !in firsts && k !in absent
    ensures AccountsAfter(accounts, firsts, absent + {k}) == RevokedFor(AccountsAfter(accounts, firsts, absent), k)
  {
  }

  lemma RevokedProfile(profiles: map<Text, Profile>, firsts: map<Text, Entry>, absent: set<Text>, k: Text)
    requires k in profiles && k !in firsts && k !in absent
    ensures var before := ProfilesAfter(profiles, firsts, absent);
      ProfilesAfter(profiles, firsts, absent + {k}) == before[k := before[k].(status := Rejected)]
  {
  }

  lemma SkippedEntry(entries: seq<Entry>, i: nat)
    requires i < |entries| && entries[i].email.key in Firsts(entries[..i])
    ensures Firsts(entries[..i + 1]) == Firsts(entries[..i])
  {
    assert entries[..i + 1][..i] == entries[..i];
  }

  lemma FirstOfItsEmail(entries: seq<Entry>, i: nat)
    requires i < |entries| && entries[i].email.key !in Firsts(entries[..i])
    ensures Firsts(entries[..i + 1]) == Firsts(entries[..i])[entries[i].email.key := entries[i]]
  {
    assert entries[..i + 1][..i] == entries[..i] && entries[..i + 1][i] == entries[i];
  }

  lemma OneMoreKey(firsts: map<Text, Entry>, e: Entry)
    requires e.email.key !in firsts
    ensures firsts[e.email.key := e].Keys == firsts.Keys + {e.email.key}
    ensures |firsts[e.email.key := e]| == |firsts| + 1
  {
    assert |firsts[e.email.key := e].Keys| == |firsts.Keys + {e.email.key}|;
  }

  lemma OneMoreCount(accounts: map<string, Account>, firsts: map<Text, Entry>, k: Text)
    requires k !in firsts
    ensures |MirrorSubs(accounts, firsts.Keys + {k})|
         == |MirrorSubs(accounts, firsts.Keys)| + |MirrorSubs(AccountsAfter(accounts, firsts, {}), {k})|
  {
    OneMoreMirror(accounts, firsts, {}, k);
    assert firsts.Keys + {} == firsts.Keys;
  }

  /** The elements of `s`, each once. */
  ghost predicate Listed(rows: seq<Text>, s: set<Text>) {
    && (forall k :: k in rows <==> k in s)
    && Distinct(rows)
  }

  ghost predicate Distinct(rows: seq<Text>) {
    forall i :: 0 <= i < |rows| ==> rows[i] !in rows[..i]
  }

  function RevokedForAll(accounts: map<string, Account>, rows: seq<Text>): map<string, Account> {
    if rows == [] then accounts
    else RevokedFor(RevokedForAll(accounts, rows[..|rows| - 1]), rows[|rows| - 1])
  }

  function RejectedAll(profiles: map<Text, Profile>, rows: seq<Text>): map<Text, Profile> {
    if rows == [] then profiles
    else
      var before, row := RejectedAll(profiles, rows[..|rows| - 1]), rows[|rows| - 1];
      if row in before then before[row := before[row].(status := Rejected)] else before
  }

  function RevokedCount(accounts: map<string, Account>, rows: seq<Text>): nat {
    if rows == [] then 0
    else
      var front, row := rows[..|rows| - 1], rows[|rows| - 1];
      RevokedCount(accounts, front) + |MirrorSubs(RevokedForAll(accounts, front), {row})|
  }

  function Elements(rows: seq<Text>): set<Text> {
    set k | k in rows
  }

  lemma DistinctFront(rows: seq<Text>)
    requires rows != [] && Distinct(rows)
    ensures var front, row := rows[..|rows| - 1], rows[|rows| - 1];
      Distinct(front) && Elements(rows) == Elements(front) + {row} && row !in Elements(front)
  {
    var front, row := rows[..|rows| - 1], rows[|rows| - 1];
    assert forall i :: 0 <= i < |front| ==> front[i] == rows[i] && front[..i] == rows[..i];
    assert rows == front + [row];
    assert rows[|front|] !in rows[..|front|];
  }

  lemma {:induction false} RevokingAll(accounts: map<string, Account>, firsts: map<Text, Entry>, rows: seq<Text>)
    requires Distinct(rows) && forall k :: k in Elements(rows) ==> k !in firsts
    ensures RevokedForAll(AccountsAfter(accounts, firsts, {}), rows) == AccountsAfter(accounts, firsts, Elements(rows))
    decreases |rows|
  {
    hide Distinct, RevokedFor, AccountsAfter;
    if rows == [] {
      assert Elements(rows) == {};
    } else {
      var front, row := rows[..|rows| - 1], rows[|rows| - 1];
      DistinctFront(rows);
      RevokingAll(accounts, firsts, front);
      RevokedAccount(accounts, firsts, Elements(front), row);
    }
  }

  lemma OneMoreRevoked(accounts: map<string, Account>, firsts: map<Text, Entry>, absent: set<Text>, k: Text)
    requires k !in firsts && k !in absent
    ensures |MirrorSubs(accounts, firsts.Keys + (absent + {k}))|
         == |MirrorSubs(accounts, firsts.Keys + absent)| + |MirrorSubs(AccountsAfter(accounts, firsts, absent), {k})|
  {
    OneMoreMirror(accounts, firsts, absent, k);
    assert firsts.Keys + (absent + {k}) == firsts.Keys + absent + {k};
  }

  lemma {:induction false} CountingAll(accounts: map<string, Account>, firsts: map<Text, Entry>, rows: seq<Text>)
    requires Distinct(rows) && forall k :: k in Elements(rows) ==> k !in firsts
    ensures |MirrorSubs(accounts, firsts.Keys)| + RevokedCount(AccountsAfter(accounts, firsts, {}), rows)
         == |MirrorSubs(accounts, firsts.Keys + Elements(rows))|
    ensures |Elements(rows)| == |rows|
    decreases |rows|
  {
    hide Distinct, MirrorSubs, AccountsAfter, RevokedForAll;
    if rows == [] {
      assert Elements(rows) == {};
      assert firsts.Keys + Elements(rows) == firsts.Keys;
    } else {
      var front, row := rows[..|rows| - 1], rows[|rows| - 1];
      DistinctFront(rows);
      CountingAll(accounts, firsts, front);
      RevokingAll(accounts, firsts, front);
      OneMoreRevoked(accounts, firsts, Elements(front), row);
    }
  }

  lemma {:induction false} RejectingAll(profiles: map<Text, Profile>, firsts: map<Text, Entry>, rows: seq<Text>)
    requires Distinct(rows) && forall k :: k in Elements(rows) ==> k in profiles && k !in firsts
    ensures RejectedAll(ProfilesAfter(profiles, firsts, {}), rows) == ProfilesAfter(profiles, firsts, Elements(rows))
    decreases |rows|
  {
    if rows == [] {
      assert Elements(rows) == {};
    } else {
      var front, row := rows[..|rows| - 1], rows[|rows| - 1];
      DistinctFront(rows);
      RejectingAll(profiles, firsts, front);
      RevokedProfile(profiles, firsts, Elements(front), row);
    }
  }

  lemma StagedAreAbsent(profiles: map<Text, Profile>, firsts: map<Text, Entry>)
    ensures Absent(ProfilesAfter(profiles, firsts, {}), firsts.Keys) == Absent(profiles, firsts.Keys)
  {
  }

  // The row-by-row loop has the effect of one update over all absent emails.
  lemma RejectionsAreAbsent(accounts: map<string, Account>, profiles: map<Text, Profile>, firsts: map<Text, Entry>, rows: seq<Text>)
    requires Listed(rows, Absent(ProfilesAfter(profiles, firsts, {}), firsts.Keys))
    ensures var absent, before := Absent(profiles, firsts.Keys), AccountsAfter(accounts, firsts, {});
      && RevokedForAll(before, rows) == AccountsAfter(accounts, firsts, absent)
      && RejectedAll(ProfilesAfter(profiles, firsts, {}), rows) == ProfilesAfter(profiles, firsts, absent)
      && |MirrorSubs(accounts, firsts.Keys)| + RevokedCount(before, rows) == |MirrorSubs(accounts, firsts.Keys + absent)|
      && |rows| == |absent|
  {
    StagedAreAbsent(profiles, firsts);
    assert Elements(rows) == Absent(profiles, firsts.Keys);
    RevokingAll(accounts, firsts, rows);
    CountingAll(accounts, firsts, rows);
    RejectingAll(profiles, firsts, rows);
  }

  // ---------------------------------------------------------------- the canonical form decides

  // Firsts is what its name says: the head of the entries of that email.
  lemma {:induction false} FirstsAreHeads(s: seq<Entry>, k: Text)
    ensures k in Firsts(s) <==> ByKey(s, k) != []
    ensures k in Firsts(s) ==> Firsts(s)[k] == ByKey(s, k)[0] && Firsts(s)[k].email.key == k
    decreases |s|
  {
    if s != [] {
      var front, e := s[..|s| - 1], s[|s| - 1];
      FirstsAreHeads(front, k);
      ByKeySnoc(front, e, k);
      assert s == front + [e];
    }
  }

  lemma {:induction false} ByKeySnoc(s: seq<Entry>, e: Entry, k: Text)
    ensures ByKey(s + [e], k) == ByKey(s, k) + (if e.email.key == k then [e] else [])
    ensures forall i :: 0 <= i < |ByKey(s, k)| ==> ByKey(s, k)[i].email.key == k
  {
    if s == [] {
      assert ByKey([e], k) == if e.email.key == k then [e] + ByKey([], k) else ByKey([], k);
    } else {
      ByKeySnoc(s[1..], e, k);
      assert (s + [e])[1..] == s[1..] + [e];
    }
  }

  lemma SortingKeepsFirsts(s: seq<Entry>)
    ensures Firsts(StableSort(s)) == Firsts(s)
    ensures |StableSort(s)| == |s|
  {
    forall k
      ensures k in Firsts(StableSort(s)) <==> k in Firsts(s)
      ensures k in Firsts(s) ==> Firsts(StableSort(s))[k] == Firsts(s)[k]
    {
      StableSortFacts(s, k);
      FirstsAreHeads(s, k);
      FirstsAreHeads(StableSort(s), k);
    }
    StableSortFacts(s, []);
    assert |multiset(StableSort(s))| == |multiset(s)|;
  }

  // What was signed is what takes effect: equal canonical forms change the tables alike and count
  // alike, whatever the order of the entries and however often an email repeats.
  lemma CanonicalDecidesEffect(db: Db, p: Payload, q: Payload)
    requires Canonical(p) == Canonical(q)
    ensures Ingested(db, p) == Ingested(db, q) && ResultOf(db, p) == ResultOf(db, q)
  {
    SortingKeepsFirsts(p.entries);
    SortingKeepsFirsts(q.entries);
    assert Canonical(p).issuedAt == p.issuedAt && Canonical(p).full == p.full && Canonical(p).kid == p.kid;
  }

  lemma CanonicalDecidesVerdict(p: Payload, q: Payload, signature: string, kids: set<string>,
                                valid: (string, Payload, string) -> bool)
    requires Canonical(p) == Canonical(q)
    ensures VerifySnapshot(Envelope(p, signature), kids, valid).Accepted?
       <==> VerifySnapshot(Envelope(q, signature), kids, valid).Accepted?
  {
    assert Canonical(p).version == p.version && Canonical(p).kid == p.kid;
    assert Canonical(q).version == q.version && Canonical(q).kid == q.kid;
  }

  // ---------------------------------------------------------------- convergence

  /** Everything delivered so far is older than `p`. */
  predicate NewerThanAll(kids: map<string, KidRow>, issuedAt: int) {
    forall k :: k in kids ==> kids[k].issuedAt < issuedAt
  }

  /** The emails staged as approved. */
  function ApprovedEmails(profiles: map<Text, Profile>): set<Text> {
    set k | k in profiles && profiles[k].status == Approved
  }

  function ApprovedFirsts(p: Payload): set<Text> {
    set k | k in Firsts(p.entries) && Firsts(p.entries)[k].status == Approved
  }

  // A full snapshot leaves staging approving exactly its approved first-per-email entries.
  lemma FullSnapshotDecidesApproval(db: Db, p: Payload)
    requires p.full && !Stale(db.kids, p.issuedAt)
    ensures ApprovedEmails(Ingested(db, p).profiles) == ApprovedFirsts(p)
    ensures forall k :: k in ApprovedFirsts(p) <==> exists i: nat :: FirstFor(p, k, i) && p.entries[i].status == Approved
    ensures forall k :: k in Firsts(p.entries) ==>
      k in Ingested(db, p).profiles && Ingested(db, p).profiles[k] == Staged(Firsts(p.entries)[k])
  {
    forall k
      ensures k in ApprovedFirsts(p) <==> exists i: nat :: FirstFor(p, k, i) && p.entries[i].status == Approved
    {
      FirstsName(p, k);
      hide FirstFor;
    }
    hide FirstFor;
  }

  // The per-kid rows remember the newest applied snapshot, whichever key signed it.
  lemma NewestIsRemembered(db: Db, p: Payload, t: int)
    ensures Stale(Ingested(db, p).kids, t) <==> Stale(db.kids, t) || t <= p.issuedAt
  {
    var kids := Ingested(db, p).kids;
    if !Stale(db.kids, p.issuedAt) {
      assert p.kid in kids && kids[p.kid].issuedAt == p.issuedAt;
      forall k | k in db.kids && t <= db.kids[k].issuedAt
        ensures Stale(kids, t)
      {
        assert k in kids;
      }
    }
  }
}
