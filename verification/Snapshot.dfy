/** Signed admission snapshots (snapshot.ts): preference, construction and canonical form. */
module Snapshot {
  import opened Prelude
  import opened Text

  datatype Status = Pending | Approved | Rejected | Suspended

  datatype Role = Admin | Member

  /** Instants are milliseconds since the epoch. */
  datatype Entry = Entry(
    email: Address, name: Option<Text>, status: Status, role: Role,
    createdAt: Option<int>, approvedAt: Option<int>)

  datatype Payload = Payload(version: nat, kid: string, issuedAt: int, full: bool, entries: seq<Entry>)

  /** A prod account row; `status` is None when it is none of the four known ones. */
  datatype SourceRow = SourceRow(
    email: Option<Address>, name: Option<Text>, status: Option<Status>, isAdmin: bool,
    createdAt: Option<int>, approvedAt: Option<int>)

  // ---------------------------------------------------------------- preference

  function TimeOrZero(t: Option<int>): int {
    if t.Some? then t.value else 0
  }

  function Rank(e: Entry): int {
    if e.status == Approved then 0 else 1
  }

  function NameOrEmpty(e: Entry): Text {
    if e.name.Some? then e.name.value else []
  }

  predicate IsPreferred(candidate: Entry, current: Entry) {
    if Rank(candidate) != Rank(current) then Rank(candidate) < Rank(current)
    else if TimeOrZero(candidate.approvedAt) != TimeOrZero(current.approvedAt) then
      TimeOrZero(candidate.approvedAt) > TimeOrZero(current.approvedAt)
    else if TimeOrZero(candidate.createdAt) != TimeOrZero(current.createdAt) then
      TimeOrZero(candidate.createdAt) > TimeOrZero(current.createdAt)
    else if candidate.email.text != current.email.text then Less(candidate.email.text, current.email.text)
    else Less(NameOrEmpty(candidate), NameOrEmpty(current))
  }

  /** The fields preference looks at. */
  datatype Compared = Compared(rank: int, approvedAt: int, createdAt: int, email: Text, name: Text)

  function ComparedOf(e: Entry): Compared {
    Compared(Rank(e), TimeOrZero(e.approvedAt), TimeOrZero(e.createdAt), e.email.text, NameOrEmpty(e))
  }

  // Preference is a strict weak order: irreflexive, asymmetric, transitive, and two entries are tied
  // exactly when their compared fields agree.
  lemma PreferenceIsStrictWeakOrder(a: Entry, b: Entry, c: Entry)
    ensures !IsPreferred(a, a)
    ensures IsPreferred(a, b) ==> !IsPreferred(b, a)
    ensures IsPreferred(a, b) && IsPreferred(b, c) ==> IsPreferred(a, c)
    ensures !IsPreferred(a, b) && !IsPreferred(b, a) <==> ComparedOf(a) == ComparedOf(b)
  {
    LessIsStrictTotal(NameOrEmpty(a), NameOrEmpty(a));
    LessIsStrictTotal(a.email.text, b.email.text);
    LessIsStrictTotal(NameOrEmpty(a), NameOrEmpty(b));
    if Less(a.email.text, b.email.text) && Less(b.email.text, c.email.text) {
      LessIsTransitive(a.email.text, b.email.text, c.email.text);
      LessIsStrictTotal(a.email.text, c.email.text);
    }
    if Less(NameOrEmpty(a), NameOrEmpty(b)) && Less(NameOrEmpty(b), NameOrEmpty(c)) {
      LessIsTransitive(NameOrEmpty(a), NameOrEmpty(b), NameOrEmpty(c));
    }
  }

  // Ties: what is not preferred to something tied with b is not preferred to b.
  lemma TiesAreNeutral(a: Entry, b: Entry, c: Entry)
    requires ComparedOf(b) == ComparedOf(c)
    ensures IsPreferred(a, b) == IsPreferred(a, c) && IsPreferred(b, a) == IsPreferred(c, a)
  {
  }

  // Beating an unbeaten entry beats everything it was not beaten by.
  lemma PreferenceIsNegativelyTransitive(a: Entry, b: Entry, c: Entry)
    requires IsPreferred(a, b) && !IsPreferred(c, b)
    ensures IsPreferred(a, c)
  {
    PreferenceIsStrictWeakOrder(c, a, b);
    PreferenceIsStrictWeakOrder(a, c, b);
    if ComparedOf(a) == ComparedOf(c) {
      TiesAreNeutral(b, a, c);
    }
  }

  // ---------------------------------------------------------------- sorting by normalised email

  predicate Sorted(s: seq<Entry>) {
    forall i, j :: 0 <= i < j < |s| ==> !Less(s[j].email.key, s[i].email.key)
  }

  predicate StrictlyAscending(s: seq<Entry>) {
    forall i, j :: 0 <= i < j < |s| ==> Less(s[i].email.key, s[j].email.key)
  }

  /** Inserts before the first entry that is not smaller, so an earlier equal stays earlier. */
  function Insert(e: Entry, s: seq<Entry>): seq<Entry> {
    if s == [] || !Less(s[0].email.key, e.email.key) then [e] + s
    else [s[0]] + Insert(e, s[1..])
  }

  /** Array.prototype.sort with compareAdmissionEmails: the stable sort by normalised email. */
  function StableSort(s: seq<Entry>): seq<Entry> {
    if s == [] then [] else Insert(s[0], StableSort(s[1..]))
  }

  /** The entries of one email, in order. */
  function ByKey(s: seq<Entry>, k: Text): seq<Entry> {
    if s == [] then []
    else if s[0].email.key == k then [s[0]] + ByKey(s[1..], k)
    else ByKey(s[1..], k)
  }

  lemma {:induction false} InsertKeeps(e: Entry, s: seq<Entry>)
    ensures multiset(Insert(e, s)) == multiset{e} + multiset(s)
  {
    if s != [] {
      if Less(s[0].email.key, e.email.key) {
        InsertKeeps(e, s[1..]);
      }
      assert s == [s[0]] + s[1..];
    }
  }

  lemma {:induction false} InsertIsStable(e: Entry, s: seq<Entry>, k: Text)
    ensures ByKey(Insert(e, s), k) == if e.email.key == k then [e] + ByKey(s, k) else ByKey(s, k)
  {
    if s == [] || !Less(s[0].email.key, e.email.key) {
      assert ([e] + s)[1..] == s;
    } else {
      InsertIsStable(e, s[1..], k);
      LessIsStrictTotal(s[0].email.key, e.email.key);
      assert ([s[0]] + Insert(e, s[1..]))[1..] == Insert(e, s[1..]);
    }
  }

  lemma {:induction false} InsertSorts(e: Entry, s: seq<Entry>)
    requires Sorted(s)
    ensures Sorted(Insert(e, s))
  {
    if s == [] {
    } else if !Less(s[0].email.key, e.email.key) {
      SortedCons(e, s);
    } else {
      InsertSorts(e, s[1..]);
      InsertKeeps(e, s[1..]);
      LessIsStrictTotal(s[0].email.key, e.email.key);
      var tail := Insert(e, s[1..]);
      if tail != [] {
        assert tail[0] in multiset(tail);
        assert tail[0] == e || tail[0] in s[1..];
        SortedCons(s[0], tail);
      }
    }
  }

  lemma SortedCons(e: Entry, s: seq<Entry>)
    requires Sorted(s) && s != [] && !Less(s[0].email.key, e.email.key)
    ensures Sorted([e] + s)
  {
    var r := [e] + s;
    forall i, j | 0 <= i < j < |r|
      ensures !Less(r[j].email.key, r[i].email.key)
    {
      if i == 0 && j > 1 {
        NotLessTrans(r[j].email.key, s[0].email.key, e.email.key);
      }
    }
  }

  lemma NotLessTrans(a: Text, b: Text, c: Text)
    requires (a == b || !Less(a, b)) && !Less(b, c)
    ensures !Less(a, c)
  {
    LessIsStrictTotal(a, b);
    LessIsStrictTotal(b, c);
    if a != b && b != c {
      LessIsTransitive(c, b, a);
      LessIsStrictTotal(c, a);
    }
  }

  // The sort is a sort, a permutation, and stable.
  lemma {:induction false} StableSortFacts(s: seq<Entry>, k: Text)
    ensures Sorted(StableSort(s))
    ensures multiset(StableSort(s)) == multiset(s)
    ensures ByKey(StableSort(s), k) == ByKey(s, k)
  {
    if s != [] {
      StableSortFacts(s[1..], k);
      InsertKeeps(s[0], StableSort(s[1..]));
      InsertIsStable(s[0], StableSort(s[1..]), k);
      InsertSorts(s[0], StableSort(s[1..]));
      assert s == [s[0]] + s[1..];
    }
  }

  // ---------------------------------------------------------------- construction

  predicate IsBlank(c: nat) {
    9 <= c <= 13 || c == 32 || c == 160 || c == 5760 || 8192 <= c <= 8202
    || c == 8232 || c == 8233 || c == 8239 || c == 8287 || c == 12288 || c == 65279
  }

  /** The pattern of isEmailLike: no blanks, one @ with text before it, and a dot inside the domain. */
  predicate IsEmailLike(t: Text) {
    exists i, j | 0 <= i < |t| && 0 <= j < |t| :: AtAndDot(t, i, j)
  }

  predicate AtAndDot(t: Text, i: int, j: int) {
    && 0 < i && i + 1 < j && j + 1 < |t| && t[i] == 64 && t[j] == 46
    && forall k :: 0 <= k < |t| && k != i ==> !IsBlank(t[k]) && t[k] != 64
  }

  /** Rows that reach the snapshot: a usable email and a known status. */
  predicate Usable(row: SourceRow) {
    row.email.Some? && IsEmailLike(row.email.value.text) && row.status.Some?
  }

  function EntryOf(row: SourceRow): Entry
    requires Usable(row)
  {
    Entry(row.email.value, if row.name.Some? && row.name.value != [] then row.name else None,
          row.status.value, if row.isAdmin then Admin else Member, row.createdAt, row.approvedAt)
  }

  /** Row `i` yields `e` and is beaten by it nowhere before: `e` is strictly preferred to every earlier rival. */
  ghost predicate FirstAt(e: Entry, rows: seq<SourceRow>, i: nat) {
    && i < |rows| && Usable(rows[i]) && EntryOf(rows[i]) == e
    && forall j :: 0 <= j < i && Usable(rows[j]) && EntryOf(rows[j]).email.key == e.email.key ==>
         IsPreferred(e, EntryOf(rows[j]))
  }

  /** `e` comes from the first usable row of its email that no usable row of that email beats. */
  ghost predicate Wins(e: Entry, rows: seq<SourceRow>) {
    && (exists i: nat :: FirstAt(e, rows, i))
    && (forall i :: 0 <= i < |rows| && Usable(rows[i]) && EntryOf(rows[i]).email.key == e.email.key ==>
          !IsPreferred(EntryOf(rows[i]), e))
  }

  /** What the emitter promises of the entries it builds. */
  ghost predicate Built(entries: seq<Entry>, rows: seq<SourceRow>) {
    && StrictlyAscending(entries)
    && (forall i :: 0 <= i < |entries| ==> Wins(entries[i], rows))
    && (forall i :: 0 <= i < |rows| && Usable(rows[i]) ==>
          exists j :: 0 <= j < |entries| && entries[j].email.key == EntryOf(rows[i]).email.key)
  }

  /** The Map of the loop: one winner per normalised email seen so far, under its key. */
  ghost predicate Winners(byEmail: map<Text, Entry>, rows: seq<SourceRow>) {
    && (forall k :: k in byEmail ==> byEmail[k].email.key == k && Wins(byEmail[k], rows))
    && (forall i :: 0 <= i < |rows| && Usable(rows[i]) ==> EntryOf(rows[i]).email.key in byEmail)
  }

  lemma KeepsWinning(w: Entry, rows: seq<SourceRow>, row: SourceRow)
    requires Wins(w, rows)
    requires Usable(row) && EntryOf(row).email.key == w.email.key ==> !IsPreferred(EntryOf(row), w)
    ensures Wins(w, rows + [row])
  {
    var i: nat :| FirstAt(w, rows, i);
    assert FirstAt(w, rows + [row], i);
  }

  lemma StartsWinning(e: Entry, rows: seq<SourceRow>, row: SourceRow)
    requires Usable(row) && EntryOf(row) == e
    requires forall i :: 0 <= i < |rows| && Usable(rows[i]) && EntryOf(rows[i]).email.key == e.email.key ==>
      IsPreferred(e, EntryOf(rows[i]))
    ensures Wins(e, rows + [row])
  {
    var all := rows + [row];
    assert FirstAt(e, all, |rows|);
    forall i | 0 <= i < |all| && Usable(all[i]) && EntryOf(all[i]).email.key == e.email.key
      ensures !IsPreferred(EntryOf(all[i]), e)
    {
      PreferenceIsStrictWeakOrder(e, EntryOf(all[i]), e);
    }
  }

  lemma WinnersStep(byEmail: map<Text, Entry>, rows: seq<SourceRow>, row: SourceRow, byEmail': map<Text, Entry>)
    requires Winners(byEmail, rows)
    requires !Usable(row) ==> byEmail' == byEmail
    requires Usable(row) ==>
      var e := EntryOf(row);
      var k := e.email.key;
      byEmail' == if k !in byEmail || IsPreferred(e, byEmail[k]) then byEmail[k := e] else byEmail
    ensures Winners(byEmail', rows + [row])
  {
    forall k | k in byEmail'
      ensures byEmail'[k].email.key == k && Wins(byEmail'[k], rows + [row])
    {
      if Usable(row) && k == EntryOf(row).email.key && (k !in byEmail || IsPreferred(EntryOf(row), byEmail[k])) {
        forall i | 0 <= i < |rows| && Usable(rows[i]) && EntryOf(rows[i]).email.key == k
          ensures IsPreferred(EntryOf(row), EntryOf(rows[i]))
        {
          assert k in byEmail;
          PreferenceIsNegativelyTransitive(EntryOf(row), byEmail[k], EntryOf(rows[i]));
        }
        StartsWinning(EntryOf(row), rows, row);
      } else {
        KeepsWinning(byEmail[k], rows, row);
      }
    }
  }

  // ---------------------------------------------------------------- what a snapshot holds, row by row

  /** An instant that is absent counts as the epoch. */
  function Instant(t: Option<int>): int {
    match t
    case None => 0
    case Some(ms) => ms
  }

  function NameText(name: Option<Text>): Text {
    match name
    case None => []
    case Some(text) => text
  }

  /** The white space of a pattern: tab to carriage return, the Unicode spaces, separators and the byte order mark. */
  predicate Blank(c: nat) {
    c in {9, 10, 11, 12, 13, 32, 160, 5760, 8192, 8193, 8194, 8195, 8196, 8197, 8198, 8199, 8200, 8201, 8202,
          8232, 8233, 8239, 8287, 12288, 65279}
  }

  lemma BlanksAreExact(c: nat)
    ensures IsBlank(c) <==> Blank(c)
  {
  }

  /** No blank and no @: what may stand around the @ and the dot. */
  predicate Atom(t: Text) {
    t != [] && forall i :: 0 <= i < |t| ==> t[i] != 64 && !Blank(t[i])
  }

  /** Something, an @, something, a dot, something. */
  ghost predicate EmailShaped(t: Text) {
    exists user: Text, host: Text, end: Text :: Atom(user) && Atom(host) && Atom(end) && t == user + [64] + host + [46] + end
  }

  /** A row with a usable email and a known status. */
  ghost predicate Eligible(row: SourceRow) {
    row.email.Some? && row.status.Some? && EmailShaped(row.email.value.text)
  }

  predicate Rivals(a: SourceRow, b: SourceRow) {
    a.email.Some? && b.email.Some? && a.email.value.key == b.email.value.key
  }

  /** The entry is for the email of the row. */
  predicate Named(row: SourceRow, e: Entry) {
    row.email.Some? && row.email.value.key == e.email.key
  }

  /** The entry is that row, column by column. */
  predicate Carries(e: Entry, row: SourceRow) {
    && row.email == Some(e.email) && row.status == Some(e.status)
    && (e.role == Admin <==> row.isAdmin)
    && e.createdAt == row.createdAt && e.approvedAt == row.approvedAt
    && (if e.name.Some? then row.name == e.name && e.name.value != [] else row.name in {None, Some([])})
  }

  /**
   The entry is at least as good as the row: approved before not approved, then the latest approval,
   then the latest creation, then the least address, then the least name.
   */
  predicate NoWorse(e: Entry, row: SourceRow) {
    && (row.status == Some(Approved) ==> e.status == Approved)
    && ((row.status == Some(Approved) <==> e.status == Approved) ==>
          && Instant(e.approvedAt) >= Instant(row.approvedAt)
          && (Instant(e.approvedAt) == Instant(row.approvedAt) ==>
                && Instant(e.createdAt) >= Instant(row.createdAt)
                && (Instant(e.createdAt) == Instant(row.createdAt) && row.email.Some? ==>
                      && !Less(row.email.value.text, e.email.text)
                      && (row.email.value.text == e.email.text ==> !Less(NameText(row.name), NameText(e.name))))))
  }

  /** The row agrees with the entry in everything that decides between rows. */
  predicate Ties(e: Entry, row: SourceRow) {
    && (row.status == Some(Approved) <==> e.status == Approved)
    && Instant(e.approvedAt) == Instant(row.approvedAt) && Instant(e.createdAt) == Instant(row.createdAt)
    && row.email.Some? && row.email.value.text == e.email.text && NameText(row.name) == NameText(e.name)
  }

  /** The entry is the first of the best rows of its email. */
  ghost predicate BestRow(e: Entry, rows: seq<SourceRow>, i: nat) {
    && i < |rows| && Eligible(rows[i]) && Carries(e, rows[i])
    && (forall j :: 0 <= j < |rows| && Eligible(rows[j]) && Rivals(rows[j], rows[i]) ==> NoWorse(e, rows[j]))
    && (forall j :: 0 <= j < i && Eligible(rows[j]) && Rivals(rows[j], rows[i]) ==> !Ties(e, rows[j]))
  }

  ghost predicate IsBest(e: Entry, rows: seq<SourceRow>) {
    exists i: nat :: BestRow(e, rows, i)
  }

  /** One entry for each email of an eligible row, ascending by email, each its first best row. */
  ghost predicate HoldsBestRows(entries: seq<Entry>, rows: seq<SourceRow>) {
    && (forall a, b :: 0 <= a < b < |entries| ==> Less(entries[a].email.key, entries[b].email.key))
    && (forall a :: 0 <= a < |entries| ==> IsBest(entries[a], rows))
    && (forall i :: 0 <= i < |rows| && Eligible(rows[i]) ==>
          exists a :: 0 <= a < |entries| && Named(rows[i], entries[a]))
  }

  lemma SliceIsAtom(t: Text, from: nat, to: nat)
    requires from < to <= |t| && forall k :: from <= k < to ==> !IsBlank(t[k]) && t[k] != 64
    ensures Atom(t[from..to])
  {
    forall k: nat | from <= k < to
      ensures !Blank(t[k])
    {
      BlanksAreExact(t[k]);
    }
    hide IsBlank, Blank;
  }

  lemma CutTwice(t: Text, i: nat, j: nat)
    requires i < j < |t|
    ensures t == t[..i] + [t[i]] + t[i + 1..j] + [t[j]] + t[j + 1..]
  {
  }

  lemma PiecesAreAtoms(t: Text, i: nat, j: nat)
    requires AtAndDot(t, i, j)
    ensures Atom(t[..i]) && Atom(t[i + 1..j]) && Atom(t[j + 1..])
  {
    SliceIsAtom(t, 0, i);
    SliceIsAtom(t, i + 1, j);
    SliceIsAtom(t, j + 1, |t|);
    assert t[0..i] == t[..i] && t[j + 1..|t|] == t[j + 1..];
    hide Atom, IsBlank;
  }

  lemma EmailLikeIsShaped(t: Text)
    requires IsEmailLike(t)
    ensures EmailShaped(t)
  {
    hide Atom;
    var i: nat, j: nat :| i < |t| && j < |t| && AtAndDot(t, i, j);
    PiecesAreAtoms(t, i, j);
    CutTwice(t, i, j);
    hide AtAndDot;
  }

  lemma ShapedParts(t: Text, user: Text, host: Text, end: Text)
    requires Atom(user) && Atom(host) && Atom(end) && t == user + [64] + host + [46] + end
    ensures IsEmailLike(t)
  {
    var i, j := |user|, |user| + 1 + |host|;
    forall k | 0 <= k < |t| && k != i
      ensures !IsBlank(t[k]) && t[k] != 64
    {
      BlanksAreExact(t[k]);
      hide IsBlank, Blank;
      assert t[k] == if k < i then user[k] else if k < j then host[k - i - 1] else if k == j then 46 else end[k - j - 1];
    }
    assert AtAndDot(t, i, j);
  }

  lemma ShapedIsEmailLike(t: Text)
    ensures IsEmailLike(t) <==> EmailShaped(t)
  {
    if IsEmailLike(t) {
      EmailLikeIsShaped(t);
    }
    if EmailShaped(t) {
      var user: Text, host: Text, end: Text :| Atom(user) && Atom(host) && Atom(end) && t == user + [64] + host + [46] + end;
      ShapedParts(t, user, host, end);
    }
  }

  lemma EligibleIsUsable(row: SourceRow)
    ensures Usable(row) <==> Eligible(row)
    ensures Usable(row) ==> Carries(EntryOf(row), row)
  {
    if row.email.Some? {
      ShapedIsEmailLike(row.email.value.text);
    }
    hide IsEmailLike, EmailShaped;
  }

  lemma UnbeatenIsNoWorse(e: Entry, row: SourceRow)
    requires Usable(row)
    ensures !IsPreferred(EntryOf(row), e) ==> NoWorse(e, row)
    ensures IsPreferred(e, EntryOf(row)) ==> !Ties(e, row)
  {
    LessIsStrictTotal(e.email.text, row.email.value.text);
    LessIsStrictTotal(NameText(e.name), NameText(row.name));
    hide IsEmailLike;
  }

  lemma WinnerIsBest(e: Entry, rows: seq<SourceRow>) returns (i: nat)
    requires Wins(e, rows)
    ensures BestRow(e, rows, i)
  {
    i :| FirstAt(e, rows, i);
    forall j | 0 <= j < |rows|
      ensures Usable(rows[j]) <==> Eligible(rows[j])
      ensures Usable(rows[j]) ==> Carries(EntryOf(rows[j]), rows[j])
      ensures Usable(rows[j]) && !IsPreferred(EntryOf(rows[j]), e) ==> NoWorse(e, rows[j])
      ensures Usable(rows[j]) && IsPreferred(e, EntryOf(rows[j])) ==> !Ties(e, rows[j])
    {
      EligibleIsUsable(rows[j]);
      if Usable(rows[j]) {
        UnbeatenIsNoWorse(e, rows[j]);
      }
    }
    hide Usable, Eligible, IsPreferred, NoWorse, Ties;
  }

  lemma BuiltHoldsBestRows(entries: seq<Entry>, rows: seq<SourceRow>)
    requires Built(entries, rows)
    ensures HoldsBestRows(entries, rows)
  {
    hide Wins, BestRow, Eligible, IsEmailLike;
    forall a | 0 <= a < |entries|
      ensures IsBest(entries[a], rows)
    {
      var i := WinnerIsBest(entries[a], rows);
      assert BestRow(entries[a], rows, i);
    }
    forall i | 0 <= i < |rows| && Eligible(rows[i])
      ensures exists a :: 0 <= a < |entries| && Named(rows[i], entries[a])
    {
      EligibleIsUsable(rows[i]);
      var a :| 0 <= a < |entries| && entries[a].email.key == EntryOf(rows[i]).email.key;
      assert Named(rows[i], entries[a]);
    }
  }

  method BuildAdmissionSnapshot(rows: seq<SourceRow>, kid: string, issuedAt: int, full: bool) returns (p: Payload)
    ensures p.version == 1 && p.kid == kid && p.issuedAt == issuedAt && p.full == full
    ensures Built(p.entries, rows) && HoldsBestRows(p.entries, rows)
  {
    var byEmail: map<Text, Entry> := map[];
    var order: seq<Text> := [];
    for i := 0 to |rows|
      invariant Winners(byEmail, rows[..i])
      invariant forall k :: k in byEmail <==> k in order
      invariant forall a, b :: 0 <= a < b < |order| ==> order[a] != order[b]
    {
      var row := rows[i];
      ghost var before := byEmail;
      if row.email.Some? && IsEmailLike(row.email.value.text) && row.status.Some? {
        var candidate := EntryOf(row);
        var norm := candidate.email.key;
        if norm !in byEmail {
          order := order + [norm];
          byEmail := byEmail[norm := candidate];
        } else if IsPreferred(candidate, byEmail[norm]) {
          byEmail := byEmail[norm := candidate];
        }
      }
      WinnersStep(before, rows[..i], row, byEmail);
      assert rows[..i] + [row] == rows[..i + 1];
    }
    assert rows[..|rows|] == rows;
    var values := seq(|order|, i requires 0 <= i < |order| => byEmail[order[i]]);
    p := Payload(1, kid, issuedAt, full, StableSort(values));
    ValuesWin(byEmail, order, values, rows);
    SortedWinners(order, values, rows);
    BuiltHoldsBestRows(p.entries, rows);
  }

  lemma ValuesWin(byEmail: map<Text, Entry>, order: seq<Text>, values: seq<Entry>, rows: seq<SourceRow>)
    requires Winners(byEmail, rows)
    requires forall k :: k in byEmail <==> k in order
    requires |values| == |order| && forall i :: 0 <= i < |order| ==> values[i] == byEmail[order[i]]
    ensures forall i :: 0 <= i < |values| ==> values[i].email.key == order[i] && Wins(values[i], rows)
    ensures forall i :: 0 <= i < |rows| && Usable(rows[i]) ==> EntryOf(rows[i]).email.key in Keys(values)
  {
    forall i | 0 <= i < |rows| && Usable(rows[i])
      ensures EntryOf(rows[i]).email.key in Keys(values)
    {
      var n :| 0 <= n < |order| && order[n] == EntryOf(rows[i]).email.key;
      assert values[n] in values;
    }
  }

  lemma SortedWinners(order: seq<Text>, values: seq<Entry>, rows: seq<SourceRow>)
    requires forall a, b :: 0 <= a < b < |order| ==> order[a] != order[b]
    requires |values| == |order|
    requires forall i :: 0 <= i < |values| ==> values[i].email.key == order[i] && Wins(values[i], rows)
    requires forall i :: 0 <= i < |rows| && Usable(rows[i]) ==> EntryOf(rows[i]).email.key in Keys(values)
    ensures Built(StableSort(values), rows)
  {
    StableSortFacts(values, []);
    SameMembers(values, StableSort(values));
    SortedDistinct(order, values);
    AllBuilt(values, StableSort(values), rows);
  }

  function Keys(s: seq<Entry>): set<Text> {
    set e | e in s :: e.email.key
  }

  lemma AllBuilt(values: seq<Entry>, s: seq<Entry>, rows: seq<SourceRow>)
    requires StrictlyAscending(s) && forall e :: e in values <==> e in s
    requires forall e :: e in values ==> Wins(e, rows)
    requires forall i :: 0 <= i < |rows| && Usable(rows[i]) ==> EntryOf(rows[i]).email.key in Keys(values)
    ensures Built(s, rows)
  {
    forall i | 0 <= i < |s|
      ensures Wins(s[i], rows)
    {
      assert s[i] in s;
    }
    forall i | 0 <= i < |rows| && Usable(rows[i])
      ensures exists j :: 0 <= j < |s| && s[j].email.key == EntryOf(rows[i]).email.key
    {
      var e :| e in values && e.email.key == EntryOf(rows[i]).email.key;
      assert e in s;
    }
  }

  lemma SortedDistinct(order: seq<Text>, values: seq<Entry>)
    requires forall a, b :: 0 <= a < b < |order| ==> order[a] != order[b]
    requires |values| == |order| && forall i :: 0 <= i < |order| ==> values[i].email.key == order[i]
    ensures StrictlyAscending(StableSort(values))
  {
    var s := StableSort(values);
    forall i, j | 0 <= i < j < |s|
      ensures Less(s[i].email.key, s[j].email.key)
    {
      var k := s[i].email.key;
      StableSortFacts(values, k);
      OncePerKey(order, values, k);
      if s[j].email.key == k {
        TwiceByKey(s, i, j);
      }
      LessIsStrictTotal(k, s[j].email.key);
    }
  }

  lemma SameMembers(a: seq<Entry>, b: seq<Entry>)
    requires multiset(a) == multiset(b)
    ensures forall e :: e in a <==> e in b
  {
    forall e
      ensures e in a <==> e in b
    {
      assert e in a <==> e in multiset(a);
      assert e in b <==> e in multiset(b);
    }
  }

  lemma {:induction false} TwiceByKey(s: seq<Entry>, i: nat, j: nat)
    requires i < j < |s| && s[i].email.key == s[j].email.key
    ensures |ByKey(s, s[i].email.key)| >= 2
  {
    if i > 0 {
      TwiceByKey(s[1..], i - 1, j - 1);
    } else {
      OnceByKey(s[1..], j - 1);
    }
  }

  lemma {:induction false} OnceByKey(s: seq<Entry>, j: nat)
    requires j < |s|
    ensures |ByKey(s, s[j].email.key)| >= 1
  {
    if j > 0 {
      OnceByKey(s[1..], j - 1);
    }
  }

  lemma {:induction false} OncePerKey(order: seq<Text>, values: seq<Entry>, k: Text)
    requires forall a, b :: 0 <= a < b < |order| ==> order[a] != order[b]
    requires |values| == |order| && forall i :: 0 <= i < |order| ==> values[i].email.key == order[i]
    ensures |ByKey(values, k)| <= 1
    ensures k !in order ==> ByKey(values, k) == []
  {
    if values != [] {
      OncePerKey(order[1..], values[1..], k);
    }
  }

  // The emitter's promise determines the entries: there is only one such sequence.
  lemma WinnerIsUnique(e: Entry, f: Entry, rows: seq<SourceRow>)
    requires Wins(e, rows) && Wins(f, rows) && e.email.key == f.email.key
    ensures e == f
  {
    var i: nat :| FirstAt(e, rows, i);
    var j: nat :| FirstAt(f, rows, j);
    assert !IsPreferred(EntryOf(rows[i]), f) && !IsPreferred(EntryOf(rows[j]), e);
  }

  /** Some entry of `f` has the email and the compared fields of `e`. */
  ghost predicate Matched(e: Entry, f: seq<Entry>) {
    exists j :: 0 <= j < |f| && f[j].email.key == e.email.key && ComparedOf(f[j]) == ComparedOf(e)
  }

  // Permuting the source rows changes no email of the snapshot and no winner's compared fields.
  lemma BuildIgnoresRowOrder(e: seq<Entry>, rows: seq<SourceRow>, f: seq<Entry>, permuted: seq<SourceRow>)
    requires Built(e, rows) && Built(f, permuted) && multiset(rows) == multiset(permuted)
    ensures forall i :: 0 <= i < |e| ==> Matched(e[i], f)
    ensures forall j :: 0 <= j < |f| ==> Matched(f[j], e)
  {
    forall i | 0 <= i < |e| {
      WinnerMatched(e[i], rows, f, permuted);
    }
    forall j | 0 <= j < |f| {
      WinnerMatched(f[j], permuted, e, rows);
    }
  }

  lemma WinnerMatched(e: Entry, rows: seq<SourceRow>, f: seq<Entry>, permuted: seq<SourceRow>)
    requires Wins(e, rows) && Built(f, permuted) && multiset(rows) == multiset(permuted)
    ensures Matched(e, f)
  {
    var a := RowOf(e, rows, permuted);
    var j :| 0 <= j < |f| && f[j].email.key == EntryOf(permuted[a]).email.key;
    var b := RowOf(f[j], permuted, rows);
    assert !IsPreferred(EntryOf(permuted[a]), f[j]) && !IsPreferred(EntryOf(rows[b]), e);
    PreferenceIsStrictWeakOrder(e, f[j], e);
  }

  lemma RowOf(e: Entry, rows: seq<SourceRow>, permuted: seq<SourceRow>) returns (n: nat)
    requires Wins(e, rows) && multiset(rows) == multiset(permuted)
    ensures n < |permuted| && Usable(permuted[n]) && EntryOf(permuted[n]) == e
  {
    var i: nat :| FirstAt(e, rows, i);
    assert rows[i] in multiset(rows);
    assert rows[i] in permuted;
    n :| 0 <= n < |permuted| && permuted[n] == rows[i];
  }

  // ---------------------------------------------------------------- when the order of rows matters

  /** A usable row that no usable row of its email is preferred to. */
  ghost predicate Top(rows: seq<SourceRow>, i: nat) {
    && i < |rows| && Usable(rows[i])
    && forall j :: 0 <= j < |rows| && Usable(rows[j]) && EntryOf(rows[j]).email.key == EntryOf(rows[i]).email.key ==>
         !IsPreferred(EntryOf(rows[j]), EntryOf(rows[i]))
  }

  /** The unbeaten rows of each email all carry the same entry. */
  ghost predicate TopsAgree(rows: seq<SourceRow>) {
    forall i: nat, j: nat :: Top(rows, i) && Top(rows, j) && EntryOf(rows[i]).email.key == EntryOf(rows[j]).email.key ==>
      EntryOf(rows[i]) == EntryOf(rows[j])
  }

  predicate Permuted(a: seq<SourceRow>, rows: seq<SourceRow>) {
    multiset(a) == multiset(rows)
  }

  /** Whatever order the rows come in, the snapshot is the same. */
  ghost predicate OrderFree(rows: seq<SourceRow>) {
    forall a, b, e, f :: Permuted(a, rows) && Permuted(b, rows) && Built(e, a) && Built(f, b) ==> e == f
  }

  // Exactly when: the snapshot of any list of rows is independent of their order if and only if, for
  // each email, the rows that no other beats carry one entry. Role, and the status of rows that are
  // not approved, are not compared, so they may differ.
  lemma RowOrderMatters(rows: seq<SourceRow>)
    ensures OrderFree(rows) <==> TopsAgree(rows)
  {
    if TopsAgree(rows) {
      forall a, b, e, f | Permuted(a, rows) && Permuted(b, rows) && Built(e, a) && Built(f, b)
        ensures e == f
      {
        SameEntries(rows, a, e, b, f);
        SameEntries(rows, b, f, a, e);
        AscendingUnique(e, f);
      }
    }
    if OrderFree(rows) {
      forall i: nat, j: nat | Top(rows, i) && Top(rows, j) && EntryOf(rows[i]).email.key == EntryOf(rows[j]).email.key
        ensures EntryOf(rows[i]) == EntryOf(rows[j])
      {
        var a, e, m := TopFirst(rows, i);
        var b, f, n := TopFirst(rows, j);
        assert e == f;
        OnePerEmail(e, m, n);
      }
    }
  }

  lemma OnePerEmail(e: seq<Entry>, m: nat, n: nat)
    requires StrictlyAscending(e) && m < |e| && n < |e| && e[m].email.key == e[n].email.key
    ensures m == n
  {
    LessIsStrictTotal(e[m].email.key, e[n].email.key);
  }

  lemma SameEntries(rows: seq<SourceRow>, a: seq<SourceRow>, e: seq<Entry>, b: seq<SourceRow>, f: seq<Entry>)
    requires TopsAgree(rows) && Permuted(a, rows) && Permuted(b, rows) && Built(e, a) && Built(f, b)
    ensures forall x :: x in e ==> x in f
  {
    forall i | 0 <= i < |e|
      ensures e[i] in f
    {
      var m := TopOf(e[i], a, rows);
      var n := RowOf(e[i], a, b);
      var j :| 0 <= j < |f| && f[j].email.key == EntryOf(b[n]).email.key;
      var o := TopOf(f[j], b, rows);
      assert EntryOf(rows[m]) == EntryOf(rows[o]);
    }
  }

  // A winner of any order is a top row.
  lemma TopOf(e: Entry, a: seq<SourceRow>, rows: seq<SourceRow>) returns (n: nat)
    requires Wins(e, a) && Permuted(a, rows)
    ensures Top(rows, n) && EntryOf(rows[n]) == e
  {
    n := RowOf(e, a, rows);
    forall j | 0 <= j < |rows| && Usable(rows[j]) && EntryOf(rows[j]).email.key == e.email.key
      ensures !IsPreferred(EntryOf(rows[j]), e)
    {
      assert rows[j] in multiset(rows);
      assert rows[j] in a;
      var k :| 0 <= k < |a| && a[k] == rows[j];
    }
  }

  function ToFront(rows: seq<SourceRow>, i: nat): seq<SourceRow>
    requires i < |rows|
  {
    [rows[i]] + rows[..i] + rows[i + 1..]
  }

  lemma ToFrontPermutes(rows: seq<SourceRow>, i: nat)
    requires i < |rows|
    ensures Permuted(ToFront(rows, i), rows)
    ensures forall x :: x in ToFront(rows, i) <==> x in rows
  {
    assert rows == rows[..i] + [rows[i]] + rows[i + 1..];
  }

  // Moved to the front, a top row wins its email.
  lemma TopFirst(rows: seq<SourceRow>, i: nat) returns (a: seq<SourceRow>, e: seq<Entry>, m: nat)
    requires Top(rows, i)
    ensures Permuted(a, rows) && Built(e, a) && m < |e| && e[m] == EntryOf(rows[i])
  {
    a := ToFront(rows, i);
    ToFrontPermutes(rows, i);
    assert a[0] == rows[i];
    hide ToFront, Permuted, Built, IsPreferred;
    var entry := EntryOf(rows[i]);
    assert FirstAt(entry, a, 0);
    forall j | 0 <= j < |a| && Usable(a[j]) && EntryOf(a[j]).email.key == entry.email.key
      ensures !IsPreferred(EntryOf(a[j]), entry)
    {
      assert a[j] in rows;
      var k :| 0 <= k < |rows| && rows[k] == a[j];
    }
    e := SnapshotExists(a);
    m := EntryFor(e, a, 0);
    WinnerIsUnique(e[m], entry, a);
  }

  lemma EntryFor(e: seq<Entry>, a: seq<SourceRow>, i: nat) returns (m: nat)
    requires Built(e, a) && i < |a| && Usable(a[i])
    ensures m < |e| && e[m].email.key == EntryOf(a[i]).email.key && Wins(e[m], a)
  {
    m :| 0 <= m < |e| && e[m].email.key == EntryOf(a[i]).email.key;
  }

  lemma {:induction false} AscendingUnique(e: seq<Entry>, f: seq<Entry>)
    requires StrictlyAscending(e) && StrictlyAscending(f) && forall x :: x in e <==> x in f
    ensures e == f
    decreases |e|
  {
    if e != [] && f != [] {
      HeadIsLeast(e, f);
      HeadIsLeast(f, e);
      LessIsStrictTotal(e[0].email.key, f[0].email.key);
      assert e == [e[0]] + e[1..] && f == [f[0]] + f[1..];
      HeadIsApart(e);
      HeadIsApart(f);
      forall x ensures x in e[1..] <==> x in f[1..] {
        assert x in e <==> x == e[0] || x in e[1..];
        assert x in f <==> x == f[0] || x in f[1..];
      }
      AscendingUnique(e[1..], f[1..]);
    } else {
      HasMember(e);
      HasMember(f);
    }
  }

  lemma HasMember(e: seq<Entry>)
    ensures e != [] ==> exists x :: x in e
  {
    assert e != [] ==> e[0] in e;
  }

  lemma HeadIsLeast(e: seq<Entry>, f: seq<Entry>)
    requires StrictlyAscending(f) && e != [] && f != [] && e[0] in f
    ensures e[0] == f[0] || Less(f[0].email.key, e[0].email.key)
  {
  }

  lemma HeadIsApart(e: seq<Entry>)
    requires StrictlyAscending(e) && e != []
    ensures e[0] !in e[1..]
  {
    forall i | 0 <= i < |e[1..]| ensures e[1..][i] != e[0] {
      LessIsStrictTotal(e[0].email.key, e[i + 1].email.key);
    }
  }

  // Every list of rows has a snapshot.
  lemma SnapshotExists(rows: seq<SourceRow>) returns (e: seq<Entry>)
    ensures Built(e, rows)
  {
    var byEmail := WinnersExist(rows);
    var order := Enumerated(byEmail.Keys);
    var values := seq(|order|, i requires 0 <= i < |order| => byEmail[order[i]]);
    ValuesWin(byEmail, order, values, rows);
    SortedWinners(order, values, rows);
    e := StableSort(values);
  }

  lemma {:induction false} WinnersExist(rows: seq<SourceRow>) returns (byEmail: map<Text, Entry>)
    ensures Winners(byEmail, rows)
    decreases |rows|
  {
    byEmail := map[];
    if rows != [] {
      var front, row := rows[..|rows| - 1], rows[|rows| - 1];
      var before := WinnersExist(front);
      byEmail := before;
      if Usable(row) && (EntryOf(row).email.key !in before || IsPreferred(EntryOf(row), before[EntryOf(row).email.key])) {
        byEmail := before[EntryOf(row).email.key := EntryOf(row)];
      }
      WinnersStep(before, front, row, byEmail);
      assert rows == front + [row];
    }
  }

  lemma {:induction false} Enumerated(keys: set<Text>) returns (order: seq<Text>)
    ensures forall k :: k in keys <==> k in order
    ensures forall a, b :: 0 <= a < b < |order| ==> order[a] != order[b]
    decreases keys
  {
    order := [];
    if keys != {} {
      var k :| k in keys;
      var rest := Enumerated(keys - {k});
      order := [k] + rest;
    }
  }

  function Better(current: Entry, candidate: Entry): Entry {
    if IsPreferred(candidate, current) then candidate else current
  }

  // Two rows of one email: the order of arrival shows exactly when their entries differ although all
  // compared fields agree.
  lemma TwoRowsOfOneEmail(a: SourceRow, b: SourceRow)
    requires Usable(a) && Usable(b) && EntryOf(a).email.key == EntryOf(b).email.key
    ensures var e, f := EntryOf(a), EntryOf(b);
      && Built([Better(e, f)], [a, b]) && Built([Better(f, e)], [b, a])
      && (Better(e, f) == Better(f, e) <==> ComparedOf(e) != ComparedOf(f) || e == f)
  {
    var e, f := EntryOf(a), EntryOf(b);
    PreferenceIsStrictWeakOrder(e, f, e);
    PreferenceIsStrictWeakOrder(f, e, f);
    assert FirstAt(Better(e, f), [a, b], if IsPreferred(f, e) then 1 else 0);
    assert FirstAt(Better(f, e), [b, a], if IsPreferred(e, f) then 1 else 0);
    assert [Better(e, f)][0].email.key == e.email.key && [Better(f, e)][0].email.key == e.email.key;
  }

  // ---------------------------------------------------------------- canonical form

  /** The fields the signature covers, in signing order; serialisation to bytes is injective on them. */
  function Canonical(p: Payload): Payload {
    p.(entries := StableSort(p.entries))
  }

  // Signing what was built and re-deriving the canonical form on arrival agree.
  lemma {:induction false} SortedIsCanonical(s: seq<Entry>)
    requires Sorted(s)
    ensures StableSort(s) == s
  {
    if s != [] {
      SortedIsCanonical(s[1..]);
      if |s| > 1 {
        assert !Less(s[1].email.key, s[0].email.key);
      }
      assert s == [s[0]] + s[1..];
    }
  }
}
