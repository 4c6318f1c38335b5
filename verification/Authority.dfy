/**
 The authority seam (reader-profile.ts): a timeline of states whose answers are fenced by a
 version that changes on every relevant update and is never reused.
 */
module Authority {
  import opened Prelude

  datatype Capability = GeoRead | SignalsProtectedRead

  datatype Profile = Profile(name: string, policyRevision: string, capabilities: set<Capability>)

  datatype ReleaseRef = ReleaseRef(artifactId: string, releaseId: string, authorSub: string)

  datatype Rights = Rights(readerSub: string, artifactId: string, approved: bool, capabilities: set<Capability>)

  /** Arguments of getAuthorizationVersion: the reader and the release are optional. */
  datatype Query = Query(artifactId: string, readerSub: Option<string>, releaseId: Option<string>)

  /** One state of the authority, and the session ids revoked so far; in effect from `since` (ms). */
  datatype World = World(
    versions: map<Query, string>,
    releases: map<(string, Option<string>), ReleaseRef>,
    profiles: map<string, Profile>,
    rights: map<(string, string), Rights>,
    revoked: set<string>,
    since: real)

  /** A version the callers act on: absent and empty answers both refuse. */
  function VersionOf(w: World, q: Query): Option<string> {
    if q in w.versions && w.versions[q] != "" then Some(w.versions[q]) else None
  }

  function ReleaseOf(w: World, artifactId: string, releaseId: Option<string>): Option<ReleaseRef> {
    Get(w.releases, (artifactId, releaseId))
  }

  function ProfileOf(w: World, artifactId: string): Option<Profile> {
    Get(w.profiles, artifactId)
  }

  function RightsOf(w: World, readerSub: string, artifactId: string): Option<Rights> {
    Get(w.rights, (readerSub, artifactId))
  }

  datatype Answers = Answers(release: Option<ReleaseRef>, profile: Option<Profile>, rights: Option<Rights>)

  /** Everything the version of `q` covers. */
  function AnswersFor(w: World, q: Query): Answers {
    Answers(
      ReleaseOf(w, q.artifactId, q.releaseId),
      ProfileOf(w, q.artifactId),
      if q.readerSub.Some? then RightsOf(w, q.readerSub.value, q.artifactId) else None)
  }

  /** An update that changes a covered answer changes the version. */
  ghost predicate ChangesWithAnswers(tl: seq<World>) {
    forall q, i, j {:trigger VersionOf(tl[i], q), VersionOf(tl[j], q)} ::
      0 <= i < |tl| && j == i + 1 && j < |tl|
      && VersionOf(tl[i], q).Some? && VersionOf(tl[j], q) == VersionOf(tl[i], q)
      ==> AnswersFor(tl[j], q) == AnswersFor(tl[i], q)
  }

  /** A version that was left never comes back, not even after a rollback. */
  ghost predicate NeverReused(tl: seq<World>) {
    forall q, i, j, k {:trigger VersionOf(tl[i], q), VersionOf(tl[j], q), VersionOf(tl[k], q)} ::
      0 <= i <= j <= k < |tl|
      && VersionOf(tl[i], q).Some? && VersionOf(tl[k], q) == VersionOf(tl[i], q)
      ==> VersionOf(tl[j], q) == VersionOf(tl[i], q)
  }

  ghost predicate Forward(tl: seq<World>) {
    forall i, j {:trigger tl[i], tl[j]} :: 0 <= i <= j < |tl|
      ==> tl[i].since <= tl[j].since && tl[i].revoked <= tl[j].revoked
  }

  /** The contract the readers rely on. */
  ghost predicate Timeline(tl: seq<World>) {
    ChangesWithAnswers(tl) && NeverReused(tl) && Forward(tl)
  }

  // Fenced read: two equal versions mean that nothing they cover changed in between.
  lemma {:induction false} FencedRead(tl: seq<World>, q: Query, i: nat, k: nat)
    requires Timeline(tl) && i <= k < |tl|
    requires VersionOf(tl[i], q).Some? && VersionOf(tl[k], q) == VersionOf(tl[i], q)
    ensures forall j :: i <= j <= k ==> VersionOf(tl[j], q) == VersionOf(tl[i], q)
    ensures forall j :: i <= j <= k ==> AnswersFor(tl[j], q) == AnswersFor(tl[i], q)
    decreases k - i
  {
    if i < k {
      assert VersionOf(tl[k - 1], q) == VersionOf(tl[i], q);
      FencedRead(tl, q, i, k - 1);
    }
  }

  /** Version `u` was in force at some moment before `v`, a different version. */
  ghost predicate Older(tl: seq<World>, q: Query, u: string, v: string) {
    u != v && exists a, b :: 0 <= a < b < |tl| && VersionOf(tl[a], q) == Some(u) && VersionOf(tl[b], q) == Some(v)
  }

  // Versions in force are strictly ordered: seen u at i and v at a later j, v is never the older one.
  lemma NotOlder(tl: seq<World>, q: Query, u: string, i: nat, v: string, j: nat)
    requires Timeline(tl) && i <= j < |tl|
    requires VersionOf(tl[i], q) == Some(u) && VersionOf(tl[j], q) == Some(v)
    ensures !Older(tl, q, v, u)
  {
  }
}
