/**
 Reader grants (preview-grant.ts) and the three read-only clients of the version fence:
 renewal (preview-renewal.ts), reader adaptation (reader-context.ts) and ticket exchange
 (preview-exchange.ts). They write no shared state, so an interleaving with the authority is
 fully given by the moments at which their reads complete.
 */
module Grants {
  import opened Prelude
  import opened Authority

  const TTL_SECONDS := 55
  const MAX_TOKEN_LENGTH := 4096

  datatype Issuer = Issuer(issuer: string, audience: string, tier: string)

  /** The claims every grant is bound to, besides issuer and audience. */
  datatype Field =
    | Tier | Host | ArtifactId | ReleaseId | ReaderSub | SessionId
    | ProfileName | PolicyRevision | ProfileFingerprint

  /** The optional basketScope claim: absent, `true`, or anything else. */
  datatype Basket = Absent | True | Other

  /** A compact JWT. `authentic` abstracts the HS256 signature check; times are NumericDate seconds. */
  datatype Token = Token(
    authentic: bool, length: nat, issuer: string, audience: string,
    iat: Option<int>, exp: Option<int>, sub: Option<string>,
    claims: map<Field, string>, basket: Basket)

  /** A verified grant always carries all nine claims. */
  datatype Grant = Grant(issuer: string, audience: string, claims: map<Field, string>, basket: bool)

  datatype Verified = Verified(grant: Grant, expiresAtMs: int)

  predicate Complete(claims: map<Field, string>) {
    forall f: Field :: f in claims
  }

  /** Seconds of a clock reading in milliseconds. */
  function Seconds(ms: real): int {
    (ms / 1000.0).Floor
  }

  /** jwtVerify: signature, issuer, audience, required claims, expiry and maximum age. */
  predicate JwtAccepts(t: Token, issuer: string, audience: string, nowMs: real) {
    var now := Seconds(nowMs);
    && t.authentic && t.issuer == issuer && t.audience == audience
    && t.exp.Some? && t.iat.Some? && t.sub.Some?
    && now < t.exp.value
    && t.iat.value <= now <= t.iat.value + TTL_SECONDS
  }

  /** `bound` holds the claims the caller insists on; the tier is always one of them. */
  function VerifyGrant(t: Token, expected: Issuer, bound: map<Field, string>, nowMs: real): Option<Verified> {
    if t.length > MAX_TOKEN_LENGTH || !JwtAccepts(t, expected.issuer, expected.audience, nowMs) then None
    else if t.exp.value <= t.iat.value || t.exp.value - t.iat.value > TTL_SECONDS then None
    else if t.sub != Get(t.claims, ReaderSub) then None
    else if Get(t.claims, Tier) != Some(expected.tier) then None
    else if exists f: Field :: f in bound && Get(t.claims, f) != Some(bound[f]) then None
    else if !Complete(t.claims) then None
    else if t.basket == Other then None
    else Some(Verified(Grant(expected.issuer, expected.audience, t.claims, t.basket == True), t.exp.value * 1000))
  }

  /** `sizeOf` abstracts the serialised length; minting throws (None) above the header budget. */
  function MintGrant(g: Grant, sizeOf: (Grant, int) -> nat, nowMs: real): Option<Token>
    requires Complete(g.claims)
  {
    var issuedAt := Seconds(nowMs);
    var length := sizeOf(g, issuedAt);
    if length > MAX_TOKEN_LENGTH then None
    else Some(Token(true, length, g.issuer, g.audience, Some(issuedAt), Some(issuedAt + TTL_SECONDS),
                    Some(g.claims[ReaderSub]), g.claims, if g.basket then True else Absent))
  }

  // A minted grant verifies from the second it was issued, for exactly 55 seconds, and then carries
  // exactly the claims it was minted with.
  lemma MintedLifetime(g: Grant, sizeOf: (Grant, int) -> nat, mintedMs: real, expected: Issuer,
                       bound: map<Field, string>, nowMs: real)
    requires Complete(g.claims) && MintGrant(g, sizeOf, mintedMs).Some?
    ensures var v := VerifyGrant(MintGrant(g, sizeOf, mintedMs).value, expected, bound, nowMs);
      && (v.Some? <==>
           && g.issuer == expected.issuer && g.audience == expected.audience && g.claims[Tier] == expected.tier
           && (forall f: Field :: f in bound ==> g.claims[f] == bound[f])
           && Seconds(mintedMs) <= Seconds(nowMs) < Seconds(mintedMs) + TTL_SECONDS)
      && (v.Some? ==> v.value == Verified(g, (Seconds(mintedMs) + TTL_SECONDS) * 1000))
  {
    var t := MintGrant(g, sizeOf, mintedMs).value;
    forall f: Field
      ensures Get(t.claims, f) == Some(g.claims[f])
    {
    }
  }

  /** The token carries the claim with that value. */
  predicate Claims(t: Token, f: Field, value: string) {
    f in t.claims && t.claims[f] == value
  }

  // Exactly which tokens verify. The age limit adds nothing: an expiry after now, at most 55 seconds
  // after an issue that is not in the future, implies it.
  lemma VerifiedExactly(t: Token, expected: Issuer, bound: map<Field, string>, nowMs: real)
    ensures VerifyGrant(t, expected, bound, nowMs).Some? <==>
      && t.authentic && t.length <= 4096
      && t.issuer == expected.issuer && t.audience == expected.audience && Claims(t, Tier, expected.tier)
      && t.iat.Some? && t.exp.Some? && t.sub.Some? && Claims(t, ReaderSub, t.sub.value)
      && t.iat.value <= (nowMs / 1000.0).Floor < t.exp.value <= t.iat.value + 55
      && (forall f: Field :: f in t.claims) && (forall f: Field :: f in bound ==> Claims(t, f, bound[f]))
      && t.basket != Other
    ensures VerifyGrant(t, expected, bound, nowMs).Some? ==>
      VerifyGrant(t, expected, bound, nowMs).value
      == Verified(Grant(t.issuer, t.audience, t.claims, t.basket == True), t.exp.value * 1000)
  {
  }

  // ---------------------------------------------------------------- moments

  /** A clock reading (ms) together with the authority state in effect. */
  datatype Moment = Moment(index: nat, at: real)

  predicate On(tl: seq<World>, m: Moment) {
    m.index < |tl| && tl[m.index].since <= m.at && (m.index + 1 < |tl| ==> m.at <= tl[m.index + 1].since)
  }

  predicate Before(m: Moment, n: Moment) {
    m.index <= n.index && m.at <= n.at
  }

  /** Moments of one call, in the order of its awaits. */
  ghost predicate InOrder(tl: seq<World>, ms: seq<Moment>) {
    && (forall i :: 0 <= i < |ms| ==> On(tl, ms[i]))
    && (forall i, j :: 0 <= i <= j < |ms| ==> Before(ms[i], ms[j]))
  }

  /** Fingerprint of an approved profile: `digest` abstracts SHA-256 over the three fields. */
  type Digest = (string, string, set<Capability>) -> string

  function Fingerprint(digest: Digest, p: Profile): string {
    digest(p.name, p.policyRevision, p.capabilities)
  }

  // ---------------------------------------------------------------- the checks on one state

  /** What the claims say about the authority: shared by grants and tickets. */
  datatype Binding = Binding(
    artifactId: string, releaseId: string, readerSub: string,
    profileName: string, policyRevision: string, profileFingerprint: string)

  function BindingOf(claims: map<Field, string>): Binding
    requires Complete(claims)
  {
    Binding(claims[ArtifactId], claims[ReleaseId], claims[ReaderSub],
            claims[ProfileName], claims[PolicyRevision], claims[ProfileFingerprint])
  }

  function FenceOf(b: Binding): Query {
    Query(b.artifactId, Some(b.readerSub), Some(b.releaseId))
  }

  predicate RightsApprove(w: World, b: Binding) {
    var rights := RightsOf(w, b.readerSub, b.artifactId);
    rights.Some? && rights.value.approved && rights.value.readerSub == b.readerSub && rights.value.artifactId == b.artifactId
  }

  predicate ProfileMatches(w: World, b: Binding, digest: Digest) {
    var profile := ProfileOf(w, b.artifactId);
    profile.Some? && profile.value.name == b.profileName && profile.value.policyRevision == b.policyRevision
    && Fingerprint(digest, profile.value) == b.profileFingerprint
  }

  predicate ReleaseMatches(w: World, b: Binding) {
    var release := ReleaseOf(w, b.artifactId, Some(b.releaseId));
    release.Some? && release.value.artifactId == b.artifactId && release.value.releaseId == b.releaseId
  }

  /** One authority state that approves the whole binding. */
  predicate Approves(w: World, b: Binding, digest: Digest) {
    RightsApprove(w, b) && ProfileMatches(w, b, digest) && ReleaseMatches(w, b)
  }

  /** The authority's own tables approve the reader. */
  ghost predicate ReaderApproved(w: World, b: Binding) {
    && (b.readerSub, b.artifactId) in w.rights
    && var rights := w.rights[(b.readerSub, b.artifactId)];
       rights.approved && rights.readerSub == b.readerSub && rights.artifactId == b.artifactId
  }

  ghost predicate ProfileApproved(w: World, b: Binding, digest: Digest) {
    && b.artifactId in w.profiles
    && var profile := w.profiles[b.artifactId];
       && profile.name == b.profileName && profile.policyRevision == b.policyRevision
       && digest(profile.name, profile.policyRevision, profile.capabilities) == b.profileFingerprint
  }

  ghost predicate ReleaseApproved(w: World, b: Binding) {
    && (b.artifactId, Some(b.releaseId)) in w.releases
    && var release := w.releases[(b.artifactId, Some(b.releaseId))];
       release.artifactId == b.artifactId && release.releaseId == b.releaseId
  }

  ghost predicate TablesApprove(w: World, b: Binding, digest: Digest) {
    ReaderApproved(w, b) && ProfileApproved(w, b, digest) && ReleaseApproved(w, b)
  }

  /** The version of the binding at both moments is the same, and there is one. */
  ghost predicate SameVersion(w: World, u: World, b: Binding) {
    var q := Query(b.artifactId, Some(b.readerSub), Some(b.releaseId));
    q in w.versions && q in u.versions && w.versions[q] == u.versions[q] != ""
  }

  /** What the claims of a grant bind it to. */
  ghost predicate Binds(claims: map<Field, string>, b: Binding) {
    && ArtifactId in claims && claims[ArtifactId] == b.artifactId
    && ReleaseId in claims && claims[ReleaseId] == b.releaseId
    && ReaderSub in claims && claims[ReaderSub] == b.readerSub
    && ProfileName in claims && claims[ProfileName] == b.profileName
    && PolicyRevision in claims && claims[PolicyRevision] == b.policyRevision
    && ProfileFingerprint in claims && claims[ProfileFingerprint] == b.profileFingerprint
  }

  lemma BindsIt(claims: map<Field, string>, b: Binding)
    requires Complete(claims) && Binds(claims, b)
    ensures BindingOf(claims) == b
  {
  }

  lemma TablesSaySo(w: World, u: World, b: Binding, digest: Digest)
    ensures RightsApprove(w, b) <==> ReaderApproved(w, b)
    ensures ProfileMatches(w, b, digest) <==> ProfileApproved(w, b, digest)
    ensures ReleaseMatches(w, b) <==> ReleaseApproved(w, b)
    ensures VersionOf(w, FenceOf(b)).Some? && VersionOf(u, FenceOf(b)) == VersionOf(w, FenceOf(b)) <==> SameVersion(w, u, b)
  {
  }

  // ---------------------------------------------------------------- renewal

  /** The moments of one renewal: eight authority reads, and four readings of clock and revocations. */
  datatype Renewal = Renewal(
    start: Moment, version: Moment, rights: Moment, profile: Moment, release: Moment,
    freshRights: Moment, freshProfile: Moment, freshRelease: Moment,
    issue: Moment, fence: Moment, finish: Moment)

  ghost predicate Timed(tl: seq<World>, r: Renewal) {
    InOrder(tl, [r.start, r.version, r.rights, r.profile, r.release,
                 r.freshRights, r.freshProfile, r.freshRelease, r.issue, r.fence, r.finish])
  }

  predicate Indexed(tl: seq<World>, r: Renewal) {
    && r.start.index < |tl| && r.version.index < |tl| && r.rights.index < |tl| && r.profile.index < |tl|
    && r.release.index < |tl| && r.freshRights.index < |tl| && r.freshProfile.index < |tl|
    && r.freshRelease.index < |tl| && r.issue.index < |tl| && r.fence.index < |tl| && r.finish.index < |tl|
  }

  function RenewGrant(tl: seq<World>, presented: Token, issuer: Issuer, digest: Digest,
                      sizeOf: (Grant, int) -> nat, r: Renewal): Option<Token>
    requires Indexed(tl, r)
  {
    var verified := VerifyGrant(presented, issuer, map[], r.start.at);
    if verified.None? then None else
    var g := verified.value.grant;
    var b := BindingOf(g.claims);
    var session := g.claims[SessionId];
    if session in tl[r.start.index].revoked then None else
    var version := VersionOf(tl[r.version.index], FenceOf(b));
    if version.None? then None
    else if !RightsApprove(tl[r.rights.index], b) then None
    else if !ProfileMatches(tl[r.profile.index], b, digest) then None
    else if !ReleaseMatches(tl[r.release.index], b) then None
    else if !RightsApprove(tl[r.freshRights.index], b) then None
    else if !ProfileMatches(tl[r.freshProfile.index], b, digest) then None
    else if !ReleaseMatches(tl[r.freshRelease.index], b) then None
    else if r.issue.at >= verified.value.expiresAtMs as real || session in tl[r.issue.index].revoked then None else
    var renewed := MintGrant(g, sizeOf, r.issue.at);
    if renewed.None? then None
    else if VersionOf(tl[r.fence.index], FenceOf(b)) != version then None
    else if r.finish.at < verified.value.expiresAtMs as real && session !in tl[r.finish.index].revoked then renewed
    else None
  }

  lemma TimedIsIndexed(tl: seq<World>, r: Renewal)
    requires Timed(tl, r)
    ensures Indexed(tl, r)
    ensures Before(r.start, r.version) && Before(r.version, r.rights) && Before(r.rights, r.profile)
         && Before(r.profile, r.release) && Before(r.release, r.freshRights) && Before(r.freshRights, r.freshProfile)
         && Before(r.freshProfile, r.freshRelease) && Before(r.freshRelease, r.issue)
         && Before(r.issue, r.fence) && Before(r.fence, r.finish)
    ensures On(tl, r.fence)
  {
    var ms := [r.start, r.version, r.rights, r.profile, r.release,
               r.freshRights, r.freshProfile, r.freshRelease, r.issue, r.fence, r.finish];
    assert ms[0] == r.start && ms[1] == r.version && ms[2] == r.rights && ms[3] == r.profile && ms[4] == r.release
      && ms[5] == r.freshRights && ms[6] == r.freshProfile && ms[7] == r.freshRelease && ms[8] == r.issue
      && ms[9] == r.fence && ms[10] == r.finish;
  }

  lemma SameApproval(w: World, u: World, b: Binding, digest: Digest)
    requires AnswersFor(w, FenceOf(b)) == AnswersFor(u, FenceOf(b))
    ensures RightsApprove(w, b) == RightsApprove(u, b)
    ensures ProfileMatches(w, b, digest) == ProfileMatches(u, b, digest)
    ensures ReleaseMatches(w, b) == ReleaseMatches(u, b)
  {
    var q := FenceOf(b);
    assert AnswersFor(w, q).rights == RightsOf(w, b.readerSub, b.artifactId);
    assert AnswersFor(u, q).rights == RightsOf(u, b.readerSub, b.artifactId);
    assert AnswersFor(w, q).profile == ProfileOf(w, b.artifactId);
    assert AnswersFor(w, q).release == ReleaseOf(w, b.artifactId, Some(b.releaseId));
  }

  // Equal versions at both ends: every read in between saw the state of the last one.
  lemma FencedApproval(tl: seq<World>, b: Binding, digest: Digest, first: nat, k: nat, last: nat)
    requires Timeline(tl) && first <= k <= last < |tl|
    requires VersionOf(tl[first], FenceOf(b)).Some? && VersionOf(tl[last], FenceOf(b)) == VersionOf(tl[first], FenceOf(b))
    ensures RightsApprove(tl[k], b) == RightsApprove(tl[last], b)
    ensures ProfileMatches(tl[k], b, digest) == ProfileMatches(tl[last], b, digest)
    ensures ReleaseMatches(tl[k], b) == ReleaseMatches(tl[last], b)
  {
    FencedRead(tl, FenceOf(b), first, last);
    assert AnswersFor(tl[k], FenceOf(b)) == AnswersFor(tl[last], FenceOf(b));
    SameApproval(tl[k], tl[last], b, digest);
  }

  /** What renewal amounts to: one approving state between two equal versions, and a live session. */
  ghost predicate Renews(tl: seq<World>, presented: Token, issuer: Issuer, digest: Digest,
                         sizeOf: (Grant, int) -> nat, r: Renewal, b: Binding)
    requires Indexed(tl, r)
  {
    var verified := VerifyGrant(presented, issuer, map[], r.start.at);
    && verified.Some?
    && (var g := verified.value.grant;
        && SameVersion(tl[r.version.index], tl[r.fence.index], b)
        && TablesApprove(tl[r.fence.index], b, digest)
        && sizeOf(g, (r.issue.at / 1000.0).Floor) <= 4096
        && SessionId in presented.claims && presented.claims[SessionId] !in tl[r.finish.index].revoked
        && r.finish.at < (presented.exp.value * 1000) as real)
  }

  // Between two equal versions the six reads come to one look at the state of the last version read.
  lemma ReadsCollapse(tl: seq<World>, r: Renewal, b: Binding, digest: Digest)
    requires Timeline(tl) && Timed(tl, r) && Indexed(tl, r)
    requires var w := tl[r.version.index]; VersionOf(w, FenceOf(b)).Some? && VersionOf(tl[r.fence.index], FenceOf(b)) == VersionOf(w, FenceOf(b))
    ensures TablesApprove(tl[r.fence.index], b, digest) <==>
      && RightsApprove(tl[r.rights.index], b) && ProfileMatches(tl[r.profile.index], b, digest)
      && ReleaseMatches(tl[r.release.index], b) && RightsApprove(tl[r.freshRights.index], b)
      && ProfileMatches(tl[r.freshProfile.index], b, digest) && ReleaseMatches(tl[r.freshRelease.index], b)
  {
    var v, f := r.version.index, r.fence.index;
    TimedIsIndexed(tl, r);
    TablesSaySo(tl[f], tl[f], b, digest);
    hide TablesApprove, RightsApprove, ProfileMatches, ReleaseMatches, Timed, On;
    FencedApproval(tl, b, digest, v, r.rights.index, f);
    FencedApproval(tl, b, digest, v, r.profile.index, f);
    FencedApproval(tl, b, digest, v, r.release.index, f);
    FencedApproval(tl, b, digest, v, r.freshRights.index, f);
    FencedApproval(tl, b, digest, v, r.freshProfile.index, f);
    FencedApproval(tl, b, digest, v, r.freshRelease.index, f);
  }

  lemma RevokedForGood(tl: seq<World>, r: Renewal)
    requires Timeline(tl) && Timed(tl, r) && Indexed(tl, r)
    ensures tl[r.start.index].revoked <= tl[r.issue.index].revoked <= tl[r.finish.index].revoked
    ensures r.issue.at <= r.finish.at
  {
    TimedIsIndexed(tl, r);
  }

  // All interleavings: six reads and three revocation checks decide exactly as one look at the state
  // of the last version read and one look at the end.
  lemma RenewalExact(tl: seq<World>, presented: Token, issuer: Issuer, digest: Digest,
                     sizeOf: (Grant, int) -> nat, r: Renewal, b: Binding)
    requires Timeline(tl) && Timed(tl, r) && Indexed(tl, r)
    requires Complete(presented.claims) ==> Binds(presented.claims, b)
    ensures RenewGrant(tl, presented, issuer, digest, sizeOf, r).Some? <==> Renews(tl, presented, issuer, digest, sizeOf, r, b)
  {
    RevokedForGood(tl, r);
    var verified := VerifyGrant(presented, issuer, map[], r.start.at);
    if verified.Some? {
      assert verified.value.grant.claims == presented.claims;
      var v, f := r.version.index, r.fence.index;
      BindsIt(presented.claims, b);
      TablesSaySo(tl[v], tl[f], b, digest);
      hide TablesApprove, SameVersion, VerifyGrant, RightsApprove, ProfileMatches, ReleaseMatches, Timeline, Timed, Binds;
      if VersionOf(tl[v], FenceOf(b)).Some? && VersionOf(tl[f], FenceOf(b)) == VersionOf(tl[v], FenceOf(b)) {
        ReadsCollapse(tl, r, b, digest);
      }
    }
  }

  // A renewed grant is the presented one with a later expiry, at most 55 s after the last version read.
  lemma RenewalKeepsBindings(tl: seq<World>, presented: Token, issuer: Issuer, digest: Digest,
                             sizeOf: (Grant, int) -> nat, r: Renewal)
    requires Timeline(tl) && Timed(tl, r) && Indexed(tl, r)
    requires RenewGrant(tl, presented, issuer, digest, sizeOf, r).Some?
    ensures var t := RenewGrant(tl, presented, issuer, digest, sizeOf, r).value;
      && t.claims == presented.claims && t.basket == presented.basket && t.sub == presented.sub
      && t.issuer == presented.issuer && t.audience == presented.audience && t.authentic
      && t.iat == Some((r.issue.at / 1000.0).Floor) && t.exp == Some((r.issue.at / 1000.0).Floor + 55)
      && (t.exp.value * 1000) as real <= r.fence.at + 55000.0
  {
    TimedIsIndexed(tl, r);
  }

  /** From index `k` on, the authority's tables no longer approve the binding. */
  ghost predicate WithdrawnFrom(tl: seq<World>, b: Binding, digest: Digest, k: nat) {
    k < |tl| && forall i :: k <= i < |tl| ==> !TablesApprove(tl[i], b, digest)
  }

  // After a withdrawal at time t no renewal, however it interleaved with it, yields a grant that
  // still verifies at t + 55 s or later.
  lemma WithdrawalCutsOff(tl: seq<World>, presented: Token, issuer: Issuer, digest: Digest,
                          sizeOf: (Grant, int) -> nat, r: Renewal, b: Binding, k: nat,
                          anyone: Issuer, bound: map<Field, string>, nowMs: real)
    requires Timeline(tl) && Timed(tl, r) && Indexed(tl, r) && Complete(presented.claims) && Binds(presented.claims, b)
    requires WithdrawnFrom(tl, b, digest, k)
    requires RenewGrant(tl, presented, issuer, digest, sizeOf, r).Some?
    requires nowMs >= tl[k].since + 55000.0
    ensures VerifyGrant(RenewGrant(tl, presented, issuer, digest, sizeOf, r).value, anyone, bound, nowMs).None?
  {
    TimedIsIndexed(tl, r);
    RenewalExact(tl, presented, issuer, digest, sizeOf, r, b);
    RenewalKeepsBindings(tl, presented, issuer, digest, sizeOf, r);
    assert r.fence.index < k;
    assert tl[r.fence.index + 1].since <= tl[k].since;
    var t := RenewGrant(tl, presented, issuer, digest, sizeOf, r).value;
    assert (t.exp.value * 1000) as real <= nowMs;
    assert t.exp.value as real <= nowMs / 1000.0;
  }

  // In particular when the reader's rights are gone, or no longer approved.
  lemma RightsWithdrawalCutsOff(tl: seq<World>, presented: Token, issuer: Issuer, digest: Digest,
                                sizeOf: (Grant, int) -> nat, r: Renewal, k: nat,
                                anyone: Issuer, bound: map<Field, string>, nowMs: real)
    requires Timeline(tl) && Timed(tl, r) && Indexed(tl, r) && Complete(presented.claims)
    requires k < |tl|
    requires forall i :: k <= i < |tl| ==>
               var who := (presented.claims[ReaderSub], presented.claims[ArtifactId]);
               who !in tl[i].rights || !tl[i].rights[who].approved
    requires nowMs >= tl[k].since + 55000.0
    ensures var renewed := RenewGrant(tl, presented, issuer, digest, sizeOf, r);
            renewed.Some? ==> VerifyGrant(renewed.value, anyone, bound, nowMs).None?
  {
    var c := presented.claims;
    var b := Binding(c[ArtifactId], c[ReleaseId], c[ReaderSub], c[ProfileName], c[PolicyRevision], c[ProfileFingerprint]);
    assert WithdrawnFrom(tl, b, digest, k);
    hide RenewGrant, VerifyGrant, WithdrawnFrom;
    if RenewGrant(tl, presented, issuer, digest, sizeOf, r).Some? {
      WithdrawalCutsOff(tl, presented, issuer, digest, sizeOf, r, b, k, anyone, bound, nowMs);
    }
  }

  // A revoked session is never renewed from the moment of its revocation.
  lemma RevocationStopsRenewal(tl: seq<World>, presented: Token, issuer: Issuer, digest: Digest,
                               sizeOf: (Grant, int) -> nat, r: Renewal, k: nat)
    requires Timeline(tl) && Timed(tl, r) && Indexed(tl, r) && Complete(presented.claims)
    requires k < |tl| && presented.claims[SessionId] in tl[k].revoked && k <= r.finish.index
    ensures RenewGrant(tl, presented, issuer, digest, sizeOf, r).None?
  {
    assert tl[k].revoked <= tl[r.finish.index].revoked;
  }

  // ---------------------------------------------------------------- adaptation and exchange

  datatype ReaderContext = ReaderContext(
    readerSub: string, sessionId: string, artifactId: string, releaseId: string,
    profileName: string, policyRevision: string, capabilities: set<Capability>, basketScope: bool)

  /** The five reads of an adaptation, in order. */
  datatype Reads = Reads(version: Moment, release: Moment, profile: Moment, rights: Moment, fence: Moment)

  ghost predicate ReadInOrder(tl: seq<World>, m: Reads) {
    InOrder(tl, [m.version, m.release, m.profile, m.rights, m.fence])
  }

  predicate ReadIndexed(tl: seq<World>, m: Reads) {
    && m.version.index < |tl| && m.release.index < |tl| && m.profile.index < |tl|
    && m.rights.index < |tl| && m.fence.index < |tl|
  }

  function AdaptGrantToReader(tl: seq<World>, g: Grant, digest: Digest, m: Reads): Option<ReaderContext>
    requires ReadIndexed(tl, m) && Complete(g.claims)
  {
    var b := BindingOf(g.claims);
    var version := VersionOf(tl[m.version.index], FenceOf(b));
    if version.None? then None
    else if !ReleaseMatches(tl[m.release.index], b) then None
    else if !ProfileMatches(tl[m.profile.index], b, digest) then None
    else if !RightsApprove(tl[m.rights.index], b) then None
    else if VersionOf(tl[m.fence.index], FenceOf(b)) != version then None
    else
      var profile := ProfileOf(tl[m.profile.index], b.artifactId).value;
      var rights := RightsOf(tl[m.rights.index], b.readerSub, b.artifactId).value;
      Some(ReaderContext(b.readerSub, g.claims[SessionId], b.artifactId, b.releaseId, profile.name,
                         profile.policyRevision, profile.capabilities * rights.capabilities, g.basket))
  }

  datatype Ticket = Ticket(binding: Binding)

  function ValidateTicketForExchange(tl: seq<World>, ticket: Ticket, digest: Digest, m: Reads): Option<Ticket>
    requires ReadIndexed(tl, m)
  {
    var b := ticket.binding;
    var version := VersionOf(tl[m.version.index], FenceOf(b));
    if version.None? then None
    else if !ReleaseMatches(tl[m.release.index], b) then None
    else if !ProfileMatches(tl[m.profile.index], b, digest) then None
    else if !RightsApprove(tl[m.rights.index], b) then None
    else if VersionOf(tl[m.fence.index], FenceOf(b)) != version then None
    else Some(ticket)
  }

  ghost predicate FencedAndApproved(tl: seq<World>, b: Binding, digest: Digest, m: Reads)
    requires ReadIndexed(tl, m)
  {
    SameVersion(tl[m.version.index], tl[m.fence.index], b) && TablesApprove(tl[m.fence.index], b, digest)
  }

  lemma ReadsAreFenced(tl: seq<World>, b: Binding, digest: Digest, m: Reads)
    requires Timeline(tl) && ReadInOrder(tl, m) && ReadIndexed(tl, m)
    requires VersionOf(tl[m.version.index], FenceOf(b)).Some?
    requires VersionOf(tl[m.fence.index], FenceOf(b)) == VersionOf(tl[m.version.index], FenceOf(b))
    ensures AnswersFor(tl[m.release.index], FenceOf(b)) == AnswersFor(tl[m.fence.index], FenceOf(b))
    ensures AnswersFor(tl[m.profile.index], FenceOf(b)) == AnswersFor(tl[m.fence.index], FenceOf(b))
    ensures AnswersFor(tl[m.rights.index], FenceOf(b)) == AnswersFor(tl[m.fence.index], FenceOf(b))
  {
    var ms := [m.version, m.release, m.profile, m.rights, m.fence];
    assert ms[0] == m.version && ms[1] == m.release && ms[2] == m.profile && ms[3] == m.rights && ms[4] == m.fence;
    assert Before(ms[0], ms[1]) && Before(ms[1], ms[2]) && Before(ms[2], ms[3]) && Before(ms[3], ms[4]);
    FencedRead(tl, FenceOf(b), m.version.index, m.fence.index);
  }

  // The three checks, at whatever moments they were made, decide as the fence state's tables do.
  lemma ChecksAreFenced(tl: seq<World>, b: Binding, digest: Digest, m: Reads)
    requires Timeline(tl) && ReadInOrder(tl, m) && ReadIndexed(tl, m)
    requires VersionOf(tl[m.version.index], FenceOf(b)).Some?
    requires VersionOf(tl[m.fence.index], FenceOf(b)) == VersionOf(tl[m.version.index], FenceOf(b))
    ensures ReleaseMatches(tl[m.release.index], b) <==> ReleaseApproved(tl[m.fence.index], b)
    ensures ProfileMatches(tl[m.profile.index], b, digest) <==> ProfileApproved(tl[m.fence.index], b, digest)
    ensures RightsApprove(tl[m.rights.index], b) <==> ReaderApproved(tl[m.fence.index], b)
  {
    ReadsAreFenced(tl, b, digest, m);
    SameApproval(tl[m.release.index], tl[m.fence.index], b, digest);
    SameApproval(tl[m.profile.index], tl[m.fence.index], b, digest);
    SameApproval(tl[m.rights.index], tl[m.fence.index], b, digest);
    TablesSaySo(tl[m.fence.index], tl[m.fence.index], b, digest);
  }

  /** What the context says, read off the grant and the tables of one state. */
  ghost predicate DescribesReader(c: ReaderContext, g: Grant, b: Binding, w: World)
    requires b.artifactId in w.profiles && (b.readerSub, b.artifactId) in w.rights
  {
    && c.readerSub == b.readerSub && c.artifactId == b.artifactId && c.releaseId == b.releaseId
    && SessionId in g.claims && c.sessionId == g.claims[SessionId]
    && c.profileName == b.profileName && c.policyRevision == b.policyRevision && c.basketScope == g.basket
    && forall x :: x in c.capabilities <==>
         x in w.profiles[b.artifactId].capabilities && x in w.rights[(b.readerSub, b.artifactId)].capabilities
  }

  // The context is granted exactly when one state approves the grant, and it describes the grant's
  // reader with the capabilities that profile and rights of that one state share.
  lemma AdaptationExact(tl: seq<World>, g: Grant, b: Binding, digest: Digest, m: Reads)
    requires Timeline(tl) && ReadInOrder(tl, m) && ReadIndexed(tl, m) && Complete(g.claims) && Binds(g.claims, b)
    ensures var c := AdaptGrantToReader(tl, g, digest, m);
      && (c.Some? <==> FencedAndApproved(tl, b, digest, m))
      && (c.Some? ==> DescribesReader(c.value, g, b, tl[m.fence.index]))
  {
    BindsIt(g.claims, b);
    TablesSaySo(tl[m.version.index], tl[m.fence.index], b, digest);
    if VersionOf(tl[m.version.index], FenceOf(b)).Some?
       && VersionOf(tl[m.fence.index], FenceOf(b)) == VersionOf(tl[m.version.index], FenceOf(b)) {
      ReadsAreFenced(tl, b, digest, m);
      ChecksAreFenced(tl, b, digest, m);
    }
  }

  lemma ExchangeExact(tl: seq<World>, ticket: Ticket, digest: Digest, m: Reads)
    requires Timeline(tl) && ReadInOrder(tl, m) && ReadIndexed(tl, m)
    ensures var r := ValidateTicketForExchange(tl, ticket, digest, m);
      && (r.Some? <==> FencedAndApproved(tl, ticket.binding, digest, m))
      && (r.Some? ==> r.value == ticket)
  {
    var b := ticket.binding;
    TablesSaySo(tl[m.version.index], tl[m.fence.index], b, digest);
    if VersionOf(tl[m.version.index], FenceOf(b)).Some?
       && VersionOf(tl[m.fence.index], FenceOf(b)) == VersionOf(tl[m.version.index], FenceOf(b)) {
      ChecksAreFenced(tl, b, digest, m);
    }
  }
}
