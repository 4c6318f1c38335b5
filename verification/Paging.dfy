/**
 Byte-capped paging of a collection (reader-geo.ts): each page is cut to the requested count and
 then to the byte cap, and names the next offset. Main result: following `nextOffset` from 0 visits
 each feature once, in order, and stops exactly at the first feature that alone exceeds the cap, or
 at the end when there is none.
 */
module Paging {
  import opened Prelude

  const LIMIT_MAX := 1000
  const MAX_BYTES := 1024 * 1024

  /** The bytes of one serialised feature. */
  type Size<!T> = T -> nat

  function Sum<T>(s: seq<T>, size: Size<T>): nat {
    if s == [] then 0 else size(s[0]) + Sum(s[1..], size)
  }

  /** The bytes of the serialised array: brackets, features and the commas between them. */
  function Bytes<T>(s: seq<T>, size: Size<T>): nat {
    2 + Sum(s, size) + if s == [] then 0 else |s| - 1
  }

  predicate TooBig<T>(f: T, size: Size<T>) {
    2 + size(f) > MAX_BYTES
  }

  // ---------------------------------------------------------------- one page

  predicate Allowed<T>(s: seq<T>, size: Size<T>) {
    s == [] || Bytes(s, size) <= MAX_BYTES
  }

  /** Drop features from the end until the rest is within the cap. */
  function Kept<T>(features: seq<T>, size: Size<T>): seq<T> {
    if Allowed(features, size) then features else Kept(features[..|features| - 1], size)
  }

  method BoundReaderFeatures<T>(features: seq<T>, size: Size<T>) returns (kept: seq<T>)
    ensures kept == Kept(features, size)
    ensures kept <= features && Allowed(kept, size)
    ensures forall k :: |kept| < k <= |features| ==> Bytes(features[..k], size) > MAX_BYTES
  {
    kept := features;
    while |kept| > 0 && Bytes(kept, size) > MAX_BYTES
      invariant kept <= features && Kept(kept, size) == Kept(features, size)
      invariant forall k :: |kept| < k <= |features| ==> Bytes(features[..k], size) > MAX_BYTES
      decreases |kept|
    {
      assert features[..|kept|] == kept;
      kept := kept[..|kept| - 1];
    }
  }

  /** What an offset and a limit select, before the byte cap. */
  function Asked<T>(features: seq<T>, limit: nat, offset: nat): (s: seq<T>) {
    var rest := if offset <= |features| then features[offset..] else [];
    var count := Min(limit, LIMIT_MAX);
    if count <= |rest| then rest[..count] else rest
  }

  function NextOffset(offset: nat, returned: nat, matched: nat): Option<nat> {
    if returned > 0 && offset + returned < matched then Some(offset + returned) else None
  }

  datatype Page<T> = Page(features: seq<T>, numberMatched: nat, truncated: bool, nextOffset: Option<nat>)

  function PageOf<T>(capped: seq<T>, size: Size<T>, matched: nat, offset: nat): Page<T> {
    var bounded := Kept(capped, size);
    Page(bounded, matched, |bounded| < |capped| || matched > |bounded|, NextOffset(offset, |bounded|, matched))
  }

  /** The local store has no paging of its own: the whole list is sliced. */
  function LocalPage<T>(features: seq<T>, size: Size<T>, limit: nat, offset: nat): Page<T> {
    PageOf(Asked(features, limit, offset), size, |features|, offset)
  }

  /** An upstream answer: its features are sliced again, since it may return more than asked. */
  function LivePage<T>(answer: seq<T>, numberMatched: Option<nat>, size: Size<T>, limit: nat, offset: nat): Page<T> {
    PageOf(Asked(answer, limit, 0), size, if numberMatched.Some? then numberMatched.value else |answer|, offset)
  }

  function From<T>(features: seq<T>, offset: nat): seq<T> {
    if offset < |features| then features[offset..] else []
  }

  /** The upstream returned the features from the offset on, at least as many as were asked for, and the true count. */
  predicate Honest<T(==)>(answer: seq<T>, numberMatched: Option<nat>, features: seq<T>, limit: nat, offset: nat) {
    && numberMatched == Some(|features|)
    && answer <= From(features, offset)
    && (answer == From(features, offset) || |answer| >= limit || |answer| >= 1000)
  }

  // An honest upstream is indistinguishable from the local list.
  lemma LiveIsLocal<T>(answer: seq<T>, numberMatched: Option<nat>, features: seq<T>, size: Size<T>, limit: nat, offset: nat)
    requires Honest(answer, numberMatched, features, limit, offset)
    ensures LivePage(answer, numberMatched, size, limit, offset) == LocalPage(features, size, limit, offset)
  {
    assert Asked(answer, limit, 0) == Asked(features, limit, offset);
  }

  // ---------------------------------------------------------------- the byte cap

  lemma {:induction false} SumSplits<T>(a: seq<T>, b: seq<T>, size: Size<T>)
    ensures Sum(a + b, size) == Sum(a, size) + Sum(b, size)
  {
    if a == [] {
      assert a + b == b;
    } else {
      var whole := a + b;
      assert whole != [] && whole[0] == a[0] && whole[1..] == a[1..] + b;
      SumSplits(a[1..], b, size);
    }
  }

  lemma {:induction false} KeptIsPrefix<T>(features: seq<T>, size: Size<T>)
    ensures Kept(features, size) <= features && Allowed(Kept(features, size), size)
    ensures features != [] && !TooBig(features[0], size) ==> Kept(features, size) != []
    decreases |features|
  {
    if !Allowed(features, size) {
      KeptIsPrefix(features[..|features| - 1], size);
      if |features| == 1 {
        assert features[1..] == [];
        assert Sum(features, size) == size(features[0]);
      }
    }
  }

  // A feature that alone exceeds the cap is in no page.
  lemma TooBigIsNeverKept<T>(s: seq<T>, size: Size<T>, i: nat)
    requires i < |s| && TooBig(s[i], size)
    ensures !Allowed(s, size)
  {
    SumSplits(s[..i], s[i..], size);
    assert s == s[..i] + s[i..];
  }

  // ---------------------------------------------------------------- one page, feature by feature

  /** `JSON.stringify` of an array whose elements serialise to these texts. */
  function Serialised(texts: seq<string>): string {
    "[" + Joined(texts) + "]"
  }

  function Joined(texts: seq<string>): string {
    if |texts| == 0 then "" else if |texts| == 1 then texts[0] else texts[0] + "," + Joined(texts[1..])
  }

  // The size of a page is the length of its text.
  lemma {:induction false} BytesAreLength(texts: seq<string>)
    ensures Bytes(texts, (t: string) => |t|) == |Serialised(texts)|
  {
    if |texts| > 1 {
      BytesAreLength(texts[1..]);
    } else if |texts| == 1 {
      assert Sum(texts[1..], (t: string) => |t|) == 0;
    }
  }

  /** The first `n` features of the rest may go on one page. */
  predicate Fits<T>(rest: seq<T>, size: Size<T>, limit: nat, n: nat) {
    n <= |rest| && n <= limit && n <= 1000 && (n == 0 || Bytes(rest[..n], size) <= 1048576)
  }

  lemma {:induction false} KeptIsLongest<T>(features: seq<T>, size: Size<T>, k: nat)
    requires |Kept(features, size)| < k <= |features|
    ensures !Allowed(features[..k], size)
    decreases |features|
  {
    if k == |features| {
      assert features[..k] == features;
    } else {
      KeptIsLongest(features[..|features| - 1], size, k);
      assert features[..|features| - 1][..k] == features[..k];
    }
  }

  // A page holds the features from its offset on, as many of them as the limit, the facade's own limit
  // and the byte cap allow together; it names the true count, the offset after it while it is not
  // empty and there is more, and whether it is the whole list.
  lemma PageIsLongest<T>(features: seq<T>, size: Size<T>, limit: nat, offset: nat)
    ensures var page, rest := LocalPage(features, size, limit, offset), From(features, offset);
      var n := |page.features|;
      && Fits(rest, size, limit, n) && page.features == rest[..n]
      && (forall k: nat :: n < k ==> !Fits(rest, size, limit, k))
      && page.numberMatched == |features|
      && page.nextOffset == (if n > 0 && offset + n < |features| then Some(offset + n) else None)
      && (page.truncated <==> n < |features|)
  {
    var asked, rest := Asked(features, limit, offset), From(features, offset);
    KeptIsPrefix(asked, size);
    var n := |Kept(asked, size)|;
    forall k: nat | n < k && k <= |rest| && k <= limit && k <= 1000
      ensures Bytes(rest[..k], size) > 1048576
    {
      KeptIsLongest(asked, size, k);
      assert asked[..k] == rest[..k];
    }
    assert n <= |asked| <= |rest| && |asked| <= limit && |asked| <= 1000;
    assert Kept(asked, size) == asked[..n] == rest[..n];
  }

  // ---------------------------------------------------------------- the walk

  /** How many features come before the first one that alone exceeds the cap. */
  function Reach<T>(features: seq<T>, size: Size<T>): (n: nat)
    ensures n <= |features|
  {
    if features == [] || TooBig(features[0], size) then 0 else 1 + Reach(features[1..], size)
  }

  /** The pages a client gets by following `nextOffset`. */
  function Walk<T>(features: seq<T>, size: Size<T>, limit: nat, offset: nat): seq<seq<T>>
    decreases |features| - offset
  {
    var page := LocalPage(features, size, limit, offset);
    [page.features] + if page.nextOffset.Some? then Walk(features, size, limit, page.nextOffset.value) else []
  }

  function Flat<T>(pages: seq<seq<T>>): seq<T> {
    if pages == [] then [] else pages[0] + Flat(pages[1..])
  }

  lemma WalkUnfolds<T>(features: seq<T>, size: Size<T>, limit: nat, offset: nat)
    ensures var page := LocalPage(features, size, limit, offset);
            && (page.nextOffset.Some? ==> page.nextOffset.value == offset + |page.features| < |features| && page.features != [])
            && (page.nextOffset.None? ==> page.features == [] || offset + |page.features| >= |features|)
            && Flat(Walk(features, size, limit, offset)) == page.features +
                 if page.nextOffset.Some? then Flat(Walk(features, size, limit, page.nextOffset.value)) else []
  {
    var page, pages := LocalPage(features, size, limit, offset), Walk(features, size, limit, offset);
    assert pages[0] == page.features;
    if page.nextOffset.Some? {
      assert pages[1..] == Walk(features, size, limit, page.nextOffset.value);
    } else {
      assert pages[1..] == [];
    }
  }

  lemma {:induction false} ReachFacts<T>(features: seq<T>, size: Size<T>)
    ensures forall i :: 0 <= i < Reach(features, size) ==> !TooBig(features[i], size)
    ensures Reach(features, size) < |features| ==> TooBig(features[Reach(features, size)], size)
  {
    if features != [] && !TooBig(features[0], size) {
      ReachFacts(features[1..], size);
      forall i | 0 <= i < Reach(features, size) ensures !TooBig(features[i], size) {
        if i > 0 {
          assert features[i] == features[1..][i - 1];
        }
      }
    }
  }

  // A page starts at its offset, makes progress unless the next feature is too big, and never
  // passes a feature that is too big.
  lemma PageFacts<T>(features: seq<T>, size: Size<T>, limit: nat, offset: nat)
    requires offset <= |features| && limit >= 1
    ensures var page := LocalPage(features, size, limit, offset).features;
            && offset + |page| <= |features| && page == features[offset..offset + |page|]
            && (offset <= Reach(features, size) ==> offset + |page| <= Reach(features, size))
            && (offset < Reach(features, size) ==> page != [])
  {
    var asked, page := Asked(features, limit, offset), LocalPage(features, size, limit, offset).features;
    KeptIsPrefix(asked, size);
    ReachFacts(features, size);
    assert page == asked[..|page|] == features[offset..offset + |page|];
    hide Kept, Bytes, TooBig, Reach;
    var reach := Reach(features, size);
    if offset <= reach < offset + |page| {
      assert page[reach - offset] == features[reach];
      TooBigIsNeverKept(page, size, reach - offset);
    }
  }

  /**
   Following `nextOffset` from a reached offset returns exactly the features from there to the first
   one that alone exceeds the cap, each once and in order.
   */
  lemma {:induction false} WalkVisitsOnce<T>(features: seq<T>, size: Size<T>, limit: nat, offset: nat)
    requires limit >= 1 && offset <= Reach(features, size)
    ensures Flat(Walk(features, size, limit, offset)) == features[offset..Reach(features, size)]
    decreases |features| - offset
  {
    hide *;
    var reach, page := Reach(features, size), LocalPage(features, size, limit, offset);
    PageFacts(features, size, limit, offset);
    WalkUnfolds(features, size, limit, offset);
    if page.nextOffset.Some? {
      var end := page.nextOffset.value;
      WalkVisitsOnce(features, size, limit, end);
      Spliced(features, offset, end, reach);
    }
  }

  lemma Spliced<T>(s: seq<T>, a: nat, b: nat, c: nat)
    requires a <= b <= c <= |s|
    ensures s[a..b] + s[b..c] == s[a..c]
  {
  }

  // The walk from 0 is complete exactly when no feature alone exceeds the cap.
  lemma WalkIsComplete<T>(features: seq<T>, size: Size<T>, limit: nat)
    requires limit >= 1
    ensures Flat(Walk(features, size, limit, 0)) == features[..Reach(features, size)]
    ensures Flat(Walk(features, size, limit, 0)) == features <==> forall f :: f in features ==> !TooBig(f, size)
  {
    WalkVisitsOnce(features, size, limit, 0);
    ReachFacts(features, size);
    var reach := Reach(features, size);
    if reach == |features| {
      assert features[..reach] == features;
    } else {
      assert features[reach] in features;
      assert |features[..reach]| < |features|;
    }
  }

  // `truncated` says that this page is not the whole collection.
  lemma TruncatedMeansPartial<T>(features: seq<T>, size: Size<T>, limit: nat, offset: nat)
    requires offset <= |features|
    ensures LocalPage(features, size, limit, offset).truncated <==> LocalPage(features, size, limit, offset).features != features
  {
    var asked := Asked(features, limit, offset);
    KeptIsPrefix(asked, size);
  }
}
