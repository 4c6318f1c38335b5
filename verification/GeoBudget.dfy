/**
 The geo items budget (reader-geo-budget.ts): one window, and idle keys dropped only when the map
 has grown large. Main result: on every run it answers as the log that never forgets, and so as
 the general budget store would.
 */
module GeoBudget {
  import opened Prelude
  import opened Windows
  import B = Budgets

  const MAX_KEYS := 10_000

  // ---------------------------------------------------------------- one call, on values

  predicate Idle(times: seq<int>, cut: int) {
    forall i :: 0 <= i < |times| ==> times[i] <= cut
  }

  function Cleaned(hits: B.Hits, cut: int): B.Hits {
    if |hits| > MAX_KEYS then map key | key in hits && !Idle(hits[key], cut) :: hits[key] else hits
  }

  function Recent(hits: B.Hits, w: BudgetWindow, key: string, now: int): seq<int> {
    After(B.ListOf(hits, key), now - w.windowMs)
  }

  function Consumed(hits: B.Hits, w: BudgetWindow, key: string, now: int): B.Hits {
    var recent := Recent(hits, w, key, now);
    if |recent| >= w.limit then hits[key := recent]
    else Cleaned(hits[key := recent + [now]], now - w.windowMs)
  }

  function DecisionOf(hits: B.Hits, w: BudgetWindow, key: string, now: int): Decision {
    Verdict(Recent(hits, w, key, now), [w], now)
  }

  // ---------------------------------------------------------------- the object

  class GeoReaderBudget {
    const w: BudgetWindow
    var hits: B.Hits

    constructor (w: BudgetWindow)
      ensures this.w == w && hits == map[]
    {
      this.w := w;
      hits := map[];
    }

    method Consume(key: string, now: int) returns (r: Decision)
      modifies this
      ensures r == DecisionOf(old(hits), w, key, now)
      ensures hits == Consumed(old(hits), w, key, now)
    {
      var recent := After(if key in hits then hits[key] else [], now - w.windowMs);
      B.OneWindowVerdict(B.ListOf(hits, key), w, now);
      if |recent| >= w.limit {
        hits := hits[key := recent];
        if recent == [] {
          return Refuse(Forever);
        }
        return Refuse(Seconds(Max(1, CeilSeconds(Minimum(recent) + w.windowMs - now))));
      }
      recent := recent + [now];
      hits := hits[key := recent];
      if |hits| > MAX_KEYS {
        DropIdle(now - w.windowMs);
      }
      r := Accept;
    }

    method DropIdle(cut: int)
      modifies this
      requires |hits| > MAX_KEYS
      ensures hits == Cleaned(old(hits), cut)
    {
      ghost var was := hits;
      var todo := hits.Keys;
      while todo != {}
        invariant todo <= was.Keys
        invariant forall key :: key in todo ==> key in hits && hits[key] == was[key]
        invariant forall key :: key !in todo ==> Get(hits, key) == Get(Cleaned(was, cut), key)
        decreases |todo|
      {
        var key :| key in todo;
        if Idle(hits[key], cut) {
          hits := hits - {key};
        }
        todo := todo - {key};
      }
      B.SameMap(hits, Cleaned(was, cut));
    }
  }

  // ---------------------------------------------------------------- the clean-up

  // An accepted call that leaves more than ten thousand keys drops exactly those without a hit in the
  // window; no other call drops a key, and none touches the list of another key.
  lemma CleansUpExactly(hits: B.Hits, w: BudgetWindow, key: string, now: int)
    ensures var t := Consumed(hits, w, key, now);
      var recorded := hits[key := Recent(hits, w, key, now) + [now]];
      && (forall k :: k in t && k != key ==> k in hits && t[k] == hits[k])
      && if DecisionOf(hits, w, key, now).Accept? && |recorded| > 10000 then
           forall k :: k in t <==> B.HitSince(recorded, k, now - w.windowMs)
         else t.Keys == hits.Keys + {key}
  {
    B.OneWindowVerdict(B.ListOf(hits, key), w, now);
    var recorded := hits[key := Recent(hits, w, key, now) + [now]];
    forall k | k in recorded
      ensures !Idle(recorded[k], now - w.windowMs) <==> B.HitSince(recorded, k, now - w.windowMs)
    {
      IdleExactly(recorded, k, now - w.windowMs);
    }
    hide After, Idle;
  }

  lemma IdleExactly(hits: B.Hits, key: string, cut: int)
    requires key in hits
    ensures !Idle(hits[key], cut) <==> B.HitSince(hits, key, cut)
  {
    if !Idle(hits[key], cut) {
      var i :| 0 <= i < |hits[key]| && hits[key][i] > cut;
      assert hits[key][i] in hits[key];
    }
  }

  // ---------------------------------------------------------------- runs

  function Answers(hits: B.Hits, w: BudgetWindow, calls: seq<B.Call>): (r: seq<Decision>)
    ensures |r| == |calls|
    decreases |calls|
  {
    if calls == [] then []
    else [DecisionOf(hits, w, calls[0].key, calls[0].now)]
         + Answers(Consumed(hits, w, calls[0].key, calls[0].now), w, calls[1..])
  }

  /** Every call of this object records when it is accepted. */
  predicate AllRecorded(calls: seq<B.Call>) {
    forall i :: 0 <= i < |calls| ==> calls[i].record
  }

  ghost predicate Refines(hits: B.Hits, log: B.Hits, w: BudgetWindow, now: int) {
    forall key :: Agree(B.ListOf(hits, key), B.ListOf(log, key), now, w.windowMs)
  }

  lemma CleaningIsInvisible(hits: B.Hits, log: B.Hits, w: BudgetWindow, now: int)
    requires Refines(hits, log, w, now)
    ensures Refines(Cleaned(hits, now - w.windowMs), log, w, now)
  {
    var cut := now - w.windowMs;
    forall key, c | c >= cut
      ensures After(B.ListOf(Cleaned(hits, cut), key), c) == After(B.ListOf(log, key), c)
    {
      assert Agree(B.ListOf(hits, key), B.ListOf(log, key), now, w.windowMs);
      if key in hits && Idle(hits[key], cut) {
        AfterNone(hits[key], c);
      }
    }
  }

  lemma DecisionIsTheLogs(hits: B.Hits, log: B.Hits, w: BudgetWindow, at: int, c: B.Call)
    requires Refines(hits, log, w, at) && at <= c.now
    ensures DecisionOf(hits, w, c.key, c.now) == B.LogDecision(log, (key: string) => [w], c)
    ensures DecisionOf(hits, w, c.key, c.now).Accept? <==> |Recent(hits, w, c.key, c.now)| < w.limit
    ensures Agree(Recent(hits, w, c.key, c.now), B.ListOf(log, c.key), c.now, w.windowMs)
  {
    var list, full, cut := B.ListOf(hits, c.key), B.ListOf(log, c.key), c.now - w.windowMs;
    AgreeLater(list, full, at, c.now, w.windowMs);
    AgreePruned(list, full, c.now, w.windowMs, cut);
    B.OneWindow(After(list, cut), w, c.now);
    B.OneWindow(full, w, c.now);
    AfterAfter(list, cut, cut);
    B.OneWindowVerdict(list, w, c.now);
  }

  lemma CallRefines(hits: B.Hits, log: B.Hits, w: BudgetWindow, at: int, c: B.Call)
    requires Refines(hits, log, w, at) && at <= c.now && c.record
    ensures DecisionOf(hits, w, c.key, c.now) == B.LogDecision(log, (key: string) => [w], c)
    ensures Refines(Consumed(hits, w, c.key, c.now), B.LogStep(log, (key: string) => [w], c), w, c.now)
  {
    hide B.LogDecision, DecisionOf, Cleaned, Recent;
    DecisionIsTheLogs(hits, log, w, at, c);
    var recent, log' := Recent(hits, w, c.key, c.now), B.LogStep(log, (key: string) => [w], c);
    AgreeRecorded(recent, B.ListOf(log, c.key), c.now, w.windowMs);
    var grown := if |recent| >= w.limit then hits[c.key := recent] else hits[c.key := recent + [c.now]];
    forall key
      ensures Agree(B.ListOf(grown, key), B.ListOf(log', key), c.now, w.windowMs)
    {
      if key != c.key {
        AgreeLater(B.ListOf(hits, key), B.ListOf(log, key), at, c.now, w.windowMs);
        assert B.ListOf(log', key) == B.ListOf(log, key);
      }
    }
    CleaningIsInvisible(grown, log', w, c.now);
  }

  lemma {:induction false} AnswersAreTheLogs(hits: B.Hits, log: B.Hits, w: BudgetWindow, at: int, calls: seq<B.Call>)
    requires Refines(hits, log, w, at) && B.Timed(at, calls) && AllRecorded(calls)
    ensures Answers(hits, w, calls) == B.LogAnswers(log, (key: string) => [w], calls)
    decreases |calls|
  {
    hide Consumed, DecisionOf, B.LogStep, B.LogDecision, Refines;
    if calls != [] {
      var plan: B.Plan := (key: string) => [w];
      var c := calls[0];
      CallRefines(hits, log, w, at, c);
      AnswersAreTheLogs(Consumed(hits, w, c.key, c.now), B.LogStep(log, plan, c), w, c.now, calls[1..]);
    }
  }

  // With no window bound at all: this object prunes only inside its own window.
  lemma {:induction false} GeoAnswersAsLog(w: BudgetWindow, at: int, calls: seq<B.Call>)
    requires B.Timed(at, calls) && AllRecorded(calls)
    ensures Answers(map[], w, calls) == B.LogAnswers(map[], (key: string) => [w], calls)
  {
    AnswersAreTheLogs(map[], map[], w, at, calls);
  }

  // The general store could absorb it: same answers, call by call, for windows it remembers.
  lemma {:induction false} GeneralStoreAbsorbsGeo(w: BudgetWindow, at: int, calls: seq<B.Call>)
    requires B.Timed(at, calls) && AllRecorded(calls) && w.windowMs <= B.MAX_HORIZON_MS
    ensures Answers(map[], w, calls) == B.Answers(B.Store(map[], None), (key: string) => [w], calls)
  {
    var plan: B.Plan := (key: string) => [w];
    assert Horizon([w]) == Max(Horizon([w][..0]), w.windowMs);
    GeoAnswersAsLog(w, at, calls);
    B.StoreAnswersAsLog(plan, at, calls);
  }

  // Its Retry-After is exact too, whatever other readers do in between.
  lemma RetryAfterIsHonoured(
    w: BudgetWindow, at: int, before: seq<B.Call>, refused: B.Call, between: seq<B.Call>, again: B.Call, x: nat)
    requires B.Timed(at, before + [refused] + between + [again]) && AllRecorded(before + [refused] + between + [again])
    requires B.AsksAgain((key: string) => [w], before, refused, between, again, x)
    requires Answers(map[], w, before + [refused] + between + [again])[|before|].Refuse?
    ensures var answers := Answers(map[], w, before + [refused] + between + [again]);
            && answers[|before|].wait.Seconds?
            && (answers[|before| + 1 + |between|].Accept? <==> x >= answers[|before|].wait.n)
  {
    GeoAnswersAsLog(w, at, before + [refused] + between + [again]);
    B.LogRetryAfter((key: string) => [w], at, before, refused, between, again, x);
  }
}
