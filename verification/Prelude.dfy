/** Shared vocabulary: optional values, and runs of a transition system. */
module Prelude {

  datatype Option<+T> = None | Some(value: T)

  function Get<K, V>(m: map<K, V>, k: K): Option<V> {
    if k in m then Some(m[k]) else None
  }

  function Max(a: int, b: int): int {
    if a < b then b else a
  }

  function Min(a: int, b: int): int {
    if a < b then a else b
  }
}

/**
 Runs of a transition system. `step(s, a, t)` says that action `a` may take state `s` to
 state `t`; a run is any finite sequence of actions, so every statement about runs is a
 statement about every interleaving the actions allow.
 */
module Machine {

  ghost predicate Run<S(!new), A(!new)>(step: (S, A, S) -> bool, s: S, actions: seq<A>, t: S)
    decreases |actions|
  {
    if actions == [] then s == t
    else exists mid :: step(s, actions[0], mid) && Run(step, mid, actions[1..], t)
  }

  ghost predicate Preserves<S(!new), A(!new)>(step: (S, A, S) -> bool, inv: S -> bool) {
    forall s, a, t :: inv(s) && step(s, a, t) ==> inv(t)
  }

  ghost predicate Advances<S(!new), A(!new)>(step: (S, A, S) -> bool, inv: S -> bool, rel: (S, S) -> bool) {
    && (forall s :: inv(s) ==> rel(s, s))
    && (forall s, t, u :: rel(s, t) && rel(t, u) ==> rel(s, u))
    && (forall s, a, t :: inv(s) && step(s, a, t) ==> rel(s, t))
  }

  // What every step keeps, every run keeps.
  lemma {:induction false} RunKeeps<S(!new), A(!new)>(
    step: (S, A, S) -> bool, inv: S -> bool, s: S, actions: seq<A>, t: S)
    requires Preserves(step, inv) && inv(s) && Run(step, s, actions, t)
    ensures inv(t)
    decreases |actions|
  {
    if actions != [] {
      var mid :| step(s, actions[0], mid) && Run(step, mid, actions[1..], t);
      RunKeeps(step, inv, mid, actions[1..], t);
    }
  }

  // A preorder that every step respects holds between the ends of every run.
  lemma {:induction false} RunAdvances<S(!new), A(!new)>(
    step: (S, A, S) -> bool, inv: S -> bool, rel: (S, S) -> bool, s: S, actions: seq<A>, t: S)
    requires Preserves(step, inv) && Advances(step, inv, rel)
    requires inv(s) && Run(step, s, actions, t)
    ensures rel(s, t)
    decreases |actions|
  {
    if actions != [] {
      var mid :| step(s, actions[0], mid) && Run(step, mid, actions[1..], t);
      RunAdvances(step, inv, rel, mid, actions[1..], t);
    }
  }

  lemma RunOne<S(!new), A(!new)>(step: (S, A, S) -> bool, s: S, a: A, mid: S, actions: seq<A>, t: S)
    requires step(s, a, mid) && Run(step, mid, actions, t)
    ensures Run(step, s, [a] + actions, t)
  {
    assert ([a] + actions)[1..] == actions;
  }
}
