/**
 Runs of a machine: `next` gives the state that an action leads to, or none if it cannot be taken.
 The queue, the srd task and the end of a sealing are such machines.
 */
module Runs {
  import opened Basics

  /** The actions lead from `s` to `s'`. */
  ghost predicate Run<S(!new), A>(next: (S, A) -> Option<S>, s: S, actions: seq<A>, s': S)
    decreases |actions|
  {
    if actions == [] then s' == s
    else next(s, actions[0]).Some? && Run(next, next(s, actions[0]).value, actions[1..], s')
  }

  lemma {:induction false} RunAppend<S(!new), A>(
      next: (S, A) -> Option<S>, s: S, a: seq<A>, m: S, b: seq<A>, s': S)
    requires Run(next, s, a, m) && Run(next, m, b, s')
    ensures Run(next, s, a + b, s')
    decreases |a|
  {
    if a == [] {
      assert a + b == b;
    } else {
      RunAppend(next, next(s, a[0]).value, a[1..], m, b, s');
      assert (a + b)[0] == a[0] && (a + b)[1..] == a[1..] + b;
    }
  }

  lemma RunFirst<S(!new), A>(next: (S, A) -> Option<S>, s: S, a: A, rest: seq<A>, s': S)
    requires Run(next, s, [a] + rest, s')
    ensures next(s, a).Some? && Run(next, next(s, a).value, rest, s')
  {
    assert ([a] + rest)[1..] == rest;
  }

  lemma RunOne<S(!new), A>(next: (S, A) -> Option<S>, s: S, a: A)
    requires next(s, a).Some?
    ensures Run(next, s, [a], next(s, a).value)
  {
    assert [a][1..] == [];
  }

  lemma RunOn<S(!new), A>(next: (S, A) -> Option<S>, s: S, actions: seq<A>, s': S, a: A)
    requires Run(next, s, actions, s') && next(s', a).Some?
    ensures Run(next, s, actions + [a], next(s', a).value)
  {
    RunOne(next, s', a);
    RunAppend(next, s, actions, s', [a], next(s', a).value);
  }

  /** The action leaves the property of the state as it is. */
  ghost predicate Keeps<S(!new), A(!new)>(next: (S, A) -> Option<S>, inv: S -> bool) {
    forall s, a :: inv(s) && next(s, a).Some? ==> inv(next(s, a).value)
  }

  /** What every action keeps, every run keeps. */
  lemma {:induction false} RunKeeps<S(!new), A(!new)>(
      next: (S, A) -> Option<S>, inv: S -> bool, s: S, actions: seq<A>, s': S)
    requires Keeps(next, inv) && inv(s) && Run(next, s, actions, s')
    ensures inv(s')
    decreases |actions|
  {
    if actions != [] {
      RunKeeps(next, inv, next(s, actions[0]).value, actions[1..], s');
    }
  }
}
