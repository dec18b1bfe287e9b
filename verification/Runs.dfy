/** Runs of a step machine, whatever its states: where they start is `first`, and `Next` says which
    state may follow which. */
module Runs {
  ghost predicate IsRunOf<S(!new)>(run: seq<S>, first: S, Next: (S, S) -> bool) {
    && run != [] && run[0] == first
    && forall i :: 0 < i < |run| ==> Next(run[i - 1], run[i])
  }

  ghost predicate ReachableBy<S(!new)>(s: S, first: S, Next: (S, S) -> bool) {
    exists run :: IsRunOf(run, first, Next) && run[|run| - 1] == s
  }

  lemma FirstReachable<S(!new)>(first: S, Next: (S, S) -> bool)
    ensures ReachableBy(first, first, Next)
  {
    var run := [first];
    assert IsRunOf(run, first, Next) && run[|run| - 1] == first;
  }

  lemma NextReachable<S(!new)>(s: S, s': S, first: S, Next: (S, S) -> bool)
    requires ReachableBy(s, first, Next) && Next(s, s')
    ensures ReachableBy(s', first, Next)
  {
    var run :| IsRunOf(run, first, Next) && run[|run| - 1] == s;
    var longer := run + [s'];
    assert IsRunOf(longer, first, Next) && longer[|longer| - 1] == s';
  }

  /** Every state of a run is reachable. */
  lemma StateReachable<S(!new)>(run: seq<S>, n: nat, first: S, Next: (S, S) -> bool)
    requires IsRunOf(run, first, Next) && n < |run|
    ensures ReachableBy(run[n], first, Next)
  {
    var before := run[..n + 1];
    assert IsRunOf(before, first, Next) && before[|before| - 1] == run[n];
  }

  /** What holds at first and is kept by every step holds along every run. */
  lemma {:induction false} InvariantHolds<S(!new)>(run: seq<S>, n: nat, first: S, Next: (S, S) -> bool, Inv: S -> bool)
    requires IsRunOf(run, first, Next) && n < |run|
    requires Inv(first) && forall s, s' :: Inv(s) && Next(s, s') ==> Inv(s')
    ensures Inv(run[n])
  {
    if n > 0 {
      InvariantHolds(run, n - 1, first, Next, Inv);
      assert Next(run[n - 1], run[n]);
    }
  }

  lemma InvariantOfReachable<S(!new)>(s: S, first: S, Next: (S, S) -> bool, Inv: S -> bool)
    requires ReachableBy(s, first, Next)
    requires Inv(first) && forall s, s' :: Inv(s) && Next(s, s') ==> Inv(s')
    ensures Inv(s)
  {
    var run :| IsRunOf(run, first, Next) && run[|run| - 1] == s;
    InvariantHolds(run, |run| - 1, first, Next, Inv);
  }
}
