/** Flags of a run that one kind of event sets and another clears. */
module Histories {
  /** The last event before `n` that is in `on` or `off` was in `on`; with none it is as at the start. */
  ghost predicate Since(initially: bool, on: iset<nat>, off: iset<nat>, n: nat) {
    || (initially && forall m: nat :: m < n ==> m !in off)
    || exists m: nat :: m < n && m in on && forall k: nat :: m < k < n ==> k !in off
  }

  lemma SinceStep(initially: bool, on: iset<nat>, off: iset<nat>, n: nat)
    ensures Since(initially, on, off, n + 1) <==> n in on || (Since(initially, on, off, n) && n !in off)
  {
    if Since(initially, on, off, n) && n !in off && !(initially && forall m: nat :: m < n ==> m !in off) {
      var m: nat :| m < n && m in on && forall k: nat :: m < k < n ==> k !in off;
      assert forall k: nat :: m < k < n + 1 ==> k !in off;
    }
  }

  /** The `m`-th event sets the flag, clears it, or leaves it. */
  ghost predicate Tells(flag: nat -> bool, on: iset<nat>, off: iset<nat>, m: nat) {
    flag(m + 1) <==> m in on || (flag(m) && m !in off)
  }

  lemma {:induction false} TellsOverRuns(flag: nat -> bool, on: iset<nat>, off: iset<nat>, n: nat)
    requires forall m: nat :: m < n ==> Tells(flag, on, off, m)
    ensures flag(n) <==> Since(flag(0), on, off, n)
  {
    if n > 0 {
      TellsOverRuns(flag, on, off, n - 1);
      assert Tells(flag, on, off, n - 1);
      SinceStep(flag(0), on, off, n - 1);
    }
  }
}
