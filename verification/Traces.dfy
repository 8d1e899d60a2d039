/** What has happened in a run and has not been undone since. */
module Traces {

  /** Step `i`, before step `n`, starts it, and none of those between ends it. */
  ghost predicate SinceStep(starts: nat -> bool, ends: nat -> bool, i: nat, n: nat) {
    i < n && starts(i) && forall k: nat :: i < k < n ==> !ends(k)
  }

  ghost predicate Since(starts: nat -> bool, ends: nat -> bool, n: nat) {
    exists i: nat :: SinceStep(starts, ends, i, n)
  }

  lemma SinceNext(starts: nat -> bool, ends: nat -> bool, m: nat)
    ensures Since(starts, ends, m + 1) <==> starts(m) || (Since(starts, ends, m) && !ends(m))
  {
    var n := m + 1;
    if i: nat :| SinceStep(starts, ends, i, n) && i < m {
      assert SinceStep(starts, ends, i, m);
    }
    if Since(starts, ends, m) && !ends(m) {
      var i: nat :| SinceStep(starts, ends, i, m);
      assert SinceStep(starts, ends, i, n);
    }
    if starts(m) {
      assert SinceStep(starts, ends, m, n);
    }
  }

  /** Step `m` turns `p` on if it starts it, and off if it ends it. */
  ghost predicate Switches(p: nat -> bool, starts: nat -> bool, ends: nat -> bool, m: nat) {
    p(m + 1) <==> starts(m) || (p(m) && !ends(m))
  }

  /** What is off at first and is switched by every step is on exactly since it was last started. */
  lemma {:induction false} SinceIff(p: nat -> bool, starts: nat -> bool, ends: nat -> bool, n: nat)
    requires !p(0) && forall m: nat :: m < n ==> Switches(p, starts, ends, m)
    ensures p(n) <==> Since(starts, ends, n)
  {
    if n > 0 {
      SinceIff(p, starts, ends, n - 1);
      SinceNext(starts, ends, n - 1);
      assert Switches(p, starts, ends, n - 1);
    }
  }

  /** It happened at some step before step `n`. */
  ghost predicate Ever(happens: nat -> bool, n: nat) {
    exists i: nat :: i < n && happens(i)
  }

  function Never(): nat -> bool {
    (k: nat) => false
  }

  /** What nothing ends is on exactly since it was ever started. */
  lemma EverIff(p: nat -> bool, starts: nat -> bool, n: nat)
    requires !p(0) && forall m: nat :: m < n ==> Switches(p, starts, Never(), m)
    ensures p(n) <==> Ever(starts, n)
  {
    var never := Never();
    SinceIff(p, starts, never, n);
    if Ever(starts, n) {
      var i: nat :| i < n && starts(i);
      assert SinceStep(starts, never, i, n);
    }
    if Since(starts, never, n) {
      var i: nat :| SinceStep(starts, never, i, n);
      assert i < n && starts(i);
    }
  }
}
