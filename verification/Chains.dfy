/** Following a partial successor function: when does it come to an end? */
module Chains {
  import opened Common

  /** Where `n` steps lead, if there are that many. */
  function Follow<T>(next: T -> Option<T>, t: T, n: nat): Option<T> {
    if n == 0 then Some(t)
    else match next(t)
      case None => None
      case Some(u) => Follow(next, u, n - 1)
  }

  ghost predicate EndsAt<T>(next: T -> Option<T>, t: T, n: nat) {
    Follow(next, t, n).Some? && next(Follow(next, t, n).value).None?
  }

  ghost predicate Ends<T>(next: T -> Option<T>, t: T) {
    exists n: nat :: EndsAt(next, t, n)
  }

  ghost predicate Repeats<T(!new)>(next: T -> Option<T>, t: T, i: nat, j: nat) {
    i < j && Follow(next, t, i).Some? && Follow(next, t, i) == Follow(next, t, j)
  }

  lemma {:induction false} FollowFurther<T>(next: T -> Option<T>, t: T, i: nat, m: nat)
    ensures Follow(next, t, i + m) ==
            if Follow(next, t, i).None? then None else Follow(next, Follow(next, t, i).value, m)
  {
    if i > 0 && next(t).Some? {
      FollowFurther(next, next(t).value, i - 1, m);
    }
  }

  lemma OneFurther<T>(next: T -> Option<T>, t: T, i: nat)
    requires Follow(next, t, i).Some?
    ensures Follow(next, t, i + 1) == next(Follow(next, t, i).value)
  {
    FollowFurther(next, t, i, 1);
    var u := Follow(next, t, i).value;
    assert Follow(next, u, 1) == next(u) by {
      if next(u).Some? {
        assert Follow(next, next(u).value, 0) == next(u);
      }
    }
  }

  /** Nothing lies beyond the end. */
  lemma NothingBeyond<T>(next: T -> Option<T>, t: T, n: nat, k: nat)
    requires EndsAt(next, t, n) && n < k
    ensures Follow(next, t, k).None?
  {
    OneFurther(next, t, n);
    FollowFurther(next, t, n + 1, k - (n + 1));
  }

  lemma RepeatingNeverEnds<T(!new)>(next: T -> Option<T>, t: T, i: nat, j: nat, n: nat)
    requires Repeats(next, t, i, j)
    ensures !EndsAt(next, t, n)
  {
    if EndsAt(next, t, n) {
      if n < j {
        NothingBeyond(next, t, n, j);
      } else {
        // the end is reached from position j, hence also from i, which is earlier
        FollowFurther(next, t, j, n - j);
        FollowFurther(next, t, i, n - j);
        assert EndsAt(next, t, i + (n - j));
        NothingBeyond(next, t, i + (n - j), n);
      }
    }
  }

  lemma {:induction false} RunsOn<T>(next: T -> Option<T>, t: T, n: nat)
    requires forall k: nat :: k < n ==> !EndsAt(next, t, k)
    ensures Follow(next, t, n).Some?
  {
    if n > 0 {
      RunsOn(next, t, n - 1);
      OneFurther(next, t, n - 1);
      assert !EndsAt(next, t, n - 1);
    }
  }

  /** More entries than there are values: two of them are equal. */
  lemma {:induction false} Pigeonhole<T>(entries: seq<T>, values: set<T>)
    requires |entries| > |values| && forall i :: 0 <= i < |entries| ==> entries[i] in values
    ensures exists i, j :: 0 <= i < j < |entries| && entries[i] == entries[j]
  {
    var last := |entries| - 1;
    if forall i :: 0 <= i < last ==> entries[i] != entries[last] {
      var init := entries[..last];
      Pigeonhole(init, values - {entries[last]});
      var i, j :| 0 <= i < j < |init| && init[i] == init[j];
      assert entries[i] == entries[j];
    }
  }

  /** The successors of `t` are all among `values`. */
  ghost predicate Within<T(!new)>(next: T -> Option<T>, values: set<T>) {
    forall x: T :: next(x).Some? ==> next(x).value in values
  }

  lemma EndsSoonOrRepeats<T(!new)>(next: T -> Option<T>, t: T, values: set<T>)
    requires Within(next, values)
    ensures (exists n: nat :: n <= |values| && EndsAt(next, t, n)) || exists i: nat, j: nat :: Repeats(next, t, i, j)
  {
    var most := |values|;
    if forall k: nat :: k < most + 1 ==> !EndsAt(next, t, k) {
      forall k: nat | k <= most + 1 ensures Follow(next, t, k).Some? {
        RunsOn(next, t, k);
      }
      var entries := seq(most + 1, k requires 0 <= k < most + 1 => Follow(next, t, k + 1).value);
      forall k | 0 <= k < |entries| ensures entries[k] in values {
        OneFurther(next, t, k);
      }
      Pigeonhole(entries, values);
      var i, j :| 0 <= i < j < |entries| && entries[i] == entries[j];
      assert Repeats(next, t, i + 1, j + 1);
    }
  }

  /** A chain through finitely many values ends exactly when it never comes back to a value. */
  lemma EndsIffNoRepeat<T(!new)>(next: T -> Option<T>, t: T, values: set<T>)
    requires Within(next, values)
    ensures Ends(next, t) <==> forall i: nat, j: nat :: !Repeats(next, t, i, j)
    ensures Ends(next, t) ==> exists n: nat :: n <= |values| && EndsAt(next, t, n)
  {
    if i: nat, j: nat :| Repeats(next, t, i, j) {
      forall n: nat ensures !EndsAt(next, t, n) {
        RepeatingNeverEnds(next, t, i, j, n);
      }
    } else {
      EndsSoonOrRepeats(next, t, values);
    }
  }

  /** A chain along which a rank falls ends. */
  lemma {:induction false} RankedEnds<T(!new)>(next: T -> Option<T>, t: T, rank: T -> nat)
    requires forall x: T :: next(x).Some? ==> rank(next(x).value) < rank(x)
    ensures Ends(next, t)
    decreases rank(t)
  {
    if next(t).None? {
      assert EndsAt(next, t, 0);
    } else {
      var u := next(t).value;
      RankedEnds(next, u, rank);
      var n: nat :| EndsAt(next, u, n);
      assert EndsAt(next, t, n + 1);
    }
  }
}
