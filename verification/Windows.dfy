/**
 Two ring buffers: the success rate over the last requests, and the times of the last calls. Both
 overwrite one slot per event; what they must refine is "the last N events".
 */
module Windows {
  import opened Common

  // ----- rings as sequences

  /** A ring read from slot `p` round to the slot before it. */
  function From<T>(ring: seq<T>, p: nat): seq<T>
    requires p <= |ring|
  {
    ring[p..] + ring[..p]
  }

  function Suffix<T>(s: seq<T>, n: nat): seq<T>
    requires n <= |s|
  {
    s[|s| - n..]
  }

  function Fill<T>(n: nat, x: T): seq<T> {
    seq(n, i => x)
  }

  lemma FillTurns<T>(n: nat, x: T, p: nat)
    requires p <= n
    ensures From(Fill(n, x), p) == Fill(n, x) == Suffix(Fill(n, x), n)
  {
  }

  /** Overwriting slot `p` and moving on drops the oldest entry and appends the new one. */
  lemma Overwrite<T>(ring: seq<T>, p: nat, x: T)
    requires p < |ring|
    ensures From(ring[p := x], (p + 1) % |ring|) == From(ring, p)[1..] + [x]
  {
    NextSlot(p, |ring|);
  }

  lemma NextSlot(p: nat, n: nat)
    requires p < n
    ensures (p + 1) % n == if p + 1 == n then 0 else p + 1
  {
  }

  lemma SuffixMoves<T>(s: seq<T>, n: nat, x: T)
    requires 0 < n <= |s|
    ensures Suffix(s + [x], n) == Suffix(s, n)[1..] + [x]
  {
  }

  /** A ring that holds the last entries of a padded history still does after one more event. */
  lemma RingStep<T>(ring: seq<T>, p: nat, pad: seq<T>, history: seq<T>, x: T)
    requires p < |ring| && |pad| == |ring|
    requires From(ring, p) == Suffix(pad + history, |ring|)
    ensures From(ring[p := x], (p + 1) % |ring|) == Suffix(pad + (history + [x]), |ring|)
    ensures ring[p] == Suffix(pad + history, |ring|)[0]
  {
    Overwrite(ring, p, x);
    SuffixMoves(pad + history, |ring|, x);
    assert (pad + history) + [x] == pad + (history + [x]);
    assert From(ring, p)[0] == ring[p];
  }

  function Trues(s: seq<bool>): nat {
    if s == [] then 0 else (if s[0] then 1 else 0) + Trues(s[1..])
  }

  lemma {:induction false} TruesConcat(a: seq<bool>, b: seq<bool>)
    ensures Trues(a + b) == Trues(a) + Trues(b)
  {
    if a == [] {
      assert a + b == b;
    } else {
      assert (a + b)[1..] == a[1..] + b;
      TruesConcat(a[1..], b);
    }
  }

  /** The positions that hold true; there are as many as `Trues` says. */
  ghost function TruePositions(s: seq<bool>): set<nat> {
    set i: nat | i < |s| && s[i]
  }

  lemma OnePositionMore(s: seq<bool>, x: bool)
    ensures |TruePositions(s + [x])| == |TruePositions(s)| + if x then 1 else 0
  {
    assert TruePositions(s + [x]) == TruePositions(s) + if x then {|s|} else {};
  }

  lemma {:induction false} TruesCounts(s: seq<bool>)
    ensures Trues(s) == |TruePositions(s)|
  {
    if s != [] {
      var init, n := s[..|s| - 1], |s| - 1;
      TruesCounts(init);
      TruesConcat(init, [s[n]]);
      assert s == init + [s[n]];
      OnePositionMore(init, s[n]);
    } else {
      assert TruePositions(s) == {};
    }
  }

  /** The last min(n, |events|) events. */
  function LastEvents<T>(events: seq<T>, n: nat): seq<T> {
    if |events| <= n then events else Suffix(events, n)
  }

  lemma {:induction false} TruesBound(s: seq<bool>)
    ensures Trues(s) <= |s|
  {
    if s != [] {
      TruesBound(s[1..]);
    }
  }

  // ----- analytics

  class Analytics {
    var success: int
    var failures: int
    var lastRequest: nat
    const lastRequests: array<bool>
    const totalRequests: nat
    ghost var events: seq<bool>

    ghost predicate Valid()
      reads this, lastRequests
    {
      && 0 < totalRequests == lastRequests.Length
      && lastRequest < totalRequests
      && From(lastRequests[..], lastRequest) == Suffix(Fill(totalRequests, false) + events, totalRequests)
      && success == Trues(LastEvents(events, totalRequests))
      && success + failures == |LastEvents(events, totalRequests)|
    }

    constructor (requests: nat)
      requires requests > 0
      ensures Valid() && events == [] && totalRequests == requests && fresh(lastRequests)
    {
      success, failures, lastRequest := 0, 0, 0;
      lastRequests := new bool[requests](i => false);
      totalRequests := requests;
      events := [];
      new;
      assert From(lastRequests[..], 0) == Fill(totalRequests, false);
      assert Suffix(Fill(totalRequests, false) + [], totalRequests) == Fill(totalRequests, false);
    }

    /**
     `bump`. The two counts are non-negative where the code would panic if they were not.
     */
    method Bump(ok: bool)
      requires Valid()
      modifies this, lastRequests
      ensures Valid() && events == old(events) + [ok]
    {
      RingStep(lastRequests[..], lastRequest, Fill(totalRequests, false), events, ok);
      WindowStep(events, totalRequests, ok);
      CountsStayNatural(events + [ok], totalRequests);
      ghost var slots := lastRequests[..];
      var total := success + failures;
      if ok {
        success := success + 1;
      } else {
        failures := failures + 1;
      }
      if total >= totalRequests {
        if lastRequests[lastRequest] {
          success := success - 1;
        } else {
          failures := failures - 1;
        }
        assert success >= 0 && failures >= 0;
      }
      lastRequests[lastRequest] := ok;
      assert lastRequests[..] == slots[lastRequest := ok];
      lastRequest := (lastRequest + 1) % totalRequests;
      events := events + [ok];
    }

    /** 1 until the window is full, then the share of successes in it. */
    method GetSuccessRate() returns (rate: real)
      requires Valid()
      ensures rate == if |events| < totalRequests then 1.0
                      else |TruePositions(Suffix(events, totalRequests))| as real / totalRequests as real
    {
      TruesCounts(LastEvents(events, totalRequests));
      var total := success + failures;
      if total != totalRequests {
        return 1.0;
      }
      return success as real / total as real;
    }
  }

  /** How the window's counts change: grow while there is room, else exchange the oldest event. */
  lemma WindowStep(events: seq<bool>, n: nat, ok: bool)
    requires n > 0
    ensures Trues(LastEvents(events + [ok], n)) ==
            Trues(LastEvents(events, n)) + (if ok then 1 else 0)
            - (if |events| >= n && Suffix(Fill(n, false) + events, n)[0] then 1 else 0)
    ensures |LastEvents(events + [ok], n)| == |LastEvents(events, n)| + if |events| >= n then 0 else 1
  {
    if |events| < n {
      TruesConcat(events, [ok]);
      assert LastEvents(events + [ok], n) == events + [ok];
    } else {
      FullWindowStep(events, n, ok);
      PaddingIsPast(Fill(n, false), events, n);
    }
  }

  /** A full window drops its oldest event. */
  lemma FullWindowStep(events: seq<bool>, n: nat, ok: bool)
    requires 0 < n <= |events|
    ensures |LastEvents(events, n)| == n
    ensures LastEvents(events + [ok], n) == LastEvents(events, n)[1..] + [ok]
    ensures Trues(LastEvents(events + [ok], n)) ==
            Trues(LastEvents(events, n)) + (if ok then 1 else 0) - (if LastEvents(events, n)[0] then 1 else 0)
  {
    var window := LastEvents(events, n);
    assert window == Suffix(events, n);
    SuffixMoves(events, n, ok);
    TruesConcat(window[1..], [ok]);
  }

  /** The padding is out of sight once the window is full. */
  lemma PaddingIsPast<T>(pad: seq<T>, events: seq<T>, n: nat)
    requires 0 < n <= |events|
    ensures Suffix(pad + events, n) == LastEvents(events, n)
  {
    assert LastEvents(events, n) == Suffix(events, n);
  }

  lemma CountsStayNatural(events: seq<bool>, n: nat)
    ensures 0 <= Trues(LastEvents(events, n)) <= |LastEvents(events, n)|
  {
    TruesBound(LastEvents(events, n));
  }

  // ----- the rolling limit

  class RollingLimit<T> {
    var index: nat
    const limit: nat
    const times: array<Option<T>>
    ghost var pushed: seq<T>

    ghost predicate Valid()
      reads this, times
    {
      && 0 < limit == times.Length
      && index < limit
      && From(times[..], (index + 1) % limit) == Suffix(Fill(limit, None) + Somes(pushed), limit)
    }

    constructor (size: nat)
      requires size > 0
      ensures Valid() && pushed == [] && limit == size && fresh(times)
    {
      index, limit := 0, size;
      times := new Option<T>[size](i => None);
      pushed := [];
      new;
      NextSlot(0, size);
      EmptyRing(times[..], if size == 1 then 0 else 1, []);
      assert Somes(pushed) == [];
    }

    method Push(t: T)
      requires Valid()
      modifies this, times
      ensures Valid() && pushed == old(pushed) + [t]
    {
      var slot := (index + 1) % limit;
      RingStep(times[..], slot, Fill(limit, None), Somes(pushed), Some(t));
      assert Somes(pushed + [t]) == Somes(pushed) + [Some(t)];
      ghost var slots := times[..];
      index := slot;
      times[index] := Some(t);
      assert times[..] == slots[slot := Some(t)];
      pushed := pushed + [t];
    }

    /** The `limit`-th last push, or nothing when there were fewer: what the throttle compares with. */
    method Oldest() returns (t: Option<T>)
      requires Valid()
      ensures t == if |pushed| < limit then None else Some(pushed[|pushed| - limit])
    {
      var slot := (index + 1) % limit;
      assert times[slot] == From(times[..], slot)[0];
      t := times[slot];
    }
  }

  lemma EmptyRing<T>(ring: seq<Option<T>>, p: nat, history: seq<Option<T>>)
    requires p <= |ring| && history == [] && forall i :: 0 <= i < |ring| ==> ring[i] == None
    ensures From(ring, p) == Suffix(Fill(|ring|, None) + history, |ring|)
  {
    assert ring == Fill(|ring|, None) == Fill(|ring|, None) + history;
    FillTurns<Option<T>>(|ring|, None, p);
  }

  function Somes<T>(s: seq<T>): seq<Option<T>> {
    seq(|s|, i requires 0 <= i < |s| => Some(s[i]))
  }
}
