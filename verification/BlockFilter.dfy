/**
 Block filters: eth_newBlockFilter installs a cursor, eth_getFilterChanges answers the hashes
 above it and moves it. Polls of the same filter may overlap and may fail at any call.
 */
module BlockFilter {
  import opened Common

  /** The uint64 arithmetic of the code. */
  const WORD := 0x1_0000_0000_0000_0000

  type Word = n: nat | n < WORD

  /** The longest slice of interfaces that can be allocated in a 48-bit address space. */
  const MAX_SLICE := 0x1000_0000_0000

  type Height = n: nat | n <= MAX_SLICE

  function Minus(a: Word, b: Word): Word {
    (a - b) % WORD
  }

  function Plus(a: Word, b: Word): Word {
    (a + b) % WORD
  }

  lemma WithoutWrap(a: Word, b: Word)
    ensures b <= a ==> Minus(a, b) == a - b
    ensures a < b ==> Minus(a, b) == a - b + WORD
    ensures a + b < WORD ==> Plus(a, b) == a + b
  {
  }

  /** The heights lo+1 .. hi, in order. */
  function Above(lo: nat, hi: nat): (r: seq<nat>)
    ensures |r| == (if lo <= hi then hi - lo else 0)
    ensures forall i :: 0 <= i < |r| ==> r[i] == lo + 1 + i
  {
    if lo >= hi then [] else Above(lo, hi - 1) + [hi]
  }

  lemma AboveContains(lo: nat, hi: nat, h: nat)
    ensures h in Above(lo, hi) <==> lo < h <= hi
  {
    if lo < h <= hi {
      assert Above(lo, hi)[h - lo - 1] == h;
    }
  }

  lemma {:induction false} AboveSplit(lo: nat, mid: nat, hi: nat)
    requires lo <= mid <= hi
    ensures Above(lo, hi) == Above(lo, mid) + Above(mid, hi)
  {
  }

  // ----- polls one after another

  /** A serial client: the node's height rises by some amount, then a poll fails or succeeds. */
  datatype Poll = Poll(rise: nat, succeeds: bool)

  datatype Serial = Serial(cursor: nat, height: nat, delivered: seq<nat>)

  function SerialPoll(s: Serial, p: Poll): Serial {
    var height := s.height + p.rise;
    if p.succeeds && s.cursor <= height
    then Serial(height, height, s.delivered + Above(s.cursor, height))
    else s.(height := height)
  }

  function SerialRun(install: nat, polls: seq<Poll>): Serial {
    if polls == [] then Serial(install, install, [])
    else SerialPoll(SerialRun(install, polls[..|polls| - 1]), polls[|polls| - 1])
  }

  /** Serial polls, failing as they may: every height up to the cursor, once each, in order. */
  lemma {:induction false} SerialPollsDeliverOnceInOrder(install: nat, polls: seq<Poll>)
    ensures var s := SerialRun(install, polls);
            install <= s.cursor <= s.height && s.delivered == Above(install, s.cursor)
  {
    if polls != [] {
      SerialPollsDeliverOnceInOrder(install, polls[..|polls| - 1]);
      var s := SerialRun(install, polls[..|polls| - 1]);
      AboveSplit(install, s.cursor, s.height + polls[|polls| - 1].rise);
    }
  }

  // ----- one poll, run alone

  /** What one call finds at the node: the height, or a failure, and the hashes it can fetch. */
  datatype Node = Node(height: Option<Height>, hashOf: map<nat, string>)

  datatype Outcome = Hashes(hs: seq<string>) | Failed | Overflow

  /** The loop over the new heights: their hashes in order, or nothing as soon as one is not known. */
  method FetchHashes(last: Height, differ: Word, hashOf: map<nat, string>) returns (r: Option<seq<string>>)
    requires last + differ <= MAX_SLICE
    ensures r.Some? <==> forall h :: last < h <= last + differ ==> h in hashOf
    ensures r.Some? ==>
              var heights := Above(last, last + differ);
              && |r.value| == |heights|
              && forall i :: 0 <= i < |heights| ==> heights[i] in hashOf && r.value[i] == hashOf[heights[i]]
  {
    var hashes: seq<string> := [];
    ghost var heights := Above(last, last + differ);
    for i := 0 to differ
      invariant |hashes| == i
      invariant forall k :: 0 <= k < i ==> heights[k] in hashOf && hashes[k] == hashOf[heights[k]]
    {
      WithoutWrap(last, i);
      WithoutWrap(last + i, 1);
      var blockNumber := Plus(Plus(last, i), 1);
      assert blockNumber == heights[i];
      if blockNumber !in hashOf {
        assert last < blockNumber <= last + differ;
        return None;
      }
      hashes := hashes + [hashOf[blockNumber]];
    }
    forall h | last < h <= last + differ ensures h in hashOf {
      assert heights[h - last - 1] == h;
    }
    return Some(hashes);
  }

  class Filter {
    var lastBlockNumber: Option<Height>

    /** The highest node height a poll has seen, and all heights answered. */
    ghost var seen: nat
    ghost var delivered: seq<nat>

    ghost function View(): Serial
      requires lastBlockNumber.Some?
      reads this
    {
      Serial(lastBlockNumber.value, seen, delivered)
    }

    constructor (height: Height)
      ensures lastBlockNumber.Some? && View() == SerialRun(height, [])
    {
      lastBlockNumber := Some(height);
      seen, delivered := height, [];
    }

    /**
     `requestBlockFilter`. A height below the cursor makes the unsigned difference too large to
     allocate, which ends the call before anything is stored.
     */
    method RequestBlockFilter(node: Node) returns (r: Outcome)
      modifies this
      ensures r.Hashes? <==> && old(lastBlockNumber).Some? && node.height.Some?
                             && old(lastBlockNumber.value) <= node.height.value
                             && forall h :: old(lastBlockNumber.value) < h <= node.height.value ==> h in node.hashOf
      ensures r.Hashes? ==>
                var heights := Above(old(lastBlockNumber.value), node.height.value);
                && lastBlockNumber == node.height
                && |r.hs| == |heights|
                && forall i :: 0 <= i < |heights| ==> heights[i] in node.hashOf && r.hs[i] == node.hashOf[heights[i]]
      ensures !r.Hashes? ==> lastBlockNumber == old(lastBlockNumber)
      // at a height that has not fallen this is one poll of the serial model
      ensures old(lastBlockNumber).Some? && node.height.Some? && old(seen) <= node.height.value ==>
                View() == SerialPoll(old(View()), Poll(node.height.value - old(seen), r.Hashes?))
      ensures old(lastBlockNumber).Some? && node.height.None? ==> View() == SerialPoll(old(View()), Poll(0, false))
      ensures r.Overflow? <==> && old(lastBlockNumber).Some? && node.height.Some?
                               && node.height.value < old(lastBlockNumber.value)
    {
      if lastBlockNumber.None? {
        return Failed;
      }
      var last := lastBlockNumber.value;
      if node.height.None? {
        return Failed;
      }
      var blockCount := node.height.value;
      seen := if seen <= blockCount then blockCount else seen;
      WithoutWrap(blockCount, last);
      var differ := Minus(blockCount, last);
      if differ > MAX_SLICE {
        return Overflow;
      }
      var hashes := FetchHashes(last, differ, node.hashOf);
      if hashes.None? {
        return Failed;
      }
      lastBlockNumber := Some(blockCount);
      delivered := delivered + Above(last, blockCount);
      r := Hashes(hashes.value);
    }
  }

  // ----- overlapping polls

  /** A poll in progress: it has read the cursor, and then the node's height. */
  datatype InFlight = Loaded(last: nat) | Counted(last: nat, count: nat)

  /** `stored` is every value the cursor has had; `answers` the ranges handed to clients. */
  datatype State = State(
    cursor: nat,
    height: nat,
    polls: map<nat, InFlight>,
    stored: set<nat>,
    answers: seq<seq<nat>>)

  datatype Step =
    | Grow(more: nat)
    | Load(id: nat)
    | Count(id: nat)
    | Fail(id: nat)
    | StoreAndAnswer(id: nat)

  ghost function Installed(install: nat): State {
    State(install, install, map[], {install}, [])
  }

  ghost predicate Enabled(s: State, step: Step) {
    match step
    case Grow(more) => true
    case Load(id) => id !in s.polls
    case Count(id) => id in s.polls && s.polls[id].Loaded?
    case Fail(id) => id in s.polls
    case StoreAndAnswer(id) => id in s.polls && s.polls[id].Counted?
  }

  ghost function Apply(s: State, step: Step): State
    requires Enabled(s, step)
  {
    match step
    case Grow(more) => s.(height := s.height + more)
    case Load(id) => s.(polls := s.polls[id := Loaded(s.cursor)])
    case Count(id) => s.(polls := s.polls[id := Counted(s.polls[id].last, s.height)])
    case Fail(id) => s.(polls := s.polls - {id})
    case StoreAndAnswer(id) =>
      var p := s.polls[id];
      s.(cursor := p.count, polls := s.polls - {id}, stored := s.stored + {p.count},
         answers := s.answers + [Above(p.last, p.count)])
  }

  ghost predicate Behaviour(install: nat, states: seq<State>, steps: seq<Step>) {
    && |states| == |steps| + 1
    && states[0] == Installed(install)
    && forall i {:trigger steps[i]} :: 0 <= i < |steps| ==>
         Enabled(states[i], steps[i]) && states[i + 1] == Apply(states[i], steps[i])
  }

  ghost predicate Answered(s: State, h: nat) {
    exists k :: 0 <= k < |s.answers| && h in s.answers[k]
  }

  ghost predicate NoGapBelow(s: State, install: nat, bound: nat) {
    forall h :: install < h <= bound ==> Answered(s, h)
  }

  ghost predicate Inv(s: State, install: nat) {
    && s.cursor in s.stored
    && (forall c :: c in s.stored ==> install <= c <= s.height && NoGapBelow(s, install, c))
    && (forall id :: id in s.polls ==>
          s.polls[id].last in s.stored && (s.polls[id].Counted? ==> s.polls[id].last <= s.polls[id].count <= s.height))
    && (forall k :: 0 <= k < |s.answers| ==> Consecutive(s.answers[k], install, s.height))
    && (forall k :: 0 <= k < |s.answers| ==> BelowStored(s, s.answers[k]))
  }

  /** No answer reaches above every cursor: each of its heights is covered by a stored value. */
  ghost predicate BelowStored(s: State, answer: seq<nat>) {
    forall h :: h in answer ==> Covered(s, h)
  }

  ghost predicate Covered(s: State, h: nat) {
    exists c :: c in s.stored && h <= c
  }

  /** Each answer is a run of consecutive heights between the installation and the node's height. */
  ghost predicate Consecutive(answer: seq<nat>, install: nat, height: nat) {
    forall i :: 0 <= i < |answer| ==> install < answer[i] <= height && answer[i] == answer[0] + i
  }

  lemma StoreStep(s: State, install: nat, id: nat)
    requires Inv(s, install) && Enabled(s, StoreAndAnswer(id))
    ensures Inv(Apply(s, StoreAndAnswer(id)), install)
  {
    var n := Apply(s, StoreAndAnswer(id));
    var p := s.polls[id];
    forall h | Answered(s, h) ensures Answered(n, h) {
      var k :| 0 <= k < |s.answers| && h in s.answers[k];
      assert h in n.answers[k];
    }
    forall h | install < h <= p.count ensures Answered(n, h) {
      if h <= p.last {
        assert NoGapBelow(s, install, p.last);
      } else {
        AboveContains(p.last, p.count, h);
        assert h in n.answers[|s.answers|];
      }
    }
    forall c | c in n.stored ensures install <= c <= n.height && NoGapBelow(n, install, c) {
      if c != p.count {
        assert NoGapBelow(s, install, c);
      }
    }
    forall h | Covered(s, h) ensures Covered(n, h) {
      var c :| c in s.stored && h <= c;
      assert c in n.stored;
    }
    assert forall h: nat :: h <= p.count ==> Covered(n, h) by {
      assert p.count in n.stored;
    }
    forall k | 0 <= k < |n.answers| ensures BelowStored(n, n.answers[k]) {
      if k < |s.answers| {
        assert BelowStored(s, s.answers[k]);
      }
    }
  }

  lemma QuietStep(s: State, install: nat, step: Step)
    requires Inv(s, install) && Enabled(s, step) && !step.StoreAndAnswer?
    ensures Inv(Apply(s, step), install)
  {
    var n := Apply(s, step);
    forall h ensures Answered(n, h) <==> Answered(s, h) {}
    forall c | c in n.stored ensures NoGapBelow(n, install, c) {
      assert NoGapBelow(s, install, c);
    }
    forall k | 0 <= k < |n.answers| ensures Consecutive(n.answers[k], install, n.height) {
      assert Consecutive(s.answers[k], install, s.height);
    }
    forall h ensures Covered(n, h) <==> Covered(s, h) {}
    forall k | 0 <= k < |n.answers| ensures BelowStored(n, n.answers[k]) {
      assert BelowStored(s, s.answers[k]);
    }
  }

  lemma {:induction false} InvariantHolds(install: nat, states: seq<State>, steps: seq<Step>, n: nat)
    requires Behaviour(install, states, steps) && n < |states|
    ensures Inv(states[n], install)
  {
    if n > 0 {
      InvariantHolds(install, states, steps, n - 1);
      if steps[n - 1].StoreAndAnswer? {
        StoreStep(states[n - 1], install, steps[n - 1].id);
      } else {
        QuietStep(states[n - 1], install, steps[n - 1]);
      }
    }
  }

  /**
   However polls of one filter overlap and fail: no height up to any value the cursor has ever
   had is missing from the answers, no answer reaches outside installation..node height, and the
   unsigned difference never wraps.
   */
  lemma OverlappingPollsLeaveNoGap(install: nat, states: seq<State>, steps: seq<Step>, n: nat)
    requires Behaviour(install, states, steps) && n < |states|
    ensures var s := states[n];
      && (forall c :: c in s.stored ==> NoGapBelow(s, install, c))
      && (forall k :: 0 <= k < |s.answers| ==> Consecutive(s.answers[k], install, s.height))
      && (forall id :: id in s.polls && s.polls[id].Counted? ==> s.polls[id].last <= s.polls[id].count)
  {
    InvariantHolds(install, states, steps, n);
  }

  // ----- when a height is answered twice

  /** The storing poll has something to answer although a cursor above its own was stored meanwhile. */
  ghost predicate Overtaken(s: State, p: InFlight) {
    p.Counted? && p.last < p.count && exists c :: c in s.stored && c > p.last
  }

  /** A poll about to store repeats a height exactly when it has been overtaken. */
  lemma RepeatsIffOvertaken(s: State, install: nat, id: nat)
    requires Inv(s, install) && Enabled(s, StoreAndAnswer(id))
    ensures (exists h :: h in Above(s.polls[id].last, s.polls[id].count) && Answered(s, h))
       <==> Overtaken(s, s.polls[id])
  {
    var p := s.polls[id];
    if h :| h in Above(p.last, p.count) && Answered(s, h) {
      AboveContains(p.last, p.count, h);
      var k :| 0 <= k < |s.answers| && h in s.answers[k];
      assert BelowStored(s, s.answers[k]) && Covered(s, h);
    }
    if Overtaken(s, p) {
      var c :| c in s.stored && c > p.last;
      assert NoGapBelow(s, install, c) && Answered(s, p.last + 1);
      AboveContains(p.last, p.count, p.last + 1);
    }
  }

  ghost predicate AnsweredOnce(s: State) {
    forall j, k, h :: 0 <= j < k < |s.answers| && h in s.answers[j] ==> h !in s.answers[k]
  }

  ghost predicate NobodyOvertaken(states: seq<State>, steps: seq<Step>, n: nat)
    requires |states| == |steps| + 1 && n <= |steps|
  {
    forall i {:trigger steps[i]} :: 0 <= i < n && steps[i].StoreAndAnswer? && steps[i].id in states[i].polls ==>
      !Overtaken(states[i], states[i].polls[steps[i].id])
  }

  lemma OnceStep(s: State, install: nat, step: Step)
    requires Inv(s, install) && Enabled(s, step)
    ensures AnsweredOnce(Apply(s, step)) <==>
            AnsweredOnce(s) && (step.StoreAndAnswer? ==> !Overtaken(s, s.polls[step.id]))
  {
    var n := Apply(s, step);
    if step.StoreAndAnswer? {
      RepeatsIffOvertaken(s, install, step.id);
      var p := s.polls[step.id];
      assert forall k :: 0 <= k < |s.answers| ==> n.answers[k] == s.answers[k];
      assert n.answers[|s.answers|] == Above(p.last, p.count);
      if Overtaken(s, p) {
        var h :| h in Above(p.last, p.count) && Answered(s, h);
        var k :| 0 <= k < |s.answers| && h in s.answers[k];
        assert h in n.answers[k] && h in n.answers[|s.answers|];
      }
      if !AnsweredOnce(s) {
        var j, k, h :| 0 <= j < k < |s.answers| && h in s.answers[j] && h in s.answers[k];
        assert h in n.answers[j] && h in n.answers[k];
      }
    } else {
      assert n.answers == s.answers;
    }
  }

  /**
   Over a whole run of overlapping polls no height is answered twice exactly when every poll that
   had something to answer had loaded a cursor no lower than any stored before it answered.
   */
  lemma {:induction false} AnsweredOnceIffNobodyOvertaken(install: nat, states: seq<State>, steps: seq<Step>, n: nat)
    requires Behaviour(install, states, steps) && n <= |steps|
    ensures AnsweredOnce(states[n]) <==> NobodyOvertaken(states, steps, n)
  {
    if n > 0 {
      AnsweredOnceIffNobodyOvertaken(install, states, steps, n - 1);
      InvariantHolds(install, states, steps, n - 1);
      OnceStep(states[n - 1], install, steps[n - 1]);
      assert NobodyOvertaken(states, steps, n) <==>
             NobodyOvertaken(states, steps, n - 1)
             && (steps[n - 1].StoreAndAnswer? ==> !Overtaken(states[n - 1], states[n - 1].polls[steps[n - 1].id]));
    }
  }

  /** A poll whose steps nothing interrupts is a poll of the serial model. */
  lemma AloneIsSerial(s: State, id: nat, delivered: seq<nat>)
    requires id !in s.polls && s.cursor <= s.height
    ensures var t := Apply(Apply(Apply(s, Load(id)), Count(id)), StoreAndAnswer(id));
            var serial := SerialPoll(Serial(s.cursor, s.height, delivered), Poll(0, true));
      && t.cursor == serial.cursor && t.height == serial.height
      && t.answers == s.answers + [Above(s.cursor, s.height)]
      && serial.delivered == delivered + t.answers[|s.answers|]
  {
  }

  /** Overlap can move the cursor back and repeat heights, so "once each" is for serial polls only. */
  lemma OverlapCanRepeat() returns (states: seq<State>, steps: seq<Step>)
    ensures Behaviour(5, states, steps)
    ensures var s := states[|steps|]; s.answers == [[6, 7], [6]] && s.cursor == 6
  {
    var s0 := Installed(5);
    var s1 := Apply(s0, Grow(1));
    var s2 := Apply(s1, Load(1));
    var s3 := Apply(s2, Load(2));
    var s4 := Apply(s3, Count(2));
    var s5 := Apply(s4, Grow(1));
    var s6 := Apply(s5, Count(1));
    var s7 := Apply(s6, StoreAndAnswer(1));
    var s8 := Apply(s7, StoreAndAnswer(2));
    states := [s0, s1, s2, s3, s4, s5, s6, s7, s8];
    steps := [Grow(1), Load(1), Load(2), Count(2), Grow(1), Count(1), StoreAndAnswer(1), StoreAndAnswer(2)];
    assert Above(5, 7) == [6, 7] && Above(5, 6) == [6];
  }

  // ----- the filter table

  datatype FilterType = NewFilterTy | NewBlockFilterTy | NewPendingTransactionFilterTy

  class FilterSimulator {
    var filters: map<nat, FilterType>
    var maxFilterID: nat

    ghost predicate Valid()
      reads this
    {
      forall id :: id in filters ==> 0 < id <= maxFilterID
    }

    constructor ()
      ensures Valid() && filters == map[] && maxFilterID == 0
    {
      filters, maxFilterID := map[], 0;
    }

    /** An id above every id given out before: an uninstalled filter's id does not come back. */
    method New(ty: FilterType) returns (id: nat)
      requires Valid()
      modifies this
      ensures Valid() && id == maxFilterID > old(maxFilterID) && id !in old(filters)
      ensures filters == old(filters)[id := ty]
    {
      maxFilterID := maxFilterID + 1;
      id := maxFilterID;
      filters := filters[id := ty];
    }

    method Uninstall(id: nat)
      requires Valid()
      modifies this`filters
      ensures Valid() && filters == old(filters) - {id}
    {
      filters := filters - {id};
    }
  }

  /**
   `ProxyETHNewBlockFilter.request`: without a height nothing is made; with one, a filter under a
   new id whose cursor is that height.
   */
  method NewBlockFilter(table: FilterSimulator, height: Option<Height>) returns (r: Option<(nat, Filter)>)
    requires table.Valid()
    modifies table
    ensures table.Valid() && r.Some? == height.Some?
    ensures r.None? ==> table.filters == old(table.filters) && table.maxFilterID == old(table.maxFilterID)
    ensures r.Some? ==>
      && r.value.0 == table.maxFilterID > old(table.maxFilterID)
      && table.filters == old(table.filters)[r.value.0 := NewBlockFilterTy]
      && fresh(r.value.1) && r.value.1.lastBlockNumber == height
      && r.value.1.View() == SerialRun(height.value, [])
  {
    if height.None? {
      return None;
    }
    var id := table.New(NewBlockFilterTy);
    var filter := new Filter(height.value);
    return Some((id, filter));
  }
}
