/**
 The agent's newHeads loop. Every new subscription may start another `Agent.run`, the node's
 height and the set of subscribers change at any time, and only the `running` flag, tested and
 set under the agent's mutex, keeps the runs apart.
 */
module NewHeads {
  import opened Common
  import opened Traces

  /** A started `Agent.run`: its program counter, and `lastBlock` with the polled height. */
  datatype Run =
    | Started
    | Contending
    | Looping(last: nat)
    | Polled(last: nat, latest: nat)
    | Leaving
    | Ended

  /** One `SendAll`: which run sent it, for which height. */
  datatype Head = Head(run: nat, height: nat)

  /**
   `subscribers` is the newHeads registry's count, of which `joining` have not yet looked at the
   running flag; `height` is the node's. `first` is the first height each run saw, and `fell`
   whether the node's height has ever gone down.
   */
  datatype State = State(
    running: bool,
    runs: map<nat, Run>,
    subscribers: nat,
    joining: nat,
    height: nat,
    fell: bool,
    first: map<nat, nat>,
    sent: seq<Head>)

  datatype Step =
    | Join
    | StartIfIdle(id: nat)
    | StartForOthers(id: nat)
    | Leave
    | NodeHeight(h: nat)
    | CheckCount(id: nat)
    | Acquire(id: nat)
    | CheckAgain(id: nat)
    | Poll(id: nat)
    | Skip(id: nat)
    | Deliver(id: nat, transformed: bool)
    | StopRun(id: nat)
    | Release(id: nat)

  /** The agent is made with one run already started. */
  const INITIAL := State(false, map[0 := Started], 0, 0, 0, false, map[], [])

  ghost predicate Enabled(s: State, step: Step) {
    match step
    case Join => true
    case StartIfIdle(id) => s.joining > 0 && id !in s.runs
    case StartForOthers(id) => id !in s.runs
    case Leave => s.subscribers > 0
    case NodeHeight(h) => true
    case CheckCount(id) => id in s.runs && s.runs[id].Started?
    case Acquire(id) => id in s.runs && s.runs[id].Contending?
    case CheckAgain(id) => id in s.runs && s.runs[id].Looping? && s.subscribers == 0
    case Poll(id) => id in s.runs && s.runs[id].Looping?
    case Skip(id) => id in s.runs && s.runs[id].Looping?
    case Deliver(id, ok) => id in s.runs && s.runs[id].Polled?
    case StopRun(id) => id in s.runs && s.runs[id].Looping?
    case Release(id) => id in s.runs && s.runs[id].Leaving?
  }

  /** What the loop does with a polled height: the new `lastBlock`, and whether it sends. */
  function Decide(last: nat, latest: nat, transformed: bool): (r: (nat, bool)) {
    if last == 0 then (latest, false)
    else if latest > last && transformed then (latest, true)
    else (last, false)
  }

  /** The locked test-and-set at the start of a run: what it becomes. */
  function TryStart(running: bool): Run {
    if running then Ended else Looping(0)
  }

  /** A new subscription, of whatever kind, starts a run unless the flag is set. */
  function RunsAfterSubscribing(s: State, id: nat): map<nat, Run> {
    if s.running then s.runs else s.runs[id := Started]
  }

  ghost function Apply(s: State, step: Step): State
    requires Enabled(s, step)
  {
    match step
    case Join => s.(subscribers := s.subscribers + 1, joining := s.joining + 1)
    case StartIfIdle(id) => s.(joining := s.joining - 1, runs := RunsAfterSubscribing(s, id))
    case StartForOthers(id) => s.(runs := RunsAfterSubscribing(s, id))
    case Leave => s.(subscribers := s.subscribers - 1)
    case NodeHeight(h) => s.(height := h, fell := s.fell || h < s.height)
    case CheckCount(id) => s.(runs := s.runs[id := if s.subscribers == 0 then Ended else Contending])
    case Acquire(id) => s.(runs := s.runs[id := TryStart(s.running)], running := true)
    case CheckAgain(id) => s.(runs := s.runs[id := Leaving])
    case Poll(id) => s.(runs := s.runs[id := Polled(s.runs[id].last, s.height)])
    case Skip(id) => s
    case Deliver(id, transformed) =>
      var r := s.runs[id];
      var (last, sends) := Decide(r.last, r.latest, transformed);
      s.(runs := s.runs[id := Looping(last)],
         first := if r.last == 0 then s.first[id := last] else s.first,
         sent := if sends then s.sent + [Head(id, r.latest)] else s.sent)
    case StopRun(id) => s.(runs := s.runs[id := Leaving])
    case Release(id) => s.(runs := s.runs[id := Ended], running := false)
  }

  ghost predicate Behaviour(states: seq<State>, steps: seq<Step>) {
    && |states| == |steps| + 1
    && states[0] == INITIAL
    && forall i {:trigger steps[i]} :: 0 <= i < |steps| ==>
         Enabled(states[i], steps[i]) && states[i + 1] == Apply(states[i], steps[i])
  }

  /** A run is active from setting the flag until its deferred function clears it. */
  ghost predicate Active(s: State, id: nat) {
    id in s.runs && (s.runs[id].Looping? || s.runs[id].Polled? || s.runs[id].Leaving?)
  }

  ghost predicate MutualExclusion(s: State) {
    && (forall a, b :: Active(s, a) && Active(s, b) ==> a == b)
    && (s.running <==> exists a :: Active(s, a))
  }

  ghost predicate IncreasingWithinRuns(sent: seq<Head>) {
    forall i, j :: 0 <= i < j < |sent| && sent[i].run == sent[j].run ==> sent[i].height < sent[j].height
  }

  ghost predicate Increasing(sent: seq<Head>) {
    forall i, j :: 0 <= i < j < |sent| ==> sent[i].height < sent[j].height
  }

  ghost predicate AboveFirst(s: State) {
    forall i :: 0 <= i < |s.sent| ==> s.sent[i].run in s.first && s.first[s.sent[i].run] < s.sent[i].height
  }

  // ----- the inductive invariant

  function Last(r: Run): nat {
    if r.Looping? || r.Polled? then r.last else 0
  }

  /** A run that has seen a height remembers at least the first one, and sent nothing above its last. */
  ghost predicate RunInv(s: State, id: nat)
    requires id in s.runs
  {
    var r := s.runs[id];
    && (Last(r) > 0 ==> id in s.first && s.first[id] <= Last(r))
    && (r.Looping? || r.Polled? ==>
          forall i :: 0 <= i < |s.sent| && s.sent[i].run == id ==> s.sent[i].height <= Last(r))
    && (r.Started? || r.Contending? ==> forall i :: 0 <= i < |s.sent| ==> s.sent[i].run != id)
  }

  /** As long as the node's height has not fallen, no sent height exceeds what a run now holds. */
  ghost predicate HeightInv(s: State) {
    && NoneAbove(s.sent, s.height)
    && (forall id :: id in s.runs ==> RunHeights(s, s.runs[id]))
  }

  ghost predicate NoneAbove(sent: seq<Head>, height: nat) {
    forall i :: 0 <= i < |sent| ==> sent[i].height <= height
  }

  /** What a run has polled and what it remembers lies between the sent heights and the node's. */
  ghost predicate RunHeights(s: State, r: Run) {
    && (r.Polled? ==> r.latest <= s.height && NoneAbove(s.sent, r.latest))
    && (Last(r) > 0 ==> Last(r) <= s.height && NoneAbove(s.sent, Last(r)))
  }

  ghost predicate Inv(s: State) {
    && MutualExclusion(s)
    && (forall id :: id in s.runs ==> RunInv(s, id))
    && (forall i :: 0 <= i < |s.sent| ==> s.sent[i].run in s.runs)
    && IncreasingWithinRuns(s.sent) && AboveFirst(s)
    && (!s.fell ==> HeightInv(s) && Increasing(s.sent))
  }

  /** A step changes whether its own run is active, and nobody else's. */
  lemma OthersStay(s: State, step: Step)
    requires Enabled(s, step)
    ensures forall a :: Active(Apply(s, step), a) && !Active(s, a) ==> step.Acquire? && a == step.id && !s.running
    ensures forall a :: Active(s, a) && !Active(Apply(s, step), a) ==> step.Release? && a == step.id
  {
  }

  lemma ExclusionStep(s: State, step: Step)
    requires MutualExclusion(s) && Enabled(s, step)
    ensures MutualExclusion(Apply(s, step))
  {
    var n := Apply(s, step);
    OthersStay(s, step);
    if step.Acquire? && !s.running {
      assert Active(n, step.id);
    } else if step.Release? {
      assert Active(s, step.id) && !Active(n, step.id);
      assert forall a :: !Active(n, a);
    } else {
      assert n.running == s.running;
      forall a ensures Active(n, a) <==> Active(s, a) {}
    }
  }

  /** A step that sends nothing keeps the order of what was sent. */
  lemma QuietRunStep(s: State, step: Step)
    requires Inv(s) && Enabled(s, step) && !step.Deliver?
    ensures forall id :: id in Apply(s, step).runs ==> RunInv(Apply(s, step), id)
    ensures Apply(s, step).sent == s.sent && Apply(s, step).first == s.first
  {
    forall id | id in Apply(s, step).runs ensures RunInv(Apply(s, step), id) {
      if id in s.runs {
        QuietKeepsRun(s, step, id);
      } else {
        assert (step.StartIfIdle? || step.StartForOthers?) && id == step.id;
      }
    }
  }

  lemma QuietKeepsRun(s: State, step: Step, id: nat)
    requires Enabled(s, step) && !step.Deliver? && id in s.runs && RunInv(s, id)
    ensures RunInv(Apply(s, step), id)
  {
    var n := Apply(s, step);
    assert n.sent == s.sent && n.first == s.first;
  }

  lemma DeliverRunStep(s: State, id: nat, ok: bool)
    requires Inv(s) && Enabled(s, Deliver(id, ok))
    ensures forall r :: r in Apply(s, Deliver(id, ok)).runs ==> RunInv(Apply(s, Deliver(id, ok)), r)
    ensures var n := Apply(s, Deliver(id, ok));
            IncreasingWithinRuns(n.sent) && AboveFirst(n)
  {
    var n := Apply(s, Deliver(id, ok));
    assert RunInv(s, id);
    assert |n.sent| <= |s.sent| + 1;
    forall i | 0 <= i < |s.sent| ensures n.sent[i] == s.sent[i] && s.sent[i].run in s.runs {}
    forall r | r in n.runs ensures RunInv(n, r) {
      DeliverKeepsRun(s, id, ok, r);
    }
  }

  lemma DeliverKeepsRun(s: State, id: nat, ok: bool, r: nat)
    requires Enabled(s, Deliver(id, ok)) && r in s.runs && RunInv(s, r)
    ensures RunInv(Apply(s, Deliver(id, ok)), r)
  {
    var n := Apply(s, Deliver(id, ok));
    forall i | 0 <= i < |n.sent| && i != |s.sent| ensures n.sent[i] == s.sent[i] {}
  }

  lemma QuietHeightStep(s: State, step: Step)
    requires HeightInv(s) && Enabled(s, step) && !step.Deliver? && !Apply(s, step).fell
    ensures HeightInv(Apply(s, step))
  {
    var n := Apply(s, step);
    forall id | id in n.runs ensures RunHeights(n, n.runs[id]) {
      assert id in s.runs ==> RunHeights(s, s.runs[id]);
    }
  }

  lemma DeliverHeightStep(s: State, id: nat, ok: bool)
    requires MutualExclusion(s) && HeightInv(s) && Increasing(s.sent) && Enabled(s, Deliver(id, ok))
    ensures HeightInv(Apply(s, Deliver(id, ok))) && Increasing(Apply(s, Deliver(id, ok)).sent)
  {
    var n := Apply(s, Deliver(id, ok));
    assert RunHeights(s, s.runs[id]);
    assert NoneAbove(n.sent, s.runs[id].latest);
    forall r | r in n.runs ensures RunHeights(n, n.runs[r]) {
      if r != id {
        assert Active(s, id) && !Active(s, r);
      }
    }
  }

  lemma StepKeepsRest(s: State, step: Step)
    requires Inv(s) && Enabled(s, step) && MutualExclusion(Apply(s, step))
    ensures Inv(Apply(s, step))
  {
    var n := Apply(s, step);
    if step.Deliver? {
      DeliverRunStep(s, step.id, step.transformed);
      if !n.fell { DeliverHeightStep(s, step.id, step.transformed); }
    } else {
      QuietRunStep(s, step);
      if !n.fell { QuietHeightStep(s, step); }
    }
  }

  lemma {:induction false} InvariantHolds(states: seq<State>, steps: seq<Step>, n: nat)
    requires Behaviour(states, steps) && n < |states|
    ensures Inv(states[n])
  {
    if n > 0 {
      InvariantHolds(states, steps, n - 1);
      ExclusionStep(states[n - 1], steps[n - 1]);
      StepKeepsRest(states[n - 1], steps[n - 1]);
    }
  }

  /** However many runs are started, at most one is active, and the flag says whether one is. */
  lemma AtMostOneActiveRun(states: seq<State>, steps: seq<Step>, n: nat)
    requires Behaviour(states, steps) && n < |states|
    ensures MutualExclusion(states[n])
  {
    InvariantHolds(states, steps, n);
  }

  /**
   Whatever the node's height does, the heads one run sends have strictly increasing heights,
   all above the first height that run saw.
   */
  lemma HeadsIncreaseWithinARun(states: seq<State>, steps: seq<Step>, n: nat)
    requires Behaviour(states, steps) && n < |states|
    ensures IncreasingWithinRuns(states[n].sent) && AboveFirst(states[n])
  {
    InvariantHolds(states, steps, n);
  }

  /** If the node's height never falls, heights increase strictly across all runs together. */
  lemma HeadsIncreaseAcrossRuns(states: seq<State>, steps: seq<Step>, n: nat)
    requires Behaviour(states, steps) && n < |states| && !states[n].fell
    ensures Increasing(states[n].sent)
  {
    InvariantHolds(states, steps, n);
  }

  // ----- what a run sends

  /** The height of the last head that run `id` sent. */
  function LastSent(sent: seq<Head>, id: nat): Option<nat> {
    if sent == [] then None
    else
      var last := sent[|sent| - 1];
      if last.run == id then Some(last.height) else LastSent(sent[..|sent| - 1], id)
  }

  /** A run in its loop remembers the last head it sent, or else the first height it saw, or else 0. */
  ghost predicate Remembers(s: State, id: nat)
    requires id in s.runs
  {
    match s.runs[id]
    case Looping(last) => last == Remembered(s, id)
    case Polled(last, _) => last == Remembered(s, id)
    case Started => LastSent(s.sent, id) == None && id !in s.first
    case Contending => LastSent(s.sent, id) == None && id !in s.first
    case _ => true
  }

  function Remembered(s: State, id: nat): nat {
    if LastSent(s.sent, id).Some? then LastSent(s.sent, id).value
    else if id in s.first then s.first[id]
    else 0
  }

  ghost predicate MemoryInv(s: State) {
    && (forall id :: id in s.runs ==> Remembers(s, id))
    && (forall id :: id in s.first || LastSent(s.sent, id).Some? ==> id in s.runs)
    && (forall id :: LastSent(s.sent, id).Some? ==> LastSent(s.sent, id).value > 0)
  }

  lemma LastSentAfter(sent: seq<Head>, head: Head, id: nat)
    ensures LastSent(sent + [head], id) == if head.run == id then Some(head.height) else LastSent(sent, id)
  {
    var all := sent + [head];
    assert all[..|all| - 1] == sent;
  }

  lemma MemoryStep(s: State, step: Step)
    requires MemoryInv(s) && Enabled(s, step)
    ensures MemoryInv(Apply(s, step))
  {
    var n := Apply(s, step);
    if step.Deliver? {
      DeliverIsExact(s, step.id, step.transformed);
      var r := s.runs[step.id];
      assert Remembers(s, step.id);
      if n.sent != s.sent {
        forall id ensures LastSent(n.sent, id) == if id == step.id then Some(r.latest) else LastSent(s.sent, id) {
          LastSentAfter(s.sent, Head(step.id, r.latest), id);
        }
      }
      forall id | id in n.runs ensures Remembers(n, id) {
        assert Remembers(s, id);
      }
    } else {
      QuietMemoryStep(s, step);
    }
  }

  lemma QuietMemoryStep(s: State, step: Step)
    requires MemoryInv(s) && Enabled(s, step) && !step.Deliver?
    ensures MemoryInv(Apply(s, step))
  {
    var n := Apply(s, step);
    assert n.sent == s.sent && n.first == s.first;
    forall id | id in n.runs ensures Remembers(n, id) {
      assert id in s.runs ==> Remembers(s, id);
    }
  }

  /**
   A polled height that is above what the run remembers, with its block transformed, is sent as the
   next head and remembered; nothing else is sent. The first height a run sees is only remembered.
   */
  lemma DeliverIsExact(s: State, id: nat, transformed: bool)
    requires Enabled(s, Deliver(id, transformed))
    ensures var n, r := Apply(s, Deliver(id, transformed)), s.runs[id];
      && (r.last > 0 && r.latest > r.last && transformed ==>
            n.sent == s.sent + [Head(id, r.latest)] && n.runs[id] == Looping(r.latest) && n.first == s.first)
      && (r.last > 0 && !(r.latest > r.last && transformed) ==>
            n.sent == s.sent && n.runs[id] == Looping(r.last) && n.first == s.first)
      && (r.last == 0 ==> n.sent == s.sent && n.runs[id] == Looping(r.latest) && n.first == s.first[id := r.latest])
      && (forall o :: o != id ==> (o in n.runs <==> o in s.runs) && (o in s.runs ==> n.runs[o] == s.runs[o]))
  {
  }

  /** A run that has seen a height sends the node's as soon as it is above it and its block can be had. */
  lemma ANewHeadIsSent(s: State, id: nat)
    requires id in s.runs && s.runs[id].Looping? && 0 < s.runs[id].last < s.height
    ensures Enabled(s, Poll(id)) && Enabled(Apply(s, Poll(id)), Deliver(id, true))
    ensures Apply(Apply(s, Poll(id)), Deliver(id, true)).sent == s.sent + [Head(id, s.height)]
  {
    DeliverIsExact(Apply(s, Poll(id)), id, true);
  }

  /**
   In every run of the machine, what a looping or polled run remembers is the height of the last head
   it sent, or, if it has sent none, the first height it saw, or 0 if it has seen none.
   */
  lemma {:induction false} LastBlockIsLastSent(states: seq<State>, steps: seq<Step>, n: nat)
    requires Behaviour(states, steps) && n < |states|
    ensures MemoryInv(states[n])
  {
    if n > 0 {
      LastBlockIsLastSent(states, steps, n - 1);
      MemoryStep(states[n - 1], steps[n - 1]);
    }
  }

  // ----- who serves the subscribers

  /** A run that will still look at the subscriber count before it ends. */
  ghost predicate Serving(s: State, id: nat) {
    id in s.runs && !s.runs[id].Leaving? && !s.runs[id].Ended?
  }

  ghost predicate Served(s: State) {
    s.subscribers == 0 || s.joining > 0 || exists id :: Serving(s, id)
  }

  /** Nobody but (perhaps) `id` will look at the count again. */
  ghost predicate NobodyElse(s: State, id: nat) {
    forall a :: Serving(s, a) ==> a == id
  }

  /**
   The steps that leave subscribers behind: the last one to look at the flag finds it set by a run
   that is already leaving, or a run about to start does, or the loop is stopped from outside, and
   in each case nobody else is there to serve them.
   */
  ghost predicate Loses(s: State, step: Step) {
    && s.subscribers > 0
    && match step
       case StartIfIdle(id) => s.running && s.joining == 1 && NobodyElse(s, id)
       case Acquire(id) => s.running && s.joining == 0 && NobodyElse(s, id)
       case StopRun(id) => s.joining == 0 && NobodyElse(s, id)
       case _ => false
  }

  /** The steps that end such a state: a newcomer, the last subscriber's departure, or a start. */
  ghost predicate Recovers(s: State, step: Step) {
    step.Join? || (step.Leave? && s.subscribers == 1) || (step.StartForOthers? && !s.running)
  }

  lemma ServingAfter(s: State, step: Step)
    requires Enabled(s, step)
    ensures forall a :: Serving(s, a) && !Serving(Apply(s, step), a) ==>
              && (step.CheckCount? || step.Acquire? || step.CheckAgain? || step.StopRun?) && step.id == a
              && (s.subscribers == 0 || step.StopRun? || (step.Acquire? && s.running))
    ensures forall a :: !Serving(s, a) && Serving(Apply(s, step), a) ==>
              (step.StartIfIdle? || step.StartForOthers?) && !s.running && step.id == a
  {
  }

  /** Served subscribers are lost by exactly those steps. */
  lemma LostIff(s: State, step: Step)
    requires Enabled(s, step) && Served(s)
    ensures !Served(Apply(s, step)) <==> Loses(s, step)
  {
    var n := Apply(s, step);
    ServingAfter(s, step);
    match step {
      case Join =>
      case Leave => if a :| Serving(s, a) { assert Serving(n, a); }
      case StartIfIdle(id) =>
        if !s.running { assert Serving(n, id); }
        if a :| Serving(s, a) { assert Serving(n, a) && a != id; }
      case StartForOthers(id) => if a :| Serving(s, a) { assert Serving(n, a); }
      case Acquire(id) => LostByOwnRun(s, step, id);
      case StopRun(id) => LostByOwnRun(s, step, id);
      case CheckCount(id) => LostByOwnRun(s, step, id);
      case CheckAgain(id) =>
      case _ => if a :| Serving(s, a) { assert Serving(n, a); }
    }
  }

  lemma LostByOwnRun(s: State, step: Step, id: nat)
    requires Enabled(s, step) && (step.Acquire? || step.StopRun? || step.CheckCount?) && step.id == id
    ensures !Served(Apply(s, step)) <==> Loses(s, step)
  {
    var n := Apply(s, step);
    forall a | a != id ensures Serving(n, a) <==> Serving(s, a) {}
    assert Serving(n, id) <==> (step.Acquire? && !s.running) || (step.CheckCount? && s.subscribers > 0);
  }

  /** And subscribers that nobody serves stay so until exactly one of the others. */
  lemma UnservedUntil(s: State, step: Step)
    requires Enabled(s, step) && !Served(s)
    ensures Served(Apply(s, step)) <==> Recovers(s, step)
  {
    var n := Apply(s, step);
    ServingAfter(s, step);
    if step.StartForOthers? && !s.running {
      assert Serving(n, step.id);
    }
  }

  ghost function Losing(states: seq<State>, steps: seq<Step>): nat -> bool {
    (i: nat) => i < |steps| < |states| && Loses(states[i], steps[i])
  }

  ghost function Recovering(states: seq<State>, steps: seq<Step>): nat -> bool {
    (i: nat) => i < |steps| < |states| && Recovers(states[i], steps[i])
  }

  ghost function UnservedAt(states: seq<State>): nat -> bool {
    (m: nat) => m < |states| && !Served(states[m])
  }

  lemma UnservedSwitches(states: seq<State>, steps: seq<Step>)
    requires Behaviour(states, steps)
    ensures !UnservedAt(states)(0)
    ensures forall m: nat :: m < |steps| ==>
              Switches(UnservedAt(states), Losing(states, steps), Recovering(states, steps), m)
  {
    forall m: nat | m < |steps|
      ensures Switches(UnservedAt(states), Losing(states, steps), Recovering(states, steps), m)
    {
      ServedAfter(states, steps, m);
      UnservedSwitch(states, steps, m);
    }
  }

  lemma UnservedSwitch(states: seq<State>, steps: seq<Step>, m: nat)
    requires m < |steps| < |states|
    requires !Served(states[m + 1]) <==>
             Loses(states[m], steps[m]) || (!Served(states[m]) && !Recovers(states[m], steps[m]))
    ensures Switches(UnservedAt(states), Losing(states, steps), Recovering(states, steps), m)
  {
  }

  /**
   In every run, newHeads subscribers are without a run that serves them exactly when a losing step
   has happened and none of the steps that recover since.
   */
  lemma UnservedIffLost(states: seq<State>, steps: seq<Step>, n: nat)
    requires Behaviour(states, steps) && n <= |steps|
    ensures !Served(states[n]) <==> Since(Losing(states, steps), Recovering(states, steps), n)
  {
    UnservedSwitches(states, steps);
    SinceIff(UnservedAt(states), Losing(states, steps), Recovering(states, steps), n);
  }

  lemma ServedAfter(states: seq<State>, steps: seq<Step>, m: nat)
    requires Behaviour(states, steps) && m < |steps|
    ensures !Served(states[m + 1]) <==>
            Loses(states[m], steps[m]) || (!Served(states[m]) && !Recovers(states[m], steps[m]))
  {
    if Served(states[m]) {
      LostIff(states[m], steps[m]);
    } else {
      UnservedUntil(states[m], steps[m]);
      assert Loses(states[m], steps[m]) ==> !Recovers(states[m], steps[m]);
    }
  }

  /** Unserved subscribers stay unserved over any stretch of a run without a recovering step. */
  lemma {:induction false} UnservedStretch(states: seq<State>, steps: seq<Step>, i: nat, j: nat)
    requires Behaviour(states, steps) && i <= j <= |steps| && !Served(states[i])
    requires forall k {:trigger steps[k]} :: i <= k < j ==> !Recovers(states[k], steps[k])
    ensures !Served(states[j])
  {
    if i < j {
      UnservedStretch(states, steps, i, j - 1);
      UnservedUntil(states[j - 1], steps[j - 1]);
    }
  }

  lemma Extend(states: seq<State>, steps: seq<Step>, s: State, step: Step)
    requires Behaviour(states, steps) && states[|steps|] == s && Enabled(s, step)
    ensures Behaviour(states + [Apply(s, step)], steps + [step])
  {
    var states', steps' := states + [Apply(s, step)], steps + [step];
    forall i {:trigger steps'[i]} | 0 <= i < |steps'|
      ensures Enabled(states'[i], steps'[i]) && states'[i + 1] == Apply(states'[i], steps'[i])
    {
      if i < |steps| {
        assert steps'[i] == steps[i] && states'[i] == states[i] && states'[i + 1] == states[i + 1];
      }
    }
  }

  /** A run that has counted its only subscriber as gone. */
  lemma ALeavingRun() returns (states: seq<State>, steps: seq<Step>)
    ensures Behaviour(states, steps)
    ensures states[|steps|] == State(true, map[0 := Leaving], 0, 0, 0, false, map[], [])
  {
    var s1 := Apply(INITIAL, Join);
    var s2 := Apply(s1, CheckCount(0));
    var s3 := Apply(s2, Acquire(0));
    var s4 := Apply(s3, StartIfIdle(1));
    var s5 := Apply(s4, Leave);
    var s6 := Apply(s5, CheckAgain(0));
    states, steps := [INITIAL], [];
    Extend(states, steps, INITIAL, Join);
    states, steps := states + [s1], steps + [Join];
    Extend(states, steps, s1, CheckCount(0));
    states, steps := states + [s2], steps + [CheckCount(0)];
    Extend(states, steps, s2, Acquire(0));
    states, steps := states + [s3], steps + [Acquire(0)];
    Extend(states, steps, s3, StartIfIdle(1));
    states, steps := states + [s4], steps + [StartIfIdle(1)];
    Extend(states, steps, s4, Leave);
    states, steps := states + [s5], steps + [Leave];
    Extend(states, steps, s5, CheckAgain(0));
    states, steps := states + [s6], steps + [CheckAgain(0)];
  }

  lemma JoiningALeavingRun(s: State)
    requires s == State(true, map[0 := Leaving], 0, 0, 0, false, map[], [])
    ensures Enabled(Apply(s, Join), StartIfIdle(1))
    ensures !Served(Apply(Apply(s, Join), StartIfIdle(1)))
  {
  }

  /** The case is real: a subscriber joins while the loop, having counted none, is leaving. */
  lemma ASubscriberCanBeMissed() returns (states: seq<State>, steps: seq<Step>)
    ensures Behaviour(states, steps) && !Served(states[|steps|])
  {
    var before, taken := ALeavingRun();
    var s := before[|taken|];
    var s1 := Apply(s, Join);
    JoiningALeavingRun(s);
    var s2 := Apply(s1, StartIfIdle(1));
    Extend(before, taken, s, Join);
    Extend(before + [s1], taken + [Join], s1, StartIfIdle(1));
    states, steps := before + [s1] + [s2], taken + [Join] + [StartIfIdle(1)];
  }

  // ----- the loop's own variables

  class HeadsLoop {
    var running: bool
    var lastBlock: nat

    constructor ()
      ensures !running
    {
      running, lastBlock := false, 0;
    }

    /** The locked test-and-set at the start of `run`; `lastBlock` is a fresh local of the run. */
    method Acquire() returns (started: bool)
      modifies this
      ensures running && TryStart(old(running)) == if started then Looping(lastBlock) else Ended
      ensures started == !old(running) && (started ==> lastBlock == 0)
      ensures !started ==> lastBlock == old(lastBlock)
    {
      started := !running;
      if started {
        running, lastBlock := true, 0;
      }
    }

    /** One round with a polled height; says whether the head is sent to all subscribers. */
    method Handle(latestBlock: nat, transformed: bool) returns (sends: bool)
      modifies this`lastBlock
      ensures (lastBlock, sends) == Decide(old(lastBlock), latestBlock, transformed)
      ensures sends <==> old(lastBlock) > 0 && latestBlock > old(lastBlock) && transformed
      ensures lastBlock == if sends || old(lastBlock) == 0 then latestBlock else old(lastBlock)
    {
      sends := false;
      if lastBlock == 0 {
        lastBlock := latestBlock;
      } else if latestBlock > lastBlock {
        if transformed {
          lastBlock := latestBlock;
          sends := true;
        }
      }
    }

    method Release()
      modifies this`running
      ensures !running
    {
      running := false;
    }
  }
}
