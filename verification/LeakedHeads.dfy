/**
 The newHeads registry together with the loop that counts it: a registration that its unsubscribe
 has overlooked keeps the loop alive.
 */
module LeakedHeads {
  import opened Common
  import NewHeads
  import Registry
  import Lifecycle

  /** The number of the newHeads registry. */
  const NEW_HEADS: Registry.Kind := 0

  datatype State = State(reg: Registry.State, heads: NewHeads.State)

  /** A step of the registries, or one of the loop's that does not change who subscribes. */
  datatype Step = Registers(registry: Registry.Step) | Loops(loop: NewHeads.Step)

  const INITIAL := State(Registry.INITIAL, NewHeads.INITIAL)

  /** What a step of the registries is to the loop: an added or an obtained newHeads subscription. */
  ghost function Counted(reg: Registry.State, step: Registry.Step): Option<NewHeads.Step>
    requires Registry.Enabled(reg, step)
  {
    match step
    case Add(kind, id) => if kind == NEW_HEADS then Some(NewHeads.Join) else None
    case TakeOut(tid) =>
      var r := reg.removers[tid];
      if r.at == NEW_HEADS && r.id in reg.regs[r.at].subs then Some(NewHeads.Leave) else None
    case _ => None
  }

  /** Ids are fresh, and the once-guard begins one removal of each. */
  ghost predicate Enabled(s: State, step: Step) {
    match step
    case Loops(inner) => NewHeads.Enabled(s.heads, inner) && !inner.Join? && !inner.Leave?
    case Registers(inner) =>
      && Registry.Enabled(s.reg, inner)
      && (inner.Add? ==> inner.id !in s.reg.added)
      && (inner.Begin? ==> forall t :: t in s.reg.removers ==> s.reg.removers[t].id != inner.id)
      && (Counted(s.reg, inner).Some? ==> NewHeads.Enabled(s.heads, Counted(s.reg, inner).value))
  }

  ghost function Apply(s: State, step: Step): State
    requires Enabled(s, step)
  {
    match step
    case Loops(inner) => s.(heads := NewHeads.Apply(s.heads, inner))
    case Registers(inner) =>
      var counted := Counted(s.reg, inner);
      State(Registry.Apply(s.reg, inner),
            if counted.None? then s.heads else NewHeads.Apply(s.heads, counted.value))
  }

  ghost predicate Behaviour(states: seq<State>, steps: seq<Step>) {
    && |states| == |steps| + 1
    && states[0] == INITIAL
    && forall i {:trigger steps[i]} :: 0 <= i < |steps| ==>
         Enabled(states[i], steps[i]) && states[i + 1] == Apply(states[i], steps[i])
  }

  /** What the loop counts is the newHeads registry. */
  ghost predicate CountsAgree(s: State) {
    |s.reg.regs| == Registry.KINDS && s.heads.subscribers == |s.reg.regs[NEW_HEADS].subs|
  }

  ghost predicate Inv(s: State) {
    Lifecycle.RegInv(s.reg) && CountsAgree(s)
  }

  lemma AddedOnce(subs: set<Id>, id: Id)
    ensures id !in subs ==> |subs + {id}| == |subs| + 1
    ensures id in subs ==> |subs - {id}| == |subs| - 1
  {
  }

  /** The newHeads registry after a step of the registries. */
  lemma SubscribersAfter(reg: Registry.State, step: Registry.Step)
    requires Registry.PlaceInv(reg) && Registry.Enabled(reg, step) && (step.Add? ==> step.id !in reg.added)
    ensures |Registry.Apply(reg, step).regs| == Registry.KINDS
    ensures |Registry.Apply(reg, step).regs[NEW_HEADS].subs| ==
            |reg.regs[NEW_HEADS].subs| +
            match Counted(reg, step)
            case Some(Join) => 1
            case Some(Leave) => -1
            case _ => 0
  {
    Registry.RegistriesAfter(reg, step);
    match step {
      case Add(kind, id) => AddedOnce(reg.regs[NEW_HEADS].subs, id);
      case TakeOut(tid) => AddedOnce(reg.regs[NEW_HEADS].subs, reg.removers[tid].id);
      case _ =>
    }
  }

  lemma LoopsKeepSubscribers(h: NewHeads.State, step: NewHeads.Step)
    requires NewHeads.Enabled(h, step)
    ensures NewHeads.Apply(h, step).subscribers ==
            h.subscribers + if step.Join? then 1 else if step.Leave? then -1 else 0
  {
  }

  lemma CountsAgreeAfter(s: State, step: Step)
    requires Inv(s) && Enabled(s, step)
    ensures CountsAgree(Apply(s, step))
  {
    match step {
      case Loops(inner) => LoopsKeepSubscribers(s.heads, inner);
      case Registers(inner) =>
        SubscribersAfter(s.reg, inner);
        if Counted(s.reg, inner).Some? {
          LoopsKeepSubscribers(s.heads, Counted(s.reg, inner).value);
        }
    }
  }

  lemma StepKeepsInv(s: State, step: Step)
    requires Inv(s) && Enabled(s, step)
    ensures Inv(Apply(s, step))
  {
    CountsAgreeAfter(s, step);
    if step.Registers? {
      Lifecycle.RegStep(s.reg, step.registry);
    }
  }

  lemma {:induction false} InvariantHolds(states: seq<State>, steps: seq<Step>, n: nat)
    requires Behaviour(states, steps) && n < |states|
    ensures Inv(states[n])
  {
    if n > 0 {
      InvariantHolds(states, steps, n - 1);
      StepKeepsInv(states[n - 1], steps[n - 1]);
    }
  }

  /** So the loop's part never holds a registry step up: an obtained subscription was counted. */
  lemma RegistriesAreFree(s: State, step: Registry.Step)
    requires Inv(s) && Registry.Enabled(s.reg, step)
    ensures Counted(s.reg, step).Some? ==> NewHeads.Enabled(s.heads, Counted(s.reg, step).value)
  {
    if Counted(s.reg, step) == Some(NewHeads.Leave) {
      AddedOnce(s.reg.regs[NEW_HEADS].subs, s.reg.removers[step.tid].id);
    }
  }

  /** A run can end by its own count exactly when nothing is registered for newHeads. */
  lemma EndsIffNoneRegistered(states: seq<State>, steps: seq<Step>, n: nat, run: nat)
    requires Behaviour(states, steps) && n < |states|
    requires run in states[n].heads.runs && states[n].heads.runs[run].Looping?
    ensures |states[n].reg.regs| == Registry.KINDS
    ensures Enabled(states[n], Loops(NewHeads.CheckAgain(run))) <==> states[n].reg.regs[NEW_HEADS].subs == {}
  {
    InvariantHolds(states, steps, n);
  }

  // ----- a leaked registration

  /** `id` is registered for newHeads although its removal has returned. */
  ghost predicate Leaked(s: State, tid: nat) {
    && Registry.Returned(s.reg, tid)
    && |s.reg.regs| == Registry.KINDS
    && s.reg.removers[tid].id in s.reg.regs[NEW_HEADS].subs
  }

  lemma LeakStays(reg: Registry.State, step: Registry.Step, tid: nat)
    requires Lifecycle.RegInv(reg) && Registry.Enabled(reg, step)
    requires step.Add? ==> step.id !in reg.added
    requires step.Begin? ==> forall t :: t in reg.removers ==> reg.removers[t].id != step.id
    requires Registry.Returned(reg, tid) && reg.removers[tid].id in reg.regs[NEW_HEADS].subs
    ensures var n := Registry.Apply(reg, step);
            Registry.Returned(n, tid) && |n.regs| == Registry.KINDS
            && n.removers[tid].id in n.regs[NEW_HEADS].subs
  {
    Lifecycle.RemovalsPersist(reg, step, tid);
    if step.TakeOut? && step.tid != tid {
      assert reg.removers[step.tid].id != reg.removers[tid].id;
    }
  }

  lemma {:induction false} LeakedStays(states: seq<State>, steps: seq<Step>, n: nat, m: nat, tid: nat)
    requires Behaviour(states, steps) && n <= m < |states| && Leaked(states[n], tid)
    ensures Leaked(states[m], tid)
  {
    if n < m {
      LeakedStays(states, steps, n, m - 1, tid);
      InvariantHolds(states, steps, m - 1);
      if steps[m - 1].Registers? {
        LeakStays(states[m - 1].reg, steps[m - 1].registry, tid);
      }
    }
  }

  /**
   Once a newHeads registration has been overlooked by its unsubscribe, somebody is always counted:
   a run that has started goes on to the running flag, and none ends by its own count again.
   */
  lemma ALeakKeepsTheLoopAlive(states: seq<State>, steps: seq<Step>, n: nat, m: nat, tid: nat)
    requires Behaviour(states, steps) && n <= m < |states| && Leaked(states[n], tid)
    ensures states[m].heads.subscribers > 0
    ensures m < |steps| && steps[m].Loops? ==> !steps[m].loop.CheckAgain?
    ensures m < |steps| && steps[m].Loops? && steps[m].loop.CheckCount? ==>
              states[m + 1].heads.runs[steps[m].loop.id] == NewHeads.Contending
  {
    LeakedStays(states, steps, n, m, tid);
    InvariantHolds(states, steps, m);
    AddedOnce(states[m].reg.regs[NEW_HEADS].subs, states[m].reg.removers[tid].id);
    assert m < |steps| ==> Enabled(states[m], steps[m]);
  }

  // ----- it does happen

  lemma Extend(states: seq<State>, steps: seq<Step>, step: Step) returns (states': seq<State>, steps': seq<Step>)
    requires Behaviour(states, steps) && Enabled(states[|steps|], step)
    ensures Behaviour(states', steps')
    ensures |steps'| == |steps| + 1 && states'[|steps'|] == Apply(states[|steps|], step)
  {
    states' := states + [Apply(states[|steps|], step)];
    steps' := steps + [step];
  }

  /** The removal finds each registry empty and goes past it. */
  lemma {:induction false} VisitsUpTo(k: nat) returns (states: seq<State>, steps: seq<Step>)
    requires k <= Registry.KINDS
    ensures Behaviour(states, steps) && states[|steps|] == State(Registry.Visiting(k), NewHeads.INITIAL)
  {
    if k == 0 {
      states, steps := Extend([INITIAL], [], Registers(Registry.Begin(0, "a")));
    } else {
      states, steps := VisitsUpTo(k - 1);
      assert Registry.Visiting(k - 1).regs[k - 1] == Registry.EMPTY;
      states, steps := Extend(states, steps, Registers(Registry.LookUp(0)));
    }
  }

  /** A newHeads registration added after its removal has returned. */
  lemma AHeadLeaks() returns (states: seq<State>, steps: seq<Step>)
    ensures Behaviour(states, steps) && Leaked(states[|steps|], 0)
  {
    states, steps := VisitsUpTo(Registry.KINDS);
    states, steps := Extend(states, steps, Registers(Registry.Add(NEW_HEADS, "a")));
    assert "a" in states[|steps|].reg.regs[NEW_HEADS].subs;
  }
}
