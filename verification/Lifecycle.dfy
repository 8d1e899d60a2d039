/**
 A subscription from `Notifier.Subscribe` to the unsubscribe call that answers true, together with
 the agent's registries. The once-guard runs `Agent.unsubscribe` in full before anybody who finds
 it spent goes on, so an unsubscribe call confirms only after the one removal has returned. The
 notifier's mutex forbids further interleavings and is not needed for what is shown here.
 */
module Lifecycle {
  import opened Common
  import opened Traces
  import Registry

  /** `live` is the notifier's map, `fired` the guards spent; `subscribed` and `confirmed` are history. */
  datatype State = State(
    live: set<Id>,
    fired: set<Id>,
    subscribed: set<Id>,
    confirmed: multiset<Id>,
    reg: Registry.State)

  /**
   `Fire` is the first use of a guard, by a client's call, a spawned call or the loop's exit:
   it starts the removal. `Confirm` is the end of an unsubscribe call that answers true.
   */
  datatype Step =
    | Subscribe(id: Id)
    | Fire(tid: nat, id: Id)
    | Within(step: Registry.Step)
    | Confirm(id: Id)

  const INITIAL := State({}, {}, {}, multiset{}, Registry.INITIAL)

  ghost predicate Removes(s: State, tid: nat, id: Id) {
    tid in s.reg.removers && s.reg.removers[tid].id == id
  }

  /** The removal that the guard of `id` runs has returned. */
  ghost predicate Removed(s: State, id: Id) {
    exists tid :: Removes(s, tid, id) && Registry.Returned(s.reg, tid)
  }

  ghost predicate Enabled(s: State, step: Step) {
    match step
    case Subscribe(id) => id !in s.subscribed
    case Fire(tid, id) => id in s.live && id !in s.fired && Registry.Enabled(s.reg, Registry.Begin(tid, id))
    case Within(inner) =>
      && Registry.Enabled(s.reg, inner)
      && !inner.Begin?
      && (inner.Add? ==> inner.id in s.subscribed && inner.id !in s.reg.added)
    case Confirm(id) => id in s.live && Removed(s, id)
  }

  ghost function Apply(s: State, step: Step): State
    requires Enabled(s, step)
  {
    match step
    case Subscribe(id) => s.(live := s.live + {id}, subscribed := s.subscribed + {id})
    case Fire(tid, id) => s.(fired := s.fired + {id}, reg := Registry.Apply(s.reg, Registry.Begin(tid, id)))
    case Within(inner) => s.(reg := Registry.Apply(s.reg, inner))
    case Confirm(id) => s.(live := s.live - {id}, confirmed := s.confirmed + multiset{id})
  }

  ghost predicate Behaviour(states: seq<State>, steps: seq<Step>) {
    && |states| == |steps| + 1
    && states[0] == INITIAL
    && forall i {:trigger steps[i]} :: 0 <= i < |steps| ==>
         Enabled(states[i], steps[i]) && states[i + 1] == Apply(states[i], steps[i])
  }

  /** The registries' part: their own invariant, one removal per guard, and what it overlooks. */
  ghost predicate RegInv(reg: Registry.State) {
    && Registry.Inv(reg)
    && Registry.DistinctIds(reg)
    && forall t :: t in reg.removers ==> Registry.SoleInv(reg, t)
  }

  ghost predicate Inv(s: State) {
    && RegInv(s.reg)
    && (forall t :: t in s.reg.removers ==> s.reg.removers[t].id in s.fired)
    && s.live <= s.subscribed
    && s.confirmed == multiset(s.subscribed - s.live)
    && (forall id :: id in s.subscribed && id !in s.live ==> Removed(s, id))
  }

  lemma RegStep(reg: Registry.State, step: Registry.Step)
    requires RegInv(reg) && Registry.Enabled(reg, step)
    requires step.Add? ==> step.id !in reg.added
    requires step.Begin? ==> forall t :: t in reg.removers ==> reg.removers[t].id != step.id
    ensures RegInv(Registry.Apply(reg, step))
  {
    Registry.PlaceStep(reg, step);
    Registry.RemoverStep(reg, step);
    Registry.CancelStep(reg, step);
    Registry.DistinctIdsStep(reg, step);
    forall t | t in Registry.Apply(reg, step).removers ensures Registry.SoleInv(Registry.Apply(reg, step), t) {
      if t in reg.removers {
        Registry.SoleStep(reg, step, t);
      } else {
        Registry.SoleBegins(reg, step, t);
      }
    }
  }

  /** No registry step changes whose removal a call is, or undoes a return. */
  lemma RemovalsPersist(reg: Registry.State, step: Registry.Step, t: nat)
    requires Registry.Enabled(reg, step) && t in reg.removers
    ensures t in Registry.Apply(reg, step).removers && Registry.Apply(reg, step).removers[t].id == reg.removers[t].id
    ensures Registry.Returned(reg, t) ==> Registry.Returned(Registry.Apply(reg, step), t)
  {
  }

  lemma RemovedPersists(s: State, step: Step, id: Id)
    requires Enabled(s, step) && Removed(s, id)
    ensures Removed(Apply(s, step), id)
  {
    var t :| Removes(s, t, id) && Registry.Returned(s.reg, t);
    match step {
      case Fire(tid, i) => RemovalsPersist(s.reg, Registry.Begin(tid, i), t);
      case Within(inner) => RemovalsPersist(s.reg, inner, t);
      case _ =>
    }
    assert Removes(Apply(s, step), t, id);
  }

  /** Every removal is run by a guard that has been spent. */
  lemma GuardsAreSpent(s: State, step: Step)
    requires Enabled(s, step) && forall t :: t in s.reg.removers ==> s.reg.removers[t].id in s.fired
    ensures forall t :: t in Apply(s, step).reg.removers ==> Apply(s, step).reg.removers[t].id in Apply(s, step).fired
  {
    var n := Apply(s, step);
    forall t | t in n.reg.removers ensures n.reg.removers[t].id in n.fired {
      match step {
        case Fire(tid, id) => if t != tid { RemovalsPersist(s.reg, Registry.Begin(tid, id), t); }
        case Within(inner) => RemovalsPersist(s.reg, inner, t);
        case _ =>
      }
    }
  }

  /** Confirmed is what was subscribed and is no longer live. */
  lemma ConfirmedAreEnded(s: State, step: Step)
    requires Enabled(s, step) && s.live <= s.subscribed && s.confirmed == multiset(s.subscribed - s.live)
    ensures Apply(s, step).live <= Apply(s, step).subscribed
    ensures Apply(s, step).confirmed == multiset(Apply(s, step).subscribed - Apply(s, step).live)
  {
    var n := Apply(s, step);
    match step {
      case Subscribe(id) => assert n.subscribed - n.live == s.subscribed - s.live;
      case Confirm(id) => assert n.subscribed - n.live == (s.subscribed - s.live) + {id};
      case _ =>
    }
  }

  lemma RegistriesKeepInv(s: State, step: Step)
    requires Inv(s) && Enabled(s, step)
    ensures RegInv(Apply(s, step).reg)
  {
    match step {
      case Fire(tid, id) => RegStep(s.reg, Registry.Begin(tid, id));
      case Within(inner) => RegStep(s.reg, inner);
      case _ =>
    }
  }

  lemma EndedAreRemoved(s: State, step: Step, id: Id)
    requires Inv(s) && Enabled(s, step) && id in Apply(s, step).subscribed && id !in Apply(s, step).live
    ensures Removed(Apply(s, step), id)
  {
    RemovedPersists(s, step, id);
  }

  lemma StepKeepsInv(s: State, step: Step)
    requires Inv(s) && Enabled(s, step)
    ensures Inv(Apply(s, step))
  {
    RegistriesKeepInv(s, step);
    GuardsAreSpent(s, step);
    ConfirmedAreEnded(s, step);
    forall id | id in Apply(s, step).subscribed && id !in Apply(s, step).live ensures Removed(Apply(s, step), id) {
      EndedAreRemoved(s, step, id);
    }
  }

  lemma {:induction false} InvariantHolds(states: seq<State>, steps: seq<Step>, n: nat)
    requires Behaviour(states, steps) && n < |states|
    ensures Inv(states[n])
  {
    if n > 0 {
      InvariantHolds(states, steps, n - 1);
      StepKeepsInv(states[n - 1], steps[n - 1]);
    }
  }

  ghost predicate Overtook(s: State, id: Id) {
    exists tid :: Removes(s, tid, id) && s.reg.removers[tid].overtaken
  }

  ghost predicate Known(s: State, id: Id) {
    exists tid :: Removes(s, tid, id) && s.reg.removers[tid].known
  }

  /** The step registers `id` in a registry that the removal `tid` has gone past. */
  ghost predicate Passed(s: State, step: Step, tid: nat, id: Id) {
    && Removes(s, tid, id)
    && step.Within? && step.step.Add? && step.step.id == id
    && s.reg.removers[tid].at > step.step.kind
  }

  ghost predicate TooLate(s: State, step: Step, id: Id) {
    exists tid :: Passed(s, step, tid, id)
  }

  /** What a registry step writes down about a removal that is under way. */
  lemma NotesAfter(reg: Registry.State, step: Registry.Step, t: nat)
    requires Registry.Enabled(reg, step) && t in reg.removers
    ensures t in Registry.Apply(reg, step).removers
    ensures var r, n := reg.removers[t], Registry.Apply(reg, step).removers[t];
      && n.id == r.id && n.known == r.known
      && (n.overtaken <==> r.overtaken || (step.Add? && step.id == r.id && r.at > step.kind))
  {
  }

  lemma RemovalAfter(s: State, step: Step, tid: nat, id: Id)
    requires Enabled(s, step) && Removes(s, tid, id)
    ensures Removes(Apply(s, step), tid, id)
    ensures Apply(s, step).reg.removers[tid].known == s.reg.removers[tid].known
    ensures Apply(s, step).reg.removers[tid].overtaken <==> s.reg.removers[tid].overtaken || Passed(s, step, tid, id)
  {
    match step {
      case Fire(t, i) => NotesAfter(s.reg, Registry.Begin(t, i), tid);
      case Within(inner) => NotesAfter(s.reg, inner, tid);
      case _ =>
    }
  }

  /** A removal that begins has not been overtaken. */
  lemma OvertakenIsOlder(s: State, step: Step, tid: nat)
    requires Enabled(s, step) && tid in Apply(s, step).reg.removers && Apply(s, step).reg.removers[tid].overtaken
    ensures tid in s.reg.removers
  {
  }

  lemma OvertookStep(s: State, step: Step, id: Id)
    requires Enabled(s, step)
    ensures Overtook(Apply(s, step), id) <==> Overtook(s, id) || TooLate(s, step, id)
  {
    var n := Apply(s, step);
    if tid :| Removes(s, tid, id) && (s.reg.removers[tid].overtaken || Passed(s, step, tid, id)) {
      RemovalAfter(s, step, tid, id);
    }
    if tid :| Removes(n, tid, id) && n.reg.removers[tid].overtaken {
      OvertakenIsOlder(s, step, tid);
      RemovalAfter(s, step, tid, s.reg.removers[tid].id);
    }
  }

  /** The steps of a run that register `id` behind its removal. */
  ghost function TooLateAt(states: seq<State>, steps: seq<Step>, id: Id): nat -> bool {
    (i: nat) => i < |steps| < |states| && TooLate(states[i], steps[i], id)
  }

  lemma OvertookIff(states: seq<State>, steps: seq<Step>, n: nat, id: Id)
    requires Behaviour(states, steps) && n < |states|
    ensures Overtook(states[n], id) <==> Ever(TooLateAt(states, steps, id), n)
  {
    OvertookSwitches(states, steps, id);
    EverIff(OvertookAt(states, id), TooLateAt(states, steps, id), n);
  }

  ghost function OvertookAt(states: seq<State>, id: Id): nat -> bool {
    (m: nat) => m < |states| && Overtook(states[m], id)
  }

  lemma OvertookSwitches(states: seq<State>, steps: seq<Step>, id: Id)
    requires Behaviour(states, steps)
    ensures !OvertookAt(states, id)(0)
    ensures forall m: nat :: m < |steps| ==>
              Switches(OvertookAt(states, id), TooLateAt(states, steps, id), Never(), m)
  {
    forall m: nat | m < |steps| ensures Switches(OvertookAt(states, id), TooLateAt(states, steps, id), Never(), m) {
      OvertookAfter(states, steps, m, id);
    }
  }

  lemma OvertookAfter(states: seq<State>, steps: seq<Step>, m: nat, id: Id)
    requires Behaviour(states, steps) && m < |steps|
    ensures Overtook(states[m + 1], id) <==> Overtook(states[m], id) || TooLate(states[m], steps[m], id)
  {
    OvertookStep(states[m], steps[m], id);
  }

  /**
   Once an unsubscribe call has answered true for an id, and in every later state, whatever else
   interleaves: no other call answers true for it, and it is in a registry exactly if it was
   registered there behind its removal. It has been obtained and its context cancelled once if
   it was registered and is gone, never otherwise, and no cancellation is still to come.
   */
  lemma ConfirmedMeansRemoved(states: seq<State>, steps: seq<Step>, n: nat, id: Id)
    requires Behaviour(states, steps) && n < |states| && states[n].confirmed[id] > 0
    ensures states[n].confirmed[id] == 1 && id !in states[n].live
    ensures Registry.InSome(states[n].reg, id) <==> Ever(TooLateAt(states, steps, id), n)
    ensures states[n].reg.cancelled[id] == states[n].reg.taken[id] ==
            if id in states[n].reg.added && !Registry.InSome(states[n].reg, id) then 1 else 0
  {
    InvariantHolds(states, steps, n);
    OvertookIff(states, steps, n, id);
    var s := states[n];
    var t :| Removes(s, t, id) && Registry.Returned(s.reg, t);
    assert Registry.RemoverInv(s.reg, s.reg.removers[t]) && Registry.SoleInv(s.reg, t);
    assert forall u :: Removes(s, u, id) ==> u == t;
    assert forall u :: !Registry.Cancelling(s.reg, u, id);
  }

  lemma {:induction false} KnownFromFiring(states: seq<State>, steps: seq<Step>, i: nat, n: nat, id: Id)
    requires Behaviour(states, steps) && i < n < |states|
    requires steps[i].Fire? && steps[i].id == id && id in states[i].reg.added
    ensures Known(states[n], id)
  {
    if n == i + 1 {
      assert Removes(states[n], steps[i].tid, id);
    } else {
      KnownFromFiring(states, steps, i, n - 1, id);
      var tid :| Removes(states[n - 1], tid, id) && states[n - 1].reg.removers[tid].known;
      RemovalAfter(states[n - 1], steps[n - 1], tid, id);
    }
  }

  /** A subscription that was registered when its guard was first used: gone for good, and cancelled once. */
  lemma RegisteredThenConfirmedIsGone(states: seq<State>, steps: seq<Step>, i: nat, n: nat, id: Id)
    requires Behaviour(states, steps) && i < n < |states|
    requires steps[i].Fire? && steps[i].id == id && id in states[i].reg.added
    requires states[n].confirmed[id] > 0
    ensures !Registry.InSome(states[n].reg, id) && states[n].reg.cancelled[id] == 1
  {
    KnownFromFiring(states, steps, i, n, id);
    InvariantHolds(states, steps, n);
    ConfirmedMeansRemoved(states, steps, n, id);
    var t :| Removes(states[n], t, id) && states[n].reg.removers[t].known;
    assert Registry.RemoverInv(states[n].reg, states[n].reg.removers[t]);
    var u :| Removes(states[n], u, id) && Registry.Returned(states[n].reg, u);
  }
}
