/**
 The agent's four subscription registries under racing adds and removals. Removal is
 double-checked: look under the read lock, then look again and delete under the write lock,
 then cancel outside the lock; `Agent.unsubscribe` does this for each registry in turn. Each
 locked block is one step, so any number of removals and adds may interleave between them.
 */
module Registry {
  import opened Common

  /** newHeads, logs, newPendingTxs, syncing: the order in which unsubscribe visits them. */
  const KINDS := 4

  type Kind = k: nat | k < KINDS

  datatype Registry = Registry(count: int, subs: set<Id>)

  function AddTo(r: Registry, id: Id): Registry {
    Registry(if id in r.subs then r.count else r.count + 1, r.subs + {id})
  }

  function TakeFrom(r: Registry, id: Id): Registry {
    if id in r.subs then Registry(r.count - 1, r.subs - {id}) else r
  }

  datatype Phase = Look | Take | Cancel

  /**
   One running `Agent.unsubscribe(id)` at registry number `at` (`KINDS` when it has returned).
   `known` records whether the id had been added when the call began; `overtaken` whether it was
   added to a registry this call had already gone past.
   */
  datatype Remover = Remover(id: Id, at: nat, phase: Phase, known: bool, overtaken: bool)

  /**
   `added` holds the registry each id was added to; `taken` and `cancelled` count the removals
   that obtained an id and the cancellations that ran.
   */
  datatype State = State(
    regs: seq<Registry>,
    removers: map<nat, Remover>,
    added: map<Id, Kind>,
    taken: multiset<Id>,
    cancelled: multiset<Id>)

  datatype Step =
    | Add(kind: Kind, id: Id)
    | Begin(tid: nat, id: Id)
    | LookUp(tid: nat)
    | TakeOut(tid: nat)
    | CancelTaken(tid: nat)

  const EMPTY := Registry(0, {})
  const INITIAL := State([EMPTY, EMPTY, EMPTY, EMPTY], map[], map[], multiset{}, multiset{})

  ghost predicate At(s: State, tid: nat, phase: Phase) {
    tid in s.removers && s.removers[tid].at < KINDS && s.removers[tid].phase == phase
  }

  ghost predicate Enabled(s: State, step: Step) {
    && |s.regs| == KINDS
    && match step
       case Add(kind, id) => true
       case Begin(tid, id) => tid !in s.removers
       case LookUp(tid) => At(s, tid, Look)
       case TakeOut(tid) => At(s, tid, Take)
       case CancelTaken(tid) => At(s, tid, Cancel)
  }

  function Next(r: Remover): Remover {
    r.(at := r.at + 1, phase := Look)
  }

  function Overtake(r: Remover, kind: Kind, id: Id): Remover {
    if r.id == id && r.at > kind then r.(overtaken := true) else r
  }

  ghost function Apply(s: State, step: Step): State
    requires Enabled(s, step)
  {
    match step
    case Add(kind, id) =>
      s.(regs := s.regs[kind := AddTo(s.regs[kind], id)],
         removers := map t | t in s.removers :: Overtake(s.removers[t], kind, id),
         added := s.added[id := kind])
    case Begin(tid, id) => s.(removers := s.removers[tid := Remover(id, 0, Look, id in s.added, false)])
    case LookUp(tid) =>
      var r := s.removers[tid];
      s.(removers := s.removers[tid := if r.id in s.regs[r.at].subs then r.(phase := Take) else Next(r)])
    case TakeOut(tid) =>
      var r := s.removers[tid];
      if r.id in s.regs[r.at].subs then
        s.(regs := s.regs[r.at := TakeFrom(s.regs[r.at], r.id)],
           removers := s.removers[tid := r.(phase := Cancel)],
           taken := s.taken + multiset{r.id})
      else s.(removers := s.removers[tid := Next(r)])
    case CancelTaken(tid) =>
      var r := s.removers[tid];
      s.(removers := s.removers[tid := Next(r)], cancelled := s.cancelled + multiset{r.id})
  }

  ghost predicate Behaviour(states: seq<State>, steps: seq<Step>) {
    && |states| == |steps| + 1
    && states[0] == INITIAL
    && forall i {:trigger steps[i]} :: 0 <= i < |steps| ==>
         Enabled(states[i], steps[i]) && states[i + 1] == Apply(states[i], steps[i])
  }

  /** Subscription ids are 128 random bits; a run is fresh when none is ever added twice. */
  ghost predicate FreshAdds(states: seq<State>, steps: seq<Step>)
    requires |states| == |steps| + 1
  {
    forall i {:trigger steps[i]} :: 0 <= i < |steps| && steps[i].Add? ==> steps[i].id !in states[i].added
  }

  // ----- the count, on every run

  ghost predicate Counted(s: State) {
    |s.regs| == KINDS && forall k :: 0 <= k < KINDS ==> s.regs[k].count == |s.regs[k].subs|
  }

  lemma CountedAdd(r: Registry, id: Id)
    requires r.count == |r.subs|
    ensures AddTo(r, id).count == |AddTo(r, id).subs|
  {
    if id in r.subs {
      assert r.subs + {id} == r.subs;
    } else {
      assert |r.subs + {id}| == |r.subs| + 1;
    }
  }

  lemma CountedTake(r: Registry, id: Id)
    requires r.count == |r.subs|
    ensures TakeFrom(r, id).count == |TakeFrom(r, id).subs|
  {
    if id in r.subs {
      assert |r.subs - {id}| == |r.subs| - 1;
    }
  }

  /** A step changes at most one registry, by an addition or a removal. */
  lemma RegistriesAfter(s: State, step: Step)
    requires Enabled(s, step)
    ensures Apply(s, step).regs ==
            match step
            case Add(kind, id) => s.regs[kind := AddTo(s.regs[kind], id)]
            case TakeOut(tid) =>
              var r := s.removers[tid];
              s.regs[r.at := TakeFrom(s.regs[r.at], r.id)]
            case _ => s.regs
  {
  }

  lemma CountedStep(s: State, step: Step)
    requires Counted(s) && Enabled(s, step)
    ensures Counted(Apply(s, step))
  {
    RegistriesAfter(s, step);
    match step {
      case Add(kind, id) => CountedAdd(s.regs[kind], id);
      case TakeOut(tid) => CountedTake(s.regs[s.removers[tid].at], s.removers[tid].id);
      case _ =>
    }
  }

  /** `subscriptionCount` is the size of the map, whatever races and whatever ids collide. */
  lemma {:induction false} CountIsSize(states: seq<State>, steps: seq<Step>, n: nat)
    requires Behaviour(states, steps) && n < |states|
    ensures Counted(states[n])
  {
    if n > 0 {
      CountIsSize(states, steps, n - 1);
      CountedStep(states[n - 1], steps[n - 1]);
    }
  }

  // ----- fresh ids

  ghost predicate InSome(s: State, id: Id) {
    exists k :: 0 <= k < |s.regs| && id in s.regs[k].subs
  }

  /** An id is in at most the registry it was added to, and is there until it is taken. */
  ghost predicate PlaceInv(s: State) {
    && |s.regs| == KINDS
    && (forall k, id :: 0 <= k < KINDS && id in s.regs[k].subs ==> id in s.added && s.added[id] == k)
    && (forall id :: s.taken[id] == if id in s.added && id !in s.regs[s.added[id]].subs then 1 else 0)
  }

  /** Whether remover `r` still has to come to the registry that holds its id. */
  ghost predicate RemoverInv(s: State, r: Remover)
    requires |s.regs| == KINDS
  {
    && r.at <= KINDS
    && (r.known ==> r.id in s.added && !r.overtaken)
    && (r.overtaken ==> r.id in s.added && s.added[r.id] < r.at)
    && (r.at > 0 && r.id in s.added && s.added[r.id] < r.at && r.id in s.regs[s.added[r.id]].subs ==> r.overtaken)
    && (r.phase != Look ==> r.at < KINDS && r.id in s.added && s.added[r.id] == r.at)
  }

  ghost predicate Cancelling(s: State, tid: nat, id: Id) {
    tid in s.removers && s.removers[tid].phase == Cancel && s.removers[tid].id == id
  }

  ghost predicate CancelInv(s: State) {
    && (forall t :: t in s.removers && s.removers[t].phase == Cancel ==>
          s.taken[s.removers[t].id] == 1 && s.cancelled[s.removers[t].id] == 0)
    && (forall t, u, id :: Cancelling(s, t, id) && Cancelling(s, u, id) ==> t == u)
    && (forall id :: s.cancelled[id] <= s.taken[id])
    && (forall id :: s.taken[id] == 1 && s.cancelled[id] == 0 ==> exists t :: Cancelling(s, t, id))
  }

  ghost predicate Inv(s: State) {
    PlaceInv(s) && CancelInv(s) && forall t :: t in s.removers ==> RemoverInv(s, s.removers[t])
  }

  lemma PlaceAdd(s: State, kind: Kind, id: Id)
    requires PlaceInv(s) && id !in s.added
    ensures PlaceInv(Apply(s, Add(kind, id)))
  {
    var n := Apply(s, Add(kind, id));
    forall k, o | 0 <= k < KINDS ensures o in n.regs[k].subs <==> o in s.regs[k].subs || (k == kind && o == id) {}
    assert id !in s.regs[kind].subs;
  }

  lemma PlaceTakeOut(s: State, tid: nat)
    requires PlaceInv(s) && Enabled(s, TakeOut(tid))
    ensures PlaceInv(Apply(s, TakeOut(tid)))
  {
    var n := Apply(s, TakeOut(tid));
    var r := s.removers[tid];
    forall k, o | 0 <= k < KINDS ensures o in n.regs[k].subs <==> o in s.regs[k].subs && !(k == r.at && o == r.id) {}
  }

  lemma PlaceStep(s: State, step: Step)
    requires Inv(s) && Enabled(s, step)
    requires step.Add? ==> step.id !in s.added
    ensures PlaceInv(Apply(s, step))
  {
    match step {
      case Add(kind, id) => PlaceAdd(s, kind, id);
      case TakeOut(tid) => PlaceTakeOut(s, tid);
      case _ => assert Apply(s, step).regs == s.regs;
    }
  }

  lemma RemoverStep(s: State, step: Step)
    requires Inv(s) && Enabled(s, step)
    requires step.Add? ==> step.id !in s.added
    ensures forall t :: t in Apply(s, step).removers ==> RemoverInv(Apply(s, step), Apply(s, step).removers[t])
  {
    forall t | t in Apply(s, step).removers ensures RemoverInv(Apply(s, step), Apply(s, step).removers[t]) {
      if t !in s.removers {
        assert step.Begin? && t == step.tid;
      } else {
        assert RemoverInv(s, s.removers[t]);
        match step {
          case Add(kind, id) => AddKeepsRemover(s, kind, id, t);
          case TakeOut(tid) => TakeOutKeepsRemover(s, tid, t);
          case _ => QuietKeepsRemover(s, step, t);
        }
      }
    }
  }

  lemma AddKeepsRemover(s: State, kind: Kind, id: Id, t: nat)
    requires PlaceInv(s) && id !in s.added && t in s.removers && RemoverInv(s, s.removers[t])
    ensures RemoverInv(Apply(s, Add(kind, id)), Apply(s, Add(kind, id)).removers[t])
  {
    var n := Apply(s, Add(kind, id));
    assert n.removers[t] == Overtake(s.removers[t], kind, id);
    assert s.removers[t].id != id ==> forall k :: 0 <= k < KINDS ==>
             (s.removers[t].id in n.regs[k].subs <==> s.removers[t].id in s.regs[k].subs);
  }

  lemma TakeOutKeepsRemover(s: State, tid: nat, t: nat)
    requires PlaceInv(s) && Enabled(s, TakeOut(tid)) && t in s.removers && RemoverInv(s, s.removers[t])
    ensures RemoverInv(Apply(s, TakeOut(tid)), Apply(s, TakeOut(tid)).removers[t])
  {
    var n := Apply(s, TakeOut(tid));
    assert forall k, o :: 0 <= k < KINDS && o in n.regs[k].subs ==> o in s.regs[k].subs;
  }

  /** Looking up, beginning and cancelling leave registries and additions as they are. */
  lemma QuietKeepsRemover(s: State, step: Step, t: nat)
    requires PlaceInv(s) && CancelInv(s) && Enabled(s, step) && !step.Add? && !step.TakeOut?
    requires t in s.removers && RemoverInv(s, s.removers[t])
    ensures RemoverInv(Apply(s, step), Apply(s, step).removers[t])
  {
    var n, r := Apply(s, step), s.removers[t];
    assert n.regs == s.regs && n.added == s.added;
    assert r.phase == Cancel ==> s.taken[r.id] == 1 && r.id !in s.regs[s.added[r.id]].subs;
  }

  /** Steps that neither start nor finish a cancellation. */
  lemma CancelFrame(s: State, n: State)
    requires CancelInv(s) && n.taken == s.taken && n.cancelled == s.cancelled
    requires forall t, id :: Cancelling(n, t, id) <==> Cancelling(s, t, id)
    ensures CancelInv(n)
  {
    forall t | t in n.removers && n.removers[t].phase == Cancel
      ensures n.taken[n.removers[t].id] == 1 && n.cancelled[n.removers[t].id] == 0
    {
      assert Cancelling(n, t, n.removers[t].id);
      assert Cancelling(s, t, n.removers[t].id);
    }
  }

  /** One call more is about to cancel, for an id that nobody has obtained before. */
  lemma CancelStarts(s: State, n: State, tid: nat, id: Id)
    requires CancelInv(s) && s.taken[id] == 0
    requires n.taken == s.taken + multiset{id} && n.cancelled == s.cancelled
    requires forall t, o :: Cancelling(n, t, o) <==> (t == tid && o == id) || (t != tid && Cancelling(s, t, o))
    requires forall o :: !Cancelling(s, tid, o)
    ensures CancelInv(n)
  {
    forall t | t in n.removers && n.removers[t].phase == Cancel
      ensures n.taken[n.removers[t].id] == 1 && n.cancelled[n.removers[t].id] == 0
    {
      assert Cancelling(n, t, n.removers[t].id);
    }
    forall o | n.taken[o] == 1 && n.cancelled[o] == 0 ensures exists t :: Cancelling(n, t, o) {
      if o == id {
        assert Cancelling(n, tid, id);
      } else {
        var t :| Cancelling(s, t, o);
        assert Cancelling(n, t, o);
      }
    }
  }

  lemma CancelTakeOut(s: State, tid: nat)
    requires Inv(s) && Enabled(s, TakeOut(tid))
    ensures CancelInv(Apply(s, TakeOut(tid)))
  {
    var n := Apply(s, TakeOut(tid));
    var r := s.removers[tid];
    if r.id in s.regs[r.at].subs {
      assert s.taken[r.id] == 0;
      CancelStarts(s, n, tid, r.id);
    } else {
      CancelFrame(s, n);
    }
  }

  lemma CancelFinishes(s: State, tid: nat)
    requires CancelInv(s) && Enabled(s, CancelTaken(tid))
    ensures CancelInv(Apply(s, CancelTaken(tid)))
  {
    var n := Apply(s, CancelTaken(tid));
    var r := s.removers[tid];
    assert Cancelling(s, tid, r.id);
    forall t, id ensures Cancelling(n, t, id) <==> Cancelling(s, t, id) && t != tid {
    }
    forall t | t in n.removers && n.removers[t].phase == Cancel
      ensures n.taken[n.removers[t].id] == 1 && n.cancelled[n.removers[t].id] == 0
    {
      assert Cancelling(n, t, n.removers[t].id);
      assert Cancelling(s, t, n.removers[t].id);
    }
    forall id | n.taken[id] == 1 && n.cancelled[id] == 0 ensures exists t :: Cancelling(n, t, id) {
      var t :| Cancelling(s, t, id);
      assert Cancelling(n, t, id);
    }
  }

  lemma CancelStep(s: State, step: Step)
    requires Inv(s) && Enabled(s, step)
    ensures CancelInv(Apply(s, step))
  {
    match step {
      case TakeOut(tid) => CancelTakeOut(s, tid);
      case CancelTaken(tid) => CancelFinishes(s, tid);
      case _ => CancelQuiet(s, step);
    }
  }

  lemma CancelQuiet(s: State, step: Step)
    requires CancelInv(s) && Enabled(s, step) && !step.TakeOut? && !step.CancelTaken?
    ensures CancelInv(Apply(s, step))
  {
    var n := Apply(s, step);
    forall t, id ensures Cancelling(n, t, id) <==> Cancelling(s, t, id) {
    }
    CancelFrame(s, n);
  }

  lemma {:induction false} InvariantHolds(states: seq<State>, steps: seq<Step>, n: nat)
    requires Behaviour(states, steps) && FreshAdds(states, steps) && n < |states|
    ensures Inv(states[n])
  {
    if n > 0 {
      InvariantHolds(states, steps, n - 1);
      PlaceStep(states[n - 1], steps[n - 1]);
      RemoverStep(states[n - 1], steps[n - 1]);
      CancelStep(states[n - 1], steps[n - 1]);
    }
  }

  /**
   Racing removers of one id: at most one obtains it and at most one cancels it, and once it is
   gone from the registries it has been obtained exactly once, and cancelled exactly once unless
   the remover that obtained it has still to run its cancellation.
   */
  lemma ObtainedAndCancelledOnce(states: seq<State>, steps: seq<Step>, n: nat, id: Id)
    requires Behaviour(states, steps) && FreshAdds(states, steps) && n < |states|
    ensures states[n].cancelled[id] <= states[n].taken[id] <= 1
    ensures states[n].taken[id] == 1 <==> id in states[n].added && !InSome(states[n], id)
    ensures states[n].taken[id] == 1 && (forall t :: !Cancelling(states[n], t, id)) ==> states[n].cancelled[id] == 1
  {
    InvariantHolds(states, steps, n);
    var s := states[n];
  }

  // ----- conservation

  /** `Agent.subscriptionCount`. */
  function SubscriptionCount(regs: seq<Registry>): int
    requires |regs| == KINDS
  {
    regs[0].count + regs[1].count + regs[2].count + regs[3].count
  }

  lemma CountAfter(regs: seq<Registry>, k: Kind, r: Registry)
    requires |regs| == KINDS
    ensures SubscriptionCount(regs[k := r]) == SubscriptionCount(regs) - regs[k].count + r.count
  {
    if k == 0 {} else if k == 1 {} else if k == 2 {} else {}
  }

  /** The ids added less those obtained. */
  function Outstanding(s: State): int {
    |s.added| - |s.taken|
  }

  lemma OutstandingAdd(s: State, kind: Kind, id: Id)
    requires Enabled(s, Add(kind, id)) && id !in s.added
    ensures Outstanding(Apply(s, Add(kind, id))) == Outstanding(s) + 1
  {
    var added := s.added[id := kind];
    assert added.Keys == s.added.Keys + {id};
    assert |added| == |added.Keys| && |s.added| == |s.added.Keys|;
  }

  lemma OutstandingTakeOut(s: State, tid: nat)
    requires Enabled(s, TakeOut(tid))
    ensures Outstanding(Apply(s, TakeOut(tid))) ==
            Outstanding(s) - if s.removers[tid].id in s.regs[s.removers[tid].at].subs then 1 else 0
  {
    assert |s.taken + multiset{s.removers[tid].id}| == |s.taken| + 1;
  }

  lemma ConservationStep(s: State, step: Step)
    requires Enabled(s, step)
    requires step.Add? ==> step.id !in s.added && step.id !in s.regs[step.kind].subs
    ensures |Apply(s, step).regs| == KINDS
    ensures SubscriptionCount(Apply(s, step).regs) - Outstanding(Apply(s, step)) ==
            SubscriptionCount(s.regs) - Outstanding(s)
  {
    RegistriesAfter(s, step);
    match step {
      case Add(kind, id) =>
        OutstandingAdd(s, kind, id);
        CountAfter(s.regs, kind, AddTo(s.regs[kind], id));
      case TakeOut(tid) =>
        var r := s.removers[tid];
        OutstandingTakeOut(s, tid);
        CountAfter(s.regs, r.at, TakeFrom(s.regs[r.at], r.id));
      case _ =>
    }
  }

  /** A fresh id is in no registry. */
  lemma NotYetThere(s: State, step: Step)
    requires PlaceInv(s) && (step.Add? ==> step.id !in s.added)
    ensures step.Add? ==> step.id !in s.regs[step.kind].subs
  {
  }

  /** The four counts add up to the ids added and not yet obtained. */
  lemma {:induction false} CountsAreConserved(states: seq<State>, steps: seq<Step>, n: nat)
    requires Behaviour(states, steps) && FreshAdds(states, steps) && n < |states|
    ensures |states[n].regs| == KINDS
    ensures SubscriptionCount(states[n].regs) == |states[n].added| - |states[n].taken|
  {
    if n > 0 {
      CountsAreConserved(states, steps, n - 1);
      InvariantHolds(states, steps, n - 1);
      NotYetThere(states[n - 1], steps[n - 1]);
      ConservationStep(states[n - 1], steps[n - 1]);
    }
  }

  // ----- what a completed unsubscribe leaves behind

  ghost predicate Returned(s: State, tid: nat) {
    tid in s.removers && s.removers[tid].at == KINDS
  }

  ghost predicate OnlyRemover(s: State, tid: nat) {
    tid in s.removers && forall t :: t in s.removers && s.removers[t].id == s.removers[tid].id ==> t == tid
  }

  /**
   After `unsubscribe(id)` of an id that was registered when the call began, the id is in none of
   the four registries, then and ever after, whatever else races.
   */
  lemma UnsubscribedIsGone(states: seq<State>, steps: seq<Step>, n: nat, tid: nat)
    requires Behaviour(states, steps) && FreshAdds(states, steps) && n < |states|
    requires Returned(states[n], tid) && states[n].removers[tid].known
    ensures !InSome(states[n], states[n].removers[tid].id)
  {
    InvariantHolds(states, steps, n);
    assert RemoverInv(states[n], states[n].removers[tid]);
  }

  /** What a sole remover has passed by and not been overtaken on is gone; what overtook it stays. */
  ghost predicate SoleInv(s: State, tid: nat)
    requires |s.regs| == KINDS && tid in s.removers
  {
    s.removers[tid].overtaken ==> InSome(s, s.removers[tid].id)
  }

  lemma {:induction false} SoleRemoverMissesOvertakers(states: seq<State>, steps: seq<Step>, n: nat, tid: nat)
    requires Behaviour(states, steps) && FreshAdds(states, steps) && n < |states|
    requires OnlyRemover(states[n], tid)
    ensures |states[n].regs| == KINDS && SoleInv(states[n], tid)
    decreases n, 1
  {
    if n > 0 {
      InvariantHolds(states, steps, n - 1);
      assert Enabled(states[n - 1], steps[n - 1]);
      SoleInduction(states, steps, n, tid);
    }
  }

  lemma {:induction false} SoleInduction(states: seq<State>, steps: seq<Step>, n: nat, tid: nat)
    requires Behaviour(states, steps) && FreshAdds(states, steps) && 0 < n < |states|
    requires OnlyRemover(states[n], tid) && Enabled(states[n - 1], steps[n - 1])
    requires tid in states[n - 1].removers ==> RemoverInv(states[n - 1], states[n - 1].removers[tid])
    ensures |states[n].regs| == KINDS && SoleInv(states[n], tid)
    decreases n, 0
  {
    var s, step := states[n - 1], steps[n - 1];
    if tid in s.removers {
      SoleWasSole(s, step, tid);
      SoleRemoverMissesOvertakers(states, steps, n - 1, tid);
      SoleStep(s, step, tid);
    } else {
      SoleBegins(s, step, tid);
    }
  }

  lemma SoleBegins(s: State, step: Step, tid: nat)
    requires Enabled(s, step) && tid !in s.removers && tid in Apply(s, step).removers
    ensures |Apply(s, step).regs| == KINDS && SoleInv(Apply(s, step), tid)
  {
  }

  lemma SoleWasSole(s: State, step: Step, tid: nat)
    requires Enabled(s, step) && OnlyRemover(Apply(s, step), tid) && tid in s.removers
    ensures OnlyRemover(s, tid)
    ensures Apply(s, step).removers[tid].id == s.removers[tid].id
  {
    var n := Apply(s, step);
    forall t | t in s.removers && s.removers[t].id == s.removers[tid].id ensures t == tid {
      assert t in n.removers && n.removers[t].id == s.removers[t].id;
    }
  }

  lemma SoleStep(s: State, step: Step, tid: nat)
    requires Enabled(s, step) && OnlyRemover(s, tid) && RemoverInv(s, s.removers[tid])
    requires step.Add? ==> step.id !in s.added
    requires SoleInv(s, tid)
    ensures |Apply(s, step).regs| == KINDS && SoleInv(Apply(s, step), tid)
  {
    var n := Apply(s, step);
    var id := s.removers[tid].id;
    if n.removers[tid].overtaken {
      if s.removers[tid].overtaken {
        var k :| 0 <= k < |s.regs| && id in s.regs[k].subs;
        assert id in n.regs[k].subs;
      } else {
        assert id in n.regs[step.kind].subs;
      }
    }
  }

  /**
   With a single `unsubscribe(id)` (the once-guard allows no second one), the id is left in a
   registry exactly when it was added to it after the call had gone past that registry: the
   registration that a finished or running unsubscribe overlooks is never removed.
   */
  lemma LeakedIffOvertaken(states: seq<State>, steps: seq<Step>, n: nat, tid: nat)
    requires Behaviour(states, steps) && FreshAdds(states, steps) && n < |states|
    requires Returned(states[n], tid) && OnlyRemover(states[n], tid)
    ensures InSome(states[n], states[n].removers[tid].id) <==> states[n].removers[tid].overtaken
  {
    InvariantHolds(states, steps, n);
    assert RemoverInv(states[n], states[n].removers[tid]);
    SoleRemoverMissesOvertakers(states, steps, n, tid);
  }

  /** A call that has returned is over; only the note that it was overtaken may still be made. */
  lemma ReturnedStep(s: State, step: Step, tid: nat)
    requires Enabled(s, step) && Returned(s, tid)
    ensures var n := Apply(s, step);
      && Returned(n, tid) && n.removers[tid].id == s.removers[tid].id
      && n.removers[tid].known == s.removers[tid].known
      && (s.removers[tid].overtaken ==> n.removers[tid].overtaken)
  {
  }

  lemma {:induction false} ReturnedStays(states: seq<State>, steps: seq<Step>, n: nat, m: nat, tid: nat)
    requires Behaviour(states, steps) && n <= m < |states| && Returned(states[n], tid)
    ensures Returned(states[m], tid) && states[m].removers[tid].id == states[n].removers[tid].id
    ensures states[m].removers[tid].known == states[n].removers[tid].known
    ensures states[n].removers[tid].overtaken ==> states[m].removers[tid].overtaken
  {
    if n < m {
      ReturnedStays(states, steps, n, m - 1, tid);
      assert Enabled(states[m - 1], steps[m - 1]);
      ReturnedStep(states[m - 1], steps[m - 1], tid);
    }
  }

  /** What was registered when its unsubscribe began is out for good once the call has returned. */
  lemma UnsubscribedStaysGone(states: seq<State>, steps: seq<Step>, n: nat, m: nat, tid: nat)
    requires Behaviour(states, steps) && FreshAdds(states, steps) && n <= m < |states|
    requires Returned(states[n], tid) && states[n].removers[tid].known
    ensures !InSome(states[m], states[n].removers[tid].id)
  {
    ReturnedStays(states, steps, n, m, tid);
    UnsubscribedIsGone(states, steps, m, tid);
  }

  /** The once-guard of each subscription: `unsubscribe` is never called twice for one id. */
  ghost predicate GuardedBegins(states: seq<State>, steps: seq<Step>)
    requires |states| == |steps| + 1
  {
    forall i {:trigger steps[i]} :: 0 <= i < |steps| && steps[i].Begin? ==>
      forall t :: t in states[i].removers ==> states[i].removers[t].id != steps[i].id
  }

  ghost predicate DistinctIds(s: State) {
    forall t, u :: t in s.removers && u in s.removers && s.removers[t].id == s.removers[u].id ==> t == u
  }

  lemma DistinctIdsStep(s: State, step: Step)
    requires Enabled(s, step) && DistinctIds(s)
    requires step.Begin? ==> forall t :: t in s.removers ==> s.removers[t].id != step.id
    ensures DistinctIds(Apply(s, step))
  {
  }

  lemma {:induction false} GuardedRemoversAreSole(states: seq<State>, steps: seq<Step>, n: nat)
    requires Behaviour(states, steps) && GuardedBegins(states, steps) && n < |states|
    ensures DistinctIds(states[n])
  {
    if n > 0 {
      GuardedRemoversAreSole(states, steps, n - 1);
      DistinctIdsStep(states[n - 1], steps[n - 1]);
    }
  }

  /** So a registration that its unsubscribe overlooked is there in every later state. */
  lemma LeakIsForever(states: seq<State>, steps: seq<Step>, n: nat, m: nat, tid: nat)
    requires Behaviour(states, steps) && FreshAdds(states, steps) && GuardedBegins(states, steps)
    requires n <= m < |states| && Returned(states[n], tid) && InSome(states[n], states[n].removers[tid].id)
    ensures InSome(states[m], states[n].removers[tid].id)
  {
    GuardedRemoversAreSole(states, steps, n);
    GuardedRemoversAreSole(states, steps, m);
    LeakedIffOvertaken(states, steps, n, tid);
    ReturnedStays(states, steps, n, m, tid);
    LeakedIffOvertaken(states, steps, m, tid);
  }

  /** A run goes on with any step that is enabled at its end. */
  lemma Extend(states: seq<State>, steps: seq<Step>, step: Step) returns (states': seq<State>, steps': seq<Step>)
    requires Behaviour(states, steps) && FreshAdds(states, steps) && Enabled(states[|steps|], step)
    requires step.Add? ==> step.id !in states[|steps|].added
    ensures Behaviour(states', steps') && FreshAdds(states', steps')
    ensures |steps'| == |steps| + 1 && states'[|steps'|] == Apply(states[|steps|], step)
  {
    states' := states + [Apply(states[|steps|], step)];
    steps' := steps + [step];
  }

  function Visiting(k: nat): State {
    INITIAL.(removers := map[0 := Remover("a", k, Look, false, false)])
  }

  /** The removal finds each registry empty and goes past it. */
  lemma {:induction false} VisitsUpTo(k: nat) returns (states: seq<State>, steps: seq<Step>)
    requires k <= KINDS
    ensures Behaviour(states, steps) && FreshAdds(states, steps) && states[|steps|] == Visiting(k)
  {
    if k == 0 {
      states, steps := Extend([INITIAL], [], Begin(0, "a"));
    } else {
      states, steps := VisitsUpTo(k - 1);
      assert Visiting(k - 1).regs[k - 1] == EMPTY;
      states, steps := Extend(states, steps, LookUp(0));
    }
  }

  /** Such a run exists: the loop exits between `Notifier.Subscribe` and `addSubscription`. */
  lemma ALeakExists() returns (states: seq<State>, steps: seq<Step>)
    ensures Behaviour(states, steps) && FreshAdds(states, steps)
    ensures Returned(states[|steps|], 0) && InSome(states[|steps|], states[|steps|].removers[0].id)
  {
    states, steps := VisitsUpTo(KINDS);
    states, steps := Extend(states, steps, Add(1, "a"));
    assert "a" in states[|steps|].regs[1].subs;
  }

  // ----- the registry object itself

  /** `subscriptionRegistry`: each method body is what the code runs between locking and unlocking. */
  class SubscriptionRegistry {
    var subscriptionCount: int
    var subscriptions: set<Id>
    /** The entries whose cancel function has been called. */
    var cancelled: multiset<Id>

    ghost function View(): Registry
      reads this
    {
      Registry(subscriptionCount, subscriptions)
    }

    constructor ()
      ensures View() == EMPTY && cancelled == multiset{}
    {
      subscriptionCount := 0;
      subscriptions := {};
      cancelled := multiset{};
    }

    method AddSubscription(id: Id)
      modifies this
      ensures View() == AddTo(old(View()), id) && cancelled == old(cancelled)
    {
      var collision := id in subscriptions;
      subscriptions := subscriptions + {id};
      if !collision {
        subscriptionCount := subscriptionCount + 1;
      }
    }

    /**
     `removeSubscription`. Between its two looks others may add and remove: `meanwhile` is what the
     registry has become when the write lock is obtained, and is looked at only if the first look
     found the id. Nobody interfered if it is the registry as it was.
     */
    method RemoveSubscription(id: Id, meanwhile: Registry) returns (obtained: bool)
      modifies this
      ensures obtained == (id in old(View()).subs && id in meanwhile.subs)
      ensures View() == if id in old(View()).subs then TakeFrom(meanwhile, id) else old(View())
      ensures cancelled == old(cancelled) + if obtained then multiset{id} else multiset{}
    {
      obtained := id in subscriptions;
      if obtained {
        subscriptionCount, subscriptions := meanwhile.count, meanwhile.subs;
        obtained := Take(id);
      }
      if obtained {
        cancelled := cancelled + multiset{id};
      }
    }

    /** The write-locked half of `removeSubscription`; true when this caller obtained the entry. */
    method Take(id: Id) returns (obtained: bool)
      modifies this
      ensures obtained == (id in old(View()).subs)
      ensures View() == TakeFrom(old(View()), id) && cancelled == old(cancelled)
    {
      obtained := id in subscriptions;
      if obtained {
        subscriptions := subscriptions - {id};
        subscriptionCount := subscriptionCount - 1;
      }
    }
  }
}
