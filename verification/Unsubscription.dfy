/**
 Ending a subscription: the client's eth_unsubscribe, the call that the unsubscribe callback
 spawns back into the notifier, and the writer loop's exit, which ends them all. Each of these
 holds the notifier's mutex from start to finish, so each is one step.
 */
module Unsubscription {
  import opened Common

  /**
   `live` is the notifier's subscription map, `fired` the once-guards already spent, `spawned`
   the calls started in their own goroutine and not yet run. The rest is history: every id ever
   subscribed, the callbacks run, the spawned calls run and the ids for which an unsubscribe
   call answered true.
   */
  datatype State = State(
    live: set<Id>,
    fired: set<Id>,
    spawned: multiset<Id>,
    subscribed: set<Id>,
    callbacks: multiset<Id>,
    ran: multiset<Id>,
    confirmed: multiset<Id>)

  datatype Step =
    | Subscribe(id: Id)
    | ClientUnsubscribe(id: Id)
    | SpawnedUnsubscribe(id: Id)
    | LoopExit

  /** The once-guarded callback of every subscription in `ids`; each one that fires spawns a call. */
  function Fire(s: State, ids: set<Id>): State {
    var first := ids - s.fired;
    s.(fired := s.fired + first,
       callbacks := s.callbacks + multiset(first),
       spawned := s.spawned + multiset(first))
  }

  function Unsubscribed(s: State, id: Id): State {
    if id in s.live then
      var f := Fire(s, {id});
      f.(live := f.live - {id}, confirmed := f.confirmed + multiset{id})
    else s
  }

  const INITIAL := State({}, {}, multiset{}, {}, multiset{}, multiset{}, multiset{})

  ghost predicate Enabled(s: State, step: Step) {
    match step
    case Subscribe(id) => id !in s.subscribed
    case SpawnedUnsubscribe(id) => id in s.spawned
    case _ => true
  }

  ghost function Apply(s: State, step: Step): State
    requires Enabled(s, step)
  {
    match step
    case Subscribe(id) => s.(live := s.live + {id}, subscribed := s.subscribed + {id})
    case ClientUnsubscribe(id) => Unsubscribed(s, id)
    case SpawnedUnsubscribe(id) =>
      Unsubscribed(s.(spawned := s.spawned - multiset{id}, ran := s.ran + multiset{id}), id)
    case LoopExit => Fire(s, s.live)
  }

  ghost predicate Behaviour(states: seq<State>, steps: seq<Step>) {
    && |states| == |steps| + 1
    && states[0] == INITIAL
    && forall i {:trigger steps[i]} :: 0 <= i < |steps| ==>
         Enabled(states[i], steps[i]) && states[i + 1] == Apply(states[i], steps[i])
  }

  ghost predicate Inv(s: State) {
    && s.fired <= s.subscribed && s.live <= s.subscribed
    && s.callbacks == multiset(s.fired)
    && s.ran + s.spawned == multiset(s.fired)
    && s.confirmed == multiset(s.subscribed - s.live)
    && s.subscribed - s.live <= s.fired
    && (forall id :: id in s.fired && id in s.live ==> id in s.spawned)
  }

  lemma FireKeepsInv(s: State, ids: set<Id>)
    requires Inv(s) && ids <= s.live
    ensures Inv(Fire(s, ids))
  {
    var first := ids - s.fired;
    assert multiset(s.fired + first) == multiset(s.fired) + multiset(first);
  }

  lemma UnsubscribeKeepsInv(s: State, id: Id)
    requires Inv(s)
    ensures Inv(Unsubscribed(s, id))
  {
    if id in s.live {
      FireKeepsInv(s, {id});
      var f := Fire(s, {id});
      assert f.subscribed - (f.live - {id}) == (f.subscribed - f.live) + {id};
    }
  }

  /** Running a spawned call: its subscription has fired, so the callback does not run again. */
  lemma SpawnedKeepsInv(s: State, id: Id)
    requires Inv(s) && id in s.spawned
    ensures Inv(Apply(s, SpawnedUnsubscribe(id)))
  {
    var r := s.(spawned := s.spawned - multiset{id}, ran := s.ran + multiset{id});
    assert id in s.fired by {
      assert multiset(s.fired)[id] >= 1;
    }
    assert r.ran + r.spawned == s.ran + s.spawned;
    if id in s.live {
      FireOne(r, id);
      assert r.subscribed - (r.live - {id}) == (r.subscribed - r.live) + {id};
    }
  }

  lemma StepKeepsInv(s: State, step: Step)
    requires Inv(s) && Enabled(s, step)
    ensures Inv(Apply(s, step))
  {
    match step {
      case Subscribe(id) => assert Apply(s, step).subscribed - Apply(s, step).live == s.subscribed - s.live;
      case ClientUnsubscribe(id) => UnsubscribeKeepsInv(s, id);
      case SpawnedUnsubscribe(id) => SpawnedKeepsInv(s, id);
      case LoopExit => FireKeepsInv(s, s.live);
    }
  }

  lemma {:induction false} InvariantHolds(states: seq<State>, steps: seq<Step>, n: nat)
    requires Behaviour(states, steps) && n < |states|
    ensures Inv(states[n])
  {
    if n > 0 {
      InvariantHolds(states, steps, n - 1);
      StepKeepsInv(states[n - 1], steps[n - 1]);
    }
  }

  /**
   However client calls, spawned calls and the loop's exit interleave: each subscription's
   callback runs at most once and at most one unsubscribe call for it answers true.
   */
  lemma CallbackAndConfirmationAtMostOnce(states: seq<State>, steps: seq<Step>, n: nat, id: Id)
    requires Behaviour(states, steps) && n < |states|
    ensures states[n].callbacks[id] <= 1 && states[n].confirmed[id] <= 1
    ensures states[n].confirmed[id] == 1 ==> states[n].callbacks[id] == 1
  {
    InvariantHolds(states, steps, n);
  }

  /**
   Once no spawned call is outstanding, a subscription was either never ended (no callback, no
   confirmation, still live) or ended completely (one callback, one spawned call, one
   confirmation, no longer live).
   */
  lemma QuiescentMeansEndedOrLive(states: seq<State>, steps: seq<Step>, n: nat, id: Id)
    requires Behaviour(states, steps) && n < |states|
    requires states[n].spawned == multiset{} && id in states[n].subscribed
    ensures var s := states[n];
            if id in s.live then s.callbacks[id] == 0 && s.ran[id] == 0 && s.confirmed[id] == 0
            else s.callbacks[id] == 1 && s.ran[id] == 1 && s.confirmed[id] == 1
  {
    InvariantHolds(states, steps, n);
    var s := states[n];
    assert s.ran == multiset(s.fired);
  }

  /** Without new subscriptions the guards of the live ones stay spent. */
  lemma SpentStays(s: State, step: Step)
    requires Enabled(s, step) && !step.Subscribe? && s.live <= s.fired
    ensures Apply(s, step).live <= Apply(s, step).fired
  {
  }

  lemma {:induction false} SpentSinceExit(states: seq<State>, steps: seq<Step>, i: nat, n: nat)
    requires Behaviour(states, steps) && i < n <= |steps| && steps[i].LoopExit?
    requires forall k {:trigger steps[k]} :: i < k < n ==> !steps[k].Subscribe?
    ensures states[n].live <= states[n].fired
  {
    if n == i + 1 {
      assert states[n] == Apply(states[i], steps[i]);
    } else {
      SpentSinceExit(states, steps, i, n - 1);
      SpentStays(states[n - 1], steps[n - 1]);
    }
  }

  /** After the loop's exit, once the calls it spawned have run and nobody has subscribed, none is left. */
  lemma ExitEndsAll(states: seq<State>, steps: seq<Step>, i: nat, n: nat)
    requires Behaviour(states, steps) && i < n <= |steps| && steps[i].LoopExit?
    requires forall k {:trigger steps[k]} :: i < k < n ==> !steps[k].Subscribe?
    requires states[n].spawned == multiset{}
    ensures states[n].live == {}
  {
    InvariantHolds(states, steps, n);
    SpentSinceExit(states, steps, i, n);
    var s := states[n];
    assert forall id :: id in s.live ==> id in s.spawned;
  }

  // ----- the mutual recursion between Unsubscribe and its callback ends

  function Pending(s: State): nat {
    2 * |s.subscribed - s.fired| + |s.spawned|
  }

  /** Only a new subscription raises the measure, and every spawned call lowers it. */
  lemma SpawnedCallsDecrease(s: State, step: Step)
    requires Inv(s) && Enabled(s, step) && !step.Subscribe?
    ensures Pending(Apply(s, step)) <= Pending(s)
    ensures step.SpawnedUnsubscribe? ==> Pending(Apply(s, step)) < Pending(s)
  {
    match step {
      case ClientUnsubscribe(id) => if id in s.live { FireMeasure(s, {id}); }
      case SpawnedUnsubscribe(id) => SpawnedMeasure(s, id);
      case LoopExit => FireMeasure(s, s.live);
    }
  }

  lemma SpawnedMeasure(s: State, id: Id)
    requires Inv(s) && id in s.spawned
    ensures Pending(Apply(s, SpawnedUnsubscribe(id))) < Pending(s)
  {
    assert multiset(s.fired)[id] >= 1;
    assert {id} - s.fired == {};
    assert |s.spawned - multiset{id}| == |s.spawned| - 1;
  }

  lemma FireMeasure(s: State, ids: set<Id>)
    requires Inv(s) && ids <= s.live
    ensures Pending(Fire(s, ids)) <= Pending(s)
  {
    var first := ids - s.fired;
    var before, after := s.subscribed - s.fired, s.subscribed - (s.fired + first);
    assert before == after + first && after !! first;
    assert |multiset(first)| == |first|;
  }

  /** Over a whole run no more calls are spawned and run than subscriptions were ever made. */
  lemma SpawnedCallsBounded(states: seq<State>, steps: seq<Step>, n: nat)
    requires Behaviour(states, steps) && n < |states|
    ensures |states[n].ran| + |states[n].spawned| <= |states[n].subscribed|
  {
    InvariantHolds(states, steps, n);
    var s := states[n];
    assert |s.ran + s.spawned| == |multiset(s.fired)| == |s.fired|;
    assert |s.subscribed| == |s.subscribed - s.fired| + |s.fired| by {
      assert s.subscribed == (s.subscribed - s.fired) + s.fired;
    }
  }

  // ----- the notifier's side as an object

  class Subscriptions {
    var live: set<Id>
    var fired: set<Id>
    var spawned: multiset<Id>
    ghost var subscribed: set<Id>
    ghost var callbacks: multiset<Id>
    ghost var ran: multiset<Id>
    ghost var confirmed: multiset<Id>

    ghost function View(): State
      reads this
    {
      State(live, fired, spawned, subscribed, callbacks, ran, confirmed)
    }

    constructor ()
      ensures View() == INITIAL
    {
      live, fired, spawned := {}, {}, multiset{};
      subscribed, callbacks, ran, confirmed := {}, multiset{}, multiset{}, multiset{};
    }

    /** `Subscription.Unsubscribe`: the once-guard, the agent's callback, and the spawned call. */
    method Once(id: Id)
      modifies this
      ensures View() == Fire(old(View()), {id})
    {
      FireOne(View(), id);
      if id !in fired {
        fired := fired + {id};
        callbacks := callbacks + multiset{id};
        spawned := spawned + multiset{id};
      }
    }

    method OnceMore(id: Id, ghost was: State, ghost done: set<Id>)
      requires View() == Fire(was, done) && id !in done
      modifies this
      ensures View() == Fire(was, done + {id}) && live == old(live)
    {
      FireTwice(was, done, id);
      Once(id);
    }

    method Unsubscribe(id: Id) returns (ok: bool)
      modifies this
      ensures ok <==> id in old(live)
      ensures View() == Unsubscribed(old(View()), id)
    {
      ok := id in live;
      if ok {
        Once(id);
        live := live - {id};
        confirmed := confirmed + multiset{id};
      }
    }

    /** The loop's deferred exit, over the map in whatever order. */
    method UnsubscribeAll()
      modifies this
      ensures View() == Fire(old(View()), old(live))
    {
      var todo := live;
      ghost var was := View();
      ghost var done: set<Id> := {};
      FireNone(was);
      while todo != {}
        invariant done == was.live - todo && todo <= was.live
        invariant View() == Fire(was, done)
        decreases todo
      {
        var id :| id in todo;
        OnceMore(id, was, done);
        todo, done := todo - {id}, done + {id};
      }
      assert done == was.live;
    }
  }

  lemma FireOne(s: State, id: Id)
    ensures Fire(s, {id}) ==
            if id in s.fired then s
            else s.(fired := s.fired + {id}, callbacks := s.callbacks + multiset{id},
                    spawned := s.spawned + multiset{id})
  {
    if id in s.fired {
      assert {id} - s.fired == {};
    } else {
      assert {id} - s.fired == {id};
    }
  }

  lemma FireNone(s: State)
    ensures Fire(s, {}) == s
  {
  }

  lemma FireTwice(s: State, ids: set<Id>, id: Id)
    requires id !in ids
    ensures Fire(Fire(s, ids), {id}) == Fire(s, ids + {id})
  {
    var a, b, both := ids - s.fired, {id} - Fire(s, ids).fired, (ids + {id}) - s.fired;
    assert both == a + b && a !! b;
    assert multiset(both) == multiset(a) + multiset(b);
  }
}
