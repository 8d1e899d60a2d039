/**
 The response cache in front of the node: nested maps from method and marshalled parameters to
 the response bytes, with one goroutine per stored entry that deletes it after the timeout.
 */
module ClientCache {
  import opened Common

  datatype Key = Key(method_: string, params: string)

  type Bytes = string
  type Methods = map<string, map<string, Bytes>>

  const CACHEABLE: set<string> := {"getblock", "gethexaddress", "getrawtransaction", "gettxout", "decoderawtransaction"}

  function Lookup(ms: Methods, k: Key): Option<Bytes> {
    if k.method_ in ms && k.params in ms[k.method_] then Some(ms[k.method_][k.params]) else None
  }

  /** The first response for a key stays; a later one is ignored. */
  function Store(ms: Methods, k: Key, response: Bytes): (r: Methods)
    ensures Lookup(r, k) == if Lookup(ms, k).Some? then Lookup(ms, k) else Some(response)
    ensures forall o :: o != k ==> Lookup(r, o) == Lookup(ms, o)
  {
    var responses := if k.method_ in ms then ms[k.method_] else map[];
    ms[k.method_ := if k.params in responses then responses else responses[k.params := response]]
  }

  function Delete(ms: Methods, k: Key): (r: Methods)
    ensures Lookup(r, k) == None
    ensures forall o :: o != k ==> Lookup(r, o) == Lookup(ms, o)
  {
    if k.method_ in ms then ms[k.method_ := ms[k.method_] - {k.params}] else ms
  }

  // ----- the cache object

  class Cache {
    var methods: Methods
    /** The flush goroutines started and not yet done, by the key they will delete. */
    var timers: multiset<Key>

    ghost predicate Valid()
      reads this
    {
      forall k :: timers[k] == if Lookup(methods, k).Some? then 1 else 0
    }

    constructor ()
      ensures Valid() && methods == map[] && timers == multiset{}
    {
      methods := map[];
      timers := multiset{};
    }

    /** `params` is None when they cannot be marshalled. */
    method StoreResponse(method_: string, params: Option<string>, response: Bytes) returns (failed: bool)
      requires Valid()
      modifies this
      ensures Valid() && failed == params.None?
      ensures failed ==> methods == old(methods) && timers == old(timers)
      ensures !failed ==>
                var k := Key(method_, params.value);
                && (forall o :: Lookup(methods, o) == Lookup(Store(old(methods), k, response), o))
                && timers == old(timers) + if Lookup(old(methods), k).Some? then multiset{} else multiset{k}
    {
      if params.None? {
        return true;
      }
      var k := Key(method_, params.value);
      var responses: map<string, Bytes> := map[];
      if method_ in methods {
        responses := methods[method_];
      } else {
        methods := methods[method_ := responses];
      }
      if params.value !in responses {
        responses := responses[params.value := response];
        methods := methods[method_ := responses];
        timers := timers + multiset{k};
      }
      assert forall o :: Lookup(methods, o) == Lookup(Store(old(methods), k, response), o);
      return false;
    }

    method GetResponse(method_: string, params: Option<string>) returns (r: Option<Bytes>)
      ensures r == if params.None? then None else Lookup(methods, Key(method_, params.value))
    {
      if params.None? {
        return None;
      }
      if method_ in methods {
        var responses := methods[method_];
        if params.value in responses {
          return Some(responses[params.value]);
        }
      }
      return None;
    }

    /** The end of one flush goroutine: it finds its entry, since nobody else deletes it. */
    method Flush(k: Key)
      requires Valid() && k in timers
      modifies this
      ensures Valid() && Lookup(old(methods), k).Some?
      ensures methods == Delete(old(methods), k) && timers == old(timers) - multiset{k}
    {
      timers := timers - multiset{k};
      if k.method_ in methods {
        methods := methods[k.method_ := methods[k.method_] - {k.params}];
      }
    }
  }

  // ----- concurrent requests and timers

  datatype Request = Asking(key: Key) | Answered(key: Key, response: Bytes)

  /**
   `births` numbers the present entries in the order of storing, `timers` the outstanding flush
   goroutines with the entry each was started for. `given` is all the node has answered, `served`
   all that was answered from the cache.
   */
  datatype State = State(
    methods: Methods,
    births: map<Key, nat>,
    timers: multiset<(Key, nat)>,
    clock: nat,
    requests: map<nat, Request>,
    given: set<(Key, Bytes)>,
    served: set<(Key, Bytes)>)

  datatype Step =
    | Hit(key: Key)
    | Miss(id: nat, key: Key)
    | NodeAnswers(id: nat, response: Bytes)
    | StoreAnswer(id: nat)
    | GiveUp(id: nat)
    | TimerFires(key: Key, birth: nat)

  const INITIAL := State(map[], map[], multiset{}, 0, map[], {}, {})

  ghost predicate Enabled(s: State, step: Step) {
    match step
    case Hit(k) => k.method_ in CACHEABLE && Lookup(s.methods, k).Some?
    case Miss(id, k) => id !in s.requests && (k.method_ in CACHEABLE ==> Lookup(s.methods, k).None?)
    case NodeAnswers(id, v) => id in s.requests && s.requests[id].Asking?
    case StoreAnswer(id) => id in s.requests && s.requests[id].Answered?
    case GiveUp(id) => id in s.requests
    case TimerFires(k, b) => (k, b) in s.timers
  }

  ghost function Apply(s: State, step: Step): State
    requires Enabled(s, step)
  {
    match step
    case Hit(k) => s.(served := s.served + {(k, Lookup(s.methods, k).value)})
    case Miss(id, k) => s.(requests := s.requests[id := Asking(k)])
    case NodeAnswers(id, v) =>
      var k := s.requests[id].key;
      s.(requests := s.requests[id := Answered(k, v)], given := s.given + {(k, v)})
    case StoreAnswer(id) =>
      var r := s.requests[id];
      var rest := s.(requests := s.requests - {id});
      if r.key.method_ !in CACHEABLE || Lookup(s.methods, r.key).Some? then rest
      else rest.(methods := Store(s.methods, r.key, r.response), births := s.births[r.key := s.clock],
                 timers := s.timers + multiset{(r.key, s.clock)}, clock := s.clock + 1)
    case GiveUp(id) => s.(requests := s.requests - {id})
    case TimerFires(k, b) =>
      s.(methods := Delete(s.methods, k), births := s.births - {k}, timers := s.timers - multiset{(k, b)})
  }

  ghost predicate Behaviour(states: seq<State>, steps: seq<Step>) {
    && |states| == |steps| + 1
    && states[0] == INITIAL
    && forall i {:trigger steps[i]} :: 0 <= i < |steps| ==>
         Enabled(states[i], steps[i]) && states[i + 1] == Apply(states[i], steps[i])
  }

  /** One outstanding timer per present entry, started for that entry; none for anything else. */
  ghost predicate TimersMatch(s: State) {
    && (forall k :: k in s.births <==> Lookup(s.methods, k).Some?)
    && (forall k, b :: s.timers[(k, b)] == if k in s.births && s.births[k] == b then 1 else 0)
  }

  ghost predicate Inv(s: State) {
    && TimersMatch(s)
    && (forall k :: k in s.births ==> s.births[k] < s.clock && k.method_ in CACHEABLE)
    && (forall k :: Lookup(s.methods, k).Some? ==> (k, Lookup(s.methods, k).value) in s.given)
    && (forall id :: id in s.requests && s.requests[id].Answered? ==>
          (s.requests[id].key, s.requests[id].response) in s.given)
    && s.served <= s.given
  }

  lemma StoreKeepsInv(s: State, id: nat)
    requires Inv(s) && Enabled(s, StoreAnswer(id))
    ensures Inv(Apply(s, StoreAnswer(id)))
  {
    var n := Apply(s, StoreAnswer(id));
    StoreKeepsTimers(s, id);
    assert n.given == s.given;
    forall k | Lookup(n.methods, k).Some? ensures (k, Lookup(n.methods, k).value) in n.given {
      if k != s.requests[id].key {
        assert Lookup(n.methods, k) == Lookup(s.methods, k);
      }
    }
  }

  lemma StoreKeepsTimers(s: State, id: nat)
    requires Inv(s) && Enabled(s, StoreAnswer(id))
    ensures TimersMatch(Apply(s, StoreAnswer(id)))
  {
    var n := Apply(s, StoreAnswer(id));
    var k := s.requests[id].key;
    forall o | o != k ensures Lookup(n.methods, o) == Lookup(s.methods, o) && (o in n.births <==> o in s.births) {}
    assert s.timers[(k, s.clock)] == 0;
  }

  lemma TimerKeepsInv(s: State, k: Key, b: nat)
    requires Inv(s) && Enabled(s, TimerFires(k, b))
    ensures Inv(Apply(s, TimerFires(k, b)))
  {
    var n := Apply(s, TimerFires(k, b));
    forall o | o != k ensures Lookup(n.methods, o) == Lookup(s.methods, o) && (o in n.births <==> o in s.births) {}
    assert s.timers[(k, b)] == 1 && s.births[k] == b;
  }

  lemma StepKeepsInv(s: State, step: Step)
    requires Inv(s) && Enabled(s, step)
    ensures Inv(Apply(s, step))
  {
    match step {
      case StoreAnswer(id) => StoreKeepsInv(s, id);
      case TimerFires(k, b) => TimerKeepsInv(s, k, b);
      case _ => assert TimersMatch(Apply(s, step));
    }
  }

  lemma {:induction false} InvariantHolds(states: seq<State>, steps: seq<Step>, n: nat)
    requires Behaviour(states, steps) && n < |states|
    ensures Inv(states[n])
  {
    if n > 0 {
      InvariantHolds(states, steps, n - 1);
      StepKeepsInv(states[n - 1], steps[n - 1]);
    }
  }

  /** In every reachable state each key has one flush timer if it is present and none if not. */
  lemma OneTimerPerEntry(states: seq<State>, steps: seq<Step>, n: nat)
    requires Behaviour(states, steps) && n < |states|
    ensures TimersMatch(states[n])
  {
    InvariantHolds(states, steps, n);
  }

  /** A timer deletes the entry it was started for, never a younger one under the same key. */
  lemma TimersDeleteTheirOwnEntry(states: seq<State>, steps: seq<Step>, n: nat)
    requires Behaviour(states, steps) && n < |steps| && steps[n].TimerFires?
    ensures steps[n].key in states[n].births && states[n].births[steps[n].key] == steps[n].birth
  {
    InvariantHolds(states, steps, n);
    assert Enabled(states[n], steps[n]);
  }

  /** Everything answered from the cache is an answer the node gave for that very key. */
  lemma CachedAnswersComeFromTheNode(states: seq<State>, steps: seq<Step>, n: nat)
    requires Behaviour(states, steps) && n < |states|
    ensures states[n].served <= states[n].given
  {
    InvariantHolds(states, steps, n);
  }

  /** A cacheable answer is stored, unless one is there, and is served from then on; another one is not. */
  lemma StoredIsServed(s: State, id: nat)
    requires Enabled(s, StoreAnswer(id))
    ensures var r, n := s.requests[id], Apply(s, StoreAnswer(id));
      && (r.key.method_ in CACHEABLE ==>
            && Lookup(n.methods, r.key) == (if Lookup(s.methods, r.key).Some? then Lookup(s.methods, r.key)
                                            else Some(r.response))
            && Enabled(n, Hit(r.key)))
      && (r.key.method_ !in CACHEABLE ==> n.methods == s.methods)
      && (forall o :: o != r.key ==> Lookup(n.methods, o) == Lookup(s.methods, o))
  {
  }

  lemma EntryStep(s: State, step: Step, k: Key)
    requires Inv(s) && Enabled(s, step) && k in Apply(s, step).births
    ensures s.clock <= Apply(s, step).clock
    ensures Apply(s, step).births[k] == s.clock
         || (k in s.births && s.births[k] == Apply(s, step).births[k]
             && Lookup(s.methods, k) == Lookup(Apply(s, step).methods, k))
  {
  }

  /** An entry never changes its value while it lives, across any number of steps. */
  lemma {:induction false} EntriesAreImmutable(states: seq<State>, steps: seq<Step>, i: nat, j: nat, k: Key)
    requires Behaviour(states, steps) && i <= j < |states|
    requires k in states[j].births && states[j].births[k] < states[i].clock
    ensures k in states[i].births && states[i].births[k] == states[j].births[k]
    ensures Lookup(states[i].methods, k) == Lookup(states[j].methods, k)
    decreases j
  {
    if i < j {
      InvariantHolds(states, steps, j - 1);
      EntryStep(states[j - 1], steps[j - 1], k);
      ClockGrows(states, steps, i, j - 1);
      EntriesAreImmutable(states, steps, i, j - 1, k);
    }
  }

  lemma {:induction false} ClockGrows(states: seq<State>, steps: seq<Step>, i: nat, j: nat)
    requires Behaviour(states, steps) && i <= j < |states|
    ensures states[i].clock <= states[j].clock
  {
    if i < j {
      ClockGrows(states, steps, i, j - 1);
      assert Enabled(states[j - 1], steps[j - 1]);
    }
  }
}
