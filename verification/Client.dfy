/** One request of the node client: the cache first, then a bounded number of tries at the node. */
module Client {
  import opened Common
  import opened ClientCache

  const MAXIMUM_REQUEST_TIME := 10000
  const MAXIMUM_BACKOFF := 2000
  const MAX_TRIES := if MAXIMUM_REQUEST_TIME / MAXIMUM_BACKOFF > 1 then MAXIMUM_REQUEST_TIME / MAXIMUM_BACKOFF else 1

  /**
   What one try meets. An error is numbered; `busy` says that its text is the work-queue one,
   `handled` is what the error handler returned for it (None is nil), and `cancelled` whether the
   context ends during the back-off that may follow.
   */
  datatype Reply =
    | Answer(response: Bytes)
    | Error(error: nat, busy: bool, handled: Option<nat>, cancelled: bool)

  datatype Result = Done(response: Bytes) | Failed

  // ----- the retry policy

  /** The errors put into `handledErrors` by the first `n` tries. */
  function Handled(node: seq<Reply>, n: nat): set<nat>
    requires n <= |node|
    decreases n, 0
  {
    if n == 0 then {}
    else Handled(node, n - 1) + if Recovers(node, n - 1) then {node[n - 1].error} else {}
  }

  /** Try `n` is repeated because the error handler is given a chance to recover from its error. */
  predicate Recovers(node: seq<Reply>, n: nat)
    requires n < |node|
    decreases n, 1
  {
    node[n].Error? && node[n].handled.Some? && n != MAX_TRIES - 1 && node[n].handled.value !in Handled(node, n)
  }

  /**
   How a call that asks the node ends: every try but the last met an error, of a busy node or one
   that is recovered from, in an uncancelled context; and the last met an answer, or an error that
   is neither, or the end of the tries or of the context.
   */
  ghost predicate Asked(node: seq<Reply>, decodes: Bytes -> bool, r: Result, tries: nat) {
    && 0 < tries <= MAX_TRIES == |node|
    && (forall i :: 0 <= i < tries - 1 ==>
          node[i].Error? && (node[i].busy || Recovers(node, i)) && !node[i].cancelled)
    && var last := node[tries - 1];
       (match last
        case Answer(response) => r == if decodes(response) then Done(response) else Failed
        case Error(_, busy, _, cancelled) =>
          r == Failed && (tries == MAX_TRIES || cancelled || !(busy || Recovers(node, tries - 1))))
  }

  /** There is one such end: the node's replies decide the result and the number of tries. */
  lemma AskedOnce(node: seq<Reply>, decodes: Bytes -> bool, r: Result, tries: nat, r': Result, tries': nat)
    requires Asked(node, decodes, r, tries) && Asked(node, decodes, r', tries')
    ensures r == r' && tries == tries'
  {
    var last, last' := node[tries - 1], node[tries' - 1];
    assert tries <= tries' || last'.Error?;
    assert tries' <= tries || last.Error?;
  }

  /** A busy node is asked again, until it answers: after any number of busy replies that leaves a try. */
  lemma BusyIsAskedAgain(node: seq<Reply>, decodes: Bytes -> bool, r: Result, tries: nat, k: nat)
    requires Asked(node, decodes, r, tries) && k < MAX_TRIES
    requires forall i :: 0 <= i < k ==> node[i].Error? && node[i].busy && !node[i].cancelled
    requires node[k].Answer? && decodes(node[k].response)
    ensures r == Done(node[k].response) && tries == k + 1
  {
    AskedOnce(node, decodes, r, tries, Done(node[k].response), k + 1);
  }

  /** An error that is neither busy nor handled ends the call at that try. */
  lemma OtherErrorsEnd(node: seq<Reply>, decodes: Bytes -> bool, r: Result, tries: nat, k: nat)
    requires Asked(node, decodes, r, tries) && k < MAX_TRIES
    requires forall i :: 0 <= i < k ==> node[i].Error? && node[i].busy && !node[i].cancelled
    requires node[k].Error? && !node[k].busy && node[k].handled.None?
    ensures r == Failed && tries == k + 1
  {
    AskedOnce(node, decodes, r, tries, Failed, k + 1);
  }

  /** And the busy node's last reply ends it in failure. */
  lemma BusyForTooLong(node: seq<Reply>, decodes: Bytes -> bool, r: Result, tries: nat)
    requires Asked(node, decodes, r, tries)
    requires forall i :: 0 <= i < MAX_TRIES ==> node[i].Error? && node[i].busy && !node[i].cancelled
    ensures r == Failed && tries == MAX_TRIES
  {
    AskedOnce(node, decodes, r, tries, Failed, MAX_TRIES);
  }

  /** An error is recovered from unless its handler's answer is the error of an earlier recovery. */
  lemma {:induction false} HandledIff(node: seq<Reply>, n: nat, e: nat)
    requires n <= |node|
    ensures e in Handled(node, n) <==> exists j :: 0 <= j < n && Recovers(node, j) && node[j].error == e
  {
    if n > 0 {
      HandledIff(node, n - 1, e);
    }
  }

  lemma RecoversIff(node: seq<Reply>, n: nat)
    requires n < |node|
    ensures Recovers(node, n) <==>
            && node[n].Error? && node[n].handled.Some? && n != MAX_TRIES - 1
            && forall j :: 0 <= j < n && Recovers(node, j) ==> node[j].error != node[n].handled.value
  {
    if node[n].Error? && node[n].handled.Some? {
      HandledIff(node, n, node[n].handled.value);
    }
  }

  class NodeClient {
    const cache: Cache

    constructor ()
      ensures fresh(cache) && cache.Valid() && cache.methods == map[]
    {
      cache := new Cache();
    }

    /**
     `node` lists what the node would reply to each of the possible tries and `decodes` which
     bytes unmarshal into the caller's result; `tries` is how many times the node was asked.
     */
    method RequestWithContext(method_: string, params: Option<string>, node: seq<Reply>, decodes: Bytes -> bool)
      returns (r: Result, tries: nat)
      requires cache.Valid() && |node| == MAX_TRIES
      modifies cache
      ensures cache.Valid()
      ensures tries <= MAX_TRIES
      ensures params.None? ==> r == Failed && tries == 0 && cache.methods == old(cache.methods)
      // a cached response is final: it is the answer or the call fails, and the node is not asked
      ensures params.Some? && method_ in CACHEABLE && Lookup(old(cache.methods), Key(method_, params.value)).Some? ==>
                var v := Lookup(old(cache.methods), Key(method_, params.value)).value;
                tries == 0 && cache.methods == old(cache.methods) && r == if decodes(v) then Done(v) else Failed
      // otherwise the node is asked until it answers or a reply is not worth another try
      ensures params.Some?
              && !(method_ in CACHEABLE && Lookup(old(cache.methods), Key(method_, params.value)).Some?) ==>
                Asked(node, decodes, r, tries)
      // and only a decoded answer to a cacheable method enters the cache
      ensures forall o :: Lookup(cache.methods, o) ==
                if r.Done? && tries > 0 && method_ in CACHEABLE && o == Key(method_, params.value)
                then Some(r.response) else Lookup(old(cache.methods), o)
    {
      if method_ in CACHEABLE {
        var cached := cache.GetResponse(method_, params);
        if cached.Some? {
          if decodes(cached.value) {
            return Done(cached.value), 0;
          }
          return Failed, 0;
        }
      }
      if params.None? {
        return Failed, 0;
      }
      var handledErrors: set<nat> := {};
      var response := "";
      var i := 0;
      while true
        invariant 0 <= i < MAX_TRIES
        invariant forall k :: 0 <= k < i ==>
                    node[k].Error? && (node[k].busy || Recovers(node, k)) && !node[k].cancelled
        invariant handledErrors == Handled(node, i)
        invariant cache.Valid() && cache.methods == old(cache.methods) && cache.timers == old(cache.timers)
        decreases MAX_TRIES - i
      {
        var reply := node[i];
        if reply.Answer? {
          response := reply.response;
          break;
        }
        var retry := false;
        if reply.handled.Some? && i != MAX_TRIES - 1 && reply.handled.value !in handledErrors {
          handledErrors := handledErrors + {reply.error};
          retry := true;
        }
        if (retry || reply.busy) && i != MAX_TRIES - 1 {
          if reply.cancelled {
            return Failed, i + 1;
          }
        } else {
          return Failed, i + 1;
        }
        i := i + 1;
      }
      tries := i + 1;
      if !decodes(response) {
        return Failed, tries;
      }
      if method_ in CACHEABLE {
        var _ := cache.StoreResponse(method_, params, response);
      }
      return Done(response), tries;
    }
  }

  // ----- "only allow recovering from a specific error once"

  ghost predicate RecoveredTwice(node: seq<Reply>) {
    exists i, j :: 0 <= i < j < |node| && Recovers(node, i) && Recovers(node, j) && node[i].error == node[j].error
  }

  lemma {:induction false} HandledRemembers(node: seq<Reply>, i: nat, n: nat)
    requires i < n <= |node| && Recovers(node, i)
    ensures node[i].error in Handled(node, n)
  {
    if i < n - 1 {
      HandledRemembers(node, i, n - 1);
    }
  }

  /**
   The replies of a node whose errors are handled by a handler that may answer `h` to `e` when
   `may(e, h)`; what it does answer each time can depend on anything.
   */
  ghost predicate Follows(node: seq<Reply>, may: (nat, Option<nat>) -> bool) {
    |node| == MAX_TRIES && forall i :: 0 <= i < |node| && node[i].Error? ==> may(node[i].error, node[i].handled)
  }

  ghost predicate Echoes(may: (nat, Option<nat>) -> bool) {
    forall e, h :: may(e, Some(h)) ==> h == e
  }

  /**
   The code records the error but looks up what the handler returned, so the promise holds, for
   every sequence of replies, exactly for handlers that only ever hand back the error they got.
   */
  lemma RecoversOnceIffHandlerEchoes(may: (nat, Option<nat>) -> bool)
    ensures (forall node :: Follows(node, may) ==> !RecoveredTwice(node)) <==> Echoes(may)
  {
    if Echoes(may) {
      forall node | Follows(node, may) ensures !RecoveredTwice(node) {
        EchoedOnce(node, may);
      }
    } else {
      var e: nat, h: nat :| may(e, Some(h)) && h != e;
      var reply := Error(e, false, Some(h), false);
      var node := [reply, reply, reply, reply, reply];
      assert Handled(node, 0) == {} && Recovers(node, 0);
      assert Handled(node, 1) == {e} && Recovers(node, 1);
      assert Follows(node, may) && RecoveredTwice(node);
    }
  }

  lemma EchoedOnce(node: seq<Reply>, may: (nat, Option<nat>) -> bool)
    requires Follows(node, may) && Echoes(may)
    ensures !RecoveredTwice(node)
  {
    forall i, j | 0 <= i < j < |node| && Recovers(node, i) && node[j].Error? && node[i].error == node[j].error
      ensures !Recovers(node, j)
    {
      HandledRemembers(node, i, j);
    }
  }
}
