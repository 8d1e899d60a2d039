/** The part of a logs subscription that keeps a log from being sent twice. */
module Notifications {

  /** The notifications whose hash no earlier one had. */
  function FirstByHash<T>(hash: T -> string, ns: seq<T>): seq<T> {
    if ns == [] then []
    else
      var last := ns[|ns| - 1];
      FirstByHash(hash, ns[..|ns| - 1]) + if Seen(hash, ns[..|ns| - 1], last) then [] else [last]
  }

  predicate Seen<T>(hash: T -> string, ns: seq<T>, n: T) {
    exists i :: 0 <= i < |ns| && hash(ns[i]) == hash(n)
  }

  class LogSender<T> {
    var sentHashes: set<string>
    var queue: seq<T>

    constructor ()
      ensures sentHashes == {} && queue == []
    {
      sentHashes, queue := {}, [];
    }

    /** One batch of notifications; `past` are those of the batches before it. */
    method Notify(hash: T -> string, batch: seq<T>, ghost past: seq<T>)
      requires sentHashes == HashesOf(hash, past)
      requires queue == FirstByHash(hash, past)
      modifies this
      ensures sentHashes == HashesOf(hash, past + batch)
      ensures queue == FirstByHash(hash, past + batch)
    {
      assert past + batch[..0] == past;
      for n := 0 to |batch|
        invariant sentHashes == HashesOf(hash, past + batch[..n])
        invariant queue == FirstByHash(hash, past + batch[..n])
      {
        assert past + batch[..n + 1] == (past + batch[..n]) + [batch[n]];
        NotifyOne(hash, batch[n], past + batch[..n]);
      }
      assert batch[..|batch|] == batch;
    }

    /** The loop's body: sent unless its hash has been. */
    method NotifyOne(hash: T -> string, n: T, ghost past: seq<T>)
      requires sentHashes == HashesOf(hash, past)
      requires queue == FirstByHash(hash, past)
      modifies this
      ensures sentHashes == HashesOf(hash, past + [n])
      ensures queue == FirstByHash(hash, past + [n])
    {
      OneMore(hash, past, n);
      var h := hash(n);
      if h !in sentHashes {
        sentHashes := sentHashes + {h};
        queue := queue + [n];
      }
    }
  }

  ghost function HashesOf<T>(hash: T -> string, ns: seq<T>): set<string> {
    set n | n in ns :: hash(n)
  }

  /** What one more notification does to the hashes and to what is sent. */
  lemma OneMore<T>(hash: T -> string, ns: seq<T>, n: T)
    ensures HashesOf(hash, ns + [n]) == HashesOf(hash, ns) + {hash(n)}
    ensures FirstByHash(hash, ns + [n]) ==
            FirstByHash(hash, ns) + if hash(n) in HashesOf(hash, ns) then [] else [n]
  {
    var all := ns + [n];
    assert all[..|all| - 1] == ns;
    SeenIffHashed(hash, ns, n);
    HashesGrow(hash, ns, n);
  }

  lemma HashesGrow<T>(hash: T -> string, ns: seq<T>, n: T)
    ensures HashesOf(hash, ns + [n]) == HashesOf(hash, ns) + {hash(n)}
  {
    forall h ensures h in HashesOf(hash, ns + [n]) <==> h in HashesOf(hash, ns) + {hash(n)} {
      if h in HashesOf(hash, ns) {
        var m :| m in ns && hash(m) == h;
        assert m in ns + [n];
      }
      if h == hash(n) {
        assert n in ns + [n];
      }
    }
  }

  lemma SeenIffHashed<T>(hash: T -> string, ns: seq<T>, n: T)
    ensures Seen(hash, ns, n) <==> hash(n) in HashesOf(hash, ns)
  {
    if Seen(hash, ns, n) {
      var i :| 0 <= i < |ns| && hash(ns[i]) == hash(n);
      assert ns[i] in ns;
    }
  }

  lemma {:induction false} SentAreNotifications<T>(hash: T -> string, ns: seq<T>)
    ensures forall n :: n in FirstByHash(hash, ns) ==> n in ns
  {
    if ns != [] {
      SentAreNotifications(hash, ns[..|ns| - 1]);
      assert ns == ns[..|ns| - 1] + [ns[|ns| - 1]];
    }
  }

  lemma SeenGrows<T>(hash: T -> string, ns: seq<T>, more: seq<T>, n: T)
    requires Seen(hash, ns, n)
    ensures Seen(hash, ns + more, n)
  {
    var i :| 0 <= i < |ns| && hash(ns[i]) == hash(n);
    assert (ns + more)[i] == ns[i];
  }

  lemma {:induction false} SentSeeTheSame<T>(hash: T -> string, ns: seq<T>, n: T)
    ensures Seen(hash, FirstByHash(hash, ns), n) <==> Seen(hash, ns, n)
  {
    if ns != [] {
      var init, last := ns[..|ns| - 1], ns[|ns| - 1];
      assert ns == init + [last];
      SentSeeTheSame(hash, init, n);
      var before := FirstByHash(hash, init);
      var added := if Seen(hash, init, last) then [] else [last];
      if Seen(hash, before, n) {
        SeenGrows(hash, before, added, n);
        SeenGrows(hash, init, [last], n);
      } else {
        assert Seen(hash, ns, n) <==> hash(last) == hash(n);
        assert added == [last] ==> (before + added)[|before|] == last;
      }
    }
  }

  ghost predicate DistinctHashes<T>(hash: T -> string, ns: seq<T>) {
    forall i, j :: 0 <= i < j < |ns| ==> hash(ns[i]) != hash(ns[j])
  }

  lemma {:induction false} SentHaveDistinctHashes<T>(hash: T -> string, ns: seq<T>)
    ensures DistinctHashes(hash, FirstByHash(hash, ns))
  {
    if ns != [] {
      var init, last := ns[..|ns| - 1], ns[|ns| - 1];
      SentHaveDistinctHashes(hash, init);
      SentSeeTheSame(hash, init, last);
    }
  }

  /** What is held back are the repetitions, and nothing else. */
  lemma {:induction false} NothingHeldBackIff<T>(hash: T -> string, ns: seq<T>)
    ensures |FirstByHash(hash, ns)| <= |ns|
    ensures |FirstByHash(hash, ns)| == |ns| <==> DistinctHashes(hash, ns)
    ensures DistinctHashes(hash, ns) ==> FirstByHash(hash, ns) == ns
  {
    if ns != [] {
      var init, last := ns[..|ns| - 1], ns[|ns| - 1];
      NothingHeldBackIff(hash, init);
      assert ns == init + [last];
      assert DistinctHashes(hash, ns) <==> DistinctHashes(hash, init) && !Seen(hash, init, last);
    }
  }

  /**
   Over any run of batches: nothing is sent that was not a notification, no two sent notifications
   have the same hash, and a notification's hash has been sent if and only if the notification, or
   one with the same hash, was there: with a hash that tells notifications apart, each goes out
   exactly once.
   */
  lemma SentOncePerHash<T>(hash: T -> string, ns: seq<T>, n: T)
    ensures var sent := FirstByHash(hash, ns);
      && (n in sent ==> n in ns)
      && DistinctHashes(hash, sent)
      && (Seen(hash, sent, n) <==> Seen(hash, ns, n))
  {
    SentAreNotifications(hash, ns);
    SentHaveDistinctHashes(hash, ns);
    SentSeeTheSame(hash, ns, n);
  }
}
