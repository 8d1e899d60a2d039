/**
 The documented answer of eth_getLogs: a log's `logIndex` is its position in the block, over all
 receipts of that block. What is reported is its position in the receipt, or, without a filter, 0.
 */
module BlockPositions {
  import opened Common
  import opened Topics
  import opened Logs

  /** How many logs of `block` the first `k` receipts of the chain have. */
  function LogsBefore(chain: seq<Receipt>, k: nat, block: nat): nat
    requires k <= |chain|
  {
    if k == 0 then 0
    else LogsBefore(chain, k - 1, block) + if chain[k - 1].block == block then |chain[k - 1].logs| else 0
  }

  /** Some earlier receipt of the block of receipt `k` has a log. */
  ghost predicate HasEarlierLogs(chain: seq<Receipt>, k: nat)
    requires k < |chain|
  {
    exists j :: 0 <= j < k && chain[j].block == chain[k].block && chain[j].logs != []
  }

  lemma {:induction false} NoneBeforeIff(chain: seq<Receipt>, k: nat, block: nat)
    requires k <= |chain|
    ensures LogsBefore(chain, k, block) == 0 <==>
            forall j :: 0 <= j < k && chain[j].block == block ==> chain[j].logs == []
  {
    if k > 0 {
      NoneBeforeIff(chain, k - 1, block);
    }
  }

  /**
   Log `i` of receipt `k`: the position reported with a filter, `i`, is its position in the block
   exactly when no earlier receipt of the block has a log, and the one reported without a filter, 0,
   exactly when it is the first log of the block.
   */
  lemma ReportedPositionIff(chain: seq<Receipt>, k: nat, i: nat)
    requires k < |chain| && i < |chain[k].logs|
    ensures i == LogsBefore(chain, k, chain[k].block) + i <==> !HasEarlierLogs(chain, k)
    ensures 0 == LogsBefore(chain, k, chain[k].block) + i <==> !HasEarlierLogs(chain, k) && i == 0
  {
    NoneBeforeIff(chain, k, chain[k].block);
  }

  /** The wanted logs of one receipt as documented; the block has `first` logs before it. */
  ghost function PlacedOf(r: Receipt, addresses: seq<string>, filter: seq<Topic>, at: nat, first: nat): seq<EthLog>
    requires at <= |r.logs|
    decreases |r.logs| - at
  {
    if at == |r.logs| then []
    else PlacedAt(r, addresses, filter, at, first) + PlacedOf(r, addresses, filter, at + 1, first)
  }

  ghost function PlacedAt(r: Receipt, addresses: seq<string>, filter: seq<Topic>, at: nat, first: nat): seq<EthLog>
    requires at < |r.logs|
  {
    if WantedLog(addresses, filter, r.logs[at]) then [ToEthLog(r, r.logs[at].(index := first + at))] else []
  }

  /** What receipt `k` of the chain contributes to the documented answer. */
  ghost function DocumentedOne(chain: seq<Receipt>, k: nat, from: nat, to: nat,
                               addresses: seq<string>, filter: seq<Topic>): seq<EthLog>
    requires k < |chain|
  {
    if InRange(chain[k], from, to) then PlacedOf(chain[k], addresses, filter, 0, LogsBefore(chain, k, chain[k].block))
    else []
  }

  /** The documented answer, of the receipts of the chain from the `k`-th on. */
  ghost function Documented(chain: seq<Receipt>, k: nat, from: nat, to: nat,
                            addresses: seq<string>, filter: seq<Topic>): seq<EthLog>
    requires k <= |chain|
    decreases |chain| - k
  {
    if k == |chain| then []
    else DocumentedOne(chain, k, from, to, addresses, filter) + Documented(chain, k + 1, from, to, addresses, filter)
  }

  /** Lists made of parts of the same lengths are equal exactly if the parts are. */
  lemma PartsAgree<T>(a: seq<T>, b: seq<T>, c: seq<T>, d: seq<T>)
    requires |a| == |c|
    ensures a + b == c + d <==> a == c && b == d
  {
    if a + b == c + d {
      assert a == (a + b)[..|a|] && b == (a + b)[|a|..];
      assert c == (c + d)[..|c|] && d == (c + d)[|c|..];
    }
  }

  lemma {:induction false} PlacedAgainstWanted(r: Receipt, addresses: seq<string>, filter: seq<Topic>,
                                               at: nat, first: nat)
    requires at <= |r.logs|
    ensures |PlacedOf(r, addresses, filter, at, first)| == |WantedOf(r, addresses, filter, at)|
    ensures PlacedOf(r, addresses, filter, at, first) == WantedOf(r, addresses, filter, at)
       <==> first == 0 || WantedOf(r, addresses, filter, at) == []
    decreases |r.logs| - at
  {
    if at < |r.logs| {
      PlacedAgainstWanted(r, addresses, filter, at + 1, first);
      var p, w := PlacedAt(r, addresses, filter, at, first), WantedAt(r, addresses, filter, at);
      assert p != [] ==> p[0].logIndex == first + at && w[0].logIndex == at;
      PartsAgree(p, PlacedOf(r, addresses, filter, at + 1, first), w, WantedOf(r, addresses, filter, at + 1));
    }
  }

  /** Receipt `k` has a wanted log that is not in the place it is reported in. */
  ghost predicate Displaced(chain: seq<Receipt>, k: nat, from: nat, to: nat, addresses: seq<string>, filter: seq<Topic>)
    requires k < |chain|
  {
    InRange(chain[k], from, to) && HasWanted(chain[k], addresses, filter, 0) && HasEarlierLogs(chain, k)
  }

  ghost function WantedOne(r: Receipt, from: nat, to: nat, addresses: seq<string>, filter: seq<Topic>): seq<EthLog> {
    if InRange(r, from, to) then WantedOf(r, addresses, filter, 0) else []
  }

  lemma OneReceiptAgreesIff(chain: seq<Receipt>, k: nat, from: nat, to: nat, addresses: seq<string>, filter: seq<Topic>)
    requires k < |chain|
    ensures var d := DocumentedOne(chain, k, from, to, addresses, filter);
            var w := WantedOne(chain[k], from, to, addresses, filter);
      && |d| == |w|
      && (d == w <==> !Displaced(chain, k, from, to, addresses, filter))
  {
    NoneBeforeIff(chain, k, chain[k].block);
    NoneWantedIff(chain[k], addresses, filter, 0);
    PlacedAgainstWanted(chain[k], addresses, filter, 0, LogsBefore(chain, k, chain[k].block));
  }

  lemma WantedNext(chain: seq<Receipt>, k: nat, from: nat, to: nat, addresses: seq<string>, filter: seq<Topic>)
    requires k < |chain|
    ensures Wanted(chain[k..], from, to, addresses, filter) ==
            WantedOne(chain[k], from, to, addresses, filter) + Wanted(chain[k + 1..], from, to, addresses, filter)
  {
    assert chain[k..][1..] == chain[k + 1..];
  }

  ghost predicate SomeDisplaced(chain: seq<Receipt>, k: nat, from: nat, to: nat,
                                addresses: seq<string>, filter: seq<Topic>) {
    exists j :: k <= j < |chain| && Displaced(chain, j, from, to, addresses, filter)
  }

  lemma OneMoreDisplaced(chain: seq<Receipt>, k: nat, from: nat, to: nat, addresses: seq<string>, filter: seq<Topic>)
    requires k < |chain|
    ensures SomeDisplaced(chain, k, from, to, addresses, filter) <==>
            Displaced(chain, k, from, to, addresses, filter) || SomeDisplaced(chain, k + 1, from, to, addresses, filter)
  {
  }

  lemma {:induction false} DocumentedAgainstWanted(chain: seq<Receipt>, k: nat, from: nat, to: nat,
                                                   addresses: seq<string>, filter: seq<Topic>)
    requires k <= |chain|
    ensures |Documented(chain, k, from, to, addresses, filter)| == |Wanted(chain[k..], from, to, addresses, filter)|
    ensures Documented(chain, k, from, to, addresses, filter) == Wanted(chain[k..], from, to, addresses, filter)
       <==> !SomeDisplaced(chain, k, from, to, addresses, filter)
    decreases |chain| - k
  {
    if k < |chain| {
      DocumentedAgainstWanted(chain, k + 1, from, to, addresses, filter);
      OneReceiptAgreesIff(chain, k, from, to, addresses, filter);
      WantedNext(chain, k, from, to, addresses, filter);
      PartsAgree(DocumentedOne(chain, k, from, to, addresses, filter),
                 Documented(chain, k + 1, from, to, addresses, filter),
                 WantedOne(chain[k], from, to, addresses, filter),
                 Wanted(chain[k + 1..], from, to, addresses, filter));
      OneMoreDisplaced(chain, k, from, to, addresses, filter);
    }
  }

  /**
   With a filter, and an honest node: the flat answer is the documented one exactly when nothing
   short passes and no wanted log has a log in an earlier receipt of its block.
   */
  lemma PipelineIsDocumentedIff(chain: seq<Receipt>, answers: Receipt -> bool, from: nat, to: nat,
                                addresses: seq<string>, filter: seq<Topic>)
    requires Given(addresses, filter)
    requires WellFormed(filter) && Honest(answers, from, to, addresses, Wire(Translated(filter)))
    ensures Flatten(Pipeline(chain, answers, addresses, filter)) == Documented(chain, 0, from, to, addresses, filter)
       <==> !ShortPasses(chain, answers, addresses, filter) && !SomeDisplaced(chain, 0, from, to, addresses, filter)
  {
    PipelineIsWantedIff(chain, answers, from, to, addresses, filter);
    DocumentedAgainstWanted(chain, 0, from, to, addresses, filter);
    assert chain[0..] == chain;
  }

  // ----- without a filter

  lemma EverythingIsWanted(log: Log)
    ensures WantedLog([], [], log)
  {
  }

  lemma {:induction false} UnfilteredPlaces(r: Receipt, at: nat, first: nat)
    requires at <= |r.logs|
    ensures var placed := PlacedOf(r, [], [], at, first);
      && |placed| == |r.logs| - at
      && (at < |r.logs| ==> placed[0] == ToEthLog(r, r.logs[at].(index := first + at)))
    decreases |r.logs| - at
  {
    if at < |r.logs| {
      UnfilteredPlaces(r, at + 1, first);
      EverythingIsWanted(r.logs[at]);
    }
  }

  /** Every log is wanted; it is in its place at index 0 only if it is the first of its block. */
  lemma UnfilteredReceiptIff(r: Receipt, first: nat)
    requires forall i :: 0 <= i < |r.logs| ==> r.logs[i].index == 0
    ensures |PlacedOf(r, [], [], 0, first)| == |EthLogsOf(r, r.logs)|
    ensures EthLogsOf(r, r.logs) == PlacedOf(r, [], [], 0, first) <==>
            r.logs == [] || (first == 0 && |r.logs| == 1)
  {
    UnfilteredPlaces(r, 0, first);
    var e, p := EthLogsOf(r, r.logs), PlacedOf(r, [], [], 0, first);
    if |r.logs| > 0 {
      assert e[0].logIndex == 0 && p[0].logIndex == first;
    }
    if |r.logs| > 1 {
      UnfilteredPlaces(r, 1, first);
      EverythingIsWanted(r.logs[0]);
      assert p[1] == PlacedOf(r, [], [], 1, first)[0];
      assert e[1].logIndex == 0 && p[1].logIndex == first + 1;
    }
  }

  /** Receipt `k` has a log that is not the first of its block. */
  ghost predicate Crowded(chain: seq<Receipt>, k: nat, from: nat, to: nat)
    requires k < |chain|
  {
    InRange(chain[k], from, to) && chain[k].logs != [] && (HasEarlierLogs(chain, k) || |chain[k].logs| > 1)
  }

  ghost predicate SomeCrowded(chain: seq<Receipt>, k: nat, from: nat, to: nat) {
    exists j :: k <= j < |chain| && Crowded(chain, j, from, to)
  }

  /** Asked for everything, an honest node leaves out nothing of the range but receipts without logs. */
  lemma UnansweredIsBare(r: Receipt, answers: Receipt -> bool, from: nat, to: nat)
    requires Honest(answers, from, to, [], Wire(Translated([]))) && InRange(r, from, to) && !answers(r)
    ensures r.logs == []
  {
    assert r.logs != [] ==> NodeWants(r, [], Wire(Translated([]))) by {
      if r.logs != [] {
        EverythingIsWanted(r.logs[0]);
        WantedIsAskedFor(r, 0, [], []);
      }
    }
  }

  /** What receipt `r` contributes to the answer. */
  ghost function AnsweredOne(r: Receipt, answers: Receipt -> bool): seq<EthLog> {
    if answers(r) then EthLogsOf(r, r.logs) else []
  }

  lemma AnsweredNext(chain: seq<Receipt>, k: nat, answers: Receipt -> bool)
    requires k < |chain|
    ensures Flatten(Keep(answers, chain[k..])) ==
            AnsweredOne(chain[k], answers) + Flatten(Keep(answers, chain[k + 1..]))
  {
    var rest := Keep(answers, chain[k + 1..]);
    assert chain[k..][1..] == chain[k + 1..] && chain[k..][0] == chain[k];
    assert ([chain[k]] + rest)[1..] == rest;
  }

  lemma UnfilteredOneIff(chain: seq<Receipt>, k: nat, answers: Receipt -> bool, from: nat, to: nat)
    requires Honest(answers, from, to, [], Wire(Translated([]))) && k < |chain|
    requires forall i :: 0 <= i < |chain[k].logs| ==> chain[k].logs[i].index == 0
    ensures |AnsweredOne(chain[k], answers)| == |DocumentedOne(chain, k, from, to, [], [])|
    ensures AnsweredOne(chain[k], answers) == DocumentedOne(chain, k, from, to, [], []) <==>
            !Crowded(chain, k, from, to)
  {
    var r := chain[k];
    NoneBeforeIff(chain, k, r.block);
    UnfilteredReceiptIff(r, LogsBefore(chain, k, r.block));
    if InRange(r, from, to) && !answers(r) {
      UnansweredIsBare(r, answers, from, to);
    }
  }

  lemma OneMoreCrowded(chain: seq<Receipt>, k: nat, from: nat, to: nat)
    requires k < |chain|
    ensures SomeCrowded(chain, k, from, to) <==> Crowded(chain, k, from, to) || SomeCrowded(chain, k + 1, from, to)
  {
  }

  lemma {:induction false} UnfilteredAgainstDocumented(chain: seq<Receipt>, k: nat, answers: Receipt -> bool,
                                                       from: nat, to: nat)
    requires Honest(answers, from, to, [], Wire(Translated([]))) && k <= |chain|
    requires forall r, i :: r in chain && 0 <= i < |r.logs| ==> r.logs[i].index == 0
    ensures |Flatten(Keep(answers, chain[k..]))| == |Documented(chain, k, from, to, [], [])|
    ensures Flatten(Keep(answers, chain[k..])) == Documented(chain, k, from, to, [], []) <==>
            !SomeCrowded(chain, k, from, to)
    decreases |chain| - k
  {
    if k < |chain| {
      UnfilteredAgainstDocumented(chain, k + 1, answers, from, to);
      assert chain[k] in chain;
      UnfilteredOneIff(chain, k, answers, from, to);
      AnsweredNext(chain, k, answers);
      OneMoreCrowded(chain, k, from, to);
      PartsAgree(AnsweredOne(chain[k], answers), Flatten(Keep(answers, chain[k + 1..])),
                 DocumentedOne(chain, k, from, to, [], []), Documented(chain, k + 1, from, to, [], []));
    }
  }

  /**
   Without a filter: the flat answer is the documented one exactly when no block of the range has
   two logs, in one receipt or in several.
   */
  lemma UnfilteredIsDocumentedIff(chain: seq<Receipt>, answers: Receipt -> bool, from: nat, to: nat)
    requires Honest(answers, from, to, [], Wire(Translated([])))
    requires forall r, i :: r in chain && 0 <= i < |r.logs| ==> r.logs[i].index == 0
    ensures Flatten(Pipeline(chain, answers, [], [])) == Documented(chain, 0, from, to, [], []) <==>
            !SomeCrowded(chain, 0, from, to)
  {
    UnfilteredAgainstDocumented(chain, 0, answers, from, to);
    assert chain[0..] == chain;
  }

  /** Two transactions of one block with a log each: both are reported at index 0. */
  lemma TheSecondTransactionIsDisplaced() returns (chain: seq<Receipt>, answers: Receipt -> bool)
    ensures Honest(answers, 0, 0, [""], Wire(Translated([])))
    ensures !ShortPasses(chain, answers, [""], [])
    ensures Flatten(Pipeline(chain, answers, [""], [])) != Documented(chain, 0, 0, 0, [""], [])
  {
    var log := Log("", [], "", 0);
    chain := [Receipt(0, "", "a", 0, [log]), Receipt(0, "", "b", 1, [log])];
    answers := (r: Receipt) => r.block == 0;
    assert Lower([""][0]) == Lower(log.address) && WantedLog([""], [], chain[1].logs[0]);
    assert chain[0].logs != [] && HasEarlierLogs(chain, 1);
    assert Displaced(chain, 1, 0, 0, [""], []);
    PipelineIsDocumentedIff(chain, answers, 0, 0, [""], []);
  }
}
