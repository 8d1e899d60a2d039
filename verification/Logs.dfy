/**
 The client-side pass over the node's answer to a log query, and what the node's over-wide
 answer and that pass together deliver.
 */
module Logs {
  import opened Common
  import opened Topics

  datatype Log = Log(address: string, topics: seq<string>, data: string, index: nat)

  /** A transaction receipt; `tx` stands for the fields the pass leaves alone. */
  datatype Receipt = Receipt(block: nat, blockHash: string, tx: string, txIndex: nat, logs: seq<Log>)

  // ----- matching one log

  /** The loops of `DoFiltersMatch` compute the prefix match. */
  method DoFiltersMatch(filters: seq<Alternatives>, topics: seq<string>) returns (ok: bool)
    ensures ok <==> Loose(filters, topics)
  {
    var i := 0;
    while i < |topics|
      invariant 0 <= i <= |topics|
      invariant forall k :: 0 <= k < i && k < |filters| ==> Accepts(filters[k], topics[k])
    {
      if i >= |filters| {
        break;
      }
      var filter := filters[i];
      if |filter| == 0 {
        // accept all
      } else if |filter| == 1 {
        if Lower(filter[0]) != Lower(topics[i]) {
          return false;
        }
      } else {
        var found := false;
        var k := 0;
        while k < |filter| && !found
          invariant 0 <= k <= |filter|
          invariant found <==> exists j :: 0 <= j < k && Lower(filter[j]) == Lower(topics[i])
        {
          found := Lower(filter[k]) == Lower(topics[i]);
          k := k + 1;
        }
        if !found {
          return false;
        }
      }
      assert Accepts(filters[i], topics[i]);
      i := i + 1;
    }
    return true;
  }

  ghost predicate AddressAccepted(addresses: seq<string>, address: string) {
    addresses == [] || exists i :: 0 <= i < |addresses| && Lower(addresses[i]) == Lower(address)
  }

  ghost predicate Accepted(addresses: seq<string>, filter: seq<Alternatives>, log: Log) {
    AddressAccepted(addresses, log.address) && Loose(filter, log.topics)
  }

  method PopulateLookup(inputs: seq<string>) returns (lookup: set<string>)
    ensures forall a: string :: inputs != [] ==> (Lower(a) in lookup <==> AddressAccepted(inputs, a))
  {
    lookup := {};
    for k := 0 to |inputs|
      invariant forall a: string {:trigger Lower(a)} ::
                  Lower(a) in lookup <==> exists i :: 0 <= i < k && Lower(inputs[i]) == Lower(a)
    {
      lookup := lookup + {Lower(inputs[k])};
    }
  }

  // ----- the pass over the receipts

  /** The accepted logs of one receipt, each stamped with its position from `at` on. */
  ghost function KeptLogs(addresses: seq<string>, filter: seq<Alternatives>, logs: seq<Log>, at: nat): seq<Log> {
    if logs == [] then []
    else KeptLog(addresses, filter, logs[0], at) + KeptLogs(addresses, filter, logs[1..], at + 1)
  }

  ghost function KeptLog(addresses: seq<string>, filter: seq<Alternatives>, log: Log, at: nat): seq<Log> {
    if Accepted(addresses, filter, log) then [log.(index := at)] else []
  }

  ghost function KeptReceipts(addresses: seq<string>, filter: seq<Alternatives>, receipts: seq<Receipt>): seq<Receipt> {
    if receipts == [] then []
    else
      var kept := receipts[0].(logs := KeptLogs(addresses, filter, receipts[0].logs, 0));
      (if kept.logs != [] then [kept] else []) + KeptReceipts(addresses, filter, receipts[1..])
  }

  lemma {:induction false} KeptLogsSnoc(addresses: seq<string>, filter: seq<Alternatives>,
                                        logs: seq<Log>, at: nat, last: Log)
    ensures KeptLogs(addresses, filter, logs + [last], at) ==
            KeptLogs(addresses, filter, logs, at) + KeptLog(addresses, filter, last, at + |logs|)
  {
    if logs == [] {
      assert ([] + [last])[1..] == [] && logs + [last] == [last];
    } else {
      var first, final := KeptLog(addresses, filter, logs[0], at), KeptLog(addresses, filter, last, at + |logs|);
      var rest := KeptLogs(addresses, filter, logs[1..], at + 1);
      calc {
        KeptLogs(addresses, filter, logs + [last], at);
        { assert (logs + [last])[1..] == logs[1..] + [last]; }
        first + KeptLogs(addresses, filter, logs[1..] + [last], at + 1);
        { KeptLogsSnoc(addresses, filter, logs[1..], at + 1, last); }
        first + (rest + final);
        { Associative(first, rest, final); }
        (first + rest) + final;
      }
    }
  }

  lemma KeptLogsNext(addresses: seq<string>, filter: seq<Alternatives>, logs: seq<Log>, n: nat)
    requires n < |logs|
    ensures KeptLogs(addresses, filter, logs[..n + 1], 0) ==
            KeptLogs(addresses, filter, logs[..n], 0) + KeptLog(addresses, filter, logs[n], n)
  {
    assert logs[..n + 1] == logs[..n] + [logs[n]];
    KeptLogsSnoc(addresses, filter, logs[..n], 0, logs[n]);
  }

  lemma KeptReceiptsNext(addresses: seq<string>, filter: seq<Alternatives>, rs: seq<Receipt>, n: nat)
    requires n < |rs|
    ensures var kept := rs[n].(logs := KeptLogs(addresses, filter, rs[n].logs, 0));
            KeptReceipts(addresses, filter, rs[..n + 1]) ==
            KeptReceipts(addresses, filter, rs[..n]) + if kept.logs != [] then [kept] else []
  {
    assert rs[..n + 1] == rs[..n] + [rs[n]];
    KeptReceiptsSnoc(addresses, filter, rs[..n], rs[n]);
    assert [rs[n]][1..] == [];
  }

  lemma {:induction false} KeptReceiptsSnoc(addresses: seq<string>, filter: seq<Alternatives>,
                                            rs: seq<Receipt>, last: Receipt)
    ensures KeptReceipts(addresses, filter, rs + [last]) ==
            KeptReceipts(addresses, filter, rs) + KeptReceipts(addresses, filter, [last])
  {
    if rs == [] {
      assert rs + [last] == [last];
    } else {
      assert (rs + [last])[1..] == rs[1..] + [last];
      KeptReceiptsSnoc(addresses, filter, rs[1..], last);
    }
  }

  method SearchLogsAndFilterExtraTopics(receipts: seq<Receipt>, addresses: seq<string>, filter: seq<Alternatives>)
    returns (result: seq<Receipt>)
    ensures filter == [] && addresses == [] ==> result == receipts
    ensures filter != [] || addresses != [] ==> result == KeptReceipts(addresses, filter, receipts)
  {
    if |filter| == 0 && |addresses| == 0 {
      return receipts;
    }
    var requested := PopulateLookup(addresses);
    result := [];
    for n := 0 to |receipts|
      invariant result == KeptReceipts(addresses, filter, receipts[..n])
    {
      var logs: seq<Log> := [];
      var all := receipts[n].logs;
      for index := 0 to |all|
        invariant logs == KeptLogs(addresses, filter, all[..index], 0)
      {
        KeptLogsNext(addresses, filter, all, index);
        var log := all[index].(index := index);
        if |addresses| == 0 || Lower(log.address) in requested {
          var ok := DoFiltersMatch(filter, log.topics);
          if ok {
            logs := logs + [log];
          }
        }
      }
      assert all[..|all|] == all;
      KeptReceiptsNext(addresses, filter, receipts, n);
      if |logs| != 0 {
        result := result + [receipts[n].(logs := logs)];
      }
    }
    assert receipts[..|receipts|] == receipts;
  }

  // ----- what the pass keeps

  /** `log` is the accepted log at its own position (counted from `at`). */
  ghost predicate InPlace(addresses: seq<string>, filter: seq<Alternatives>, logs: seq<Log>, at: nat, log: Log) {
    && at <= log.index < at + |logs|
    && log == logs[log.index - at].(index := log.index)
    && Accepted(addresses, filter, log)
  }

  lemma {:induction false} KeptLogsInPlace(addresses: seq<string>, filter: seq<Alternatives>, logs: seq<Log>, at: nat)
    ensures forall l :: l in KeptLogs(addresses, filter, logs, at) ==> InPlace(addresses, filter, logs, at, l)
  {
    if logs != [] {
      KeptLogsInPlace(addresses, filter, logs[1..], at + 1);
      forall l | l in KeptLogs(addresses, filter, logs, at) ensures InPlace(addresses, filter, logs, at, l) {
        if l in KeptLogs(addresses, filter, logs[1..], at + 1) {
          assert InPlace(addresses, filter, logs[1..], at + 1, l);
          assert logs[1..][l.index - (at + 1)] == logs[l.index - at];
        }
      }
    }
  }

  lemma {:induction false} KeptLogsAll(addresses: seq<string>, filter: seq<Alternatives>,
                                       logs: seq<Log>, at: nat, i: nat)
    requires i < |logs| && Accepted(addresses, filter, logs[i])
    ensures logs[i].(index := at + i) in KeptLogs(addresses, filter, logs, at)
  {
    if i > 0 {
      KeptLogsAll(addresses, filter, logs[1..], at + 1, i - 1);
    }
  }

  ghost predicate Ascending(logs: seq<Log>) {
    forall j, k :: 0 <= j < k < |logs| ==> logs[j].index < logs[k].index
  }

  lemma {:induction false} KeptLogsOrdered(addresses: seq<string>, filter: seq<Alternatives>, logs: seq<Log>, at: nat)
    ensures Ascending(KeptLogs(addresses, filter, logs, at))
  {
    if logs != [] {
      KeptLogsOrdered(addresses, filter, logs[1..], at + 1);
      KeptLogsInPlace(addresses, filter, logs[1..], at + 1);
      var rest := KeptLogs(addresses, filter, logs[1..], at + 1);
      forall k | 0 <= k < |rest| ensures rest[k].index > at {
        assert InPlace(addresses, filter, logs[1..], at + 1, rest[k]);
      }
      var head := KeptLog(addresses, filter, logs[0], at);
      var kept := head + rest;
      assert KeptLogs(addresses, filter, logs, at) == kept;
      assert forall k :: |head| <= k < |kept| ==> kept[k] == rest[k - |head|];
    }
  }

  /** The kept logs are the accepted ones, each at its own position, in order and once each. */
  lemma KeptLogsExactly(addresses: seq<string>, filter: seq<Alternatives>, logs: seq<Log>)
    ensures var kept := KeptLogs(addresses, filter, logs, 0);
      && (forall l :: l in kept <==> InPlace(addresses, filter, logs, 0, l))
      && Ascending(kept)
  {
    KeptLogsInPlace(addresses, filter, logs, 0);
    KeptLogsOrdered(addresses, filter, logs, 0);
    forall l | InPlace(addresses, filter, logs, 0, l) ensures l in KeptLogs(addresses, filter, logs, 0) {
      assert Accepted(addresses, filter, logs[l.index]);
      KeptLogsAll(addresses, filter, logs, 0, l.index);
    }
  }

  ghost predicate HasAccepted(addresses: seq<string>, filter: seq<Alternatives>, r: Receipt) {
    exists i :: 0 <= i < |r.logs| && Accepted(addresses, filter, r.logs[i])
  }

  /** Something of a receipt is kept exactly if one of its logs is accepted. */
  lemma NonEmptyIff(addresses: seq<string>, filter: seq<Alternatives>, r: Receipt)
    ensures KeptLogs(addresses, filter, r.logs, 0) != [] <==> HasAccepted(addresses, filter, r)
  {
    var kept := KeptLogs(addresses, filter, r.logs, 0);
    KeptLogsInPlace(addresses, filter, r.logs, 0);
    if kept != [] {
      assert InPlace(addresses, filter, r.logs, 0, kept[0]);
      assert Accepted(addresses, filter, r.logs[kept[0].index]);
    }
    if HasAccepted(addresses, filter, r) {
      var i :| 0 <= i < |r.logs| && Accepted(addresses, filter, r.logs[i]);
      KeptLogsAll(addresses, filter, r.logs, 0, i);
    }
  }

  ghost function Trim(addresses: seq<string>, filter: seq<Alternatives>, r: Receipt): Receipt {
    r.(logs := KeptLogs(addresses, filter, r.logs, 0))
  }

  ghost function TrimAll(addresses: seq<string>, filter: seq<Alternatives>, rs: seq<Receipt>): seq<Receipt> {
    seq(|rs|, i requires 0 <= i < |rs| => Trim(addresses, filter, rs[i]))
  }

  ghost function Survivors(addresses: seq<string>, filter: seq<Alternatives>, rs: seq<Receipt>): seq<Receipt> {
    Keep((r: Receipt) => HasAccepted(addresses, filter, r), rs)
  }

  lemma {:induction false} KeptAreTrimmed(addresses: seq<string>, filter: seq<Alternatives>, rs: seq<Receipt>)
    ensures KeptReceipts(addresses, filter, rs) == TrimAll(addresses, filter, Survivors(addresses, filter, rs))
  {
    if rs != [] {
      var r, rest := rs[0], Survivors(addresses, filter, rs[1..]);
      KeptAreTrimmed(addresses, filter, rs[1..]);
      NonEmptyIff(addresses, filter, r);
      assert TrimAll(addresses, filter, [r] + rest) == [Trim(addresses, filter, r)] + TrimAll(addresses, filter, rest);
    }
  }

  /** Receipt by receipt: those with an accepted log, in their order, none of them empty. */
  lemma KeptReceiptsExactly(addresses: seq<string>, filter: seq<Alternatives>, rs: seq<Receipt>)
    ensures var survivors := Keep((r: Receipt) => HasAccepted(addresses, filter, r), rs);
            var kept := KeptReceipts(addresses, filter, rs);
      && |kept| == |survivors|
      && forall k :: 0 <= k < |kept| ==>
           kept[k] == survivors[k].(logs := KeptLogs(addresses, filter, survivors[k].logs, 0)) && kept[k].logs != []
  {
    KeptAreTrimmed(addresses, filter, rs);
    var survivors := Survivors(addresses, filter, rs);
    forall k | 0 <= k < |survivors| ensures KeptLogs(addresses, filter, survivors[k].logs, 0) != [] {
      assert survivors[k] in survivors;
      NonEmptyIff(addresses, filter, survivors[k]);
    }
  }

  // ----- the node

  ghost predicate InRange(r: Receipt, from: nat, to: nat) {
    from <= r.block <= to
  }

  ghost predicate NodeWants(r: Receipt, addresses: seq<string>, wire: WireFilter) {
    exists i :: 0 <= i < |r.logs| && AddressAccepted(addresses, r.logs[i].address)
                && WireMatches(wire, r.logs[i].topics)
  }

  /**
   What is assumed of searchlogs: it answers whole receipts of the range, in chain order, and
   leaves out none that has a log matching the request. Which others it adds is its own affair.
   */
  ghost predicate Honest(answers: Receipt -> bool, from: nat, to: nat, addresses: seq<string>, wire: WireFilter) {
    && (forall r: Receipt :: answers(r) ==> InRange(r, from, to))
    && (forall r: Receipt :: InRange(r, from, to) && NodeWants(r, addresses, wire) ==> answers(r))
  }

  ghost predicate WantedLog(addresses: seq<string>, filter: seq<Topic>, log: Log) {
    AddressAccepted(addresses, log.address) && EthStrict(filter, log.topics)
  }

  ghost predicate Delivered(result: seq<Receipt>, r: Receipt, i: nat)
    requires i < |r.logs|
  {
    exists k :: 0 <= k < |result| && result[k] == r.(logs := result[k].logs)
                && r.logs[i].(index := i) in result[k].logs
  }

  ghost predicate Given(addresses: seq<string>, filter: seq<Topic>) {
    addresses != [] || filter != []
  }

  /** The whole pipeline of eth_getLogs, on a chain and a node that answers as `answers` says. */
  ghost function Pipeline(chain: seq<Receipt>, answers: Receipt -> bool,
                          addresses: seq<string>, filter: seq<Topic>): seq<Receipt> {
    var answered := Keep(answers, chain);
    if addresses == [] && Translated(filter) == [] then answered
    else KeptReceipts(addresses, Translated(filter), answered)
  }

  // ----- the flat answer

  /** A log as the client gets it. */
  datatype EthLog = EthLog(transactionHash: string, transactionIndex: nat, blockHash: string, blockNumber: nat,
                           address: string, topics: seq<string>, data: string, logIndex: nat)

  function AddHexPrefix(s: string): string {
    if |s| >= 2 && s[0] == '0' && s[1] == 'x' then s else "0x" + s
  }

  function Prefixed(ss: seq<string>): seq<string> {
    seq(|ss|, i requires 0 <= i < |ss| => AddHexPrefix(ss[i]))
  }

  function ToEthLog(r: Receipt, log: Log): EthLog {
    EthLog(AddHexPrefix(r.tx), r.txIndex, AddHexPrefix(r.blockHash), r.block,
           AddHexPrefix(log.address), Prefixed(log.topics), AddHexPrefix(log.data), log.index)
  }

  function EthLogsOf(r: Receipt, logs: seq<Log>): seq<EthLog> {
    seq(|logs|, i requires 0 <= i < |logs| => ToEthLog(r, logs[i]))
  }

  /** `out` is `s` with exactly one leading "0x": its own, or else one put before it. */
  ghost predicate Hexed(out: string, s: string) {
    out == if HasHexPrefix(s) then s else "0x" + s
  }

  /** Field by field, what the client is told of a log: where it was, and what it holds. */
  ghost predicate Shows(e: EthLog, r: Receipt, log: Log) {
    && Hexed(e.transactionHash, r.tx) && e.transactionIndex == r.txIndex
    && Hexed(e.blockHash, r.blockHash) && e.blockNumber == r.block
    && Hexed(e.address, log.address) && Hexed(e.data, log.data) && e.logIndex == log.index
    && |e.topics| == |log.topics| && forall i :: 0 <= i < |e.topics| ==> Hexed(e.topics[i], log.topics[i])
  }

  lemma HexedOnce(out: string, s: string)
    ensures Hexed(out, s) <==> out == AddHexPrefix(s)
  {
  }

  lemma AllHexedOnce(outs: seq<string>, ss: seq<string>)
    ensures outs == Prefixed(ss) <==> |outs| == |ss| && forall i :: 0 <= i < |outs| ==> Hexed(outs[i], ss[i])
  {
    forall i | 0 <= i < |outs| && i < |ss| ensures Hexed(outs[i], ss[i]) <==> outs[i] == AddHexPrefix(ss[i]) {
      HexedOnce(outs[i], ss[i]);
    }
  }

  /** A log is shown in one way only. */
  lemma ShownOnce(e: EthLog, r: Receipt, log: Log)
    ensures Shows(e, r, log) <==> e == ToEthLog(r, log)
  {
    forall out, s ensures Hexed(out, s) <==> out == AddHexPrefix(s) {
      HexedOnce(out, s);
    }
    AllHexedOnce(e.topics, log.topics);
  }

  /** How many logs the first `k` receipts have together. */
  function LogCount(receipts: seq<Receipt>, k: nat): nat
    requires k <= |receipts|
  {
    if k == 0 then 0 else LogCount(receipts, k - 1) + |receipts[k - 1].logs|
  }

  /** A flat list shows the logs of some receipts, receipt after receipt, each in its place. */
  ghost predicate ShowsAll(flat: seq<EthLog>, receipts: seq<Receipt>) {
    && |flat| == LogCount(receipts, |receipts|)
    && forall k, i :: 0 <= k < |receipts| && 0 <= i < |receipts[k].logs| ==> ShowsAt(flat, receipts, k, i)
  }

  ghost predicate ShowsAt(flat: seq<EthLog>, receipts: seq<Receipt>, k: nat, i: nat)
    requires k < |receipts| && i < |receipts[k].logs|
  {
    LogCount(receipts, k) + i < |flat| && Shows(flat[LogCount(receipts, k) + i], receipts[k], receipts[k].logs[i])
  }

  lemma {:induction false} LogCountPrefix(receipts: seq<Receipt>, k: nat, n: nat)
    requires k <= n <= |receipts|
    ensures LogCount(receipts[..n], k) == LogCount(receipts, k)
  {
    if k > 0 {
      LogCountPrefix(receipts, k - 1, n);
    }
  }

  lemma StillShown(flat: seq<EthLog>, more: seq<EthLog>, receipts: seq<Receipt>, r: Receipt, k: nat, i: nat)
    requires k < |receipts| && i < |receipts[k].logs| && ShowsAt(flat, receipts, k, i)
    ensures ShowsAt(flat + more, receipts + [r], k, i)
  {
    var all, n := receipts + [r], |receipts|;
    assert all[..n] == receipts;
    LogCountPrefix(all, k, n);
    assert (flat + more)[LogCount(receipts, k) + i] == flat[LogCount(receipts, k) + i];
  }

  lemma NowShown(flat: seq<EthLog>, receipts: seq<Receipt>, r: Receipt, i: nat)
    requires i < |r.logs| && |flat| == LogCount(receipts, |receipts|)
    ensures ShowsAt(flat + EthLogsOf(r, r.logs), receipts + [r], |receipts|, i)
  {
    var all, n, more := receipts + [r], |receipts|, EthLogsOf(r, r.logs);
    assert all[..n] == receipts;
    LogCountPrefix(all, n, n);
    assert (flat + more)[|flat| + i] == more[i];
    ShownOnce(more[i], r, r.logs[i]);
  }

  lemma ShowsOneMore(flat: seq<EthLog>, receipts: seq<Receipt>, r: Receipt)
    requires ShowsAll(flat, receipts)
    ensures ShowsAll(flat + EthLogsOf(r, r.logs), receipts + [r])
  {
    var all, n, more := receipts + [r], |receipts|, EthLogsOf(r, r.logs);
    assert all[..n] == receipts;
    LogCountPrefix(all, n, n);
    forall k, i | 0 <= k < |all| && 0 <= i < |all[k].logs| ensures ShowsAt(flat + more, all, k, i) {
      if k < n {
        StillShown(flat, more, receipts, r, k, i);
      } else {
        NowShown(flat, receipts, r, i);
      }
    }
  }

  /** The flat list shows every log of every receipt in its place, and nothing else. */
  lemma {:induction false} FlattenShows(receipts: seq<Receipt>)
    ensures ShowsAll(Flatten(receipts), receipts)
  {
    if receipts != [] {
      var init, last := receipts[..|receipts| - 1], receipts[|receipts| - 1];
      assert receipts == init + [last];
      FlattenShows(init);
      FlattenSnoc(init, last);
      ShowsOneMore(Flatten(init), init, last);
    }
  }

  function Flatten(receipts: seq<Receipt>): seq<EthLog> {
    if receipts == [] then []
    else EthLogsOf(receipts[0], receipts[0].logs) + Flatten(receipts[1..])
  }

  method ExtractETHLogs(r: Receipt) returns (result: seq<EthLog>)
    ensures |result| == |r.logs| && forall i :: 0 <= i < |result| ==> Shows(result[i], r, r.logs[i])
    ensures result == EthLogsOf(r, r.logs)
  {
    result := [];
    for n := 0 to |r.logs|
      invariant result == EthLogsOf(r, r.logs[..n])
    {
      var topics: seq<string> := [];
      var log := r.logs[n];
      for k := 0 to |log.topics|
        invariant topics == Prefixed(log.topics[..k])
      {
        topics := topics + [AddHexPrefix(log.topics[k])];
      }
      assert topics == Prefixed(log.topics);
      result := result + [EthLog(AddHexPrefix(r.tx), r.txIndex, AddHexPrefix(r.blockHash), r.block,
                                 AddHexPrefix(log.address), topics, AddHexPrefix(log.data), log.index)];
    }
    assert r.logs[..|r.logs|] == r.logs;
    forall i | 0 <= i < |result| ensures Shows(result[i], r, r.logs[i]) {
      ShownOnce(result[i], r, r.logs[i]);
    }
  }

  lemma {:induction false} FlattenSnoc(rs: seq<Receipt>, last: Receipt)
    ensures Flatten(rs + [last]) == Flatten(rs) + EthLogsOf(last, last.logs)
  {
    if rs == [] {
      assert rs + [last] == [last] && [last][1..] == [];
    } else {
      assert (rs + [last])[1..] == rs[1..] + [last];
      FlattenSnoc(rs[1..], last);
    }
  }

  /** The loop over the receipts that are left. */
  method FlattenLogs(receipts: seq<Receipt>) returns (logs: seq<EthLog>)
    ensures logs == Flatten(receipts) && ShowsAll(logs, receipts)
  {
    logs := [];
    for n := 0 to |receipts|
      invariant logs == Flatten(receipts[..n])
    {
      assert receipts[..n + 1] == receipts[..n] + [receipts[n]];
      FlattenSnoc(receipts[..n], receipts[n]);
      var more := ExtractETHLogs(receipts[n]);
      logs := logs + more;
    }
    assert receipts[..|receipts|] == receipts;
    FlattenShows(receipts);
  }

  /**
   The code path of eth_getLogs from the request's topics: translate, build the node's request, ask,
   filter, flatten. `node` says which receipts of the chain it answers to a topic filter, or that it
   fails. None is a rejected filter or a failed call.
   */
  method EthGetLogs(chain: seq<Receipt>, node: WireFilter -> Option<Receipt -> bool>,
                    addresses: seq<string>, ethTopics: seq<Topic>)
    returns (result: Option<seq<EthLog>>)
    ensures result.None? <==>
            || (exists i :: 0 <= i < |ethTopics| && Malformed(ethTopics[i]))
            || node(Wire(Translated(ethTopics))).None?
    ensures result.Some? ==>
            result.value == Flatten(Pipeline(chain, node(Wire(Translated(ethTopics))).value, addresses, ethTopics))
    ensures result.Some? ==>
            ShowsAll(result.value, Pipeline(chain, node(Wire(Translated(ethTopics))).value, addresses, ethTopics))
  {
    var translated := TranslateTopics(ethTopics);
    if translated.None? {
      return None;
    }
    assert translated.value == Translated(ethTopics);
    var topics := NewSearchLogsTopics(translated.value);
    var wire := MarshalTopics(topics);
    if node(wire).None? {
      return None;
    }
    var receipts := SearchLogsAndFilterExtraTopics(Keep(node(wire).value, chain), addresses, topics);
    var logs := FlattenLogs(receipts);
    return Some(logs);
  }

  /** `ToRequest` strips the 0x prefixes in place. */
  method StripPrefixes(addresses: array<string>)
    modifies addresses
    ensures addresses[..] == Unprefixed(old(addresses[..])) && AllDenote(old(addresses[..]), addresses[..])
  {
    for i := 0 to addresses.Length
      invariant forall k :: 0 <= k < i ==> addresses[k] == RemoveHexPrefix(old(addresses[k]))
      invariant forall k :: i <= k < addresses.Length ==> addresses[k] == old(addresses[k])
    {
      addresses[i] := RemoveHexPrefix(addresses[i]);
    }
    assert addresses[..] == Unprefixed(old(addresses[..]));
  }

  /** A wanted log is a match for the node as well as for the pass that follows. */
  lemma WantedIsAskedFor(r: Receipt, i: nat, addresses: seq<string>, filter: seq<Topic>)
    requires WellFormed(filter) && i < |r.logs| && WantedLog(addresses, filter, r.logs[i])
    ensures NodeWants(r, addresses, Wire(Translated(filter)))
    ensures Accepted(addresses, Translated(filter), r.logs[i])
  {
    TranslationPreservesMeaning(filter, r.logs[i].topics);
    WireIsWeaker(Translated(filter), r.logs[i].topics);
  }

  /**
   Nothing is lost: every log in the range that satisfies the documented filter and the address
   set is delivered, in its own receipt and at its own position.
   */
  lemma PipelineIsComplete(chain: seq<Receipt>, answers: Receipt -> bool, from: nat, to: nat,
                           addresses: seq<string>, filter: seq<Topic>, r: Receipt, i: nat)
    requires Given(addresses, filter)
    requires WellFormed(filter) && Honest(answers, from, to, addresses, Wire(Translated(filter)))
    requires r in chain && InRange(r, from, to) && i < |r.logs| && WantedLog(addresses, filter, r.logs[i])
    ensures Delivered(Pipeline(chain, answers, addresses, filter), r, i)
  {
    WantedIsAskedFor(r, i, addresses, filter);
    var t := Translated(filter);
    var answered := Keep(answers, chain);
    var survivors := Keep((x: Receipt) => HasAccepted(addresses, t, x), answered);
    KeptReceiptsExactly(addresses, t, answered);
    assert r in answered && HasAccepted(addresses, t, r);
    var k :| 0 <= k < |survivors| && survivors[k] == r;
    KeptLogsExactly(addresses, t, r.logs);
    assert InPlace(addresses, t, r.logs, 0, r.logs[i].(index := i));
    assert Pipeline(chain, answers, addresses, filter)[k] == r.(logs := KeptLogs(addresses, t, r.logs, 0));
  }

  /** The log at its position in `r`, accepted by the addresses and, as far as it goes, by the filter. */
  ghost predicate Legitimate(r: Receipt, addresses: seq<string>, filter: seq<Topic>, log: Log) {
    && log.index < |r.logs| && log == r.logs[log.index].(index := log.index)
    && AddressAccepted(addresses, log.address) && Loose(Translated(filter), log.topics)
    && (|log.topics| >= |filter| ==> EthStrict(filter, log.topics))
  }

  lemma KeptIsLegitimate(r: Receipt, addresses: seq<string>, filter: seq<Topic>, log: Log)
    requires WellFormed(filter) && log in KeptLogs(addresses, Translated(filter), r.logs, 0)
    ensures Legitimate(r, addresses, filter, log)
  {
    KeptLogsInPlace(addresses, Translated(filter), r.logs, 0);
    PositionsKeptIff(filter);
    TranslationPreservesMeaning(filter, log.topics);
  }

  /**
   Nothing foreign is delivered: each delivered receipt is one of the chain's in the range, is not
   empty, and each of its logs is the log at that position, accepted by the address set and, on
   the topics it has, by the filter.
   */
  lemma PipelineIsSound(chain: seq<Receipt>, answers: Receipt -> bool, from: nat, to: nat,
                        addresses: seq<string>, filter: seq<Topic>, k: nat)
    requires Given(addresses, filter)
    requires WellFormed(filter) && Honest(answers, from, to, addresses, Wire(Translated(filter)))
    requires k < |Pipeline(chain, answers, addresses, filter)|
    ensures var out := Pipeline(chain, answers, addresses, filter)[k];
      && out.logs != []
      && exists r :: r in chain && InRange(r, from, to) && out == r.(logs := out.logs)
           && forall j :: 0 <= j < |out.logs| ==> Legitimate(r, addresses, filter, out.logs[j])
  {
    PositionsKeptIff(filter);
    var t := Translated(filter);
    var answered := Keep(answers, chain);
    KeptReceiptsExactly(addresses, t, answered);
    var r := Keep((x: Receipt) => HasAccepted(addresses, t, x), answered)[k];
    assert r in answered;
    var logs := KeptLogs(addresses, t, r.logs, 0);
    forall j | 0 <= j < |logs| ensures Legitimate(r, addresses, filter, logs[j]) {
      KeptIsLegitimate(r, addresses, filter, logs[j]);
    }
    assert Pipeline(chain, answers, addresses, filter)[k] == r.(logs := logs);
  }

  /** All logs of a receipt have at least as many topics as the filter has positions. */
  ghost predicate LongLogs(r: Receipt, filter: seq<Topic>) {
    forall i :: 0 <= i < |r.logs| ==> |r.logs[i].topics| >= |filter|
  }

  /**
   On such receipts the answer depends on the chain alone: whatever receipts the node adds to
   those it must answer, the pipeline delivers what filtering the whole range would.
   */
  lemma {:induction false} NodeExtrasDoNotShow(chain: seq<Receipt>, answers: Receipt -> bool, from: nat, to: nat,
                                               addresses: seq<string>, filter: seq<Topic>)
    requires Given(addresses, filter)
    requires WellFormed(filter) && Honest(answers, from, to, addresses, Wire(Translated(filter)))
    requires forall r :: r in chain ==> LongLogs(r, filter)
    ensures Pipeline(chain, answers, addresses, filter) ==
            Pipeline(chain, (r: Receipt) => InRange(r, from, to), addresses, filter)
  {
    PositionsKeptIff(filter);
    if chain != [] {
      var r, ranged := chain[0], (r: Receipt) => InRange(r, from, to);
      NodeExtrasDoNotShow(chain[1..], answers, from, to, addresses, filter);
      KeptReceiptsCons(chain, answers, addresses, Translated(filter));
      KeptReceiptsCons(chain, ranged, addresses, Translated(filter));
      if InRange(r, from, to) && !answers(r) {
        UnansweredIsEmpty(r, answers, from, to, addresses, filter);
      }
    }
  }

  /** What the first receipt contributes, if it is answered. */
  lemma KeptReceiptsCons(chain: seq<Receipt>, p: Receipt -> bool, addresses: seq<string>, filter: seq<Alternatives>)
    requires chain != []
    ensures KeptReceipts(addresses, filter, Keep(p, chain)) ==
            (if p(chain[0]) && KeptLogs(addresses, filter, chain[0].logs, 0) != []
             then [Trim(addresses, filter, chain[0])] else [])
            + KeptReceipts(addresses, filter, Keep(p, chain[1..]))
  {
    var r, rest := chain[0], Keep(p, chain[1..]);
    if p(r) {
      assert ([r] + rest)[1..] == rest;
    }
  }

  lemma UnansweredIsEmpty(r: Receipt, answers: Receipt -> bool, from: nat, to: nat,
                          addresses: seq<string>, filter: seq<Topic>)
    requires WellFormed(filter) && Honest(answers, from, to, addresses, Wire(Translated(filter)))
    requires InRange(r, from, to) && !answers(r) && LongLogs(r, filter)
    ensures KeptLogs(addresses, Translated(filter), r.logs, 0) == []
  {
    var t := Translated(filter);
    PositionsKeptIff(filter);
    NonEmptyIff(addresses, t, r);
    if HasAccepted(addresses, t, r) {
      var i :| 0 <= i < |r.logs| && Accepted(addresses, t, r.logs[i]);
      TranslationPreservesMeaning(filter, r.logs[i].topics);
      WantedIsAskedFor(r, i, addresses, filter);
      assert false;
    }
  }

  // ----- what a client asked for

  /** The logs of one receipt that the documented filter wants, in order, from position `at` on. */
  ghost function WantedOf(r: Receipt, addresses: seq<string>, filter: seq<Topic>, at: nat): seq<EthLog>
    requires at <= |r.logs|
    decreases |r.logs| - at
  {
    if at == |r.logs| then []
    else WantedAt(r, addresses, filter, at) + WantedOf(r, addresses, filter, at + 1)
  }

  ghost function WantedAt(r: Receipt, addresses: seq<string>, filter: seq<Topic>, at: nat): seq<EthLog>
    requires at < |r.logs|
  {
    if WantedLog(addresses, filter, r.logs[at]) then [ToEthLog(r, r.logs[at].(index := at))] else []
  }

  /** The range's receipts in order, of each the wanted logs in order with their positions in the receipt. */
  ghost function Wanted(chain: seq<Receipt>, from: nat, to: nat,
                        addresses: seq<string>, filter: seq<Topic>): seq<EthLog> {
    if chain == [] then []
    else
      (if InRange(chain[0], from, to) then WantedOf(chain[0], addresses, filter, 0) else [])
      + Wanted(chain[1..], from, to, addresses, filter)
  }

  /** A log that passes although it has fewer topics than the filter has positions. */
  ghost predicate PassesShort(addresses: seq<string>, filter: seq<Topic>, log: Log) {
    Accepted(addresses, Translated(filter), log) && |log.topics| < |filter|
  }

  ghost predicate HasShort(r: Receipt, addresses: seq<string>, filter: seq<Topic>, at: nat) {
    exists i :: at <= i < |r.logs| && PassesShort(addresses, filter, r.logs[i])
  }

  /** Of one receipt: what is kept is at least what is wanted, and exactly that if nothing short passes. */
  lemma {:induction false} KeptAgainstWanted(r: Receipt, addresses: seq<string>, filter: seq<Topic>, at: nat)
    requires WellFormed(filter) && at <= |r.logs|
    ensures var kept := EthLogsOf(r, KeptLogs(addresses, Translated(filter), r.logs[at..], at));
      && |kept| >= |WantedOf(r, addresses, filter, at)|
      && (HasShort(r, addresses, filter, at) ==> |kept| > |WantedOf(r, addresses, filter, at)|)
      && (!HasShort(r, addresses, filter, at) ==> kept == WantedOf(r, addresses, filter, at))
    decreases |r.logs| - at
  {
    if at < |r.logs| {
      var t := Translated(filter);
      KeptAgainstWanted(r, addresses, filter, at + 1);
      KeptAgainstWantedAt(r, addresses, filter, at);
      assert r.logs[at..][1..] == r.logs[at + 1..] && r.logs[at..][0] == r.logs[at];
      EthLogsConcat(r, KeptLog(addresses, t, r.logs[at], at), KeptLogs(addresses, t, r.logs[at + 1..], at + 1));
      assert HasShort(r, addresses, filter, at) <==>
             PassesShort(addresses, filter, r.logs[at]) || HasShort(r, addresses, filter, at + 1);
    }
  }

  lemma KeptAgainstWantedAt(r: Receipt, addresses: seq<string>, filter: seq<Topic>, at: nat)
    requires WellFormed(filter) && at < |r.logs|
    ensures var kept := EthLogsOf(r, KeptLog(addresses, Translated(filter), r.logs[at], at));
      if PassesShort(addresses, filter, r.logs[at]) then |kept| == 1 && WantedAt(r, addresses, filter, at) == []
      else kept == WantedAt(r, addresses, filter, at)
  {
    AcceptedIffWanted(addresses, filter, r.logs[at]);
  }

  lemma EthLogsConcat(r: Receipt, a: seq<Log>, b: seq<Log>)
    ensures EthLogsOf(r, a + b) == EthLogsOf(r, a) + EthLogsOf(r, b)
  {
  }

  /** A receipt of which nothing is kept contributes nothing either way. */
  lemma FlattenFirst(kept: Receipt, rest: seq<Receipt>)
    ensures Flatten((if kept.logs != [] then [kept] else []) + rest) == EthLogsOf(kept, kept.logs) + Flatten(rest)
  {
    if kept.logs == [] {
      assert [] + rest == rest;
    } else {
      assert ([kept] + rest)[1..] == rest;
    }
  }

  /** Wanted means accepted and long enough. */
  lemma AcceptedIffWanted(addresses: seq<string>, filter: seq<Topic>, log: Log)
    requires WellFormed(filter)
    ensures WantedLog(addresses, filter, log) <==>
            Accepted(addresses, Translated(filter), log) && |log.topics| >= |filter|
  {
    PositionsKeptIff(filter);
    TranslationPreservesMeaning(filter, log.topics);
  }

  ghost predicate HasWanted(r: Receipt, addresses: seq<string>, filter: seq<Topic>, at: nat) {
    exists i :: at <= i < |r.logs| && WantedLog(addresses, filter, r.logs[i])
  }

  lemma {:induction false} NoneWantedIff(r: Receipt, addresses: seq<string>, filter: seq<Topic>, at: nat)
    requires at <= |r.logs|
    ensures WantedOf(r, addresses, filter, at) == [] <==> !HasWanted(r, addresses, filter, at)
    decreases |r.logs| - at
  {
    if at < |r.logs| {
      NoneWantedIff(r, addresses, filter, at + 1);
    }
  }

  /** A receipt of the range that the node does not answer has nothing that is wanted. */
  lemma UnansweredUnwanted(r: Receipt, answers: Receipt -> bool, from: nat, to: nat,
                           addresses: seq<string>, filter: seq<Topic>)
    requires WellFormed(filter) && Honest(answers, from, to, addresses, Wire(Translated(filter)))
    requires InRange(r, from, to) && !answers(r)
    ensures WantedOf(r, addresses, filter, 0) == []
  {
    if HasWanted(r, addresses, filter, 0) {
      var i :| 0 <= i < |r.logs| && WantedLog(addresses, filter, r.logs[i]);
      WantedIsAskedFor(r, i, addresses, filter);
    }
    NoneWantedIff(r, addresses, filter, 0);
  }

  ghost predicate ShortPasses(chain: seq<Receipt>, answers: Receipt -> bool,
                              addresses: seq<string>, filter: seq<Topic>) {
    exists r :: r in chain && answers(r) && HasShort(r, addresses, filter, 0)
  }

  ghost function Answer(chain: seq<Receipt>, answers: Receipt -> bool,
                        addresses: seq<string>, filter: seq<Topic>): seq<EthLog> {
    Flatten(KeptReceipts(addresses, Translated(filter), Keep(answers, chain)))
  }

  lemma {:induction false} AnswerAgainstWanted(chain: seq<Receipt>, answers: Receipt -> bool, from: nat, to: nat,
                                               addresses: seq<string>, filter: seq<Topic>)
    requires WellFormed(filter) && Honest(answers, from, to, addresses, Wire(Translated(filter)))
    ensures var answer := Answer(chain, answers, addresses, filter);
            var wanted := Wanted(chain, from, to, addresses, filter);
      && |answer| >= |wanted|
      && (ShortPasses(chain, answers, addresses, filter) ==> |answer| > |wanted|)
      && (!ShortPasses(chain, answers, addresses, filter) ==> answer == wanted)
  {
    if chain != [] {
      var r, rest := chain[0], chain[1..];
      AnswerAgainstWanted(rest, answers, from, to, addresses, filter);
      AnswerCons(r, rest, answers, addresses, filter);
      assert ShortPasses(chain, answers, addresses, filter) <==>
             (answers(r) && HasShort(r, addresses, filter, 0)) || ShortPasses(rest, answers, addresses, filter);
      if answers(r) {
        KeptAgainstWanted(r, addresses, filter, 0);
        assert r.logs[0..] == r.logs;
      } else if InRange(r, from, to) {
        UnansweredUnwanted(r, answers, from, to, addresses, filter);
      }
    }
  }

  lemma AnswerCons(r: Receipt, rest: seq<Receipt>, answers: Receipt -> bool, addresses: seq<string>, filter: seq<Topic>)
    ensures Answer([r] + rest, answers, addresses, filter) ==
            (if answers(r) then EthLogsOf(r, KeptLogs(addresses, Translated(filter), r.logs, 0)) else [])
            + Answer(rest, answers, addresses, filter)
  {
    var t := Translated(filter);
    assert ([r] + rest)[1..] == rest;
    if answers(r) {
      var kept := r.(logs := KeptLogs(addresses, t, r.logs, 0));
      assert ([r] + Keep(answers, rest))[1..] == Keep(answers, rest);
      FlattenFirst(kept, KeptReceipts(addresses, t, Keep(answers, rest)));
      assert EthLogsOf(kept, kept.logs) == EthLogsOf(r, kept.logs);
    }
  }

  /**
   End to end: whatever receipts an honest node adds, the flat list sent to the client is the wanted
   logs, each with its position in its receipt, in order and once each, exactly when no answered
   receipt has a log that passes although it has fewer topics than the filter has positions.
   */
  lemma PipelineIsWantedIff(chain: seq<Receipt>, answers: Receipt -> bool, from: nat, to: nat,
                            addresses: seq<string>, filter: seq<Topic>)
    requires Given(addresses, filter)
    requires WellFormed(filter) && Honest(answers, from, to, addresses, Wire(Translated(filter)))
    ensures |Flatten(Pipeline(chain, answers, addresses, filter))| >= |Wanted(chain, from, to, addresses, filter)|
    ensures ShortPasses(chain, answers, addresses, filter) ==>
              |Flatten(Pipeline(chain, answers, addresses, filter))| > |Wanted(chain, from, to, addresses, filter)|
    ensures Flatten(Pipeline(chain, answers, addresses, filter)) == Wanted(chain, from, to, addresses, filter)
       <==> !ShortPasses(chain, answers, addresses, filter)
  {
    PositionsKeptIff(filter);
    AnswerAgainstWanted(chain, answers, from, to, addresses, filter);
  }

  /** It does happen: a log without topics passes a filter on the first topic. */
  lemma AShortLogPasses() returns (chain: seq<Receipt>, answers: Receipt -> bool, filter: seq<Topic>)
    ensures WellFormed(filter) && Honest(answers, 0, 0, [], Wire(Translated(filter)))
    ensures Flatten(Pipeline(chain, answers, [], filter)) != Wanted(chain, 0, 0, [], filter)
  {
    var log := Log("", [], "", 0);
    var r := Receipt(0, "", "", 0, [log]);
    chain, filter := [r], [One("a")];
    answers := (r: Receipt) => r.block == 0;
    assert Given([], filter) && PassesShort([], filter, r.logs[0]);
    assert HasShort(r, [], filter, 0) && r in chain && answers(r);
    PipelineIsWantedIff(chain, answers, 0, 0, [], filter);
  }

  /**
   Without a filter the receipts pass through as decoded, every log still at index 0, so the
   reported index is the position in the receipt exactly when no answered receipt has a second log.
   */
  lemma UnfilteredPositionsIff(chain: seq<Receipt>, answers: Receipt -> bool)
    requires forall r, i :: r in chain && 0 <= i < |r.logs| ==> r.logs[i].index == 0
    ensures (forall r, i :: r in Pipeline(chain, answers, [], []) && 0 <= i < |r.logs| ==> r.logs[i].index == i)
       <==> (forall r :: r in chain && answers(r) ==> |r.logs| <= 1)
  {
    var out := Pipeline(chain, answers, [], []);
    if r :| r in chain && answers(r) && |r.logs| > 1 {
      assert r in out && r.logs[1].index == 0;
    }
  }
}
