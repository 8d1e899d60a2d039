/**
 What a logs subscription sends: of each receipt the logs that `FilterRevoLogs` lets through, as
 Ethereum logs, less those whose hash has been sent. No log is stamped with a position on this path.
 */
module LogSubscription {
  import opened Common
  import opened Topics
  import opened Logs
  import opened Notifications

  /** `FilterRevoLogs` looks at addresses without their 0x prefix. */
  ghost predicate AcceptedBare(addresses: seq<string>, filter: seq<Alternatives>, log: Log) {
    AddressAccepted(addresses, RemoveHexPrefix(log.address)) && Loose(filter, log.topics)
  }

  /** The address a log's field denotes is one asked for, and so is every topic the log has. */
  ghost predicate MatchesBare(addresses: seq<string>, filter: seq<Alternatives>, log: Log) {
    && (addresses == [] || exists a, c :: a in addresses && Denotes(log.address, c) && Lower(a) == Lower(c))
    && forall i :: 0 <= i < |filter| && i < |log.topics| ==> Accepts(filter[i], log.topics[i])
  }

  lemma MatchesBareIff(addresses: seq<string>, filter: seq<Alternatives>, log: Log)
    ensures MatchesBare(addresses, filter, log) <==> AcceptedBare(addresses, filter, log)
  {
    var bare := RemoveHexPrefix(log.address);
    if a, c :| a in addresses && Denotes(log.address, c) && Lower(a) == Lower(c) {
      DenotesOne(log.address, c);
    }
    if addresses != [] && AddressAccepted(addresses, bare) {
      var i :| 0 <= i < |addresses| && Lower(addresses[i]) == Lower(bare);
      assert addresses[i] in addresses && Denotes(log.address, bare);
    }
  }

  /** The logs it accepts. */
  ghost function Matching(addresses: seq<string>, filter: seq<Alternatives>, logs: seq<Log>): seq<Log> {
    Keep((l: Log) => AcceptedBare(addresses, filter, l), logs)
  }

  function FirstOf<T>(s: seq<T>): seq<T> {
    if s == [] then [] else s[..1]
  }

  lemma MatchingSplit(addresses: seq<string>, filter: seq<Alternatives>, logs: seq<Log>, n: nat)
    requires n < |logs| && Matching(addresses, filter, logs[..n]) == []
    ensures AcceptedBare(addresses, filter, logs[n]) ==> FirstOf(Matching(addresses, filter, logs)) == [logs[n]]
    ensures !AcceptedBare(addresses, filter, logs[n]) ==> Matching(addresses, filter, logs[..n + 1]) == []
  {
    assert logs == logs[..n] + logs[n..] && logs[..n + 1] == logs[..n] + [logs[n]];
    KeepConcat((l: Log) => AcceptedBare(addresses, filter, l), logs[..n], logs[n..]);
    KeepConcat((l: Log) => AcceptedBare(addresses, filter, l), logs[..n], [logs[n]]);
  }

  /** What `FilterRevoLogs` lets through of one receipt: everything without a filter, else the first match. */
  ghost function Reported(addresses: seq<string>, filter: seq<Alternatives>, logs: seq<Log>): seq<Log> {
    if addresses == [] && filter == [] then logs else FirstOf(Matching(addresses, filter, logs))
  }

  method FilterRevoLogs(addresses: seq<string>, filter: seq<Alternatives>, logs: seq<Log>) returns (kept: seq<Log>)
    ensures kept == Reported(addresses, filter, logs)
    ensures forall l :: l in kept ==> l in logs && MatchesBare(addresses, filter, l)
    ensures kept == [] <==> forall l :: l in logs ==> !MatchesBare(addresses, filter, l)
  {
    ReportedAreMatches(addresses, filter, logs);
    if |filter| == 0 && |addresses| == 0 {
      return logs;
    }
    var requested := PopulateLookup(addresses);
    for n := 0 to |logs|
      invariant Matching(addresses, filter, logs[..n]) == []
    {
      MatchingSplit(addresses, filter, logs, n);
      if |addresses| == 0 || Lower(RemoveHexPrefix(logs[n].address)) in requested {
        var ok := DoFiltersMatch(filter, logs[n].topics);
        if ok {
          return [logs[n]];
        }
      }
    }
    assert logs[..|logs|] == logs;
    return [];
  }

  lemma ReportedAreMatches(addresses: seq<string>, filter: seq<Alternatives>, logs: seq<Log>)
    ensures forall l :: l in Reported(addresses, filter, logs) ==> l in logs && MatchesBare(addresses, filter, l)
    ensures Reported(addresses, filter, logs) == [] <==> forall l :: l in logs ==> !MatchesBare(addresses, filter, l)
  {
    forall l ensures MatchesBare(addresses, filter, l) <==> AcceptedBare(addresses, filter, l) {
      MatchesBareIff(addresses, filter, l);
    }
    var matching := Matching(addresses, filter, logs);
    assert matching == [] <==> forall l :: l in logs ==> !AcceptedBare(addresses, filter, l) by {
      assert matching != [] ==> matching[0] in matching;
    }
    ReportedIsMatching(addresses, filter, logs);
  }

  /** With neither addresses nor topics every log matches. */
  lemma {:induction false} EverythingMatches(logs: seq<Log>)
    ensures Matching([], [], logs) == logs
  {
    if logs != [] {
      EverythingMatches(logs[1..]);
      assert AcceptedBare([], [], logs[0]);
    }
  }

  /**
   So `FilterRevoLogs` lets every matching log of a receipt through exactly when the subscription
   names neither addresses nor topics, or the receipt has at most one match.
   */
  lemma AllReportedIff(addresses: seq<string>, filter: seq<Alternatives>, logs: seq<Log>)
    ensures Reported(addresses, filter, logs) == Matching(addresses, filter, logs)
       <==> (addresses == [] && filter == []) || |Matching(addresses, filter, logs)| <= 1
  {
    EverythingMatches(logs);
    var matching := Matching(addresses, filter, logs);
    assert FirstOf(matching) == matching ==> |FirstOf(matching)| == |matching|;
  }

  /** What it lets through is always a match, and it lets something through whenever there is a match. */
  lemma ReportedIsMatching(addresses: seq<string>, filter: seq<Alternatives>, logs: seq<Log>)
    ensures Reported(addresses, filter, logs) <= Matching(addresses, filter, logs)
    ensures Reported(addresses, filter, logs) == [] <==> Matching(addresses, filter, logs) == []
  {
    EverythingMatches(logs);
  }

  // ----- from the node's receipts to the client

  /** The notifications made of some receipts, one after another. */
  ghost function Notes(addresses: seq<string>, filter: seq<Alternatives>, rs: seq<Receipt>): seq<EthLog> {
    if rs == [] then []
    else
      var last := rs[|rs| - 1];
      Notes(addresses, filter, rs[..|rs| - 1]) + EthLogsOf(last, Reported(addresses, filter, last.logs))
  }

  /** What a client that asked for all matching logs expects of them. */
  ghost function Expected(addresses: seq<string>, filter: seq<Alternatives>, rs: seq<Receipt>): seq<EthLog> {
    if rs == [] then []
    else
      var last := rs[|rs| - 1];
      Expected(addresses, filter, rs[..|rs| - 1]) + EthLogsOf(last, Matching(addresses, filter, last.logs))
  }

  /** What has been sent after some receipts. */
  ghost function Sent(hash: EthLog -> string, addresses: seq<string>, filter: seq<Alternatives>,
                      rs: seq<Receipt>): seq<EthLog> {
    FirstByHash(hash, Notes(addresses, filter, rs))
  }

  /** The sender has sent what some receipts give rise to, and knows the hashes. */
  ghost predicate Told(sender: LogSender<EthLog>, hash: EthLog -> string, addresses: seq<string>,
                       filter: seq<Alternatives>, rs: seq<Receipt>)
    reads sender
  {
    && sender.sentHashes == HashesOf(hash, Notes(addresses, filter, rs))
    && sender.queue == Sent(hash, addresses, filter, rs)
  }

  lemma NotesNext(addresses: seq<string>, filter: seq<Alternatives>, past: seq<Receipt>, r: Receipt)
    ensures Notes(addresses, filter, past + [r]) ==
            Notes(addresses, filter, past) + EthLogsOf(r, Reported(addresses, filter, r.logs))
    ensures Expected(addresses, filter, past + [r]) ==
            Expected(addresses, filter, past) + EthLogsOf(r, Matching(addresses, filter, r.logs))
  {
    assert (past + [r])[..|past + [r]| - 1] == past;
  }

  /** One receipt of an answer; `past` are those before it. */
  method NotifyOfReceipt(sender: LogSender<EthLog>, hash: EthLog -> string, addresses: seq<string>,
                         filter: seq<Alternatives>, r: Receipt, ghost past: seq<Receipt>)
    requires Told(sender, hash, addresses, filter, past)
    modifies sender
    ensures Told(sender, hash, addresses, filter, past + [r])
  {
    NotesNext(addresses, filter, past, r);
    var logs := FilterRevoLogs(addresses, filter, r.logs);
    var ethLogs := ExtractETHLogs(r.(logs := logs));
    assert ethLogs == EthLogsOf(r, logs);
    sender.Notify(hash, ethLogs, Notes(addresses, filter, past));
  }

  /** The loop over the receipts of one answer; `past` are those of the answers before it. */
  method NotifyOfReceipts(sender: LogSender<EthLog>, hash: EthLog -> string, addresses: seq<string>,
                          filter: seq<Alternatives>, receipts: seq<Receipt>, ghost past: seq<Receipt>)
    requires Told(sender, hash, addresses, filter, past)
    modifies sender
    ensures Told(sender, hash, addresses, filter, past + receipts)
  {
    SeenSoFar(past, receipts);
    for n := 0 to |receipts|
      invariant Told(sender, hash, addresses, filter, past + receipts[..n])
    {
      NotifyOfReceipt(sender, hash, addresses, filter, receipts[n], past + receipts[..n]);
    }
  }

  lemma SeenSoFar<T>(past: seq<T>, more: seq<T>)
    ensures past + more[..0] == past && past + more[..|more|] == past + more
    ensures forall n {:trigger more[n]} :: 0 <= n < |more| ==> (past + more[..n]) + [more[n]] == past + more[..n + 1]
  {
  }

  /** `FilterRevoLogs` loses nothing of a receipt. */
  ghost predicate Whole(addresses: seq<string>, filter: seq<Alternatives>, r: Receipt) {
    (addresses == [] && filter == []) || |Matching(addresses, filter, r.logs)| <= 1
  }

  lemma OneReceiptWhole(addresses: seq<string>, filter: seq<Alternatives>, r: Receipt)
    ensures var n := EthLogsOf(r, Reported(addresses, filter, r.logs));
            var e := EthLogsOf(r, Matching(addresses, filter, r.logs));
      && |n| <= |e|
      && (Whole(addresses, filter, r) ==> n == e)
      && (!Whole(addresses, filter, r) ==> |n| < |e|)
  {
    AllReportedIff(addresses, filter, r.logs);
    ReportedIsMatching(addresses, filter, r.logs);
  }

  lemma {:induction false} NotesAgainstExpected(addresses: seq<string>, filter: seq<Alternatives>, rs: seq<Receipt>)
    ensures |Notes(addresses, filter, rs)| <= |Expected(addresses, filter, rs)|
    ensures (forall r :: r in rs ==> Whole(addresses, filter, r)) ==>
              Notes(addresses, filter, rs) == Expected(addresses, filter, rs)
    ensures |Notes(addresses, filter, rs)| == |Expected(addresses, filter, rs)| ==>
              forall r :: r in rs ==> Whole(addresses, filter, r)
  {
    if rs != [] {
      var init, last := rs[..|rs| - 1], rs[|rs| - 1];
      NotesAgainstExpected(addresses, filter, init);
      OneReceiptWhole(addresses, filter, last);
      assert rs == init + [last];
    }
  }

  /**
   Over all receipts a subscription has seen, the client is told of every matching log exactly when
   `FilterRevoLogs` loses nothing of any receipt and no two of the expected notifications have the
   same hash: the second of two alike is taken for a repetition.
   */
  lemma ToldOfEveryMatchIff(hash: EthLog -> string, addresses: seq<string>, filter: seq<Alternatives>, rs: seq<Receipt>)
    ensures Sent(hash, addresses, filter, rs) == Expected(addresses, filter, rs) <==>
            && (forall r :: r in rs ==> Whole(addresses, filter, r))
            && DistinctHashes(hash, Expected(addresses, filter, rs))
  {
    NotesAgainstExpected(addresses, filter, rs);
    NothingHeldBackIff(hash, Notes(addresses, filter, rs));
  }

  /** Two logs that a client cannot tell apart, prefixes and position aside. */
  ghost predicate Alike(a: Log, b: Log) {
    && AddHexPrefix(a.address) == AddHexPrefix(b.address)
    && Prefixed(a.topics) == Prefixed(b.topics)
    && AddHexPrefix(a.data) == AddHexPrefix(b.data)
  }

  lemma EqualIffAlike(r: Receipt, a: Log, b: Log)
    requires a.index == b.index
    ensures ToEthLog(r, a) == ToEthLog(r, b) <==> Alike(a, b)
  {
  }

  ghost predicate NoneAlike(logs: seq<Log>) {
    forall i, j :: 0 <= i < j < |logs| ==> !Alike(logs[i], logs[j])
  }

  lemma DistinctIffNoneAlike(hash: EthLog -> string, r: Receipt, logs: seq<Log>)
    requires forall a, b :: hash(a) == hash(b) ==> a == b
    requires forall l :: l in logs ==> l.index == 0
    ensures DistinctHashes(hash, EthLogsOf(r, logs)) <==> NoneAlike(logs)
  {
    var e := EthLogsOf(r, logs);
    forall i, j | 0 <= i < j < |logs| ensures hash(e[i]) == hash(e[j]) <==> Alike(logs[i], logs[j]) {
      EqualIffAlike(r, logs[i], logs[j]);
    }
  }

  lemma OfOneReceipt(addresses: seq<string>, filter: seq<Alternatives>, r: Receipt)
    ensures Notes(addresses, filter, [r]) == EthLogsOf(r, Reported(addresses, filter, r.logs))
    ensures Expected(addresses, filter, [r]) == EthLogsOf(r, Matching(addresses, filter, r.logs))
  {
    assert [] + [r] == [r];
    NotesNext(addresses, filter, [], r);
  }

  /**
   Of one receipt as decoded, where every log still has index 0, and with a hash that tells
   notifications apart: all matches are told exactly when nothing is lost in the filter and no two
   matching logs are alike.
   */
  lemma ToldOfAReceiptIff(hash: EthLog -> string, addresses: seq<string>, filter: seq<Alternatives>, r: Receipt)
    requires forall a, b :: hash(a) == hash(b) ==> a == b
    requires forall i :: 0 <= i < |r.logs| ==> r.logs[i].index == 0
    ensures Sent(hash, addresses, filter, [r]) == EthLogsOf(r, Matching(addresses, filter, r.logs)) <==>
            Whole(addresses, filter, r) && NoneAlike(Matching(addresses, filter, r.logs))
  {
    OfOneReceipt(addresses, filter, r);
    ToldOfEveryMatchIff(hash, addresses, filter, [r]);
    DistinctIffNoneAlike(hash, r, Matching(addresses, filter, r.logs));
  }

  /** It does happen, with no filter at all: of two equal logs of a receipt one is told. */
  lemma EqualLogsAreToldOnce(hash: EthLog -> string) returns (r: Receipt)
    ensures |Matching([], [], r.logs)| == 2 && |Sent(hash, [], [], [r])| == 1
  {
    var log := Log("", [], "", 0);
    r := Receipt(0, "", "", 0, [log, log]);
    EverythingMatches(r.logs);
    OfOneReceipt([], [], r);
    var notes := Notes([], [], [r]);
    assert |notes| == 2 && notes[0] == notes[1] && !DistinctHashes(hash, notes);
    NothingHeldBackIff(hash, notes);
    assert FirstByHash(hash, notes[..1]) == [notes[0]] by {
      assert notes[..1][..0] == [];
    }
  }
}
