/**
 Finding the sender of a transaction whose inputs name no address: follow the first OP_SPEND input
 to the output it spends, again and again, until that output is not itself an OP_SPEND.
 */
module SenderSearch {
  import opened Chains
  import opened Common
  import opened Scripts

  datatype Vin = Vin(asm: string, id: string, voutN: int)

  datatype RawTx = RawTx(vins: seq<Vin>, vouts: seq<Script>)

  /** What the node answers to getrawtransaction; a missing id is a failed call. */
  type History = map<string, RawTx>

  /** `OutOfRange` is the panic of indexing outputs the transaction does not have. */
  datatype Outcome = Address(address: string) | NotFound | OutOfRange

  /** One transaction of the search: it ends here, or goes on with another transaction. */
  datatype Hop = Stop(outcome: Outcome) | Next(id: string)

  function FirstSpend(vins: seq<Vin>): (int, string) {
    if vins == [] then (-1, "")
    else if vins[0].asm == "OP_SPEND" then (vins[0].voutN, vins[0].id)
    else FirstSpend(vins[1..])
  }

  function Terminal(script: seq<string>): Outcome {
    if FinalOp(script) == "OP_CREATE" then
      var i := ParseCreate(script); if i.None? then NotFound else Address(i.value.from)
    else if FinalOp(script) == "OP_CALL" then
      var i := ParseCall(script); if i.None? then NotFound else Address(i.value.to)
    else NotFound
  }

  function HopFrom(hist: History, tx: RawTx): Hop {
    var (vout, txid) := FirstSpend(tx.vins);
    if vout == -1 || txid !in hist then Stop(NotFound)
    else if !(0 <= vout < |hist[txid].vouts|) then Stop(OutOfRange)
    else match hist[txid].vouts[vout]
      case None => Stop(NotFound)
      case Some(script) => if FinalOp(script) == "OP_SPEND" then Next(txid) else Stop(Terminal(script))
  }

  /** Where the search stands: at the transaction it was asked about, or at one it fetched. */
  datatype Place = Asked(tx: RawTx) | Fetched(id: string)

  function TxAt(hist: History, p: Place): RawTx
    requires p.Fetched? ==> p.id in hist
  {
    if p.Asked? then p.tx else hist[p.id]
  }

  function HopOf(hist: History, p: Place): Option<Place> {
    if p.Fetched? && p.id !in hist then None
    else match HopFrom(hist, TxAt(hist, p))
      case Stop(_) => None
      case Next(id) => Some(Fetched(id))
  }

  function Hops(hist: History): Place -> Option<Place> {
    (p: Place) => HopOf(hist, p)
  }

  ghost function Fetchable(hist: History): set<Place> {
    set id | id in hist :: Fetched(id)
  }

  /** Places on the chain are at transactions the node has. */
  lemma HopsStayInside(hist: History)
    ensures Within(Hops(hist), Fetchable(hist))
  {
  }

  lemma {:induction false} PlacesExist(hist: History, p: Place, n: nat)
    requires p.Fetched? ==> p.id in hist
    requires Follow(Hops(hist), p, n).Some?
    ensures var q := Follow(Hops(hist), p, n).value; q.Fetched? ==> q.id in hist
    decreases n
  {
    if n > 0 {
      PlacesExist(hist, Hops(hist)(p).value, n - 1);
    }
  }

  // ----- one hop, in plain terms

  /** Input `i` is the first that spends a contract's output. */
  ghost predicate SpendsFirst(vins: seq<Vin>, i: nat) {
    i < |vins| && vins[i].asm == "OP_SPEND" && forall j :: 0 <= j < i ==> vins[j].asm != "OP_SPEND"
  }

  lemma {:induction false} FirstSpendIs(vins: seq<Vin>, i: nat)
    ensures SpendsFirst(vins, i) ==> FirstSpend(vins) == (vins[i].voutN, vins[i].id)
    ensures (forall j :: 0 <= j < |vins| ==> vins[j].asm != "OP_SPEND") ==> FirstSpend(vins) == (-1, "")
  {
    if vins != [] && vins[0].asm != "OP_SPEND" {
      FirstSpendIs(vins[1..], if i > 0 then i - 1 else 0);
      assert forall j :: 0 <= j < |vins| - 1 ==> vins[1..][j] == vins[j + 1];
    }
  }

  /** Whom a contract's output names: the one it calls, or the one who created it. */
  function Names(c: Contract): string {
    match c.action
    case Call(to) => to
    case Create => if c.sender.By? then c.sender.address else ""
  }

  lemma TerminalOfWritten(script: seq<string>, c: Contract)
    requires SameBesideSender(script, Write(c))
    ensures Terminal(script) == if |c.gasLimit| % 2 == 0 then Address(Names(c)) else NotFound
  {
    ReadAsWritten(script, c);
    ReadWrite(c);
    WriteTokens(c);
  }

  /**
   A transaction whose first OP_SPEND input spends an output the node has: a spend is followed into
   its transaction, a contract's script gives the address it names, and anything else none.
   */
  lemma HopIs(hist: History, tx: RawTx, i: nat)
    requires SpendsFirst(tx.vins, i) && tx.vins[i].id in hist
    requires 0 <= tx.vins[i].voutN < |hist[tx.vins[i].id].vouts|
    ensures var vin := tx.vins[i];
            var script := hist[vin.id].vouts[vin.voutN];
      && (script.None? ==> HopFrom(hist, tx) == Stop(NotFound))
      && (script.Some? && FinalOp(script.value) == "OP_SPEND" ==> HopFrom(hist, tx) == Next(vin.id))
      && (script.Some? && FinalOp(script.value) !in {"OP_SPEND", "OP_CALL", "OP_CREATE"} ==>
            HopFrom(hist, tx) == Stop(NotFound))
      && (forall c: Contract :: script.Some? && SameBesideSender(script.value, Write(c)) ==>
            HopFrom(hist, tx) == Stop(if |c.gasLimit| % 2 == 0 then Address(Names(c)) else NotFound))
  {
    FirstSpendIs(tx.vins, i);
    var script := hist[tx.vins[i].id].vouts[tx.vins[i].voutN];
    forall c: Contract | script.Some? && SameBesideSender(script.value, Write(c))
      ensures HopFrom(hist, tx) == Stop(if |c.gasLimit| % 2 == 0 then Address(Names(c)) else NotFound)
    {
      TerminalOfWritten(script.value, c);
      WriteTokens(c);
    }
  }

  /** Where the search stops at once: nothing to spend, or a transaction or an output that is not there. */
  lemma HopEnds(hist: History, tx: RawTx, i: nat)
    ensures (forall j :: 0 <= j < |tx.vins| ==> tx.vins[j].asm != "OP_SPEND") ==> HopFrom(hist, tx) == Stop(NotFound)
    ensures SpendsFirst(tx.vins, i) && tx.vins[i].id !in hist ==> HopFrom(hist, tx) == Stop(NotFound)
    ensures SpendsFirst(tx.vins, i) && tx.vins[i].id in hist && tx.vins[i].voutN >= |hist[tx.vins[i].id].vouts| ==>
              HopFrom(hist, tx) == Stop(OutOfRange)
    ensures SpendsFirst(tx.vins, i) && tx.vins[i].voutN < 0 ==>
              HopFrom(hist, tx) ==
              Stop(if tx.vins[i].voutN == -1 || tx.vins[i].id !in hist then NotFound else OutOfRange)
  {
    FirstSpendIs(tx.vins, i);
  }

  // ----- the recursive search

  method FindSpend(vins: seq<Vin>) returns (vout: int, txid: string)
    ensures (vout, txid) == FirstSpend(vins)
  {
    vout, txid := -1, "";
    for n := 0 to |vins|
      invariant vout == -1 && txid == ""
      invariant FirstSpend(vins) == FirstSpend(vins[n..])
    {
      assert vins[n..][1..] == vins[n + 1..];
      if vins[n].asm == "OP_SPEND" {
        return vins[n].voutN, vins[n].id;
      }
    }
  }

  /** What the search answers: the outcome at the end of the chain of spends. */
  ghost function AnswerAt(hist: History, p: Place, n: nat): Outcome
    requires p.Fetched? ==> p.id in hist
    requires EndsAt(Hops(hist), p, n)
  {
    PlacesExist(hist, p, n);
    HopFrom(hist, TxAt(hist, Follow(Hops(hist), p, n).value)).outcome
  }

  /** The answer is that of the one hop where it stops, or else that of the transaction it goes on with. */
  lemma SearchFollows(hist: History, tx: RawTx, n: nat)
    requires EndsAt(Hops(hist), Asked(tx), n)
    ensures match HopFrom(hist, tx)
            case Stop(outcome) => n == 0 && AnswerAt(hist, Asked(tx), n) == outcome
            case Next(id) =>
              && n > 0 && id in hist && EndsAt(Hops(hist), Asked(hist[id]), n - 1)
              && AnswerAt(hist, Asked(tx), n) == AnswerAt(hist, Asked(hist[id]), n - 1)
  {
    assert Hops(hist)(Asked(tx)) == HopOf(hist, Asked(tx));
    if HopFrom(hist, tx).Next? {
      SamePlace(hist, HopFrom(hist, tx).id, n - 1);
    }
  }

  /** To stand at a fetched transaction is to be asked about it. */
  lemma SamePlace(hist: History, id: string, n: nat)
    requires id in hist
    ensures EndsAt(Hops(hist), Fetched(id), n) <==> EndsAt(Hops(hist), Asked(hist[id]), n)
    ensures EndsAt(Hops(hist), Fetched(id), n) ==> AnswerAt(hist, Fetched(id), n) == AnswerAt(hist, Asked(hist[id]), n)
  {
    assert Hops(hist)(Fetched(id)) == Hops(hist)(Asked(hist[id]));
  }

  /** `n` is the length of the chain from here; there is one exactly when the search terminates. */
  method SearchSenderAddress(hist: History, at: Place, ghost n: nat) returns (r: Outcome)
    requires at.Fetched? ==> at.id in hist
    requires EndsAt(Hops(hist), at, n)
    ensures r == AnswerAt(hist, at, n)
    decreases n
  {
    var tx := TxAt(hist, at);
    var vout, txid := FindSpend(tx.vins);
    if vout == -1 {
      return NotFound;
    }
    if txid !in hist {
      return NotFound;
    }
    var prev := hist[txid];
    if !(0 <= vout < |prev.vouts|) {
      return OutOfRange;
    }
    if prev.vouts[vout].None? {
      return NotFound;
    }
    var script := prev.vouts[vout].value;
    if FinalOp(script) == "OP_SPEND" {
      r := SearchSenderAddress(hist, Fetched(txid), n - 1);
    } else {
      r := Terminal(script);
    }
  }

  // ----- when it terminates

  /**
   The search ends exactly when it comes to no transaction twice, and then after no more hops than
   the node has transactions.
   */
  lemma TerminatesIffNoRevisit(hist: History, tx: RawTx)
    ensures Ends(Hops(hist), Asked(tx)) <==> forall i: nat, j: nat :: !Repeats(Hops(hist), Asked(tx), i, j)
    ensures Ends(Hops(hist), Asked(tx)) ==> exists n: nat :: n <= |Fetchable(hist)| && EndsAt(Hops(hist), Asked(tx), n)
  {
    HopsStayInside(hist);
    EndsIffNoRepeat(Hops(hist), Asked(tx), Fetchable(hist));
  }

  /** Every OP_SPEND input that is followed refers to a transaction of lower rank. */
  ghost predicate Acyclic(hist: History, rank: string -> nat) {
    forall id :: id in hist && HopFrom(hist, hist[id]).Next? ==> rank(HopFrom(hist, hist[id]).id) < rank(id)
  }

  function RankOf(hist: History, rank: string -> nat, p: Place): nat {
    match p
    case Fetched(id) => rank(id)
    case Asked(tx) => match HopFrom(hist, tx)
      case Next(id) => 1 + rank(id)
      case Stop(_) => 0
  }

  /** On an acyclic history the search always ends, whatever transaction it is asked about. */
  lemma AcyclicTerminates(hist: History, tx: RawTx, rank: string -> nat)
    requires Acyclic(hist, rank)
    ensures Ends(Hops(hist), Asked(tx))
  {
    var byPlace := (p: Place) => RankOf(hist, rank, p);
    forall x: Place | Hops(hist)(x).Some? ensures byPlace(Hops(hist)(x).value) < byPlace(x) {
      var hop := HopFrom(hist, TxAt(hist, x));
      assert HopOf(hist, x) == Some(Fetched(hop.id));
    }
    RankedEnds(Hops(hist), Asked(tx), byPlace);
  }
}
