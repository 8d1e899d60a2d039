/** Listing an address's unspent outputs by script type, maturity and a minimum amount. */
module Utxos {
  import opened Common

  datatype ScriptType =
    | ALL | UNKNOWN | OPRETURN | IMMATURE | P2PK | P2PKH | P2SH | P2WPKH | P2WSH | P2SHP2WPKH | P2SHP2WSH | P2MS

  datatype Utxo = Utxo(txid: string, vout: nat, satoshis: real, height: int, isStake: bool, script: string)

  datatype Listed = Listed(txid: string, vout: nat, amount: real, safe: bool, confirmations: int, height: int,
                           scriptType: ScriptType)

  datatype Answer = Listing(utxos: seq<Listed>) | Insufficient | NegativeConfirmations

  /** The request and the node's state it is answered in; `minSum` is in REVO. */
  datatype Query = Query(minSum: real, types: seq<ScriptType>, blockCount: int, matureHeight: int)

  // ----- script types, on the hex form of the script

  predicate IsP2PK(s: string) {
    |s| == 70 && Lower(s[0..2] + s[68..70]) == "21ac"
  }

  predicate IsP2PKH(s: string) {
    |s| == 50 && Lower(s[0..6] + s[46..50]) == "76a91488ac"
  }

  predicate IsP2SH(s: string) {
    |s| == 46 && Lower(s[0..4] + s[44..46]) == "a91487"
  }

  predicate IsP2WPKH(s: string) {
    |s| == 44 && Lower(s[0..4]) == "0014"
  }

  predicate IsP2WSH(s: string) {
    |s| == 68 && Lower(s[0..4]) == "0020"
  }

  predicate IsP2SHP2WPKH(s: string) {
    |s| == 46 && Lower(s[0..6]) == "160014" && IsP2SH(s)
  }

  predicate IsP2SHP2WSH(s: string) {
    |s| == 70 && Lower(s[0..6]) == "220020" && IsP2SH(s)
  }

  function GetType(s: string): ScriptType {
    if IsP2PK(s) then P2PK
    else if IsP2PKH(s) then P2PKH
    else if IsP2SH(s) then
      if IsP2SHP2WPKH(s) then P2SHP2WPKH
      else if IsP2SHP2WSH(s) then P2SHP2WSH
      else P2SH
    else if IsP2WPKH(s) then P2WPKH
    else if IsP2WSH(s) then P2WSH
    else UNKNOWN
  }

  const RECOGNISED: set<ScriptType> := {P2PK, P2PKH, P2SH, P2WPKH, P2WSH, UNKNOWN}

  lemma FirstDigit(s: string)
    requires |s| == 46
    ensures Lower(s[0..6])[0] == LowerChar(s[0])
    ensures Lower(s[0..4] + s[44..46])[0] == LowerChar(s[0])
  {
  }

  /** The nested types are looked for in the output script, where neither can be: no output has them. */
  lemma OnlySixTypesOccur(s: string)
    ensures GetType(s) in RECOGNISED
  {
    if |s| == 46 {
      FirstDigit(s);
    }
  }

  /** How a type's scripts begin and end, and how many hex digits lie between. */
  datatype Shape = Shape(prefix: string, between: nat, suffix: string)

  function ShapeOf(t: ScriptType): Shape
    requires t in RECOGNISED && t != UNKNOWN
  {
    match t
    case P2PK => Shape("21", 66, "ac")
    case P2PKH => Shape("76a914", 40, "88ac")
    case P2SH => Shape("a914", 40, "87")
    case P2WPKH => Shape("0014", 40, "")
    case P2WSH => Shape("0020", 64, "")
  }

  /** Up to letter case, `s` begins and ends as the shape says and has its length. */
  ghost predicate HasShape(s: string, shape: Shape) {
    && |s| == |shape.prefix| + shape.between + |shape.suffix|
    && Lower(s[..|shape.prefix|]) == shape.prefix
    && Lower(s[|s| - |shape.suffix|..]) == shape.suffix
  }

  lemma LowerConcat(a: string, b: string)
    ensures Lower(a + b) == Lower(a) + Lower(b)
  {
  }

  lemma BothEnds(a: string, b: string, p: string, q: string)
    requires |a| == |p| && |b| == |q|
    ensures Lower(a + b) == p + q <==> Lower(a) == p && Lower(b) == q
  {
    LowerConcat(a, b);
    assert Lower(a) == (Lower(a) + Lower(b))[..|a|] && Lower(b) == (Lower(a) + Lower(b))[|a|..];
    assert p == (p + q)[..|a|] && q == (p + q)[|a|..];
  }

  lemma TwoEndedIff(s: string)
    ensures IsP2PK(s) <==> HasShape(s, ShapeOf(P2PK))
    ensures IsP2PKH(s) <==> HasShape(s, ShapeOf(P2PKH))
    ensures IsP2SH(s) <==> HasShape(s, ShapeOf(P2SH))
  {
    if |s| == 70 {
      BothEnds(s[0..2], s[68..70], "21", "ac");
      assert "21" + "ac" == "21ac";
    } else if |s| == 50 {
      BothEnds(s[0..6], s[46..50], "76a914", "88ac");
      assert "76a914" + "88ac" == "76a91488ac";
    } else if |s| == 46 {
      BothEnds(s[0..4], s[44..46], "a914", "87");
      assert "a914" + "87" == "a91487";
    }
  }

  lemma WitnessIff(s: string)
    ensures IsP2WPKH(s) <==> HasShape(s, ShapeOf(P2WPKH))
    ensures IsP2WSH(s) <==> HasShape(s, ShapeOf(P2WSH))
  {
    assert |s| == 44 || |s| == 68 ==> s[|s|..] == "";
  }

  /** A script is of one of the five types exactly if it has that type's shape. */
  lemma TypeIff(s: string, t: ScriptType)
    requires t in RECOGNISED && t != UNKNOWN
    ensures GetType(s) == t <==> HasShape(s, ShapeOf(t))
  {
    TwoEndedIff(s);
    WitnessIff(s);
    OnlySixTypesOccur(s);
    LengthsDiffer(s);
  }

  /** No script is of two of the types: their lengths differ. */
  lemma LengthsDiffer(s: string)
    ensures GetType(s) == P2PK <==> IsP2PK(s)
    ensures GetType(s) == P2PKH <==> IsP2PKH(s)
    ensures GetType(s) == P2SH <==> IsP2SH(s)
    ensures GetType(s) == P2WPKH <==> IsP2WPKH(s)
    ensures GetType(s) == P2WSH <==> IsP2WSH(s)
  {
    OnlySixTypesOccur(s);
  }

  function Zeros(n: nat): string {
    seq(n, i => '0')
  }

  /** A script of each of the six. */
  function Sample(t: ScriptType): string {
    match t
    case P2PK => "21" + Zeros(66) + "ac"
    case P2PKH => "76a914" + Zeros(40) + "88ac"
    case P2SH => "a914" + Zeros(40) + "87"
    case P2WPKH => "0014" + Zeros(40)
    case P2WSH => "0020" + Zeros(64)
    case _ => ""
  }

  lemma LowerIsLiteral(s: string, t: string)
    requires s == t && forall i :: 0 <= i < |t| ==> !('A' <= t[i] <= 'Z')
    ensures Lower(s) == t
  {
  }

  lemma SamplesHaveTheirType(t: ScriptType)
    requires t in RECOGNISED
    ensures GetType(Sample(t)) == t
  {
    var s := Sample(t);
    match t {
      case P2PK => LowerIsLiteral(s[0..2] + s[68..70], "21ac");
      case P2PKH => LowerIsLiteral(s[0..6] + s[46..50], "76a91488ac");
      case P2SH =>
        LowerIsLiteral(s[0..4] + s[44..46], "a91487");
        FirstDigit(s);
      case P2WPKH => LowerIsLiteral(s[0..4], "0014");
      case P2WSH => LowerIsLiteral(s[0..4], "0020");
      case _ =>
    }
  }

  // ----- eligibility

  predicate AllTypes(q: Query) {
    q.types == [] || q.types[0] == ALL
  }

  predicate Immature(q: Query, u: Utxo) {
    u.isStake && q.blockCount <= u.height + q.matureHeight
  }

  /** The script type must be wanted and, for an immature stake, immature outputs as well. */
  predicate Eligible(q: Query, u: Utxo) {
    AllTypes(q) || (GetType(u.script) in q.types && (Immature(q, u) ==> IMMATURE in q.types))
  }

  function Entry(q: Query, u: Utxo): Listed {
    Listed(u.txid, u.vout, u.satoshis / 100000000.0, !Immature(q, u), q.blockCount - u.height, u.height,
           GetType(u.script))
  }

  function Entries(q: Query, us: seq<Utxo>): seq<Listed> {
    var eligible := Keep((u: Utxo) => Eligible(q, u), us);
    seq(|eligible|, i requires 0 <= i < |eligible| => Entry(q, eligible[i]))
  }

  /** What the mature eligible outputs are worth, in satoshis. */
  function SafeSum(q: Query, us: seq<Utxo>): real {
    if us == [] then 0.0
    else
      var last := us[|us| - 1];
      SafeSum(q, us[..|us| - 1]) + if Eligible(q, last) && !Immature(q, last) then last.satoshis else 0.0
  }

  function Needed(q: Query): real {
    q.minSum * 100000000.0
  }

  /** The search stops at the `k`-th output: it is listed and the sum up to it is enough. */
  predicate Reaches(q: Query, us: seq<Utxo>, k: nat) {
    && Needed(q) != 0.0
    && 0 < k <= |us|
    && Eligible(q, us[k - 1])
    && SafeSum(q, us[..k]) >= Needed(q)
  }

  /** An eligible output from above the node's height stops the call with a panic. */
  predicate Premature(q: Query, u: Utxo) {
    Eligible(q, u) && q.blockCount < u.height
  }

  lemma EntriesSnoc(q: Query, us: seq<Utxo>, u: Utxo)
    ensures Entries(q, us + [u]) == Entries(q, us) + if Eligible(q, u) then [Entry(q, u)] else []
  {
    KeepConcat((x: Utxo) => Eligible(q, x), us, [u]);
  }

  /** No prefix of at most `n` outputs suffices. */
  ghost predicate NoneReached(q: Query, us: seq<Utxo>, n: nat) {
    forall k: nat :: k <= n ==> !Reaches(q, us, k)
  }

  ghost predicate NonePremature(q: Query, us: seq<Utxo>, n: nat) {
    forall j: nat :: j < n && j < |us| ==> !Premature(q, us[j])
  }

  /** The list is cut at the `k`-th output, the first at which the mature sum suffices. */
  ghost predicate CutAt(q: Query, us: seq<Utxo>, k: nat, utxos: seq<Listed>) {
    && Reaches(q, us, k)
    && (forall j: nat :: j < k ==> !Reaches(q, us, j))
    && NonePremature(q, us, k)
    && utxos == Entries(q, us[..k])
  }

  ghost predicate PanicsAt(q: Query, us: seq<Utxo>, j: nat) {
    j < |us| && Premature(q, us[j]) && NonePremature(q, us, j) && NoneReached(q, us, j)
  }

  /**
   How a search ends: for a zero minimum with everything eligible, else with the list up to the
   first output at which the mature sum suffices; with a panic at a premature output met before
   that; with a failure when neither is met.
   */
  ghost predicate Answers(q: Query, us: seq<Utxo>, r: Answer) {
    match r
    case Listing(utxos) =>
      if Needed(q) == 0.0 then NonePremature(q, us, |us|) && utxos == Entries(q, us)
      else exists k: nat :: CutAt(q, us, k, utxos)
    case NegativeConfirmations => exists j: nat :: PanicsAt(q, us, j)
    case Insufficient => Needed(q) != 0.0 && NoneReached(q, us, |us|) && NonePremature(q, us, |us|)
  }

  lemma CutsAgree(q: Query, us: seq<Utxo>, k: nat, a: seq<Listed>, l: nat, b: seq<Listed>)
    requires CutAt(q, us, k, a) && CutAt(q, us, l, b)
    ensures a == b
  {
    assert k == l;
  }

  lemma CutOrPanic(q: Query, us: seq<Utxo>, k: nat, a: seq<Listed>, j: nat)
    requires CutAt(q, us, k, a)
    ensures !PanicsAt(q, us, j)
  {
  }

  /** Every search ends in one way only. */
  lemma AnswersUnique(q: Query, us: seq<Utxo>, r: Answer, o: Answer)
    requires Answers(q, us, r) && Answers(q, us, o)
    ensures r == o
  {
    if Needed(q) != 0.0 {
      forall k: nat, a, j: nat | CutAt(q, us, k, a) ensures !PanicsAt(q, us, j) {
        CutOrPanic(q, us, k, a, j);
      }
      if r.Listing? && o.Listing? {
        var k: nat :| CutAt(q, us, k, r.utxos);
        var l: nat :| CutAt(q, us, l, o.utxos);
        CutsAgree(q, us, k, r.utxos, l, o.utxos);
      }
    }
  }

  /** What looking at output `n` adds to the list and to the sum, and when it ends the search. */
  lemma OneMore(q: Query, us: seq<Utxo>, n: nat)
    requires n < |us|
    ensures Entries(q, us[..n + 1]) == Entries(q, us[..n]) + if Eligible(q, us[n]) then [Entry(q, us[n])] else []
    ensures SafeSum(q, us[..n + 1]) ==
            SafeSum(q, us[..n]) + if Eligible(q, us[n]) && !Immature(q, us[n]) then us[n].satoshis else 0.0
    ensures Reaches(q, us, n + 1) <==>
            Needed(q) != 0.0 && Eligible(q, us[n]) && SafeSum(q, us[..n + 1]) >= Needed(q)
  {
    assert us[..n + 1] == us[..n] + [us[n]];
    assert us[..n + 1][..n] == us[..n];
    EntriesSnoc(q, us[..n], us[n]);
  }

  /** The filters one output goes through; None when it is skipped. */
  method Examine(u: Utxo, q: Query) returns (entry: Option<Listed>)
    ensures entry == if Eligible(q, u) then Some(Entry(q, u)) else None
    // in plain terms: which outputs are listed, and what is said of them
    ensures entry.Some? <==>
            || q.types == [] || q.types[0] == ALL
            || (GetType(u.script) in q.types
                && (u.isStake && q.blockCount <= u.height + q.matureHeight ==> IMMATURE in q.types))
    ensures entry.Some? ==>
            && entry.value.txid == u.txid && entry.value.vout == u.vout
            && entry.value.amount * 100000000.0 == u.satoshis
            && (entry.value.safe <==> !(u.isStake && q.blockCount <= u.height + q.matureHeight))
            && entry.value.height == u.height && entry.value.confirmations + u.height == q.blockCount
            && entry.value.scriptType == GetType(u.script)
  {
    var utxoType := GetType(u.script);
    var safe := true;
    if !AllTypes(q) && utxoType !in q.types {
      return None;
    }
    if u.isStake && q.blockCount <= u.height + q.matureHeight {
      safe := false;
      if !AllTypes(q) && IMMATURE !in q.types {
        return None;
      }
    }
    return Some(Listed(u.txid, u.vout, u.satoshis / 100000000.0, safe, q.blockCount - u.height, u.height, utxoType));
  }

  /** The loop's state after `n` outputs. */
  ghost predicate Searching(q: Query, us: seq<Utxo>, n: nat, listed: seq<Listed>, sum: real) {
    && n <= |us|
    && listed == Entries(q, us[..n])
    && sum == SafeSum(q, us[..n])
    && NoneReached(q, us, n)
    && NonePremature(q, us, n)
  }

  /** The loop's body on one output; Some when it ends the search. */
  method ListOne(us: seq<Utxo>, q: Query, n: nat, listed: seq<Listed>, sum: real)
    returns (listed': seq<Listed>, sum': real, r: Option<Answer>)
    requires n < |us| && Searching(q, us, n, listed, sum)
    ensures r.Some? ==> Answers(q, us, r.value)
    ensures r.None? ==> Searching(q, us, n + 1, listed', sum')
  {
    OneMore(q, us, n);
    listed', sum', r := listed, sum, None;
    var entry := Examine(us[n], q);
    if entry.Some? {
      if entry.value.confirmations < 0 {
        assert PanicsAt(q, us, n);
        return listed', sum', Some(NegativeConfirmations);
      }
      if entry.value.safe {
        sum' := sum + us[n].satoshis;
      }
      listed' := listed + [entry.value];
      if Needed(q) != 0.0 && sum' >= Needed(q) {
        assert CutAt(q, us, n + 1, listed');
        r := Some(Listing(listed'));
      }
    }
  }

  method ListUtxos(us: seq<Utxo>, q: Query) returns (r: Answer)
    ensures Answers(q, us, r)
  {
    var utxos: seq<Listed> := [];
    var minUTXOsSum := 0.0;
    for n := 0 to |us|
      invariant Searching(q, us, n, utxos, minUTXOsSum)
    {
      var ended: Option<Answer>;
      utxos, minUTXOsSum, ended := ListOne(us, q, n, utxos, minUTXOsSum);
      if ended.Some? {
        return ended.value;
      }
    }
    assert us[..|us|] == us;
    return if Needed(q) == 0.0 then Listing(utxos) else Insufficient;
  }

  /** A listing holds no output from above the node's height, and a panic shows that a wanted one is. */
  lemma ConfirmationsAreNatural(q: Query, us: seq<Utxo>, r: Answer)
    requires Answers(q, us, r)
    ensures r.Listing? ==> forall e :: e in r.utxos ==> e.confirmations >= 0
    ensures r.NegativeConfirmations? ==> exists u :: u in us && Eligible(q, u) && u.height > q.blockCount
  {
    if r.Listing? && Needed(q) == 0.0 {
      assert us[..|us|] == us;
      ListedAreNatural(q, us, |us|);
    } else if r.Listing? {
      var k: nat :| CutAt(q, us, k, r.utxos);
      ListedAreNatural(q, us, k);
    } else if r.NegativeConfirmations? {
      var j: nat :| PanicsAt(q, us, j);
      assert us[j] in us;
    }
  }

  lemma ListedAreNatural(q: Query, us: seq<Utxo>, k: nat)
    requires k <= |us| && NonePremature(q, us, k)
    ensures forall e :: e in Entries(q, us[..k]) ==> e.confirmations >= 0
  {
    var eligible := Keep((u: Utxo) => Eligible(q, u), us[..k]);
    forall i | 0 <= i < |eligible| ensures Entry(q, eligible[i]).confirmations >= 0 {
      assert eligible[i] in eligible;
      var j :| 0 <= j < k && us[..k][j] == eligible[i];
      assert !Premature(q, us[j]);
    }
  }

  // ----- what a listing is worth

  /** What the mature entries of a list are worth, in REVO. */
  function Worth(listed: seq<Listed>): real {
    if listed == [] then 0.0
    else Worth(listed[..|listed| - 1]) + if listed[|listed| - 1].safe then listed[|listed| - 1].amount else 0.0
  }

  lemma {:induction false} WorthIsSafeSum(q: Query, us: seq<Utxo>)
    ensures Worth(Entries(q, us)) * 100000000.0 == SafeSum(q, us)
  {
    if us != [] {
      var n := |us| - 1;
      assert us[..n + 1] == us;
      WorthIsSafeSum(q, us[..n]);
      OneMore(q, us, n);
      var before, all := Entries(q, us[..n]), Entries(q, us);
      if Eligible(q, us[n]) {
        assert all[..|all| - 1] == before && all[|all| - 1] == Entry(q, us[n]);
      } else {
        assert all == before;
      }
    }
  }

  /** A non-empty beginning of a list is the list up to some eligible output. */
  lemma {:induction false} BeginningIsListed(q: Query, us: seq<Utxo>, m: nat) returns (j: nat)
    requires 0 < m <= |Entries(q, us)|
    ensures 0 < j <= |us| && Eligible(q, us[j - 1]) && Entries(q, us[..j]) == Entries(q, us)[..m]
    ensures m < |Entries(q, us)| ==> j < |us|
  {
    var n := |us| - 1;
    assert us[..n + 1] == us;
    OneMore(q, us, n);
    if m <= |Entries(q, us[..n])| {
      j := BeginningIsListed(q, us[..n], m);
      assert us[..n][..j] == us[..j] && us[..n][j - 1] == us[j - 1];
    } else {
      j := |us|;
    }
  }

  /**
   A listing for a minimum is worth at least the minimum, in REVO and counting mature outputs only,
   and no shorter one is: every beginning of the list is worth less.
   */
  lemma ListingIsShortest(q: Query, us: seq<Utxo>, listed: seq<Listed>)
    requires Answers(q, us, Listing(listed)) && q.minSum != 0.0
    ensures listed != [] && Worth(listed) >= q.minSum
    ensures forall m :: 0 < m < |listed| ==> Worth(listed[..m]) < q.minSum
  {
    var k: nat :| CutAt(q, us, k, listed);
    CutIsWorthIt(q, us, k, listed);
    forall m | 0 < m < |listed| ensures Worth(listed[..m]) < q.minSum {
      ShorterIsNot(q, us, k, listed, m);
    }
  }

  lemma CutIsWorthIt(q: Query, us: seq<Utxo>, k: nat, listed: seq<Listed>)
    requires CutAt(q, us, k, listed)
    ensures listed != [] && Worth(listed) >= q.minSum
  {
    WorthIsSafeSum(q, us[..k]);
    OneMore(q, us, k - 1);
  }

  lemma ShorterIsNot(q: Query, us: seq<Utxo>, k: nat, listed: seq<Listed>, m: nat)
    requires CutAt(q, us, k, listed) && 0 < m < |listed|
    ensures Worth(listed[..m]) < q.minSum
  {
    var j := BeginningIsListed(q, us[..k], m);
    assert us[..k][..j] == us[..j] && us[..k][j - 1] == us[j - 1];
    WorthIsSafeSum(q, us[..j]);
    assert !Reaches(q, us, j);
  }

  // ----- when the amount can be reached

  lemma {:induction false} SafeSumGrows(q: Query, us: seq<Utxo>, k: nat)
    requires k <= |us| && forall i :: 0 <= i < |us| ==> us[i].satoshis >= 0.0
    ensures SafeSum(q, us[..k]) <= SafeSum(q, us)
  {
    if k < |us| {
      SafeSumGrows(q, us[..|us| - 1], k);
      assert us[..|us| - 1][..k] == us[..k];
    } else {
      assert us[..k] == us;
    }
  }

  /** A prefix worth the positive minimum can be cut at an eligible output. */
  lemma {:induction false} CutExists(q: Query, us: seq<Utxo>)
    requires Needed(q) > 0.0 && SafeSum(q, us) >= Needed(q)
    ensures exists k: nat :: Reaches(q, us, k)
  {
    var init := us[..|us| - 1];
    if SafeSum(q, init) >= Needed(q) {
      CutExists(q, init);
      var k: nat :| Reaches(q, init, k);
      assert init[..k] == us[..k];
      assert Reaches(q, us, k);
    } else {
      assert us[..|us|] == us;
      assert Reaches(q, us, |us|);
    }
  }

  /** With non-negative amounts a positive minimum is out of reach exactly when the mature total is below it. */
  lemma ReachableIffTotalSuffices(q: Query, us: seq<Utxo>)
    requires Needed(q) > 0.0 && forall i :: 0 <= i < |us| ==> us[i].satoshis >= 0.0
    ensures (exists k: nat :: Reaches(q, us, k)) <==> SafeSum(q, us) >= Needed(q)
  {
    if k: nat :| Reaches(q, us, k) {
      SafeSumGrows(q, us, k);
    }
    if SafeSum(q, us) >= Needed(q) {
      CutExists(q, us);
    }
  }

  /**
   A type list can select some output exactly when it names one of the six types that occur:
   asking for immature outputs alone, or for nested ones, selects nothing from any address.
   */
  lemma SelectiveIff(q: Query)
    requires !AllTypes(q)
    ensures (exists u: Utxo :: Eligible(q, u)) <==> exists t :: t in q.types && t in RECOGNISED
  {
    if u: Utxo :| Eligible(q, u) {
      OnlySixTypesOccur(u.script);
    }
    if t :| t in q.types && t in RECOGNISED {
      SamplesHaveTheirType(t);
      assert Eligible(q, Utxo("", 0, 0.0, 0, false, Sample(t)));
    }
  }

  // ----- the request's parameters

  function TypeNamed(name: string): Option<ScriptType> {
    match Lower(name)
    case "all" => Some(ALL)
    case "unknown" => Some(UNKNOWN)
    case "opreturn" => Some(OPRETURN)
    case "immature" => Some(IMMATURE)
    case "p2pk" => Some(P2PK)
    case "p2pkh" => Some(P2PKH)
    case "p2sh" => Some(P2SH)
    case "p2wpkh" => Some(P2WPKH)
    case "p2wsh" => Some(P2WSH)
    case "p2shp2wpkh" => Some(P2SHP2WPKH)
    case "p2shp2wsh" => Some(P2SHP2WSH)
    case "p2ms" => Some(P2MS)
    case _ => None
  }

  /** The name as the type prints. */
  function Printed(t: ScriptType): string {
    match t
    case ALL => "all"
    case UNKNOWN => "unknown"
    case OPRETURN => "opreturn"
    case IMMATURE => "immature"
    case P2PK => "P2PK"
    case P2PKH => "P2PKH"
    case P2SH => "P2SH"
    case P2WPKH => "P2WPKH"
    case P2WSH => "P2WSH"
    case P2SHP2WPKH => "P2SHP2WPKH"
    case P2SHP2WSH => "P2SHP2WSH"
    case P2MS => "P2MS"
  }

  lemma WordIsRead(t: ScriptType)
    requires t in {ALL, UNKNOWN, OPRETURN, IMMATURE}
    ensures TypeNamed(Printed(t)) == Some(t)
  {
    match t {
      case ALL => assert Lower("all") == "all";
      case UNKNOWN => assert Lower("unknown") == "unknown";
      case OPRETURN => assert Lower("opreturn") == "opreturn";
      case IMMATURE => assert Lower("immature") == "immature";
    }
  }

  lemma PayToIsRead(t: ScriptType)
    requires t in {P2PK, P2PKH, P2SH, P2WPKH}
    ensures TypeNamed(Printed(t)) == Some(t)
  {
    match t {
      case P2PK => assert Lower("P2PK") == "p2pk";
      case P2PKH => assert Lower("P2PKH") == "p2pkh";
      case P2SH => assert Lower("P2SH") == "p2sh";
      case P2WPKH => assert Lower("P2WPKH") == "p2wpkh";
    }
  }

  lemma PrintedIsRead(t: ScriptType)
    ensures TypeNamed(Printed(t)) == Some(t)
  {
    match t {
      case P2WSH => assert Lower("P2WSH") == "p2wsh";
      case P2SHP2WPKH => assert Lower("P2SHP2WPKH") == "p2shp2wpkh";
      case P2SHP2WSH => assert Lower("P2SHP2WSH") == "p2shp2wsh";
      case P2MS => assert Lower("P2MS") == "p2ms";
      case _ => if t in {P2PK, P2PKH, P2SH, P2WPKH} { PayToIsRead(t); } else { WordIsRead(t); }
    }
  }

  /** Only the letters count, not their case, and different letters name different types. */
  lemma SameTypeSameLetters(a: string, b: string)
    ensures Lower(a) == Lower(b) ==> TypeNamed(a) == TypeNamed(b)
    ensures TypeNamed(a).Some? && TypeNamed(a) == TypeNamed(b) ==> Lower(a) == Lower(b)
  {
  }

  /** A name is read as the type that prints so, up to letter case, and as none if no type does. */
  lemma TypeNamedIff(name: string, t: ScriptType)
    ensures TypeNamed(name) == Some(t) <==> Lower(name) == Lower(Printed(t))
  {
    PrintedIsRead(t);
    SameTypeSameLetters(name, Printed(t));
  }

  /** The recognised types among some parameters, in their order; the others are passed over. */
  function TypesNamed(names: seq<string>): seq<ScriptType> {
    if names == [] then []
    else TypesNamed(names[..|names| - 1]) +
         match TypeNamed(names[|names| - 1])
         case None => []
         case Some(t) => [t]
  }

  /** Where the types start: after the amount, or in its place when it is the name of a type. */
  function TypeNames(parameters: seq<string>, number: string -> Option<real>): seq<string>
    requires |parameters| >= 2
  {
    if number(parameters[1]).None? && TypeNamed(parameters[1]).Some? then parameters[1..] else parameters[2..]
  }

  datatype Request = Request(address: string, minSum: real, types: seq<ScriptType>)

  function Named(parameters: seq<string>, number: string -> Option<real>): seq<ScriptType>
    requires |parameters| >= 2
  {
    TypesNamed(TypeNames(parameters, number))
  }

  /** The request some parameters stand for: None when they are rejected. */
  function Requested(parameters: seq<string>, number: string -> Option<real>): Option<Request> {
    if parameters == [] then None
    else if |parameters| == 1 then Some(Request(parameters[0], 0.0, [ALL]))
    else if number(parameters[1]).None? && TypeNamed(parameters[1]).None? then None
    else
      var named := Named(parameters, number);
      if |parameters| > 3 && named == [] then None
      else Some(Request(parameters[0],
                        if number(parameters[1]).Some? then number(parameters[1]).value else 0.0,
                        if ALL in named then [ALL] else named))
  }

  lemma TypesNamedNext(names: seq<string>, i: nat)
    requires i < |names|
    ensures TypesNamed(names[..i + 1]) ==
            TypesNamed(names[..i]) + if TypeNamed(names[i]).Some? then [TypeNamed(names[i]).value] else []
  {
    assert names[..i + 1][..i] == names[..i];
  }

  /** The loop over the parameters that may be types. */
  method CollectTypes(parameters: seq<string>, typesStartAt: nat) returns (types: seq<ScriptType>, allTypes: bool)
    requires typesStartAt <= |parameters|
    ensures types == TypesNamed(parameters[typesStartAt..])
    ensures allTypes <==> ALL in types
  {
    types, allTypes := [], false;
    ghost var names := parameters[typesStartAt..];
    for i := typesStartAt to |parameters|
      invariant types == TypesNamed(names[..i - typesStartAt])
      invariant allTypes <==> ALL in types
    {
      TypesNamedNext(names, i - typesStartAt);
      var typ := TypeNamed(parameters[i]);
      if typ.Some? {
        if typ.value == ALL {
          allTypes := true;
        }
        types := types + [typ.value];
      }
    }
    assert names[..|parameters| - typesStartAt] == names;
  }

  /** `GetUTXOsRequest.UnmarshalJSON` on decoded strings; `number` is the decimal parser. */
  method ParseRequest(parameters: seq<string>, number: string -> Option<real>) returns (r: Option<Request>)
    ensures r == Requested(parameters, number)
    ensures r.Some? ==> r.value.address == parameters[0]
    ensures r.Some? ==> r.value.minSum == if |parameters| >= 2 && number(parameters[1]).Some?
                                          then number(parameters[1]).value else 0.0
  {
    if |parameters| < 1 {
      return None;
    }
    var typesStartAt := 2;
    var minSum := 0.0;
    var types: seq<ScriptType> := [];
    var allTypes := false;
    if |parameters| >= 2 {
      if number(parameters[1]).Some? {
        minSum := number(parameters[1]).value;
      } else if TypeNamed(parameters[1]).Some? {
        typesStartAt := 1;
      } else {
        return None;
      }
      types, allTypes := CollectTypes(parameters, typesStartAt);
    } else {
      allTypes := true;
    }
    if allTypes {
      types := [ALL];
    }
    if |parameters| > 3 && |types| == 0 {
      return None;
    }
    return Some(Request(parameters[0], minSum, types));
  }

  lemma {:induction false} NamedIff(names: seq<string>, t: ScriptType)
    ensures t in TypesNamed(names) <==> exists i :: 0 <= i < |names| && TypeNamed(names[i]) == Some(t)
  {
    if names != [] {
      NamedIff(names[..|names| - 1], t);
      assert names == names[..|names| - 1] + [names[|names| - 1]];
    }
  }

  /** Parameter `i` names type `t`, at a place for types: after the amount, or in its place. */
  ghost predicate NamesAt(parameters: seq<string>, number: string -> Option<real>, t: ScriptType, i: nat) {
    && 1 <= i < |parameters|
    && (i == 1 ==> number(parameters[1]).None?)
    && Lower(parameters[i]) == Lower(Printed(t))
  }

  lemma TypesStart(parameters: seq<string>, number: string -> Option<real>)
    requires |parameters| >= 2 && Requested(parameters, number).Some?
    ensures TypeNames(parameters, number) == parameters[if number(parameters[1]).None? then 1 else 2..]
  {
  }

  lemma NamedIn(names: seq<string>, t: ScriptType)
    ensures t in TypesNamed(names) <==> exists k: nat :: k < |names| && Lower(names[k]) == Lower(Printed(t))
  {
    NamedIff(names, t);
    if k: nat :| k < |names| && TypeNamed(names[k]) == Some(t) {
      TypeNamedIff(names[k], t);
    }
    if k: nat :| k < |names| && Lower(names[k]) == Lower(Printed(t)) {
      TypeNamedIff(names[k], t);
    }
  }

  lemma PlacesMatch(parameters: seq<string>, number: string -> Option<real>, t: ScriptType, start: nat)
    requires |parameters| >= 2 && start == if number(parameters[1]).None? then 1 else 2
    ensures (exists k: nat :: k < |parameters[start..]| && Lower(parameters[start..][k]) == Lower(Printed(t)))
       <==> exists i: nat :: NamesAt(parameters, number, t, i)
  {
    var names := parameters[start..];
    if k: nat :| k < |names| && Lower(names[k]) == Lower(Printed(t)) {
      assert NamesAt(parameters, number, t, start + k);
    }
    if i: nat :| NamesAt(parameters, number, t, i) {
      assert names[i - start] == parameters[i];
    }
  }

  lemma NamedWhere(parameters: seq<string>, number: string -> Option<real>, t: ScriptType)
    requires |parameters| >= 2 && Requested(parameters, number).Some?
    ensures t in Named(parameters, number) <==> exists i: nat :: NamesAt(parameters, number, t, i)
  {
    var start := if number(parameters[1]).None? then 1 else 2;
    TypesStart(parameters, number);
    NamedIn(parameters[start..], t);
    PlacesMatch(parameters, number, t, start);
  }

  /** The types a request asks for, in the parameters' own terms: all of them, or those that are named. */
  lemma RequestedTypes(parameters: seq<string>, number: string -> Option<real>, t: ScriptType)
    requires |parameters| >= 2 && Requested(parameters, number).Some?
    ensures var types := Requested(parameters, number).value.types;
      if exists i: nat :: NamesAt(parameters, number, ALL, i) then types == [ALL]
      else t in types <==> exists i: nat :: NamesAt(parameters, number, t, i)
  {
    NamedWhere(parameters, number, ALL);
    NamedWhere(parameters, number, t);
  }

  /** Type `t` is named where types may be named. */
  ghost predicate Names(parameters: seq<string>, number: string -> Option<real>, t: ScriptType)
    requires |parameters| >= 2
  {
    exists name :: name in TypeNames(parameters, number) && TypeNamed(name) == Some(t)
  }

  lemma NamesIff(parameters: seq<string>, number: string -> Option<real>, t: ScriptType)
    requires |parameters| >= 2
    ensures Names(parameters, number, t) <==> t in Named(parameters, number)
  {
    NamedIff(TypeNames(parameters, number), t);
  }

  /** An immature stake of each type shows which types a list must have. */
  lemma EverythingEligibleIff(q: Query)
    ensures (forall u: Utxo :: Eligible(q, u)) <==>
            AllTypes(q) || (forall t :: t in RECOGNISED + {IMMATURE} ==> t in q.types)
  {
    forall u: Utxo ensures GetType(u.script) in RECOGNISED {
      OnlySixTypesOccur(u.script);
    }
    if !AllTypes(q) && forall u: Utxo :: Eligible(q, u) {
      forall t | t in RECOGNISED ensures t in q.types && IMMATURE in q.types {
        SamplesHaveTheirType(t);
        assert Eligible(q, Utxo("", 0, 0.0, q.blockCount - q.matureHeight, true, Sample(t)));
      }
      assert UNKNOWN in RECOGNISED;
    }
  }

  lemma ListsAllTypes(parameters: seq<string>, number: string -> Option<real>, q: Query)
    requires Requested(parameters, number).Some? && q.types == Requested(parameters, number).value.types
    ensures |parameters| == 1 ==> AllTypes(q)
    ensures |parameters| > 1 ==>
              (AllTypes(q) <==> Named(parameters, number) == [] || ALL in Named(parameters, number))
    ensures |parameters| > 1 && !AllTypes(q) ==>
              forall t :: t != ALL ==> (t in q.types <==> t in Named(parameters, number))
  {
  }

  /**
   When a request lists every output there can be: one parameter, no type recognised (which up to
   three parameters get past the parser), "all" named, or all six types that occur named together
   with the immature outputs.
   */
  lemma AllTypesIff(parameters: seq<string>, number: string -> Option<real>, q: Query)
    requires Requested(parameters, number).Some? && q.types == Requested(parameters, number).value.types
    ensures
      (forall u: Utxo :: Eligible(q, u)) <==>
      || |parameters| == 1
      || (|parameters| <= 3 && forall t :: !Names(parameters, number, t))
      || Names(parameters, number, ALL)
      || (forall t :: t in RECOGNISED + {IMMATURE} ==> Names(parameters, number, t))
  {
    EverythingEligibleIff(q);
    ListsAllTypes(parameters, number, q);
    if |parameters| > 1 {
      forall t ensures Names(parameters, number, t) <==> t in Named(parameters, number) {
        NamesIff(parameters, number, t);
      }
      assert Named(parameters, number) != [] ==> Named(parameters, number)[0] in Named(parameters, number);
    }
  }
}
