/**
 Contract scripts as token lists: the four `Parse*ASM` shapes, the little-endian gas limit, and
 the scan of a transaction's outputs for its contract call or creation.
 */
module Scripts {
  import opened Common

  // ----- the gas limit

  predicate HexDigit(c: char) {
    '0' <= c <= '9' || 'a' <= c <= 'f' || 'A' <= c <= 'F'
  }

  predicate Hex(s: string) {
    forall i :: 0 <= i < |s| ==> HexDigit(s[i])
  }

  function Digit(c: char): nat
    requires HexDigit(c)
  {
    if c <= '9' then c as int - '0' as int
    else if c <= 'F' then c as int - 'A' as int + 10
    else c as int - 'a' as int + 10
  }

  /** The number a hex string denotes, most significant digit first. */
  function BigEndian(s: string): nat
    requires Hex(s)
  {
    if s == [] then 0 else 16 * BigEndian(s[..|s| - 1]) + Digit(s[|s| - 1])
  }

  /** The number a hex string of whole bytes denotes, least significant byte first. */
  function LittleEndian(s: string): nat
    requires Hex(s) && |s| % 2 == 0
  {
    if s == [] then 0 else 256 * LittleEndian(s[2..]) + BigEndian(s[..2])
  }

  function ReverseBytes(s: string): (r: string)
    requires |s| % 2 == 0
    ensures |r| == |s|
  {
    if s == [] then [] else s[|s| - 2..] + ReverseBytes(s[..|s| - 2])
  }

  function TrimZeros(s: string): string {
    if s != [] && s[0] == '0' then TrimZeros(s[1..]) else s
  }

  method ConvertToBigEndian(hex: string) returns (r: Option<string>)
    ensures r == BigEndianGas(hex)
  {
    if |hex| % 2 != 0 {
      return None;
    }
    var result := "";
    var i := |hex|;
    assert hex[..i] == hex;
    while i > 0
      invariant 0 <= i <= |hex| && i % 2 == 0
      invariant ReverseBytes(hex) == result + ReverseBytes(hex[..i])
    {
      assert hex[..i][i - 2..] == hex[i - 2..i] && hex[..i][..i - 2] == hex[..i - 2];
      result := result + hex[i - 2..i];
      i := i - 2;
    }
    assert result == result + ReverseBytes(hex[..0]);
    assert result[0..] == result;
    var start := 0;
    while start < |result| && result[start] == '0'
      invariant 0 <= start <= |result|
      invariant TrimZeros(result) == TrimZeros(result[start..])
    {
      assert result[start..][1..] == result[start + 1..];
      start := start + 1;
    }
    return Some(result[start..]);
  }

  function BigEndianGas(hex: string): Option<string> {
    if |hex| % 2 != 0 then None else Some(TrimZeros(ReverseBytes(hex)))
  }

  lemma ReverseSnoc(s: string, last: string)
    requires |s| % 2 == 0 && |last| == 2
    ensures ReverseBytes(s + last) == last + ReverseBytes(s)
  {
    var t := s + last;
    assert t[|t| - 2..] == last && t[..|t| - 2] == s;
  }

  /** A first byte ends up last: by induction on what lies between it and the last byte. */
  lemma {:induction false} ReverseCons(first: string, s: string)
    requires |s| % 2 == 0 && |first| == 2
    ensures ReverseBytes(first + s) == ReverseBytes(s) + first
  {
    if s == [] {
      assert first + s == [] + first;
      ReverseSnoc([], first);
    } else {
      var init, last := s[..|s| - 2], s[|s| - 2..];
      var r := ReverseBytes(init);
      assert ReverseBytes(s) == last + r;
      calc {
        ReverseBytes(first + s);
        { assert first + s == (first + init) + last; }
        ReverseBytes((first + init) + last);
        { ReverseSnoc(first + init, last); }
        last + ReverseBytes(first + init);
        { ReverseCons(first, init); }
        last + (r + first);
        { Associative(last, r, first); }
        (last + r) + first;
      }
    }
  }

  lemma {:induction false} ReverseHex(s: string)
    requires Hex(s) && |s| % 2 == 0
    ensures Hex(ReverseBytes(s))
  {
    if s != [] {
      ReverseHex(s[..|s| - 2]);
    }
  }

  lemma {:induction false} ReverseBytesValue(s: string)
    requires Hex(s) && |s| % 2 == 0
    ensures Hex(ReverseBytes(s)) && BigEndian(ReverseBytes(s)) == LittleEndian(s)
  {
    ReverseHex(s);
    if s != [] {
      assert s == s[..2] + s[2..];
      ReverseCons(s[..2], s[2..]);
      ReverseBytesValue(s[2..]);
      var r, tail := ReverseBytes(s), ReverseBytes(s[2..]);
      var n := |r|;
      assert r[..n - 1][..n - 2] == tail && r[..n - 1][n - 2] == s[0] && r[n - 1] == s[1];
      assert s[..2][..1][..0] == [] && s[..2][..1][0] == s[0] && s[..2][1] == s[1];
      assert BigEndian(s[..2][..1]) == Digit(s[0]);
      assert BigEndian(s[..2]) == 16 * Digit(s[0]) + Digit(s[1]);
      assert BigEndian(r[..n - 1]) == 16 * BigEndian(tail) + Digit(s[0]);
    }
  }

  lemma {:induction false} LeadingZero(s: string)
    requires Hex(s) && s != [] && s[0] == '0'
    ensures Hex(s[1..]) && BigEndian(s[1..]) == BigEndian(s)
  {
    if |s| > 1 {
      LeadingZero(s[..|s| - 1]);
      assert s[1..][..|s| - 2] == s[..|s| - 1][1..];
    } else {
      assert BigEndian(s[..0]) == 0;
    }
  }

  lemma {:induction false} TrimZerosValue(s: string)
    requires Hex(s)
    ensures Hex(TrimZeros(s)) && BigEndian(TrimZeros(s)) == BigEndian(s)
    ensures TrimZeros(s) != [] ==> TrimZeros(s)[0] != '0'
  {
    if s != [] && s[0] == '0' {
      LeadingZero(s);
      TrimZerosValue(s[1..]);
    }
  }

  lemma {:induction false} NonZeroLead(s: string)
    requires Hex(s) && s != [] && s[0] != '0'
    ensures BigEndian(s) > 0
  {
    if |s| > 1 {
      NonZeroLead(s[..|s| - 1]);
    }
  }

  /**
   On whole bytes of hex: the result denotes the number the input denotes little-endian, has no
   leading zero, and is empty exactly for zero.
   */
  lemma GasLimitIsConverted(hex: string)
    requires Hex(hex) && |hex| % 2 == 0
    ensures var r := BigEndianGas(hex);
      && r.Some? && Hex(r.value) && BigEndian(r.value) == LittleEndian(hex)
      && (r.value != [] ==> r.value[0] != '0')
      && (r.value == [] <==> LittleEndian(hex) == 0)
  {
    ReverseBytesValue(hex);
    TrimZerosValue(ReverseBytes(hex));
    var r := TrimZeros(ReverseBytes(hex));
    if r != [] {
      NonZeroLead(r);
    }
  }

  lemma SameDigitSameLower(a: char, b: char)
    requires HexDigit(a) && HexDigit(b) && Digit(a) == Digit(b)
    ensures LowerChar(a) == LowerChar(b)
  {
  }

  /** The converted form is determined by the number: equal values give strings equal up to case. */
  lemma {:induction false} SameValueSameDigits(a: string, b: string)
    requires Hex(a) && Hex(b) && BigEndian(a) == BigEndian(b)
    requires (a != [] ==> a[0] != '0') && (b != [] ==> b[0] != '0')
    ensures Lower(a) == Lower(b)
  {
    if a == [] || b == [] {
      if a != [] { NonZeroLead(a); }
      if b != [] { NonZeroLead(b); }
    } else {
      var a', b' := a[..|a| - 1], b[..|b| - 1];
      assert Digit(a[|a| - 1]) == Digit(b[|b| - 1]) && BigEndian(a') == BigEndian(b');
      SameValueSameDigits(a', b');
      SameDigitSameLower(a[|a| - 1], b[|b| - 1]);
      assert Lower(a) == Lower(a') + [LowerChar(a[|a| - 1])];
      assert Lower(b) == Lower(b') + [LowerChar(b[|b| - 1])];
    }
  }

  // ----- the four shapes

  datatype Info = Info(from: string, gasLimit: string, gasPrice: string, callData: string, to: string)

  function WithGas(gas: string, info: Info): Option<Info> {
    var limit := BigEndianGas(gas);
    if limit.None? then None else Some(info.(gasLimit := limit.value))
  }

  function ParseCallASM(parts: seq<string>): Option<Info> {
    if |parts| != 6 then None
    else WithGas(parts[1], Info("", "", parts[2], parts[3], parts[4]))
  }

  function ParseCallSenderASM(parts: seq<string>): Option<Info> {
    if |parts| != 10 then None
    else WithGas(parts[5], Info(parts[1], "", parts[6], parts[7], parts[8]))
  }

  function ParseCreateASM(parts: seq<string>): Option<Info> {
    if |parts| != 5 then None
    else WithGas(parts[1], Info("", "", parts[2], parts[3], ""))
  }

  function ParseCreateSenderASM(parts: seq<string>): Option<Info> {
    if |parts| != 9 then None
    else WithGas(parts[5], Info(parts[1], "", parts[6], parts[7], ""))
  }

  function ParseCall(parts: seq<string>): Option<Info> {
    if ParseCallSenderASM(parts).Some? then ParseCallSenderASM(parts) else ParseCallASM(parts)
  }

  function ParseCreate(parts: seq<string>): Option<Info> {
    if ParseCreateSenderASM(parts).Some? then ParseCreateSenderASM(parts) else ParseCreateASM(parts)
  }

  // ----- writing a script

  datatype Sender = Anonymous | By(kind: string, address: string, signature: string)

  datatype Action = Call(to: string) | Create

  /** A call or creation; `gasLimit` is in the script's byte order. */
  datatype Contract = Contract(sender: Sender, version: string, gasLimit: string, gasPrice: string, data: string,
                               action: Action)

  function Write(c: Contract): seq<string> {
    (match c.sender
     case Anonymous => []
     case By(kind, address, signature) => [kind, address, signature, "OP_SENDER"])
    + [c.version, c.gasLimit, c.gasPrice, c.data]
    + (match c.action
       case Call(to) => [to, "OP_CALL"]
       case Create => ["OP_CREATE"])
  }

  function FinalOp(tokens: seq<string>): string {
    if tokens == [] then "" else tokens[|tokens| - 1]
  }

  /** What the scan makes of one script: not a contract's, a contract's, or an error. */
  datatype Reading = Other | Bad | Found(info: Info)

  function Read(tokens: seq<string>): Reading {
    if FinalOp(tokens) == "OP_CALL" then
      var i := ParseCall(tokens); if i.None? then Bad else Found(i.value)
    else if FinalOp(tokens) == "OP_CREATE" then
      var i := ParseCreate(tokens); if i.None? then Bad else Found(i.value)
    else if FinalOp(tokens) == "OP_SPEND" then Bad
    else Other
  }

  function Expected(c: Contract): Info
    requires |c.gasLimit| % 2 == 0
  {
    Info(if c.sender.By? then c.sender.address else "", BigEndianGas(c.gasLimit).value, c.gasPrice, c.data,
         if c.action.Call? then c.action.to else "")
  }

  /**
   Reading what was written recovers every field, the gas limit byte-reversed and trimmed, and
   fails exactly when the gas limit is not made of whole bytes.
   */
  lemma ReadWrite(c: Contract)
    ensures if |c.gasLimit| % 2 == 0 then Read(Write(c)) == Found(Expected(c)) else Read(Write(c)) == Bad
    ensures |c.gasLimit| % 2 == 0 ==>
              var info := Read(Write(c)).info;
              && info.from == (if c.sender.By? then c.sender.address else "")
              && info.to == (if c.action.Call? then c.action.to else "")
              && info.gasPrice == c.gasPrice && info.callData == c.data
              && Some(info.gasLimit) == BigEndianGas(c.gasLimit)
  {
    var w := Write(c);
    assert |w| == (if c.sender.By? then 4 else 0) + 4 + if c.action.Call? then 2 else 1;
  }

  /** No token list is the script of two different contracts, of the same or of different shapes. */
  lemma WriteIsInjective(c: Contract, d: Contract)
    requires Write(c) == Write(d)
    ensures c == d
  {
    WriteTokens(c);
    WriteTokens(d);
  }

  lemma WriteTokens(c: Contract)
    ensures var w := Write(c);
            var k := if c.sender.By? then 4 else 0;
      && |w| == k + 4 + (if c.action.Call? then 2 else 1)
      && (c.sender.By? ==> w[0] == c.sender.kind && w[1] == c.sender.address && w[2] == c.sender.signature)
      && w[k] == c.version && w[k + 1] == c.gasLimit && w[k + 2] == c.gasPrice && w[k + 3] == c.data
      && (c.action.Call? ==> w[k + 4] == c.action.to)
      && FinalOp(w) == if c.action.Call? then "OP_CALL" else "OP_CREATE"
  {
  }

  /** The same tokens, but for the fourth of a script with a sender, which is not looked at. */
  ghost predicate SameBesideSender(tokens: seq<string>, w: seq<string>) {
    |tokens| == |w| && forall i :: 0 <= i < |w| && (|w| < 9 || i != 3) ==> tokens[i] == w[i]
  }

  /** The contract whose script some tokens are, by their number and last token. */
  function Written(tokens: seq<string>): Contract
    requires |tokens| == 5 || |tokens| == 6 || |tokens| == 9 || |tokens| == 10
  {
    var k := if |tokens| >= 9 then 4 else 0;
    Contract(if |tokens| >= 9 then By(tokens[0], tokens[1], tokens[2]) else Anonymous,
             tokens[k], tokens[k + 1], tokens[k + 2], tokens[k + 3],
             if |tokens| == k + 6 then Call(tokens[k + 4]) else Create)
  }

  lemma ReadAsWritten(tokens: seq<string>, c: Contract)
    requires SameBesideSender(tokens, Write(c))
    ensures Read(tokens) == Read(Write(c))
  {
    WriteTokens(c);
  }

  /**
   Conversely a script is read as a contract's exactly if, the fourth token of a script with a sender
   aside, it is the script of a contract whose gas limit is whole bytes; and then that contract's
   fields are what is read.
   */
  lemma FoundIffWritten(tokens: seq<string>)
    ensures Read(tokens).Found? <==> exists c: Contract :: |c.gasLimit| % 2 == 0 && SameBesideSender(tokens, Write(c))
    ensures forall c: Contract :: |c.gasLimit| % 2 == 0 && SameBesideSender(tokens, Write(c)) ==>
              Read(tokens) == Found(Expected(c))
  {
    forall c | SameBesideSender(tokens, Write(c))
      ensures |c.gasLimit| % 2 == 0 ==> Read(tokens) == Found(Expected(c))
    {
      ReadAsWritten(tokens, c);
      ReadWrite(c);
    }
    if Read(tokens).Found? {
      var c := Written(tokens);
      WriteTokens(c);
      assert SameBesideSender(tokens, Write(c));
    }
  }

  // ----- the scan of a transaction's outputs

  datatype Extract = NoContract | Contracts(info: Info) | Error | Duplicate

  /** An output's script as tokens; None when it cannot be disassembled. */
  type Script = Option<seq<string>>

  predicate Decisive(s: Script) {
    s.None? || Read(s.value) != Other
  }

  function Verdict(s: Script): Extract {
    if s.None? then Error
    else match Read(s.value)
      case Other => NoContract
      case Bad => Error
      case Found(info) => Contracts(info)
  }

  /** An output that has nothing to do with contracts. */
  predicate Plain(s: Script) {
    s.Some? && FinalOp(s.value) !in {"OP_CALL", "OP_CREATE", "OP_SPEND"}
  }

  lemma DecisiveIff(s: Script)
    ensures Decisive(s) <==> !Plain(s)
    ensures s.None? || FinalOp(s.value) == "OP_SPEND" ==> Verdict(s) == Error
  {
  }

  lemma VerdictOnWritten(tokens: seq<string>, c: Contract)
    requires SameBesideSender(tokens, Write(c))
    ensures Verdict(Some(tokens)) == if |c.gasLimit| % 2 == 0 then Contracts(Expected(c)) else Error
  {
    ReadAsWritten(tokens, c);
    ReadWrite(c);
  }

  /** What the first decisive output makes of a transaction. */
  ghost predicate Decided(vouts: seq<Script>, r: Extract) {
    && (r == NoContract <==> forall i :: 0 <= i < |vouts| ==> !Decisive(vouts[i]))
    && (forall k :: 0 <= k < |vouts| && Decisive(vouts[k]) && (forall i :: 0 <= i < k ==> !Decisive(vouts[i]))
          ==> r == Verdict(vouts[k]))
    && r != Duplicate
  }

  /**
   In plain terms: with none but plain outputs there is no contract, and otherwise the first that is
   not plain decides: one that cannot be disassembled or is a spend is an error, and a contract's
   script is that contract, or an error if its gas limit is not whole bytes.
   */
  lemma FirstDecides(vouts: seq<Script>, r: Extract, k: nat)
    requires Decided(vouts, r)
    ensures r == NoContract <==> forall i :: 0 <= i < |vouts| ==> Plain(vouts[i])
    ensures k < |vouts| && !Plain(vouts[k]) && (forall i :: 0 <= i < k ==> Plain(vouts[i])) ==>
              && (vouts[k].None? || FinalOp(vouts[k].value) == "OP_SPEND" ==> r == Error)
              && forall c: Contract :: vouts[k].Some? && SameBesideSender(vouts[k].value, Write(c)) ==>
                   r == if |c.gasLimit| % 2 == 0 then Contracts(Expected(c)) else Error
  {
    forall i | 0 <= i < |vouts| ensures Decisive(vouts[i]) <==> !Plain(vouts[i]) {
      DecisiveIff(vouts[i]);
    }
    if k < |vouts| && !Plain(vouts[k]) && forall i :: 0 <= i < k ==> Plain(vouts[i]) {
      DecisiveIff(vouts[k]);
      assert r == Verdict(vouts[k]);
      forall c: Contract | vouts[k].Some? && SameBesideSender(vouts[k].value, Write(c))
        ensures r == if |c.gasLimit| % 2 == 0 then Contracts(Expected(c)) else Error
      {
        VerdictOnWritten(vouts[k].value, c);
      }
    }
  }

  /** The first output that is a contract's, or an error, decides alone; a duplicate is never seen. */
  method ExtractContractInfo(vouts: seq<Script>) returns (r: Extract)
    ensures Decided(vouts, r)
  {
    var info, found := Info("", "", "", "", ""), false;
    for n := 0 to |vouts|
      invariant !found
      invariant forall i :: 0 <= i < n ==> !Decisive(vouts[i])
    {
      if vouts[n].None? {
        return Error;
      }
      var script := vouts[n].value;
      var finalOp := FinalOp(script);
      if finalOp == "OP_CALL" {
        if found {
          return Duplicate;
        }
        var callInfo := ParseCallSenderASM(script);
        if callInfo.None? {
          callInfo := ParseCallASM(script);
          if callInfo.None? {
            return Error;
          }
        }
        info, found := callInfo.value, true;
        return Contracts(info);
      } else if finalOp == "OP_CREATE" {
        if found {
          return Duplicate;
        }
        var createInfo := ParseCreateSenderASM(script);
        if createInfo.None? {
          createInfo := ParseCreateASM(script);
          if createInfo.None? {
            return Error;
          }
        }
        info, found := createInfo.value, true;
        return Contracts(info);
      } else if finalOp == "OP_SPEND" {
        return Error;
      }
    }
    if found {
      return Contracts(info);
    }
    return NoContract;
  }
}
