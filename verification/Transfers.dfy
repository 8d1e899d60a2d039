/**
 The accounting behind a plain or reward transaction's `to` and `value`: one pass over the
 outputs, in 64-bit signed arithmetic, then a conversion to wei cut to 64 bits.
 */
module Transfers {
  const TWO_63 := 0x8000_0000_0000_0000
  const TWO_64 := 0x1_0000_0000_0000_0000

  type Int64 = x: int | -TWO_63 <= x < TWO_63

  /** Two's-complement truncation, which Go's int64 addition and subtraction apply. */
  function Wrap(x: int): (r: Int64)
    ensures -TWO_63 <= x < TWO_63 ==> r == x
  {
    (x + TWO_63) % TWO_64 - TWO_63
  }

  /** How often 2^64 was taken off. */
  function Carry(x: int): int {
    (x + TWO_63) / TWO_64
  }

  lemma WrapIsRemainder(x: int)
    ensures x == Wrap(x) + Carry(x) * TWO_64
  {
  }

  lemma WrapIs(x: int, r: Int64, k: int)
    requires x == r + k * TWO_64
    ensures Wrap(x) == r
  {
    assert x + TWO_63 == (r + TWO_63) + k * TWO_64;
  }

  lemma WrapAdds(x: int, y: int)
    ensures Wrap(Wrap(x) + y) == Wrap(x + y) == Wrap(x + Wrap(y))
  {
    WrapIsRemainder(x);
    WrapIsRemainder(y);
    WrapIsRemainder(x + y);
    WrapIs(Wrap(x) + y, Wrap(x + y), Carry(x + y) - Carry(x));
    WrapIs(x + Wrap(y), Wrap(x + y), Carry(x + y) - Carry(y));
  }

  datatype Input = Input(address: string, satoshi: Int64)

  /** `address` and `addresses` are two fields of the node's reply, of which either may be empty. */
  datatype Output = Output(address: string, addresses: seq<string>, satoshi: Int64)

  function GetAddresses(o: Output): seq<string> {
    if |o.address| != 0 then [o.address] else o.addresses
  }

  // ----- who an output pays

  predicate PaysBack(from: string, o: Output) {
    |GetAddresses(o)| > 0 && GetAddresses(o)[0] == from
  }

  predicate Names(from: string, o: Output) {
    !PaysBack(from, o) && |GetAddresses(o)| > 0 && GetAddresses(o)[0] != ""
  }

  /** The first address, other than the sender's, that an output names; empty if none does. */
  function Receiver(from: string, os: seq<Output>): string {
    if os == [] then ""
    else if Receiver(from, os[..|os| - 1]) != "" then Receiver(from, os[..|os| - 1])
    else if Names(from, os[|os| - 1]) then GetAddresses(os[|os| - 1])[0]
    else ""
  }

  predicate PaysTo(from: string, to: string, o: Output) {
    Names(from, o) && GetAddresses(o)[0] == to
  }

  /** An output goes to its address, or, if it has none, to the first of its addresses. */
  ghost predicate GoesTo(o: Output, a: string) {
    if o.address != "" then a == o.address else o.addresses != [] && a == o.addresses[0]
  }

  lemma WhoIsPaid(from: string, to: string, o: Output)
    ensures PaysBack(from, o) <==> GoesTo(o, from)
    ensures Names(from, o) <==> exists a :: GoesTo(o, a) && a != from && a != ""
    ensures PaysTo(from, to, o) <==> GoesTo(o, to) && to != from && to != ""
  {
    if Names(from, o) {
      assert GoesTo(o, GetAddresses(o)[0]);
    }
  }

  /** Output `i` is the first that goes to somebody other than the sender, and that is `to`. */
  ghost predicate FirstPaid(from: string, to: string, os: seq<Output>, i: nat) {
    && i < |os| && GoesTo(os[i], to) && to != from && to != ""
    && forall j, a :: 0 <= j < i && GoesTo(os[j], a) ==> a == from || a == ""
  }

  /** `to` is the first to be paid other than the sender, and empty if nobody is. */
  ghost predicate FirstOther(from: string, to: string, os: seq<Output>) {
    if to == "" then forall j, a :: 0 <= j < |os| && GoesTo(os[j], a) ==> a == from || a == ""
    else exists i: nat :: FirstPaid(from, to, os, i)
  }

  /** The exact amount of the outputs satisfying `p`. */
  function Amount(p: Output -> bool, os: seq<Output>): int {
    if os == [] then 0
    else Amount(p, os[..|os| - 1]) + if p(os[|os| - 1]) then os[|os| - 1].satoshi else 0
  }

  function Incoming(vins: seq<Input>): int {
    if vins == [] then 0 else Incoming(vins[..|vins| - 1]) + vins[|vins| - 1].satoshi
  }

  function All(os: seq<Output>): int {
    Amount((o: Output) => true, os)
  }

  function Refund(from: string, os: seq<Output>): int {
    Amount((o: Output) => PaysBack(from, o), os)
  }

  function Sent(from: string, os: seq<Output>): int {
    Amount((o: Output) => !PaysBack(from, o), os)
  }

  function PaidTo(from: string, to: string, os: seq<Output>): int {
    Amount((o: Output) => PaysTo(from, to, o), os)
  }

  /** Before anyone is named, nobody has been paid. */
  lemma {:induction false} NobodyNamedYet(from: string, to: string, os: seq<Output>)
    requires Receiver(from, os) == ""
    ensures PaidTo(from, to, os) == 0
  {
    if os != [] {
      NobodyNamedYet(from, to, os[..|os| - 1]);
    }
  }

  // ----- the pass

  function Sender(vins: seq<Input>): string {
    if |vins| > 0 then vins[0].address else ""
  }

  /** The transaction fee: a coinbase or coinstake makes money and has none. */
  function Fee(valueIn: Int64, valueOut: Int64): Int64 {
    var fee := Wrap(valueIn - valueOut);
    if fee < 0 then 0 else fee
  }

  /** What is taken off the receiver's amount: the fee, when something was sent and nothing came back. */
  function Deduction(refund: Int64, sent: Int64, fee: Int64): Int64 {
    if refund == 0 && sent != 0 then fee else 0
  }

  /** The size of an amount, whatever its sign. */
  function Magnitude(x: int): nat {
    if x < 0 then -x else x
  }

  /**
   `convertFromSatoshiToWei` followed by `Uint64`, which gives the low 64 bits of the magnitude: the
   sign of a negative amount is lost.
   */
  function ToWei(satoshi: int): (wei: nat)
    ensures wei < TWO_64
  {
    (Magnitude(satoshi) * 10000000000) % TWO_64
  }

  /** The exact amount the outputs pay to the receiver. */
  function Received(vins: seq<Input>, vouts: seq<Output>): int {
    PaidTo(Sender(vins), Receiver(Sender(vins), vouts), vouts)
  }

  /** The wei value reported for a transaction with at least two outputs. */
  function ReportedValue(vins: seq<Input>, vouts: seq<Output>): nat {
    var from := Sender(vins);
    var fee := Fee(Wrap(Incoming(vins)), Wrap(All(vouts)));
    var deduction := Deduction(Wrap(Refund(from, vouts)), Wrap(Sent(from, vouts)), fee);
    ToWei(Wrap(Wrap(Received(vins, vouts)) - deduction))
  }

  datatype Totals = Totals(valueOut: Int64, refund: Int64, sent: Int64, to: string, sentTo: Int64)

  /** What one more output does to each 64-bit total. */
  lemma OneMore(from: string, os: seq<Output>, n: nat)
    requires n < |os|
    ensures Wrap(All(os[..n + 1])) == Wrap(Wrap(All(os[..n])) + os[n].satoshi)
    ensures Wrap(Refund(from, os[..n + 1])) ==
            Wrap(Wrap(Refund(from, os[..n])) + if PaysBack(from, os[n]) then os[n].satoshi else 0)
    ensures Wrap(Sent(from, os[..n + 1])) ==
            Wrap(Wrap(Sent(from, os[..n])) + if PaysBack(from, os[n]) then 0 else os[n].satoshi)
    ensures Receiver(from, os[..n + 1]) ==
            if Receiver(from, os[..n]) == "" && Names(from, os[n]) then GetAddresses(os[n])[0]
            else Receiver(from, os[..n])
  {
    assert os[..n + 1][..n] == os[..n];
    WrapAdds(All(os[..n]), os[n].satoshi);
    WrapAdds(Refund(from, os[..n]), if PaysBack(from, os[n]) then os[n].satoshi else 0);
    WrapAdds(Sent(from, os[..n]), if PaysBack(from, os[n]) then 0 else os[n].satoshi);
  }

  lemma PaidOneMore(from: string, to: string, os: seq<Output>, n: nat)
    requires n < |os|
    ensures Wrap(PaidTo(from, to, os[..n + 1])) ==
            Wrap(Wrap(PaidTo(from, to, os[..n])) + if PaysTo(from, to, os[n]) then os[n].satoshi else 0)
  {
    assert os[..n + 1][..n] == os[..n];
    WrapAdds(PaidTo(from, to, os[..n]), if PaysTo(from, to, os[n]) then os[n].satoshi else 0);
  }

  /** The exact totals, each cut to 64 bits. */
  function TotalsOf(from: string, os: seq<Output>): Totals {
    var to := Receiver(from, os);
    Totals(Wrap(All(os)), Wrap(Refund(from, os)), Wrap(Sent(from, os)), to, Wrap(PaidTo(from, to, os)))
  }

  /** One more output: it is the sender's own, or sent, and then perhaps to the receiver. */
  function WithOutput(from: string, t: Totals, o: Output): Totals {
    var to := if t.to == "" && Names(from, o) then GetAddresses(o)[0] else t.to;
    Totals(Wrap(t.valueOut + o.satoshi),
           Wrap(t.refund + if PaysBack(from, o) then o.satoshi else 0),
           Wrap(t.sent + if PaysBack(from, o) then 0 else o.satoshi),
           to,
           Wrap(t.sentTo + if PaysTo(from, to, o) then o.satoshi else 0))
  }

  /** What goes to the receiver so far, who may be named only by this output. */
  lemma SentToNext(from: string, os: seq<Output>, n: nat)
    requires n < |os|
    ensures var to, to' := Receiver(from, os[..n]), Receiver(from, os[..n + 1]);
            Wrap(PaidTo(from, to', os[..n + 1])) ==
            Wrap(Wrap(PaidTo(from, to, os[..n])) + if PaysTo(from, to', os[n]) then os[n].satoshi else 0)
  {
    var to, to' := Receiver(from, os[..n]), Receiver(from, os[..n + 1]);
    OneMore(from, os, n);
    PaidOneMore(from, to', os, n);
    if to == "" {
      NobodyNamedYet(from, to, os[..n]);
      NobodyNamedYet(from, to', os[..n]);
    }
  }

  lemma TotalsNext(from: string, os: seq<Output>, n: nat)
    requires n < |os|
    ensures TotalsOf(from, os[..n + 1]) == WithOutput(from, TotalsOf(from, os[..n]), os[n])
  {
    OneMore(from, os, n);
    SentToNext(from, os, n);
  }

  /** The body of the loop over the outputs. */
  method TallyOutput(from: string, before: Totals, vout: Output) returns (t: Totals)
    ensures t == WithOutput(from, before, vout)
  {
    t := before.(valueOut := Wrap(before.valueOut + vout.satoshi));
    var addresses := GetAddresses(vout);
    if |addresses| > 0 && addresses[0] == from {
      t := t.(refund := Wrap(t.refund + vout.satoshi));
    } else {
      if |addresses| > 0 && addresses[0] != "" {
        if t.to == "" {
          t := t.(to := addresses[0]);
        }
        if t.to == addresses[0] {
          t := t.(sentTo := Wrap(t.sentTo + vout.satoshi));
        }
      }
      t := t.(sent := Wrap(t.sent + vout.satoshi));
    }
  }

  method TallyOutputs(from: string, vouts: seq<Output>) returns (t: Totals)
    ensures t == TotalsOf(from, vouts)
  {
    t := Totals(0, 0, 0, "", 0);
    for n := 0 to |vouts|
      invariant t == TotalsOf(from, vouts[..n])
    {
      TotalsNext(from, vouts, n);
      t := TallyOutput(from, t, vouts[n]);
    }
    assert vouts[..|vouts|] == vouts;
  }

  method TallyInputs(vins: seq<Input>) returns (valueIn: Int64)
    ensures valueIn == Wrap(Incoming(vins))
  {
    valueIn := 0;
    for n := 0 to |vins|
      invariant valueIn == Wrap(Incoming(vins[..n]))
    {
      assert vins[..n + 1][..n] == vins[..n];
      WrapAdds(Incoming(vins[..n]), vins[n].satoshi);
      valueIn := Wrap(valueIn + vins[n].satoshi);
    }
    assert vins[..|vins|] == vins;
  }

  method TransferOf(vins: seq<Input>, vouts: seq<Output>) returns (to: string, value: nat)
    ensures |vouts| < 2 ==> to == "" && value == 0
    ensures |vouts| >= 2 ==> var from := Sender(vins);
      to == Receiver(from, vouts) && value == ReportedValue(vins, vouts)
    // in plain terms: the first address that is not the first input's, if there is any
    ensures |vouts| >= 2 ==> FirstOther(if |vins| > 0 then vins[0].address else "", to, vouts)
  {
    if |vouts| < 2 {
      return "", 0;
    }
    FirstIsPaid(if |vins| > 0 then vins[0].address else "", vouts);
    var from := if |vins| > 0 then vins[0].address else "";
    var valueIn := TallyInputs(vins);
    var t := TallyOutputs(from, vouts);
    var refund: int, sent: int, sentTo: int := t.refund, t.sent, t.sentTo;
    var fee := Wrap(valueIn - t.valueOut);
    if fee < 0 {
      fee := 0;
    }
    if refund == 0 && sent == 0 {
      // the entire transaction was burnt
    } else if refund == 0 {
      sent := Wrap(sent - fee);
      sentTo := Wrap(sentTo - fee);
    } else {
      refund := Wrap(refund - fee);
    }
    to := t.to;
    value := ToWei(sentTo);
  }

  // ----- what the totals mean

  /** Nothing is lost or counted twice, for any outputs: what came back and what was sent is all. */
  lemma {:induction false} RefundAndSentAreAll(from: string, os: seq<Output>)
    ensures Refund(from, os) + Sent(from, os) == All(os)
  {
    if os != [] {
      RefundAndSentAreAll(from, os[..|os| - 1]);
    }
  }

  /** So the 64-bit totals balance even when they overflow. */
  lemma TotalsBalance(from: string, os: seq<Output>)
    ensures Wrap(Wrap(Refund(from, os)) + Wrap(Sent(from, os))) == Wrap(All(os))
  {
    RefundAndSentAreAll(from, os);
    WrapAdds(Refund(from, os), Sent(from, os));
    WrapAdds(Refund(from, os), Wrap(Sent(from, os)));
  }

  /** With non-negative amounts the receiver gets a part of what was sent, which is a part of all. */
  lemma {:induction false} PaidIsPartOfSent(from: string, to: string, os: seq<Output>)
    requires forall i :: 0 <= i < |os| ==> os[i].satoshi >= 0
    ensures 0 <= PaidTo(from, to, os) <= Sent(from, os) <= All(os)
  {
    if os != [] {
      PaidIsPartOfSent(from, to, os[..|os| - 1]);
    }
  }

  /** The receiver is the first named address: an earlier output names nobody but the sender. */
  lemma {:induction false} ReceiverIsFirst(from: string, os: seq<Output>)
    ensures Receiver(from, os) == "" <==> forall i :: 0 <= i < |os| ==> !Names(from, os[i])
    ensures Receiver(from, os) != "" ==>
              Receiver(from, os) != from
              && exists i :: 0 <= i < |os| && PaysTo(from, Receiver(from, os), os[i])
                             && forall j :: 0 <= j < i ==> !Names(from, os[j])
  {
    if os != [] {
      var init := os[..|os| - 1];
      ReceiverIsFirst(from, init);
      if Receiver(from, init) == "" {
        assert forall j :: 0 <= j < |init| ==> os[j] == init[j];
        assert Names(from, os[|os| - 1]) ==> PaysTo(from, Receiver(from, os), os[|os| - 1]);
      } else {
        var i :| 0 <= i < |init| && PaysTo(from, Receiver(from, init), init[i])
                 && forall j :: 0 <= j < i ==> !Names(from, init[j]);
        assert os[i] == init[i] && forall j :: 0 <= j < i ==> os[j] == init[j];
      }
    }
  }

  lemma FirstIsPaid(from: string, os: seq<Output>)
    ensures FirstOther(from, Receiver(from, os), os)
  {
    ReceiverIsFirst(from, os);
    forall o, a ensures Names(from, o) || (GoesTo(o, a) ==> a == from || a == "") {
      WhoIsPaid(from, a, o);
    }
    if Receiver(from, os) != "" {
      var i: nat :| i < |os| && PaysTo(from, Receiver(from, os), os[i])
                    && forall j :: 0 <= j < i ==> !Names(from, os[j]);
      WhoIsPaid(from, Receiver(from, os), os[i]);
      assert FirstPaid(from, Receiver(from, os), os, i);
    }
  }

  /** The largest satoshi amount whose wei value fits 64 bits. */
  const MAX_EXACT := 1844674407

  /** The reported value is exact exactly for amounts from 0 to 1844674407 satoshis. */
  lemma WeiExactIff(satoshi: int)
    ensures ToWei(satoshi) == satoshi * 10000000000 <==> 0 <= satoshi <= MAX_EXACT
  {
  }

  lemma OddFactorCancels(d: int, q: int)
    requires d * 9765625 == q * TWO_54
    ensures d % TWO_54 == 0
  {
    var m := q * INVERSE - d * QUOTIENT;
    assert d == m * TWO_54;
  }

  const TWO_54 := 0x40_0000_0000_0000

  /** The inverse of 5^10 modulo 2^54: 5^10 * INVERSE is 1 + 2^54 * QUOTIENT. */
  const INVERSE := 11248060840943433
  const QUOTIENT := 6097586

  lemma WholePart(x: int)
    ensures x == (x / TWO_64) * TWO_64 + x % TWO_64
  {
  }

  /** Two amounts have the same low 64 bits in wei exactly when they agree modulo 2^54. */
  lemma SameLowBitsIff(a: nat, b: nat)
    ensures (a * 10000000000) % TWO_64 == (b * 10000000000) % TWO_64 <==> (a - b) % TWO_54 == 0
  {
    var x, y := a * 10000000000, b * 10000000000;
    WholePart(x);
    WholePart(y);
    if x % TWO_64 == y % TWO_64 {
      var q := x / TWO_64 - y / TWO_64;
      assert (a - b) * 10000000000 == q * TWO_64;
      OddFactorCancels(a - b, q);
    }
    if (a - b) % TWO_54 == 0 {
      var k := (a - b) / TWO_54;
      assert a == b + k * TWO_54;
      assert x == y + (k * 9765625) * TWO_64;
      Shift(y, k * 9765625);
    }
  }

  lemma Shift(y: int, k: int)
    ensures (y + k * TWO_64) % TWO_64 == y % TWO_64
  {
  }

  /** What a deduction `d` does to the reported value, also when it exceeds the amount. */
  lemma DeductionShows(paid: int, d: int)
    requires paid >= 0 && d >= 0
    ensures ToWei(paid - d) == paid * 10000000000 <==>
            paid <= MAX_EXACT && (d == 0 || (d > paid && (d - 2 * paid) % TWO_54 == 0))
  {
    WeiExactIff(paid);
    SameLowBitsIff(Magnitude(paid - d), paid);
    if paid <= MAX_EXACT && d <= paid && d % TWO_54 == 0 {
      assert d == 0;
    }
    if d <= paid {
      assert Magnitude(paid - d) - paid == -d;
      NegatedMultiple(d);
    }
  }

  lemma NegatedMultiple(d: int)
    ensures (-d) % TWO_54 == 0 <==> d % TWO_54 == 0
  {
  }

  /**
   The reported value is what the receiver's outputs carry exactly when that fits 64 bits of wei and
   something came back to the sender, or nothing was sent, or no fee was paid, or the fee exceeds
   the amount and is its double (modulo 2^54 satoshis). Otherwise the fee has been taken off,
   although the outputs never contained it. Amounts are non-negative and total less than 2^63.
   */
  lemma ReportedIsPaidIff(vins: seq<Input>, vouts: seq<Output>)
    requires forall i :: 0 <= i < |vouts| ==> vouts[i].satoshi >= 0
    requires 0 <= Incoming(vins) < TWO_63 && All(vouts) < TWO_63
    ensures var paid, fee := Received(vins, vouts), Incoming(vins) - All(vouts);
      ReportedValue(vins, vouts) == paid * 10000000000
      <==> paid <= MAX_EXACT
           && (Refund(Sender(vins), vouts) != 0 || Sent(Sender(vins), vouts) == 0 || fee <= 0
               || (fee > paid && (fee - 2 * paid) % TWO_54 == 0))
  {
    var d := ExactDeduction(vins, vouts);
    DeductionShows(Received(vins, vouts), d);
  }

  lemma AmountOfTwo(p: Output -> bool, a: Output, b: Output)
    ensures Amount(p, [a, b]) == (if p(a) then a.satoshi else 0) + if p(b) then b.satoshi else 0
  {
    var os := [a, b];
    assert os[..|os| - 1] == [a] && [a][..0] == [];
    assert Amount(p, [a]) == if p(a) then a.satoshi else 0;
  }

  lemma ReceiverOfTwo(from: string, a: Output, b: Output)
    requires Names(from, a) && GetAddresses(a)[0] != "" && !Names(from, b)
    ensures Receiver(from, [a, b]) == GetAddresses(a)[0]
  {
    var os := [a, b];
    assert os[..|os| - 1] == [a] && [a][..0] == [];
    assert Receiver(from, [a]) == GetAddresses(a)[0];
  }

  /** It does happen: 10 satoshis are paid out of 15 without change, and 5 are reported. */
  lemma AFeeIsTakenOff() returns (vins: seq<Input>, vouts: seq<Output>)
    ensures |vouts| >= 2 && Received(vins, vouts) == 10 && ReportedValue(vins, vouts) == 5 * 10000000000
  {
    vins := [Input("a", 15)];
    vouts := [Output("b", [], 10), Output("", [], 0)];
    var b, burnt := vouts[0], vouts[1];
    ReceiverOfTwo("a", b, burnt);
    AmountOfTwo((o: Output) => true, b, burnt);
    AmountOfTwo((o: Output) => PaysBack("a", o), b, burnt);
    AmountOfTwo((o: Output) => !PaysBack("a", o), b, burnt);
    AmountOfTwo((o: Output) => PaysTo("a", "b", o), b, burnt);
    assert Incoming(vins) == 15 && All(vouts) == 10 && Refund("a", vouts) == 0 && Sent("a", vouts) == 10;
    var d := ExactDeduction(vins, vouts);
  }

  /** With change back to the sender what was paid is what is reported. */
  lemma ChangeShowsThePayment() returns (vins: seq<Input>, vouts: seq<Output>)
    ensures |vouts| >= 2 && Received(vins, vouts) == 10 && ReportedValue(vins, vouts) == 10 * 10000000000
    ensures Incoming(vins) - All(vouts) == 6
  {
    vins := [Input("a", 30)];
    vouts := [Output("", ["b"], 10), Output("a", [], 14)];
    var b, change := vouts[0], vouts[1];
    ReceiverOfTwo("a", b, change);
    AmountOfTwo((o: Output) => true, b, change);
    AmountOfTwo((o: Output) => PaysBack("a", o), b, change);
    AmountOfTwo((o: Output) => !PaysBack("a", o), b, change);
    AmountOfTwo((o: Output) => PaysTo("a", "b", o), b, change);
    assert Incoming(vins) == 30 && All(vouts) == 24 && Refund("a", vouts) == 14 && Sent("a", vouts) == 10;
    var d := ExactDeduction(vins, vouts);
  }

  /** When the fee exceeds what the receiver got, the difference is reported as if it were positive. */
  lemma FeeAboveAmountReportsTheDifference(vins: seq<Input>, vouts: seq<Output>)
    requires forall i :: 0 <= i < |vouts| ==> vouts[i].satoshi >= 0
    requires 0 <= Incoming(vins) < TWO_63 && All(vouts) < TWO_63
    requires Refund(Sender(vins), vouts) == 0 && Sent(Sender(vins), vouts) != 0
    requires Incoming(vins) - All(vouts) > Received(vins, vouts)
    ensures ReportedValue(vins, vouts) ==
            ((Incoming(vins) - All(vouts) - Received(vins, vouts)) * 10000000000) % TWO_64
  {
    var _ := ExactDeduction(vins, vouts);
  }

  /** For totals in range nothing wraps: the value is that of the paid amount less the exact deduction. */
  lemma ExactDeduction(vins: seq<Input>, vouts: seq<Output>) returns (d: nat)
    requires forall i :: 0 <= i < |vouts| ==> vouts[i].satoshi >= 0
    requires 0 <= Incoming(vins) < TWO_63 && All(vouts) < TWO_63
    ensures Received(vins, vouts) >= 0
    ensures d == if Refund(Sender(vins), vouts) == 0 && Sent(Sender(vins), vouts) != 0 && Incoming(vins) > All(vouts)
                 then Incoming(vins) - All(vouts) else 0
    ensures ReportedValue(vins, vouts) == ToWei(Received(vins, vouts) - d)
  {
    var from := Sender(vins);
    PaidIsPartOfSent(from, Receiver(from, vouts), vouts);
    RefundAndSentAreAll(from, vouts);
    RefundIsPart(from, vouts);
    d := Deduction(Refund(from, vouts), Sent(from, vouts), Fee(Incoming(vins), All(vouts)));
  }

  lemma {:induction false} RefundIsPart(from: string, os: seq<Output>)
    requires forall i :: 0 <= i < |os| ==> os[i].satoshi >= 0
    ensures 0 <= Refund(from, os)
  {
    if os != [] {
      RefundIsPart(from, os[..|os| - 1]);
    }
  }
}
