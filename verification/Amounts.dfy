/** Wei, REVO and satoshi amounts, and choosing the inputs of a transaction to sign. */
module Amounts {
  import opened Common

  const WEI_PER_REVO := 1000000000000000000.0
  const SATOSHI_PER_REVO := 100000000.0

  /** Wei are cut to whole multiples of 10^9, not to whole satoshis. */
  const WEI_KEPT: int := 1000000000

  const MINIMUM_GAS := 0.0000004

  function EthToRevo(wei: int): real {
    (wei as real * 0.000000001).Floor as real * 0.000000001
  }

  function RevoToEth(revo: real): real {
    revo / 0.000000000000000001
  }

  /** `decimal.BigInt` truncates toward zero. */
  function Truncate(x: real): int {
    if x >= 0.0 then x.Floor else -(-x).Floor
  }

  /** The wei of an amount, if they are whole. */
  function FormatRevoAmount(amount: real): Option<int> {
    var wei := amount * WEI_PER_REVO;
    var result := Truncate(wei);
    if wei != result as real then None else Some(result)
  }

  /** The gas price handed to the node: the caller's, the default, or the minimum. */
  function GasPrice(wei: Option<int>): real {
    var price := if wei.None? then MINIMUM_GAS else EthToRevo(wei.value);
    if price < MINIMUM_GAS then MINIMUM_GAS else price
  }

  // ----- conversions

  lemma FloorIsDivision(wei: int)
    ensures (wei as real * 0.000000001).Floor == wei / WEI_KEPT
  {
    var q, r := wei / WEI_KEPT, wei % WEI_KEPT;
    assert wei as real == q as real * 1000000000.0 + r as real;
    assert wei as real * 0.000000001 == q as real + r as real * 0.000000001;
  }

  lemma UnitsToWei(q: int)
    ensures RevoToEth(q as real * 0.000000001) == (q * WEI_KEPT) as real
    ensures FormatRevoAmount(q as real * 0.000000001) == Some(q * WEI_KEPT)
  {
    assert (q * WEI_KEPT) as real == q as real * 1000000000.0;
    assert (q as real * 0.000000001) * WEI_PER_REVO == q as real * 1000000000.0;
    WholeIsFormatted(q as real * 0.000000001, q * WEI_KEPT);
  }

  /** Wei to REVO and back rounds down to a multiple of 10^9, and so loses less than 10^9. */
  lemma WeiRoundTrip(wei: int)
    ensures RevoToEth(EthToRevo(wei)) == (wei - wei % WEI_KEPT) as real
    ensures FormatRevoAmount(EthToRevo(wei)) == Some(wei - wei % WEI_KEPT)
  {
    FloorIsDivision(wei);
    UnitsToWei(wei / WEI_KEPT);
    assert wei - wei % WEI_KEPT == (wei / WEI_KEPT) * WEI_KEPT;
  }

  /** The rounding keeps order and, applied again, changes nothing. */
  lemma RoundingIsMonotoneAndIdempotent(a: int, b: int)
    requires a <= b
    ensures EthToRevo(a) <= EthToRevo(b)
    ensures EthToRevo(a - a % WEI_KEPT) == EthToRevo(a)
  {
    FloorIsDivision(a);
    FloorIsDivision(b);
    FloorIsDivision(a - a % WEI_KEPT);
    assert (a - a % WEI_KEPT) / WEI_KEPT == a / WEI_KEPT;
  }

  /** REVO to wei and back is the identity exactly on multiples of 10^-9 REVO. */
  lemma RevoRoundTripIff(revo: real)
    ensures var wei := FormatRevoAmount(revo);
            wei.Some? && EthToRevo(wei.value) == revo <==> revo * 1000000000.0 == (revo * 1000000000.0).Floor as real
  {
    var wei := FormatRevoAmount(revo);
    var units := (revo * 1000000000.0).Floor;
    if revo * 1000000000.0 == units as real {
      WholeIsFormatted(revo, units * WEI_KEPT);
      FloorIsDivision(units * WEI_KEPT);
      assert units * WEI_KEPT / WEI_KEPT == units;
    }
    if wei.Some? && EthToRevo(wei.value) == revo {
      FloorIsDivision(wei.value);
      assert revo * 1000000000.0 == (wei.value / WEI_KEPT) as real;
    }
  }

  lemma WholeIsFormatted(amount: real, wei: int)
    requires amount * WEI_PER_REVO == wei as real
    ensures FormatRevoAmount(amount) == Some(wei)
  {
    assert Truncate(wei as real) == wei;
  }

  /** Formatting succeeds exactly when the wei value is whole, and then gives that value. */
  lemma FormattedIffWhole(amount: real)
    ensures FormatRevoAmount(amount).Some? <==> (amount * WEI_PER_REVO).Floor as real == amount * WEI_PER_REVO
    ensures FormatRevoAmount(amount).Some? ==> FormatRevoAmount(amount).value as real == amount * WEI_PER_REVO
  {
    if (amount * WEI_PER_REVO).Floor as real == amount * WEI_PER_REVO {
      WholeIsFormatted(amount, (amount * WEI_PER_REVO).Floor);
    }
  }

  /** The gas price is never below the minimum, and is the caller's whenever that is not. */
  lemma GasPriceIsAtLeastMinimum(wei: Option<int>)
    ensures GasPrice(wei) >= MINIMUM_GAS
    ensures RevoToEth(MINIMUM_GAS) == 400000000000.0 && (wei.None? ==> GasPrice(wei) == MINIMUM_GAS)
    ensures wei.Some? && wei.value < 400000000000 ==> GasPrice(wei) == MINIMUM_GAS
    ensures wei.Some? ==> (GasPrice(wei) == EthToRevo(wei.value) <==> wei.value >= 400000000000)
  {
    if wei.Some? {
      FloorIsDivision(wei.value);
    }
  }

  // ----- inputs for signing

  datatype Utxo = Utxo(txid: string, vout: nat, satoshis: real)

  datatype Input = Input(txid: string, vout: nat)

  datatype Selection = Selected(inputs: seq<Input>, sum: real) | Insufficient

  function Total(us: seq<Utxo>): real {
    if us == [] then 0.0 else Total(us[..|us| - 1]) + us[|us| - 1].satoshis
  }

  function Inputs(us: seq<Utxo>): seq<Input> {
    seq(|us|, i requires 0 <= i < |us| => Input(us[i].txid, us[i].vout))
  }

  /** The first `k` outputs, at least one, are worth the needed amount. */
  predicate Enough(us: seq<Utxo>, k: nat, needed: real) {
    0 < k <= |us| && Total(us[..k]) >= needed * SATOSHI_PER_REVO
  }

  lemma OneMore(us: seq<Utxo>, n: nat)
    requires n < |us|
    ensures Total(us[..n + 1]) == Total(us[..n]) + us[n].satoshis
    ensures Inputs(us[..n + 1]) == Inputs(us[..n]) + [Input(us[n].txid, us[n].vout)]
  {
    assert us[..n + 1][..n] == us[..n];
  }

  method GetRequiredUtxos(us: seq<Utxo>, neededAmount: real) returns (r: Selection)
    ensures r.Insufficient? <==> forall k: nat :: !Enough(us, k, neededAmount)
    ensures r.Selected? ==>
              exists k: nat :: Enough(us, k, neededAmount) && (forall j: nat :: j < k ==> !Enough(us, j, neededAmount))
                               && r.inputs == Inputs(us[..k]) && r.sum == Total(us[..k])
    // in plain terms: the inputs are the first outputs, and they are worth enough
    ensures r.Selected? ==>
              && 0 < |r.inputs| <= |us| && r.sum >= neededAmount * 100000000.0
              && forall i :: 0 <= i < |r.inputs| ==> r.inputs[i].txid == us[i].txid && r.inputs[i].vout == us[i].vout
  {
    var minimumSum := neededAmount * SATOSHI_PER_REVO;
    var utxos: seq<Input> := [];
    var sum := 0.0;
    for n := 0 to |us|
      invariant utxos == Inputs(us[..n]) && sum == Total(us[..n])
      invariant forall j: nat :: j <= n ==> !Enough(us, j, neededAmount)
    {
      OneMore(us, n);
      sum := sum + us[n].satoshis;
      utxos := utxos + [Input(us[n].txid, us[n].vout)];
      if sum >= minimumSum {
        assert Enough(us, n + 1, neededAmount);
        return Selected(utxos, sum);
      }
    }
    return Insufficient;
  }

  lemma {:induction false} TotalGrows(us: seq<Utxo>, k: nat)
    requires k <= |us| && forall i :: 0 <= i < |us| ==> us[i].satoshis >= 0.0
    ensures Total(us[..k]) <= Total(us)
  {
    if k < |us| {
      TotalGrows(us[..|us| - 1], k);
      assert us[..|us| - 1][..k] == us[..k];
    } else {
      assert us[..k] == us;
    }
  }

  /** With non-negative amounts the selection succeeds exactly when there is an output and all together suffice. */
  lemma SelectableIffTotalSuffices(us: seq<Utxo>, needed: real)
    requires forall i :: 0 <= i < |us| ==> us[i].satoshis >= 0.0
    ensures (exists k: nat :: Enough(us, k, needed)) <==> us != [] && Total(us) >= needed * SATOSHI_PER_REVO
  {
    assert us[..|us|] == us;
    if k: nat :| Enough(us, k, needed) {
      TotalGrows(us, k);
    }
    if us != [] && Total(us) >= needed * SATOSHI_PER_REVO {
      assert Enough(us, |us|, needed);
    }
  }

  function CalculateNeededAmount(value: real, gasLimit: real, gasPrice: real): real {
    value + gasLimit * gasPrice
  }

  function CalculateChange(balance: real, neededAmount: real): Option<real> {
    if balance < neededAmount then None else Some(balance - neededAmount)
  }

  /** An amount pays a value and the gas used. */
  predicate Covers(amount: real, value: real, used: nat, gasPrice: real) {
    value + used as real * gasPrice <= amount
  }

  /** The needed amount is the least that covers the value and the gas, however much of the limit is used. */
  lemma NeededIsLeast(value: real, gasLimit: nat, gasPrice: real, amount: real)
    requires gasPrice >= 0.0
    ensures amount >= CalculateNeededAmount(value, gasLimit as real, gasPrice) <==>
            forall used: nat :: used <= gasLimit ==> Covers(amount, value, used, gasPrice)
  {
    if amount >= CalculateNeededAmount(value, gasLimit as real, gasPrice) {
      forall used: nat | used <= gasLimit ensures Covers(amount, value, used, gasPrice) {
        assert (gasLimit - used) as real * gasPrice >= 0.0;
        assert gasLimit as real * gasPrice == used as real * gasPrice + (gasLimit - used) as real * gasPrice;
      }
    } else {
      assert !Covers(amount, value, gasLimit, gasPrice);
    }
  }

  /** After a successful selection for a call's value and gas the change is always computed. */
  lemma ChangeNeverFailsAfterSelection(us: seq<Utxo>, k: nat, value: real, gasLimit: nat, gasPrice: real)
    requires value >= 0.0 && gasPrice >= 0.0
    requires Enough(us, k, CalculateNeededAmount(value, gasLimit as real, gasPrice))
    ensures var needed := CalculateNeededAmount(value, gasLimit as real, gasPrice);
            var change := CalculateChange(Total(us[..k]), needed);
            change.Some? && change.value + needed == Total(us[..k])
  {
    assert gasLimit as real * gasPrice >= 0.0;
  }

  /**
   But the balance is in satoshis and the needed amount in REVO: a transaction that pays the
   needed amount and this change pays what its inputs are worth only if they are worth nothing,
   and the change is the satoshis left over only if nothing was needed.
   */
  lemma ChangeMixesUnits(balance: real, needed: real)
    requires balance >= needed
    ensures needed + CalculateChange(balance, needed).value == balance / SATOSHI_PER_REVO <==> balance == 0.0
    ensures CalculateChange(balance, needed).value == balance - needed * SATOSHI_PER_REVO <==> needed == 0.0
  {
  }
}
