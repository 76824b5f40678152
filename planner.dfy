/** `create_raw_transaction` of cashOut.py (with dev fees, raising on insufficient funds) and
    of buyIn.py (returning None): greedy first-fit coin selection and the output plan. */
module Planner {
  import opened Wrappers
  import opened Transaction

  datatype PlanError = InsufficientFunds

  /** k is where the selection loop stops: the first UTXO is always taken, and the loop stops
      at the first prefix whose amounts reach `needed`; every shorter non-empty prefix falls short. */
  ghost predicate IsFirstCover(utxos: seq<Utxo>, needed: int, k: nat)
  {
    && k <= |utxos|
    && (|utxos| == 0 <==> k == 0)
    && (forall j :: 1 <= j < k ==> Covered(utxos, j) < needed)
    && (k < |utxos| ==> Covered(utxos, k) >= needed)
  }

  /** No prefix the loop can stop at reaches `needed`: the insufficient-funds case. */
  ghost predicate NoPrefixCovers(utxos: seq<Utxo>, needed: int)
  {
    if |utxos| == 0 then 0 < needed
    else forall j :: 1 <= j <= |utxos| ==> Covered(utxos, j) < needed
  }

  /** Only one stopping point fits the description: the selection is determined. */
  lemma FirstCoverUnique(utxos: seq<Utxo>, needed: int, k1: nat, k2: nat)
    requires IsFirstCover(utxos, needed, k1) && IsFirstCover(utxos, needed, k2)
    ensures k1 == k2
  {
  }

  /** Adding non-negative amounts never lowers the running total. */
  lemma {:induction false} CoveredMonotone(utxos: seq<Utxo>, i: nat, j: nat)
    requires i <= j <= |utxos|
    requires forall k :: 0 <= k < |utxos| ==> utxos[k].amount >= 0
    ensures Covered(utxos, i) <= Covered(utxos, j)
    decreases j - i
  {
    if i < j {
      CoveredMonotone(utxos, i, j - 1);
    }
  }

  /** With non-negative UTXO amounts, the planner fails exactly when all UTXOs together fall
      short of what is needed. */
  lemma InsufficientIffTotalShort(utxos: seq<Utxo>, needed: int)
    requires forall k :: 0 <= k < |utxos| ==> utxos[k].amount >= 0
    ensures NoPrefixCovers(utxos, needed) <==> Covered(utxos, |utxos|) < needed
  {
    if |utxos| > 0 && Covered(utxos, |utxos|) < needed {
      forall j | 1 <= j <= |utxos|
        ensures Covered(utxos, j) < needed
      {
        CoveredMonotone(utxos, j, |utxos|);
      }
    }
  }

  /** The selection loop shared by both planners: take UTXOs in the order given, adding each
      amount to the running total, until the total reaches `needed`. */
  method SelectInputs(utxos: seq<Utxo>, needed: int) returns (inputs: seq<TxIn>, total: int)
    ensures IsFirstCover(utxos, needed, |inputs|)
    ensures forall i :: 0 <= i < |inputs| ==> inputs[i] == InputOf(utxos[i])
    ensures total == Covered(utxos, |inputs|) == InputTotal(inputs)
  {
    inputs, total := [], 0;
    var i := 0;
    while i < |utxos|
      invariant 0 <= i <= |utxos| && |inputs| == i
      invariant forall j :: 0 <= j < i ==> inputs[j] == InputOf(utxos[j])
      invariant total == Covered(utxos, i) == InputTotal(inputs)
      invariant forall j :: 1 <= j <= i ==> Covered(utxos, j) < needed
    {
      InputTotalSnoc(inputs, InputOf(utxos[i]));
      inputs := inputs + [InputOf(utxos[i])];
      total := total + utxos[i].amount;
      i := i + 1;
      if total >= needed {
        assert IsFirstCover(utxos, needed, i);
        break;
      }
      assert Covered(utxos, i) < needed;
    }
  }

  /** A dev-fee recipient and its share of the win differential, in hundredths of a percent. */
  datatype DevFeeRule = DevFeeRule(address: string, basisPoints: nat)

  /** Configuration the cash-out planner reads: the pool address that receives change and
      the dev-fee recipients. */
  datatype CashOutConfig = CashOutConfig(fromAddress: string, devFeeRules: seq<DevFeeRule>)

  /** The three configured dev fees: 1%, 0% and 0%. */
  const ConfiguredDevFeeRules: seq<DevFeeRule> := [
    DevFeeRule("<first_dev_fee_address>", 100),
    DevFeeRule("<second_dev_fee_address>", 0),
    DevFeeRule("<third_dev_fee_address>", 0)
  ]

  /** Python's `int(x)` of a quotient: division truncating toward zero. */
  function TruncDiv(a: int, d: nat): (q: int)
    requires d > 0
    ensures a >= 0 ==> 0 <= q && q * d <= a < (q + 1) * d
    ensures a <= 0 ==> q <= 0 && (q - 1) * d < a <= q * d
  {
    if a >= 0 then a / d else -((-a) / d)
  }

  /** `int(win_differential_satoshis * percent)` with the percent as basis points. */
  function DevFeeAmount(winDifferential: int, basisPoints: nat): (fee: int)
    ensures winDifferential >= 0 ==> 0 <= fee && fee * 10000 <= winDifferential * basisPoints < (fee + 1) * 10000
    ensures winDifferential <= 0 ==> fee <= 0 && (fee - 1) * 10000 < winDifferential * basisPoints <= fee * 10000
  {
    TruncDiv(winDifferential * basisPoints, 10000)
  }

  /** The `dev_fees` list before filtering, one entry per rule in order. */
  function DevFees(rules: seq<DevFeeRule>, winDifferential: int): (fees: seq<TxOut>)
    ensures |fees| == |rules|
    ensures forall i :: 0 <= i < |rules| ==>
      fees[i] == TxOut(rules[i].address, DevFeeAmount(winDifferential, rules[i].basisPoints))
  {
    if rules == [] then []
    else [TxOut(rules[0].address, DevFeeAmount(winDifferential, rules[0].basisPoints))]
         + DevFees(rules[1..], winDifferential)
  }

  /** `[(a, x) for a, x in dev_fees if x > 0]`. */
  function KeepPositive(fees: seq<TxOut>): (kept: seq<TxOut>)
    ensures forall f :: f in kept <==> f in fees && f.amount > 0
    ensures |kept| <= |fees|
  {
    if fees == [] then []
    else (if fees[0].amount > 0 then [fees[0]] else []) + KeepPositive(fees[1..])
  }

  /** Filtering commutes with concatenation, so survivors keep their relative order. */
  lemma {:induction false} KeepPositiveAppend(a: seq<TxOut>, b: seq<TxOut>)
    ensures KeepPositive(a + b) == KeepPositive(a) + KeepPositive(b)
  {
    if a != [] {
      assert (a + b)[1..] == a[1..] + b;
      KeepPositiveAppend(a[1..], b);
    } else {
      assert a + b == b;
    }
  }

  /** A list with no entry worth more than zero leaves no dev-fee output. */
  lemma {:induction false} KeepPositiveNone(fees: seq<TxOut>)
    requires forall i :: 0 <= i < |fees| ==> fees[i].amount <= 0
    ensures KeepPositive(fees) == []
  {
    if fees != [] {
      KeepPositiveNone(fees[1..]);
    }
  }

  /** A share of a non-positive differential is never positive. */
  lemma NonPositiveShare(winDifferential: int, basisPoints: nat)
    requires winDifferential <= 0
    ensures DevFeeAmount(winDifferential, basisPoints) <= 0
  {
    assert winDifferential * basisPoints <= 0 by {
      assert (-winDifferential) * basisPoints >= 0;
    }
  }

  /** A zero or negative win differential produces no dev-fee outputs, whatever the rules. */
  lemma NoDevFeesWithoutWinnings(rules: seq<DevFeeRule>, winDifferential: int)
    requires winDifferential <= 0
    ensures KeepPositive(DevFees(rules, winDifferential)) == []
  {
    var fees := DevFees(rules, winDifferential);
    forall i | 0 <= i < |fees|
      ensures fees[i].amount <= 0
    {
      NonPositiveShare(winDifferential, rules[i].basisPoints);
    }
    KeepPositiveNone(fees);
  }

  /** With the configured rules, only the 1% fee can survive, and only from 100 satoshis of
      win differential on. */
  lemma ConfiguredDevFees(winDifferential: int)
    ensures KeepPositive(DevFees(ConfiguredDevFeeRules, winDifferential))
            == if winDifferential >= 100 then [TxOut("<first_dev_fee_address>", winDifferential / 100)] else []
  {
    var fees := DevFees(ConfiguredDevFeeRules, winDifferential);
    assert fees == [fees[0]] + [fees[1], fees[2]];
    assert fees[1].amount == 0 && fees[2].amount == 0;
    KeepPositiveNone([fees[1], fees[2]]);
    KeepPositiveAppend([fees[0]], [fees[1], fees[2]]);
    assert [fees[0]][1..] == [];
    if winDifferential >= 0 {
      assert fees[0].amount == winDifferential * 100 / 10000;
      assert winDifferential * 100 / 10000 == winDifferential / 100;
    }
  }

  /** The change output, present only for a positive surplus. */
  function ChangeOutputs(fromAddress: string, change: int): (outs: seq<TxOut>)
    ensures outs != [] <==> change > 0
    ensures forall o :: o in outs ==> o == TxOut(fromAddress, change)
    ensures OutputTotal(outs) == if change > 0 then change else 0
  {
    if change > 0 then
      assert [TxOut(fromAddress, change)][..0] == [];
      [TxOut(fromAddress, change)]
    else []
  }

  /** Every input is an unsigned copy of the UTXO at the same position. */
  ghost predicate InputsArePrefix(inputs: seq<TxIn>, utxos: seq<Utxo>)
  {
    |inputs| <= |utxos| && forall i :: 0 <= i < |inputs| ==> inputs[i] == InputOf(utxos[i])
  }

  /** What both planners promise of a successful plan: the inputs are the UTXOs the selection
      loop took, they cover `needed`, the outputs are `head` followed by the change (if any) to
      `changeAddress`, and inputs minus outputs is exactly the miner fee. */
  ghost predicate Planned(tx: Tx, utxos: seq<Utxo>, head: seq<TxOut>, changeAddress: string,
                          needed: int, fee: int)
  {
    && tx.version == TxVersion && tx.locktime == TxLocktime
    && InputsArePrefix(tx.inputs, utxos)
    && IsFirstCover(utxos, needed, |tx.inputs|)
    && InputTotal(tx.inputs) >= needed
    && tx.outputs == head + ChangeOutputs(changeAddress, InputTotal(tx.inputs) - needed)
    && InputTotal(tx.inputs) - OutputTotal(tx.outputs) == fee
  }

  /** Assembling the transaction from a successful selection meets `Planned`. */
  lemma PlanFromSelection(utxos: seq<Utxo>, inputs: seq<TxIn>, total: int, head: seq<TxOut>,
                          changeAddress: string, needed: int, fee: int)
    requires IsFirstCover(utxos, needed, |inputs|)
    requires forall i :: 0 <= i < |inputs| ==> inputs[i] == InputOf(utxos[i])
    requires total == InputTotal(inputs) && total >= needed
    requires needed == OutputTotal(head) + fee
    ensures Planned(Tx(TxVersion, inputs, head + ChangeOutputs(changeAddress, total - needed), TxLocktime),
                    utxos, head, changeAddress, needed, fee)
  {
    var change := total - needed;
    OutputTotalAppend(head, ChangeOutputs(changeAddress, change));
  }

  /** `create_raw_transaction` of cashOut.py. */
  method CreateRawTransactionCashOut(cfg: CashOutConfig, utxos: seq<Utxo>, toAddress: string,
                                     amountSatoshis: int, feeSatoshis: int, winDifferentialSatoshis: int)
    returns (r: Result<Tx, PlanError>)
    ensures r.Err? <==> NoPrefixCovers(utxos, CashOutNeeded(cfg, amountSatoshis, feeSatoshis, winDifferentialSatoshis))
    ensures r.Ok? ==> Planned(r.value, utxos,
                              [TxOut(toAddress, amountSatoshis)] + KeepPositive(DevFees(cfg.devFeeRules, winDifferentialSatoshis)),
                              cfg.fromAddress, CashOutNeeded(cfg, amountSatoshis, feeSatoshis, winDifferentialSatoshis),
                              feeSatoshis)
  {
    var devFees := KeepPositive(DevFees(cfg.devFeeRules, winDifferentialSatoshis));
    var totalNeeded := amountSatoshis + OutputTotal(devFees) + feeSatoshis;
    assert totalNeeded == CashOutNeeded(cfg, amountSatoshis, feeSatoshis, winDifferentialSatoshis);
    var inputs, totalInput := SelectInputs(utxos, totalNeeded);
    FirstCoverFallsShort(utxos, totalNeeded, |inputs|);
    if totalInput < totalNeeded {
      return Err(InsufficientFunds);
    }
    var outputs := [TxOut(toAddress, amountSatoshis)];
    ghost var head := outputs + devFees;
    var d := 0;
    while d < |devFees|
      invariant 0 <= d <= |devFees|
      invariant outputs == [TxOut(toAddress, amountSatoshis)] + devFees[..d]
    {
      PrefixSnoc(devFees, d);
      outputs := outputs + [devFees[d]];
      d := d + 1;
    }
    assert devFees[..d] == devFees;
    var changeSatoshis := totalInput - totalNeeded;
    if changeSatoshis > 0 {
      outputs := outputs + [TxOut(cfg.fromAddress, changeSatoshis)];
    }
    assert outputs == head + ChangeOutputs(cfg.fromAddress, totalInput - totalNeeded);
    HeadTotal(toAddress, amountSatoshis, devFees);
    PlanFromSelection(utxos, inputs, totalInput, head, cfg.fromAddress, totalNeeded, feeSatoshis);
    r := Ok(Tx(TxVersion, inputs, outputs, TxLocktime));
  }

  lemma PrefixSnoc<T>(s: seq<T>, d: nat)
    requires d < |s|
    ensures s[..d + 1] == s[..d] + [s[d]]
  {
  }

  /** The loop's stopping point falls short exactly in the insufficient-funds case. */
  lemma FirstCoverFallsShort(utxos: seq<Utxo>, needed: int, k: nat)
    requires IsFirstCover(utxos, needed, k)
    ensures Covered(utxos, k) < needed <==> NoPrefixCovers(utxos, needed)
  {
    if |utxos| > 0 && Covered(utxos, k) < needed {
      assert k == |utxos|;
    }
  }

  /** The recipient output followed by the dev fees carries their combined amount. */
  lemma HeadTotal(toAddress: string, amount: int, devFees: seq<TxOut>)
    ensures OutputTotal([TxOut(toAddress, amount)] + devFees) == amount + OutputTotal(devFees)
  {
    OutputTotalAppend([TxOut(toAddress, amount)], devFees);
    assert OutputTotal([TxOut(toAddress, amount)]) == amount by {
      assert [TxOut(toAddress, amount)][..0] == [];
    }
  }

  /** `total_needed` of cashOut.py: the amount, the kept dev fees and the miner fee. */
  function CashOutNeeded(cfg: CashOutConfig, amountSatoshis: int, feeSatoshis: int, winDifferentialSatoshis: int): int
  {
    amountSatoshis + OutputTotal(KeepPositive(DevFees(cfg.devFeeRules, winDifferentialSatoshis))) + feeSatoshis
  }

  /** `create_raw_transaction` of buyIn.py. */
  method CreateRawTransactionBuyIn(utxos: seq<Utxo>, fromAddress: string, toAddress: string,
                                   amountSatoshis: int, feeSatoshis: int)
    returns (r: Option<Tx>)
    ensures r.None? <==> NoPrefixCovers(utxos, amountSatoshis + feeSatoshis)
    ensures r.Some? ==> Planned(r.value, utxos, [TxOut(toAddress, amountSatoshis)], fromAddress,
                                amountSatoshis + feeSatoshis, feeSatoshis)
  {
    ghost var needed := amountSatoshis + feeSatoshis;
    var inputs, totalInput := SelectInputs(utxos, amountSatoshis + feeSatoshis);
    FirstCoverFallsShort(utxos, needed, |inputs|);
    if totalInput < amountSatoshis + feeSatoshis {
      return None;
    }
    var outputs := [TxOut(toAddress, amountSatoshis)];
    ghost var head := outputs;
    var changeSatoshis := totalInput - amountSatoshis - feeSatoshis;
    if changeSatoshis > 0 {
      outputs := outputs + [TxOut(fromAddress, changeSatoshis)];
    }
    assert outputs == head + ChangeOutputs(fromAddress, totalInput - needed);
    HeadTotal(toAddress, amountSatoshis, []);
    assert head + [] == head;
    PlanFromSelection(utxos, inputs, totalInput, head, fromAddress, needed, feeSatoshis);
    r := Some(Tx(TxVersion, inputs, outputs, TxLocktime));
  }
}
