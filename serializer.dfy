/** `serialize_transaction(tx, for_signing, input_index, script_code)`: the transaction in
    wire format, either as broadcast or as the preimage view for signing one input. */
module Serializer {
  import opened Wrappers
  import opened Bytes
  import opened CompactSize
  import opened Primitives
  import opened Script
  import opened Transaction
  import opened Wire

  /** The script written for input i: its own scriptSig when broadcasting; when signing, the
      script code for the input being signed and an empty script for every other input. */
  function ScriptFor(txin: TxIn, i: nat, mode: Mode): seq<Byte>
  {
    match mode
    case Broadcast => txin.scriptSig
    case ForSigning(k, code) => if i == k then code else []
  }

  /** Input i as written, or the `struct.error` that packing its fields raises. */
  function InputView(tx: Tx, i: nat, mode: Mode): (r: Result<WireInput, EncodeError>)
    requires i < |tx.inputs|
    ensures r.Ok? <==> 0 <= tx.inputs[i].vout < TwoTo32 && |ScriptFor(tx.inputs[i], i, mode)| < TwoTo64
    ensures r.Ok? ==> InputFits(r.value)
    ensures r.Err? ==> r.error == ValueOutOfRange
  {
    var txin := tx.inputs[i];
    var script := ScriptFor(txin, i, mode);
    if !(0 <= txin.vout < TwoTo32) || |script| >= TwoTo64 then Err(ValueOutOfRange)
    else Ok(WireInput(Reverse(txin.txid), txin.vout, script, SequenceFinal))
  }

  /** Each input as written, in order. */
  function InputResults(tx: Tx, mode: Mode): (rs: seq<Result<WireInput, EncodeError>>)
    ensures |rs| == |tx.inputs| && forall i :: 0 <= i < |tx.inputs| ==> rs[i] == InputView(tx, i, mode)
  {
    seq(|tx.inputs|, i requires 0 <= i < |tx.inputs| => InputView(tx, i, mode))
  }

  /** Output j as written: amount, then the locking script built from its address. */
  function OutputView(p: Primitives, o: TxOut): (r: Result<WireOutput, EncodeError>)
    ensures r.Ok? <==> 0 <= o.amount < TwoTo64 && CreateScriptPubKey(p, o.address).Ok?
    ensures r.Ok? ==> OutputFits(r.value)
    ensures r.Ok? ==> r.value == WireOutput(o.amount, CreateScriptPubKey(p, o.address).value)
    ensures !(0 <= o.amount < TwoTo64) ==> r == Err(ValueOutOfRange)
    ensures r.Err? && 0 <= o.amount < TwoTo64 ==> r == Err(CreateScriptPubKey(p, o.address).error)
  {
    if !(0 <= o.amount < TwoTo64) then Err(ValueOutOfRange)
    else
      match CreateScriptPubKey(p, o.address)
      case Err(e) => Err(e)
      case Ok(s) =>
        assert |s| < 261 by { assert ParseP2PKH(s).Some?; }
        Ok(WireOutput(o.amount, s))
  }

  /** The values of a list of results in order, or the first error among them: what a loop
      that raises at the first failing item produces. */
  function Collect<W>(rs: seq<Result<W, EncodeError>>): (r: Result<seq<W>, EncodeError>)
    ensures r.Ok? <==> forall j :: 0 <= j < |rs| ==> rs[j].Ok?
    ensures r.Ok? ==> |r.value| == |rs| && forall j :: 0 <= j < |rs| ==> rs[j] == Ok(r.value[j])
  {
    if rs == [] then Ok([])
    else
      match Collect(rs[..|rs| - 1])
      case Err(e) => Err(e)
      case Ok(ws) =>
        match rs[|rs| - 1]
        case Err(e) => Err(e)
        case Ok(w) =>
          assert forall j :: 0 <= j < |rs| - 1 ==> rs[..|rs| - 1][j] == rs[j];
          Ok(ws + [w])
  }

  /** A failed collection fails with the error of one of its results. */
  lemma {:induction false} CollectErrorAt<W>(rs: seq<Result<W, EncodeError>>) returns (j: nat)
    requires Collect(rs).Err?
    ensures j < |rs| && rs[j] == Err(Collect(rs).error)
  {
    var front := rs[..|rs| - 1];
    if Collect(front).Err? {
      var i := CollectErrorAt(front);
      assert front[i] == rs[i];
      j := i;
    } else {
      j := |rs| - 1;
    }
  }

  /** A value after a successful prefix extends the collected values. */
  lemma CollectExtend<W>(rs: seq<Result<W, EncodeError>>, j: nat, ws: seq<W>, w: W)
    requires j < |rs| && Collect(rs[..j]) == Ok(ws) && rs[j] == Ok(w)
    ensures Collect(rs[..j + 1]) == Ok(ws + [w])
  {
    assert rs[..j + 1][..j] == rs[..j];
  }

  /** An error after a successful prefix is the error of the longer prefix. */
  lemma CollectFailsAt<W>(rs: seq<Result<W, EncodeError>>, j: nat)
    requires j < |rs| && Collect(rs[..j]).Ok? && rs[j].Err?
    ensures Collect(rs[..j + 1]) == Err(rs[j].error)
  {
    assert rs[..j + 1][..j] == rs[..j];
  }

  /** An error already met stays the error of every longer prefix. */
  lemma CollectKeepsError<W>(rs: seq<Result<W, EncodeError>>, j: nat, e: EncodeError)
    requires j < |rs| && Collect(rs[..j]) == Err(e)
    ensures Collect(rs[..j + 1]) == Err(e)
  {
    assert rs[..j + 1][..j] == rs[..j];
  }

  /** An error at j with no error before it is the error of the whole list. */
  lemma CollectStopsAt<W>(rs: seq<Result<W, EncodeError>>, j: nat)
    requires j < |rs| && Collect(rs[..j]).Ok? && rs[j].Err?
    ensures Collect(rs) == Err(rs[j].error)
  {
    CollectStops(rs, j, |rs|);
    assert rs[..|rs|] == rs;
  }

  /** When the first j results are values and result j is an error, every longer prefix
      fails with that error. */
  lemma {:induction false} CollectStops<W>(rs: seq<Result<W, EncodeError>>, j: nat, k: nat)
    requires j < k <= |rs| && Collect(rs[..j]).Ok? && rs[j].Err?
    ensures Collect(rs[..k]) == Err(rs[j].error)
    decreases k
  {
    if k == j + 1 {
      CollectFailsAt(rs, j);
    } else {
      CollectStops(rs, j, k - 1);
      CollectKeepsError(rs, k - 1, rs[j].error);
    }
  }

  /** Each output as written, in order. */
  function OutputResults(p: Primitives, outs: seq<TxOut>): (rs: seq<Result<WireOutput, EncodeError>>)
    ensures |rs| == |outs| && forall j :: 0 <= j < |outs| ==> rs[j] == OutputView(p, outs[j])
  {
    seq(|outs|, j requires 0 <= j < |outs| => OutputView(p, outs[j]))
  }

  /** Every field fits where it is packed and every output address decodes. */
  ghost predicate Serializable(p: Primitives, tx: Tx, mode: Mode)
  {
    && 0 <= tx.version < TwoTo32 && 0 <= tx.locktime < TwoTo32
    && |tx.inputs| < TwoTo64 && |tx.outputs| < TwoTo64
    && (forall i :: 0 <= i < |tx.inputs| ==>
          0 <= tx.inputs[i].vout < TwoTo32 && |ScriptFor(tx.inputs[i], i, mode)| < TwoTo64)
    && (forall j :: 0 <= j < |tx.outputs| ==>
          0 <= tx.outputs[j].amount < TwoTo64 && CreateScriptPubKey(p, tx.outputs[j].address).Ok?)
  }

  /** The whole transaction as written, checked in the order the source packs it. */
  function View(p: Primitives, tx: Tx, mode: Mode): (r: Result<WireTx, EncodeError>)
    ensures r.Ok? ==> Fits(r.value)
  {
    if !(0 <= tx.version < TwoTo32) || |tx.inputs| >= TwoTo64 then Err(ValueOutOfRange)
    else
      match Collect(InputResults(tx, mode))
      case Err(e) => Err(e)
      case Ok(ins) =>
        if |tx.outputs| >= TwoTo64 then Err(ValueOutOfRange)
        else
          match Collect(OutputResults(p, tx.outputs))
          case Err(e) => Err(e)
          case Ok(outs) =>
            if !(0 <= tx.locktime < TwoTo32) then Err(ValueOutOfRange)
            else Ok(WireTx(tx.version, ins, outs, tx.locktime))
  }

  /** Serialising succeeds exactly when every field fits and every output address decodes. */
  lemma ViewOkIff(p: Primitives, tx: Tx, mode: Mode)
    ensures View(p, tx, mode).Ok? <==> Serializable(p, tx, mode)
  {
    if Serializable(p, tx, mode) {
      ViewOkWhenSerializable(p, tx, mode);
    }
    if View(p, tx, mode).Ok? {
      SerializableWhenViewOk(p, tx, mode);
    }
  }

  lemma ViewOkWhenSerializable(p: Primitives, tx: Tx, mode: Mode)
    requires Serializable(p, tx, mode)
    ensures View(p, tx, mode).Ok?
  {
    assert forall i :: 0 <= i < |tx.inputs| ==> InputView(tx, i, mode).Ok?;
    assert forall j :: 0 <= j < |tx.outputs| ==> OutputView(p, tx.outputs[j]).Ok?;
  }

  lemma SerializableWhenViewOk(p: Primitives, tx: Tx, mode: Mode)
    requires View(p, tx, mode).Ok?
    ensures Serializable(p, tx, mode)
  {
    forall i | 0 <= i < |tx.inputs|
      ensures 0 <= tx.inputs[i].vout < TwoTo32 && |ScriptFor(tx.inputs[i], i, mode)| < TwoTo64
    {
      assert InputView(tx, i, mode).Ok?;
    }
    forall j | 0 <= j < |tx.outputs|
      ensures 0 <= tx.outputs[j].amount < TwoTo64 && CreateScriptPubKey(p, tx.outputs[j].address).Ok?
    {
      assert OutputView(p, tx.outputs[j]).Ok?;
    }
  }

  /** What a successful serialisation writes: version and lock time as given; per input the
      reversed txid, the output index, the script the mode selects and the final sequence
      number; per output the amount and the P2PKH script of its address. */
  lemma ViewContents(p: Primitives, tx: Tx, mode: Mode)
    requires View(p, tx, mode).Ok?
    ensures var w := View(p, tx, mode).value;
      && w.version == tx.version && w.locktime == tx.locktime
      && |w.inputs| == |tx.inputs| && |w.outputs| == |tx.outputs|
      && (forall i :: 0 <= i < |tx.inputs| ==>
            && w.inputs[i].prevTxid == Reverse(tx.inputs[i].txid)
            && w.inputs[i].vout == tx.inputs[i].vout
            && w.inputs[i].script == ScriptFor(tx.inputs[i], i, mode)
            && w.inputs[i].sequence == SequenceFinal)
      && (forall j :: 0 <= j < |tx.outputs| ==>
            && w.outputs[j].amount == tx.outputs[j].amount
            && CreateScriptPubKey(p, tx.outputs[j].address) == Ok(w.outputs[j].script))
  {
  }

  /** An `InvalidAddress` failure comes from an output whose address does not decode. */
  lemma ViewInvalidAddress(p: Primitives, tx: Tx, mode: Mode)
    requires View(p, tx, mode) == Err(InvalidAddress)
    ensures exists j :: 0 <= j < |tx.outputs| && B58DecodeCheck(p, tx.outputs[j].address).None?
  {
    var ins := Collect(InputResults(tx, mode));
    if ins.Err? {
      var i := CollectErrorAt(InputResults(tx, mode));
      assert false;
    } else {
      var outs := Collect(OutputResults(p, tx.outputs));
      assert outs == Err(InvalidAddress);
      var j := CollectErrorAt(OutputResults(p, tx.outputs));
      assert OutputView(p, tx.outputs[j]) == Err(InvalidAddress);
      assert CreateScriptPubKey(p, tx.outputs[j].address) == Err(InvalidAddress);
    }
  }

  /** The bytes `serialize_transaction` returns, or the error it raises. */
  function Serialization(p: Primitives, tx: Tx, mode: Mode): Result<seq<Byte>, EncodeError>
  {
    match View(p, tx, mode)
    case Err(e) => Err(e)
    case Ok(w) => Ok(Encode(w))
  }

  /** Every input renders the same in two transactions that differ only in scriptSigs, when
      signing: the preimage never reads a scriptSig. */
  lemma InputResultsIgnoreScriptSigs(a: Tx, b: Tx, mode: Mode)
    requires mode.ForSigning? && SameExceptScriptSigs(a, b)
    ensures InputResults(a, mode) == InputResults(b, mode)
  {
    forall i | 0 <= i < |a.inputs|
      ensures InputView(a, i, mode) == InputView(b, i, mode)
    {
      assert a.inputs[i].(scriptSig := []) == b.inputs[i].(scriptSig := []);
    }
  }

  /** The signing serialisation of a transaction does not depend on any input's existing
      scriptSig: filling in signatures never changes the preimage of another input. */
  lemma SigningSerializationIgnoresScriptSigs(p: Primitives, a: Tx, b: Tx, mode: Mode)
    requires mode.ForSigning? && SameExceptScriptSigs(a, b)
    ensures Serialization(p, a, mode) == Serialization(p, b, mode)
  {
    InputResultsIgnoreScriptSigs(a, b, mode);
    assert View(p, a, mode) == View(p, b, mode);
  }

  /** Input i of a successful view is what `InputView` gives for it. */
  lemma InputOfView(p: Primitives, tx: Tx, mode: Mode, i: nat)
    requires View(p, tx, mode).Ok? && i < |tx.inputs|
    ensures |View(p, tx, mode).value.inputs| == |tx.inputs|
    ensures InputView(tx, i, mode) == Ok(View(p, tx, mode).value.inputs[i])
  {
  }

  /** The bytes of an input written with an empty script. */
  lemma EmptyScriptInput(w: WireInput)
    requires InputFits(w) && w.script == [] && w.sequence == SequenceFinal
    ensures EncodeInput(w) == w.prevTxid + LE(w.vout, 4) + [0x00] + [0xff, 0xff, 0xff, 0xff]
  {
    Pow256Widths();
    assert LE(SequenceFinal, 4) == [0xff, 0xff, 0xff, 0xff];
    assert VarInt(0) == [0x00];
  }

  /** When signing input k, every other input is written with the one-byte empty script
      length 0x00 and input k with its script code. */
  lemma SigningBlanksOtherInputs(p: Primitives, tx: Tx, k: nat, code: seq<Byte>, i: nat)
    requires View(p, tx, ForSigning(k, code)).Ok? && i < |tx.inputs|
    ensures var w := View(p, tx, ForSigning(k, code)).value.inputs[i];
      && (i != k ==> EncodeInput(w) == Reverse(tx.inputs[i].txid) + LE(tx.inputs[i].vout, 4) + [0x00]
                                       + [0xff, 0xff, 0xff, 0xff])
      && (i == k ==> w.script == code)
  {
    InputOfView(p, tx, ForSigning(k, code), i);
    if i != k {
      EmptyScriptInput(View(p, tx, ForSigning(k, code)).value.inputs[i]);
    }
  }

  /** When broadcasting, an input that has no scriptSig yet is written with the empty script
      length 0x00, the same as `varint(0)`. */
  lemma BroadcastUnsignedInput(p: Primitives, tx: Tx, i: nat)
    requires View(p, tx, Broadcast).Ok? && i < |tx.inputs| && tx.inputs[i].scriptSig == []
    ensures EncodeInput(View(p, tx, Broadcast).value.inputs[i])
            == Reverse(tx.inputs[i].txid) + LE(tx.inputs[i].vout, 4) + [0x00] + [0xff, 0xff, 0xff, 0xff]
  {
    InputOfView(p, tx, Broadcast, i);
    EmptyScriptInput(View(p, tx, Broadcast).value.inputs[i]);
  }

  /** The serialised bytes parse back to the wire view of the transaction, given 32-byte txids. */
  lemma SerializationParsesBack(p: Primitives, tx: Tx, mode: Mode)
    requires Serialization(p, tx, mode).Ok?
    requires forall i :: 0 <= i < |tx.inputs| ==> |tx.inputs[i].txid| == 32
    ensures ParseTx(Serialization(p, tx, mode).value) == Some(View(p, tx, mode).value)
  {
    ViewContents(p, tx, mode);
    ParseTxOfEncode(View(p, tx, mode).value);
  }

  /** The input loop of `serialize_transaction`: each input's reversed txid, index, script
      and sequence number, appended in order. */
  method SerializeInputs(tx: Tx, mode: Mode) returns (r: Result<seq<Byte>, EncodeError>)
    ensures r.Ok? <==> Collect(InputResults(tx, mode)).Ok?
    ensures r.Ok? ==> r.value == EncodeInputs(Collect(InputResults(tx, mode)).value)
    ensures r.Err? ==> Collect(InputResults(tx, mode)) == Err(r.error)
  {
    ghost var rs := InputResults(tx, mode);
    assert rs[..0] == [];
    var result := [];
    ghost var ins: seq<WireInput> := [];
    var i := 0;
    while i < |tx.inputs|
      invariant 0 <= i <= |tx.inputs|
      invariant Collect(rs[..i]) == Ok(ins)
      invariant forall j :: 0 <= j < |ins| ==> InputFits(ins[j])
      invariant result == EncodeInputs(ins)
    {
      var entry := SerializeInput(tx, i, mode);
      if entry.Err? {
        CollectStopsAt(rs, i);
        return Err(entry.error);
      }
      ghost var w := InputView(tx, i, mode).value;
      InputStep(tx, mode, rs, i, ins, w);
      result := result + entry.value;
      ins := ins + [w];
      i := i + 1;
    }
    assert rs[..|tx.inputs|] == rs;
    r := Ok(result);
  }

  /** The body of the input loop for input i: reversed txid, output index, the script the
      mode selects with its length, and the sequence number. */
  method SerializeInput(tx: Tx, i: nat, mode: Mode) returns (r: Result<seq<Byte>, EncodeError>)
    requires i < |tx.inputs|
    ensures r.Ok? <==> InputView(tx, i, mode).Ok?
    ensures r.Ok? ==> r.value == EncodeInput(InputView(tx, i, mode).value)
    ensures r.Err? ==> InputView(tx, i, mode) == Err(r.error)
  {
    Pow256Widths();
    var txin := tx.inputs[i];
    var script: seq<Byte>;
    if mode.ForSigning? {
      script := if i == mode.inputIndex then mode.scriptCode else [];
    } else {
      script := txin.scriptSig;
    }
    assert script == ScriptFor(txin, i, mode);
    if !(0 <= txin.vout < TwoTo32) || |script| >= TwoTo64 {
      return Err(ValueOutOfRange);
    }
    r := Ok(Reverse(txin.txid) + LE(txin.vout, 4) + VarInt(|script|) + script + LE(SequenceFinal, 4));
  }

  /** One turn of the input loop: input i as written extends the collected inputs and their
      bytes. */
  lemma InputStep(tx: Tx, mode: Mode, rs: seq<Result<WireInput, EncodeError>>, i: nat,
                  ins: seq<WireInput>, w: WireInput)
    requires rs == InputResults(tx, mode) && i < |rs| && Collect(rs[..i]) == Ok(ins)
    requires InputView(tx, i, mode) == Ok(w)
    requires forall j :: 0 <= j < |ins| ==> InputFits(ins[j])
    ensures forall j :: 0 <= j < |ins + [w]| ==> InputFits((ins + [w])[j])
    ensures Collect(rs[..i + 1]) == Ok(ins + [w])
    ensures EncodeInputs(ins + [w]) == EncodeInputs(ins) + EncodeInput(w)
  {
    assert rs[i] == Ok(w);
    CollectExtend(rs, i, ins, w);
    EncodeInputsSnoc(ins, w);
  }

  /** The output loop of `serialize_transaction`: each output's amount and the locking script
      of its address, appended in order. */
  method SerializeOutputs(p: Primitives, outs: seq<TxOut>) returns (r: Result<seq<Byte>, EncodeError>)
    ensures r.Ok? <==> Collect(OutputResults(p, outs)).Ok?
    ensures r.Ok? ==> r.value == EncodeOutputs(Collect(OutputResults(p, outs)).value)
    ensures r.Err? ==> Collect(OutputResults(p, outs)) == Err(r.error)
  {
    ghost var rs := OutputResults(p, outs);
    assert rs[..0] == [];
    var result := [];
    ghost var ws: seq<WireOutput> := [];
    var j := 0;
    while j < |outs|
      invariant 0 <= j <= |outs|
      invariant Collect(rs[..j]) == Ok(ws)
      invariant forall k :: 0 <= k < |ws| ==> OutputFits(ws[k])
      invariant result == EncodeOutputs(ws)
    {
      var entry := SerializeOutput(p, outs[j]);
      if entry.Err? {
        CollectStopsAt(rs, j);
        return Err(entry.error);
      }
      ghost var w := OutputView(p, outs[j]).value;
      OutputStep(p, outs, rs, j, ws, w);
      result := result + entry.value;
      ws := ws + [w];
      j := j + 1;
    }
    assert rs[..|outs|] == rs;
    r := Ok(result);
  }

  lemma OutputStep(p: Primitives, outs: seq<TxOut>, rs: seq<Result<WireOutput, EncodeError>>, j: nat,
                   ws: seq<WireOutput>, w: WireOutput)
    requires rs == OutputResults(p, outs) && j < |rs| && Collect(rs[..j]) == Ok(ws)
    requires forall k :: 0 <= k < |ws| ==> OutputFits(ws[k])
    requires OutputView(p, outs[j]) == Ok(w)
    ensures forall k :: 0 <= k < |ws + [w]| ==> OutputFits((ws + [w])[k])
    ensures Collect(rs[..j + 1]) == Ok(ws + [w])
    ensures EncodeOutputs(ws + [w]) == EncodeOutputs(ws) + EncodeOutput(w)
  {
    assert rs[j] == Ok(w);
    CollectExtend(rs, j, ws, w);
    EncodeOutputsSnoc(ws, w);
  }

  /** The body of the output loop: the amount as 8 little-endian bytes, then the locking
      script of the address with its length. */
  method SerializeOutput(p: Primitives, txout: TxOut) returns (r: Result<seq<Byte>, EncodeError>)
    ensures r.Ok? <==> OutputView(p, txout).Ok?
    ensures r.Ok? ==> r.value == EncodeOutput(OutputView(p, txout).value)
    ensures r.Err? ==> OutputView(p, txout) == Err(r.error)
  {
    Pow256Widths();
    if !(0 <= txout.amount < TwoTo64) {
      return Err(ValueOutOfRange);
    }
    var scriptPubKey := CreateScriptPubKey(p, txout.address);
    if scriptPubKey.Err? {
      return Err(scriptPubKey.error);
    }
    var script := scriptPubKey.value;
    r := Ok(LE(txout.amount, 8) + VarInt(|script|) + script);
  }

  /** `serialize_transaction`: version, input count, inputs, output count, outputs, lock
      time, raising (here: returning the error) at the first field that cannot be packed or
      address that cannot be decoded. */
  method Serialize(p: Primitives, tx: Tx, mode: Mode) returns (r: Result<seq<Byte>, EncodeError>)
    ensures r == Serialization(p, tx, mode)
  {
    Pow256Widths();
    if !(0 <= tx.version < TwoTo32) || |tx.inputs| >= TwoTo64 {
      return Err(ValueOutOfRange);
    }
    var result := LE(tx.version, 4) + VarInt(|tx.inputs|);
    var ins := SerializeInputs(tx, mode);
    if ins.Err? {
      return Err(ins.error);
    }
    result := result + ins.value;
    if |tx.outputs| >= TwoTo64 {
      return Err(ValueOutOfRange);
    }
    result := result + VarInt(|tx.outputs|);
    var outs := SerializeOutputs(p, tx.outputs);
    if outs.Err? {
      return Err(outs.error);
    }
    result := result + outs.value;
    if !(0 <= tx.locktime < TwoTo32) {
      return Err(ValueOutOfRange);
    }
    result := result + LE(tx.locktime, 4);
    r := Ok(result);
  }
}
