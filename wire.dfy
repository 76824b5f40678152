/** The legacy transaction wire format: the byte layout `serialize_transaction` writes, and a
    parser that reads it back. */
module Wire {
  import opened Wrappers
  import opened Bytes
  import opened CompactSize

  /** An input as written: txid in wire order, output index, script, sequence number. */
  datatype WireInput = WireInput(prevTxid: seq<Byte>, vout: nat, script: seq<Byte>, sequence: nat)
  /** An output as written: amount and locking script. */
  datatype WireOutput = WireOutput(amount: nat, script: seq<Byte>)
  datatype WireTx = WireTx(version: nat, inputs: seq<WireInput>, outputs: seq<WireOutput>, locktime: nat)

  predicate InputFits(w: WireInput)
  {
    w.vout < TwoTo32 && |w.script| < TwoTo64 && w.sequence < TwoTo32
  }

  predicate OutputFits(w: WireOutput)
  {
    w.amount < TwoTo64 && |w.script| < TwoTo64
  }

  /** Every number fits the field `struct.pack` or `varint` writes it to. */
  predicate Fits(t: WireTx)
  {
    && t.version < TwoTo32 && t.locktime < TwoTo32
    && |t.inputs| < TwoTo64 && |t.outputs| < TwoTo64
    && (forall i :: 0 <= i < |t.inputs| ==> InputFits(t.inputs[i]))
    && (forall j :: 0 <= j < |t.outputs| ==> OutputFits(t.outputs[j]))
  }

  /** reversed txid || LE32 vout || varint(len) || script || LE32 sequence */
  function EncodeInput(w: WireInput): seq<Byte>
    requires InputFits(w)
  {
    Pow256Widths();
    w.prevTxid + LE(w.vout, 4) + VarInt(|w.script|) + w.script + LE(w.sequence, 4)
  }

  function EncodeInputs(ws: seq<WireInput>): seq<Byte>
    requires forall i :: 0 <= i < |ws| ==> InputFits(ws[i])
  {
    if ws == [] then [] else EncodeInput(ws[0]) + EncodeInputs(ws[1..])
  }

  /** LE64 amount || varint(len) || script */
  function EncodeOutput(w: WireOutput): seq<Byte>
    requires OutputFits(w)
  {
    Pow256Widths();
    LE(w.amount, 8) + VarInt(|w.script|) + w.script
  }

  function EncodeOutputs(ws: seq<WireOutput>): seq<Byte>
    requires forall j :: 0 <= j < |ws| ==> OutputFits(ws[j])
  {
    if ws == [] then [] else EncodeOutput(ws[0]) + EncodeOutputs(ws[1..])
  }

  /** LE32 version || varint(#inputs) || inputs || varint(#outputs) || outputs || LE32 locktime */
  function Encode(t: WireTx): seq<Byte>
    requires Fits(t)
  {
    Pow256Widths();
    LE(t.version, 4) + VarInt(|t.inputs|) + EncodeInputs(t.inputs)
      + VarInt(|t.outputs|) + EncodeOutputs(t.outputs) + LE(t.locktime, 4)
  }

  /** Appending one more input appends its encoding. */
  lemma {:induction false} EncodeInputsSnoc(ws: seq<WireInput>, w: WireInput)
    requires forall i :: 0 <= i < |ws| ==> InputFits(ws[i])
    requires InputFits(w)
    ensures EncodeInputs(ws + [w]) == EncodeInputs(ws) + EncodeInput(w)
  {
    if ws != [] {
      assert (ws + [w])[1..] == ws[1..] + [w];
      EncodeInputsSnoc(ws[1..], w);
    }
  }

  /** Appending one more output appends its encoding. */
  lemma {:induction false} EncodeOutputsSnoc(ws: seq<WireOutput>, w: WireOutput)
    requires forall j :: 0 <= j < |ws| ==> OutputFits(ws[j])
    requires OutputFits(w)
    ensures EncodeOutputs(ws + [w]) == EncodeOutputs(ws) + EncodeOutput(w)
  {
    if ws != [] {
      assert (ws + [w])[1..] == ws[1..] + [w];
      EncodeOutputsSnoc(ws[1..], w);
    }
  }

  /** Reads k raw bytes off the front of b. */
  function ParseBytes(b: seq<Byte>, k: nat): Option<(seq<Byte>, seq<Byte>)>
  {
    if |b| < k then None else Some((b[..k], b[k..]))
  }

  /** Reads a varint length and that many bytes. */
  function ParseScript(b: seq<Byte>): Option<(seq<Byte>, seq<Byte>)>
  {
    match ParseVarInt(b)
    case None => None
    case Some((n, rest)) => ParseBytes(rest, n)
  }

  function ParseInput(b: seq<Byte>): Option<(WireInput, seq<Byte>)>
  {
    match ParseBytes(b, 32)
    case None => None
    case Some((txid, r1)) =>
      match ParseLE(r1, 4)
      case None => None
      case Some((vout, r2)) =>
        match ParseScript(r2)
        case None => None
        case Some((script, r3)) =>
          match ParseLE(r3, 4)
          case None => None
          case Some((sequence, r4)) => Some((WireInput(txid, vout, script, sequence), r4))
  }

  function ParseInputs(count: nat, b: seq<Byte>): Option<(seq<WireInput>, seq<Byte>)>
    decreases count
  {
    if count == 0 then Some(([], b))
    else
      match ParseInput(b)
      case None => None
      case Some((w, r1)) =>
        match ParseInputs(count - 1, r1)
        case None => None
        case Some((ws, r2)) => Some(([w] + ws, r2))
  }

  function ParseOutput(b: seq<Byte>): Option<(WireOutput, seq<Byte>)>
  {
    match ParseLE(b, 8)
    case None => None
    case Some((amount, r1)) =>
      match ParseScript(r1)
      case None => None
      case Some((script, r2)) => Some((WireOutput(amount, script), r2))
  }

  function ParseOutputs(count: nat, b: seq<Byte>): Option<(seq<WireOutput>, seq<Byte>)>
    decreases count
  {
    if count == 0 then Some(([], b))
    else
      match ParseOutput(b)
      case None => None
      case Some((w, r1)) =>
        match ParseOutputs(count - 1, r1)
        case None => None
        case Some((ws, r2)) => Some(([w] + ws, r2))
  }

  /** Reads a whole transaction; the 4 lock-time bytes must end the buffer. */
  function ParseTx(b: seq<Byte>): Option<WireTx>
  {
    match ParseLE(b, 4)
    case None => None
    case Some((version, r1)) =>
      match ParseVarInt(r1)
      case None => None
      case Some((nIn, r2)) =>
        match ParseInputs(nIn, r2)
        case None => None
        case Some((ins, r3)) =>
          match ParseVarInt(r3)
          case None => None
          case Some((nOut, r4)) =>
            match ParseOutputs(nOut, r4)
            case None => None
            case Some((outs, r5)) =>
              if |r5| != 4 then None else Some(WireTx(version, ins, outs, FromLE(r5)))
  }

  lemma ParseBytesOf(s: seq<Byte>, rest: seq<Byte>)
    ensures ParseBytes(s + rest, |s|) == Some((s, rest))
  {
    assert (s + rest)[..|s|] == s && (s + rest)[|s|..] == rest;
  }

  lemma ParseScriptOf(s: seq<Byte>, rest: seq<Byte>)
    requires |s| < TwoTo64
    ensures ParseScript(VarInt(|s|) + s + rest) == Some((s, rest))
  {
    assert VarInt(|s|) + s + rest == VarInt(|s|) + (s + rest);
    ParseVarIntOfVarInt(|s|, s + rest);
    ParseBytesOf(s, rest);
  }

  lemma ParseInputOf(w: WireInput, rest: seq<Byte>)
    requires InputFits(w) && |w.prevTxid| == 32
    ensures ParseInput(EncodeInput(w) + rest) == Some((w, rest))
  {
    Pow256Widths();
    var tail := LE(w.sequence, 4) + rest;
    var r2 := VarInt(|w.script|) + w.script + tail;
    var r1 := LE(w.vout, 4) + r2;
    InputSplit(w, rest, tail, r2, r1);
    ParseBytesOf(w.prevTxid, r1);
    ParseLEOfLE(w.vout, 4, r2);
    ParseScriptOf(w.script, tail);
    ParseLEOfLE(w.sequence, 4, rest);
    ParseInputSteps(EncodeInput(w) + rest, w, r1, r2, tail, rest);
  }

  lemma InputSplit(w: WireInput, rest: seq<Byte>, tail: seq<Byte>, r2: seq<Byte>, r1: seq<Byte>)
    requires InputFits(w) && Pow256(4) == TwoTo32
    requires tail == LE(w.sequence, 4) + rest
    requires r2 == VarInt(|w.script|) + w.script + tail
    requires r1 == LE(w.vout, 4) + r2
    ensures EncodeInput(w) + rest == w.prevTxid + r1
  {
  }

  lemma ParseInputSteps(b: seq<Byte>, w: WireInput, r1: seq<Byte>, r2: seq<Byte>, tail: seq<Byte>, rest: seq<Byte>)
    requires ParseBytes(b, 32) == Some((w.prevTxid, r1))
    requires ParseLE(r1, 4) == Some((w.vout, r2))
    requires ParseScript(r2) == Some((w.script, tail))
    requires ParseLE(tail, 4) == Some((w.sequence, rest))
    ensures ParseInput(b) == Some((w, rest))
  {
  }

  lemma ParseOutputOf(w: WireOutput, rest: seq<Byte>)
    requires OutputFits(w)
    ensures ParseOutput(EncodeOutput(w) + rest) == Some((w, rest))
  {
    Pow256Widths();
    var r1 := VarInt(|w.script|) + w.script + rest;
    var b := EncodeOutput(w) + rest;
    assert b == LE(w.amount, 8) + r1;
    ParseLEOfLE(w.amount, 8, r1);
    assert ParseLE(b, 8) == Some((w.amount, r1));
    ParseScriptOf(w.script, rest);
    assert ParseScript(r1) == Some((w.script, rest));
  }

  lemma {:induction false} ParseInputsOf(ws: seq<WireInput>, rest: seq<Byte>)
    requires forall i :: 0 <= i < |ws| ==> InputFits(ws[i]) && |ws[i].prevTxid| == 32
    ensures ParseInputs(|ws|, EncodeInputs(ws) + rest) == Some((ws, rest))
  {
    if ws == [] {
      assert EncodeInputs(ws) + rest == rest;
    } else {
      var b := EncodeInputs(ws[1..]) + rest;
      assert EncodeInputs(ws) + rest == EncodeInput(ws[0]) + b;
      ParseInputOf(ws[0], b);
      ParseInputsOf(ws[1..], rest);
      assert ParseInputs(|ws| - 1, b) == Some((ws[1..], rest));
      assert [ws[0]] + ws[1..] == ws;
    }
  }

  lemma {:induction false} ParseOutputsOf(ws: seq<WireOutput>, rest: seq<Byte>)
    requires forall j :: 0 <= j < |ws| ==> OutputFits(ws[j])
    ensures ParseOutputs(|ws|, EncodeOutputs(ws) + rest) == Some((ws, rest))
  {
    if ws == [] {
      assert EncodeOutputs(ws) + rest == rest;
    } else {
      var b := EncodeOutputs(ws[1..]) + rest;
      assert EncodeOutputs(ws) + rest == EncodeOutput(ws[0]) + b;
      ParseOutputOf(ws[0], b);
      ParseOutputsOf(ws[1..], rest);
      assert ParseOutputs(|ws| - 1, b) == Some((ws[1..], rest));
      assert [ws[0]] + ws[1..] == ws;
    }
  }

  /** Every transaction whose numbers fit their fields and whose txids are 32 bytes is read
      back exactly from its serialisation. */
  lemma ParseTxOfEncode(t: WireTx)
    requires Fits(t)
    requires forall i :: 0 <= i < |t.inputs| ==> |t.inputs[i].prevTxid| == 32
    ensures ParseTx(Encode(t)) == Some(t)
  {
    Pow256Widths();
    var lock := LE(t.locktime, 4);
    var r4 := EncodeOutputs(t.outputs) + lock;
    var r3 := VarInt(|t.outputs|) + r4;
    var r2 := EncodeInputs(t.inputs) + r3;
    var r1 := VarInt(|t.inputs|) + r2;
    EncodeSplit(t, r1, r2, r3, r4, lock);
    ParseLEOfLE(t.version, 4, r1);
    ParseVarIntOfVarInt(|t.inputs|, r2);
    ParseInputsOf(t.inputs, r3);
    ParseVarIntOfVarInt(|t.outputs|, r4);
    ParseOutputsOf(t.outputs, lock);
    FromLEOfLE(t.locktime, 4);
    ParseTxSteps(Encode(t), t, r1, r2, r3, r4, lock);
  }

  lemma EncodeSplit(t: WireTx, r1: seq<Byte>, r2: seq<Byte>, r3: seq<Byte>, r4: seq<Byte>, lock: seq<Byte>)
    requires Fits(t)
    requires Pow256(4) == TwoTo32
    requires lock == LE(t.locktime, 4)
    requires r4 == EncodeOutputs(t.outputs) + lock
    requires r3 == VarInt(|t.outputs|) + r4
    requires r2 == EncodeInputs(t.inputs) + r3
    requires r1 == VarInt(|t.inputs|) + r2
    ensures Encode(t) == LE(t.version, 4) + r1
  {
    Associate(LE(t.version, 4), VarInt(|t.inputs|), EncodeInputs(t.inputs),
              VarInt(|t.outputs|), EncodeOutputs(t.outputs), lock);
  }

  lemma Associate(a: seq<Byte>, b: seq<Byte>, c: seq<Byte>, d: seq<Byte>, e: seq<Byte>, f: seq<Byte>)
    ensures a + b + c + d + e + f == a + (b + (c + (d + (e + f))))
  {
  }

  lemma ParseTxSteps(b: seq<Byte>, t: WireTx, r1: seq<Byte>, r2: seq<Byte>, r3: seq<Byte>,
                     r4: seq<Byte>, lock: seq<Byte>)
    requires ParseLE(b, 4) == Some((t.version, r1))
    requires ParseVarInt(r1) == Some((|t.inputs|, r2))
    requires ParseInputs(|t.inputs|, r2) == Some((t.inputs, r3))
    requires ParseVarInt(r3) == Some((|t.outputs|, r4))
    requires ParseOutputs(|t.outputs|, r4) == Some((t.outputs, lock))
    requires |lock| == 4 && FromLE(lock) == t.locktime
    ensures ParseTx(b) == Some(t)
  {
  }
}
