/** The in-memory transaction the planners build and the signer fills in
    (the `tx`, `inputs` and `outputs` dictionaries of cashOut.py and buyIn.py). */
module Transaction {
  import opened Bytes

  /** An unspent output as the node lists it; amounts in satoshis. */
  datatype Utxo = Utxo(txid: seq<Byte>, vout: int, scriptPubKey: seq<Byte>, amount: int)

  /** An input: the output it spends, that output's locking script and amount (kept for
      signing), and its unlocking script, empty until signed. */
  datatype TxIn = TxIn(txid: seq<Byte>, vout: int, scriptPubKey: seq<Byte>, amount: int, scriptSig: seq<Byte>)

  /** An output: the address paid and the amount in satoshis. */
  datatype TxOut = TxOut(address: string, amount: int)

  datatype Tx = Tx(version: int, inputs: seq<TxIn>, outputs: seq<TxOut>, locktime: int)

  /** Transaction version and lock time every planned transaction carries. */
  const TxVersion: int := 1
  const TxLocktime: int := 0
  /** The sequence number written after every input. */
  const SequenceFinal: nat := 0xffff_ffff

  /** The two ways `serialize_transaction` renders inputs: with their own scriptSig, or for
      signing input `inputIndex`, which alone carries `scriptCode`. */
  datatype Mode = Broadcast | ForSigning(inputIndex: nat, scriptCode: seq<Byte>)

  /** The input a UTXO becomes when selected: not yet signed. */
  function InputOf(u: Utxo): TxIn
  {
    TxIn(u.txid, u.vout, u.scriptPubKey, u.amount, [])
  }

  /** The running total of the first `j` UTXO amounts, as the selection loop accumulates it. */
  function Covered(utxos: seq<Utxo>, j: nat): int
    requires j <= |utxos|
  {
    if j == 0 then 0 else Covered(utxos, j - 1) + utxos[j - 1].amount
  }

  function InputTotal(ins: seq<TxIn>): int
  {
    if ins == [] then 0 else InputTotal(ins[..|ins| - 1]) + ins[|ins| - 1].amount
  }

  function OutputTotal(outs: seq<TxOut>): int
  {
    if outs == [] then 0 else OutputTotal(outs[..|outs| - 1]) + outs[|outs| - 1].amount
  }

  lemma InputTotalSnoc(ins: seq<TxIn>, x: TxIn)
    ensures InputTotal(ins + [x]) == InputTotal(ins) + x.amount
  {
    assert (ins + [x])[..|ins|] == ins;
  }

  /** The sum of an appended list is the sum of its parts. */
  lemma {:induction false} OutputTotalAppend(a: seq<TxOut>, b: seq<TxOut>)
    ensures OutputTotal(a + b) == OutputTotal(a) + OutputTotal(b)
    decreases |b|
  {
    if b == [] {
      assert a + b == a;
    } else {
      assert (a + b)[..|a + b| - 1] == a + b[..|b| - 1];
      OutputTotalAppend(a, b[..|b| - 1]);
    }
  }

  /** Two transactions that differ at most in their inputs' unlocking scripts. */
  ghost predicate SameExceptScriptSigs(a: Tx, b: Tx)
  {
    && a.version == b.version && a.outputs == b.outputs && a.locktime == b.locktime
    && |a.inputs| == |b.inputs|
    && forall i :: 0 <= i < |a.inputs| ==> a.inputs[i].(scriptSig := []) == b.inputs[i].(scriptSig := [])
  }
}
