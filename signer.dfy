/** `sign_transaction` (cashOut.py and buyIn.py): every input gets a P2PKH unlocking script
    made of a DER signature over its SIGHASH_ALL digest and the compressed public key. */
module Signer {
  import opened Wrappers
  import opened Bytes
  import opened CompactSize
  import opened Primitives
  import opened Script
  import opened Transaction
  import opened Wire
  import opened Serializer

  datatype SignError =
    | InvalidKey                         // `SigningKey.from_string` rejects the private key
    | Unserializable(error: EncodeError)  // `serialize_transaction` raises for a signing preimage

  /** The SIGHASH_ALL hash type, appended to the preimage as a 4-byte word and to the
      signature as one byte. */
  const SighashAll: Byte := 1
  const SighashAllWord: seq<Byte> := [0x01, 0x00, 0x00, 0x00]

  /** The appended word is `struct.pack("<I", 1)`. */
  lemma SighashAllWordIsLE()
    ensures LE(SighashAll, 4) == SighashAllWord
  {
    Pow256Widths();
    assert LE(0, 0) == [];
  }

  /** The bytes signed for input i: the transaction serialised with that input alone carrying
      its own scriptPubKey as script code, then the hash-type word. */
  function Preimage(p: Primitives, tx: Tx, i: nat): (r: Result<seq<Byte>, EncodeError>)
    requires i < |tx.inputs|
  {
    match Serialization(p, tx, ForSigning(i, tx.inputs[i].scriptPubKey))
    case Err(e) => Err(e)
    case Ok(b) => Ok(b + SighashAllWord)
  }

  /** The signature pushed for a preimage: the DER signature of its double SHA-256, followed by
      the hash-type byte. */
  function Signature(p: Primitives, privkey: seq<Byte>, preimage: seq<Byte>): (sig: seq<Byte>)
    requires WellBehaved(p)
    ensures 1 <= |sig| <= 73 && sig[|sig| - 1] == 0x01
  {
    p.signDigest(privkey, DoubleSha256(p, preimage)) + [SighashAll]
  }

  /** The P2PKH unlocking script: push the signature, then push the public key. */
  function ScriptSig(sig: seq<Byte>, publicKey: seq<Byte>): seq<Byte>
    requires |sig| < TwoTo64 && |publicKey| < TwoTo64
  {
    VarInt(|sig|) + sig + VarInt(|publicKey|) + publicKey
  }

  /** Splits an unlocking script into its two pushes; None unless it is exactly two. */
  function ParseScriptSig(b: seq<Byte>): Option<(seq<Byte>, seq<Byte>)>
  {
    match ParseScript(b)
    case None => None
    case Some((sig, rest)) =>
      match ParseScript(rest)
      case None => None
      case Some((publicKey, tail)) => if tail == [] then Some((sig, publicKey)) else None
  }

  /** The unlocking script gives back the signature and the public key it was built from. */
  lemma ParseScriptSigOfScriptSig(sig: seq<Byte>, publicKey: seq<Byte>)
    requires |sig| < TwoTo64 && |publicKey| < TwoTo64
    ensures ParseScriptSig(ScriptSig(sig, publicKey)) == Some((sig, publicKey))
  {
    var second := VarInt(|publicKey|) + publicKey;
    assert ScriptSig(sig, publicKey) == VarInt(|sig|) + sig + second;
    ParseScriptOf(sig, second);
    ParseScriptOf(publicKey, []);
    assert second + [] == second;
  }

  /** What input i's unlocking script must be once the transaction is signed with `privkey`,
      whose public key is `publicKey`. */
  ghost predicate SignedAt(p: Primitives, tx: Tx, signed: Tx, privkey: seq<Byte>, publicKey: seq<Byte>, i: nat)
    requires WellBehaved(p) && i < |tx.inputs| && i < |signed.inputs| && |publicKey| == 33
  {
    && Preimage(p, tx, i).Ok?
    && signed.inputs[i].scriptSig == ScriptSig(Signature(p, privkey, Preimage(p, tx, i).value), publicKey)
  }

  /** `sign_transaction`. The source assigns each input's scriptSig in place; here the updated
      transaction is returned. */
  method SignTransaction(p: Primitives, tx: Tx, privkey: seq<Byte>) returns (r: Result<Tx, SignError>)
    requires WellBehaved(p)
    ensures r == Err(InvalidKey) <==> p.verifyingKey(privkey).None?
    ensures r.Ok? <==> p.verifyingKey(privkey).Some? && forall i :: 0 <= i < |tx.inputs| ==> Preimage(p, tx, i).Ok?
    ensures r.Ok? ==> SameExceptScriptSigs(tx, r.value)
    ensures r.Ok? ==> forall i :: 0 <= i < |tx.inputs| ==>
                        SignedAt(p, tx, r.value, privkey, Compressed(p.verifyingKey(privkey).value), i)
    ensures r.Err? && r.error.Unserializable? ==>
              exists i :: 0 <= i < |tx.inputs| && Preimage(p, tx, i) == Err(r.error.error)
  {
    var vk := p.verifyingKey(privkey);
    if vk.None? {
      return Err(InvalidKey);
    }
    var publicKey := Compressed(vk.value);
    var current := tx;
    var i := 0;
    while i < |tx.inputs|
      invariant 0 <= i <= |tx.inputs|
      invariant SameExceptScriptSigs(tx, current)
      invariant forall j :: 0 <= j < i ==> SignedAt(p, tx, current, privkey, publicKey, j)
    {
      var txin := current.inputs[i];
      var scriptCode := txin.scriptPubKey;
      assert scriptCode == tx.inputs[i].scriptPubKey by {
        assert tx.inputs[i].(scriptSig := []) == current.inputs[i].(scriptSig := []);
      }
      var serialized := Serialize(p, current, ForSigning(i, scriptCode));
      SigningSerializationIgnoresScriptSigs(p, tx, current, ForSigning(i, scriptCode));
      if serialized.Err? {
        assert Preimage(p, tx, i) == Err(serialized.error);
        return Err(Unserializable(serialized.error));
      }
      var preimage := serialized.value + SighashAllWord;
      assert Preimage(p, tx, i) == Ok(preimage);
      var signature := Signature(p, privkey, preimage);
      var scriptSig := ScriptSig(signature, publicKey);
      SignStep(p, tx, current, privkey, publicKey, i, scriptSig);
      current := current.(inputs := current.inputs[i := txin.(scriptSig := scriptSig)]);
      i := i + 1;
    }
    forall j | 0 <= j < |tx.inputs|
      ensures Preimage(p, tx, j).Ok?
    {
      assert SignedAt(p, tx, current, privkey, publicKey, j);
    }
    return Ok(current);
  }

  /** Setting input i's unlocking script keeps the other inputs' and the signed prefix intact. */
  lemma SignStep(p: Primitives, tx: Tx, current: Tx, privkey: seq<Byte>, publicKey: seq<Byte>, i: nat,
                 scriptSig: seq<Byte>)
    requires WellBehaved(p) && |publicKey| == 33 && i < |tx.inputs|
    requires SameExceptScriptSigs(tx, current)
    requires forall j :: 0 <= j < i ==> SignedAt(p, tx, current, privkey, publicKey, j)
    requires Preimage(p, tx, i).Ok?
    requires scriptSig == ScriptSig(Signature(p, privkey, Preimage(p, tx, i).value), publicKey)
    ensures var next := current.(inputs := current.inputs[i := current.inputs[i].(scriptSig := scriptSig)]);
      && SameExceptScriptSigs(tx, next)
      && forall j :: 0 <= j <= i ==> SignedAt(p, tx, next, privkey, publicKey, j)
  {
    var next := current.(inputs := current.inputs[i := current.inputs[i].(scriptSig := scriptSig)]);
    forall j | 0 <= j < |tx.inputs|
      ensures tx.inputs[j].(scriptSig := []) == next.inputs[j].(scriptSig := [])
    {
      assert tx.inputs[j].(scriptSig := []) == current.inputs[j].(scriptSig := []);
    }
    forall j | 0 <= j <= i
      ensures SignedAt(p, tx, next, privkey, publicKey, j)
    {
      if j < i {
        assert SignedAt(p, tx, current, privkey, publicKey, j);
        assert next.inputs[j].scriptSig == current.inputs[j].scriptSig;
      }
    }
  }

  /** Signing leaves every signing preimage as it was: signing the signed transaction again
      hashes the same bytes for every input. */
  lemma PreimagesSurviveSigning(p: Primitives, tx: Tx, signed: Tx, i: nat)
    requires SameExceptScriptSigs(tx, signed) && i < |tx.inputs|
    ensures Preimage(p, signed, i) == Preimage(p, tx, i)
  {
    assert tx.inputs[i].(scriptSig := []) == signed.inputs[i].(scriptSig := []);
    SigningSerializationIgnoresScriptSigs(p, tx, signed, ForSigning(i, tx.inputs[i].scriptPubKey));
  }

  /** The unlocking script of every signed input names the key the corrected `wif_to_address`
      derives, and carries a signature ending in the SIGHASH_ALL byte. */
  lemma SignedInputUnlocks(p: Primitives, tx: Tx, signed: Tx, privkey: seq<Byte>, i: nat)
    requires WellBehaved(p) && p.verifyingKey(privkey).Some?
    requires i < |tx.inputs| && i < |signed.inputs|
    requires SignedAt(p, tx, signed, privkey, Compressed(p.verifyingKey(privkey).value), i)
    ensures ParseScriptSig(signed.inputs[i].scriptSig).Some?
    ensures var (sig, publicKey) := ParseScriptSig(signed.inputs[i].scriptSig).value;
      && publicKey == Compressed(p.verifyingKey(privkey).value)
      && sig[|sig| - 1] == 0x01
  {
    var publicKey := Compressed(p.verifyingKey(privkey).value);
    ParseScriptSigOfScriptSig(Signature(p, privkey, Preimage(p, tx, i).value), publicKey);
  }
}
