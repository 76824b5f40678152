/** P2PKH locking scripts, addresses and wallet-import-format keys
    (`create_script_pubkey`, `public_key_to_address`, `wif_to_privkey_hex`, `wif_to_address`). */
module Script {
  import opened Wrappers
  import opened Bytes
  import opened Primitives

  /** Why serialising can fail: `b58decode_check` rejects an address (`ValueError`), or a
      value does not fit its field (`struct.error`, or `bytes([n])` with n > 255). */
  datatype EncodeError = InvalidAddress | ValueOutOfRange

  const OP_DUP: Byte := 0x76
  const OP_HASH160: Byte := 0xa9
  const OP_EQUALVERIFY: Byte := 0x88
  const OP_CHECKSIG: Byte := 0xac

  /** Version byte of a Dogecoin mainnet address. */
  const DogecoinAddressVersion: Byte := 0x1E

  /** The fixed template DUP HASH160 push(h) EQUALVERIFY CHECKSIG. */
  function P2PKH(h: seq<Byte>): (s: seq<Byte>)
    requires |h| < 256
    ensures |s| == |h| + 5
  {
    [OP_DUP, OP_HASH160, |h|] + h + [OP_EQUALVERIFY, OP_CHECKSIG]
  }

  /** Recognises the P2PKH template and returns the pushed hash. */
  function ParseP2PKH(s: seq<Byte>): Option<seq<Byte>>
  {
    if |s| >= 5 && s[0] == OP_DUP && s[1] == OP_HASH160 && s[2] == |s| - 5
       && s[|s| - 2] == OP_EQUALVERIFY && s[|s| - 1] == OP_CHECKSIG
    then Some(s[3..|s| - 2])
    else None
  }

  /** The template is recognised and gives back exactly the hash it was built from. */
  lemma ParseP2PKHOfP2PKH(h: seq<Byte>)
    requires |h| < 256
    ensures ParseP2PKH(P2PKH(h)) == Some(h)
  {
    assert P2PKH(h)[3..|h| + 3] == h;
  }

  /** `address_bytes[1:]`: the decoded address without its version byte. */
  function PubKeyHashOf(payload: seq<Byte>): seq<Byte>
  {
    if |payload| == 0 then [] else payload[1..]
  }

  /** `create_script_pubkey(address)`. */
  function CreateScriptPubKey(p: Primitives, address: string): (r: Result<seq<Byte>, EncodeError>)
    ensures B58DecodeCheck(p, address).None? <==> r == Err(InvalidAddress)
    ensures r.Ok? <==> B58DecodeCheck(p, address).Some?
                       && |PubKeyHashOf(B58DecodeCheck(p, address).value)| < 256
    ensures r.Ok? ==> ParseP2PKH(r.value) == Some(PubKeyHashOf(B58DecodeCheck(p, address).value))
    ensures r.Ok? && |B58DecodeCheck(p, address).value| == 21 ==> |r.value| == 25
  {
    match B58DecodeCheck(p, address)
    case None => Err(InvalidAddress)
    case Some(payload) =>
      var h := PubKeyHashOf(payload);
      if |h| >= 256 then Err(ValueOutOfRange)
      else
        ParseP2PKHOfP2PKH(h);
        Ok(P2PKH(h))
  }

  /** `versioned_payload + checksum` of `public_key_to_address`: version 0x1E, the 20-byte
      public-key hash, then the 4-byte checksum. */
  function AddressBytes(p: Primitives, pk: seq<Byte>): (r: seq<Byte>)
    requires WellBehaved(p)
    ensures |r| == 25 && r[0] == DogecoinAddressVersion
    ensures r[1..21] == Hash160(p, pk)
    ensures r[21..] == Checksum(p, r[..21])
  {
    var payload := [DogecoinAddressVersion] + Hash160(p, pk);
    assert (payload + Checksum(p, payload))[..21] == payload;
    payload + Checksum(p, payload)
  }

  /** `public_key_to_address(public_key_bytes)`. */
  function PublicKeyToAddress(p: Primitives, pk: seq<Byte>): (a: string)
    requires WellBehaved(p)
    ensures a == B58CheckEncode(p, [DogecoinAddressVersion] + Hash160(p, pk))
  {
    p.b58encode(AddressBytes(p, pk))
  }

  /** The locking script for an address derived from a public key pays to that key's hash:
      decoding recovers the 21-byte payload and the script is the 25-byte P2PKH template. */
  lemma ScriptOfDerivedAddress(p: Primitives, pk: seq<Byte>)
    requires WellBehaved(p) && Base58RoundTrips(p)
    ensures CreateScriptPubKey(p, PublicKeyToAddress(p, pk)) == Ok(P2PKH(Hash160(p, pk)))
    ensures |P2PKH(Hash160(p, pk))| == 25
  {
    var payload := [DogecoinAddressVersion] + Hash160(p, pk);
    assert AddressBytes(p, pk) == payload + Checksum(p, payload);
    B58CheckRoundTrip(p, payload);
    assert PubKeyHashOf(payload) == Hash160(p, pk);
  }

  /** `wif_to_privkey_hex(wif)` without the hex step: the decoded key with its version byte
      and its compression flag cut off (`private_key_full[1:-1]`). */
  function WifToPrivKey(p: Primitives, wif: string): (r: Option<seq<Byte>>)
    ensures r.Some? <==> B58DecodeCheck(p, wif).Some?
    ensures r.Some? && |B58DecodeCheck(p, wif).value| >= 2 ==>
      var full := B58DecodeCheck(p, wif).value;
      |r.value| == |full| - 2 && full == [full[0]] + r.value + [full[|full| - 1]]
    ensures r.Some? && |B58DecodeCheck(p, wif).value| < 2 ==> r.value == []
  {
    match B58DecodeCheck(p, wif)
    case None => None
    case Some(full) =>
      if |full| >= 2 then
        assert full == [full[0]] + full[1..|full| - 1] + [full[|full| - 1]];
        Some(full[1..|full| - 1])
      else Some([])
  }

  /** The wallet-import format of a compressed key: version, key, flag 0x01, Base58Check. */
  function EncodeWif(p: Primitives, version: Byte, key: seq<Byte>): string
  {
    B58CheckEncode(p, [version] + key + [0x01])
  }

  /** `wif_to_privkey_hex` recovers the key from its wallet-import format. */
  lemma WifToPrivKeyOfEncodeWif(p: Primitives, version: Byte, key: seq<Byte>)
    requires WellBehaved(p) && Base58RoundTrips(p)
    ensures WifToPrivKey(p, EncodeWif(p, version, key)) == Some(key)
  {
    var full := [version] + key + [0x01];
    B58CheckRoundTrip(p, full);
    assert full[1..|full| - 1] == key;
  }

  /** The public key `wif_to_address` hashes: 0x02 and the x coordinate, whatever y is. */
  function WifAddressKey(raw: seq<Byte>): (k: seq<Byte>)
    ensures |k| >= 1 && k[0] == 0x02 && k[1..] == Take(raw, 32)
  {
    [0x02] + Take(raw, 32)
  }

  /** `wif_to_address(wif)` as written; None where decoding or `from_string` raises. */
  function WifToAddress(p: Primitives, wif: string): (r: Option<string>)
    requires WellBehaved(p)
    ensures r.Some? <==> WifToPrivKey(p, wif).Some? && p.verifyingKey(WifToPrivKey(p, wif).value).Some?
    ensures r.Some? ==> r.value == p.b58encode(
      AddressBytes(p, WifAddressKey(p.verifyingKey(WifToPrivKey(p, wif).value).value)))
  {
    match WifToPrivKey(p, wif)
    case None => None
    case Some(key) =>
      match p.verifyingKey(key)
      case None => None
      case Some(raw) => Some(PublicKeyToAddress(p, WifAddressKey(raw)))
  }

  /** For every point with an odd y, the key `wif_to_address` hashes is not the compressed
      public key that `sign_transaction` puts into each scriptSig. */
  lemma WifAddressKeyWrongForOddY(raw: seq<Byte>)
    requires |raw| == 64 && raw[63] % 2 == 1
    ensures WifAddressKey(raw) != Compressed(raw)
  {
    assert WifAddressKey(raw)[0] != Compressed(raw)[0];
  }

  /** A concrete point: x = 0, y = 1 gives the key 0x02 || x where the compressed key is 0x03 || x. */
  lemma WifAddressKeyCounterexample()
    ensures var raw := seq(63, _ => 0) + [1];
      |raw| == 64 && WifAddressKey(raw) != Compressed(raw)
  {
    var raw: seq<Byte> := seq(63, _ => 0) + [1];
    WifAddressKeyWrongForOddY(raw);
  }

  /** `wif_to_address` with the parity prefix taken from y, as the signer's public key is. */
  function WifToAddressCorrected(p: Primitives, wif: string): (r: Option<string>)
    requires WellBehaved(p)
    ensures r.Some? <==> WifToPrivKey(p, wif).Some? && p.verifyingKey(WifToPrivKey(p, wif).value).Some?
  {
    match WifToPrivKey(p, wif)
    case None => None
    case Some(key) =>
      match p.verifyingKey(key)
      case None => None
      case Some(raw) => Some(PublicKeyToAddress(p, Compressed(raw)))
  }

  /** The corrected address locks coins to the hash of the compressed public key of the
      wallet's own key, the key the signer places in every scriptSig. */
  lemma CorrectedAddressPaysSignerKey(p: Primitives, wif: string, key: seq<Byte>, raw: seq<Byte>)
    requires WellBehaved(p) && Base58RoundTrips(p)
    requires WifToPrivKey(p, wif) == Some(key) && p.verifyingKey(key) == Some(raw)
    ensures WifToAddressCorrected(p, wif).Some?
    ensures CreateScriptPubKey(p, WifToAddressCorrected(p, wif).value)
            == Ok(P2PKH(Hash160(p, Compressed(raw))))
  {
    ScriptOfDerivedAddress(p, Compressed(raw));
  }
}
