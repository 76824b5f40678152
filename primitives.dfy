/** The cryptographic and encoding libraries the engine calls (`hashlib`, `base58`, `ecdsa`),
    kept uninterpreted: a value of `Primitives` is one choice of these functions, passed as a
    parameter. Only output lengths are assumed, through `WellBehaved`. */
module Primitives {
  import opened Wrappers
  import opened Bytes

  datatype Primitives = Primitives(
    /** `hashlib.sha256(m).digest()` */
    sha256: seq<Byte> -> seq<Byte>,
    /** `hashlib.new('ripemd160', m).digest()` */
    ripemd160: seq<Byte> -> seq<Byte>,
    /** `base58.b58encode`: bytes to Base58 text */
    b58encode: seq<Byte> -> string,
    /** `base58.b58decode`: Base58 text to bytes; None where it raises on a non-alphabet character */
    b58decode: string -> Option<seq<Byte>>,
    /** `SigningKey.from_string(k, SECP256k1).get_verifying_key().to_string()`: the raw 64-byte
        point x || y, big-endian coordinates; None where `from_string` rejects the key */
    verifyingKey: seq<Byte> -> Option<seq<Byte>>,
    /** `sign_digest(digest, sigencode=sigencode_der_canonize)`: a DER signature with low S */
    signDigest: (seq<Byte>, seq<Byte>) -> seq<Byte>
  )

  /** The output lengths fixed by the standards: SHA-256 gives 32 bytes, RIPEMD-160 gives 20,
      a secp256k1 point is 64 raw bytes, a DER ECDSA signature is at most 72 bytes. */
  ghost predicate WellBehaved(p: Primitives)
  {
    && (forall m :: |p.sha256(m)| == 32)
    && (forall m :: |p.ripemd160(m)| == 20)
    && (forall k :: p.verifyingKey(k).Some? ==> |p.verifyingKey(k).value| == 64)
    && (forall k, d :: |p.signDigest(k, d)| <= 72)
  }

  /** Base58 decoding inverts Base58 encoding (leading zero bytes included). */
  ghost predicate Base58RoundTrips(p: Primitives)
  {
    forall b :: p.b58decode(p.b58encode(b)) == Some(b)
  }

  /** SHA-256 applied twice, the hash of both the checksum and the signature digest. */
  function DoubleSha256(p: Primitives, m: seq<Byte>): seq<Byte>
  {
    p.sha256(p.sha256(m))
  }

  /** RIPEMD-160 of SHA-256: the public-key hash of a P2PKH address. */
  function Hash160(p: Primitives, m: seq<Byte>): seq<Byte>
  {
    p.ripemd160(p.sha256(m))
  }

  /** The Base58Check checksum of a payload: the first 4 bytes of its double SHA-256. */
  function Checksum(p: Primitives, payload: seq<Byte>): seq<Byte>
  {
    Take(DoubleSha256(p, payload), 4)
  }

  /** `base58.b58decode_check`: decode, split off the last 4 bytes and compare them with the
      checksum of the rest; None where the library raises `ValueError`. */
  function B58DecodeCheck(p: Primitives, s: string): (r: Option<seq<Byte>>)
    ensures r.Some? ==> p.b58decode(s) == Some(r.value + Checksum(p, r.value))
  {
    match p.b58decode(s)
    case None => None
    case Some(raw) =>
      var payload := if |raw| >= 4 then raw[..|raw| - 4] else [];
      var check := if |raw| >= 4 then raw[|raw| - 4..] else raw;
      assert raw == payload + check;
      if check == Checksum(p, payload) then Some(payload) else None
  }

  /** Conversely, text whose Base58 bytes are a payload followed by its 4-byte checksum is
      accepted and yields that payload. */
  lemma B58DecodeCheckAccepts(p: Primitives, s: string, q: seq<Byte>)
    requires |Checksum(p, q)| == 4 && p.b58decode(s) == Some(q + Checksum(p, q))
    ensures B58DecodeCheck(p, s) == Some(q)
  {
    var raw := q + Checksum(p, q);
    assert raw[..|raw| - 4] == q && raw[|raw| - 4..] == Checksum(p, q);
  }

  /** Base58Check encoding of a payload, as `public_key_to_address` builds it by hand. */
  function B58CheckEncode(p: Primitives, payload: seq<Byte>): string
  {
    p.b58encode(payload + Checksum(p, payload))
  }

  /** With well-behaved primitives, decoding a Base58Check encoding returns the payload. */
  lemma B58CheckRoundTrip(p: Primitives, payload: seq<Byte>)
    requires WellBehaved(p) && Base58RoundTrips(p)
    ensures B58DecodeCheck(p, B58CheckEncode(p, payload)) == Some(payload)
  {
    assert |Checksum(p, payload)| == 4;
    B58DecodeCheckAccepts(p, B58CheckEncode(p, payload), payload);
  }

  /** The compressed SEC public key (`to_string("compressed")`): 0x02 for an even y, 0x03 for
      an odd y, then x. */
  function Compressed(raw: seq<Byte>): (r: seq<Byte>)
    requires |raw| == 64
    ensures |r| == 33 && r[1..] == raw[..32]
    ensures r[0] == 0x02 <==> raw[63] % 2 == 0
    ensures r[0] == 0x03 <==> raw[63] % 2 == 1
  {
    [0x02 + raw[63] % 2] + raw[..32]
  }
}
