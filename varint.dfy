/** The CompactSize variable-length integer of the legacy transaction format
    (`varint` in cashOut.py and buyIn.py). */
module CompactSize {
  import opened Wrappers
  import opened Bytes

  /** Encoded size by class: one byte below 0xfd, else a marker byte and 2, 4 or 8 bytes. */
  function VarIntSize(n: nat): nat
  {
    if n < 0xfd then 1 else if n <= 0xffff then 3 else if n <= 0xffff_ffff then 5 else 9
  }

  /** `varint(n)`. Values of 2^64 and more make `struct.pack('<Q', n)` raise; every caller
      passes the length of an in-memory list or byte string, which stays below that. */
  function VarInt(n: nat): (r: seq<Byte>)
    requires n < TwoTo64
    ensures |r| == VarIntSize(n)
    ensures n < 0xfd <==> r[0] < 0xfd
    ensures n < 0xfd ==> r == [n]
    ensures 0xfd <= n <= 0xffff <==> r[0] == 0xfd
    ensures 0xffff < n <= 0xffff_ffff <==> r[0] == 0xfe
    ensures 0xffff_ffff < n <==> r[0] == 0xff
  {
    Pow256Widths();
    if n < 0xfd then LE(n, 1)
    else if n <= 0xffff then [0xfd] + LE(n, 2)
    else if n <= 0xffff_ffff then [0xfe] + LE(n, 4)
    else [0xff] + LE(n, 8)
  }

  /** Reads k little-endian bytes off the front of b. */
  function ParseLE(b: seq<Byte>, k: nat): Option<(nat, seq<Byte>)>
  {
    if |b| < k then None else Some((FromLE(b[..k]), b[k..]))
  }

  /** Decodes one CompactSize integer off the front of b and returns it with what follows. */
  function ParseVarInt(b: seq<Byte>): Option<(nat, seq<Byte>)>
  {
    if |b| == 0 then None
    else if b[0] < 0xfd then Some((b[0], b[1..]))
    else if b[0] == 0xfd then ParseLE(b[1..], 2)
    else if b[0] == 0xfe then ParseLE(b[1..], 4)
    else ParseLE(b[1..], 8)
  }

  lemma {:induction false} ParseLEOfLE(n: nat, k: nat, rest: seq<Byte>)
    requires n < Pow256(k)
    ensures ParseLE(LE(n, k) + rest, k) == Some((n, rest))
  {
    var b := LE(n, k) + rest;
    assert b[..k] == LE(n, k);
    assert b[k..] == rest;
    FromLEOfLE(n, k);
  }

  /** The decoder inverts `varint` in every size class, whatever bytes follow. */
  lemma {:induction false} ParseVarIntOfVarInt(n: nat, rest: seq<Byte>)
    requires n < TwoTo64
    ensures ParseVarInt(VarInt(n) + rest) == Some((n, rest))
  {
    Pow256Widths();
    if n < 0xfd {
      assert (VarInt(n) + rest)[1..] == rest;
    } else if n <= 0xffff {
      ParseMarked(0xfd, n, 2, rest);
    } else if n <= 0xffff_ffff {
      ParseMarked(0xfe, n, 4, rest);
    } else {
      ParseMarked(0xff, n, 8, rest);
    }
  }

  lemma {:induction false} ParseMarked(marker: Byte, n: nat, k: nat, rest: seq<Byte>)
    requires marker >= 0xfd && n < Pow256(k)
    requires k == if marker == 0xfd then 2 else if marker == 0xfe then 4 else 8
    ensures ParseVarInt([marker] + LE(n, k) + rest) == Some((n, rest))
  {
    var b := [marker] + LE(n, k) + rest;
    assert b[1..] == LE(n, k) + rest;
    ParseLEOfLE(n, k, rest);
  }

  /** The class boundaries 0, 0xfc, 0xfd, 0xffff, 0x10000, 0xffffffff and 0x100000000
      get the sizes 1, 1, 3, 3, 5, 5 and 9 and decode back to themselves. */
  lemma VarIntBoundaries()
    ensures |VarInt(0)| == 1 && |VarInt(0xfc)| == 1 && |VarInt(0xfd)| == 3
    ensures |VarInt(0xffff)| == 3 && |VarInt(0x1_0000)| == 5
    ensures |VarInt(0xffff_ffff)| == 5 && |VarInt(0x1_0000_0000)| == 9
    ensures forall n :: n in {0, 0xfc, 0xfd, 0xffff, 0x1_0000, 0xffff_ffff, 0x1_0000_0000} ==>
      ParseVarInt(VarInt(n)) == Some((n, []))
  {
    forall n | n in {0, 0xfc, 0xfd, 0xffff, 0x1_0000, 0xffff_ffff, 0x1_0000_0000}
      ensures ParseVarInt(VarInt(n)) == Some((n, []))
    {
      ParseVarIntOfVarInt(n, []);
      assert VarInt(n) + [] == VarInt(n);
    }
  }

  /** Distinct counts get distinct encodings. */
  lemma VarIntInjective(m: nat, n: nat)
    requires m < TwoTo64 && n < TwoTo64
    requires VarInt(m) == VarInt(n)
    ensures m == n
  {
    ParseVarIntOfVarInt(m, []);
    ParseVarIntOfVarInt(n, []);
  }
}
