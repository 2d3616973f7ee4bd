/** Little-endian encoding of the matcher's integer fields, and the
    `read_*` / `write_*` helpers that access them at a byte offset. */
module LittleEndian {
  import opened Ints

  function Pow256(n: nat): (r: nat)
    ensures r > 0
  {
    if n == 0 then 1 else 256 * Pow256(n - 1)
  }

  lemma Pow256Widths()
    ensures Pow256(1) == 0x100
    ensures Pow256(4) == TWO_32
    ensures Pow256(8) == TWO_64
    ensures Pow256(16) == TWO_128
  {
  }

  /** The unsigned value of a little-endian byte string (`from_le_bytes`). */
  function FromLE(s: seq<byte>): (x: nat)
    ensures x < Pow256(|s|)
  {
    if s == [] then 0 else s[0] + 256 * FromLE(s[1..])
  }

  /** The `n`-byte little-endian encoding of `x` (`to_le_bytes`). */
  function ToLE(x: nat, n: nat): (s: seq<byte>)
    requires x < Pow256(n)
    ensures |s| == n
  {
    if n == 0 then [] else [x % 256] + ToLE(x / 256, n - 1)
  }

  lemma {:induction false} FromLEToLE(x: nat, n: nat)
    requires x < Pow256(n)
    ensures FromLE(ToLE(x, n)) == x
  {
    if n > 0 {
      FromLEToLE(x / 256, n - 1);
      assert ToLE(x, n)[1..] == ToLE(x / 256, n - 1);
    }
  }

  lemma {:induction false} ToLEFromLE(s: seq<byte>)
    ensures ToLE(FromLE(s), |s|) == s
  {
    if s != [] {
      var x := FromLE(s);
      assert x % 256 == s[0] && x / 256 == FromLE(s[1..]);
      ToLEFromLE(s[1..]);
    }
  }

  /** Two's-complement reading of a little-endian byte string. */
  function FromLESigned(s: seq<byte>): (x: int)
    requires |s| > 0
    ensures 0 <= x + Pow256(|s|) / 2 < Pow256(|s|)
  {
    var u := FromLE(s);
    if u < Pow256(|s|) / 2 then u else u - Pow256(|s|)
  }

  /** Two's-complement `n`-byte little-endian encoding of `x`. */
  function ToLESigned(x: int, n: nat): (s: seq<byte>)
    requires n > 0 && 0 <= x + Pow256(n) / 2 < Pow256(n)
    ensures |s| == n
  {
    ToLE(if x >= 0 then x else x + Pow256(n), n)
  }

  lemma FromLESignedToLESigned(x: int, n: nat)
    requires n > 0 && 0 <= x + Pow256(n) / 2 < Pow256(n)
    ensures FromLESigned(ToLESigned(x, n)) == x
  {
    FromLEToLE(if x >= 0 then x else x + Pow256(n), n);
  }

  // ---------------------------------------------------------------------------
  // Reads: pure decodes of a slice of a byte buffer
  // ---------------------------------------------------------------------------

  function ReadU32(s: seq<byte>, off: nat): (v: u32)
    requires off + 4 <= |s|
  {
    Pow256Widths();
    FromLE(s[off..off + 4])
  }

  function ReadU64(s: seq<byte>, off: nat): (v: u64)
    requires off + 8 <= |s|
  {
    Pow256Widths();
    FromLE(s[off..off + 8])
  }

  function ReadU128(s: seq<byte>, off: nat): (v: u128)
    requires off + 16 <= |s|
  {
    Pow256Widths();
    FromLE(s[off..off + 16])
  }

  function ReadI64(s: seq<byte>, off: nat): (v: i64)
    requires off + 8 <= |s|
  {
    Pow256Widths();
    FromLESigned(s[off..off + 8])
  }

  function ReadI128(s: seq<byte>, off: nat): (v: i128)
    requires off + 16 <= |s|
  {
    Pow256Widths();
    FromLESigned(s[off..off + 16])
  }

  function EncodeU32(v: u32): (s: seq<byte>)
    ensures |s| == 4
  {
    Pow256Widths();
    ToLE(v, 4)
  }

  function EncodeU64(v: u64): (s: seq<byte>)
    ensures |s| == 8
  {
    Pow256Widths();
    ToLE(v, 8)
  }

  function EncodeU128(v: u128): (s: seq<byte>)
    ensures |s| == 16
  {
    Pow256Widths();
    ToLE(v, 16)
  }

  function EncodeI64(v: i64): (s: seq<byte>)
    ensures |s| == 8
  {
    Pow256Widths();
    ToLESigned(v, 8)
  }

  function EncodeI128(v: i128): (s: seq<byte>)
    ensures |s| == 16
  {
    Pow256Widths();
    ToLESigned(v, 16)
  }

  // ---------------------------------------------------------------------------
  // Writes: `copy_from_slice` into a byte buffer
  // ---------------------------------------------------------------------------

  /** The buffer `s` with `b` copied over the bytes `[off, off + |b|)`. */
  function Splice(s: seq<byte>, off: nat, b: seq<byte>): (r: seq<byte>)
    requires off + |b| <= |s|
    ensures |r| == |s|
    ensures forall i :: 0 <= i < |s| ==> r[i] == if off <= i < off + |b| then b[i - off] else s[i]
  {
    s[..off] + b + s[off + |b|..]
  }

  lemma SpliceInside(s: seq<byte>, off: nat, b: seq<byte>)
    requires off + |b| <= |s|
    ensures Splice(s, off, b)[off..off + |b|] == b
  {
  }

  lemma SpliceOutside(s: seq<byte>, off: nat, b: seq<byte>, o: nat, n: nat)
    requires off + |b| <= |s| && o + n <= |s|
    requires o + n <= off || off + |b| <= o
    ensures Splice(s, off, b)[o..o + n] == s[o..o + n]
  {
  }

  /** Storing one byte is splicing a one-byte slice. */
  lemma SpliceByte(s: seq<byte>, off: nat, v: byte)
    requires off < |s|
    ensures s[off := v] == Splice(s, off, [v])
  {
    assert forall i :: 0 <= i < |s| ==> s[off := v][i] == Splice(s, off, [v])[i];
  }

  method CopyFromSlice(a: array<byte>, off: nat, b: seq<byte>)
    requires off + |b| <= a.Length
    modifies a
    ensures a[..] == Splice(old(a[..]), off, b)
  {
    for i := 0 to |b|
      invariant forall j :: 0 <= j < a.Length ==> a[j] == if off <= j < off + i then b[j - off] else old(a[j])
    {
      a[off + i] := b[i];
    }
  }

  method WriteU32(a: array<byte>, off: nat, v: u32)
    requires off + 4 <= a.Length
    modifies a
    ensures a[..] == Splice(old(a[..]), off, EncodeU32(v))
    ensures ReadU32(a[..], off) == v
  {
    CopyFromSlice(a, off, EncodeU32(v));
    ReadWriteU32(old(a[..]), off, v);
  }

  method WriteU64(a: array<byte>, off: nat, v: u64)
    requires off + 8 <= a.Length
    modifies a
    ensures a[..] == Splice(old(a[..]), off, EncodeU64(v))
    ensures ReadU64(a[..], off) == v
  {
    CopyFromSlice(a, off, EncodeU64(v));
    ReadWriteU64(old(a[..]), off, v);
  }

  method WriteI64(a: array<byte>, off: nat, v: i64)
    requires off + 8 <= a.Length
    modifies a
    ensures a[..] == Splice(old(a[..]), off, EncodeI64(v))
    ensures ReadI64(a[..], off) == v
  {
    CopyFromSlice(a, off, EncodeI64(v));
    ReadWriteI64(old(a[..]), off, v);
  }

  method WriteU128(a: array<byte>, off: nat, v: u128)
    requires off + 16 <= a.Length
    modifies a
    ensures a[..] == Splice(old(a[..]), off, EncodeU128(v))
    ensures ReadU128(a[..], off) == v
  {
    CopyFromSlice(a, off, EncodeU128(v));
    ReadWriteU128(old(a[..]), off, v);
  }

  method WriteI128(a: array<byte>, off: nat, v: i128)
    requires off + 16 <= a.Length
    modifies a
    ensures a[..] == Splice(old(a[..]), off, EncodeI128(v))
    ensures ReadI128(a[..], off) == v
  {
    CopyFromSlice(a, off, EncodeI128(v));
    ReadWriteI128(old(a[..]), off, v);
  }

  // ---------------------------------------------------------------------------
  // A field whose bytes are an encoding reads back as the encoded value
  // ---------------------------------------------------------------------------

  lemma ReadEncodedU32(s: seq<byte>, off: nat, v: u32)
    requires off + 4 <= |s| && s[off..off + 4] == EncodeU32(v)
    ensures ReadU32(s, off) == v
  {
    Pow256Widths();
    FromLEToLE(v, 4);
  }

  lemma ReadEncodedU64(s: seq<byte>, off: nat, v: u64)
    requires off + 8 <= |s| && s[off..off + 8] == EncodeU64(v)
    ensures ReadU64(s, off) == v
  {
    Pow256Widths();
    FromLEToLE(v, 8);
  }

  lemma ReadEncodedU128(s: seq<byte>, off: nat, v: u128)
    requires off + 16 <= |s| && s[off..off + 16] == EncodeU128(v)
    ensures ReadU128(s, off) == v
  {
    Pow256Widths();
    FromLEToLE(v, 16);
  }

  lemma ReadEncodedI64(s: seq<byte>, off: nat, v: i64)
    requires off + 8 <= |s| && s[off..off + 8] == EncodeI64(v)
    ensures ReadI64(s, off) == v
  {
    Pow256Widths();
    FromLESignedToLESigned(v, 8);
  }

  lemma ReadEncodedI128(s: seq<byte>, off: nat, v: i128)
    requires off + 16 <= |s| && s[off..off + 16] == EncodeI128(v)
    ensures ReadI128(s, off) == v
  {
    Pow256Widths();
    FromLESignedToLESigned(v, 16);
  }

  // ---------------------------------------------------------------------------
  // A write followed by the matching read at the same offset returns the value
  // ---------------------------------------------------------------------------

  lemma ReadWriteU32(s: seq<byte>, off: nat, v: u32)
    requires off + 4 <= |s|
    ensures ReadU32(Splice(s, off, EncodeU32(v)), off) == v
  {
    SpliceInside(s, off, EncodeU32(v));
    Pow256Widths();
    FromLEToLE(v, 4);
  }

  lemma ReadWriteU64(s: seq<byte>, off: nat, v: u64)
    requires off + 8 <= |s|
    ensures ReadU64(Splice(s, off, EncodeU64(v)), off) == v
  {
    SpliceInside(s, off, EncodeU64(v));
    Pow256Widths();
    FromLEToLE(v, 8);
  }

  lemma ReadWriteU128(s: seq<byte>, off: nat, v: u128)
    requires off + 16 <= |s|
    ensures ReadU128(Splice(s, off, EncodeU128(v)), off) == v
  {
    SpliceInside(s, off, EncodeU128(v));
    Pow256Widths();
    FromLEToLE(v, 16);
  }

  lemma ReadWriteI64(s: seq<byte>, off: nat, v: i64)
    requires off + 8 <= |s|
    ensures ReadI64(Splice(s, off, EncodeI64(v)), off) == v
  {
    SpliceInside(s, off, EncodeI64(v));
    Pow256Widths();
    FromLESignedToLESigned(v, 8);
  }

  lemma ReadWriteI128(s: seq<byte>, off: nat, v: i128)
    requires off + 16 <= |s|
    ensures ReadI128(Splice(s, off, EncodeI128(v)), off) == v
  {
    SpliceInside(s, off, EncodeI128(v));
    Pow256Widths();
    FromLESignedToLESigned(v, 16);
  }

  // ---------------------------------------------------------------------------
  // Decoding then re-encoding a field gives back its bytes: every byte string
  // of the right width is the encoding of the value read from it
  // ---------------------------------------------------------------------------

  lemma ToLESignedFromLESigned(s: seq<byte>)
    requires |s| > 0
    ensures ToLESigned(FromLESigned(s), |s|) == s
  {
    ToLEFromLE(s);
  }

  lemma EncodeReadU32(s: seq<byte>, off: nat)
    requires off + 4 <= |s|
    ensures EncodeU32(ReadU32(s, off)) == s[off..off + 4]
  {
    Pow256Widths();
    ToLEFromLE(s[off..off + 4]);
  }

  lemma EncodeReadU64(s: seq<byte>, off: nat)
    requires off + 8 <= |s|
    ensures EncodeU64(ReadU64(s, off)) == s[off..off + 8]
  {
    Pow256Widths();
    ToLEFromLE(s[off..off + 8]);
  }

  lemma EncodeReadU128(s: seq<byte>, off: nat)
    requires off + 16 <= |s|
    ensures EncodeU128(ReadU128(s, off)) == s[off..off + 16]
  {
    Pow256Widths();
    ToLEFromLE(s[off..off + 16]);
  }

  lemma EncodeReadI128(s: seq<byte>, off: nat)
    requires off + 16 <= |s|
    ensures EncodeI128(ReadI128(s, off)) == s[off..off + 16]
  {
    Pow256Widths();
    ToLESignedFromLESigned(s[off..off + 16]);
  }
}
