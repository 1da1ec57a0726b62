/**
  The byte cursor of Poly's `ZeroCopySource` and the buffer of its `ZeroCopySink`: little-endian integers,
  and byte strings behind a variable-length count. The library is not part of the repository; the format is the
  one visible in manager/palette_test.go:168 and utils/poly/poly_test.go:15.
 */
module ZeroCopy {
  import opened Prelude

  function Pow256(w: nat): (p: nat)
    ensures p >= 1
  {
    if w == 0 then 1 else 256 * Pow256(w - 1)
  }

  function LittleEndian(n: nat, w: nat): (b: bytes)
    ensures |b| == w
  {
    if w == 0 then [] else [n % 256] + LittleEndian(n / 256, w - 1)
  }

  function FromLittleEndian(b: bytes): (n: nat)
    ensures n < Pow256(|b|)
  {
    if b == [] then 0 else b[0] + 256 * FromLittleEndian(b[1..])
  }

  /** The bytes of an integer: the lowest comes first. */
  lemma {:induction false} LittleEndianAt(n: nat, w: nat, i: nat)
    requires i < w
    ensures LittleEndian(n, w)[i] == n / Pow256(i) % 256
  {
    if i > 0 {
      LittleEndianAt(n / 256, w - 1, i - 1);
      DivDiv(n, Pow256(i - 1));
    }
  }

  /** The byte at each place of what is read, and nothing beyond them: `FromLittleEndian` is below 256^|b|. */
  lemma {:induction false} FromLittleEndianAt(b: bytes, i: nat)
    requires i < |b|
    ensures FromLittleEndian(b) / Pow256(i) % 256 == b[i]
  {
    if i > 0 {
      FromLittleEndianAt(b[1..], i - 1);
      assert FromLittleEndian(b) / 256 == FromLittleEndian(b[1..]);
      DivDiv(FromLittleEndian(b), Pow256(i - 1));
    }
  }

  lemma DivDiv(n: nat, p: nat)
    requires p >= 1
    ensures n / 256 / p == n / (256 * p)
  {
    var q := n / 256 / p;
    var r, s := n % 256, n / 256 % p;
    assert n == 256 * (p * q + s) + r;
    assert 256 * (p * q) == (256 * p) * q;
    assert 256 * s + r < 256 * p;
    QuotientIs(n, 256 * p, q);
  }

  lemma QuotientIs(n: nat, d: nat, q: nat)
    requires d >= 1 && d * q <= n < d * q + d
    ensures n / d == q
  {
    var e := n / d;
    assert d * e <= n < d * e + d;
    Multiples(d, e + 1, q);
    Multiples(d, q + 1, e);
  }

  lemma Multiples(d: nat, a: nat, b: nat)
    ensures a <= b ==> d * a <= d * b
  {
  }

  lemma {:induction false} LittleEndianRoundTrip(n: nat, w: nat)
    requires n < Pow256(w)
    ensures FromLittleEndian(LittleEndian(n, w)) == n
  {
    if w > 0 {
      LittleEndianRoundTrip(n / 256, w - 1);
    }
  }

  lemma WidthBounds()
    ensures Pow256(2) == 0x1_0000 && Pow256(4) == TWO32 && Pow256(8) == TWO64
  {
    assert Pow256(2) == 256 * 256;
    assert Pow256(3) == 256 * Pow256(2);
    assert Pow256(4) == 256 * Pow256(3);
    assert Pow256(5) == 256 * Pow256(4);
    assert Pow256(6) == 256 * Pow256(5);
    assert Pow256(7) == 256 * Pow256(6);
    assert Pow256(8) == 256 * Pow256(7);
  }

  function VarUint(n: uint64): (b: bytes)
    ensures |b| in {1, 3, 5, 9}
  {
    if n < 0xFD then [n]
    else if n <= 0xFFFF then [0xFD] + LittleEndian(n, 2)
    else if n <= 0xFFFF_FFFF then [0xFE] + LittleEndian(n, 4)
    else [0xFF] + LittleEndian(n, 8)
  }

  /**
    The count in front of a string, byte by byte: one byte below 0xFD, else a tag and two, four or eight bytes with the
    lowest first. Reading such a count gives it back (`ReadVarUintWhole`).
   */
  lemma VarUintBytes(n: uint64)
    ensures n < 0xFD ==> VarUint(n) == [n]
    ensures 0xFD <= n < 0x1_0000 ==> VarUint(n) == [0xFD, n % 256, n / 256]
    ensures 0x1_0000 <= n < TWO32 ==>
      VarUint(n) == [0xFE, n % 256, n / 0x100 % 256, n / 0x1_0000 % 256, n / 0x100_0000]
    ensures TWO32 <= n ==>
      && |VarUint(n)| == 9 && VarUint(n)[0] == 0xFF
      && forall i :: 0 <= i < 8 ==> VarUint(n)[1 + i] == n / Pow256(i) % 256
  {
    hide LittleEndian;
    WidthBounds();
    if 0xFD <= n {
      var w := |VarUint(n)| - 1;
      forall i | 0 <= i < w ensures VarUint(n)[1 + i] == n / Pow256(i) % 256 {
        LittleEndianAt(n, w, i);
      }
      assert Pow256(1) == 256 * Pow256(0);
      assert Pow256(3) == 256 * Pow256(2);
    }
  }

  function VarBytes(d: bytes): (b: bytes)
    requires |d| < TWO64
  {
    VarUint(|d|) + d
  }

  /** What one read yields: the value, whether the input ran out, and the cursor afterwards. */
  datatype Read<T> = Read(value: T, eof: bool, off: nat)

  function ReadBytes(buf: bytes, off: nat, n: nat): (r: Read<bytes>)
    requires off <= |buf|
    ensures off <= r.off <= |buf|
  {
    if off + n > |buf| then Read(buf[off..], true, |buf|) else Read(buf[off..off + n], false, off + n)
  }

  function ReadByte(buf: bytes, off: nat): (r: Read<byte>)
    requires off <= |buf|
    ensures off <= r.off <= |buf|
  {
    if off >= |buf| then Read(0, true, off) else Read(buf[off], false, off + 1)
  }

  function ReadUint(buf: bytes, off: nat, w: nat): (r: Read<nat>)
    requires off <= |buf|
    ensures off <= r.off <= |buf|
    ensures r.value < Pow256(w)
  {
    var b := ReadBytes(buf, off, w);
    if b.eof then Read(0, true, b.off) else Read(FromLittleEndian(b.value), false, b.off)
  }

  function ReadVarUint(buf: bytes, off: nat): (r: Read<uint64>)
    requires off <= |buf|
    ensures off <= r.off <= |buf|
  {
    WidthBounds();
    var first := ReadByte(buf, off);
    if first.eof then Read(0, true, first.off)
    else if first.value == 0xFD then ReadUint(buf, first.off, 2)
    else if first.value == 0xFE then ReadUint(buf, first.off, 4)
    else if first.value == 0xFF then ReadUint(buf, first.off, 8)
    else Read(first.value, false, first.off)
  }

  function ReadVarBytes(buf: bytes, off: nat): (r: Read<bytes>)
    requires off <= |buf|
    ensures off <= r.off <= |buf|
  {
    var count := ReadVarUint(buf, off);
    if count.eof then Read([], true, count.off) else ReadBytes(buf, count.off, count.value)
  }

  /** Where a full encoding of `n` stands at the cursor, the read returns `n` and stops behind it. */
  lemma ReadUintWhole(buf: bytes, off: nat, n: nat, w: nat)
    requires off <= |buf| && n < Pow256(w)
    requires LittleEndian(n, w) <= buf[off..]
    ensures ReadUint(buf, off, w) == Read(n, false, off + w)
  {
    hide LittleEndian, FromLittleEndian, Pow256;
    LittleEndianRoundTrip(n, w);
    assert buf[off..off + w] == buf[off..][..w] == LittleEndian(n, w);
  }

  lemma ReadVarUintWhole(buf: bytes, off: nat, n: uint64)
    requires off <= |buf| && VarUint(n) <= buf[off..]
    ensures ReadVarUint(buf, off) == Read(n, false, off + |VarUint(n)|)
  {
    WidthBounds();
    assert buf[off] == buf[off..][0] == VarUint(n)[0];
    assert buf[off + 1..] == buf[off..][1..];
    if n >= 0xFD {
      var w := |VarUint(n)| - 1;
      assert VarUint(n)[1..] == LittleEndian(n, w);
      ReadUintWhole(buf, off + 1, n, w);
    }
  }

  lemma ReadVarBytesWhole(buf: bytes, off: nat, d: bytes)
    requires off <= |buf| && |d| < TWO64 && VarBytes(d) <= buf[off..]
    ensures ReadVarBytes(buf, off) == Read(d, false, off + |VarBytes(d)|)
  {
    hide ReadVarUint, VarUint;
    var k := |VarUint(|d|)|;
    assert VarUint(|d|) == VarBytes(d)[..k] == buf[off..][..k];
    ReadVarUintWhole(buf, off, |d|);
    var whole := VarBytes(d);
    assert buf[off..][..|whole|] == whole;
    assert buf[off + k..off + k + |d|] == buf[off..][..|whole|][k..];
    assert whole[k..] == d;
  }

  /** Where only a proper part of an encoding is left, the read reports the end of the input. */
  lemma ReadVarUintCut(buf: bytes, off: nat, n: uint64)
    requires off <= |buf| && buf[off..] < VarUint(n)
    ensures ReadVarUint(buf, off).eof
  {
    if off < |buf| {
      assert buf[off] == buf[off..][0] == VarUint(n)[0];
    }
  }

  lemma ReadVarBytesCut(buf: bytes, off: nat, d: bytes)
    requires off <= |buf| && |d| < TWO64 && buf[off..] < VarBytes(d)
    ensures ReadVarBytes(buf, off).eof
  {
    hide ReadVarUint, VarUint;
    var k := |VarUint(|d|)|;
    assert VarBytes(d)[..k] == VarUint(|d|);
    if |buf| - off < k {
      assert buf[off..] == VarUint(|d|)[..|buf| - off];
      ReadVarUintCut(buf, off, |d|);
    } else {
      assert buf[off..][..k] == VarUint(|d|);
      ReadVarUintWhole(buf, off, |d|);
    }
  }

  class Source {
    const buf: bytes
    var off: nat

    ghost predicate Valid()
      reads this
    {
      off <= |buf|
    }

    constructor (b: bytes)
      ensures Valid() && buf == b && off == 0
    {
      buf := b;
      off := 0;
    }

    method NextBytes(n: uint64) returns (data: bytes, eof: bool)
      requires Valid()
      modifies this
      ensures Valid() && Read(data, eof, off) == ReadBytes(buf, old(off), n)
    {
      var end := off + n;
      eof := false;
      if end > |buf| {
        end := |buf|;
        eof := true;
      }
      data := buf[off..end];
      assert end == |buf| ==> data == buf[off..];
      off := end;
    }

    method NextByte() returns (data: byte, eof: bool)
      requires Valid()
      modifies this
      ensures Valid() && Read(data, eof, off) == ReadByte(buf, old(off))
    {
      if off >= |buf| {
        return 0, true;
      }
      data, eof, off := buf[off], false, off + 1;
    }

    method NextUint(w: nat) returns (n: nat, eof: bool)
      requires Valid() && w <= 8
      modifies this
      ensures Valid() && Read(n, eof, off) == ReadUint(buf, old(off), w)
    {
      var data;
      data, eof := NextBytes(w);
      n := if eof then 0 else FromLittleEndian(data);
    }

    method NextVarUint() returns (n: uint64, eof: bool)
      requires Valid()
      modifies this
      ensures Valid() && Read(n, eof, off) == ReadVarUint(buf, old(off))
    {
      WidthBounds();
      var first;
      first, eof := NextByte();
      if eof {
        return 0, true;
      }
      if first == 0xFD {
        n, eof := NextUint(2);
      } else if first == 0xFE {
        n, eof := NextUint(4);
      } else if first == 0xFF {
        n, eof := NextUint(8);
      } else {
        n := first;
      }
    }

    method NextVarBytes() returns (data: bytes, eof: bool)
      requires Valid()
      modifies this
      ensures Valid() && Read(data, eof, off) == ReadVarBytes(buf, old(off))
    {
      var count;
      count, eof := NextVarUint();
      if eof {
        return [], true;
      }
      data, eof := NextBytes(count);
    }
  }

  class Sink {
    var buf: bytes

    constructor ()
      ensures buf == []
    {
      buf := [];
    }

    method WriteUint(n: nat, w: nat)
      modifies this
      ensures buf == old(buf) + LittleEndian(n, w)
    {
      buf := buf + LittleEndian(n, w);
    }

    method WriteVarBytes(d: bytes)
      requires |d| < TWO64
      modifies this
      ensures buf == old(buf) + VarBytes(d)
    {
      buf := buf + VarUint(|d|);
      buf := buf + d;
      assert buf == old(buf) + (VarUint(|d|) + d);
    }
  }
}
