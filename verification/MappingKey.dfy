/**
  From a transfer id to the storage slot whose proof is fetched: `big.Int` bytes, hex text, padding to 32 bytes
  (manager/utils.go, utils/common/common.go). Go strings are byte sequences.
 */
module MappingKey {
  import opened Prelude
  import opened ZeroCopy

  function FromBigEndian(b: bytes): (n: nat)
  {
    if b == [] then 0 else 256 * FromBigEndian(b[..|b| - 1]) + b[|b| - 1]
  }

  /** `big.Int.Bytes`: big-endian without leading zeros. */
  function MinimalBytes(n: nat): (b: bytes)
    ensures n == 0 <==> b == []
  {
    if n == 0 then [] else MinimalBytes(n / 256) + [n % 256]
  }

  /** Big-endian in exactly `w` bytes. */
  function BigEndian(n: nat, w: nat): (b: bytes)
    ensures |b| == w
  {
    if w == 0 then [] else BigEndian(n / 256, w - 1) + [n % 256]
  }

  function HexDigit(d: nat): byte
    requires d < 16
  {
    if d < 10 then 48 + d else 87 + d
  }

  /** The value of a hex digit of either case. */
  function DigitValue(c: byte): Option<nat> {
    if 48 <= c <= 57 then Some(c - 48)
    else if 97 <= c <= 102 then Some(c - 87)
    else if 65 <= c <= 70 then Some(c - 55)
    else None
  }

  /** `hex.EncodeToString`. */
  function HexEncode(b: bytes): (s: bytes)
    ensures |s| == 2 * |b|
  {
    if b == [] then [] else [HexDigit(b[0] / 16), HexDigit(b[0] % 16)] + HexEncode(b[1..])
  }

  /** `hex.DecodeString`: the bytes decoded before the first fault, and whether there was one. */
  function HexDecodeString(s: bytes): (r: (bytes, bool))
    ensures 2 * |r.0| <= |s|
  {
    if s == [] then ([], false)
    else if |s| == 1 then ([], true)
    else match (DigitValue(s[0]), DigitValue(s[1]))
      case (Some(hi), Some(lo)) =>
        assert hi < 16 && lo < 16;
        var rest := HexDecodeString(s[2..]);
        ([16 * hi + lo] + rest.0, rest.1)
      case _ => ([], true)
  }

  function HexDecode(s: bytes): Option<bytes> {
    var r := HexDecodeString(s);
    if r.1 then None else Some(r.0)
  }

  /** The sixteen digits of hex text, "0123456789abcdef". */
  const DIGITS: bytes := [48, 49, 50, 51, 52, 53, 54, 55, 56, 57, 97, 98, 99, 100, 101, 102]

  /** Each byte becomes two lower-case digits, the high one first. */
  lemma {:induction false} HexEncodeAt(b: bytes, i: nat)
    requires i < |b|
    ensures HexEncode(b)[2 * i] == DIGITS[b[i] / 16] && HexEncode(b)[2 * i + 1] == DIGITS[b[i] % 16]
  {
    if i > 0 {
      HexEncodeAt(b[1..], i - 1);
      var s := HexEncode(b);
      assert s[2..] == HexEncode(b[1..]);
      assert s[2..][2 * (i - 1)] == s[2 * i] && s[2..][2 * (i - 1) + 1] == s[2 * i + 1];
    }
  }

  /** Exactly these digits are read, the letters also in upper case. */
  lemma DigitExact(c: byte, d: nat)
    ensures DigitValue(c) == Some(d) <==> d < 16 && (c == DIGITS[d] || (d >= 10 && c == DIGITS[d] - 32))
  {
    assert d < 10 ==> DIGITS[d] == 48 + d;
    assert 10 <= d < 16 ==> DIGITS[d] == 87 + d;
  }

  lemma {:induction false} HexRoundTrip(b: bytes)
    ensures HexDecodeString(HexEncode(b)) == (b, false)
  {
    if b != [] {
      var s := HexEncode(b);
      assert s[2..] == HexEncode(b[1..]);
      HexRoundTrip(b[1..]);
      assert 16 * (b[0] / 16) + b[0] % 16 == b[0];
      assert b == [b[0]] + b[1..];
    }
  }

  lemma HexInjective(a: bytes, b: bytes)
    requires HexEncode(a) == HexEncode(b)
    ensures a == b
  {
    HexRoundTrip(a);
    HexRoundTrip(b);
  }

  /** The text "00". */
  const ZERO_TEXT: bytes := [48, 48]

  /** The text "01", the storage position of the mapping. */
  const SLOT_TEXT: bytes := [48, 49]

  /** `EncodeBigInt`: tests only the low 64 bits for zero. */
  function EncodeBigInt(n: nat): bytes {
    if n % TWO64 == 0 then ZERO_TEXT else HexEncode(MinimalBytes(n))
  }

  function Zeros(n: nat): (b: bytes)
    ensures |b| == n
  {
    seq(n, _ => 0)
  }

  /** `leftPadBytes`. */
  function LeftPad(b: bytes, l: nat): bytes {
    if l <= |b| then b else Zeros(l - |b|) + b
  }

  /** The bytes that `mappingKeyAt` hashes, before hashing; None where a position is not hex. */
  function Preimage(position1: bytes, position2: bytes): Option<bytes> {
    match (HexDecode(position1), HexDecode(position2))
    case (Some(p1), Some(p2)) => Some(LeftPad(p1, 32) + LeftPad(p2, 32))
    case _ => None
  }

  /** The preimage for the mapping entry of a transfer id: `SetBytes`, `EncodeBigInt`, then `getMappingKey`. */
  function SlotPreimage(txId: bytes): Option<bytes> {
    Preimage(EncodeBigInt(FromBigEndian(txId)), SLOT_TEXT)
  }

  lemma {:induction false} BigEndianBound(b: bytes)
    ensures FromBigEndian(b) < Pow256(|b|)
  {
    if b != [] {
      BigEndianBound(b[..|b| - 1]);
    }
  }

  lemma {:induction false} BigEndianRoundTrip(n: nat, w: nat)
    requires n < Pow256(w)
    ensures FromBigEndian(BigEndian(n, w)) == n
  {
    if w > 0 {
      var b := BigEndian(n, w);
      assert b[..|b| - 1] == BigEndian(n / 256, w - 1);
      assert n == 256 * (n / 256) + n % 256 && n / 256 < Pow256(w - 1);
      BigEndianRoundTrip(n / 256, w - 1);
    }
  }

  /** The bytes of an integer: the lowest comes last. */
  lemma {:induction false} BigEndianAt(n: nat, w: nat, i: nat)
    requires i < w
    ensures BigEndian(n, w)[w - 1 - i] == n / Pow256(i) % 256
  {
    if i > 0 {
      BigEndianAt(n / 256, w - 1, i - 1);
      DivDiv(n, Pow256(i - 1));
    }
  }

  /** The byte at each place of an id, counted from its end. */
  lemma {:induction false} FromBigEndianAt(b: bytes, i: nat)
    requires i < |b|
    ensures FromBigEndian(b) / Pow256(i) % 256 == b[|b| - 1 - i]
  {
    if i > 0 {
      FromBigEndianAt(b[..|b| - 1], i - 1);
      assert FromBigEndian(b) / 256 == FromBigEndian(b[..|b| - 1]);
      DivDiv(FromBigEndian(b), Pow256(i - 1));
    }
  }

  lemma {:induction false} BigEndianZero(w: nat)
    ensures BigEndian(0, w) == Zeros(w)
  {
    if w > 0 {
      BigEndianZero(w - 1);
      assert Zeros(w) == Zeros(w - 1) + [0];
    }
  }

  /** Padding the minimal form gives the fixed-width form. */
  lemma {:induction false} PadMinimal(n: nat, w: nat)
    requires n < Pow256(w)
    ensures |MinimalBytes(n)| <= w
    ensures LeftPad(MinimalBytes(n), w) == BigEndian(n, w)
  {
    if n == 0 {
      BigEndianZero(w);
    } else {
      PadMinimal(n / 256, w - 1);
      var m := MinimalBytes(n / 256);
      assert LeftPad(m + [n % 256], w) == LeftPad(m, w - 1) + [n % 256];
    }
  }

  /** Outside the collapsed values, the hex index decodes to the minimal form; the collapsed ones give one zero byte. */
  lemma IndexDecodes(n: nat)
    ensures HexDecode(EncodeBigInt(n)) == Some(if n % TWO64 == 0 then [0] else MinimalBytes(n))
  {
    if n % TWO64 == 0 {
      assert ZERO_TEXT == HexEncode([0]);
      HexRoundTrip([0]);
    } else {
      HexRoundTrip(MinimalBytes(n));
    }
  }

  /** The index of any id is hex. */
  lemma SlotExists(n: nat)
    ensures Preimage(EncodeBigInt(n), SLOT_TEXT).Some?
  {
    hide EncodeBigInt, HexDecode, LeftPad;
    IndexDecodes(n);
    SlotDecodes();
  }

  /** The preimage that Solidity hashes for entry `n` of the mapping at slot 1. */
  function SolidityPreimage(n: nat): bytes {
    BigEndian(n, 32) + BigEndian(1, 32)
  }

  lemma SolidityPreimageInjective(m: nat, n: nat)
    requires m < Pow256(32) && n < Pow256(32)
    ensures SolidityPreimage(m) == SolidityPreimage(n) <==> m == n
  {
    hide BigEndian, FromBigEndian, Pow256;
    BigEndianRoundTrip(m, 32);
    BigEndianRoundTrip(n, 32);
    assert SolidityPreimage(m)[..32] == BigEndian(m, 32);
    assert SolidityPreimage(n)[..32] == BigEndian(n, 32);
  }

  lemma SlotDecodes()
    ensures HexDecode(SLOT_TEXT) == Some([1]) && LeftPad([1], 32) == BigEndian(1, 32)
  {
    assert SLOT_TEXT == HexEncode([1]);
    HexRoundTrip([1]);
    assert MinimalBytes(1) == MinimalBytes(0) + [1];
    assert MinimalBytes(1) == [1];
    Pow256Monotone(1, 32);
    assert Pow256(1) == 256 * Pow256(0);
    PadMinimal(1, 32);
  }

  /** The decoded index, padded: the 32-byte number, with every id whose low 64 bits are zero sent to 0. */
  lemma PaddedIndex(n: nat)
    requires n < Pow256(32)
    ensures
      var p := HexDecode(EncodeBigInt(n));
      p.Some? && LeftPad(p.value, 32) == BigEndian(if n % TWO64 == 0 then 0 else n, 32)
  {
    IndexDecodes(n);
    if n % TWO64 == 0 {
      BigEndianZero(32);
      assert LeftPad([0], 32) == Zeros(32);
    } else {
      PadMinimal(n, 32);
    }
  }

  lemma PreimageOf(txId: bytes)
    requires FromBigEndian(txId) < Pow256(32)
    ensures
      var n := FromBigEndian(txId);
      SlotPreimage(txId) == Some(SolidityPreimage(if n % TWO64 == 0 then 0 else n))
  {
    hide BigEndian, Pow256, FromBigEndian, HexDecode, EncodeBigInt, LeftPad;
    PaddedIndex(FromBigEndian(txId));
    SlotDecodes();
  }

  /**
    For a transfer id of at most 32 bytes the hashed preimage is Solidity's (32-byte index, then 32-byte slot)
    exactly when the id is zero or its low 64 bits are not all zero. ("Layout of State Variables in Storage",
    section "Mappings and Dynamic Arrays".)
   */
  lemma SlotPreimageExact(txId: bytes)
    requires |txId| <= 32
    ensures
      var n := FromBigEndian(txId);
      && SlotPreimage(txId) == Some(SolidityPreimage(if n % TWO64 == 0 then 0 else n))
      && (SlotPreimage(txId) == Some(SolidityPreimage(n)) <==> n == 0 || n % TWO64 != 0)
  {
    hide BigEndian, Pow256, FromBigEndian, SlotPreimage, SolidityPreimage;
    var n := FromBigEndian(txId);
    BigEndianBound(txId);
    Pow256Monotone(|txId|, 32);
    PreimageOf(txId);
    SolidityPreimageInjective(if n % TWO64 == 0 then 0 else n, n);
  }

  lemma {:induction false} Pow256Monotone(a: nat, b: nat)
    requires a <= b
    ensures Pow256(a) <= Pow256(b)
    decreases b
  {
    if a < b {
      Pow256Monotone(a, b - 1);
    }
  }

  /** Ids in the faithful domain share a preimage only if they are the same number. */
  lemma SlotPreimageInjective(a: bytes, b: bytes)
    requires |a| <= 32 && |b| <= 32
    requires FromBigEndian(a) == 0 || FromBigEndian(a) % TWO64 != 0
    requires FromBigEndian(b) == 0 || FromBigEndian(b) % TWO64 != 0
    ensures SlotPreimage(a) == SlotPreimage(b) <==> FromBigEndian(a) == FromBigEndian(b)
  {
    SlotPreimageExact(a);
    SlotPreimageExact(b);
    BigEndianBound(a);
    BigEndianBound(b);
    Pow256Monotone(|a|, 32);
    Pow256Monotone(|b|, 32);
    SolidityPreimageInjective(FromBigEndian(a), FromBigEndian(b));
  }

  /** Two different ids that share a slot: 0 and 2^64. */
  lemma CollapsedIds()
    ensures
      var id := [1, 0, 0, 0, 0, 0, 0, 0, 0];
      FromBigEndian(id) == TWO64 && SlotPreimage(id) == SlotPreimage([0])
  {
    var id: bytes := [1, 0, 0, 0, 0, 0, 0, 0, 0];
    AppendZeros([1], 8);
    assert [1] + Zeros(8) == id;
    assert FromBigEndian([1]) == 256 * FromBigEndian([]) + 1;
    WidthBounds();
    assert FromBigEndian([0]) == 256 * FromBigEndian([]) + 0;
  }

  lemma {:induction false} AppendZeros(b: bytes, k: nat)
    ensures FromBigEndian(b + Zeros(k)) == FromBigEndian(b) * Pow256(k)
  {
    if k == 0 {
      assert b + Zeros(0) == b;
    } else {
      var s := b + Zeros(k);
      assert s[..|s| - 1] == b + Zeros(k - 1);
      AppendZeros(b, k - 1);
      assert FromBigEndian(s) == 256 * FromBigEndian(b + Zeros(k - 1)) + 0;
      hide FromBigEndian, Zeros;
      MulSwap(FromBigEndian(b), Pow256(k - 1));
    }
  }

  lemma MulSwap(x: nat, y: nat)
    ensures 256 * (x * y) == x * (256 * y)
  {
  }

  /** `leftPadBytes`, as it fills a zeroed buffer. */
  method LeftPadBytes(slice: bytes, l: nat) returns (r: bytes)
    ensures r == LeftPad(slice, l)
    ensures |slice| >= l ==> r == slice
    ensures |slice| < l ==>
      && |r| == l && r[l - |slice|..] == slice
      && forall i :: 0 <= i < l - |slice| ==> r[i] == 0
  {
    if l <= |slice| {
      return slice;
    }
    var padded := new byte[l](_ => 0);
    var start := l - |slice|;
    var i := 0;
    while i < |slice|
      invariant 0 <= i <= |slice|
      invariant forall k :: 0 <= k < start ==> padded[k] == 0
      invariant forall k :: 0 <= k < i ==> padded[start + k] == slice[k]
    {
      padded[start + i] := slice[i];
      i := i + 1;
    }
    forall k | 0 <= k < l ensures padded[k] == LeftPad(slice, l)[k] {
      if k >= start {
        assert padded[start + (k - start)] == slice[k - start];
      }
    }
    assert padded[..] == LeftPad(slice, l);
    return padded[..];
  }
}
