/**
  The record stored under each Retry key (manager/types.go) and the way it is built from a chain event
  (manager/utils.go).
 */
module CrossTransfer {
  import opened Prelude
  import opened ZeroCopy
  import opened MappingKey

  datatype CrossTransfer = CrossTransfer(txIndex: bytes, txId: bytes, value: bytes, toChain: uint32, height: uint64) {
    /** Lengths that the variable-length count can carry. */
    ghost predicate Encodable() {
      |txIndex| < TWO64 && |txId| < TWO64 && |value| < TWO64
    }
  }

  function Encode(t: CrossTransfer): bytes
    requires t.Encodable()
  {
    VarBytes(t.txIndex) + (VarBytes(t.txId) + (VarBytes(t.value)
      + (LittleEndian(t.toChain, 4) + LittleEndian(t.height, 8))))
  }

  /** The record at `off`, or None where the source reports an error; `.1` is where reading stopped. */
  function DecodeAt(buf: bytes, off: nat): (r: (Option<CrossTransfer>, nat))
    requires off <= |buf|
    ensures off <= r.1 <= |buf|
  {
    WidthBounds();
    var a := ReadVarBytes(buf, off);
    if a.eof then (None, a.off) else
    var b := ReadVarBytes(buf, a.off);
    if b.eof then (None, b.off) else
    var c := ReadVarBytes(buf, b.off);
    if c.eof then (None, c.off) else
    var d := ReadUint(buf, c.off, 4);
    if d.eof then (None, d.off) else
    var e := ReadUint(buf, d.off, 8);
    if e.eof then (None, e.off) else
    (Some(CrossTransfer(a.value, b.value, c.value, d.value, e.value)), e.off)
  }

  function Decode(raw: bytes): Option<CrossTransfer> {
    DecodeAt(raw, 0).0
  }

  lemma TailAt(buf: bytes, off: nat, a: bytes, b: bytes)
    requires off <= |buf| && buf[off..] == a + b
    ensures off + |a| <= |buf| && buf[off + |a|..] == b
  {
    assert buf[off + |a|..] == buf[off..][|a|..];
  }

  /** A field in full: its value is read, and what follows it stands at the new cursor. */
  lemma WholeField(buf: bytes, off: nat, d: bytes, rest: bytes)
    requires off <= |buf| && |d| < TWO64 && buf[off..] == VarBytes(d) + rest
    ensures ReadVarBytes(buf, off) == Read(d, false, off + |VarBytes(d)|)
    ensures off + |VarBytes(d)| <= |buf| && buf[off + |VarBytes(d)|..] == rest
  {
    hide ReadVarBytes, VarBytes;
    ReadVarBytesWhole(buf, off, d);
    TailAt(buf, off, VarBytes(d), rest);
  }

  lemma WholeUint(buf: bytes, off: nat, n: nat, w: nat, rest: bytes)
    requires off <= |buf| && n < Pow256(w) && buf[off..] == LittleEndian(n, w) + rest
    ensures ReadUint(buf, off, w) == Read(n, false, off + w)
    ensures off + w <= |buf| && buf[off + w..] == rest
  {
    hide ReadUint, LittleEndian, Pow256;
    ReadUintWhole(buf, off, n, w);
    TailAt(buf, off, LittleEndian(n, w), rest);
  }

  lemma Reassociate(a: bytes, b: bytes, c: bytes, d: bytes, e: bytes, f: bytes)
    ensures (a + (b + (c + (d + e)))) + f == a + (b + (c + (d + (e + f))))
  {
    assert (d + e) + f == d + (e + f);
    assert (c + (d + e)) + f == c + ((d + e) + f);
    assert (b + (c + (d + e))) + f == b + ((c + (d + e)) + f);
    assert (a + (b + (c + (d + e)))) + f == a + ((b + (c + (d + e))) + f);
  }

  lemma Appended(s: bytes, a: bytes, b: bytes, c: bytes, d: bytes, e: bytes)
    ensures ((((s + a) + b) + c) + d) + e == s + (a + (b + (c + (d + e))))
  {
    assert (s + a) + (b + (c + (d + e))) == s + (a + (b + (c + (d + e))));
    assert ((s + a) + b) + (c + (d + e)) == (s + a) + (b + (c + (d + e)));
    assert (((s + a) + b) + c) + (d + e) == ((s + a) + b) + (c + (d + e));
    assert ((((s + a) + b) + c) + d) + e == (((s + a) + b) + c) + (d + e);
  }

  /** Decoding undoes encoding in front of any suffix, and stops exactly at the suffix. */
  lemma RoundTrip(t: CrossTransfer, suffix: bytes)
    requires t.Encodable()
    ensures DecodeAt(Encode(t) + suffix, 0) == (Some(t), |Encode(t)|)
  {
    hide LittleEndian, Pow256, ReadVarBytes, ReadUint, VarBytes;
    WidthBounds();
    var buf := Encode(t) + suffix;
    var e := LittleEndian(t.height, 8) + suffix;
    var d := LittleEndian(t.toChain, 4) + e;
    var c := VarBytes(t.value) + d;
    var b := VarBytes(t.txId) + c;
    Reassociate(VarBytes(t.txIndex), VarBytes(t.txId), VarBytes(t.value),
      LittleEndian(t.toChain, 4), LittleEndian(t.height, 8), suffix);
    assert buf[0..] == buf;
    WholeField(buf, 0, t.txIndex, b);
    var o1 := |VarBytes(t.txIndex)|;
    WholeField(buf, o1, t.txId, c);
    var o2 := o1 + |VarBytes(t.txId)|;
    WholeField(buf, o2, t.value, d);
    var o3 := o2 + |VarBytes(t.value)|;
    WholeUint(buf, o3, t.toChain, 4, e);
    WholeUint(buf, o3 + 4, t.height, 8, suffix);
  }

  /** The fields in the order and the form in which they stand in a key; the chain and the height lowest byte first. */
  lemma EncodedBytes(t: CrossTransfer)
    requires t.Encodable()
    ensures
      var k, n := Encode(t), |Encode(t)|;
      && k[..n - 12] ==
          VarUint(|t.txIndex|) + t.txIndex + (VarUint(|t.txId|) + t.txId) + (VarUint(|t.value|) + t.value)
      && (forall i :: 0 <= i < 4 ==> k[n - 12 + i] == t.toChain / Pow256(i) % 256)
      && (forall i :: 0 <= i < 8 ==> k[n - 8 + i] == t.height / Pow256(i) % 256)
  {
    hide LittleEndian, Pow256, VarUint;
    var head := VarBytes(t.txIndex) + VarBytes(t.txId) + VarBytes(t.value);
    var toChain, height := LittleEndian(t.toChain, 4), LittleEndian(t.height, 8);
    assert Encode(t) == head + (toChain + height);
    forall i | 0 <= i < 4 ensures toChain[i] == t.toChain / Pow256(i) % 256 {
      LittleEndianAt(t.toChain, 4, i);
    }
    forall i | 0 <= i < 8 ensures height[i] == t.height / Pow256(i) % 256 {
      LittleEndianAt(t.height, 8, i);
    }
  }

  /** A record as the repository's sample has them: index "03", target chain 101, block 13809. */
  lemma SampleKey(txId: bytes, value: bytes)
    requires |txId| == 32 && |value| == 198
    ensures Encode(CrossTransfer([0x30, 0x33], txId, value, 101, 13809)) ==
      [2, 0x30, 0x33, 32] + txId + [198] + value + [0x65, 0, 0, 0] + [0xF1, 0x35, 0, 0, 0, 0, 0, 0]
  {
    hide VarUint, LittleEndian;
    assert VarUint(2) == [2] by { VarUintBytes(2); }
    assert VarUint(32) == [32] by { VarUintBytes(32); }
    assert VarUint(198) == [198] by { VarUintBytes(198); }
    SmallLittleEndian(101, 4);
    SmallLittleEndian(13809, 8);
    var toChain, height := LittleEndian(101, 4), LittleEndian(13809, 8);
    assert toChain == [0x65, 0, 0, 0] && height == [0xF1, 0x35, 0, 0, 0, 0, 0, 0];
    SampleFields([0x30, 0x33], txId, value, toChain, height);
  }

  lemma SampleFields(index: bytes, txId: bytes, value: bytes, toChain: bytes, height: bytes)
    requires |index| == 2
    ensures ([2] + index) + (([32] + txId) + (([198] + value) + (toChain + height)))
      == [2, index[0], index[1], 32] + txId + [198] + value + toChain + height
  {
  }

  lemma SmallLittleEndian(n: nat, w: nat)
    requires n < 0x1_0000 && w >= 2
    ensures LittleEndian(n, w) == [n % 256, n / 256] + Zeros(w - 2)
  {
    LittleEndianZero(w - 2);
  }

  lemma {:induction false} LittleEndianZero(w: nat)
    ensures LittleEndian(0, w) == Zeros(w)
  {
    if w > 0 {
      LittleEndianZero(w - 1);
      assert Zeros(w) == [0] + Zeros(w - 1);
    }
  }

  /** Distinct transfers never share a Retry key. */
  lemma EncodeInjective(t: CrossTransfer, u: CrossTransfer)
    requires t.Encodable() && u.Encodable() && Encode(t) == Encode(u)
    ensures t == u
  {
    RoundTrip(t, []);
    RoundTrip(u, []);
    assert Encode(t) + [] == Encode(u) + [];
  }

  /** The next field, a count-prefixed string, is either read in full or cut off, depending on where `cut` ends. */
  lemma FieldAt(cut: bytes, off: nat, d: bytes, rest: bytes)
    requires off <= |cut| && |d| < TWO64 && cut[off..] < VarBytes(d) + rest
    ensures
      var r := ReadVarBytes(cut, off);
      if |cut| - off < |VarBytes(d)| then r.eof
      else r == Read(d, false, off + |VarBytes(d)|) && cut[r.off..] < rest
  {
    hide ReadVarBytes, VarBytes;
    var whole := VarBytes(d) + rest;
    var m := |cut| - off;
    assert cut[off..] == whole[..m];
    if m < |VarBytes(d)| {
      assert whole[..m] == VarBytes(d)[..m];
      ReadVarBytesCut(cut, off, d);
    } else {
      assert whole[..m] == VarBytes(d) + rest[..m - |VarBytes(d)|];
      ReadVarBytesWhole(cut, off, d);
      TailAt(cut, off, VarBytes(d), rest[..m - |VarBytes(d)|]);
    }
  }

  /** Every proper prefix of an encoding is rejected. */
  lemma PrefixRejected(t: CrossTransfer, cut: bytes)
    requires t.Encodable() && cut < Encode(t)
    ensures Decode(cut) == None
  {
    hide LittleEndian, Pow256, FromLittleEndian, ReadVarBytes, VarBytes;
    WidthBounds();
    var d := LittleEndian(t.toChain, 4) + LittleEndian(t.height, 8);
    var c := VarBytes(t.value) + d;
    var b := VarBytes(t.txId) + c;
    assert cut[0..] == cut;
    FieldAt(cut, 0, t.txIndex, b);
    var r1 := ReadVarBytes(cut, 0);
    if !r1.eof {
      FieldAt(cut, r1.off, t.txId, c);
      var r2 := ReadVarBytes(cut, r1.off);
      if !r2.eof {
        FieldAt(cut, r2.off, t.value, d);
      }
    }
  }

  /** `CrossTransfer.Serialization`. */
  method Serialization(t: CrossTransfer, sink: Sink)
    requires t.Encodable()
    modifies sink
    ensures sink.buf == old(sink.buf) + Encode(t)
  {
    hide LittleEndian, VarBytes, VarUint;
    ghost var start := sink.buf;
    sink.WriteVarBytes(t.txIndex);
    sink.WriteVarBytes(t.txId);
    sink.WriteVarBytes(t.value);
    sink.WriteUint(t.toChain, 4);
    sink.WriteUint(t.height, 8);
    Appended(start, VarBytes(t.txIndex), VarBytes(t.txId), VarBytes(t.value),
      LittleEndian(t.toChain, 4), LittleEndian(t.height, 8));
  }

  /** `CrossTransfer.Deserialization` on a fresh source over `raw`, as `deserializeCrossTransfer` calls it. */
  method Deserialize(raw: bytes) returns (r: Option<CrossTransfer>)
    ensures r == Decode(raw)
  {
    hide ReadVarBytes, ReadUint, Pow256;
    WidthBounds();
    var source := new Source(raw);
    var txIndex, txId, value, toChain, height, eof;
    txIndex, eof := source.NextVarBytes();
    if eof {
      return None;
    }
    txId, eof := source.NextVarBytes();
    if eof {
      return None;
    }
    value, eof := source.NextVarBytes();
    if eof {
      return None;
    }
    toChain, eof := source.NextUint(4);
    if eof {
      return None;
    }
    height, eof := source.NextUint(8);
    if eof {
      return None;
    }
    return Some(CrossTransfer(txIndex, txId, value, toChain, height));
  }

  /** The fields of a cross-chain event that the relayer keeps. */
  datatype Event = Event(txId: bytes, txHash: bytes, rawData: bytes, toChainId: uint64)

  /** `serializeCrossTransfer`: the target chain id is cut to 32 bits, the transfer id becomes a hex index. */
  function FromEvent(evt: Event, height: uint64): CrossTransfer {
    CrossTransfer(EncodeBigInt(FromBigEndian(evt.txId)), evt.txHash, evt.rawData, evt.toChainId % TWO32, height)
  }

  /**
    A key that holds an event: it decodes to the event's payload as the value, its transaction hash as the id, the low
    32 bits of its target chain, and the block's height; and the hashed preimage made from the index is Solidity's
    for entry `txId` of the mapping at slot 1 exactly if that id is 0 or its low 64 bits are not all zero.
   */
  ghost predicate Holds(k: bytes, evt: Event, height: uint64) {
    match Decode(k)
    case None => false
    case Some(t) =>
      && t.value == evt.rawData && t.txId == evt.txHash
      && t.toChain == evt.toChainId % 0x1_0000_0000 && t.height == height
      && Preimage(t.txIndex, [48, 49]).Some?
      && (|evt.txId| <= 32 ==>
          var n := FromBigEndian(evt.txId);
          Preimage(t.txIndex, [48, 49]) == Some(SolidityPreimage(n)) <==> n == 0 || n % TWO64 != 0)
  }

  /** The key stored for an event holds it. */
  lemma KeyHolds(evt: Event, height: uint64)
    requires FromEvent(evt, height).Encodable()
    ensures Holds(Encode(FromEvent(evt, height)), evt, height)
  {
    hide Encode, DecodeAt, EncodeBigInt, FromBigEndian, SolidityPreimage, Preimage;
    var k := Encode(FromEvent(evt, height));
    RoundTrip(FromEvent(evt, height), []);
    assert k + [] == k;
    SlotExists(FromBigEndian(evt.txId));
    if |evt.txId| <= 32 {
      SlotPreimageExact(evt.txId);
    }
  }

  /**
    Two events get the same Retry key exactly when they agree on height, transaction, payload, the low half of the
    target chain id and the hex index of the transfer id.
   */
  lemma EventKeys(evt: Event, height: uint64, evt': Event, height': uint64)
    requires FromEvent(evt, height).Encodable() && FromEvent(evt', height').Encodable()
    ensures Encode(FromEvent(evt, height)) == Encode(FromEvent(evt', height')) <==>
      && height == height' && evt.txHash == evt'.txHash && evt.rawData == evt'.rawData
      && evt.toChainId % TWO32 == evt'.toChainId % TWO32
      && EncodeBigInt(FromBigEndian(evt.txId)) == EncodeBigInt(FromBigEndian(evt'.txId))
  {
    if Encode(FromEvent(evt, height)) == Encode(FromEvent(evt', height')) {
      EncodeInjective(FromEvent(evt, height), FromEvent(evt', height'));
    }
  }
}
