/** The list of Poly's consensus keepers, as stored on Palette (manager/utils.go, utils/poly/poly.go). */
module Keepers {
  import opened Prelude
  import opened ZeroCopy
  import opened Order

  /** `common.BytesToAddress`: the last 20 bytes, or zeros in front. */
  function BytesToAddress(b: bytes): Address {
    if |b| > 20 then b[|b| - 20..] else seq(20 - |b|, _ => 0) + b
  }

  function Fields(addrs: seq<Address>): bytes {
    if addrs == [] then [] else Fields(addrs[..|addrs| - 1]) + VarBytes(addrs[|addrs| - 1])
  }

  function Encode(addrs: seq<Address>): bytes {
    LittleEndian(|addrs|, 8) + Fields(addrs)
  }

  /** The addresses that `n` reads yield from `off` on, and where they stop. Running out of input is not noticed. */
  function DecodeFields(raw: bytes, off: nat, n: nat): (r: (seq<Address>, nat))
    requires off <= |raw|
    ensures |r.0| == n && off <= r.1 <= |raw|
  {
    if n == 0 then ([], off)
    else
      var before := DecodeFields(raw, off, n - 1);
      var f := ReadVarBytes(raw, before.1);
      (before.0 + [BytesToAddress(f.value)], f.off)
  }

  /** None where the count is too large to allocate: the code panics there. */
  function Decode(raw: bytes): Option<seq<Address>> {
    var count := ReadUint(raw, 0, 8);
    if count.value >= TWO64 / 2 then None else Some(DecodeFields(raw, count.off, count.value).0)
  }

  /** `DeserializeKeepers` of utils/poly. */
  method DeserializeKeepers(raw: bytes) returns (r: Option<seq<Address>>)
    ensures r == Decode(raw)
  {
    hide ReadVarBytes, ReadUint;
    var source := new Source(raw);
    var keeperLen, eof;
    keeperLen, eof := source.NextUint(8);
    if keeperLen >= TWO64 / 2 {
      return None;
    }
    ghost var start := source.off;
    var keepers := new Address[keeperLen](_ => BytesToAddress([]));
    var i := 0;
    while i < keeperLen
      invariant 0 <= i <= keeperLen == keepers.Length
      invariant source.Valid() && source.buf == raw && start <= |raw|
      invariant (keepers[..i], source.off) == DecodeFields(raw, start, i)
    {
      var keeperBytes;
      keeperBytes, eof := source.NextVarBytes();
      keepers[i] := BytesToAddress(keeperBytes);
      i := i + 1;
      assert keepers[..i] == keepers[..i - 1] + [BytesToAddress(keeperBytes)];
    }
    assert keepers[..] == keepers[..i];
    return Some(keepers[..]);
  }

  lemma {:induction false} FieldsRoundTrip(raw: bytes, off: nat, addrs: seq<Address>)
    requires off <= |raw| && Fields(addrs) <= raw[off..]
    ensures DecodeFields(raw, off, |addrs|) == (addrs, off + |Fields(addrs)|)
  {
    hide ReadVarBytes, VarBytes;
    if addrs != [] {
      var n := |addrs| - 1;
      var before, last := Fields(addrs[..n]), VarBytes(addrs[n]);
      assert Fields(addrs) == before + last;
      FieldsRoundTrip(raw, off, addrs[..n]);
      FieldBehind(raw, off, before, last);
      ReadVarBytesWhole(raw, off + |before|, addrs[n]);
      assert BytesToAddress(addrs[n]) == addrs[n];
      assert addrs == addrs[..n] + [addrs[n]];
    }
  }

  lemma FieldBehind(raw: bytes, off: nat, before: bytes, last: bytes)
    requires off <= |raw| && before + last <= raw[off..]
    ensures off + |before| <= |raw| && last <= raw[off + |before|..]
  {
    assert raw[off + |before|..] == raw[off..][|before|..];
    assert (before + last)[|before|..] == last;
  }

  /** Decoding an encoded keeper list gives back the same addresses in the same order. */
  lemma RoundTrip(addrs: seq<Address>)
    requires |addrs| < TWO64 / 2
    ensures Decode(Encode(addrs)) == Some(addrs)
  {
    hide LittleEndian, Pow256, ReadUint, Fields, DecodeFields;
    WidthBounds();
    var count := LittleEndian(|addrs|, 8);
    assert count <= Encode(addrs)[0..];
    ReadUintWhole(Encode(addrs), 0, |addrs|, 8);
    assert Encode(addrs)[8..] == Fields(addrs);
    FieldsRoundTrip(Encode(addrs), 8, addrs);
  }

  lemma {:induction false} FieldAt(addrs: seq<Address>, i: nat)
    requires i < |addrs|
    ensures |Fields(addrs)| == 21 * |addrs| && Fields(addrs)[21 * i..21 * i + 21] == [20] + addrs[i]
  {
    var n := |addrs| - 1;
    VarUintBytes(20);
    hide VarUint;
    if n > 0 {
      FieldAt(addrs[..n], if i < n then i else 0);
    }
  }

  /** The bytes: the count in eight bytes, the lowest first, then each address behind its length. */
  lemma EncodeAt(addrs: seq<Address>, i: nat, k: nat)
    requires i < |addrs| && k < 8
    ensures |Encode(addrs)| == 8 + 21 * |addrs|
    ensures Encode(addrs)[k] == |addrs| / Pow256(k) % 256
    ensures Encode(addrs)[8 + 21 * i..29 + 21 * i] == [20] + addrs[i]
  {
    hide LittleEndian, Fields;
    FieldAt(addrs, i);
    LittleEndianAt(|addrs|, 8, k);
    assert Encode(addrs)[8 + 21 * i..29 + 21 * i] == Fields(addrs)[21 * i..21 * i + 21];
  }

  /** A count with nothing behind it still yields that many addresses, all of them zero. */
  lemma NothingBehind(n: nat)
    requires n < TWO64 / 2
    ensures Decode(LittleEndian(n, 8)).Some? && |Decode(LittleEndian(n, 8)).value| == n
    ensures forall i, k :: 0 <= i < n && 0 <= k < 20 ==> Decode(LittleEndian(n, 8)).value[i][k] == 0
  {
    hide LittleEndian, Pow256, ReadUint, DecodeFields;
    WidthBounds();
    var raw := LittleEndian(n, 8);
    assert raw <= raw[0..];
    ReadUintWhole(raw, 0, n, 8);
    ZeroFields(raw, n);
  }

  lemma {:induction false} ZeroFields(raw: bytes, n: nat)
    ensures DecodeFields(raw, |raw|, n).1 == |raw|
    ensures forall i, k :: 0 <= i < n && 0 <= k < 20 ==> DecodeFields(raw, |raw|, n).0[i][k] == 0
  {
    if n > 0 {
      ZeroFields(raw, n - 1);
    }
  }

  /** An address takes the last 20 bytes of what it is made from; what is missing in front is zero. */
  lemma AddressAt(b: bytes, i: nat)
    requires i < 20
    ensures BytesToAddress(b)[i] == if |b| + i >= 20 then b[|b| + i - 20] else 0
  {
  }

  lemma EncodeInjective(a: seq<Address>, b: seq<Address>)
    requires |a| < TWO64 / 2 && |b| < TWO64 / 2
    ensures Encode(a) == Encode(b) <==> a == b
  {
    if Encode(a) == Encode(b) {
      RoundTrip(a);
      RoundTrip(b);
    }
  }

  /** Serialized peer keys; `addressOf` is the Keccak address, `rawOf` the uncompressed form. */
  type Key = bytes

  function Map(f: Key -> Address, keys: seq<Key>): (r: seq<Address>)
    ensures |r| == |keys| && forall i :: 0 <= i < |r| ==> r[i] == f(keys[i])
  {
    seq(|keys|, i requires 0 <= i < |keys| => f(keys[i]))
  }

  function Join(f: Key -> bytes, keys: seq<Key>): bytes {
    if keys == [] then [] else Join(f, keys[..|keys| - 1]) + f(keys[|keys| - 1])
  }

  /** The raw keys stand one behind the other, in their order. */
  lemma {:induction false} JoinBehind(f: Key -> bytes, a: seq<Key>, b: seq<Key>)
    ensures Join(f, a + b) == Join(f, a) + Join(f, b)
  {
    if b == [] {
      assert a + b == a;
    } else {
      var n := |b| - 1;
      JoinBehind(f, a, b[..n]);
      LastKey(f, a + b);
      LastKey(f, b);
      hide Join;
      assert (a + b)[..|a| + n] == a + b[..n] && (a + b)[|a| + n] == b[n];
      Associates(Join(f, a), Join(f, b[..n]), f(b[n]));
    }
  }

  lemma LastKey(f: Key -> bytes, keys: seq<Key>)
    ensures keys != [] ==> Join(f, keys) == Join(f, keys[..|keys| - 1]) + f(keys[|keys| - 1])
    ensures |keys| == 1 ==> Join(f, keys) == f(keys[0])
  {
  }

  lemma Associates(a: bytes, b: bytes, c: bytes)
    ensures (a + b) + c == a + (b + c)
  {
  }

  /** `keypair.SortPublicKeys`. */
  method SortPublicKeys(peers: seq<Key>, before: (Key, Key) -> bool) returns (bookkeepers: seq<Key>)
    requires StrictTotal(before)
    ensures Sorted(before, bookkeepers) && multiset(bookkeepers) == multiset(peers)
  {
    var keys := new Key[|peers|](i requires 0 <= i < |peers| => peers[i]);
    assert keys[..] == peers;
    SortSlice(keys, before);
    return keys[..];
  }

  /** `assemblePubKeyList`: the peers' keys in their canonical order, as addresses for the sink and as raw keys. */
  method AssemblePubKeyList(peers: seq<Key>, before: (Key, Key) -> bool, addressOf: Key -> Address, rawOf: Key -> bytes)
    returns (sink: Sink, pubKeyList: bytes, bookkeepers: seq<Key>)
    requires StrictTotal(before) && |peers| < TWO64
    ensures Sorted(before, bookkeepers) && multiset(bookkeepers) == multiset(peers)
    ensures sink.buf == Encode(Map(addressOf, bookkeepers))
    ensures pubKeyList == Join(rawOf, bookkeepers)
    ensures fresh(sink)
  {
    bookkeepers := SortPublicKeys(peers, before);
    sink, pubKeyList := WriteKeys(bookkeepers, addressOf, rawOf);
  }

  method WriteKeys(keys: seq<Key>, addressOf: Key -> Address, rawOf: Key -> bytes)
    returns (sink: Sink, pubKeyList: bytes)
    ensures sink.buf == Encode(Map(addressOf, keys))
    ensures pubKeyList == Join(rawOf, keys)
    ensures fresh(sink)
  {
    hide LittleEndian, VarBytes, Fields, Join;
    ghost var addrs := Map(addressOf, keys);
    pubKeyList := [];
    sink := new Sink();
    sink.WriteUint(|keys|, 8);
    ghost var count := sink.buf;
    Ends(addrs, rawOf, keys);
    for i := 0 to |keys|
      invariant pubKeyList == Join(rawOf, keys[..i])
      invariant sink.buf == count + Fields(addrs[..i])
    {
      Another(addrs, rawOf, keys, i);
      pubKeyList := pubKeyList + rawOf(keys[i]);
      sink.WriteVarBytes(addressOf(keys[i]));
    }
  }

  lemma Ends(addrs: seq<Address>, rawOf: Key -> bytes, keys: seq<Key>)
    requires |addrs| == |keys|
    ensures Fields(addrs[..0]) == [] && Join(rawOf, keys[..0]) == []
    ensures addrs[..|keys|] == addrs && keys[..|keys|] == keys
  {
  }

  lemma Another(addrs: seq<Address>, rawOf: Key -> bytes, keys: seq<Key>, i: nat)
    requires i < |keys| == |addrs|
    ensures Fields(addrs[..i + 1]) == Fields(addrs[..i]) + VarBytes(addrs[i])
    ensures Join(rawOf, keys[..i + 1]) == Join(rawOf, keys[..i]) + rawOf(keys[i])
  {
    assert addrs[..i + 1][..i] == addrs[..i];
    assert keys[..i + 1][..i] == keys[..i];
  }

  /**
    The byte comparison in Poly's `isEpoch` is equality of keeper sets: the stored encoding equals the new one
    exactly when both were made from the same multiset of keys (no two of which share an address).
   */
  lemma {:induction false} EpochBytesExact(before: (Key, Key) -> bool, addressOf: Key -> Address,
                                           stored: seq<Key>, current: seq<Key>)
    requires StrictTotal(before) && Sorted(before, stored) && Sorted(before, current)
    requires |stored| < TWO64 / 2 && |current| < TWO64 / 2
    requires forall k, l :: k in stored + current && l in stored + current && addressOf(k) == addressOf(l) ==> k == l
    ensures Encode(Map(addressOf, stored)) == Encode(Map(addressOf, current)) <==> multiset(stored) == multiset(current)
  {
    EncodeInjective(Map(addressOf, stored), Map(addressOf, current));
    if Map(addressOf, stored) == Map(addressOf, current) {
      forall i | 0 <= i < |stored| ensures stored[i] == current[i] {
        assert Map(addressOf, stored)[i] == Map(addressOf, current)[i];
      }
      assert stored == current;
    }
    if multiset(stored) == multiset(current) {
      SortedUnique(before, stored, current);
    }
  }
}
