/** Signature lists, the keeper threshold and the two-thirds rule (utils/poly/poly.go, manager/utils.go). */
module Quorum {
  import opened Prelude
  import opened Keepers

  const SIG: nat := 65

  type Sig = b: bytes | |b| == SIG witness seq(SIG, _ => 0)

  function Join(sigs: seq<bytes>): bytes {
    if sigs == [] then [] else Join(sigs[..|sigs| - 1]) + sigs[|sigs| - 1]
  }

  /** `assembleHeaderSigs`: every signature converted, in order, in one buffer. */
  method AssembleHeaderSigs(sigData: seq<bytes>, convert: bytes -> bytes) returns (sigs: bytes)
    ensures sigs == Join(seq(|sigData|, i requires 0 <= i < |sigData| => convert(sigData[i])))
  {
    ghost var all := seq(|sigData|, i requires 0 <= i < |sigData| => convert(sigData[i]));
    sigs := [];
    for i := 0 to |sigData|
      invariant sigs == Join(all[..i])
    {
      sigs := sigs + convert(sigData[i]);
      assert all[..i + 1][..i] == all[..i];
    }
    assert all[..|sigData|] == all;
  }

  function Chunk(data: bytes, i: nat): Sig
    requires SIG * (i + 1) <= |data|
  {
    data[SIG * i..SIG * (i + 1)]
  }

  /** `RawMultiSigsToList`: refuses an empty buffer and any length that is not a multiple of 65. */
  method RawMultiSigsToList(sigData: bytes) returns (r: Option<seq<Sig>>)
    ensures r.Some? <==> sigData != [] && |sigData| % SIG == 0
    ensures r.Some? ==> |r.value| == |sigData| / SIG
    ensures r.Some? ==> Join(r.value) == sigData
    ensures r.Some? ==> forall i :: 0 <= i < |r.value| ==> r.value[i] == Chunk(sigData, i)
  {
    if |sigData| % SIG != 0 {
      return None;
    }
    var sigCount := |sigData| / SIG;
    if sigCount == 0 {
      return None;
    }
    var sigs := new Sig[sigCount](_ => seq(SIG, _ => 0));
    var i := 0;
    while i < sigCount
      invariant 0 <= i <= sigCount
      invariant Join(sigs[..i]) == sigData[..SIG * i]
      invariant forall j :: 0 <= j < i ==> sigs[j] == Chunk(sigData, j)
    {
      sigs[i] := Chunk(sigData, i);
      assert sigs[..i + 1][..i] == sigs[..i];
      assert sigData[..SIG * (i + 1)] == sigData[..SIG * i] + Chunk(sigData, i);
      i := i + 1;
    }
    assert sigs[..] == sigs[..i];
    assert sigData[..SIG * i] == sigData;
    return Some(sigs[..]);
  }

  /** Signatures of 65 bytes each can be cut out of the joined buffer in only one way. */
  lemma {:induction false} JoinInjective(a: seq<Sig>, b: seq<Sig>)
    requires Join(a) == Join(b)
    ensures a == b
  {
    JoinLength(a);
    JoinLength(b);
    if a != [] {
      var n := |a| - 1;
      JoinLength(a[..n]);
      JoinLength(b[..n]);
      assert Join(a)[SIG * n..] == a[n] && Join(a)[..SIG * n] == Join(a[..n]);
      assert Join(b)[SIG * n..] == b[n] && Join(b)[..SIG * n] == Join(b[..n]);
      JoinInjective(a[..n], b[..n]);
      assert a == a[..n] + [a[n]] && b == b[..n] + [b[n]];
    }
  }

  lemma {:induction false} JoinLength(a: seq<Sig>)
    ensures |Join(a)| == SIG * |a|
  {
    if a != [] {
      JoinLength(a[..|a| - 1]);
    }
  }

  /** The signatures stand in the buffer one behind the other, 65 bytes each. */
  lemma {:induction false} JoinAt(a: seq<Sig>, i: nat)
    requires i < |a|
    ensures |Join(a)| == 65 * |a| && Join(a)[65 * i..65 * i + 65] == a[i]
  {
    var n := |a| - 1;
    JoinLength(a[..n]);
    if i < n {
      JoinAt(a[..n], i);
      assert Join(a)[65 * i..65 * i + 65] == Join(a[..n])[65 * i..65 * i + 65];
    }
  }

  ghost function Elements<T>(s: seq<T>): set<T> {
    set x | x in s
  }

  ghost predicate Distinct<T>(s: seq<T>) {
    forall i, j :: 0 <= i < j < |s| ==> s[i] != s[j]
  }

  lemma {:induction false} DistinctSize<T>(s: seq<T>)
    ensures |Elements(s)| <= |s|
    ensures |Elements(s)| == |s| <==> Distinct(s)
  {
    if s != [] {
      var t := s[..|s| - 1];
      DistinctSize(t);
      assert Elements(s) == Elements(t) + {s[|s| - 1]};
      if s[|s| - 1] in t {
        var i :| 0 <= i < |t| && t[i] == s[|s| - 1];
        assert s[i] == s[|s| - 1];
      }
    }
  }

  /** How many positions of `keepers` hold a signer. */
  function CountIn(signers: seq<Address>, keepers: seq<Address>): nat {
    if keepers == [] then 0
    else CountIn(signers, keepers[..|keepers| - 1]) + (if keepers[|keepers| - 1] in signers then 1 else 0)
  }

  /** `containsMAddress`, scanning the keepers and, for each, the signers. */
  method ContainsMAddress(signers: seq<Address>, keepers: seq<Address>, m: int) returns (ok: bool)
    ensures ok <==> CountIn(signers, keepers) >= m
  {
    var count := 0;
    for i := 0 to |keepers|
      invariant count == CountIn(signers, keepers[..i])
    {
      var found := false;
      var j := 0;
      while j < |signers| && !found
        invariant 0 <= j <= |signers|
        invariant found <==> keepers[i] in signers[..j]
      {
        found := signers[j] == keepers[i];
        assert signers[..j + 1] == signers[..j] + [signers[j]];
        j := j + 1;
      }
      assert found <==> keepers[i] in signers by {
        if !found {
          assert signers[..j] == signers;
        }
      }
      assert keepers[..i + 1][..i] == keepers[..i];
      if found {
        count := count + 1;
      }
    }
    assert keepers[..|keepers|] == keepers;
    ok := count >= m;
  }

  /** The keepers among the signers, as a set. */
  ghost function Signed(signers: seq<Address>, keepers: seq<Address>): set<Address> {
    Elements(keepers) * Elements(signers)
  }

  lemma OneMore(signers: seq<Address>, init: seq<Address>, last: Address)
    requires last !in init
    ensures |Signed(signers, init + [last])| == |Signed(signers, init)| + (if last in signers then 1 else 0)
  {
    var more := init + [last];
    assert Elements(more) == Elements(init) + {last};
    if last in signers {
      assert Signed(signers, more) == Signed(signers, init) + {last};
    } else {
      assert Signed(signers, more) == Signed(signers, init);
    }
  }

  /** For distinct keepers the count is the number of keepers that signed, a repeated signer counting once. */
  lemma {:induction false} CountIsSigned(signers: seq<Address>, keepers: seq<Address>)
    requires Distinct(keepers)
    ensures CountIn(signers, keepers) == |Signed(signers, keepers)|
  {
    hide Signed;
    if keepers == [] {
      assert Signed(signers, keepers) == {} by { NobodySigned(signers); }
    } else {
      var n := |keepers| - 1;
      CountIsSigned(signers, keepers[..n]);
      OneMore(signers, keepers[..n], keepers[n]);
      assert keepers == keepers[..n] + [keepers[n]];
    }
  }

  lemma NobodySigned(signers: seq<Address>)
    ensures Signed(signers, []) == {}
  {
  }

  lemma Overlap<T>(a: set<T>, b: set<T>, all: set<T>)
    requires a <= all && b <= all
    ensures |a * b| >= |a| + |b| - |all|
  {
    assert |a + b| == |a| + |b| - |a * b|;
    assert a + b <= all;
    SubsetSize(a + b, all);
  }

  lemma SubsetSize<T>(a: set<T>, b: set<T>)
    requires a <= b
    ensures |a| <= |b|
  {
    assert b == a + (b - a);
  }

  /**
    `RecoverSignersFromMultiSigs`: None where one recovery fails. A signer is the last 20 bytes of what
    `Ecrecover` returns, not a hash of it.
   */
  method RecoverSigners(sigs: seq<Sig>, recover: Sig -> Option<bytes>) returns (r: Option<seq<Address>>)
    ensures r.Some? <==> forall i :: 0 <= i < |sigs| ==> recover(sigs[i]).Some?
    ensures r.Some? ==> |r.value| == |sigs|
    ensures r.Some? ==> forall i :: 0 <= i < |sigs| ==> r.value[i] == BytesToAddress(recover(sigs[i]).value)
  {
    var signers := new Address[|sigs|](_ => BytesToAddress([]));
    var i := 0;
    while i < |sigs|
      invariant 0 <= i <= |sigs|
      invariant forall j :: 0 <= j < i ==>
        recover(sigs[j]).Some? && signers[j] == BytesToAddress(recover(sigs[j]).value)
    {
      var enc := recover(sigs[i]);
      if enc == None {
        return None;
      }
      signers[i] := BytesToAddress(enc.value);
      i := i + 1;
    }
    return Some(signers[..]);
  }

  /** The signers of a buffer of 65-byte signatures, or None where it is malformed or one recovery fails. */
  ghost function SignersOf(data: bytes, recover: Sig -> Option<bytes>): Option<seq<Address>> {
    var n := |data| / SIG;
    if n == 0 || |data| % SIG != 0 || exists i :: 0 <= i < n && recover(Chunk(data, i)) == None then None
    else Some(seq(n, i requires 0 <= i < n => BytesToAddress(recover(Chunk(data, i)).value)))
  }

  /** `VerifySig`: accepted exactly when the buffer is well formed and `m` keeper positions hold a signer. */
  method VerifySig(multiSigData: bytes, keepers: seq<Address>, m: int, recover: Sig -> Option<bytes>)
    returns (ok: bool)
    ensures ok <==>
      var signers := SignersOf(multiSigData, recover);
      signers.Some? && CountIn(signers.value, keepers) >= m
  {
    var sigs := RawMultiSigsToList(multiSigData);
    if sigs == None {
      return false;
    }
    var signers := RecoverSigners(sigs.value, recover);
    if signers == None {
      ghost var i :| 0 <= i < |sigs.value| && recover(sigs.value[i]) == None;
      assert recover(Chunk(multiSigData, i)) == None;
      return false;
    }
    assert forall i :: 0 <= i < |sigs.value| ==> recover(Chunk(multiSigData, i)) == recover(sigs.value[i]);
    assert signers.value == SignersOf(multiSigData, recover).value;
    ok := ContainsMAddress(signers.value, keepers, m);
  }

  function Addresses(addressOf: bytes -> Address, keys: seq<bytes>): (r: seq<Address>)
    ensures |r| == |keys| && forall i :: 0 <= i < |r| ==> r[i] == addressOf(keys[i])
  {
    seq(|keys|, i requires 0 <= i < |keys| => addressOf(keys[i]))
  }

  /** What the code takes for the signers: the last 20 bytes of each recovered key. */
  function Tails(keys: seq<bytes>): seq<Address> {
    Addresses(BytesToAddress, keys)
  }

  /** The signers of a buffer whose signatures recover to `signed`. */
  lemma {:induction false} SignersAreTails(data: bytes, recover: Sig -> Option<bytes>, signed: seq<bytes>)
    requires data != [] && |data| == SIG * |signed|
    requires forall i :: 0 <= i < |signed| ==> recover(Chunk(data, i)) == Some(signed[i])
    ensures SignersOf(data, recover) == Some(Tails(signed))
  {
    assert SignersOf(data, recover).value == Tails(signed);
  }

  predicate Passes(signers: seq<Address>, keepers: seq<Address>, m: int) {
    CountIn(signers, keepers) >= m
  }

  ghost predicate InjectiveOn(f: bytes -> Address, keys: seq<bytes>) {
    forall k, l :: k in keys && l in keys && f(k) == f(l) ==> k == l
  }

  /** For these signing keys, the tails pass every threshold that the keys' own addresses pass, and no other. */
  ghost predicate SameVerdicts(addressOf: bytes -> Address, keys: seq<bytes>, signed: seq<bytes>) {
    var keepers := Addresses(addressOf, keys);
    forall m: int :: Passes(Tails(signed), keepers, m) <==> Passes(Addresses(addressOf, signed), keepers, m)
  }

  /** Every tail of a listed key is a keeper's address, and no two keys share a tail. */
  ghost predicate TailsName(addressOf: bytes -> Address, keys: seq<bytes>) {
    && InjectiveOn(BytesToAddress, keys)
    && forall k :: k in keys ==> BytesToAddress(k) in Addresses(addressOf, keys)
  }

  lemma ElementsMore<T>(init: seq<T>, last: T)
    ensures Elements(init + [last]) == Elements(init) + {last}
  {
  }

  lemma {:induction false} ImageSize(f: bytes -> Address, keys: seq<bytes>)
    requires InjectiveOn(f, keys)
    ensures |Elements(Addresses(f, keys))| == |Elements(keys)|
  {
    hide Elements, Addresses;
    if keys == [] {
      assert Elements(Addresses(f, keys)) == {} == Elements(keys) by { NoElements(f); }
    } else {
      var init, last := keys[..|keys| - 1], keys[|keys| - 1];
      assert forall k :: k in init ==> k in keys;
      ImageSize(f, init);
      assert keys == init + [last] && Addresses(f, keys) == Addresses(f, init) + [f(last)];
      ElementsMore(init, last);
      ElementsMore(Addresses(f, init), f(last));
      SameMembers(f, init, last);
      AddSize(Elements(init), last);
      AddSize(Elements(Addresses(f, init)), f(last));
    }
  }

  lemma AddSize<T>(a: set<T>, x: T)
    ensures |a + {x}| == |a| + (if x in a then 0 else 1)
  {
    assert x in a ==> a + {x} == a;
  }

  lemma NoElements(f: bytes -> Address)
    ensures Elements(Addresses(f, [])) == {} && Elements<bytes>([]) == {}
  {
  }

  lemma {:induction false} SameMembers(f: bytes -> Address, init: seq<bytes>, last: bytes)
    requires InjectiveOn(f, init + [last])
    ensures f(last) in Elements(Addresses(f, init)) <==> last in Elements(init)
  {
    if f(last) in Addresses(f, init) {
      var i :| 0 <= i < |init| && Addresses(f, init)[i] == f(last);
      assert init[i] in init + [last] && last in init + [last];
    } else if last in init {
      Listed(f, init, last);
    }
  }

  lemma {:induction false} DistinctAddresses(f: bytes -> Address, keys: seq<bytes>)
    requires Distinct(keys) && InjectiveOn(f, keys)
    ensures Distinct(Addresses(f, keys))
  {
  }

  /** How many keepers a list of signing keys meets under `f`. */
  lemma {:induction false} Met(f: bytes -> Address, keepers: seq<Address>, signed: seq<bytes>)
    requires Distinct(keepers) && InjectiveOn(f, signed)
    requires forall k :: k in signed ==> f(k) in keepers
    ensures CountIn(Addresses(f, signed), keepers) == |Elements(signed)|
  {
    CountIsSigned(Addresses(f, signed), keepers);
    ImageSize(f, signed);
    forall a | a in Addresses(f, signed) ensures a in keepers {
      var i :| 0 <= i < |signed| && Addresses(f, signed)[i] == a;
      assert signed[i] in signed;
    }
    assert Signed(Addresses(f, signed), keepers) == Elements(Addresses(f, signed));
  }

  lemma {:induction false} Listed(addressOf: bytes -> Address, keys: seq<bytes>, k: bytes)
    requires k in keys
    ensures addressOf(k) in Addresses(addressOf, keys)
  {
    var i :| 0 <= i < |keys| && keys[i] == k;
    assert Addresses(addressOf, keys)[i] == addressOf(k);
  }

  lemma {:induction false} TailListed(addressOf: bytes -> Address, keys: seq<bytes>, k: bytes)
    requires Distinct(keys) && InjectiveOn(addressOf, keys) && k in keys && SameVerdicts(addressOf, keys, [k])
    ensures BytesToAddress(k) in Addresses(addressOf, keys)
  {
    hide BytesToAddress, Elements;
    var keepers := Addresses(addressOf, keys);
    DistinctAddresses(addressOf, keys);
    Listed(addressOf, keys, k);
    Met(addressOf, keepers, [k]);
    assert Elements([k]) == {k} by { ElementsOf(k, k); }
    assert Passes(Tails([k]), keepers, 1);
    MetOne(Tails([k]), keepers);
  }

  lemma {:induction false} TailsDiffer(addressOf: bytes -> Address, keys: seq<bytes>, k: bytes, l: bytes)
    requires Distinct(keys) && InjectiveOn(addressOf, keys) && k in keys && l in keys && k != l
    requires SameVerdicts(addressOf, keys, [k, l])
    ensures BytesToAddress(k) != BytesToAddress(l)
  {
    hide BytesToAddress, Elements;
    var keepers := Addresses(addressOf, keys);
    DistinctAddresses(addressOf, keys);
    Listed(addressOf, keys, k);
    Listed(addressOf, keys, l);
    Met(addressOf, keepers, [k, l]);
    assert Elements([k, l]) == {k, l} by { ElementsOf(k, l); }
    assert Passes(Tails([k, l]), keepers, 2);
    MetTwice(BytesToAddress(k), keepers);
    assert Tails([k, l]) == [BytesToAddress(k), BytesToAddress(l)];
  }

  lemma ElementsOf<T>(k: T, l: T)
    ensures Elements([k]) == {k} && Elements([k, l]) == {k, l}
  {
  }

  /** If the verdicts agree for one key and for two, the tails name keepers and tell keys apart. */
  lemma {:induction false} VerdictsName(addressOf: bytes -> Address, keys: seq<bytes>)
    requires Distinct(keys) && InjectiveOn(addressOf, keys)
    requires forall signed :: Elements(signed) <= Elements(keys) ==> SameVerdicts(addressOf, keys, signed)
    ensures TailsName(addressOf, keys)
  {
    hide BytesToAddress, SameVerdicts, Addresses, Distinct;
    forall k | k in keys ensures BytesToAddress(k) in Addresses(addressOf, keys) {
      assert Elements([k]) <= Elements(keys);
      TailListed(addressOf, keys, k);
    }
    forall k, l | k in keys && l in keys && BytesToAddress(k) == BytesToAddress(l) ensures k == l {
      assert Elements([k, l]) <= Elements(keys);
      if k != l {
        TailsDiffer(addressOf, keys, k, l);
      }
    }
  }

  lemma {:induction false} MetOne(signers: seq<Address>, keepers: seq<Address>)
    requires CountIn(signers, keepers) >= 1 && |signers| == 1
    ensures signers[0] in keepers
  {
    if keepers[|keepers| - 1] !in signers {
      MetOne(signers, keepers[..|keepers| - 1]);
    }
  }

  lemma {:induction false} MetTwice(a: Address, keepers: seq<Address>)
    requires Distinct(keepers)
    ensures CountIn([a, a], keepers) <= 1
  {
    CountIsSigned([a, a], keepers);
    SubsetSize(Signed([a, a], keepers), {a});
  }

  /**
    `RecoverSignersFromMultiSigs` takes tails of keys for addresses. Over distinct listed keys with distinct
    addresses, every set of signing keys passes the thresholds that it should, and no others, exactly if each listed
    key's tail is the address of some listed key and no two tails are the same.
   */
  lemma {:induction false} TailsExact(addressOf: bytes -> Address, keys: seq<bytes>)
    requires Distinct(keys) && InjectiveOn(addressOf, keys)
    ensures (forall signed :: Elements(signed) <= Elements(keys) ==> SameVerdicts(addressOf, keys, signed))
      <==> TailsName(addressOf, keys)
  {
    if TailsName(addressOf, keys) {
      var keepers := Addresses(addressOf, keys);
      DistinctAddresses(addressOf, keys);
      forall signed | Elements(signed) <= Elements(keys) ensures SameVerdicts(addressOf, keys, signed) {
        forall k | k in signed ensures k in keys && addressOf(k) in keepers {
          assert k in Elements(signed);
          Listed(addressOf, keys, k);
        }
        Met(addressOf, keepers, signed);
        Met(BytesToAddress, keepers, signed);
      }
    } else if forall signed :: Elements(signed) <= Elements(keys) ==> SameVerdicts(addressOf, keys, signed) {
      VerdictsName(addressOf, keys);
    }
  }

  /** One keeper whose address is not its key's tail: its own signature, a full quorum, is refused. */
  lemma QuorumRefused(key: bytes, address: Address)
    requires BytesToAddress(key) != address
    ensures
      var keepers := Addresses(_ => address, [key]);
      Passes(Addresses(_ => address, [key]), keepers, 1) && !Passes(Tails([key]), keepers, 1)
  {
    assert [address][..0] == [] && Addresses(_ => address, [key]) == [address];
    assert Tails([key]) == [BytesToAddress(key)];
    assert CountIn([address], [address]) == 1 && CountIn([BytesToAddress(key)], [address]) == 0;
  }

  /** Two accepted signature sets over the same distinct keepers share at least `m1 + m2 - n` keepers. */
  lemma ThresholdOverlap(keepers: seq<Address>, s1: seq<Address>, m1: int, s2: seq<Address>, m2: int)
    requires Distinct(keepers)
    requires CountIn(s1, keepers) >= m1 && CountIn(s2, keepers) >= m2
    ensures |Signed(s1, keepers) * Signed(s2, keepers)| >= m1 + m2 - |keepers|
  {
    CountIsSigned(s1, keepers);
    CountIsSigned(s2, keepers);
    DistinctSize(keepers);
    Overlap(Signed(s1, keepers), Signed(s2, keepers), Elements(keepers));
  }

  /** With a repeated keeper the threshold no longer bounds the signers: one signer meets a threshold of two. */
  lemma RepeatedKeeper(k: Address)
    ensures CountIn([k], [k, k]) == 2 && Signed([k], [k, k]) == {k}
  {
    assert [k, k][..1] == [k];
    assert [k][..0] == [];
    assert CountIn([k], [k]) == 1;
  }

  /** The checks of `VerifyPolyHeader` before the signatures: enough bookkeepers, all of them peers. */
  ghost predicate Accepts<K>(bookkeepers: seq<K>, peers: set<K>) {
    3 * |bookkeepers| >= 2 * |peers| && Elements(bookkeepers) <= peers
  }

  /**
    `VerifyPolyHeader`; `verifies(keys, m)` is the library's check that `m` of the keys signed the header. It is asked
    for as many signatures as the header names bookkeepers.
   */
  method VerifyPolyHeader<K(==)>(bookkeepers: seq<K>, peers: set<K>, verifies: (seq<K>, nat) -> bool)
    returns (ok: bool)
    ensures ok <==>
      && 3 * |bookkeepers| >= 2 * |peers| && (forall i :: 0 <= i < |bookkeepers| ==> bookkeepers[i] in peers)
      && verifies(bookkeepers, |bookkeepers|)
    ensures ok ==> Accepts(bookkeepers, peers)
  {
    if |bookkeepers| * 3 < |peers| * 2 {
      return false;
    }
    for i := 0 to |bookkeepers|
      invariant forall j :: 0 <= j < i ==> bookkeepers[j] in peers
    {
      if bookkeepers[i] !in peers {
        assert bookkeepers[i] in Elements(bookkeepers);
        return false;
      }
    }
    return verifies(bookkeepers, |bookkeepers|);
  }

  /**
    Two headers accepted under the same peers share at least a third of them if neither names a bookkeeper twice;
    in general they share at least as many as their distinct bookkeepers force.
   */
  lemma QuorumOverlap<K>(b1: seq<K>, b2: seq<K>, peers: set<K>)
    requires Accepts(b1, peers) && Accepts(b2, peers)
    ensures |Elements(b1) * Elements(b2)| >= |Elements(b1)| + |Elements(b2)| - |peers|
    ensures Distinct(b1) && Distinct(b2) ==> 3 * |Elements(b1) * Elements(b2)| >= |peers|
  {
    Overlap(Elements(b1), Elements(b2), peers);
    DistinctSize(b1);
    DistinctSize(b2);
  }

  /** The count check alone does not force an overlap: it counts repeated bookkeepers. */
  lemma RepeatedBookkeepers()
    ensures Accepts([1, 1], {1, 2, 3}) && Accepts([2, 2], {1, 2, 3}) && Elements([1, 1]) * Elements([2, 2]) == {}
  {
    assert Elements([1, 1]) == {1} && Elements([2, 2]) == {2};
    assert |{1, 2, 3}| == 3;
  }
}
