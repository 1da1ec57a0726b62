/**
  The relayer's store (db/db.go). A bolt bucket is a map in key order; every method is one transaction. The `fault`
  parameters are the transaction errors of the bolt library, which is not part of this model.
 */
module BoltDb {
  import opened Prelude
  import opened ZeroCopy
  import opened Order
  import opened MappingKey

  datatype Entry = Entry(key: bytes, value: bytes)

  predicate Ordered(s: seq<Entry>) {
    forall i, j :: 0 <= i < j < |s| ==> Less(s[i].key, s[j].key)
  }

  /** Entries in strictly increasing key order. */
  type Bucket = s: seq<Entry> | Ordered(s) witness []

  function Keys(b: seq<Entry>): set<bytes> {
    set e | e in b :: e.key
  }

  ghost function Contents(b: seq<Entry>): map<bytes, bytes> {
    if b == [] then map[] else Contents(b[1..])[b[0].key := b[0].value]
  }

  lemma {:induction false} ContentsKeys(b: seq<Entry>)
    ensures Contents(b).Keys == Keys(b)
  {
    if b != [] {
      ContentsKeys(b[1..]);
      assert b == [b[0]] + b[1..];
    }
  }

  lemma {:induction false} ContentsAt(b: Bucket, i: nat)
    requires i < |b|
    ensures b[i].key in Contents(b) && Contents(b)[b[i].key] == b[i].value
  {
    if i > 0 {
      assert Less(b[0].key, b[i].key);
      LessIrreflexive(b[0].key);
      ContentsAt(b[1..], i - 1);
    }
  }

  function PutEntry(b: seq<Entry>, k: bytes, v: bytes): seq<Entry> {
    if b == [] then [Entry(k, v)]
    else if k == b[0].key then [Entry(k, v)] + b[1..]
    else if Less(k, b[0].key) then [Entry(k, v)] + b
    else [b[0]] + PutEntry(b[1..], k, v)
  }

  function DeleteEntry(b: seq<Entry>, k: bytes): seq<Entry> {
    if b == [] then []
    else if k == b[0].key then b[1..]
    else [b[0]] + DeleteEntry(b[1..], k)
  }

  lemma {:induction false} ConsOrdered(e: Entry, b: seq<Entry>)
    requires Ordered(b) && forall x :: x in b ==> Less(e.key, x.key)
    ensures Ordered([e] + b)
  {
    var c := [e] + b;
    forall i, j | 0 <= i < j < |c| ensures Less(c[i].key, c[j].key) {
      assert c[j] == b[j - 1];
    }
  }

  lemma HeadBelow(b: Bucket)
    requires b != []
    ensures forall x :: x in b[1..] ==> Less(b[0].key, x.key)
    ensures Ordered(b[1..])
  {
  }

  lemma {:induction false} PutEntries(b: seq<Entry>, k: bytes, v: bytes)
    ensures forall x :: x in PutEntry(b, k, v) ==> x == Entry(k, v) || x in b
  {
    if b != [] {
      PutEntries(b[1..], k, v);
    }
  }

  lemma {:induction false} DeleteEntries(b: seq<Entry>, k: bytes)
    ensures forall x :: x in DeleteEntry(b, k) ==> x in b
  {
    if b != [] {
      DeleteEntries(b[1..], k);
    }
  }

  lemma {:induction false} PutOrdered(b: Bucket, k: bytes, v: bytes)
    ensures Ordered(PutEntry(b, k, v))
  {
    hide Less;
    if b != [] {
      HeadBelow(b);
      if k == b[0].key {
        ConsOrdered(Entry(k, v), b[1..]);
      } else if Less(k, b[0].key) {
        forall x | x in b ensures Less(k, x.key) {
          if x != b[0] {
            assert x in b[1..];
            LessTransitive(k, b[0].key, x.key);
          }
        }
        ConsOrdered(Entry(k, v), b);
      } else {
        LessConnected(k, b[0].key);
        PutOrdered(b[1..], k, v);
        PutEntries(b[1..], k, v);
        ConsOrdered(b[0], PutEntry(b[1..], k, v));
      }
    }
  }

  lemma {:induction false} PutContents(b: Bucket, k: bytes, v: bytes)
    ensures Contents(PutEntry(b, k, v)) == Contents(b)[k := v]
  {
    if b != [] && k != b[0].key && !Less(k, b[0].key) {
      PutContents(b[1..], k, v);
    }
  }

  lemma {:induction false} DeleteOrdered(b: Bucket, k: bytes)
    ensures Ordered(DeleteEntry(b, k))
  {
    hide Less;
    if b != [] {
      HeadBelow(b);
      if k != b[0].key {
        DeleteOrdered(b[1..], k);
        DeleteEntries(b[1..], k);
        ConsOrdered(b[0], DeleteEntry(b[1..], k));
      }
    }
  }

  lemma {:induction false} DeleteContents(b: Bucket, k: bytes)
    ensures Contents(DeleteEntry(b, k)) == Contents(b) - {k}
  {
    hide Less;
    if b != [] {
      if k == b[0].key {
        ContentsKeys(b[1..]);
        HeadBelow(b);
        LessIrreflexive(k);
        assert k !in Contents(b[1..]);
      } else {
        DeleteContents(b[1..], k);
      }
    }
  }

  /** `bucket.Put`: an existing key keeps its place and gets the new value. */
  function Put(b: Bucket, k: bytes, v: bytes): (r: Bucket)
    ensures Contents(r) == Contents(b)[k := v]
  {
    PutOrdered(b, k, v);
    PutContents(b, k, v);
    PutEntry(b, k, v)
  }

  /** `bucket.Delete`: deleting an absent key changes nothing. */
  function Delete(b: Bucket, k: bytes): (r: Bucket)
    ensures Contents(r) == Contents(b) - {k}
  {
    DeleteOrdered(b, k);
    DeleteContents(b, k);
    DeleteEntry(b, k)
  }

  /** Storing a key again with the value it has leaves the bucket as it is. */
  lemma {:induction false} PutSame(b: Bucket, k: bytes, v: bytes)
    requires k in Contents(b) && Contents(b)[k] == v
    ensures Put(b, k, v) == b
  {
    assert b != [];
    HeadBelow(b);
    if k == b[0].key {
      assert b == [Entry(k, v)] + b[1..];
    } else {
      ContentsKeys(b[1..]);
      assert k in Keys(b[1..]);
      var e :| e in b[1..] && e.key == k;
      assert Less(b[0].key, k);
      if Less(k, b[0].key) {
        LessTransitive(k, b[0].key, k);
        LessIrreflexive(k);
        assert false;
      }
      PutSame(b[1..], k, v);
      assert b == [b[0]] + b[1..];
    }
  }

  const MAX_NUM: nat := 1000

  /** The entries that one read of a bucket sees: the first 1000 in key order. */
  function Batch(b: Bucket): (r: Bucket)
    ensures |r| == Min(|b|, MAX_NUM)
  {
    b[..Min(|b|, MAX_NUM)]
  }

  /** An entry is among those read exactly if fewer than 1000 stand before it. */
  lemma BatchAt(b: Bucket, i: nat)
    requires i < |b|
    ensures b[i].key in Contents(Batch(b)) <==> i < 1000
    ensures i < 1000 ==> Contents(Batch(b))[b[i].key] == b[i].value
    ensures b[i].key in Contents(b) && Contents(b)[b[i].key] == b[i].value
  {
    hide Less, Contents;
    ContentsAt(b, i);
    ContentsKeys(Batch(b));
    if i < 1000 {
      ContentsAt(Batch(b), i);
    } else if b[i].key in Contents(Batch(b)) {
      var e :| e in Batch(b) && e.key == b[i].key;
      var k :| 0 <= k < |Batch(b)| && Batch(b)[k] == e;
      assert Less(b[k].key, b[i].key);
      LessIrreflexive(b[i].key);
    }
  }

  /** A key of a bucket stands at some place. */
  lemma KeyAt(b: Bucket, k: bytes) returns (i: nat)
    requires k in Contents(b)
    ensures i < |b| && b[i].key == k && Contents(b)[k] == b[i].value
  {
    hide Contents;
    ContentsKeys(b);
    var e :| e in b && e.key == k;
    i :| 0 <= i < |b| && b[i] == e;
    ContentsAt(b, i);
  }

  /** Two places do not hold the same key. */
  lemma KeyOnce(b: Bucket, i: nat, j: nat)
    requires i < |b| && j < |b| && b[i].key == b[j].key
    ensures i == j
  {
    hide Less;
    LessIrreflexive(b[i].key);
  }

  function KeyList(b: seq<Entry>): (r: seq<bytes>)
    ensures |r| == |b| && forall i :: 0 <= i < |r| ==> r[i] == b[i].key
  {
    seq(|b|, i requires 0 <= i < |b| => b[i].key)
  }

  /** The Check entries as the caller gets them: keyed by the hex text of the stored key. */
  function HexMap(b: seq<Entry>): map<bytes, bytes> {
    if b == [] then map[] else HexMap(b[..|b| - 1])[HexEncode(b[|b| - 1].key) := b[|b| - 1].value]
  }

  /** Different keys in a bucket have different hex texts. */
  lemma HexDistinct(b: Bucket, i: nat, j: nat)
    requires i < j < |b|
    ensures HexEncode(b[i].key) != HexEncode(b[j].key)
  {
    hide HexEncode, Less;
    assert Less(b[i].key, b[j].key);
    LessIrreflexive(b[j].key);
    if HexEncode(b[i].key) == HexEncode(b[j].key) {
      HexInjective(b[i].key, b[j].key);
    }
  }

  lemma {:induction false} HexMapAt(b: Bucket, i: nat)
    requires i < |b|
    ensures HexEncode(b[i].key) in HexMap(b) && HexMap(b)[HexEncode(b[i].key)] == b[i].value
  {
    hide HexEncode, Less;
    var n := |b| - 1;
    if i < n {
      HexDistinct(b, i, n);
      HexMapAt(b[..n], i);
      assert b[..n][i] == b[i];
    }
  }

  lemma {:induction false} HexMapOnly(b: Bucket, k: bytes) returns (i: nat)
    requires k in HexMap(b)
    ensures i < |b| && k == HexEncode(b[i].key) && HexMap(b)[k] == b[i].value
  {
    hide HexEncode, Less;
    var n := |b| - 1;
    if k == HexEncode(b[n].key) {
      i := n;
    } else {
      i := HexMapOnly(b[..n], k);
      assert b[..n][i] == b[i];
    }
  }

  lemma {:induction false} HexMapSize(b: Bucket)
    ensures |HexMap(b)| == |b|
  {
    hide HexEncode, Less;
    if b != [] {
      var n := |b| - 1;
      HexMapSize(b[..n]);
      var k := HexEncode(b[n].key);
      if k in HexMap(b[..n]) {
        var i := HexMapOnly(b[..n], k);
        HexDistinct(b, i, n);
        assert false;
      }
      assert HexMap(b) == HexMap(b[..n])[k := b[n].value];
    }
  }

  /** Writes to the two work buckets, in the order in which they happen; `ok` is whether the transaction succeeded. */
  datatype Write =
    | WPutRetry(key: bytes, ok: bool)
    | WDeleteRetry(key: bytes, ok: bool)
    | WPutCheck(hash: bytes, value: bytes, ok: bool)
    | WDeleteCheck(hash: bytes, ok: bool)
    | WHeight(height: nat, ok: bool)

  const EMPTY_VALUE: bytes := [0]

  class BoltDB {
    var check: Bucket
    var retry: Bucket
    var polyHeight: Option<bytes>
    var paletteHeight: Option<bytes>
    ghost var writes: seq<Write>

    ghost predicate Valid()
      reads this
    {
      && (polyHeight.Some? ==> |polyHeight.value| == 4)
      && (paletteHeight.Some? ==> |paletteHeight.value| == 8)
    }

    /** The saved heights, 0 where none was saved. */
    function SavedPoly(): (h: nat)
      reads this
    {
      if polyHeight.Some? then FromLittleEndian(polyHeight.value) else 0
    }

    function SavedPalette(): (h: nat)
      reads this
    {
      if paletteHeight.Some? then FromLittleEndian(paletteHeight.value) else 0
    }

    constructor ()
      ensures Valid() && check == [] && retry == [] && SavedPoly() == 0 && SavedPalette() == 0 && writes == []
    {
      check, retry, polyHeight, paletteHeight, writes := [], [], None, None, [];
    }

    method PutCheck(txHash: bytes, v: bytes, fault: bool) returns (ok: bool)
      requires Valid()
      modifies `check, `writes
      ensures Valid()
      ensures ok <==> !fault && HexDecode(txHash).Some?
      ensures check == if ok then Put(old(check), HexDecode(txHash).value, v) else old(check)
      ensures writes == old(writes) + [WPutCheck(HexDecodeString(txHash).0, v, ok)]
    {
      var k := HexDecodeString(txHash);
      ok := !k.1 && !fault;
      if ok {
        check := Put(check, k.0, v);
      }
      writes := writes + [WPutCheck(k.0, v, ok)];
    }

    method DeleteCheck(txHash: bytes, fault: bool) returns (ok: bool)
      requires Valid()
      modifies `check, `writes
      ensures Valid()
      ensures ok <==> !fault && HexDecode(txHash).Some?
      ensures check == if ok then Delete(old(check), HexDecode(txHash).value) else old(check)
      ensures writes == old(writes) + [WDeleteCheck(HexDecodeString(txHash).0, ok)]
    {
      var k := HexDecodeString(txHash);
      ok := !k.1 && !fault;
      if ok {
        check := Delete(check, k.0);
      }
      writes := writes + [WDeleteCheck(k.0, ok)];
    }

    method PutRetry(k: bytes, fault: bool) returns (ok: bool)
      requires Valid()
      modifies `retry, `writes
      ensures Valid() && ok == !fault
      ensures retry == if ok then Put(old(retry), k, EMPTY_VALUE) else old(retry)
      ensures writes == old(writes) + [WPutRetry(k, ok)]
    {
      if !fault {
        retry := Put(retry, k, EMPTY_VALUE);
      }
      ok := !fault;
      writes := writes + [WPutRetry(k, ok)];
    }

    method DeleteRetry(k: bytes, fault: bool) returns (ok: bool)
      requires Valid()
      modifies `retry, `writes
      ensures Valid() && ok == !fault
      ensures retry == if ok then Delete(old(retry), k) else old(retry)
      ensures writes == old(writes) + [WDeleteRetry(k, ok)]
    {
      if !fault {
        retry := Delete(retry, k);
      }
      ok := !fault;
      writes := writes + [WDeleteRetry(k, ok)];
    }

    /**
      `GetAllRetry`: the scan stops with an error at the 1000th key, but the error is dropped, so that the caller
      gets the first 1000 keys in byte order and no error.
     */
    method GetAllRetry(fault: bool) returns (r: Option<seq<bytes>>)
      requires Valid()
      ensures r == if fault then None else Some(KeyList(Batch(retry)))
      ensures r.Some? ==> |r.value| == Min(|retry|, 1000)
      ensures r.Some? ==> forall i :: 0 <= i < |r.value| ==> r.value[i] == retry[i].key
    {
      var retryList: seq<bytes> := [];
      var stopped := false;
      var i := 0;
      while i < |retry| && !stopped
        invariant 0 <= i <= |retry| && i <= MAX_NUM
        invariant stopped <==> i == MAX_NUM
        invariant retryList == KeyList(retry[..i])
      {
        retryList := retryList + [retry[i].key];
        stopped := |retryList| >= MAX_NUM;
        i := i + 1;
      }
      return if fault then None else Some(retryList);
    }

    /** `GetAllCheck`: the first 1000 entries, keyed by hex text. */
    method GetAllCheck(fault: bool) returns (r: Option<map<bytes, bytes>>)
      requires Valid()
      ensures r == if fault then None else Some(HexMap(Batch(check)))
      ensures r.Some? ==> |r.value| == Min(|check|, 1000) && forall i :: 0 <= i < |check| && i < 1000 ==>
        var k := HexEncode(check[i].key);
        k in r.value && r.value[k] == check[i].value
    {
      var checkMap: map<bytes, bytes> := map[];
      var stopped := false;
      var i := 0;
      while i < |check| && !stopped
        invariant 0 <= i <= |check| && i <= MAX_NUM
        invariant stopped <==> i == MAX_NUM
        invariant checkMap == HexMap(check[..i])
      {
        checkMap := checkMap[HexEncode(check[i].key) := check[i].value];
        assert check[..i + 1][..i] == check[..i];
        HexMapSize(check[..i + 1]);
        stopped := |checkMap| >= MAX_NUM;
        i := i + 1;
      }
      HexMapSize(check[..i]);
      forall j | 0 <= j < i
        ensures HexEncode(check[j].key) in checkMap && checkMap[HexEncode(check[j].key)] == check[j].value
      {
        HexMapAt(check[..i], j);
      }
      return if fault then None else Some(checkMap);
    }

    method UpdatePolyHeight(h: uint32, fault: bool) returns (ok: bool)
      requires Valid()
      modifies `polyHeight
      ensures Valid() && ok == !fault
      ensures SavedPoly() == if ok then h else old(SavedPoly())
    {
      WidthBounds();
      LittleEndianRoundTrip(h, 4);
      if !fault {
        polyHeight := Some(LittleEndian(h, 4));
      }
      ok := !fault;
    }

    method GetPolyHeight() returns (h: uint32)
      requires Valid()
      ensures h == SavedPoly()
    {
      WidthBounds();
      h := match polyHeight case None => 0 case Some(raw) => FromLittleEndian(raw);
    }

    method UpdatePaletteHeight(h: uint64, fault: bool) returns (ok: bool)
      requires Valid()
      modifies `paletteHeight, `writes
      ensures Valid() && ok == !fault
      ensures SavedPalette() == if ok then h else old(SavedPalette())
      ensures writes == old(writes) + [WHeight(h, ok)]
    {
      WidthBounds();
      LittleEndianRoundTrip(h, 8);
      if !fault {
        paletteHeight := Some(LittleEndian(h, 8));
      }
      ok := !fault;
      writes := writes + [WHeight(h, ok)];
    }

    method GetPaletteHeight() returns (h: uint64)
      requires Valid()
      ensures h == SavedPalette()
    {
      WidthBounds();
      h := match paletteHeight case None => 0 case Some(raw) => FromLittleEndian(raw);
    }
  }
}
