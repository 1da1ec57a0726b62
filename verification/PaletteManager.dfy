/**
  The Palette manager as an object (manager/palette.go). Its methods take the replies of the remote calls as
  arguments. A ghost trace records every step they take; the trace is a run of the step system, the fields are what
  that run says, and the order of the database writes is the order of the steps. Truthful replies and puts that
  succeed keep the trace within the hypotheses of conservation.
 */
module PaletteManager {
  import opened Prelude
  import opened Order
  import opened BoltDb
  import opened Pipeline
  import opened Checksum
  import Conservation
  import MappingKey
  import CrossTransfer
  import ZeroCopy

  /** A `pltEpoch`: the validators are a slice, which may be shared. */
  datatype PltEpoch = PltEpoch(height: uint64, valset: array<Address>, raw: bytes)

  datatype Header = Header(validators: seq<Address>, raw: bytes)

  /** One event of a block, whether it is for a target contract, whether Poly has it, and the put's outcome. */
  datatype EventReply = EventReply(event: CrossTransfer.Event, targeted: bool, done: bool, fault: bool)

  /**
    What the remote calls answer while one block is handled; `broken` is an event iterator that stopped on an error
    behind the events given.
   */
  datatype BlockReply = BlockReply(header: Option<Header>, sent: bool, broadcast: bool, accepted: bool,
                                   events: Option<seq<EventReply>>, broken: bool, saveFault: bool)

  /** What happens to one Retry entry in a deposit round. */
  datatype DepositReply = DepositReply(proofOk: bool, reply: Reply, putFault: bool, deleteFault: bool)

  /** What is handed to Poly: payload, hashed preimage of the proof's slot, the proof's height and its low half. */
  datatype Import = Import(value: bytes, slot: Option<bytes>, safeHeight: uint64, stated: uint32)

  /** What Poly answers about one hash: no event, or a state. */
  datatype CheckReply = CheckReply(state: Option<nat>, putFault: bool, deleteFault: bool)

  /** The Retry key of an event. */
  function KeyOf(r: EventReply, height: uint64): bytes
    requires CrossTransfer.FromEvent(r.event, height).Encodable()
  {
    CrossTransfer.Encode(CrossTransfer.FromEvent(r.event, height))
  }

  /** The Retry keys of the events for target contracts. */
  function TargetKeys(events: seq<EventReply>, height: uint64): seq<bytes>
    requires forall i :: 0 <= i < |events| ==> CrossTransfer.FromEvent(events[i].event, height).Encodable()
  {
    if events == [] then [] else
    var rest := TargetKeys(events[1..], height);
    if events[0].targeted then [KeyOf(events[0], height)] + rest
    else rest
  }

  /** The replies about a block agree with the chain. */
  ghost predicate BlockHonest(env: Env, height: uint64, heightOf: bytes -> nat, r: BlockReply) {
    && (r.header.Some? ==>
        multiset(r.header.value.validators) == env.valset(height) && heightOf(r.header.value.raw) == height)
    && (r.events.Some? ==>
        && (forall i :: 0 <= i < |r.events.value| ==>
            CrossTransfer.FromEvent(r.events.value[i].event, height).Encodable())
        && TargetKeys(r.events.value, height) <= env.events(height)
        && (!r.broken ==> env.events(height) == TargetKeys(r.events.value, height)))
  }

  /** An event is reported done only if it is, and its put does not fail. */
  ghost predicate EventTruthful(done: set<bytes>, height: uint64, r: EventReply) {
    !r.fault && (r.done && CrossTransfer.FromEvent(r.event, height).Encodable() ==> KeyOf(r, height) in done)
  }

  ghost predicate EventsTruthful(done: set<bytes>, height: uint64, r: BlockReply) {
    r.events.Some? ==> forall i :: 0 <= i < |r.events.value| ==> EventTruthful(done, height, r.events.value[i])
  }

  /** The replies about a block agree with Poly, and no put fails. */
  ghost predicate BlockTruthful(poly: Poly, height: uint64, r: BlockReply) {
    poly.log != [] && (r.accepted ==> height > Tip(poly).height) && EventsTruthful(poly.done, height, r)
  }

  /** A reply about an entry agrees with Poly, and its hash is fresh. */
  ghost predicate ReplyTruthful(poly: Poly, entry: bytes, reply: Reply) {
    (reply.AlreadyDone? ==> entry in poly.done) && (reply.Sent? ==> reply.hash !in poly.txs)
  }

  ghost predicate EntryTruthful(poly: Poly, entry: bytes, r: DepositReply) {
    !r.putFault && ReplyTruthful(poly, entry, r.reply)
  }

  /** The replies of a deposit round from entry `n` on are truthful, and no two give the same hash. */
  ghost predicate RoundTruthful(poly: Poly, keys: seq<bytes>, replies: nat -> DepositReply, n: nat) {
    && (forall i :: n <= i < |keys| ==> EntryTruthful(poly, keys[i], replies(i)))
    && (forall i, j :: n <= i < j < |keys| && replies(i).reply.Sent? ==> replies(j).reply != replies(i).reply)
  }

  /** What one reply leaves of Poly's knowledge: at most its own hash is new. */
  ghost predicate PolyAfter(before: Poly, after: Poly, r: DepositReply) {
    && after.done == before.done
    && forall h :: h in after.txs ==> h in before.txs || r.reply == Sent(h)
  }

  lemma RoundNext(before: Poly, after: Poly, keys: seq<bytes>, replies: nat -> DepositReply, n: nat)
    requires n < |keys| && RoundTruthful(before, keys, replies, n) && PolyAfter(before, after, replies(n))
    ensures EntryTruthful(before, keys[n], replies(n)) && RoundTruthful(after, keys, replies, n + 1)
  {
  }

  ghost predicate Issued(poly: Poly, hash: bytes, status: Status) {
    hash in poly.txs && poly.txs[hash].status == status
  }

  /** What Poly says about a hash is true, and no put fails. */
  ghost predicate CheckTruthful(poly: Poly, hash: bytes, r: CheckReply) {
    && !r.putFault
    && (r.state.Some? ==> Issued(poly, hash, if r.state.value == 1 then Succeeded else Failed))
  }

  ghost predicate ChecksTruthful(poly: Poly, batch: map<bytes, bytes>, replies: bytes -> CheckReply) {
    forall h :: h in batch ==> CheckTruthful(poly, h, replies(MappingKey.HexEncode(h)))
  }

  /** Whether an event of a block is put into Retry. */
  predicate Stored(r: EventReply) {
    r.targeted && !r.done && !r.fault
  }

  /** The Retry bucket after the first `n` events of a block. */
  function AfterStore(b: Bucket, events: seq<EventReply>, height: uint64, n: nat): Bucket
    requires n <= |events|
    requires forall i :: 0 <= i < |events| ==> CrossTransfer.FromEvent(events[i].event, height).Encodable()
  {
    if n == 0 then b else
    var before := AfterStore(b, events, height, n - 1);
    if !Stored(events[n - 1]) then before
    else Put(before, KeyOf(events[n - 1], height), EMPTY_VALUE)
  }

  /** Exactly the events that pass the filters, are not done on Poly and are put without fault become Retry keys. */
  lemma {:induction false} AfterStoreKeys(b: Bucket, events: seq<EventReply>, height: uint64, n: nat, k: bytes)
    requires n <= |events|
    requires forall i :: 0 <= i < |events| ==> CrossTransfer.FromEvent(events[i].event, height).Encodable()
    ensures k in Contents(AfterStore(b, events, height, n)) <==>
      || k in Contents(b)
      || exists i :: 0 <= i < n && Stored(events[i]) && k == KeyOf(events[i], height)
  {
    hide KeyOf, Contents, Put, Stored;
    if n > 0 {
      AfterStoreKeys(b, events, height, n - 1, k);
    }
  }

  /** What a block's events leave in Retry: a key for each event that is due, and no key for anything else. */
  lemma EventsStored(b: Bucket, events: seq<EventReply>, height: uint64)
    requires forall i :: 0 <= i < |events| ==> CrossTransfer.FromEvent(events[i].event, height).Encodable()
    ensures
      var after := Contents(AfterStore(b, events, height, |events|));
      && (forall k :: k in Contents(b) ==> k in after)
      && (forall i :: 0 <= i < |events| && events[i].targeted && !events[i].done && !events[i].fault ==>
          exists k :: k in after && CrossTransfer.Holds(k, events[i].event, height))
      && (forall k :: k in after && k !in Contents(b) ==>
          exists i ::
            && 0 <= i < |events| && events[i].targeted && !events[i].done && !events[i].fault
            && CrossTransfer.Holds(k, events[i].event, height))
  {
    hide Contents, AfterStore, CrossTransfer.Holds, CrossTransfer.FromEvent, CrossTransfer.Encode;
    var after := Contents(AfterStore(b, events, height, |events|));
    forall k ensures k in Contents(b) ==> k in after {
      AfterStoreKeys(b, events, height, |events|, k);
    }
    forall i | 0 <= i < |events| && Stored(events[i])
      ensures exists k :: k in after && CrossTransfer.Holds(k, events[i].event, height)
    {
      CrossTransfer.KeyHolds(events[i].event, height);
      AfterStoreKeys(b, events, height, |events|, KeyOf(events[i], height));
    }
    forall k | k in after && k !in Contents(b)
      ensures exists i ::
        && 0 <= i < |events| && events[i].targeted && !events[i].done && !events[i].fault
        && CrossTransfer.Holds(k, events[i].event, height)
    {
      AfterStoreKeys(b, events, height, |events|, k);
      var i :| 0 <= i < |events| && Stored(events[i]) && k == KeyOf(events[i], height);
      CrossTransfer.KeyHolds(events[i].event, height);
    }
  }

  /** Whether an entry leaves Retry in a round. */
  predicate Leaves(distance: uint64, ref: nat, entry: bytes, r: DepositReply) {
    Ready(distance, ref, entry) && r.proofOk && !r.reply.Refused? && !r.deleteFault
  }

  /** The Retry bucket after the first `n` entries of a round. */
  function AfterRound(b: Bucket, keys: seq<bytes>, distance: uint64, ref: nat,
                      replies: nat -> DepositReply, n: nat): Bucket
    requires n <= |keys|
  {
    if n == 0 then b else
    var before := AfterRound(b, keys, distance, ref, replies, n - 1);
    if Leaves(distance, ref, keys[n - 1], replies(n - 1)) then Delete(before, keys[n - 1]) else before
  }

  /** Whether an entry enters Check in a round. */
  predicate Enters(distance: uint64, ref: nat, entry: bytes, r: DepositReply) {
    Ready(distance, ref, entry) && r.proofOk && r.reply.Sent? && !r.putFault
  }

  /** The Check bucket after the first `n` entries of a round. */
  function AfterChecks(b: Bucket, keys: seq<bytes>, distance: uint64, ref: nat,
                       replies: nat -> DepositReply, n: nat): Bucket
    requires n <= |keys|
  {
    if n == 0 then b else
    var before := AfterChecks(b, keys, distance, ref, replies, n - 1);
    var r := replies(n - 1);
    if Enters(distance, ref, keys[n - 1], r) then Put(before, r.reply.hash, keys[n - 1]) else before
  }

  /** Entry `i` of the round was taken under hash `k`. */
  predicate TakenUnder(distance: uint64, ref: nat, keys: seq<bytes>, replies: nat -> DepositReply, i: nat, k: bytes)
    requires i < |keys|
  {
    Enters(distance, ref, keys[i], replies(i)) && replies(i).reply.hash == k
  }

  /** Check gains exactly the hashes under which entries were taken, and keeps what it has under others. */
  lemma {:induction false} AfterChecksKeys(b: Bucket, keys: seq<bytes>, distance: uint64, ref: nat,
                                           replies: nat -> DepositReply, n: nat, k: bytes)
    requires n <= |keys|
    ensures
      var after := Contents(AfterChecks(b, keys, distance, ref, replies, n));
      var taken := exists i :: 0 <= i < n && TakenUnder(distance, ref, keys, replies, i, k);
      && (k in after <==> k in Contents(b) || taken)
      && (k in after && !taken ==> after[k] == Contents(b)[k])
  {
    hide Enters, Contents, Put;
    if n > 0 {
      AfterChecksKeys(b, keys, distance, ref, replies, n - 1, k);
      assert !TakenUnder(distance, ref, keys, replies, n - 1, k) ==>
        (k in Contents(AfterChecks(b, keys, distance, ref, replies, n)) <==>
         k in Contents(AfterChecks(b, keys, distance, ref, replies, n - 1)));
    }
  }

  /** A hash gained holds the last entry taken under it. */
  lemma {:induction false} AfterChecksValue(b: Bucket, keys: seq<bytes>, distance: uint64, ref: nat,
                                            replies: nat -> DepositReply, n: nat, i: nat, k: bytes)
    requires i < n <= |keys| && TakenUnder(distance, ref, keys, replies, i, k)
    requires forall j :: i < j < n ==> !TakenUnder(distance, ref, keys, replies, j, k)
    ensures
      var after := Contents(AfterChecks(b, keys, distance, ref, replies, n));
      k in after && after[k] == keys[i]
  {
    hide Enters, Contents, Put;
    if i < n - 1 {
      AfterChecksValue(b, keys, distance, ref, replies, n - 1, i, k);
      assert !TakenUnder(distance, ref, keys, replies, n - 1, k);
    }
  }

  /** Retry loses exactly the entries that leave. */
  lemma {:induction false} AfterRoundKeys(b: Bucket, keys: seq<bytes>, distance: uint64, ref: nat,
                                          replies: nat -> DepositReply, n: nat, k: bytes)
    requires n <= |keys|
    ensures
      var after := Contents(AfterRound(b, keys, distance, ref, replies, n));
      var left := exists i :: 0 <= i < n && keys[i] == k && Leaves(distance, ref, keys[i], replies(i));
      && (k in after <==> k in Contents(b) && !left)
      && (k in after ==> after[k] == Contents(b)[k])
  {
    hide Leaves, Contents, Delete;
    if n > 0 {
      AfterRoundKeys(b, keys, distance, ref, replies, n - 1, k);
    }
  }

  /**
    A deposit round on the two buckets, by the place of each entry in Retry and the fields of its reply. An entry of the
    first 1000 leaves Retry exactly if it is ready, its proof was fetched, Poly did not refuse it (it took it, or has
    done it already), and the delete succeeds. A hash is new in Check exactly if Poly gave it for such an entry and the
    put succeeds; it holds the last entry for which it did.
   */
  ghost predicate Deposited(distance: uint64, ref: nat, retry: Bucket, check: Bucket, retry': Bucket, check': Bucket,
                            replies: nat -> DepositReply)
  {
    && (forall i :: 0 <= i < |retry| ==>
        var r := replies(i);
        var taken := Ready(distance, ref, retry[i].key) && r.proofOk && (r.reply.Sent? || r.reply.AlreadyDone?);
        (retry[i].key in Contents(retry') <==> !(i < 1000 && taken && !r.deleteFault)))
    && (forall e :: e in Contents(retry') ==> e in Contents(retry) && Contents(retry')[e] == Contents(retry)[e])
    && (forall h :: h in Contents(check) ==> h in Contents(check'))
    && (forall i, h :: 0 <= i < |retry| && TakenAt(distance, ref, retry, replies, i, h) ==>
        && h in Contents(check')
        && (Contents(check')[h] == retry[i].key ||
            exists j :: i < j < |retry| && TakenAt(distance, ref, retry, replies, j, h)))
    && (forall h :: h in Contents(check') && !(h in Contents(check) && Contents(check')[h] == Contents(check)[h]) ==>
        exists i :: 0 <= i < |retry| && TakenAt(distance, ref, retry, replies, i, h))
  }

  /** Poly took the entry at place `i` under the hash `h`, and that is put into Check. */
  ghost predicate TakenAt(distance: uint64, ref: nat, retry: Bucket, replies: nat -> DepositReply, i: nat, h: bytes)
    requires i < |retry|
  {
    && i < 1000 && Ready(distance, ref, retry[i].key) && replies(i).proofOk
    && replies(i).reply == Sent(h) && !replies(i).putFault
  }

  lemma RoundDeposits(distance: uint64, ref: nat, retry: Bucket, check: Bucket, replies: nat -> DepositReply)
    ensures
      var keys := KeyList(Batch(retry));
      Deposited(distance, ref, retry, check, AfterRound(retry, keys, distance, ref, replies, |keys|),
                AfterChecks(check, keys, distance, ref, replies, |keys|), replies)
  {
    hide Ready, Contents, AfterRound, AfterChecks, Less;
    var keys := KeyList(Batch(retry));
    var n := |keys|;
    var retry' := AfterRound(retry, keys, distance, ref, replies, n);
    var check' := AfterChecks(check, keys, distance, ref, replies, n);
    forall i | 0 <= i < |retry|
      ensures retry[i].key in Contents(retry') <==> !(i < n && Leaves(distance, ref, retry[i].key, replies(i)))
    {
      BatchAt(retry, i);
      AfterRoundKeys(retry, keys, distance, ref, replies, n, retry[i].key);
      forall j | 0 <= j < n && keys[j] == retry[i].key ensures j == i {
        KeyOnce(retry, i, j);
      }
      assert i < n ==> keys[i] == retry[i].key;
    }
    forall e ensures e in Contents(retry') ==> e in Contents(retry) && Contents(retry')[e] == Contents(retry)[e] {
      AfterRoundKeys(retry, keys, distance, ref, replies, n, e);
    }
    forall i, h | 0 <= i < n ensures
      TakenUnder(distance, ref, keys, replies, i, h) <==> TakenAt(distance, ref, retry, replies, i, h)
    {
      assert keys[i] == retry[i].key;
    }
    forall h ensures h in Contents(check) ==> h in Contents(check') {
      AfterChecksKeys(check, keys, distance, ref, replies, n, h);
    }
    forall i, h | 0 <= i < |retry| && TakenAt(distance, ref, retry, replies, i, h)
      ensures h in Contents(check')
      ensures Contents(check')[h] == retry[i].key ||
        exists j :: i < j < |retry| && TakenAt(distance, ref, retry, replies, j, h)
    {
      assert TakenUnder(distance, ref, keys, replies, i, h);
      AfterChecksKeys(check, keys, distance, ref, replies, n, h);
      if forall j :: i < j < n ==> !TakenUnder(distance, ref, keys, replies, j, h) {
        AfterChecksValue(check, keys, distance, ref, replies, n, i, h);
      }
    }
    forall h | h in Contents(check') && !(h in Contents(check) && Contents(check')[h] == Contents(check)[h])
      ensures exists i :: 0 <= i < |retry| && TakenAt(distance, ref, retry, replies, i, h)
    {
      AfterChecksKeys(check, keys, distance, ref, replies, n, h);
      var i :| 0 <= i < n && TakenUnder(distance, ref, keys, replies, i, h);
      assert TakenAt(distance, ref, retry, replies, i, h);
    }
  }

  lemma AfterNone(r: Bucket, c: Bucket, keys: seq<bytes>, distance: uint64, ref: nat, replies: nat -> DepositReply)
    ensures AfterRound(r, keys, distance, ref, replies, 0) == r
    ensures AfterChecks(c, keys, distance, ref, replies, 0) == c
  {
  }

  /** Whether the checker forgets a hash, and whether it puts the entry back. */
  predicate Forgets(r: CheckReply) {
    r.state.Some? && !r.deleteFault
  }

  predicate PutsBack(r: CheckReply) {
    r.state.Some? && r.state.value != 1 && !r.putFault
  }

  /** The hex-keyed view of the checker's work and the raw-keyed one hold the same entries. */
  ghost predicate SameWork(hexed: map<bytes, bytes>, raw: map<bytes, bytes>) {
    && (forall h :: h in raw ==> MappingKey.HexEncode(h) in hexed && hexed[MappingKey.HexEncode(h)] == raw[h])
    && (forall k :: k in hexed ==> exists h :: h in raw && k == MappingKey.HexEncode(h))
  }

  lemma BatchSameWork(b: Bucket)
    ensures SameWork(HexMap(b), Contents(b))
  {
    hide HexMap, Contents, MappingKey.HexEncode, Less;
    ContentsKeys(b);
    forall h | h in Contents(b)
      ensures MappingKey.HexEncode(h) in HexMap(b) && HexMap(b)[MappingKey.HexEncode(h)] == Contents(b)[h]
    {
      var e :| e in b && e.key == h;
      var i :| 0 <= i < |b| && b[i] == e;
      ContentsAt(b, i);
      HexMapAt(b, i);
    }
    forall k | k in HexMap(b) ensures exists h :: h in Contents(b) && k == MappingKey.HexEncode(h) {
      var i := HexMapOnly(b, k);
      ContentsAt(b, i);
    }
  }

  lemma LessWork(hexed: map<bytes, bytes>, raw: map<bytes, bytes>, h: bytes)
    requires SameWork(hexed, raw) && h in raw
    ensures SameWork(hexed - {MappingKey.HexEncode(h)}, raw - {h})
  {
    hide MappingKey.HexEncode;
    var hexed', raw' := hexed - {MappingKey.HexEncode(h)}, raw - {h};
    forall g | g in raw'
      ensures MappingKey.HexEncode(g) in hexed' && hexed'[MappingKey.HexEncode(g)] == raw'[g]
    {
      if MappingKey.HexEncode(g) == MappingKey.HexEncode(h) {
        MappingKey.HexInjective(g, h);
      }
    }
    forall k | k in hexed' ensures exists g :: g in raw' && k == MappingKey.HexEncode(g) {
      var g :| g in raw && k == MappingKey.HexEncode(g);
      assert g in raw';
    }
  }

  /** The Check entries that remain, as they were, once all of `batch` but `rest` has been looked at. */
  ghost predicate Forgotten(before: map<bytes, bytes>, after: map<bytes, bytes>, batch: map<bytes, bytes>,
                            rest: map<bytes, bytes>, replies: bytes -> CheckReply)
  {
    && (forall k :: k in after <==>
        k in before && !(k in batch && k !in rest && Forgets(replies(MappingKey.HexEncode(k)))))
    && (forall k :: k in after ==> after[k] == before[k])
  }

  /** The Retry keys there are once all of `batch` but `rest` has been looked at. */
  ghost predicate Returned(before: map<bytes, bytes>, after: map<bytes, bytes>, batch: map<bytes, bytes>,
                           rest: map<bytes, bytes>, replies: bytes -> CheckReply)
  {
    forall e :: e in after <==>
      || e in before
      || exists h :: h in batch && h !in rest && batch[h] == e && PutsBack(replies(MappingKey.HexEncode(h)))
  }

  /**
    A check round on the two buckets, by the place of each hash in Check and the fields of its reply. A hash of the
    first 1000 leaves Check exactly if Poly has an event for it, of whatever state, and the delete succeeds. Retry gains
    exactly the entries of those whose event has a state other than 1 and whose put succeeds.
   */
  ghost predicate Checked(check: Bucket, retry: Bucket, check': Bucket, retry': Bucket, replies: bytes -> CheckReply) {
    && (forall i :: 0 <= i < |check| ==>
        var r := replies(MappingKey.HexEncode(check[i].key));
        (check[i].key in Contents(check') <==> i >= 1000 || r.state.None? || r.deleteFault))
    && (forall h :: h in Contents(check') ==> h in Contents(check) && Contents(check')[h] == Contents(check)[h])
    && (forall e :: e in Contents(retry') <==> e in Contents(retry) || FailedAt(check, replies, e))
  }

  /** Among the first 1000 hashes one holds the entry and has failed, and the put of the entry succeeds. */
  ghost predicate FailedAt(check: Bucket, replies: bytes -> CheckReply, entry: bytes) {
    exists i :: 0 <= i < |check| && i < 1000 && check[i].value == entry &&
      var r := replies(MappingKey.HexEncode(check[i].key));
      r.state.Some? && r.state.value != 1 && !r.putFault
  }

  lemma RoundChecks(check: Bucket, retry: Bucket, check': Bucket, retry': Bucket, replies: bytes -> CheckReply)
    requires Forgotten(Contents(check), Contents(check'), Contents(Batch(check)), map[], replies)
    requires Returned(Contents(retry), Contents(retry'), Contents(Batch(check)), map[], replies)
    ensures Checked(check, retry, check', retry', replies)
  {
    hide MappingKey.HexEncode, Contents, Less, Batch;
    forall i | 0 <= i < |check|
      ensures check[i].key in Contents(check) && Contents(check)[check[i].key] == check[i].value
      ensures check[i].key in Contents(Batch(check)) <==> i < 1000
    {
      BatchAt(check, i);
    }
    forall e ensures e in Contents(retry') <==> e in Contents(retry) || FailedAt(check, replies, e) {
      var batch := Contents(Batch(check));
      if h :| h in batch && batch[h] == e && PutsBack(replies(MappingKey.HexEncode(h))) {
        var i := KeyAt(Batch(check), h);
        BatchIsFirst(check, i);
        assert FailedAt(check, replies, e);
      }
      if FailedAt(check, replies, e) {
        var i :| 0 <= i < |check| && i < 1000 && check[i].value == e
          && PutsBack(replies(MappingKey.HexEncode(check[i].key)));
        BatchAt(check, i);
        assert batch[check[i].key] == e;
      }
    }
  }

  lemma BatchIsFirst(b: Bucket, i: nat)
    requires i < |Batch(b)|
    ensures i < |b| && i < 1000 && Batch(b)[i] == b[i]
  {
  }

  lemma StartMap(check: map<bytes, bytes>, retry: map<bytes, bytes>, batch: map<bytes, bytes>,
                 replies: bytes -> CheckReply)
    ensures Forgotten(check, check, batch, batch, replies) && Returned(retry, retry, batch, batch, replies)
  {
  }

  lemma ForgetOne(before: map<bytes, bytes>, after: map<bytes, bytes>, batch: map<bytes, bytes>,
                  rest: map<bytes, bytes>, replies: bytes -> CheckReply, h: bytes, after': map<bytes, bytes>)
    requires Forgotten(before, after, batch, rest, replies) && h in rest && h in batch
    requires after' == if Forgets(replies(MappingKey.HexEncode(h))) then after - {h} else after
    ensures Forgotten(before, after', batch, rest - {h}, replies)
  {
    hide MappingKey.HexEncode, Forgets;
  }

  lemma ReturnOne(before: map<bytes, bytes>, after: map<bytes, bytes>, batch: map<bytes, bytes>,
                  rest: map<bytes, bytes>, replies: bytes -> CheckReply, h: bytes, after': map<bytes, bytes>)
    requires Returned(before, after, batch, rest, replies) && h in rest && h in batch
    requires after' == if PutsBack(replies(MappingKey.HexEncode(h))) then after[batch[h] := EMPTY_VALUE] else after
    ensures Returned(before, after', batch, rest - {h}, replies)
  {
    hide MappingKey.HexEncode, PutsBack;
    forall e ensures e in after' <==>
      || e in before
      || exists g :: g in batch && g !in rest - {h} && batch[g] == e && PutsBack(replies(MappingKey.HexEncode(g)))
    {
      if e in after {
        if e !in before {
          var g :| g in batch && g !in rest && batch[g] == e && PutsBack(replies(MappingKey.HexEncode(g)));
          assert g !in rest - {h};
        }
      }
    }
  }

  /** The heights in `[from, to)`. */
  ghost function Range(from: nat, to: nat): set<nat> {
    if to <= from then {} else Range(from, to - 1) + {to - 1}
  }

  datatype Passed = Passed(height: uint64, reply: BlockReply)

  ghost predicate AllEncodable(events: seq<EventReply>, height: uint64) {
    forall i :: 0 <= i < |events| ==> CrossTransfer.FromEvent(events[i].event, height).Encodable()
  }

  /** The Retry bucket after one block. */
  ghost function AfterBlock(b: Bucket, p: Passed): Bucket {
    if p.reply.events.Some? && AllEncodable(p.reply.events.value, p.height)
    then AfterStore(b, p.reply.events.value, p.height, |p.reply.events.value|) else b
  }

  /** The Retry bucket after the blocks passed. */
  ghost function AfterBlocks(b: Bucket, passed: seq<Passed>): Bucket {
    if passed == [] then b else AfterBlock(AfterBlocks(b, passed[..|passed| - 1]), passed[|passed| - 1])
  }

  /** The blocks passed since `from`, one by one, each with a reply of its own. */
  ghost predicate InTurn(passed: seq<Passed>, from: nat, to: nat, replies: (nat, uint64) -> BlockReply) {
    && to == from + |passed|
    && forall k :: 0 <= k < |passed| ==>
        passed[k].height == from + k && exists i :: passed[k].reply == replies(i, passed[k].height)
  }

  /** The heights in `[from, to)` are handled, and their events all read if every reply is complete. */
  ghost predicate Advanced(before: History, now: History, from: nat, to: nat, complete: bool) {
    && now.handled == before.handled + Range(from, to)
    && (complete ==> now.fetched == before.fetched + Range(from, to))
  }

  /** An event that is due in one of the blocks passed is in Retry after the last of them. */
  lemma {:induction false} PassedHeld(b: Bucket, passed: seq<Passed>, k: nat, i: nat)
    requires k < |passed| && passed[k].reply.events.Some? && i < |passed[k].reply.events.value|
    requires AllEncodable(passed[k].reply.events.value, passed[k].height)
    requires
      var e := passed[k].reply.events.value[i];
      e.targeted && !e.done && !e.fault
    ensures exists key ::
      && key in Contents(AfterBlocks(b, passed))
      && CrossTransfer.Holds(key, passed[k].reply.events.value[i].event, passed[k].height)
  {
    hide Contents, AfterStore, CrossTransfer.Holds, CrossTransfer.FromEvent;
    var n := |passed| - 1;
    var before, r := AfterBlocks(b, passed[..n]), passed[n].reply;
    if r.events.Some? && AllEncodable(r.events.value, passed[n].height) {
      EventsStored(before, r.events.value, passed[n].height);
    }
    if k < n {
      PassedHeld(b, passed[..n], k, i);
      assert passed[..n][k] == passed[k];
    }
  }

  /** Since a tick began, at most headers below `height` have taken effect. */
  ghost predicate Since(begun: Poly, poly: Poly, height: nat) {
    && poly.done == begun.done
    && (poly.log == begun.log || (poly.log != [] && Tip(poly).height < height))
  }

  /** What a tick changes. */
  datatype Progress = Progress(history: History, poly: Poly, retry: Bucket, check: Bucket, saved: nat)

  /** What one attempt at `height` changes. */
  ghost predicate Attempted(a: Progress, z: Progress, height: uint64, r: BlockReply, ok: bool) {
    && z.check == a.check && z.poly.done == a.poly.done
    && (z.poly.log == a.poly.log || (ok && z.poly.log != [] && Tip(z.poly).height == height))
    && (!ok ==> z.history == a.history && z.retry == a.retry && z.saved == a.saved)
    && (ok ==>
        && z.retry == AfterBlock(a.retry, Passed(height, r))
        && z.history.handled == a.history.handled + {height as nat}
        && (r.events.Some? && !r.broken ==> z.history.fetched == a.history.fetched + {height as nat})
        && (!r.saveFault ==> z.saved == height))
  }

  /** What a tick from `from` to `to` has changed. */
  ghost predicate Ran(a: Progress, z: Progress, passed: seq<Passed>, from: nat, to: nat,
                      replies: (nat, uint64) -> BlockReply)
  {
    && InTurn(passed, from, to, replies)
    && z.retry == AfterBlocks(a.retry, passed) && z.check == a.check
    && Advanced(a.history, z.history, from, to, forall i, h :: replies(i, h).events.Some? && !replies(i, h).broken)
    && ((forall i, h :: !replies(i, h).saveFault) ==> z.saved == if to == from then a.saved else to - 1)
    && Since(a.poly, z.poly, to)
  }

  lemma NothingRan(a: Progress, at: nat, replies: (nat, uint64) -> BlockReply)
    ensures Ran(a, a, [], at, at, replies)
  {
  }

  lemma RanSince(a: Progress, z: Progress, passed: seq<Passed>, from: nat, to: nat,
                 replies: (nat, uint64) -> BlockReply)
    requires Ran(a, z, passed, from, to, replies)
    ensures Since(a.poly, z.poly, to)
  {
  }

  lemma RanOn(a: Progress, y: Progress, z: Progress, passed: seq<Passed>, from: nat, height: uint64,
              replies: (nat, uint64) -> BlockReply, i: nat, ok: bool)
    requires Ran(a, y, passed, from, height, replies) && Attempted(y, z, height, replies(i, height), ok)
    ensures !ok ==> Ran(a, z, passed, from, height, replies)
    ensures ok ==> Ran(a, z, passed + [Passed(height, replies(i, height))], from, height + 1, replies)
  {
    hide AfterBlock;
    if ok {
      OneMorePassed(a.retry, passed, from, height, replies, i, height);
    }
  }

  lemma OneMorePassed(b: Bucket, passed: seq<Passed>, from: nat, to: nat, replies: (nat, uint64) -> BlockReply,
                      i: nat, height: uint64)
    requires InTurn(passed, from, to, replies) && height == to
    ensures
      var longer := passed + [Passed(height, replies(i, height))];
      && InTurn(longer, from, to + 1, replies)
      && AfterBlocks(b, longer) == AfterBlock(AfterBlocks(b, passed), Passed(height, replies(i, height)))
  {
    assert (passed + [Passed(height, replies(i, height))])[..|passed|] == passed;
  }

  /** Replies that are truthful at the start stay so at later heights, as only lower headers take effect meanwhile. */
  lemma StillTruthful(begun: Poly, poly: Poly, height: uint64, r: BlockReply)
    requires BlockTruthful(begun, height, r) && Since(begun, poly, height)
    ensures BlockTruthful(poly, height, r)
  {
    hide EventsTruthful;
  }

  /** Steps by which Poly moves on by itself. */
  predicate OfPoly(step: Step) {
    step.O? && (step.o.IncludeHeader? || step.o.ExecuteImport? || step.o.DoneByOther? || step.o.HeaderByOther?)
  }

  /** What a submission records of a decoded entry. */
  lemma ProofIs(v: bytes, t: CrossTransfer.CrossTransfer, ref: uint64, headCur: nat, log: seq<Epoch>)
    requires CrossTransfer.Decode(v) == Some(t)
    ensures
      var safe := if ref > 0 then ref - 1 else TWO64 - 1;
      && safe == Sub64(ref, 1)
      && ProofOf(v, ref, headCur, log) == Proof(v, t.value, MappingKey.Preimage(t.txIndex, [48, 49]), ref, safe,
                                                safe % TWO32, headCur, log)
  {
    hide CrossTransfer.DecodeAt, MappingKey.HexDecode;
  }

  lemma OutsideIs(env: Env, s: State, step: Step)
    requires step.O? && Enabled(env, s, step)
    ensures OutsideEnabled(s, step.o) && Apply(env, s, step) == OutsideApply(s, step.o)
  {
  }

  class PaletteManager {
    const db: BoltDB
    const env: Env
    const casing: Casing
    /** The height that a raw header states. */
    ghost const heightOf: bytes -> nat
    var currentSyncHeaderHeight: uint64
    var currentDepositHeight: uint64
    var lastEpoch: PltEpoch
    var curHeader: Option<PltEpoch>

    ghost const genesis: State
    ghost var world: State
    ghost var trace: seq<Step>

    /** `NewPaletteManager`: a process that has not run `init` yet, on top of whatever happened before. */
    constructor (db: BoltDB, env: Env, casing: Casing, ghost heightOf: bytes -> nat,
                 ghost genesis: State, ghost trace: seq<Step>, ghost world: State)
      requires db.Valid() && Run(env, genesis, trace) == Some(world)
      requires world.head.pc.Down? && world.deposit.pc.DIdle? && world.check.CIdle? && world.head.hdr.None?
      requires world.disk == Disk(db.retry, db.check, db.SavedPalette()) && world.history.writes == db.writes
      ensures Valid() && this.db == db && this.env == env
      ensures this.genesis == genesis && this.world == world && this.trace == trace
      ensures curHeader == None
    {
      this.db, this.env, this.casing, this.heightOf := db, env, casing, heightOf;
      this.genesis, this.trace, this.world := genesis, trace, world;
      currentSyncHeaderHeight, currentDepositHeight := 0, 0;
      var none := new Address[0];
      lastEpoch := PltEpoch(0, none, []);
      curHeader := None;
    }

    ghost function Slices(): set<object>
      reads this
    {
      {lastEpoch.valset} + (if curHeader.Some? then {curHeader.value.valset} else {})
    }

    /** The trace leads from the genesis to the current world, and the database is as the world says. */
    ghost predicate Valid()
      reads this, db
    {
      && db.Valid()
      && Run(env, genesis, trace) == Some(world)
      && world.disk == Disk(db.retry, db.check, db.SavedPalette())
      && world.history.writes == db.writes
    }

    /** The loops' variables are as the world says. */
    ghost predicate Running()
      reads this, Slices()
    {
      && world.head.cur == currentSyncHeaderHeight
      && world.deposit.cursor == currentDepositHeight
      && world.head.last == Epoch(lastEpoch.height, multiset(lastEpoch.valset[..]))
      && (curHeader.Some? <==> world.head.hdr.Some?)
      && (curHeader.Some? ==>
          && world.head.hdr.value == Epoch(curHeader.value.height, multiset(curHeader.value.valset[..]))
          && env.valset(curHeader.value.height) == multiset(curHeader.value.valset[..])
          && heightOf(curHeader.value.raw) == curHeader.value.height)
    }

    /** The trace meets the hypotheses of conservation. */
    ghost predicate Clean()
      reads this
    {
      Run(env, genesis, trace).Some? && Along(env, genesis, trace, Conservation.Careful)
    }

    /** No loop is in the middle of anything. */
    ghost predicate Idle()
      reads this
    {
      world.head.pc.HIdle? && world.deposit.pc.DIdle? && world.check.CIdle?
    }

    ghost method Do(step: Step)
      requires Run(env, genesis, trace) == Some(world) && Enabled(env, world, step)
      modifies `world, `trace
      ensures world == Apply(env, old(world), step) && trace == old(trace) + [step]
      ensures Run(env, genesis, trace) == Some(world)
      ensures old(Clean()) && Conservation.Careful(env, old(world), step) ==> Clean()
    {
      hide Enabled, Apply, Conservation.Careful;
      RunNext(env, genesis, trace, step);
      assert (trace + [step])[..|trace|] == trace;
      world := Apply(env, world, step);
      trace := trace + [step];
    }

    /** Poly moves on by itself between the calls. */
    ghost method Elapse(step: OutsideStep)
      requires Valid() && OutsideEnabled(world, step) && OfPoly(O(step))
      modifies `world, `trace
      ensures Valid() && old(trace) <= trace
      ensures world == OutsideApply(old(world), step) == old(world).(poly := world.poly)
      ensures old(Clean()) && Honest(env, old(world), O(step)) ==> Clean()
    {
      hide Run, Along, HeadApply, DepositApply, CheckApply, HeadEnabled, DepositEnabled, CheckEnabled;
      Do(O(step));
    }

    ghost method ElapseAll(steps: seq<Step>)
      requires Valid() && Run(env, world, steps).Some? && forall i :: 0 <= i < |steps| ==> OfPoly(steps[i])
      modifies `world, `trace
      ensures Valid() && old(trace) <= trace
      ensures Run(env, old(world), steps) == Some(world) && world == old(world).(poly := world.poly)
      ensures old(Clean() && Along(env, world, steps, Honest)) ==> Clean()
      decreases |steps|
    {
      hide Apply, Enabled, Honest, OutsideApply, OutsideEnabled;
      if steps != [] {
        var last := steps[|steps| - 1];
        ghost var before := Run(env, world, steps[..|steps| - 1]).value;
        assert OfPoly(last);
        ElapseAll(steps[..|steps| - 1]);
        assert world == before;
        assert OutsideEnabled(world, last.o) && Apply(env, world, last) == OutsideApply(world, last.o) by {
          OutsideIs(env, world, last);
        }
        Elapse(last.o);
      }
    }

    /**
      `isEpoch`: false exactly when the two validator lists are equal as multisets. Both are sorted in place, and keep
      their elements even where they are one slice, as they are after a commit.
     */
    method IsEpoch() returns (changed: bool)
      requires curHeader.Some?
      modifies curHeader.value.valset, lastEpoch.valset
      ensures changed <==> multiset(old(curHeader.value.valset[..])) != multiset(old(lastEpoch.valset[..]))
      ensures multiset(curHeader.value.valset[..]) == multiset(old(curHeader.value.valset[..]))
      ensures multiset(lastEpoch.valset[..]) == multiset(old(lastEpoch.valset[..]))
    {
      var s1, s2 := curHeader.value.valset, lastEpoch.valset;
      if s1.Length != s2.Length {
        assert |multiset(s1[..])| == s1.Length && |multiset(s2[..])| == s2.Length;
        return true;
      }
      BeforeIsStrictTotal(casing);
      SortSlice(s1, Before(casing));
      SortSlice(s2, Before(casing));
      var i := 0;
      while i < s1.Length
        invariant 0 <= i <= s1.Length
        invariant s1[..i] == s2[..i]
      {
        if s1[i] != s2[i] {
          if multiset(s1[..]) == multiset(s2[..]) {
            SortedUnique(Before(casing), s1[..], s2[..]);
          }
          return true;
        }
        i := i + 1;
      }
      assert s1[..] == s1[..i] == s2[..i] == s2[..];
      return false;
    }

    /** `fetchBlockHeader`: a cached header, by height or by raw bytes, is kept. */
    method FetchBlockHeader(height: uint64, reply: Option<Header>) returns (ok: bool)
      modifies `curHeader
      ensures ok <==> (old(curHeader).Some? && old(curHeader).value.height == height) || reply.Some?
      ensures curHeader != old(curHeader) ==>
        && reply.Some? && curHeader.Some?
        && curHeader.value.height == height && curHeader.value.raw == reply.value.raw
        && curHeader.value.valset[..] == reply.value.validators && fresh(curHeader.value.valset)
      ensures ok ==> curHeader.Some?
      ensures ok && curHeader == old(curHeader) ==>
        curHeader.value.height == height || (reply.Some? && curHeader.value.raw == reply.value.raw)
    {
      if curHeader.Some? && curHeader.value.height == height {
        return true;
      }
      if reply == None {
        return false;
      }
      var hdr := reply.value;
      if curHeader.Some? && hdr.raw == curHeader.value.raw {
        return true;
      }
      var validators := hdr.validators;
      var valset := new Address[|validators|](i requires 0 <= i < |validators| => validators[i]);
      assert valset[..] == validators;
      curHeader := Some(PltEpoch(height, valset, hdr.raw));
      return true;
    }

    /**
      `commitHeader`: an error reply changes nothing; otherwise the call waits until the transaction is in a Poly
      block, and the current header's slice becomes the last epoch's.
     */
    method CommitHeader(sent: bool, broadcast: bool, accepted: bool) returns (ok: bool)
      requires Valid() && Running() && world.head.pc.HHeader? && curHeader.Some?
      requires world.head.hdr.value.valset != world.head.last.valset
      modifies `lastEpoch, `world, `trace
      ensures Valid() && Running() && ok == sent
      ensures old(trace) <= trace
      ensures world.deposit == old(world).deposit && world.check == old(world).check
      ensures world.head.cur == old(world).head.cur && world.head.pc == (if sent then HQuery else HIdle)
      ensures world.disk == old(world).disk && world.history == old(world).history
      ensures sent ==> lastEpoch == curHeader.value && world.head.last == old(world).head.hdr.value
      ensures world.poly.done == old(world).poly.done
      ensures world.poly.log ==
        old(world).poly.log + (if sent && accepted then [old(world).head.hdr.value] else [])
      ensures
        var poly, e := old(world).poly, old(world).head.hdr.value;
        old(Clean()) && poly.log != [] && (accepted ==> e.height > Tip(poly).height) ==> Clean()
      ensures !sent ==> lastEpoch == old(lastEpoch) && world.head.last == old(world).head.last
    {
      hide Run, Along, Apply, Enabled;
      SendHeader(sent, broadcast);
      if !sent {
        return false;
      }
      AwaitBlock(accepted);
      lastEpoch := curHeader.value;
      return true;
    }

    ghost method SendHeader(sent: bool, broadcast: bool)
      requires Valid() && world.head.pc.HHeader? && world.head.hdr.Some?
      requires world.head.hdr.value.valset != world.head.last.valset
      modifies `world, `trace
      ensures Valid() && old(trace) <= trace && (old(Clean()) ==> Clean())
      ensures world == old(world).(head := old(world).head.(pc := if sent then HWait else HIdle), poly := world.poly)
      ensures world.poly == old(world).poly.(inflight := world.poly.inflight)
      ensures sent ==> old(world).head.hdr.value in world.poly.inflight
    {
      hide Run, Along, DepositApply, CheckApply, OutsideApply, DepositEnabled, CheckEnabled, OutsideEnabled;
      Do(H(SubmitHeader(sent, broadcast)));
    }

    /** The wait of `commitHeader`: the transaction gets into a block, executed or not. */
    ghost method AwaitBlock(accepted: bool)
      requires Valid() && world.head.pc.HWait? && world.head.hdr.Some?
      requires world.head.hdr.value in world.poly.inflight
      modifies `world, `trace
      ensures Valid() && old(trace) <= trace
      ensures world == old(world).(poly := world.poly,
                                   head := old(world).head.(pc := HQuery, last := old(world).head.hdr.value))
      ensures world.poly.done == old(world).poly.done
      ensures world.poly.log == old(world).poly.log + (if accepted then [old(world).head.hdr.value] else [])
      ensures
        var poly, e := old(world).poly, old(world).head.hdr.value;
        old(Clean()) && poly.log != [] && (accepted ==> e.height > Tip(poly).height) ==> Clean()
    {
      hide Run, Along, DepositApply, CheckApply, DepositEnabled, CheckEnabled;
      Do(O(IncludeHeader(world.head.hdr.value, accepted)));
      Do(H(ConfirmHeader));
    }

    /** The first call of `handleNewBlock` above the last epoch: the header is at hand, or nothing changed. */
    method FetchCurrent(height: uint64, r: BlockReply) returns (ok: bool)
      requires Valid() && Running() && Idle() && height == currentSyncHeaderHeight && height > lastEpoch.height
      requires BlockHonest(env, height, heightOf, r)
      modifies `curHeader, `world, `trace
      ensures Valid() && Running() && old(trace) <= trace && fresh(Slices() - old(Slices()))
      ensures old(Clean()) ==> Clean()
      ensures ok <==> (old(curHeader).Some? && old(curHeader).value.height == height) || r.header.Some?
      ensures !ok ==> world == old(world)
      ensures ok ==>
        && curHeader.Some?
        && world == old(world).(head := old(world).head.(pc := HHeader, hdr := Some(Epoch(height, env.valset(height)))))
    {
      hide Run, Along, DepositApply, CheckApply, OutsideApply, DepositEnabled, CheckEnabled, OutsideEnabled;
      ok := FetchBlockHeader(height, r.header);
      Do(H(FetchHeader(ok)));
    }

    /**
      `handleNewBlock` up to the events: when it goes on, the last epoch names the validators of this block, and its
      height has moved to this block exactly if they differ from the last epoch's.
     */
    method CompareHeader(height: uint64, r: BlockReply) returns (ok: bool)
      requires Valid() && Running() && Idle() && height == currentSyncHeaderHeight
      requires BlockHonest(env, height, heightOf, r)
      modifies `lastEpoch, `curHeader, `world, `trace, Slices()
      ensures Valid() && Running() && old(trace) <= trace && fresh(Slices() - old(Slices()))
      ensures world.deposit == old(world).deposit && world.check == old(world).check
      ensures world.head.cur == old(world).head.cur && world.head.pc == (if ok then HQuery else HIdle)
      ensures world.disk == old(world).disk && world.history == old(world).history
      ensures ok && (height <= old(lastEpoch).height || env.valset(height) == old(world).head.last.valset) ==>
        world.head.last == old(world).head.last
      ensures ok && height > old(lastEpoch).height && env.valset(height) != old(world).head.last.valset ==>
        world.head.last == Epoch(height, env.valset(height))
      ensures ok <==>
        || height <= old(lastEpoch).height
        || ((r.header.Some? || (old(curHeader).Some? && old(curHeader).value.height == height))
            && (env.valset(height) == old(world).head.last.valset || r.sent))
      ensures world.poly.done == old(world).poly.done
      ensures world.poly.log == old(world).poly.log
        || (ok && world.poly.log == old(world).poly.log + [Epoch(height, env.valset(height))])
      ensures old(Clean()) && BlockTruthful(old(world).poly, height, r) ==> Clean()
    {
      hide Run, Along, Apply, Enabled;
      if height <= lastEpoch.height {
        Skip();
        return true;
      }
      ok := FetchCurrent(height, r);
      if !ok {
        return false;
      }
      var changed := Compare();
      if changed {
        ok := CommitHeader(r.sent, r.broadcast, r.accepted);
      } else {
        Same();
      }
    }

    /** The branches of `handleNewBlock` that touch nothing but the position in it. */
    ghost method Skip()
      requires Valid() && Running() && world.head.pc.HIdle? && world.head.cur <= world.head.last.height
      modifies `world, `trace
      ensures Valid() && Running() && old(trace) <= trace
      ensures world == old(world).(head := old(world).head.(pc := HQuery))
      ensures old(Clean()) ==> Clean()
    {
      hide Run, Along, DepositApply, CheckApply, OutsideApply, DepositEnabled, CheckEnabled, OutsideEnabled;
      Do(H(SkipEpochCheck));
    }

    ghost method Same()
      requires Valid() && Running() && world.head.pc.HHeader? && world.head.hdr.Some?
      requires world.head.hdr.value.valset == world.head.last.valset
      modifies `world, `trace
      ensures Valid() && Running() && old(trace) <= trace
      ensures world == old(world).(head := old(world).head.(pc := HQuery))
      ensures old(Clean()) ==> Clean()
    {
      hide Run, Along, DepositApply, CheckApply, OutsideApply, DepositEnabled, CheckEnabled, OutsideEnabled;
      Do(H(NotEpoch));
    }

    /** `isEpoch` seen from the world: the sets of the last epoch and of the current header differ. */
    method Compare() returns (changed: bool)
      requires Valid() && Running() && curHeader.Some?
      modifies curHeader.value.valset, lastEpoch.valset
      ensures Valid() && Running()
      ensures changed <==> world.head.hdr.value.valset != world.head.last.valset
    {
      hide Run, Along;
      changed := IsEpoch();
    }

    /**
      `fetchLockEvents`: a failed query stores nothing; otherwise the events are put one by one. Retry then holds each
      event for a target contract that Poly has not done and whose put does not fail, under a key that decodes to that
      event's own fields; no other key is new.
     */
    method FetchLockEvents(height: uint64, r: BlockReply) returns (ok: bool)
      requires Valid() && Running() && world.head.pc.HQuery? && height == currentSyncHeaderHeight
      requires BlockHonest(env, height, heightOf, r)
      modifies db`retry, db`writes, `world, `trace
      ensures Valid() && Running() && old(trace) <= trace
      ensures world.deposit == old(world).deposit && world.check == old(world).check && world.poly == old(world).poly
      ensures world.head == old(world).head.(pc := HSave)
      ensures ok <==> r.events.Some?
      ensures db.retry == (if ok then AfterStore(old(db.retry), r.events.value, height, |r.events.value|)
                           else old(db.retry))
      ensures ok ==> forall i :: 0 <= i < |r.events.value| ==>
        var e := r.events.value[i];
        e.targeted && !e.done && !e.fault ==>
          exists k :: k in Contents(db.retry) && CrossTransfer.Holds(k, e.event, height)
      ensures ok ==> forall k :: k in Contents(db.retry) && k !in Contents(old(db.retry)) ==>
        exists i :: 0 <= i < |r.events.value| &&
          var e := r.events.value[i];
          e.targeted && !e.done && !e.fault && CrossTransfer.Holds(k, e.event, height)
      ensures forall k :: k in Contents(old(db.retry)) ==> k in Contents(db.retry)
      ensures world.history.fetched ==
        old(world).history.fetched + (if ok && !r.broken then {height as nat} else {})
      ensures world.history.handled == old(world).history.handled
      ensures old(Clean()) && EventsTruthful(old(world).poly.done, height, r) ==> Clean()
    {
      hide Run, Along, KeyOf, TargetKeys, EventTruthful, AfterStore, Apply, Enabled;
      hide CrossTransfer.Holds, CrossTransfer.FromEvent, Contents;
      Query(r.events.Some?);
      if r.events == None {
        return false;
      }
      ghost var targets := TargetKeys(r.events.value, height);
      ghost var tail := env.events(height)[|targets|..];
      assert env.events(height) == targets + tail && (!r.broken ==> tail == []);
      StoreEvents(r.events.value, height, tail);
      EventsStored(old(db.retry), r.events.value, height);
      LeaveEvents(r.broken);
      return true;
    }

    ghost method Query(ok: bool)
      requires Valid() && Running() && world.head.pc.HQuery?
      modifies `world, `trace
      ensures Valid() && Running() && old(trace) <= trace && (old(Clean()) ==> Clean())
      ensures world == old(world).(head :=
        old(world).head.(pc := if ok then HStore(env.events(old(world).head.cur)) else HSave))
    {
      hide Run, Along, DepositApply, CheckApply, OutsideApply, DepositEnabled, CheckEnabled, OutsideEnabled;
      Do(H(QueryEvents(ok)));
    }

    /** The end of the iteration, or its end on an error. */
    ghost method LeaveEvents(broken: bool)
      requires Valid() && Running() && world.head.pc.HStore? && (!broken ==> world.head.pc.rest == [])
      modifies `world, `trace
      ensures Valid() && Running() && old(trace) <= trace && (old(Clean()) ==> Clean())
      ensures world == old(world).(head := old(world).head.(pc := HSave),
        history := old(world).history.(fetched :=
          old(world).history.fetched + (if broken then {} else {old(world).head.cur})))
    {
      hide Run, Along, DepositApply, CheckApply, OutsideApply, DepositEnabled, CheckEnabled, OutsideEnabled;
      if broken {
        Do(H(BreakOff));
      } else {
        Do(H(EndEvents));
      }
    }

    /** The loop over the events given; `tail` is what an iterator that stops on an error leaves out. */
    method StoreEvents(events: seq<EventReply>, height: uint64, ghost tail: seq<bytes>)
      requires Valid() && Running()
      requires forall i :: 0 <= i < |events| ==> CrossTransfer.FromEvent(events[i].event, height).Encodable()
      requires world.head.pc == HStore(TargetKeys(events, height) + tail)
      modifies db`retry, db`writes, `world, `trace
      ensures Valid() && Running() && old(trace) <= trace
      ensures world.head == old(world).head.(pc := HStore(tail))
      ensures world.deposit == old(world).deposit && world.check == old(world).check && world.poly == old(world).poly
      ensures world.history.fetched == old(world).history.fetched
      ensures world.history.handled == old(world).history.handled
      ensures db.retry == AfterStore(old(db.retry), events, height, |events|)
      ensures old(Clean() && forall i :: 0 <= i < |events| ==> EventTruthful(world.poly.done, height, events[i]))
        ==> Clean()
    {
      hide Run, Along, KeyOf, Put, EventTruthful, Apply, Enabled;
      var i := 0;
      while i < |events|
        invariant 0 <= i <= |events|
        invariant Valid() && Running() && old(trace) <= trace
        invariant world.head == old(world).head.(pc := HStore(TargetKeys(events[i..], height) + tail))
        invariant world.deposit == old(world).deposit && world.check == old(world).check
        invariant world.poly == old(world).poly && world.history.fetched == old(world).history.fetched
        invariant world.history.handled == old(world).history.handled
        invariant db.retry == AfterStore(old(db.retry), events, height, i)
        invariant old(Clean() && forall k :: 0 <= k < |events| ==> EventTruthful(world.poly.done, height, events[k]))
          ==> Clean()
      {
        assert events[i..][0] == events[i] && events[i..][1..] == events[i + 1..];
        if events[i].targeted {
          assert world.head.pc.rest[0] == KeyOf(events[i], height);
          assert world.head.pc.rest[1..] == TargetKeys(events[i + 1..], height) + tail;
          StoreOne(events[i], height);
        }
        i := i + 1;
      }
      assert TargetKeys(events[i..], height) + tail == tail;
    }

    /** One event for a target contract: left alone if Poly has it, else serialised and put. */
    method StoreOne(r: EventReply, height: uint64)
      requires Valid() && Running() && world.head.pc.HStore? && world.head.pc.rest != []
      requires CrossTransfer.FromEvent(r.event, height).Encodable()
      requires world.head.pc.rest[0] == KeyOf(r, height)
      modifies db`retry, db`writes, `world, `trace
      ensures Valid() && Running() && old(trace) <= trace
      ensures world.head == old(world).head.(pc := HStore(old(world).head.pc.rest[1..]))
      ensures world.deposit == old(world).deposit && world.check == old(world).check && world.poly == old(world).poly
      ensures world.history.fetched == old(world).history.fetched
      ensures world.history.handled == old(world).history.handled
      ensures old(Clean()) && EventTruthful(old(world).poly.done, height, r) ==> Clean()
      ensures db.retry == if r.done || r.fault then old(db.retry)
                          else Put(old(db.retry), KeyOf(r, height), EMPTY_VALUE)
    {
      hide Run, Along, CrossTransfer.Encode, CrossTransfer.FromEvent, Put;
      hide DepositApply, CheckApply, OutsideApply, DepositEnabled, CheckEnabled, OutsideEnabled;
      if r.done {
        Do(H(SkipDone));
        return;
      }
      var sink := new ZeroCopy.Sink();
      var transfer := CrossTransfer.FromEvent(r.event, height);
      CrossTransfer.Serialization(transfer, sink);
      assert sink.buf == CrossTransfer.Encode(transfer);
      var ok := db.PutRetry(sink.buf, r.fault);
      Do(H(StoreEvent(ok)));
    }

    /**
      `handleNewBlock` and the bookkeeping of `MonitorChain`: false leaves the cursor where it is for another try;
      true saves the height (a fault is ignored) and moves on, even if the block's events could not be queried.
     */
    method HandleNewBlock(r: BlockReply) returns (ok: bool)
      requires Valid() && Running() && Idle() && currentSyncHeaderHeight < TWO64 - 1
      requires BlockHonest(env, currentSyncHeaderHeight, heightOf, r)
      modifies this, db, Slices()
      ensures Valid() && Running() && Idle() && old(trace) <= trace && fresh(Slices() - old(Slices()))
      ensures currentSyncHeaderHeight == old(currentSyncHeaderHeight) + (if ok then 1 else 0)
      ensures r.header.Some? && r.sent ==> ok
      ensures currentDepositHeight == old(currentDepositHeight)
      ensures ok && !r.saveFault ==> db.SavedPalette() == old(currentSyncHeaderHeight)
      ensures !ok || r.saveFault ==> db.SavedPalette() == old(db.SavedPalette())
      ensures db.check == old(db.check)
      ensures ok && r.events.Some? ==>
        db.retry == AfterStore(old(db.retry), r.events.value, old(currentSyncHeaderHeight), |r.events.value|)
      ensures !ok || r.events.None? ==> db.retry == old(db.retry)
      ensures !ok ==> world.history == old(world).history
      ensures world.history.handled ==
        old(world).history.handled + (if ok then {old(currentSyncHeaderHeight) as nat} else {})
      ensures world.history.fetched == old(world).history.fetched
        + (if ok && r.events.Some? && !r.broken then {old(currentSyncHeaderHeight) as nat} else {})
      ensures world.poly.done == old(world).poly.done
      ensures world.poly.log == old(world).poly.log || (ok && world.poly.log ==
        old(world).poly.log + [Epoch(old(currentSyncHeaderHeight), env.valset(old(currentSyncHeaderHeight)))])
      ensures old(Clean()) && BlockTruthful(old(world).poly, old(currentSyncHeaderHeight), r) ==> Clean()
    {
      hide Run, Along, AfterStore, BlockHonest, EventsTruthful, Apply, Enabled;
      ok := CompareHeader(currentSyncHeaderHeight, r);
      if !ok {
        return false;
      }
      var _ := FetchLockEvents(currentSyncHeaderHeight, r);
      FinishBlock(r.saveFault);
      return true;
    }

    method FinishBlock(saveFault: bool)
      requires Valid() && Running() && world.head.pc.HSave? && currentSyncHeaderHeight < TWO64 - 1
      modifies db`paletteHeight, db`writes, `currentSyncHeaderHeight, `world, `trace
      ensures Valid() && Running() && old(trace) <= trace && world.head.pc.HIdle?
      ensures world.deposit == old(world).deposit && world.check == old(world).check
      ensures old(Clean()) ==> Clean()
      ensures world.poly == old(world).poly && world.history.fetched == old(world).history.fetched
      ensures world.history.handled == old(world).history.handled + {old(currentSyncHeaderHeight) as nat}
      ensures currentSyncHeaderHeight == old(currentSyncHeaderHeight) + 1
      ensures db.SavedPalette() == if saveFault then old(db.SavedPalette()) else old(currentSyncHeaderHeight)
    {
      hide Run, Along, DepositApply, CheckApply, OutsideApply, DepositEnabled, CheckEnabled, OutsideEnabled;
      var saved := db.UpdatePaletteHeight(currentSyncHeaderHeight, saveFault);
      Do(H(SaveHeight(saved)));
      currentSyncHeaderHeight := currentSyncHeaderHeight + 1;
      Do(H(Advance));
    }

    ghost function Now(): Progress
      reads this, db
    {
      Progress(world.history, world.poly, db.retry, db.check, db.SavedPalette())
    }

    /** One attempt of a tick that began when Poly was as in `begun`. */
    method Attempt(r: BlockReply, ghost begun: Poly) returns (ok: bool)
      requires Valid() && Running() && Idle() && currentSyncHeaderHeight < TWO64 - 1
      requires BlockHonest(env, currentSyncHeaderHeight, heightOf, r)
      requires Since(begun, world.poly, currentSyncHeaderHeight)
      modifies this, db, Slices()
      ensures Valid() && Running() && Idle() && old(trace) <= trace && fresh(Slices() - old(Slices()))
      ensures currentSyncHeaderHeight == old(currentSyncHeaderHeight) + (if ok then 1 else 0)
      ensures r.header.Some? && r.sent ==> ok
      ensures Attempted(old(Now()), Now(), old(currentSyncHeaderHeight), r, ok)
      ensures old(Clean()) && BlockTruthful(begun, old(currentSyncHeaderHeight), r) ==> Clean()
    {
      hide Run, Along, BlockTruthful, Apply, Enabled, AfterStore;
      assert AfterBlock(db.retry, Passed(currentSyncHeaderHeight, r)) ==
        if r.events.Some? then AfterStore(db.retry, r.events.value, currentSyncHeaderHeight, |r.events.value|)
        else db.retry;
      hide BlockHonest, AfterBlock;
      if BlockTruthful(begun, currentSyncHeaderHeight, r) {
        StillTruthful(begun, world.poly, currentSyncHeaderHeight, r);
      }
      ok := HandleNewBlock(r);
    }

    /**
      `MonitorChain`, one tick, for as many attempts as the process lives: the blocks passed are handled one by one,
      Retry is what they leave in their order, and the last of them is the one saved. The tick goes on until the node's
      height or the end of the process, and every attempt whose header comes and is taken by Poly passes its block.
     */
    method MonitorChain(nodeHeight: uint64, attempts: nat, replies: (nat, uint64) -> BlockReply)
      returns (ghost passed: seq<Passed>, tried: nat)
      requires Valid() && Running() && Idle()
      requires forall i, h :: BlockHonest(env, h, heightOf, replies(i, h))
      modifies this, db, Slices()
      ensures Valid() && Running() && Idle() && old(trace) <= trace && fresh(Slices() - old(Slices()))
      ensures currentSyncHeaderHeight <= nodeHeight || currentSyncHeaderHeight == old(currentSyncHeaderHeight)
      ensures currentSyncHeaderHeight >= nodeHeight || tried == attempts
      ensures (forall i, h :: replies(i, h).header.Some? && replies(i, h).sent) ==> |passed| == tried
      ensures Ran(old(Now()), Now(), passed, old(currentSyncHeaderHeight), currentSyncHeaderHeight, replies)
      ensures old(Clean()) && (forall i, h :: BlockTruthful(old(world).poly, h, replies(i, h))) ==> Clean()
    {
      hide Run, Along, BlockHonest, BlockTruthful, Apply, Enabled, Ran, Attempted, Since;
      hide Valid, Running, Idle, Clean;
      passed := [];
      NothingRan(Now(), currentSyncHeaderHeight, replies);
      tried := 0;
      while currentSyncHeaderHeight < nodeHeight && tried < attempts
        invariant Valid() && Running() && Idle() && old(trace) <= trace && fresh(Slices() - old(Slices()))
        invariant currentSyncHeaderHeight <= nodeHeight || currentSyncHeaderHeight == old(currentSyncHeaderHeight)
        invariant Ran(old(Now()), Now(), passed, old(currentSyncHeaderHeight), currentSyncHeaderHeight, replies)
        invariant (forall k, h :: replies(k, h).header.Some? && replies(k, h).sent) ==> |passed| == tried
        invariant old(Clean()) && (forall k, h :: BlockTruthful(old(world).poly, h, replies(k, h))) ==> Clean()
        invariant tried <= attempts
        decreases attempts - tried
      {
        var r := replies(tried, currentSyncHeaderHeight);
        ghost var cur, before := currentSyncHeaderHeight, Now();
        RanSince(old(Now()), before, passed, old(currentSyncHeaderHeight), cur, replies);
        var ok := Attempt(r, old(world).poly);
        RanOn(old(Now()), before, Now(), passed, old(currentSyncHeaderHeight), cur, replies, tried, ok);
        if ok {
          passed := passed + [Passed(cur, r)];
        }
        tried := tried + 1;
      }
    }

    /**
      `handleDepositEvents` and the increment of `MonitorDeposit`. What each entry of the batch does to the two
      buckets depends on its own reply only; the cursor moves on whatever happens.
     */
    method HandleDepositEvents(readFault: bool, replies: nat -> DepositReply)
      requires Valid() && Running() && Idle() && currentDepositHeight < currentSyncHeaderHeight
      modifies db`retry, db`check, db`writes, `currentDepositHeight, `world, `trace
      ensures Valid() && Running() && Idle() && old(trace) <= trace
      ensures currentDepositHeight == old(currentDepositHeight) + 1
      ensures old(Clean() && RoundTruthful(world.poly, KeyList(Batch(db.retry)), replies, 0)) ==> Clean()
      ensures
        var keys := KeyList(Batch(old(db.retry)));
        var n := if readFault then 0 else |keys|;
        && db.retry == AfterRound(old(db.retry), keys, env.distance, old(currentDepositHeight), replies, n)
        && db.check == AfterChecks(old(db.check), keys, env.distance, old(currentDepositHeight), replies, n)
      ensures !readFault ==>
        Deposited(env.distance, old(currentDepositHeight), old(db.retry), old(db.check), db.retry, db.check, replies)
      ensures readFault ==> db.retry == old(db.retry) && db.check == old(db.check)
    {
      hide Run, Along, Batch, Apply, Enabled, AfterRound, AfterChecks, RoundTruthful, Deposited;
      var retryList := db.GetAllRetry(readFault);
      OpenRound(readFault);
      if retryList == None {
        AfterNone(db.retry, db.check, KeyList(Batch(db.retry)), env.distance, currentDepositHeight, replies);
        currentDepositHeight := currentDepositHeight + 1;
        return;
      }
      HandleList(retryList.value, replies);
      RoundDeposits(env.distance, currentDepositHeight, old(db.retry), old(db.check), replies);
      CloseRound();
    }

    ghost method OpenRound(readFault: bool)
      requires Valid() && Idle() && world.deposit.cursor < world.head.cur
      modifies `world, `trace
      ensures Valid() && old(trace) <= trace
      ensures world == old(world).(deposit :=
        if readFault then Deposit(DIdle, old(world).deposit.cursor + 1)
        else Deposit(DRound(KeyList(Batch(db.retry))), old(world).deposit.cursor))
      ensures old(Clean()) ==> Clean()
    {
      hide Run, Along, Batch;
      Do(D(ReadRetry(!readFault)));
    }

    method CloseRound()
      requires Valid() && Running() && Up(world) && world.deposit.pc == DRound([])
      requires currentDepositHeight < currentSyncHeaderHeight
      modifies `world, `trace, `currentDepositHeight
      ensures Valid() && Running() && old(trace) <= trace
      ensures world == old(world).(deposit := Deposit(DIdle, old(world).deposit.cursor + 1))
      ensures old(Clean()) ==> Clean()
      ensures currentDepositHeight == old(currentDepositHeight) + 1
    {
      hide Run, Along;
      Do(D(EndRound));
      currentDepositHeight := currentDepositHeight + 1;
    }

    /** The loop over the entries read. */
    method HandleList(list: seq<bytes>, replies: nat -> DepositReply)
      requires Valid() && Running() && Up(world) && world.deposit == Deposit(DRound(list), currentDepositHeight)
      modifies db`retry, db`check, db`writes, `world, `trace
      ensures Valid() && Running() && old(trace) <= trace
      ensures world.deposit == Deposit(DRound([]), currentDepositHeight)
      ensures world.head == old(world).head && world.check == old(world).check
      ensures db.retry == AfterRound(old(db.retry), list, env.distance, currentDepositHeight, replies, |list|)
      ensures db.check == AfterChecks(old(db.check), list, env.distance, currentDepositHeight, replies, |list|)
      ensures old(Clean() && RoundTruthful(world.poly, list, replies, 0)) ==> Clean()
    {
      hide Run, Along, Ready, Put, Delete, Apply, Enabled, RoundTruthful, EntryTruthful, PolyAfter;
      var i := 0;
      while i < |list|
        invariant 0 <= i <= |list|
        invariant Valid() && Running() && old(trace) <= trace
        invariant world.deposit == Deposit(DRound(list[i..]), currentDepositHeight)
        invariant world.head == old(world).head && world.check == old(world).check
        invariant db.retry == AfterRound(old(db.retry), list, env.distance, currentDepositHeight, replies, i)
        invariant db.check == AfterChecks(old(db.check), list, env.distance, currentDepositHeight, replies, i)
        invariant old(Clean() && RoundTruthful(world.poly, list, replies, 0)) ==>
          Clean() && RoundTruthful(world.poly, list, replies, i)
      {
        assert list[i..][0] == list[i] && list[i..][1..] == list[i + 1..];
        ghost var poly := world.poly;
        var _ := HandleEntry(list[i], replies(i));
        if RoundTruthful(poly, list, replies, i) {
          RoundNext(poly, world.poly, list, replies, i);
        }
        i := i + 1;
      }
      assert list[i..] == [];
    }

    /**
      One entry: skipped, submitted in vain, found done, or moved from Retry to Check (put first, then deleted). What is
      submitted is the entry's own payload, with the proof of its own slot one block behind the cursor.
     */
    method HandleEntry(v: bytes, r: DepositReply) returns (tx: Option<Import>)
      requires Valid() && Running() && Up(world)
      requires world.deposit.pc.DRound? && world.deposit.pc.rest != [] && world.deposit.pc.rest[0] == v
      modifies db`retry, db`check, db`writes, `world, `trace
      ensures Valid() && Running() && old(trace) <= trace
      ensures world.deposit == old(world).deposit.(pc := DRound(old(world).deposit.pc.rest[1..]))
      ensures world.head == old(world).head && world.check == old(world).check
      ensures
        var ready := Ready(env.distance, currentDepositHeight, v) && r.proofOk;
        && (ready && (r.reply.AlreadyDone? || r.reply.Sent?) && !r.deleteFault ==> db.retry == Delete(old(db.retry), v))
        && (!ready || r.reply.Refused? || r.deleteFault ==> db.retry == old(db.retry))
        && (ready && r.reply.Sent? && !r.putFault ==> db.check == Put(old(db.check), r.reply.hash, v))
        && (!ready || !r.reply.Sent? || r.putFault ==> db.check == old(db.check))
      ensures PolyAfter(old(world).poly, world.poly, r)
      ensures old(Clean()) && EntryTruthful(old(world).poly, v, r) ==> Clean()
      ensures tx.Some? <==> Ready(env.distance, currentDepositHeight, v) && r.proofOk
      ensures tx.Some? ==>
        var t, ref := CrossTransfer.Decode(v), currentDepositHeight;
        && t.Some? && tx.value.value == t.value.value
        && tx.value.slot == MappingKey.Preimage(t.value.txIndex, [48, 49])
        && tx.value.safeHeight == (if ref > 0 then ref - 1 else TWO64 - 1)
        && tx.value.stated == tx.value.safeHeight % 0x1_0000_0000
      ensures world.history.proofs == old(world).history.proofs
        + if tx.None? then [] else [Proof(v, tx.value.value, tx.value.slot, currentDepositHeight, tx.value.safeHeight,
                                          tx.value.stated, world.head.cur, old(world).poly.log)]
    {
      hide Run, Along, Put, Delete, Ready, Apply, Enabled, ProofOf, CrossTransfer.Decode, MappingKey.Preimage;
      var crossTx := Decided(v);
      if crossTx == None {
        PassOver();
        return None;
      }
      var t := crossTx.value;
      ProofIs(v, t, currentDepositHeight, world.head.cur, world.poly.log);
      var safeHeight := Sub64(currentDepositHeight, 1);
      var slot := MappingKey.Preimage(t.txIndex, MappingKey.SLOT_TEXT);
      if !r.proofOk {
        PassOver();
        return None;
      }
      tx := Some(Import(t.value, slot, safeHeight, safeHeight % TWO32));
      Submit(r.reply);
      match r.reply {
        case Refused =>
        case AlreadyDone =>
          RemoveEntry(v, r.deleteFault);
        case Sent(hash) =>
          Move(v, hash, r);
      }
    }

    /** Decoding and the guard: an undecodable entry, or one too young for the cursor, is passed over. */
    method Decided(v: bytes) returns (crossTx: Option<CrossTransfer.CrossTransfer>)
      ensures crossTx.Some? ==> crossTx == CrossTransfer.Decode(v)
      ensures crossTx.Some? <==> Ready(env.distance, currentDepositHeight, v)
      ensures crossTx.Some? <==>
        var t, ref, distance := CrossTransfer.Decode(v), currentDepositHeight, env.distance;
        t.Some? && t.value.height < (if ref >= distance then ref - distance else ref - distance + TWO64)
    {
      hide CrossTransfer.DecodeAt;
      var refHeight := currentDepositHeight;
      crossTx := CrossTransfer.Deserialize(v);
      if crossTx == None {
        return None;
      }
      if Sub64(refHeight, env.distance) <= crossTx.value.height {
        return None;
      }
    }

    ghost method PassOver()
      requires Valid() && Running() && Up(world) && world.deposit.pc.DRound? && world.deposit.pc.rest != []
      modifies `world, `trace
      ensures Valid() && Running() && old(trace) <= trace
      ensures world == old(world).(deposit := old(world).deposit.(pc := DRound(old(world).deposit.pc.rest[1..])))
      ensures old(Clean()) ==> Clean()
    {
      hide Run, Along, Ready, HeadApply, CheckApply, OutsideApply, HeadEnabled, CheckEnabled, OutsideEnabled;
      Do(D(SkipEntry));
    }

    ghost method Submit(reply: Reply)
      requires Valid() && Running() && Up(world) && world.deposit.pc.DRound? && world.deposit.pc.rest != []
      requires Ready(env.distance, world.deposit.cursor, world.deposit.pc.rest[0])
      modifies `world, `trace
      ensures Valid() && Running() && old(trace) <= trace
      ensures world.head == old(world).head && world.check == old(world).check
      ensures
        var e, rest := old(world).deposit.pc.rest[0], old(world).deposit.pc.rest[1..];
        world.deposit == old(world).deposit.(pc :=
          match reply
          case Sent(hash) => DSent(e, hash, rest)
          case AlreadyDone => DDrop(e, None, rest)
          case Refused => DRound(rest))
      ensures world.poly.done == old(world).poly.done
      ensures world.history.proofs == old(world).history.proofs
        + [ProofOf(old(world).deposit.pc.rest[0], old(world).deposit.cursor, old(world).head.cur, old(world).poly.log)]
      ensures world.poly.txs == match reply
        case Sent(hash) => old(world).poly.txs[hash := PolyTx(old(world).deposit.pc.rest[0], Pending)]
        case _ => old(world).poly.txs
      ensures old(Clean() && ReplyTruthful(world.poly, world.deposit.pc.rest[0], reply)) ==> Clean()
    {
      hide Run, Along, Ready, ProofOf, HeadApply, CheckApply, OutsideApply;
      hide HeadEnabled, CheckEnabled, OutsideEnabled;
      Do(D(SubmitProof(reply)));
    }

    method RemoveEntry(v: bytes, fault: bool)
      requires Valid() && Running() && Up(world) && world.deposit.pc.DDrop? && world.deposit.pc.entry == v
      modifies db`retry, db`writes, `world, `trace
      ensures Valid() && Running() && old(trace) <= trace
      ensures world.deposit == old(world).deposit.(pc := DRound(old(world).deposit.pc.rest))
      ensures world.head == old(world).head && world.check == old(world).check
      ensures old(Clean()) ==> Clean()
      ensures world.history.proofs == old(world).history.proofs
      ensures world.poly == old(world).poly
      ensures db.retry == if fault then old(db.retry) else Delete(old(db.retry), v)
    {
      hide Run, Along, Delete, Ready, HeadApply, CheckApply, OutsideApply, HeadEnabled, CheckEnabled, OutsideEnabled;
      var deleted := db.DeleteRetry(v, fault);
      Do(D(DropRetry(deleted)));
    }

    method StoreHash(v: bytes, hash: bytes, fault: bool)
      requires Valid() && Running() && Up(world)
      requires world.deposit.pc.DSent? && world.deposit.pc.entry == v && world.deposit.pc.hash == hash
      modifies db`check, db`writes, `world, `trace
      ensures Valid() && Running() && old(trace) <= trace
      ensures world.deposit == old(world).deposit.(pc := DDrop(v, Some(hash), old(world).deposit.pc.rest))
      ensures world.head == old(world).head && world.check == old(world).check
      ensures world.history.proofs == old(world).history.proofs
      ensures world.poly == old(world).poly && (old(Clean()) && !fault ==> Clean())
      ensures db.check == if fault then old(db.check) else Put(old(db.check), hash, v)
    {
      hide Run, Along, Put, Ready, HeadApply, CheckApply, OutsideApply, HeadEnabled, CheckEnabled, OutsideEnabled;
      hide MappingKey.HexEncode, MappingKey.HexDecodeString;
      MappingKey.HexRoundTrip(hash);
      var stored := db.PutCheck(MappingKey.HexEncode(hash), v, fault);
      Do(D(StoreCheck(stored)));
    }

    method Move(v: bytes, hash: bytes, r: DepositReply)
      requires Valid() && Running() && Up(world)
      requires world.deposit.pc.DSent? && world.deposit.pc.entry == v && world.deposit.pc.hash == hash
      modifies db`retry, db`check, db`writes, `world, `trace
      ensures Valid() && Running() && old(trace) <= trace
      ensures world.deposit == old(world).deposit.(pc := DRound(old(world).deposit.pc.rest))
      ensures world.head == old(world).head && world.check == old(world).check
      ensures db.retry == if r.deleteFault then old(db.retry) else Delete(old(db.retry), v)
      ensures db.check == if r.putFault then old(db.check) else Put(old(db.check), hash, v)
      ensures world.history.proofs == old(world).history.proofs
      ensures world.poly == old(world).poly && (old(Clean()) && !r.putFault ==> Clean())
    {
      hide Run, Along, Put, Delete, Apply, Enabled;
      StoreHash(v, hash, r.putFault);
      RemoveEntry(v, r.deleteFault);
    }

    /**
      `checkLockEvents`, in whatever order the map is walked: what happens to each hash depends on its own reply only
      (`Checked`).
     */
    method CheckLockEvents(readFault: bool, replies: bytes -> CheckReply)
      requires Valid() && Running() && Idle()
      modifies db`retry, db`check, db`writes, `world, `trace
      ensures Valid() && Running() && Idle() && old(trace) <= trace
      ensures readFault ==> db.check == old(db.check) && db.retry == old(db.retry)
      ensures !readFault ==>
        var batch := Contents(Batch(old(db.check)));
        && Forgotten(Contents(old(db.check)), Contents(db.check), batch, map[], replies)
        && Returned(Contents(old(db.retry)), Contents(db.retry), batch, map[], replies)
      ensures !readFault ==> Checked(old(db.check), old(db.retry), db.check, db.retry, replies)
      ensures old(Clean() && ChecksTruthful(world.poly, Contents(Batch(db.check)), replies)) ==> Clean()
    {
      hide Run, Along, ChecksTruthful, Batch, Contents, HexMap, Apply, Enabled, SameWork, Checked, Forgotten, Returned;
      var checkMap := db.GetAllCheck(readFault);
      OpenCheck(readFault);
      if checkMap == None {
        return;
      }
      BatchSameWork(Batch(db.check));
      CheckMap(checkMap.value, replies);
      RoundChecks(old(db.check), old(db.retry), db.check, db.retry, replies);
      CloseCheck();
    }

    ghost method OpenCheck(readFault: bool)
      requires Valid() && Idle()
      modifies `world, `trace
      ensures Valid() && old(trace) <= trace
      ensures world == old(world).(check := if readFault then CIdle else CRound(Contents(Batch(db.check))))
      ensures old(Clean()) ==> Clean()
    {
      hide Run, Along, Batch, Contents;
      Do(C(ReadCheck(!readFault)));
    }

    ghost method CloseCheck()
      requires Valid() && Up(world) && world.check == CRound(map[])
      modifies `world, `trace
      ensures Valid() && old(trace) <= trace
      ensures world == old(world).(check := CIdle)
      ensures old(Clean()) ==> Clean()
    {
      hide Run, Along;
      Do(C(EndCheck));
    }

    /** The loop over the map. */
    method CheckMap(checkMap: map<bytes, bytes>, replies: bytes -> CheckReply)
      requires Valid() && Running() && Up(world) && world.check.CRound? && SameWork(checkMap, world.check.rest)
      modifies db`retry, db`check, db`writes, `world, `trace
      ensures Valid() && Running() && old(trace) <= trace
      ensures world.check == CRound(map[]) && world.head == old(world).head && world.deposit == old(world).deposit
      ensures Forgotten(Contents(old(db.check)), Contents(db.check), old(world).check.rest, map[], replies)
      ensures Returned(Contents(old(db.retry)), Contents(db.retry), old(world).check.rest, map[], replies)
      ensures old(Clean() && world.deposit.pc.DIdle? && ChecksTruthful(world.poly, world.check.rest, replies)) ==>
        Clean()
    {
      hide Run, Along, CheckTruthful, Put, Delete, Contents, MappingKey.HexEncode, Apply, Enabled;
      hide Forgotten, Returned;
      var remaining := checkMap;
      ghost var batch := world.check.rest;
      StartMap(Contents(db.check), Contents(db.retry), batch, replies);
      while remaining != map[]
        invariant Valid() && Running() && old(trace) <= trace
        invariant world.check.CRound? && SameWork(remaining, world.check.rest)
        invariant forall h :: h in world.check.rest ==> h in batch && world.check.rest[h] == batch[h]
        invariant world.head == old(world).head && world.deposit == old(world).deposit
        invariant Forgotten(Contents(old(db.check)), Contents(db.check), batch, world.check.rest, replies)
        invariant Returned(Contents(old(db.retry)), Contents(db.retry), batch, world.check.rest, replies)
        invariant world.poly == old(world).poly
        invariant old(Clean() && world.deposit.pc.DIdle? && ChecksTruthful(world.poly, world.check.rest, replies)) ==>
          Clean()
        decreases remaining.Keys
      {
        var txHash :| txHash in remaining;
        ghost var h :| h in world.check.rest && txHash == MappingKey.HexEncode(h);
        ghost var rest, check, retry := world.check.rest, Contents(db.check), Contents(db.retry);
        LessWork(remaining, rest, h);
        CheckOne(txHash, remaining[txHash], replies(txHash), h);
        ForgetOne(Contents(old(db.check)), check, batch, rest, replies, h, Contents(db.check));
        ReturnOne(Contents(old(db.retry)), retry, batch, rest, replies, h, Contents(db.retry));
        remaining := remaining - {txHash};
      }
      assert world.check.rest == map[];
    }

    method CheckOne(txHash: bytes, v: bytes, r: CheckReply, ghost h: bytes)
      requires Valid() && Running() && Up(world)
      requires world.check.CRound? && h in world.check.rest && world.check.rest[h] == v
      requires txHash == MappingKey.HexEncode(h)
      modifies db`retry, db`check, db`writes, `world, `trace
      ensures Valid() && Running() && old(trace) <= trace
      ensures world.check == CRound(old(world).check.rest - {h})
      ensures world.head == old(world).head && world.deposit == old(world).deposit
      ensures r.state.Some? && r.state.value != 1 && !r.putFault ==> db.retry == Put(old(db.retry), v, EMPTY_VALUE)
      ensures r.state.None? || r.state.value == 1 || r.putFault ==> db.retry == old(db.retry)
      ensures r.state.Some? && !r.deleteFault ==> db.check == Delete(old(db.check), h)
      ensures r.state.None? || r.deleteFault ==> db.check == old(db.check)
      ensures world.poly == old(world).poly
      ensures old(Clean() && world.deposit.pc.DIdle?) && CheckTruthful(old(world).poly, h, r) ==> Clean()
    {
      hide Run, Along, Put, Delete, MappingKey.HexEncode, Apply, Enabled;
      if r.state == None {
        Leave(h);
        return;
      }
      if r.state.value != 1 {
        TakeBack(v, r.putFault, h);
      } else {
        Succeeded(h);
      }
      Forget(txHash, r.deleteFault);
    }

    ghost method Leave(h: bytes)
      requires Valid() && Running() && Up(world) && world.check.CRound? && h in world.check.rest
      modifies `world, `trace
      ensures Valid() && Running() && old(trace) <= trace
      ensures world == old(world).(check := CRound(old(world).check.rest - {h}))
      ensures old(Clean()) ==> Clean()
    {
      hide Run, Along, HeadApply, DepositApply, OutsideApply, HeadEnabled, DepositEnabled, OutsideEnabled;
      Do(C(NoEvent(h)));
    }

    ghost method Succeeded(h: bytes)
      requires Valid() && Running() && Up(world) && world.check.CRound? && h in world.check.rest
      modifies `world, `trace
      ensures Valid() && Running() && old(trace) <= trace
      ensures world == old(world).(check := CDrop(h, old(world).check.rest[h], false, old(world).check.rest - {h}))
      ensures old(Clean()) && Issued(world.poly, h, Status.Succeeded) ==> Clean()
    {
      hide Run, Along, HeadApply, DepositApply, OutsideApply, HeadEnabled, DepositEnabled, OutsideEnabled;
      Do(C(SeeSuccess(h)));
    }

    method TakeBack(v: bytes, fault: bool, ghost h: bytes)
      requires Valid() && Running() && Up(world)
      requires world.check.CRound? && h in world.check.rest && world.check.rest[h] == v
      modifies db`retry, db`writes, `world, `trace
      ensures Valid() && Running() && old(trace) <= trace
      ensures world.check == CDrop(h, v, true, old(world).check.rest - {h})
      ensures world.head == old(world).head && world.deposit == old(world).deposit
      ensures db.retry == if fault then old(db.retry) else Put(old(db.retry), v, EMPTY_VALUE)
      ensures world.poly == old(world).poly
      ensures old(Clean() && world.deposit.pc.DIdle?) && !fault && Issued(world.poly, h, Failed) ==> Clean()
    {
      hide Run, Along, Put, HeadApply, DepositApply, OutsideApply, HeadEnabled, DepositEnabled, OutsideEnabled;
      Do(C(SeeFailure(h)));
      var stored := db.PutRetry(v, fault);
      Do(C(PutBack(stored)));
    }

    method Forget(txHash: bytes, fault: bool)
      requires Valid() && Running() && Up(world)
      requires world.check.CDrop? && txHash == MappingKey.HexEncode(world.check.hash)
      modifies db`check, db`writes, `world, `trace
      ensures Valid() && Running() && old(trace) <= trace
      ensures world.check == CRound(old(world).check.rest)
      ensures world.head == old(world).head && world.deposit == old(world).deposit
      ensures db.check == if fault then old(db.check) else Delete(old(db.check), old(world).check.hash)
      ensures world.poly == old(world).poly
      ensures old(Clean()) ==> Clean()
    {
      hide Run, Along, Delete, MappingKey.HexEncode, MappingKey.HexDecodeString;
      hide HeadApply, DepositApply, OutsideApply, HeadEnabled, DepositEnabled, OutsideEnabled;
      MappingKey.HexRoundTrip(world.check.hash);
      var deleted := db.DeleteCheck(txHash, fault);
      Do(C(DropCheck(deleted)));
    }

    /** The world between the two reads of `init`, and at the second one. */
    ghost function Reading(epochHeight: nat): State
      reads this
    {
      world.(head := world.head.(pc := Booting(epochHeight)))
    }

    /**
      `init`: reads the epoch's height, then its validators, from Poly, and starts at the saved height, or at the
      epoch if none is saved, or at a lower forced height. None stands for a failed read; `meanwhile` is what Poly did
      between the two reads, so that the validators may be those of a later epoch.
     */
    method Init(epochHeight: uint64, validators: Option<seq<Address>>, force: uint64, ghost meanwhile: seq<Step>)
      returns (ok: bool)
      requires Valid() && world.head.pc.Down? && world.deposit.pc.DIdle? && world.check.CIdle? && world.poly.log != []
      requires curHeader == None && world.head.hdr == None
      requires epochHeight > 0 ==> epochHeight == Tip(world.poly).height
      requires forall i :: 0 <= i < |meanwhile| ==> OfPoly(meanwhile[i])
      requires Run(env, Reading(epochHeight), meanwhile).Some?
      requires
        var later := Run(env, Reading(epochHeight), meanwhile).value;
        validators.Some? ==> later.poly.log != [] && multiset(validators.value) == Tip(later.poly).valset
      modifies `lastEpoch, `currentSyncHeaderHeight, `currentDepositHeight, `world, `trace
      ensures Valid() && old(trace) <= trace
      ensures ok <==> epochHeight > 0 && validators.Some?
      ensures ok ==> Running() && Idle()
      ensures ok ==> currentSyncHeaderHeight == StartHeight(db.SavedPalette(), epochHeight, force)
      ensures ok ==> currentDepositHeight == currentSyncHeaderHeight
      ensures ok && 0 < force && force < (if db.SavedPalette() > 0 then db.SavedPalette() else epochHeight) ==>
        currentSyncHeaderHeight == force
      ensures ok && !(0 < force && force < (if db.SavedPalette() > 0 then db.SavedPalette() else epochHeight)) ==>
        currentSyncHeaderHeight == if db.SavedPalette() > 0 then db.SavedPalette() else epochHeight
      ensures ok ==> lastEpoch.height == epochHeight && lastEpoch.valset[..] == validators.value
      ensures !ok ==> world.head.pc.Down?
      ensures old(Clean() && Along(env, Reading(epochHeight), meanwhile, Honest)) ==> Clean()
    {
      hide Run, Along, Apply, Enabled;
      if epochHeight == 0 {
        return false;
      }
      ghost var _ := Boot(epochHeight, validators.Some?, force, meanwhile);
      if validators == None {
        return false;
      }
      var vals := validators.value;
      var valset := new Address[|vals|](i requires 0 <= i < |vals| => vals[i]);
      assert valset[..] == vals;
      lastEpoch := PltEpoch(epochHeight, valset, []);
      var curHeight := db.GetPaletteHeight();
      if curHeight == 0 {
        curHeight := epochHeight;
      }
      if force > 0 && force < curHeight {
        curHeight := force;
      }
      currentSyncHeaderHeight := curHeight;
      currentDepositHeight := curHeight;
      return true;
    }

    /** The two reads of Poly's storage. */
    ghost method Boot(epochHeight: uint64, validatorsRead: bool, force: nat, meanwhile: seq<Step>) returns (ok: bool)
      requires Valid() && world.head.pc.Down? && world.poly.log != []
      requires epochHeight == Tip(world.poly).height > 0
      requires forall i :: 0 <= i < |meanwhile| ==> OfPoly(meanwhile[i])
      requires Run(env, Reading(epochHeight), meanwhile).Some?
      requires validatorsRead ==> Run(env, Reading(epochHeight), meanwhile).value.poly.log != []
      modifies `world, `trace
      ensures Valid() && old(trace) <= trace && ok == validatorsRead
      ensures old(Clean() && Along(env, Reading(epochHeight), meanwhile, Honest)) ==> Clean()
      ensures
        var later := Run(env, old(Reading(epochHeight)), meanwhile).value;
        && (!ok ==> world == old(world).(poly := later.poly))
        && (ok ==>
            var start := StartHeight(world.disk.saved, epochHeight, force);
            world == old(world).(poly := later.poly,
              head := Head(HIdle, start, Epoch(epochHeight, Tip(later.poly).valset), None),
              deposit := Deposit(DIdle, start)))
    {
      hide Run, Along, Apply, Enabled, Honest;
      ReadHeight(epochHeight);
      ElapseAll(meanwhile);
      if validatorsRead {
        Settle(force);
      } else {
        GiveUp();
      }
      ok := validatorsRead;
    }

    ghost method Settle(force: nat)
      requires Valid() && world.head.pc.Booting? && world.poly.log != []
      modifies `world, `trace
      ensures Valid() && old(trace) <= trace && (old(Clean()) ==> Clean())
      ensures
        var start := StartHeight(world.disk.saved, old(world).head.pc.epoch, force);
        world == old(world).(
          head := Head(HIdle, start, Epoch(old(world).head.pc.epoch, Tip(old(world).poly).valset), None),
          deposit := Deposit(DIdle, start))
    {
      hide Run, Along, HeadApply, DepositApply, CheckApply, HeadEnabled, DepositEnabled, CheckEnabled;
      Do(O(BootValset(force)));
    }

    ghost method GiveUp()
      requires Valid() && world.head.pc.Booting?
      modifies `world, `trace
      ensures Valid() && old(trace) <= trace && (old(Clean()) ==> Clean())
      ensures world == old(world).(head := old(world).head.(pc := Down))
    {
      hide Run, Along, HeadApply, DepositApply, CheckApply, HeadEnabled, DepositEnabled, CheckEnabled;
      Do(O(BootFails));
    }

    ghost method ReadHeight(epochHeight: nat)
      requires Valid() && world.head.pc.Down? && world.poly.log != [] && epochHeight == Tip(world.poly).height > 0
      modifies `world, `trace
      ensures Valid() && old(trace) <= trace && (old(Clean()) ==> Clean())
      ensures world == old(Reading(epochHeight))
    {
      hide Run, Along, HeadApply, DepositApply, CheckApply, HeadEnabled, DepositEnabled, CheckEnabled;
      Do(O(BootHeight));
    }
  }
}
