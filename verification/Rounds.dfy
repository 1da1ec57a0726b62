/** Deposit rounds in sequence: which entries each round reads, how Retry drains, and what keeps it from draining. */
module Rounds {
  import opened Prelude
  import opened BoltDb
  import opened PaletteManager
  import CrossTransfer
  import Order
  import Pipeline
  import Conservation
  import MappingKey
  import ZeroCopy

  /** A round of the deposit loop over Retry, or of the checker over Check. */
  datatype Round = DepositRound(ref: nat, replies: nat -> DepositReply) | CheckRound(answers: bytes -> CheckReply)

  /** Whether an entry at `place` leaves its bucket in a round. */
  predicate Goes(distance: uint64, r: Round, key: bytes, place: nat) {
    match r
    case DepositRound(ref, replies) => Leaves(distance, ref, key, replies(place))
    case CheckRound(answers) => Forgets(answers(MappingKey.HexEncode(key)))
  }

  /** The bucket without those of its first `n` entries that leave. */
  function Cut(b: Bucket, distance: uint64, r: Round, n: nat): Bucket
    requires n <= |b|
  {
    if n == 0 then b else
    var before := Cut(b, distance, r, n - 1);
    if Goes(distance, r, b[n - 1].key, n - 1) then Delete(before, b[n - 1].key) else before
  }

  /** The bucket after one round without read fault. */
  function AfterOne(b: Bucket, distance: uint64, r: Round): Bucket {
    Cut(b, distance, r, |Batch(b)|)
  }

  function AfterAll(b: Bucket, distance: uint64, rounds: seq<Round>): Bucket {
    if rounds == [] then b
    else AfterOne(AfterAll(b, distance, rounds[..|rounds| - 1]), distance, rounds[|rounds| - 1])
  }

  lemma {:induction false} CutIsRound(b: Bucket, distance: uint64, ref: nat, replies: nat -> DepositReply, n: nat)
    requires n <= |Batch(b)|
    ensures Cut(b, distance, DepositRound(ref, replies), n)
      == AfterRound(b, KeyList(Batch(b)), distance, ref, replies, n)
  {
    hide Leaves;
    if n > 0 {
      CutIsRound(b, distance, ref, replies, n - 1);
      assert KeyList(Batch(b))[n - 1] == b[n - 1].key;
    }
  }

  /** A deposit round leaves in Retry what `HandleDepositEvents` leaves. */
  lemma DepositRoundIs(b: Bucket, distance: uint64, ref: nat, replies: nat -> DepositReply)
    ensures AfterOne(b, distance, DepositRound(ref, replies))
      == AfterRound(b, KeyList(Batch(b)), distance, ref, replies, |Batch(b)|)
  {
    CutIsRound(b, distance, ref, replies, |Batch(b)|);
  }

  /** How many of the first `n` entries of `b` are not in `c` any more. */
  ghost function Gone(b: seq<Entry>, c: seq<Entry>, n: nat): (r: nat)
    requires n <= |b|
    ensures r <= n
  {
    if n == 0 then 0 else Gone(b, c, n - 1) + (if b[n - 1] in c then 0 else 1)
  }

  ghost predicate Within(c: seq<Entry>, b: seq<Entry>) {
    forall x :: x in c ==> x in b
  }

  lemma OrderedAt(b: Bucket, i: nat, j: nat)
    requires i < |b| && j < |b|
    ensures i < j ==> Order.Less(b[i].key, b[j].key)
    ensures b[i].key == b[j].key ==> i == j
    ensures Order.Less(b[i].key, b[j].key) ==> i < j
  {
    hide Order.Less;
    Order.LessIrreflexive(b[i].key);
    if j < i && Order.Less(b[i].key, b[j].key) {
      Order.LessTransitive(b[i].key, b[j].key, b[i].key);
    }
  }

  /** The entries of `c` among the first `n` of `b` are the first ones of `c`. */
  lemma {:induction false} FirstOnes(b: Bucket, c: Bucket, n: nat)
    requires Within(c, b) && n <= |b|
    ensures n - Gone(b, c, n) <= |c|
    ensures forall x :: x in c[..n - Gone(b, c, n)] <==> x in c && x in b[..n]
  {
    hide Order.Less, Ordered;
    if n > 0 {
      FirstOnes(b, c, n - 1);
      var p := n - 1 - Gone(b, c, n - 1);
      assert b[..n] == b[..n - 1] + [b[n - 1]];
      if b[n - 1] in c {
        NextOne(b, c, n - 1, p);
        assert c[..p + 1] == c[..p] + [c[p]];
      }
    }
  }

  /** No entry of a bucket occurs twice. */
  lemma NotBefore(b: Bucket, i: nat)
    requires i < |b|
    ensures b[i] !in b[..i]
  {
    hide Order.Less, Ordered;
    forall k | 0 <= k < i ensures b[..i][k] != b[i] {
      OrderedAt(b, k, i);
    }
  }

  lemma InPrefix(s: seq<Entry>, q: nat, p: nat)
    requires p <= |s|
    ensures q < p ==> s[q] in s[..p]
  {
    assert q < p ==> s[..p][q] == s[q];
  }

  lemma {:induction false} NextOne(b: Bucket, c: Bucket, n: nat, p: nat)
    requires Within(c, b) && n < |b| && p <= |c| && b[n] in c
    requires forall x :: x in c[..p] <==> x in c && x in b[..n]
    ensures p < |c| && c[p] == b[n]
  {
    hide Order.Less, Ordered;
    NotBefore(b, n);
    assert b[n] !in c[..p];
    var q :| 0 <= q < |c| && c[q] == b[n];
    InPrefix(c, q, p);
    NotBefore(c, p);
    assert c[p] in c && c[p] !in b[..n];
    var j :| 0 <= j < |b| && b[j] == c[p];
    InPrefix(b, j, n);
    OrderedAt(b, n, j);
    OrderedAt(c, p, q);
    OrderedAt(c, q, p);
  }

  /** An entry of `b` that is still there stands in front by as many places as entries before it are gone. */
  lemma Place(b: Bucket, c: Bucket, i: nat)
    requires Within(c, b) && i < |b| && b[i] in c
    ensures i - Gone(b, c, i) < |c| && c[i - Gone(b, c, i)] == b[i]
  {
    hide Ordered;
    FirstOnes(b, c, i);
    NextOne(b, c, i, i - Gone(b, c, i));
  }

  lemma {:induction false} RoundEntries(b: Bucket, distance: uint64, r: Round, n: nat, p: nat)
    requires n <= |b| && p < |b|
    ensures
      var after := Cut(b, distance, r, n);
      Within(after, b) && (b[p] in after <==> !(p < n && Goes(distance, r, b[p].key, p)))
  {
    hide Goes, Order.Less, Ordered;
    if n > 0 {
      RoundEntries(b, distance, r, n - 1, p);
      RoundEntries(b, distance, r, n - 1, n - 1);
      Deleted(Cut(b, distance, r, n - 1), b[n - 1].key);
      OrderedAt(b, n - 1, p);
    }
  }

  lemma BatchIs(b: Bucket)
    ensures Batch(b) == b[..Min(|b|, MAX_NUM)]
  {
  }

  /** A deletion takes exactly the entry with that key. */
  lemma {:induction false} Deleted(b: Bucket, k: bytes)
    ensures forall x :: x in Delete(b, k) <==> x in b && x.key != k
  {
    if b != [] {
      HeadBelow(b);
      Deleted(b[1..], k);
      assert b == [b[0]] + b[1..];
      assert DeleteEntry(b[1..], k) == Delete(b[1..], k);
      if k == b[0].key {
        Order.LessIrreflexive(k);
      }
    }
  }

  lemma {:induction false} StillWithin(b: Bucket, distance: uint64, rounds: seq<Round>)
    ensures Within(AfterAll(b, distance, rounds), b)
  {
    hide Cut, Batch, Ordered;
    if rounds != [] {
      var before := AfterAll(b, distance, rounds[..|rounds| - 1]);
      StillWithin(b, distance, rounds[..|rounds| - 1]);
      if before != [] {
        RoundEntries(before, distance, rounds[|rounds| - 1], |Batch(before)|, 0);
      } else {
        EmptyRound(distance, rounds[|rounds| - 1]);
      }
    }
  }

  lemma EmptyRound(distance: uint64, r: Round)
    ensures AfterOne([], distance, r) == []
  {
  }

  /**
    Any sequence of rounds over Retry or Check, with any replies and nothing new arriving: an entry that is still in
    the bucket is read in the next round exactly if fewer than 1000 of the entries before it remain, that is, if its
    position less the number of entries before it that have left is below 1000. It then leaves exactly if the round's
    reply lets it.
   */
  lemma ReadExact(b: Bucket, distance: uint64, rounds: seq<Round>, next: Round, i: nat)
    requires i < |b| && b[i] in AfterAll(b, distance, rounds)
    ensures
      var c := AfterAll(b, distance, rounds);
      var place := i - Gone(b, c, i);
      && (b[i] in Batch(c) <==> place < MAX_NUM)
      && (b[i] in AfterAll(b, distance, rounds + [next]) <==>
          !(place < MAX_NUM && Goes(distance, next, b[i].key, place)))
  {
    hide Cut, Goes, Batch, Ordered;
    var c := AfterAll(b, distance, rounds);
    StillWithin(b, distance, rounds);
    Place(b, c, i);
    var p := i - Gone(b, c, i);
    BatchIs(c);
    RoundEntries(c, distance, next, |Batch(c)|, p);
    assert (rounds + [next])[..|rounds|] == rounds;
    if b[i] in Batch(c) {
      var q :| 0 <= q < |Batch(c)| && Batch(c)[q] == b[i];
      OrderedAt(c, q, p);
    }
  }

  /**
    The same on the reply's own fields: an entry read from Retry is gone after the round exactly if it is ready, its
    proof was fetched, Poly took it or has done it, and the delete succeeds; a hash read from Check exactly if Poly has
    an event for it, succeeded or failed, and the delete succeeds.
   */
  lemma ReadLeaves(b: Bucket, distance: uint64, rounds: seq<Round>, next: Round, i: nat)
    requires i < |b| && b[i] in AfterAll(b, distance, rounds)
    requires i - Gone(b, AfterAll(b, distance, rounds), i) < 1000
    ensures next.CheckRound? ==>
      var r := next.answers(MappingKey.HexEncode(b[i].key));
      b[i] in AfterAll(b, distance, rounds + [next]) <==> r.state.None? || r.deleteFault
    ensures next.DepositRound? ==>
      var r := next.replies(i - Gone(b, AfterAll(b, distance, rounds), i));
      var taken := Pipeline.Ready(distance, next.ref, b[i].key) && r.proofOk && (r.reply.Sent? || r.reply.AlreadyDone?);
      b[i] in AfterAll(b, distance, rounds + [next]) <==> !taken || r.deleteFault
  {
    hide AfterAll, Gone, Pipeline.Ready, MappingKey.HexEncode, Batch;
    ReadExact(b, distance, rounds, next, i);
  }

  lemma {:induction false} NoLonger(c: Bucket, n: nat)
    requires n <= |c| && forall x :: x in c ==> x in c[..n]
    ensures n == |c|
  {
    hide Ordered;
    if n < |c| {
      NotBefore(c, n);
    }
  }

  /** Two buckets with the same entries are the same. */
  lemma {:induction false} SameEntries(b: Bucket, c: Bucket, m: nat)
    requires m <= |b| && Within(c, b)
    requires forall i :: 0 <= i < |b| ==> (b[i] in c <==> i >= m)
    ensures c == b[m..]
  {
    hide Ordered;
    AllGone(b, c, m, m);
    forall i | m <= i < |b| ensures i - m < |c| && c[i - m] == b[i] {
      Place(b, c, i);
      AllGone(b, c, m, i);
    }
    AllGone(b, c, m, |b|);
    FirstOnes(b, c, |b|);
    assert b[..|b|] == b;
    forall x | x in c ensures x in c[..|b| - m] {
      assert x in b[..|b|];
    }
    NoLonger(c, |b| - m);
  }

  lemma {:induction false} GoneSame(b: Bucket, c: Bucket, d: Bucket, n: nat)
    requires n <= |b| && forall i :: 0 <= i < |b| ==> (b[i] in c <==> b[i] in d)
    ensures Gone(b, c, n) == Gone(b, d, n)
  {
    hide Ordered;
    if n > 0 {
      GoneSame(b, c, d, n - 1);
    }
  }

  lemma Length(b: Bucket, c: Bucket)
    requires Within(c, b)
    ensures |c| == |b| - Gone(b, c, |b|)
  {
    hide Ordered;
    FirstOnes(b, c, |b|);
    assert b[..|b|] == b;
    forall x | x in c ensures x in c[..|b| - Gone(b, c, |b|)] {
      assert x in b[..|b|];
    }
    NoLonger(c, |b| - Gone(b, c, |b|));
  }

  /** What is left of a bucket is determined by which entries are left. */
  lemma {:induction false} SameRest(b: Bucket, c: Bucket, d: Bucket)
    requires Within(c, b) && Within(d, b) && forall i :: 0 <= i < |b| ==> (b[i] in c <==> b[i] in d)
    ensures c == d
  {
    hide Ordered;
    Length(b, c);
    Length(b, d);
    GoneSame(b, c, d, |b|);
    forall q | 0 <= q < |c| ensures c[q] == d[q] {
      assert c[q] in b;
      var i :| 0 <= i < |b| && b[i] == c[q];
      Place(b, c, i);
      Place(b, d, i);
      GoneSame(b, c, d, i);
      OrderedAt(c, q, i - Gone(b, c, i));
    }
  }

  lemma EntryIn(b: Bucket, e: Entry)
    ensures e in b <==> e.key in Contents(b) && Contents(b)[e.key] == e.value
  {
    hide Order.Less, Ordered, Contents;
    ContentsKeys(b);
    if e.key in Contents(b) {
      var f :| f in b && f.key == e.key;
      var i :| 0 <= i < |b| && b[i] == f;
      ContentsAt(b, i);
      if e in b {
        var j :| 0 <= j < |b| && b[j] == e;
        OrderedAt(b, i, j);
      } else {
        assert f != Entry(e.key, e.value);
      }
    }
  }

  lemma BatchKey(b: Bucket, i: nat)
    requires i < |b|
    ensures b[i].key in Contents(Batch(b)) <==> i < |Batch(b)|
  {
    hide Order.Less, Ordered, Contents;
    ContentsKeys(Batch(b));
    if i < |Batch(b)| {
      assert Batch(b)[i] == b[i];
    } else if b[i].key in Contents(Batch(b)) {
      var e :| e in Batch(b) && e.key == b[i].key;
      var k :| 0 <= k < |Batch(b)| && Batch(b)[k] == e;
      OrderedAt(b, k, i);
    }
  }

  /** A check round leaves in Check what `CheckLockEvents` leaves. */
  lemma CheckRoundIs(b: Bucket, c: Bucket, distance: uint64, answers: bytes -> CheckReply)
    requires Forgotten(Contents(b), Contents(c), Contents(Batch(b)), map[], answers)
    ensures c == AfterOne(b, distance, CheckRound(answers))
  {
    hide Order.Less, Ordered, Contents, Cut, Batch;
    var d := AfterOne(b, distance, CheckRound(answers));
    if b == [] {
      NothingLeft(c);
      EmptyRound(distance, CheckRound(answers));
    } else {
      forall i | 0 <= i < |b| ensures b[i] in c <==> b[i] in d {
        EntryIn(b, b[i]);
        EntryIn(c, b[i]);
        BatchKey(b, i);
        RoundEntries(b, distance, CheckRound(answers), |Batch(b)|, i);
      }
      forall x | x in c ensures x in b {
        EntryIn(b, x);
        EntryIn(c, x);
      }
      RoundEntries(b, distance, CheckRound(answers), |Batch(b)|, 0);
      SameRest(b, c, d);
    }
  }

  lemma NothingLeft(c: Bucket)
    requires Contents(c).Keys <= Contents([]).Keys
    ensures c == []
  {
    ContentsKeys(c);
    assert forall x :: x in c ==> x.key in Contents(c).Keys;
  }

  lemma {:induction false} AllGone(b: Bucket, c: Bucket, m: nat, n: nat)
    requires m <= |b| && n <= |b| && forall i :: 0 <= i < |b| ==> (b[i] in c <==> i >= m)
    ensures Gone(b, c, n) == Min(n, m)
  {
    hide Ordered;
    if n > 0 {
      AllGone(b, c, m, n - 1);
    }
  }

  /** Entry 1000k + p leaves when round `k` finds it at place `p`. */
  ghost predicate GoesAt(b: Bucket, distance: uint64, r: Round, k: nat, p: nat) {
    MAX_NUM * k + p < |b| ==> Goes(distance, r, b[MAX_NUM * k + p].key, p)
  }

  /** Round k finds the entries from 1000k on in front, and its replies let the first 1000 of them leave. */
  ghost predicate Smooth(b: Bucket, distance: uint64, rounds: seq<Round>) {
    forall k, p :: 0 <= k < |rounds| && 0 <= p < MAX_NUM ==> GoesAt(b, distance, rounds[k], k, p)
  }

  /**
    Batches drain: with every submission succeeding and nothing new arriving, k rounds take exactly the first 1000k
    entries, so that n entries are gone after ceil(n / 1000) rounds and not before.
   */
  lemma {:induction false} Drain(b: Bucket, distance: uint64, rounds: seq<Round>)
    requires Smooth(b, distance, rounds)
    ensures AfterAll(b, distance, rounds) == b[Min(|b|, MAX_NUM * |rounds|)..]
    ensures AfterAll(b, distance, rounds) == [] <==> |rounds| >= (|b| + MAX_NUM - 1) / MAX_NUM
    decreases rounds
  {
    hide Goes, Ordered, Cut, Batch;
    if rounds != [] {
      var n := |rounds| - 1;
      Drain(b, distance, rounds[..n]);
      assert forall p :: 0 <= p < MAX_NUM ==> GoesAt(b, distance, rounds[n], n, p);
      DrainOne(b, distance, rounds[..n], rounds[n]);
      assert rounds[..n] + [rounds[n]] == rounds;
    }
  }

  /** A check round in which Poly has an event for every hash, succeeded or failed, and no delete fails. */
  ghost predicate AllAnswered(r: Round) {
    r.CheckRound? && forall h :: r.answers(h).state.Some? && !r.answers(h).deleteFault
  }

  /** k such rounds take exactly the first 1000k hashes out of Check. */
  lemma {:induction false} ChecksDrain(b: Bucket, distance: uint64, rounds: seq<Round>)
    requires forall k :: 0 <= k < |rounds| ==> AllAnswered(rounds[k])
    ensures AfterAll(b, distance, rounds) == b[Min(|b|, 1000 * |rounds|)..]
    ensures AfterAll(b, distance, rounds) == [] <==> |rounds| >= (|b| + 999) / 1000
  {
    hide AfterAll, Batch, MappingKey.HexEncode;
    Drain(b, distance, rounds);
  }

  lemma {:induction false} DrainOne(b: Bucket, distance: uint64, rounds: seq<Round>, next: Round)
    requires forall p :: 0 <= p < MAX_NUM ==> GoesAt(b, distance, next, |rounds|, p)
    requires AfterAll(b, distance, rounds) == b[Min(|b|, MAX_NUM * |rounds|)..]
    ensures AfterAll(b, distance, rounds + [next]) == b[Min(|b|, MAX_NUM * (|rounds| + 1))..]
  {
    hide Goes, Ordered, Cut, Batch, AfterAll;
    var m, m' := Min(|b|, MAX_NUM * |rounds|), Min(|b|, MAX_NUM * (|rounds| + 1));
    var c, c' := AfterAll(b, distance, rounds), AfterAll(b, distance, rounds + [next]);
    StillWithin(b, distance, rounds + [next]);
    forall i | 0 <= i < |b| ensures b[i] in c <==> i >= m {
      SuffixHolds(b, m, i);
    }
    forall i | 0 <= i < |b| ensures b[i] in c' <==> i >= m' {
      if i >= m {
        AllGone(b, c, m, i);
        ReadExact(b, distance, rounds, next, i);
        if i < m' {
          assert GoesAt(b, distance, next, |rounds|, i - m);
        }
      } else if b[i] in c' {
        NeverBack(b, distance, rounds, next, b[i]);
      }
    }
    SameEntries(b, c', m');
  }

  lemma SuffixHolds(b: Bucket, m: nat, i: nat)
    requires m <= |b| && i < |b|
    ensures b[i] in b[m..] <==> i >= m
  {
    hide Ordered;
    if b[i] in b[m..] {
      var k :| 0 <= k < |b| - m && b[m..][k] == b[i];
      OrderedAt(b, k + m, i);
    }
  }

  /** What has left does not come back. */
  lemma NeverBack(b: Bucket, distance: uint64, rounds: seq<Round>, next: Round, x: Entry)
    requires x in AfterAll(b, distance, rounds + [next])
    ensures x in AfterAll(b, distance, rounds)
  {
    hide Cut, Batch, Ordered;
    assert (rounds + [next])[..|rounds|] == rounds;
    var c := AfterAll(b, distance, rounds);
    if c == [] {
      EmptyRound(distance, next);
    } else {
      RoundEntries(c, distance, next, |Batch(c)|, 0);
    }
  }

  /** The replies at the first 1000 places let nothing leave. */
  ghost predicate Refusing(b: Bucket, distance: uint64, rounds: seq<Round>) {
    forall k, i :: 0 <= k < |rounds| && 0 <= i < Min(|b|, MAX_NUM) ==>
      !Goes(distance, rounds[k], b[i].key, i)
  }

  /**
    Head-of-line blocking: while the first 1000 entries are refused, no entry behind them is ever read, whatever the
    replies for it would be.
   */
  lemma {:induction false} HeadOfLine(b: Bucket, distance: uint64, rounds: seq<Round>)
    requires Refusing(b, distance, rounds)
    ensures AfterAll(b, distance, rounds) == b
    ensures forall i :: MAX_NUM <= i < |b| ==> b[i] !in Batch(AfterAll(b, distance, rounds))
    decreases rounds
  {
    hide Goes, Ordered, Cut, Batch;
    var n := |rounds| - 1;
    if rounds != [] {
      HeadOfLine(b, distance, rounds[..n]);
      var c := AfterAll(b, distance, rounds);
      assert rounds[..n] + [rounds[n]] == rounds;
      StillWithin(b, distance, rounds);
      forall i | 0 <= i < |b| ensures b[i] in c <==> i >= 0 {
        AllGone(b, b, 0, i);
        ReadExact(b, distance, rounds[..n], rounds[n], i);
      }
      SameEntries(b, c, 0);
    }
    forall i | MAX_NUM <= i < |b| ensures b[i] !in Batch(b) {
      AllGone(b, b, 0, i);
      ReadExact(b, distance, [], CheckRound(_ => CheckReply(None, false, false)), i);
    }
  }

  /** A transfer of block 1 with the index `n`. */
  function Transfer(n: nat): CrossTransfer.CrossTransfer
    requires n < 0x1_0000
  {
    CrossTransfer.CrossTransfer([n / 256, n % 256], [], [], 0, 1)
  }

  ghost function TransferKey(n: nat): bytes
    requires n < 0x1_0000
  {
    CrossTransfer.Encode(Transfer(n))
  }

  lemma {:induction false} LessBehind(head: bytes, a: bytes, b: bytes)
    ensures Order.Less(head + a, head + b) <==> Order.Less(a, b)
  {
    if head == [] {
      assert head + a == a && head + b == b;
    } else {
      LessBehind(head[1..], a, b);
      assert (head + a)[1..] == head[1..] + a && (head + b)[1..] == head[1..] + b;
    }
  }

  lemma TransferOrder(i: nat, j: nat)
    requires i < j < 0x1_0000
    ensures Order.Less(TransferKey(i), TransferKey(j))
  {
    hide ZeroCopy.LittleEndian, Order.Less;
    ghost var tail := ZeroCopy.VarBytes([]) + (ZeroCopy.VarBytes([])
      + (ZeroCopy.LittleEndian(0, 4) + ZeroCopy.LittleEndian(1, 8)));
    TransferBytes(i);
    TransferBytes(j);
    LessBehind([2], [i / 256, i % 256] + tail, [j / 256, j % 256] + tail);
    IndexOrder(i, j, tail);
  }

  lemma TransferBytes(n: nat)
    requires n < 0x1_0000
    ensures
      var tail := ZeroCopy.VarBytes([]) + (ZeroCopy.VarBytes([])
        + (ZeroCopy.LittleEndian(0, 4) + ZeroCopy.LittleEndian(1, 8)));
      TransferKey(n) == [2] + ([n / 256, n % 256] + tail)
  {
    hide ZeroCopy.LittleEndian;
    assert ZeroCopy.VarBytes([n / 256, n % 256]) == [2] + [n / 256, n % 256];
  }

  lemma IndexOrder(i: nat, j: nat, tail: bytes)
    requires i < j < 0x1_0000
    ensures Order.Less([i / 256, i % 256] + tail, [j / 256, j % 256] + tail)
  {
    if i / 256 == j / 256 {
      LessBehind([i / 256], [i % 256] + tail, [j % 256] + tail);
      assert [i / 256] + ([i % 256] + tail) == [i / 256, i % 256] + tail;
      assert [i / 256] + ([j % 256] + tail) == [j / 256, j % 256] + tail;
    }
  }

  lemma TransferReady(n: nat)
    requires n < 0x1_0000
    ensures Pipeline.Ready(6, 100, TransferKey(n))
  {
    hide ZeroCopy.LittleEndian, ZeroCopy.VarBytes, CrossTransfer.Encode, CrossTransfer.DecodeAt;
    CrossTransfer.RoundTrip(Transfer(n), []);
    assert CrossTransfer.Encode(Transfer(n)) + [] == CrossTransfer.Encode(Transfer(n));
  }

  /** 1001 transfers, one more than a round reads. */
  ghost function Crowd(): (b: Bucket)
    ensures |b| == MAX_NUM + 1 && forall n :: 0 <= n < |b| ==> b[n].key == TransferKey(n)
  {
    hide TransferKey, Order.Less;
    var b := seq(MAX_NUM + 1, n requires 0 <= n < MAX_NUM + 1 => Entry(TransferKey(n), EMPTY_VALUE));
    assert Ordered(b) by {
      forall i, j | 0 <= i < j < |b| ensures Order.Less(b[i].key, b[j].key) { TransferOrder(i, j); }
    }
    b
  }

  /** Poly refuses whatever stands in the first 1000 places and would take anything else. */
  function Refuses(hash: bytes): Round {
    DepositRound(100, (p: nat) =>
      DepositReply(true, if p < MAX_NUM then Pipeline.Refused else Pipeline.Sent(hash), false, false))
  }

  lemma {:induction false} CrowdRefused(rounds: seq<Round>, hash: bytes)
    requires forall k :: 0 <= k < |rounds| ==> rounds[k] == Refuses(hash)
    ensures Refusing(Crowd(), 6, rounds)
  {
    hide TransferKey, Order.Less, Batch;
  }

  lemma LastWouldLeave(hash: bytes)
    ensures Goes(6, Refuses(hash), Crowd()[MAX_NUM].key, MAX_NUM)
  {
    hide TransferKey;
    TransferReady(MAX_NUM);
  }

  /** 1000 refused transfers hold up the one behind them for any number of rounds, though it is ready to go. */
  lemma {:induction false} CrowdBlocks(rounds: seq<Round>, hash: bytes)
    requires forall k :: 0 <= k < |rounds| ==> rounds[k] == Refuses(hash)
    ensures AfterAll(Crowd(), 6, rounds) == Crowd() && Crowd()[MAX_NUM] !in Batch(Crowd())
    ensures Goes(6, Refuses(hash), Crowd()[MAX_NUM].key, MAX_NUM)
  {
    hide TransferKey, Order.Less, AfterAll, Batch, Goes;
    CrowdRefused(rounds, hash);
    HeadOfLine(Crowd(), 6, rounds);
    LastWouldLeave(hash);
  }

  /** Poly has no event for any hash but the last, whose transaction failed. */
  ghost function Silent(): Round {
    var last := MappingKey.HexEncode(TransferKey(MAX_NUM));
    CheckRound((h: bytes) => CheckReply(if h == last then Some(2) else None, false, false))
  }

  lemma OnlyLast(i: nat)
    requires i < MAX_NUM
    ensures MappingKey.HexEncode(TransferKey(i)) != MappingKey.HexEncode(TransferKey(MAX_NUM))
  {
    hide TransferKey, Order.Less, MappingKey.HexEncode;
    TransferOrder(i, MAX_NUM);
    Order.LessIrreflexive(TransferKey(i));
    if MappingKey.HexEncode(TransferKey(i)) == MappingKey.HexEncode(TransferKey(MAX_NUM)) {
      MappingKey.HexInjective(TransferKey(i), TransferKey(MAX_NUM));
    }
  }

  lemma {:induction false} SilentRefuses(rounds: seq<Round>)
    requires forall k :: 0 <= k < |rounds| ==> rounds[k] == Silent()
    ensures Refusing(Crowd(), 6, rounds)
  {
    hide TransferKey, Order.Less, Batch, MappingKey.HexEncode;
    forall k, i | 0 <= k < |rounds| && 0 <= i < MAX_NUM ensures !Goes(6, rounds[k], Crowd()[i].key, i) {
      OnlyLast(i);
    }
  }

  /**
    The checker is held up in the same way: behind 1000 hashes that never get an event, a failed submission is never
    looked at, so that its transfer never returns to Retry.
   */
  lemma {:induction false} CheckBlocks(rounds: seq<Round>)
    requires forall k :: 0 <= k < |rounds| ==> rounds[k] == Silent()
    ensures AfterAll(Crowd(), 6, rounds) == Crowd() && Crowd()[MAX_NUM] !in Batch(Crowd())
    ensures PutsBack(Silent().answers(MappingKey.HexEncode(Crowd()[MAX_NUM].key)))
  {
    hide TransferKey, Order.Less, AfterAll, Batch, Goes, MappingKey.HexEncode;
    SilentRefuses(rounds);
    HeadOfLine(Crowd(), 6, rounds);
  }

  /**
    What the theorems about runs say of the object: once stored, a transfer is in the manager's own Retry or Check
    bucket, or done on Poly. Every method keeps the trace clean as long as its replies are truthful and no put fails.
   */
  lemma ObjectKeeps(m: PaletteManager, e: bytes)
    requires m.Valid() && m.Clean() && Pipeline.Fresh(m.env, m.genesis)
    requires e in m.world.history.stored
    ensures e in Contents(m.db.retry) || e in m.world.poly.done || e in Contents(m.db.check).Values
  {
    Conservation.NoTransferLost(m.env, m.genesis, m.trace, e);
  }
}
