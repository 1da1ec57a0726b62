/** Runs of the Poly monitor: over any sequence of ticks, failures and retries, each height is handled exactly once. */
module PolyRuns {
  import opened Prelude
  import opened PolyManager
  import MappingKey

  /** What the successful attempts enqueued, in their order. */
  function Enqueued(c: Config, done: seq<Done>): seq<Item> {
    if done == [] then []
    else Enqueued(c, done[..|done| - 1]) + Deposits(c, done[|done| - 1].height, done[|done| - 1].reply)
  }

  /** The successful attempts are at `start`, `start + 1`, and so on up to the cursor; nothing else was enqueued. */
  ghost predicate InOrder(c: Config, start: uint32, s: State) {
    && s.cur == start + |s.done|
    && (forall i :: 0 <= i < |s.done| ==>
        s.done[i].height == start + i && OutcomeOf(c, s.done[i].height, s.done[i].reply).Handled?)
    && s.queue == Enqueued(c, s.done)
  }

  /**
    No tick sees a chain of height 1. Only there is the end of the work 2^32 - 1, so that the cursor could wrap while
    it stays at or below the end.
   */
  ghost predicate EndsBelow(ts: seq<TickInput>) {
    forall i :: 0 <= i < |ts| && ts[i].latest.Some? ==> ts[i].latest.value != 1
  }

  ghost function Started(start: uint32, saved: uint32): State {
    State(start, saved, [], [], true)
  }

  /** `k` heights on from `h`, on uint32. */
  function Onward(h: uint32, k: nat): uint32 {
    (h + k) % TWO32
  }

  lemma OnwardNext(h: uint32, k: nat)
    ensures Onward(Add32(h, 1), k) == Onward(h, k + 1) && Onward(h, 0) == h
  {
  }

  /**
    A tick that sees chain height 1: the end of the work is 2^32 - 1, which no cursor passes. As long as every attempt
    succeeds the scan goes on and on, wraps around to height 0 and handles heights again; it ends with the process,
    and saves nothing.
   */
  lemma {:induction false} HeightOne(c: Config, s: State, replies: uint32 -> BlockReply, attempts: nat)
    requires forall h: uint32 :: OutcomeOf(c, h, replies(h)).Handled?
    ensures
      var (s', ended) := Scan(c, s, WorkEnd(1), replies, attempts);
      && WorkEnd(1) == TWO32 - 1
      && !ended && !s'.alive && s'.saved == s.saved && s'.cur == Onward(s.cur, attempts)
      && |s'.done| == |s.done| + attempts && s.done <= s'.done
      && forall k :: |s.done| <= k < |s'.done| ==> s'.done[k].height == Onward(s.cur, k - |s.done|)
    decreases attempts
  {
    hide OutcomeOf, Deposits, Onward, Add32;
    OnwardNext(s.cur, 0);
    assert WorkEnd(1) == TWO32 - 1;
    if attempts > 0 {
      assert OutcomeOf(c, s.cur, replies(s.cur)).Handled?;
      var next := After(c, s, replies(s.cur));
      HeightOne(c, next, replies, attempts - 1);
      OnwardNext(s.cur, attempts - 1);
      var s' := Scan(c, s, WorkEnd(1), replies, attempts).0;
      forall k | |s.done| <= k < |s'.done| ensures s'.done[k].height == Onward(s.cur, k - |s.done|) {
        if k > |s.done| {
          OnwardNext(s.cur, k - |next.done|);
        } else {
          assert s'.done[k] == next.done[k];
        }
      }
    }
  }

  lemma AfterKeeps(c: Config, start: uint32, s: State, r: BlockReply)
    requires InOrder(c, start, s) && s.cur < TWO32 - 1 && OutcomeOf(c, s.cur, r).Handled?
    ensures InOrder(c, start, After(c, s, r)) && After(c, s, r).cur == s.cur + 1
  {
    hide OutcomeOf, Deposits;
    var s' := After(c, s, r);
    assert s'.done[..|s'.done| - 1] == s.done;
  }

  lemma SameQueue(c: Config, start: uint32, s: State, s': State)
    requires InOrder(c, start, s) && s'.cur == s.cur && s'.queue == s.queue && s'.done == s.done
    ensures InOrder(c, start, s')
  {
  }

  lemma {:induction false} ScanKeeps(c: Config, start: uint32, s: State, end: uint32,
                                     replies: uint32 -> BlockReply, attempts: nat)
    requires InOrder(c, start, s) && end < TWO32 - 1
    ensures
      var (s', _) := Scan(c, s, end, replies, attempts);
      InOrder(c, start, s') && s'.cur >= s.cur && s'.saved == s.saved && s.done <= s'.done
    decreases attempts
  {
    hide OutcomeOf, Deposits, InOrder;
    if s.cur <= end && attempts > 0 && OutcomeOf(c, s.cur, replies(s.cur)).Handled? {
      AfterKeeps(c, start, s, replies(s.cur));
      ScanKeeps(c, start, After(c, s, replies(s.cur)), end, replies, attempts - 1);
    } else {
      SameQueue(c, start, s, Scan(c, s, end, replies, attempts).0);
    }
  }

  /** Exactly once: a run enqueues, in order and without repetition, the deposits of the heights below the cursor. */
  lemma {:induction false} ExactlyOnce(c: Config, start: uint32, saved: uint32, ts: seq<TickInput>)
    requires EndsBelow(ts)
    ensures InOrder(c, start, Ticks(c, Started(start, saved), ts))
  {
    hide InOrder, Scan;
    var s := Started(start, saved);
    if ts == [] {
      assert InOrder(c, start, s) by { Begin(c, start, saved); }
    } else {
      var t := ts[|ts| - 1];
      ExactlyOnce(c, start, saved, ts[..|ts| - 1]);
      var before := Ticks(c, s, ts[..|ts| - 1]);
      if t.latest.Some? {
        assert t.latest.value != 1;
        ScanKeeps(c, start, before, WorkEnd(t.latest.value), t.replies, t.attempts);
        var scanned := Scan(c, before, WorkEnd(t.latest.value), t.replies, t.attempts).0;
        SameQueue(c, start, scanned, scanned.(saved := Sub32(scanned.cur, 1)));
      }
    }
  }

  lemma Begin(c: Config, start: uint32, saved: uint32)
    ensures InOrder(c, start, Started(start, saved))
  {
  }

  /** The same replies with every cross-state proof available. */
  function Full(h: uint32, r: BlockReply, paths: (uint32, bytes) -> bytes): BlockReply {
    r.(proofs := (k: bytes) => Some(paths(h, k)))
  }

  /** The proofs that were fetched at height `h` are the chain's. */
  ghost predicate Truthful(h: uint32, r: BlockReply, paths: (uint32, bytes) -> bytes) {
    forall k :: r.proofs(k).Some? ==> r.proofs(k) == Some(paths(h, k))
  }

  /** A notification that leads to a deposit but whose proof could not be fetched. */
  predicate Missed(c: Config, h: uint32, r: BlockReply, paths: (uint32, bytes) -> bytes, n: Notify) {
    Selects(c, n, Some(paths(h, n.proofKey))) && r.proofs(n.proofKey).None?
  }

  /** Both replies send a deposit on with the same headers. */
  ghost predicate SameHeaders(h: uint32, r: BlockReply, r': BlockReply) {
    forall tx, n, path :: ItemOf(h, tx, n, path, r) == ItemOf(h, tx, n, path, r')
  }

  lemma {:induction false} TxExact(c: Config, h: uint32, tx: TxEvents, r: BlockReply,
                                   paths: (uint32, bytes) -> bytes, n: nat)
    requires Truthful(h, r, paths) && n <= |tx.notifies|
    ensures
      var (a, b) := (SelectedOfTx(c, h, tx, r, n), SelectedOfTx(c, h, tx, Full(h, r, paths), n));
      && |a| <= |b|
      && (|a| == |b| <==> forall i :: 0 <= i < n ==> !Missed(c, h, r, paths, tx.notifies[i]))
      && (|a| == |b| ==> a == b)
  {
    hide Leads, PathOf;
    if n > 0 {
      TxExact(c, h, tx, r, paths, n - 1);
      var k := tx.notifies[n - 1].proofKey;
      assert r.proofs(k).Some? ==> r.proofs(k) == Some(paths(h, k));
      assert Full(h, r, paths).proofs(k) == Some(paths(h, k));
      assert SameHeaders(h, r, Full(h, r, paths));
    }
  }

  lemma {:induction false} BlockExact(c: Config, h: uint32, txs: seq<TxEvents>, r: BlockReply,
                                      paths: (uint32, bytes) -> bytes, n: nat)
    requires Truthful(h, r, paths) && n <= |txs|
    ensures
      var (a, b) := (Selected(c, h, txs, r, n), Selected(c, h, txs, Full(h, r, paths), n));
      && |a| <= |b|
      && (|a| == |b| <==> forall i, j :: 0 <= i < n && 0 <= j < |txs[i].notifies| ==>
          !Missed(c, h, r, paths, txs[i].notifies[j]))
      && (|a| == |b| ==> a == b)
  {
    hide SelectedOfTx, Missed, Full, Truthful;
    if n > 0 {
      BlockExact(c, h, txs, r, paths, n - 1);
      TxExact(c, h, txs[n - 1], r, paths, |txs[n - 1].notifies|);
    }
  }

  /**
    A handled block enqueues everything that it should exactly if no proof fetch failed for a notification that leads
    to a deposit: such a notification is skipped, and the cursor passes its height for good.
   */
  lemma DepositsExact(c: Config, h: uint32, r: BlockReply, paths: (uint32, bytes) -> bytes)
    requires Truthful(h, r, paths) && r.events.Some?
    ensures Deposits(c, h, r) == Deposits(c, h, Full(h, r, paths)) <==>
      forall i, j :: 0 <= i < |r.events.value| && 0 <= j < |r.events.value[i].notifies| ==>
        !Missed(c, h, r, paths, r.events.value[i].notifies[j])
  {
    hide Missed, Truthful, Selected;
    BlockExact(c, h, r.events.value, r, paths, |r.events.value|);
    assert Full(h, r, paths).events == r.events;
  }

  /** What a whole run should enqueue: the same attempts with every proof available. */
  function Due(c: Config, done: seq<Done>, paths: (uint32, bytes) -> bytes): seq<Item> {
    if done == [] then [] else
    var last := done[|done| - 1];
    Due(c, done[..|done| - 1], paths) + Deposits(c, last.height, Full(last.height, last.reply, paths))
  }

  /** No attempt of a run missed a proof. */
  ghost predicate NothingMissed(c: Config, done: seq<Done>, paths: (uint32, bytes) -> bytes) {
    forall d :: d in done && d.reply.events.Some? ==>
      forall i, j :: 0 <= i < |d.reply.events.value| && 0 <= j < |d.reply.events.value[i].notifies| ==>
        !Missed(c, d.height, d.reply, paths, d.reply.events.value[i].notifies[j])
  }

  lemma {:induction false} DueExact(c: Config, done: seq<Done>, paths: (uint32, bytes) -> bytes)
    requires forall d :: d in done ==> Truthful(d.height, d.reply, paths) && d.reply.events.Some?
    ensures |Enqueued(c, done)| <= |Due(c, done, paths)|
    ensures |Enqueued(c, done)| == |Due(c, done, paths)| <==> NothingMissed(c, done, paths)
    ensures Enqueued(c, done) == Due(c, done, paths) <==> NothingMissed(c, done, paths)
  {
    hide Missed, Truthful, Deposits, Full;
    if done != [] {
      var n := |done| - 1;
      var init, last := done[..n], done[n];
      assert done == init + [last];
      DueExact(c, init, paths);
      DepositsExact(c, last.height, last.reply, paths);
      LengthExact(c, last.height, last.reply, paths);
      assert NothingMissed(c, done, paths) <==> NothingMissed(c, init, paths) && NothingMissed(c, [last], paths);
      assert last in [last];
    }
  }

  lemma LengthExact(c: Config, h: uint32, r: BlockReply, paths: (uint32, bytes) -> bytes)
    requires Truthful(h, r, paths) && r.events.Some?
    ensures |Deposits(c, h, r)| <= |Deposits(c, h, Full(h, r, paths))|
    ensures |Deposits(c, h, r)| == |Deposits(c, h, Full(h, r, paths))| ==>
      Deposits(c, h, r) == Deposits(c, h, Full(h, r, paths))
  {
    hide Missed, Truthful, Selected;
    BlockExact(c, h, r.events.value, r, paths, |r.events.value|);
  }

  /** The whole run: what was enqueued is all that was due, in order, exactly if no proof fetch failed on the way. */
  lemma {:induction false} RunExact(c: Config, start: uint32, saved: uint32, ts: seq<TickInput>,
                                    paths: (uint32, bytes) -> bytes)
    requires EndsBelow(ts)
    requires forall i, h :: 0 <= i < |ts| ==> Truthful(h, ts[i].replies(h), paths)
    ensures
      var s := Ticks(c, Started(start, saved), ts);
      s.queue == Due(c, s.done, paths) <==> NothingMissed(c, s.done, paths)
  {
    hide Missed, Truthful, Deposits, Full, Due, NothingMissed;
    var s := Ticks(c, Started(start, saved), ts);
    ExactlyOnce(c, start, saved, ts);
    RepliesOf(c, Started(start, saved), ts);
    forall d | d in s.done ensures Truthful(d.height, d.reply, paths) && d.reply.events.Some? {
      var i :| 0 <= i < |ts| && d.reply == ts[i].replies(d.height);
      assert Truthful(d.height, ts[i].replies(d.height), paths);
    }
    DueExact(c, s.done, paths);
  }

  /** Everything is a deposit: the notification, a value it leads to, and a configuration that takes it. */
  const OPEN: Config := Config(ZERO, 0, _ => true)
  const ZERO: Address := [0, 0, 0, 0, 0, 0, 0, 0, 0, 0, 0, 0, 0, 0, 0, 0, 0, 0, 0, 0]
  const DEPOSIT: Notify := Notify(ZERO, 6, MAKE_PROOF, 0, [])

  /** A block with one deposit whose proof cannot be fetched. */
  function NoProof(): BlockReply {
    BlockReply(0, (h: uint32) => Some(Header(h, [], [])), SameEpoch, (_, _) => None, Some([TxEvents([], [DEPOSIT])]),
      _ => None, false)
  }

  /** A proof that cannot be fetched costs the deposit: its block counts as handled, and its height is saved. */
  lemma DepositMissed(paths: (uint32, bytes) -> bytes)
    ensures
      var t := TickInput(Some(3), _ => NoProof(), 5, false);
      var s := Ticks(OPEN, Started(1, 0), [t]);
      && EndsBelow([t]) && (forall h :: Truthful(h, t.replies(h), paths))
      && s.cur == 2 && s.saved == 1 && s.alive && s.queue == []
      && Due(OPEN, s.done, paths) != []
  {
    hide Leads, PathOf, Deposits, OutcomeOf;
    var t := TickInput(Some(3), _ => NoProof(), 5, false);
    var s := Started(1, 0);
    var done := [Done(1, NoProof())];
    assert [t][..0] == [];
    assert Ticks(OPEN, s, []) == s;
    NothingSelected();
    assert After(OPEN, s, NoProof()) == s.(cur := 2, done := done);
    assert Scan(OPEN, s.(cur := 2, done := done), 1, t.replies, 4) == (s.(cur := 2, done := done), true);
    assert Scan(OPEN, s, 1, t.replies, 5) == (s.(cur := 2, done := done), true);
    OneDue(paths);
    assert done[..0] == [];
  }

  lemma NothingSelected()
    ensures Deposits(OPEN, 1, NoProof()) == [] && OutcomeOf(OPEN, 1, NoProof()).Handled?
  {
    hide Leads, PathOf;
    var tx := TxEvents([], [DEPOSIT]);
    assert SelectedOfTx(OPEN, 1, tx, NoProof(), 0) == [];
    assert SelectedOfTx(OPEN, 1, tx, NoProof(), 1) == [];
    assert Selected(OPEN, 1, [tx], NoProof(), 0) == [];
  }

  lemma OneDue(paths: (uint32, bytes) -> bytes)
    ensures Deposits(OPEN, 1, Full(1, NoProof(), paths)) != []
  {
    hide PathOf;
    var tx, full := TxEvents([], [DEPOSIT]), Full(1, NoProof(), paths);
    assert SelectedOfTx(OPEN, 1, tx, full, 0) == [];
    assert SelectedOfTx(OPEN, 1, tx, full, 1) != [];
    assert Selected(OPEN, 1, [tx], full, 0) == [];
  }

  lemma {:induction false} ScanReplies(c: Config, s: State, end: uint32, replies: uint32 -> BlockReply, attempts: nat)
    ensures forall d :: d in Scan(c, s, end, replies, attempts).0.done ==>
      d in s.done || d.reply == replies(d.height)
    decreases attempts
  {
    hide OutcomeOf, Deposits;
    if s.cur <= end && attempts > 0 && OutcomeOf(c, s.cur, replies(s.cur)).Handled? {
      var s' := After(c, s, replies(s.cur));
      ScanReplies(c, s', end, replies, attempts - 1);
      assert forall d :: d in s'.done ==> d in s.done || d.reply == replies(d.height);
    }
  }

  lemma {:induction false} RepliesOf(c: Config, s: State, ts: seq<TickInput>)
    requires s.done == []
    ensures forall d :: d in Ticks(c, s, ts).done ==> exists i :: 0 <= i < |ts| && d.reply == ts[i].replies(d.height)
  {
    hide Scan;
    if ts != [] {
      var n := |ts| - 1;
      var before := Ticks(c, s, ts[..n]);
      RepliesOf(c, s, ts[..n]);
      if ts[n].latest.Some? {
        ScanReplies(c, before, WorkEnd(ts[n].latest.value), ts[n].replies, ts[n].attempts);
      }
      forall d | d in Ticks(c, s, ts).done ensures exists i :: 0 <= i < |ts| && d.reply == ts[i].replies(d.height) {
        if d in before.done {
          var i :| 0 <= i < |ts[..n]| && d.reply == ts[..n][i].replies(d.height);
          assert d.reply == ts[i].replies(d.height);
        } else {
          assert d.reply == ts[n].replies(d.height);
        }
      }
    }
  }

  /** A tick that gets to work, lives to its end and saves without fault. */
  ghost predicate Saves(c: Config, s: State, t: TickInput) {
    && s.alive && t.latest.Some? && t.latest.value != 1 && WorkEnd(t.latest.value) >= s.cur
    && !t.fault && Tick(c, s, t).alive
  }

  lemma {:induction false} ScanEnds(c: Config, s: State, end: uint32, replies: uint32 -> BlockReply, attempts: nat)
    requires s.alive
    ensures
      var (s', ended) := Scan(c, s, end, replies, attempts);
      ended <==> s'.alive
    decreases attempts
  {
    hide OutcomeOf, Deposits;
    if s.cur <= end && attempts > 0 && OutcomeOf(c, s.cur, replies(s.cur)).Handled? {
      ScanEnds(c, After(c, s, replies(s.cur)), end, replies, attempts - 1);
    }
  }

  /** A working tick saves the cursor less one: a step back exactly if the cursor did not pass the saved height. */
  lemma SavedHeight(c: Config, start: uint32, s: State, t: TickInput)
    requires InOrder(c, start, s) && s.cur >= 1 && Saves(c, s, t)
    ensures
      var s' := Tick(c, s, t);
      && s'.saved == s'.cur - 1 && s'.cur >= s.cur
      && (s'.saved < s.saved <==> s'.cur <= s.saved)
      && (s.saved < s.cur ==> s.saved <= s'.saved)
  {
    hide InOrder, Scan;
    var end := WorkEnd(t.latest.value);
    ScanKeeps(c, start, s, end, t.replies, t.attempts);
    ScanEnds(c, s, end, t.replies, t.attempts);
  }

  /** The step back: a restart at the saved height `h` whose first attempt cannot get its header. */
  lemma SavedStepsBack(c: Config, h: uint32, r: BlockReply) returns (t: TickInput)
    requires 1 <= h < TWO32 - 3
    ensures
      var s := Started(StartCursor(0, h, 0), h);
      s.cur == h && Saves(c, s, t) && Tick(c, s, t).saved == h - 1
  {
    t := TickInput(Some(h + 2), _ => r.(headers := _ => None), 1, false);
    assert OutcomeOf(c, h, t.replies(h)).TryAgain?;
  }

  /** The saved height lies below the cursor. */
  ghost predicate Settled(s: State) {
    s.saved < s.cur
  }

  lemma SettledTick(c: Config, start: uint32, s: State, t: TickInput)
    requires InOrder(c, start, s) && (t.latest.Some? ==> t.latest.value != 1)
    ensures Settled(s) ==> Settled(Tick(c, s, t)) && s.saved <= Tick(c, s, t).saved
    ensures s.cur >= 1 && Saves(c, s, t) ==> Settled(Tick(c, s, t))
  {
    hide InOrder, Scan;
    if t.latest.Some? {
      ScanKeeps(c, start, s, WorkEnd(t.latest.value), t.replies, t.attempts);
    }
    if Saves(c, s, t) {
      ScanEnds(c, s, WorkEnd(t.latest.value), t.replies, t.attempts);
    }
  }

  /** Over a whole run: once a tick has saved, the saved height never falls again, whatever fails. */
  lemma {:induction false} SavedNeverFalls(c: Config, start: uint32, saved: uint32, ts: seq<TickInput>, k: nat, i: nat)
    requires EndsBelow(ts) && start >= 1 && k < i <= |ts|
    requires Saves(c, Ticks(c, Started(start, saved), ts[..k]), ts[k])
    ensures
      var s := Ticks(c, Started(start, saved), ts);
      Settled(s) && Ticks(c, Started(start, saved), ts[..i]).saved <= s.saved
    decreases |ts|
  {
    hide InOrder, Saves, Tick;
    var n := |ts| - 1;
    var s0 := Started(start, saved);
    ExactlyOnce(c, start, saved, ts[..n]);
    var before := Ticks(c, s0, ts[..n]);
    CursorAbove(c, start, before);
    SettledTick(c, start, before, ts[n]);
    assert ts[..|ts|] == ts;
    if k < n {
      assert ts[..n][..k] == ts[..k];
      if i == |ts| {
        SavedNeverFalls(c, start, saved, ts[..n], k, n);
      } else {
        assert ts[..n][..i] == ts[..i];
        SavedNeverFalls(c, start, saved, ts[..n], k, i);
      }
    }
  }

  /** From height 0 a failed first attempt saves 2^32 - 1: the cursor less one wraps. */
  lemma SavedWraps(c: Config, s: State, t: TickInput)
    requires s.alive && s.cur == 0 && t.latest.Some? && !t.fault && t.attempts > 0
    requires OutcomeOf(c, 0, t.replies(0)).TryAgain?
    ensures Tick(c, s, t).saved == TWO32 - 1
    ensures StartCursor(0, Tick(c, s, t).saved, 0) == TWO32 - 1
  {
    hide OutcomeOf;
  }

  ghost predicate HandledAt(s: State, h: nat) {
    exists i :: 0 <= i < |s.done| && s.done[i].height == h
  }

  /** A height from `start` on that the run has not handled and a restart passes over. */
  ghost predicate Gap(start: uint32, s: State, restart: uint32) {
    exists h: nat :: start <= h < restart && !HandledAt(s, h)
  }

  lemma HandledRange(c: Config, start: uint32, s: State, h: nat)
    requires InOrder(c, start, s)
    ensures HandledAt(s, h) <==> start <= h < s.cur
  {
    if start <= h < s.cur {
      assert s.done[h - start].height == h;
    }
  }

  /** A process that did not start below the saved height never saves above its cursor. */
  lemma {:induction false} SavedBelow(c: Config, start: uint32, saved: uint32, ts: seq<TickInput>)
    requires EndsBelow(ts) && start >= 1 && saved <= start
    ensures Ticks(c, Started(start, saved), ts).saved <= Ticks(c, Started(start, saved), ts).cur
  {
    hide InOrder, Scan;
    if ts != [] {
      var n := |ts| - 1;
      SavedBelow(c, start, saved, ts[..n]);
      ExactlyOnce(c, start, saved, ts[..n]);
      var before := Ticks(c, Started(start, saved), ts[..n]);
      CursorAbove(c, start, before);
      if ts[n].latest.Some? {
        ScanKeeps(c, start, before, WorkEnd(ts[n].latest.value), ts[n].replies, ts[n].attempts);
      }
    }
  }

  /**
    Restart, from any state that a run can reach, whether the process was stopped between ticks, died in the middle
    of a scan or never saved: a restart at `restart` skips no unhandled height exactly if it does not lie above the
    old cursor. Without a flag that is so exactly if Palette's epoch does not, unless the old process had itself
    been told to start below the saved height.
   */
  lemma RestartExact(c: Config, start: uint32, saved: uint32, ts: seq<TickInput>, flag: uint32, epoch: uint32)
    requires EndsBelow(ts) && start >= 1
    ensures
      var s := Ticks(c, Started(start, saved), ts);
      && s.saved < TWO32
      && (!Gap(start, s, StartCursor(flag, s.saved, epoch)) <==> StartCursor(flag, s.saved, epoch) <= s.cur)
      && (saved <= start ==> (!Gap(start, s, StartCursor(0, s.saved, epoch)) <==> epoch <= s.cur))
  {
    hide InOrder, HandledAt, Ticks;
    var s := Ticks(c, Started(start, saved), ts);
    ExactlyOnce(c, start, saved, ts);
    CursorAbove(c, start, s);
    SavedFits(c, Started(start, saved), ts);
    if saved <= start {
      SavedBelow(c, start, saved, ts);
    }
    forall h: nat ensures HandledAt(s, h) <==> start <= h < s.cur {
      HandledRange(c, start, s, h);
    }
    assert !HandledAt(s, s.cur);
  }

  lemma {:induction false} SavedFits(c: Config, s: State, ts: seq<TickInput>)
    requires s.saved < TWO32
    ensures Ticks(c, s, ts).saved < TWO32
  {
    hide Scan;
    if ts != [] {
      var n := |ts| - 1;
      SavedFits(c, s, ts[..n]);
      var before := Ticks(c, s, ts[..n]);
      if ts[n].latest.Some? {
        ScanSaves(c, before, WorkEnd(ts[n].latest.value), ts[n].replies, ts[n].attempts);
      }
    }
  }

  lemma {:induction false} ScanSaves(c: Config, s: State, end: uint32, replies: uint32 -> BlockReply, attempts: nat)
    ensures Scan(c, s, end, replies, attempts).0.saved == s.saved
    decreases attempts
  {
    hide OutcomeOf, Deposits;
    if s.cur <= end && attempts > 0 && OutcomeOf(c, s.cur, replies(s.cur)).Handled? {
      ScanSaves(c, After(c, s, replies(s.cur)), end, replies, attempts - 1);
    }
  }

  lemma CursorAbove(c: Config, start: uint32, s: State)
    requires InOrder(c, start, s)
    ensures s.cur >= start
  {
  }

  /**
    A deposit as it should be, from the answers of its attempt: the notification comes from the entrance contract, has
    six states or more, says "makeProof" and is for this side chain; its proof was fetched, and the path is that of the
    proof. The header is the one above the block. An anchor goes along if Palette's epoch is not below that header (then
    it is the header above the epoch) or the keepers change in it (then the next one), with the Merkle proof of the
    header under it; the anchor signs if it came and its proof is not empty, and otherwise the header signs for itself.
   */
  ghost predicate Proper(c: Config, height: uint32, r: BlockReply, item: Item) {
    var n, valid := item.notify, Add32(height, 1);
    && item.height == height
    && n.contract == c.entrance && n.stateCount >= 6 && n.action == MAKE_PROOF && n.sideChain == c.sideChainId
    && r.proofs(n.proofKey).Some? && item.path == MappingKey.HexDecodeString(r.proofs(n.proofKey).value).0
    && item.header == r.headers(valid) && item.header.Some?
    && (if r.lastEpoch >= valid then Anchored(item, r, valid, Add32(r.lastEpoch, 1))
        else if r.epoch.NewEpoch? then Anchored(item, r, valid, Add32(valid, 1))
        else item.anchor == None && item.proof == [] && item.signer == item.header)
  }

  ghost predicate Anchored(item: Item, r: BlockReply, valid: uint32, root: uint32) {
    var hp := r.merkle(valid, root);
    && hp.Some? && item.anchor == r.headers(root) && item.proof == MappingKey.HexDecodeString(hp.value).0
    && item.signer == if r.headers(root).Some? && hp.value != [] then r.headers(root) else r.headers(valid)
  }

  lemma {:induction false} ProperOfTx(c: Config, h: uint32, tx: TxEvents, r: BlockReply, n: nat, item: Item)
    requires HasHeader(h, r) && !Panics(h, r)
    requires n <= |tx.notifies| && item in SelectedOfTx(c, h, tx, r, n)
    ensures Proper(c, h, r, item)
  {
    hide Leads;
    if item in SelectedOfTx(c, h, tx, r, n - 1) {
      ProperOfTx(c, h, tx, r, n - 1, item);
    }
  }

  lemma {:induction false} ProperOf(c: Config, h: uint32, txs: seq<TxEvents>, r: BlockReply, n: nat, item: Item)
    requires HasHeader(h, r) && !Panics(h, r)
    requires n <= |txs| && item in Selected(c, h, txs, r, n)
    ensures Proper(c, h, r, item)
  {
    hide SelectedOfTx, Proper, HasHeader, Panics;
    if item in Selected(c, h, txs, r, n - 1) {
      ProperOf(c, h, txs, r, n - 1, item);
    } else {
      ProperOfTx(c, h, txs[n - 1], r, |txs[n - 1].notifies|, item);
    }
  }

  /** An attempt that was handled: its deposits are proper, and if it had none, a change of keepers went through. */
  ghost predicate Settles(c: Config, d: Done) {
    var valid := Add32(d.height, 1);
    && (forall item :: item in Deposits(c, d.height, d.reply) ==> Proper(c, d.height, d.reply, item))
    && (Deposits(c, d.height, d.reply) == [] && d.reply.epoch.NewEpoch? && d.reply.lastEpoch < valid ==>
        d.reply.committed)
  }

  lemma HandledSettles(c: Config, h: uint32, r: BlockReply)
    requires OutcomeOf(c, h, r).Handled?
    ensures Settles(c, Done(h, r))
  {
    hide Selected, Proper;
    forall item | item in Deposits(c, h, r) ensures Proper(c, h, r, item) {
      ProperOf(c, h, r.events.value, r, |r.events.value|, item);
    }
  }

  /** Every successful attempt settled its height, and the queue holds their deposits and nothing else. */
  ghost predicate Accounted(c: Config, s: State) {
    && (forall d :: d in s.done ==> Settles(c, d))
    && (forall d, item :: d in s.done && item in Deposits(c, d.height, d.reply) ==> item in s.queue)
    && (forall item :: item in s.queue ==> exists d :: d in s.done && item in Deposits(c, d.height, d.reply))
  }

  lemma AccountedAfter(c: Config, s: State, r: BlockReply)
    requires Accounted(c, s) && OutcomeOf(c, s.cur, r).Handled?
    ensures Accounted(c, After(c, s, r))
  {
    hide OutcomeOf, Deposits, Settles;
    HandledSettles(c, s.cur, r);
    var s', d' := After(c, s, r), Done(s.cur, r);
    assert d' in s'.done;
    forall item | item in s'.queue ensures exists d :: d in s'.done && item in Deposits(c, d.height, d.reply) {
      if item in s.queue {
        var d :| d in s.done && item in Deposits(c, d.height, d.reply);
        assert d in s'.done;
      }
    }
  }

  lemma {:induction false} ScanAccounts(c: Config, s: State, end: uint32, replies: uint32 -> BlockReply, attempts: nat)
    requires Accounted(c, s)
    ensures Accounted(c, Scan(c, s, end, replies, attempts).0)
    decreases attempts
  {
    hide OutcomeOf, Deposits, Settles, Accounted;
    var (s', _) := Scan(c, s, end, replies, attempts);
    if s.cur <= end && attempts > 0 && OutcomeOf(c, s.cur, replies(s.cur)).Handled? {
      AccountedAfter(c, s, replies(s.cur));
      ScanAccounts(c, After(c, s, replies(s.cur)), end, replies, attempts - 1);
    } else {
      SameAccount(c, s, s');
    }
  }

  lemma SameAccount(c: Config, s: State, s': State)
    requires Accounted(c, s) && s'.queue == s.queue && s'.done == s.done
    ensures Accounted(c, s')
  {
  }

  lemma {:induction false} RunAccounts(c: Config, start: uint32, saved: uint32, ts: seq<TickInput>)
    ensures Accounted(c, Ticks(c, Started(start, saved), ts))
  {
    hide Accounted, Scan;
    if ts == [] {
      NothingDone(c, start, saved);
    } else {
      var n := |ts| - 1;
      var before := Ticks(c, Started(start, saved), ts[..n]);
      RunAccounts(c, start, saved, ts[..n]);
      if ts[n].latest.Some? {
        ScanAccounts(c, before, WorkEnd(ts[n].latest.value), ts[n].replies, ts[n].attempts);
        var scanned := Scan(c, before, WorkEnd(ts[n].latest.value), ts[n].replies, ts[n].attempts).0;
        SameAccount(c, scanned, scanned.(saved := Sub32(scanned.cur, 1)));
      }
    }
  }

  lemma NothingDone(c: Config, start: uint32, saved: uint32)
    ensures Accounted(c, Started(start, saved))
  {
  }

  /** Over any ticks, every deposit handed on is proper for the answers that its height's successful attempt got. */
  lemma QueueProper(c: Config, start: uint32, saved: uint32, ts: seq<TickInput>, item: Item)
    requires item in Ticks(c, Started(start, saved), ts).queue
    ensures exists d :: d in Ticks(c, Started(start, saved), ts).done && Proper(c, d.height, d.reply, item)
  {
    hide Proper, Deposits, Ticks;
    RunAccounts(c, start, saved, ts);
    var d :| d in Ticks(c, Started(start, saved), ts).done && item in Deposits(c, d.height, d.reply);
  }

  /**
    No change of keepers is passed over: over any ticks, a height that was handled although nothing was enqueued for it,
    and whose header changes the keepers and lies above Palette's epoch, had that change committed on Palette.
   */
  lemma KeepersCommitted(c: Config, start: uint32, saved: uint32, ts: seq<TickInput>, d: Done)
    requires d in Ticks(c, Started(start, saved), ts).done
    requires d.reply.epoch.NewEpoch? && d.reply.lastEpoch < Add32(d.height, 1)
    requires forall item :: item in Ticks(c, Started(start, saved), ts).queue ==> item.height != d.height
    ensures d.reply.committed
  {
    hide Deposits, Ticks;
    RunAccounts(c, start, saved, ts);
    assert Settles(c, d);
    if Deposits(c, d.height, d.reply) != [] {
      FirstDeposit(c, d);
    }
  }

  lemma FirstDeposit(c: Config, d: Done)
    requires Settles(c, d) && Deposits(c, d.height, d.reply) != []
    ensures exists item :: item in Deposits(c, d.height, d.reply) && item.height == d.height
  {
    hide Deposits;
    var item := Deposits(c, d.height, d.reply)[0];
    assert item in Deposits(c, d.height, d.reply);
    assert Proper(c, d.height, d.reply, item);
  }

  /**
    And where the commit fails, the height is tried again: cursor and queue stay, the scan ends, and what is saved is
    the height below.
   */
  lemma UncommittedStays(c: Config, s: State, t: TickInput)
    requires s.alive && t.latest.Some? && WorkEnd(t.latest.value) >= s.cur && t.attempts > 0
    requires
      var r, valid := t.replies(s.cur), Add32(s.cur, 1);
      && r.headers(valid).Some? && r.epoch.NewEpoch? && r.lastEpoch < valid
      && r.merkle(valid, Add32(valid, 1)).Some? && r.events.Some?
      && Deposits(c, s.cur, r) == [] && !r.committed
    ensures
      var s' := Tick(c, s, t);
      && s'.cur == s.cur && s'.queue == s.queue && s'.done == s.done && s'.alive
      && s'.saved == if t.fault then s.saved else Sub32(s.cur, 1)
  {
    hide Deposits;
  }

  /** The headers come from the heights that were asked for. */
  ghost predicate RightHeaders(r: BlockReply) {
    forall h :: r.headers(h).Some? ==> r.headers(h).value.height == h
  }

  /**
    Whose signatures, over any ticks: the header that signs is that of the root of the fetched Merkle proof exactly if
    this anchor came and the proof is not empty, and otherwise the one above the block. The root is the height above
    Palette's epoch if the epoch is not below the header, and two above the block if a current header changes the
    keepers. So, short of 2^32, the signing header lies above the epoch exactly if the block's header does, or anchor
    and proof came.
   */
  lemma SignerExact(c: Config, start: uint32, saved: uint32, ts: seq<TickInput>, item: Item)
    requires item in Ticks(c, Started(start, saved), ts).queue
    requires forall d :: d in Ticks(c, Started(start, saved), ts).done ==> RightHeaders(d.reply)
    ensures exists d :: d in Ticks(c, Started(start, saved), ts).done && SignedFor(item, d.height, d.reply)
  {
    hide Proper, Ticks, RightHeaders, SignedFor;
    QueueProper(c, start, saved, ts, item);
    var d :| d in Ticks(c, Started(start, saved), ts).done && Proper(c, d.height, d.reply, item);
    ProperSigner(c, d.height, d.reply, item);
  }

  ghost predicate SignedFor(item: Item, height: uint32, r: BlockReply) {
    var valid := Add32(height, 1);
    var root := Add32(if r.lastEpoch >= valid then r.lastEpoch else valid, 1);
    var asked := r.lastEpoch >= valid || r.epoch.NewEpoch?;
    var anchored := asked && r.headers(root).Some? && r.merkle(valid, root).Some? && r.merkle(valid, root).value != [];
    && item.signer.Some? && item.signer.value.height == (if anchored then root else valid)
    && item.signer == r.headers(item.signer.value.height)
    && (height < TWO32 - 2 && r.lastEpoch < TWO32 - 1 ==>
        (item.signer.value.height > r.lastEpoch <==> r.lastEpoch < height + 1 || anchored))
  }

  lemma ProperSigner(c: Config, height: uint32, r: BlockReply, item: Item)
    requires Proper(c, height, r, item) && RightHeaders(r)
    ensures SignedFor(item, height, r)
  {
  }

  /**
    How far a tick gets: no height above the chain's height less two is handled; if every attempt up to there succeeds
    and the process lives, the tick ends right behind it and saves it.
   */
  lemma TickReaches(c: Config, s: State, t: TickInput)
    requires s.alive && t.latest.Some? && t.latest.value >= 2
    ensures forall d :: d in Tick(c, s, t).done ==> d in s.done || d.height <= t.latest.value - 2
    ensures
      && s.cur <= t.latest.value - 2 && t.attempts > t.latest.value && !t.fault
      && (forall h: uint32 :: h <= t.latest.value - 2 ==> OutcomeOf(c, h, t.replies(h)).Handled?) ==>
        var s' := Tick(c, s, t);
        s'.alive && s'.cur == t.latest.value - 1 && s'.saved == t.latest.value - 2
  {
    hide OutcomeOf, Deposits, Scan;
    ScanReaches(c, s, t.latest.value - 2, t.replies, t.attempts);
  }

  lemma {:induction false} ScanReaches(c: Config, s: State, end: uint32, replies: uint32 -> BlockReply, attempts: nat)
    requires end < TWO32 - 1
    ensures
      var (s', ended) := Scan(c, s, end, replies, attempts);
      && (forall d :: d in s'.done ==> d in s.done || d.height <= end)
      && (s.cur <= end + 1 && attempts > end + 1 - s.cur && s.alive
          && (forall h: uint32 :: h <= end ==> OutcomeOf(c, h, replies(h)).Handled?) ==>
            ended && s'.cur == end + 1 && s'.alive)
    decreases attempts
  {
    hide OutcomeOf, Deposits;
    if s.cur <= end && attempts > 0 && OutcomeOf(c, s.cur, replies(s.cur)).Handled? {
      var next := After(c, s, replies(s.cur));
      ScanReaches(c, next, end, replies, attempts - 1);
      assert forall d :: d in next.done ==> d in s.done || d.height <= end;
    }
  }
}
