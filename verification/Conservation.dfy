/**
  No transfer is lost: over every interleaving of the three loops, with crashes at any point, an entry once stored in
  Retry stays in Retry, or in Check, or is done on Poly, as long as puts succeed and the checker does not put an
  entry back while the deposit loop is about to delete it.
 */
module Conservation {
  import opened Prelude
  import opened BoltDb
  import opened Pipeline

  /** The hypotheses of conservation. */
  ghost predicate Careful(env: Env, s: State, step: Step) {
    Honest(env, s, step) && PutsSucceed(env, s, step) && NoRace(env, s, step)
  }

  ghost function Retry(s: State): map<bytes, bytes> {
    Contents(s.disk.retry)
  }

  ghost function Check(s: State): map<bytes, bytes> {
    Contents(s.disk.check)
  }

  /** Some Check entry other than `except` holds `entry`. */
  ghost predicate Held(s: State, entry: bytes, except: Option<bytes>) {
    exists h :: h in Check(s) && Check(s)[h] == entry && except != Some(h)
  }

  ghost predicate Kept(s: State, entry: bytes) {
    entry in Retry(s) || entry in s.poly.done || Held(s, entry, None)
  }

  ghost predicate Issued(s: State, hash: bytes, entry: bytes) {
    hash in s.poly.txs && s.poly.txs[hash].entry == entry
  }

  /** The checker's pending work. */
  function Snapshot(c: CheckPc): map<bytes, bytes> {
    if c.CIdle? then map[] else c.rest
  }

  /** Every hash anybody holds belongs to the entry it was issued for; executed imports are done. */
  ghost predicate HashInv(s: State) {
    && (forall h :: h in Check(s) ==> Issued(s, h, Check(s)[h]))
    && (forall h :: h in Snapshot(s.check) ==> Issued(s, h, Snapshot(s.check)[h]))
    && (forall h :: h in s.poly.txs && s.poly.txs[h].status.Succeeded? ==> s.poly.txs[h].entry in s.poly.done)
    && (s.check.CBack? || s.check.CDrop? ==> Issued(s, s.check.hash, s.check.entry) && s.check.hash !in s.check.rest)
    && (s.deposit.pc.DSent? ==>
        var h := s.deposit.pc.hash;
        && Issued(s, h, s.deposit.pc.entry) && h !in Check(s) && h !in Snapshot(s.check)
        && (s.check.CBack? || s.check.CDrop? ==> s.check.hash != h))
    && (s.deposit.pc.DDrop? && s.deposit.pc.via.Some? ==> Issued(s, s.deposit.pc.via.value, s.deposit.pc.entry))
  }

  /** What the deposit loop is about to delete is safe elsewhere. */
  ghost predicate DropSafe(s: State) {
    s.deposit.pc.DDrop? ==>
      || s.deposit.pc.entry in s.poly.done
      || (s.deposit.pc.via.Some? && s.deposit.pc.via.value in Check(s)
          && !(s.check.CDrop? && s.check.failed && s.check.hash == s.deposit.pc.via.value))
  }

  /** What the checker is about to delete is safe elsewhere. */
  ghost predicate CheckSafe(s: State) {
    s.check.CDrop? ==>
      || s.check.entry in s.poly.done
      || (s.check.failed && (s.check.entry in Retry(s) || Held(s, s.check.entry, Some(s.check.hash))))
  }

  ghost predicate AllKept(s: State) {
    forall e :: e in s.history.stored ==> Kept(s, e)
  }

  ghost predicate Inv(s: State) {
    HashInv(s) && DropSafe(s) && CheckSafe(s) && AllKept(s)
  }

  /** A Check bucket that keeps its entries keeps what it holds. */
  lemma {:induction false} HeldGrows(s: State, s': State)
    requires forall h :: h in Check(s) ==> h in Check(s') && Check(s')[h] == Check(s)[h]
    ensures forall e, x :: Held(s, e, x) ==> Held(s', e, x)
  {
    hide Contents;
    forall e, x | Held(s, e, x) ensures Held(s', e, x) {
      var h :| h in Check(s) && Check(s)[h] == e && x != Some(h);
      assert h in Check(s') && Check(s')[h] == e;
    }
  }

  /** Nothing that the invariant looks at changes, except that more may be done. */
  lemma Unmoved(s: State, s': State)
    requires Inv(s)
    requires s'.disk.retry == s.disk.retry && s'.disk.check == s.disk.check && s'.poly.txs == s.poly.txs
    requires s.poly.done <= s'.poly.done && s'.history.stored == s.history.stored
    requires s'.deposit.pc == s.deposit.pc || s'.deposit.pc.DIdle? || s'.deposit.pc.DRound?
    requires s'.check == s.check || s'.check.CIdle?
    ensures Inv(s')
  {
    hide Contents;
    assert Check(s') == Check(s) && Retry(s') == Retry(s);
    HeldGrows(s, s');
  }

  /** An entry is put into Retry. */
  lemma Stored(s: State, s': State, e: bytes)
    requires Inv(s)
    requires s'.disk.retry == Put(s.disk.retry, e, EMPTY_VALUE) && s'.disk.check == s.disk.check && s'.poly == s.poly
    requires s'.history.stored == s.history.stored + {e}
    requires s'.deposit == s.deposit
    requires s'.check == s.check || (s.check.CBack? && s.check.entry == e
      && s'.check == CDrop(s.check.hash, e, true, s.check.rest)
      && !(s.deposit.pc.DDrop? && s.deposit.pc.via == Some(s.check.hash)))
    ensures Inv(s')
  {
    hide Contents;
    assert Check(s') == Check(s);
    HeldGrows(s, s');
    assert Retry(s') == Retry(s)[e := EMPTY_VALUE];
    assert Snapshot(s'.check) == Snapshot(s.check);
  }

  lemma HeadStepKeeps(env: Env, s: State, step: HeadStep)
    requires Inv(s) && HeadEnabled(env, s, step) && PutsSucceed(env, s, H(step))
    ensures Inv(HeadApply(env, s, step))
  {
    hide Inv, Put, Retry, Check;
    var s' := HeadApply(env, s, step);
    if step.StoreEvent? {
      Stored(s, s', s.head.pc.rest[0]);
    } else {
      Unmoved(s, s');
    }
  }

  /** The deposit loop submits an entry under a fresh hash. */
  lemma SentKeeps(env: Env, s: State, hash: bytes)
    requires Inv(s) && DepositEnabled(env, s, SubmitProof(Sent(hash))) && Honest(env, s, D(SubmitProof(Sent(hash))))
    ensures Inv(DepositApply(env, s, SubmitProof(Sent(hash))))
  {
    hide Ready, Contents;
    var s' := DepositApply(env, s, SubmitProof(Sent(hash)));
    assert Check(s') == Check(s) && Retry(s') == Retry(s);
    HeldGrows(s, s');
  }

  lemma StoreCheckKeeps(env: Env, s: State)
    requires Inv(s) && DepositEnabled(env, s, StoreCheck(true))
    ensures Inv(DepositApply(env, s, StoreCheck(true)))
  {
    hide Contents;
    var s' := DepositApply(env, s, StoreCheck(true));
    var h0, e := s.deposit.pc.hash, s.deposit.pc.entry;
    assert Check(s') == Check(s)[h0 := e] && Retry(s') == Retry(s);
    HeldGrows(s, s');
  }

  lemma DropRetryKeeps(env: Env, s: State)
    requires Inv(s) && DepositEnabled(env, s, DropRetry(true))
    ensures Inv(DepositApply(env, s, DropRetry(true)))
  {
    hide Contents;
    var s' := DepositApply(env, s, DropRetry(true));
    var e := s.deposit.pc.entry;
    assert Check(s') == Check(s) && Retry(s') == Retry(s) - {e};
    HeldGrows(s, s');
    if e !in s.poly.done {
      var h := s.deposit.pc.via.value;
      assert h in Check(s') && Check(s')[h] == e;
      assert Held(s', e, None);
      assert s.check.CDrop? && s.check.failed ==> s.check.hash != h;
    }
  }

  lemma DepositStepKeeps(env: Env, s: State, step: DepositStep)
    requires Inv(s) && DepositEnabled(env, s, step) && PutsSucceed(env, s, D(step)) && Honest(env, s, D(step))
    ensures Inv(DepositApply(env, s, step))
  {
    match step {
      case SubmitProof(Sent(hash)) => SentKeeps(env, s, hash);
      case StoreCheck(_) => StoreCheckKeeps(env, s);
      case DropRetry(true) => DropRetryKeeps(env, s);
      case SubmitProof(AlreadyDone) =>
        AlreadyDoneKeeps(env, s);
      case _ =>
        hide Inv, Ready, Batch;
        Unmoved(s, DepositApply(env, s, step));
    }
  }

  lemma AlreadyDoneKeeps(env: Env, s: State)
    requires Inv(s) && DepositEnabled(env, s, SubmitProof(AlreadyDone)) && Honest(env, s, D(SubmitProof(AlreadyDone)))
    ensures Inv(DepositApply(env, s, SubmitProof(AlreadyDone)))
  {
    hide Ready, Contents;
    var s' := DepositApply(env, s, SubmitProof(AlreadyDone));
    assert Check(s') == Check(s) && Retry(s') == Retry(s);
    HeldGrows(s, s');
  }

  /** The checker moves on without touching the buckets. */
  lemma {:induction false} CheckMoves(s: State, s': State)
    requires Inv(s)
    requires s'.disk == s.disk && s'.poly == s.poly && s'.history.stored == s.history.stored && s'.deposit == s.deposit
    requires !s'.check.CDrop? || (s'.check.entry in s.poly.done && !s'.check.failed)
    requires forall h :: h in Snapshot(s'.check) ==>
      (h in Snapshot(s.check) && Snapshot(s'.check)[h] == Snapshot(s.check)[h])
      || (h in Check(s) && Snapshot(s'.check)[h] == Check(s)[h])
    requires s'.check.CBack? || s'.check.CDrop? ==>
      && s'.check.hash in Snapshot(s.check) && s'.check.entry == Snapshot(s.check)[s'.check.hash]
      && s'.check.hash !in s'.check.rest
    ensures Inv(s')
  {
    hide Contents;
    assert Check(s') == Check(s) && Retry(s') == Retry(s);
    HeldGrows(s, s');
  }

  lemma {:induction false} PrefixContents(b: Bucket, n: nat)
    requires n <= |b|
    ensures forall k :: k in Contents(b[..n]) ==> k in Contents(b) && Contents(b[..n])[k] == Contents(b)[k]
  {
    forall k | k in Contents(b[..n]) ensures k in Contents(b) && Contents(b[..n])[k] == Contents(b)[k] {
      ContentsKeys(b[..n]);
      var e :| e in b[..n] && e.key == k;
      var i :| 0 <= i < n && b[..n][i] == e;
      ContentsAt(b, i);
      ContentsAt(b[..n], i);
    }
  }

  lemma ReadCheckKeeps(s: State)
    requires Inv(s) && CheckEnabled(s, ReadCheck(true))
    ensures Inv(CheckApply(s, ReadCheck(true)))
  {
    PrefixContents(s.disk.check, |Batch(s.disk.check)|);
    CheckMoves(s, CheckApply(s, ReadCheck(true)));
  }

  lemma SeeKeeps(env: Env, s: State, step: CheckStep)
    requires Inv(s) && CheckEnabled(s, step) && Honest(env, s, C(step))
    requires step.NoEvent? || step.SeeSuccess? || step.SeeFailure?
    ensures Inv(CheckApply(s, step))
  {
    assert Issued(s, step.hash, Snapshot(s.check)[step.hash]);
    CheckMoves(s, CheckApply(s, step));
  }

  lemma DropCheckKeeps(s: State)
    requires Inv(s) && CheckEnabled(s, DropCheck(true))
    ensures Inv(CheckApply(s, DropCheck(true)))
  {
    hide Contents;
    var s' := CheckApply(s, DropCheck(true));
    var h0, e := s.check.hash, s.check.entry;
    assert Check(s') == Check(s) - {h0} && Retry(s') == Retry(s);
    forall x | Kept(s, x) ensures Kept(s', x) {
      if x !in Retry(s) && x !in s.poly.done {
        if x == e {
          assert Held(s, e, Some(h0));
          var h :| h in Check(s) && Check(s)[h] == e && h != h0;
          assert h in Check(s') && Check(s')[h] == e;
        } else {
          var h :| h in Check(s) && Check(s)[h] == x;
          assert h != h0;
          assert h in Check(s') && Check(s')[h] == x;
        }
      }
    }
  }

  lemma CheckStepKeeps(env: Env, s: State, step: CheckStep)
    requires Inv(s) && CheckEnabled(s, step) && Careful(env, s, C(step))
    ensures Inv(CheckApply(s, step))
  {
    match step {
      case ReadCheck(true) => ReadCheckKeeps(s);
      case NoEvent(_) => SeeKeeps(env, s, step);
      case SeeSuccess(_) => SeeKeeps(env, s, step);
      case SeeFailure(_) => SeeKeeps(env, s, step);
      case PutBack(_) =>
        assert s.check.CBack?;
        Stored(s, CheckApply(s, step), s.check.entry);
      case DropCheck(true) => DropCheckKeeps(s);
      case _ => CheckMoves(s, CheckApply(s, step));
    }
  }

  lemma OutsideStepKeeps(s: State, step: OutsideStep)
    requires Inv(s) && OutsideEnabled(s, step)
    ensures Inv(OutsideApply(s, step))
  {
    var s' := OutsideApply(s, step);
    if step.ExecuteImport? {
      assert Check(s') == Check(s) && Retry(s') == Retry(s);
      forall x, y | Held(s, x, y) ensures Held(s', x, y) {
        var h :| h in Check(s) && Check(s)[h] == x && y != Some(h);
        assert h in Check(s');
      }
      assert forall h, e :: Issued(s, h, e) ==> Issued(s', h, e);
    } else {
      Unmoved(s, s');
    }
  }

  lemma StepKeeps(env: Env, s: State, step: Step)
    requires Inv(s) && Enabled(env, s, step) && Careful(env, s, step)
    ensures Inv(Apply(env, s, step))
  {
    hide Inv;
    match step
    case H(h) => HeadStepKeeps(env, s, h);
    case D(d) => DepositStepKeeps(env, s, d);
    case C(c) => CheckStepKeeps(env, s, c);
    case O(o) => OutsideStepKeeps(s, o);
  }

  lemma {:induction false} RunKeeps(env: Env, s0: State, steps: seq<Step>)
    requires Fresh(env, s0) && Run(env, s0, steps).Some? && Along(env, s0, steps, Careful)
    ensures Inv(Run(env, s0, steps).value)
  {
    hide Inv, Enabled, Apply, Honest, PutsSucceed, NoRace;
    if steps == [] {
      FreshHolds(env, s0);
    } else {
      RunKeeps(env, s0, steps[..|steps| - 1]);
      StepKeeps(env, Run(env, s0, steps[..|steps| - 1]).value, steps[|steps| - 1]);
    }
  }

  lemma FreshHolds(env: Env, s: State)
    requires Fresh(env, s)
    ensures Inv(s)
  {
  }

  /** Conservation: nothing ever stored in Retry is lost, in any interleaving and across any crashes. */
  lemma NoTransferLost(env: Env, s0: State, steps: seq<Step>, e: bytes)
    requires Fresh(env, s0) && Run(env, s0, steps).Some? && Along(env, s0, steps, Careful)
    requires e in Run(env, s0, steps).value.history.stored
    ensures
      var s := Run(env, s0, steps).value;
      e in Retry(s) || e in s.poly.done || exists h :: h in Check(s) && Check(s)[h] == e
  {
    RunKeeps(env, s0, steps);
  }

  /** An event that the relayer has dealt with: stored at some time, or done on Poly. */
  ghost predicate Seen(s: State, e: bytes) {
    e in s.history.stored || e in s.poly.done
  }

  /** Queried blocks are dealt with in full; the block being stored is dealt with up to what remains. */
  ghost predicate EventsInv(env: Env, s: State) {
    && (forall t, e :: t in s.history.fetched && e in env.events(t) ==> Seen(s, e))
    && (s.head.pc.HStore? ==>
        var events := env.events(s.head.cur);
        && |s.head.pc.rest| <= |events| && s.head.pc.rest == events[|events| - |s.head.pc.rest|..]
        && forall i :: 0 <= i < |events| - |s.head.pc.rest| ==> Seen(s, events[i]))
  }

  lemma EventsHeadStep(env: Env, s: State, step: HeadStep)
    requires EventsInv(env, s) && HeadEnabled(env, s, step) && PutsSucceed(env, s, H(step)) && Honest(env, s, H(step))
    ensures EventsInv(env, HeadApply(env, s, step))
  {
    hide Put;
    var s' := HeadApply(env, s, step);
    assert forall e :: Seen(s, e) ==> Seen(s', e);
    if step.StoreEvent? || step.SkipDone? {
      var events := env.events(s.head.cur);
      var done := |events| - |s.head.pc.rest|;
      assert s.head.pc.rest[0] == events[done];
      assert s'.head.pc.rest == events[done + 1..];
    }
  }

  lemma EventsStep(env: Env, s: State, step: Step)
    requires EventsInv(env, s) && Enabled(env, s, step) && PutsSucceed(env, s, step) && Honest(env, s, step)
    ensures EventsInv(env, Apply(env, s, step))
  {
    hide Put, Delete, Ready, Batch, Contents;
    if step.H? {
      EventsHeadStep(env, s, step.h);
    } else {
      var s' := Apply(env, s, step);
      assert forall e :: Seen(s, e) ==> Seen(s', e);
    }
  }

  lemma {:induction false} EventsRun(env: Env, s0: State, steps: seq<Step>)
    requires Fresh(env, s0) && Run(env, s0, steps).Some? && Along(env, s0, steps, Careful)
    ensures EventsInv(env, Run(env, s0, steps).value)
  {
    hide EventsInv, Enabled, Apply, Honest, PutsSucceed, NoRace;
    if steps == [] {
      FreshEvents(env, s0);
    } else {
      EventsRun(env, s0, steps[..|steps| - 1]);
      EventsStep(env, Run(env, s0, steps[..|steps| - 1]).value, steps[|steps| - 1]);
    }
  }

  lemma FreshEvents(env: Env, s: State)
    requires Fresh(env, s)
    ensures EventsInv(env, s)
  {
  }

  /** From the chain to the store: every event of a block whose event query succeeded is kept or done. */
  lemma EventsKept(env: Env, s0: State, steps: seq<Step>, t: nat, e: bytes)
    requires Fresh(env, s0) && Run(env, s0, steps).Some? && Along(env, s0, steps, Careful)
    requires t in Run(env, s0, steps).value.history.fetched && e in env.events(t)
    ensures Kept(Run(env, s0, steps).value, e)
  {
    RunKeeps(env, s0, steps);
    EventsRun(env, s0, steps);
    assert Seen(Run(env, s0, steps).value, e);
  }

  /** The deposit loop is about to delete an entry from Retry while the checker puts that very submission back. */
  ghost predicate Racing(s: State) {
    && Up(s) && Inv(s)
    && s.deposit.pc.DDrop? && s.check.CBack? && s.deposit.pc.via == Some(s.check.hash)
  }

  const PUT_BACK: Step := C(PutBack(true))
  const DROP_CHECK: Step := C(DropCheck(true))
  const DROP_RETRY: Step := D(DropRetry(true))

  /** Whether another copy of the racing entry saves it. */
  ghost predicate Rescued(s: State)
    requires s.check.CBack?
  {
    s.check.entry in s.poly.done || Held(s, s.check.entry, Some(s.check.hash))
  }

  lemma RaceRun(env: Env, s: State, order: seq<Step>) returns (s': State)
    requires Racing(s)
    requires order == [DROP_RETRY, PUT_BACK, DROP_CHECK] || order == [PUT_BACK, DROP_RETRY, DROP_CHECK]
      || order == [PUT_BACK, DROP_CHECK, DROP_RETRY]
    ensures Run(env, s, order) == Some(s') && s'.poly == s.poly
    ensures Check(s') == Check(s) - {s.check.hash}
    ensures Retry(s') ==
      if order[0] == DROP_RETRY then Retry(s)[s.check.entry := EMPTY_VALUE] else Retry(s) - {s.check.entry}
  {
    hide Inv, Contents, Put, Delete;
    assert s.deposit.pc.entry == s.check.entry by {
      RaceEntry(s);
    }
    assert order[..2][..1] == order[..1] && order[..3] == order;
    assert order[..1][..0] == [];
    assert Run(env, s, order[..0]) == Some(s);
    assert Run(env, s, order[..1]) == Some(Apply(env, s, order[0]));
    var s1 := Apply(env, s, order[0]);
    assert Run(env, s, order[..2]) == Some(Apply(env, s1, order[1]));
    var s2 := Apply(env, s1, order[1]);
    s' := Apply(env, s2, order[2]);
    assert Run(env, s, order) == Some(s');
  }

  lemma RaceEntry(s: State)
    requires Racing(s)
    ensures s.deposit.pc.entry == s.check.entry
  {
  }

  /**
    The race, exactly. Once the deposit loop is about to delete an entry whose submission the checker has seen fail,
    the three remaining steps can come in three orders. The entry survives if the deletion from Retry comes first;
    in the two other orders it survives only if it is already done or sits in Check under another hash.
   */
  lemma RaceExact(env: Env, s: State)
    requires Racing(s)
    ensures
      var r := Run(env, s, [DROP_RETRY, PUT_BACK, DROP_CHECK]);
      r.Some? && Kept(r.value, s.check.entry)
    ensures
      var r := Run(env, s, [PUT_BACK, DROP_RETRY, DROP_CHECK]);
      r.Some? && (Kept(r.value, s.check.entry) <==> Rescued(s))
    ensures
      var r := Run(env, s, [PUT_BACK, DROP_CHECK, DROP_RETRY]);
      r.Some? && (Kept(r.value, s.check.entry) <==> Rescued(s))
  {
    hide Inv, Run, Contents;
    var a := RaceRun(env, s, [DROP_RETRY, PUT_BACK, DROP_CHECK]);
    var b := RaceRun(env, s, [PUT_BACK, DROP_RETRY, DROP_CHECK]);
    var c := RaceRun(env, s, [PUT_BACK, DROP_CHECK, DROP_RETRY]);
    HeldElsewhere(s, b, s.check.entry, s.check.hash);
    HeldElsewhere(s, c, s.check.entry, s.check.hash);
  }

  lemma HeldElsewhere(s: State, s': State, e: bytes, h0: bytes)
    requires Check(s') == Check(s) - {h0}
    ensures Held(s', e, None) <==> Held(s, e, Some(h0))
  {
    hide Contents;
    if Held(s, e, Some(h0)) {
      var h :| h in Check(s) && Check(s)[h] == e && h != h0;
      assert h in Check(s') && Check(s')[h] == e;
    }
  }

  /**
    A put that fails is only logged, and the deletion after it goes ahead: the entry then survives exactly if it is
    already done or sits in Check under another hash (for the checker: or is in Retry).
   */
  lemma FailedPutExact(env: Env, s: State)
    requires Up(s) && Inv(s)
    ensures s.deposit.pc.DSent? ==>
      var r := Run(env, s, [D(StoreCheck(false)), DROP_RETRY]);
      var e := s.deposit.pc.entry;
      r.Some? && (Kept(r.value, e) <==> e in s.poly.done || Held(s, e, None))
    ensures s.check.CBack? ==>
      var r := Run(env, s, [C(PutBack(false)), DROP_CHECK]);
      var e := s.check.entry;
      r.Some? && (Kept(r.value, e) <==> e in Retry(s) || Rescued(s))
  {
    hide Inv, Contents, Put, Delete;
    if s.deposit.pc.DSent? {
      var steps := [D(StoreCheck(false)), DROP_RETRY];
      assert steps[..1][..0] == [];
      assert Run(env, s, steps[..1]) == Some(Apply(env, s, steps[0]));
      var s' := Apply(env, Apply(env, s, steps[0]), steps[1]);
      assert Run(env, s, steps) == Some(s');
      assert Check(s') == Check(s) && Retry(s') == Retry(s) - {s.deposit.pc.entry};
    }
    if s.check.CBack? {
      var steps := [C(PutBack(false)), DROP_CHECK];
      assert steps[..1][..0] == [];
      assert Run(env, s, steps[..1]) == Some(Apply(env, s, steps[0]));
      var s' := Apply(env, Apply(env, s, steps[0]), steps[1]);
      assert Run(env, s, steps) == Some(s');
      assert Check(s') == Check(s) - {s.check.hash} && Retry(s') == Retry(s);
      HeldElsewhere(s, s', s.check.entry, s.check.hash);
    }
  }

  /** Retry keys carry no value of their own. */
  ghost predicate Plain(s: State) {
    forall k :: k in Retry(s) ==> Retry(s)[k] == EMPTY_VALUE
  }

  lemma PlainStep(env: Env, s: State, step: Step)
    requires Plain(s) && Enabled(env, s, step)
    ensures Plain(Apply(env, s, step))
  {
    hide Ready, Contents, Batch, Put, Delete;
    var s' := Apply(env, s, step);
    match step {
      case H(StoreEvent(true)) =>
        assert Retry(s') == Retry(s)[s.head.pc.rest[0] := EMPTY_VALUE];
      case C(PutBack(true)) =>
        assert Retry(s') == Retry(s)[s.check.entry := EMPTY_VALUE];
      case D(DropRetry(true)) =>
        assert Retry(s') == Retry(s) - {s.deposit.pc.entry};
      case H(_) => assert Retry(s') == Retry(s);
      case D(_) => assert Retry(s') == Retry(s);
      case C(_) => assert Retry(s') == Retry(s);
      case O(_) => assert Retry(s') == Retry(s);
    }
  }

  lemma {:induction false} PlainRun(env: Env, s0: State, steps: seq<Step>)
    requires Fresh(env, s0) && Run(env, s0, steps).Some?
    ensures Plain(Run(env, s0, steps).value)
  {
    hide Plain, Enabled, Apply;
    if steps == [] {
      assert Plain(s0) by { FreshPlain(env, s0); }
    } else {
      PlainRun(env, s0, steps[..|steps| - 1]);
      PlainStep(env, Run(env, s0, steps[..|steps| - 1]).value, steps[|steps| - 1]);
    }
  }

  lemma FreshPlain(env: Env, s: State)
    requires Fresh(env, s)
    ensures Plain(s)
  {
  }

  /** Fetching a stored event again, as a restart does, leaves the database as it is. */
  lemma RefetchChangesNothing(env: Env, s0: State, steps: seq<Step>)
    requires Fresh(env, s0) && Run(env, s0, steps).Some?
    requires
      var s := Run(env, s0, steps).value;
      s.head.pc.HStore? && s.head.pc.rest != [] && s.head.pc.rest[0] in Retry(s)
    ensures
      var s := Run(env, s0, steps).value;
      HeadApply(env, s, StoreEvent(true)).disk == s.disk
  {
    var s := Run(env, s0, steps).value;
    PlainRun(env, s0, steps);
    PutSame(s.disk.retry, s.head.pc.rest[0], EMPTY_VALUE);
  }
}
