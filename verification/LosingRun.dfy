/**
  Concrete runs around one transfer in block `at`: three that lose it, each meeting every assumption of conservation
  but one, and one whose proof height does not fit its 32 bits.
 */
module LosingRun {
  import opened Prelude
  import opened BoltDb
  import opened Pipeline
  import opened Conservation
  import CrossTransfer
  import ZeroCopy

  ghost predicate HonestPuts(env: Env, s: State, step: Step) {
    Honest(env, s, step) && PutsSucceed(env, s, step)
  }

  ghost predicate HonestNoRace(env: Env, s: State, step: Step) {
    Honest(env, s, step) && NoRace(env, s, step)
  }

  /** A block low enough that no cursor wraps. */
  type Low = at: nat | 1 <= at < TWO64 - 20 witness 1

  function Transfer(at: Low): CrossTransfer.CrossTransfer {
    CrossTransfer.CrossTransfer([], [], [], 0, at)
  }

  ghost function Key(at: Low): bytes {
    CrossTransfer.Encode(Transfer(at))
  }

  /** One transfer, in block `at`, which is also where Poly's starting epoch lies; the validators never change. */
  ghost function OneTransfer(at: Low): Env {
    Env(_ => multiset{}, h => if h == at then [Key(at)] else [], 6)
  }

  ghost function Installed(at: Low): State {
    State(Poly([Epoch(at, multiset{})], {}, {}, map[], {}), Disk([], [], 0),
          Head(Down, 0, Epoch(0, multiset{}), None), Deposit(DIdle, 0), CIdle, History({}, {}, {}, [], []))
  }

  /** A run from the installation. */
  ghost predicate Reaches(at: Low, steps: seq<Step>, s: State, p: (Env, State, Step) -> bool) {
    Run(OneTransfer(at), Installed(at), steps) == Some(s) && Along(OneTransfer(at), Installed(at), steps, p)
  }

  lemma Begin(at: Low)
    ensures Reaches(at, [], Installed(at), Careful)
  {
  }

  lemma More(at: Low, steps: seq<Step>, s: State, step: Step, p: (Env, State, Step) -> bool)
    returns (longer: seq<Step>, s': State)
    requires Reaches(at, steps, s, p) && Enabled(OneTransfer(at), s, step) && p(OneTransfer(at), s, step)
    ensures s' == Apply(OneTransfer(at), s, step) && Reaches(at, longer, s', p)
  {
    hide Run, Along, Enabled, Apply;
    longer, s' := Extend(OneTransfer(at), Installed(at), steps, step, p);
  }

  /** The header loop is at `pc` of block `cur`; the transfer is stored; nothing was submitted yet. */
  ghost predicate At(at: Low, s: State, pc: HeadPc, cur: nat, cursor: nat) {
    && s.poly == Installed(at).poly
    && s.disk.retry == Put([], Key(at), EMPTY_VALUE) && s.disk.check == []
    && s.head.pc == pc && s.head.cur == cur && s.head.last == Epoch(at, multiset{})
    && (pc.HHeader? ==> s.head.hdr.Some?)
    && (s.head.hdr.Some? ==> s.head.hdr.value == Epoch(s.head.hdr.value.height, multiset{}))
    && s.deposit == Deposit(DIdle, cursor) && s.check == CIdle
    && s.history.stored == {Key(at)} && s.history.proofs == []
  }

  lemma FirstStored(at: Low) returns (steps: seq<Step>, s: State)
    ensures Reaches(at, steps, s, Careful) && At(at, s, HStore([]), at, at)
  {
    hide Reaches, Key, Put;
    Begin(at);
    steps, s := More(at, [], Installed(at), O(BootHeight), Careful);
    steps, s := More(at, steps, s, O(BootValset(0)), Careful);
    steps, s := More(at, steps, s, H(SkipEpochCheck), Careful);
    steps, s := More(at, steps, s, H(QueryEvents(true)), Careful);
    steps, s := More(at, steps, s, H(StoreEvent(true)), Careful);
  }

  /** The header loop takes one step of an uneventful block. */
  lemma Go(at: Low, steps: seq<Step>, s: State, cur: nat, step: HeadStep, pc: HeadPc)
    returns (longer: seq<Step>, s': State)
    requires Reaches(at, steps, s, Careful)
    requires At(at, s, s.head.pc, cur, at) && cur >= at && HeadEnabled(OneTransfer(at), s, step)
    requires
      || (step == FetchHeader(true) && pc == HHeader)
      || (step == NotEpoch && pc == HQuery)
      || (step == QueryEvents(true) && cur > at && pc == HStore([]))
      || (step == EndEvents && pc == HSave)
      || (step == SaveHeight(true) && pc == HAdvance)
    ensures Reaches(at, longer, s', Careful) && At(at, s', pc, cur, at)
  {
    hide Reaches, Key, Put;
    longer, s' := More(at, steps, s, H(step), Careful);
  }

  lemma Finish(at: Low, steps: seq<Step>, s: State, cur: nat) returns (longer: seq<Step>, s': State)
    requires Reaches(at, steps, s, Careful) && At(at, s, HStore([]), cur, at) && cur >= at
    ensures Reaches(at, longer, s', Careful) && At(at, s', HIdle, cur + 1, at)
  {
    hide Reaches, Key, Put;
    longer, s' := Go(at, steps, s, cur, EndEvents, HSave);
    longer, s' := Go(at, longer, s', cur, SaveHeight(true), HAdvance);
    longer, s' := More(at, longer, s', H(Advance), Careful);
  }

  lemma {:induction false} IdleBlocks(at: Low, n: nat) returns (steps: seq<Step>, s: State)
    ensures Reaches(at, steps, s, Careful) && At(at, s, HIdle, at + 1 + n, at)
  {
    hide Reaches, Key, Put;
    if n == 0 {
      steps, s := FirstStored(at);
      steps, s := Finish(at, steps, s, at);
    } else {
      steps, s := IdleBlocks(at, n - 1);
      steps, s := Go(at, steps, s, at + n, FetchHeader(true), HHeader);
      steps, s := Go(at, steps, s, at + n, NotEpoch, HQuery);
      steps, s := Go(at, steps, s, at + n, QueryEvents(true), HStore([]));
      steps, s := Finish(at, steps, s, at + n);
    }
  }

  /** Deposit rounds that read nothing. */
  lemma {:induction false} IdleRounds(at: Low, n: nat) returns (steps: seq<Step>, s: State)
    requires n <= 7
    ensures Reaches(at, steps, s, Careful) && At(at, s, HIdle, at + 8, at + n)
  {
    hide Reaches, Key, Put, Batch, Ready;
    if n == 0 {
      steps, s := IdleBlocks(at, 7);
    } else {
      steps, s := IdleRounds(at, n - 1);
      steps, s := More(at, steps, s, D(ReadRetry(false)), Careful);
    }
  }

  lemma Old(at: Low)
    ensures Ready(6, at + 7, Key(at)) && CrossTransfer.Decode(Key(at)) == Some(Transfer(at))
  {
    hide ZeroCopy.LittleEndian, ZeroCopy.VarBytes, CrossTransfer.Encode, CrossTransfer.DecodeAt;
    CrossTransfer.RoundTrip(Transfer(at), []);
    assert Key(at) + [] == Key(at);
    assert Sub64((at + 7) % TWO64, 6) == at + 1;
  }

  lemma ReadsOne(at: Low, s: State)
    requires At(at, s, HIdle, at + 8, at + 7)
    ensures DepositEnabled(OneTransfer(at), s, ReadRetry(true))
    ensures DepositApply(OneTransfer(at), s, ReadRetry(true)) == s.(deposit := Deposit(DRound([Key(at)]), at + 7))
  {
    hide Key;
    assert KeyList(Batch(s.disk.retry)) == [Key(at)];
  }

  lemma SubmitsOne(at: Low, s: State, hash: bytes)
    requires Up(s) && s.deposit == Deposit(DRound([Key(at)]), at + 7) && s.head.cur == at + 8
    requires s.poly == Installed(at).poly && s.history.proofs == [] && Ready(6, at + 7, Key(at))
    ensures DepositEnabled(OneTransfer(at), s, SubmitProof(Sent(hash)))
    ensures
      var s' := DepositApply(OneTransfer(at), s, SubmitProof(Sent(hash)));
      && s' == s.(poly := s'.poly, deposit := Deposit(DSent(Key(at), hash, []), at + 7), history := s'.history)
      && s'.poly == s.poly.(txs := map[hash := PolyTx(Key(at), Pending)])
      && s'.history == s.history.(proofs :=
           [ProofOf(Key(at), at + 7, at + 8, Installed(at).poly.log)])
  {
    hide Key, Ready;
    var s' := DepositApply(OneTransfer(at), s, SubmitProof(Sent(hash)));
    assert Sub64((at + 7) % TWO64, 1) == at + 6;
    assert [Key(at)][1..] == [];
    assert s'.poly.txs == map[hash := PolyTx(Key(at), Pending)];
    assert s'.history.proofs == [ProofOf(Key(at), at + 7, at + 8, Installed(at).poly.log)];
  }

  /** The transfer is old enough, and is submitted as `hash`. */
  lemma Submitted(at: Low, hash: bytes) returns (steps: seq<Step>, s: State)
    ensures Reaches(at, steps, s, Careful)
    ensures Up(s) && s.head.cur == at + 8 && s.deposit == Deposit(DSent(Key(at), hash, []), at + 7)
    ensures s.check == CIdle && s.history.stored == {Key(at)}
    ensures s.disk.retry == Put([], Key(at), EMPTY_VALUE) && s.disk.check == []
    ensures s.poly == Installed(at).poly.(txs := map[hash := PolyTx(Key(at), Pending)])
    ensures s.history.proofs ==
      [ProofOf(Key(at), at + 7, at + 8, Installed(at).poly.log)]
  {
    hide Reaches, Key, Ready, Put, DepositEnabled, DepositApply;
    Old(at);
    steps, s := IdleRounds(at, 7);
    ReadsOne(at, s);
    steps, s := More(at, steps, s, D(ReadRetry(true)), Careful);
    SubmitsOne(at, s, hash);
    steps, s := More(at, steps, s, D(SubmitProof(Sent(hash))), Careful);
  }

  ghost predicate Allows(at: Low, p: (Env, State, Step) -> bool) {
    forall s, step :: Careful(OneTransfer(at), s, step) ==> p(OneTransfer(at), s, step)
  }

  /** The import fails, and the checker sees it. */
  lemma FailureSeen(at: Low, hash: bytes, steps: seq<Step>, s: State, p: (Env, State, Step) -> bool)
    returns (longer: seq<Step>, s': State)
    requires Reaches(at, steps, s, p) && Allows(at, p) && Up(s) && s.check == CIdle
    requires s.disk.check == [Entry(hash, Key(at))]
    requires s.poly == Installed(at).poly.(txs := map[hash := PolyTx(Key(at), Pending)])
    ensures Reaches(at, longer, s', p)
    ensures s' == s.(poly := s.poly.(txs := map[hash := PolyTx(Key(at), Failed)]),
                     check := CBack(hash, Key(at), map[]))
  {
    hide Reaches, Key, HeadEnabled, HeadApply, DepositEnabled, DepositApply;
    assert Contents(Batch(s.disk.check)) == map[hash := Key(at)];
    longer, s' := More(at, steps, s, O(ExecuteImport(hash, false)), p);
    longer, s' := More(at, longer, s', C(ReadCheck(true)), p);
    longer, s' := More(at, longer, s', C(SeeFailure(hash)), p);
    assert map[hash := Key(at)] - {hash} == map[];
  }

  lemma Weaken(at: Low, steps: seq<Step>, s: State)
    requires Reaches(at, steps, s, Careful)
    ensures Reaches(at, steps, s, HonestPuts) && Reaches(at, steps, s, HonestNoRace)
    ensures Allows(at, HonestPuts) && Allows(at, HonestNoRace)
  {
    AlongWeaker(OneTransfer(at), Installed(at), steps, Careful, HonestPuts);
    AlongWeaker(OneTransfer(at), Installed(at), steps, Careful, HonestNoRace);
  }

  /** The transfer was stored and is nowhere. */
  ghost predicate Gone(at: Low, s: State) {
    Key(at) in s.history.stored && !Kept(s, Key(at))
  }

  lemma GoneIf(at: Low, s: State)
    requires s.history.stored == {Key(at)} && s.disk.retry == [] && s.disk.check == [] && s.poly.done == {}
    ensures Gone(at, s)
  {
    assert Retry(s) == map[] && Check(s) == map[];
  }

  /**
    The race: the transfer is recorded in Check; its import fails; the checker puts it back and forgets the hash; only
    then does the deposit loop delete it from Retry.
   */
  lemma TransferLost(at: Low, hash: bytes) returns (steps: seq<Step>, s: State)
    ensures Fresh(OneTransfer(at), Installed(at)) && Reaches(at, steps, s, HonestPuts) && Gone(at, s)
  {
    hide Reaches, Key, Gone, Allows;
    steps, s := Submitted(at, hash);
    Weaken(at, steps, s);
    steps, s := More(at, steps, s, D(StoreCheck(true)), HonestPuts);
    assert s.disk.check == [Entry(hash, Key(at))];
    steps, s := FailureSeen(at, hash, steps, s, HonestPuts);
    steps, s := More(at, steps, s, PUT_BACK, HonestPuts);
    steps, s := More(at, steps, s, DROP_CHECK, HonestPuts);
    steps, s := More(at, steps, s, DROP_RETRY, HonestPuts);
    GoneIf(at, s);
  }

  /** No race, but the put into Check fails, is only logged, and the deletion from Retry goes ahead. */
  lemma LostByFailedPut(at: Low, hash: bytes) returns (steps: seq<Step>, s: State)
    ensures Fresh(OneTransfer(at), Installed(at)) && Reaches(at, steps, s, HonestNoRace) && Gone(at, s)
  {
    hide Reaches, Key, Gone, Allows;
    steps, s := Submitted(at, hash);
    Weaken(at, steps, s);
    steps, s := More(at, steps, s, D(StoreCheck(false)), HonestNoRace);
    steps, s := More(at, steps, s, DROP_RETRY, HonestNoRace);
    GoneIf(at, s);
  }

  /** The checker's turn: its put back into Retry fails, is only logged, and the deletion from Check goes ahead. */
  lemma LostByFailedPutBack(at: Low, hash: bytes) returns (steps: seq<Step>, s: State)
    ensures Fresh(OneTransfer(at), Installed(at)) && Reaches(at, steps, s, HonestNoRace) && Gone(at, s)
  {
    hide Reaches, Key, Gone, Allows;
    steps, s := Submitted(at, hash);
    Weaken(at, steps, s);
    steps, s := More(at, steps, s, D(StoreCheck(true)), HonestNoRace);
    assert s.disk.check == [Entry(hash, Key(at))];
    steps, s := More(at, steps, s, DROP_RETRY, HonestNoRace);
    assert s.disk.retry == [];
    steps, s := FailureSeen(at, hash, steps, s, HonestNoRace);
    steps, s := More(at, steps, s, C(PutBack(false)), HonestNoRace);
    steps, s := More(at, steps, s, DROP_CHECK, HonestNoRace);
    GoneIf(at, s);
  }

  /** From block 2^32 on, the height that a proof states is not the height it was made for. */
  lemma HeightCut(hash: bytes) returns (steps: seq<Step>, s: State, p: Proof)
    ensures Fresh(OneTransfer(TWO32), Installed(TWO32)) && Reaches(TWO32, steps, s, Careful)
    ensures p in s.history.proofs && p.safe == TWO32 + 6 && p.stated == 6
  {
    hide Reaches, Key, ProofOf, Put;
    steps, s := Submitted(TWO32, hash);
    p := s.history.proofs[0];
  }
}
