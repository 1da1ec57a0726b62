/**
  Where the relayer's work comes from: over every run, whatever fails and whatever the outside world answers, nothing is
  in the two buckets, under way or submitted that Palette did not emit, and a submission carries its own event's payload
  and slot.
 */
module Origins {
  import opened Prelude
  import opened BoltDb
  import opened Pipeline
  import Positions
  import CrossTransfer
  import MappingKey

  /** The Retry key of an event for a target contract in some block. */
  ghost predicate Emitted(env: Env, e: bytes) {
    exists t :: e in env.events(t)
  }

  ghost predicate Bucketed(env: Env, d: Disk) {
    && (forall e :: e in Contents(d.retry) ==> Emitted(env, e))
    && (forall h :: h in Contents(d.check) ==> Emitted(env, Contents(d.check)[h]))
  }

  ghost predicate AllEmitted(env: Env, entries: seq<bytes>) {
    forall e :: e in entries ==> Emitted(env, e)
  }

  ghost predicate HeadFrom(env: Env, pc: HeadPc) {
    pc.HStore? ==> AllEmitted(env, pc.rest)
  }

  ghost predicate DepositFrom(env: Env, pc: DepositPc) {
    match pc
    case DIdle => true
    case DRound(rest) => AllEmitted(env, rest)
    case DSent(e, _, rest) => Emitted(env, e) && AllEmitted(env, rest)
    case DDrop(e, _, rest) => Emitted(env, e) && AllEmitted(env, rest)
  }

  ghost predicate CheckFrom(env: Env, pc: CheckPc) {
    match pc
    case CIdle => true
    case CRound(rest) => forall h :: h in rest ==> Emitted(env, rest[h])
    case CBack(_, e, rest) => Emitted(env, e) && forall h :: h in rest ==> Emitted(env, rest[h])
    case CDrop(_, e, _, rest) => Emitted(env, e) && forall h :: h in rest ==> Emitted(env, rest[h])
  }

  ghost predicate Inv(env: Env, s: State) {
    && Bucketed(env, s.disk)
    && HeadFrom(env, s.head.pc) && DepositFrom(env, s.deposit.pc) && CheckFrom(env, s.check)
    && (forall p :: p in s.history.proofs ==> Emitted(env, p.entry))
    && (forall h :: h in s.poly.txs ==> Emitted(env, s.poly.txs[h].entry))
  }

  lemma PutRetry(env: Env, d: Disk, e: bytes)
    requires Bucketed(env, d) && Emitted(env, e)
    ensures Bucketed(env, d.(retry := Put(d.retry, e, EMPTY_VALUE)))
  {
    hide Contents, Emitted;
  }

  lemma PutCheck(env: Env, d: Disk, h: bytes, e: bytes)
    requires Bucketed(env, d) && Emitted(env, e)
    ensures Bucketed(env, d.(check := Put(d.check, h, e)))
  {
    hide Contents, Emitted;
  }

  lemma Deletes(env: Env, d: Disk, k: bytes)
    requires Bucketed(env, d)
    ensures Bucketed(env, d.(retry := Delete(d.retry, k))) && Bucketed(env, d.(check := Delete(d.check, k)))
  {
    hide Contents, Emitted;
  }

  lemma RetryRead(env: Env, d: Disk)
    requires Bucketed(env, d)
    ensures AllEmitted(env, KeyList(Batch(d.retry)))
  {
    hide Contents, Emitted;
    var keys := KeyList(Batch(d.retry));
    forall e | e in keys ensures Emitted(env, e) {
      var i :| 0 <= i < |keys| && keys[i] == e;
      BatchAt(d.retry, i);
    }
  }

  lemma CheckRead(env: Env, d: Disk)
    requires Bucketed(env, d)
    ensures CheckFrom(env, CRound(Contents(Batch(d.check))))
  {
    hide Contents, Emitted;
    forall h | h in Contents(Batch(d.check)) ensures Emitted(env, Contents(Batch(d.check))[h]) {
      var i := KeyAt(Batch(d.check), h);
      BatchAt(d.check, i);
    }
  }

  lemma HeadStepKeeps(env: Env, s: State, step: HeadStep)
    requires Inv(env, s) && HeadEnabled(env, s, step)
    ensures Inv(env, HeadApply(env, s, step))
  {
    hide Bucketed, Emitted, Put;
    match step {
      case StoreEvent(ok) => PutRetry(env, s.disk, s.head.pc.rest[0]);
      case QueryEvents(ok) => QueriedFrom(env, s.head.cur);
      case SaveHeight(ok) => SameBuckets(env, s.disk, HeadApply(env, s, step).disk);
      case _ =>
    }
  }

  lemma QueriedFrom(env: Env, t: nat)
    ensures AllEmitted(env, env.events(t))
  {
  }

  lemma SameBuckets(env: Env, d: Disk, d': Disk)
    requires Bucketed(env, d) && d'.retry == d.retry && d'.check == d.check
    ensures Bucketed(env, d')
  {
  }

  lemma DepositStepKeeps(env: Env, s: State, step: DepositStep)
    requires Inv(env, s) && DepositEnabled(env, s, step)
    ensures Inv(env, DepositApply(env, s, step))
  {
    hide Bucketed, Emitted, Put, Delete, Ready, ProofOf, Batch, KeyList;
    match step {
      case ReadRetry(_) => RetryRead(env, s.disk);
      case StoreCheck(_) => PutCheck(env, s.disk, s.deposit.pc.hash, s.deposit.pc.entry);
      case DropRetry(_) => Deletes(env, s.disk, s.deposit.pc.entry);
      case _ =>
    }
  }

  lemma CheckStepKeeps(env: Env, s: State, step: CheckStep)
    requires Inv(env, s) && CheckEnabled(s, step)
    ensures Inv(env, CheckApply(s, step))
  {
    hide Bucketed, Emitted, Put, Delete, Contents, Batch;
    match step {
      case ReadCheck(_) => CheckRead(env, s.disk);
      case PutBack(_) => PutRetry(env, s.disk, s.check.entry);
      case DropCheck(_) => Deletes(env, s.disk, s.check.hash);
      case _ =>
    }
  }

  lemma OutsideStepKeeps(env: Env, s: State, step: OutsideStep)
    requires Inv(env, s) && OutsideEnabled(s, step)
    ensures Inv(env, OutsideApply(s, step))
  {
    hide Bucketed, Emitted;
  }

  /** Every step of every loop, of Poly and of a crash or restart keeps it. */
  lemma StepKeeps(env: Env, s: State, step: Step)
    requires Inv(env, s) && Enabled(env, s, step)
    ensures Inv(env, Apply(env, s, step))
  {
    hide Inv;
    match step
    case H(h) => HeadStepKeeps(env, s, h);
    case D(d) => DepositStepKeeps(env, s, d);
    case C(c) => CheckStepKeeps(env, s, c);
    case O(o) => OutsideStepKeeps(env, s, o);
  }

  lemma FreshHolds(env: Env, s: State)
    requires Fresh(env, s)
    ensures Inv(env, s)
  {
  }

  lemma {:induction false} RunKeeps(env: Env, s0: State, steps: seq<Step>)
    requires Fresh(env, s0) && Run(env, s0, steps).Some?
    ensures Inv(env, Run(env, s0, steps).value)
  {
    hide Inv, Enabled, Apply;
    if steps == [] {
      FreshHolds(env, s0);
    } else {
      RunKeeps(env, s0, steps[..|steps| - 1]);
      StepKeeps(env, Run(env, s0, steps[..|steps| - 1]).value, steps[|steps| - 1]);
    }
  }

  /** The keys of the environment hold the events that Palette's contract emitted, block by block. */
  ghost predicate Tells(env: Env, chain: nat -> seq<CrossTransfer.Event>) {
    forall h: nat, e :: e in env.events(h) ==>
      h < TWO64 && exists i :: 0 <= i < |chain(h)| && CrossTransfer.Holds(e, chain(h)[i], h)
  }

  /** A submission that is exactly one event's: its payload, with the proof of the slot that Solidity gives its id. */
  ghost predicate Carries(p: Proof, evt: CrossTransfer.Event) {
    && p.value == evt.rawData && p.slot.Some?
    && (|evt.txId| <= 32 ==>
        var n := MappingKey.FromBigEndian(evt.txId);
        p.slot == Some(MappingKey.SolidityPreimage(n)) <==> n == 0 || n % TWO64 != 0)
  }

  /**
    Nothing is invented or mixed up: whatever was submitted to Poly in any run was emitted by Palette in some block `h`,
    carries that event's own payload and slot, and, from the deposit cursor `distance` on, states a height at least
    that distance above `h`.
   */
  lemma NothingInvented(env: Env, s0: State, steps: seq<Step>, chain: nat -> seq<CrossTransfer.Event>, p: Proof)
    requires Fresh(env, s0) && Run(env, s0, steps).Some? && Tells(env, chain)
    requires p in Run(env, s0, steps).value.history.proofs
    ensures exists h: nat, i ::
      && 0 <= i < |chain(h)| && Carries(p, chain(h)[i])
      && (env.distance <= p.ref < TWO64 ==> p.safe >= h + env.distance)
  {
    hide Run, CrossTransfer.Decode, MappingKey.Preimage, MappingKey.FromBigEndian, MappingKey.SolidityPreimage;
    RunKeeps(env, s0, steps);
    Positions.RunKeeps(env, s0, steps);
    var h: nat :| p.entry in env.events(h);
    var i :| 0 <= i < |chain(h)| && CrossTransfer.Holds(p.entry, chain(h)[i], h);
    assert Carries(p, chain(h)[i]);
  }
}
