/**
  Where the loops stand: facts of every run, whatever fails and whatever the outside world answers. They decide how
  far a proof lies behind the header loop and behind its transfer.
 */
module Positions {
  import opened Prelude
  import opened Pipeline
  import CrossTransfer
  import MappingKey

  /** The deposit cursor follows the header cursor; a header at hand is that of the block at the cursor. */
  ghost predicate Placed(s: State) {
    var hd := s.head;
    && s.poly.log != []
    && (hd.pc.Booting? ==> 1 <= hd.pc.epoch)
    && (hd.pc.HHeader? || hd.pc.HWait? ==> hd.hdr.Some? && hd.hdr.value.height == hd.cur)
    && (Up(s) ==>
        && 1 <= s.deposit.cursor <= hd.cur
        && (!s.deposit.pc.DIdle? ==> s.deposit.cursor < hd.cur))
  }

  /** What a proof records when it is issued. */
  ghost predicate ProofPlaced(env: Env, p: Proof) {
    && 1 <= p.ref < p.headCur
    && p.safe == Sub64(p.ref % TWO64, 1) && p.stated == p.safe % TWO32
    && Ready(env.distance, p.ref, p.entry)
    && var t := CrossTransfer.Decode(p.entry).value;
       p.value == t.value && p.slot == MappingKey.Preimage(t.txIndex, [48, 49])
  }

  lemma ProofHeights(env: Env, p: Proof)
    requires ProofPlaced(env, p)
    ensures 1 <= p.ref < p.headCur && p.safe == Sub64(p.ref % TWO64, 1) && p.stated == p.safe % TWO32
  {
  }

  ghost predicate Inv(env: Env, s: State) {
    Placed(s) && forall p :: p in s.history.proofs ==> ProofPlaced(env, p)
  }

  lemma PlacedStep(env: Env, s: State, step: Step)
    requires Placed(s) && Enabled(env, s, step)
    ensures Placed(Apply(env, s, step))
  {
    hide Ready;
  }

  lemma StepKeeps(env: Env, s: State, step: Step)
    requires Inv(env, s) && Enabled(env, s, step)
    ensures Inv(env, Apply(env, s, step))
  {
    hide ProofPlaced, Ready, ProofOf;
    PlacedStep(env, s, step);
    if step.D? && step.d.SubmitProof? {
      ProofIssued(env, s, step.d.reply);
    }
  }

  lemma ProofIssued(env: Env, s: State, reply: Reply)
    requires Placed(s) && DepositEnabled(env, s, SubmitProof(reply))
    ensures ProofPlaced(env, ProofOf(s.deposit.pc.rest[0], s.deposit.cursor, s.head.cur, s.poly.log))
  {
    hide CrossTransfer.DecodeAt, MappingKey.HexDecode;
  }

  /** The positions hold after every run. */
  lemma {:induction false} RunKeeps(env: Env, s0: State, steps: seq<Step>)
    requires Fresh(env, s0) && Run(env, s0, steps).Some?
    ensures Inv(env, Run(env, s0, steps).value)
  {
    hide Inv, Enabled, Apply;
    if steps == [] {
      assert Inv(env, s0) by { FreshHolds(env, s0); }
    } else {
      RunKeeps(env, s0, steps[..|steps| - 1]);
      StepKeeps(env, Run(env, s0, steps[..|steps| - 1]).value, steps[|steps| - 1]);
    }
  }

  lemma FreshHolds(env: Env, s: State)
    requires Fresh(env, s)
    ensures Inv(env, s)
  {
  }

  /** The starting epoch never changes. */
  lemma {:induction false} SameBase(env: Env, s0: State, steps: seq<Step>)
    requires Fresh(env, s0) && Run(env, s0, steps).Some?
    ensures Run(env, s0, steps).value.poly.log != [] && Run(env, s0, steps).value.poly.log[0] == s0.poly.log[0]
  {
    hide Ready;
    if steps != [] {
      SameBase(env, s0, steps[..|steps| - 1]);
    }
  }

  const DEFAULT_DISTANCE: uint64 := 6

  /** `safeBlockDistance`. */
  function SafeBlockDistance(blockConfig: uint64): uint64 {
    if blockConfig < DEFAULT_DISTANCE then DEFAULT_DISTANCE else blockConfig
  }

  /**
    Safe distance, in every run whatsoever: a submitted proof is two blocks behind the header loop, and keeps the
    distance to its transfer exactly when the deposit cursor is at least the distance. Below it the subtraction
    wraps, the guard lets the transfer through, and the proof is too early.
   */
  lemma SafeDistanceExact(env: Env, s0: State, steps: seq<Step>, p: Proof, blockConfig: uint64)
    requires Fresh(env, s0) && Run(env, s0, steps).Some?
    requires p in Run(env, s0, steps).value.history.proofs && p.ref < TWO64
    requires env.distance == SafeBlockDistance(blockConfig)
    ensures CrossTransfer.Decode(p.entry).Some? && p.safe + 2 <= p.headCur
    ensures
      var height := CrossTransfer.Decode(p.entry).value.height;
      && (p.safe >= height + env.distance <==> p.ref >= env.distance)
      && env.distance == (if blockConfig < 6 then 6 else blockConfig)
  {
    hide Run, CrossTransfer.Decode, MappingKey.Preimage;
    RunKeeps(env, s0, steps);
  }
}
