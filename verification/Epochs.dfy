/**
  What Poly knows about Palette's validators: over every run of the pipeline, with failures, stale transactions,
  crashes and restarts, the accepted headers are exactly the changes of the validator set, and no proof runs ahead
  of the changes below it.
 */
module Epochs {
  import opened Prelude
  import opened BoltDb
  import opened Pipeline
  import Positions

  /** The heights in `(base, to)` where the validator set differs from that of the block before. */
  ghost function ChangePoints(env: Env, base: nat, to: nat): seq<nat> {
    if to <= base + 1 then []
    else ChangePoints(env, base, to - 1) + (if env.valset(to - 1) != env.valset(to - 2) then [to - 1] else [])
  }

  ghost function Heights(log: seq<Epoch>): (r: seq<nat>)
    ensures |r| == |log| && forall i :: 0 <= i < |r| ==> r[i] == log[i].height
  {
    seq(|log|, i requires 0 <= i < |log| => log[i].height)
  }

  /** The log compresses the chain up to its tip: each entry names its block's set, and starts a new one. */
  ghost predicate Exact(env: Env, log: seq<Epoch>) {
    && log != []
    && (forall i :: 0 <= i < |log| ==> log[i].valset == env.valset(log[i].height))
    && (forall i :: 0 <= i < |log| - 1 ==>
        && log[i].height < log[i + 1].height
        && log[i].valset != log[i + 1].valset
        && Quiet(env, log[i].valset, log[i].height, log[i + 1].height))
  }

  /** How far the header loop has compared headers. */
  function Compared(hd: Head): nat {
    if hd.pc.HQuery? || hd.pc.HStore? || hd.pc.HSave? || hd.pc.HAdvance? then hd.cur + 1 else hd.cur
  }

  /** A header in flight is obsolete, or it is the next change after the tip. */
  ghost predicate NextOrStale(env: Env, tip: Epoch, e: Epoch) {
    e.valset == env.valset(e.height) && (e.height <= tip.height || Next(env, tip, e))
  }

  /** The hypotheses of the epoch theorems. */
  ghost predicate Tracked(env: Env, s: State, step: Step) {
    Honest(env, s, step) && Landed(env, s, step)
  }

  /** What the running header loop knows. */
  ghost predicate HeadInv(env: Env, hd: Head, tip: Epoch) {
    && hd.last.height <= tip.height
    && (hd.last.height == tip.height ==> hd.last.valset == tip.valset)
    && (Compared(hd) <= tip.height || hd.last.valset == tip.valset)
    && Quiet(env, tip.valset, tip.height, Compared(hd))
    && (hd.hdr.Some? ==> hd.hdr.value.valset == env.valset(hd.hdr.value.height))
  }

  /**
    The log is exact; headers in flight are obsolete or the next change; no block that was handled, or whose height
    was saved, lies beyond a change that the log does not have.
   */
  ghost predicate ChainInv(env: Env, s: State) {
    && Exact(env, s.poly.log)
    && var tip := Tip(s.poly);
    && (forall e :: e in s.poly.inflight ==> NextOrStale(env, tip, e))
    && Quiet(env, tip.valset, tip.height, s.disk.saved + 1)
    && (forall t :: t in s.history.handled ==> Quiet(env, tip.valset, tip.height, t + 1))
    && (s.head.pc.Booting? ==> s.head.pc.epoch <= tip.height)
  }

  ghost predicate Inv(env: Env, s: State) {
    Positions.Placed(s) && ChainInv(env, s) && (Up(s) ==> HeadInv(env, s.head, Tip(s.poly)))
  }

  lemma SameChain(env: Env, s: State, s': State)
    requires ChainInv(env, s) && s'.poly.log == s.poly.log && s'.poly.inflight <= s.poly.inflight
    requires s'.disk.saved == s.disk.saved && s'.history.handled == s.history.handled
    requires s'.head.pc.Booting? ==> s'.head.pc.epoch <= Tip(s.poly).height
    ensures ChainInv(env, s')
  {
    hide Exact, Quiet, NextOrStale;
  }

  /** Steps of the header loop: what it knows stays true, and so does what a restart relies on. */
  lemma HeadKnows(env: Env, s: State, step: HeadStep)
    requires Inv(env, s) && HeadEnabled(env, s, step) && Landed(env, s, H(step))
    ensures HeadInv(env, HeadApply(env, s, step).head, Tip(s.poly))
  {
    hide Put;
    var tip := Tip(s.poly);
    assert tip.valset == env.valset(tip.height);
    hide ChainInv, Exact;
    if step.FetchHeader? || step.SkipEpochCheck? {
      hide Quiet;
      assert step.SkipEpochCheck? ==> s.head.cur + 1 <= tip.height + 1;
      assert step.SkipEpochCheck? ==> Quiet(env, tip.valset, tip.height, s.head.cur + 1) by {
        QuietBelow(env, tip, s.head.cur + 1);
      }
    }
  }

  lemma QuietBelow(env: Env, tip: Epoch, to: nat)
    ensures to <= tip.height + 1 ==> Quiet(env, tip.valset, tip.height, to)
  {
  }

  /** Where the header loop sends a header, it is the next change or obsolete. */
  lemma SentIsNext(env: Env, s: State, sent: bool, broadcast: bool)
    requires Inv(env, s) && HeadEnabled(env, s, SubmitHeader(sent, broadcast))
    ensures NextOrStale(env, Tip(s.poly), s.head.hdr.value)
  {
    hide ChainInv, Exact;
  }

  lemma HeadChain(env: Env, s: State, step: HeadStep)
    requires Inv(env, s) && HeadEnabled(env, s, step)
    ensures ChainInv(env, HeadApply(env, s, step))
  {
    hide Put, Exact, Quiet, NextOrStale;
    if step.SubmitHeader? {
      SentIsNext(env, s, step.sent, step.broadcast);
    }
  }

  lemma ExactGrows(env: Env, log: seq<Epoch>, e: Epoch)
    requires Exact(env, log) && Next(env, log[|log| - 1], e)
    ensures Exact(env, log + [e])
  {
    hide Quiet;
    var longer := log + [e];
    forall i | 0 <= i < |longer| - 1
      ensures longer[i].height < longer[i + 1].height && longer[i].valset != longer[i + 1].valset
      ensures Quiet(env, longer[i].valset, longer[i].height, longer[i + 1].height)
    {
      if i < |log| - 1 {
        assert longer[i + 1] == log[i + 1];
      }
    }
  }

  /** Whatever is quiet from the tip on ends at the next change at the latest. */
  lemma QuietEnds(env: Env, tip: Epoch, e: Epoch, to: nat)
    requires Next(env, tip, e) && Quiet(env, tip.valset, tip.height, to)
    ensures to <= e.height && Quiet(env, e.valset, e.height, to)
  {
    assert e.height < to ==> env.valset(e.height) == tip.valset;
  }

  lemma StaleNow(env: Env, tip: Epoch, e: Epoch, f: Epoch)
    requires Next(env, tip, e) && NextOrStale(env, tip, f)
    ensures NextOrStale(env, e, f)
  {
    assert Quiet(env, tip.valset, tip.height, f.height) && e.height < f.height ==> env.valset(e.height) == tip.valset;
  }

  /** The log grows by the next change, sent by whomever: everything known of the old tip holds of the new one. */
  lemma NextKeeps(env: Env, s: State, s': State, e: Epoch)
    requires Inv(env, s) && Next(env, Tip(s.poly), e)
    requires s'.poly.log == s.poly.log + [e] && s'.poly.inflight == s.poly.inflight
    requires s'.disk == s.disk && s'.head == s.head && s'.deposit == s.deposit && s'.history == s.history
    ensures Inv(env, s')
  {
    var tip := Tip(s.poly);
    assert Exact(env, s'.poly.log) by {
      ExactGrows(env, s.poly.log, e);
    }
    hide Exact, Quiet, NextOrStale;
    assert e.height > tip.height by {
      hide ChainInv;
    }
    hide Next;
    forall f | f in s.poly.inflight ensures NextOrStale(env, e, f) {
      StaleNow(env, tip, e, f);
    }
    QuietEnds(env, tip, e, s.disk.saved + 1);
    forall t | t in s.history.handled ensures Quiet(env, e.valset, e.height, t + 1) {
      QuietEnds(env, tip, e, t + 1);
    }
    if Up(s) {
      QuietEnds(env, tip, e, Compared(s.head));
    }
  }

  lemma BootKeeps(env: Env, s: State, force: nat)
    requires Inv(env, s) && OutsideEnabled(s, BootValset(force))
    ensures Inv(env, OutsideApply(s, BootValset(force)))
  {
    var s' := OutsideApply(s, BootValset(force));
    Positions.PlacedStep(env, s, O(BootValset(force)));
    assert ChainInv(env, s') by {
      SameChain(env, s, s');
    }
    var tip := Tip(s.poly);
    assert s'.head.cur <= tip.height || s'.head.cur <= s.disk.saved;
    assert Quiet(env, tip.valset, tip.height, s'.head.cur);
    hide Exact, Quiet, NextOrStale;
  }

  lemma OutsideStepKeeps(env: Env, s: State, step: OutsideStep)
    requires Inv(env, s) && OutsideEnabled(s, step) && Honest(env, s, O(step))
    ensures Inv(env, OutsideApply(s, step))
  {
    var s' := OutsideApply(s, step);
    match step {
      case BootValset(force) => BootKeeps(env, s, force);
      case HeaderByOther(e) => NextKeeps(env, s, s', e);
      case IncludeHeader(e, accepted) =>
        assert NextOrStale(env, Tip(s.poly), e);
        if accepted {
          NextKeeps(env, s, s', e);
        } else {
          hide Exact, Quiet, NextOrStale, HeadInv;
        }
      case _ =>
        hide Exact, Quiet, NextOrStale, HeadInv, Positions.Placed;
        Positions.PlacedStep(env, s, O(step));
    }
  }

  lemma HeadStepKeeps(env: Env, s: State, step: HeadStep)
    requires Inv(env, s) && HeadEnabled(env, s, step) && Landed(env, s, H(step))
    ensures Inv(env, HeadApply(env, s, step))
  {
    hide ChainInv, HeadInv, HeadEnabled, HeadApply;
    Positions.PlacedStep(env, s, H(step));
    HeadChain(env, s, step);
    HeadKnows(env, s, step);
    assert HeadApply(env, s, step).poly.log == s.poly.log by { HeadLog(env, s, step); }
  }

  lemma HeadLog(env: Env, s: State, step: HeadStep)
    requires HeadEnabled(env, s, step)
    ensures HeadApply(env, s, step).poly.log == s.poly.log
  {
  }

  /** Steps that leave the header loop and the chain alone. */
  lemma SameHeaders(env: Env, s: State, s': State)
    requires Inv(env, s) && Positions.Placed(s') && s'.head == s.head
    requires s'.poly.log == s.poly.log && s'.poly.inflight == s.poly.inflight
    requires s'.disk.saved == s.disk.saved && s'.history.handled == s.history.handled
    ensures Inv(env, s')
  {
    assert ChainInv(env, s') by {
      SameChain(env, s, s');
    }
    hide ChainInv, HeadInv;
  }

  lemma OtherStepKeeps(env: Env, s: State, step: Step)
    requires Inv(env, s) && Enabled(env, s, step) && (step.D? || step.C?)
    ensures Inv(env, Apply(env, s, step))
  {
    hide Inv, Ready, Batch, Put, Delete;
    assert Positions.Placed(Apply(env, s, step)) by {
      assert Positions.Placed(s) by { InvPlaced(env, s); }
      Positions.PlacedStep(env, s, step);
    }
    hide Positions.Placed;
    SameHeaders(env, s, Apply(env, s, step));
  }

  lemma InvPlaced(env: Env, s: State)
    requires Inv(env, s)
    ensures Positions.Placed(s)
  {
  }

  /** Every step of every loop, of Poly, of other relayers, and of a crash or restart keeps the invariant. */
  lemma StepKeeps(env: Env, s: State, step: Step)
    requires Inv(env, s) && Enabled(env, s, step) && Tracked(env, s, step)
    ensures Inv(env, Apply(env, s, step))
  {
    hide Inv;
    match step
    case H(h) => HeadStepKeeps(env, s, h);
    case O(o) => OutsideStepKeeps(env, s, o);
    case _ => OtherStepKeeps(env, s, step);
  }

  lemma FreshHolds(env: Env, s: State)
    requires Fresh(env, s)
    ensures Inv(env, s)
  {
  }

  /** The invariant holds after every such run from a fresh installation. */
  lemma {:induction false} RunKeeps(env: Env, s: State, steps: seq<Step>)
    requires Fresh(env, s) && Run(env, s, steps).Some? && Along(env, s, steps, Tracked)
    ensures Inv(env, Run(env, s, steps).value)
  {
    hide Inv, Enabled, Apply, Tracked, Fresh;
    if steps == [] {
      FreshHolds(env, s);
    } else {
      RunKeeps(env, s, steps[..|steps| - 1]);
      StepKeeps(env, Run(env, s, steps[..|steps| - 1]).value, steps[|steps| - 1]);
    }
  }

  lemma {:induction false} QuietAddsNothing(env: Env, base: nat, h: nat, to: nat)
    requires base <= h < to && Quiet(env, env.valset(h), h, to)
    ensures ChangePoints(env, base, to) == ChangePoints(env, base, h + 1)
  {
    if to > h + 1 {
      QuietAddsNothing(env, base, h, to - 1);
      assert env.valset(to - 1) == env.valset(h);
      assert env.valset(to - 2) == env.valset(h);
    }
  }

  lemma ChangeHere(env: Env, base: nat, h: nat)
    requires base < h && env.valset(h) != env.valset(h - 1)
    ensures ChangePoints(env, base, h + 1) == ChangePoints(env, base, h) + [h]
  {
  }

  lemma HeightsSplit(log: seq<Epoch>)
    requires log != []
    ensures Heights(log) == Heights(log[..|log| - 1]) + [log[|log| - 1].height]
  {
  }

  lemma InitExact(env: Env, log: seq<Epoch>)
    requires Exact(env, log) && |log| > 1
    ensures
      var n := |log| - 1;
      && Exact(env, log[..n])
      && log[n - 1].height < log[n].height
      && Quiet(env, log[n - 1].valset, log[n - 1].height, log[n].height)
      && env.valset(log[n].height - 1) == log[n - 1].valset
      && env.valset(log[n].height) != log[n - 1].valset
  {
    var n := |log| - 1;
    assert log[n - 1].height < log[n - 1 + 1].height;
    var init := log[..n];
    forall i | 0 <= i < n - 1
      ensures init[i].height < init[i + 1].height && init[i].valset != init[i + 1].valset
      ensures Quiet(env, init[i].valset, init[i].height, init[i + 1].height)
    {
      assert log[i].height < log[i + 1].height;
    }
  }

  /** An exact log lists the change points: comparing with the last commit finds what comparing neighbours finds. */
  lemma {:induction false} LogIsHistory(env: Env, log: seq<Epoch>, to: nat)
    requires Exact(env, log)
    requires log[|log| - 1].height < to && Quiet(env, log[|log| - 1].valset, log[|log| - 1].height, to)
    ensures Heights(log) == [log[0].height] + ChangePoints(env, log[0].height, to)
    decreases |log|
  {
    hide Quiet, Heights;
    var n := |log| - 1;
    var base, h := log[0].height, log[n].height;
    Ascending(env, log, 0, n);
    HeightsSplit(log);
    assert log[n].valset == env.valset(h);
    QuietAddsNothing(env, base, h, to);
    if n == 0 {
      assert Heights(log[..0]) == [];
      assert ChangePoints(env, base, base + 1) == [];
    } else {
      hide Exact, ChangePoints;
      InitExact(env, log);
      LogIsHistory(env, log[..n], h);
      ChangeHere(env, base, h);
    }
  }

  lemma {:induction false} Ascending(env: Env, log: seq<Epoch>, i: nat, j: nat)
    requires Exact(env, log) && i <= j < |log|
    ensures log[i].height <= log[j].height
    ensures i < j ==> log[i].height < log[j].height
    decreases j
  {
    if i < j {
      Ascending(env, log, i, j - 1);
      assert log[j - 1].height < log[j - 1 + 1].height;
    }
  }

  /** The index of the latest epoch at or below `t`. */
  ghost function EpochAt(log: seq<Epoch>, t: nat): (i: nat)
    requires log != [] && log[0].height <= t
    ensures i < |log| && log[i].height <= t
    ensures forall j :: i < j < |log| ==> t < log[j].height
  {
    if log[|log| - 1].height <= t then |log| - 1 else EpochAt(log[..|log| - 1], t)
  }

  /** The validators of a block are those of the latest epoch at or below it. */
  lemma EpochAtNames(env: Env, log: seq<Epoch>, to: nat, t: nat)
    requires Exact(env, log) && Quiet(env, log[|log| - 1].valset, log[|log| - 1].height, to)
    requires log[0].height <= t < to || log[0].height <= t <= log[|log| - 1].height
    ensures env.valset(t) == log[EpochAt(log, t)].valset
  {
    var i := EpochAt(log, t);
    if i < |log| - 1 {
      assert Quiet(env, log[i].valset, log[i].height, log[i + 1].height);
      assert t < log[i + 1].height;
    }
  }

  /**
    In every such run from a fresh installation, Poly's epochs are exactly the change points of the validator set up
    to wherever the running relayer has compared headers: in order, each once, none missing.
   */
  lemma EpochLogExact(env: Env, s0: State, steps: seq<Step>)
    requires Fresh(env, s0) && Run(env, s0, steps).Some? && Along(env, s0, steps, Tracked)
    ensures
      var s := Run(env, s0, steps).value;
      && s.poly.log != []
      && var base, tip := s.poly.log[0].height, Tip(s.poly).height;
      && Heights(s.poly.log) == [base] + ChangePoints(env, base, tip + 1)
      && (Up(s) && tip < Compared(s.head) ==>
          Heights(s.poly.log) == [base] + ChangePoints(env, base, Compared(s.head)))
  {
    hide Inv, Exact, Quiet, Heights, ChangePoints, Fresh, Tracked, Run, Along;
    RunKeeps(env, s0, steps);
    var s := Run(env, s0, steps).value;
    Knowledge(env, s);
    LogIsHistory(env, s.poly.log, Tip(s.poly).height + 1);
    if Up(s) && Tip(s.poly).height < Compared(s.head) {
      LogIsHistory(env, s.poly.log, Compared(s.head));
    }
  }

  /**
    At every height handled so far, by whichever process, from the starting epoch on, and wherever the running loop
    has compared, the chain's validators are those of Poly's epoch.
   */
  lemma EpochsNameBlocks(env: Env, s0: State, steps: seq<Step>, t: nat)
    requires Fresh(env, s0) && Run(env, s0, steps).Some? && Along(env, s0, steps, Tracked)
    ensures
      var s := Run(env, s0, steps).value;
      && s.poly.log != []
      && (s.poly.log[0].height <= t
          && (t <= Tip(s.poly).height || t in s.history.handled || (Up(s) && t < Compared(s.head))) ==>
          env.valset(t) == s.poly.log[EpochAt(s.poly.log, t)].valset)
  {
    hide Inv, Exact, Quiet, EpochAt, Fresh, Tracked, Run, Along;
    RunKeeps(env, s0, steps);
    var s := Run(env, s0, steps).value;
    Knowledge(env, s);
    if s.poly.log[0].height <= t {
      if t <= Tip(s.poly).height {
        EpochAtNames(env, s.poly.log, Tip(s.poly).height + 1, t);
      } else if t in s.history.handled {
        EpochAtNames(env, s.poly.log, t + 1, t);
      } else if Up(s) && t < Compared(s.head) {
        EpochAtNames(env, s.poly.log, Compared(s.head), t);
      }
    }
  }

  /** The part of the invariant that the theorems use. */
  lemma Knowledge(env: Env, s: State)
    requires Inv(env, s)
    ensures Exact(env, s.poly.log) && s.poly.log != []
    ensures forall t :: t in s.history.handled ==> Quiet(env, Tip(s.poly).valset, Tip(s.poly).height, t + 1)
    ensures Quiet(env, Tip(s.poly).valset, Tip(s.poly).height, Tip(s.poly).height + 1)
    ensures Up(s) ==> Quiet(env, Tip(s.poly).valset, Tip(s.poly).height, Compared(s.head))
  {
  }

  /** Poly's epochs name the validators of every block that the running process has compared. */
  ghost predicate Covered(env: Env, s: State) {
    Up(s) && s.poly.log != [] ==>
      forall t: nat :: s.poly.log[0].height <= t < Compared(s.head) ==>
        env.valset(t) == s.poly.log[EpochAt(s.poly.log, t)].valset
  }

  lemma InvCovers(env: Env, s: State)
    requires Inv(env, s)
    ensures Covered(env, s)
  {
    hide Inv, Exact, Quiet, EpochAt;
    Knowledge(env, s);
    if Up(s) {
      forall t: nat | s.poly.log[0].height <= t < Compared(s.head)
        ensures env.valset(t) == s.poly.log[EpochAt(s.poly.log, t)].valset
      {
        EpochAtNames(env, s.poly.log, Compared(s.head), t);
      }
    }
  }

  /** A confirmation of a header that Poly has not reached leaves that header's block without its epoch. */
  lemma ConfirmUncovers(env: Env, s: State)
    requires Inv(env, s) && HeadEnabled(env, s, ConfirmHeader)
    requires Next(env, Tip(s.poly), s.head.hdr.value)
    ensures !Covered(env, HeadApply(env, s, ConfirmHeader))
  {
    var e, log := s.head.hdr.value, s.poly.log;
    Ascending(env, log, 0, |log| - 1);
    assert e.height == s.head.cur && EpochAt(log, e.height) == |log| - 1;
    assert env.valset(e.height) != log[EpochAt(log, e.height)].valset;
  }

  /** Every header that the loop waits for, or that is in a block, was sent. */
  ghost predicate WaitsForSent(s: State) {
    && s.poly.included <= s.poly.inflight
    && (s.head.pc.HWait? ==> s.head.hdr.Some? && s.head.hdr.value in s.poly.inflight)
  }

  lemma SentStep(env: Env, s: State, step: Step)
    requires WaitsForSent(s) && Enabled(env, s, step)
    ensures WaitsForSent(Apply(env, s, step))
  {
    hide Ready, Put, Delete, Batch, KeyList;
    if step.H? {
      hide DepositEnabled, DepositApply, CheckEnabled, CheckApply, OutsideEnabled, OutsideApply;
    }
  }

  lemma {:induction false} SentFirst(env: Env, s0: State, steps: seq<Step>)
    requires Fresh(env, s0) && Run(env, s0, steps).Some?
    ensures WaitsForSent(Run(env, s0, steps).value)
  {
    hide Enabled, Apply;
    if steps != [] {
      SentFirst(env, s0, steps[..|steps| - 1]);
      SentStep(env, Run(env, s0, steps[..|steps| - 1]).value, steps[|steps| - 1]);
    }
  }

  /**
    commitHeader waits until its transaction is in a Poly block, and does not look at whether it was executed. Over
    whole runs: Poly's epochs cover every compared block at all times exactly if no confirmed header was above
    Poly's epoch.
   */
  lemma {:induction false} CoverageExact(env: Env, s0: State, steps: seq<Step>)
    requires Fresh(env, s0) && Run(env, s0, steps).Some? && Along(env, s0, steps, Honest)
    ensures Always(env, s0, steps, Covered) <==> Along(env, s0, steps, Landed)
  {
    hide Inv, Covered, Honest, Landed, Enabled, Apply;
    AlongBoth(env, s0, steps, Honest, Landed, Tracked);
    if Along(env, s0, steps, Landed) {
      RunKeeps(env, s0, steps);
      InvCovers(env, Run(env, s0, steps).value);
    }
    if steps != [] {
      var before, step := steps[..|steps| - 1], steps[|steps| - 1];
      CoverageExact(env, s0, before);
      if Along(env, s0, before, Landed) && Always(env, s0, steps, Covered) {
        AlongBoth(env, s0, before, Honest, Landed, Tracked);
        RunKeeps(env, s0, before);
        SentFirst(env, s0, before);
        CoveredLands(env, Run(env, s0, before).value, step);
      }
    }
  }

  lemma CoveredLands(env: Env, s: State, step: Step)
    requires Inv(env, s) && WaitsForSent(s) && Enabled(env, s, step) && Covered(env, Apply(env, s, step))
    ensures Landed(env, s, step)
  {
    hide Covered, Exact, Quiet;
    if step == H(ConfirmHeader) && !Landed(env, s, step) {
      ConfirmUncovers(env, s);
    }
  }

  /** What Poly knew when a proof was issued. */
  ghost predicate ProofInv(env: Env, base: Epoch, p: Proof) {
    && Exact(env, p.log) && p.log[0] == base
    && Quiet(env, p.log[|p.log| - 1].valset, p.log[|p.log| - 1].height, p.headCur)
  }

  ghost predicate ProofsInv(env: Env, s: State) {
    s.poly.log != [] && forall p :: p in s.history.proofs ==> ProofInv(env, s.poly.log[0], p)
  }

  lemma ProofIssued(env: Env, s: State, reply: Reply)
    requires Inv(env, s) && DepositEnabled(env, s, SubmitProof(reply))
    ensures s.poly.log != []
    ensures ProofInv(env, s.poly.log[0],
      ProofOf(s.deposit.pc.rest[0], s.deposit.cursor, s.head.cur, s.poly.log))
  {
    hide Ready, ProofOf;
  }

  lemma ProofsStep(env: Env, s: State, step: Step)
    requires Inv(env, s) && ProofsInv(env, s) && Enabled(env, s, step)
    ensures ProofsInv(env, Apply(env, s, step))
  {
    hide Inv, ProofInv, Ready;
    if step.D? && step.d.SubmitProof? {
      ProofIssued(env, s, step.d.reply);
    }
  }

  lemma {:induction false} ProofsKeep(env: Env, s0: State, steps: seq<Step>)
    requires Fresh(env, s0) && Run(env, s0, steps).Some? && Along(env, s0, steps, Tracked)
    ensures ProofsInv(env, Run(env, s0, steps).value)
  {
    hide Inv, Enabled, Apply, Tracked, ProofInv;
    if steps != [] {
      var before := steps[..|steps| - 1];
      ProofsKeep(env, s0, before);
      RunKeeps(env, s0, before);
      ProofsStep(env, Run(env, s0, before).value, steps[|steps| - 1]);
    }
  }

  /**
    Proofs never run ahead of epochs: in every interleaving, with any crashes, when a proof for height `safe` is
    submitted Poly already holds every validator-set change at or below `safe`, and its latest epoch at or below
    `safe` names exactly the validators of that block. The height stated to Poly is the proof's exactly below 2^32.
   */
  lemma ProofsBehindEpochs(env: Env, s0: State, steps: seq<Step>, p: Proof)
    requires Fresh(env, s0) && Run(env, s0, steps).Some? && Along(env, s0, steps, Tracked)
    requires p in Run(env, s0, steps).value.history.proofs && p.ref < TWO64
    ensures p.log != [] && p.safe + 1 == p.ref && p.safe + 2 <= p.headCur
    ensures p.stated == p.safe <==> p.safe < TWO32
    ensures
      var base := s0.poly.log[0].height;
      && (forall t :: base < t <= p.safe && env.valset(t) != env.valset(t - 1) ==> t in Heights(p.log))
      && (base <= p.safe ==> p.log[0].height == base && env.valset(p.safe) == p.log[EpochAt(p.log, p.safe)].valset)
  {
    hide Exact, Quiet, Heights, ChangePoints, EpochAt, Tracked, Run, Along, Ready;
    ProofsKeep(env, s0, steps);
    Positions.RunKeeps(env, s0, steps);
    Positions.SameBase(env, s0, steps);
    hide Positions.ProofPlaced;
    assert Positions.ProofPlaced(env, p) && ProofInv(env, s0.poly.log[0], p);
    Positions.ProofHeights(env, p);
    hide Fresh, ProofInv, ProofsInv, Positions.Inv;
    ProofKnows(env, s0.poly.log[0], p);
  }

  /** The log behind a proof lists and names whatever lies below the header loop. */
  lemma ProofKnows(env: Env, base: Epoch, p: Proof)
    requires ProofInv(env, base, p) && p.safe < p.headCur
    ensures p.log != [] && p.log[0] == base
    ensures forall t :: base.height < t <= p.safe && env.valset(t) != env.valset(t - 1) ==> t in Heights(p.log)
    ensures base.height <= p.safe ==> env.valset(p.safe) == p.log[EpochAt(p.log, p.safe)].valset
  {
    hide Exact, Quiet, Heights, ChangePoints, EpochAt;
    ProofFacts(env, base, p);
    var tip := p.log[|p.log| - 1].height;
    var to := if tip < p.headCur then p.headCur else tip + 1;
    LogIsHistory(env, p.log, to);
    forall t | base.height < t <= p.safe && env.valset(t) != env.valset(t - 1) ensures t in Heights(p.log) {
      ChangeListed(env, base.height, to, t);
    }
    if base.height <= p.safe {
      EpochAtNames(env, p.log, to, p.safe);
    }
  }

  lemma ProofFacts(env: Env, base: Epoch, p: Proof)
    requires ProofInv(env, base, p)
    ensures p.log != [] && p.log[0] == base && Exact(env, p.log)
    ensures
      var tip := p.log[|p.log| - 1];
      Quiet(env, tip.valset, tip.height, if tip.height < p.headCur then p.headCur else tip.height + 1)
  {
  }

  lemma {:induction false} ChangeListed(env: Env, base: nat, to: nat, t: nat)
    requires base < t < to && env.valset(t) != env.valset(t - 1)
    ensures t in ChangePoints(env, base, to)
  {
    if t < to - 1 {
      ChangeListed(env, base, to - 1, t);
    }
  }
}
