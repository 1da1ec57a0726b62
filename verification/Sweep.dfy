/**
  Which blocks the header loop handles, and what becomes of their events: over every run, with failures, crashes,
  restarts and other relayers at work.
 */
module Sweep {
  import opened Prelude
  import opened BoltDb
  import opened Pipeline
  import opened Conservation
  import Positions

  /** Every height in `[base, to)` has been handled, where `base` is the starting epoch. */
  ghost predicate Swept(s: State, to: nat) {
    forall t :: s.poly.log != [] && s.poly.log[0].height <= t < to ==> t in s.history.handled
  }

  /** No block from the starting epoch up to the cursor of a running process was skipped. */
  ghost predicate NoneSkipped(env: Env, s: State) {
    Up(s) ==> Swept(s, s.head.cur)
  }

  ghost predicate SentByUs(s: State, height: nat) {
    exists e :: e in s.poly.inflight && e.height == height
  }

  /** A start with no saved height begins at the starting epoch or below, or at an epoch that this relayer sent. */
  ghost predicate Resumes(env: Env, s: State, step: Step) {
    step.O? && step.o.BootValset? && s.head.pc.Booting? && s.poly.log != [] ==>
      || s.disk.saved > 0
      || StartHeight(s.disk.saved, s.head.pc.epoch, step.o.force) <= s.poly.log[0].height
      || SentByUs(s, s.head.pc.epoch)
  }

  ghost predicate SavesSucceed(env: Env, s: State, step: Step) {
    step.H? && step.h.SaveHeight? ==> step.h.ok
  }

  /** No other relayer's header takes effect. */
  ghost predicate Alone(env: Env, s: State, step: Step) {
    !(step.O? && step.o.HeaderByOther?)
  }

  ghost predicate Inv(env: Env, s: State) {
    && Positions.Placed(s)
    && Swept(s, s.disk.saved)
    && (forall e :: e in s.poly.inflight ==> Swept(s, e.height))
    && NoneSkipped(env, s)
  }

  lemma SweptGrows(s: State, s': State)
    requires s.poly.log != [] && s'.poly.log != [] && s'.poly.log[0] == s.poly.log[0]
    requires s.history.handled <= s'.history.handled
    ensures forall t :: Swept(s, t) ==> Swept(s', t)
  {
  }

  /** What a step does to the quantities that matter here. */
  lemma Grows(env: Env, s: State, step: Step)
    requires Positions.Placed(s) && Enabled(env, s, step)
    ensures
      var s' := Apply(env, s, step);
      && s'.poly.log != [] && s'.poly.log[0] == s.poly.log[0] && s.history.handled <= s'.history.handled
      && (forall e :: e in s'.poly.inflight ==> e in s.poly.inflight || (Up(s) && e.height == s.head.cur))
      && (s'.disk.saved == s.disk.saved || (Up(s) && s'.disk.saved == s.head.cur))
      && (Up(s') && !step.O? ==>
          && Up(s) && s.head.cur <= s'.head.cur <= s.head.cur + 1
          && (s'.head.cur == s.head.cur + 1 ==> s.head.cur in s'.history.handled))
      && (Up(s') && step.O? && !step.o.BootValset? ==> Up(s) && s'.head.cur == s.head.cur)
  {
    hide Ready, Put, Delete, Batch, Contents, KeyList;
  }

  lemma StepKeeps(env: Env, s: State, step: Step)
    requires Inv(env, s) && Enabled(env, s, step) && Resumes(env, s, step)
    ensures Inv(env, Apply(env, s, step))
  {
    var s' := Apply(env, s, step);
    assert Positions.Placed(s') by {
      Positions.PlacedStep(env, s, step);
    }
    Grows(env, s, step);
    SweptGrows(s, s');
    if step.O? && step.o.BootValset? {
      assert s'.head.cur <= s.disk.saved || s'.head.cur <= s.poly.log[0].height || SentByUs(s, s.head.pc.epoch);
    } else {
      hide Enabled, Apply;
    }
  }

  lemma FreshHolds(env: Env, s: State)
    requires Fresh(env, s)
    ensures Inv(env, s)
  {
  }

  lemma {:induction false} RunKeeps(env: Env, s0: State, steps: seq<Step>)
    requires Fresh(env, s0) && Run(env, s0, steps).Some? && Along(env, s0, steps, Resumes)
    ensures Inv(env, Run(env, s0, steps).value) && Always(env, s0, steps, NoneSkipped)
  {
    hide Swept, Enabled, Apply, Resumes;
    if steps == [] {
      FreshHolds(env, s0);
    } else {
      var before := steps[..|steps| - 1];
      RunKeeps(env, s0, before);
      StepKeeps(env, Run(env, s0, before).value, steps[|steps| - 1]);
    }
  }

  /** With every save succeeding, nothing saved means nothing handled. */
  ghost predicate SavedIfHandled(s: State) {
    && (s.disk.saved == 0 ==> s.history.handled == {})
    && (s.head.pc.HAdvance? ==> s.disk.saved > 0)
  }

  lemma SavedStep(env: Env, s: State, step: Step)
    requires SavedIfHandled(s) && Positions.Placed(s) && Enabled(env, s, step) && SavesSucceed(env, s, step)
    ensures SavedIfHandled(Apply(env, s, step))
  {
    hide Ready, Put, Delete, Batch, Contents, KeyList;
    if step.H? {
      hide DepositEnabled, DepositApply, CheckEnabled, CheckApply, OutsideEnabled, OutsideApply;
    }
  }

  lemma {:induction false} SavedFirst(env: Env, s0: State, steps: seq<Step>)
    requires Fresh(env, s0) && Run(env, s0, steps).Some? && Along(env, s0, steps, SavesSucceed)
    ensures SavedIfHandled(Run(env, s0, steps).value)
  {
    hide Enabled, Apply, SavesSucceed;
    if steps != [] {
      SavedFirst(env, s0, steps[..|steps| - 1]);
      Positions.RunKeeps(env, s0, steps[..|steps| - 1]);
      SavedStep(env, Run(env, s0, steps[..|steps| - 1]).value, steps[|steps| - 1]);
    }
  }

  lemma {:induction false} SkipsNowhere(env: Env, s0: State, steps: seq<Step>)
    requires Fresh(env, s0) && Run(env, s0, steps).Some? && Along(env, s0, steps, SavesSucceed)
    requires Always(env, s0, steps, NoneSkipped)
    ensures Along(env, s0, steps, Resumes)
  {
    hide Enabled, Apply;
    if steps != [] {
      var before := steps[..|steps| - 1];
      SkipsNowhere(env, s0, before);
      SavedFirst(env, s0, before);
      BootSkips(env, Run(env, s0, before).value, steps[|steps| - 1]);
    }
  }

  /** A start from nothing above the starting epoch, with nothing handled before, skips blocks. */
  lemma BootSkips(env: Env, s: State, step: Step)
    requires Enabled(env, s, step) && NoneSkipped(env, Apply(env, s, step))
    requires s.disk.saved == 0 ==> s.history.handled == {}
    ensures Resumes(env, s, step)
  {
    if step.O? && step.o.BootValset? && s.disk.saved == 0 {
      var base := s.poly.log[0].height;
      assert base !in Apply(env, s, step).history.handled;
    }
  }

  /**
    Crash and restart safety. Whatever fails, a running process has skipped no block from the starting epoch on, as
    long as a start with no saved height does not begin at an epoch that another relayer sent. If saves succeed,
    that is the exact condition.
   */
  lemma NoBlockSkipped(env: Env, s0: State, steps: seq<Step>)
    requires Fresh(env, s0) && Run(env, s0, steps).Some?
    ensures Along(env, s0, steps, Resumes) ==> Always(env, s0, steps, NoneSkipped)
    ensures Along(env, s0, steps, SavesSucceed) ==>
      (Always(env, s0, steps, NoneSkipped) <==> Along(env, s0, steps, Resumes))
  {
    hide NoneSkipped, Resumes, SavesSucceed;
    if Along(env, s0, steps, Resumes) {
      RunKeeps(env, s0, steps);
    } else if Along(env, s0, steps, SavesSucceed) && Always(env, s0, steps, NoneSkipped) {
      SkipsNowhere(env, s0, steps);
    }
  }

  /** Without other relayers every epoch above the first was sent by this one. */
  ghost predicate OwnEpochs(s: State) {
    && s.poly.log != []
    && (forall e :: e in s.poly.log[1..] ==> e in s.poly.inflight)
    && (s.head.pc.Booting? ==> s.head.pc.epoch == s.poly.log[0].height || SentByUs(s, s.head.pc.epoch))
  }

  lemma OwnStep(env: Env, s: State, step: Step)
    requires OwnEpochs(s) && Enabled(env, s, step) && Alone(env, s, step)
    ensures OwnEpochs(Apply(env, s, step)) && Resumes(env, s, step)
  {
    hide Ready, Put, Delete, Batch, Contents, KeyList;
    var s' := Apply(env, s, step);
    assert s.poly.inflight <= s'.poly.inflight;
    assert forall h :: SentByUs(s, h) ==> SentByUs(s', h);
    if step == O(BootHeight) && |s.poly.log| > 1 {
      assert Tip(s.poly) in s.poly.log[1..];
    }
  }

  /** On its own, the relayer never skips a block, whatever fails and wherever it crashes. */
  lemma {:induction false} AloneSkipsNothing(env: Env, s0: State, steps: seq<Step>)
    requires Fresh(env, s0) && Run(env, s0, steps).Some? && Along(env, s0, steps, Alone)
    ensures OwnEpochs(Run(env, s0, steps).value) && Along(env, s0, steps, Resumes)
    ensures Always(env, s0, steps, NoneSkipped)
  {
    hide Enabled, Apply, Alone, Resumes, NoneSkipped;
    if steps != [] {
      var before := steps[..|steps| - 1];
      AloneSkipsNothing(env, s0, before);
      OwnStep(env, Run(env, s0, before).value, steps[|steps| - 1]);
    }
    NoBlockSkipped(env, s0, steps);
  }

  /** A step by which the header loop compares a header, or finds its height not above the last epoch's. */
  predicate Compares(step: Step) {
    step == H(SkipEpochCheck) || step == H(NotEpoch) || step == H(ConfirmHeader)
  }

  predicate Queries(step: Step) {
    step.H? && step.h.QueryEvents?
  }

  /** Such a step was taken among these at the height `t`. */
  ghost predicate TakenAt(env: Env, s: State, steps: seq<Step>, t: nat, kind: Step -> bool)
    requires Run(env, s, steps).Some?
  {
    steps != [] &&
    var before := steps[..|steps| - 1];
    TakenAt(env, s, before, t, kind) || (kind(steps[|steps| - 1]) && Run(env, s, before).value.head.cur == t)
  }

  /** The process lives on: no crash, and so no other start. */
  ghost predicate LivesOn(env: Env, s: State, step: Step) {
    step != O(Crash)
  }

  /** What a process has compared and queried since it stood at `start`. */
  ghost predicate Worked(env: Env, s: State, steps: seq<Step>, start: nat)
    requires Run(env, s, steps).Some?
  {
    var hd := Run(env, s, steps).value.head;
    && Up(Run(env, s, steps).value) && start <= hd.cur
    && (forall t :: start <= t < hd.cur ==>
        TakenAt(env, s, steps, t, Compares) && TakenAt(env, s, steps, t, Queries))
    && (Compared(hd.pc) ==> TakenAt(env, s, steps, hd.cur, Compares))
    && (Queried(hd.pc) ==> TakenAt(env, s, steps, hd.cur, Queries))
  }

  /** The positions behind the comparison, and those behind the query. */
  predicate Compared(pc: HeadPc) {
    pc.HQuery? || Queried(pc)
  }

  predicate Queried(pc: HeadPc) {
    pc.HStore? || pc.HSave? || pc.HAdvance?
  }

  /** A block is left only at its end, which is behind both. */
  lemma Forward(env: Env, s: State, step: Step)
    requires Enabled(env, s, step) && Up(s) && LivesOn(env, s, step)
    ensures
      var hd, hd' := s.head, Apply(env, s, step).head;
      && Up(Apply(env, s, step))
      && (hd'.cur == hd.cur || (hd'.cur == hd.cur + 1 && Compared(hd.pc) && Queried(hd.pc)))
      && (Compared(hd'.pc) ==> hd'.cur == hd.cur && (Compared(hd.pc) || Compares(step)))
      && (Queried(hd'.pc) ==> hd'.cur == hd.cur && (Queried(hd.pc) || Queries(step)))
  {
    hide Ready, Put, Delete, Batch, Contents, KeyList;
  }

  lemma WorkedOn(env: Env, s: State, before: seq<Step>, step: Step, start: nat)
    requires Run(env, s, before).Some? && Enabled(env, Run(env, s, before).value, step)
    requires Worked(env, s, before, start) && LivesOn(env, Run(env, s, before).value, step)
    ensures Run(env, s, before + [step]).Some? && Worked(env, s, before + [step], start)
  {
    hide Enabled, Apply, Compares, Queries, Compared, Queried, LivesOn, TakenAt, Run;
    RunNext(env, s, before, step);
    Forward(env, Run(env, s, before).value, step);
    forall t: nat, kind: Step -> bool
      ensures TakenAt(env, s, before + [step], t, kind) <==>
        TakenAt(env, s, before, t, kind) || (kind(step) && Run(env, s, before).value.head.cur == t)
    {
      TakenOn(env, s, before, step, t, kind);
    }
  }

  lemma TakenOn(env: Env, s: State, before: seq<Step>, step: Step, t: nat, kind: Step -> bool)
    requires Run(env, s, before).Some? && Run(env, s, before + [step]).Some?
    ensures TakenAt(env, s, before + [step], t, kind) <==>
      TakenAt(env, s, before, t, kind) || (kind(step) && Run(env, s, before).value.head.cur == t)
  {
    hide Enabled, Apply;
    assert (before + [step])[..|before|] == before;
  }

  lemma {:induction false} ProcessWorks(env: Env, s: State, steps: seq<Step>)
    requires s.head.pc.HIdle? && Run(env, s, steps).Some? && Along(env, s, steps, LivesOn)
    ensures Worked(env, s, steps, s.head.cur)
  {
    hide Worked, Enabled, Apply, LivesOn;
    if steps == [] {
      NoWorkYet(env, s);
    } else {
      var n := |steps| - 1;
      ProcessWorks(env, s, steps[..n]);
      WorkedOn(env, s, steps[..n], steps[n], s.head.cur);
      assert steps == steps[..n] + [steps[n]];
    }
  }

  lemma NoWorkYet(env: Env, s: State)
    requires s.head.pc.HIdle?
    ensures Worked(env, s, [], s.head.cur)
  {
  }

  /**
    The reset that a forced height promises: a start with a height below where it would otherwise begin (the saved
    height, or Poly's epoch if none is saved) begins there in both loops, and for as long as the process lives every
    height from the forced one up to its cursor has been compared, and its events queried, by this process, whatever
    earlier ones did. Any other forced height changes nothing.
   */
  lemma ForcedStart(env: Env, s: State, force: nat, steps: seq<Step>)
    requires s.head.pc.Booting? && s.poly.log != []
    requires
      var started := Apply(env, s, O(BootValset(force)));
      Run(env, started, steps).Some? && Along(env, started, steps, LivesOn)
    ensures
      var started := Apply(env, s, O(BootValset(force)));
      var unforced := if s.disk.saved > 0 then s.disk.saved else s.head.pc.epoch;
      && started.head.cur == started.deposit.cursor
      && started.head.cur == (if 0 < force && force < unforced then force else unforced)
      && forall t :: started.head.cur <= t < Run(env, started, steps).value.head.cur ==>
          TakenAt(env, started, steps, t, Compares) && TakenAt(env, started, steps, t, Queries)
  {
    hide Run, Along;
    ProcessWorks(env, Apply(env, s, O(BootValset(force))), steps);
  }

  /** Every event query is answered in full. */
  ghost predicate QueriesSucceed(env: Env, s: State, step: Step) {
    step.H? ==> step.h != QueryEvents(false) && !step.h.BreakOff?
  }

  ghost predicate Read(s: State) {
    && s.history.handled <= s.history.fetched
    && (s.head.pc.HSave? || s.head.pc.HAdvance? ==> s.head.cur in s.history.fetched)
  }

  lemma ReadHeadStep(env: Env, s: State, step: HeadStep)
    requires Read(s) && HeadEnabled(env, s, step) && QueriesSucceed(env, s, H(step))
    ensures Read(HeadApply(env, s, step))
  {
    hide Put;
  }

  lemma ReadsStep(env: Env, s: State, step: Step)
    requires Read(s) && Enabled(env, s, step) && QueriesSucceed(env, s, step)
    ensures Read(Apply(env, s, step))
  {
    if step.H? {
      hide Read, HeadEnabled, HeadApply;
      ReadHeadStep(env, s, step.h);
    } else {
      hide Ready, Put, Delete, Batch, Contents, KeyList;
    }
  }

  lemma {:induction false} AllRead(env: Env, s0: State, steps: seq<Step>)
    requires Fresh(env, s0) && Run(env, s0, steps).Some? && Along(env, s0, steps, QueriesSucceed)
    ensures Read(Run(env, s0, steps).value)
  {
    hide Enabled, Apply, QueriesSucceed;
    if steps != [] {
      AllRead(env, s0, steps[..|steps| - 1]);
      ReadsStep(env, Run(env, s0, steps[..|steps| - 1]).value, steps[|steps| - 1]);
    }
  }

  /**
    No transfer of a passed block is lost: if every event query is answered in full, every event for a target
    contract of every block from the starting epoch up to the cursor is in Retry, in Check, or done on Poly.
   */
  lemma AllEventsKept(env: Env, s0: State, steps: seq<Step>, t: nat, e: bytes)
    requires Fresh(env, s0) && Run(env, s0, steps).Some?
    requires Along(env, s0, steps, Careful) && Along(env, s0, steps, QueriesSucceed) && Along(env, s0, steps, Resumes)
    requires
      var s := Run(env, s0, steps).value;
      Up(s) && s0.poly.log[0].height <= t < s.head.cur && e in env.events(t)
    ensures Kept(Run(env, s0, steps).value, e)
  {
    hide Kept, Careful, QueriesSucceed, Resumes, Run, Along, Always;
    Positions.SameBase(env, s0, steps);
    RunKeeps(env, s0, steps);
    AllRead(env, s0, steps);
    var s := Run(env, s0, steps).value;
    assert Swept(s, s.head.cur);
    assert t in s.history.handled && t in s.history.fetched;
    EventsKept(env, s0, steps, t, e);
  }

  /** The events of the block at the cursor that were not read. */
  ghost function Unread(env: Env, s: State): seq<bytes> {
    if s.head.pc.HStore? then s.head.pc.rest else env.events(s.head.cur)
  }

  /** The steps by which the header loop reads a block's events. */
  predicate Reading(step: HeadStep) {
    step == QueryEvents(true) || step.StoreEvent? || step.SkipDone?
  }

  /** The steps by which it leaves them. */
  predicate Leaving(step: HeadStep) {
    step == QueryEvents(false) || step.EndEvents? || step.BreakOff?
  }

  /** Among a block's events, with nothing else going on: what was read is kept. */
  ghost predicate Passing(env: Env, s0: State, s: State) {
    && (s.head.pc.HQuery? || s.head.pc.HStore?) && s.head.cur == s0.head.cur
    && var events, left := env.events(s.head.cur), Unread(env, s);
    && |left| <= |events| && left == events[|events| - |left|..]
    && (forall i :: 0 <= i < |events| - |left| ==> Kept(s, events[i]))
    && (s.head.pc.HQuery? ==> s == s0)
  }

  /** A put into Retry keeps what was kept, and the entry put. */
  lemma KeptByPut(s: State, s': State, e: bytes)
    requires s'.poly == s.poly && s'.disk.check == s.disk.check
    requires Retry(s') == Retry(s)[e := EMPTY_VALUE]
    ensures forall x :: Kept(s', x) <==> Kept(s, x) || x == e
  {
    hide Contents;
    assert Check(s') == Check(s);
    HeldGrows(s, s');
    HeldGrows(s', s);
  }

  lemma KeptSame(s: State, s': State)
    requires s'.poly == s.poly && s'.disk.check == s.disk.check && s'.disk.retry == s.disk.retry
    ensures forall x :: Kept(s', x) <==> Kept(s, x)
  {
    hide Contents;
    assert Check(s') == Check(s) && Retry(s') == Retry(s);
    HeldGrows(s, s');
    HeldGrows(s', s);
  }

  /** One more event read. */
  lemma {:induction false} OneRead(env: Env, s0: State, s: State, s': State)
    requires Passing(env, s0, s) && s.head.pc.HStore? && s.head.pc.rest != []
    requires s'.head == s.head.(pc := HStore(s.head.pc.rest[1..]))
    requires (forall x :: Kept(s, x) ==> Kept(s', x)) && Kept(s', s.head.pc.rest[0])
    ensures Passing(env, s0, s')
  {
    hide Kept;
    var events, left := env.events(s.head.cur), s.head.pc.rest;
    var n := |events| - |left|;
    assert left[1..] == events[n + 1..];
    forall i | 0 <= i < n + 1 ensures Kept(s', events[i]) {
      if i == n {
        assert left[0] == events[n];
      }
    }
  }

  lemma StoreKeeps(env: Env, s: State)
    requires HeadEnabled(env, s, StoreEvent(true))
    ensures
      var s' := HeadApply(env, s, StoreEvent(true));
      (forall x :: Kept(s, x) ==> Kept(s', x)) && Kept(s', s.head.pc.rest[0])
  {
    hide Kept, Put;
    KeptByPut(s, HeadApply(env, s, StoreEvent(true)), s.head.pc.rest[0]);
  }

  lemma SkipKeeps(env: Env, s: State)
    requires HeadEnabled(env, s, SkipDone) && s.head.pc.rest[0] in s.poly.done
    ensures
      var s' := HeadApply(env, s, SkipDone);
      (forall x :: Kept(s, x) ==> Kept(s', x)) && Kept(s', s.head.pc.rest[0])
  {
    var s' := HeadApply(env, s, SkipDone);
    DoneIsKept(s', s.head.pc.rest[0]);
    hide Kept;
    KeptSame(s, s');
  }

  lemma QueryPasses(env: Env, s0: State, s: State)
    requires Passing(env, s0, s) && HeadEnabled(env, s, QueryEvents(true))
    ensures Passing(env, s0, HeadApply(env, s, QueryEvents(true)))
  {
    hide Kept;
    assert Unread(env, HeadApply(env, s, QueryEvents(true))) == env.events(s.head.cur);
  }

  lemma ReadStep(env: Env, s0: State, s: State, step: HeadStep)
    requires Passing(env, s0, s) && HeadEnabled(env, s, step) && Reading(step)
    requires PutsSucceed(env, s, H(step)) && Honest(env, s, H(step))
    ensures Passing(env, s0, HeadApply(env, s, step))
  {
    hide Kept, Put, Passing;
    match step {
      case QueryEvents(_) =>
        QueryPasses(env, s0, s);
      case StoreEvent(_) =>
        StoreKeeps(env, s);
        OneRead(env, s0, s, HeadApply(env, s, step));
      case SkipDone =>
        SkipKeeps(env, s);
        OneRead(env, s0, s, HeadApply(env, s, step));
    }
  }

  lemma DoneIsKept(s: State, e: bytes)
    requires e in s.poly.done
    ensures Kept(s, e)
  {
  }

  ghost predicate ReadingPuts(env: Env, s: State, step: Step) {
    Honest(env, s, step) && PutsSucceed(env, s, step) && step.H? && Reading(step.h)
  }

  lemma NextRead(env: Env, s0: State, s: State, step: Step)
    requires Passing(env, s0, s) && Enabled(env, s, step) && ReadingPuts(env, s, step)
    ensures Passing(env, s0, Apply(env, s, step))
  {
    hide Passing, Honest, PutsSucceed, Reading, HeadEnabled, HeadApply;
    ReadStep(env, s0, s, step.h);
  }

  lemma {:induction false} ReadRun(env: Env, s0: State, steps: seq<Step>)
    requires s0.head.pc.HQuery? && Run(env, s0, steps).Some? && Along(env, s0, steps, ReadingPuts)
    ensures Passing(env, s0, Run(env, s0, steps).value)
  {
    hide Passing, Apply, Enabled, Honest, PutsSucceed, Reading, HeadEnabled, HeadApply;
    if steps == [] {
      PassingStarts(env, s0);
    } else {
      var before := Run(env, s0, steps[..|steps| - 1]).value;
      ReadRun(env, s0, steps[..|steps| - 1]);
      var step := steps[|steps| - 1];
      assert ReadingPuts(env, before, step) && Enabled(env, before, step);
      NextRead(env, s0, before, step);
    }
  }

  lemma PassingStarts(env: Env, s0: State)
    requires s0.head.pc.HQuery?
    ensures Passing(env, s0, s0)
  {
    hide Kept;
  }

  lemma LeaveRun(env: Env, m: State, leave: HeadStep, saved: bool) returns (r: State)
    requires HeadEnabled(env, m, leave) && Leaving(leave)
    ensures Run(env, m, [H(leave), H(SaveHeight(saved)), H(Advance)]) == Some(r)
    ensures r.poly == m.poly && r.disk.retry == m.disk.retry && r.disk.check == m.disk.check
    ensures r.head.cur == m.head.cur + 1 && r.history.handled == m.history.handled + {m.head.cur}
    ensures r.history.fetched == m.history.fetched + (if leave.EndEvents? then {m.head.cur} else {})
  {
    var steps := [H(leave), H(SaveHeight(saved)), H(Advance)];
    assert steps[..2][..1] == steps[..1] && steps[..3] == steps && steps[..1][..0] == [];
    assert Run(env, m, steps[..0]) == Some(m);
    var m1 := Apply(env, m, steps[0]);
    assert Run(env, m, steps[..1]) == Some(m1);
    var m2 := Apply(env, m1, steps[1]);
    assert Run(env, m, steps[..2]) == Some(m2);
    r := Apply(env, m2, steps[2]);
  }

  /**
    One pass over a block's events, exactly. The block counts as handled however it went; afterwards all its events
    are kept or done exactly if those that were left unread, because the query failed or because the iterator
    stopped on an error, were so already.
   */
  lemma PassExact(env: Env, s0: State, steps: seq<Step>, leave: HeadStep, saved: bool)
    requires s0.head.pc.HQuery? && Run(env, s0, steps).Some? && Along(env, s0, steps, ReadingPuts)
    requires HeadEnabled(env, Run(env, s0, steps).value, leave) && Leaving(leave)
    ensures
      var m := Run(env, s0, steps).value;
      var r := Run(env, m, [H(leave), H(SaveHeight(saved)), H(Advance)]);
      && r.Some? && r.value.head.cur == s0.head.cur + 1 && s0.head.cur in r.value.history.handled
      && ((forall e :: e in env.events(s0.head.cur) ==> Kept(r.value, e)) <==>
          forall e :: e in Unread(env, m) ==> Kept(m, e))
      && (leave == QueryEvents(false) ==> m == s0 && Unread(env, m) == env.events(s0.head.cur))
      && (leave.EndEvents? ==> Unread(env, m) == [])
  {
    hide Kept, Run, Along;
    var m := Run(env, s0, steps).value;
    ReadRun(env, s0, steps);
    var r := LeaveRun(env, m, leave, saved);
    KeptSame(m, r);
    var events, left := env.events(s0.head.cur), Unread(env, m);
    var n := |events| - |left|;
    assert events == events[..n] + left;
    assert forall e :: e in events[..n] ==> Kept(m, e);
  }
}
