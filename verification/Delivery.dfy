/**
  From Poly's blocks to Palette: the height scan, the channels to the senders, their calls, and crashes
  (manager/poly.go). A handled height is only a height whose deposits were put into channels of a running process; what
  becomes of them is proved here, over every interleaving of the scan with the senders, and across restarts.
 */
module Delivery {
  import opened Prelude
  import opened PolyManager
  import Manager = PolyManager
  import PolyRuns

  /** The place of a notification on Poly: block, transaction, notification. */
  datatype Deposit = Deposit(height: uint32, tx: nat, at: nat)

  datatype Env = Env(config: Config, blocks: uint32 -> seq<TxEvents>, paths: (uint32, bytes) -> bytes)

  predicate Listed(env: Env, d: Deposit) {
    d.tx < |env.blocks(d.height)| && d.at < |env.blocks(d.height)[d.tx].notifies|
  }

  /** A notification that leads to a deposit. */
  predicate Due(env: Env, d: Deposit) {
    Listed(env, d) &&
    var n := env.blocks(d.height)[d.tx].notifies[d.at];
    Selects(env.config, n, Some(env.paths(d.height, n.proofKey)))
  }

  datatype Pc =
    | Down
    | Idle
    | Scanning(end: uint32)
    | Reading(end: uint32, reply: BlockReply, tx: nat, at: nat)  // before that notification
    | Saving

  /** A deposit in the channel of one sender routine. */
  datatype Queued = Queued(routine: nat, deposit: Deposit)

  /**
    `start` is where the running process began, `base` where the first one did. The five sets are history: offered to
    a sender at least once, accepted by a Palette node, found on Palette already, and, since last offered, failed or
    unsent when the process died.
   */
  datatype State = State(pc: Pc, start: uint32, base: Option<uint32>, cur: uint32, saved: uint32,
                         queue: seq<Queued>, calls: map<nat, Deposit>,
                         offered: set<Deposit>, sent: set<Deposit>, relayed: set<Deposit>,
                         failed: set<Deposit>, dropped: set<Deposit>)

  /** What becomes of a deposit in the scan: found on Palette, impossible to pack, or put into a channel. */
  datatype Offer = Relayed | Unpacked | Queue(routine: nat)

  datatype Step =
    | Boot(flag: uint32, epoch: uint32)
    | Look(latest: uint32)
    | Attempt(reply: BlockReply)
    | Notification(offer: Offer)
    | NextTx
    | Close
    | EndScan
    | Save(ok: bool)
    | Take(routine: nat, index: nat)
    | Finish(routine: nat, ok: bool)
    | Crash

  ghost predicate Pending(s: State, d: Deposit) {
    (exists i :: 0 <= i < |s.queue| && s.queue[i].deposit == d) || (exists k :: k in s.calls && s.calls[k] == d)
  }

  ghost function Unsent(s: State): (r: set<Deposit>)
    ensures forall d :: d in r <==> Pending(s, d)
  {
    (set i | 0 <= i < |s.queue| :: s.queue[i].deposit) + (set k | k in s.calls :: s.calls[k])
  }

  /** The transactions of the block being read. */
  function Txs(s: State): seq<TxEvents>
    requires s.pc.Reading?
  {
    if s.pc.reply.events.Some? then s.pc.reply.events.value else []
  }

  predicate Enabled(env: Env, s: State, step: Step) {
    match step
    case Boot(_, _) => s.pc.Down?
    case Look(latest) => s.pc.Idle? && WorkEnd(latest) >= s.cur
    case Attempt(_) => s.pc.Scanning? && s.cur <= s.pc.end
    case Notification(_) => s.pc.Reading? && s.pc.tx < |Txs(s)| && s.pc.at < |Txs(s)[s.pc.tx].notifies|
    case NextTx => s.pc.Reading? && s.pc.tx < |Txs(s)| && s.pc.at == |Txs(s)[s.pc.tx].notifies|
    case Close => s.pc.Reading? && s.pc.tx == |Txs(s)|
    case EndScan => s.pc.Scanning? && s.cur > s.pc.end
    case Save(_) => s.pc.Saving?
    case Take(k, i) => k !in s.calls && i < |s.queue| && s.queue[i].routine == k
      && forall j :: 0 <= j < i ==> s.queue[j].routine != k
    case Finish(k, _) => k in s.calls
    case Crash => !s.pc.Down?
  }

  /** Channels and calls are gone with the process. */
  ghost function Die(s: State): State {
    s.(pc := Down, queue := [], calls := map[], dropped := s.dropped + Unsent(s))
  }

  /** One notification: whether it is a deposit depends on its proof, and on what the proof leads to. */
  ghost function Read(env: Env, s: State, offer: Offer): State
    requires Enabled(env, s, Notification(offer))
  {
    var n := Txs(s)[s.pc.tx].notifies[s.pc.at];
    var d := Deposit(s.cur, s.pc.tx, s.pc.at);
    var s0 := s.(pc := s.pc.(at := s.pc.at + 1));
    if Selects(env.config, n, s.pc.reply.proofs(n.proofKey)) then
      var s1 := s0.(offered := s.offered + {d}, failed := s.failed - {d}, dropped := s.dropped - {d});
      (match offer
       case Relayed => s1.(relayed := s.relayed + {d})
       case Unpacked => s1.(failed := s.failed + {d})
       case Queue(k) => s1.(queue := s.queue + [Queued(k, d)]))
    else if Due(env, d) then s0.(offered := s.offered + {d}, failed := s.failed + {d}, dropped := s.dropped - {d})
    else s0
  }

  ghost function Apply(env: Env, s: State, step: Step): State
    requires Enabled(env, s, step)
  {
    match step
    case Boot(flag, epoch) =>
      var start := StartCursor(flag, s.saved, epoch);
      s.(pc := Idle, start := start, cur := start, base := if s.base.Some? then s.base else Some(start))
    case Look(latest) => s.(pc := Scanning(WorkEnd(latest)))
    case Attempt(r) =>
      var o := OutcomeOf(env.config, s.cur, r);
      if o.Panicked? then Die(s)
      else if !HasHeader(s.cur, r) || r.epoch.EpochError? || r.events.None? then s.(pc := Saving)
      else s.(pc := Reading(s.pc.end, r, 0, 0))
    case Notification(offer) => Read(env, s, offer)
    case NextTx => s.(pc := s.pc.(tx := s.pc.tx + 1, at := 0))
    case Close =>
      if OutcomeOf(env.config, s.cur, s.pc.reply).TryAgain? then s.(pc := Saving)
      else s.(pc := Scanning(s.pc.end), cur := Add32(s.cur, 1))
    case EndScan => s.(pc := Saving)
    case Save(ok) => s.(pc := Idle, saved := if ok then Sub32(s.cur, 1) else s.saved)
    case Take(k, i) =>
      s.(queue := s.queue[..i] + s.queue[i + 1..], calls := s.calls[k := s.queue[i].deposit])
    case Finish(k, ok) =>
      var d := s.calls[k];
      var s' := s.(calls := s.calls - {k});
      if ok then s'.(sent := s.sent + {d}) else s'.(failed := s.failed + {d})
    case Crash => Die(s)
  }

  ghost function Run(env: Env, s: State, steps: seq<Step>): Option<State> {
    if steps == [] then Some(s) else
    match Run(env, s, steps[..|steps| - 1])
    case None => None
    case Some(m) => if Enabled(env, m, steps[|steps| - 1]) then Some(Apply(env, m, steps[|steps| - 1])) else None
  }

  ghost predicate Along(env: Env, s: State, steps: seq<Step>, p: (Env, State, Step) -> bool)
    requires Run(env, s, steps).Some?
  {
    steps == [] ||
    (Along(env, s, steps[..|steps| - 1], p) && p(env, Run(env, s, steps[..|steps| - 1]).value, steps[|steps| - 1]))
  }

  const INSTALLED: State := State.State(Down, 0, None, 0, 0, [], map[], {}, {}, {}, {}, {})

  /** Replies tell the truth about Poly's blocks, and no tick sees a chain of height 1. */
  ghost predicate Fair(env: Env, s: State, step: Step) {
    && (step.Look? ==> step.latest != 1)
    && (step.Attempt? && step.reply.events.Some? ==>
        step.reply.events.value == env.blocks(s.cur) && PolyRuns.Truthful(s.cur, step.reply, env.paths))
  }

  /** A restart does not begin above the height up to which blocks were handled. */
  ghost predicate NoGap(env: Env, s: State, step: Step) {
    step.Boot? && s.base.Some? ==> StartCursor(step.flag, s.saved, step.epoch) <= s.cur
  }

  /** The scan of the running process is past the deposit. */
  predicate Past(s: State, d: Deposit) {
    || d.height < s.cur
    || (d.height == s.cur && s.pc.Reading? && (d.tx < s.pc.tx || (d.tx == s.pc.tx && d.at < s.pc.at)))
  }

  ghost predicate Once(s: State) {
    && (forall i, j :: 0 <= i < j < |s.queue| ==> s.queue[i].deposit != s.queue[j].deposit)
    && (forall k, l :: k in s.calls && l in s.calls && k != l ==> s.calls[k] != s.calls[l])
    && (forall i, k :: 0 <= i < |s.queue| && k in s.calls ==> s.queue[i].deposit != s.calls[k])
  }

  /** The block being read is the chain's, and the scan ends below 2^32 - 1. */
  ghost predicate Sound(env: Env, s: State) {
    && (s.pc.Scanning? || s.pc.Reading? ==> s.pc.end < TWO32 - 1)
    && (s.pc.Reading? ==>
        && s.cur <= s.pc.end && s.pc.reply.events == Some(env.blocks(s.cur))
        && PolyRuns.Truthful(s.cur, s.pc.reply, env.paths)
        && OutcomeOf(env.config, s.cur, s.pc.reply).Panicked? == false
        && HasHeader(s.cur, s.pc.reply) && !s.pc.reply.epoch.EpochError?)
  }

  /** A notification whose proof was fetched and leads to a deposit. */
  predicate Chosen(env: Env, s: State, d: Deposit)
    requires s.pc.Reading?
  {
    d.tx < |Txs(s)| && d.at < |Txs(s)[d.tx].notifies| &&
    var n := Txs(s)[d.tx].notifies[d.at];
    Selects(env.config, n, s.pc.reply.proofs(n.proofKey))
  }

  /** What is known of each deposit. */
  ghost predicate Known(env: Env, s: State, d: Deposit) {
    && (d in s.offered ==> Due(env, d))
    && (d in s.offered ==> Pending(s, d) || d in s.sent || d in s.relayed || d in s.failed || d in s.dropped)
    && (Pending(s, d) ==>
        && !s.pc.Down? && d in s.offered && d !in s.failed && d !in s.dropped
        && s.start <= d.height && Past(s, d) && (d.height == s.cur && s.pc.Reading? ==> Chosen(env, s, d)))
    && (d in s.failed || d in s.dropped ==> d in s.offered)
    && (!s.pc.Down? && Due(env, d) && s.start <= d.height && Past(s, d) ==> d in s.offered && d !in s.dropped)
  }

  ghost predicate Inv(env: Env, s: State) {
    Sound(env, s) && Once(s) && (!s.pc.Down? ==> s.start <= s.cur) && forall d :: Known(env, s, d)
  }

  /** No block between the first start and the cursor was left out. */
  ghost predicate Gapless(env: Env, s: State) {
    s.base.Some? ==> forall d :: Due(env, d) && s.base.value <= d.height < s.cur ==> d in s.offered
  }

  lemma {:induction false} ChosenOfTx(c: Config, h: uint32, tx: TxEvents, r: BlockReply, n: nat, at: nat)
    requires at < n <= |tx.notifies| && Selects(c, tx.notifies[at], r.proofs(tx.notifies[at].proofKey))
    ensures SelectedOfTx(c, h, tx, r, n) != []
  {
    hide Selects;
    if at < n - 1 {
      ChosenOfTx(c, h, tx, r, n - 1, at);
    }
  }

  lemma {:induction false} ChosenOf(c: Config, h: uint32, txs: seq<TxEvents>, r: BlockReply, n: nat, tx: nat, at: nat)
    requires tx < n <= |txs| && at < |txs[tx].notifies|
    requires Selects(c, txs[tx].notifies[at], r.proofs(txs[tx].notifies[at].proofKey))
    ensures Selected(c, h, txs, r, n) != []
  {
    hide Selects, SelectedOfTx;
    if tx < n - 1 {
      ChosenOf(c, h, txs, r, n - 1, tx, at);
    } else {
      ChosenOfTx(c, h, txs[tx], r, |txs[tx].notifies|, at);
    }
  }

  /** An attempt that is taken back has enqueued nothing. */
  lemma NothingTakenBack(env: Env, s: State, d: Deposit)
    requires Sound(env, s) && s.pc.Reading? && Chosen(env, s, d)
    ensures OutcomeOf(env.config, s.cur, s.pc.reply).Handled?
  {
    hide Selects, PolyRuns.Truthful;
    ChosenOf(env.config, s.cur, Txs(s), s.pc.reply, |Txs(s)|, d.tx, d.at);
  }

  lemma SamePending(s: State, s': State)
    requires s'.queue == s.queue && s'.calls == s.calls
    ensures forall d :: Pending(s', d) <==> Pending(s, d)
    ensures Once(s) ==> Once(s')
  {
  }

  /** Steps that touch neither the channels nor what is known of a deposit. */
  lemma QuietStep(env: Env, s: State, step: Step)
    requires Inv(env, s) && Enabled(env, s, step) && Fair(env, s, step)
    requires step.Boot? || step.Look? || step.NextTx? || step.Close? || step.EndScan? || step.Save?
      || (step.Attempt? && !OutcomeOf(env.config, s.cur, step.reply).Panicked?)
    ensures Inv(env, Apply(env, s, step))
  {
    hide Selects, Pending, PolyRuns.Truthful, Deposits, Once;
    var s' := Apply(env, s, step);
    SamePending(s, s');
    forall d ensures Known(env, s', d) {
      assert Known(env, s, d);
      if step.Close? && Pending(s, d) && d.height == s.cur {
        NothingTakenBack(env, s, d);
      }
    }
    assert Sound(env, s');
  }

  lemma Added(s: State, s': State, k: nat, d: Deposit)
    requires s'.queue == s.queue + [Queued(k, d)] && s'.calls == s.calls
    ensures forall e :: Pending(s', e) <==> Pending(s, e) || e == d
    ensures Once(s) && !Pending(s, d) ==> Once(s')
  {
    forall e ensures Pending(s', e) <==> Pending(s, e) || e == d {
      if Pending(s, e) && exists i :: 0 <= i < |s.queue| && s.queue[i].deposit == e {
        var i :| 0 <= i < |s.queue| && s.queue[i].deposit == e;
        assert s'.queue[i].deposit == e;
      } else if e == d {
        assert s'.queue[|s.queue|].deposit == d;
      }
    }
  }

  /** A notification with a truthful proof that leads to a deposit is due. */
  lemma ChosenIsDue(env: Env, s: State, d: Deposit)
    requires Sound(env, s) && s.pc.Reading? && Chosen(env, s, d) && d.height == s.cur
    ensures Due(env, d)
  {
    hide Leads;
    var n := Txs(s)[d.tx].notifies[d.at];
    assert s.pc.reply.proofs(n.proofKey) == Some(env.paths(s.cur, n.proofKey));
  }

  lemma NotificationKeeps(env: Env, s: State, offer: Offer)
    requires Inv(env, s) && Enabled(env, s, Notification(offer))
    ensures Inv(env, Read(env, s, offer))
  {
    hide Selects, Pending, PolyRuns.Truthful, Once, Due;
    var s' := Read(env, s, offer);
    var it := Deposit(s.cur, s.pc.tx, s.pc.at);
    assert Known(env, s, it) && !Pending(s, it);
    if Chosen(env, s, it) {
      ChosenIsDue(env, s, it);
    }
    if Chosen(env, s, it) && offer.Queue? {
      Added(s, s', offer.routine, it);
    } else {
      SamePending(s, s');
    }
    forall d ensures Known(env, s', d) {
      assert Known(env, s, d);
      assert Past(s', d) <==> Past(s, d) || d == it;
    }
    assert Sound(env, s');
  }

  lemma Moved(s: State, s': State, k: nat, i: nat)
    requires Once(s) && k !in s.calls && i < |s.queue|
    requires s'.queue == s.queue[..i] + s.queue[i + 1..] && s'.calls == s.calls[k := s.queue[i].deposit]
    ensures Once(s') && forall d :: Pending(s', d) <==> Pending(s, d)
  {
    forall d ensures Pending(s', d) <==> Pending(s, d) {
      if exists j :: 0 <= j < |s.queue| && s.queue[j].deposit == d {
        var j :| 0 <= j < |s.queue| && s.queue[j].deposit == d;
        if j < i {
          assert s'.queue[j].deposit == d;
        } else if j > i {
          assert s'.queue[j - 1].deposit == d;
        } else {
          assert s'.calls[k] == d;
        }
      } else if exists l :: l in s.calls && s.calls[l] == d {
        var l :| l in s.calls && s.calls[l] == d;
        assert l in s'.calls && s'.calls[l] == d;
      }
    }
  }

  lemma TakeKeeps(env: Env, s: State, k: nat, i: nat)
    requires Inv(env, s) && Enabled(env, s, Take(k, i))
    ensures Inv(env, Apply(env, s, Take(k, i)))
  {
    hide Selects, Pending, PolyRuns.Truthful, Due, Once;
    var s' := Apply(env, s, Take(k, i));
    Moved(s, s', k, i);
    forall d ensures Known(env, s', d) {
      assert Known(env, s, d);
    }
    assert Sound(env, s');
  }

  lemma Ended(s: State, s': State, k: nat)
    requires Once(s) && k in s.calls && s'.queue == s.queue && s'.calls == s.calls - {k}
    ensures Once(s') && forall d :: Pending(s', d) <==> Pending(s, d) && d != s.calls[k]
    ensures Pending(s, s.calls[k])
  {
    forall d ensures Pending(s', d) <==> Pending(s, d) && d != s.calls[k] {
      if exists l :: l in s.calls && s.calls[l] == d && l != k {
        var l :| l in s.calls && s.calls[l] == d && l != k;
        assert l in s'.calls && s'.calls[l] == d;
      }
    }
  }

  lemma FinishKeeps(env: Env, s: State, k: nat, ok: bool)
    requires Inv(env, s) && Enabled(env, s, Finish(k, ok))
    ensures Inv(env, Apply(env, s, Finish(k, ok)))
  {
    hide Selects, Pending, PolyRuns.Truthful, Due, Once;
    var s' := Apply(env, s, Finish(k, ok));
    Ended(s, s', k);
    assert Known(env, s, s.calls[k]);
    forall d ensures Known(env, s', d) {
      assert Known(env, s, d);
    }
    assert Sound(env, s');
  }

  lemma DieKeeps(env: Env, s: State)
    requires Inv(env, s)
    ensures Inv(env, Die(s))
  {
    hide Selects, PolyRuns.Truthful, Due, Unsent;
    var s' := Die(s);
    assert forall d :: !Pending(s', d);
    forall d ensures Known(env, s', d) {
      assert Known(env, s, d);
    }
  }

  /** Every step of the scan, of the senders, of a crash or a restart keeps the accounting. */
  lemma StepKeeps(env: Env, s: State, step: Step)
    requires Inv(env, s) && Enabled(env, s, step) && Fair(env, s, step)
    ensures Inv(env, Apply(env, s, step))
  {
    hide Inv;
    match step
    case Notification(offer) => NotificationKeeps(env, s, offer);
    case Take(k, i) => TakeKeeps(env, s, k, i);
    case Finish(k, ok) => FinishKeeps(env, s, k, ok);
    case Crash => DieKeeps(env, s);
    case Attempt(r) =>
      if OutcomeOf(env.config, s.cur, r).Panicked? { DieKeeps(env, s); } else { QuietStep(env, s, step); }
    case _ => QuietStep(env, s, step);
  }

  lemma InstalledHolds(env: Env)
    ensures Inv(env, INSTALLED) && Gapless(env, INSTALLED)
  {
  }

  lemma {:induction false} RunKeeps(env: Env, steps: seq<Step>)
    requires Run(env, INSTALLED, steps).Some? && Along(env, INSTALLED, steps, Fair)
    ensures Inv(env, Run(env, INSTALLED, steps).value)
  {
    hide Inv, Enabled, Apply, Fair;
    if steps == [] {
      InstalledHolds(env);
    } else {
      RunKeeps(env, steps[..|steps| - 1]);
      StepKeeps(env, Run(env, INSTALLED, steps[..|steps| - 1]).value, steps[|steps| - 1]);
    }
  }

  lemma GaplessStep(env: Env, s: State, step: Step)
    requires Inv(env, s) && Gapless(env, s) && Enabled(env, s, step) && NoGap(env, s, step)
    requires s.base.None? ==> s.pc.Down?
    ensures Gapless(env, Apply(env, s, step)) && (Apply(env, s, step).base.None? ==> Apply(env, s, step).pc.Down?)
  {
    hide Selects, Pending, PolyRuns.Truthful, Deposits, Once, Unsent;
    var s' := Apply(env, s, step);
    forall d | s'.base.Some? && Due(env, d) && s'.base.value <= d.height < s'.cur ensures d in s'.offered {
      assert Known(env, s, d);
    }
  }

  lemma {:induction false} GaplessRun(env: Env, steps: seq<Step>)
    requires Run(env, INSTALLED, steps).Some?
    requires Along(env, INSTALLED, steps, Fair) && Along(env, INSTALLED, steps, NoGap)
    ensures
      var s := Run(env, INSTALLED, steps).value;
      Gapless(env, s) && (s.base.None? ==> s.pc.Down?)
  {
    hide Inv, Gapless, Enabled, Apply, Fair, NoGap;
    if steps == [] {
      InstalledHolds(env);
    } else {
      var before := steps[..|steps| - 1];
      GaplessRun(env, before);
      RunKeeps(env, before);
      GaplessStep(env, Run(env, INSTALLED, before).value, steps[|steps| - 1]);
    }
  }

  /** Offered at some time, and neither under way nor ever delivered. */
  ghost predicate Lost(s: State, d: Deposit) {
    d in s.offered && !Pending(s, d) && d !in s.sent && d !in s.relayed
  }

  /**
    What becomes of every deposit, over every interleaving and across any crashes. As long as no restart leaves a gap,
    each deposit due at a height from the first start up to the cursor of the running process is in a channel, in a
    call, accepted by Palette, or found there, or else lost; and it is lost exactly if, when last offered, its proof,
    its packing or its call failed, or it was unsent at a crash and the running process began above its height.
   */
  lemma DepositsAccounted(env: Env, steps: seq<Step>, d: Deposit)
    requires Run(env, INSTALLED, steps).Some?
    requires Along(env, INSTALLED, steps, Fair) && Along(env, INSTALLED, steps, NoGap)
    requires
      var s := Run(env, INSTALLED, steps).value;
      !s.pc.Down? && s.base.Some? && Due(env, d) && s.base.value <= d.height < s.cur
    ensures
      var s := Run(env, INSTALLED, steps).value;
      && (Pending(s, d) || d in s.sent || d in s.relayed || Lost(s, d))
      && (Lost(s, d) <==>
          d !in s.sent && d !in s.relayed && (d in s.failed || (d in s.dropped && d.height < s.start)))
  {
    hide Selects, Pending, Once, PolyRuns.Truthful, Due, Run, Along;
    RunKeeps(env, steps);
    GaplessRun(env, steps);
    assert Known(env, Run(env, INSTALLED, steps).value, d);
  }

  /** Only the notification at hand can become pending, and only what is pending can be sent. */
  lemma NewlyPending(env: Env, s: State, step: Step, d: Deposit)
    requires Inv(env, s) && Enabled(env, s, step)
    ensures Pending(Apply(env, s, step), d) ==> Pending(s, d) || (s.pc.Reading? && d.height == s.cur)
  {
    hide Selects, PolyRuns.Truthful, Once, Due, Deposits, Unsent, OutcomeOf, Known, Pending;
    var s' := Apply(env, s, step);
    match step {
      case Take(k, i) => Moved(s, s', k, i);
      case Finish(k, _) => Ended(s, s', k);
      case Crash => Gone(s, s', d);
      case Attempt(r) => if s'.pc.Down? { Gone(s, s', d); } else { SamePending(s, s'); }
      case Notification(offer) =>
        var it := Deposit(s.cur, s.pc.tx, s.pc.at);
        if s'.queue != s.queue {
          Added(s, s', offer.routine, it);
        } else {
          SamePending(s, s');
        }
      case _ => SamePending(s, s');
    }
  }

  lemma Gone(s: State, s': State, d: Deposit)
    requires s' == Die(s)
    ensures !Pending(s', d)
  {
  }

  lemma StaysLost(env: Env, s: State, step: Step, d: Deposit)
    requires Inv(env, s) && Enabled(env, s, step) && !step.Boot?
    requires Lost(s, d) && d.height < s.cur
    ensures Lost(Apply(env, s, step), d) && d.height < Apply(env, s, step).cur
  {
    hide Selects, PolyRuns.Truthful, Due, Deposits, Unsent, OutcomeOf;
    NewlyPending(env, s, step, d);
    assert step.Finish? ==> Pending(s, s.calls[step.routine]);
    hide Pending, Once, Known;
  }

  /** Whatever is lost below the cursor stays lost for as long as the process lives. */
  lemma {:induction false} LostForGood(env: Env, s: State, steps: seq<Step>, d: Deposit)
    requires Inv(env, s) && Run(env, s, steps).Some? && Along(env, s, steps, Fair)
    requires forall i :: 0 <= i < |steps| ==> !steps[i].Boot?
    requires Lost(s, d) && d.height < s.cur
    ensures Inv(env, Run(env, s, steps).value)
    ensures Lost(Run(env, s, steps).value, d) && d.height < Run(env, s, steps).value.cur
  {
    hide Inv, Enabled, Apply, Fair, Lost;
    if steps != [] {
      var n := |steps| - 1;
      LostForGood(env, s, steps[..n], d);
      var before := Run(env, s, steps[..n]).value;
      StepKeeps(env, before, steps[n]);
      StaysLost(env, before, steps[n], d);
    }
  }

  /** One process: the invariant holds on, and so does where it started. */
  lemma {:induction false} ProcessKeeps(env: Env, s: State, steps: seq<Step>)
    requires Inv(env, s) && Run(env, s, steps).Some? && Along(env, s, steps, Fair)
    requires forall i :: 0 <= i < |steps| ==> !steps[i].Boot?
    ensures Inv(env, Run(env, s, steps).value) && Run(env, s, steps).value.start == s.start
  {
    hide Inv, Enabled, Fair, Unsent;
    if steps != [] {
      var n := |steps| - 1;
      ProcessKeeps(env, s, steps[..n]);
      StepKeeps(env, Run(env, s, steps[..n]).value, steps[n]);
    }
  }

  /**
    A crash, exactly. A deposit that is in a channel or in a call when the process dies is lost for as long as the next
    process lives if that one begins above its height; otherwise the next process offers it again, so that once its
    height is passed it is lost only if that offer failed.
   */
  lemma {:induction false} CrashExact(env: Env, s: State, flag: uint32, epoch: uint32, steps: seq<Step>, d: Deposit)
    requires Inv(env, s) && Pending(s, d) && d !in s.sent && d !in s.relayed
    requires !s.pc.Down?
    requires
      var restarted := Apply(env, Apply(env, s, Crash), Boot(flag, epoch));
      && Run(env, restarted, steps).Some? && Along(env, restarted, steps, Fair)
      && (forall i :: 0 <= i < |steps| ==> !steps[i].Boot?)
    ensures
      var restarted := Apply(env, Apply(env, s, Crash), Boot(flag, epoch));
      var t := Run(env, restarted, steps).value;
      && (d.height < StartCursor(flag, s.saved, epoch) ==> Lost(t, d))
      && (d.height >= StartCursor(flag, s.saved, epoch) && !t.pc.Down? && d.height < t.cur ==>
          d !in t.dropped && (Lost(t, d) ==> d in t.failed))
  {
    hide Selects, PolyRuns.Truthful, Once, Due, Run, Along;
    var dead := Apply(env, s, Crash);
    var restarted := Apply(env, dead, Boot(flag, epoch));
    StepKeeps(env, s, Crash);
    StepKeeps(env, dead, Boot(flag, epoch));
    assert Known(env, s, d);
    ProcessKeeps(env, restarted, steps);
    var t := Run(env, restarted, steps).value;
    assert Known(env, t, d);
    if d.height < StartCursor(flag, s.saved, epoch) {
      assert Lost(restarted, d) by { Gone(s, dead, d); SamePending(dead, restarted); }
      LostForGood(env, restarted, steps, d);
    }
  }

  /** One more step of a run. */
  lemma Extend(env: Env, s0: State, steps: seq<Step>, s: State, step: Step) returns (longer: seq<Step>, s': State)
    requires Run(env, s0, steps) == Some(s) && Enabled(env, s, step)
    ensures longer == steps + [step] && s' == Apply(env, s, step) && Run(env, s0, longer) == Some(s')
  {
    longer := steps + [step];
    s' := Apply(env, s, step);
    assert longer[..|steps|] == steps;
  }

  /** One more step from the installation that meets the hypotheses. */
  lemma More(env: Env, steps: seq<Step>, s: State, step: Step) returns (longer: seq<Step>, s': State)
    requires Reaches(env, steps, s) && Enabled(env, s, step) && Fair(env, s, step) && NoGap(env, s, step)
    ensures s' == Apply(env, s, step) && Reaches(env, longer, s')
  {
    hide Enabled, Apply, Fair, NoGap;
    longer, s' := Extend(env, INSTALLED, steps, s, step);
    assert longer[..|steps|] == steps;
  }

  ghost predicate Reaches(env: Env, steps: seq<Step>, s: State) {
    && Run(env, INSTALLED, steps) == Some(s)
    && Along(env, INSTALLED, steps, Fair) && Along(env, INSTALLED, steps, NoGap)
  }

  lemma Begin(env: Env)
    ensures Reaches(env, [], INSTALLED)
  {
  }

  /** One deposit, in block 1. */
  ghost function OneDeposit(): Env {
    Env(PolyRuns.OPEN, h => if h == 1 then [TxEvents([], [PolyRuns.DEPOSIT])] else [], (_, _) => [])
  }

  function Answer(txs: seq<TxEvents>): BlockReply {
    BlockReply(0, (h: uint32) => Some(Header(h, [], [])), SameEpoch, (_, _) => None, Some(txs), _ => Some([]), false)
  }

  const FIRST: Deposit := Deposit(1, 0, 0)

  /** Block 1 is read, its deposit put into a channel. */
  lemma ReadFirst() returns (steps: seq<Step>, s: State)
    ensures Reaches(OneDeposit(), steps, s)
    ensures s == INSTALLED.(pc := Scanning(2), start := 1, base := Some(1), cur := 2,
                            queue := [Queued(0, FIRST)], offered := {FIRST})
  {
    hide Reaches, Leads;
    var env, txs := OneDeposit(), [TxEvents([], [PolyRuns.DEPOSIT])];
    FirstChosen();
    Begin(env);
    steps, s := More(env, [], INSTALLED, Boot(1, 0));
    steps, s := More(env, steps, s, Look(4));
    hide Deposits;
    steps, s := More(env, steps, s, Attempt(Answer(txs)));
    steps, s := More(env, steps, s, Notification(Queue(0)));
    steps, s := More(env, steps, s, NextTx);
    steps, s := More(env, steps, s, Close);
  }

  lemma FirstChosen()
    ensures Selects(PolyRuns.OPEN, PolyRuns.DEPOSIT, Some([]))
    ensures Due(OneDeposit(), FIRST)
  {
    hide PathOf;
  }

  /**
    A crash loses a deposit although no restart leaves a gap: block 1 was handled and its deposit is in a channel;
    block 2 is handled, its height saved; the process dies and begins again at block 2. The deposit is in no channel,
    was never sent, and will not be offered again.
   */
  lemma DepositDropped() returns (steps: seq<Step>, s: State)
    ensures Reaches(OneDeposit(), steps, s) && Due(OneDeposit(), FIRST)
    ensures s.pc.Idle? && s.saved == 2 && s.start == 2 && s.cur == 2 && Lost(s, FIRST)
  {
    hide Reaches, Leads, Deposits;
    var env := OneDeposit();
    FirstChosen();
    steps, s := ReadFirst();
    steps, s := More(env, steps, s, Attempt(Answer([])));
    steps, s := More(env, steps, s, Close);
    steps, s := More(env, steps, s, EndScan);
    steps, s := More(env, steps, s, Save(true));
    assert Pending(s, FIRST) by { assert s.queue[0].deposit == FIRST; }
    var before := s;
    steps, s := More(env, steps, s, Crash);
    Gone(before, s, FIRST);
    var dead := s;
    steps, s := More(env, steps, s, Boot(0, 0));
    SamePending(dead, s);
  }

  /** A queued place and the item that the manager enqueues for it. */
  ghost predicate Matches(replies: uint32 -> BlockReply, q: Queued, item: Item) {
    var d := q.deposit;
    var r := replies(d.height);
    r.events.Some? && d.tx < |r.events.value| && d.at < |r.events.value[d.tx].notifies| &&
    var n := r.events.value[d.tx].notifies[d.at];
    r.proofs(n.proofKey).Some?
    && item == ItemOf(d.height, r.events.value[d.tx].txHash, n, r.proofs(n.proofKey).value, r)
  }

  ghost predicate AllMatch(replies: uint32 -> BlockReply, q: seq<Queued>, items: seq<Item>) {
    |q| == |items| && forall i :: 0 <= i < |q| ==> Matches(replies, q[i], items[i])
  }

  /** A run of the scan alone: it may have queued more, and what it queued matches `items`. */
  ghost predicate Grew(s: State, s': State, replies: uint32 -> BlockReply, items: seq<Item>) {
    && s'.cur == s.cur && s'.saved == s.saved
    && s.queue <= s'.queue && AllMatch(replies, s'.queue[|s.queue|..], items)
  }

  lemma {:induction false} Concat(env: Env, s: State, a: seq<Step>, b: seq<Step>)
    requires Run(env, s, a).Some?
    ensures Run(env, s, a + b) == Run(env, Run(env, s, a).value, b)
    decreases |b|
  {
    hide Enabled, Apply;
    if b == [] {
      assert a + b == a;
    } else {
      var n := |b| - 1;
      Concat(env, s, a, b[..n]);
      assert (a + b)[..|a| + n] == a + b[..n];
    }
  }

  lemma GrewOn(s: State, m: State, t: State, replies: uint32 -> BlockReply, a: seq<Item>, b: seq<Item>)
    requires Grew(s, m, replies, a) && Grew(m, t, replies, b)
    ensures Grew(s, t, replies, a + b)
  {
    hide Matches;
    var q, q1, q2 := t.queue[|s.queue|..], m.queue[|s.queue|..], t.queue[|m.queue|..];
    assert q == q1 + q2;
  }

  lemma GrewNot(s: State, s': State, replies: uint32 -> BlockReply)
    requires s'.cur == s.cur && s'.saved == s.saved && s'.queue == s.queue
    ensures Grew(s, s', replies, [])
  {
  }

  /** One notification of a scan that queues all it can. */
  lemma ReadOne(env: Env, s: State, replies: uint32 -> BlockReply)
    requires Enabled(env, s, Notification(Queue(0))) && replies(s.cur) == s.pc.reply
    ensures
      var s' := Apply(env, s, Notification(Queue(0)));
      var n := Txs(s)[s.pc.tx].notifies[s.pc.at];
      var proof := s.pc.reply.proofs(n.proofKey);
      && s'.pc == s.pc.(at := s.pc.at + 1)
      && Grew(s, s', replies, if Selects(env.config, n, proof)
           then [ItemOf(s.cur, Txs(s)[s.pc.tx].txHash, n, proof.value, s.pc.reply)] else [])
  {
    hide Leads;
    var s' := Apply(env, s, Notification(Queue(0)));
    if s'.queue == s.queue {
      GrewNot(s, s', replies);
    } else {
      assert s'.queue[|s.queue|..] == [Queued(0, Deposit(s.cur, s.pc.tx, s.pc.at))];
    }
  }

  lemma {:induction false} ReadNotifies(env: Env, s: State, replies: uint32 -> BlockReply, n: nat)
    returns (steps: seq<Step>, s': State)
    requires s.pc.Reading? && s.pc.at == 0 && s.pc.tx < |Txs(s)| && n <= |Txs(s)[s.pc.tx].notifies|
    requires replies(s.cur) == s.pc.reply
    ensures Run(env, s, steps) == Some(s') && s'.pc == s.pc.(at := n)
    ensures Grew(s, s', replies, SelectedOfTx(env.config, s.cur, Txs(s)[s.pc.tx], s.pc.reply, n))
  {
    hide Run, Leads, Grew, Apply;
    if n == 0 {
      steps, s' := Stay(env, s);
      GrewNot(s, s', replies);
    } else {
      var m;
      steps, m := ReadNotifies(env, s, replies, n - 1);
      SameCur(s, m, replies, SelectedOfTx(env.config, s.cur, Txs(s)[s.pc.tx], s.pc.reply, n - 1));
      steps, s' := Extend(env, s, steps, m, Notification(Queue(0)));
      ReadOne(env, m, replies);
      var note := Txs(s)[s.pc.tx].notifies[n - 1];
      var proof := s.pc.reply.proofs(note.proofKey);
      var more := if Selects(env.config, note, proof)
        then [ItemOf(s.cur, Txs(s)[s.pc.tx].txHash, note, proof.value, s.pc.reply)] else [];
      GrewOn(s, m, s', replies, SelectedOfTx(env.config, s.cur, Txs(s)[s.pc.tx], s.pc.reply, n - 1), more);
      assert SelectedOfTx(env.config, s.cur, Txs(s)[s.pc.tx], s.pc.reply, n - 1) + more
        == SelectedOfTx(env.config, s.cur, Txs(s)[s.pc.tx], s.pc.reply, n);
    }
  }

  lemma SameCur(s: State, s': State, replies: uint32 -> BlockReply, items: seq<Item>)
    requires Grew(s, s', replies, items)
    ensures s'.cur == s.cur && s'.saved == s.saved
  {
  }

  lemma Stay(env: Env, s: State) returns (steps: seq<Step>, s': State)
    ensures steps == [] && s' == s && Run(env, s, steps) == Some(s')
  {
    steps, s' := [], s;
  }

  lemma {:induction false} ReadTxs(env: Env, s: State, replies: uint32 -> BlockReply, n: nat)
    returns (steps: seq<Step>, s': State)
    requires s.pc.Reading? && s.pc.at == 0 && s.pc.tx == 0 && n <= |Txs(s)| && replies(s.cur) == s.pc.reply
    ensures Run(env, s, steps) == Some(s') && s'.pc == s.pc.(tx := n)
    ensures Grew(s, s', replies, Selected(env.config, s.cur, Txs(s), s.pc.reply, n))
  {
    hide Run, Grew, SelectedOfTx, Read;
    if n == 0 {
      steps, s' := Stay(env, s);
      GrewNot(s, s', replies);
    } else {
      var before := Selected(env.config, s.cur, Txs(s), s.pc.reply, n - 1);
      var m, rest, t;
      steps, m := ReadTxs(env, s, replies, n - 1);
      SameCur(s, m, replies, before);
      rest, t := ReadNotifies(env, m, replies, |Txs(m)[n - 1].notifies|);
      var more := SelectedOfTx(env.config, s.cur, Txs(s)[n - 1], s.pc.reply, |Txs(s)[n - 1].notifies|);
      GrewOn(s, m, t, replies, before, more);
      Concat(env, s, steps, rest);
      steps, s' := Extend(env, s, steps + rest, t, NextTx);
      GrewNot(t, s', replies);
      GrewOn(s, t, s', replies, before + more, []);
      assert before + more + [] == before + more;
    }
  }

  /** An attempt that reads its block to the end. */
  lemma ReadBlock(env: Env, s: State, replies: uint32 -> BlockReply) returns (steps: seq<Step>, s': State)
    requires s.pc.Scanning? && s.cur <= s.pc.end
    requires
      var r := replies(s.cur);
      HasHeader(s.cur, r) && !r.epoch.EpochError? && r.events.Some? && !OutcomeOf(env.config, s.cur, r).Panicked?
    ensures Run(env, s, steps) == Some(s')
    ensures
      var r := replies(s.cur);
      && s'.pc == Reading(s.pc.end, r, |r.events.value|, 0)
      && Grew(s, s', replies, Deposits(env.config, s.cur, r))
  {
    hide Run, Grew, Selected, Read, OutcomeOf;
    var r := replies(s.cur);
    var m, rest;
    steps, m := Stay(env, s);
    steps, m := Extend(env, s, steps, m, Attempt(r));
    GrewNot(s, m, replies);
    rest, s' := ReadTxs(env, m, replies, |r.events.value|);
    GrewOn(s, m, s', replies, [], Deposits(env.config, s.cur, r));
    assert [] + Deposits(env.config, s.cur, r) == Deposits(env.config, s.cur, r);
    Concat(env, s, steps, rest);
    steps := steps + rest;
  }

  /** What both have handed on since is the same, in the same order. */
  ghost predicate HandedOn(s: State, s': State, p: Manager.State, p': Manager.State, replies: uint32 -> BlockReply) {
    && p.queue <= p'.queue && s.queue <= s'.queue
    && AllMatch(replies, s'.queue[|s.queue|..], p'.queue[|p.queue|..])
  }

  /** Whether a scan of the manager is matched: at its end, at a failed attempt, or dead. */
  ghost predicate ScanMatched(s: State, s': State, p: Manager.State, p': Manager.State, ended: bool,
                              replies: uint32 -> BlockReply)
  {
    && s'.cur == p'.cur && s'.saved == s.saved
    && (if ended then s'.pc.Saving? else s'.pc.Down?)
    && (ended ==> HandedOn(s, s', p, p', replies))
  }

  lemma ScanMatchedOn(s: State, m: State, s': State, p: Manager.State, q: Manager.State,
                      p': Manager.State, ended: bool, replies: uint32 -> BlockReply, items: seq<Item>)
    requires s.queue <= m.queue && AllMatch(replies, m.queue[|s.queue|..], items) && m.saved == s.saved
    requires q.queue == p.queue + items && ScanMatched(m, s', q, p', ended, replies)
    ensures ScanMatched(s, s', p, p', ended, replies)
  {
    hide Matches;
    if ended {
      assert s'.queue[|s.queue|..] == m.queue[|s.queue|..] + s'.queue[|m.queue|..];
      assert p'.queue[|p.queue|..] == items + p'.queue[|q.queue|..];
    }
  }

  lemma {:induction false} ScanIsRun(env: Env, s: State, p: Manager.State, replies: uint32 -> BlockReply,
                                     attempts: nat)
    returns (steps: seq<Step>, s': State)
    requires s.pc.Scanning? && s.pc.end < TWO32 - 1 && s.cur == p.cur
    ensures Run(env, s, steps) == Some(s')
    ensures
      var (p', ended) := Scan(env.config, p, s.pc.end, replies, attempts);
      ScanMatched(s, s', p, p', ended, replies)
    decreases attempts
  {
    hide Run, OutcomeOf, Deposits, Read, Matches;
    var end, r := s.pc.end, replies(s.cur);
    steps, s' := Stay(env, s);
    if s.cur > end {
      steps, s' := Extend(env, s, steps, s', EndScan);
    } else if attempts == 0 {
      steps, s' := Extend(env, s, steps, s', Crash);
    } else {
      Outcomes(env.config, s.cur, r);
      if OutcomeOf(env.config, s.cur, r).Panicked? || !HasHeader(s.cur, r) || r.epoch.EpochError? || r.events.None? {
        steps, s' := Extend(env, s, steps, s', Attempt(r));
      } else {
        var m, rest, t;
        steps, m := ReadBlock(env, s, replies);
        steps, t := Extend(env, s, steps, m, Close);
        if OutcomeOf(env.config, s.cur, r).TryAgain? {
          s' := t;
        } else {
          var q := After(env.config, p, r);
          rest, s' := ScanIsRun(env, t, q, replies, attempts - 1);
          Concat(env, s, steps, rest);
          steps := steps + rest;
          var (p', ended) := Scan(env.config, q, end, replies, attempts - 1);
          ScanMatchedOn(s, t, s', p, q, p', ended, replies, Deposits(env.config, s.cur, r));
        }
      }
    }
  }

  lemma Outcomes(c: Config, h: uint32, r: BlockReply)
    ensures !HasHeader(h, r) || r.epoch.EpochError? || r.events.None? ==> !OutcomeOf(c, h, r).Handled?
    ensures OutcomeOf(c, h, r).TryAgain? && HasHeader(h, r) && !r.epoch.EpochError? && r.events.Some? ==>
      Deposits(c, h, r) == []
  {
  }

  /**
    Every tick of the manager is a run of this system in which all that can be queued is: with the same cursor and
    saved height, the process dead in the same cases, and the same deposits handed on in the same order.
   */
  lemma TickIsRun(env: Env, s: State, p: Manager.State, t: TickInput) returns (steps: seq<Step>, s': State)
    requires s.pc.Idle? && s.cur == p.cur && s.saved == p.saved && p.alive
    requires t.latest.Some? ==> t.latest.value != 1
    ensures Run(env, s, steps) == Some(s')
    ensures
      var p' := Tick(env.config, p, t);
      && s'.cur == p'.cur && s'.saved == p'.saved
      && (if p'.alive then s'.pc.Idle? else s'.pc.Down?)
      && (p'.alive ==> HandedOn(s, s', p, p', t.replies))
  {
    hide Run, Scan, Matches;
    steps, s' := Stay(env, s);
    if t.latest.Some? && WorkEnd(t.latest.value) >= s.cur {
      var end := WorkEnd(t.latest.value);
      var (p', ended) := Scan(env.config, p, end, t.replies, t.attempts);
      PolyRuns.ScanEnds(env.config, p, end, t.replies, t.attempts);
      PolyRuns.ScanSaves(env.config, p, end, t.replies, t.attempts);
      var m, rest;
      steps, m := Extend(env, s, steps, s', Look(t.latest.value));
      rest, s' := ScanIsRun(env, m, p, t.replies, t.attempts);
      Concat(env, s, steps, rest);
      steps := steps + rest;
      if ended {
        steps, s' := Extend(env, s, steps, s', Save(!t.fault));
      }
    }
  }
}
