/**
  The Palette-to-Poly pipeline as a step system (manager/palette.go over db/db.go): the header loop, the deposit
  loop and the check loop of one process, the Poly chain, and crashes. Every database call and every remote call is
  one step; steps of different loops interleave freely.
 */
module Pipeline {
  import opened Prelude
  import opened BoltDb
  import CrossTransfer
  import MappingKey

  type ValSet = multiset<Address>

  /** A header that changes the validators: where it stands and whom it names. */
  datatype Epoch = Epoch(height: nat, valset: ValSet)

  /**
    The Palette chain and the configuration: the validator set of each header, the Retry keys of each block's
    outbound events for target contracts, and `safeBlockDistance()`.
   */
  datatype Env = Env(valset: nat -> ValSet, events: nat -> seq<bytes>, distance: uint64)

  datatype Status = Pending | Succeeded | Failed

  datatype PolyTx = PolyTx(entry: bytes, status: Status)

  /**
    Poly: the epochs it has accepted (the first is the starting epoch), header transactions sent to it and those
    in a block, the import transactions by hash, and the transfers executed.
   */
  datatype Poly = Poly(log: seq<Epoch>, inflight: set<Epoch>, included: set<Epoch>,
                       txs: map<bytes, PolyTx>, done: set<bytes>)

  datatype Disk = Disk(retry: Bucket, check: Bucket, saved: nat)

  datatype HeadPc =
    | Down                      // no process
    | Booting(epoch: nat)       // init, between its two reads of Poly's storage
    | HIdle                     // before handleNewBlock(cur)
    | HHeader                   // header at hand, before isEpoch
    | HWait                     // in commitHeader, waiting for the transaction
    | HQuery                    // before fetchLockEvents(cur)
    | HStore(rest: seq<bytes>)  // in fetchLockEvents
    | HSave                     // before UpdatePaletteHeight(cur)
    | HAdvance                  // before the increment

  datatype Head = Head(pc: HeadPc, cur: nat, last: Epoch, hdr: Option<Epoch>)

  datatype DepositPc =
    | DIdle
    | DRound(rest: seq<bytes>)                                    // in handleDepositEvents(cursor)
    | DSent(entry: bytes, hash: bytes, rest: seq<bytes>)          // submitted, before PutCheck
    | DDrop(entry: bytes, via: Option<bytes>, rest: seq<bytes>)  // before DeleteRetry; None: found done

  datatype Deposit = Deposit(pc: DepositPc, cursor: nat)

  datatype CheckPc =
    | CIdle
    | CRound(rest: map<bytes, bytes>)                                              // in checkLockEvents
    | CBack(hash: bytes, entry: bytes, rest: map<bytes, bytes>)                    // saw a failure, before PutRetry
    | CDrop(hash: bytes, entry: bytes, failed: bool, rest: map<bytes, bytes>)      // before DeleteCheck

  /**
    One call of `commitProof`: for which entry, the payload submitted, the hashed preimage of the slot whose proof goes
    with it (None where the index is not hex), at which deposit cursor and proof height, the height as stated to Poly
    in 32 bits, how far the header loop was, and what Poly knew.
   */
  datatype Proof = Proof(entry: bytes, value: bytes, slot: Option<bytes>, ref: nat, safe: uint64, stated: uint32,
                         headCur: nat, log: seq<Epoch>)

  /**
    What happened so far: entries ever put into Retry, heights handled, heights whose events were all read,
    proofs issued, database writes.
   */
  datatype History = History(stored: set<bytes>, handled: set<nat>, fetched: set<nat>,
                             proofs: seq<Proof>, writes: seq<Write>)

  datatype State = State(poly: Poly, disk: Disk, head: Head, deposit: Deposit, check: CheckPc, history: History)

  /** No change of the validator set in `(base, to)`, compared with `v`. */
  ghost predicate Quiet(env: Env, v: ValSet, base: nat, to: nat) {
    forall t :: base < t < to ==> env.valset(t) == v
  }

  /** The next header after `tip` that changes the validators. */
  ghost predicate Next(env: Env, tip: Epoch, e: Epoch) {
    && e.height > tip.height
    && e.valset == env.valset(e.height)
    && e.valset != tip.valset
    && Quiet(env, tip.valset, tip.height, e.height)
  }

  function Tip(p: Poly): Epoch
    requires p.log != []
  {
    p.log[|p.log| - 1]
  }

  predicate Up(s: State) {
    !s.head.pc.Down? && !s.head.pc.Booting?
  }

  datatype HeadStep =
    | SkipEpochCheck
    | FetchHeader(ok: bool)
    | NotEpoch
    | SubmitHeader(sent: bool, broadcast: bool)  // an error reply may still leave the transaction on its way
    | ConfirmHeader
    | QueryEvents(ok: bool)
    | SkipDone
    | StoreEvent(ok: bool)
    | EndEvents
    | BreakOff                                   // the event iterator stops on an error, which nobody looks at
    | SaveHeight(ok: bool)
    | Advance

  datatype Reply = Sent(hash: bytes) | AlreadyDone | Refused

  datatype DepositStep =
    | ReadRetry(ok: bool)
    | SkipEntry
    | SubmitProof(reply: Reply)
    | StoreCheck(ok: bool)
    | DropRetry(ok: bool)
    | EndRound

  datatype CheckStep =
    | ReadCheck(ok: bool)
    | NoEvent(hash: bytes)
    | SeeSuccess(hash: bytes)
    | SeeFailure(hash: bytes)
    | PutBack(ok: bool)
    | DropCheck(ok: bool)
    | EndCheck

  datatype OutsideStep =
    | IncludeHeader(e: Epoch, accepted: bool)
    | ExecuteImport(hash: bytes, ok: bool)
    | DoneByOther(entry: bytes)
    | HeaderByOther(e: Epoch)  // another relayer's header takes effect
    | Crash
    | BootHeight
    | BootValset(force: nat)
    | BootFails

  datatype Step = H(h: HeadStep) | D(d: DepositStep) | C(c: CheckStep) | O(o: OutsideStep)

  predicate HeadEnabled(env: Env, s: State, step: HeadStep) {
    var hd := s.head;
    match step
    case SkipEpochCheck => hd.pc.HIdle? && hd.cur <= hd.last.height
    case FetchHeader(ok) => hd.pc.HIdle? && hd.cur > hd.last.height
      && (hd.hdr.Some? && hd.hdr.value.height == hd.cur ==> ok)
    case NotEpoch => hd.pc.HHeader? && hd.hdr.Some? && hd.hdr.value.valset == hd.last.valset
    case SubmitHeader(_, _) => hd.pc.HHeader? && hd.hdr.Some? && hd.hdr.value.valset != hd.last.valset
    case ConfirmHeader => hd.pc.HWait? && hd.hdr.Some? && hd.hdr.value in s.poly.included
    case QueryEvents(_) => hd.pc.HQuery?
    case SkipDone => hd.pc.HStore? && hd.pc.rest != []
    case StoreEvent(_) => hd.pc.HStore? && hd.pc.rest != []
    case EndEvents => hd.pc.HStore? && hd.pc.rest == []
    case BreakOff => hd.pc.HStore?
    case SaveHeight(_) => hd.pc.HSave?
    case Advance => hd.pc.HAdvance?
  }

  ghost function HeadApply(env: Env, s: State, step: HeadStep): State
    requires HeadEnabled(env, s, step)
  {
    var hd := s.head;
    match step
    case SkipEpochCheck => s.(head := hd.(pc := HQuery))
    case FetchHeader(ok) =>
      if !ok then s
      else if hd.hdr.Some? && hd.hdr.value.height == hd.cur then s.(head := hd.(pc := HHeader))
      else s.(head := hd.(pc := HHeader, hdr := Some(Epoch(hd.cur, env.valset(hd.cur)))))
    case NotEpoch => s.(head := hd.(pc := HQuery))
    case SubmitHeader(sent, broadcast) =>
      var s' := if sent || broadcast
                then s.(poly := s.poly.(inflight := s.poly.inflight + {hd.hdr.value})) else s;
      s'.(head := hd.(pc := if sent then HWait else HIdle))
    case ConfirmHeader => s.(head := hd.(pc := HQuery, last := hd.hdr.value))
    case QueryEvents(ok) => s.(head := hd.(pc := if ok then HStore(env.events(hd.cur)) else HSave))
    case SkipDone => s.(head := hd.(pc := HStore(hd.pc.rest[1..])))
    case StoreEvent(ok) =>
      var e := hd.pc.rest[0];
      var s' := s.(head := hd.(pc := HStore(hd.pc.rest[1..])),
                   history := s.history.(writes := s.history.writes + [WPutRetry(e, ok)]));
      if ok then s'.(disk := s.disk.(retry := Put(s.disk.retry, e, EMPTY_VALUE)),
                     history := s'.history.(stored := s.history.stored + {e}))
      else s'
    case EndEvents => s.(head := hd.(pc := HSave), history := s.history.(fetched := s.history.fetched + {hd.cur}))
    case BreakOff => s.(head := hd.(pc := HSave))
    case SaveHeight(ok) =>
      var s' := s.(head := hd.(pc := HAdvance),
                   history := s.history.(writes := s.history.writes + [WHeight(hd.cur, ok)]));
      if ok then s'.(disk := s.disk.(saved := hd.cur)) else s'
    case Advance =>
      s.(head := hd.(pc := HIdle, cur := hd.cur + 1), history := s.history.(handled := s.history.handled + {hd.cur}))
  }

  /** The guard of handleDepositEvents, with its subtraction on uint64. */
  predicate Ready(distance: uint64, ref: nat, entry: bytes) {
    var t := CrossTransfer.Decode(entry);
    t.Some? && Sub64(ref % TWO64, distance) > t.value.height
  }

  /** The submission of an entry: one block behind the deposit cursor. */
  ghost function ProofOf(entry: bytes, ref: nat, headCur: nat, log: seq<Epoch>): (p: Proof)
    ensures p.entry == entry && p.ref == ref && p.headCur == headCur && p.log == log
    ensures p.safe == Sub64(ref % TWO64, 1) && p.stated == p.safe % TWO32
  {
    var safe := Sub64(ref % TWO64, 1);
    match CrossTransfer.Decode(entry)
    case Some(t) =>
      var slot := MappingKey.Preimage(t.txIndex, MappingKey.SLOT_TEXT);
      Proof(entry, t.value, slot, ref, safe, safe % TWO32, headCur, log)
    case None => Proof(entry, [], None, ref, safe, safe % TWO32, headCur, log)
  }

  predicate DepositEnabled(env: Env, s: State, step: DepositStep) {
    var d := s.deposit;
    Up(s) &&
    match step
    case ReadRetry(_) => d.pc.DIdle? && d.cursor < s.head.cur
    case SkipEntry => d.pc.DRound? && d.pc.rest != []
    case SubmitProof(_) => d.pc.DRound? && d.pc.rest != [] && Ready(env.distance, d.cursor, d.pc.rest[0])
    case StoreCheck(_) => d.pc.DSent?
    case DropRetry(_) => d.pc.DDrop?
    case EndRound => d.pc.DRound? && d.pc.rest == []
  }

  ghost function DepositApply(env: Env, s: State, step: DepositStep): State
    requires DepositEnabled(env, s, step)
  {
    var d := s.deposit;
    match step
    case ReadRetry(ok) =>
      if ok then s.(deposit := d.(pc := DRound(KeyList(Batch(s.disk.retry)))))
      else s.(deposit := d.(cursor := d.cursor + 1))
    case SkipEntry => s.(deposit := d.(pc := DRound(d.pc.rest[1..])))
    case SubmitProof(reply) =>
      var e, rest := d.pc.rest[0], d.pc.rest[1..];
      var proof := ProofOf(e, d.cursor, s.head.cur, s.poly.log);
      var s' := s.(history := s.history.(proofs := s.history.proofs + [proof]));
      (match reply
       case Sent(hash) => s'.(poly := s.poly.(txs := s.poly.txs[hash := PolyTx(e, Pending)]),
                              deposit := d.(pc := DSent(e, hash, rest)))
       case AlreadyDone => s'.(deposit := d.(pc := DDrop(e, None, rest)))
       case Refused => s'.(deposit := d.(pc := DRound(rest))))
    case StoreCheck(ok) =>
      var s' := s.(deposit := d.(pc := DDrop(d.pc.entry, Some(d.pc.hash), d.pc.rest)),
                   history := s.history.(writes := s.history.writes + [WPutCheck(d.pc.hash, d.pc.entry, ok)]));
      if ok then s'.(disk := s.disk.(check := Put(s.disk.check, d.pc.hash, d.pc.entry))) else s'
    case DropRetry(ok) =>
      var s' := s.(deposit := d.(pc := DRound(d.pc.rest)),
                   history := s.history.(writes := s.history.writes + [WDeleteRetry(d.pc.entry, ok)]));
      if ok then s'.(disk := s.disk.(retry := Delete(s.disk.retry, d.pc.entry))) else s'
    case EndRound => s.(deposit := Deposit(DIdle, d.cursor + 1))
  }

  predicate CheckEnabled(s: State, step: CheckStep) {
    var c := s.check;
    Up(s) &&
    match step
    case ReadCheck(_) => c.CIdle?
    case NoEvent(hash) => c.CRound? && hash in c.rest
    case SeeSuccess(hash) => c.CRound? && hash in c.rest
    case SeeFailure(hash) => c.CRound? && hash in c.rest
    case PutBack(_) => c.CBack?
    case DropCheck(_) => c.CDrop?
    case EndCheck => c.CRound? && c.rest == map[]
  }

  ghost function CheckApply(s: State, step: CheckStep): State
    requires CheckEnabled(s, step)
  {
    var c := s.check;
    match step
    case ReadCheck(ok) => if ok then s.(check := CRound(Contents(Batch(s.disk.check)))) else s
    case NoEvent(hash) => s.(check := CRound(c.rest - {hash}))
    case SeeSuccess(hash) => s.(check := CDrop(hash, c.rest[hash], false, c.rest - {hash}))
    case SeeFailure(hash) => s.(check := CBack(hash, c.rest[hash], c.rest - {hash}))
    case PutBack(ok) =>
      var s' := s.(check := CDrop(c.hash, c.entry, true, c.rest),
                   history := s.history.(writes := s.history.writes + [WPutRetry(c.entry, ok)]));
      if ok then s'.(disk := s.disk.(retry := Put(s.disk.retry, c.entry, EMPTY_VALUE)),
                     history := s'.history.(stored := s.history.stored + {c.entry}))
      else s'
    case DropCheck(ok) =>
      var s' := s.(check := CRound(c.rest),
                   history := s.history.(writes := s.history.writes + [WDeleteCheck(c.hash, ok)]));
      if ok then s'.(disk := s.disk.(check := Delete(s.disk.check, c.hash))) else s'
    case EndCheck => s.(check := CIdle)
  }

  /** Where init starts: the saved height, or the epoch height if none is saved, or a lower forced height. */
  function StartHeight(saved: nat, epoch: nat, force: nat): nat {
    var cur := if saved == 0 then epoch else saved;
    if force > 0 && force < cur then force else cur
  }

  predicate OutsideEnabled(s: State, step: OutsideStep) {
    match step
    case IncludeHeader(e, _) => e in s.poly.inflight
    case ExecuteImport(hash, _) => hash in s.poly.txs && s.poly.txs[hash].status.Pending?
    case DoneByOther(_) => true
    case HeaderByOther(_) => true
    case Crash => !s.head.pc.Down?
    case BootHeight => s.head.pc.Down? && s.poly.log != [] && Tip(s.poly).height > 0
    case BootValset(_) => s.head.pc.Booting? && s.poly.log != []
    case BootFails => s.head.pc.Booting?
  }

  ghost function OutsideApply(s: State, step: OutsideStep): State
    requires OutsideEnabled(s, step)
  {
    match step
    case IncludeHeader(e, accepted) =>
      s.(poly := s.poly.(included := s.poly.included + {e}, log := if accepted then s.poly.log + [e] else s.poly.log))
    case ExecuteImport(hash, ok) =>
      var tx := s.poly.txs[hash].(status := if ok then Succeeded else Failed);
      s.(poly := s.poly.(txs := s.poly.txs[hash := tx], done := s.poly.done + (if ok then {tx.entry} else {})))
    case DoneByOther(entry) => s.(poly := s.poly.(done := s.poly.done + {entry}))
    case HeaderByOther(e) => s.(poly := s.poly.(log := s.poly.log + [e]))
    case Crash => s.(head := s.head.(pc := Down, hdr := None), deposit := s.deposit.(pc := DIdle), check := CIdle)
    case BootHeight => s.(head := s.head.(pc := Booting(Tip(s.poly).height)))
    case BootValset(force) =>
      var start := StartHeight(s.disk.saved, s.head.pc.epoch, force);
      s.(head := Head(HIdle, start, Epoch(s.head.pc.epoch, Tip(s.poly).valset), None), deposit := Deposit(DIdle, start))
    case BootFails => s.(head := s.head.(pc := Down))
  }

  predicate Enabled(env: Env, s: State, step: Step) {
    match step
    case H(h) => HeadEnabled(env, s, h)
    case D(d) => DepositEnabled(env, s, d)
    case C(c) => CheckEnabled(s, c)
    case O(o) => OutsideEnabled(s, o)
  }

  ghost function Apply(env: Env, s: State, step: Step): State
    requires Enabled(env, s, step)
  {
    match step
    case H(h) => HeadApply(env, s, h)
    case D(d) => DepositApply(env, s, d)
    case C(c) => CheckApply(s, c)
    case O(o) => OutsideApply(s, o)
  }

  /** The state after a sequence of steps, or None where one is not enabled. */
  ghost function Run(env: Env, s: State, steps: seq<Step>): Option<State> {
    if steps == [] then Some(s) else
    match Run(env, s, steps[..|steps| - 1])
    case None => None
    case Some(m) => if Enabled(env, m, steps[|steps| - 1]) then Some(Apply(env, m, steps[|steps| - 1])) else None
  }

  /** A run extended by one enabled step. */
  lemma RunNext(env: Env, s: State, steps: seq<Step>, step: Step)
    requires Run(env, s, steps).Some? && Enabled(env, Run(env, s, steps).value, step)
    ensures Run(env, s, steps + [step]) == Some(Apply(env, Run(env, s, steps).value, step))
  {
    assert (steps + [step])[..|steps|] == steps;
  }

  /**
    What the outside world is taken to do. Poly takes in no header at or below its epoch, and of the headers that
    other relayers send only the next change; import hashes are never reused; replies and event states tell the
    truth about Poly. A header transaction may fail for any reason.
   */
  ghost predicate Honest(env: Env, s: State, step: Step) {
    match step
    case H(SkipDone) => s.head.pc.HStore? && s.head.pc.rest != [] ==> s.head.pc.rest[0] in s.poly.done
    case D(SubmitProof(Sent(hash))) => hash !in s.poly.txs
    case D(SubmitProof(AlreadyDone)) =>
      s.deposit.pc.DRound? && s.deposit.pc.rest != [] ==> s.deposit.pc.rest[0] in s.poly.done
    case C(SeeSuccess(hash)) => hash in s.poly.txs && s.poly.txs[hash].status.Succeeded?
    case C(SeeFailure(hash)) => hash in s.poly.txs && s.poly.txs[hash].status.Failed?
    case O(IncludeHeader(e, accepted)) => s.poly.log != [] && (accepted ==> e.height > Tip(s.poly).height)
    case O(HeaderByOther(e)) => s.poly.log != [] && Next(env, Tip(s.poly), e)
    case _ => true
  }

  /** A header that commitHeader takes for confirmed has been reached by Poly. The code does not look at that. */
  ghost predicate Landed(env: Env, s: State, step: Step) {
    step.H? && step.h.ConfirmHeader? ==>
      s.poly.log != [] && s.head.hdr.Some? && s.head.hdr.value.height <= Tip(s.poly).height
  }

  /** Database puts succeed; deletes and height updates may fail. */
  ghost predicate PutsSucceed(env: Env, s: State, step: Step) {
    match step
    case H(StoreEvent(ok)) => ok
    case D(StoreCheck(ok)) => ok
    case C(PutBack(ok)) => ok
    case _ => true
  }

  /** The checker does not put an entry back while the deposit loop is about to delete it for that same hash. */
  ghost predicate NoRace(env: Env, s: State, step: Step) {
    step.C? && step.c.PutBack? && s.check.CBack? ==> !(s.deposit.pc.DDrop? && s.deposit.pc.via == Some(s.check.hash))
  }

  /** A hypothesis on steps holds along a run. */
  ghost predicate Along(env: Env, s: State, steps: seq<Step>, p: (Env, State, Step) -> bool)
    requires Run(env, s, steps).Some?
  {
    steps == [] ||
    (Along(env, s, steps[..|steps| - 1], p) && p(env, Run(env, s, steps[..|steps| - 1]).value, steps[|steps| - 1]))
  }

  /** A property of states holds at the start of a run and after each of its steps. */
  ghost predicate Always(env: Env, s: State, steps: seq<Step>, p: (Env, State) -> bool)
    requires Run(env, s, steps).Some?
  {
    p(env, Run(env, s, steps).value) && (steps == [] || Always(env, s, steps[..|steps| - 1], p))
  }

  /** Two hypotheses hold along a run exactly if both do at every step. */
  lemma {:induction false} AlongBoth(env: Env, s: State, steps: seq<Step>, p: (Env, State, Step) -> bool,
                                     q: (Env, State, Step) -> bool, both: (Env, State, Step) -> bool)
    requires Run(env, s, steps).Some?
    requires forall m, step :: both(env, m, step) <==> p(env, m, step) && q(env, m, step)
    ensures Along(env, s, steps, both) <==> Along(env, s, steps, p) && Along(env, s, steps, q)
  {
    hide Enabled, Apply;
    if steps != [] {
      AlongBoth(env, s, steps[..|steps| - 1], p, q, both);
    }
  }

  /** A hypothesis that implies another. */
  lemma {:induction false} AlongWeaker(env: Env, s: State, steps: seq<Step>, p: (Env, State, Step) -> bool,
                                       q: (Env, State, Step) -> bool)
    requires Run(env, s, steps).Some? && Along(env, s, steps, p)
    requires forall m, step :: p(env, m, step) ==> q(env, m, step)
    ensures Along(env, s, steps, q)
  {
    hide Enabled, Apply;
    if steps != [] {
      AlongWeaker(env, s, steps[..|steps| - 1], p, q);
    }
  }

  /** One more step of a run that satisfies a hypothesis. */
  lemma Extend(env: Env, s0: State, steps: seq<Step>, step: Step, p: (Env, State, Step) -> bool)
    returns (longer: seq<Step>, s: State)
    requires Run(env, s0, steps).Some? && Along(env, s0, steps, p)
    requires Enabled(env, Run(env, s0, steps).value, step) && p(env, Run(env, s0, steps).value, step)
    ensures longer == steps + [step] && s == Apply(env, Run(env, s0, steps).value, step)
    ensures Run(env, s0, longer) == Some(s) && Along(env, s0, longer, p)
  {
    hide Enabled, Apply;
    longer := steps + [step];
    s := Apply(env, Run(env, s0, steps).value, step);
    assert longer[..|steps|] == steps;
  }

  /** A fresh installation: nothing stored, no process, Poly at its starting epoch. */
  ghost predicate Fresh(env: Env, s: State) {
    && |s.poly.log| == 1 && s.poly.inflight == {} && s.poly.included == {} && s.poly.txs == map[]
    && s.poly.log[0].valset == env.valset(s.poly.log[0].height)
    && s.disk == Disk([], [], 0)
    && s.head.pc.Down? && s.head.hdr.None? && s.deposit.pc.DIdle? && s.check.CIdle?
    && s.history == History({}, {}, {}, [], [])
  }
}
