/** Concrete runs at which a promise fails, each meeting every hypothesis but the one that its theorem names. */
module Witnesses {
  import opened Prelude
  import opened BoltDb
  import opened Pipeline
  import opened Conservation
  import opened Positions
  import opened Sweep
  import Epochs
  import CrossTransfer
  import ZeroCopy

  const OLD: ValSet := multiset{}
  const SOMEBODY: Address := [0, 0, 0, 0, 0, 0, 0, 0, 0, 0, 0, 0, 0, 0, 0, 0, 0, 0, 0, 0]
  const NEW: ValSet := multiset{SOMEBODY}
  const EVENT: CrossTransfer.CrossTransfer := CrossTransfer.CrossTransfer([], [], [], 0, 1)

  ghost function Key(): bytes {
    CrossTransfer.Encode(EVENT)
  }

  /** Poly starts at block 1, which holds one transfer; the validators change at block `change`. */
  ghost function Chain(change: nat): Env {
    Env(h => if h < change then OLD else NEW, h => if h == 1 then [Key()] else [], 6)
  }

  ghost function Installed(): State {
    State(Poly([Epoch(1, OLD)], {}, {}, map[], {}), Disk([], [], 0),
          Head(Down, 0, Epoch(0, OLD), None), Deposit(DIdle, 0), CIdle, History({}, {}, {}, [], []))
  }

  lemma OldIsNotNew()
    ensures OLD != NEW
  {
    assert SOMEBODY in NEW;
  }

  ghost predicate Answered(env: Env, s: State, step: Step) {
    Careful(env, s, step) && QueriesSucceed(env, s, step) && SavesSucceed(env, s, step)
  }

  ghost predicate Strict(env: Env, s: State, step: Step) {
    Answered(env, s, step) && Landed(env, s, step)
  }

  ghost predicate CarefulSaves(env: Env, s: State, step: Step) {
    Careful(env, s, step) && Landed(env, s, step) && SavesSucceed(env, s, step) && Resumes(env, s, step)
  }

  /** Steps that satisfy every hypothesis, for a start as long as it resumes. */
  predicate Tame(step: Step) {
    match step
    case H(h) => h != QueryEvents(false) && h != StoreEvent(false) && h != SaveHeight(false)
      && !h.ConfirmHeader? && !h.SkipDone? && !h.BreakOff?
    case D(d) => d.ReadRetry? || d == SubmitProof(Refused)
    case C(_) => false
    case O(o) => o.Crash? || o.BootHeight? || o.BootValset?
  }

  ghost predicate Allows(env: Env, p: (Env, State, Step) -> bool) {
    forall s, step :: Tame(step) && Resumes(env, s, step) ==> p(env, s, step)
  }

  lemma TameAllowed(env: Env)
    ensures Allows(env, Answered) && Allows(env, Strict) && Allows(env, CarefulSaves)
  {
  }

  /** A run from the installation. */
  ghost predicate Reaches(env: Env, steps: seq<Step>, s: State, p: (Env, State, Step) -> bool) {
    Run(env, Installed(), steps) == Some(s) && Along(env, Installed(), steps, p)
  }

  lemma Begin(env: Env, p: (Env, State, Step) -> bool)
    ensures Reaches(env, [], Installed(), p)
  {
  }

  lemma More(env: Env, steps: seq<Step>, s: State, step: Step, p: (Env, State, Step) -> bool)
    returns (longer: seq<Step>, s': State)
    requires Reaches(env, steps, s, p) && Enabled(env, s, step) && p(env, s, step)
    ensures s' == Apply(env, s, step) && Reaches(env, longer, s', p)
  {
    hide Run, Along, Enabled, Apply;
    longer, s' := Extend(env, Installed(), steps, step, p);
  }

  lemma Go(env: Env, steps: seq<Step>, s: State, step: Step, p: (Env, State, Step) -> bool)
    returns (longer: seq<Step>, s': State)
    requires Reaches(env, steps, s, p) && Enabled(env, s, step) && Allows(env, p)
    requires Tame(step) && Resumes(env, s, step)
    ensures s' == Apply(env, s, step) && Reaches(env, longer, s', p)
  {
    hide Reaches, Enabled, Apply, Resumes;
    longer, s' := More(env, steps, s, step, p);
  }

  /** The two reads of Poly's storage, with nothing forced. */
  lemma Boot(env: Env, steps: seq<Step>, s: State, p: (Env, State, Step) -> bool)
    returns (longer: seq<Step>, s': State)
    requires Reaches(env, steps, s, p) && Allows(env, p)
    requires s.head.pc.Down? && s.poly.log != [] && Tip(s.poly).height > 0
    requires s.disk.saved > 0 || |s.poly.log| == 1
    ensures Reaches(env, longer, s', p)
    ensures
      var start := StartHeight(s.disk.saved, Tip(s.poly).height, 0);
      s' == s.(head := Head(HIdle, start, Tip(s.poly), None), deposit := Deposit(DIdle, start))
  {
    hide Reaches, Allows;
    longer, s' := Go(env, steps, s, O(BootHeight), p);
    longer, s' := Go(env, longer, s', O(BootValset(0)), p);
  }

  /** A block is saved and passed. */
  lemma Pass(env: Env, steps: seq<Step>, s: State, p: (Env, State, Step) -> bool)
    returns (longer: seq<Step>, s': State)
    requires Reaches(env, steps, s, p) && Allows(env, p) && s.head.pc.HSave?
    ensures Reaches(env, longer, s', p)
    ensures s' == s.(head := s.head.(pc := HIdle, cur := s.head.cur + 1), disk := s.disk.(saved := s.head.cur),
      history := s.history.(handled := s.history.handled + {s.head.cur},
                            writes := s.history.writes + [WHeight(s.head.cur, true)]))
  {
    hide Reaches, Allows;
    longer, s' := Go(env, steps, s, H(SaveHeight(true)), p);
    longer, s' := Go(env, longer, s', H(Advance), p);
  }

  /** A block without events, from its query on. */
  lemma NoEvents(env: Env, steps: seq<Step>, s: State, p: (Env, State, Step) -> bool)
    returns (longer: seq<Step>, s': State)
    requires Reaches(env, steps, s, p) && Allows(env, p) && s.head.pc.HQuery? && env.events(s.head.cur) == []
    ensures Reaches(env, longer, s', p)
    ensures s' == s.(head := s.head.(pc := HIdle, cur := s.head.cur + 1), disk := s.disk.(saved := s.head.cur),
      history := s.history.(handled := s.history.handled + {s.head.cur}, fetched := s.history.fetched + {s.head.cur},
                            writes := s.history.writes + [WHeight(s.head.cur, true)]))
  {
    hide Reaches, Allows;
    longer, s' := Go(env, steps, s, H(QueryEvents(true)), p);
    longer, s' := Go(env, longer, s', H(EndEvents), p);
    longer, s' := Pass(env, longer, s', p);
  }

  /** A block without events whose validators are those of the last epoch. */
  lemma Uneventful(env: Env, steps: seq<Step>, s: State, p: (Env, State, Step) -> bool)
    returns (longer: seq<Step>, s': State)
    requires Reaches(env, steps, s, p) && Allows(env, p) && s.head.pc.HIdle? && env.events(s.head.cur) == []
    requires s.head.cur > s.head.last.height && env.valset(s.head.cur) == s.head.last.valset
    requires s.head.hdr.Some? ==> s.head.hdr.value.height != s.head.cur
    ensures Reaches(env, longer, s', p)
    ensures s' == s.(
      head := Head(HIdle, s.head.cur + 1, s.head.last, Some(Epoch(s.head.cur, s.head.last.valset))),
      disk := s.disk.(saved := s.head.cur),
      history := s.history.(handled := s.history.handled + {s.head.cur}, fetched := s.history.fetched + {s.head.cur},
                            writes := s.history.writes + [WHeight(s.head.cur, true)]))
  {
    hide Reaches, Allows;
    longer, s' := Go(env, steps, s, H(FetchHeader(true)), p);
    longer, s' := Go(env, longer, s', H(NotEpoch), p);
    longer, s' := NoEvents(env, longer, s', p);
  }

  /** The first block, whose header needs no look. */
  lemma First(env: Env, change: nat, p: (Env, State, Step) -> bool) returns (steps: seq<Step>, s: State)
    requires env == Chain(change) && Allows(env, p)
    ensures Reaches(env, steps, s, p)
    ensures s == Installed().(head := Head(HQuery, 1, Epoch(1, OLD), None), deposit := Deposit(DIdle, 1))
  {
    hide Reaches, Allows, Key;
    Begin(env, p);
    steps, s := Boot(env, [], Installed(), p);
    steps, s := Go(env, steps, s, H(SkipEpochCheck), p);
  }

  /**
    A failed event query, or an iterator that stops on an error, loses the block's transfers: block 1 is passed
    without its events, block 2 in good order, and a restart begins at block 2. Nothing else went wrong, yet the
    transfer is nowhere.
   */
  lemma EventLost(broken: bool) returns (steps: seq<Step>, s: State)
    ensures Fresh(Chain(9), Installed()) && Run(Chain(9), Installed(), steps) == Some(s)
    ensures Along(Chain(9), Installed(), steps, CarefulSaves)
    ensures Up(s) && s.head.cur == 2 && 1 in s.history.handled
    ensures Key() in Chain(9).events(1) && Key() !in s.history.stored && !Kept(s, Key())
  {
    hide Run, Along, Key, Allows;
    var env := Chain(9);
    TameAllowed(env);
    steps, s := First(env, 9, CarefulSaves);
    steps, s := More(env, steps, s, H(QueryEvents(broken)), CarefulSaves);
    if broken {
      steps, s := More(env, steps, s, H(BreakOff), CarefulSaves);
    }
    hide Careful;
    steps, s := Pass(env, steps, s, CarefulSaves);
    steps, s := Uneventful(env, steps, s, CarefulSaves);
    steps, s := Go(env, steps, s, O(Crash), CarefulSaves);
    steps, s := Boot(env, steps, s, CarefulSaves);
    assert Retry(s) == map[] && Check(s) == map[];
  }

  /** Another relayer has moved Poly on before this one starts for the first time: it begins there and skips block 1. */
  lemma SkippedStart() returns (steps: seq<Step>, s: State)
    ensures Fresh(Chain(2), Installed()) && Run(Chain(2), Installed(), steps) == Some(s)
    ensures Along(Chain(2), Installed(), steps, Strict)
    ensures !NoneSkipped(Chain(2), s) && s.head.cur == 2 && s.history.handled == {}
    ensures Key() in Chain(2).events(1) && !Kept(s, Key())
  {
    hide Run, Along, Key, Allows;
    var env := Chain(2);
    OldIsNotNew();
    TameAllowed(env);
    Begin(env, Strict);
    steps, s := More(env, [], Installed(), O(HeaderByOther(Epoch(2, NEW))), Strict);
    steps, s := More(env, steps, s, O(BootHeight), Strict);
    steps, s := More(env, steps, s, O(BootValset(0)), Strict);
    assert s.poly.log[0].height == 1 && 1 !in s.history.handled;
  }

  ghost function LogAfter(accepted: bool): seq<Epoch> {
    [Epoch(1, OLD)] + (if accepted then [Epoch(2, NEW)] else [])
  }

  /** What the next run satisfies: all of `Strict` if Poly executes the header, all but `Landed` if it does not. */
  ghost predicate Suits(env: Env, accepted: bool, p: (Env, State, Step) -> bool) {
    && Allows(env, p)
    && (forall s, step :: Strict(env, s, step) ==> p(env, s, step))
    && (!accepted ==> forall s, step :: Answered(env, s, step) ==> p(env, s, step))
  }

  /** Block 1 handled, its transfer stored. */
  lemma HandleFirst(env: Env, p: (Env, State, Step) -> bool) returns (steps: seq<Step>, s: State)
    requires env == Chain(2) && Allows(env, p)
    ensures Reaches(env, steps, s, p)
    ensures s == Installed().(head := Head(HIdle, 2, Epoch(1, OLD), None), deposit := Deposit(DIdle, 1),
                              disk := Disk(Put([], Key(), EMPTY_VALUE), [], 1), history := s.history)
    ensures s.history.proofs == []
  {
    hide Reaches, Allows, Key, Put;
    steps, s := First(env, 2, p);
    steps, s := Go(env, steps, s, H(QueryEvents(true)), p);
    steps, s := Go(env, steps, s, H(StoreEvent(true)), p);
    steps, s := Go(env, steps, s, H(EndEvents), p);
    steps, s := Pass(env, steps, s, p);
  }

  /** Block 2 handled, with its header in a Poly block: executed or not. */
  lemma HandleSecond(env: Env, accepted: bool, p: (Env, State, Step) -> bool) returns (steps: seq<Step>, s: State)
    requires env == Chain(2) && Suits(env, accepted, p)
    ensures Reaches(env, steps, s, p)
    ensures s.head == Head(HIdle, 3, Epoch(2, NEW), Some(Epoch(2, NEW))) && s.poly.log == LogAfter(accepted)
    ensures s.deposit == Deposit(DIdle, 1) && s.check == CIdle && s.history.proofs == []
    ensures s.disk == Disk(Put([], Key(), EMPTY_VALUE), [], 2)
  {
    hide Reaches, Allows, Key, Put;
    OldIsNotNew();
    steps, s := HandleFirst(env, p);
    steps, s := Go(env, steps, s, H(FetchHeader(true)), p);
    steps, s := Go(env, steps, s, H(SubmitHeader(true, true)), p);
    steps, s := More(env, steps, s, O(IncludeHeader(Epoch(2, NEW), accepted)), p);
    steps, s := More(env, steps, s, H(ConfirmHeader), p);
    steps, s := NoEvents(env, steps, s, p);
  }

  lemma Stored()
    ensures Ready(6, 3, Key()) && KeyList(Batch(Put([], Key(), EMPTY_VALUE))) == [Key()]
    ensures CrossTransfer.Decode(Key()) == Some(EVENT)
  {
    hide ZeroCopy.LittleEndian, ZeroCopy.VarBytes, CrossTransfer.Encode, CrossTransfer.DecodeAt;
    CrossTransfer.RoundTrip(EVENT, []);
    assert Key() + [] == Key();
    assert Sub64(3 % TWO64, 6) > 1;
  }

  ghost function Early(accepted: bool): Proof {
    ProofOf(Key(), 3, 4, LogAfter(accepted))
  }

  /** A deposit round that could not read the bucket. */
  lemma BlindRound(env: Env, steps: seq<Step>, s: State, p: (Env, State, Step) -> bool)
    returns (longer: seq<Step>, s': State)
    requires Reaches(env, steps, s, p) && Allows(env, p)
    requires Up(s) && s.deposit.pc.DIdle? && s.deposit.cursor < s.head.cur
    ensures Reaches(env, longer, s', p) && s' == s.(deposit := Deposit(DIdle, s.deposit.cursor + 1))
  {
    hide Reaches, Allows;
    longer, s' := Go(env, steps, s, D(ReadRetry(false)), p);
  }

  /** A deposit round up to its one submission, which Poly refuses. */
  lemma OneEntry(env: Env, steps: seq<Step>, s: State, p: (Env, State, Step) -> bool)
    returns (longer: seq<Step>, s': State)
    requires Reaches(env, steps, s, p) && Allows(env, p) && env.distance == 6
    requires Up(s) && s.deposit == Deposit(DIdle, 3) && s.head.cur == 4
    requires s.disk.retry == Put([], Key(), EMPTY_VALUE)
    ensures Reaches(env, longer, s', p)
    ensures s'.history.proofs == s.history.proofs + [ProofOf(Key(), 3, 4, s.poly.log)]
  {
    hide Reaches, Allows, Key, Ready, Put, Batch, KeyList, DepositApply, DepositEnabled;
    hide HeadEnabled, HeadApply, CheckEnabled, CheckApply, OutsideEnabled, OutsideApply;
    Stored();
    ReadsOne(env, s);
    longer, s' := Go(env, steps, s, D(ReadRetry(true)), p);
    SubmitsOne(env, s');
    longer, s' := Go(env, longer, s', D(SubmitProof(Refused)), p);
  }

  lemma ReadsOne(env: Env, s: State)
    requires Up(s) && s.deposit == Deposit(DIdle, 3) && s.head.cur == 4
    requires KeyList(Batch(s.disk.retry)) == [Key()]
    ensures DepositEnabled(env, s, ReadRetry(true))
    ensures DepositApply(env, s, ReadRetry(true)) == s.(deposit := Deposit(DRound([Key()]), 3))
  {
    hide Key, Batch, KeyList;
  }

  lemma SubmitsOne(env: Env, s: State)
    requires Up(s) && s.deposit == Deposit(DRound([Key()]), 3) && s.head.cur == 4
    requires env.distance == 6 && Ready(6, 3, Key())
    ensures DepositEnabled(env, s, SubmitProof(Refused))
    ensures DepositApply(env, s, SubmitProof(Refused)).history.proofs
      == s.history.proofs + [ProofOf(Key(), 3, 4, s.poly.log)]
  {
    hide Key, Ready;
    assert Sub64(3 % TWO64, 1) == 2;
  }

  /** Block 3 passed; two deposit rounds see nothing; the third submits a proof. */
  lemma EarlyRun(env: Env, accepted: bool, p: (Env, State, Step) -> bool) returns (steps: seq<Step>, s: State)
    requires env == Chain(2) && Suits(env, accepted, p)
    ensures Reaches(env, steps, s, p) && s.history.proofs == [Early(accepted)]
  {
    hide Reaches, Allows, Key, Ready, Put, Batch, KeyList;
    hide HeadEnabled, HeadApply, CheckEnabled, CheckApply, OutsideEnabled, OutsideApply;
    assert Allows(env, p);
    hide Suits;
    Stored();
    steps, s := HandleSecond(env, accepted, p);
    OldIsNotNew();
    steps, s := Uneventful(env, steps, s, p);
    steps, s := BlindRound(env, steps, s, p);
    steps, s := BlindRound(env, steps, s, p);
    steps, s := OneEntry(env, steps, s, p);
  }

  /**
    A header transaction that fails on Poly is taken for confirmed: a proof for block 2 is then submitted although
    Poly does not know of the change of validators at block 2.
   */
  lemma ProofAheadOfEpoch() returns (steps: seq<Step>, s: State, p: Proof)
    ensures Fresh(Chain(2), Installed()) && Run(Chain(2), Installed(), steps) == Some(s)
    ensures Along(Chain(2), Installed(), steps, Answered) && p in s.history.proofs
    ensures p.safe == 2 && p.log == [Epoch(1, OLD)] && Chain(2).valset(2) != Chain(2).valset(1)
  {
    hide Run, Along, Answered, Key;
    OldIsNotNew();
    TameAllowed(Chain(2));
    steps, s := EarlyRun(Chain(2), false, Answered);
    p := Early(false);
    assert p in s.history.proofs;
  }

  /** With nothing at fault, a proof is submitted one block after its transfer: the cursor is below the distance. */
  lemma ProofTooEarly() returns (steps: seq<Step>, s: State, p: Proof)
    ensures Fresh(Chain(2), Installed()) && Run(Chain(2), Installed(), steps) == Some(s)
    ensures Along(Chain(2), Installed(), steps, Strict) && p in s.history.proofs
    ensures p.ref == 3 && Chain(2).distance == SafeBlockDistance(0) == 6
    ensures CrossTransfer.Decode(p.entry) == Some(EVENT) && p.safe == EVENT.height + 1
  {
    hide Run, Along, Strict, Key;
    Stored();
    TameAllowed(Chain(2));
    steps, s := EarlyRun(Chain(2), true, Strict);
    p := Early(true);
    assert p in s.history.proofs;
  }
}
