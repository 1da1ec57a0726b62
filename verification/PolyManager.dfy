/**
  The Poly manager (manager/poly.go): a resumable scan of Poly's heights that hands deposit events to the senders.
  Its methods take the replies of the remote calls as arguments.
 */
module PolyManager {
  import opened Prelude
  import opened BoltDb
  import AuditPath
  import MappingKey

  /** One notification: who emitted it, how many states it has, and the states that the manager reads. */
  datatype Notify = Notify(contract: Address, stateCount: nat, action: bytes, sideChain: uint64, proofKey: bytes)

  datatype TxEvents = TxEvents(txHash: bytes, notifies: seq<Notify>)

  /** `accepts`: the value deserialises as a merkle value whose target contract is configured. */
  datatype Config = Config(entrance: Address, sideChainId: uint64, accepts: bytes -> bool)

  datatype EpochReply = EpochError | SameEpoch | NewEpoch

  /** What the manager uses of a Poly header: its height, the message that it signs, its signatures. */
  datatype Header = Header(height: uint32, message: bytes, sigs: seq<bytes>)

  /**
    What the remote calls answer during one attempt at a height: the epoch height on Palette (0 where it cannot be
    read), the headers by height, the keeper comparison, the Merkle proofs of one height's header under another's, the
    block's events, the cross-state proofs, and whether a bookkeeper change went through.
   */
  datatype BlockReply = BlockReply(lastEpoch: uint32, headers: uint32 -> Option<Header>, epoch: EpochReply,
                                   merkle: (uint32, uint32) -> Option<bytes>, events: Option<seq<TxEvents>>,
                                   proofs: bytes -> Option<bytes>, committed: bool)

  /**
    A deposit handed to a sender: its block and transaction, and what Palette's contract is called with: the audit path,
    the header, the header's proof under the anchor, the anchor, and the header whose signatures go along. As in the
    source, the headers are pointers; None is nil.
   */
  datatype Item = Item(height: uint32, txHash: bytes, notify: Notify, path: bytes, header: Option<Header>,
                       proof: bytes, anchor: Option<Header>, signer: Option<Header>)

  /** A panic ends the process. */
  datatype Outcome = Handled | TryAgain | Panicked

  /** The text "makeProof". */
  const MAKE_PROOF: bytes := [109, 97, 107, 101, 80, 114, 111, 111, 102]

  predicate Eligible(c: Config, n: Notify) {
    n.contract == c.entrance && n.stateCount >= 6 && n.action == MAKE_PROOF && n.sideChain == c.sideChainId
  }

  /** The audit path as bytes; a fault in its hex text is ignored. */
  function PathOf(hexPath: bytes): bytes {
    MappingKey.HexDecodeString(hexPath).0
  }

  /** Whether a fetched proof leads to a deposit: a path the parser rejects yields an empty value. */
  predicate Leads(c: Config, hexPath: bytes) {
    match AuditPath.Parse(PathOf(hexPath))
    case Some(p) => c.accepts(p.value)
    case None => c.accepts([])
  }

  predicate Selects(c: Config, n: Notify, proof: Option<bytes>) {
    Eligible(c, n) && proof.Some? && Leads(c, proof.value)
  }

  function ValidHeight(height: uint32): uint32 {
    Add32(height, 1)
  }

  predicate IsCurrent(height: uint32, r: BlockReply) {
    r.lastEpoch < ValidHeight(height)
  }

  predicate HasHeader(height: uint32, r: BlockReply) {
    r.headers(ValidHeight(height)).Some?
  }

  /** The height of the anchor, where one is needed. */
  function RootHeight(height: uint32, r: BlockReply): Option<uint32> {
    if !IsCurrent(height, r) then Some(Add32(r.lastEpoch, 1))
    else if r.epoch.NewEpoch? then Some(Add32(ValidHeight(height), 1))
    else None
  }

  function Anchor(height: uint32, r: BlockReply): Option<Header> {
    match RootHeight(height, r) case Some(root) => r.headers(root) case None => None
  }

  /** Asked for a proof that is not there, the manager panics. */
  predicate Panics(height: uint32, r: BlockReply) {
    match RootHeight(height, r) case Some(root) => r.merkle(ValidHeight(height), root).None? case None => false
  }

  /** The proof of the header under the anchor, as hex text. */
  function ProofText(height: uint32, r: BlockReply): bytes
    requires !Panics(height, r)
  {
    match RootHeight(height, r) case Some(root) => r.merkle(ValidHeight(height), root).value case None => []
  }

  /** The header whose signatures accompany a deposit. */
  function Signer(header: Option<Header>, hp: bytes, anchor: Option<Header>): Option<Header> {
    if anchor.Some? && hp != [] then anchor else header
  }

  function ItemOf(height: uint32, txHash: bytes, n: Notify, hexPath: bytes, r: BlockReply): Item {
    var header, anchor := r.headers(ValidHeight(height)), Anchor(height, r);
    var hp := if Panics(height, r) then [] else ProofText(height, r);
    Item(height, txHash, n, PathOf(hexPath), header, PathOf(hp), anchor, Signer(header, hp, anchor))
  }

  function SelectedOfTx(c: Config, height: uint32, tx: TxEvents, r: BlockReply, n: nat): seq<Item>
    requires n <= |tx.notifies|
  {
    if n == 0 then [] else
    var before := SelectedOfTx(c, height, tx, r, n - 1);
    var notify := tx.notifies[n - 1];
    var proof := r.proofs(notify.proofKey);
    if Selects(c, notify, proof) then before + [ItemOf(height, tx.txHash, notify, proof.value, r)] else before
  }

  /** The deposits of the first `n` transactions of a block, in order. */
  function Selected(c: Config, height: uint32, txs: seq<TxEvents>, r: BlockReply, n: nat): seq<Item>
    requires n <= |txs|
  {
    if n == 0 then []
    else Selected(c, height, txs, r, n - 1) + SelectedOfTx(c, height, txs[n - 1], r, |txs[n - 1].notifies|)
  }

  /** All deposits of a block's reply. */
  function Deposits(c: Config, height: uint32, r: BlockReply): seq<Item> {
    if r.events.Some? then Selected(c, height, r.events.value, r, |r.events.value|) else []
  }

  /** How an attempt ends. Before the events are read, nothing was enqueued. */
  function OutcomeOf(c: Config, height: uint32, r: BlockReply): Outcome {
    if !HasHeader(height, r) || r.epoch.EpochError? then TryAgain
    else if Panics(height, r) then Panicked
    else if r.events.None? then TryAgain
    else if Deposits(c, height, r) == [] && r.epoch.NewEpoch? && IsCurrent(height, r) && !r.committed then TryAgain
    else Handled
  }

  datatype Done = Done(height: uint32, reply: BlockReply)

  /** The cursor, the saved height, what was enqueued, the successful attempts, and whether the process lives. */
  datatype State = State(cur: uint32, saved: nat, queue: seq<Item>, done: seq<Done>, alive: bool)

  /** One tick of the monitor: the chain height, the replies, how many attempts the process lives, the save's fault. */
  datatype TickInput = TickInput(latest: Option<uint32>, replies: uint32 -> BlockReply, attempts: nat, fault: bool)

  function WorkEnd(latest: uint32): uint32 {
    Sub32(Sub32(latest, 1), 1)
  }

  /** A height handled. */
  function After(c: Config, s: State, r: BlockReply): State {
    s.(cur := Add32(s.cur, 1), queue := s.queue + Deposits(c, s.cur, r), done := s.done + [Done(s.cur, r)])
  }

  /** The loop over heights; `.1` is whether it came to its end or a failed attempt (and not to a dead process). */
  function Scan(c: Config, s: State, end: uint32, replies: uint32 -> BlockReply, attempts: nat): (State, bool)
    decreases attempts
  {
    if s.cur > end then (s, true)
    else if attempts == 0 then (s.(alive := false), false)
    else match OutcomeOf(c, s.cur, replies(s.cur))
      case TryAgain => (s, true)
      case Panicked => (s.(alive := false), false)
      case Handled =>
        var r := replies(s.cur);
        Scan(c, After(c, s, r), end, replies, attempts - 1)
  }

  function Tick(c: Config, s: State, t: TickInput): State {
    if !s.alive || t.latest.None? || WorkEnd(t.latest.value) < s.cur then s else
    var (s', ended) := Scan(c, s, WorkEnd(t.latest.value), t.replies, t.attempts);
    if ended && !t.fault then s'.(saved := Sub32(s'.cur, 1)) else s'
  }

  function Ticks(c: Config, s: State, ts: seq<TickInput>): State {
    if ts == [] then s else Tick(c, Ticks(c, s, ts[..|ts| - 1]), ts[|ts| - 1])
  }

  /** `init`: a height given on the command line, else the larger of the saved height and the epoch on Palette. */
  function StartCursor(flag: uint32, saved: uint32, epoch: uint32): uint32 {
    if flag > 0 then flag else if epoch > saved then epoch else saved
  }

  class PolyManager {
    const db: BoltDB
    const config: Config
    var currentHeight: uint32
    /** The deposits handed to senders, in order. */
    var queue: seq<Item>
    ghost var done: seq<Done>
    var alive: bool

    ghost function Abs(): State
      reads this, db
    {
      State(currentHeight, db.SavedPoly(), queue, done, alive)
    }

    constructor (db: BoltDB, config: Config, flag: uint32, epoch: uint32)
      requires db.Valid()
      ensures this.db == db && this.config == config
      ensures db.SavedPoly() < TWO32
      ensures Abs() == State(StartCursor(flag, db.SavedPoly(), epoch), db.SavedPoly(), [], [], true)
      ensures flag > 0 ==> currentHeight == flag
      ensures flag == 0 ==>
        && currentHeight >= epoch && currentHeight >= db.SavedPoly()
        && (currentHeight == epoch || currentHeight == db.SavedPoly())
    {
      this.db, this.config := db, config;
      queue, done, alive := [], [], true;
      var saved := db.GetPolyHeight();
      if flag > 0 {
        currentHeight := flag;
      } else if epoch > saved {
        currentHeight := epoch;
      } else {
        currentHeight := saved;
      }
    }

    /**
      `getProofWithNotify` and the checks behind it: the audit path of a deposit. None exactly if the contract, the
      number of states, the method or the side chain is another, the proof cannot be fetched, or the value at the front
      of its path (nothing, if the parser rejects it) is not accepted.
     */
    method SelectNotify(n: Notify, r: BlockReply) returns (path: Option<bytes>)
      ensures path.Some? <==> Selects(config, n, r.proofs(n.proofKey))
      ensures path.Some? <==>
        && n.contract == config.entrance && n.stateCount >= 6 && n.action == MAKE_PROOF
        && n.sideChain == config.sideChainId && r.proofs(n.proofKey).Some?
        && config.accepts(match AuditPath.Parse(MappingKey.HexDecodeString(r.proofs(n.proofKey).value).0)
                          case Some(p) => p.value
                          case None => [])
      ensures path.Some? ==> path.value == MappingKey.HexDecodeString(r.proofs(n.proofKey).value).0
    {
      if n.contract != config.entrance {
        return None;
      }
      if n.stateCount < 6 {
        return None;
      }
      if n.action != MAKE_PROOF {
        return None;
      }
      if n.sideChain != config.sideChainId {
        return None;
      }
      var proof := r.proofs(n.proofKey);
      if proof == None {
        return None;
      }
      var auditPath := MappingKey.HexDecodeString(proof.value).0;
      var parsed := AuditPath.ParseAuditPath(auditPath);
      var value := if parsed.Some? then parsed.value.value else [];
      if !config.accepts(value) {
        return None;
      }
      return Some(auditPath);
    }

    /** `commitDepositEventsWithHeader`: the anchor's signatures go along if there is one with a proof under it. */
    method CommitDeposit(height: uint32, txHash: bytes, n: Notify, auditPath: bytes,
                         header: Header, headerProof: bytes, anchorHeader: Option<Header>)
      modifies `queue
      ensures queue == old(queue) + [
        Item(height, txHash, n, auditPath, Some(header), MappingKey.HexDecodeString(headerProof).0, anchorHeader,
             if anchorHeader.Some? && headerProof != [] then anchorHeader else Some(header))]
    {
      var signer := Some(header);
      if anchorHeader.Some? && headerProof != [] {
        signer := anchorHeader;
      }
      var rawProof := MappingKey.HexDecodeString(headerProof).0;
      queue := queue + [Item(height, txHash, n, auditPath, Some(header), rawProof, anchorHeader, signer)];
    }

    /**
      `handleDepositEvents`: a failed attempt enqueues nothing; a successful one enqueues exactly the deposits of the
      block, in order. A change of keepers in a current block without deposits is committed, and the attempt fails if
      that does.
     */
    method HandleDepositEvents(height: uint32, r: BlockReply) returns (o: Outcome)
      modifies `queue
      ensures o == OutcomeOf(config, height, r)
      ensures queue == old(queue) + (if o.Handled? then Deposits(config, height, r) else [])
      ensures
        var valid := Add32(height, 1);
        var root := Add32(if r.lastEpoch >= valid then r.lastEpoch else valid, 1);
        o == if r.headers(valid).None? || r.epoch.EpochError? then TryAgain
             else if (r.lastEpoch >= valid || r.epoch.NewEpoch?) && r.merkle(valid, root).None? then Panicked
             else if r.events.None? then TryAgain
             else if queue != old(queue) || !r.epoch.NewEpoch? || r.lastEpoch >= valid || r.committed then Handled
             else TryAgain
    {
      hide AuditPath.Parse, Selects;
      var validStateHeight := Add32(height, 1);
      var hdr := r.headers(validStateHeight);
      if hdr == None {
        return TryAgain;
      }
      var isCurr := r.lastEpoch < validStateHeight;
      if r.epoch.EpochError? {
        return TryAgain;
      }
      var anchor: Option<Header> := None;
      var hp: bytes := [];
      if !isCurr {
        anchor := r.headers(Add32(r.lastEpoch, 1));
        var proof := r.merkle(validStateHeight, Add32(r.lastEpoch, 1));
        if proof == None {
          return Panicked;
        }
        hp := proof.value;
      } else if r.epoch.NewEpoch? {
        anchor := r.headers(Add32(validStateHeight, 1));
        var proof := r.merkle(validStateHeight, Add32(validStateHeight, 1));
        if proof == None {
          return Panicked;
        }
        hp := proof.value;
      }
      if r.events == None {
        return TryAgain;
      }
      var cnt := HandleEvents(height, r, hdr.value, hp, anchor);
      if cnt == 0 && r.epoch.NewEpoch? && isCurr {
        return if r.committed then Handled else TryAgain;
      }
      return Handled;
    }

    /** The loop over a block's events; the result is how many deposits were handed on. */
    method HandleEvents(height: uint32, r: BlockReply, hdr: Header, hp: bytes, anchor: Option<Header>)
      returns (cnt: nat)
      requires r.events.Some? && r.headers(ValidHeight(height)) == Some(hdr)
      requires !Panics(height, r) && anchor == Anchor(height, r) && hp == ProofText(height, r)
      modifies `queue
      ensures queue == old(queue) + Deposits(config, height, r) && cnt == |Deposits(config, height, r)|
    {
      hide AuditPath.Parse, Selects, RootHeight, Panics;
      var txs := r.events.value;
      cnt := 0;
      var i := 0;
      while i < |txs|
        invariant 0 <= i <= |txs|
        invariant queue == old(queue) + Selected(config, height, txs, r, i)
        invariant cnt == |Selected(config, height, txs, r, i)|
      {
        var tx := txs[i];
        ghost var before := Selected(config, height, txs, r, i);
        var j := 0;
        while j < |tx.notifies|
          invariant 0 <= j <= |tx.notifies|
          invariant queue == old(queue) + (before + SelectedOfTx(config, height, tx, r, j))
          invariant cnt == |before| + |SelectedOfTx(config, height, tx, r, j)|
        {
          var path := SelectNotify(tx.notifies[j], r);
          if path.Some? {
            cnt := cnt + 1;
            CommitDeposit(height, tx.txHash, tx.notifies[j], path.value, hdr, hp, anchor);
          }
          j := j + 1;
        }
        i := i + 1;
      }
    }

    /** `MonitorChain`, one tick. */
    method MonitorChain(t: TickInput)
      requires db.Valid()
      modifies `currentHeight, `queue, `done, `alive, db`polyHeight
      ensures db.Valid()
      ensures Abs() == Tick(config, old(Abs()), t)
      ensures t.fault || t.latest.None? || !alive ==> db.SavedPoly() == old(db.SavedPoly())
      ensures t.latest.None? || !old(alive) ==> Abs() == old(Abs())
    {
      hide OutcomeOf, Deposits;
      if !alive || t.latest == None {
        return;
      }
      var latestHeight := Sub32(t.latest.value, 1);
      var workHeightEnd := Sub32(latestHeight, 1);
      if workHeightEnd < currentHeight {
        return;
      }
      var attempts := t.attempts;
      var stopped := false;
      while currentHeight <= workHeightEnd && !stopped
        invariant db.Valid() && db.SavedPoly() == old(db.SavedPoly()) && alive
        invariant stopped ==> Scan(config, Abs(), workHeightEnd, t.replies, attempts) == (Abs(), true)
        invariant Scan(config, old(Abs()), workHeightEnd, t.replies, t.attempts)
          == Scan(config, Abs(), workHeightEnd, t.replies, attempts)
        decreases !stopped, attempts
      {
        if attempts == 0 {
          alive := false;
          return;
        }
        ghost var before := Abs();
        var o := HandleDepositEvents(currentHeight, t.replies(currentHeight));
        if o.Panicked? {
          alive := false;
          return;
        }
        if o.TryAgain? {
          stopped := true;
          assert Abs() == before;
        } else {
          done := done + [Done(currentHeight, t.replies(currentHeight))];
          currentHeight := Add32(currentHeight, 1);
          attempts := attempts - 1;
          assert Abs() == After(config, before, t.replies(before.cur));
          assert Scan(config, before, workHeightEnd, t.replies, attempts + 1)
              == Scan(config, Abs(), workHeightEnd, t.replies, attempts);
        }
      }
      var _ := db.UpdatePolyHeight(Sub32(currentHeight, 1), t.fault);
    }
  }
}
