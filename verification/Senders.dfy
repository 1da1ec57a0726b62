/**
  The life of a nonce across concurrent `sendTxToPalette` calls (manager/poly.go): any number of calls of any number
  of accounts share one allocator, and their steps interleave freely.
 */
module Senders {
  import opened Prelude
  import opened Nonce

  /** Where a call stands: before gas estimation, before signing, before sending, or about to give its nonce back. */
  datatype Phase = Estimating | Signing | Sending | Returning

  datatype Tx = Tx(account: Address, nonce: uint64)

  datatype Call = Call(tx: Tx, phase: Phase)

  /** `issued` is the allocator's specification state; `sent` and `stranded` are history. */
  datatype State = State(book: Book, issued: Ledger, live: map<nat, Call>, sent: seq<Tx>, stranded: seq<Tx>)

  datatype Step =
    | Begin(call: nat, account: Address, pending: Option<uint64>)
    | Estimate(call: nat, ok: bool)
    | Sign(call: nat, ok: bool)
    | Send(call: nat, ok: bool)
    | GiveBack(call: nat)

  predicate At(s: State, call: nat, phase: Phase) {
    call in s.live && s.live[call].phase == phase
  }

  predicate Enabled(s: State, step: Step) {
    match step
    case Begin(call, _, _) => call !in s.live
    case Estimate(call, _) => At(s, call, Estimating)
    case Sign(call, _) => At(s, call, Signing)
    case Send(call, _) => At(s, call, Sending)
    case GiveBack(call) => At(s, call, Returning)
  }

  function Move(s: State, call: nat, phase: Phase): State
    requires call in s.live
  {
    s.(live := s.live[call := s.live[call].(phase := phase)])
  }

  /** A failed estimate leaves before the returning defer is installed: its nonce is stranded. */
  ghost function Apply(s: State, step: Step): State
    requires Enabled(s, step)
  {
    match step
    case Begin(call, account, pending) =>
      var (n, book') := Use(s.book, account, pending);
      s.(book := book', issued := LedgerUse(s.issued, account, pending).1,
         live := s.live[call := Call(Tx(account, n), Estimating)])
    case Estimate(call, ok) =>
      if ok then Move(s, call, Signing)
      else s.(live := s.live - {call}, stranded := s.stranded + [s.live[call].tx])
    case Sign(call, ok) => Move(s, call, if ok then Sending else Returning)
    case Send(call, ok) =>
      if ok then s.(live := s.live - {call}, sent := s.sent + [s.live[call].tx])
      else Move(s, call, Returning)
    case GiveBack(call) =>
      var tx := s.live[call].tx;
      s.(book := Return(s.book, tx.account, tx.nonce), issued := LedgerReturn(s.issued, tx.account, tx.nonce),
         live := s.live - {call})
  }

  const START: State := State(Book(map[], map[]), map[], map[], [], [])

  ghost function Run(s: State, steps: seq<Step>): Option<State> {
    if steps == [] then Some(s) else
    match Run(s, steps[..|steps| - 1])
    case None => None
    case Some(m) => if Enabled(m, steps[|steps| - 1]) then Some(Apply(m, steps[|steps| - 1])) else None
  }

  /** No step of the run makes a nonce counter wrap around 2^64. */
  ghost predicate NoWrap(s: State, step: Step) {
    step.Begin? ==> HasRoom(s.book, step.account, step.pending)
  }

  ghost predicate NeverWraps(s: State, steps: seq<Step>)
    requires Run(s, steps).Some?
  {
    steps == [] ||
    (NeverWraps(s, steps[..|steps| - 1]) && NoWrap(Run(s, steps[..|steps| - 1]).value, steps[|steps| - 1]))
  }

  ghost predicate Issued(s: State, tx: Tx) {
    tx.account in s.issued && (tx.nonce as nat) in s.issued[tx.account].issued
  }

  ghost predicate InFlight(s: State, tx: Tx) {
    exists c :: c in s.live && s.live[c].tx == tx
  }

  ghost predicate Once(s: seq<Tx>) {
    forall i, j :: 0 <= i < j < |s| ==> s[i] != s[j]
  }

  /** Issued nonces are exactly those in flight, sent or stranded; the three are disjoint; nothing occurs twice. */
  ghost predicate Accounted(s: State) {
    && (forall tx :: Issued(s, tx) <==> InFlight(s, tx) || tx in s.sent || tx in s.stranded)
    && (forall c, d :: c in s.live && d in s.live && c != d ==> s.live[c].tx != s.live[d].tx)
    && (forall c :: c in s.live ==> s.live[c].tx !in s.sent && s.live[c].tx !in s.stranded)
    && (forall tx :: tx in s.sent ==> tx !in s.stranded)
    && Once(s.sent) && Once(s.stranded)
  }

  ghost predicate Inv(s: State) {
    Refines(s.book, s.issued) && Accounted(s)
  }

  lemma BeginKeeps(s: State, call: nat, account: Address, pending: Option<uint64>)
    requires Inv(s) && Enabled(s, Begin(call, account, pending)) && HasRoom(s.book, account, pending)
    ensures Inv(Apply(s, Begin(call, account, pending)))
  {
    hide Refines, LeastFrom, AccountRefines;
    UseIsLeast(s.book, s.issued, account, pending);
    UseRefines(s.book, s.issued, account, pending);
    var s' := Apply(s, Begin(call, account, pending));
    var given := s'.live[call].tx;
    assert !Issued(s, given);
    forall tx ensures Issued(s', tx) <==> Issued(s, tx) || tx == given {
    }
    forall tx ensures InFlight(s', tx) <==> InFlight(s, tx) || tx == given {
      if InFlight(s, tx) {
        var c :| c in s.live && s.live[c].tx == tx;
        assert c in s'.live && s'.live[c].tx == tx;
      }
    }
    forall c | c in s.live ensures s.live[c].tx != given {
      assert InFlight(s, s.live[c].tx);
    }
  }

  lemma MoveKeeps(s: State, call: nat, phase: Phase)
    requires Inv(s) && call in s.live
    ensures Inv(Move(s, call, phase))
  {
    hide Refines;
    var s' := Move(s, call, phase);
    forall tx ensures InFlight(s', tx) <==> InFlight(s, tx) {
      if InFlight(s, tx) {
        var c :| c in s.live && s.live[c].tx == tx;
        assert c in s'.live && s'.live[c].tx == tx;
      }
    }
    assert forall tx :: Issued(s', tx) <==> Issued(s, tx);
  }

  /** A call that leaves: its transaction, and only that, is no longer in flight. */
  lemma Leaves(s: State, s': State, call: nat)
    requires Accounted(s) && call in s.live && s'.live == s.live - {call}
    ensures forall tx :: InFlight(s', tx) <==> InFlight(s, tx) && tx != s.live[call].tx
  {
    forall tx ensures InFlight(s', tx) <==> InFlight(s, tx) && tx != s.live[call].tx {
      if InFlight(s, tx) && tx != s.live[call].tx {
        var c :| c in s.live && s.live[c].tx == tx;
        assert c in s'.live && s'.live[c].tx == tx;
      }
    }
  }

  /** A transaction that leaves for good is accounted for in one of the two histories. */
  lemma FinishKeeps(s: State, step: Step)
    requires Inv(s) && Enabled(s, step)
    requires (step.Estimate? || step.Send?) && step.ok == step.Send?
    ensures Inv(Apply(s, step))
  {
    hide Refines, Issued, InFlight, Once;
    var s', tx := Apply(s, step), s.live[step.call].tx;
    Leaves(s, s', step.call);
    SameIssued(s, s');
    assert InFlight(s, tx) by { LiveInFlight(s, step.call); }
    OnceMore(s.sent, tx);
    OnceMore(s.stranded, tx);
  }

  lemma SameIssued(s: State, s': State)
    requires s'.issued == s.issued
    ensures forall tx :: Issued(s', tx) <==> Issued(s, tx)
  {
  }

  lemma LiveInFlight(s: State, call: nat)
    requires call in s.live
    ensures InFlight(s, s.live[call].tx)
  {
  }

  lemma OnceMore(s: seq<Tx>, tx: Tx)
    ensures Once(s) && tx !in s ==> Once(s + [tx])
  {
  }

  lemma GiveBackKeeps(s: State, call: nat)
    requires Inv(s) && Enabled(s, GiveBack(call))
    ensures Inv(Apply(s, GiveBack(call)))
  {
    hide Refines, Return;
    var tx := s.live[call].tx;
    var s' := Apply(s, GiveBack(call));
    assert InFlight(s, tx);
    ReturnRefines(s.book, s.issued, tx.account, tx.nonce);
    Leaves(s, s', call);
    forall u ensures Issued(s', u) <==> Issued(s, u) && u != tx {
    }
  }

  /** Every step of every call keeps the accounting. */
  lemma StepKeeps(s: State, step: Step)
    requires Inv(s) && Enabled(s, step) && NoWrap(s, step)
    ensures Inv(Apply(s, step))
  {
    hide Inv;
    match step
    case Begin(call, account, pending) => BeginKeeps(s, call, account, pending);
    case Estimate(call, ok) => if ok { MoveKeeps(s, call, Signing); } else { FinishKeeps(s, step); }
    case Sign(call, ok) => MoveKeeps(s, call, if ok then Sending else Returning);
    case Send(call, ok) => if ok { FinishKeeps(s, step); } else { MoveKeeps(s, call, Returning); }
    case GiveBack(call) => GiveBackKeeps(s, call);
  }

  lemma {:induction false} RunKeeps(steps: seq<Step>)
    requires Run(START, steps).Some? && NeverWraps(START, steps)
    ensures Inv(Run(START, steps).value)
  {
    hide Inv, Enabled, Apply, NoWrap;
    if steps == [] {
      assert Inv(START) by { StartHolds(); }
    } else {
      RunKeeps(steps[..|steps| - 1]);
      StepKeeps(Run(START, steps[..|steps| - 1]).value, steps[|steps| - 1]);
    }
  }

  lemma StartHolds()
    ensures Inv(START)
  {
  }

  /**
    In every interleaving: no two live or sent transactions share a nonce of one account, and for each account the
    nonces from the base up to the counter are the disjoint union of free, in flight, sent and stranded ones.
   */
  lemma NonceAccounting(steps: seq<Step>, a: Address, n: uint64)
    requires Run(START, steps).Some? && NeverWraps(START, steps)
    ensures
      var s := Run(START, steps).value;
      && (forall c, d :: c in s.live && d in s.live && c != d ==> s.live[c].tx != s.live[d].tx)
      && (forall c :: c in s.live ==> s.live[c].tx !in s.sent)
      && Once(s.sent)
      && (a in s.issued && a in s.book.online && s.issued[a].base <= n < s.book.online[a] <==>
          n in Free(s.book, a) || InFlight(s, Tx(a, n)) || Tx(a, n) in s.sent || Tx(a, n) in s.stranded)
      && !(n in Free(s.book, a) && (InFlight(s, Tx(a, n)) || Tx(a, n) in s.sent || Tx(a, n) in s.stranded))
      && !(InFlight(s, Tx(a, n)) && (Tx(a, n) in s.sent || Tx(a, n) in s.stranded))
      && !(Tx(a, n) in s.sent && Tx(a, n) in s.stranded)
  {
    RunKeeps(steps);
    var s := Run(START, steps).value;
    if a in s.issued {
      assert AccountRefines(s.book.online[a], Free(s.book, a), s.issued[a]);
    }
    assert Issued(s, Tx(a, n)) <==> a in s.issued && (n as nat) in s.issued[a].issued;
  }

  /**
    A stranded nonce stays stranded: whatever happens afterwards, no call is ever given it again, and it is never
    sent.
   */
  lemma {:induction false} StrandedForGood(s: State, steps: seq<Step>, tx: Tx)
    requires Inv(s) && Run(s, steps).Some? && NeverWraps(s, steps) && tx in s.stranded
    ensures Inv(Run(s, steps).value) && tx in Run(s, steps).value.stranded
    ensures !InFlight(Run(s, steps).value, tx) && tx !in Run(s, steps).value.sent
    ensures forall step :: Enabled(Run(s, steps).value, step) && step.Begin? ==>
      Apply(Run(s, steps).value, step).live[step.call].tx != tx
  {
    hide Refines;
    if steps != [] {
      var before := Run(s, steps[..|steps| - 1]).value;
      StrandedForGood(s, steps[..|steps| - 1], tx);
      StepKeeps(before, steps[|steps| - 1]);
      StrandedStays(before, steps[|steps| - 1], tx);
    }
    var last := Run(s, steps).value;
    forall step | Enabled(last, step) && step.Begin? ensures Apply(last, step).live[step.call].tx != tx {
      StrandedStays(last, step, tx);
    }
  }

  /** One failed estimate, from a fresh start, strands the first nonce. */
  lemma FirstStranded(account: Address, pending: uint64) returns (steps: seq<Step>)
    requires pending < LAST
    ensures Run(START, steps).Some? && NeverWraps(START, steps)
    ensures Run(START, steps).value.stranded == [Tx(account, pending)]
  {
    var begin, fail := Begin(0, account, Some(pending)), Estimate(0, false);
    steps := [begin, fail];
    assert steps[..1] == [begin] && [begin][..0] == [];
    assert Run(START, []) == Some(START);
    var m := Apply(START, begin);
    assert Run(START, [begin]) == Some(m);
    assert Run(START, steps) == Some(Apply(m, fail));
  }

  lemma StrandedStays(s: State, step: Step, tx: Tx)
    requires Inv(s) && Enabled(s, step) && tx in s.stranded
    ensures tx in Apply(s, step).stranded
    ensures step.Begin? ==> Apply(s, step).live[step.call].tx != tx
  {
    if step.Begin? {
      UseIsLeast(s.book, s.issued, step.account, step.pending);
      assert Issued(s, tx);
    }
  }

  /** What the chain and the keystore answer during one call. */
  datatype Answers = Answers(pending: Option<uint64>, estimated: bool, signed: bool, sent: bool)

  /** The steps of one undisturbed call. */
  function CallSteps(call: nat, account: Address, r: Answers): seq<Step> {
    if !r.estimated then [Begin(call, account, r.pending), Estimate(call, false)]
    else if !r.signed then
      [Begin(call, account, r.pending), Estimate(call, true), Sign(call, false), GiveBack(call)]
    else if !r.sent then
      [Begin(call, account, r.pending), Estimate(call, true), Sign(call, true), Send(call, false), GiveBack(call)]
    else [Begin(call, account, r.pending), Estimate(call, true), Sign(call, true), Send(call, true)]
  }

  /** A run extended by one enabled step. */
  lemma RunNext(s: State, steps: seq<Step>, step: Step) returns (longer: seq<Step>)
    requires Run(s, steps).Some? && Enabled(Run(s, steps).value, step)
    ensures longer == steps + [step] && Run(s, longer) == Some(Apply(Run(s, steps).value, step))
  {
    longer := steps + [step];
    assert longer[..|steps|] == steps;
  }

  /** Where one undisturbed call leads. */
  lemma CallRuns(s: State, call: nat, account: Address, r: Answers) returns (after: State)
    requires call !in s.live
    ensures Run(s, CallSteps(call, account, r)) == Some(after)
    ensures
      var (n, book) := Use(s.book, account, r.pending);
      && after.live == s.live
      && after.book == (if r.estimated && !(r.signed && r.sent) then Return(book, account, n) else book)
      && after.sent == s.sent + (if r.estimated && r.signed && r.sent then [Tx(account, n)] else [])
      && after.stranded == s.stranded + (if r.estimated then [] else [Tx(account, n)])
  {
    hide Use, Return, LedgerUse, LedgerReturn, Run;
    var steps := CallStart(s);
    steps := RunNext(s, steps, Begin(call, account, r.pending));
    steps := RunNext(s, steps, Estimate(call, r.estimated));
    if r.estimated {
      steps := RunNext(s, steps, Sign(call, r.signed));
      if r.signed {
        steps := RunNext(s, steps, Send(call, r.sent));
      }
      if !(r.signed && r.sent) {
        steps := RunNext(s, steps, GiveBack(call));
      }
    }
    assert steps == CallSteps(call, account, r);
    after := Run(s, steps).value;
    assert after.live == s.live;
  }

  lemma CallStart(s: State) returns (steps: seq<Step>)
    ensures steps == [] && Run(s, steps) == Some(s)
  {
    steps := [];
  }

  /**
    `sendTxToPalette`: the real call is one run of the step system, so that the allocator ends in the state which
    that run gives, for whatever else is in flight. A failed estimate strands the nonce; a later failure gives it
    back.
   */
  method SendTxToPalette(manager: NonceManager, account: Address, r: Answers, ghost s: State, ghost call: nat)
    returns (failed: bool)
    requires s.book == manager.State() && call !in s.live
    modifies manager
    ensures failed <==> !(r.estimated && r.signed && r.sent)
    ensures Run(s, CallSteps(call, account, r)).Some?
    ensures
      var after := Run(s, CallSteps(call, account, r)).value;
      var tx := Tx(account, Use(s.book, account, r.pending).0);
      && manager.State() == after.book && after.live == s.live
      && after.sent == s.sent + (if failed then [] else [tx])
      && after.stranded == s.stranded + (if r.estimated then [] else [tx])
  {
    hide Use, Return, Run, CallSteps;
    ghost var after := CallRuns(s, call, account, r);
    var curNonce := manager.UseNonce(account, r.pending);
    if !r.estimated {
      return true;
    }
    if !r.signed {
      manager.ReturnNonce(account, curNonce);
      return true;
    }
    if !r.sent {
      manager.ReturnNonce(account, curNonce);
      return true;
    }
    return false;
  }
}
