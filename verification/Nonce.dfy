/**
  The nonce allocator shared by the senders (utils/nonce/nonce.go): per address a counter and a sorted free list.
  It refines a far simpler specification: a base nonce and the set of nonces currently issued.
 */
module Nonce {
  import opened Prelude
  import opened Order

  const LAST: nat := TWO64 - 1

  /** The two maps of the allocator. */
  datatype Book = Book(online: map<Address, uint64>, backup: map<Address, seq<uint64>>)

  function Free(b: Book, a: Address): seq<uint64> {
    if a in b.backup then b.backup[a] else []
  }

  /** The counter, or the pending nonce reported by the chain, or 0 where the chain cannot be asked. */
  function Next(b: Book, a: Address, pending: Option<uint64>): uint64 {
    if a in b.online then b.online[a] else match pending case Some(n) => n case None => 0
  }

  /** `UseNonce`: head of the free list if there is one, else the counter, which then moves on (on uint64). */
  function Use(b: Book, a: Address, pending: Option<uint64>): (uint64, Book) {
    if Free(b, a) != [] then (Free(b, a)[0], b.(backup := b.backup[a := Free(b, a)[1..]]))
    else (Next(b, a, pending), b.(online := b.online[a := (Next(b, a, pending) + 1) % TWO64]))
  }

  predicate Below(a: uint64, b: uint64) {
    a < b
  }

  function Insert(s: seq<uint64>, n: uint64): seq<uint64> {
    if s == [] then [n]
    else if n < s[0] then [n] + s
    else [s[0]] + Insert(s[1..], n)
  }

  function SortList(s: seq<uint64>): seq<uint64> {
    if s == [] then [] else Insert(SortList(s[..|s| - 1]), s[|s| - 1])
  }

  lemma {:induction false} InsertKeeps(s: seq<uint64>, n: uint64)
    ensures multiset(Insert(s, n)) == multiset(s) + multiset{n}
  {
    if s != [] && n >= s[0] {
      InsertKeeps(s[1..], n);
      assert s == [s[0]] + s[1..];
    }
  }

  ghost predicate NonDecreasing(s: seq<uint64>) {
    forall i, j :: 0 <= i < j < |s| ==> s[i] <= s[j]
  }

  lemma {:induction false} ConsOrdered(x: uint64, t: seq<uint64>)
    requires NonDecreasing(t) && forall i :: 0 <= i < |t| ==> x <= t[i]
    ensures NonDecreasing([x] + t)
  {
    var r := [x] + t;
    forall i, j | 0 <= i < j < |r| ensures r[i] <= r[j] {
      assert r[j] == t[j - 1];
    }
  }

  lemma {:induction false} InsertOrdered(s: seq<uint64>, n: uint64)
    requires NonDecreasing(s)
    ensures NonDecreasing(Insert(s, n))
  {
    if s != [] {
      if n < s[0] {
        ConsOrdered(n, s);
      } else {
        var t := Insert(s[1..], n);
        InsertOrdered(s[1..], n);
        InsertKeeps(s[1..], n);
        forall i | 0 <= i < |t| ensures s[0] <= t[i] {
          assert t[i] in multiset(t);
          assert t[i] == n || t[i] in s[1..];
        }
        ConsOrdered(s[0], t);
      }
    }
  }

  lemma {:induction false} SortListSorts(s: seq<uint64>)
    ensures NonDecreasing(SortList(s)) && multiset(SortList(s)) == multiset(s)
  {
    if s != [] {
      var init, last := s[..|s| - 1], s[|s| - 1];
      SortListSorts(init);
      InsertKeeps(SortList(init), last);
      InsertOrdered(SortList(init), last);
      assert s == init + [last];
    }
  }

  /** The library sort and `SortList` agree: a sorted permutation is unique. */
  lemma SortedIsSortList(r: seq<uint64>, s: seq<uint64>)
    requires Sorted(Below, r) && multiset(r) == multiset(s)
    ensures r == SortList(s)
  {
    SortListSorts(s);
    var t := SortList(s);
    forall i, j | 0 <= i < j < |t| ensures !Below(t[j], t[i]) {
      assert t[i] <= t[j];
    }
    SortedUnique(Below, r, t);
  }

  /** `ReturnNonce`: append and sort. */
  function Return(b: Book, a: Address, nonce: uint64): Book {
    b.(backup := b.backup[a := SortList(Free(b, a) + [nonce])])
  }

  class NonceManager {
    var online: map<Address, uint64>
    var backup: map<Address, seq<uint64>>

    function State(): Book
      reads this
    {
      Book(online, backup)
    }

    constructor ()
      ensures State() == Book(map[], map[])
    {
      online, backup := map[], map[];
    }

    method UseNonce(address: Address, pending: Option<uint64>) returns (nonce: uint64)
      modifies this
      ensures (nonce, State()) == Use(old(State()), address, pending)
      ensures address in old(backup) && old(backup)[address] != [] ==>
        && backup == old(backup)[address := backup[address]] && old(backup)[address] == [nonce] + backup[address]
        && online == old(online)
      ensures !(address in old(backup) && old(backup)[address] != []) ==>
        && backup == old(backup) && online == old(online)[address := (nonce + 1) % TWO64]
        && (address in old(online) ==> nonce == old(online)[address])
        && (address !in old(online) && pending.Some? ==> nonce == pending.value)
        && (address !in old(online) && pending.None? ==> nonce == 0)
    {
      if address in backup && |backup[address]| > 0 {
        nonce := backup[address][0];
        backup := backup[address := backup[address][1..]];
        return;
      }
      if address in online {
        nonce := online[address];
      } else {
        var uintNonce := if pending.Some? then pending.value else 0;
        online := online[address := uintNonce];
        nonce := uintNonce;
      }
      online := online[address := (online[address] + 1) % TWO64];
      assert online == old(online)[address := (nonce + 1) % TWO64];
    }

    method ReturnNonce(address: Address, nonce: uint64)
      modifies this
      ensures State() == Return(old(State()), address, nonce)
      ensures online == old(online) && backup == old(backup)[address := backup[address]]
      ensures NonDecreasing(backup[address])
      ensures multiset(backup[address]) ==
        (if address in old(backup) then multiset(old(backup)[address]) else multiset{}) + multiset{nonce}
    {
      hide SortList;
      var list := if address in backup then backup[address] else [];
      var sorted := SortCopy(list + [nonce]);
      SortListSorts(list + [nonce]);
      backup := backup[address := sorted];
    }
  }

  /** `sort.Slice` on a list of nonces. */
  method SortCopy(list: seq<uint64>) returns (sorted: seq<uint64>)
    ensures sorted == SortList(list)
  {
    hide SortList;
    var slice := new uint64[|list|](i requires 0 <= i < |list| => list[i]);
    assert slice[..] == list;
    SortSlice(slice, Below);
    SortedIsSortList(slice[..], list);
    return slice[..];
  }

  /** The specification: an account's first nonce and the nonces handed out and not given back. */
  datatype Account = Account(base: nat, issued: set<nat>)

  type Ledger = map<Address, Account>

  /** The least number from `n` on that is not in `issued`. */
  ghost function LeastFrom(n: nat, issued: set<nat>): (r: nat)
    ensures n <= r && r !in issued
    ensures forall k :: n <= k < r ==> k in issued
    decreases |issued|
  {
    if n !in issued then n else
    var r := LeastFrom(n + 1, issued - {n});
    assert forall k :: n <= k < r ==> k in issued by {
      forall k | n <= k < r ensures k in issued {
        if k != n {
          assert k in issued - {n};
        }
      }
    }
    r
  }

  ghost function Opened(l: Ledger, a: Address, pending: Option<uint64>): Account {
    if a in l then l[a] else Account(match pending case Some(n) => n case None => 0, {})
  }

  ghost function LedgerUse(l: Ledger, a: Address, pending: Option<uint64>): (nat, Ledger) {
    var acc := Opened(l, a, pending);
    var n := LeastFrom(acc.base, acc.issued);
    (n, l[a := acc.(issued := acc.issued + {n})])
  }

  ghost function LedgerReturn(l: Ledger, a: Address, n: nat): Ledger {
    if a in l then l[a := l[a].(issued := l[a].issued - {n})] else l
  }

  ghost predicate StrictlySorted(s: seq<uint64>) {
    forall i, j :: 0 <= i < j < |s| ==> s[i] < s[j]
  }

  /** Free list strictly sorted; free and issued nonces partition `[base, online)`. */
  ghost predicate AccountRefines(online: nat, free: seq<uint64>, acc: Account) {
    && acc.base <= online
    && StrictlySorted(free)
    && (forall n: nat :: acc.base <= n < online <==> n in free || n in acc.issued)
    && (forall n :: n in free ==> n !in acc.issued)
  }

  ghost predicate Refines(b: Book, l: Ledger) {
    && b.online.Keys == l.Keys
    && (forall a :: a in l ==> AccountRefines(b.online[a], Free(b, a), l[a]))
    && (forall a :: a in b.backup && a !in l ==> b.backup[a] == [])
  }

  /** Whether the next use leaves the counter within uint64. */
  predicate HasRoom(b: Book, a: Address, pending: Option<uint64>) {
    Free(b, a) != [] || Next(b, a, pending) < LAST
  }

  lemma {:induction false} LeastIs(n: nat, issued: set<nat>, r: nat)
    requires n <= r && r !in issued && forall k :: n <= k < r ==> k in issued
    ensures LeastFrom(n, issued) == r
  {
    var q := LeastFrom(n, issued);
    assert q < r ==> q in issued;
    assert r < q ==> r in issued;
  }

  /** Taking the head of the free list. */
  lemma HeadTaken(online: nat, free: seq<uint64>, acc: Account)
    requires AccountRefines(online, free, acc) && free != []
    ensures LeastFrom(acc.base, acc.issued) == free[0]
    ensures AccountRefines(online, free[1..], acc.(issued := acc.issued + {free[0] as nat}))
  {
    assert free[0] in free;
    assert free == [free[0]] + free[1..];
    forall k | acc.base <= k < free[0] ensures k in acc.issued {
      assert k !in free;
    }
    LeastIs(acc.base, acc.issued, free[0]);
    forall n | n in free[1..] ensures n != free[0] && n in free {
    }
  }

  /** Moving the counter on with nothing free. */
  lemma CounterTaken(online: nat, acc: Account)
    requires AccountRefines(online, [], acc)
    ensures LeastFrom(acc.base, acc.issued) == online
    ensures AccountRefines(online + 1, [], acc.(issued := acc.issued + {online}))
    ensures online > 0 ==> !AccountRefines(0, [], acc.(issued := acc.issued + {online}))
  {
    LeastIs(acc.base, acc.issued, online);
  }

  lemma FreshAccount(n: nat)
    ensures AccountRefines(n, [], Account(n, {}))
  {
  }

  /** What the allocator hands out is always the least nonce, from the base on, that is not issued. */
  lemma UseIsLeast(b: Book, l: Ledger, a: Address, pending: Option<uint64>)
    requires Refines(b, l)
    ensures Use(b, a, pending).0 == LedgerUse(l, a, pending).0
  {
    hide AccountRefines, LeastFrom;
    if a !in l {
      FreshAccount(Next(b, a, pending));
      CounterTaken(Next(b, a, pending), Opened(l, a, pending));
    } else if Free(b, a) != [] {
      HeadTaken(b.online[a], Free(b, a), l[a]);
    } else {
      CounterTaken(b.online[a], l[a]);
    }
  }

  /** The account that a use touches. */
  lemma UseTouched(b: Book, l: Ledger, a: Address, pending: Option<uint64>)
    requires Refines(b, l)
    ensures
      var (b', l') := (Use(b, a, pending).1, LedgerUse(l, a, pending).1);
      a in b'.online && a in l' && (AccountRefines(b'.online[a], Free(b', a), l'[a]) <==> HasRoom(b, a, pending))
  {
    hide AccountRefines, LeastFrom;
    UseIsLeast(b, l, a, pending);
    if a !in l {
      FreshAccount(Next(b, a, pending));
      CounterTaken(Next(b, a, pending), Opened(l, a, pending));
    } else if Free(b, a) != [] {
      HeadTaken(b.online[a], Free(b, a), l[a]);
    } else {
      CounterTaken(b.online[a], l[a]);
    }
  }

  /** A use keeps the refinement exactly when the counter does not wrap, and touches no other address. */
  lemma UseRefines(b: Book, l: Ledger, a: Address, pending: Option<uint64>)
    requires Refines(b, l)
    ensures Refines(Use(b, a, pending).1, LedgerUse(l, a, pending).1) <==> HasRoom(b, a, pending)
    ensures forall o :: o != a ==> Free(Use(b, a, pending).1, o) == Free(b, o)
    ensures Use(b, a, pending).1.online - {a} == b.online - {a}
  {
    hide AccountRefines, LeastFrom;
    UseTouched(b, l, a, pending);
    var (b', l') := (Use(b, a, pending).1, LedgerUse(l, a, pending).1);
    forall o | o in l && o != a ensures AccountRefines(b'.online[o], Free(b', o), l'[o]) {
      assert AccountRefines(b.online[o], Free(b, o), l[o]);
    }
    assert b'.online.Keys == b.online.Keys + {a} == l'.Keys;
  }

  /** Adding to a strictly sorted list and sorting: duplicate-free exactly when the number is new. */
  lemma SortedHead(s: seq<uint64>, n: uint64)
    requires StrictlySorted(s)
    ensures StrictlySorted(SortList(s + [n])) <==> n !in s
    ensures forall x :: x in SortList(s + [n]) <==> x in s || x == n
  {
    var r := SortList(s + [n]);
    SortListSorts(s + [n]);
    OnceCounted(s);
    assert forall x :: x in r <==> x in multiset(r);
    if StrictlySorted(r) {
      OnceCounted(r);
      assert multiset(r)[n] == multiset(s)[n] + 1;
    } else {
      var i, j :| 0 <= i < j < |r| && r[i] >= r[j];
      assert r[i] == r[j];
      TwiceCounted(r, i, j);
      assert multiset(r) == multiset(s + [n]) == multiset(s) + multiset{n};
    }
  }

  lemma {:induction false} OnceCounted(s: seq<uint64>)
    requires StrictlySorted(s)
    ensures forall x :: multiset(s)[x] <= 1
  {
    if s != [] {
      assert s == [s[0]] + s[1..];
      OnceCounted(s[1..]);
      assert s[0] !in s[1..];
    }
  }

  lemma TwiceCounted(s: seq<uint64>, i: nat, j: nat)
    requires i < j < |s| && s[i] == s[j]
    ensures multiset(s)[s[i]] >= 2
  {
    assert s == s[..i] + [s[i]] + s[i + 1..j] + [s[j]] + s[j + 1..];
  }

  /** The account that a return touches. */
  lemma ReturnTouched(online: nat, free: seq<uint64>, acc: Account, n: uint64)
    requires AccountRefines(online, free, acc)
    ensures AccountRefines(online, SortList(free + [n]), acc.(issued := acc.issued - {n as nat})) <==> n in acc.issued
  {
    hide SortList;
    SortedHead(free, n);
    var r := SortList(free + [n]);
    assert n in r;
  }

  /** Giving a nonce back keeps the refinement exactly when the nonce is currently issued to that address. */
  lemma ReturnRefines(b: Book, l: Ledger, a: Address, n: uint64)
    requires Refines(b, l)
    ensures Refines(Return(b, a, n), LedgerReturn(l, a, n)) <==> a in l && n in l[a].issued
    ensures forall o :: o != a ==> Free(Return(b, a, n), o) == Free(b, o)
    ensures Return(b, a, n).online == b.online
  {
    hide AccountRefines, SortList;
    var (b', l') := (Return(b, a, n), LedgerReturn(l, a, n));
    if a in l {
      ReturnTouched(b.online[a], Free(b, a), l[a], n);
      forall o | o in l && o != a ensures AccountRefines(b'.online[o], Free(b', o), l'[o]) {
        assert AccountRefines(b.online[o], Free(b, o), l[o]);
      }
      assert l'[a] == l[a].(issued := l[a].issued - {n as nat});
    } else {
      SortListSorts(Free(b, a) + [n]);
      assert |SortList(Free(b, a) + [n])| == |multiset(SortList(Free(b, a) + [n]))| == |multiset(Free(b, a) + [n])|;
      assert b'.backup[a] != [];
    }
  }

  datatype Op = UseOp(a: Address, pending: Option<uint64>) | ReturnOp(a: Address, nonce: uint64)

  /** The nonces handed out by a sequence of calls, and the final state. */
  function RunBook(b: Book, ops: seq<Op>): (seq<uint64>, Book)
    decreases ops
  {
    if ops == [] then ([], b) else
    match ops[0]
    case UseOp(a, pending) =>
      var (n, b') := Use(b, a, pending);
      var (ns, b'') := RunBook(b', ops[1..]);
      ([n] + ns, b'')
    case ReturnOp(a, n) => RunBook(Return(b, a, n), ops[1..])
  }

  ghost function RunLedger(l: Ledger, ops: seq<Op>): (seq<nat>, Ledger)
    decreases ops
  {
    if ops == [] then ([], l) else
    match ops[0]
    case UseOp(a, pending) =>
      var (n, l') := LedgerUse(l, a, pending);
      var (ns, l'') := RunLedger(l', ops[1..]);
      ([n] + ns, l'')
    case ReturnOp(a, n) => RunLedger(LedgerReturn(l, a, n), ops[1..])
  }

  /** Every return is of a nonce issued at that point, and no nonce as large as 2^64 - 1 is handed out. */
  ghost predicate Lawful(l: Ledger, ops: seq<Op>)
    decreases ops
  {
    ops == [] ||
    match ops[0]
    case UseOp(a, pending) =>
      LedgerUse(l, a, pending).0 < LAST && Lawful(LedgerUse(l, a, pending).1, ops[1..])
    case ReturnOp(a, n) => a in l && n in l[a].issued && Lawful(LedgerReturn(l, a, n), ops[1..])
  }

  /** Over every lawful run, for any number of addresses, the allocator answers like the specification. */
  lemma {:induction false} RunRefines(b: Book, l: Ledger, ops: seq<Op>)
    requires Refines(b, l) && Lawful(l, ops)
    ensures RunBook(b, ops).0 == RunLedger(l, ops).0
    ensures Refines(RunBook(b, ops).1, RunLedger(l, ops).1)
    decreases ops
  {
    hide Refines, LedgerUse, Return, LedgerReturn;
    if ops != [] {
      match ops[0] {
        case UseOp(a, pending) =>
          UseIsLeast(b, l, a, pending);
          UseRefines(b, l, a, pending);
          RunRefines(Use(b, a, pending).1, LedgerUse(l, a, pending).1, ops[1..]);
        case ReturnOp(a, n) =>
          ReturnRefines(b, l, a, n);
          RunRefines(Return(b, a, n), LedgerReturn(l, a, n), ops[1..]);
      }
    }
  }

  /** A nonce given back twice is handed out twice. */
  lemma DoubleReturnSharesNonce(b: Book, a: Address, n: uint64)
    requires Free(b, a) == []
    ensures
      var b1 := Return(Return(b, a, n), a, n);
      Use(b1, a, None).0 == n && Use(Use(b1, a, None).1, a, None).0 == n
  {
    assert SortList([n]) == [n] by {
      assert [n][..0] == [];
    }
    assert SortList([n, n]) == [n, n] by {
      assert [n, n][..1] == [n];
      assert [n][1..] == [];
      assert Insert([n], n) == [n] + Insert([], n);
    }
    assert [] + [n] == [n] && [n] + [n] == [n, n];
    var b1 := Return(b, a, n);
    assert Free(b1, a) == [n];
    var b2 := Return(b1, a, n);
    assert Free(b2, a) == [n, n];
  }
}
