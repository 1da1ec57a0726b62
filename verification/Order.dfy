/**
  Orders and sorting. `sort.Slice` is modelled by an in-place insertion sort on an array; all that its callers
  use is that the result is a sorted permutation, and such a permutation is unique under a strict total order.
 */
module Order {
  import opened Prelude

  ghost predicate StrictTotal<T(!new)>(lt: (T, T) -> bool) {
    && (forall x :: !lt(x, x))
    && (forall x, y, z :: lt(x, y) && lt(y, z) ==> lt(x, z))
    && (forall x, y :: x == y || lt(x, y) || lt(y, x))
  }

  ghost predicate Sorted<T>(lt: (T, T) -> bool, s: seq<T>) {
    forall i, j :: 0 <= i < j < |s| ==> !lt(s[j], s[i])
  }

  /** Lexicographic order of `bytes.Compare`, of bolt's keys and of Go's string comparison. */
  predicate Less(a: bytes, b: bytes) {
    if b == [] then false
    else if a == [] then true
    else if a[0] != b[0] then a[0] < b[0]
    else Less(a[1..], b[1..])
  }

  lemma {:induction false} LessIrreflexive(a: bytes)
    ensures !Less(a, a)
  {
    if a != [] {
      LessIrreflexive(a[1..]);
    }
  }

  lemma {:induction false} LessTransitive(a: bytes, b: bytes, c: bytes)
    requires Less(a, b) && Less(b, c)
    ensures Less(a, c)
  {
    if a != [] && a[0] == b[0] == c[0] {
      LessTransitive(a[1..], b[1..], c[1..]);
    }
  }

  lemma {:induction false} LessConnected(a: bytes, b: bytes)
    ensures a == b || Less(a, b) || Less(b, a)
  {
    if a != [] && b != [] && a[0] == b[0] {
      LessConnected(a[1..], b[1..]);
      assert a == [a[0]] + a[1..];
      assert b == [b[0]] + b[1..];
    }
  }

  /** Equal up to `i`, where `a` ends or has the smaller byte. */
  ghost predicate SmallerAt(a: bytes, b: bytes, i: nat) {
    i <= |a| && i < |b| && a[..i] == b[..i] && (i == |a| || a[i] < b[i])
  }

  lemma SameFirst(a: bytes, b: bytes, i: nat)
    requires 0 < i <= |a| && i <= |b| && a[..i] == b[..i]
    ensures a[0] == b[0]
  {
    assert a[..i][0] == b[..i][0];
  }

  /** `a` comes first exactly if it is a proper prefix of `b`, or smaller at the first place where they differ. */
  lemma {:induction false} LessExact(a: bytes, b: bytes)
    ensures Less(a, b) <==> exists i: nat :: SmallerAt(a, b, i)
  {
    if a == [] && b != [] {
      assert SmallerAt(a, b, 0);
    } else if a != [] && b != [] {
      if a[0] != b[0] {
        assert a[0] < b[0] ==> SmallerAt(a, b, 0);
        forall i: nat | SmallerAt(a, b, i) ensures a[0] < b[0] {
          if i > 0 {
            SameFirst(a, b, i);
          }
        }
      } else {
        LessExact(a[1..], b[1..]);
        if i: nat :| SmallerAt(a[1..], b[1..], i) {
          assert a[..i + 1] == [a[0]] + a[1..][..i] && b[..i + 1] == [b[0]] + b[1..][..i];
          assert SmallerAt(a, b, i + 1);
        }
        if i: nat :| SmallerAt(a, b, i) {
          assert a[1..][..i - 1] == a[..i][1..] && b[1..][..i - 1] == b[..i][1..];
          assert SmallerAt(a[1..], b[1..], i - 1);
        }
      }
    }
  }

  /** A sorted sequence is determined by its multiset of elements. */
  lemma {:induction false} SortedUnique<T(!new)>(lt: (T, T) -> bool, a: seq<T>, b: seq<T>)
    requires StrictTotal(lt)
    requires Sorted(lt, a) && Sorted(lt, b)
    requires multiset(a) == multiset(b)
    ensures a == b
  {
    assert |a| == |multiset(a)| == |multiset(b)| == |b|;
    if a != [] {
      SameHead(lt, a, b);
      hide StrictTotal, Sorted;
      SortedTail(lt, a);
      SortedTail(lt, b);
      assert a == [a[0]] + a[1..] && b == [b[0]] + b[1..];
      TailElements(a);
      TailElements(b);
      SortedUnique(lt, a[1..], b[1..]);
    }
  }

  lemma TailElements<T>(s: seq<T>)
    requires s != []
    ensures multiset(s[1..]) == multiset(s) - multiset{s[0]}
  {
    assert s == [s[0]] + s[1..];
  }

  lemma SortedTail<T>(lt: (T, T) -> bool, s: seq<T>)
    requires Sorted(lt, s) && s != []
    ensures Sorted(lt, s[1..])
  {
  }

  lemma SameHead<T(!new)>(lt: (T, T) -> bool, a: seq<T>, b: seq<T>)
    requires StrictTotal(lt) && Sorted(lt, a) && Sorted(lt, b)
    requires a != [] && b != [] && multiset(a) == multiset(b)
    ensures a[0] == b[0]
  {
    assert a[0] in multiset(b) && b[0] in multiset(a);
    var i :| 0 <= i < |a| && a[i] == b[0];
    var j :| 0 <= j < |b| && b[j] == a[0];
    assert i == 0 || !lt(a[i], a[0]);
    assert j == 0 || !lt(b[j], b[0]);
  }

  lemma Asymmetric<T(!new)>(lt: (T, T) -> bool, x: T, y: T)
    requires StrictTotal(lt) && lt(x, y)
    ensures !lt(y, x)
  {
  }

  lemma NotBelowTransitive<T(!new)>(lt: (T, T) -> bool, x: T, y: T, z: T)
    requires StrictTotal(lt) && !lt(x, y) && !lt(y, z)
    ensures !lt(x, z)
  {
    assert x == y || lt(y, x);
    assert y == z || lt(z, y);
  }

  method Swap<T>(a: array<T>, i: nat, j: nat)
    requires i < j < a.Length
    modifies a
    ensures a[i] == old(a[j]) && a[j] == old(a[i])
    ensures forall k :: 0 <= k < a.Length && k != i && k != j ==> a[k] == old(a[k])
    ensures multiset(a[..]) == multiset(old(a[..]))
  {
    a[i], a[j] := a[j], a[i];
  }

  /** Moves the last element of `a[..n + 1]` down to its place among the sorted `a[..n]`. */
  method SinkLast<T(!new)>(a: array<T>, n: nat, lt: (T, T) -> bool)
    requires StrictTotal(lt)
    requires n < a.Length && Sorted(lt, a[..n])
    modifies a
    ensures Sorted(lt, a[..n + 1])
    ensures multiset(a[..]) == multiset(old(a[..]))
  {
    hide StrictTotal;
    var j := n;
    while j > 0 && lt(a[j], a[j - 1])
      invariant 0 <= j <= n
      invariant forall p, q :: 0 <= p < q <= n && q != j ==> !lt(a[q], a[p])
      invariant multiset(a[..]) == multiset(old(a[..]))
    {
      Asymmetric(lt, a[j], a[j - 1]);
      Swap(a, j - 1, j);
      j := j - 1;
    }
    forall p | 0 <= p < j ensures !lt(a[j], a[p]) {
      if p < j - 1 {
        NotBelowTransitive(lt, a[j], a[j - 1], a[p]);
      }
    }
  }

  /** `sort.Slice`. */
  method SortSlice<T(!new)>(a: array<T>, lt: (T, T) -> bool)
    requires StrictTotal(lt)
    modifies a
    ensures Sorted(lt, a[..])
    ensures multiset(a[..]) == multiset(old(a[..]))
  {
    var i := 0;
    while i < a.Length
      invariant 0 <= i <= a.Length
      invariant Sorted(lt, a[..i])
      invariant multiset(a[..]) == multiset(old(a[..]))
    {
      SinkLast(a, i, lt);
      i := i + 1;
    }
    assert a[..a.Length] == a[..];
  }
}
