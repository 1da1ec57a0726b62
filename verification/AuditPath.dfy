/**
  `ParseAuditPath` (utils/common/common.go): a value, then steps of one direction byte and one 32-byte hash.
  The parser counts the steps by dividing the remaining length by 32 although each step takes 33 bytes.
 */
module AuditPath {
  import opened Prelude
  import opened ZeroCopy

  type Hash32 = b: bytes | |b| == 32 witness seq(32, _ => 0)

  const STEP: nat := 33

  datatype Step = Step(pos: byte, hash: Hash32)

  datatype Parsed = Parsed(value: bytes, steps: seq<Step>)

  /** The `i`-th step behind `off`. */
  function StepAt(path: bytes, off: nat, i: nat): Step
    requires off + STEP * (i + 1) <= |path|
  {
    Step(path[off + STEP * i], path[off + STEP * i + 1..off + STEP * (i + 1)])
  }

  function StepsAt(path: bytes, off: nat, n: nat): (s: seq<Step>)
    requires off + STEP * n <= |path|
    ensures |s| == n
    ensures forall i :: 0 <= i < n ==> s[i] == StepAt(path, off, i)
  {
    if n == 0 then [] else StepsAt(path, off, n - 1) + [StepAt(path, off, n - 1)]
  }

  /**
    The accepted domain: with `left` bytes behind the value, a path is accepted exactly when
    `left / 32 <= left % 32`, and it then yields `left / 32` steps.
   */
  function Parse(path: bytes): Option<Parsed> {
    var v := ReadVarBytes(path, 0);
    var left := |path| - v.off;
    if v.eof || left / 32 > left % 32 then None
    else Some(Parsed(v.value, StepsAt(path, v.off, left / 32)))
  }

  /**
    The parser as written: a cursor moved step by step, failing where the input runs out. It computes `Parse`,
    whose domain is stated without any cursor.
   */
  method ParseAuditPath(path: bytes) returns (r: Option<Parsed>)
    ensures r == Parse(path)
  {
    hide ReadVarBytes;
    var source := new Source(path);
    var value, eof;
    value, eof := source.NextVarBytes();
    if eof {
      return None;
    }
    ghost var start := source.off;
    var size := (|path| - source.off) / 32;
    var steps: seq<Step> := [];
    var i := 0;
    while i < size
      invariant 0 <= i <= size
      invariant source.Valid() && source.buf == path && source.off == start + STEP * i
      invariant steps == StepsAt(path, start, i)
    {
      var f;
      f, eof := source.NextByte();
      if eof {
        return None;
      }
      var hash;
      hash, eof := source.NextBytes(32);
      if eof {
        return None;
      }
      assert Step(f, hash) == StepAt(path, start, i);
      steps := steps + [Step(f, hash)];
      i := i + 1;
    }
    return Some(Parsed(value, steps));
  }

  function Cell(s: Step): (b: bytes)
    ensures |b| == STEP
  {
    [s.pos] + s.hash
  }

  function PrintSteps(steps: seq<Step>): (b: bytes)
    ensures |b| == STEP * |steps|
  {
    if steps == [] then [] else PrintSteps(steps[..|steps| - 1]) + Cell(steps[|steps| - 1])
  }

  /** The canonical text of a path. */
  function Print(p: Parsed): bytes
    requires |p.value| < TWO64
  {
    VarBytes(p.value) + PrintSteps(p.steps)
  }

  lemma {:induction false} PrintedAt(steps: seq<Step>, i: nat)
    requires i < |steps|
    ensures PrintSteps(steps)[STEP * i..STEP * (i + 1)] == Cell(steps[i])
  {
    hide Cell;
    var n := |steps| - 1;
    var before, last := PrintSteps(steps[..n]), Cell(steps[n]);
    assert PrintSteps(steps) == before + last;
    if i < n {
      PrintedAt(steps[..n], i);
      assert (before + last)[STEP * i..STEP * (i + 1)] == before[STEP * i..STEP * (i + 1)];
    } else {
      assert (before + last)[STEP * n..STEP * (n + 1)] == last;
    }
  }

  lemma StepFromCell(path: bytes, off: nat, i: nat, s: Step)
    requires off + STEP * (i + 1) <= |path|
    requires path[off + STEP * i..off + STEP * (i + 1)] == Cell(s)
    ensures StepAt(path, off, i) == s
  {
    var cell := path[off + STEP * i..off + STEP * (i + 1)];
    assert path[off + STEP * i] == cell[0];
    assert path[off + STEP * i + 1..off + STEP * (i + 1)] == cell[1..] == s.hash;
  }

  lemma PrintedSteps(head: bytes, steps: seq<Step>)
    ensures StepsAt(head + PrintSteps(steps), |head|, |steps|) == steps
  {
    hide StepsAt, PrintSteps, Cell, StepAt;
    var path := head + PrintSteps(steps);
    forall i | 0 <= i < |steps| ensures StepAt(path, |head|, i) == steps[i] {
      PrintedAt(steps, i);
      assert path[|head| + STEP * i..|head| + STEP * (i + 1)] == PrintSteps(steps)[STEP * i..STEP * (i + 1)];
      StepFromCell(path, |head|, i, steps[i]);
    }
    assert StepsAt(path, |head|, |steps|) == steps;
  }

  /** Printing then parsing is the identity below 32 steps; every canonical path of 32 steps or more is rejected. */
  lemma PrintParse(p: Parsed)
    requires |p.value| < TWO64
    ensures Parse(Print(p)) == if |p.steps| < 32 then Some(p) else None
  {
    hide ReadVarBytes, VarBytes, PrintSteps, StepsAt;
    var path := Print(p);
    var n := |p.steps|;
    assert path[0..] == path;
    ReadVarBytesWhole(path, 0, p.value);
    StepCount(n);
    if n < 32 {
      PrintedSteps(VarBytes(p.value), p.steps);
    }
  }

  /** How many steps the division finds in `n` steps' worth of bytes, and how many bytes it leaves over. */
  lemma StepCount(n: nat)
    ensures STEP * n / 32 == n + n / 32 && STEP * n % 32 == n % 32
    ensures STEP * n / 32 <= STEP * n % 32 <==> n < 32
    ensures n < 32 ==> STEP * n / 32 == n
  {
    assert STEP * n == 32 * n + n;
  }

  /**
    Where everything stands: behind the value, each 33 bytes are a direction and a hash of 32 bytes, and there are as
    many steps as 32 goes into what is left.
   */
  lemma ParsedAt(value: bytes, tail: bytes)
    requires |value| < TWO64
    ensures Parse(VarBytes(value) + tail).Some? <==> |tail| / 32 <= |tail| % 32
    ensures
      var p := Parse(VarBytes(value) + tail);
      p.Some? ==>
        && p.value.value == value && |p.value.steps| == |tail| / 32
        && forall i :: 0 <= i < |tail| / 32 ==>
          33 * i + 33 <= |tail| && p.value.steps[i] == Step(tail[33 * i], tail[33 * i + 1..33 * i + 33])
  {
    hide ReadVarBytes, VarBytes;
    var path, off := VarBytes(value) + tail, |VarBytes(value)|;
    assert VarBytes(value) <= path[0..];
    ReadVarBytesWhole(path, 0, value);
    var n := |tail| / 32;
    if n <= |tail| % 32 {
      forall i | 0 <= i < n
        ensures 33 * i + 33 <= |tail| && StepAt(path, off, i) == Step(tail[33 * i], tail[33 * i + 1..33 * i + 33])
      {
        assert path[off + 33 * i + 1..off + 33 * i + 33] == tail[33 * i + 1..33 * i + 33];
      }
    }
  }

  /** A value of 300 bytes: its length stands behind the tag 0xFD, the low byte first. */
  lemma LongValue(value: bytes)
    requires |value| == 300
    ensures Parse([0xFD, 0x2C, 0x01] + value) == Some(Parsed(value, []))
  {
    hide ReadVarBytes;
    VarUintBytes(300);
    assert [0xFD, 0x2C, 0x01] + value == VarBytes(value) + [];
    StrayTailAccepted(value, []);
  }

  /** The parser also accepts up to 31 stray bytes: 31 bytes after the value parse as a path of no steps. */
  lemma StrayTailAccepted(value: bytes, tail: bytes)
    requires |value| < TWO64 && |tail| < 32
    ensures Parse(VarBytes(value) + tail) == Some(Parsed(value, []))
  {
    hide ReadVarBytes, VarBytes;
    var path := VarBytes(value) + tail;
    assert VarBytes(value) <= path[0..];
    ReadVarBytesWhole(path, 0, value);
  }
}
