/**
 * The bytecode rewrites of `Patches`: `removeAfterIndex`,
 * `removeCodeUntilOpcode` and `lockToSynchronized`.  A method's code is an
 * array of bytes, changed in place.  `CodeIterator.next` works out each
 * following instruction before any byte is written, so the instruction
 * start positions are an input computed from the original code.  The
 * constant pool is a function from an index to the method reference it
 * holds.  Opcodes are those of section 6.5 of the Java Virtual Machine
 * Specification.
 */
module Bytecode {
  import opened Wrappers
  import opened Text

  type Byte = x: int | 0 <= x < 256

  const NOP: Byte := 0x00
  const RETURN: Byte := 0xb1
  const INVOKEVIRTUAL: Byte := 0xb6
  const INVOKEINTERFACE: Byte := 0xb9
  const MONITORENTER: Byte := 0xc2
  const MONITOREXIT: Byte := 0xc3

  // ---------------------------------------------------------------------------
  // removeAfterIndex

  /** The code with everything from `index` on replaced by NOPs and a final RETURN. */
  function CutAfter(s: seq<Byte>, index: nat): (r: seq<Byte>)
    requires index < |s|
  {
    s[..index] + seq(|s| - 1 - index, _ => NOP) + [RETURN]
  }

  /**
   * `removeAfterIndex`: the bytes from `index` up to the last one become NOP
   * and the last byte becomes RETURN (the instruction at `index` included).
   */
  method RemoveAfterIndex(code: array<Byte>, index: nat)
    requires index < code.Length
    modifies code
    ensures code[..] == CutAfter(old(code[..]), index)
  {
    var length := code.Length - 1;
    var i := index;
    while i < length
      invariant index <= i <= length
      invariant forall q :: 0 <= q < index ==> code[q] == old(code[q])
      invariant forall q :: index <= q < i ==> code[q] == NOP
      invariant forall q :: i <= q < code.Length ==> code[q] == old(code[q])
    {
      code[i] := NOP;
      i := i + 1;
    }
    code[i] := RETURN;
    ghost var want := CutAfter(old(code[..]), index);
    forall q | 0 <= q < code.Length ensures code[q] == want[q] {
      if q < index {
        assert want[q] == old(code[..])[q];
      } else if q < length {
        assert want[q] == seq(code.Length - 1 - index, _ => NOP)[q - index];
      }
    }
    assert code[..] == want;
  }

  /**
   * What the cut leaves: the length and every byte before `index` are kept,
   * and execution from `index` runs over NOPs straight into the RETURN.
   */
  lemma {:induction false} CutAfterShape(s: seq<Byte>, index: nat)
    requires index < |s|
    ensures |CutAfter(s, index)| == |s|
    ensures CutAfter(s, index)[..index] == s[..index]
    ensures forall q :: index <= q < |s| - 1 ==> CutAfter(s, index)[q] == NOP
    ensures CutAfter(s, index)[|s| - 1] == RETURN
  {
    var r := CutAfter(s, index);
    assert r[..index] == s[..index];
    forall q | index <= q < |s| - 1 ensures r[q] == NOP {
      assert r[q] == seq(|s| - 1 - index, _ => NOP)[q - index];
    }
  }

  /** Cutting twice is cutting once at the earlier index. */
  lemma {:induction false} CutAfterTwice(s: seq<Byte>, i: nat, j: nat)
    requires i < |s| && j < |s|
    ensures CutAfter(CutAfter(s, j), i) == CutAfter(s, if i < j then i else j)
  {
    var m := if i < j then i else j;
    var a, b := CutAfter(CutAfter(s, j), i), CutAfter(s, m);
    CutAfterShape(s, j);
    CutAfterShape(CutAfter(s, j), i);
    CutAfterShape(s, m);
    forall q | 0 <= q < |s| ensures a[q] == b[q] {
      if q < m {
        assert a[q] == a[..i][q] == CutAfter(s, j)[..i][q];
        assert CutAfter(s, j)[q] == CutAfter(s, j)[..j][q] == s[..j][q];
        assert b[q] == b[..m][q] == s[..m][q];
      } else if q < |s| - 1 {
        if q >= i {
          assert a[q] == NOP;
        } else {
          assert a[q] == a[..i][q] == CutAfter(s, j)[..i][q] == CutAfter(s, j)[q];
        }
      }
    }
    assert a == b;
  }

  // ---------------------------------------------------------------------------
  // removeCodeUntilOpcode

  /** Instruction start positions as the iterator visits them: strictly increasing and inside the code. */
  predicate InstructionStarts(starts: seq<nat>, length: nat) {
    && (forall k :: 0 <= k < |starts| ==> starts[k] < length)
    && (forall k, l :: 0 <= k < l < |starts| ==> starts[k] < starts[l])
  }

  /** The instruction starts whose opcode is `opcode`, in order. */
  function Occurrences(code: seq<Byte>, starts: seq<nat>, opcode: int): (r: seq<nat>)
    requires forall k :: 0 <= k < |starts| ==> starts[k] < |code|
  {
    if |starts| == 0 then []
    else
      var init := starts[..|starts| - 1];
      var last := starts[|starts| - 1];
      Occurrences(code, init, opcode) + (if code[last] == opcode then [last] else [])
  }

  /**
   * Which occurrences are acted on: `-2` the first only, any other negative
   * index every one, and `k >= 0` the `k`-th one (counting from 0).
   */
  function Selected(occurrences: seq<nat>, removeIndex: int): (r: seq<nat>)
    ensures |r| <= |occurrences|
  {
    if removeIndex == -2 then (if |occurrences| == 0 then [] else [occurrences[0]])
    else if removeIndex < 0 then occurrences
    else if removeIndex < |occurrences| then [occurrences[removeIndex]]
    else []
  }

  /** Every byte up to and including `p` is NOP, the rest unchanged. */
  function NopThrough(s: seq<Byte>, p: nat): (r: seq<Byte>)
    ensures |r| == |s|
  {
    seq(|s|, q requires 0 <= q < |s| => if q <= p then NOP else s[q])
  }

  /** The code after removing up to each selected occurrence in turn: up to the last one. */
  function RemovedUntil(s: seq<Byte>, selected: seq<nat>): (r: seq<Byte>)
    ensures |r| == |s|
  {
    if |selected| == 0 then s else NopThrough(s, selected[|selected| - 1])
  }

  /**
   * `removeCodeUntilOpcode` on one method's code: `opcode` is the opcode's
   * number (`-1` for an unknown mnemonic, which matches nothing) and
   * `removeIndex` the `index` attribute, `-1` when absent.  Returns how many
   * occurrences were acted on.
   */
  method RemoveCodeUntilOpcode(code: array<Byte>, starts: seq<nat>, opcode: int, removeIndex: int) returns (removed: nat)
    requires InstructionStarts(starts, code.Length)
    modifies code
    ensures removed == |Selected(Occurrences(old(code[..]), starts, opcode), removeIndex)|
    ensures code[..] == RemovedUntil(old(code[..]), Selected(Occurrences(old(code[..]), starts, opcode), removeIndex))
  {
    ghost var orig := code[..];
    ghost var sel: seq<nat> := [];
    var currentIndex := 0;
    removed := 0;
    var k := 0;
    while k < |starts|
      invariant 0 <= k <= |starts|
      invariant Visited(orig, starts, opcode, removeIndex, k, sel, currentIndex)
      invariant removed == |sel|
      invariant code[..] == RemovedUntil(orig, sel)
    {
      var index := starts[k];
      RemovedUntilAfter(orig, sel, index);
      var op := code[index];
      ghost var before := currentIndex;
      var hit := false;
      if op == opcode {
        if removeIndex < 0 {
          hit := true;
        } else {
          hit := removeIndex == currentIndex;
          currentIndex := currentIndex + 1;
        }
      }
      VisitNext(orig, starts, opcode, removeIndex, k, sel, before);
      if hit {
        NopUpTo(code, index);
        removed := removed + 1;
        NopThroughOver(orig, sel, index);
        sel := sel + [index];
        if removeIndex == -2 {
          return;
        }
      }
      k := k + 1;
    }
    assert starts[..k] == starts;
  }

  /** Whether the instruction with opcode `op` is acted on, `seen` occurrences of the opcode into the code. */
  predicate Hits(op: Byte, opcode: int, removeIndex: int, seen: nat) {
    op == opcode && (removeIndex < 0 || removeIndex == seen)
  }

  /**
   * The loop's state after the first `k` instructions: the selected
   * occurrences so far, the count of occurrences when an index is given, no
   * occurrence yet when only the first is wanted, and every selected
   * position before the next instruction.
   */
  ghost predicate Visited(orig: seq<Byte>, starts: seq<nat>, opcode: int, removeIndex: int, k: nat, sel: seq<nat>, seen: nat)
    requires InstructionStarts(starts, |orig|) && k <= |starts|
  {
    var occ := Occurrences(orig, starts[..k], opcode);
    && sel == Selected(occ, removeIndex)
    && (removeIndex >= 0 ==> seen == |occ|)
    && (removeIndex == -2 ==> |occ| == 0)
    && forall x :: x in sel ==> x < Bound(starts, k, |orig|)
  }

  /** One more instruction: either the loop state moves on, or the first wanted occurrence ends the loop with everything selected. */
  lemma {:induction false} VisitNext(orig: seq<Byte>, starts: seq<nat>, opcode: int, removeIndex: int, k: nat, sel: seq<nat>, seen: nat)
    requires InstructionStarts(starts, |orig|) && k < |starts|
    requires Visited(orig, starts, opcode, removeIndex, k, sel, seen)
    ensures forall x :: x in sel ==> x < starts[k]
    ensures var h := Hits(orig[starts[k]], opcode, removeIndex, seen);
      var sel' := if h then sel + [starts[k]] else sel;
      var seen' := if orig[starts[k]] == opcode && removeIndex >= 0 then seen + 1 else seen;
      && (removeIndex == -2 && h ==> sel' == Selected(Occurrences(orig, starts, opcode), removeIndex))
      && (!(removeIndex == -2 && h) ==> Visited(orig, starts, opcode, removeIndex, k + 1, sel', seen'))
  {
    var index := starts[k];
    var occ := Occurrences(orig, starts[..k], opcode);
    OccurrencesStep(orig, starts, opcode, k);
    if orig[index] == opcode {
      SelectedAppend(occ, index, removeIndex);
    }
    var h := Hits(orig[index], opcode, removeIndex, seen);
    if removeIndex == -2 && h {
      OccurrencesPrefix(orig, starts, opcode, k + 1);
    } else {
      var sel' := if h then sel + [index] else sel;
      BoundStep(starts, |orig|, k, sel');
    }
  }

  /** Where the `k`-th instruction starts, or the code's length past the last one. */
  function Bound(starts: seq<nat>, k: nat, length: nat): nat {
    if k < |starts| then starts[k] else length
  }

  /** Positions up to the `k`-th instruction start stay below the next one's start. */
  lemma {:induction false} BoundStep(starts: seq<nat>, length: nat, k: nat, sel: seq<nat>)
    requires InstructionStarts(starts, length) && k < |starts|
    requires forall x :: x in sel ==> x <= starts[k]
    ensures forall x :: x in sel ==> x < Bound(starts, k + 1, length)
  {
  }

  /** Writes NOP over every byte up to and including `index`. */
  method NopUpTo(code: array<Byte>, index: nat)
    requires index < code.Length
    modifies code
    ensures code[..] == NopThrough(old(code[..]), index)
  {
    var i := 0;
    while i <= index
      invariant 0 <= i <= index + 1
      invariant forall q :: 0 <= q < i ==> code[q] == NOP
      invariant forall q :: i <= q < code.Length ==> code[q] == old(code[q])
    {
      code[i] := NOP;
      i := i + 1;
    }
  }

  /** Removing up to a later position after earlier removals is removing up to it in the original. */
  lemma {:induction false} NopThroughOver(s: seq<Byte>, sel: seq<nat>, p: nat)
    requires forall x :: x in sel ==> x < p
    ensures NopThrough(RemovedUntil(s, sel), p) == RemovedUntil(s, sel + [p])
  {
    RemovedUntilAfter(s, sel, p);
  }

  /** Taking one more instruction start adds it to the occurrences when its opcode matches. */
  lemma {:induction false} OccurrencesStep(code: seq<Byte>, starts: seq<nat>, opcode: int, k: nat)
    requires k < |starts| && forall l :: 0 <= l < |starts| ==> starts[l] < |code|
    ensures Occurrences(code, starts[..k + 1], opcode)
      == Occurrences(code, starts[..k], opcode) + (if code[starts[k]] == opcode then [starts[k]] else [])
  {
    assert starts[..k + 1][..k] == starts[..k];
  }

  /** The occurrences among the first `k` starts are a prefix of all the occurrences. */
  lemma {:induction false} OccurrencesPrefix(code: seq<Byte>, starts: seq<nat>, opcode: int, k: nat)
    requires k <= |starts| && forall l :: 0 <= l < |starts| ==> starts[l] < |code|
    ensures Occurrences(code, starts[..k], opcode) <= Occurrences(code, starts, opcode)
    decreases |starts| - k
  {
    if k < |starts| {
      OccurrencesPrefix(code, starts, opcode, k + 1);
      OccurrencesStep(code, starts, opcode, k);
    } else {
      assert starts[..k] == starts;
    }
  }

  /** One more occurrence is selected exactly when the index asks for every one or for this one. */
  lemma {:induction false} SelectedAppend(m: seq<nat>, x: nat, removeIndex: int)
    requires removeIndex == -2 ==> |m| == 0
    ensures Selected(m + [x], removeIndex)
      == if removeIndex < 0 || removeIndex == |m| then Selected(m, removeIndex) + [x] else Selected(m, removeIndex)
  {
    if 0 <= removeIndex < |m| {
      assert (m + [x])[removeIndex] == m[removeIndex];
    }
  }

  /** Bytes after the last selected occurrence are still the original ones. */
  lemma {:induction false} RemovedUntilAfter(s: seq<Byte>, selected: seq<nat>, p: nat)
    requires forall x :: x in selected ==> x < p
    ensures forall q :: p <= q < |s| ==> RemovedUntil(s, selected)[q] == s[q]
  {
    if |selected| > 0 {
      assert selected[|selected| - 1] in selected;
    }
  }

  /** The occurrences are exactly the instruction starts whose opcode matches. */
  lemma {:induction false} OccurrencesMembers(code: seq<Byte>, starts: seq<nat>, opcode: int)
    requires forall k :: 0 <= k < |starts| ==> starts[k] < |code|
    ensures forall x :: x in Occurrences(code, starts, opcode) <==> x in starts && code[x] == opcode
  {
    if |starts| > 0 {
      var init := starts[..|starts| - 1];
      OccurrencesMembers(code, init, opcode);
      assert starts == init + [starts[|starts| - 1]];
    }
  }

  /** Strictly increasing positions. */
  predicate Increasing(xs: seq<nat>) {
    forall i, j :: 0 <= i < j < |xs| ==> xs[i] < xs[j]
  }

  /** The occurrences come in the order of the instructions. */
  lemma {:induction false} OccurrencesIncreasing(code: seq<Byte>, starts: seq<nat>, opcode: int)
    requires InstructionStarts(starts, |code|)
    ensures Increasing(Occurrences(code, starts, opcode))
  {
    if |starts| > 0 {
      var init := starts[..|starts| - 1];
      var last := starts[|starts| - 1];
      OccurrencesIncreasing(code, init, opcode);
      OccurrencesMembers(code, init, opcode);
      var before := Occurrences(code, init, opcode);
      forall i | 0 <= i < |before| ensures before[i] < last {
        assert before[i] in init;
      }
      var occ := Occurrences(code, starts, opcode);
      assert occ == before + (if code[last] == opcode then [last] else []);
      forall i, j | 0 <= i < j < |occ| ensures occ[i] < occ[j] {
        if j < |before| {
          assert occ[i] == before[i] && occ[j] == before[j];
        } else {
          assert occ[i] == before[i] && occ[j] == last;
        }
      }
    }
  }

  /**
   * With no index (or any negative one but -2) all code up to the last
   * instruction with the opcode is removed: every byte up to any matching
   * instruction becomes NOP, and every byte after all of them is kept.
   */
  lemma {:induction false} RemoveUntilLastOccurrence(s: seq<Byte>, starts: seq<nat>, opcode: int, removeIndex: int)
    requires InstructionStarts(starts, |s|) && removeIndex < 0 && removeIndex != -2
    ensures var r := RemovedUntil(s, Selected(Occurrences(s, starts, opcode), removeIndex));
      && (forall l, q :: 0 <= l < |starts| && s[starts[l]] == opcode && 0 <= q <= starts[l] ==> r[q] == NOP)
      && (forall q :: 0 <= q < |s| && (forall l :: 0 <= l < |starts| && s[starts[l]] == opcode ==> starts[l] < q) ==> r[q] == s[q])
  {
    var occ := Occurrences(s, starts, opcode);
    OccurrencesMembers(s, starts, opcode);
    OccurrencesIncreasing(s, starts, opcode);
    var r := RemovedUntil(s, occ);
    forall l, q | 0 <= l < |starts| && s[starts[l]] == opcode && 0 <= q <= starts[l] ensures r[q] == NOP {
      assert starts[l] in occ;
      var i :| 0 <= i < |occ| && occ[i] == starts[l];
      if i < |occ| - 1 {
        assert occ[i] < occ[|occ| - 1];
      }
    }
    forall q | 0 <= q < |s| && (forall l :: 0 <= l < |starts| && s[starts[l]] == opcode ==> starts[l] < q) ensures r[q] == s[q] {
      if |occ| > 0 {
        assert occ[|occ| - 1] in starts;
      }
    }
  }

  /** The first occurrence is the earliest instruction with the opcode; there is none only when no instruction has it. */
  lemma {:induction false} FirstOccurrence(s: seq<Byte>, starts: seq<nat>, opcode: int)
    requires InstructionStarts(starts, |s|)
    ensures var occ := Occurrences(s, starts, opcode);
      && (|occ| == 0 <==> forall l :: 0 <= l < |starts| ==> s[starts[l]] != opcode)
      && (|occ| > 0 ==> && occ[0] in starts && s[occ[0]] == opcode
                        && forall l :: 0 <= l < |starts| && s[starts[l]] == opcode ==> occ[0] <= starts[l])
  {
    var occ := Occurrences(s, starts, opcode);
    OccurrencesMembers(s, starts, opcode);
    if |occ| > 0 {
      OccurrencesIncreasing(s, starts, opcode);
      assert occ[0] in occ;
      forall l | 0 <= l < |starts| && s[starts[l]] == opcode ensures occ[0] <= starts[l] {
        assert starts[l] in starts;
        var i :| 0 <= i < |occ| && occ[i] == starts[l];
        if i > 0 {
          assert occ[0] < occ[i];
        }
      }
    } else {
      forall l | 0 <= l < |starts| ensures s[starts[l]] != opcode {
        assert starts[l] in starts;
      }
    }
  }

  /**
   * With index -2 only the code up to the first instruction with the opcode
   * is removed, and nothing when there is none.
   */
  lemma {:induction false} RemoveUntilFirstOccurrence(s: seq<Byte>, starts: seq<nat>, opcode: int)
    requires InstructionStarts(starts, |s|)
    ensures var sel := Selected(Occurrences(s, starts, opcode), -2);
      var r := RemovedUntil(s, sel);
      && (|sel| == 0 <==> forall l :: 0 <= l < |starts| ==> s[starts[l]] != opcode)
      && (|sel| == 0 ==> r == s)
      && (|sel| == 1 ==> && sel[0] in starts && s[sel[0]] == opcode
                         && (forall l :: 0 <= l < |starts| && s[starts[l]] == opcode ==> sel[0] <= starts[l])
                         && (forall q :: 0 <= q < |s| ==> r[q] == if q <= sel[0] then NOP else s[q]))
  {
    FirstOccurrence(s, starts, opcode);
  }

  /**
   * With an index `k >= 0` at most one occurrence is acted on: the `k`-th,
   * when there are more than `k`; otherwise the code is left as it was.
   */
  lemma {:induction false} RemoveUntilNthOccurrence(s: seq<Byte>, starts: seq<nat>, opcode: int, k: nat)
    requires InstructionStarts(starts, |s|)
    ensures var occ := Occurrences(s, starts, opcode);
      var sel := Selected(occ, k);
      && |sel| <= 1
      && (|sel| == 1 <==> k < |occ|)
      && (k >= |occ| ==> RemovedUntil(s, sel) == s)
      && (k < |occ| ==> && sel[0] in starts && s[sel[0]] == opcode
                        && |set x | x in occ && x < sel[0]| == k
                        && (forall q :: 0 <= q < |s| ==> RemovedUntil(s, sel)[q] == if q <= sel[0] then NOP else s[q]))
  {
    var occ := Occurrences(s, starts, opcode);
    OccurrencesMembers(s, starts, opcode);
    if k < |occ| {
      OccurrencesIncreasing(s, starts, opcode);
      assert occ[k] in occ;
      CountBefore(occ, k);
    }
  }

  /** In a strictly increasing sequence exactly `k` entries are smaller than the `k`-th. */
  lemma {:induction false} CountBefore(occ: seq<nat>, k: nat)
    requires k < |occ| && Increasing(occ)
    ensures |set x | x in occ && x < occ[k]| == k
  {
    var before := set x | x in occ && x < occ[k];
    assert before == set i | 0 <= i < k :: occ[i] by {
      forall x | x in before ensures x in set i | 0 <= i < k :: occ[i] {
        var i :| 0 <= i < |occ| && occ[i] == x;
      }
    }
    IncreasingImageSize(occ, k);
  }

  /** The first `k` entries of a strictly increasing sequence are `k` distinct values. */
  lemma {:induction false} IncreasingImageSize(occ: seq<nat>, k: nat)
    requires k <= |occ|
    requires Increasing(occ)
    ensures |set i | 0 <= i < k :: occ[i]| == k
  {
    if k > 0 {
      IncreasingImageSize(occ, k - 1);
      var smaller := set i | 0 <= i < k - 1 :: occ[i];
      assert (set i | 0 <= i < k :: occ[i]) == smaller + {occ[k - 1]};
      assert occ[k - 1] !in smaller;
    }
  }

  // ---------------------------------------------------------------------------
  // lockToSynchronized

  /** A method reference in the constant pool: its class's name and its own name. */
  datatype MethodRef = MethodRef(className: string, name: string)

  /** The constant-pool index held in the two bytes after `pos`, high byte first. */
  function U16At(s: seq<Byte>, pos: nat): (r: nat)
    requires pos + 2 < |s|
    ensures r < 0x1_0000
  {
    (s[pos + 1] as int) * 256 + s[pos + 2] as int
  }

  /** The monitor opcode that replaces a call to `lock` or `unlock`; other names are left alone. */
  function MonitorFor(name: string): (r: Option<Byte>)
    ensures r == Some(MONITORENTER) <==> name == "lock"
    ensures r == Some(MONITOREXIT) <==> name == "unlock"
    ensures r.None? <==> name != "lock" && name != "unlock"
  {
    if name == "lock" then Some(MONITORENTER)
    else if name == "unlock" then Some(MONITOREXIT)
    else None
  }

  /** A rewrite of one instruction: its new opcode and how many operand bytes become NOP. */
  datatype Rewrite = Rewrite(opcode: Byte, operands: nat)

  /** How many operand bytes follow each call opcode, as far as this rewrite is concerned. */
  function OperandBytes(op: Byte): nat {
    if op == INVOKEINTERFACE then 4 else if op == INVOKEVIRTUAL then 2 else 0
  }

  /**
   * The code is laid out the way the iterator reads it: strictly increasing
   * starts inside the code, and each call's operands end before the next
   * instruction starts.
   */
  predicate WellFormed(s: seq<Byte>, starts: seq<nat>) {
    && InstructionStarts(starts, |s|)
    && (forall k :: 0 <= k < |starts| ==> starts[k] + OperandBytes(s[starts[k]]) < |s|)
    && (forall k, l :: 0 <= k < l < |starts| ==> starts[k] + OperandBytes(s[starts[k]]) < starts[l])
  }

  /**
   * What is done with the instruction at `pos`: an `invokeinterface` of
   * `lock`/`unlock` on a class whose name ends in "Lock", or an
   * `invokevirtual` of `lock`/`unlock` on a class whose name ends in
   * "NativeMutex", becomes the monitor opcode; anything else is kept.
   */
  function Decision(s: seq<Byte>, pos: nat, interfaceRef: nat -> MethodRef, methodRef: nat -> MethodRef): (r: Option<Rewrite>)
    requires pos + OperandBytes(if pos < |s| then s[pos] else NOP) < |s|
    ensures r.Some? ==> && (s[pos] == INVOKEINTERFACE || s[pos] == INVOKEVIRTUAL)
                        && r.value.operands == OperandBytes(s[pos])
                        && (r.value.opcode == MONITORENTER || r.value.opcode == MONITOREXIT)
  {
    if s[pos] == INVOKEINTERFACE then
      var ref := interfaceRef(U16At(s, pos));
      if EndsWith(ref.className, "Lock") && MonitorFor(ref.name).Some? then Some(Rewrite(MonitorFor(ref.name).value, 4)) else None
    else if s[pos] == INVOKEVIRTUAL then
      var ref := methodRef(U16At(s, pos));
      if EndsWith(ref.className, "NativeMutex") && MonitorFor(ref.name).Some? then Some(Rewrite(MonitorFor(ref.name).value, 2)) else None
    else None
  }

  /** Writes a rewrite at `pos`: the opcode, then NOP over its operands. */
  function Apply(s: seq<Byte>, pos: nat, d: Option<Rewrite>): (r: seq<Byte>)
    requires d.Some? ==> pos + d.value.operands < |s|
    ensures |r| == |s|
  {
    match d
    case None => s
    case Some(w) =>
      seq(|s|, q requires 0 <= q < |s| => if q == pos then w.opcode else if pos < q <= pos + w.operands then NOP else s[q])
  }

  /** The `l`-th instruction's operands end before the next instruction, so inside the code. */
  lemma {:induction false} OperandsFit(s: seq<Byte>, starts: seq<nat>, l: nat)
    requires WellFormed(s, starts) && l < |starts|
    ensures starts[l] + OperandBytes(s[starts[l]]) < Bound(starts, l + 1, |s|) <= |s|
  {
    if l + 1 < |starts| {
      assert starts[l] + OperandBytes(s[starts[l]]) < starts[l + 1];
    }
  }

  /**
   * The code after the first `m` instructions of `starts` are rewritten in
   * turn, each decided on the original code.
   */
  function LockAll(s: seq<Byte>, starts: seq<nat>, m: nat, interfaceRef: nat -> MethodRef, methodRef: nat -> MethodRef): (r: seq<Byte>)
    requires WellFormed(s, starts) && m <= |starts|
    ensures |r| == |s|
  {
    if m == 0 then s
    else
      OperandsFit(s, starts, m - 1);
      Apply(LockAll(s, starts, m - 1, interfaceRef, methodRef), starts[m - 1], Decision(s, starts[m - 1], interfaceRef, methodRef))
  }

  /** How many of the first `m` instructions of `starts` are rewritten. */
  function LockCount(s: seq<Byte>, starts: seq<nat>, m: nat, interfaceRef: nat -> MethodRef, methodRef: nat -> MethodRef): (r: nat)
    requires WellFormed(s, starts) && m <= |starts|
    ensures r <= m
  {
    if m == 0 then 0
    else
      OperandsFit(s, starts, m - 1);
      LockCount(s, starts, m - 1, interfaceRef, methodRef)
        + (if Decision(s, starts[m - 1], interfaceRef, methodRef).Some? then 1 else 0)
  }

  /** A rewrite changes no byte before the instruction it rewrites. */
  lemma {:induction false} ApplyBefore(s: seq<Byte>, pos: nat, d: Option<Rewrite>)
    requires d.Some? ==> pos + d.value.operands < |s|
    ensures forall q :: 0 <= q < pos && q < |s| ==> Apply(s, pos, d)[q] == s[q]
  {
  }

  /** Rewriting the first `k` instructions leaves the bytes from the `k`-th instruction's start on untouched. */
  lemma {:induction false} LockAllUntouched(s: seq<Byte>, starts: seq<nat>, k: nat, interfaceRef: nat -> MethodRef, methodRef: nat -> MethodRef)
    requires WellFormed(s, starts) && k <= |starts|
    ensures forall q :: Bound(starts, k, |s|) <= q < |s| ==> LockAll(s, starts, k, interfaceRef, methodRef)[q] == s[q]
  {
    if k > 0 {
      LockAllUntouched(s, starts, k - 1, interfaceRef, methodRef);
      OperandsFit(s, starts, k - 1);
    }
  }

  /**
   * `lockToSynchronized` on one method's code: every `lock`/`unlock` call on
   * a `Lock` interface or a `NativeMutex` becomes `monitorenter` or
   * `monitorexit` with its operands overwritten by NOP.  Returns how many
   * calls were rewritten.
   */
  method LockToSynchronized(code: array<Byte>, starts: seq<nat>, interfaceRef: nat -> MethodRef, methodRef: nat -> MethodRef)
    returns (done: nat)
    requires WellFormed(code[..], starts)
    modifies code
    ensures done == LockCount(old(code[..]), starts, |starts|, interfaceRef, methodRef)
    ensures code[..] == LockAll(old(code[..]), starts, |starts|, interfaceRef, methodRef)
  {
    ghost var orig := code[..];
    done := 0;
    var k := 0;
    while k < |starts|
      invariant 0 <= k <= |starts|
      invariant done == LockCount(orig, starts, k, interfaceRef, methodRef)
      invariant code[..] == LockAll(orig, starts, k, interfaceRef, methodRef)
    {
      var pos := starts[k];
      LockAllUntouched(orig, starts, k, interfaceRef, methodRef);
      OperandsFit(orig, starts, k);
      DecisionReadsFrom(orig, code[..], pos, interfaceRef, methodRef);
      var hit := LockOne(code, pos, interfaceRef, methodRef);
      if hit {
        done := done + 1;
      }
      k := k + 1;
    }
  }

  /** The rewrite of one instruction, reading its operand and writing in place. */
  method LockOne(code: array<Byte>, pos: nat, interfaceRef: nat -> MethodRef, methodRef: nat -> MethodRef)
    returns (hit: bool)
    requires pos < code.Length && pos + OperandBytes(code[pos]) < code.Length
    modifies code
    ensures hit == Decision(old(code[..]), pos, interfaceRef, methodRef).Some?
    ensures code[..] == Apply(old(code[..]), pos, Decision(old(code[..]), pos, interfaceRef, methodRef))
  {
    hit := false;
    var op := code[pos];
    if op == INVOKEINTERFACE {
      var ref := interfaceRef((code[pos + 1] as int) * 256 + code[pos + 2] as int);
      if EndsWith(ref.className, "Lock") {
        if ref.name == "lock" {
          hit := true;
          code[pos] := MONITORENTER;
        } else if ref.name == "unlock" {
          hit := true;
          code[pos] := MONITOREXIT;
        }
        if hit {
          code[pos + 1] := NOP;
          code[pos + 2] := NOP;
          code[pos + 3] := NOP;
          code[pos + 4] := NOP;
        }
      }
    } else if op == INVOKEVIRTUAL {
      var ref := methodRef((code[pos + 1] as int) * 256 + code[pos + 2] as int);
      if EndsWith(ref.className, "NativeMutex") {
        if ref.name == "lock" {
          hit := true;
          code[pos] := MONITORENTER;
        } else if ref.name == "unlock" {
          hit := true;
          code[pos] := MONITOREXIT;
        }
        if hit {
          code[pos + 1] := NOP;
          code[pos + 2] := NOP;
        }
      }
    }
  }

  /** The decision at `pos` depends only on the bytes from `pos` on. */
  lemma {:induction false} DecisionReadsFrom(s: seq<Byte>, t: seq<Byte>, pos: nat, interfaceRef: nat -> MethodRef, methodRef: nat -> MethodRef)
    requires |s| == |t| && pos < |s| && pos + OperandBytes(s[pos]) < |s|
    requires forall q :: pos <= q < |s| ==> s[q] == t[q]
    ensures Decision(s, pos, interfaceRef, methodRef) == Decision(t, pos, interfaceRef, methodRef)
  {
  }

  /** Rewrites of later instructions leave every byte before the `k`-th instruction's start as it was. */
  lemma {:induction false} LockAllStable(s: seq<Byte>, starts: seq<nat>, k: nat, m: nat, interfaceRef: nat -> MethodRef, methodRef: nat -> MethodRef)
    requires WellFormed(s, starts) && k <= m <= |starts|
    ensures forall q :: 0 <= q < Bound(starts, k, |s|) ==>
      LockAll(s, starts, m, interfaceRef, methodRef)[q] == LockAll(s, starts, k, interfaceRef, methodRef)[q]
    decreases m
  {
    if m > k {
      LockAllStable(s, starts, k, m - 1, interfaceRef, methodRef);
      OperandsFit(s, starts, m - 1);
      var pos := starts[m - 1];
      assert Bound(starts, k, |s|) <= pos by {
        if k < m - 1 {
          assert starts[k] < starts[m - 1];
        }
      }
      ApplyBefore(LockAll(s, starts, m - 1, interfaceRef, methodRef), pos, Decision(s, pos, interfaceRef, methodRef));
    }
  }

  /** A rewritten call's opcode is the monitor opcode and its operand bytes are NOP in the final code. */
  lemma {:induction false} LockAllRewritten(s: seq<Byte>, starts: seq<nat>, l: nat, interfaceRef: nat -> MethodRef, methodRef: nat -> MethodRef)
    requires WellFormed(s, starts) && l < |starts|
    ensures Decision(s, starts[l], interfaceRef, methodRef).Some? ==>
      var w := Decision(s, starts[l], interfaceRef, methodRef).value;
      var r := LockAll(s, starts, |starts|, interfaceRef, methodRef);
      && r[starts[l]] == w.opcode
      && forall q :: starts[l] < q <= starts[l] + w.operands ==> r[q] == NOP
  {
    OperandsFit(s, starts, l);
    LockAllStable(s, starts, l + 1, |starts|, interfaceRef, methodRef);
  }

  /** A byte outside every rewritten call keeps its value. */
  lemma {:induction false} LockAllElsewhere(s: seq<Byte>, starts: seq<nat>, m: nat, q: nat, interfaceRef: nat -> MethodRef, methodRef: nat -> MethodRef)
    requires WellFormed(s, starts) && m <= |starts| && q < |s|
    requires forall l :: 0 <= l < m && Rewritten(s, starts, l, interfaceRef, methodRef) ==>
      q < starts[l] || starts[l] + OperandBytes(s[starts[l]]) < q
    ensures LockAll(s, starts, m, interfaceRef, methodRef)[q] == s[q]
  {
    if m > 0 {
      LockAllElsewhere(s, starts, m - 1, q, interfaceRef, methodRef);
      OperandsFit(s, starts, m - 1);
    }
  }

  /** Whether the `l`-th instruction is one that gets rewritten. */
  predicate Rewritten(s: seq<Byte>, starts: seq<nat>, l: nat, interfaceRef: nat -> MethodRef, methodRef: nat -> MethodRef)
    requires WellFormed(s, starts) && l < |starts|
  {
    OperandsFit(s, starts, l);
    Decision(s, starts[l], interfaceRef, methodRef).Some?
  }

  /** The count reported is zero exactly when the code is left unchanged. */
  lemma {:induction false} LockCountZero(s: seq<Byte>, starts: seq<nat>, interfaceRef: nat -> MethodRef, methodRef: nat -> MethodRef)
    requires WellFormed(s, starts)
    ensures LockCount(s, starts, |starts|, interfaceRef, methodRef) == 0
      <==> LockAll(s, starts, |starts|, interfaceRef, methodRef) == s
  {
    var l := LockCountWitness(s, starts, |starts|, interfaceRef, methodRef);
    if l < |starts| {
      OperandsFit(s, starts, l);
      LockAllRewritten(s, starts, l, interfaceRef, methodRef);
      assert LockAll(s, starts, |starts|, interfaceRef, methodRef)[starts[l]] != s[starts[l]];
    } else {
      forall q | 0 <= q < |s| ensures LockAll(s, starts, |starts|, interfaceRef, methodRef)[q] == s[q] {
        LockAllElsewhere(s, starts, |starts|, q, interfaceRef, methodRef);
      }
    }
  }

  /** The first rewritten instruction among the first `m`, or `m` with a zero count when there is none. */
  lemma {:induction false} LockCountWitness(s: seq<Byte>, starts: seq<nat>, m: nat, interfaceRef: nat -> MethodRef, methodRef: nat -> MethodRef)
    returns (l: nat)
    requires WellFormed(s, starts) && m <= |starts|
    ensures l <= m
    ensures l < m ==> Rewritten(s, starts, l, interfaceRef, methodRef) && LockCount(s, starts, m, interfaceRef, methodRef) > 0
    ensures l == m ==> (LockCount(s, starts, m, interfaceRef, methodRef) == 0
      && forall i :: 0 <= i < m ==> !Rewritten(s, starts, i, interfaceRef, methodRef))
  {
    if m == 0 {
      l := 0;
    } else {
      OperandsFit(s, starts, m - 1);
      l := LockCountWitness(s, starts, m - 1, interfaceRef, methodRef);
      if l == m - 1 && !Rewritten(s, starts, m - 1, interfaceRef, methodRef) {
        l := m;
      }
    }
  }
}
