/**
 * The jump-destination analysis of the virtual machine: one linear scan over the code
 * fills a table, and a jump is checked by binary search in it.
 */
module JumpTable {
  import opened Bytes

  const JUMPDEST: byte := 0x5b
  const PUSH1: byte := 0x60
  const PUSH32: byte := 0x7f
  const PUSHC: byte := 0xac
  const JUMPC: byte := 0xad
  const JUMPCI: byte := 0xae
  const INVALID: byte := 0xfe
  const PADDING := 33
  const MAX_DEST := 0x7FFF_FFFF_FFFF_FFFF

  /** Where the instruction after the one at `pc` starts: a PUSH is followed by its immediate bytes. */
  function NextPc(op: byte, pc: nat): nat {
    if PUSH1 <= op <= PUSH32 then pc + 1 + (op - PUSH1) as nat + 1 else pc + 1
  }

  /** The linear decode from `pc` meets an instruction at `target`. */
  predicate StartsAt(code: seq<byte>, pc: nat, target: nat)
    decreases |code| - pc
  {
    pc < |code| && (pc == target || StartsAt(code, NextPc(code[pc], pc), target))
  }

  /** A valid jump destination: a JUMPDEST at an instruction start (section 9.4.3 of the Ethereum Yellow Paper). */
  predicate ValidDest(code: seq<byte>, dest: nat) {
    dest < |code| && code[dest] == JUMPDEST && StartsAt(code, 0, dest)
  }

  predicate Synthetic(op: byte) {
    op == PUSHC || op == JUMPC || op == JUMPCI
  }

  lemma {:induction false} StartsForward(code: seq<byte>, pc: nat, target: nat)
    requires StartsAt(code, pc, target)
    ensures pc <= target < |code|
    decreases |code| - pc
  {
    if pc != target {
      StartsForward(code, NextPc(code[pc], pc), target);
    }
  }

  lemma {:induction false} StartsTrans(code: seq<byte>, pc: nat, mid: nat, target: nat)
    requires StartsAt(code, pc, mid)
    ensures StartsAt(code, pc, target) <==> (target < mid && StartsAt(code, pc, target)) || StartsAt(code, mid, target)
    decreases |code| - pc
  {
    StartsForward(code, pc, mid);
    if StartsAt(code, mid, target) {
      StartsForward(code, mid, target);
    }
    if pc != mid {
      StartsTrans(code, NextPc(code[pc], pc), mid, target);
    }
  }

  predicate Increasing(s: seq<nat>) {
    forall i, j :: 0 <= i < j < |s| ==> s[i] < s[j]
  }

  /** The table holds exactly the valid destinations before `pc`. */
  ghost predicate TableUpTo(code: seq<byte>, pc: nat, table: seq<nat>) {
    && Increasing(table)
    && forall d: nat :: d in table <==> d < pc && ValidDest(code, d)
  }

  /** Synthetic opcodes at instruction starts before `pc` have been replaced, and nothing else. */
  ghost predicate MaskedUpTo(code: seq<byte>, pc: nat, out: seq<byte>) {
    && |out| == |code| + PADDING
    && (forall i :: 0 <= i < |code| ==> out[i] == if i < pc && Synthetic(code[i]) && StartsAt(code, 0, i) then INVALID else code[i])
    && (forall i :: |code| <= i < |out| ==> out[i] == 0)
  }

  /** The scan stands at an instruction start, or past the end. */
  ghost predicate Scanning(code: seq<byte>, pc: nat) {
    if pc < |code| then StartsAt(code, 0, pc) else forall t: nat :: StartsAt(code, 0, t) ==> t < pc
  }

  /** Between an instruction and the next there is no instruction start. */
  lemma ScanStep(code: seq<byte>, pc: nat)
    requires pc < |code| && StartsAt(code, 0, pc)
    ensures Scanning(code, NextPc(code[pc], pc))
    ensures forall t: nat :: pc < t < NextPc(code[pc], pc) ==> !StartsAt(code, 0, t)
  {
    var next := NextPc(code[pc], pc);
    forall t: nat | pc < t ensures StartsAt(code, 0, t) <==> StartsAt(code, next, t) {
      StartsTrans(code, 0, pc, t);
    }
    forall t: nat | StartsAt(code, next, t) ensures next <= t < |code| {
      StartsForward(code, next, t);
    }
    if next < |code| {
      assert StartsAt(code, next, next);
    } else {
      forall t: nat | StartsAt(code, 0, t) ensures t < next {
        StartsForward(code, 0, t);
      }
    }
  }

  lemma TableSkips(code: seq<byte>, pc: nat, table: seq<nat>)
    requires pc < |code| && StartsAt(code, 0, pc) && code[pc] != JUMPDEST && TableUpTo(code, pc, table)
    ensures TableUpTo(code, NextPc(code[pc], pc), table)
  {
    ScanStep(code, pc);
    hide StartsAt;
  }

  lemma TableGrows(code: seq<byte>, pc: nat, table: seq<nat>)
    requires pc < |code| && StartsAt(code, 0, pc) && code[pc] == JUMPDEST && TableUpTo(code, pc, table)
    ensures TableUpTo(code, NextPc(code[pc], pc), table + [pc])
  {
    ScanStep(code, pc);
    hide StartsAt;
    assert NextPc(code[pc], pc) == pc + 1;
    assert forall i :: 0 <= i < |table| ==> table[i] in table;
    forall d: nat ensures d in table + [pc] <==> d < pc + 1 && ValidDest(code, d) {
      assert d in table + [pc] <==> d in table || d == pc;
    }
  }

  lemma MaskStep(code: seq<byte>, pc: nat, out: seq<byte>)
    requires pc < |code| && StartsAt(code, 0, pc) && MaskedUpTo(code, pc, out)
    ensures MaskedUpTo(code, NextPc(code[pc], pc), if Synthetic(code[pc]) then out[pc := INVALID] else out)
  {
    ScanStep(code, pc);
    hide StartsAt, Synthetic;
  }

  class VM {
    var code: array<byte>
    var jumpDests: seq<nat>

    constructor ()
      ensures fresh(code) && jumpDests == []
    {
      code := new byte[0];
      jumpDests := [];
    }

    /** Copies the code with 33 zero bytes behind it. */
    method CopyCode(source: seq<byte>)
      modifies `code
      ensures fresh(code) && code[..] == source + seq(PADDING, _ => 0 as byte)
    {
      code := new byte[|source| + PADDING](i requires 0 <= i < |source| + PADDING => if i < |source| then source[i] else 0);
      assert code[..] == source + seq(PADDING, _ => 0 as byte);
    }

    /** The scan: its table is exactly the valid destinations, in increasing order. */
    method Optimize(source: seq<byte>)
      requires jumpDests == []
      modifies this
      ensures Increasing(jumpDests)
      ensures forall d: nat :: d in jumpDests <==> ValidDest(source, d)
      ensures fresh(code) && MaskedUpTo(source, |source|, code[..])
    {
      CopyCode(source);
      var pc := 0;
      hide StartsAt, ValidDest, Synthetic;
      ScanFromStart(source, code[..]);
      while pc < |source|
        invariant fresh(code) && Scanning(source, pc)
        invariant TableUpTo(source, pc, jumpDests) && MaskedUpTo(source, pc, code[..])
      {
        hide Scanning, TableUpTo, MaskedUpTo;
        pc := Step(source, pc);
      }
      ScanEnds(source, pc, jumpDests, code[..]);
    }

    /** One round of the scan. */
    method Step(source: seq<byte>, pc: nat) returns (next: nat)
      requires pc < |source| && Scanning(source, pc)
      requires TableUpTo(source, pc, jumpDests) && MaskedUpTo(source, pc, code[..])
      modifies `jumpDests, code
      ensures next == NextPc(source[pc], pc) && Scanning(source, next)
      ensures TableUpTo(source, next, jumpDests) && MaskedUpTo(source, next, code[..])
    {
      MaskStep(source, pc, code[..]);
      ScanStep(source, pc);
      OpIs(source, pc, code[..]);
      if source[pc] == JUMPDEST {
        TableGrows(source, pc, jumpDests);
      } else {
        TableSkips(source, pc, jumpDests);
      }
      hide StartsAt, TableUpTo, MaskedUpTo, Scanning, ValidDest;
      var op := code[pc];
      ghost var before := code[..];
      if op == PUSHC || op == JUMPC || op == JUMPCI {
        code[pc] := INVALID;
        assert code[..] == before[pc := INVALID];
      }
      next := pc;
      if op == JUMPDEST {
        jumpDests := jumpDests + [pc];
      } else if PUSH1 <= op && op <= PUSH32 {
        next := next + (op - PUSH1) as nat + 1;
      }
      next := next + 1;
    }

    /** `verifyJumpDest`: the destination if it is in the table and fits, and otherwise an exception or -1. */
    method VerifyJumpDest(dest: nat, throws: bool) returns (r: Option<int>)
      requires Increasing(jumpDests)
      ensures dest <= MAX_DEST && dest in jumpDests ==> r == Some(dest)
      ensures !(dest <= MAX_DEST && dest in jumpDests) ==> r == if throws then None else Some(-1)
    {
      if dest <= MAX_DEST {
        var found := BinarySearch(jumpDests, dest);
        if found {
          return Some(dest);
        }
      }
      if throws {
        return None;
      }
      return Some(-1);
    }
  }

  lemma OpIs(code: seq<byte>, pc: nat, out: seq<byte>)
    requires pc < |code| && MaskedUpTo(code, pc, out)
    ensures out[pc] == code[pc]
  {
  }

  lemma ScanFromStart(code: seq<byte>, out: seq<byte>)
    requires out == code + seq(PADDING, _ => 0 as byte)
    ensures Scanning(code, 0) && TableUpTo(code, 0, []) && MaskedUpTo(code, 0, out)
  {
  }

  lemma ScanEnds(code: seq<byte>, pc: nat, table: seq<nat>, out: seq<byte>)
    requires pc >= |code| && TableUpTo(code, pc, table) && MaskedUpTo(code, pc, out)
    ensures Increasing(table) && forall d: nat :: d in table <==> ValidDest(code, d)
    ensures MaskedUpTo(code, |code|, out)
  {
    hide StartsAt;
  }

  /** Binary search in an increasing table. */
  method BinarySearch(s: seq<nat>, key: nat) returns (found: bool)
    requires Increasing(s)
    ensures found <==> key in s
  {
    var lo: nat, count: nat := 0, |s|;
    while count > 0
      invariant lo + count <= |s|
      invariant forall i :: 0 <= i < lo ==> s[i] < key
      invariant forall i :: lo + count <= i < |s| ==> key <= s[i]
      decreases count
    {
      var half := count / 2;
      if s[lo + half] < key {
        lo := lo + half + 1;
        count := count - half - 1;
      } else {
        count := half;
      }
    }
    found := lo < |s| && s[lo] == key;
  }

  // ------------------------------------------------------------------ consequences

  /** Masking keeps the instruction starts, so the masked code decodes as the original did. */
  lemma {:induction false} MaskKeepsStarts(code: seq<byte>, out: seq<byte>, pc: nat, target: nat)
    requires MaskedUpTo(code, |code|, out) && target < |code|
    ensures StartsAt(out, pc, target) <==> StartsAt(code, pc, target)
    decreases |code| - pc
  {
    if pc < |code| && pc != target {
      assert NextPc(out[pc], pc) == NextPc(code[pc], pc);
      MaskKeepsStarts(code, out, NextPc(code[pc], pc), target);
    } else if pc < |out| && pc != target {
      if StartsAt(out, NextPc(out[pc], pc), target) {
        StartsForward(out, NextPc(out[pc], pc), target);
      }
    }
  }

  /** No synthetic opcode is left where an instruction starts, and every byte that is not one is unchanged. */
  lemma NoSyntheticLeft(code: seq<byte>, out: seq<byte>, pc: nat)
    requires MaskedUpTo(code, |code|, out) && pc < |code| && StartsAt(out, 0, pc)
    ensures !Synthetic(out[pc])
    ensures ValidDest(out, pc) <==> ValidDest(code, pc)
  {
    MaskKeepsStarts(code, out, 0, pc);
  }

  // ----------------------------------------------------- instruction starts, by themselves

  /** How many immediate bytes follow an opcode. */
  function Immediates(op: byte): nat {
    if 0x60 <= op <= 0x7f then op as nat - 0x5f else 0
  }

  /**
   * How far an instruction reaches: none of its immediate bytes is an instruction start, and
   * the byte behind them is, if it lies in the code.
   */
  lemma InstructionReach(code: seq<byte>, pc: nat, i: nat)
    requires pc < |code| && StartsAt(code, 0, pc)
    ensures 0 < i <= Immediates(code[pc]) ==> !StartsAt(code, 0, pc + i)
    ensures pc + Immediates(code[pc]) + 1 < |code| ==> StartsAt(code, 0, pc + Immediates(code[pc]) + 1)
  {
    ScanStep(code, pc);
    hide StartsAt;
  }

  /** Marks on the code: the first byte, and then always the byte behind an instruction and its immediate bytes. */
  ghost predicate MarksStarts(code: seq<byte>, marks: seq<bool>) {
    && |marks| == |code| && (code != [] ==> marks[0])
    && forall pc :: 0 <= pc < |code| && marks[pc] ==> MarksFrom(code, marks, pc)
  }

  ghost predicate MarksFrom(code: seq<byte>, marks: seq<bool>, pc: nat)
    requires |marks| == |code| && pc < |code|
  {
    var n := Immediates(code[pc]);
    && (forall i :: pc < i <= pc + n && i < |code| ==> !marks[i])
    && (pc + n + 1 < |code| ==> marks[pc + n + 1])
  }

  /** There is one way to mark the code so, and it marks the instruction starts. */
  lemma {:induction false} MarksExact(code: seq<byte>, marks: seq<bool>, pc: nat, target: nat)
    requires MarksStarts(code, marks) && pc <= target < |code| && marks[pc]
    ensures marks[target] <==> StartsAt(code, pc, target)
    decreases |code| - pc
  {
    assert MarksFrom(code, marks, pc);
    var next := pc + Immediates(code[pc]) + 1;
    assert NextPc(code[pc], pc) == next;
    if pc < target {
      if next <= target {
        MarksExact(code, marks, next, target);
      } else if StartsAt(code, next, target) {
        StartsForward(code, next, target);
      }
    }
  }

  /** A JUMPDEST byte is a valid destination if and only if it is no immediate byte of an instruction. */
  lemma DestExact(code: seq<byte>, dest: nat)
    ensures ValidDest(code, dest) <==>
            && dest < |code| && code[dest] == 0x5b
            && forall pc :: 0 <= pc < dest && StartsAt(code, 0, pc) ==> dest > pc + Immediates(code[pc])
  {
    if dest < |code| {
      forall pc | 0 <= pc < dest && StartsAt(code, 0, pc) && dest <= pc + Immediates(code[pc]) ensures !StartsAt(code, 0, dest) {
        InstructionReach(code, pc, dest - pc);
      }
      if forall pc :: 0 <= pc < dest && StartsAt(code, 0, pc) ==> dest > pc + Immediates(code[pc]) {
        ReachesDest(code, dest, 0);
      }
    }
  }

  lemma {:induction false} ReachesDest(code: seq<byte>, dest: nat, pc: nat)
    requires pc <= dest < |code| && StartsAt(code, 0, pc)
    requires forall p :: 0 <= p < dest && StartsAt(code, 0, p) ==> dest > p + Immediates(code[p])
    ensures StartsAt(code, 0, dest)
    decreases dest - pc
  {
    if pc < dest {
      InstructionReach(code, pc, 1);
      ReachesDest(code, dest, pc + Immediates(code[pc]) + 1);
    }
  }

  /** The masked code, byte by byte: 0xac, 0xad and 0xae at instruction starts have become 0xfe, and 33 zeros follow. */
  lemma MaskedBytes(code: seq<byte>, out: seq<byte>, i: nat)
    requires MaskedUpTo(code, |code|, out) && i < |out|
    ensures |out| == |code| + 33
    ensures out[i] == if i >= |code| then 0 else if code[i] in {0xac, 0xad, 0xae} && StartsAt(code, 0, i) then 0xfe else code[i]
  {
    hide StartsAt;
  }

  /** A JUMPDEST byte in the data of a PUSH1 is refused; behind it, it is accepted. */
  method PushDataExample() returns (refused: Option<int>, accepted: Option<int>)
    ensures refused == None && accepted == Some(2)
  {
    var code: seq<byte> := [0x60, 0x5b, 0x5b];
    assert !StartsAt(code, 0, 1) by { assert NextPc(code[0], 0) == 2; }
    assert StartsAt(code, 0, 2) by { assert NextPc(code[0], 0) == 2; }
    refused := Jump(code, 1);
    accepted := Jump(code, 2);
  }

  /** Jumps go exactly to the valid destinations that fit in 63 bits. */
  method Jump(source: seq<byte>, dest: nat) returns (r: Option<int>)
    ensures r.Some? <==> dest < 0x8000_0000_0000_0000 && ValidDest(source, dest)
    ensures r.Some? ==> r.value == dest
  {
    var vm := new VM();
    vm.Optimize(source);
    r := vm.VerifyJumpDest(dest, true);
  }
}
