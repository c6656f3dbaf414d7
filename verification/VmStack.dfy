/**
 * The operand stack of the virtual machine.  It grows downwards in a fixed array, and
 * each instruction reads its arguments at `sp` and writes its results at `spp`.
 */
module VmStack {
  import opened Words

  const LIMIT := 1024

  class Stack {
    const cells: array<nat>
    var sp: int
    var spp: int

    /** Every cell is a word, and the stack pointer lies in the array. */
    ghost predicate Valid()
      reads this, cells
    {
      && cells.Length == LIMIT && 0 <= spp <= LIMIT
      && forall i :: 0 <= i < LIMIT ==> Word(cells[i])
    }

    /** The operands, top first. */
    ghost function Operands(): seq<nat>
      requires Valid()
      reads this, cells
    {
      cells[spp..]
    }

    constructor ()
      ensures Valid() && fresh(cells) && Operands() == []
    {
      cells := new nat[LIMIT](_ => 0);
      sp, spp := LIMIT, LIMIT;
    }

    /**
     * Makes room for an instruction that takes `removed` operands and gives `added`.
     * It fails exactly on underflow or overflow.
     */
    method AdjustStack(removed: nat, added: nat) returns (ok: bool)
      requires Valid()
      modifies `sp, `spp
      ensures ok <==> removed <= old(|Operands()|) && old(|Operands()|) - removed + added <= 1024
      ensures sp == old(spp)
      ensures ok ==> Valid() && |Operands()| == old(|Operands()|) - removed + added
    {
      sp := spp;
      spp := spp + removed;
      if LIMIT < spp {
        return false;
      }
      spp := spp - added;
      if spp < 0 {
        return false;
      }
      ok := true;
    }

    /** SAR: two operands give one, the second shifted right arithmetically by the first. */
    method ShiftArithmeticRight(haveBitwiseShifting: bool) returns (ok: bool)
      requires Valid()
      modifies this, cells
      ensures ok <==> old(|Operands()|) >= 2 && haveBitwiseShifting
      ensures ok ==> Valid() && Operands() == [ShiftedRight(old(Operands())[0], old(Operands())[1])] + old(Operands())[2..]
    {
      hide Word, ShiftedRight;
      ok := AdjustStack(2, 1);
      if !haveBitwiseShifting {
        return false;
      }
      if ok {
        var amount, shiftee := cells[sp], cells[sp + 1];
        SarIsFloorDivision(amount, shiftee);
        cells[spp] := Sar(amount, shiftee);
      }
    }

    /** SIGNEXTEND: two operands give one, the second extended from the byte the first names. */
    method ExtendSign() returns (ok: bool)
      requires Valid()
      modifies this, cells
      ensures ok <==> old(|Operands()|) >= 2
      ensures ok ==> Valid() && Operands() == [SignExtended(old(Operands())[0], old(Operands())[1])] + old(Operands())[2..]
    {
      hide Word, SignExtended;
      ok := AdjustStack(2, 1);
      if ok {
        var k, number := cells[sp], cells[sp + 1];
        SignExtendIsSigned(k, number);
        SignExtendedWord(k, number);
        if k < 31 {
          cells[sp + 1] := SignExtend(k, number);
        }
      }
    }
  }
}
