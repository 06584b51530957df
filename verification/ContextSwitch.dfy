/** The processor state a context switch touches, and the two assembly routines
    as transitions on registers and stack memory. */
module ContextSwitch {
  import opened Machine

  /** Code addresses that end up in return slots. Only their being different matters. */
  const YIELD_RETURN: Word := 0x1_1000
  const TRAMPOLINE: Word := 0x1_2000
  const HALT: Word := 0x1_3000

  /** Memory after the callee-saved registers went below `sp`. */
  function SavedCells(cells: Cells, sp: int, ebx: Word, esi: Word, edi: Word, ebp: Word): Cells
    requires Populated(cells) && 16 <= sp <= ADDRESS_SPACE
  {
    cells[sp - 4 := ebp][sp - 8 := edi][sp - 12 := esi][sp - 16 := ebx]
  }

  /** The words from `sp` up are a switch frame with these registers and return address. */
  ghost predicate HoldsFrame(cells: Cells, sp: int, ebx: Word, esi: Word, edi: Word, ebp: Word, ret: Word) {
    && Populated(cells) && 0 <= sp && sp + 20 <= ADDRESS_SPACE
    && cells[sp] == ebx && cells[sp + 4] == esi && cells[sp + 8] == edi && cells[sp + 12] == ebp
    && cells[sp + 16] == ret
  }

  /** Reading back what `context_switch` saved: the registers and, above them, the return address. */
  lemma SavedHolds(cells: Cells, sp: int, ebx: Word, esi: Word, edi: Word, ebp: Word)
    requires Populated(cells) && 16 <= sp && sp + 4 <= ADDRESS_SPACE
    ensures var saved := SavedCells(cells, sp, ebx, esi, edi, ebp);
      && Populated(saved) && HoldsFrame(saved, sp - 16, ebx, esi, edi, ebp, cells[sp])
      && forall x :: 0 <= x < ADDRESS_SPACE && !(sp - 16 <= x < sp) ==> saved[x] == cells[x]
  {
  }

  class Cpu {
    const ram: Ram
    var eax: Word
    var edx: Word
    var ebx: Word
    var esi: Word
    var edi: Word
    var ebp: Word
    var esp: int
    var eip: Word
    var interrupts: bool

    ghost predicate Valid()
      reads this, ram
    {
      ram.Valid() && Multiple(4, esp) && 0 <= esp <= ADDRESS_SPACE
    }

    constructor (ram: Ram, esp: int)
      requires ram.Valid() && Multiple(4, esp) && 0 <= esp <= ADDRESS_SPACE
      ensures this.ram == ram && Valid() && this.esp == esp && !interrupts
    {
      this.ram, this.esp := ram, esp;
      eax, edx, ebx, esi, edi, ebp, eip, interrupts := 0, 0, 0, 0, 0, 0, 0, false;
    }

    method Push(w: Word)
      requires Valid() && 4 <= esp
      modifies this`esp, ram
      ensures Valid() && esp == old(esp) - 4 && ram.cells == old(ram.cells)[esp := w]
    {
      MultipleDifference(4, esp, 4);
      esp := esp - 4;
      ram.Write(esp, w);
    }

    method Pop() returns (w: Word)
      requires Valid() && esp + 4 <= ADDRESS_SPACE
      modifies this`esp
      ensures Valid() && esp == old(esp) + 4 && w == ram.cells[old(esp)]
    {
      w := ram.Read(esp);
      MultipleSum(4, esp, 4);
      esp := esp + 4;
    }

    /** The four pushes of `context_switch`. */
    method PushCalleeSaved()
      requires Valid() && 16 <= esp
      modifies this`esp, ram
      ensures Valid() && esp == old(esp) - 16
      ensures ram.cells == SavedCells(old(ram.cells), old(esp), ebx, esi, edi, ebp)
    {
      hide Multiple;
      Push(ebp);
      Push(edi);
      Push(esi);
      Push(ebx);
    }

    /** The four pops and the `ret` of `context_switch`. */
    method PopCalleeSaved()
      requires Valid() && esp + 20 <= ADDRESS_SPACE
      modifies this
      ensures Valid() && esp == old(esp) + 20 && interrupts == old(interrupts)
      ensures HoldsFrame(ram.cells, old(esp), ebx, esi, edi, ebp, eip)
    {
      hide Multiple;
      ebx := Pop();
      esi := Pop();
      edi := Pop();
      ebp := Pop();
      eip := Pop();
    }

    /** `context_switch`: on entry the stack holds the return address, the address
        `park` to leave the stack pointer at, and the address `load` to take the next one from. */
    method ContextSwitch(ghost park: int, ghost load: int, ghost target: int)
      requires Valid() && 16 <= esp && esp + 12 <= ADDRESS_SPACE
      requires 0 <= park < ADDRESS_SPACE && 0 <= load < ADDRESS_SPACE
      requires ram.cells[esp + 4] == park && ram.cells[esp + 8] == load && ram.cells[load] == target
      requires Multiple(4, park) && Multiple(4, load) && Multiple(4, target) && target + 20 <= ADDRESS_SPACE
      requires load != park && !(esp - 16 <= park < esp) && !(esp - 16 <= load < esp)
      modifies this, ram
      ensures Valid() && interrupts == old(interrupts) && esp == target + 20
      ensures ram.cells ==
        SavedCells(old(ram.cells), old(esp), old(ebx), old(esi), old(edi), old(ebp))[park := old(esp) - 16]
      ensures HoldsFrame(ram.cells, target, ebx, esi, edi, ebp, eip)
    {
      assert Multiple(4, 4);
      hide Multiple;
      MultipleSum(4, esp, 4);
      MultipleSum(4, esp + 4, 4);
      eax := ram.Read(esp + 4);
      edx := ram.Read(esp + 8);
      PushCalleeSaved();
      ram.Write(eax, esp);
      esp := ram.Read(edx);
      PopCalleeSaved();
    }

    /** `task_trampoline`: takes the entry pointer off the stack and calls it. */
    method TaskTrampoline()
      requires Valid() && 12 <= esp && esp + 4 <= ADDRESS_SPACE
      modifies this, ram
      ensures Valid() && eip == old(ram.cells)[old(esp)] && esp == old(esp) - 12
      ensures ram.cells == old(ram.cells)[esp := HALT]
      ensures ebx == old(ebx) && esi == old(esi) && edi == old(edi) && ebp == old(ebp) && interrupts == old(interrupts)
    {
      hide Multiple;
      eax := Pop();
      assert Multiple(4, 12) by { MultipleOf4(3); }
      MultipleDifference(4, esp, 12);
      esp := esp - 12;
      Push(HALT);
      eip := eax;
    }
  }
}
