/** What `execInstr` and `clock` do, instruction by instruction, stated
    over the value model of semantics.dfy: first what each case does to the
    accumulator word, then what each case of the `switch (inst)` does to the
    whole state, then fetching and two programs run through the decoder. */
module ExecProperties {
  import opened Words
  import opened Decoder
  import opened Semantics

  // ---- the accumulator word ----

  /** Adding and then subtracting the same operand gives the accumulator
      back, modulo 2^32. */
  lemma AddThenSubWord(acc: bv32, imm: bv32, isImm: bool)
    ensures Alu(Sub, Alu(Add, acc, imm, isImm), imm, isImm) == acc
  {
    AddThenSub(acc, imm);
  }

  /** The arithmetic shift followed by the `0x7FFFFFFF` mask is a logical
      shift right by one: bit 31 of the result is 0. */
  lemma ShrWord(acc: bv32, imm: bv32, isImm: bool)
    ensures Alu(Shr, acc, imm, isImm) == acc >> 1
    ensures Alu(Shr, acc, imm, isImm) < 0x8000_0000
  {
  }

  /** Immediate `and`: bits 8-31 kept, bits 0-7 combined with the operand. */
  lemma AndImmediateWord(acc: bv32, imm: bv32)
    ensures Alu(And, acc, imm, true) & 0xFFFF_FF00 == acc & 0xFFFF_FF00
    ensures Alu(And, acc, imm, true) & 0xFF == (acc & imm) & 0xFF
  {
  }

  /** Immediate `or`: bits 8-31 kept, bits 0-7 combined with the operand. */
  lemma OrImmediateWord(acc: bv32, imm: bv32)
    ensures Alu(Or, acc, imm, true) & 0xFFFF_FF00 == acc & 0xFFFF_FF00
    ensures Alu(Or, acc, imm, true) & 0xFF == (acc | imm) & 0xFF
  {
  }

  /** Immediate `xor`: bits 8-31 kept, bits 0-7 combined with the operand. */
  lemma XorImmediateWord(acc: bv32, imm: bv32)
    ensures Alu(Xor, acc, imm, true) & 0xFFFF_FF00 == acc & 0xFFFF_FF00
    ensures Alu(Xor, acc, imm, true) & 0xFF == (acc ^ imm) & 0xFF
  {
  }

  /** The register forms of `and`, `or` and `xor` act on the whole word. */
  lemma LogicRegisterWord(inst: Instr, acc: bv32, imm: bv32)
    requires inst == And || inst == Or || inst == Xor
    ensures Alu(inst, acc, imm, false) ==
      match inst case And => acc & imm case Or => acc | imm case _ => acc ^ imm
  {
    match inst
    case And =>
    case Or =>
    case Xor =>
  }

  /** `loadh` keeps the low 8 bits of the accumulator and puts the low 24
      bits of the operand above them. */
  lemma LoadhWord(acc: bv32, imm: bv32, isImm: bool)
    ensures var r := Alu(Loadh, acc, imm, isImm);
      r & 0xFF == acc & 0xFF && r >> 8 == imm & 0xFF_FFFF
  {
  }

  /** `loadh2` keeps the low 16 bits of the accumulator and puts the low 16
      bits of the operand above them. */
  lemma Loadh2Word(acc: bv32, imm: bv32, isImm: bool)
    ensures var r := Alu(Loadh2, acc, imm, isImm);
      r & 0xFFFF == acc & 0xFFFF && r >> 16 == imm & 0xFFFF
  {
  }

  /** `loadh3` keeps the low 24 bits of the accumulator and puts the low 8
      bits of the operand above them. */
  lemma Loadh3Word(acc: bv32, imm: bv32, isImm: bool)
    ensures var r := Alu(Loadh3, acc, imm, isImm);
      r & 0xFF_FFFF == acc & 0xFF_FFFF && r >> 24 == imm & 0xFF
  {
  }

  /** The branch conditions on the bits of the accumulator: `brp` and `brn`
      test the sign bit, as `m_acc >= 0` and `m_acc < 0` do on an `int32_t`. */
  lemma TakenBits(inst: Instr, acc: bv32)
    ensures Taken(inst, acc) ==
      match inst
      case Br => true
      case Brz => acc == 0
      case Brnz => acc != 0
      case Brp => acc < 0x8000_0000
      case Brn => acc >= 0x8000_0000
      case _ => false
  {
  }

  /** The branch offset is the 11-bit field sign-extended and doubled: bit 0
      is 0, bits 1-11 are the field, bits 12-31 copy its sign (bit 10). */
  lemma BranchOffsetBits(instr: bv16)
    ensures BranchOffset(instr) & 1 == 0
    ensures (BranchOffset(instr) >> 1) & 0xFF == Low(instr) as bv32
    ensures (BranchOffset(instr) >> 9) & 7 == (Opcode(instr) & 7) as bv32
    ensures BranchOffset(instr) >> 12 == if Opcode(instr) & 4 == 0 then 0 else 0xF_FFFF
  {
  }

  /** Widening the stored `uint8_t` back to a word keeps exactly the low byte. */
  lemma LowByteWidens(w: bv32)
    ensures LowByte(w) as bv32 == w & 0xFF
  {
  }

  /** Two steps of `ILEN` are four bytes. */
  lemma TwoSteps(pc: bv32)
    ensures Add32(Add32(pc, ILen), ILen) == Add32(pc, 4)
  {
  }

  // ---- the whole state, case by case ----

  /** `getImmediate` with bit 8 clear: the register named by the low byte. */
  lemma OperandRegister(m: Machine, instr: bv16)
    requires !IsImmediate(instr)
    ensures Operand(m, instr) == m.regs[Low(instr) as int]
  {
  }

  /** `getImmediate` with bit 8 set: the low byte, with bits 8-31 copies of
      its bit 7. */
  lemma OperandImmediate(m: Machine, instr: bv16)
    requires IsImmediate(instr)
    ensures Operand(m, instr) & 0xFF == Low(instr) as bv32
    ensures Operand(m, instr) >> 8 == if Low(instr) < 0x80 then 0 else 0xFF_FFFF
  {
  }

  /** `nop`, `unknown`, `unused`, `out`, `in` and `store` with an immediate
      operand only add `ILEN` to the pc: `unused` is an empty case, and the
      string-literal asserts of `out`, `in` and the immediate `store` never
      fire. */
  lemma OnlyPcAdvances(m: Machine, instr: bv16, inst: Instr, exitOnJalRA: bool)
    requires inst == Nop || inst == Unknown || inst == Unused || inst == Out
          || inst == In || (inst == Store && IsImmediate(instr))
    ensures Execute(m, instr, inst, exitOnJalRA) == Outcome(m.(pc := Add32(m.pc, ILen)), AllOk)
  {
  }

  /** The arithmetic, logic and `loadh` cases change only the accumulator,
      to their word operation on it and the operand, and add `ILEN` to the
      pc; none of them stops the simulator. */
  lemma AluCasesChangeOnlyAcc(m: Machine, instr: bv16, inst: Instr, exitOnJalRA: bool)
    requires inst == Add || inst == Sub || inst == Load || inst == And || inst == Or
          || inst == Xor || inst == Loadh || inst == Loadh2 || inst == Loadh3
    ensures Execute(m, instr, inst, exitOnJalRA) ==
      Outcome(m.(acc := Alu(inst, m.acc, Operand(m, instr), IsImmediate(instr)),
                 pc := Add32(m.pc, ILen)), AllOk)
  {
  }

  /** `load` sets the accumulator to the operand and changes nothing else
      but the pc. */
  lemma LoadSetsAcc(m: Machine, instr: bv16, exitOnJalRA: bool)
    ensures Execute(m, instr, Load, exitOnJalRA) ==
      Outcome(m.(acc := Operand(m, instr), pc := Add32(m.pc, ILen)), AllOk)
  {
  }

  /** `add` and `sub` change only the accumulator, to the sum or the
      difference with the operand modulo 2^32, and the pc. */
  lemma AddSubSetAcc(m: Machine, instr: bv16, exitOnJalRA: bool)
    ensures Execute(m, instr, Add, exitOnJalRA) ==
      Outcome(m.(acc := Add32(m.acc, Operand(m, instr)), pc := Add32(m.pc, ILen)), AllOk)
    ensures Execute(m, instr, Sub, exitOnJalRA) ==
      Outcome(m.(acc := Sub32(m.acc, Operand(m, instr)), pc := Add32(m.pc, ILen)), AllOk)
  {
  }

  /** `add` followed by `sub` of the same operand gives back the accumulator
      and the rest of the state, with the pc 4 further on. */
  lemma AddThenSubRestores(m: Machine, add: bv16, sub: bv16, exitOnJalRA: bool)
    requires Low(add) == Low(sub) && IsImmediate(add) == IsImmediate(sub)
    ensures Execute(m, add, Add, exitOnJalRA).ret == AllOk
    ensures Execute(Execute(m, add, Add, exitOnJalRA).m, sub, Sub, exitOnJalRA) ==
      Outcome(m.(pc := Add32(m.pc, 4)), AllOk)
  {
    var m1 := Execute(m, add, Add, exitOnJalRA).m;
    assert Operand(m1, sub) == Operand(m, add);
    AddThenSubWord(m.acc, Operand(m, add), IsImmediate(add));
    TwoSteps(m.pc);
  }

  /** `shr` aborts on the real `assert(imm < XLen)`, changing nothing,
      exactly when the operand read as an `int32_t` is 32 or more: a
      negative operand passes. */
  lemma ShrAssert(m: Machine, instr: bv16, exitOnJalRA: bool)
    ensures Execute(m, instr, Shr, exitOnJalRA).ret == ShrAssertFailed <==>
      SInt(Operand(m, instr)) >= 32
    ensures SInt(Operand(m, instr)) >= 32 ==>
      Execute(m, instr, Shr, exitOnJalRA) == Outcome(m, ShrAssertFailed)
  {
  }

  /** Past its assert, `shr` shifts the accumulator right by one with a 0
      entering at bit 31, whatever the operand, and changes nothing else but
      the pc. */
  lemma ShrIsLogicalShift(m: Machine, instr: bv16, exitOnJalRA: bool)
    requires SInt(Operand(m, instr)) < 32
    ensures Execute(m, instr, Shr, exitOnJalRA) ==
      Outcome(m.(acc := m.acc >> 1, pc := Add32(m.pc, ILen)), AllOk)
  {
    ShrWord(m.acc, Operand(m, instr), IsImmediate(instr));
  }

  /** `store` with bit 8 clear writes the accumulator to the register named
      by the low byte, adds it to the modified set, and changes nothing else
      but the pc. */
  lemma StoreWritesRegister(m: Machine, instr: bv16, exitOnJalRA: bool)
    requires !IsImmediate(instr)
    ensures var o := Execute(m, instr, Store, exitOnJalRA);
      var r := Low(instr) as int;
      o.ret == AllOk && o.m.regs[r] == m.acc &&
      (forall j :: 0 <= j < 256 && j != r ==> o.m.regs[j] == m.regs[j]) &&
      o.m.modified == m.modified + {r} &&
      o.m == m.(regs := o.m.regs, modified := o.m.modified, pc := Add32(m.pc, ILen))
  {
  }

  /** `jal` writes its own pc (not pc + 2) to the register named by the low
      byte, marks it modified and jumps to the accumulator; with
      `exitOnJalRA` and register 0 it returns `JAL_RA_EXIT` and changes
      nothing. */
  lemma JalLinks(m: Machine, instr: bv16, exitOnJalRA: bool)
    ensures var o := Execute(m, instr, Jal, exitOnJalRA);
      var r := Low(instr) as int;
      if r == 0 && exitOnJalRA then o == Outcome(m, JalRaExit)
      else
        o.ret == AllOk && o.m.regs[r] == m.pc && o.m.pc == m.acc &&
        (forall j :: 0 <= j < 256 && j != r ==> o.m.regs[j] == m.regs[j]) &&
        o.m == m.(regs := o.m.regs, modified := m.modified + {r}, pc := m.acc)
  {
  }

  /** `br` always adds the offset to the pc; `brz`, `brnz`, `brp` and `brn`
      add it exactly when the accumulator is zero, non-zero, non-negative or
      negative as an `int32_t` (bit 31 clear or set), and otherwise add
      `ILEN`. Nothing else changes. */
  lemma BranchTakenIff(m: Machine, instr: bv16, inst: Instr, exitOnJalRA: bool)
    requires inst == Br || inst == Brz || inst == Brnz || inst == Brp || inst == Brn
    ensures var taken := match inst
        case Br => true
        case Brz => m.acc == 0
        case Brnz => m.acc != 0
        case Brp => m.acc < 0x8000_0000
        case _ => m.acc >= 0x8000_0000;
      Execute(m, instr, inst, exitOnJalRA) ==
        Outcome(m.(pc := if taken then Add32(m.pc, BranchOffset(instr)) else Add32(m.pc, ILen)), AllOk)
  {
    TakenBits(inst, m.acc);
  }

  /** Every instruction other than `jal` and the branches either ends with
      `m_pc += ILEN` or stops the simulator and changes nothing. */
  lemma DefaultPcStep(m: Machine, instr: bv16, inst: Instr, exitOnJalRA: bool)
    requires inst != Jal && !inst.Br? && !inst.Brz? && !inst.Brnz? && !inst.Brp? && !inst.Brn?
    ensures var o := Execute(m, instr, inst, exitOnJalRA);
      (o.ret == AllOk ==> o.m.pc == Add32(m.pc, ILen)) && (o.ret != AllOk ==> o.m == m)
  {
  }

  /** `ldaddr` copies the register named by the low byte into `addr`,
      whether or not bit 8 is set. */
  lemma LdaddrSetsAddr(m: Machine, instr: bv16, exitOnJalRA: bool)
    ensures Execute(m, instr, Ldaddr, exitOnJalRA) ==
      Outcome(m.(addr := m.regs[Low(instr) as int], pc := Add32(m.pc, ILen)), AllOk)
  {
  }

  /** `loadind` sets the accumulator to the byte at `addr + sext8(instr)`
      modulo 2^32, zero-extended (0 for an address never written), and
      inserts that address into the memory map if it was missing; the
      contents of memory do not change. */
  lemma LoadindReadsByte(m: Machine, instr: bv16, exitOnJalRA: bool, a: nat)
    ensures IndAddr(m, instr) == Add32(m.addr, Sext8(Low(instr))) as int
    ensures var o := Execute(m, instr, Loadind, exitOnJalRA);
      o.ret == AllOk && o.m.acc == Read(m.mem, IndAddr(m, instr)) as bv32 &&
      o.m.acc < 0x100 && IndAddr(m, instr) in o.m.mem &&
      Read(o.m.mem, a) == Read(m.mem, a) &&
      o.m == m.(acc := o.m.acc, mem := o.m.mem, pc := Add32(m.pc, ILen))
  {
  }

  /** `storeind` writes the low byte of the accumulator at
      `addr + sext8(instr)` modulo 2^32, byte-wide and unscaled, and leaves
      every other address as it was. */
  lemma StoreindWritesByte(m: Machine, instr: bv16, exitOnJalRA: bool, a: nat)
    ensures var o := Execute(m, instr, Storeind, exitOnJalRA);
      o.ret == AllOk && o.m == m.(mem := o.m.mem, pc := Add32(m.pc, ILen)) &&
      Read(o.m.mem, a) == if a == IndAddr(m, instr) then LowByte(m.acc) else Read(m.mem, a)
  {
  }

  /** `storeind` then `loadind` with the same displacement and an unchanged
      `addr` reads back the low byte of the accumulator, zero-extended. */
  lemma StoreindThenLoadind(m: Machine, st: bv16, ld: bv16, exitOnJalRA: bool)
    requires Low(st) == Low(ld)
    ensures Execute(Execute(m, st, Storeind, exitOnJalRA).m, ld, Loadind, exitOnJalRA).m.acc
      == m.acc & 0xFF
  {
    var m1 := Execute(m, st, Storeind, exitOnJalRA).m;
    StoreindWritesByte(m, st, exitOnJalRA, IndAddr(m, st));
    assert IndAddr(m1, ld) == IndAddr(m, st);
    LoadindReadsByte(m1, ld, exitOnJalRA, 0);
    LowByteWidens(m.acc);
  }

  // ---- fetching and running ----

  /** No instruction returns the code that `clock` reserves for running past
      the text. */
  lemma ExecuteNeverPastText(m: Machine, instr: bv16, inst: Instr, exitOnJalRA: bool)
    ensures Execute(m, instr, inst, exitOnJalRA).ret != PastText
  {
  }

  /** `clock` returns 1 for running past the text exactly when the pc is
      past `m_textSize`, and then executes nothing: the only change is the
      two fetched bytes entered into `m_mem`. A pc equal to `m_textSize`
      still executes. */
  lemma ClockPastText(m: Machine, textSize: int, exitOnJalRA: bool)
    ensures Clock(m, textSize, exitOnJalRA).ret == PastText <==> m.pc as int > textSize
    ensures m.pc as int > textSize ==>
      Clock(m, textSize, exitOnJalRA).m == m.(mem := Touch(Touch(m.mem, m.pc as int), Add32(m.pc, 1) as int))
  {
    var fetched := m.(mem := Touch(Touch(m.mem, m.pc as int), Add32(m.pc, 1) as int));
    var instr := Fetch(m.mem, m.pc);
    ExecuteNeverPastText(fetched, instr, Table(Opcode(instr)), exitOnJalRA);
  }

  /** The fetched word has the byte at `pc + 1` as its opcode and the byte at
      `pc` as its low byte. */
  lemma FetchLittleEndian(mem: map<nat, bv8>, pc: bv32)
    ensures Opcode(Fetch(mem, pc)) == Read(mem, Add32(pc, 1) as int)
    ensures Low(Fetch(mem, pc)) == Read(mem, pc as int)
  {
  }

  /** The all-zero word, which `clock` fetches from unwritten memory, decodes
      to `in` and so only advances the pc. */
  lemma ZeroWordOnlyAdvances(m: Machine, exitOnJalRA: bool)
    ensures Exec(m, 0, exitOnJalRA) == Outcome(m.(pc := Add32(m.pc, ILen)), AllOk)
  {
    assert Table(Opcode(0)) == In;
    OnlyPcAdvances(m, 0, In, exitOnJalRA);
  }

  /** `load 0x34` (word 0x2134) sets the accumulator to 0x34. */
  lemma LoadImmediate34(m: Machine, exitOnJalRA: bool)
    ensures Exec(m, 0x2134, exitOnJalRA).m.acc == 0x34
  {
    assert Table(Opcode(0x2134)) == Load;
    LoadSetsAcc(m, 0x2134, exitOnJalRA);
    assert Operand(m, 0x2134) == Sext8(0x34) == 0x34;
  }

  /** `loadh 0x12` (word 0x2912) on an accumulator of 0x34 gives 0x1234. */
  lemma LoadhImmediate12(m: Machine, exitOnJalRA: bool)
    requires m.acc == 0x34
    ensures Exec(m, 0x2912, exitOnJalRA).m.acc == 0x1234
  {
    assert Table(Opcode(0x2912)) == Loadh;
    AluCasesChangeOnlyAcc(m, 0x2912, Loadh, exitOnJalRA);
    assert Operand(m, 0x2912) == Sext8(0x12) == 0x12;
    assert Alu(Loadh, 0x34, 0x12, true) == 0x1234;
  }

  /** `load 0x34` then `loadh 0x12` leaves 0x1234 in the accumulator. */
  lemma LoadThenLoadh(m: Machine, exitOnJalRA: bool)
    ensures Exec(Exec(m, 0x2134, exitOnJalRA).m, 0x2912, exitOnJalRA).m.acc == 0x1234
  {
    LoadImmediate34(m, exitOnJalRA);
    LoadhImmediate12(Exec(m, 0x2134, exitOnJalRA).m, exitOnJalRA);
  }
}
