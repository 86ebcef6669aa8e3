/** `class LerosSim` of leros-sim.cpp (32-bit build) with its fields updated
    in place. Every method is proved to change the state exactly as the
    value model of semantics.dfy says. */
module Simulator {
  import opened Words
  import opened Decoder
  import opened Semantics

  class LerosSim {
    var acc: bv32                  // m_acc
    var addr: bv32                 // m_addr
    var pc: bv32                   // m_pc
    const reg: array<bv32>         // m_reg
    var mem: map<nat, bv8>         // m_mem
    var modifiedRegs: set<nat>     // m_modifiedRegs
    const textSize: int            // m_textSize
    const exitOnJalRA: bool        // m_options.exitOnJalRA

    ghost predicate Valid()
      reads this
    {
      reg.Length == 256
    }

    /** The fields as a `Machine` value. */
    ghost function State(): Machine
      requires Valid()
      reads this, reg
    {
      Machine(acc, addr, pc, reg[..], mem, modifiedRegs)
    }

    /** The constructor for a raw binary: the bytes of `image` at addresses
        0 onward and `m_textSize` its length, then `reset()`, then every
        entry of `initRegState` written to its register. */
    constructor(image: seq<bv8>, initRegState: map<nat, bv32>, exitOnJalRA: bool)
      requires forall r :: r in initRegState ==> r < 256
      ensures Valid() && fresh(reg)
      ensures State() == Initial(image, initRegState)
      ensures textSize == |image| && this.exitOnJalRA == exitOnJalRA
    {
      var loaded := map[];
      var i := 0;
      while i < |image|
        invariant 0 <= i <= |image|
        invariant loaded == map a | 0 <= a < i :: image[a]
      {
        loaded := loaded[i := image[i]];
        i := i + 1;
      }
      reg := new bv32[256];
      mem := loaded;
      modifiedRegs := {};
      textSize := |image|;
      this.exitOnJalRA := exitOnJalRA;
      new;
      Reset();
      LoadRegState(initRegState);
      assert reg[..] == Initial(image, initRegState).regs;
    }

    /** The loop over `opt.initRegState` at the end of the constructor: each
        entry is written to its register, the others keep their value. */
    method LoadRegState(initRegState: map<nat, bv32>)
      requires Valid()
      requires forall r :: r in initRegState ==> r < 256
      modifies reg
      ensures forall j :: 0 <= j < 256 ==>
        reg[j] == if j in initRegState then initRegState[j] else old(reg[j])
    {
      var todo := initRegState.Keys;
      while todo != {}
        invariant todo <= initRegState.Keys
        invariant forall j :: 0 <= j < 256 ==>
          reg[j] == if j in initRegState && j !in todo then initRegState[j] else old(reg[j])
        decreases |todo|
      {
        var r :| r in todo;
        reg[r] := initRegState[r];
        todo := todo - {r};
      }
    }

    /** `reset`: all registers, the accumulator, `addr` and the pc to 0;
        memory and the modified set stay as they are. */
    method Reset()
      requires Valid()
      modifies this, reg
      ensures Valid()
      ensures State() == old(State()).(acc := 0, addr := 0, pc := 0, regs := seq(256, _ => 0))
    {
      for i := 0 to 256
        modifies reg
        invariant forall j :: 0 <= j < i ==> reg[j] == 0
      {
        reg[i] := 0;
      }
      acc := 0;
      addr := 0;
      pc := 0;
      assert reg[..] == seq(256, _ => 0);
    }

    /** `isModified`: register `r` has been written by `store` or `jal`. */
    method IsModified(r: nat) returns (b: bool)
      requires Valid()
      ensures b <==> r in State().modified
    {
      b := r in modifiedRegs;
    }

    /** `getImmediate`: the register named by the low byte, or the low byte
        sign-extended when `isImmediate`. */
    method GetImmediate(instr: bv16, isImmediate: bool) returns (imm: bv32)
      requires Valid()
      ensures isImmediate == IsImmediate(instr) ==> imm == Operand(State(), instr)
      ensures !isImmediate ==> imm == reg[Low(instr) as int]
      ensures isImmediate ==> imm == Sext8(Low(instr))
    {
      if !isImmediate {
        imm := reg[instr & 0xFF];
      } else {
        imm := Sext8((instr & 0xFF) as bv8);
      }
    }

    /** `execInstr`: compute the operand fields, decode the opcode byte and
        carry out the `switch (inst)`, one method per case below. */
    method ExecInstr(instr: bv16) returns (ret: Ret)
      requires Valid()
      modifies this, reg
      ensures Valid()
      ensures Outcome(State(), ret) == Exec(old(State()), instr, exitOnJalRA)
    {
      var isImmediate := instr & 0x100 != 0;
      var imm := GetImmediate(instr, isImmediate);
      var uImmRaw := (instr & 0xFF) as bv8;
      var simm8 := Sext8(uImmRaw);
      var simm11lsb0 := BranchOffset(instr);
      var upperInstr := ((instr >> 8) & 0xFF) as bv8;
      var inst := DecodeInstr(upperInstr);
      assert upperInstr == Opcode(instr);
      match inst {
        case Add | Sub | Load | And | Or | Xor | Loadh | Loadh2 | Loadh3 =>
          AluInstr(instr, inst, isImmediate, imm);
          ret := AllOk;
        case Shr =>
          ret := ShrInstr(instr, imm);
        case Store =>
          StoreInstr(instr, isImmediate, uImmRaw);
          ret := AllOk;
        case Jal =>
          ret := JalInstr(instr, uImmRaw);
        case Br | Brz | Brnz | Brp | Brn =>
          BranchInstr(instr, inst, simm11lsb0);
          ret := AllOk;
        case Ldaddr =>
          LdaddrInstr(instr, uImmRaw);
          ret := AllOk;
        case Loadind =>
          LoadindInstr(instr, simm8);
          ret := AllOk;
        case Storeind =>
          StoreindInstr(instr, simm8);
          ret := AllOk;
        case Unused | Out | In =>
          NoEffectInstr(instr, inst);
          ret := AllOk;
        case Nop | Unknown =>
          // No opcode decodes to these in the 32-bit build (`Decoder.TableIsNeverNopOrUnknown`).
          assert false;
      }
    }

    /** `add`, `sub`, `load`, `And`, `Or`, `Xor` and `loadh`-`loadh3`: a new
        accumulator from the operand `imm`, then `m_pc += ILEN`. */
    method AluInstr(instr: bv16, inst: Instr, isImmediate: bool, imm: bv32)
      requires Valid()
      requires inst == Add || inst == Sub || inst == Load || inst == And || inst == Or
            || inst == Xor || inst == Loadh || inst == Loadh2 || inst == Loadh3
      requires isImmediate == IsImmediate(instr) && imm == Operand(State(), instr)
      modifies this`acc, this`pc
      ensures Outcome(State(), AllOk) == Execute(old(State()), instr, inst, exitOnJalRA)
    {
      match inst {
        case Add =>
          acc := Add32(acc, imm);
        case Sub =>
          acc := Sub32(acc, imm);
        case Load =>
          acc := imm;
        case And =>
          acc := AndAcc(acc, imm, isImmediate);
        case Or =>
          acc := OrAcc(acc, imm, isImmediate);
        case Xor =>
          acc := XorAcc(acc, imm, isImmediate);
        case Loadh =>
          acc := LoadhAcc(acc, imm, 8, 0xFF);
        case Loadh2 =>
          acc := LoadhAcc(acc, imm, 16, 0xFFFF);
        case Loadh3 =>
          acc := LoadhAcc(acc, imm, 24, 0xFF_FFFF);
      }
      pc := Add32(pc, ILen);
    }

    /** `shr`: `assert(imm < XLen)` on the signed operand, then the
        arithmetic shift by one and the mask. */
    method ShrInstr(instr: bv16, imm: bv32) returns (ret: Ret)
      requires Valid() && imm == Operand(State(), instr)
      modifies this`acc, this`pc
      ensures Outcome(State(), ret) == Execute(old(State()), instr, Shr, exitOnJalRA)
    {
      if SInt(imm) >= 32 {
        return ShrAssertFailed;
      }
      acc := ShrAcc(acc);
      pc := Add32(pc, ILen);
      return AllOk;
    }

    /** `store`: with bit 8 clear, the accumulator to register `uImmRaw`,
        which is then marked modified. */
    method StoreInstr(instr: bv16, isImmediate: bool, uImmRaw: bv8)
      requires Valid() && isImmediate == IsImmediate(instr) && uImmRaw == Low(instr)
      modifies this`modifiedRegs, this`pc, reg
      ensures Outcome(State(), AllOk) == Execute(old(State()), instr, Store, exitOnJalRA)
    {
      if !isImmediate {
        reg[uImmRaw] := acc;
        modifiedRegs := modifiedRegs + {uImmRaw as nat};
      }
      pc := Add32(pc, ILen);
    }

    /** `jal`: the early `JAL_RA_EXIT`, or link the pc into register
        `uImmRaw` and jump to the accumulator. */
    method JalInstr(instr: bv16, uImmRaw: bv8) returns (ret: Ret)
      requires Valid() && uImmRaw == Low(instr)
      modifies this`modifiedRegs, this`pc, reg
      ensures Outcome(State(), ret) == Execute(old(State()), instr, Jal, exitOnJalRA)
    {
      if uImmRaw == 0 && exitOnJalRA {
        return JalRaExit;
      }
      reg[uImmRaw] := pc;
      modifiedRegs := modifiedRegs + {uImmRaw as nat};
      pc := acc;
      return AllOk;
    }

    /** `br`, `brz`, `brnz`, `brp` and `brn`: add the offset when the
        condition holds, otherwise `ILEN`. */
    method BranchInstr(instr: bv16, inst: Instr, simm11lsb0: bv32)
      requires Valid() && simm11lsb0 == BranchOffset(instr)
      requires inst == Br || inst == Brz || inst == Brnz || inst == Brp || inst == Brn
      modifies this`pc
      ensures Outcome(State(), AllOk) == Execute(old(State()), instr, inst, exitOnJalRA)
    {
      var taken: bool;
      match inst {
        case Br =>
          taken := true;
        case Brz =>
          taken := acc == 0;
        case Brnz =>
          taken := acc != 0;
        case Brp =>
          taken := SInt(acc) >= 0;
        case Brn =>
          taken := SInt(acc) < 0;
      }
      if taken {
        pc := Add32(pc, simm11lsb0);
        return;
      }
      pc := Add32(pc, ILen);
    }

    /** `ldaddr`: `m_addr = m_reg[uImmRaw]`. */
    method LdaddrInstr(instr: bv16, uImmRaw: bv8)
      requires Valid() && uImmRaw == Low(instr)
      modifies this`addr, this`pc
      ensures Outcome(State(), AllOk) == Execute(old(State()), instr, Ldaddr, exitOnJalRA)
    {
      addr := reg[uImmRaw];
      pc := Add32(pc, ILen);
    }

    /** `loadind`: `m_acc = m_mem[m_addr + simm8]`. */
    method LoadindInstr(instr: bv16, simm8: bv32)
      requires Valid() && simm8 == Sext8(Low(instr))
      modifies this`acc, this`mem, this`pc
      ensures Outcome(State(), AllOk) == Execute(old(State()), instr, Loadind, exitOnJalRA)
    {
      var b := MemAt(Add32(addr, simm8) as nat);
      acc := b as bv32;
      pc := Add32(pc, ILen);
    }

    /** `storeind`: `m_mem[m_addr + simm8] = m_acc`, truncated to a byte. */
    method StoreindInstr(instr: bv16, simm8: bv32)
      requires Valid() && simm8 == Sext8(Low(instr))
      modifies this`mem, this`pc
      ensures Outcome(State(), AllOk) == Execute(old(State()), instr, Storeind, exitOnJalRA)
    {
      mem := mem[Add32(addr, simm8) as nat := LowByte(acc)];
      pc := Add32(pc, ILen);
    }

    /** `nop`, `unused`, `out`, `in` and `unknown`: `unused` is an empty
        case and the string-literal asserts of the others never fire, so only
        `m_pc += ILEN` remains. */
    method NoEffectInstr(instr: bv16, inst: Instr)
      requires Valid()
      requires inst == Nop || inst == Unused || inst == Out || inst == In || inst == Unknown
      modifies this`pc
      ensures Outcome(State(), AllOk) == Execute(old(State()), instr, inst, exitOnJalRA)
    {
      pc := Add32(pc, ILen);
    }

    /** `m_mem[a]` used as a value: `std::map::operator[]` first inserts a 0
        byte when `a` has no entry. */
    method MemAt(a: nat) returns (b: bv8)
      modifies this`mem
      ensures b == Read(old(mem), a) && mem == Touch(old(mem), a)
    {
      if a !in mem {
        mem := mem[a := 0];
      }
      b := mem[a];
    }

    /** `clock`: fetch the little-endian word at the pc, then return 1 when
        the pc is past `m_textSize` or else execute the word. */
    method Clock() returns (ret: Ret)
      requires Valid()
      modifies this, reg
      ensures Valid()
      ensures Outcome(State(), ret) == Semantics.Clock(old(State()), textSize, exitOnJalRA)
    {
      var lo := MemAt(pc as nat);
      var hi := MemAt(Add32(pc, 1) as nat);
      var instr := HalfWord(lo, hi);
      if pc as int > textSize {
        return PastText;
      }
      ret := ExecInstr(instr);
    }

    /** `main`'s `while (sim.clock() == 0) {}` for at most `fuel` cycles:
        `halted` with the first non-zero `ret`, or still running. */
    method Run(fuel: nat) returns (halted: bool, ret: Ret)
      requires Valid()
      modifies this, reg
      ensures Valid()
      ensures RunFor(old(State()), textSize, exitOnJalRA, fuel) ==
        if halted then Halted(State(), ret) else Running(State())
    {
      var rem := fuel;
      ret := AllOk;
      while rem > 0
        invariant Valid()
        invariant RunFor(old(State()), textSize, exitOnJalRA, fuel) ==
          RunFor(State(), textSize, exitOnJalRA, rem)
      {
        ret := Cycle(rem);
        if ret != AllOk {
          return true, ret;
        }
        rem := rem - 1;
      }
      return false, ret;
    }

    /** One turn of `main`'s loop: a `clock` whose non-zero return ends
        the run, or which leaves `rem - 1` cycles of it. */
    method Cycle(ghost rem: nat) returns (ret: Ret)
      requires Valid() && rem > 0
      modifies this, reg
      ensures Valid()
      ensures RunFor(old(State()), textSize, exitOnJalRA, rem) ==
        if ret != AllOk then Halted(State(), ret) else RunFor(State(), textSize, exitOnJalRA, rem - 1)
    {
      ghost var before := State();
      ret := Clock();
      RunForStep(before, textSize, exitOnJalRA, rem, Outcome(State(), ret));
    }
  }
}
