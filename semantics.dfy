/** The state of a `LerosSim` as a value, and what `execInstr` and `clock`
    do to it (leros-sim.cpp, 32-bit build). The class in simulator.dfy is
    proved to follow these functions. */
module Semantics {
  import opened Words
  import opened Decoder

  /** What `execInstr` and `clock` return: `ALL_OK` (0), `JAL_RA_EXIT` (1),
      the 1 that `clock` returns once the pc is past the text, and a failed
      `assert(imm < XLen)` in `shr`, which aborts the process. */
  datatype Ret = AllOk | JalRaExit | PastText | ShrAssertFailed

  /** The fields of `LerosSim` that instructions read and write. `regs` is
      `m_reg`; `mem` is the sparse `m_mem`, keyed by the value of the 32-bit
      address; `modified` is `m_modifiedRegs`. */
  datatype Machine = Machine(
    acc: bv32, addr: bv32, pc: bv32,
    regs: Regs, mem: map<nat, bv8>, modified: set<nat>)

  /** `std::array<MVT_S, 256> m_reg`. */
  type Regs = s: seq<bv32> | |s| == 256 witness seq(256, _ => 0)

  datatype Outcome = Outcome(m: Machine, ret: Ret)

  /** `ILEN`: an instruction is two bytes. */
  const ILen: bv32 := 2

  /** `upperInstr`: the opcode byte. */
  function Opcode(instr: bv16): bv8
  {
    (instr >> 8) as bv8
  }

  /** `uImmRaw`: the low byte, a register number or an immediate. */
  function Low(instr: bv16): bv8
  {
    (instr & 0xFF) as bv8
  }

  /** `uImmRaw` as a register number, to index `m_reg` and `m_modifiedRegs`. */
  function RegIndex(instr: bv16): (r: nat)
    ensures r < 256
  {
    Low(instr) as nat
  }

  /** `isImmediate`: bit 8 of the instruction word. */
  predicate IsImmediate(instr: bv16)
  {
    instr & 0x100 != 0
  }

  /** `simm11lsb0`: the sign-extended 11-bit field shifted left by one. */
  function BranchOffset(instr: bv16): bv32
  {
    Sext11(Opcode(instr), Low(instr)) << 1
  }

  /** `getImmediate`: the register named by the low byte, or the low byte
      sign-extended when bit 8 is set. */
  function Operand(m: Machine, instr: bv16): bv32
  {
    if !IsImmediate(instr) then m.regs[RegIndex(instr)] else Sext8(Low(instr))
  }

  /** `m_mem[a]` read where `a` was never written: the map's default 0. */
  function Read(mem: map<nat, bv8>, a: nat): bv8
  {
    if a in mem then mem[a] else 0
  }

  /** What `m_mem[a]` used as a value does to the map: `operator[]` inserts
      a 0 entry for an address that has none. */
  function Touch(mem: map<nat, bv8>, a: nat): (t: map<nat, bv8>)
    ensures a in t
    ensures forall b :: Read(t, b) == Read(mem, b)
  {
    if a in mem then mem else mem[a := 0]
  }

  /** `m_addr + simm8`, the address of `loadind` and `storeind`, wrapping
      at 2^32. */
  function IndAddr(m: Machine, instr: bv16): nat
  {
    Add32(m.addr, Sext8(Low(instr))) as nat
  }

  /** The `uint8_t` a word is truncated to when it is stored in `m_mem`. */
  function LowByte(w: bv32): bv8
  {
    (w & 0xFF) as bv8
  }

  /** The default end of `execInstr`: `m_pc += ILEN`. */
  function Next(m: Machine): Machine
  {
    m.(pc := Add32(m.pc, ILen))
  }

  /** `execInstr`. The decoded instruction selects the case (`Table`, which
      `Decoder.DecodeIsTable` shows is what `decodeInstr` returns); `unknown` falls
      through to `nop`, `unused` is an empty case, and `out`, `in` and
      `store` with an immediate only advance the pc, as their string-literal
      asserts never fire. */
  function Exec(m: Machine, instr: bv16, exitOnJalRA: bool): (o: Outcome)
  {
    Execute(m, instr, Table(Opcode(instr)), exitOnJalRA)
  }

  /** `shr` after its assert: `m_acc >>= 1` on the `int32_t`, then
      `m_acc &= 0x7FFFFFFF`. */
  function ShrAcc(acc: bv32): bv32
  {
    AShr1(acc) & 0x7FFF_FFFF
  }

  /** `And`: the whole word with a register operand; with an immediate,
      `rest = m_acc & 0xFFFFFF00`, the low byte and-ed, `rest` or-ed back. */
  function AndAcc(acc: bv32, imm: bv32, isImm: bool): bv32
  {
    if !isImm then acc & imm
    else ((acc & 0xFF) & (imm & 0xFF)) | (acc & 0xFFFF_FF00)
  }

  /** `Or`: `m_acc |= !isImmediate ? imm : imm & 0xFF`. */
  function OrAcc(acc: bv32, imm: bv32, isImm: bool): bv32
  {
    acc | if !isImm then imm else imm & 0xFF
  }

  /** `Xor`: the whole word with a register operand; with an immediate,
      only the low byte is xor-ed and `rest` is or-ed back. */
  function XorAcc(acc: bv32, imm: bv32, isImm: bool): bv32
  {
    if !isImm then acc ^ imm
    else (acc & 0xFFFF_FF00) | ((acc & 0xFF) ^ (imm & 0xFF))
  }

  /** `loadh`, `loadh2`, `loadh3`: `bottom = m_acc & mask`, then
      `m_acc = imm << shift | bottom`. */
  function LoadhAcc(acc: bv32, imm: bv32, shift: bv32, mask: bv32): bv32
    requires shift < 32
  {
    (imm << shift) | (acc & mask)
  }

  /** The new accumulator of the arithmetic and logic cases of
      `execInstr`, for operand `imm`; the immediate forms of `And`, `Or` and
      `Xor` combine only the low bytes. */
  function Alu(inst: Instr, acc: bv32, imm: bv32, isImm: bool): bv32
  {
    match inst
    case Add => Add32(acc, imm)
    case Sub => Sub32(acc, imm)
    case Shr => ShrAcc(acc)
    case Load => imm
    case And => AndAcc(acc, imm, isImm)
    case Or => OrAcc(acc, imm, isImm)
    case Xor => XorAcc(acc, imm, isImm)
    case Loadh => LoadhAcc(acc, imm, 8, 0xFF)
    case Loadh2 => LoadhAcc(acc, imm, 16, 0xFFFF)
    case Loadh3 => LoadhAcc(acc, imm, 24, 0xFF_FFFF)
    case _ => acc
  }

  /** Whether a branch instruction jumps, for the accumulator `acc` read
      as an `int32_t`. */
  predicate Taken(inst: Instr, acc: bv32)
  {
    match inst
    case Br => true
    case Brz => acc == 0
    case Brnz => acc != 0
    case Brp => SInt(acc) >= 0
    case Brn => SInt(acc) < 0
    case _ => false
  }

  /** The `switch (inst)` of `execInstr` for the decoded instruction `inst`. */
  function Execute(m: Machine, instr: bv16, inst: Instr, exitOnJalRA: bool): (o: Outcome)
  {
    match inst
    case Add | Sub | Load | And | Or | Xor | Loadh | Loadh2 | Loadh3 =>
      Outcome(Next(m.(acc := Alu(inst, m.acc, Operand(m, instr), IsImmediate(instr)))), AllOk)
    case Shr =>
      if SInt(Operand(m, instr)) >= 32 then Outcome(m, ShrAssertFailed)
      else Outcome(Next(m.(acc := Alu(inst, m.acc, Operand(m, instr), IsImmediate(instr)))), AllOk)
    case Store =>
      if !IsImmediate(instr) then
        var r := RegIndex(instr);
        Outcome(Next(m.(regs := m.regs[r := m.acc], modified := m.modified + {r})), AllOk)
      else Outcome(Next(m), AllOk)
    case Jal =>
      if Low(instr) == 0 && exitOnJalRA then Outcome(m, JalRaExit)
      else
        var r := RegIndex(instr);
        Outcome(m.(regs := m.regs[r := m.pc], modified := m.modified + {r}, pc := m.acc), AllOk)
    case Br | Brz | Brnz | Brp | Brn =>
      Outcome(if Taken(inst, m.acc) then m.(pc := Add32(m.pc, BranchOffset(instr))) else Next(m), AllOk)
    case Ldaddr => Outcome(Next(m.(addr := m.regs[RegIndex(instr)])), AllOk)
    case Loadind =>
      var a := IndAddr(m, instr);
      Outcome(Next(m.(acc := Read(m.mem, a) as bv32, mem := Touch(m.mem, a))), AllOk)
    case Storeind =>
      Outcome(Next(m.(mem := m.mem[IndAddr(m, instr) := LowByte(m.acc)])), AllOk)
    case _ => Outcome(Next(m), AllOk)
  }

  /** `m_mem[pc] | (m_mem[pc + 1] << 8)`: a little-endian half-word. */
  function HalfWord(lo: bv8, hi: bv8): bv16
  {
    lo as bv16 | (hi as bv16 << 8)
  }

  /** The instruction word `clock` fetches: the little-endian half-word at
      `pc` (`pc + 1` wraps at 2^32). */
  function Fetch(mem: map<nat, bv8>, pc: bv32): bv16
  {
    HalfWord(Read(mem, pc as nat), Read(mem, Add32(pc, 1) as nat))
  }

  /** `clock`: fetch (which inserts the two bytes into `m_mem`), then stop
      with 1 when the pc is past `m_textSize`, or execute the word. */
  function Clock(m: Machine, textSize: int, exitOnJalRA: bool): (o: Outcome)
  {
    var instr := Fetch(m.mem, m.pc);
    var fetched := m.(mem := Touch(Touch(m.mem, m.pc as nat), Add32(m.pc, 1) as nat));
    if m.pc as int > textSize then Outcome(fetched, PastText)
    else Exec(fetched, instr, exitOnJalRA)
  }

  /** How `main`'s loop `while (sim.clock() == 0)` ends within `fuel`
      clock cycles: `Halted` with the first non-zero return, or `Running`
      after `fuel` cycles that all returned 0. */
  datatype Run = Halted(m: Machine, ret: Ret) | Running(m: Machine)

  function RunFor(m: Machine, textSize: int, exitOnJalRA: bool, fuel: nat): (r: Run)
    decreases fuel
  {
    if fuel == 0 then Running(m)
    else
      var o := Clock(m, textSize, exitOnJalRA);
      if o.ret != AllOk then Halted(o.m, o.ret)
      else RunFor(o.m, textSize, exitOnJalRA, fuel - 1)
  }

  /** One cycle of the loop: a non-zero return halts it, a zero return
      leaves `fuel - 1` cycles from the new state. */
  lemma RunForStep(m: Machine, textSize: int, exitOnJalRA: bool, fuel: nat, o: Outcome)
    requires fuel > 0 && o == Clock(m, textSize, exitOnJalRA)
    ensures RunFor(m, textSize, exitOnJalRA, fuel) ==
      if o.ret != AllOk then Halted(o.m, o.ret) else RunFor(o.m, textSize, exitOnJalRA, fuel - 1)
  {
  }

  /** `RunFor` for any step function in place of `clock`. */
  function Iterate(step: Machine -> Outcome, m: Machine, fuel: nat): (r: Run)
    decreases fuel
  {
    if fuel == 0 then Running(m)
    else
      var o := step(m);
      if o.ret != AllOk then Halted(o.m, o.ret) else Iterate(step, o.m, fuel - 1)
  }

  /** `RunFor` is `Iterate` with `clock` as the step. */
  lemma {:induction false} RunForIsIterate(m: Machine, textSize: int, exitOnJalRA: bool, fuel: nat)
    ensures RunFor(m, textSize, exitOnJalRA, fuel) == Iterate(x => Clock(x, textSize, exitOnJalRA), m, fuel)
    decreases fuel
  {
    if fuel > 0 {
      var o := Clock(m, textSize, exitOnJalRA);
      if o.ret == AllOk {
        RunForIsIterate(o.m, textSize, exitOnJalRA, fuel - 1);
      }
    }
  }

  lemma {:induction false} IterateHaltedStays(step: Machine -> Outcome, m: Machine, a: nat, b: nat)
    requires Iterate(step, m, a).Halted?
    ensures Iterate(step, m, a + b) == Iterate(step, m, a)
    decreases a
  {
    var o := step(m);
    if o.ret == AllOk {
      IterateHaltedStays(step, o.m, a - 1, b);
      assert a + b - 1 == (a - 1) + b;
    }
  }

  lemma {:induction false} IterateSplit(step: Machine -> Outcome, m: Machine, a: nat, b: nat)
    requires Iterate(step, m, a).Running?
    ensures Iterate(step, m, a + b) == Iterate(step, Iterate(step, m, a).m, b)
    decreases a
  {
    if a == 0 {
      assert a + b == b;
    } else {
      var o := step(m);
      IterateSplit(step, o.m, a - 1, b);
      assert a + b - 1 == (a - 1) + b;
    }
  }

  /** Once the loop has halted, more cycles change nothing: the first
      non-zero return ends `main`'s loop for good. */
  lemma RunForHaltedStays(m: Machine, textSize: int, exitOnJalRA: bool, a: nat, b: nat)
    requires RunFor(m, textSize, exitOnJalRA, a).Halted?
    ensures RunFor(m, textSize, exitOnJalRA, a + b) == RunFor(m, textSize, exitOnJalRA, a)
  {
    RunForIsIterate(m, textSize, exitOnJalRA, a);
    RunForIsIterate(m, textSize, exitOnJalRA, a + b);
    IterateHaltedStays(x => Clock(x, textSize, exitOnJalRA), m, a, b);
  }

  /** Running `a` cycles without halting and then `b` more is running
      `a + b` cycles. */
  lemma RunForSplit(m: Machine, textSize: int, exitOnJalRA: bool, a: nat, b: nat)
    requires RunFor(m, textSize, exitOnJalRA, a).Running?
    ensures RunFor(m, textSize, exitOnJalRA, a + b) ==
      RunFor(RunFor(m, textSize, exitOnJalRA, a).m, textSize, exitOnJalRA, b)
  {
    RunForIsIterate(m, textSize, exitOnJalRA, a);
    RunForIsIterate(m, textSize, exitOnJalRA, a + b);
    RunForIsIterate(RunFor(m, textSize, exitOnJalRA, a).m, textSize, exitOnJalRA, b);
    IterateSplit(x => Clock(x, textSize, exitOnJalRA), m, a, b);
  }

  /** The simulator right after construction from a raw binary `image`:
      the image at addresses 0 onward, `reset`, then the initial registers. */
  function Initial(image: seq<bv8>, initRegState: map<nat, bv32>): (m: Machine)
    requires forall r :: r in initRegState ==> r < 256
  {
    Machine(0, 0, 0,
      seq(256, i requires 0 <= i < 256 => if i in initRegState then initRegState[i] else 0),
      map a | 0 <= a < |image| :: image[a],
      {})
  }
}
