# Leros instruction-set simulator, modelled in Dafny

Leros is a small accumulator machine. This project models its simulator, `leros-sim.cpp`, in the 32-bit build, together with the Python test driver that feeds it and reads it back.

The machine state has these parts:

- a 32-bit accumulator `m_acc`;
- an address register `m_addr`;
- a program counter `m_pc`;
- 256 general registers `m_reg`;
- a sparse byte memory `m_mem`;
- the set `m_modifiedRegs` of registers written by `store` and `jal`.

`clock` fetches a little-endian 16-bit word at the pc and stops with 1 once the pc is past the text size. Otherwise it calls `execInstr`. That call decodes the opcode byte by bit-string elimination over `InstMap` and carries out one case of a `switch`. `main` clocks until a call returns non-zero.

The model has four layers.

- **Value model** (`Words`, `Decoder`, `Semantics`):
  - `Machine` is the state as a value.
  - `Exec`, `Execute` and `Clock` are the `switch` and the fetch as functions.
  - `RunFor` is `main`'s loop, bounded by fuel.
  - `Decode` is the elimination loop over `InstMap` exactly as written. This includes the early return once one candidate is left, whose bit is never checked.
  - `Table` is an independent opcode-range table, and `Decoder.DecodeIsTable` proves the two equal for all 256 opcodes.
- **The class** (`Simulator.LerosSim`):
  - The fields are updated in place. `m_reg` is an `array`, `m_mem` a `map`, and `m_modifiedRegs` a `set`.
  - Each method is proved to move the state exactly as the value model says. Its `old(State())` becomes its `State()`.
  - `Decoder.DecodeInstr` keeps the source's loops: the `itoa` buffer fill, the passes, and the erasing sweep.
- **Properties** (`ExecProperties`): what each instruction does to the accumulator word, to the registers, to memory and to the pc. Also covered:
  - fetching;
  - the `shr` assert;
  - the linking `jal`;
  - the fact that a branch is taken exactly when its condition holds;
  - two small programs run through the decoder.
- **The driver protocol** (`RegState`, `SimDriver`, `Decimal`, `Text`):
  - `parseInitRegState` (the `--rs` option) is modelled with its loops.
  - The driver's `regstate` builder is proved to produce text that `parseInitRegState` reads back into the same dictionary.
  - `printState`'s text format is modelled, and the driver's `parseSimulatorOutput` is proved to read it back into the shown registers.
  - `TestFunctions` holds the reference functions the tests compare against: triangle numbers, array addition and the three shifts.

Where the behaviour described for the system differs from the code, the model follows the code:

- **`jal` target bounds.** `jal` does not check that its target lies in the text. It links the current pc, not pc + 2, into the register (`Semantics.Execute`, leros-sim.cpp:370-377).
- **Fetch bound.** The fetch bound is `m_pc > m_textSize`, with the pc allowed to equal the text size. There is no trace buffer and no instruction counter.
- **Decoding.** Decoding is done by prefix elimination, not by a dense table. As written:
  - it never returns `nop` or `unknown`;
  - opcodes 0x00-0x07 decode to `in`;
  - opcodes no key covers decode to the last surviving candidate (`Decoder.UncoveredOpcodes`).
- **Asserts that never fire.** `unknown`, `out`, `in` and `store` with an immediate call `assert` on a string literal, which never fails. So these cases only advance the pc; they are not errors.
- **Initial registers.** No register is initialised to a stack pointer or to argc/argv. Registers start at zero, and then the `--rs` entries are written.

## Model

| member | source | states |
|---|---|---|
| Words.SInt | leros-sim.cpp:430 | reading the accumulator as `int32_t`: the value lies in -2^31 .. 2^31-1 and is negative exactly when the top bit is set |
| Words.SIntCongruent | leros-sim.cpp:430 | the signed reading is congruent to the word modulo 2^32 |
| Words.FromSInt | leros-sim.cpp:430 | writing the signed reading back as a 32-bit pattern gives the word |
| Words.AddThenSub | leros-sim.cpp:241-248 | subtracting an operand after adding it restores the word, modulo 2^32 |
| Words.Sext8 | leros-sim.cpp:60-65 | `signextend<_, 8>` keeps the low byte and fills the upper 24 bits with copies of bit 7 |
| Words.Sext11 | leros-sim.cpp:231 | `signextend<int, 11>` keeps the low 11 bits and fills the rest with copies of bit 10 |
| Words.AShr1 | leros-sim.cpp:256 | `m_acc >>= 1` on the signed word: the low 31 bits are the logical shift |
| Words.AShr1KeepsSign | leros-sim.cpp:256 | the signed shift keeps the sign bit |
| Decoder.DecodeInstr | leros-sim.cpp:194-224 | the decoding loops return the table entry of the opcode byte |
| Decoder.FillBuffer | leros-sim.cpp:195-199 | the `itoa` loop fills the buffer with the opcode's bits, MSB first |
| Decoder.Eliminate | leros-sim.cpp:200-223 | the `while (i < 8)` loop computes the elimination passes over the map copy |
| Decoder.ErasePass | leros-sim.cpp:206-220 | one sweep returns the last candidate or keeps exactly the matching entries, with the early return on size 1 |
| Decoder.PassIsFilter | leros-sim.cpp:206-220 | a sweep keeps exactly the entries whose bit matches, unless only the last entry survives |
| Decoder.FilterMembers | leros-sim.cpp:214-219 | the filter keeps an entry exactly when its character `i` matches the opcode bit |
| Decoder.FilterBlocks | leros-sim.cpp:214-219 | when the matching keys form one contiguous block of the sorted map, the sweep keeps that block |
| Decoder.OpcodeBitsBinary | leros-sim.cpp:93-106 | every buffer character is '0' or '1', so `itoa`'s default case is never reached |
| Decoder.DecodeIsTable | leros-sim.cpp:74-91 | for every opcode byte, prefix elimination over `InstMap` gives the opcode-range table |
| Decoder.KeyPrefixDecodes | leros-sim.cpp:74-91 | an opcode that begins with a key of `InstMap` (other than `nop`'s) decodes to that key's instruction |
| Decoder.DecodeIsNeverNopOrUnknown | leros-sim.cpp:223 | in the 32-bit build no opcode decodes to `nop` or `unknown` |
| Decoder.UncoveredOpcodes | leros-sim.cpp:207-212 | opcodes that begin with no key decode to the last candidate their pass leaves |
| Semantics.Touch | leros-sim.cpp:177 | `m_mem[a]` read as a value inserts `a` but changes no byte that is read |
| Semantics.RegIndex | leros-sim.cpp:229 | `uImmRaw` always names one of the 256 registers |
| Semantics.RunForStep | leros-sim.cpp:505-507 | one turn of `main`'s loop: a non-zero return halts it, zero goes on from the new state |
| Semantics.RunForHaltedStays | leros-sim.cpp:505-507 | once the loop has halted, more cycles give the same halted state and return value |
| Semantics.RunForSplit | leros-sim.cpp:505-507 | `a` cycles without halting followed by `b` cycles are `a + b` cycles |
| Simulator.LerosSim.constructor | leros-sim.cpp:118-146 | a raw image loaded at address 0 with the text size its length, then `reset`, then the initial registers written |
| Simulator.LerosSim.LoadRegState | leros-sim.cpp:143-145 | each register in the map gets its value; the other registers keep theirs |
| Simulator.LerosSim.Reset | leros-sim.cpp:167-174 | registers, accumulator, address and pc are zero; memory and the modified set are unchanged |
| Simulator.LerosSim.IsModified | leros-sim.cpp:148-150 | true exactly when the register is in the modified set |
| Simulator.LerosSim.GetImmediate | leros-sim.cpp:186-192 | the named register without bit 8; with bit 8, the low byte sign-extended |
| Simulator.LerosSim.ExecInstr | leros-sim.cpp:226-425 | the new state and the return value are those of `Exec` on the old state |
| Simulator.LerosSim.AluInstr | leros-sim.cpp:241-318 | the arithmetic, logic and `loadh` cases change only the accumulator, then advance the pc |
| Simulator.LerosSim.ShrInstr | leros-sim.cpp:249-259 | a failed assert for an operand of 32 or more; otherwise the shift and mask |
| Simulator.LerosSim.StoreInstr | leros-sim.cpp:353-361 | `store` writes the accumulator to the register and marks it modified |
| Simulator.LerosSim.JalInstr | leros-sim.cpp:370-377 | `jal` exits early, or links the pc and jumps to the accumulator |
| Simulator.LerosSim.BranchInstr | leros-sim.cpp:378-409 | the branch cases as `Execute` states them |
| Simulator.LerosSim.LdaddrInstr | leros-sim.cpp:410-413 | `ldaddr` as `Execute` states it |
| Simulator.LerosSim.LoadindInstr | leros-sim.cpp:414-417 | `loadind` as `Execute` states it, including the inserted memory entry |
| Simulator.LerosSim.StoreindInstr | leros-sim.cpp:418-421 | `storeind` as `Execute` states it |
| Simulator.LerosSim.NoEffectInstr | leros-sim.cpp:237-240 | `nop`, `unused`, `out`, `in` and `unknown` only advance the pc (`nop` and `unknown` here; the empty `unused` case at leros-sim.cpp:260-262; `out` and `in` at leros-sim.cpp:362-369) |
| Simulator.LerosSim.MemAt | leros-sim.cpp:177 | the byte read and the map after `operator[]` inserts a missing key |
| Simulator.LerosSim.Clock | leros-sim.cpp:176-183 | the new state and return value are those of `Semantics.Clock` |
| Simulator.LerosSim.Run | leros-sim.cpp:505-507 | the loop halts with the first non-zero return, exactly as `RunFor` says, or is still running after `fuel` cycles |
| Simulator.LerosSim.Cycle | leros-sim.cpp:505 | one `clock` call as one step of `RunFor` |
| ExecProperties.AddThenSubWord | leros-sim.cpp:241-248 | `sub` after `add` with the same operand restores the accumulator |
| ExecProperties.ShrWord | leros-sim.cpp:249-259 | `shr` is a logical shift right by one, so the result is below 2^31 |
| ExecProperties.AndImmediateWord | leros-sim.cpp:267-278 | immediate `And` changes only the low byte, which becomes the and of the low bytes |
| ExecProperties.OrImmediateWord | leros-sim.cpp:279-282 | immediate `Or` changes only the low byte |
| ExecProperties.XorImmediateWord | leros-sim.cpp:283-294 | immediate `Xor` changes only the low byte |
| ExecProperties.LogicRegisterWord | leros-sim.cpp:267-294 | with a register operand, the logic cases combine whole words |
| ExecProperties.LoadhWord | leros-sim.cpp:295-302 | `loadh` keeps the low byte and places the operand from bit 8 up |
| ExecProperties.Loadh2Word | leros-sim.cpp:303-310 | `loadh2` keeps the low 16 bits and places the operand from bit 16 up |
| ExecProperties.Loadh3Word | leros-sim.cpp:311-318 | `loadh3` keeps the low 24 bits and places the operand's low byte in the top byte |
| ExecProperties.TakenBits | leros-sim.cpp:378-409 | the branch conditions on the accumulator's bits: `brp` and `brn` test its sign bit |
| ExecProperties.BranchOffsetBits | leros-sim.cpp:231 | the branch offset is even, holds the 11-bit field shifted by one, and is sign-filled from bit 12 |
| ExecProperties.LowByteWidens | leros-sim.cpp:418-421 | storing the accumulator into a byte keeps its low 8 bits |
| ExecProperties.TwoSteps | leros-sim.cpp:423 | two default steps advance the pc by 4, modulo 2^32 |
| ExecProperties.OperandRegister | leros-sim.cpp:187-188 | without bit 8 the operand is the named register |
| ExecProperties.OperandImmediate | leros-sim.cpp:189-190 | with bit 8 the operand is the low byte sign-extended |
| ExecProperties.OnlyPcAdvances | leros-sim.cpp:236-240 | `nop`, `unknown`, `unused`, `out`, `in` and `store` with an immediate change nothing but the pc |
| ExecProperties.AluCasesChangeOnlyAcc | leros-sim.cpp:241-318 | the arithmetic and logic cases change only the accumulator and the pc |
| ExecProperties.LoadSetsAcc | leros-sim.cpp:263-266 | `load` sets the accumulator to the operand |
| ExecProperties.AddSubSetAcc | leros-sim.cpp:241-248 | `add` and `sub` set the accumulator to the wrapped sum or difference |
| ExecProperties.AddThenSubRestores | leros-sim.cpp:241-248 | executing `add` then `sub` with the same operand restores every field but the pc |
| ExecProperties.ShrAssert | leros-sim.cpp:250 | `shr` fails its assert exactly when the signed operand is 32 or more, and then changes nothing |
| ExecProperties.ShrIsLogicalShift | leros-sim.cpp:249-259 | a passing `shr` shifts the accumulator logically and advances the pc |
| ExecProperties.StoreWritesRegister | leros-sim.cpp:353-361 | `store` writes the named register, marks it, and leaves the other registers alone |
| ExecProperties.JalLinks | leros-sim.cpp:370-377 | `jal` exits only for register 0 with the exit policy set; otherwise it links the old pc and jumps to the accumulator |
| ExecProperties.BranchTakenIff | leros-sim.cpp:378-409 | each branch moves the pc by the offset exactly when its condition holds, and by 2 otherwise |
| ExecProperties.DefaultPcStep | leros-sim.cpp:423-424 | every case other than `jal` and the branches either advances the pc by 2 or stops the simulator and changes nothing |
| ExecProperties.LdaddrSetsAddr | leros-sim.cpp:410-413 | `ldaddr` copies the named register into the address register |
| ExecProperties.LoadindReadsByte | leros-sim.cpp:414-417 | `loadind` zero-extends the byte at the wrapped address plus the signed offset |
| ExecProperties.StoreindWritesByte | leros-sim.cpp:418-421 | `storeind` writes the low byte of the accumulator at that address and no other |
| ExecProperties.StoreindThenLoadind | leros-sim.cpp:414-421 | a `loadind` after a `storeind` with the same offset reads back the stored low byte |
| ExecProperties.ExecuteNeverPastText | leros-sim.cpp:226-425 | `execInstr` never returns the past-text value that only `clock` returns |
| ExecProperties.ClockPastText | leros-sim.cpp:176-183 | `clock` returns past-text exactly when the pc exceeds the text size, and then executes nothing: only the two fetched bytes are entered into memory |
| ExecProperties.FetchLittleEndian | leros-sim.cpp:177 | the opcode byte is the byte at pc + 1, and the low byte is the byte at pc |
| ExecProperties.ZeroWordOnlyAdvances | leros-sim.cpp:236-240 | the all-zero word only advances the pc |
| ExecProperties.LoadImmediate34 | leros-sim.cpp:263-266 | the word 0x2134 loads 0x34 into the accumulator |
| ExecProperties.LoadhImmediate12 | leros-sim.cpp:295-302 | the word 0x2912 after that gives 0x1234 |
| ExecProperties.LoadThenLoadh | leros-sim.cpp:263-302 | the two-instruction program gives 0x1234 from any state |
| Decimal.NatRoundTrip | leros-sim.cpp:459-470 | reading the digits written for a natural number gives the number back |
| Decimal.IntRoundTrip | simdriver.py:72 | reading `str` of an integer gives the integer back |
| Text.IndexOf | leros-sim.cpp:465 | `find` gives the first position of the character, or the length |
| Text.IndexOfAfter | leros-sim.cpp:465 | the first ':' in `a:b` is right after `a` when `a` has none |
| Text.SplitOnCons | simdriver.py:44 | `split` on one separator gives the first piece and then the pieces of the rest |
| Text.NonEmpty | simdriver.py:44 | `filter(None, ...)` keeps a piece exactly when it is non-empty |
| Text.NonEmptyAppend | simdriver.py:44 | the filter keeps the order: the pieces kept from `a + b` are those kept from `a`, then from `b` |
| RegState.ParsePieces | leros-sim.cpp:464-470 | every register in the result is below 2^32 |
| RegState.PieceWithoutColon | leros-sim.cpp:465-468 | a piece without ':' sets the register it names to the same number |
| RegState.GetlineFree | leros-sim.cpp:459-461 | a comma-free stretch joins the piece being read |
| RegState.PiecesCons | leros-sim.cpp:459-461 | text up to a comma is one piece, followed by the pieces of the rest |
| RegState.PiecesFree | leros-sim.cpp:459-461 | comma-free text is one piece, or none when it is empty |
| RegState.GetlinePieces | leros-sim.cpp:456-461 | the `getline` loop collects the pieces between commas, with no trailing empty piece |
| RegState.ParseRegState | leros-sim.cpp:451-472 | the empty map for empty text; otherwise each `reg:value` sets the register, a later piece winning |
| SimDriver.BuildRegState | simdriver.py:70-74 | the loop and the comma removal give the comma-joined `reg:value` entries |
| SimDriver.JoinSnoc | simdriver.py:72 | joining one more entry appends a comma and the entry |
| SimDriver.TerminatedIsJoin | simdriver.py:73-74 | the comma-terminated text minus its last comma is the comma-joined text |
| SimDriver.EntryParses | leros-sim.cpp:464-470 | a `reg:value` entry written by the driver is read back as that register and value |
| SimDriver.PiecesOfJoin | leros-sim.cpp:459-461 | `getline` splits the joined text back into the entries |
| SimDriver.ParseEntryTexts | leros-sim.cpp:464-470 | reading the entries gives the driver's dictionary |
| SimDriver.RegStateRoundTrip | simdriver.py:70-74 | the text the driver builds is well formed, and `parseInitRegState` reads it into the driver's dictionary |
| SimDriver.DictLastWins | leros-sim.cpp:469 | the last entry for a register decides its value |
| SimDriver.LaterDuplicateWins | leros-sim.cpp:469 | through the round trip, the last entry for a register decides its value in the simulator |
| SimDriver.ParseSimulatorOutput | simdriver.py:37-48 | the line and token loops give the fold `ParseOutput`, and fail on a malformed token |
| SimDriver.NotContains | simdriver.py:42 | a line without the first letter of a name does not contain that name |
| SimDriver.RegisterLineNotSpecial | simdriver.py:42-43 | the register line of `printState` is not skipped as a special-register line |
| SimDriver.NamedLine | simdriver.py:42-43 | a line that starts with a special register's name is skipped |
| SimDriver.SkipSpecial | simdriver.py:42-43 | lines that are all special leave the dictionary unchanged |
| SimDriver.SplitLinesFree | simdriver.py:39 | text without line breaks joins the current line |
| SimDriver.LinesCons | simdriver.py:39 | `splitlines` gives the text before a newline as its first line |
| SimDriver.EntryToken | simdriver.py:45-47 | one `reg:value` token of `printState` parses as that register and value |
| SimDriver.TokensCons | simdriver.py:44 | a non-empty, space-free token followed by a space is the first token |
| SimDriver.ParseTokensCons | simdriver.py:45-47 | a parsed token updates the dictionary before the rest of the tokens |
| SimDriver.ShownValuesStep | leros-sim.cpp:154-160 | the registers shown from `i` are register `i` if shown, plus those from `i + 1` |
| SimDriver.RegisterLineParses | leros-sim.cpp:154-160 | the tokens of the register line add exactly the shown registers and their signed values |
| SimDriver.LinesOfLayout | leros-sim.cpp:161-164 | lines each ended by a newline split back into those lines |
| SimDriver.ValueLine | leros-sim.cpp:162-164 | the `ACC`, `ADDR` and `PC` lines are special and have no line break |
| SimDriver.ReadFirstOfFour | simdriver.py:39-48 | only the first of the four printed lines contributes to the dictionary |
| SimDriver.RegisterLineNoBreak | leros-sim.cpp:154-160 | the register line has no line break in it |
| SimDriver.StateTextRoundTrip | simdriver.py:37-48 | parsing `printState`'s text gives exactly the shown registers and their signed values |
| SimDriver.BadTokenFails | simdriver.py:46-47 | a token that does not parse makes the whole parse fail |
| SimDriver.ParseTokensKeep | simdriver.py:47 | tokens for other registers keep a register's value |
| SimDriver.LastTokenWins | simdriver.py:47 | the last token for a register decides its value |
| TestFunctions.TriangleNumber | testfunctions.py:3-7 | the loop sums 1 to n, which is the recursive triangle number; the driver's copy at simdriver.py lines 14-18 is the same function |
| TestFunctions.TriangleClosedForm | testfunctions.py:3-7 | twice the triangle number of n is n(n+1), or 0 for n <= 0 |
| TestFunctions.Fill | testfunctions.py:16-18 | the first loop sets `A[i] = i` and `B[i] = i - 1` |
| TestFunctions.AddInto | testfunctions.py:20-21 | the second loop sets `C[i] = A[i] + B[i]` |
| TestFunctions.SumOf | testfunctions.py:23-24 | the third loop sums `C` |
| TestFunctions.BuildLists | testfunctions.py:11-21 | after the first two loops the list `C` is `OddsFrom(n)`, the odd numbers -1, 1, 3, ... 2n - 3 |
| TestFunctions.SumOdds | testfunctions.py:20-24 | the sum of 2j - 1 for j below n is n^2 - 2n |
| TestFunctions.ArrayAddition | testfunctions.py:10-26 | `arrayAddition(n)` is n^2 - 2n, or 0 for n <= 0 |
| TestFunctions.ShiftLeft | testfunctions.py:28-29 | `<<` has a value exactly when the count is non-negative |
| TestFunctions.ShiftRight | testfunctions.py:31-35 | `>>` has a value exactly when the count is non-negative |
| TestFunctions.ShiftLeftStep | testfunctions.py:28-29 | one more left shift doubles the value |
| TestFunctions.ShiftRightStep | testfunctions.py:31-35 | one more right shift halves the value, rounding down |
| TestFunctions.ShiftRoundTrip | testfunctions.py:28-32 | shifting right after shifting left by the same count gives the number back |
| TestFunctions.ShlGrows | testfunctions.py:28-29 | `shl(n)` is at least 1234 and doubles with each n |
| TestFunctions.LshrRange | testfunctions.py:31-32 | `lshr(n)` lies in 0..1234 and is 0 exactly when n >= 11; `lshr(10)` is 1 |
| TestFunctions.AshrRange | testfunctions.py:34-35 | `ashr(n)` lies in -123456..-1 and is -1 exactly when n >= 17; `ashr(16)` is -2 |

## Left out

- The ELF loader (`m_reader.load`) and everything read from files: the constructor takes the raw image as a byte sequence. The failed open and the odd-length assert are not modelled.
- The 64-bit build (`LEROS64`, `loadh4`-`loadh7` and 64-bit words): only the 32-bit build is modelled.
- Option parsing with cxxopts and `setupOptions`. The options are passed directly as parameters: the initial registers and `exitOnJalRA`.
- `printState`'s console output. Its text is modelled as a string (`SimDriver.StateText`) and nothing is written anywhere.
- `runTriangleTest`, `execute` and `getTestNames` in the driver. They run the compiler and the simulator as subprocesses and compare dictionaries. `utf-8` decoding is the identity, since the text is modelled as characters.
- RegState.ParseRegState: reads only well-formed `--rs` text, meaning digits, an optional ':' and an optionally negative numeral. Several things are not modelled: `stoul`/`stoi` skipping leading whitespace, a '+' sign, stopping at the first non-digit, and the exceptions they throw on other text.
- SimDriver.ParseSimulatorOutput: takes Python's `int()` to accept only an optional '-' and digits. Whitespace, '+' and '_', which `int()` also accepts, count as errors here. An `IndexError` and a `ValueError` are both the one error result `None`.
- Simulator.LerosSim.Run: clocks for at most `fuel` cycles. A run that never halts is stated as still running after each bound rather than as divergence.
- Simulator.LerosSim.ExecInstr: the `switch` is split into one method per group of cases, and each method is proved to follow `Semantics.Execute` for that group.
- `Semantics.Exec` looks up `Decoder.Table` rather than running the elimination loop, and `Decoder.DecodeIsTable` proves the two agree for every opcode.
- `itoa`'s default case, `assert("unknown value")`, is never reached (`Decoder.OpcodeBitsBinary`). A failed `assert` aborts the process; for `shr` this is modelled as the return value `ShrAssertFailed`.
- Simulator.LerosSim.constructor: initial register numbers must be below 256 (also `LoadRegState` and `Semantics.Initial`). leros-sim.cpp:144 writes `m_reg[p.first]` without a check, which is undefined behaviour for a larger number that `parseInitRegState` can return, such as `--rs 300:5`.
- `std::map` iteration order is modelled by listing `InstMap` in key order. `m_reg.at` cannot throw, because the index is a byte.
