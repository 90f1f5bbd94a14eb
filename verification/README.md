# A verified model of a MOS 6502 emulator core

This project models the instruction engine and the RAM of a small MOS 6502
emulator written in C (`6502.c`, `memory.c`). The emulator has these parts:

- a global register file (PC, SP, A, X, Y, the status byte PS and a
  running flag);
- 64 KiB of RAM as one global byte array;
- flag helpers, reset, and an effective-address resolver for the 6502
  addressing modes;
- the load/store/increment/decrement helpers;
- `readInstruction`, which fetches an opcode, looks up its addressing mode
  and runs its handler (ORA as a stub, BRK, LDA/LDX/LDY, STA/STX/STY,
  INC/DEC, INX/INY, DEX/DEY);
- `runCPU`, which resets and then executes instructions until BRK clears
  the running flag.

The model has two layers:

- `Machine` (machine.dfy) describes the engine on values. A `Machine`
  snapshot holds the registers, the flags and the 65536 memory cells. Every
  routine of the C code is a function from one snapshot to the next:
  `Reset`, `Fetch`, `EffectiveAddress`, `LoadValue`, `StoreAt`,
  `AddToCell`, `Execute`, `Step` and `Run`. The status byte is a `bv8` with
  the code's own bit layout: Carry 0x80, Zero 0x40, InterruptDisable 0x20,
  Decimal 0x10, Break 0x08, Unused 0x04, Overflow 0x02, Negative 0x01.
  `Flags` (flags.dfy) holds the flag updates.
- `Cpu6502.Cpu` (cpu.dfy) and `Memory.Ram` (memory.dfy) are the engine as
  the C code runs it: one register record and one byte array, updated in
  place. Each method is proved to leave the record and the array exactly
  as the corresponding `Machine` function says.

`MachineProperties` (machine_props.dfy) proves what the engine promises:

- what each handler does and leaves alone;
- how PC advances;
- that only BRK halts;
- that every halted run ends with Break, InterruptDisable, Decimal and
  Unused set, SP still 0, and memory above page zero untouched;
- the two programs of the test driver.

`Scenarios` (scenarios.dfy) proves the outcome of those two programs on the in-place
engine.

C's fixed-width arithmetic is written out. Registers and cells are
integers in 0..255, PC is in 0..65535, and every increment, decrement and
address computation takes its result modulo 256 or 65536 exactly where the
C code narrows to `unsigned char` or `unsigned short`.

## Model

| member | source | states |
|---|---|---|
| Flags.SignOf | 6502.c:36-40 | the bit `input >> 7` is 1 exactly for bytes of 0x80 and above, 0 otherwise |
| Flags.Set | 6502.c:25-28 | the mask bits become 1 and every other bit of PS keeps its value |
| Flags.Clear | 6502.c:30-33 | the mask bits become 0 and every other bit of PS keeps its value |
| Flags.WithNegative | 6502.c:36-40 | Negative (bit 0x01) is set iff the byte's bit 7 is set; the other bits are kept |
| Flags.WithZero | 6502.c:42-45 | Zero (bit 0x40) is set iff the byte is 0; the other bits are kept |
| Flags.WithNZ | 6502.c:398-399 | the Negative-then-Zero update that follows every load and register step: both flags describe the byte, all other bits kept |
| Flags.OverflowMask | 6502.c:49 | the overflow expression is 0x80 exactly when both addends differ in sign from the result, else 0 |
| Flags.WithOverflow | 6502.c:47-56 | Overflow (bit 0x02) is set iff the signed-overflow test holds; the other bits are kept |
| Flags.OverflowDetectsSignedAdd | 6502.c:47-49 | for a sum taken modulo 256, the test fires iff the two's-complement sum falls outside -128..127 |
| Flags.NZDetermined | 6502.c:36-45 | any status byte whose N and Z describe a byte and whose other bits equal the old ones is the NZ update of that byte |
| Flags.UpdatesKeepResetBits | 6502.c:18-45 | the NZ update and setting Break or InterruptDisable never clear Unused or Decimal |
| Machine.ZeroMemory | memory.c:3 | the RAM at program start: 65536 cells, all 0 |
| Machine.Put | 6502.c:122-126 | writing through the register pointer changes that register only |
| Machine.DirectAddress | 6502.c:84-103 | absolute and zero-page addresses are the operand's low byte (the result is an `unsigned char`) |
| Machine.IndexedAddress | 6502.c:92-112 | indexed modes add X or Y to the operand, modulo 256 |
| Machine.RelativeAddress | 6502.c:98-100 | relative mode is PC plus the zero-extended operand, modulo 256 |
| Machine.IndirectAddress | 6502.c:89-115 | the indirect modes keep only the low byte of the pointer read from memory, plus Y for post-indexed |
| Machine.SentinelAddress | 6502.c:116-117 | implied, accumulator and immediate modes resolve to 0xFF, the `-1` narrowed to a byte |
| Machine.LoadValue | 6502.c:122-133 | immediate mode yields the operand's low byte; every other mode yields the cell at the effective address |
| Machine.StoreAt | 6502.c:136-140 | exactly the cell at the effective address receives the value; registers and other cells are unchanged |
| Machine.AddToCell | 6502.c:143-160 | the cell at the effective address moves by ±1 modulo 256, N and Z describe its new value, nothing else changes |
| Machine.Fetch | 6502.c:163-167 | returns the byte at PC and moves PC on by one modulo 65536, leaving the rest alone |
| Machine.ResetVector | 6502.c:58-62 | PC's low byte comes from 0xFFFC and its high byte from 0xFFFD |
| Machine.Reset | 6502.c:64-79 | A, X, Y and SP become 0; PS becomes Unused and Decimal only; PC comes from the reset vector; the engine runs; memory is kept |
| Machine.EffectiveAddress | 6502.c:82-120 | `getMemAddress` as written: C arithmetic narrowed to the `unsigned char` result. It has no contract of its own. Each mode's result is stated by `DirectAddress`, `IndexedAddress`, `RelativeAddress`, `IndirectAddress` and `SentinelAddress`, and its independence from memory by `AddressIgnoresMemory` |
| Machine.ModeOf | 6502.c:173-366 | the first switch of `readInstruction` as a table. It has no contract of its own. `GroupOneDecoding` and `BranchesAreRelative` check it against the 6502 instruction encoding, and `LoadModes`, `StoreModes` and `CellArithmeticModes` give each handler's modes |
| Machine.Dispatch | 6502.c:173-497 | the second switch: every handler that reads an operand finds an addressing mode in the first switch, so the uninitialised mode is never read; BRK is opcode 0x00 and no other |
| Machine.UpdateNZ | 6502.c:397-399 | Negative and Zero describe the byte; every other status bit, register and cell is kept |
| Machine.Execute | 6502.c:382-495 | the contract gives only a well-formed result and an unchanged SP. Each handler's behaviour is stated by `ExecuteLoad`, `ExecuteStore`, `ExecuteRegisterArithmetic`, `ExecuteAdvancesPc` and the `StepOn*` lemmas |
| Machine.Step | 6502.c:169-498 | the contract gives only a well-formed result and an unchanged SP. One instruction's behaviour is stated by `StepUnfold`, `StepAdvancesPc`, `StepHaltsOnlyOnBrk` and the `StepOn*` lemmas |
| Machine.Iterate | 6502.c:503-505 | a bounded run of the loop, when it finishes, ends in a stopped, well-formed machine |
| Machine.Run | 6502.c:500-507 | reset, then steps while running; a finished run is stopped and well formed |
| MachineProperties.ResetForgetsRegisters | 6502.c:64-79 | reset depends on memory alone and leaves PS = 0x14 |
| MachineProperties.AddressIgnoresMemory | 6502.c:82-120 | modes that read no pointer resolve the same address after any memory change |
| MachineProperties.LoadAfterStore | 6502.c:122-140 | for those modes, a load with the same mode and operand reads back what a store wrote |
| MachineProperties.ZeroPageIndexWraps | 6502.c:107-109 | zero-page indexing wraps in page zero: operand 0xFF with X = 2 reaches cell 0x01 |
| MachineProperties.AbsoluteAddressTruncated | 6502.c:84-88 | absolute operand 0x1234 reaches cell 0x34 |
| MachineProperties.StoreThroughOwnPointer | 6502.c:104-106 | through a pointer, a store can redirect the load that follows it |
| MachineProperties.DecrementUndoesIncrement | 6502.c:143-160 | DEC after INC on the same cell restores memory; the only change left is NZ describing the restored byte |
| MachineProperties.GroupOneDecoding | 6502.c:173-366 | for every group-one opcode `aaabbb01`, the mode table lists it with the mode its `bbb` bits encode (zp,X indirect, zp, #, abs, indirect zp,Y, zp,X, abs,Y, abs,X), except 0x89, which is unlisted |
| MachineProperties.BranchesAreRelative | 6502.c:173-366 | the eight branch opcodes `xxy10000` are listed as relative |
| MachineProperties.LoadModes | 6502.c:388-422 | every LDA/LDX/LDY opcode has one of the nine load modes |
| MachineProperties.StoreModes | 6502.c:426-449 | every STA/STX/STY opcode has a memory addressing mode |
| MachineProperties.CellArithmeticModes | 6502.c:453-481 | INC and DEC opcodes use zero page, zero page X, absolute or absolute X |
| MachineProperties.DispatchedModesHaveAddress | 6502.c:173-497 | no handler reaches the 0xFF sentinel, relative or absolute-indirect modes; only loads are immediate |
| MachineProperties.ExecuteAdvancesPc | 6502.c:397-495 | a handler that reads an operand moves PC by one more; the others leave PC alone |
| MachineProperties.StepAdvancesPc | 6502.c:169-498 | one instruction moves PC by 2 if its handler reads an operand, otherwise by 1, modulo 65536 |
| MachineProperties.StepHaltsOnlyOnBrk | 6502.c:382-386 | after a step the engine is running iff it was running and the opcode was not BRK |
| MachineProperties.StepOnBrk | 6502.c:382-386 | BRK sets Break and InterruptDisable, stops the engine, moves PC by one and changes nothing else |
| MachineProperties.StepUnfold | 6502.c:169-498 | a step is the fetch followed by the handler of the opcode under its listed mode |
| MachineProperties.ExecuteLoad | 6502.c:388-422 | the load handler puts the loaded byte in its register with NZ describing it, and keeps the other registers, memory and SP |
| MachineProperties.StepOnLoad | 6502.c:388-422 | the same for a whole LDA/LDX/LDY step, with the operand taken from PC+1 |
| MachineProperties.ExecuteStore | 6502.c:426-449 | the store handler writes its register at the resolved address; only PC changes besides that cell |
| MachineProperties.StepOnStore | 6502.c:426-449 | the same for a whole STA/STX/STY step |
| MachineProperties.ExecuteRegisterArithmetic | 6502.c:461-495 | the INX/INY/DEX/DEY handler moves its register by ±1 modulo 256 with NZ describing it; the other registers, the other status bits, PC, SP, running and memory are kept |
| MachineProperties.StepOnRegisterArithmetic | 6502.c:461-495 | a whole INX/INY/DEX/DEY step moves its register by ±1 modulo 256 with NZ describing it, and moves PC by one; the other registers, the other status bits, SP, running and memory are kept |
| MachineProperties.StepOnCellArithmetic | 6502.c:453-481 | a whole INC/DEC step is `AddToCell` (+1 or -1) on the operand byte after the opcode, with PC two bytes on |
| MachineProperties.InxWrapsToZero | 6502.c:461-466 | INX from 0xFF gives X = 0 with Zero set and Negative clear |
| MachineProperties.StepWithoutHandler | 6502.c:370-380 | ORA and every opcode without a handler only move PC by one |
| MachineProperties.StepKeepsResetBits | 6502.c:368-497 | no instruction clears Unused or Decimal |
| MachineProperties.StepWritesOnlyZeroPage | 6502.c:136-160 | no instruction writes outside page zero |
| MachineProperties.MoreFuel | 6502.c:503-505 | once the loop has stopped, more iterations change nothing |
| MachineProperties.IterateKeeps | 6502.c:503-505 | a property kept by every step holds where the loop stops |
| MachineProperties.RunMoreFuel | 6502.c:500-507 | a run that halts gives the same machine under any larger bound |
| MachineProperties.RunHaltsWithBreakBits | 6502.c:500-507 | every halted run ends with PS containing 0x3C (Break, InterruptDisable, Decimal, Unused) |
| MachineProperties.RunKeepsStackPointer | 6502.c:500-507 | every halted run ends with SP = 0 |
| MachineProperties.RunKeepsHighMemory | 6502.c:500-507 | a halted run never changes memory at 0x0100 and above |
| MachineProperties.LdaImmediateStep | 6502.c:388-400 | LDA #v loads v into A with NZ describing it and moves PC by 2; nothing else changes |
| MachineProperties.BrkProgram | tests.c:48-61 | program `00` from zeroed RAM halts after one step with PC = 1, PS = 0x3C and the other registers 0 |
| MachineProperties.LdaImmediateProgram | tests.c:63-77 | program `A9 10 00` halts after two steps with PC = 3, A = 0x10, PS = 0x3C |
| MachineProperties.LdaNegativeProgram | 6502.c:388-400 | program `A9 80 00` halts with A = 0x80 and Negative set (PS = 0x3D) |
| Memory.Ram.constructor | memory.c:3 | a new RAM has 65536 cells, all 0 |
| Memory.Ram.GetMemoryAtAddress | memory.c:5-7 | returns the byte stored at the address and changes nothing |
| Memory.Ram.LoadRam | memory.c:9-15 | afterwards RAM equals the source buffer as it was before the call, even when the source is the RAM itself; reports 0 |
| Memory.Ram.ResetRam | memory.c:17-23 | afterwards every cell is 0; reports 0 |
| Cpu6502.Cpu.constructor | 6502.c:15 | the global register record starts with every field 0 and the engine stopped |
| Cpu6502.Cpu.SetRegister | 6502.c:125 | the named register receives the value and nothing else changes |
| Cpu6502.Cpu.InitFlags | 6502.c:18-23 | PS becomes exactly Unused and Decimal (0x14); nothing else changes; reports 0 |
| Cpu6502.Cpu.SetFlag | 6502.c:25-28 | PS becomes `Set(PS, mask)`; nothing else changes |
| Cpu6502.Cpu.ClearFlag | 6502.c:30-33 | PS becomes `Clear(PS, mask)`; nothing else changes |
| Cpu6502.Cpu.ModifyNegativeFlag | 6502.c:36-40 | Negative follows bit 7; returns 1 for bytes of 0x80 and above, else 0 |
| Cpu6502.Cpu.ModifyZeroFlag | 6502.c:42-45 | Zero follows `input == 0`; returns 1 iff the input is 0 |
| Cpu6502.Cpu.ModifyOverflowFlag | 6502.c:47-56 | Overflow follows the signed-overflow test; returns 0x80 on overflow, else 0 |
| Cpu6502.Cpu.InitProgramCounter | 6502.c:58-62 | PC's low byte is the cell at 0xFFFC and its high byte the cell at 0xFFFD; nothing else changes |
| Cpu6502.Cpu.ResetCpu | 6502.c:64-79 | the record becomes `Reset` of the old one; reports 0 |
| Cpu6502.Cpu.Load | 6502.c:122-133 | the register receives `LoadValue` of the mode and operand; reports 0 |
| Cpu6502.Cpu.Store | 6502.c:136-140 | memory becomes `StoreAt` of the value, mode and operand; reports 0 |
| Cpu6502.Cpu.IncrementInMemory | 6502.c:143-150 | the engine becomes `AddToCell(+1)` of the old one; reports 0 |
| Cpu6502.Cpu.DecrementInMemory | 6502.c:153-160 | the engine becomes `AddToCell(-1)` of the old one; reports 0 |
| Cpu6502.Cpu.ReadNextByte | 6502.c:163-167 | returns the byte at PC and leaves the engine as `Fetch` does |
| Cpu6502.Cpu.ModifyNegativeAndZero | 6502.c:398-399 | PS becomes the NZ update of the byte |
| Cpu6502.Cpu.Break | 6502.c:382-386 | the engine becomes the BRK handler's result |
| Cpu6502.Cpu.LoadHandler | 6502.c:388-422 | the engine becomes the LDA/LDX/LDY handler's result |
| Cpu6502.Cpu.StoreHandler | 6502.c:426-449 | the engine becomes the STA/STX/STY handler's result |
| Cpu6502.Cpu.IncrementRegister | 6502.c:461-473 | the engine becomes the INX/INY handler's result |
| Cpu6502.Cpu.DecrementRegister | 6502.c:483-495 | the engine becomes the DEX/DEY handler's result |
| Cpu6502.Cpu.ReadInstruction | 6502.c:169-498 | the engine becomes `Step` of the old one, so every `Step` lemma above holds of it |
| Cpu6502.Cpu.RunCpu | 6502.c:500-507 | reports halted iff `Run` finishes within the bound, and then the engine is exactly the machine `Run` gives; reports 0 |
| Scenarios.BrkScenario | tests.c:48-61 | program `00` on the in-place engine halts with PC = 1, PS = 0x3C, SP = A = X = Y = 0 |
| Scenarios.LdaImmediateScenario | tests.c:63-77 | program `A9 10 00` on the in-place engine halts with PC = 3, PS = 0x3C, A = 0x10, SP = X = Y = 0 |

## Left out

- The test driver's `printf` reporting and its `assert` comparisons are I/O. `Scenarios` returns the compared registers instead.
- Declarations that `6502.c` and `6502.h` never use in the engine are not modelled: the function-pointer fields of the CPU record, the commented-out `main`, the `Opcode` enumeration and the `Instruction` record.
- `readInstruction` leaves `address_mode` uninitialised for opcodes it does not list. `Machine.ModeOf` returns `None` for them. No handler that reads the mode is reached with `None` (the contract of `Machine.Dispatch`), so no undefined value is ever used.
- Cpu6502.Cpu.RunCpu: `runCPU` loops until BRK and may never return. The model runs at most `fuel` instructions. When the bound is reached first, the contract reports "not halted" and does not say which machine the engine stopped in.
- `modifyOverflowFlag` is modelled and proved, but no handler calls it; there is no ADC or SBC yet.
- `absolute_indirect` reads `memory[operand + 1]`, which is out of bounds for operand 0xFFFF. `Machine.OperandInRange` excludes that operand. No dispatched opcode uses the mode.
- `isRunning` is an `unsigned int` in C. It only ever holds 0 or 1, so it is modelled as `bool`.
- C's evaluation order of `store(cpu.REG_A, mode, readNextByte())` is unspecified. It does not matter here: `readNextByte` changes only PC.
- Where the code differs from the 6502's documented behaviour, the model follows the code:
  - every effective address is narrowed to one byte, so nothing above page zero is ever addressed;
  - absolute modes read one operand byte, not two;
  - relative mode adds the operand unsigned;
  - the indirect modes keep only the low byte of the pointer (pre-indexed indirect adds X without wrapping to page zero);
  - BRK pushes nothing on the stack;
  - ORA does nothing.
