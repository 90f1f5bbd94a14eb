/** A value-level description of the emulator's instruction engine.

    `Machine` is one snapshot of the global register file together with
    the 64 KiB memory.  Every operation of the engine is given here as a
    function from the snapshot before to the snapshot after; the class
    `Cpu6502.Cpu` performs the same operations in place and proves that
    it agrees with these functions.
 */
module Machine {
  import opened Flags

  /** A 16-bit value: the program counter, an address. */
  type Word = w: int | 0 <= w < 0x1_0000

  const MemorySize: int := 0x1_0000

  datatype Option<T> = None | Some(value: T)

  /** The register file (program counter, stack pointer, accumulator,
      index registers, status byte and the running flag) plus memory. */
  datatype Machine = Machine(
    pc: Word,
    sp: Byte,
    a: Byte,
    x: Byte,
    y: Byte,
    ps: bv8,
    running: bool,
    mem: seq<Byte>)

  predicate WellFormed(s: Machine)
  {
    |s.mem| == MemorySize
  }

  /** Memory of 65536 zero bytes; its reset vector points at address 0. */
  function ZeroMemory(): (m: seq<Byte>)
    ensures |m| == MemorySize && forall i :: 0 <= i < MemorySize ==> m[i] == 0
  {
    seq(MemorySize, _ => 0)
  }

  /** The thirteen addressing modes. */
  datatype AddrMode =
    | Implied
    | Accumulator
    | Immediate
    | Absolute
    | ZeroPage
    | Relative
    | AbsoluteIndirect
    | AbsoluteIdxX
    | AbsoluteIdxY
    | ZeroPageIdxX
    | ZeroPageIdxY
    | ZeroPageIdxIndirectX
    | ZeroPageIndirectIdxY

  /** The registers a load or an increment can name. */
  datatype Reg = A | X | Y

  function Get(s: Machine, r: Reg): Byte
  {
    match r
    case A => s.a
    case X => s.x
    case Y => s.y
  }

  function Put(s: Machine, r: Reg, v: Byte): (t: Machine)
    ensures Get(t, r) == v
    ensures forall q :: q != r ==> Get(t, q) == Get(s, q)
    ensures t.pc == s.pc && t.sp == s.sp && t.ps == s.ps && t.running == s.running && t.mem == s.mem
  {
    match r
    case A => s.(a := v)
    case X => s.(x := v)
    case Y => s.(y := v)
  }

  /** Conversion of a non-negative-or-minus-one integer to `unsigned char`:
      reduction modulo 256 (so -1 becomes 0xFF). */
  function ToUnsignedChar(v: int): Byte
  {
    v % 0x100
  }

  /** The resolver reads `memory[operand + 1]` in absolute-indirect mode,
      which lies inside memory only below 0xFFFF. */
  predicate OperandInRange(mode: AddrMode, operand: Word)
  {
    mode == AbsoluteIndirect ==> operand < 0xFFFF
  }

  /** Whether the resolver reads memory to find the address. */
  predicate ReadsPointer(mode: AddrMode)
  {
    mode == AbsoluteIndirect || mode == ZeroPageIdxIndirectX || mode == ZeroPageIndirectIdxY
  }

  /** `getMemAddress`: the effective address of an operand, computed with
      C's int arithmetic and then narrowed to the function's `unsigned
      char` return type.  The high byte of every address is therefore
      lost, a pointer's high byte included; relative mode adds the
      operand without sign extension; the modes without an address
      (implied, accumulator, immediate) give the `-1` sentinel, 0xFF. */
  function EffectiveAddress(s: Machine, mode: AddrMode, operand: Word): Byte
    requires WellFormed(s) && OperandInRange(mode, operand)
  {
    var low := operand % 0x100;  // (unsigned char)operand
    match mode
    case Absolute => ToUnsignedChar(operand)
    case AbsoluteIndirect => ToUnsignedChar(s.mem[operand + 1] as int * 0x100 + s.mem[operand])
    case AbsoluteIdxX => ToUnsignedChar(operand + s.x)
    case AbsoluteIdxY => ToUnsignedChar(operand + s.y)
    case Relative => ToUnsignedChar(s.pc + low)
    case ZeroPage => ToUnsignedChar(low)
    case ZeroPageIdxIndirectX => ToUnsignedChar(s.mem[low + s.x + 1] as int * 0x100 + s.mem[low + s.x])
    case ZeroPageIdxX => ToUnsignedChar(low + s.x)
    case ZeroPageIdxY => ToUnsignedChar(low + s.y)
    case ZeroPageIndirectIdxY => ToUnsignedChar(s.mem[low + 1] as int * 0x100 + s.mem[low] + s.y)
    case _ => ToUnsignedChar(-1)
  }

  /** Absolute and zero-page modes address the operand's low byte. */
  lemma DirectAddress(s: Machine, mode: AddrMode, operand: Word)
    requires WellFormed(s) && (mode == Absolute || mode == ZeroPage)
    ensures EffectiveAddress(s, mode, operand) == operand % 0x100
  {
  }

  /** Indexed modes add the index register and wrap within page zero. */
  lemma IndexedAddress(s: Machine, mode: AddrMode, operand: Word)
    requires WellFormed(s)
    ensures mode == AbsoluteIdxX || mode == ZeroPageIdxX ==>
      EffectiveAddress(s, mode, operand) == (operand + s.x) % 0x100
    ensures mode == AbsoluteIdxY || mode == ZeroPageIdxY ==>
      EffectiveAddress(s, mode, operand) == (operand + s.y) % 0x100
  {
    if mode == ZeroPageIdxX {
      LowByteSuffices(operand, s.x);
    } else if mode == ZeroPageIdxY {
      LowByteSuffices(operand, s.y);
    }
  }

  /** Relative mode adds the operand, unsigned, to PC and keeps the low byte. */
  lemma RelativeAddress(s: Machine, operand: Word)
    requires WellFormed(s)
    ensures EffectiveAddress(s, Relative, operand) == (s.pc + operand) % 0x100
  {
    LowByteSuffices(operand, s.pc);
  }

  /** The indirect modes keep only the low byte of the pointer they read:
      the cell at the operand (absolute indirect), the cell at the
      zero-page operand plus X, not wrapped (indexed indirect), or the cell
      at the zero-page operand plus Y, wrapped (indirect indexed). */
  lemma IndirectAddress(s: Machine, mode: AddrMode, operand: Word)
    requires WellFormed(s) && OperandInRange(mode, operand)
    ensures mode == AbsoluteIndirect ==> EffectiveAddress(s, mode, operand) == s.mem[operand]
    ensures mode == ZeroPageIdxIndirectX ==>
      EffectiveAddress(s, mode, operand) == s.mem[operand % 0x100 + s.x]
    ensures mode == ZeroPageIndirectIdxY ==>
      EffectiveAddress(s, mode, operand) == (s.mem[operand % 0x100] + s.y) % 0x100
  {
    var low := operand % 0x100;
    if mode == AbsoluteIndirect {
      HighByteDropped(s.mem[operand + 1], s.mem[operand]);
    } else if mode == ZeroPageIdxIndirectX {
      HighByteDropped(s.mem[low + s.x + 1], s.mem[low + s.x]);
    } else if mode == ZeroPageIndirectIdxY {
      HighByteDropped(s.mem[low + 1], s.mem[low] + s.y);
    }
  }

  /** The modes without an address give the `-1` sentinel, read as 0xFF. */
  lemma SentinelAddress(s: Machine, mode: AddrMode, operand: Word)
    requires WellFormed(s) && (mode == Implied || mode == Accumulator || mode == Immediate)
    ensures EffectiveAddress(s, mode, operand) == 0xFF
  {
  }

  /** Narrowing to 8 bits keeps only the low byte: whatever is added in
      multiples of 256 disappears. */
  lemma HighByteDropped(hi: int, rest: int)
    ensures ToUnsignedChar(hi * 0x100 + rest) == rest % 0x100
  {
  }

  /** Only the low byte of `operand` matters to a sum narrowed to 8 bits. */
  lemma LowByteSuffices(operand: int, index: int)
    ensures (operand % 0x100 + index) % 0x100 == (operand + index) % 0x100
  {
  }

  /** `load`: the byte a load puts in its register.  An immediate operand is
      narrowed to 8 bits; any other mode reads the cell at the effective
      address. */
  function LoadValue(s: Machine, mode: AddrMode, operand: Word): (v: Byte)
    requires WellFormed(s) && OperandInRange(mode, operand)
    ensures mode == Immediate ==> v == operand % 0x100
    ensures mode != Immediate ==> v == s.mem[EffectiveAddress(s, mode, operand)]
  {
    if mode == Immediate then ToUnsignedChar(operand)
    else s.mem[EffectiveAddress(s, mode, operand)]
  }

  /** `store`: memory after `value` is written at the effective address. */
  function StoreAt(s: Machine, value: Byte, mode: AddrMode, operand: Word): (t: Machine)
    requires WellFormed(s) && OperandInRange(mode, operand)
    ensures WellFormed(t)
    ensures t.mem[EffectiveAddress(s, mode, operand)] == value
    ensures forall i :: 0 <= i < MemorySize && i != EffectiveAddress(s, mode, operand) ==> t.mem[i] == s.mem[i]
    ensures t.(mem := s.mem) == s
  {
    s.(mem := s.mem[EffectiveAddress(s, mode, operand) := value])
  }

  /** `incrementInMemory` (delta 1) and `decrementInMemory` (delta -1):
      the cell at the effective address moves by `delta` modulo 256, and
      Negative and Zero follow its new value. */
  function AddToCell(s: Machine, delta: int, mode: AddrMode, operand: Byte): (t: Machine)
    requires WellFormed(s) && (delta == 1 || delta == -1)
    ensures WellFormed(t)
    ensures var k := EffectiveAddress(s, mode, operand);
      && (t.mem[k] as int + 0x100 - s.mem[k]) % 0x100 == delta % 0x100
      && t.mem == s.mem[k := t.mem[k]]
      && (t.ps & FlagN != 0 <==> t.mem[k] >= 0x80)
      && (t.ps & FlagZ != 0 <==> t.mem[k] == 0)
      && t.ps & !(FlagN | FlagZ) == s.ps & !(FlagN | FlagZ)
    ensures t.(mem := s.mem, ps := s.ps) == s
  {
    var k := EffectiveAddress(s, mode, operand);
    var v := (s.mem[k] + delta) % 0x100;
    s.(mem := s.mem[k := v], ps := WithNZ(s.ps, v))
  }

  /** `readNextByte`: the byte at PC, and the machine with PC advanced by
      one modulo 65536. */
  function Fetch(s: Machine): (r: (Byte, Machine))
    requires WellFormed(s)
    ensures r.0 == s.mem[s.pc]
    ensures r.1.pc == (s.pc + 1) % 0x1_0000 && r.1.(pc := s.pc) == s
  {
    (s.mem[s.pc], s.(pc := (s.pc + 1) % 0x1_0000))
  }

  /** The little-endian reset vector at 0xFFFC (low) and 0xFFFD (high). */
  function ResetVector(mem: seq<Byte>): (pc: Word)
    requires |mem| == MemorySize
    ensures pc % 0x100 == mem[0xFFFC] && pc / 0x100 == mem[0xFFFD]
  {
    mem[0xFFFD] as int * 0x100 + mem[0xFFFC]
  }

  /** `resetCPU`: registers cleared, flags re-initialised to Unused and
      Decimal, PC loaded from the reset vector, engine running; memory
      untouched. */
  function Reset(s: Machine): (t: Machine)
    requires WellFormed(s)
    ensures t.a == 0 && t.x == 0 && t.y == 0 && t.sp == 0
    ensures t.ps & (FlagUnused | FlagD) == FlagUnused | FlagD
    ensures t.ps & !(FlagUnused | FlagD) == 0
    ensures t.pc == s.mem[0xFFFD] as int * 0x100 + s.mem[0xFFFC]
    ensures t.running && t.mem == s.mem
  {
    var ps := Set(Set(s.ps & 0x00, FlagUnused), FlagD);
    Machine(ResetVector(s.mem), 0, 0, 0, 0, ps, true, s.mem)
  }

  /** The first switch of `readInstruction`: the addressing mode of each
      listed opcode.  Opcodes not listed have none. */
  function ModeOf(opcode: Byte): Option<AddrMode>
  {
    match opcode
    case 0x0A | 0x2A | 0x4A | 0x6A => Some(Accumulator)
    case 0x00 | 0x08 | 0x18 | 0x28 | 0x38 | 0x40 | 0x48 | 0x58 | 0x60 | 0x68 | 0x78 | 0x88 | 0x8A
       | 0x98 | 0x9A | 0xA8 | 0xAA | 0xB8 | 0xBA | 0xC8 | 0xCA | 0xD8 | 0xE8 | 0xEA | 0xF8 => Some(Implied)
    case 0x09 | 0x29 | 0x49 | 0x69 | 0xA0 | 0xA2 | 0xA9 | 0xC0 | 0xC9 | 0xE0 | 0xE9 => Some(Immediate)
    case 0x10 | 0x30 | 0x50 | 0x70 | 0x90 | 0xB0 | 0xD0 | 0xF0 => Some(Relative)
    case 0x05 | 0x06 | 0x24 | 0x25 | 0x26 | 0x45 | 0x46 | 0x65 | 0x66 | 0x84 | 0x85 | 0x86 | 0xA4
       | 0xA5 | 0xA6 | 0xC4 | 0xC5 | 0xC6 | 0xE4 | 0xE5 | 0xE6 => Some(ZeroPage)
    case 0x15 | 0x16 | 0x35 | 0x36 | 0x55 | 0x56 | 0x75 | 0x76 | 0x94 | 0x95 | 0xB4 | 0xB5 | 0xD5
       | 0xD6 | 0xF5 | 0xF6 => Some(ZeroPageIdxX)
    case 0x96 | 0xB6 => Some(ZeroPageIdxY)
    case 0x0D | 0x0E | 0x20 | 0x2C | 0x2D | 0x2E | 0x4C | 0x4D | 0x4E | 0x6D | 0x6E | 0x8C | 0x8D
       | 0x8E | 0xAC | 0xAD | 0xAE | 0xCC | 0xCD | 0xCE | 0xEC | 0xED | 0xEE => Some(Absolute)
    case 0x1D | 0x1E | 0x3D | 0x3E | 0x5D | 0x5E | 0x7D | 0x7E | 0x9D | 0xBC | 0xBD | 0xDD | 0xDE
       | 0xFD | 0xFE => Some(AbsoluteIdxX)
    case 0x19 | 0x39 | 0x59 | 0x79 | 0x99 | 0xB9 | 0xBE | 0xD9 | 0xF9 => Some(AbsoluteIdxY)
    case 0x6C => Some(AbsoluteIndirect)
    case 0x11 | 0x31 | 0x51 | 0x71 | 0x91 | 0xB1 | 0xD1 | 0xF1 => Some(ZeroPageIndirectIdxY)
    case 0x01 | 0x21 | 0x41 | 0x61 | 0x81 | 0xA1 | 0xC1 | 0xE1 => Some(ZeroPageIdxIndirectX)
    case _ => None
  }

  /** The handlers of the second switch of `readInstruction`. */
  datatype Operation =
    | Brk                 // BRK
    | LoadReg(dest: Reg)  // LDA, LDX, LDY
    | StoreReg(src: Reg)  // STA, STX, STY
    | IncMem              // INC
    | DecMem              // DEC
    | IncReg(r: Reg)      // INX, INY
    | DecReg(r: Reg)      // DEX, DEY
    | OraStub             // ORA: listed, no effect yet
    | NoHandler           // every other opcode
  {
    /** The handlers that read an operand byte after the opcode. */
    predicate TakesOperand()
    {
      LoadReg? || StoreReg? || IncMem? || DecMem?
    }
  }

  /** The second switch of `readInstruction`: which handler an opcode
      runs.  Every handler that uses an addressing mode finds one in the
      first switch, so the uninitialised mode is never read; BRK is the
      only opcode that stops the engine. */
  function Dispatch(opcode: Byte): (op: Operation)
    ensures op.TakesOperand() ==> ModeOf(opcode).Some?
    ensures op.Brk? <==> opcode == 0x00
  {
    match opcode
    case 0x01 | 0x05 | 0x09 | 0x0D | 0x11 | 0x15 | 0x19 | 0x1D => OraStub
    case 0x00 => Brk
    case 0xA1 | 0xA5 | 0xA9 | 0xAD | 0xB1 | 0xB5 | 0xB9 | 0xBD => LoadReg(A)
    case 0xA2 | 0xA6 | 0xAE | 0xB6 | 0xBE => LoadReg(X)
    case 0xA0 | 0xA4 | 0xAC | 0xB4 | 0xBC => LoadReg(Y)
    case 0x81 | 0x85 | 0x8D | 0x91 | 0x95 | 0x99 | 0x9D => StoreReg(A)
    case 0x86 | 0x8E | 0x96 => StoreReg(X)
    case 0x84 | 0x8C | 0x94 => StoreReg(Y)
    case 0xE6 | 0xEE | 0xF6 | 0xFE => IncMem
    case 0xE8 => IncReg(X)
    case 0xC8 => IncReg(Y)
    case 0xC6 | 0xCE | 0xD6 | 0xDE => DecMem
    case 0xCA => DecReg(X)
    case 0x88 => DecReg(Y)
    case _ => NoHandler
  }

  /** The flag update after a load or a register increment/decrement:
      Negative and Zero describe `v`; nothing else changes. */
  function UpdateNZ(s: Machine, v: Byte): (t: Machine)
    ensures t.ps & FlagN != 0 <==> v >= 0x80
    ensures t.ps & FlagZ != 0 <==> v == 0
    ensures t.ps & !(FlagN | FlagZ) == s.ps & !(FlagN | FlagZ)
    ensures t.(ps := s.ps) == s
  {
    s.(ps := WithNZ(s.ps, v))
  }

  /** The handler `op` run on `s1`, the machine whose PC has just moved
      past the opcode; `mode` is the opcode's entry in the mode table. */
  function Execute(s1: Machine, op: Operation, mode: Option<AddrMode>): (t: Machine)
    requires WellFormed(s1) && (op.TakesOperand() ==> mode.Some?)
    ensures WellFormed(t)
    ensures t.sp == s1.sp
  {
    match op
    case OraStub => s1
    case NoHandler => s1
    case Brk => s1.(ps := Set(Set(s1.ps, FlagB), FlagI), running := false)
    case LoadReg(r) =>
      var (operand, s2) := Fetch(s1);
      var s3 := Put(s2, r, LoadValue(s2, mode.value, operand));
      UpdateNZ(s3, Get(s3, r))
    case StoreReg(r) =>
      var (operand, s2) := Fetch(s1);
      StoreAt(s2, Get(s2, r), mode.value, operand)
    case IncMem =>
      var (operand, s2) := Fetch(s1);
      AddToCell(s2, 1, mode.value, operand)
    case DecMem =>
      var (operand, s2) := Fetch(s1);
      AddToCell(s2, -1, mode.value, operand)
    case IncReg(r) =>
      var s2 := Put(s1, r, (Get(s1, r) + 1) % 0x100);
      UpdateNZ(s2, Get(s2, r))
    case DecReg(r) =>
      var s2 := Put(s1, r, (Get(s1, r) + 0xFF) % 0x100);
      UpdateNZ(s2, Get(s2, r))
  }

  /** `readInstruction`: one fetch-decode-execute step. */
  function Step(s: Machine): (t: Machine)
    requires WellFormed(s)
    ensures WellFormed(t)
    ensures t.sp == s.sp
  {
    var (opcode, s1) := Fetch(s);
    Execute(s1, Dispatch(opcode), ModeOf(opcode))
  }

  /** A step function that keeps machines well formed. */
  ghost predicate ClosedStep(next: Machine --> Machine)
  {
    forall m :: WellFormed(m) ==> next.requires(m) && WellFormed(next(m))
  }

  lemma StepClosed()
    ensures ClosedStep(Step)
  {
  }

  /** The `while (cpu.isRunning)` loop of `runCPU` with `next` as its body,
      bounded by `fuel` iterations: the halted machine, or None when the
      fuel runs out first. */
  function Iterate(next: Machine --> Machine, s: Machine, fuel: nat): (r: Option<Machine>)
    requires WellFormed(s) && ClosedStep(next)
    ensures r.Some? ==> !r.value.running && WellFormed(r.value)
    decreases fuel
  {
    if !s.running then Some(s)
    else if fuel == 0 then None
    else Iterate(next, next(s), fuel - 1)
  }

  /** One turn of the loop: a running machine with `fuel` left takes one
      step and continues with `rest`, one unit less. */
  lemma IterateOnce(next: Machine --> Machine, s: Machine, fuel: nat, rest: nat)
    requires WellFormed(s) && ClosedStep(next) && s.running && fuel == rest + 1
    ensures WellFormed(next(s))
    ensures Iterate(next, s, fuel) == Iterate(next, next(s), rest)
  {
  }

  lemma RunOneStep(s: Machine, fuel: nat, rest: nat)
    requires WellFormed(s) && s.running && fuel == rest + 1
    ensures ClosedStep(Step)
    ensures Iterate(Step, s, fuel) == Iterate(Step, Step(s), rest)
  {
    StepClosed();
    IterateOnce(Step, s, fuel, rest);
  }

  /** `runCPU`: reset, then step until halted (at most `fuel` steps). */
  function Run(s: Machine, fuel: nat): (r: Option<Machine>)
    requires WellFormed(s)
    ensures r.Some? ==> !r.value.running && WellFormed(r.value)
  {
    StepClosed();
    Iterate(Step, Reset(s), fuel)
  }

  /** A run is the loop started from the reset machine. */
  lemma RunFromReset(s: Machine, fuel: nat)
    requires WellFormed(s)
    ensures ClosedStep(Step)
    ensures Run(s, fuel) == Iterate(Step, Reset(s), fuel)
  {
    StepClosed();
  }
}
