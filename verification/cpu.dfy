/** The instruction engine as the emulator runs it: one global register
    file updated in place over the shared RAM.  Every method is proved to
    move the register file and memory exactly as the corresponding
    function of module `Machine` moves a snapshot. */
module Cpu6502 {
  import opened Flags
  import opened Machine
  import opened Memory

  /** The global `cpu` record: program counter, stack pointer,
      accumulator, index registers, status byte and the running flag. */
  class Cpu {
    var pc: Word
    var sp: Byte
    var a: Byte
    var x: Byte
    var y: Byte
    var ps: bv8
    var running: bool
    const ram: Ram

    predicate Valid()
    {
      ram.Valid()
    }

    /** The register file and memory as a snapshot. */
    function State(): (s: Machine)
      requires Valid()
      reads this, ram.cells
      ensures WellFormed(s) && s.mem == ram.Contents()
    {
      Machine(pc, sp, a, x, y, ps, running, ram.cells[..])
    }

    /** The global record before anything runs: every field zero, the
        engine not running. */
    constructor (ram: Ram)
      requires ram.Valid()
      ensures this.ram == ram && Valid()
      ensures State() == Machine(0, 0, 0, 0, 0, 0, false, ram.Contents())
    {
      this.ram := ram;
      pc, sp, a, x, y, ps, running := 0, 0, 0, 0, 0, 0, false;
    }

    method SetRegister(r: Reg, v: Byte)
      requires Valid()
      modifies this
      ensures State() == Put(old(State()), r, v)
    {
      match r
      case A => a := v;
      case X => x := v;
      case Y => y := v;
    }

    /** `initFlags`: the status byte becomes Unused and Decimal only. */
    method InitFlags() returns (status: int)
      requires Valid()
      modifies this
      ensures ps == ResetBits
      ensures State() == old(State()).(ps := ps)
      ensures status == 0
    {
      ps := ps & 0x00;
      SetFlag(FlagUnused);
      SetFlag(FlagD);
      status := 0;
    }

    /** `setFlag`: the bits of `mask` become 1, the others keep their value. */
    method SetFlag(mask: bv8)
      requires Valid()
      modifies this
      ensures ps == Set(old(ps), mask)
      ensures State() == old(State()).(ps := ps)
    {
      ps := ps | mask;
    }

    /** `clearFlag`: the bits of `mask` become 0, the others keep their value. */
    method ClearFlag(mask: bv8)
      requires Valid()
      modifies this
      ensures ps == Clear(old(ps), mask)
      ensures State() == old(State()).(ps := ps)
    {
      ps := ps & !mask;
    }

    /** `modifyNegativeFlag`: Negative follows bit 7 of `input`, which is
        also the result. */
    method ModifyNegativeFlag(input: Byte) returns (bit: int)
      requires Valid()
      modifies this
      ensures ps == WithNegative(old(ps), input)
      ensures State() == old(State()).(ps := ps)
      ensures bit == if input >= 0x80 then 1 else 0
    {
      bit := SignOf(input) as int;  // input >> 7
      if bit != 0 {
        SetFlag(FlagN);
      } else {
        ClearFlag(FlagN);
      }
    }

    /** `modifyZeroFlag`: Zero follows `input == 0`, which is also the
        result (1 or 0). */
    method ModifyZeroFlag(input: Byte) returns (isZero: int)
      requires Valid()
      modifies this
      ensures ps == WithZero(old(ps), input)
      ensures State() == old(State()).(ps := ps)
      ensures isZero == if input == 0 then 1 else 0
    {
      if input == 0x00 {
        SetFlag(FlagZ);
      } else {
        ClearFlag(FlagZ);
      }
      isZero := if input == 0x00 then 1 else 0;
    }

    /** `modifyOverflowFlag`: Overflow follows the signed-overflow test on
        two addends and their sum; the result is 0x80 on overflow, else 0. */
    method ModifyOverflowFlag(input1: Byte, input2: Byte, result: Byte) returns (overflow: int)
      requires Valid()
      modifies this
      ensures ps == WithOverflow(old(ps), input1, input2, result)
      ensures State() == old(State()).(ps := ps)
      ensures overflow == if SignedOverflow(input1, input2, result) then 0x80 else 0
    {
      var mask := OverflowMask(input1, input2, result);
      overflow := mask as int;
      if overflow != 0 {
        SetFlag(FlagV);
      } else {
        ClearFlag(FlagV);
      }
    }

    /** `initProgramCounter`: PC is loaded from the little-endian reset
        vector at 0xFFFC. */
    method InitProgramCounter() returns (status: int)
      requires Valid()
      modifies this
      ensures pc % 0x100 == ram.cells[0xFFFC] && pc / 0x100 == ram.cells[0xFFFD]
      ensures State() == old(State()).(pc := pc)
      ensures status == 0
    {
      // memory[0xFFFD] << 8 | memory[0xFFFC]: the low byte fits below the shift
      pc := ram.cells[0xFFFD] as int * 0x100 + ram.cells[0xFFFC];
      status := 0;
    }

    /** `resetCPU`: every register cleared, flags and PC initialised, the
        engine marked running. */
    method ResetCpu() returns (status: int)
      requires Valid()
      modifies this
      ensures State() == Reset(old(State()))
      ensures status == 0
    {
      pc := 0;
      ps := ps & 0x00;
      sp := 0;
      a := 0;
      x := 0;
      y := 0;
      var _ := InitFlags();
      var _ := InitProgramCounter();
      running := true;
      status := 0;
    }

    /** `load`: the register receives the immediate operand or the byte at
        the effective address. */
    method Load(r: Reg, mode: AddrMode, operand: Word) returns (status: int)
      requires Valid() && OperandInRange(mode, operand)
      modifies this
      ensures State() == Put(old(State()), r, LoadValue(old(State()), mode, operand))
      ensures status == 0
    {
      var v: Byte;
      if mode == Immediate {
        v := ToUnsignedChar(operand);
      } else {
        var address := EffectiveAddress(State(), mode, operand);
        v := ram.cells[address];
      }
      SetRegister(r, v);
      status := 0;
    }

    /** `store`: `value` is written at the effective address. */
    method Store(value: Byte, mode: AddrMode, operand: Word) returns (status: int)
      requires Valid() && OperandInRange(mode, operand)
      modifies ram.cells
      ensures State() == StoreAt(old(State()), value, mode, operand)
      ensures status == 0
    {
      var address := EffectiveAddress(State(), mode, operand);
      ram.cells[address] := value;
      status := 0;
    }

    /** `incrementInMemory`: the cell at the effective address goes up by
        one modulo 256; Negative and Zero follow its new value. */
    method IncrementInMemory(mode: AddrMode, operand: Byte) returns (status: int)
      requires Valid()
      modifies this, ram.cells
      ensures State() == AddToCell(old(State()), 1, mode, operand)
      ensures status == 0
    {
      var address := EffectiveAddress(State(), mode, operand);
      ram.cells[address] := (ram.cells[address] as int + 1) % 0x100;
      var result := ram.cells[address];
      var _ := ModifyNegativeFlag(result);
      var _ := ModifyZeroFlag(result);
      status := 0;
    }

    /** `decrementInMemory`: the cell at the effective address goes down by
        one modulo 256; Negative and Zero follow its new value. */
    method DecrementInMemory(mode: AddrMode, operand: Byte) returns (status: int)
      requires Valid()
      modifies this, ram.cells
      ensures State() == AddToCell(old(State()), -1, mode, operand)
      ensures status == 0
    {
      var address := EffectiveAddress(State(), mode, operand);
      ram.cells[address] := (ram.cells[address] as int - 1) % 0x100;
      var result := ram.cells[address];
      var _ := ModifyNegativeFlag(result);
      var _ := ModifyZeroFlag(result);
      status := 0;
    }

    /** `readNextByte`: the byte at PC; PC moves on by one modulo 65536. */
    method ReadNextByte() returns (b: Byte)
      requires Valid()
      modifies this
      ensures (b, State()) == Fetch(old(State()))
    {
      b := ram.cells[pc];
      pc := (pc + 1) % 0x1_0000;
    }

    /** Negative and Zero follow `v`, as after every load and register
        increment or decrement. */
    method ModifyNegativeAndZero(v: Byte)
      requires Valid()
      modifies this
      ensures State() == UpdateNZ(old(State()), v)
    {
      var _ := ModifyNegativeFlag(v);
      var _ := ModifyZeroFlag(v);
    }

    /** The BRK handler: Break and InterruptDisable set, engine stopped. */
    method Break()
      requires Valid()
      modifies this
      ensures State() == Execute(old(State()), Brk, None)
    {
      SetFlag(FlagB);
      SetFlag(FlagI);
      running := false;
    }

    /** The LDA, LDX and LDY handlers. */
    method LoadHandler(r: Reg, mode: AddrMode)
      requires Valid()
      modifies this
      ensures State() == Execute(old(State()), LoadReg(r), Some(mode))
    {
      var operand := ReadNextByte();
      var _ := Load(r, mode, operand);
      ModifyNegativeAndZero(Get(State(), r));
    }

    /** The STA, STX and STY handlers. */
    method StoreHandler(r: Reg, mode: AddrMode)
      requires Valid()
      modifies this, ram.cells
      ensures State() == Execute(old(State()), StoreReg(r), Some(mode))
    {
      var operand := ReadNextByte();
      var _ := Store(Get(State(), r), mode, operand);
    }

    /** The INX and INY handlers: the register goes up by one modulo 256. */
    method IncrementRegister(r: Reg)
      requires Valid()
      modifies this
      ensures State() == Execute(old(State()), IncReg(r), None)
    {
      SetRegister(r, (Get(State(), r) + 1) % 0x100);
      ModifyNegativeAndZero(Get(State(), r));
    }

    /** The DEX and DEY handlers: the register goes down by one modulo 256. */
    method DecrementRegister(r: Reg)
      requires Valid()
      modifies this
      ensures State() == Execute(old(State()), DecReg(r), None)
    {
      SetRegister(r, (Get(State(), r) + 0xFF) % 0x100);
      ModifyNegativeAndZero(Get(State(), r));
    }

    /** `readInstruction`: fetch the opcode, look up its addressing mode,
        run its handler. */
    method ReadInstruction()
      requires Valid()
      modifies this, ram.cells
      ensures State() == Step(old(State()))
    {
      var opcode := ReadNextByte();
      var mode := ModeOf(opcode);
      match Dispatch(opcode)
      case OraStub =>
      case NoHandler =>
      case Brk =>
        Break();
      case LoadReg(r) =>
        LoadHandler(r, mode.value);
      case StoreReg(r) =>
        StoreHandler(r, mode.value);
      case IncMem =>
        var operand := ReadNextByte();
        var _ := IncrementInMemory(mode.value, operand);
      case DecMem =>
        var operand := ReadNextByte();
        var _ := DecrementInMemory(mode.value, operand);
      case IncReg(r) =>
        IncrementRegister(r);
      case DecReg(r) =>
        DecrementRegister(r);
    }

    /** `runCPU`: reset, then run instructions while the engine is marked
        running, for at most `fuel` instructions.  `halted` tells whether
        a BRK stopped the engine within that bound; if so the register
        file and memory are the machine `Run` gives. */
    method RunCpu(fuel: nat) returns (status: int, halted: bool)
      requires Valid()
      modifies this, ram.cells
      ensures halted <==> Run(old(State()), fuel).Some?
      ensures halted ==> Run(old(State()), fuel) == Some(State())
      ensures status == 0
    {
      ghost var initial := State();
      var _ := ResetCpu();
      RunFromReset(initial, fuel);
      var remaining := fuel;
      while running && remaining > 0
        invariant Valid()
        invariant Iterate(Step, State(), remaining) == Run(initial, fuel)
      {
        ghost var before, fuelBefore := State(), remaining;
        ReadInstruction();
        remaining := remaining - 1;
        RunOneStep(before, fuelBefore, remaining);
      }
      halted := !running;
      status := 0;
    }
  }
}
