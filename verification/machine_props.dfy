/** Properties of the instruction engine, stated over the value-level
    model in module `Machine`. */
module MachineProperties {
  import opened Flags
  import opened Machine

  /** Reset is determined by memory alone: whatever the registers held
      before, the machine after reset is the same. */
  lemma ResetForgetsRegisters(s: Machine, s': Machine)
    requires WellFormed(s) && WellFormed(s') && s.mem == s'.mem
    ensures Reset(s) == Reset(s')
    ensures Reset(s).ps == ResetBits
  {
  }

  /** The resolver of a mode that does not go through a pointer reads
      only registers, so changing memory does not move the address. */
  lemma AddressIgnoresMemory(s: Machine, s': Machine, mode: AddrMode, operand: Word)
    requires WellFormed(s) && WellFormed(s') && OperandInRange(mode, operand)
    requires !ReadsPointer(mode)
    requires s'.pc == s.pc && s'.x == s.x && s'.y == s.y
    ensures EffectiveAddress(s', mode, operand) == EffectiveAddress(s, mode, operand)
  {
  }

  /** A load through the same mode and operand reads back what a store
      wrote, for every mode whose address does not depend on memory. */
  lemma LoadAfterStore(s: Machine, value: Byte, mode: AddrMode, operand: Word)
    requires WellFormed(s) && OperandInRange(mode, operand)
    requires mode != Immediate && !ReadsPointer(mode)
    ensures LoadValue(StoreAt(s, value, mode, operand), mode, operand) == value
  {
    AddressIgnoresMemory(s, StoreAt(s, value, mode, operand), mode, operand);
  }

  /** Zero-page indexing wraps within page zero: operand 0xFF with X = 2
      addresses cell 0x01. */
  lemma ZeroPageIndexWraps(s: Machine)
    requires WellFormed(s) && s.x == 2
    ensures EffectiveAddress(s, ZeroPageIdxX, 0xFF) == 0x01
  {
    IndexedAddress(s, ZeroPageIdxX, 0xFF);
  }

  /** Absolute addressing keeps only the low byte of the operand: a
      two-byte address such as 0x1234 lands on cell 0x34 of page zero. */
  lemma AbsoluteAddressTruncated(s: Machine)
    requires WellFormed(s)
    ensures EffectiveAddress(s, Absolute, 0x1234) == 0x34
  {
    DirectAddress(s, Absolute, 0x1234);
  }

  /** Through a pointer the round trip can fail: with X = 0 and zero-page
      cell 0 holding 0, pre-indexed indirect operand 0 addresses cell 0;
      storing 5 there redirects the same load to cell 5. */
  lemma StoreThroughOwnPointer(s: Machine)
    requires WellFormed(s) && s.x == 0 && s.mem[0] == 0 && s.mem[5] == 7
    ensures EffectiveAddress(s, ZeroPageIdxIndirectX, 0) == 0
    ensures LoadValue(StoreAt(s, 5, ZeroPageIdxIndirectX, 0), ZeroPageIdxIndirectX, 0) == 7
  {
  }

  /** A byte whose difference from `b` modulo 256 is `d` is `b + d`
      modulo 256. */
  lemma ByteDifference(a: Byte, b: Byte, d: int)
    requires (a as int + 0x100 - b) % 0x100 == d % 0x100
    ensures a == (b + d) % 0x100
  {
    if a >= b {
      assert (a as int + 0x100 - b) % 0x100 == a - b;
    } else {
      assert (a as int + 0x100 - b) % 0x100 == a + 0x100 - b;
    }
  }

  /** A cell moved up by one and then down by one, modulo 256, holds
      its first value again. */
  lemma CellRestored(m: seq<Byte>, m1: seq<Byte>, m2: seq<Byte>, k: int)
    requires 0 <= k < |m| == |m1| == |m2|
    requires m1 == m[k := m1[k]] && m2 == m1[k := m2[k]]
    requires (m1[k] as int + 0x100 - m[k]) % 0x100 == 1
    requires (m2[k] as int + 0x100 - m1[k]) % 0x100 == 0xFF
    ensures m2 == m
  {
    ByteDifference(m1[k], m[k], 1);
    ByteDifference(m2[k], m1[k], -1);
    if m[k] == 0xFF {
      assert m1[k] == 0;
    } else {
      assert m1[k] == m[k] + 1;
    }
    assert m2 == m[k := m2[k]];
  }

  /** Decrementing the cell that was just incremented restores memory; the
      only trace left is that Negative and Zero describe the restored
      value. */
  lemma DecrementUndoesIncrement(s: Machine, mode: AddrMode, operand: Byte)
    requires WellFormed(s) && !ReadsPointer(mode)
    ensures AddToCell(AddToCell(s, 1, mode, operand), -1, mode, operand)
         == UpdateNZ(s, s.mem[EffectiveAddress(s, mode, operand)])
  {
    var k := EffectiveAddress(s, mode, operand);
    var v := s.mem[k];
    var s1 := AddToCell(s, 1, mode, operand);
    var s2 := AddToCell(s1, -1, mode, operand);
    AddressIgnoresMemory(s, s1, mode, operand);
    CellRestored(s.mem, s1.mem, s2.mem, k);
    NZDetermined(s.ps, s2.ps, v);
  }

  /** The opcode at PC. */
  function OpcodeAt(s: Machine): Byte
    requires WellFormed(s)
  {
    s.mem[s.pc]
  }

  /** Reference decoding of the 6502's group-one instructions (ORA, AND,
      EOR, ADC, STA, LDA, CMP, SBC: opcodes `aaabbb01`), whose bits
      `bbb` select the addressing mode. */
  function GroupOneMode(bbb: int): AddrMode
    requires 0 <= bbb < 8
  {
    match bbb
    case 0 => ZeroPageIdxIndirectX
    case 1 => ZeroPage
    case 2 => Immediate
    case 3 => Absolute
    case 4 => ZeroPageIndirectIdxY
    case 5 => ZeroPageIdxX
    case 6 => AbsoluteIdxY
    case _ => AbsoluteIdxX
  }

  /** The mode table agrees with the instruction encoding for the whole
      of group one: opcode `aaabbb01` is listed with the mode its `bbb`
      bits select, except `89`, which encodes no instruction. */
  lemma GroupOneDecoding(aaa: int, bbb: int)
    requires 0 <= aaa < 8 && 0 <= bbb < 8
    ensures var opcode := aaa * 0x20 + bbb * 4 + 1;
      && (ModeOf(opcode).Some? <==> opcode != 0x89)
      && (ModeOf(opcode).Some? ==> ModeOf(opcode).value == GroupOneMode(bbb))
  {
    if bbb < 2 {
      GroupOneIndexedIndirectAndZeroPage(aaa, bbb);
    } else if bbb < 4 {
      GroupOneImmediateAndAbsolute(aaa, bbb);
    } else if bbb < 6 {
      GroupOneIndirectIndexedAndZeroPageX(aaa, bbb);
    } else {
      GroupOneAbsoluteIndexed(aaa, bbb);
    }
  }

  /** Group one, modes `(zp,X)` and `zp`: one case per opcode. */
  lemma GroupOneIndexedIndirectAndZeroPage(aaa: int, bbb: int)
    requires 0 <= aaa < 8 && 0 <= bbb < 2
    ensures var opcode := aaa * 0x20 + bbb * 4 + 1;
      && (ModeOf(opcode).Some? <==> opcode != 0x89)
      && (ModeOf(opcode).Some? ==> ModeOf(opcode).value == GroupOneMode(bbb))
  {
    match aaa
    case 0 =>
      match bbb {
        case 0 =>
        case _ =>
      }
    case 1 =>
      match bbb {
        case 0 =>
        case _ =>
      }
    case 2 =>
      match bbb {
        case 0 =>
        case _ =>
      }
    case 3 =>
      match bbb {
        case 0 =>
        case _ =>
      }
    case 4 =>
      match bbb {
        case 0 =>
        case _ =>
      }
    case 5 =>
      match bbb {
        case 0 =>
        case _ =>
      }
    case 6 =>
      match bbb {
        case 0 =>
        case _ =>
      }
    case _ =>
      match bbb {
        case 0 =>
        case _ =>
      }
  }

  /** Group one, modes `#` and `abs`: one case per opcode. */
  lemma GroupOneImmediateAndAbsolute(aaa: int, bbb: int)
    requires 0 <= aaa < 8 && 2 <= bbb < 4
    ensures var opcode := aaa * 0x20 + bbb * 4 + 1;
      && (ModeOf(opcode).Some? <==> opcode != 0x89)
      && (ModeOf(opcode).Some? ==> ModeOf(opcode).value == GroupOneMode(bbb))
  {
    match aaa
    case 0 =>
      match bbb {
        case 2 =>
        case _ =>
      }
    case 1 =>
      match bbb {
        case 2 =>
        case _ =>
      }
    case 2 =>
      match bbb {
        case 2 =>
        case _ =>
      }
    case 3 =>
      match bbb {
        case 2 =>
        case _ =>
      }
    case 4 =>
      match bbb {
        case 2 =>
        case _ =>
      }
    case 5 =>
      match bbb {
        case 2 =>
        case _ =>
      }
    case 6 =>
      match bbb {
        case 2 =>
        case _ =>
      }
    case _ =>
      match bbb {
        case 2 =>
        case _ =>
      }
  }

  /** Group one, modes `(zp),Y` and `zp,X`: one case per opcode. */
  lemma GroupOneIndirectIndexedAndZeroPageX(aaa: int, bbb: int)
    requires 0 <= aaa < 8 && 4 <= bbb < 6
    ensures var opcode := aaa * 0x20 + bbb * 4 + 1;
      && (ModeOf(opcode).Some? <==> opcode != 0x89)
      && (ModeOf(opcode).Some? ==> ModeOf(opcode).value == GroupOneMode(bbb))
  {
    match aaa
    case 0 =>
      match bbb {
        case 4 =>
        case _ =>
      }
    case 1 =>
      match bbb {
        case 4 =>
        case _ =>
      }
    case 2 =>
      match bbb {
        case 4 =>
        case _ =>
      }
    case 3 =>
      match bbb {
        case 4 =>
        case _ =>
      }
    case 4 =>
      match bbb {
        case 4 =>
        case _ =>
      }
    case 5 =>
      match bbb {
        case 4 =>
        case _ =>
      }
    case 6 =>
      match bbb {
        case 4 =>
        case _ =>
      }
    case _ =>
      match bbb {
        case 4 =>
        case _ =>
      }
  }

  /** Group one, modes `abs,Y` and `abs,X`: one case per opcode. */
  lemma GroupOneAbsoluteIndexed(aaa: int, bbb: int)
    requires 0 <= aaa < 8 && 6 <= bbb < 8
    ensures var opcode := aaa * 0x20 + bbb * 4 + 1;
      && (ModeOf(opcode).Some? <==> opcode != 0x89)
      && (ModeOf(opcode).Some? ==> ModeOf(opcode).value == GroupOneMode(bbb))
  {
    match aaa
    case 0 =>
      match bbb {
        case 6 =>
        case _ =>
      }
    case 1 =>
      match bbb {
        case 6 =>
        case _ =>
      }
    case 2 =>
      match bbb {
        case 6 =>
        case _ =>
      }
    case 3 =>
      match bbb {
        case 6 =>
        case _ =>
      }
    case 4 =>
      match bbb {
        case 6 =>
        case _ =>
      }
    case 5 =>
      match bbb {
        case 6 =>
        case _ =>
      }
    case 6 =>
      match bbb {
        case 6 =>
        case _ =>
      }
    case _ =>
      match bbb {
        case 6 =>
        case _ =>
      }
  }

  /** The eight conditional branches, opcodes `xxy10000`, are relative. */
  lemma BranchesAreRelative(xxy: int)
    requires 0 <= xxy < 8
    ensures ModeOf(xxy * 0x20 + 0x10) == Some(Relative)
  {
    match xxy
    case 0 => assert ModeOf(0x10) == Some(Relative);
    case 1 => assert ModeOf(0x30) == Some(Relative);
    case 2 => assert ModeOf(0x50) == Some(Relative);
    case 3 => assert ModeOf(0x70) == Some(Relative);
    case 4 => assert ModeOf(0x90) == Some(Relative);
    case 5 => assert ModeOf(0xB0) == Some(Relative);
    case 6 => assert ModeOf(0xD0) == Some(Relative);
    case _ => assert ModeOf(0xF0) == Some(Relative);
  }

  /** The addressing modes the load opcodes are listed with. */
  lemma LoadModes(opcode: Byte)
    requires Dispatch(opcode).LoadReg?
    ensures ModeOf(opcode).Some?
    ensures ModeOf(opcode).value in {Immediate, ZeroPage, ZeroPageIdxX, ZeroPageIdxY, Absolute,
                                     AbsoluteIdxX, AbsoluteIdxY, ZeroPageIdxIndirectX, ZeroPageIndirectIdxY}
  {
  }

  /** The addressing modes the store opcodes are listed with. */
  lemma StoreModes(opcode: Byte)
    requires Dispatch(opcode).StoreReg?
    ensures ModeOf(opcode).Some?
    ensures ModeOf(opcode).value in {ZeroPage, ZeroPageIdxX, ZeroPageIdxY, Absolute,
                                     AbsoluteIdxX, AbsoluteIdxY, ZeroPageIdxIndirectX, ZeroPageIndirectIdxY}
  {
  }

  /** The addressing modes of the INC and DEC opcodes. */
  lemma CellArithmeticModes(opcode: Byte)
    requires Dispatch(opcode).IncMem? || Dispatch(opcode).DecMem?
    ensures ModeOf(opcode).Some?
    ensures ModeOf(opcode).value in {ZeroPage, ZeroPageIdxX, Absolute, AbsoluteIdxX}
  {
  }

  /** No handler that takes an operand reaches the resolver's 0xFF
      sentinel or its relative and absolute-indirect cases: loads may be
      immediate (handled before the resolver); stores, increments and
      decrements always have a memory addressing mode. */
  lemma DispatchedModesHaveAddress(opcode: Byte)
    requires Dispatch(opcode).TakesOperand()
    ensures ModeOf(opcode).Some?
    ensures ModeOf(opcode).value !in {Implied, Accumulator, Relative, AbsoluteIndirect}
    ensures ModeOf(opcode).value == Immediate ==> Dispatch(opcode).LoadReg?
  {
    match Dispatch(opcode)
    case LoadReg(_) => LoadModes(opcode);
    case StoreReg(_) => StoreModes(opcode);
    case _ => CellArithmeticModes(opcode);
  }

  /** A handler moves PC past its operand byte, if it reads one, and
      nowhere else. */
  lemma ExecuteAdvancesPc(s1: Machine, op: Operation, mode: Option<AddrMode>)
    requires WellFormed(s1) && (op.TakesOperand() ==> mode.Some?)
    ensures op.TakesOperand() ==> Execute(s1, op, mode).pc == (s1.pc + 1) % 0x1_0000
    ensures !op.TakesOperand() ==> Execute(s1, op, mode).pc == s1.pc
  {
  }

  /** PC after one step: two bytes on for the handlers that read an
      operand (whatever the addressing mode, absolute ones included), one
      byte on for every other opcode, modulo 65536. */
  lemma StepAdvancesPc(s: Machine)
    requires WellFormed(s)
    ensures Step(s).pc == (s.pc + if Dispatch(OpcodeAt(s)).TakesOperand() then 2 else 1) % 0x1_0000
  {
    StepUnfold(s);
    var s1 := Fetch(s).1;
    var op := Dispatch(OpcodeAt(s));
    ExecuteAdvancesPc(s1, op, ModeOf(OpcodeAt(s)));
    if op.TakesOperand() {
      PcPlusTwo(s.pc);
      assert Step(s).pc == (s.pc + 2) % 0x1_0000;
    } else {
      assert Step(s).pc == (s.pc + 1) % 0x1_0000;
    }
  }

  /** Only BRK stops the engine; no step restarts it. */
  lemma StepHaltsOnlyOnBrk(s: Machine)
    requires WellFormed(s)
    ensures Step(s).running <==> s.running && OpcodeAt(s) != 0x00
  {
    var (opcode, s1) := Fetch(s);
    assert Dispatch(opcode).Brk? <==> opcode == 0x00;
  }

  /** BRK sets Break and InterruptDisable, halts, and changes nothing else
      but PC. */
  lemma StepOnBrk(s: Machine)
    requires WellFormed(s) && OpcodeAt(s) == 0x00
    ensures var t := Step(s);
      && t.ps & (FlagB | FlagI) == FlagB | FlagI
      && t.ps & !(FlagB | FlagI) == s.ps & !(FlagB | FlagI)
      && !t.running
      && t.pc == (s.pc + 1) % 0x1_0000
      && t.(ps := s.ps, running := s.running, pc := s.pc) == s
  {
  }

  lemma PcPlusTwo(pc: Word)
    ensures ((pc + 1) % 0x1_0000 + 1) % 0x1_0000 == (pc + 2) % 0x1_0000
  {
  }

  /** Step(s) is the handler of the opcode at PC run after the fetch. */
  lemma StepUnfold(s: Machine)
    requires WellFormed(s)
    ensures ModeOf(OpcodeAt(s)).Some? || !Dispatch(OpcodeAt(s)).TakesOperand()
    ensures Step(s) == Execute(Fetch(s).1, Dispatch(OpcodeAt(s)), ModeOf(OpcodeAt(s)))
  {
  }

  /** The load handler: the byte after the opcode is the operand; the
      loaded byte goes to the register and Negative and Zero describe it. */
  lemma ExecuteLoad(s1: Machine, r: Reg, mode: AddrMode)
    requires WellFormed(s1)
    ensures var s2 := s1.(pc := (s1.pc + 1) % 0x1_0000);
      var t := Execute(s1, LoadReg(r), Some(mode));
      && Get(t, r) == LoadValue(s2, mode, s1.mem[s1.pc])
      && (t.ps & FlagN != 0 <==> Get(t, r) >= 0x80)
      && (t.ps & FlagZ != 0 <==> Get(t, r) == 0)
      && t.ps & !(FlagN | FlagZ) == s1.ps & !(FlagN | FlagZ)
      && (forall q :: q != r ==> Get(t, q) == Get(s1, q))
      && t.pc == s2.pc && t.sp == s1.sp && t.mem == s1.mem && t.running == s1.running
  {
  }

  /** A load puts the loaded byte in its register, makes Negative and Zero
      describe it, and leaves memory and the other registers alone. */
  lemma StepOnLoad(s: Machine, r: Reg)
    requires WellFormed(s) && Dispatch(OpcodeAt(s)) == LoadReg(r)
    ensures ModeOf(OpcodeAt(s)).Some?
    ensures var mode := ModeOf(OpcodeAt(s)).value;
      var s2 := s.(pc := (s.pc + 2) % 0x1_0000);
      var t := Step(s);
      && Get(t, r) == LoadValue(s2, mode, s.mem[(s.pc + 1) % 0x1_0000])
      && (t.ps & FlagN != 0 <==> Get(t, r) >= 0x80)
      && (t.ps & FlagZ != 0 <==> Get(t, r) == 0)
      && t.ps & !(FlagN | FlagZ) == s.ps & !(FlagN | FlagZ)
      && (forall q :: q != r ==> Get(t, q) == Get(s, q))
      && t.pc == s2.pc && t.mem == s.mem && t.running == s.running
  {
    StepUnfold(s);
    PcPlusTwo(s.pc);
    var s1 := Fetch(s).1;
    ExecuteLoad(s1, r, ModeOf(OpcodeAt(s)).value);
    assert s1.(pc := (s1.pc + 1) % 0x1_0000) == s.(pc := (s.pc + 2) % 0x1_0000);
  }

  /** The store handler writes the register at the resolved address. */
  lemma ExecuteStore(s1: Machine, r: Reg, mode: AddrMode)
    requires WellFormed(s1) && OperandInRange(mode, s1.mem[s1.pc])
    ensures var s2 := s1.(pc := (s1.pc + 1) % 0x1_0000);
      var k := EffectiveAddress(s2, mode, s1.mem[s1.pc]);
      var t := Execute(s1, StoreReg(r), Some(mode));
      && t.mem == s1.mem[k := Get(s1, r)]
      && t.(mem := s1.mem) == s2
  {
  }

  /** A store writes its register to exactly one cell and changes no
      register other than PC. */
  lemma StepOnStore(s: Machine, r: Reg)
    requires WellFormed(s) && Dispatch(OpcodeAt(s)) == StoreReg(r)
    ensures ModeOf(OpcodeAt(s)).Some?
    ensures var mode := ModeOf(OpcodeAt(s)).value;
      var s2 := s.(pc := (s.pc + 2) % 0x1_0000);
      var k := EffectiveAddress(s2, mode, s.mem[(s.pc + 1) % 0x1_0000]);
      var t := Step(s);
      && t.mem == s.mem[k := Get(s, r)]
      && t.(mem := s.mem) == s2
  {
    StepUnfold(s);
    PcPlusTwo(s.pc);
    var s1 := Fetch(s).1;
    ExecuteStore(s1, r, ModeOf(OpcodeAt(s)).value);
    assert s1.(pc := (s1.pc + 1) % 0x1_0000) == s.(pc := (s.pc + 2) % 0x1_0000);
  }

  /** The INX/INY and DEX/DEY handlers: the register moves by one modulo
      256, Negative and Zero describe it, and nothing else changes. */
  lemma ExecuteRegisterArithmetic(s1: Machine, op: Operation, mode: Option<AddrMode>)
    requires WellFormed(s1) && (op.IncReg? || op.DecReg?)
    ensures var t := Execute(s1, op, mode);
      && Get(t, op.r) == (Get(s1, op.r) + if op.IncReg? then 1 else 0xFF) % 0x100
      && (t.ps & FlagN != 0 <==> Get(t, op.r) >= 0x80)
      && (t.ps & FlagZ != 0 <==> Get(t, op.r) == 0)
      && t.ps & !(FlagN | FlagZ) == s1.ps & !(FlagN | FlagZ)
      && (forall q :: q != op.r ==> Get(t, q) == Get(s1, q))
      && t.pc == s1.pc && t.sp == s1.sp && t.running == s1.running && t.mem == s1.mem
  {
  }

  /** INX/INY and DEX/DEY move their register by one modulo 256, make
      Negative and Zero describe the new value, move PC past the opcode
      and change nothing else. */
  lemma StepOnRegisterArithmetic(s: Machine)
    requires WellFormed(s) && (Dispatch(OpcodeAt(s)).IncReg? || Dispatch(OpcodeAt(s)).DecReg?)
    ensures var op := Dispatch(OpcodeAt(s));
      var t := Step(s);
      && Get(t, op.r) == (Get(s, op.r) + if op.IncReg? then 1 else 0xFF) % 0x100
      && (t.ps & FlagN != 0 <==> Get(t, op.r) >= 0x80)
      && (t.ps & FlagZ != 0 <==> Get(t, op.r) == 0)
      && t.ps & !(FlagN | FlagZ) == s.ps & !(FlagN | FlagZ)
      && (forall q :: q != op.r ==> Get(t, q) == Get(s, q))
      && t.pc == (s.pc + 1) % 0x1_0000 && t.sp == s.sp && t.running == s.running
      && t.mem == s.mem
  {
    StepUnfold(s);
    var s1 := Fetch(s).1;
    ExecuteRegisterArithmetic(s1, Dispatch(OpcodeAt(s)), ModeOf(OpcodeAt(s)));
    assert forall q :: Get(s1, q) == Get(s, q);
  }

  /** INC and DEC: the byte after the opcode is the operand, and the
      cell it addresses moves by one modulo 256 exactly as `AddToCell`
      says, with PC two bytes on. */
  lemma StepOnCellArithmetic(s: Machine)
    requires WellFormed(s) && (Dispatch(OpcodeAt(s)) == IncMem || Dispatch(OpcodeAt(s)) == DecMem)
    ensures ModeOf(OpcodeAt(s)).Some?
    ensures Step(s) == AddToCell(s.(pc := (s.pc + 2) % 0x1_0000),
                                 if Dispatch(OpcodeAt(s)) == IncMem then 1 else -1,
                                 ModeOf(OpcodeAt(s)).value, s.mem[(s.pc + 1) % 0x1_0000])
  {
    StepUnfold(s);
    PcPlusTwo(s.pc);
  }

  /** INX from 0xFF wraps X to 0, sets Zero and clears Negative. */
  lemma InxWrapsToZero(s: Machine)
    requires WellFormed(s) && OpcodeAt(s) == 0xE8 && s.x == 0xFF
    ensures Step(s).x == 0
    ensures Step(s).ps & FlagZ != 0 && Step(s).ps & FlagN == 0
  {
    StepOnRegisterArithmetic(s);
  }

  /** Opcodes without a handler, the ORA stub among them, only move PC. */
  lemma StepWithoutHandler(s: Machine)
    requires WellFormed(s) && (Dispatch(OpcodeAt(s)) == NoHandler || Dispatch(OpcodeAt(s)) == OraStub)
    ensures Step(s) == s.(pc := (s.pc + 1) % 0x1_0000)
  {
  }

  /** No step clears Unused or Decimal. */
  lemma StepKeepsResetBits(s: Machine)
    requires WellFormed(s) && s.ps & ResetBits == ResetBits
    ensures Step(s).ps & ResetBits == ResetBits
  {
    var (opcode, s1) := Fetch(s);
    var (operand, s2) := Fetch(s1);
    var mode := ModeOf(opcode);
    match Dispatch(opcode)
    case LoadReg(r) =>
      var s3 := Put(s2, r, LoadValue(s2, mode.value, operand));
      UpdatesKeepResetBits(s3.ps, Get(s3, r));
    case IncMem =>
      UpdatesKeepResetBits(s2.ps, 0);
    case DecMem =>
      UpdatesKeepResetBits(s2.ps, 0);
    case IncReg(r) =>
      UpdatesKeepResetBits(s1.ps, (Get(s1, r) + 1) % 0x100);
    case DecReg(r) =>
      UpdatesKeepResetBits(s1.ps, (Get(s1, r) + 0xFF) % 0x100);
    case Brk =>
      UpdatesKeepResetBits(s1.ps, 0);
    case _ =>
  }

  /** Every effective address is below 256, so a step writes nothing
      outside page zero. */
  lemma StepWritesOnlyZeroPage(s: Machine)
    requires WellFormed(s)
    ensures forall i :: 0x100 <= i < MemorySize ==> Step(s).mem[i] == s.mem[i]
  {
  }

  /** A halted machine stays what it is whatever the fuel; an iteration
      that has halted within `fuel` steps gives the same machine with
      more fuel. */
  lemma {:induction false} MoreFuel(next: Machine --> Machine, s: Machine, fuel: nat, extra: nat)
    requires WellFormed(s) && ClosedStep(next) && Iterate(next, s, fuel).Some?
    ensures Iterate(next, s, fuel + extra) == Iterate(next, s, fuel)
    decreases fuel
  {
    if s.running {
      MoreFuel(next, next(s), fuel - 1, extra);
    }
  }

  /** A property that holds at the start and that every step from a
      running machine preserves holds where the iteration halts. */
  lemma {:induction false} IterateKeeps(next: Machine --> Machine, inv: Machine -> bool, s: Machine, fuel: nat)
    requires WellFormed(s) && ClosedStep(next) && inv(s)
    requires forall m :: WellFormed(m) && m.running && inv(m) ==> inv(next(m))
    ensures Iterate(next, s, fuel).Some? ==> inv(Iterate(next, s, fuel).value)
    decreases fuel
  {
    if s.running && fuel > 0 {
      IterateKeeps(next, inv, next(s), fuel - 1);
    }
  }

  /** A run that halts within `fuel` steps halts in the same machine with
      any larger bound: the fuel only cuts off runs that do not halt. */
  lemma RunMoreFuel(s: Machine, fuel: nat, extra: nat)
    requires WellFormed(s) && Run(s, fuel).Some?
    ensures Run(s, fuel + extra) == Run(s, fuel)
  {
    StepClosed();
    MoreFuel(Step, Reset(s), fuel, extra);
  }

  /** Every run that halts ends with PS holding 0x3C: reset's Unused and
      Decimal, and the Break and InterruptDisable bits of the BRK that
      stopped it. */
  lemma RunHaltsWithBreakBits(s: Machine, fuel: nat)
    requires WellFormed(s) && Run(s, fuel).Some?
    ensures Run(s, fuel).value.ps & 0x3C == 0x3C
  {
    var inv := (m: Machine) => m.ps & ResetBits == ResetBits && (!m.running ==> m.ps & 0x3C == 0x3C);
    forall m | WellFormed(m) && m.running && inv(m)
      ensures inv(Step(m))
    {
      StepKeepsResetBits(m);
      StepHaltsOnlyOnBrk(m);
      if OpcodeAt(m) == 0x00 {
        StepOnBrk(m);
      }
    }
    StepClosed();
    IterateKeeps(Step, inv, Reset(s), fuel);
  }

  /** A run leaves the stack pointer at the 0 that reset put there: no
      handler touches it. */
  lemma RunKeepsStackPointer(s: Machine, fuel: nat)
    requires WellFormed(s) && Run(s, fuel).Some?
    ensures Run(s, fuel).value.sp == 0
  {
    var inv := (m: Machine) => m.sp == 0;
    StepClosed();
    IterateKeeps(Step, inv, Reset(s), fuel);
  }

  /** A run never changes memory outside page zero. */
  lemma RunKeepsHighMemory(s: Machine, fuel: nat)
    requires WellFormed(s) && Run(s, fuel).Some?
    ensures forall i :: 0x100 <= i < MemorySize ==> Run(s, fuel).value.mem[i] == s.mem[i]
  {
    var inv := (m: Machine) => |m.mem| == MemorySize && forall i :: 0x100 <= i < MemorySize ==> m.mem[i] == s.mem[i];
    forall m | WellFormed(m) && m.running && inv(m)
      ensures inv(Step(m))
    {
      StepWritesOnlyZeroPage(m);
    }
    StepClosed();
    IterateKeeps(Step, inv, Reset(s), fuel);
  }

  /** LDA immediate (0xA9) copies the byte after the opcode into A, makes
      Negative and Zero describe it, and moves PC two bytes on. */
  lemma LdaImmediateStep(s: Machine)
    requires WellFormed(s) && OpcodeAt(s) == 0xA9
    ensures var v := s.mem[(s.pc + 1) % 0x1_0000];
      Step(s) == s.(pc := (s.pc + 2) % 0x1_0000, a := v, ps := WithNZ(s.ps, v))
  {
    var v := s.mem[(s.pc + 1) % 0x1_0000];
    assert Dispatch(0xA9) == LoadReg(A) && ModeOf(0xA9) == Some(Immediate);
    StepOnLoad(s, A);
    var t := Step(s);
    assert t.a == v;
    assert t.x == s.x && t.y == s.y by {
      assert Get(t, X) == Get(s, X) && Get(t, Y) == Get(s, Y);
    }
    NZDetermined(s.ps, t.ps, v);
  }

  /** First test scenario: a lone BRK at address 0 halts after one step
      with PC = 1, PS = 0x3C and every other register 0. */
  lemma BrkProgram(s: Machine)
    requires s.mem == ZeroMemory()
    ensures Run(s, 1) == Some(Machine(1, 0, 0, 0, 0, 0x3C, false, s.mem))
  {
    var r := Reset(s);
    assert r == Machine(0, 0, 0, 0, 0, 0x14, true, s.mem);
    StepOnBrk(r);
  }

  /** Second test scenario: LDA #$10 followed by BRK halts with PC = 3,
      A = 0x10 and PS = 0x3C (Negative and Zero clear). */
  lemma LdaImmediateProgram(s: Machine)
    requires s.mem == ZeroMemory()[0 := 0xA9][1 := 0x10]
    ensures Run(s, 2) == Some(Machine(3, 0, 0x10, 0, 0, 0x3C, false, s.mem))
  {
    var r := Reset(s);
    assert r == Machine(0, 0, 0, 0, 0, 0x14, true, s.mem);
    LdaImmediateStep(r);
    var t := Step(r);
    assert t == Machine(2, 0, 0x10, 0, 0, 0x14, true, s.mem);
    StepOnBrk(t);
  }

  /** LDA #$80 followed by BRK halts with A = 0x80, Negative set and Zero
      clear (PS = 0x3D). */
  lemma LdaNegativeProgram(s: Machine)
    requires s.mem == ZeroMemory()[0 := 0xA9][1 := 0x80]
    ensures Run(s, 2) == Some(Machine(3, 0, 0x80, 0, 0, 0x3D, false, s.mem))
  {
    var r := Reset(s);
    assert r == Machine(0, 0, 0, 0, 0, 0x14, true, s.mem);
    LdaImmediateStep(r);
    var t := Step(r);
    assert t == Machine(2, 0, 0x80, 0, 0, 0x15, true, s.mem);
    StepOnBrk(t);
  }
}
