/** The two end-to-end scenarios of the emulator's test driver, run on the
    in-place engine: a fresh (all-zero) RAM, the program written at
    address 0 (where the zero reset vector points), then `runCPU`. */
module Scenarios {
  import opened Flags
  import opened Machine
  import opened Memory
  import opened Cpu6502
  import MachineProperties

  /** The registers the driver compares: PC, PS, SP, A, X, Y. */
  datatype Registers = Registers(pc: Word, ps: bv8, sp: Byte, a: Byte, x: Byte, y: Byte)

  /** Program `00`: BRK halts with PC = 1, PS = 0x3C (Break,
      InterruptDisable, Decimal, Unused) and every other register 0. */
  method BrkScenario() returns (halted: bool, r: Registers)
    ensures halted
    ensures r == Registers(1, 0x3C, 0, 0, 0, 0)
  {
    var ram := new Ram();
    ram.cells[0x00] := 0x00;
    var cpu := new Cpu(ram);
    ghost var initial := cpu.State();
    MachineProperties.BrkProgram(initial);
    var _, h := cpu.RunCpu(1);
    halted := h;
    r := Registers(cpu.pc, cpu.ps, cpu.sp, cpu.a, cpu.x, cpu.y);
  }

  /** Program `A9 10 00` (LDA #$10; BRK): halts with PC = 3, A = 0x10 and
      PS = 0x3C. */
  method LdaImmediateScenario() returns (halted: bool, r: Registers)
    ensures halted
    ensures r == Registers(3, 0x3C, 0, 0x10, 0, 0)
  {
    var ram := new Ram();
    ram.cells[0x00] := 0xA9;
    ram.cells[0x01] := 0x10;
    var cpu := new Cpu(ram);
    ghost var initial := cpu.State();
    assert initial.mem == ZeroMemory()[0 := 0xA9][1 := 0x10];
    MachineProperties.LdaImmediateProgram(initial);
    var _, h := cpu.RunCpu(2);
    halted := h;
    r := Registers(cpu.pc, cpu.ps, cpu.sp, cpu.a, cpu.x, cpu.y);
  }
}
