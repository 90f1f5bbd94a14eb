/** The emulator's 64 KiB of RAM: one array of bytes shared by the
    instruction engine, with a reader, a bulk loader and a clearing
    routine. */
module Memory {
  import opened Flags
  import opened Machine

  class Ram {
    /** The cells, addressed 0x0000..0xFFFF. */
    const cells: array<Byte>

    predicate Valid()
    {
      cells.Length == MemorySize
    }

    /** The contents as a value. */
    function Contents(): (m: seq<Byte>)
      reads cells
      ensures |m| == cells.Length
      ensures forall i :: 0 <= i < cells.Length ==> m[i] == cells[i]
    {
      cells[..]
    }

    /** The RAM of a fresh program: a C global array, so every cell is 0. */
    constructor ()
      ensures Valid() && fresh(cells)
      ensures Contents() == ZeroMemory()
    {
      cells := new Byte[MemorySize](_ => 0);
    }

    /** `getMemoryAtAddress`: the byte stored at `address`. */
    method GetMemoryAtAddress(address: Word) returns (value: Byte)
      requires Valid()
      ensures value == Contents()[address]
    {
      value := cells[address];
    }

    /** `loadRAM`: copies 65536 bytes into memory, cell by cell, and
        reports 0.  A source that is the RAM itself leaves it as it was,
        since every cell is read before it is written. */
    method LoadRam(newMemory: array<Byte>) returns (status: int)
      requires Valid() && newMemory.Length == MemorySize
      modifies cells
      ensures Contents() == old(newMemory[..])
      ensures status == 0
    {
      var i := 0;
      while i < MemorySize
        invariant 0 <= i <= MemorySize
        invariant forall j :: 0 <= j < i ==> cells[j] == old(newMemory[j])
        invariant forall j :: i <= j < MemorySize ==> cells[j] == old(cells[j])
        invariant forall j :: i <= j < MemorySize ==> newMemory[j] == old(newMemory[j])
      {
        cells[i] := newMemory[i];
        i := i + 1;
      }
      status := 0;
    }

    /** `resetRAM`: sets every cell to 0 and reports 0. */
    method ResetRam() returns (status: int)
      requires Valid()
      modifies cells
      ensures Contents() == ZeroMemory()
      ensures status == 0
    {
      var i := 0;
      while i < MemorySize
        invariant 0 <= i <= MemorySize
        invariant forall j :: 0 <= j < i ==> cells[j] == 0
        invariant forall j :: i <= j < MemorySize ==> cells[j] == old(cells[j])
      {
        cells[i] := 0;
        i := i + 1;
      }
      status := 0;
    }
  }
}
