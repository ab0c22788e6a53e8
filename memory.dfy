/** The memory object: a growable byte vector the emulator reads and writes
    in place. Each operation is specified by the matching `MemoryImage`
    function on the vector's contents. */
module MemoryUnit {
  import opened Bits
  import opened MemoryImage

  class Memory {
    var data: Bytes

    /** `Memory::new`: a copy of the loaded image. */
    constructor (image: Bytes)
      ensures data == image
    {
      data := image;
    }

    /** `init`: appends zero bytes until the memory holds `MEMORY_SIZE`. */
    method Init()
      requires |data| <= MEMORY_SIZE
      modifies this
      ensures data == Padded(old(data))
    {
      var count := MEMORY_SIZE - |data|;
      for i := 0 to count
        invariant data == old(data) + seq(i, _ => 0)
      {
        data := data + [0];
      }
    }

    method ReadMemory8Bit(address: U32) returns (r: U8)
      requires Accessible(data, address, 1)
      ensures r == Read8(data, address)
    {
      r := data[address];
    }

    method ReadMemory16Bit(address: U32) returns (r: U16)
      requires Accessible(data, address, 2)
      ensures r == Read16(data, address)
    {
      r := data[address + 1] as int * 0x100 + data[address] as int;
    }

    method ReadMemory(address: U32) returns (r: U32)
      requires Accessible(data, address, 4)
      ensures r == Read32(data, address)
    {
      r := data[address + 3] as int * 0x100_0000 + data[address + 2] as int * 0x1_0000
        + data[address + 1] as int * 0x100 + data[address] as int;
    }

    method WriteMemory8Bit(address: U32, value: U8)
      requires Accessible(data, address, 1)
      modifies this
      ensures data == Write8(old(data), address, value)
    {
      data := data[address := value];
    }

    method WriteMemory16Bit(address: U32, value: U16)
      requires Accessible(data, address, 2)
      modifies this
      ensures data == Write16(old(data), address, value)
    {
      data := data[address := value % 0x100];
      data := data[address + 1 := (value - value % 0x100) % 0x100];
    }

    method WriteMemory(address: U32, value: U32)
      requires Accessible(data, address, 4)
      modifies this
      ensures data == Write32(old(data), address, value)
    {
      data := data[address := value % 0x100];
      data := data[address + 1 := (value % 0x1_0000 - value % 0x100) % 0x100];
      data := data[address + 2 := (value % 0x100_0000 - value % 0x1_0000) % 0x100];
      data := data[address + 3 := (value - value % 0x100_0000) % 0x100];
    }
  }
}
