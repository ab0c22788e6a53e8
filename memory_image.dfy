/** The emulator's memory as a value: a sequence of bytes, read and written
    little-endian, least significant byte at the lowest address. An access
    that leaves the sequence, or whose address arithmetic overflows `u32`,
    panics in Rust; the `requires` clauses exclude it.

    The 16- and 32-bit writes keep only the lowest byte of the value: each
    upper byte is masked in place (`value & 0xFF00` and so on) and then cast
    to `u8`, which drops every bit above the lowest eight, so a zero is
    stored there. The functions below store what the code stores. */
module MemoryImage {
  import opened Bits

  /** `MEMORY_SIZE`: the 1 KiB the loaded image is padded to. */
  const MEMORY_SIZE: U32 := 1024

  type Bytes = seq<U8>

  /** Reading `width` bytes from `address` stays inside the data, and
      `address + width - 1` does not overflow a `u32`. */
  predicate Accessible(data: Bytes, address: U32, width: int) {
    1 <= width && address + width <= |data| && address + width <= TWO_32
  }

  /** The reference meaning of little-endian: the number whose base-256
      digits, least significant first, are `bytes`. */
  function LittleEndian(bytes: Bytes): (r: nat)
    ensures |bytes| == 0 ==> r == 0
  {
    if |bytes| == 0 then 0 else bytes[0] + 0x100 * LittleEndian(bytes[1..])
  }

  function Read8(data: Bytes, address: U32): (r: U8)
    requires Accessible(data, address, 1)
    ensures r == LittleEndian(data[address..address + 1])
  {
    var bytes := data[address..address + 1];
    assert LittleEndian(bytes[1..]) == 0;
    data[address]
  }

  /** `(data[a + 1] as u16) << 8 | data[a] as u16`. */
  function Read16(data: Bytes, address: U32): (r: U16)
    requires Accessible(data, address, 2)
    ensures r == LittleEndian(data[address..address + 2])
  {
    var bytes := data[address..address + 2];
    assert LittleEndian(bytes[2..]) == 0;
    assert bytes[1..][1..] == bytes[2..];
    data[address + 1] as int * 0x100 + data[address] as int
  }

  /** `(data[a + 3] as u32) << 24 | ... | data[a] as u32`. */
  function Read32(data: Bytes, address: U32): (r: U32)
    requires Accessible(data, address, 4)
    ensures r == LittleEndian(data[address..address + 4])
  {
    var bytes := data[address..address + 4];
    assert LittleEndian(bytes[4..]) == 0;
    assert bytes[1..][1..] == bytes[2..];
    assert bytes[2..][1..] == bytes[3..];
    assert bytes[3..][1..] == bytes[4..];
    assert LittleEndian(bytes[2..]) == bytes[2] as int + 0x100 * bytes[3] as int;
    data[address + 3] as int * 0x100_0000 + data[address + 2] as int * 0x1_0000
      + data[address + 1] as int * 0x100 + data[address] as int
  }

  function Write8(data: Bytes, address: U32, value: U8): (r: Bytes)
    requires Accessible(data, address, 1)
    ensures |r| == |data| && r[address] == value
    ensures forall i :: 0 <= i < |data| && i != address ==> r[i] == data[i]
  {
    data[address := value]
  }

  /** Stores `(value & 0x00FF) as u8` and `(value & 0xFF00) as u8`. */
  function Write16(data: Bytes, address: U32, value: U16): (r: Bytes)
    requires Accessible(data, address, 2)
    ensures |r| == |data| && r[address] == value % 0x100 && r[address + 1] == 0
    ensures forall i :: 0 <= i < |data| && !(address <= i < address + 2) ==> r[i] == data[i]
  {
    UpperBytesCleared(value);
    data[address := value % 0x100]
        [address + 1 := (value - value % 0x100) % 0x100]
  }

  /** Stores `(value & 0x0000_00FF) as u8`, `(value & 0x0000_FF00) as u8`,
      `(value & 0x00FF_0000) as u8` and `(value & 0xFF00_0000) as u8`. */
  function Write32(data: Bytes, address: U32, value: U32): (r: Bytes)
    requires Accessible(data, address, 4)
    ensures |r| == |data| && r[address] == value % 0x100
    ensures r[address + 1] == 0 && r[address + 2] == 0 && r[address + 3] == 0
    ensures forall i :: 0 <= i < |data| && !(address <= i < address + 4) ==> r[i] == data[i]
  {
    UpperBytesCleared(value);
    data[address := value % 0x100]
        [address + 1 := (value % 0x1_0000 - value % 0x100) % 0x100]
        [address + 2 := (value % 0x100_0000 - value % 0x1_0000) % 0x100]
        [address + 3 := (value - value % 0x100_0000) % 0x100]
  }

  /** `init`: the data followed by zeros up to `MEMORY_SIZE` bytes. Rust's
      `MEMORY_SIZE - len` underflows and panics on a longer image. */
  function Padded(data: Bytes): (r: Bytes)
    requires |data| <= MEMORY_SIZE
    ensures |r| == MEMORY_SIZE && r[..|data|] == data
    ensures forall i :: |data| <= i < |r| ==> r[i] == 0
  {
    data + seq(MEMORY_SIZE - |data|, _ => 0)
  }

  /** Masking out the low bits of a value and keeping its lowest byte
      leaves 0: what the `as u8` casts of the upper masked bytes store. */
  lemma UpperBytesCleared(value: nat)
    ensures (value - value % 0x100) % 0x100 == 0
    ensures (value % 0x1_0000 - value % 0x100) % 0x100 == 0
    ensures (value % 0x100_0000 - value % 0x1_0000) % 0x100 == 0
    ensures (value - value % 0x100_0000) % 0x100 == 0
  {
    MultipleOfByte(value / 0x100);
    MultipleOfByte((value % 0x1_0000) / 0x100);
    MultipleOfByte((value % 0x100_0000) / 0x1_0000 * 0x100);
    MultipleOfByte(value / 0x100_0000 * 0x1_0000);
  }

  lemma MultipleOfByte(q: int)
    ensures (q * 0x100) % 0x100 == 0
  {
  }

  // --------------------------------------------------------------- lemmas

  /** A byte written is read back. */
  lemma ReadAfterWrite8(data: Bytes, address: U32, value: U8)
    requires Accessible(data, address, 1)
    ensures Read8(Write8(data, address, value), address) == value
  {
  }

  /** A half-word written reads back as its low byte only: the upper byte of
      memory is left zero. */
  lemma ReadAfterWrite16(data: Bytes, address: U32, value: U16)
    requires Accessible(data, address, 2)
    ensures Read16(Write16(data, address, value), address) == value % 0x100
    ensures Read16(Write16(data, address, value), address) == value <==> value < 0x100
  {
  }

  /** A word written reads back as its low byte only. */
  lemma ReadAfterWrite32(data: Bytes, address: U32, value: U32)
    requires Accessible(data, address, 4)
    ensures Read32(Write32(data, address, value), address) == value % 0x100
    ensures Read32(Write32(data, address, value), address) == value <==> value < 0x100
  {
  }

  /** A write leaves every read of bytes it did not touch as it was. */
  lemma WriteElsewhere(data: Bytes, address: U32, value: U32, other: U32)
    requires Accessible(data, address, 4) && Accessible(data, other, 4)
    requires other + 4 <= address || address + 4 <= other
    ensures Read32(Write32(data, address, value), other) == Read32(data, other)
    ensures Read32(Write16(data, address, Low16(value)), other) == Read32(data, other)
    ensures Read32(Write8(data, address, Low8(value)), other) == Read32(data, other)
  {
  }

  /** The low half of a word read is the half-word read at the same address,
      and its low byte is the byte read there. */
  lemma NarrowReads(data: Bytes, address: U32)
    requires Accessible(data, address, 4)
    ensures Read32(data, address) % 0x1_0000 == Read16(data, address)
    ensures Read32(data, address) % 0x100 == Read8(data, address)
  {
  }

  /** Padding changes nothing a read inside the image sees. */
  lemma PaddingKeepsReads(data: Bytes, address: U32)
    requires |data| <= MEMORY_SIZE && Accessible(data, address, 4)
    ensures Accessible(Padded(data), address, 4)
    ensures Read32(Padded(data), address) == Read32(data, address)
  {
  }
}
