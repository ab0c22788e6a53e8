# ktc32-emu in Dafny

This project models the core of `ktc32-emu`, an emulator for a small 32-bit instruction set. The instruction set mixes 16-bit and 32-bit encodings. The model covers:

- the CPU: a program counter and 32 `u32` registers, with one in-place helper per ALU instruction, from `mov` to `sltiu`;
- the memory: a byte vector with little-endian 8-, 16- and 32-bit reads and writes, and `init`, which zero-pads it to `MEMORY_SIZE` (1024) bytes;
- the two decoders, `decode_32` and `decode_16`;
- `execute`, `step` and `run` of the emulator object.

Each of the source's imperative objects is a Dafny class whose methods update their fields in place: `Processor.Cpu`, `MemoryUnit.Memory` and `Machine.Emulator`. Every method is proved equal to a function on values:

- `Alu.*` for the register helpers;
- `MemoryImage.*` for the memory;
- `Semantics.Execute`, `Semantics.Step` and `Semantics.Run` for the emulator.

The properties are stated and proved about those functions.

Modules, from the bottom up:

- `Bits`: machine integers (`U8`, `U16`, `U32`, `I32` as integer ranges), wrapping addition and subtraction, casts, sign extension, bit-by-bit AND/OR/XOR, and shifts.
- `Alu`: the register helpers as functions on a 32-entry register file, with their algebra.
- `Processor`: the `Cpu` class.
- `MemoryImage`: the memory as a byte sequence. Reads are specified against a reference little-endian number; writes come with frame conditions.
- `MemoryUnit`: the `Memory` class.
- `Decoder`: `Mnemonic`, `Format`, the opcode tables, the field extractors and the two decoders.
- `Encoder`: the inverse of the decoders, with round-trip lemmas in both directions.
- `Semantics`: one instruction, one step and the run loop as functions on a machine state.
- `Machine`: the `Emulator` class.
- `Behaviour`: properties of steps and runs (branches, jumps, LUI, register 0, store-then-load, how runs end).
- `Scenario`: a four-instruction program run to its end.

## How the code's quirks are modelled

The model follows the code, including its quirks.

- **Register 0** is not hardwired to zero. It is an ordinary register inside `execute`, and `step` clears it only at its end (`src/emulator.rs:120`).
- **SLT and SLTU** write their flag into register 31 whatever `rd` is. `rd` changes only if it is register 31, or register 0, which the step clears.
- **LHU** always uses base register 0, because `decode_32` builds it with `rs: 0`.
- **The 16- and 32-bit writes** store `(v & 0xFF00) as u8` and similar in the upper bytes. That value is always 0. So a half-word or word store keeps only its lowest byte, and reading it back gives `v % 0x100`.
- **`run`** stops when the program counter reaches `end_of_address` or the break point, after one more step. It also stops as soon as the program counter passes `end_of_address`. It does not look at the memory's size (`src/emulator.rs:52-65`).
- **Rust panics** are preconditions. This covers an array index outside the vector, a register index of 32 or more, a shift of 32 or more, and a `u32` overflow of `pc += 4`, `pc += 2` or `address + k`. There is no out-of-bounds error value, because the code has none. At the level of a whole run, the step that would panic ends the run as `Panicked`.
- **Unknown opcodes** decode to `UNKNOWN` with zero fields. Executing one changes nothing.

## Model

| member | source | states |
|---|---|---|
| Bits.AsI32 | src/emulator/cpu.rs:48-50 | `u32 as i32` is the same value or that value less 2^32, and it is negative exactly when the top bit is set |
| Bits.AsU32 | src/emulator/cpu.rs:80-82 | `i32 as u32` is the value or the value plus 2^32, and converting back to `i32` gives the original |
| Bits.AsI8 | src/emulator.rs:440 | `b as i8` is the byte or the byte less 0x100, and negative exactly when its top bit is set |
| Bits.AsI16 | src/emulator.rs:445 | `h as i16` is the half-word or it less 0x10000, and negative exactly when its top bit is set |
| Bits.SignExtend8 | src/emulator.rs:436-441 | the widened byte keeps the byte as its low 8 bits and has the byte's signed value |
| Bits.SignExtend16 | src/emulator.rs:442-446 | the widened half-word keeps the half-word as its low 16 bits and has its signed value |
| Bits.WrappingAdd | src/emulator/cpu.rs:18-21 | `wrapping_add` is the sum, less 2^32 exactly when the sum does not fit |
| Bits.WrappingSub | src/emulator/cpu.rs:22-25 | `wrapping_sub` is the difference, plus 2^32 exactly when it is negative |
| Bits.BitAnd | src/emulator/cpu.rs:27-29 | `a & b` is below both operands |
| Bits.BitOr | src/emulator/cpu.rs:31-33 | `a \| b` is above both operands |
| Bits.BitwiseCommutes | src/emulator/cpu.rs:27-37 | AND, OR and XOR are symmetric in their operands |
| Bits.BitwiseSelf | src/emulator/cpu.rs:27-37 | `x & x == x`, `x \| x == x`, `x ^ x == 0` |
| Bits.BitwiseZero | src/emulator/cpu.rs:83-91 | `x \| 0 == x`, `x ^ 0 == x`, `x & 0 == 0` |
| Bits.BitXor | src/emulator/cpu.rs:35-37 | `a ^ b` is zero exactly when `a == b` |
| Bits.XorZeroIffEqual | src/emulator/cpu.rs:35-37 | bit by bit, XOR of two `n`-bit values is zero exactly when they are equal |
| Bits.AndLowMask | src/emulator/cpu.rs:41 | AND with the mask of the low `m` bits is the value modulo 2^m |
| Bits.XorCancels | src/emulator/cpu.rs:35-37 | `(x ^ y) ^ y == x` |
| Bits.BitwiseAbsorbs | src/emulator/cpu.rs:27-33 | `(x & y) & y == x & y` and `(x \| y) \| y == x \| y` |
| Bits.Shl | src/emulator/cpu.rs:70-72 | a left shift by a positive amount gives an even value, and a shift by 0 changes nothing |
| Bits.ShlMultiplies | src/emulator/cpu.rs:70-72 | `a << k` is `a * 2^k` modulo 2^32 |
| Bits.ShlBy16 | src/emulator.rs:463 | `a << 16` is the low half-word of `a` moved to the upper half |
| Bits.Shr | src/emulator/cpu.rs:73-75 | a logical right shift by `k` is floor division by 2^k, so it never increases the value |
| Bits.HalveDivides | src/emulator/cpu.rs:43-50 | `k` halvings rounding down are one floor division by 2^k, for any sign |
| Bits.Sar | src/emulator/cpu.rs:76-78 | an arithmetic right shift is the signed value divided by 2^k rounding down, keeps its sign, and equals the logical shift on a non-negative value |
| Bits.AddThenSub | src/emulator/cpu.rs:18-25 | a wrapping subtraction undoes a wrapping addition |
| Bits.SignedRoundTrip | src/emulator/cpu.rs:48-50 | `(w as i32) as u32 == w` and `(x as u32) as i32 == x` |
| Bits.Low8 | src/emulator.rs:464-467 | `w as u8` is the low byte: the word is a multiple of 0x100 plus it |
| Bits.Low16 | src/emulator.rs:69 | `w as u16` is the low half-word: the word is a multiple of 0x10000 plus it |
| Alu.ShiftAmount | src/emulator/cpu.rs:41 | `value & 0x1F` is the value modulo 32 |
| Alu.Mov | src/emulator/cpu.rs:15-17 | `rd` receives `rs`, and every other register is unchanged |
| Alu.Add | src/emulator/cpu.rs:18-21 | `rd` receives the wrapped sum of `rd` and `rs`, and every other register is unchanged |
| Alu.Sub | src/emulator/cpu.rs:22-25 | `rd` receives the wrapped difference, and every other register is unchanged |
| Alu.And | src/emulator/cpu.rs:27-29 | only `rd` changes, and it becomes no larger than either operand |
| Alu.Or | src/emulator/cpu.rs:31-33 | only `rd` changes, and it becomes no smaller than either operand |
| Alu.Xor | src/emulator/cpu.rs:35-37 | only `rd` changes, and it becomes `rd ^ rs` |
| Alu.Sll | src/emulator/cpu.rs:39-42 | only `rd` changes, and it is shifted left by the low five bits of `rs` |
| Alu.Srl | src/emulator/cpu.rs:43-46 | only `rd` changes, and it becomes its old value divided by 2 to the power `rs % 32`, rounding down |
| Alu.Sra | src/emulator/cpu.rs:47-51 | only `rd` changes; it is shifted arithmetically by the low five bits of `rs` and keeps its sign |
| Alu.Slt | src/emulator/cpu.rs:53-60 | only register 31 changes; it becomes 1 exactly when `rd < rs` as `i32`, and 0 otherwise |
| Alu.Sltu | src/emulator/cpu.rs:62-68 | only register 31 changes; it becomes 1 exactly when `rd < rs` as `u32`, and 0 otherwise |
| Alu.Slli | src/emulator/cpu.rs:70-72 | only `rd` changes, and it is shifted left by the immediate (below 32) |
| Alu.Srli | src/emulator/cpu.rs:73-75 | only `rd` changes, and it becomes its old value divided by 2 to the power of the immediate, rounding down |
| Alu.Srai | src/emulator/cpu.rs:76-78 | only `rd` changes; it is shifted arithmetically by the immediate and keeps its sign |
| Alu.Addi | src/emulator/cpu.rs:80-82 | `rd` receives `rs` plus the immediate's `u32` bit pattern, wrapping; every other register is unchanged |
| Alu.Andi | src/emulator/cpu.rs:83-85 | only `rd` changes, and it becomes `rs & (imm as u32)`, no larger than `rs` |
| Alu.Ori | src/emulator/cpu.rs:86-88 | only `rd` changes, and it becomes `rs \| (imm as u32)`, no smaller than `rs` |
| Alu.Xori | src/emulator/cpu.rs:89-91 | only `rd` changes, and it becomes `rs ^ (imm as u32)` |
| Alu.Slti | src/emulator/cpu.rs:92-98 | only `rd` changes; it becomes 1 exactly when `rs as i32 < imm`, and 0 otherwise |
| Alu.Sltiu | src/emulator/cpu.rs:99-105 | only `rd` changes; it becomes 1 exactly when `rs < imm as u32`, and a negative immediate compares as `imm + 2^32` |
| Alu.MovSelf | src/emulator/cpu.rs:15-17 | `mov r, r` changes nothing |
| Alu.SubUndoesAdd | src/emulator/cpu.rs:18-25 | SUB after ADD of the same other register restores the register file |
| Alu.XorTwiceRestores | src/emulator/cpu.rs:35-37 | XOR twice with the same other register restores the register file |
| Alu.SelfOperands | src/emulator/cpu.rs:22-37 | a register combined with itself: AND and OR keep it, XOR and SUB clear it |
| Alu.AndOrIdempotent | src/emulator/cpu.rs:27-33 | repeating AND or OR with the same source changes nothing more |
| Alu.ZeroImmediate | src/emulator/cpu.rs:80-91 | with immediate 0, ADDI, ORI and XORI are MOV, and ANDI clears `rd` |
| Alu.ShiftByRegister | src/emulator/cpu.rs:39-51 | SLL, SRL and SRA are SLLI, SRLI and SRAI by the low five bits of `rs` |
| Alu.ShiftByZero | src/emulator/cpu.rs:70-78 | an immediate shift by 0 changes nothing |
| Alu.SraiOfNonNegative | src/emulator/cpu.rs:73-78 | on a non-negative value SRAI and SRLI agree |
| Alu.SltIsSltiIntoR31 | src/emulator/cpu.rs:53-60 | SLT is SLTI into register 31 against the signed value of `rs` |
| Alu.SignedAndUnsignedCompare | src/emulator/cpu.rs:53-68 | SLT and SLTU agree below 2^31, and differ when only `rd` has its top bit set |
| Processor.Cpu.constructor | src/emulator/cpu.rs:8-13 | `Cpu::new` gives pc 0 and 32 zero registers |
| Processor.Cpu.Mov | src/emulator/cpu.rs:15-17 | the register array afterwards is `Alu.Mov` of the array before |
| Processor.Cpu.Add | src/emulator/cpu.rs:18-21 | the register array afterwards is `Alu.Add` of the array before |
| Processor.Cpu.Sub | src/emulator/cpu.rs:22-25 | the register array afterwards is `Alu.Sub` of the array before |
| Processor.Cpu.And | src/emulator/cpu.rs:27-29 | the register array afterwards is `Alu.And` of the array before |
| Processor.Cpu.Or | src/emulator/cpu.rs:31-33 | the register array afterwards is `Alu.Or` of the array before |
| Processor.Cpu.Xor | src/emulator/cpu.rs:35-37 | the register array afterwards is `Alu.Xor` of the array before |
| Processor.Cpu.Sll | src/emulator/cpu.rs:39-42 | the register array afterwards is `Alu.Sll` of the array before |
| Processor.Cpu.Srl | src/emulator/cpu.rs:43-46 | the register array afterwards is `Alu.Srl` of the array before |
| Processor.Cpu.Sra | src/emulator/cpu.rs:47-51 | the register array afterwards is `Alu.Sra` of the array before |
| Processor.Cpu.Slt | src/emulator/cpu.rs:53-60 | the register array afterwards is `Alu.Slt` of the array before |
| Processor.Cpu.Sltu | src/emulator/cpu.rs:62-68 | the register array afterwards is `Alu.Sltu` of the array before |
| Processor.Cpu.Slli | src/emulator/cpu.rs:70-72 | the register array afterwards is `Alu.Slli` of the array before |
| Processor.Cpu.Srli | src/emulator/cpu.rs:73-75 | the register array afterwards is `Alu.Srli` of the array before |
| Processor.Cpu.Srai | src/emulator/cpu.rs:76-78 | the register array afterwards is `Alu.Srai` of the array before |
| Processor.Cpu.Addi | src/emulator/cpu.rs:80-82 | the register array afterwards is `Alu.Addi` of the array before |
| Processor.Cpu.Andi | src/emulator/cpu.rs:83-85 | the register array afterwards is `Alu.Andi` of the array before |
| Processor.Cpu.Ori | src/emulator/cpu.rs:86-88 | the register array afterwards is `Alu.Ori` of the array before |
| Processor.Cpu.Xori | src/emulator/cpu.rs:89-91 | the register array afterwards is `Alu.Xori` of the array before |
| Processor.Cpu.Slti | src/emulator/cpu.rs:92-98 | the register array afterwards is `Alu.Slti` of the array before |
| Processor.Cpu.Sltiu | src/emulator/cpu.rs:99-105 | the register array afterwards is `Alu.Sltiu` of the array before |
| MemoryImage.Read8 | src/emulator/memory.rs:22-24 | the byte read is the little-endian value of the one byte at the address |
| MemoryImage.Read16 | src/emulator/memory.rs:26-28 | the half-word read is the little-endian value of the two bytes from the address |
| MemoryImage.Read32 | src/emulator/memory.rs:30-35 | the word read is the little-endian value of the four bytes from the address |
| MemoryImage.Write8 | src/emulator/memory.rs:37-39 | the byte lands at the address; the length and every other byte are kept |
| MemoryImage.Write16 | src/emulator/memory.rs:41-44 | the low byte lands at the address and 0 at the next; the length and every other byte are kept |
| MemoryImage.Write32 | src/emulator/memory.rs:46-51 | the low byte lands at the address and 0 in the next three; the length and every other byte are kept |
| MemoryImage.Padded | src/emulator/memory.rs:6-20 | after padding, the memory is 1024 bytes long, starts with the image, and every added byte is 0 |
| MemoryImage.UpperBytesCleared | src/emulator/memory.rs:43-50 | each upper masked byte cast to `u8` is 0 |
| MemoryImage.ReadAfterWrite8 | src/emulator/memory.rs:22-39 | a byte written is read back |
| MemoryImage.ReadAfterWrite16 | src/emulator/memory.rs:26-44 | a half-word written reads back as its low byte, and as itself exactly when it is below 0x100 |
| MemoryImage.ReadAfterWrite32 | src/emulator/memory.rs:30-51 | a word written reads back as its low byte, and as itself exactly when it is below 0x100 |
| MemoryImage.WriteElsewhere | src/emulator/memory.rs:37-51 | a write of any width leaves a word read of disjoint bytes unchanged |
| MemoryImage.NarrowReads | src/emulator/memory.rs:22-35 | the low half of a word read is the half-word read, and its low byte is the byte read |
| MemoryImage.PaddingKeepsReads | src/emulator/memory.rs:16-35 | padding changes no word read inside the image |
| MemoryUnit.Memory.constructor | src/emulator/memory.rs:9-14 | `Memory::new` holds exactly the image's bytes |
| MemoryUnit.Memory.Init | src/emulator/memory.rs:16-20 | the loop leaves the vector equal to `Padded` of the vector before |
| MemoryUnit.Memory.ReadMemory8Bit | src/emulator/memory.rs:22-24 | returns `Read8` of the vector |
| MemoryUnit.Memory.ReadMemory16Bit | src/emulator/memory.rs:26-28 | returns `Read16` of the vector |
| MemoryUnit.Memory.ReadMemory | src/emulator/memory.rs:30-35 | returns `Read32` of the vector |
| MemoryUnit.Memory.WriteMemory8Bit | src/emulator/memory.rs:37-39 | the vector afterwards is `Write8` of the vector before |
| MemoryUnit.Memory.WriteMemory16Bit | src/emulator/memory.rs:41-44 | the vector afterwards is `Write16` of the vector before |
| MemoryUnit.Memory.WriteMemory | src/emulator/memory.rs:46-51 | the vector afterwards is `Write32` of the vector before |
| Decoder.OpcodeOf | src/emulator.rs:130-353 | every mnemonic's opcode has bit 5 set exactly when the mnemonic is one of the 32-bit ones |
| Decoder.Opcode32 | src/emulator.rs:130-274 | the 32-bit table knows opcodes 0x20-0x35 and 0x3F, and no others |
| Decoder.Opcode16 | src/emulator.rs:283-359 | the 16-bit table knows opcodes 0x00-0x0A and 0x10-0x12, and no others |
| Decoder.OpcodeField | src/emulator.rs:124 | the opcode field is below 0x40 |
| Decoder.RdField | src/emulator.rs:125 | the `rd` field is below 32 |
| Decoder.RsField | src/emulator.rs:126 | the `rs` field is below 32 |
| Decoder.ImmIField | src/emulator.rs:127 | `imm_i` is the upper half-word read as a signed 16-bit number |
| Decoder.ImmJField | src/emulator.rs:128 | `imm_j` is bits 11-31 read as a signed 21-bit number, in [-2^20, 2^20) |
| Decoder.FieldsCompose | src/emulator.rs:124-127 | upper half-word, `rs`, `rd` and opcode make up the whole word |
| Decoder.Decode32 | src/emulator.rs:123-275 | the result is in I32 or J format; UNKNOWN (with zero fields) exactly for unlisted opcodes; otherwise a 32-bit mnemonic whose opcode is the word's, with `rd`, `rs` and the sign-extended immediate taken from the word; J format exactly for JAL; LHU's `rs` is 0 |
| Decoder.Decode16 | src/emulator.rs:277-360 | the result is in R or I16 format; UNKNOWN (with zero fields) exactly for unlisted opcodes; otherwise a 16-bit mnemonic whose opcode is the word's, with `rd` and `rs` taken from the word; I16 exactly for the three shifts, whose immediate is the `rs` field |
| Decoder.TableInverse32 | src/emulator.rs:130-267 | every opcode the 32-bit table knows is the one assigned to its mnemonic, so the table is injective |
| Decoder.TableInverse16 | src/emulator.rs:283-353 | the same for the 16-bit table |
| Decoder.TableComplete | src/emulator.rs:130-353 | every mnemonic is found again in the table of its own width |
| Encoder.Encode | src/emulator.rs:123-281 | an encoded format has its mnemonic's opcode and its `rd` in place, and a 16-bit one fits in 16 bits |
| Encoder.Pack | src/emulator.rs:124-127 | the fields of a packed word are the values packed |
| Encoder.PackJump | src/emulator.rs:124-128 | the same for the JAL layout |
| Encoder.DecodeEncode | src/emulator.rs:123-360 | decoding an encodable format's word gives the format back |
| Encoder.EncodeDecode32 | src/emulator.rs:123-275 | every 32-bit word with a known opcode is the encoding of its decoding, except that LHU loses its `rs` bits |
| Encoder.EncodeDecode16 | src/emulator.rs:277-360 | every 16-bit word with a known opcode is the encoding of its decoding |
| Semantics.BranchTaken | src/emulator.rs:398-431 | only a branch can be taken, and BLT and BGE agree with the unsigned comparisons when both operands have the same sign bit |
| Semantics.EffectiveAddress | src/emulator.rs:436-475 | a load or store address is `rs` plus the immediate modulo 2^32 |
| Semantics.RegisterOp | src/emulator.rs:364-377 | a register-register instruction changes only `rd`, except SLT and SLTU, which change only register 31 and write 0 or 1 |
| Semantics.ShiftImmOp | src/emulator.rs:379-384 | an immediate shift changes only `rd`, and a shift by 0 changes nothing |
| Semantics.AccessWidth | src/emulator.rs:436-475 | loads and stores touch 1, 2 or 4 bytes; other instructions touch none |
| Semantics.ExecuteI32 | src/emulator.rs:386-477 | UNKNOWN changes nothing; only branches and JALR move the pc; only stores change memory, and they keep the registers and the memory's length |
| Semantics.LoadStore | src/emulator.rs:436-475 | loads change only `rd` and no memory; stores change no register and keep the memory's length; neither moves the pc |
| Semantics.Execute | src/emulator.rs:362-487 | UNKNOWN changes nothing; only branches, JAL and JALR move the pc; only stores change memory |
| Semantics.IsWideWord | src/emulator.rs:72 | the width test sees bit 5 of the word, the top bit of its opcode field: 32-bit opcodes are 0x20 and above |
| Semantics.DecodeWord | src/emulator.rs:72-102 | a word with bit 5 set decodes to a 32-bit format and any other to a 16-bit one, and a known mnemonic is 32-bit exactly when bit 5 is set |
| Semantics.Fetch | src/emulator.rs:68 | the fetched word is the four bytes at `pc`, little-endian |
| Semantics.InstructionLength | src/emulator.rs:72-99 | an instruction is 2 or 4 bytes long |
| Semantics.Advanced | src/emulator.rs:72-99 | before `execute`, the pc moves past the instruction and nothing else changes |
| Semantics.Step | src/emulator.rs:67-121 | after a step register 0 is 0, and the memory keeps its length |
| Semantics.TryStep | src/emulator.rs:67-121 | a step gives a state exactly when it does not panic |
| Semantics.Loop | src/emulator.rs:56-64 | the loop ends as `Panicked` only in a state whose step fails |
| Semantics.AfterStep | src/emulator.rs:58-63 | the stop test ends as `Panicked` only in a state whose step fails |
| Semantics.Run | src/emulator.rs:52-65 | a pc past the end address returns at once, unchanged; otherwise the loop runs |
| Machine.Emulator.constructor | src/emulator.rs:43-50 | `Emulator::new` gives the image in memory, pc 0, zero registers, and break point = end address = `address` |
| Machine.Emulator.Execute | src/emulator.rs:362-487 | the state afterwards is `Semantics.Execute` of the state before |
| Machine.Emulator.ExecuteRegister | src/emulator.rs:364-377 | the R-format dispatch applies the matching register helper |
| Machine.Emulator.ExecuteShiftImm | src/emulator.rs:379-384 | the I16-format dispatch applies the matching shift helper |
| Machine.Emulator.ExecuteI32 | src/emulator.rs:386-477 | the state afterwards is `Semantics.ExecuteI32` of the state before |
| Machine.Emulator.ExecuteLoadStore | src/emulator.rs:436-475 | the state afterwards is `Semantics.LoadStore` of the state before |
| Machine.Emulator.Step | src/emulator.rs:67-121 | the state afterwards is `Semantics.Step` of the state before |
| Machine.Emulator.Run | src/emulator.rs:52-65 | the loop leaves the state `Semantics.Run` describes, and reports whether it halted within the budget |
| Behaviour.WidthBitAgrees | src/emulator.rs:130-353 | bit 5 of the word is bit 5 of its opcode, and a known mnemonic is 32-bit exactly when the word has bit 5 set, so each word goes to the decoder that knows it |
| Behaviour.WidthBit | src/emulator.rs:69-72 | the width bit of a word is that of its opcode field, and the low half-word has the same opcode |
| Behaviour.OnlyMemoryFaults | src/emulator.rs:362-487 | a decoded instruction can panic only through a memory access outside the image |
| Behaviour.StepFallsThrough | src/emulator.rs:67-121 | an instruction that is not a branch or jump leaves the pc just past itself |
| Behaviour.UnknownStep | src/emulator.rs:362-487 | an unknown opcode changes only the pc (past itself) and register 0 (cleared) |
| Behaviour.WideAdvance | src/emulator.rs:72-73 | a 32-bit format comes from a word with bit 5 set, so the pc advances by 4 |
| Behaviour.BranchStep | src/emulator.rs:398-431 | a branch goes to `pc + 4 + imm`, wrapping, when its signed or unsigned condition holds, and to `pc + 4` otherwise; nothing else changes but register 0 |
| Behaviour.BeqExample | src/emulator.rs:398-402 | a taken BEQ with offset 8 at address A leaves the pc at A + 12 |
| Behaviour.JalStep | src/emulator.rs:479-485 | JAL writes `pc + 4` into `rd` and jumps to `pc + 4 + imm`, wrapping |
| Behaviour.JalrStep | src/emulator.rs:432-435 | JALR writes `pc + 4` into `rd` and jumps to `rs + imm`, where `rs` is read after `rd` is written, so `rd == rs` jumps relative to the return address |
| Behaviour.LuiStep | src/emulator.rs:463 | LUI sets `rd` to the instruction word with its low half cleared, then register 0 is cleared, so LUI into register 0 changes no register |
| Behaviour.SignedLoadStep | src/emulator.rs:436-446 | LB and LH put the sign-extended byte or half-word at `rs` plus the immediate, modulo 2^32, into `rd`, and advance the program counter by 4 |
| Behaviour.UnsignedLoadStep | src/emulator.rs:447-462 | LBU, LHU and LW put the byte, half-word or word at `rs` plus the immediate, modulo 2^32, into `rd` unchanged; for LHU `rs` is register 0 |
| Behaviour.AccessStep | src/emulator.rs:436-475 | a load's or store's step is its `LoadStore` on the state with the program counter advanced by 4, then register 0 cleared; the access lies inside memory |
| Behaviour.StoreStep | src/emulator.rs:464-475 | SB, SH and SW write the low byte, low half-word or word of `rd` at `rs` plus the immediate, modulo 2^32, leave every other byte, change no register but register 0, and advance the program counter by 4 |
| Behaviour.BranchComplements | src/emulator.rs:398-431 | BNQ, BGE and BGEU are taken exactly when BEQ, BLT and BLTU are not |
| Behaviour.LuiValue | src/emulator.rs:463 | `(imm << 16) as u32` is the immediate's 16-bit pattern times 0x10000 |
| Behaviour.SetLessThanStep | src/emulator/cpu.rs:53-68 | a step of SLT or SLTU writes the flag into register 31 whatever `rd` is, clears register 0 and changes no other register |
| Behaviour.ZeroRegisterDiscards | src/emulator.rs:120 | an instruction whose only effect is to write register 0 leaves the registers as they were, once the step clears register 0 |
| Behaviour.WritesOnly | src/emulator.rs:362-487 | an instruction that is not a jump, branch, store, SLT or SLTU changes register `rd` and nothing else |
| Behaviour.StoreByteThenLoad | src/emulator.rs:447-467 | LBU after SB at the same address reads the stored register's low byte, and the stored value itself exactly when it is below 0x100 |
| Behaviour.StoreHalfThenLoad | src/emulator.rs:453-471 | LHU after SH at the same address reads only the low byte, and the stored value exactly when it is below 0x100 |
| Behaviour.StoreWordThenLoad | src/emulator.rs:458-475 | LW after SW at the same address reads only the low byte, and the stored value exactly when it is below 0x100 |
| Behaviour.LoopHaltsWithZeroRegister | src/emulator.rs:56-64 | if every step clears register 0, a halted loop ends with register 0 zero |
| Behaviour.LoopKeepsMemorySize | src/emulator.rs:56-64 | if every step keeps the memory's length, so does the loop |
| Behaviour.LoopMoreFuel | src/emulator.rs:56-64 | a loop that ends within some budget ends the same way with any larger one |
| Behaviour.RunOutcome | src/emulator.rs:52-121 | a run starting past the end address halts unchanged; otherwise a halted run leaves register 0 zero; a panicked run stops where the next step panics; the memory keeps its length |
| Behaviour.RunMoreFuel | src/emulator.rs:52-65 | a run that ends within some budget ends the same way with any larger one |
| Behaviour.StopAddressRunsOneMore | src/emulator.rs:58-61 | reaching the break point or end address runs exactly one more step, then halts |
| Behaviour.PastEndStops | src/emulator.rs:62-63 | a step past the end address, not at the break point, ends the loop at once |
| Scenario.StepOf | src/emulator.rs:67-121 | a step is fetch, decode, execute, then clearing register 0 |
| Scenario.FiveSteps | src/emulator.rs:56-64 | four steps below the end address, the fourth reaching it, then one more, halt the loop |
| Scenario.BareImagePanicsAtEnd | src/emulator.rs:58-61 | on the 14 program bytes alone, the extra step at the end address cannot fetch its four bytes |
| Scenario.ProgramLoop | src/emulator.rs:56-64 | the loop over `ADDI r1,r0,5; ADDI r2,r0,3; ADD r1,r2; SW r1,0(r0)` halts after five steps |
| Scenario.ProgramRun | src/emulator.rs:52-65 | running that program halts with 8 in register 1, 3 in register 2 and the word 8 at address 0 |

## Left out

- `src/main.rs`: argument parsing, file reading, hex decoding and the final print are I/O. It also calls `Emulator::new` and `run` with signatures that differ from `src/emulator.rs`, and it never calls `init`.
- The `println!` tracing inside `step` (`src/emulator.rs:85-118`): it is output only and changes no state.
- Mnemonics are an enumeration, not strings. The opcode-to-mnemonic mapping is the code's.
- Rust panics are not modelled as behaviour. Each becomes a precondition of the operation that would panic. For a whole run, it becomes the `Panicked` outcome, whose state is the one before the failing step.
- Machine.Emulator.Run: the source loops until it halts, possibly forever. The model runs for at most `fuel` passes of the loop, reports whether it halted within them, and is silent about runs longer than the budget. It requires that the run does not panic within the budget.
- Encoder: the emulator has no encoder. This module exists only to state the decoders' round trips.
- Scenario: the program image carries four zero bytes after the 14 program bytes. The extra step `run` takes at the end address fetches four bytes at address 14, and `Emulator::new` does not pad the image, so on the bare 14 bytes that step panics (`Scenario.BareImagePanicsAtEnd`). The whole panicking run on the bare image is not proved.
- Scenario: the program is run on the functions in `Semantics`. The `Emulator` class's `Run` is tied to them by its contract, not run on this program separately.
- Concurrency, time and the host: the core has none.
