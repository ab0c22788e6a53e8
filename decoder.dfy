/** Instruction formats and the two decoders.

    A 16-bit instruction is `rs/imm[15:11] rd[10:6] opcode[5:0]`; a 32-bit
    one is `imm[31:16] rs[15:11] rd[10:6] opcode[5:0]`, or for JAL
    `imm[31:11] rd[10:6] opcode[5:0]`. Immediates of 32-bit instructions are
    sign-extended. An opcode missing from a table decodes to the `UNKNOWN`
    mnemonic with zero fields. */
module Decoder {
  import opened Bits

  /** `CHECK_32BIT_INST`: the opcode bit that marks a 32-bit instruction. */
  const CHECK_32BIT_INST: U32 := 0x20

  datatype Mnemonic =
    // 16-bit register-register
    | MOV | ADD | SUB | AND | OR | XOR | SLL | SRL | SRA | SLT | SLTU
    // 16-bit shift by immediate
    | SLLI | SRLI | SRAI
    // 32-bit
    | ADDI | ANDI | ORI | XORI | SLTI | SLTIU
    | BEQ | BNQ | BLT | BGE | BLTU | BGEU
    | JALR | LB | LH | LBU | LHU | LW | LUI | SB | SH | SW
    | JAL
    // an opcode neither table knows
    | UNKNOWN

  datatype Format =
    | RFormat(mnemonic: Mnemonic, rd: U8, rs: U8)
    // the `u8` immediate of the 16-bit shifts is called `uimm` here, since
    // it does not share the type of the other formats' `i32` immediates
    | I16Format(mnemonic: Mnemonic, rd: U8, uimm: U8)
    | I32Format(mnemonic: Mnemonic, rd: U8, rs: U8, imm: I32)
    | JFormat(mnemonic: Mnemonic, rd: U8, imm: I32)

  /** The mnemonics with a 32-bit encoding. */
  predicate IsWide(m: Mnemonic) {
    !(m.MOV? || m.ADD? || m.SUB? || m.AND? || m.OR? || m.XOR? || m.SLL? || m.SRL?
      || m.SRA? || m.SLT? || m.SLTU? || m.SLLI? || m.SRLI? || m.SRAI? || m.UNKNOWN?)
  }

  /** The instruction set's opcode assignment, from the mnemonic's side. */
  function OpcodeOf(m: Mnemonic): (op: U8)
    requires m != UNKNOWN
    ensures op < 0x40
    ensures (op / 0x20 == 1) == IsWide(m)
  {
    match m
    case MOV => 0x00  case ADD => 0x01  case SUB => 0x02  case AND => 0x03
    case OR => 0x04   case XOR => 0x05  case SLL => 0x06  case SRL => 0x07
    case SRA => 0x08  case SLT => 0x09  case SLTU => 0x0A
    case SLLI => 0x10 case SRLI => 0x11 case SRAI => 0x12
    case ADDI => 0x20 case ANDI => 0x21 case ORI => 0x22  case XORI => 0x23
    case SLTI => 0x24 case SLTIU => 0x25
    case BEQ => 0x26  case BNQ => 0x27  case BLT => 0x28  case BGE => 0x29
    case BLTU => 0x2A case BGEU => 0x2B
    case JALR => 0x2C case LB => 0x2D   case LH => 0x2E   case LBU => 0x2F
    case LHU => 0x30  case LW => 0x31   case LUI => 0x32  case SB => 0x33
    case SH => 0x34   case SW => 0x35
    case JAL => 0x3F
  }

  /** The opcode table of `decode_32`. */
  function Opcode32(op: int): (m: Mnemonic)
    ensures m == UNKNOWN <==> !(0x20 <= op <= 0x35 || op == 0x3F)
  {
    match op
    case 0x20 => ADDI case 0x21 => ANDI case 0x22 => ORI  case 0x23 => XORI
    case 0x24 => SLTI case 0x25 => SLTIU
    case 0x26 => BEQ  case 0x27 => BNQ  case 0x28 => BLT  case 0x29 => BGE
    case 0x2A => BLTU case 0x2B => BGEU
    case 0x2C => JALR case 0x2D => LB   case 0x2E => LH   case 0x2F => LBU
    case 0x30 => LHU  case 0x31 => LW   case 0x32 => LUI  case 0x33 => SB
    case 0x34 => SH   case 0x35 => SW
    case 0x3F => JAL
    case _ => UNKNOWN
  }

  /** The opcode table of `decode_16`. */
  function Opcode16(op: int): (m: Mnemonic)
    ensures m == UNKNOWN <==> !(0x00 <= op <= 0x0A || 0x10 <= op <= 0x12)
  {
    match op
    case 0x00 => MOV  case 0x01 => ADD  case 0x02 => SUB  case 0x03 => AND
    case 0x04 => OR   case 0x05 => XOR  case 0x06 => SLL  case 0x07 => SRL
    case 0x08 => SRA  case 0x09 => SLT  case 0x0A => SLTU
    case 0x10 => SLLI case 0x11 => SRLI case 0x12 => SRAI
    case _ => UNKNOWN
  }

  // ---------------------------------------------------------------- fields

  /** `word & 0x3F`. */
  function OpcodeField(word: U32): (r: U8)
    ensures r < 0x40
  {
    word % 0x40
  }

  /** `(word & 0x7C0) >> 6`. */
  function RdField(word: U32): (r: U8)
    ensures r < 0x20
  {
    (word % 0x800) / 0x40
  }

  /** `(word & 0xF800) >> 11`. */
  function RsField(word: U32): (r: U8)
    ensures r < 0x20
  {
    (word % 0x1_0000) / 0x800
  }

  /** `((word & 0xFFFF_0000) as i32) >> 16`: the upper half-word, sign-extended. */
  function ImmIField(word: U32): (r: I32)
    ensures r == AsI16(word / 0x1_0000)
  {
    AsI32(word - word % 0x1_0000) / 0x1_0000
  }

  /** `((word & 0xFFFF_F800) as i32) >> 11`: the upper 21 bits, sign-extended. */
  function ImmJField(word: U32): (r: I32)
    ensures r == (var h := word / 0x800; if h < 0x10_0000 then h else h - 0x20_0000)
    ensures -0x10_0000 <= r < 0x10_0000
  {
    AsI32(word - word % 0x800) / 0x800
  }

  /** The three low fields and the upper half-word make up the whole word. */
  lemma FieldsCompose(word: U32)
    ensures word == (word / 0x1_0000) * 0x1_0000 + RsField(word) * 0x800
                    + RdField(word) * 0x40 + OpcodeField(word)
  {
  }

  // -------------------------------------------------------------- decoders

  function Decode32(word: U32): (f: Format)
    ensures f.I32Format? || f.JFormat?
    ensures f.mnemonic == UNKNOWN <==> !(0x20 <= word % 0x40 <= 0x35 || word % 0x40 == 0x3F)
    ensures f.mnemonic == UNKNOWN ==> f == I32Format(UNKNOWN, 0, 0, 0)
    ensures f.mnemonic != UNKNOWN ==> IsWide(f.mnemonic) && OpcodeOf(f.mnemonic) == word % 0x40
    ensures f.mnemonic != UNKNOWN ==> f.rd == RdField(word)
    ensures f.JFormat? <==> f.mnemonic == JAL
    ensures f.JFormat? ==> f.imm == ImmJField(word)
    ensures f.I32Format? && f.mnemonic != UNKNOWN ==> f.imm == AsI16(word / 0x1_0000)
    ensures f.I32Format? && f.mnemonic !in {UNKNOWN, LHU} ==> f.rs == RsField(word)
    ensures f.mnemonic == LHU ==> f.rs == 0
  {
    var m := Opcode32(OpcodeField(word));
    TableInverse32(OpcodeField(word));
    if m == JAL then JFormat(JAL, RdField(word), ImmJField(word))
    // LHU is decoded with its base register forced to register 0.
    else if m == LHU then I32Format(LHU, RdField(word), 0, ImmIField(word))
    else if m == UNKNOWN then I32Format(UNKNOWN, 0, 0, 0)
    else I32Format(m, RdField(word), RsField(word), ImmIField(word))
  }

  function Decode16(word: U16): (f: Format)
    ensures f.RFormat? || f.I16Format?
    ensures f.mnemonic == UNKNOWN <==> !(word % 0x40 <= 0x0A || 0x10 <= word % 0x40 <= 0x12)
    ensures f.mnemonic == UNKNOWN ==> f == RFormat(UNKNOWN, 0, 0)
    ensures f.mnemonic != UNKNOWN ==> !IsWide(f.mnemonic) && OpcodeOf(f.mnemonic) == word % 0x40
    ensures f.mnemonic != UNKNOWN ==> f.rd == RdField(word)
    ensures f.I16Format? <==> f.mnemonic in {SLLI, SRLI, SRAI}
    ensures f.I16Format? ==> f.uimm == word / 0x800
    ensures f.RFormat? && f.mnemonic != UNKNOWN ==> f.rs == word / 0x800
  {
    var m := Opcode16(OpcodeField(word));
    TableInverse16(OpcodeField(word));
    if m == UNKNOWN then RFormat(UNKNOWN, 0, 0)
    else if m in {SLLI, SRLI, SRAI} then I16Format(m, RdField(word), RsField(word))
    else RFormat(m, RdField(word), RsField(word))
  }

  // ---------------------------------------------------------- the tables

  /** Each opcode `decode_32` knows is the one the instruction set assigns
      to its mnemonic, so no two opcodes decode to the same mnemonic. */
  lemma TableInverse32(op: int)
    ensures Opcode32(op) != UNKNOWN ==> OpcodeOf(Opcode32(op)) == op
  {
    if 0x20 <= op <= 0x2A {
    } else if 0x2B <= op <= 0x35 {
    }
  }
  /** The same for `decode_16`. */
  lemma TableInverse16(op: int)
    ensures Opcode16(op) != UNKNOWN ==> OpcodeOf(Opcode16(op)) == op
  { }
  /** Every mnemonic but `UNKNOWN` has an opcode in the table of its width. */
  lemma TableComplete(m: Mnemonic)
    requires m != UNKNOWN
    ensures IsWide(m) ==> Opcode32(OpcodeOf(m)) == m
    ensures !IsWide(m) ==> Opcode16(OpcodeOf(m)) == m
  { }
}
