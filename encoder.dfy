/** The inverse of the decoders: the instruction word of a format value. The
    emulator itself only decodes; the encoder states what the bit layout
    documented in `Decoder` means, and the round-trip lemmas show the two
    decoders read exactly those fields. */
module Encoder {
  import opened Bits
  import opened Decoder

  /** A format some instruction word decodes to: a known mnemonic in its own
      format, register numbers below 32 and an immediate that fits its field.
      LHU's base register is always 0, because the decoder writes 0 there. */
  predicate Encodable(f: Format) {
    f.mnemonic != UNKNOWN && f.rd < 32 &&
    match f
    case RFormat(m, _, rs) => !IsWide(m) && m !in {SLLI, SRLI, SRAI} && rs < 32
    case I16Format(m, _, uimm) => m in {SLLI, SRLI, SRAI} && uimm < 32
    case I32Format(m, _, rs, imm) =>
      IsWide(m) && m != JAL && rs < 32 && -0x8000 <= imm < 0x8000 && (m == LHU ==> rs == 0)
    case JFormat(m, _, imm) => m == JAL && -0x10_0000 <= imm < 0x10_0000
  }

  function Encode(f: Format): (w: U32)
    requires Encodable(f)
    ensures OpcodeField(w) == OpcodeOf(f.mnemonic) && RdField(w) == f.rd
    ensures !IsWide(f.mnemonic) ==> w < 0x1_0000
  {
    var op := OpcodeOf(f.mnemonic);
    match f
    case RFormat(_, rd, rs) => Pack(0, rs, rd, op)
    case I16Format(_, rd, uimm) => Pack(0, uimm, rd, op)
    case I32Format(_, rd, rs, imm) => Pack(if imm < 0 then imm + 0x1_0000 else imm, rs, rd, op)
    case JFormat(_, rd, imm) => PackJump(if imm < 0 then imm + 0x20_0000 else imm, rd, op)
  }

  /** `upper[31:16] rs[15:11] rd[10:6] op[5:0]`. */
  function Pack(upper: int, rs: int, rd: int, op: int): (w: U32)
    requires 0 <= upper < 0x1_0000 && 0 <= rs < 0x20 && 0 <= rd < 0x20 && 0 <= op < 0x40
    ensures OpcodeField(w) == op && RdField(w) == rd && RsField(w) == rs
    ensures w / 0x1_0000 == upper && w / 0x800 == upper * 0x20 + rs
  {
    WordFields(upper, rs, rd, op);
    upper * 0x1_0000 + rs * 0x800 + rd * 0x40 + op
  }

  /** `upper[31:11] rd[10:6] op[5:0]`. */
  function PackJump(upper: int, rd: int, op: int): (w: U32)
    requires 0 <= upper < 0x20_0000 && 0 <= rd < 0x20 && 0 <= op < 0x40
    ensures OpcodeField(w) == op && RdField(w) == rd && w / 0x800 == upper
  {
    JumpFields(upper, rd, op);
    upper * 0x800 + rd * 0x40 + op
  }

  lemma DivMod40(q: int, r: int)
    requires 0 <= r < 0x40
    ensures (q * 0x40 + r) / 0x40 == q && (q * 0x40 + r) % 0x40 == r
  {
  }

  lemma DivMod800(q: int, r: int)
    requires 0 <= r < 0x800
    ensures (q * 0x800 + r) / 0x800 == q && (q * 0x800 + r) % 0x800 == r
  {
  }

  lemma DivMod10000(q: int, r: int)
    requires 0 <= r < 0x1_0000
    ensures (q * 0x1_0000 + r) / 0x1_0000 == q && (q * 0x1_0000 + r) % 0x1_0000 == r
  {
  }

  /** The fields of a word assembled from an upper half-word, `rs`, `rd` and
      an opcode are those four values. */
  lemma WordFields(upper: int, rs: int, rd: int, op: int)
    requires 0 <= upper < 0x1_0000 && 0 <= rs < 0x20 && 0 <= rd < 0x20 && 0 <= op < 0x40
    ensures var w := upper * 0x1_0000 + rs * 0x800 + rd * 0x40 + op;
            0 <= w < TWO_32 && OpcodeField(w) == op && RdField(w) == rd
            && RsField(w) == rs && w / 0x1_0000 == upper && w / 0x800 == upper * 0x20 + rs
  {
    var low := rd * 0x40 + op;
    var mid := rs * 0x800 + low;
    var w := upper * 0x1_0000 + mid;
    DivMod40(upper * 0x400 + rs * 0x20 + rd, op);
    DivMod40(rd, op);
    DivMod800(upper * 0x20 + rs, low);
    DivMod800(rs, low);
    DivMod10000(upper, mid);
  }

  /** The same for the 21-bit immediate of JAL. */
  lemma JumpFields(upper: int, rd: int, op: int)
    requires 0 <= upper < 0x20_0000 && 0 <= rd < 0x20 && 0 <= op < 0x40
    ensures var w := upper * 0x800 + rd * 0x40 + op;
            0 <= w < TWO_32 && OpcodeField(w) == op && RdField(w) == rd && w / 0x800 == upper
  {
    var low := rd * 0x40 + op;
    DivMod40(upper * 0x20 + rd, op);
    DivMod40(rd, op);
    DivMod800(upper, low);
  }

  /** Decoding an encoded format gives it back. */
  lemma DecodeEncode(f: Format)
    requires Encodable(f)
    ensures IsWide(f.mnemonic) ==> Decode32(Encode(f)) == f
    ensures !IsWide(f.mnemonic) ==> Decode16(Encode(f)) == f
  {
    TableComplete(f.mnemonic);
    var op := OpcodeOf(f.mnemonic);
    match f
    case RFormat(_, rd, rs) =>
      WordFields(0, rs, rd, op);
    case I16Format(_, rd, uimm) =>
      WordFields(0, uimm, rd, op);
    case I32Format(_, rd, rs, imm) =>
      WordFields(if imm < 0 then imm + 0x1_0000 else imm, rs, rd, op);
    case JFormat(_, rd, imm) =>
      JumpFields(if imm < 0 then imm + 0x20_0000 else imm, rd, op);
  }

  /** Every 32-bit word with a known opcode is the encoding of what it decodes
      to, except that LHU loses its `rs` field. */
  lemma EncodeDecode32(word: U32)
    requires Decode32(word).mnemonic != UNKNOWN
    ensures Encodable(Decode32(word))
    ensures Decode32(word).mnemonic != LHU ==> Encode(Decode32(word)) == word
    ensures Decode32(word).mnemonic == LHU ==> Encode(Decode32(word)) == word - RsField(word) * 0x800
  {
    var f := Decode32(word);
    var op := OpcodeField(word);
    assert OpcodeOf(f.mnemonic) == op;
    FieldsCompose(word);
    if f.JFormat? {
      JumpWord(word);
      assert Encode(f) == PackJump(word / 0x800, RdField(word), op);
    } else {
      var upper := word / 0x1_0000;
      assert (if f.imm < 0 then f.imm + 0x1_0000 else f.imm) == upper;
      assert Encode(f) == Pack(upper, f.rs, RdField(word), op);
    }
  }

  /** A word is its upper 21 bits followed by `rd` and the opcode. */
  lemma JumpWord(word: U32)
    ensures word == (word / 0x800) * 0x800 + RdField(word) * 0x40 + OpcodeField(word)
  {
  }

  /** Every 16-bit word with a known opcode is the encoding of what it decodes
      to. */
  lemma EncodeDecode16(word: U16)
    requires Decode16(word).mnemonic != UNKNOWN
    ensures Encodable(Decode16(word)) && Encode(Decode16(word)) == word
  {
    var f := Decode16(word);
    FieldsCompose(word);
    assert word / 0x1_0000 == 0;
    assert RsField(word) == word / 0x800;
    assert OpcodeOf(f.mnemonic) == OpcodeField(word);
    if f.I16Format? {
      assert Encode(f) == Pack(0, f.uimm, f.rd, OpcodeField(word));
    } else {
      assert Encode(f) == Pack(0, f.rs, f.rd, OpcodeField(word));
    }
  }
}
