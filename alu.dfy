/** The register helpers of the CPU, as functions from the register file before
    the operation to the register file after it. Every helper writes exactly
    one register: `rd`, except SLT and SLTU, which write register 31 whatever
    `rd` is. Register 0 is an ordinary slot here; nothing in these helpers
    keeps it at zero. A register index of 32 or more makes the Rust array
    index panic, which the `requires` clauses exclude. */
module Alu {
  import opened Bits

  /** The 32 general-purpose `u32` registers. */
  type RegFile = s: seq<U32> | |s| == 32 witness seq(32, _ => 0)

  /** A register index the `[u32; 32]` array accepts without panicking. */
  predicate IsReg(i: int) {
    0 <= i < 32
  }

  /** `after` holds `v` in register `i` and agrees with `before` elsewhere. */
  predicate Writes(before: RegFile, after: RegFile, i: int, v: U32) {
    IsReg(i) && after[i] == v &&
    forall j :: 0 <= j < 32 && j != i ==> after[j] == before[j]
  }

  /** The shift amount register-register shifts take from `rs`: its low five
      bits, `value & 0x1F`. */
  function ShiftAmount(w: U32): (k: U32)
    ensures k == w % 32
  {
    assert Pow2(5) == 32;
    AndLowMask(w, 5, 32);
    BitAnd(w, 0x1F)
  }

  // ------------------------------------------------- 16-bit R format

  function Mov(regs: RegFile, rd: U8, rs: U8): (r: RegFile)
    requires IsReg(rd) && IsReg(rs)
    ensures Writes(regs, r, rd, regs[rs])
  {
    regs[rd := regs[rs]]
  }

  function Add(regs: RegFile, rd: U8, rs: U8): (r: RegFile)
    requires IsReg(rd) && IsReg(rs)
    ensures Writes(regs, r, rd, WrappingAdd(regs[rd], regs[rs]))
  {
    regs[rd := WrappingAdd(regs[rd], regs[rs])]
  }

  function Sub(regs: RegFile, rd: U8, rs: U8): (r: RegFile)
    requires IsReg(rd) && IsReg(rs)
    ensures Writes(regs, r, rd, WrappingSub(regs[rd], regs[rs]))
  {
    regs[rd := WrappingSub(regs[rd], regs[rs])]
  }

  function And(regs: RegFile, rd: U8, rs: U8): (r: RegFile)
    requires IsReg(rd) && IsReg(rs)
    ensures Writes(regs, r, rd, BitAnd(regs[rd], regs[rs]))
    ensures r[rd] <= regs[rd] && r[rd] <= regs[rs]
  {
    regs[rd := BitAnd(regs[rd], regs[rs])]
  }

  function Or(regs: RegFile, rd: U8, rs: U8): (r: RegFile)
    requires IsReg(rd) && IsReg(rs)
    ensures Writes(regs, r, rd, BitOr(regs[rd], regs[rs]))
    ensures r[rd] >= regs[rd] && r[rd] >= regs[rs]
  {
    regs[rd := BitOr(regs[rd], regs[rs])]
  }

  function Xor(regs: RegFile, rd: U8, rs: U8): (r: RegFile)
    requires IsReg(rd) && IsReg(rs)
    ensures Writes(regs, r, rd, BitXor(regs[rd], regs[rs]))
  {
    regs[rd := BitXor(regs[rd], regs[rs])]
  }

  function Sll(regs: RegFile, rd: U8, rs: U8): (r: RegFile)
    requires IsReg(rd) && IsReg(rs)
    ensures Writes(regs, r, rd, Shl(regs[rd], ShiftAmount(regs[rs])))
  {
    regs[rd := Shl(regs[rd], ShiftAmount(regs[rs]))]
  }

  function Srl(regs: RegFile, rd: U8, rs: U8): (r: RegFile)
    requires IsReg(rd) && IsReg(rs)
    ensures Writes(regs, r, rd, Shr(regs[rd], ShiftAmount(regs[rs])))
    ensures r[rd] == regs[rd] / Pow2(regs[rs] % 32)
  {
    regs[rd := Shr(regs[rd], ShiftAmount(regs[rs]))]
  }

  function Sra(regs: RegFile, rd: U8, rs: U8): (r: RegFile)
    requires IsReg(rd) && IsReg(rs)
    ensures Writes(regs, r, rd, Sar(regs[rd], ShiftAmount(regs[rs])))
    ensures AsI32(r[rd]) < 0 <==> AsI32(regs[rd]) < 0
  {
    regs[rd := Sar(regs[rd], ShiftAmount(regs[rs]))]
  }

  /** Signed comparison; the flag goes to register 31, not to `rd`. */
  function Slt(regs: RegFile, rd: U8, rs: U8): (r: RegFile)
    requires IsReg(rd) && IsReg(rs)
    ensures Writes(regs, r, 31, r[31])
    ensures r[31] == 0 || r[31] == 1
    ensures r[31] == 1 <==> AsI32(regs[rd]) < AsI32(regs[rs])
  {
    regs[31 := if AsI32(regs[rd]) < AsI32(regs[rs]) then 1 else 0]
  }

  /** Unsigned comparison; the flag goes to register 31, not to `rd`. */
  function Sltu(regs: RegFile, rd: U8, rs: U8): (r: RegFile)
    requires IsReg(rd) && IsReg(rs)
    ensures Writes(regs, r, 31, r[31])
    ensures r[31] == 0 || r[31] == 1
    ensures r[31] == 1 <==> regs[rd] < regs[rs]
  {
    regs[31 := if regs[rd] < regs[rs] then 1 else 0]
  }

  // --------------------------------------------- 16-bit I format shifts

  /** The immediate shifts panic in Rust on an amount of 32 or more. */
  function Slli(regs: RegFile, rd: U8, imm: U8): (r: RegFile)
    requires IsReg(rd) && imm < 32
    ensures Writes(regs, r, rd, Shl(regs[rd], imm))
  {
    regs[rd := Shl(regs[rd], imm)]
  }

  function Srli(regs: RegFile, rd: U8, imm: U8): (r: RegFile)
    requires IsReg(rd) && imm < 32
    ensures Writes(regs, r, rd, Shr(regs[rd], imm))
    ensures r[rd] == regs[rd] / Pow2(imm)
  {
    regs[rd := Shr(regs[rd], imm)]
  }

  function Srai(regs: RegFile, rd: U8, imm: U8): (r: RegFile)
    requires IsReg(rd) && imm < 32
    ensures Writes(regs, r, rd, Sar(regs[rd], imm))
    ensures AsI32(r[rd]) < 0 <==> AsI32(regs[rd]) < 0
  {
    regs[rd := Sar(regs[rd], imm)]
  }

  // ---------------------------------------- 32-bit I format arithmetic

  /** The immediate is an `i32` used through its `u32` bit pattern. */
  function Addi(regs: RegFile, rd: U8, rs: U8, imm: I32): (r: RegFile)
    requires IsReg(rd) && IsReg(rs)
    ensures Writes(regs, r, rd, WrappingAdd(regs[rs], AsU32(imm)))
  {
    regs[rd := WrappingAdd(regs[rs], AsU32(imm))]
  }

  function Andi(regs: RegFile, rd: U8, rs: U8, imm: I32): (r: RegFile)
    requires IsReg(rd) && IsReg(rs)
    ensures Writes(regs, r, rd, BitAnd(regs[rs], AsU32(imm)))
    ensures r[rd] <= regs[rs]
  {
    regs[rd := BitAnd(regs[rs], AsU32(imm))]
  }

  function Ori(regs: RegFile, rd: U8, rs: U8, imm: I32): (r: RegFile)
    requires IsReg(rd) && IsReg(rs)
    ensures Writes(regs, r, rd, BitOr(regs[rs], AsU32(imm)))
    ensures r[rd] >= regs[rs]
  {
    regs[rd := BitOr(regs[rs], AsU32(imm))]
  }

  function Xori(regs: RegFile, rd: U8, rs: U8, imm: I32): (r: RegFile)
    requires IsReg(rd) && IsReg(rs)
    ensures Writes(regs, r, rd, BitXor(regs[rs], AsU32(imm)))
  {
    regs[rd := BitXor(regs[rs], AsU32(imm))]
  }

  /** Signed comparison of `rs` with the immediate; the flag goes to `rd`. */
  function Slti(regs: RegFile, rd: U8, rs: U8, imm: I32): (r: RegFile)
    requires IsReg(rd) && IsReg(rs)
    ensures Writes(regs, r, rd, r[rd])
    ensures r[rd] == 0 || r[rd] == 1
    ensures r[rd] == 1 <==> AsI32(regs[rs]) < imm
  {
    regs[rd := if AsI32(regs[rs]) < imm then 1 else 0]
  }

  /** Unsigned comparison with the immediate's `u32` bit pattern, so a
      negative immediate compares as a large unsigned number. */
  function Sltiu(regs: RegFile, rd: U8, rs: U8, imm: I32): (r: RegFile)
    requires IsReg(rd) && IsReg(rs)
    ensures Writes(regs, r, rd, r[rd])
    ensures r[rd] == 0 || r[rd] == 1
    ensures r[rd] == 1 <==> regs[rs] < AsU32(imm)
    ensures imm < 0 ==> (r[rd] == 1 <==> regs[rs] < imm + TWO_32)
  {
    regs[rd := if regs[rs] < AsU32(imm) then 1 else 0]
  }

  // --------------------------------------------------------------- lemmas

  /** Moving a register onto itself changes nothing. */
  lemma MovSelf(regs: RegFile, r: U8)
    requires IsReg(r)
    ensures Mov(regs, r, r) == regs
  {
  }

  /** SUB undoes ADD of the same source register, whatever wrapped. */
  lemma SubUndoesAdd(regs: RegFile, rd: U8, rs: U8)
    requires IsReg(rd) && IsReg(rs) && rd != rs
    ensures Sub(Add(regs, rd, rs), rd, rs) == regs
  {
    AddThenSub(regs[rd], regs[rs]);
  }

  /** XOR with the same source register twice restores the destination. */
  lemma XorTwiceRestores(regs: RegFile, rd: U8, rs: U8)
    requires IsReg(rd) && IsReg(rs) && rd != rs
    ensures Xor(Xor(regs, rd, rs), rd, rs) == regs
  {
    Pow2Of32();
    XorCancels(regs[rd], regs[rs], 32);
  }

  /** A register combined with itself: AND and OR keep it, XOR and SUB clear
      it. */
  lemma SelfOperands(regs: RegFile, r: U8)
    requires IsReg(r)
    ensures And(regs, r, r) == regs && Or(regs, r, r) == regs
    ensures Xor(regs, r, r) == regs[r := 0] && Sub(regs, r, r) == regs[r := 0]
  {
    Pow2Of32();
    BitwiseSelf(regs[r], 32);
  }

  /** Repeating AND or OR with the same source changes nothing more. */
  lemma AndOrIdempotent(regs: RegFile, rd: U8, rs: U8)
    requires IsReg(rd) && IsReg(rs)
    ensures And(And(regs, rd, rs), rd, rs) == And(regs, rd, rs)
    ensures Or(Or(regs, rd, rs), rd, rs) == Or(regs, rd, rs)
  {
    Pow2Of32();
    if rd == rs {
      SelfOperands(regs, rd);
    } else {
      BitwiseAbsorbs(regs[rd], regs[rs], 32);
    }
  }

  /** With a zero immediate, ADDI, ORI and XORI copy `rs` into `rd` and ANDI
      clears `rd`. */
  lemma ZeroImmediate(regs: RegFile, rd: U8, rs: U8)
    requires IsReg(rd) && IsReg(rs)
    ensures Addi(regs, rd, rs, 0) == Mov(regs, rd, rs)
    ensures Ori(regs, rd, rs, 0) == Mov(regs, rd, rs)
    ensures Xori(regs, rd, rs, 0) == Mov(regs, rd, rs)
    ensures Andi(regs, rd, rs, 0) == regs[rd := 0]
  {
    Pow2Of32();
    BitwiseZero(regs[rs], 32);
  }

  /** A register-register shift is the immediate shift by the low five bits
      of `rs`. */
  lemma ShiftByRegister(regs: RegFile, rd: U8, rs: U8)
    requires IsReg(rd) && IsReg(rs)
    ensures Sll(regs, rd, rs) == Slli(regs, rd, ShiftAmount(regs[rs]))
    ensures Srl(regs, rd, rs) == Srli(regs, rd, ShiftAmount(regs[rs]))
    ensures Sra(regs, rd, rs) == Srai(regs, rd, ShiftAmount(regs[rs]))
  {
  }

  /** A shift by zero changes nothing. */
  lemma ShiftByZero(regs: RegFile, rd: U8)
    requires IsReg(rd)
    ensures Slli(regs, rd, 0) == regs && Srli(regs, rd, 0) == regs && Srai(regs, rd, 0) == regs
  {
  }

  /** On a non-negative value the arithmetic shift is the logical shift. */
  lemma SraiOfNonNegative(regs: RegFile, rd: U8, imm: U8)
    requires IsReg(rd) && imm < 32 && AsI32(regs[rd]) >= 0
    ensures Srai(regs, rd, imm) == Srli(regs, rd, imm)
  {
  }

  /** SLT computes the flag SLTI computes against the `i32` value of `rs`, but
      always in register 31. */
  lemma SltIsSltiIntoR31(regs: RegFile, rd: U8, rs: U8)
    requires IsReg(rd) && IsReg(rs)
    ensures Slt(regs, rd, rs) == Slti(regs, 31, rd, AsI32(regs[rs]))
  {
  }

  /** The signed and unsigned comparisons agree on values below 2^31 and
      disagree when exactly one operand has its top bit set. */
  lemma SignedAndUnsignedCompare(regs: RegFile, rd: U8, rs: U8)
    requires IsReg(rd) && IsReg(rs)
    ensures regs[rd] < 0x8000_0000 && regs[rs] < 0x8000_0000 ==> Slt(regs, rd, rs) == Sltu(regs, rd, rs)
    ensures regs[rd] >= 0x8000_0000 && regs[rs] < 0x8000_0000 ==> Slt(regs, rd, rs)[31] == 1 && Sltu(regs, rd, rs)[31] == 0
  {
  }
}
