/** Properties of whole steps and runs: what a branch, a jump, LUI, a write
    to register 0 and a store followed by a load do, when a step can panic,
    and what a run that halts leaves behind. */
module Behaviour {
  import opened Bits
  import Alu
  import opened MemoryImage
  import opened Decoder
  import opened Semantics

  /** The instruction the next step executes. */
  function Current(s: State): Format
    requires CanFetch(s)
  {
    DecodeWord(Fetch(s))
  }

  /** The address after the instruction at `pc`. */
  function Next(s: State): int
    requires CanFetch(s)
  {
    s.pc + InstructionLength(Fetch(s))
  }

  // ---------------------------------------------------------- decoding

  /** Bit 5 of a word, which picks the decoder, agrees with the width the
      opcode tables give the decoded mnemonic: a 32-bit word never decodes to
      a 16-bit mnemonic nor the other way round. */
  lemma WidthBitAgrees(word: U32)
    ensures DecodeWord(word).mnemonic != UNKNOWN ==>
              (IsWide(DecodeWord(word).mnemonic) <==> IsWideWord(word))
    ensures IsWideWord(word) <==> (word % 0x40) / 0x20 == 1
  {
    WidthBit(word);
    if IsWideWord(word) {
      assert DecodeWord(word) == Decode32(word);
    } else {
      assert DecodeWord(word) == Decode16(Low16(word));
    }
  }

  /** Bit 5 of a word is bit 5 of its opcode field and of its low half-word's. */
  lemma WidthBit(word: U32)
    ensures (word % 0x40) / 0x20 == (word / 0x20) % 2
    ensures Low16(word) % 0x40 == word % 0x40
  {
    SplitOpcode(word / 0x40, word % 0x40);
    SplitHalfWord(word / 0x1_0000, word % 0x1_0000);
  }

  /** Decoded register numbers and shift amounts always fit, so the only way
      `execute` can panic on a decoded instruction is a load or store outside
      the memory. */
  lemma OnlyMemoryFaults(word: U32, s: State)
    ensures var f := DecodeWord(word);
            CanExecute(f, s) <==>
              (f.I32Format? && AccessWidth(f.mnemonic) > 0 ==>
                 Accessible(s.mem, EffectiveAddress(s, f.rs, f.imm), AccessWidth(f.mnemonic)))
  {
  }

  // ------------------------------------------------------------ steps

  /** An instruction that is not a jump or a taken branch leaves the program
      counter just past itself. */
  lemma StepFallsThrough(s: State)
    requires CanStep(s) && !IsControlTransfer(Current(s))
    ensures Step(s).pc == Next(s)
  {
  }

  /** An unknown opcode changes nothing but the program counter and
      register 0. */
  lemma UnknownStep(s: State)
    requires CanStep(s) && Current(s).mnemonic == UNKNOWN
    ensures Step(s) == State(s.regs[0 := 0], Next(s), s.mem)
  {
  }

  // ------------------------------------------------------------ 32-bit steps

  /** A 32-bit format is only decoded from a word with the width bit set, so
      the step advances the program counter by 4 before executing it. */
  lemma WideAdvance(s: State)
    requires CanFetch(s) && (Current(s).I32Format? || Current(s).JFormat?)
    ensures IsWideWord(Fetch(s)) && Next(s) == s.pc + 4
  {
  }

  /** A branch jumps relative to the address after itself when its condition
      holds on `rd` and `rs`, and otherwise falls through; nothing else
      changes but register 0. */
  lemma BranchStep(s: State)
    requires CanStep(s) && Current(s).I32Format? && IsBranch(Current(s).mnemonic)
    ensures var f := Current(s);
            Step(s) == State(s.regs[0 := 0],
                             if BranchTaken(f.mnemonic, s.regs[f.rd], s.regs[f.rs])
                             then WrappingAdd(s.pc + 4, AsU32(f.imm)) else s.pc + 4,
                             s.mem)
  {
    WideAdvance(s);
  }

  /** A BEQ at address A with equal operands and offset 8 leaves the program
      counter at A + 4 + 8. */
  lemma BeqExample(s: State, rd: U8, rs: U8)
    requires CanStep(s) && Current(s) == I32Format(BEQ, rd, rs, 8)
    requires s.regs[rd] == s.regs[rs] && s.pc + 12 < TWO_32
    ensures Step(s).pc == s.pc + 12
  {
    BranchStep(s);
  }

  /** JAL saves the address after itself in `rd` and jumps relative to that
      address. */
  lemma JalStep(s: State)
    requires CanStep(s) && Current(s).JFormat?
    ensures var f := Current(s);
            Step(s) == State(s.regs[f.rd := s.pc + 4][0 := 0],
                             WrappingAdd(s.pc + 4, AsU32(f.imm)), s.mem)
  {
    WideAdvance(s);
  }

  /** JALR saves the return address in `rd` before it reads `rs`: when the
      two are the same register it jumps relative to the return address, not
      to the register's old value. */
  lemma JalrStep(s: State)
    requires CanStep(s) && Current(s).I32Format? && Current(s).mnemonic == JALR
    ensures var f := Current(s);
            Step(s).regs == s.regs[f.rd := s.pc + 4][0 := 0]
            && Step(s).pc == WrappingAdd(if f.rd == f.rs then s.pc + 4 else s.regs[f.rs], AsU32(f.imm))
            && Step(s).mem == s.mem
  {
    WideAdvance(s);
  }

  /** LUI puts the upper half-word of the instruction into the upper half of
      `rd` and clears the lower half. */
  lemma LuiStep(s: State)
    requires CanStep(s) && Current(s).I32Format? && Current(s).mnemonic == LUI
    ensures Step(s).regs == s.regs[Current(s).rd := (Fetch(s) / 0x1_0000) * 0x1_0000][0 := 0]
    ensures Step(s).pc == s.pc + 4 && Step(s).mem == s.mem
  {
    WideAdvance(s);
    var word := Fetch(s);
    var imm := Current(s).imm;
    assert imm == AsI16(word / 0x1_0000);
    LuiValue(imm);
    if Current(s).rd == 0 {
      var v := (word / 0x1_0000) * 0x1_0000;
      assert s.regs[0 := v][0 := 0] == s.regs[0 := 0];
    }
  }

  /** LB and LH read the byte or half-word at `rs` plus the immediate,
      wrapping modulo 2^32, and sign-extend it into `rd`. */
  lemma SignedLoadStep(s: State, m: Mnemonic, rd: U8, rs: U8, imm: I32)
    requires CanStep(s) && Current(s) == I32Format(m, rd, rs, imm) && m in {LB, LH}
    ensures rs < 32 && Accessible(s.mem, (s.regs[rs] + imm) % TWO_32, AccessWidth(m))
    ensures var address := (s.regs[rs] + imm) % TWO_32;
            Step(s).regs == s.regs[rd := if m == LB then SignExtend8(Read8(s.mem, address))
                                         else SignExtend16(Read16(s.mem, address))][0 := 0]
    ensures Step(s).pc == s.pc + 4 && Step(s).mem == s.mem
  {
    AccessStep(s, m, rd, rs, imm);
    SignedLoadResult(s, m, rd, rs, imm, Step(s));
  }

  /** LBU, LHU and LW read the byte, half-word or word at `rs` plus the
      immediate, wrapping modulo 2^32, into `rd` unchanged; for LHU the
      base register is always register 0. */
  lemma UnsignedLoadStep(s: State, m: Mnemonic, rd: U8, rs: U8, imm: I32)
    requires CanStep(s) && Current(s) == I32Format(m, rd, rs, imm) && m in {LBU, LHU, LW}
    ensures m == LHU ==> rs == 0
    ensures rs < 32 && Accessible(s.mem, (s.regs[rs] + imm) % TWO_32, AccessWidth(m))
    ensures var address := (s.regs[rs] + imm) % TWO_32;
            Step(s).regs == s.regs[rd := if m == LBU then Read8(s.mem, address)
                                         else if m == LHU then Read16(s.mem, address)
                                         else Read32(s.mem, address)][0 := 0]
    ensures Step(s).pc == s.pc + 4 && Step(s).mem == s.mem
  {
    AccessStep(s, m, rd, rs, imm);
    UnsignedLoadResult(s, m, rd, rs, imm, Step(s));
  }

  /** SB, SH and SW write `rd`'s low byte, low half-word or whole word at
      `rs` plus the immediate, wrapping modulo 2^32 (so every other byte
      stays), change no register but register 0, and move on by 4. */
  lemma StoreStep(s: State, m: Mnemonic, rd: U8, rs: U8, imm: I32)
    requires CanStep(s) && Current(s) == I32Format(m, rd, rs, imm) && IsStore(m)
    ensures rd < 32 && rs < 32 && Accessible(s.mem, (s.regs[rs] + imm) % TWO_32, AccessWidth(m))
    ensures var address := (s.regs[rs] + imm) % TWO_32;
            Step(s).mem == if m == SB then Write8(s.mem, address, Low8(s.regs[rd]))
                           else if m == SH then Write16(s.mem, address, Low16(s.regs[rd]))
                           else Write32(s.mem, address, s.regs[rd])
    ensures Step(s).regs == s.regs[0 := 0] && Step(s).pc == s.pc + 4
  {
    AccessStep(s, m, rd, rs, imm);
    StoreResult(s, m, rd, rs, imm, Step(s));
  }

  /** The state after a store, from its `LoadStore`. */
  lemma StoreResult(s: State, m: Mnemonic, rd: U8, rs: U8, imm: I32, after: State)
    requires s.pc + 4 < TWO_32 && IsStore(m) && rd < 32 && rs < 32 && MemoryAccessOk(m, rs, imm, s.(pc := s.pc + 4))
    requires var t := LoadStore(m, rd, rs, imm, s.(pc := s.pc + 4)); after == t.(regs := t.regs[0 := 0])
    ensures Accessible(s.mem, (s.regs[rs] + imm) % TWO_32, AccessWidth(m))
    ensures var address := (s.regs[rs] + imm) % TWO_32;
            after.mem == if m == SB then Write8(s.mem, address, Low8(s.regs[rd]))
                         else if m == SH then Write16(s.mem, address, Low16(s.regs[rd]))
                         else Write32(s.mem, address, s.regs[rd])
    ensures after.regs == s.regs[0 := 0] && after.pc == s.pc + 4
  {
    var u := s.(pc := s.pc + 4);
    assert EffectiveAddress(u, rs, imm) == (s.regs[rs] + imm) % TWO_32;
    assert LoadStore(m, rd, rs, imm, u).regs == s.regs;
  }

  /** The state after a signed load, from its `LoadStore`. */
  lemma SignedLoadResult(s: State, m: Mnemonic, rd: U8, rs: U8, imm: I32, after: State)
    requires s.pc + 4 < TWO_32 && m in {LB, LH} && rd < 32 && rs < 32 && MemoryAccessOk(m, rs, imm, s.(pc := s.pc + 4))
    requires var t := LoadStore(m, rd, rs, imm, s.(pc := s.pc + 4)); after == t.(regs := t.regs[0 := 0])
    ensures Accessible(s.mem, (s.regs[rs] + imm) % TWO_32, AccessWidth(m))
    ensures var address := (s.regs[rs] + imm) % TWO_32;
            after.regs == s.regs[rd := if m == LB then SignExtend8(Read8(s.mem, address))
                                       else SignExtend16(Read16(s.mem, address))][0 := 0]
    ensures after.pc == s.pc + 4 && after.mem == s.mem
  {
  }

  /** The state after an unsigned load, from its `LoadStore`. */
  lemma UnsignedLoadResult(s: State, m: Mnemonic, rd: U8, rs: U8, imm: I32, after: State)
    requires s.pc + 4 < TWO_32 && m in {LBU, LHU, LW} && rd < 32 && rs < 32 && MemoryAccessOk(m, rs, imm, s.(pc := s.pc + 4))
    requires var t := LoadStore(m, rd, rs, imm, s.(pc := s.pc + 4)); after == t.(regs := t.regs[0 := 0])
    ensures Accessible(s.mem, (s.regs[rs] + imm) % TWO_32, AccessWidth(m))
    ensures var address := (s.regs[rs] + imm) % TWO_32;
            after.regs == s.regs[rd := if m == LBU then Read8(s.mem, address)
                                       else if m == LHU then Read16(s.mem, address)
                                       else Read32(s.mem, address)][0 := 0]
    ensures after.pc == s.pc + 4 && after.mem == s.mem
  {
  }

  /** A load's or store's step is its `LoadStore` on the advanced state,
      with register 0 cleared. */
  lemma AccessStep(s: State, m: Mnemonic, rd: U8, rs: U8, imm: I32)
    requires CanStep(s) && Current(s) == I32Format(m, rd, rs, imm) && AccessWidth(m) > 0
    ensures s.pc + 4 < TWO_32 && rd < 32 && rs < 32 && MemoryAccessOk(m, rs, imm, s.(pc := s.pc + 4))
    ensures var t := LoadStore(m, rd, rs, imm, s.(pc := s.pc + 4));
            Step(s) == t.(regs := t.regs[0 := 0])
  {
    WideAdvance(s);
    var u := Advanced(s);
    assert u == s.(pc := s.pc + 4);
    ExecuteAccess(m, rd, rs, imm, u);
  }

  lemma ExecuteAccess(m: Mnemonic, rd: U8, rs: U8, imm: I32, u: State)
    requires CanExecute(I32Format(m, rd, rs, imm), u) && AccessWidth(m) > 0
    ensures rd < 32 && rs < 32 && MemoryAccessOk(m, rs, imm, u)
    ensures Execute(I32Format(m, rd, rs, imm), u) == LoadStore(m, rd, rs, imm, u)
  {
    assert IsI32Op(m) && m != LUI && !IsBranch(m) && m != JALR;
    assert m !in {ADDI, ANDI, ORI, XORI, SLTI, SLTIU};
    assert Execute(I32Format(m, rd, rs, imm), u) == ExecuteI32(m, rd, rs, imm, u);
  }

  /** The value LUI writes for a decoded 16-bit immediate. */
  lemma LuiValue(imm: int)
    requires -0x8000 <= imm < 0x8000
    ensures Shl(AsU32(imm), 16) == (if imm < 0 then imm + 0x1_0000 else imm) * 0x1_0000
  {
    ShlBy16(AsU32(imm));
    LowHalfOfImmediate(imm);
  }

  lemma LowHalfOfImmediate(imm: int)
    requires -0x8000 <= imm < 0x8000
    ensures AsU32(imm) % 0x1_0000 == (if imm < 0 then imm + 0x1_0000 else imm)
  {
  }

  // ---------------------------------------------------------- registers

  /** SLT and SLTU put their result in register 31, whatever `rd` is; `rd`
      changes only when it is register 31, or register 0, which the step
      clears. */
  lemma SetLessThanStep(s: State)
    requires CanStep(s) && Current(s).RFormat? && Current(s).mnemonic in {SLT, SLTU}
    ensures var f := Current(s);
            var less := if f.mnemonic == SLT then AsI32(s.regs[f.rd]) < AsI32(s.regs[f.rs])
                        else s.regs[f.rd] < s.regs[f.rs];
            Step(s).regs == s.regs[31 := if less then 1 else 0][0 := 0]
            && Step(s).pc == s.pc + 2 && Step(s).mem == s.mem
  {
    var f := Current(s);
    assert !IsWideWord(Fetch(s));
    var regs := RegisterOp(f.mnemonic, s.regs, f.rd, f.rs);
    var less := if f.mnemonic == SLT then AsI32(s.regs[f.rd]) < AsI32(s.regs[f.rs])
                else s.regs[f.rd] < s.regs[f.rs];
    assert regs == s.regs[31 := if less then 1 else 0];
  }

  /** An instruction whose only effect is to write `rd` leaves the registers
      untouched when `rd` is register 0 and register 0 holds 0, since the step
      clears register 0 afterwards. */
  lemma ZeroRegisterDiscards(s: State)
    requires CanStep(s) && s.regs[0] == 0
    requires Current(s).rd == 0 && Current(s).mnemonic !in {SLT, SLTU}
    requires !IsControlTransfer(Current(s)) && !(Current(s).I32Format? && IsStore(Current(s).mnemonic))
    ensures Step(s) == State(s.regs, Next(s), s.mem)
  {
    var f := Current(s);
    var u := Execute(f, Advanced(s));
    WritesOnly(f, Advanced(s));
    assert u.regs[0 := 0] == s.regs;
  }

  /** The registers an instruction that is not a jump, branch or store
      changes: at most `rd`, and for SLT and SLTU register 31. */
  lemma WritesOnly(f: Format, s: State)
    requires CanExecute(f, s) && !IsControlTransfer(f) && !(f.I32Format? && IsStore(f.mnemonic))
    requires f.rd < 32 && f.mnemonic !in {SLT, SLTU}
    ensures var t := Execute(f, s);
            t.pc == s.pc && t.mem == s.mem && Alu.Writes(s.regs, t.regs, f.rd, t.regs[f.rd])
  {
    match f
    case RFormat(m, rd, rs) =>
    case I16Format(m, rd, uimm) =>
    case I32Format(m, rd, rs, imm) =>
      if IsI32Op(m) {
        I32WritesOnly(m, rd, rs, imm, s);
      }
    case JFormat(m, rd, imm) =>
  }

  /** The same for the 32-bit immediate instructions and loads. */
  lemma I32WritesOnly(m: Mnemonic, rd: U8, rs: U8, imm: I32, s: State)
    requires IsI32Op(m) && CanExecute(I32Format(m, rd, rs, imm), s)
    requires !IsBranch(m) && m != JALR && !IsStore(m)
    ensures var t := ExecuteI32(m, rd, rs, imm, s); Alu.Writes(s.regs, t.regs, rd, t.regs[rd])
  {
    if AccessWidth(m) > 0 {
      assert ExecuteI32(m, rd, rs, imm, s) == LoadStore(m, rd, rs, imm, s);
    }
  }

  // --------------------------------------------------------- memory

  /** A store followed by the matching unsigned load from the same address
      gives back only the low byte of the stored register, because the 16-
      and 32-bit writes store 0 above the lowest byte: the round trip is
      exact only for values below 0x100. For SB and LBU that is all a byte
      store can keep. */
  lemma StoreByteThenLoad(rd: U8, rs: U8, rd2: U8, imm: I32, s: State)
    requires rd < 32 && rs < 32 && rd2 < 32 && MemoryAccessOk(SB, rs, imm, s)
    ensures var t := LoadStore(SB, rd, rs, imm, s);
            MemoryAccessOk(LBU, rs, imm, t) && LoadStore(LBU, rd2, rs, imm, t).regs[rd2] == s.regs[rd] % 0x100
            && (LoadStore(LBU, rd2, rs, imm, t).regs[rd2] == s.regs[rd] <==> s.regs[rd] < 0x100)
  {
    var address := EffectiveAddress(s, rs, imm);
    var t := s.(mem := Write8(s.mem, address, Low8(s.regs[rd])));
    assert LoadStore(SB, rd, rs, imm, s) == t;
    ReadAfterWrite8(s.mem, address, Low8(s.regs[rd]));
    assert LoadStore(LBU, rd2, rs, imm, t) == t.(regs := t.regs[rd2 := Read8(t.mem, address)]);
  }

  /** The same for SH and LHU. */
  lemma StoreHalfThenLoad(rd: U8, rs: U8, rd2: U8, imm: I32, s: State)
    requires rd < 32 && rs < 32 && rd2 < 32 && MemoryAccessOk(SH, rs, imm, s)
    ensures var t := LoadStore(SH, rd, rs, imm, s);
            MemoryAccessOk(LHU, rs, imm, t) && LoadStore(LHU, rd2, rs, imm, t).regs[rd2] == s.regs[rd] % 0x100
            && (LoadStore(LHU, rd2, rs, imm, t).regs[rd2] == s.regs[rd] <==> s.regs[rd] < 0x100)
  {
    var address := EffectiveAddress(s, rs, imm);
    var t := s.(mem := Write16(s.mem, address, Low16(s.regs[rd])));
    assert LoadStore(SH, rd, rs, imm, s) == t;
    ReadAfterWrite16(s.mem, address, Low16(s.regs[rd]));
    LowByteOfHalfWord(s.regs[rd]);
    assert LoadStore(LHU, rd2, rs, imm, t) == t.(regs := t.regs[rd2 := Read16(t.mem, address)]);
  }

  /** The low byte of a word is the low byte of its low half-word. */
  lemma LowByteOfHalfWord(v: U32)
    ensures Low16(v) % 0x100 == v % 0x100
  {
    var k := (v / 0x1_0000) * 0x100;
    assert v == k * 0x100 + Low16(v);
    ByteOfMultiple(k, Low16(v));
  }

  lemma ByteOfMultiple(k: int, h: int)
    ensures (k * 0x100 + h) % 0x100 == h % 0x100
  {
  }

  /** The same for SW and LW. */
  lemma StoreWordThenLoad(rd: U8, rs: U8, rd2: U8, imm: I32, s: State)
    requires rd < 32 && rs < 32 && rd2 < 32 && MemoryAccessOk(SW, rs, imm, s)
    ensures var t := LoadStore(SW, rd, rs, imm, s);
            MemoryAccessOk(LW, rs, imm, t) && LoadStore(LW, rd2, rs, imm, t).regs[rd2] == s.regs[rd] % 0x100
            && (LoadStore(LW, rd2, rs, imm, t).regs[rd2] == s.regs[rd] <==> s.regs[rd] < 0x100)
  {
    var address := EffectiveAddress(s, rs, imm);
    var t := s.(mem := Write32(s.mem, address, s.regs[rd]));
    assert LoadStore(SW, rd, rs, imm, s) == t;
    ReadAfterWrite32(s.mem, address, s.regs[rd]);
    assert LoadStore(LW, rd2, rs, imm, t) == t.(regs := t.regs[rd2 := Read32(t.mem, address)]);
  }

  /** The conditions come in complementary pairs. */
  lemma BranchComplements(a: U32, b: U32)
    ensures BranchTaken(BNQ, a, b) == !BranchTaken(BEQ, a, b)
    ensures BranchTaken(BGE, a, b) == !BranchTaken(BLT, a, b)
    ensures BranchTaken(BGEU, a, b) == !BranchTaken(BLTU, a, b)
  {
  }

  // ------------------------------------------------------------- runs

  /** Halting leaves register 0 cleared when every step does. */
  lemma {:induction false} LoopHaltsWithZeroRegister(step: State -> Option<State>, s: State, breakPoint: U32, endOfAddress: U32, fuel: nat)
    requires forall x :: step(x).Some? ==> step(x).value.regs[0] == 0
    ensures var o := Loop(step, s, breakPoint, endOfAddress, fuel);
            o.Halted? ==> o.state.regs[0] == 0
    decreases fuel, 0
  {
    if fuel > 0 && step(s).Some? {
      AfterStepHaltsWithZeroRegister(step, step(s).value, breakPoint, endOfAddress, fuel - 1);
    }
  }

  lemma {:induction false} AfterStepHaltsWithZeroRegister(step: State -> Option<State>, t: State, breakPoint: U32, endOfAddress: U32, fuel: nat)
    requires forall x :: step(x).Some? ==> step(x).value.regs[0] == 0
    requires t.regs[0] == 0
    ensures var o := AfterStep(step, t, breakPoint, endOfAddress, fuel);
            o.Halted? ==> o.state.regs[0] == 0
    decreases fuel, 1
  {
    if !(t.pc == breakPoint || t.pc == endOfAddress) && t.pc <= endOfAddress {
      LoopHaltsWithZeroRegister(step, t, breakPoint, endOfAddress, fuel);
    }
  }

  /** The memory keeps its size over a run when every step keeps it. */
  lemma {:induction false} LoopKeepsMemorySize(step: State -> Option<State>, s: State, breakPoint: U32, endOfAddress: U32, fuel: nat)
    requires forall x :: step(x).Some? ==> |step(x).value.mem| == |x.mem|
    ensures |Loop(step, s, breakPoint, endOfAddress, fuel).state.mem| == |s.mem|
    decreases fuel, 0
  {
    if fuel > 0 && step(s).Some? {
      AfterStepKeepsMemorySize(step, step(s).value, breakPoint, endOfAddress, fuel - 1);
    }
  }

  lemma {:induction false} AfterStepKeepsMemorySize(step: State -> Option<State>, t: State, breakPoint: U32, endOfAddress: U32, fuel: nat)
    requires forall x :: step(x).Some? ==> |step(x).value.mem| == |x.mem|
    ensures |AfterStep(step, t, breakPoint, endOfAddress, fuel).state.mem| == |t.mem|
    decreases fuel, 1
  {
    if !(t.pc == breakPoint || t.pc == endOfAddress) && t.pc <= endOfAddress {
      LoopKeepsMemorySize(step, t, breakPoint, endOfAddress, fuel);
    }
  }

  /** The step budget only decides whether the run gets to its end: a run
      that halts or panics within some budget does the same with any larger
      one. */
  lemma {:induction false} LoopMoreFuel(step: State -> Option<State>, s: State, breakPoint: U32, endOfAddress: U32, fuel: nat, more: nat)
    requires fuel <= more && !Loop(step, s, breakPoint, endOfAddress, fuel).OutOfFuel?
    ensures Loop(step, s, breakPoint, endOfAddress, more) == Loop(step, s, breakPoint, endOfAddress, fuel)
    decreases fuel, 0
  {
    if step(s).Some? {
      AfterStepMoreFuel(step, step(s).value, breakPoint, endOfAddress, fuel - 1, more - 1);
    }
  }

  lemma {:induction false} AfterStepMoreFuel(step: State -> Option<State>, t: State, breakPoint: U32, endOfAddress: U32, fuel: nat, more: nat)
    requires fuel <= more && !AfterStep(step, t, breakPoint, endOfAddress, fuel).OutOfFuel?
    ensures AfterStep(step, t, breakPoint, endOfAddress, more) == AfterStep(step, t, breakPoint, endOfAddress, fuel)
    decreases fuel, 1
  {
    if !(t.pc == breakPoint || t.pc == endOfAddress) && t.pc <= endOfAddress {
      LoopMoreFuel(step, t, breakPoint, endOfAddress, fuel, more);
    }
  }

  /** What a run of the emulator leaves behind: it halts with register 0
      cleared (unless it starts past the end address and does nothing), it
      panics only where the next step would panic, and the memory keeps its
      size. */
  lemma RunOutcome(s: State, breakPoint: U32, endOfAddress: U32, fuel: nat)
    ensures var o := Run(s, breakPoint, endOfAddress, fuel);
            (s.pc > endOfAddress ==> o == Halted(s))
            && (s.pc <= endOfAddress && o.Halted? ==> o.state.regs[0] == 0)
            && (o.Panicked? ==> !CanStep(o.state))
            && |o.state.mem| == |s.mem|
  {
    if s.pc <= endOfAddress {
      LoopHaltsWithZeroRegister(TryStep, s, breakPoint, endOfAddress, fuel);
      LoopKeepsMemorySize(TryStep, s, breakPoint, endOfAddress, fuel);
    }
  }

  /** A run that halts within some budget halts in the same state with any
      larger one. */
  lemma RunMoreFuel(s: State, breakPoint: U32, endOfAddress: U32, fuel: nat, more: nat)
    requires fuel <= more && !Run(s, breakPoint, endOfAddress, fuel).OutOfFuel?
    ensures Run(s, breakPoint, endOfAddress, more) == Run(s, breakPoint, endOfAddress, fuel)
  {
    if s.pc <= endOfAddress {
      LoopMoreFuel(TryStep, s, breakPoint, endOfAddress, fuel, more);
    }
  }

  /** Reaching the break point or the end address runs exactly one more
      step before the loop halts. */
  lemma StopAddressRunsOneMore(step: State -> Option<State>, s: State, breakPoint: U32, endOfAddress: U32, fuel: nat)
    requires fuel > 0 && step(s).Some?
    requires var t := step(s).value; t.pc == breakPoint || t.pc == endOfAddress
    ensures var t := step(s).value;
            Loop(step, s, breakPoint, endOfAddress, fuel)
              == if step(t).Some? then Halted(step(t).value) else Panicked(t)
  {
  }

  /** A step that leaves the program counter past the end address, and not at
      the break point, ends the loop at once. */
  lemma PastEndStops(step: State -> Option<State>, s: State, breakPoint: U32, endOfAddress: U32, fuel: nat)
    requires fuel > 0 && step(s).Some?
    requires var t := step(s).value; t.pc != breakPoint && t.pc > endOfAddress
    ensures Loop(step, s, breakPoint, endOfAddress, fuel) == Halted(step(s).value)
  {
  }
}
