/** What one instruction, one step and a whole run do to the machine state,
    as functions on values. The `Emulator` class is proved to follow them.

    A Rust panic (register index out of range, shift amount of 32 or more,
    memory access outside the image, `u32` overflow of an address or of the
    program counter) is excluded by `CanExecute` and `CanStep`; a run that
    reaches one ends as `Panicked`. */
module Semantics {
  import opened Bits
  import Alu
  import opened MemoryImage
  import opened Decoder

  datatype State = State(regs: Alu.RegFile, pc: U32, mem: Bytes)

  predicate IsRegisterOp(m: Mnemonic) {
    m in {MOV, ADD, SUB, AND, OR, XOR, SLL, SRL, SRA, SLT, SLTU}
  }

  predicate IsShiftImmOp(m: Mnemonic) {
    m in {SLLI, SRLI, SRAI}
  }

  predicate IsBranch(m: Mnemonic) {
    m in {BEQ, BNQ, BLT, BGE, BLTU, BGEU}
  }

  predicate IsStore(m: Mnemonic) {
    m in {SB, SH, SW}
  }

  /** The mnemonics `execute` acts on inside an `I32Format`. */
  predicate IsI32Op(m: Mnemonic) {
    IsWide(m) && m != JAL
  }

  /** The number of bytes a load or store accesses; 0 for other mnemonics. */
  function AccessWidth(m: Mnemonic): (n: int)
    ensures n == 0 || n == 1 || n == 2 || n == 4
    ensures n > 0 <==> m in {LB, LH, LBU, LHU, LW, SB, SH, SW}
  {
    if m in {LB, LBU, SB} then 1
    else if m in {LH, LHU, SH} then 2
    else if m in {LW, SW} then 4
    else 0
  }

  /** A branch's condition on the values of `rd` and `rs`. Only a branch can
      be taken, and the signed conditions agree with the unsigned ones when
      both operands have the same sign bit. */
  function BranchTaken(m: Mnemonic, a: U32, b: U32): (taken: bool)
    ensures taken ==> IsBranch(m)
    ensures m in {BLT, BGE} && (a < 0x8000_0000 <==> b < 0x8000_0000) ==>
              (taken <==> (if m == BLT then a < b else a >= b))
  {
    match m
    case BEQ => a == b
    case BNQ => a != b
    case BLT => AsI32(a) < AsI32(b)
    case BGE => AsI32(a) >= AsI32(b)
    case BLTU => a < b
    case BGEU => a >= b
    case _ => false
  }

  /** The address of a load or store: `rs` plus the immediate, wrapping. */
  function EffectiveAddress(s: State, rs: U8, imm: I32): (address: U32)
    requires Alu.IsReg(rs)
    ensures address == (s.regs[rs] + imm) % TWO_32
  {
    ModMultiple(s.regs[rs] + imm, 1);
    WrappingAdd(s.regs[rs], AsU32(imm))
  }

  /** A load or store's bytes lie inside the memory. */
  predicate MemoryAccessOk(m: Mnemonic, rs: U8, imm: I32, s: State)
    requires Alu.IsReg(rs)
  {
    AccessWidth(m) > 0 ==> Accessible(s.mem, EffectiveAddress(s, rs, imm), AccessWidth(m))
  }

  /** `execute` on `f` in state `s` does not panic. */
  predicate CanExecute(f: Format, s: State) {
    match f
    case RFormat(m, rd, rs) => IsRegisterOp(m) ==> rd < 32 && rs < 32
    case I16Format(m, rd, uimm) => IsShiftImmOp(m) ==> rd < 32 && uimm < 32
    case I32Format(m, rd, rs, imm) =>
      IsI32Op(m) ==> rd < 32 && (m != LUI ==> rs < 32 && MemoryAccessOk(m, rs, imm, s))
    case JFormat(m, rd, _) => m == JAL ==> rd < 32
  }

  /** Instructions that may set the program counter. */
  predicate IsControlTransfer(f: Format) {
    (f.I32Format? && (IsBranch(f.mnemonic) || f.mnemonic == JALR)) || (f.JFormat? && f.mnemonic == JAL)
  }

  /** The register helper an `RFormat` mnemonic selects. */
  function RegisterOp(m: Mnemonic, regs: Alu.RegFile, rd: U8, rs: U8): (r: Alu.RegFile)
    requires IsRegisterOp(m) && rd < 32 && rs < 32
    ensures m !in {SLT, SLTU} ==> Alu.Writes(regs, r, rd, r[rd])
    ensures m in {SLT, SLTU} ==> Alu.Writes(regs, r, 31, r[31]) && r[31] <= 1
  {
    match m
    case MOV => Alu.Mov(regs, rd, rs)
    case ADD => Alu.Add(regs, rd, rs)
    case SUB => Alu.Sub(regs, rd, rs)
    case AND => Alu.And(regs, rd, rs)
    case OR => Alu.Or(regs, rd, rs)
    case XOR => Alu.Xor(regs, rd, rs)
    case SLL => Alu.Sll(regs, rd, rs)
    case SRL => Alu.Srl(regs, rd, rs)
    case SRA => Alu.Sra(regs, rd, rs)
    case SLT => Alu.Slt(regs, rd, rs)
    case SLTU => Alu.Sltu(regs, rd, rs)
  }

  /** The register helper an `I16Format` mnemonic selects. */
  function ShiftImmOp(m: Mnemonic, regs: Alu.RegFile, rd: U8, uimm: U8): (r: Alu.RegFile)
    requires IsShiftImmOp(m) && rd < 32 && uimm < 32
    ensures Alu.Writes(regs, r, rd, r[rd])
    ensures uimm == 0 ==> r == regs
  {
    match m
    case SLLI => Alu.Slli(regs, rd, uimm)
    case SRLI => Alu.Srli(regs, rd, uimm)
    case SRAI => Alu.Srai(regs, rd, uimm)
  }

  /** `execute` on an `I32Format`. The immediate is added as its `u32` bit
      pattern. JALR writes the return address before it reads `rs`, so with
      `rd == rs` it jumps relative to the return address. */
  function ExecuteI32(m: Mnemonic, rd: U8, rs: U8, imm: I32, s: State): (t: State)
    requires CanExecute(I32Format(m, rd, rs, imm), s)
    ensures m == UNKNOWN ==> t == s
    ensures !(IsBranch(m) || m == JALR) ==> t.pc == s.pc
    ensures !IsStore(m) ==> t.mem == s.mem
    ensures IsStore(m) ==> t.regs == s.regs && |t.mem| == |s.mem|
  {
    if !IsI32Op(m) then s
    else if m == LUI then s.(regs := s.regs[rd := Shl(AsU32(imm), 16)])
    else if m == ADDI then s.(regs := Alu.Addi(s.regs, rd, rs, imm))
    else if m == ANDI then s.(regs := Alu.Andi(s.regs, rd, rs, imm))
    else if m == ORI then s.(regs := Alu.Ori(s.regs, rd, rs, imm))
    else if m == XORI then s.(regs := Alu.Xori(s.regs, rd, rs, imm))
    else if m == SLTI then s.(regs := Alu.Slti(s.regs, rd, rs, imm))
    else if m == SLTIU then s.(regs := Alu.Sltiu(s.regs, rd, rs, imm))
    else if IsBranch(m) then
      if BranchTaken(m, s.regs[rd], s.regs[rs]) then s.(pc := WrappingAdd(s.pc, AsU32(imm))) else s
    else if m == JALR then
      var regs := s.regs[rd := s.pc];
      s.(regs := regs, pc := WrappingAdd(regs[rs], AsU32(imm)))
    else LoadStore(m, rd, rs, imm, s)
  }

  /** The loads and stores. LB and LH sign-extend what they read; LBU, LHU
      and LW do not. SB and SH store the low byte and half-word of `rd`. */
  function LoadStore(m: Mnemonic, rd: U8, rs: U8, imm: I32, s: State): (t: State)
    requires AccessWidth(m) > 0 && rd < 32 && rs < 32 && MemoryAccessOk(m, rs, imm, s)
    ensures t.pc == s.pc
    ensures !IsStore(m) ==> t.mem == s.mem && Alu.Writes(s.regs, t.regs, rd, t.regs[rd])
    ensures IsStore(m) ==> t.regs == s.regs && |t.mem| == |s.mem|
  {
    var address := EffectiveAddress(s, rs, imm);
    if m == LB then s.(regs := s.regs[rd := SignExtend8(Read8(s.mem, address))])
    else if m == LH then s.(regs := s.regs[rd := SignExtend16(Read16(s.mem, address))])
    else if m == LBU then s.(regs := s.regs[rd := Read8(s.mem, address)])
    else if m == LHU then s.(regs := s.regs[rd := Read16(s.mem, address)])
    else if m == LW then s.(regs := s.regs[rd := Read32(s.mem, address)])
    else if m == SB then s.(mem := Write8(s.mem, address, Low8(s.regs[rd])))
    else if m == SH then s.(mem := Write16(s.mem, address, Low16(s.regs[rd])))
    else s.(mem := Write32(s.mem, address, s.regs[rd]))
  }

  /** `execute`: one decoded instruction, with the program counter already
      advanced past it. */
  function Execute(f: Format, s: State): (t: State)
    requires CanExecute(f, s)
    ensures f.mnemonic == UNKNOWN ==> t == s
    ensures !IsControlTransfer(f) ==> t.pc == s.pc
    ensures !(f.I32Format? && IsStore(f.mnemonic)) ==> t.mem == s.mem
    ensures f.I32Format? && IsStore(f.mnemonic) ==> t.regs == s.regs && |t.mem| == |s.mem|
  {
    match f
    case RFormat(m, rd, rs) =>
      if IsRegisterOp(m) then s.(regs := RegisterOp(m, s.regs, rd, rs)) else s
    case I16Format(m, rd, uimm) =>
      if IsShiftImmOp(m) then s.(regs := ShiftImmOp(m, s.regs, rd, uimm)) else s
    case I32Format(m, rd, rs, imm) =>
      ExecuteI32(m, rd, rs, imm, s)
    case JFormat(m, rd, imm) =>
      if m == JAL then s.(regs := s.regs[rd := s.pc], pc := WrappingAdd(s.pc, AsU32(imm))) else s
  }

  // ------------------------------------------------------------------ step

  /** `(CHECK_32BIT_INST & word) == 32`: bit 5 of the word is set, which is
      the top bit of its opcode field. */
  function IsWideWord(word: U32): (wide: bool)
    ensures wide <==> OpcodeField(word) >= 0x20
  {
    SplitOpcode(word / 0x40, word % 0x40);
    (word / CHECK_32BIT_INST) % 2 == 1
  }

  lemma SplitOpcode(q: int, r: int)
    requires 0 <= r < 0x40
    ensures (q * 0x40 + r) / 0x20 == 2 * q + r / 0x20
  {
    assert q * 0x40 + r == (2 * q + r / 0x20) * 0x20 + r % 0x20;
  }

  /** The length in bytes of the instruction that starts with `word`. */
  function InstructionLength(word: U32): (n: int)
    ensures n == 2 || n == 4
  {
    if IsWideWord(word) then 4 else 2
  }

  /** The format the step decodes: the whole word if it is a 32-bit
      instruction, otherwise its low half-word. */
  function DecodeWord(word: U32): (f: Format)
    ensures IsWideWord(word) <==> (f.I32Format? || f.JFormat?)
    ensures f.mnemonic != UNKNOWN ==> (IsWide(f.mnemonic) <==> IsWideWord(word))
  {
    SplitHalfWord(word / 0x1_0000, Low16(word));
    if IsWideWord(word) then Decode32(word) else Decode16(Low16(word))
  }

  /** The opcode bits of a word are those of its low half-word. */
  lemma SplitHalfWord(h: int, l: int)
    requires 0 <= l < 0x1_0000
    ensures (h * 0x1_0000 + l) % 0x40 == l % 0x40
  {
    var q := h * 0x400 + l / 0x40;
    assert h * 0x1_0000 + l == q * 0x40 + l % 0x40;
    RemainderOf40(q, l % 0x40);
  }

  lemma RemainderOf40(q: int, r: int)
    requires 0 <= r < 0x40
    ensures (q * 0x40 + r) % 0x40 == r
  {
  }

  /** The four bytes at `pc` can be read and the program counter can be
      moved past the instruction without overflowing. */
  predicate CanFetch(s: State) {
    Accessible(s.mem, s.pc, 4) && s.pc + InstructionLength(Read32(s.mem, s.pc)) < TWO_32
  }

  /** `read_memory(pc)`: the four bytes at `pc`, little-endian. */
  function Fetch(s: State): (word: U32)
    requires CanFetch(s)
    ensures word == LittleEndian(s.mem[s.pc..s.pc + 4])
  {
    Read32(s.mem, s.pc)
  }

  /** The state `execute` sees: the program counter already past the
      instruction. */
  function Advanced(s: State): (t: State)
    requires CanFetch(s)
    ensures t.regs == s.regs && t.mem == s.mem
    ensures t.pc == s.pc + InstructionLength(Fetch(s))
  {
    s.(pc := s.pc + InstructionLength(Fetch(s)))
  }

  predicate CanStep(s: State) {
    CanFetch(s) && CanExecute(DecodeWord(Fetch(s)), Advanced(s))
  }

  /** `step`: fetch, advance the program counter, execute, clear register 0. */
  function Step(s: State): (t: State)
    requires CanStep(s)
    ensures t.regs[0] == 0
    ensures |t.mem| == |s.mem|
  {
    var u := Execute(DecodeWord(Fetch(s)), Advanced(s));
    u.(regs := u.regs[0 := 0])
  }

  // ------------------------------------------------------------------- run

  datatype Option<T> = None | Some(value: T)

  /** `step` where it does not panic, and `None` where it would. */
  function TryStep(s: State): (r: Option<State>)
    ensures r.Some? <==> CanStep(s)
    ensures r.Some? ==> r.value.regs[0] == 0 && |r.value.mem| == |s.mem|
  {
    if CanStep(s) then Some(Step(s)) else None
  }

  datatype Outcome =
    | Halted(state: State)     // `run` returned
    | Panicked(state: State)   // the next step would panic; the state before it
    | OutOfFuel(state: State)  // the step budget ran out first

  /** The `loop` of `run`, for at most `fuel` passes, over a step function
      that gives `None` where the step would panic: one step, then the stop
      test. */
  function Loop(step: State -> Option<State>, s: State, breakPoint: U32, endOfAddress: U32, fuel: nat): (o: Outcome)
    ensures o.Panicked? ==> step(o.state).None?
    decreases fuel, 0
  {
    if fuel == 0 then OutOfFuel(s)
    else match step(s)
      case None => Panicked(s)
      case Some(t) => AfterStep(step, t, breakPoint, endOfAddress, fuel - 1)
  }

  /** The stop test after a step that produced `t`: reaching the break point
      or the end address runs one more step and halts, passing the end address
      halts at once, and otherwise the loop goes on. Both end as `Panicked`
      only in a state whose step fails. */
  function AfterStep(step: State -> Option<State>, t: State, breakPoint: U32, endOfAddress: U32, fuel: nat): (o: Outcome)
    ensures o.Panicked? ==> step(o.state).None?
    decreases fuel, 1
  {
    if t.pc == breakPoint || t.pc == endOfAddress then
      match step(t)
      case None => Panicked(t)
      case Some(u) => Halted(u)
    else if t.pc > endOfAddress then Halted(t)
    else Loop(step, t, breakPoint, endOfAddress, fuel)
  }

  /** `run`: nothing happens when the program counter starts past the end
      address. */
  function Run(s: State, breakPoint: U32, endOfAddress: U32, fuel: nat): (o: Outcome)
    ensures s.pc > endOfAddress ==> o == Halted(s)
    ensures s.pc <= endOfAddress ==> o == Loop(TryStep, s, breakPoint, endOfAddress, fuel)
  {
    if s.pc > endOfAddress then Halted(s) else Loop(TryStep, s, breakPoint, endOfAddress, fuel)
  }
}
