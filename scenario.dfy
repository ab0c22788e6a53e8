/** A four-instruction program run on the model:
    `ADDI r1, r0, 5; ADDI r2, r0, 3; ADD r1, r2; SW r1, 0(r0)` with the
    break point and the end address both at the end of the program. The run
    halts with 8 in register 1 and the word 8 at address 0.

    The image carries four zero bytes after the program: at the end address
    `run` takes one more step, and that step fetches four bytes. Without
    them the run panics there (`BareImagePanicsAtEnd`). */
module Scenario {
  import opened Bits
  import Alu
  import opened MemoryImage
  import opened Decoder
  import opened Semantics
  import Behaviour

  /** The four instructions little-endian, and four zero bytes the step at
      the end address fetches (a `MOV r0, r0`). */
  const Program: Bytes := [
    0x60, 0x00, 0x05, 0x00,   // ADDI r1, r0, 5
    0xA0, 0x00, 0x03, 0x00,   // ADDI r2, r0, 3
    0x41, 0x10,               // ADD r1, r2
    0x75, 0x00, 0x00, 0x00,   // SW r1, 0(r0)
    0x00, 0x00, 0x00, 0x00]
  const EndOfProgram: U32 := 14

  const Zero: Alu.RegFile := seq(32, _ => 0)
  const Regs1: Alu.RegFile := Zero[1 := 5]
  const Regs2: Alu.RegFile := Regs1[2 := 3]
  const Regs3: Alu.RegFile := Regs2[1 := 8]
  const Stored: Bytes := Program[0 := 8][1 := 0][2 := 0][3 := 0]

  /** One step, given the word fetched and its decoding. */
  lemma StepOf(s: State, word: U32, f: Format, t: State)
    requires CanFetch(s) && Fetch(s) == word && DecodeWord(word) == f
    requires CanExecute(f, Advanced(s))
    requires var u := Execute(f, Advanced(s)); t == u.(regs := u.regs[0 := 0])
    ensures TryStep(s) == Some(t)
  {
  }

  // Each step: the word fetched, its decoding, and what executing it does.

  lemma Fetch1() ensures Read32(Program, 0) == 0x0005_0060 {}
  lemma Decode1() ensures DecodeWord(0x0005_0060) == I32Format(ADDI, 1, 0, 5) {
    assert IsWideWord(0x0005_0060);
    assert OpcodeField(0x0005_0060) == 0x20 && RdField(0x0005_0060) == 1 && RsField(0x0005_0060) == 0;
    assert ImmIField(0x0005_0060) == 5;
  }
  lemma Execute1()
    ensures Execute(I32Format(ADDI, 1, 0, 5), State(Zero, 4, Program)) == State(Regs1, 4, Program)
  {}

  lemma Step1()
    ensures TryStep(State(Zero, 0, Program)) == Some(State(Regs1, 4, Program))
  {
    Fetch1();
    Decode1();
    Execute1();
    StepOf(State(Zero, 0, Program), 0x0005_0060, I32Format(ADDI, 1, 0, 5), State(Regs1, 4, Program));
  }

  lemma Fetch2() ensures Read32(Program, 4) == 0x0003_00A0 {}
  lemma Decode2() ensures DecodeWord(0x0003_00A0) == I32Format(ADDI, 2, 0, 3) {
    assert IsWideWord(0x0003_00A0);
    assert OpcodeField(0x0003_00A0) == 0x20 && RdField(0x0003_00A0) == 2 && RsField(0x0003_00A0) == 0;
    assert ImmIField(0x0003_00A0) == 3;
  }
  lemma Execute2()
    ensures Execute(I32Format(ADDI, 2, 0, 3), State(Regs1, 8, Program)) == State(Regs2, 8, Program)
  {}

  lemma Step2()
    ensures TryStep(State(Regs1, 4, Program)) == Some(State(Regs2, 8, Program))
  {
    Fetch2();
    Decode2();
    Execute2();
    StepOf(State(Regs1, 4, Program), 0x0003_00A0, I32Format(ADDI, 2, 0, 3), State(Regs2, 8, Program));
  }

  lemma Fetch3() ensures Read32(Program, 8) == 0x0075_1041 {}
  lemma Decode3() ensures DecodeWord(0x0075_1041) == RFormat(ADD, 1, 2) {
    assert !IsWideWord(0x0075_1041) && Low16(0x0075_1041) == 0x1041;
    assert OpcodeField(0x1041) == 1 && RdField(0x1041) == 1 && RsField(0x1041) == 2;
  }
  lemma Execute3()
    ensures Execute(RFormat(ADD, 1, 2), State(Regs2, 10, Program)) == State(Regs3, 10, Program)
  {}

  lemma Step3()
    ensures TryStep(State(Regs2, 8, Program)) == Some(State(Regs3, 10, Program))
  {
    Fetch3();
    Decode3();
    Execute3();
    StepOf(State(Regs2, 8, Program), 0x0075_1041, RFormat(ADD, 1, 2), State(Regs3, 10, Program));
  }

  lemma Fetch4() ensures Read32(Program, 10) == 0x0000_0075 {}
  lemma Decode4() ensures DecodeWord(0x0000_0075) == I32Format(SW, 1, 0, 0) {
    assert IsWideWord(0x75);
    assert OpcodeField(0x75) == 0x35 && RdField(0x75) == 1 && RsField(0x75) == 0;
    assert ImmIField(0x75) == 0;
  }
  /** The word 8 written at address 0. */
  lemma StoreEight()
    ensures Write32(Program, 0, 8) == Stored
  {
    assert 8 % 0x100 == 8;
    assert (8 % 0x1_0000 - 8 % 0x100) % 0x100 == 0;
    assert (8 % 0x100_0000 - 8 % 0x1_0000) % 0x100 == 0;
    assert (8 - 8 % 0x100_0000) % 0x100 == 0;
  }

  lemma Execute4()
    ensures Execute(I32Format(SW, 1, 0, 0), State(Regs3, 14, Program)) == State(Regs3, 14, Stored)
  {
    StoreEight();
    assert Regs3[0] == 0 && Regs3[1] == 8;
  }

  lemma Step4()
    ensures TryStep(State(Regs3, 10, Program)) == Some(State(Regs3, 14, Stored))
  {
    Fetch4();
    Decode4();
    Execute4();
    var s := State(Regs3, 10, Program);
    assert IsWideWord(0x0000_0075) && InstructionLength(0x0000_0075) == 4;
    assert CanFetch(s) && Fetch(s) == 0x0000_0075;
    assert Advanced(s) == State(Regs3, 14, Program);
    assert CanExecute(I32Format(SW, 1, 0, 0), Advanced(s));
    StepOf(State(Regs3, 10, Program), 0x0000_0075, I32Format(SW, 1, 0, 0), State(Regs3, 14, Stored));
  }

  lemma Fetch5() ensures Read32(Stored, 14) == 0 {}
  lemma Decode5() ensures DecodeWord(0) == RFormat(MOV, 0, 0) {
    assert !IsWideWord(0) && Low16(0) == 0;
    assert OpcodeField(0) == 0 && RdField(0) == 0 && RsField(0) == 0;
  }
  lemma Execute5()
    ensures Execute(RFormat(MOV, 0, 0), State(Regs3, 16, Stored)) == State(Regs3, 16, Stored)
  {}

  lemma Step5()
    ensures TryStep(State(Regs3, 14, Stored)) == Some(State(Regs3, 16, Stored))
  {
    Fetch5();
    Decode5();
    Execute5();
    StepOf(State(Regs3, 14, Stored), 0, RFormat(MOV, 0, 0), State(Regs3, 16, Stored));
  }

  /** Four steps that stay below the end address and reach it on the fourth,
      then one more: the loop halts after the fifth. */
  lemma FiveSteps(step: State -> Option<State>, s0: State, s1: State, s2: State, s3: State, s4: State, s5: State)
    requires step(s0) == Some(s1) && step(s1) == Some(s2) && step(s2) == Some(s3)
    requires step(s3) == Some(s4) && step(s4) == Some(s5)
    requires s1.pc < EndOfProgram && s2.pc < EndOfProgram && s3.pc < EndOfProgram
    requires s4.pc == EndOfProgram
    ensures Loop(step, s0, EndOfProgram, EndOfProgram, 4) == Halted(s5)
  {
  }

  /** The loop of `run` halts after five steps. */
  lemma ProgramLoop()
    ensures Loop(TryStep, State(Zero, 0, Program), EndOfProgram, EndOfProgram, 4)
            == Halted(State(Regs3, 16, Stored))
  {
    Step1();
    Step2();
    Step3();
    Step4();
    Step5();
    FiveSteps(TryStep, State(Zero, 0, Program), State(Regs1, 4, Program), State(Regs2, 8, Program),
              State(Regs3, 10, Program), State(Regs3, 14, Stored), State(Regs3, 16, Stored));
  }

  /** The final registers and memory hold the sum. */
  lemma FinalValues()
    ensures Regs3[1] == 8 && Regs3[2] == 3 && Read32(Stored, 0) == 8
  {
  }

  /** On the program's 14 bytes alone, with no padding, the step at the end
      address cannot fetch. */
  lemma BareImagePanicsAtEnd(regs: Alu.RegFile, mem: Bytes)
    requires |mem| == EndOfProgram
    ensures !CanStep(State(regs, EndOfProgram, mem))
    ensures TryStep(State(regs, EndOfProgram, mem)) == None
  {
  }

  /** The run halts after five steps: four instructions and the one the end
      address adds. Register 1 holds 5 + 3, register 2 holds 3, and the word
      at address 0 is 8. */
  lemma ProgramRun()
    ensures var o := Run(State(Zero, 0, Program), EndOfProgram, EndOfProgram, 4);
            o == Halted(State(Regs3, 16, Stored))
            && o.state.regs[1] == 8 && o.state.regs[2] == 3
            && Read32(o.state.mem, 0) == 8
  {
    ProgramLoop();
    FinalValues();
  }
}
