/** The emulator object: a memory, a CPU and the two stop addresses of `run`.
    Each method updates the CPU and memory objects in place and is proved to
    do what the matching `Semantics` function says. */
module Machine {
  import opened Bits
  import Alu
  import opened MemoryImage
  import opened Decoder
  import opened Semantics
  import Processor
  import MemoryUnit

  class Emulator {
    const memory: MemoryUnit.Memory
    const cpu: Processor.Cpu
    var endOfAddress: U32
    var breakPoint: U32

    predicate Valid()
      reads this, cpu
    {
      cpu.Valid()
    }

    /** The machine state the methods act on. */
    function State(): Semantics.State
      reads this, cpu, cpu.register, memory
      requires Valid()
    {
      Semantics.State(cpu.Registers(), cpu.pc, memory.data)
    }

    /** `Emulator::new`: the image copied into memory, a CPU at address 0
        with every register zero, and both stop addresses at `address`. */
    constructor (data: Bytes, address: U32)
      ensures Valid() && fresh(cpu) && fresh(cpu.register) && fresh(memory)
      ensures State() == Semantics.State(seq(32, _ => 0), 0, data)
      ensures endOfAddress == address && breakPoint == address
    {
      memory := new MemoryUnit.Memory(data);
      cpu := new Processor.Cpu();
      endOfAddress := address;
      breakPoint := address;
    }

    /** `execute`. */
    method Execute(f: Format)
      requires Valid() && CanExecute(f, State())
      modifies cpu, cpu.register, memory
      ensures Valid() && State() == Semantics.Execute(f, old(State()))
    {
      match f
      case RFormat(m, rd, rs) =>
        if IsRegisterOp(m) {
          ExecuteRegister(m, rd, rs);
        }
      case I16Format(m, rd, uimm) =>
        if IsShiftImmOp(m) {
          ExecuteShiftImm(m, rd, uimm);
        }
      case I32Format(m, rd, rs, imm) =>
        ExecuteI32(m, rd, rs, imm);
      case JFormat(m, rd, imm) =>
        if m == JAL {
          cpu.register[rd] := cpu.pc;
          cpu.pc := WrappingAdd(cpu.pc, AsU32(imm));
        }
    }

    method ExecuteRegister(m: Mnemonic, rd: U8, rs: U8)
      requires Valid() && IsRegisterOp(m) && rd < 32 && rs < 32
      modifies cpu.register
      ensures Valid() && State() == old(State()).(regs := RegisterOp(m, old(cpu.Registers()), rd, rs))
    {
      match m
      case MOV => cpu.Mov(rd, rs);
      case ADD => cpu.Add(rd, rs);
      case SUB => cpu.Sub(rd, rs);
      case AND => cpu.And(rd, rs);
      case OR => cpu.Or(rd, rs);
      case XOR => cpu.Xor(rd, rs);
      case SLL => cpu.Sll(rd, rs);
      case SRL => cpu.Srl(rd, rs);
      case SRA => cpu.Sra(rd, rs);
      case SLT => cpu.Slt(rd, rs);
      case SLTU => cpu.Sltu(rd, rs);
    }

    method ExecuteShiftImm(m: Mnemonic, rd: U8, uimm: U8)
      requires Valid() && IsShiftImmOp(m) && rd < 32 && uimm < 32
      modifies cpu.register
      ensures Valid() && State() == old(State()).(regs := ShiftImmOp(m, old(cpu.Registers()), rd, uimm))
    {
      match m
      case SLLI => cpu.Slli(rd, uimm);
      case SRLI => cpu.Srli(rd, uimm);
      case SRAI => cpu.Srai(rd, uimm);
    }

    method ExecuteI32(m: Mnemonic, rd: U8, rs: U8, imm: I32)
      requires Valid() && CanExecute(I32Format(m, rd, rs, imm), State())
      modifies cpu, cpu.register, memory
      ensures Valid() && State() == Semantics.ExecuteI32(m, rd, rs, imm, old(State()))
    {
      if !IsI32Op(m) {
      } else if m == LUI {
        cpu.register[rd] := Shl(AsU32(imm), 16);
      } else if m == ADDI {
        cpu.Addi(rd, rs, imm);
      } else if m == ANDI {
        cpu.Andi(rd, rs, imm);
      } else if m == ORI {
        cpu.Ori(rd, rs, imm);
      } else if m == XORI {
        cpu.Xori(rd, rs, imm);
      } else if m == SLTI {
        cpu.Slti(rd, rs, imm);
      } else if m == SLTIU {
        cpu.Sltiu(rd, rs, imm);
      } else if IsBranch(m) {
        if BranchTaken(m, cpu.register[rd], cpu.register[rs]) {
          cpu.pc := WrappingAdd(cpu.pc, AsU32(imm));
        }
      } else if m == JALR {
        cpu.register[rd] := cpu.pc;
        cpu.pc := WrappingAdd(cpu.register[rs], AsU32(imm));
      } else {
        ExecuteLoadStore(m, rd, rs, imm);
      }
    }

    method ExecuteLoadStore(m: Mnemonic, rd: U8, rs: U8, imm: I32)
      requires Valid() && AccessWidth(m) > 0 && rd < 32 && rs < 32
      requires MemoryAccessOk(m, rs, imm, State())
      modifies cpu.register, memory
      ensures Valid() && State() == Semantics.LoadStore(m, rd, rs, imm, old(State()))
    {
      var address := WrappingAdd(cpu.register[rs], AsU32(imm));
      if m == LB {
        var b := memory.ReadMemory8Bit(address);
        cpu.register[rd] := SignExtend8(b);
      } else if m == LH {
        var h := memory.ReadMemory16Bit(address);
        cpu.register[rd] := SignExtend16(h);
      } else if m == LBU {
        var b := memory.ReadMemory8Bit(address);
        cpu.register[rd] := b;
      } else if m == LHU {
        var h := memory.ReadMemory16Bit(address);
        cpu.register[rd] := h;
      } else if m == LW {
        var w := memory.ReadMemory(address);
        cpu.register[rd] := w;
      } else if m == SB {
        memory.WriteMemory8Bit(address, Low8(cpu.register[rd]));
      } else if m == SH {
        memory.WriteMemory16Bit(address, Low16(cpu.register[rd]));
      } else {
        memory.WriteMemory(address, cpu.register[rd]);
      }
    }

    /** `step`. */
    method Step()
      requires Valid() && CanStep(State())
      modifies cpu, cpu.register, memory
      ensures Valid() && State() == Semantics.Step(old(State()))
    {
      ghost var s := State();
      var word32 := memory.ReadMemory(cpu.pc);
      assert word32 == Fetch(s);
      var word16 := Low16(word32);
      if IsWideWord(word32) {
        cpu.pc := cpu.pc + 4;
        assert State() == Advanced(s);
        Execute(Decode32(word32));
      } else {
        cpu.pc := cpu.pc + 2;
        assert State() == Advanced(s);
        Execute(Decode16(word16));
      }
      assert State() == Semantics.Execute(DecodeWord(word32), Advanced(s));
      cpu.register[0] := 0;
    }

    /** `run`, for at most `fuel` passes of its loop. The source loops until
        it halts; a run that would panic is excluded. The result tells whether
        the loop halted within the budget. */
    method Run(fuel: nat) returns (halted: bool)
      requires Valid() && !Semantics.Run(State(), breakPoint, endOfAddress, fuel).Panicked?
      modifies cpu, cpu.register, memory
      ensures Valid()
      ensures halted == Semantics.Run(old(State()), breakPoint, endOfAddress, fuel).Halted?
      ensures State() == Semantics.Run(old(State()), breakPoint, endOfAddress, fuel).state
    {
      if cpu.pc > endOfAddress {
        return true;
      }
      var remaining := fuel;
      while remaining > 0
        invariant Valid()
        invariant Loop(TryStep, State(), breakPoint, endOfAddress, remaining)
                  == Semantics.Run(old(State()), breakPoint, endOfAddress, fuel)
        decreases remaining
      {
        Step();
        if cpu.pc == breakPoint || cpu.pc == endOfAddress {
          Step();
          return true;
        } else if cpu.pc > endOfAddress {
          return true;
        }
        remaining := remaining - 1;
      }
      return false;
    }
  }
}
