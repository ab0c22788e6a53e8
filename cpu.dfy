/** The CPU state: a program counter and 32 registers, each helper updating
    the register array in place as the matching `Alu` function describes. */
module Processor {
  import opened Bits
  import Alu

  class Cpu {
    var pc: U32
    const register: array<U32>

    predicate Valid()
      reads this
    {
      register.Length == 32
    }

    /** The register array's contents. */
    function Registers(): Alu.RegFile
      reads this, register
      requires Valid()
    {
      register[..]
    }

    /** A CPU at address 0 with every register zero. */
    constructor ()
      ensures Valid() && fresh(register)
      ensures pc == 0 && Registers() == seq(32, _ => 0)
    {
      pc := 0;
      register := new U32[32](_ => 0);
    }

    method Mov(rd: U8, rs: U8)
      requires Valid() && Alu.IsReg(rd) && Alu.IsReg(rs)
      modifies register
      ensures Registers() == Alu.Mov(old(Registers()), rd, rs)
    {
      register[rd] := register[rs];
    }

    method Add(rd: U8, rs: U8)
      requires Valid() && Alu.IsReg(rd) && Alu.IsReg(rs)
      modifies register
      ensures Registers() == Alu.Add(old(Registers()), rd, rs)
    {
      register[rd] := WrappingAdd(register[rd], register[rs]);
    }

    method Sub(rd: U8, rs: U8)
      requires Valid() && Alu.IsReg(rd) && Alu.IsReg(rs)
      modifies register
      ensures Registers() == Alu.Sub(old(Registers()), rd, rs)
    {
      register[rd] := WrappingSub(register[rd], register[rs]);
    }

    method And(rd: U8, rs: U8)
      requires Valid() && Alu.IsReg(rd) && Alu.IsReg(rs)
      modifies register
      ensures Registers() == Alu.And(old(Registers()), rd, rs)
    {
      register[rd] := BitAnd(register[rd], register[rs]);
    }

    method Or(rd: U8, rs: U8)
      requires Valid() && Alu.IsReg(rd) && Alu.IsReg(rs)
      modifies register
      ensures Registers() == Alu.Or(old(Registers()), rd, rs)
    {
      register[rd] := BitOr(register[rd], register[rs]);
    }

    method Xor(rd: U8, rs: U8)
      requires Valid() && Alu.IsReg(rd) && Alu.IsReg(rs)
      modifies register
      ensures Registers() == Alu.Xor(old(Registers()), rd, rs)
    {
      register[rd] := BitXor(register[rd], register[rs]);
    }

    method Sll(rd: U8, rs: U8)
      requires Valid() && Alu.IsReg(rd) && Alu.IsReg(rs)
      modifies register
      ensures Registers() == Alu.Sll(old(Registers()), rd, rs)
    {
      register[rd] := Shl(register[rd], BitAnd(register[rs], 0x1F));
    }

    method Srl(rd: U8, rs: U8)
      requires Valid() && Alu.IsReg(rd) && Alu.IsReg(rs)
      modifies register
      ensures Registers() == Alu.Srl(old(Registers()), rd, rs)
    {
      register[rd] := Shr(register[rd], BitAnd(register[rs], 0x1F));
    }

    method Sra(rd: U8, rs: U8)
      requires Valid() && Alu.IsReg(rd) && Alu.IsReg(rs)
      modifies register
      ensures Registers() == Alu.Sra(old(Registers()), rd, rs)
    {
      register[rd] := Sar(register[rd], BitAnd(register[rs], 0x1F));
    }

    method Slt(rd: U8, rs: U8)
      requires Valid() && Alu.IsReg(rd) && Alu.IsReg(rs)
      modifies register
      ensures Registers() == Alu.Slt(old(Registers()), rd, rs)
    {
      register[31] := if AsI32(register[rd]) < AsI32(register[rs]) then 1 else 0;
    }

    method Sltu(rd: U8, rs: U8)
      requires Valid() && Alu.IsReg(rd) && Alu.IsReg(rs)
      modifies register
      ensures Registers() == Alu.Sltu(old(Registers()), rd, rs)
    {
      register[31] := if register[rd] < register[rs] then 1 else 0;
    }

    method Slli(rd: U8, imm: U8)
      requires Valid() && Alu.IsReg(rd) && imm < 32
      modifies register
      ensures Registers() == Alu.Slli(old(Registers()), rd, imm)
    {
      register[rd] := Shl(register[rd], imm);
    }

    method Srli(rd: U8, imm: U8)
      requires Valid() && Alu.IsReg(rd) && imm < 32
      modifies register
      ensures Registers() == Alu.Srli(old(Registers()), rd, imm)
    {
      register[rd] := Shr(register[rd], imm);
    }

    method Srai(rd: U8, imm: U8)
      requires Valid() && Alu.IsReg(rd) && imm < 32
      modifies register
      ensures Registers() == Alu.Srai(old(Registers()), rd, imm)
    {
      register[rd] := Sar(register[rd], imm);
    }

    method Addi(rd: U8, rs: U8, imm: I32)
      requires Valid() && Alu.IsReg(rd) && Alu.IsReg(rs)
      modifies register
      ensures Registers() == Alu.Addi(old(Registers()), rd, rs, imm)
    {
      register[rd] := WrappingAdd(register[rs], AsU32(imm));
    }

    method Andi(rd: U8, rs: U8, imm: I32)
      requires Valid() && Alu.IsReg(rd) && Alu.IsReg(rs)
      modifies register
      ensures Registers() == Alu.Andi(old(Registers()), rd, rs, imm)
    {
      register[rd] := BitAnd(register[rs], AsU32(imm));
    }

    method Ori(rd: U8, rs: U8, imm: I32)
      requires Valid() && Alu.IsReg(rd) && Alu.IsReg(rs)
      modifies register
      ensures Registers() == Alu.Ori(old(Registers()), rd, rs, imm)
    {
      register[rd] := BitOr(register[rs], AsU32(imm));
    }

    method Xori(rd: U8, rs: U8, imm: I32)
      requires Valid() && Alu.IsReg(rd) && Alu.IsReg(rs)
      modifies register
      ensures Registers() == Alu.Xori(old(Registers()), rd, rs, imm)
    {
      register[rd] := BitXor(register[rs], AsU32(imm));
    }

    method Slti(rd: U8, rs: U8, imm: I32)
      requires Valid() && Alu.IsReg(rd) && Alu.IsReg(rs)
      modifies register
      ensures Registers() == Alu.Slti(old(Registers()), rd, rs, imm)
    {
      register[rd] := if AsI32(register[rs]) < imm then 1 else 0;
    }

    method Sltiu(rd: U8, rs: U8, imm: I32)
      requires Valid() && Alu.IsReg(rd) && Alu.IsReg(rs)
      modifies register
      ensures Registers() == Alu.Sltiu(old(Registers()), rd, rs, imm)
    {
      register[rd] := if register[rs] < AsU32(imm) then 1 else 0;
    }
  }
}
