/**
  The specification machine: RV32I instructions, their encoding and their effect, after the
  RISC-V Unprivileged ISA manual (version 20191213), sections 2.2 to 2.6 and the RV32I opcode
  listing of chapter 24. Only the instructions the assembler knows are decoded.
 */
module Isa {
  import opened Bits
  import opened CText

  type Reg = r: int | 0 <= r < 32

  datatype Alu = ADD | SUB | SLL | SLT | SLTU | XOR | SRL | SRA | OR | AND
  datatype Condition = EQ | NE | LT | GE | LTU | GEU
  datatype Access = B | H | W | BU | HU

  datatype Instr =
    | Op(alu: Alu, rd: Reg, rs1: Reg, rs2: Reg)
    | OpImm(alu: Alu, rd: Reg, rs1: Reg, imm: int)
    | Load(access: Access, rd: Reg, rs1: Reg, imm: int)
    | Store(access: Access, rs1: Reg, rs2: Reg, imm: int)
    | Branch(condition: Condition, rs1: Reg, rs2: Reg, imm: int)
    | Lui(rd: Reg, upper: int)
    | Auipc(rd: Reg, upper: int)
    | Ecall

  // ----- decoding -----

  /** The fields of the six formats, sections 2.2 and 2.3. */
  function Opcode(w: Word): int { w % 0x80 }
  function Rd(w: Word): Reg { w / 0x80 % 0x20 }
  function Funct3(w: Word): int { w / 0x1000 % 8 }
  function Rs1(w: Word): Reg { w / 0x8000 % 0x20 }
  function Rs2(w: Word): Reg { w / 0x10_0000 % 0x20 }
  function Funct7(w: Word): int { w / 0x200_0000 }

  /** Sign extension of an `n`-bit field, `half` being 2^(n-1). */
  function SignExtend(x: int, half: int): int {
    if x < half then x else x - 2 * half
  }

  function ImmI(w: Word): int { SignExtend(w / 0x10_0000, 0x800) }
  function ImmS(w: Word): int { SignExtend(w / 0x200_0000 * 0x20 + w / 0x80 % 0x20, 0x800) }
  function ImmB(w: Word): int {
    SignExtend(w / 0x8000_0000 * 0x1000 + w / 0x80 % 2 * 0x800 + w / 0x200_0000 % 0x40 * 0x20 + w / 0x100 % 0x10 * 2,
               0x1000)
  }
  function ImmU(w: Word): int { w / 0x1000 }
  function ImmJ(w: Word): int {
    SignExtend(w / 0x8000_0000 * 0x10_0000 + w / 0x1000 % 0x100 * 0x1000 + w / 0x10_0000 % 2 * 0x800
               + w / 0x20_0000 % 0x400 * 2,
               0x10_0000)
  }

  function DecodeAlu(funct3: int): Alu {
    match funct3
    case 0 => ADD
    case 1 => SLL
    case 2 => SLT
    case 3 => SLTU
    case 4 => XOR
    case 5 => SRL
    case 6 => OR
    case _ => AND
  }

  function DecodeOp(w: Word): Option<Instr> {
    if Funct7(w) == 0 then Some(Op(DecodeAlu(Funct3(w)), Rd(w), Rs1(w), Rs2(w)))
    else if Funct7(w) == 0x20 && Funct3(w) == 0 then Some(Op(SUB, Rd(w), Rs1(w), Rs2(w)))
    else if Funct7(w) == 0x20 && Funct3(w) == 5 then Some(Op(SRA, Rd(w), Rs1(w), Rs2(w)))
    else None
  }

  /** Shifts by a constant keep the amount in the rs2 field and a function code above it. */
  function DecodeOpImm(w: Word): Option<Instr> {
    if Funct3(w) == 1 then
      if Funct7(w) == 0 then Some(OpImm(SLL, Rd(w), Rs1(w), Rs2(w))) else None
    else if Funct3(w) == 5 then
      if Funct7(w) == 0 then Some(OpImm(SRL, Rd(w), Rs1(w), Rs2(w)))
      else if Funct7(w) == 0x20 then Some(OpImm(SRA, Rd(w), Rs1(w), Rs2(w)))
      else None
    else Some(OpImm(DecodeAlu(Funct3(w)), Rd(w), Rs1(w), ImmI(w)))
  }

  function DecodeLoad(w: Word): Option<Instr> {
    match Funct3(w)
    case 0 => Some(Load(B, Rd(w), Rs1(w), ImmI(w)))
    case 1 => Some(Load(H, Rd(w), Rs1(w), ImmI(w)))
    case 2 => Some(Load(W, Rd(w), Rs1(w), ImmI(w)))
    case 4 => Some(Load(BU, Rd(w), Rs1(w), ImmI(w)))
    case 5 => Some(Load(HU, Rd(w), Rs1(w), ImmI(w)))
    case _ => None
  }

  function DecodeStore(w: Word): Option<Instr> {
    match Funct3(w)
    case 0 => Some(Store(B, Rs1(w), Rs2(w), ImmS(w)))
    case 1 => Some(Store(H, Rs1(w), Rs2(w), ImmS(w)))
    case 2 => Some(Store(W, Rs1(w), Rs2(w), ImmS(w)))
    case _ => None
  }

  function DecodeBranch(w: Word): Option<Instr> {
    match Funct3(w)
    case 0 => Some(Branch(EQ, Rs1(w), Rs2(w), ImmB(w)))
    case 1 => Some(Branch(NE, Rs1(w), Rs2(w), ImmB(w)))
    case 4 => Some(Branch(LT, Rs1(w), Rs2(w), ImmB(w)))
    case 5 => Some(Branch(GE, Rs1(w), Rs2(w), ImmB(w)))
    case 6 => Some(Branch(LTU, Rs1(w), Rs2(w), ImmB(w)))
    case 7 => Some(Branch(GEU, Rs1(w), Rs2(w), ImmB(w)))
    case _ => None
  }

  function Decode(w: Word): Option<Instr> {
    match Opcode(w)
    case 0x33 => DecodeOp(w)
    case 0x13 => DecodeOpImm(w)
    case 0x03 => DecodeLoad(w)
    case 0x23 => DecodeStore(w)
    case 0x63 => DecodeBranch(w)
    case 0x37 => Some(Lui(Rd(w), ImmU(w)))
    case 0x17 => Some(Auipc(Rd(w), ImmU(w)))
    case 0x73 => if w == 0x73 then Some(Ecall) else None
    case _ => None
  }

  // ----- names -----

  function AluName(a: Alu): string {
    match a
    case ADD => "add"
    case SUB => "sub"
    case SLL => "sll"
    case SLT => "slt"
    case SLTU => "sltu"
    case XOR => "xor"
    case SRL => "srl"
    case SRA => "sra"
    case OR => "or"
    case AND => "and"
  }

  function ConditionName(c: Condition): string {
    match c
    case EQ => "eq"
    case NE => "ne"
    case LT => "lt"
    case GE => "ge"
    case LTU => "ltu"
    case GEU => "geu"
  }

  function AccessName(a: Access): string {
    match a
    case B => "b"
    case H => "h"
    case W => "w"
    case BU => "bu"
    case HU => "hu"
  }

  /** The mnemonic of the manual's listing. */
  function ManualName(i: Instr): string {
    match i
    case Op(alu, _, _, _) => AluName(alu)
    case OpImm(alu, _, _, _) => if alu == SLTU then "sltiu" else AluName(alu) + "i"
    case Load(access, _, _, _) => "l" + AccessName(access)
    case Store(access, _, _, _) => "s" + AccessName(access)
    case Branch(condition, _, _, _) => "b" + ConditionName(condition)
    case Lui(_, _) => "lui"
    case Auipc(_, _) => "auipc"
    case Ecall => "ecall"
  }

  // ----- state -----

  /** Registers and memory cells without an entry hold zero; register 0 is never stored. */
  datatype State = State(pc: Word, regs: map<int, Word>, mem: map<int, Byte>) {
    function Get(r: Reg): Word {
      if r == 0 || r !in regs then 0 else regs[r]
    }

    function Set(r: Reg, v: Word): State {
      if r == 0 then this else this.(regs := regs[r := v])
    }

    /** Continues `n` bytes further on. */
    function Skip(n: int): State {
      this.(pc := ToWord(pc + n))
    }
  }

  function Cell(mem: map<int, Byte>, a: Word): Byte {
    if a in mem then mem[a] else 0
  }

  /** Little-endian value of the `n` bytes from `a` on, addresses wrapping around. */
  function ReadMem(mem: map<int, Byte>, a: Word, n: nat): nat
    decreases n
  {
    if n == 0 then 0 else Cell(mem, a) + 0x100 * ReadMem(mem, ToWord(a + 1), n - 1)
  }

  function WriteMem(mem: map<int, Byte>, a: Word, n: nat, v: nat): map<int, Byte>
    decreases n
  {
    if n == 0 then mem else WriteMem(mem[a := v % 0x100], ToWord(a + 1), n - 1, v / 0x100)
  }

  // ----- execution -----

  function Compute(alu: Alu, a: Word, b: Word): Word {
    match alu
    case ADD => ToWord(a + b)
    case SUB => ToWord(a - b)
    case SLL => ToWord(a * Pow2(b % 0x20))
    case SLT => if Signed(a) < Signed(b) then 1 else 0
    case SLTU => if a < b then 1 else 0
    case XOR => Bitwise32(XorBit, a, b)
    case SRL => ToWord(a / Pow2(b % 0x20))
    case SRA => ToWord(Signed(a) / Pow2(b % 0x20))
    case OR => Bitwise32(OrBit, a, b)
    case AND => Bitwise32(AndBit, a, b)
  }

  predicate Holds(c: Condition, a: Word, b: Word) {
    match c
    case EQ => a == b
    case NE => a != b
    case LT => Signed(a) < Signed(b)
    case GE => Signed(a) >= Signed(b)
    case LTU => a < b
    case GEU => a >= b
  }

  function AccessSize(a: Access): nat {
    match a
    case B => 1
    case BU => 1
    case H => 2
    case HU => 2
    case W => 4
  }

  function LoadValue(a: Access, mem: map<int, Byte>, addr: Word): Word {
    match a
    case B => ToWord(SignExtend(ReadMem(mem, addr, 1), 0x80))
    case H => ToWord(SignExtend(ReadMem(mem, addr, 2), 0x8000))
    case _ => ToWord(ReadMem(mem, addr, AccessSize(a)))
  }

  /** The state after one instruction; an environment call or a misaligned target leaves the machine. */
  function Execute(i: Instr, s: State): Option<State> {
    match i
    case Op(alu, rd, rs1, rs2) => Some(s.Set(rd, Compute(alu, s.Get(rs1), s.Get(rs2))).Skip(4))
    case OpImm(alu, rd, rs1, imm) => Some(s.Set(rd, Compute(alu, s.Get(rs1), ToWord(imm))).Skip(4))
    case Load(access, rd, rs1, imm) =>
      Some(s.Set(rd, LoadValue(access, s.mem, ToWord(s.Get(rs1) + imm))).Skip(4))
    case Store(access, rs1, rs2, imm) =>
      Some(s.(mem := WriteMem(s.mem, ToWord(s.Get(rs1) + imm), AccessSize(access), s.Get(rs2))).Skip(4))
    case Branch(condition, rs1, rs2, imm) =>
      if !Holds(condition, s.Get(rs1), s.Get(rs2)) then Some(s.Skip(4))
      else if ToWord(s.pc + imm) % 4 != 0 then None
      else Some(s.Skip(imm))
    case Lui(rd, upper) => Some(s.Set(rd, ToWord(upper * 0x1000)).Skip(4))
    case Auipc(rd, upper) => Some(s.Set(rd, ToWord(s.pc + upper * 0x1000)).Skip(4))
    case Ecall => None
  }

  /** Fetch, decode, execute. */
  function Step(s: State): Option<State> {
    var w := ToWord(ReadMem(s.mem, s.pc, 4));
    match Decode(w)
    case Some(i) => Execute(i, s)
    case None => None
  }

  function Run(n: nat, s: State): Option<State> {
    if n == 0 then Some(s)
    else
      match Step(s)
      case Some(t) => Run(n - 1, t)
      case None => None
  }

  lemma {:induction false} RunAdds(m: nat, n: nat, s: State)
    requires Run(m, s).Some?
    ensures Run(m + n, s) == Run(n, Run(m, s).value)
  {
    hide Step;
    if m > 0 {
      RunAdds(m - 1, n, Step(s).value);
    }
  }

  /** The state after a straight line of instructions, control falling from each to the next. */
  function ExecuteAll(code: seq<Instr>, s: State): Option<State>
    decreases |code|
  {
    if code == [] then Some(s)
    else
      match Execute(code[0], s)
      case Some(t) => ExecuteAll(code[1..], t)
      case None => None
  }

  lemma ExecuteOne(i: Instr, s: State)
    ensures ExecuteAll([i], s) == Execute(i, s)
  {
    hide Execute;
    assert [i][1..] == [];
  }

  lemma ExecuteTwo(i: Instr, j: Instr, s: State)
    requires Execute(i, s).Some?
    ensures ExecuteAll([i, j], s) == Execute(j, Execute(i, s).value)
  {
    hide Execute;
    assert [i, j][1..] == [j];
    ExecuteOne(j, Execute(i, s).value);
  }

  /** The words of a line decode to the given instructions. */
  ghost predicate DecodesTo(words: seq<Word>, code: seq<Instr>) {
    |words| == |code| && forall k :: 0 <= k < |words| ==> Decode(words[k]) == Some(code[k])
  }
}
