/**
  What the encoder guarantees over the whole mnemonic table: which words decode to the
  instruction the line names, which do not, and that no two lines share a word.
 */
module Encoding {
  import opened Bits
  import opened CText
  import opened InstructionTable
  import opened Encoder
  import Isa

  /** What `ParseOperands` guarantees of the operands of `m`. */
  predicate Accepted(m: Mnemonic, o: Operands) {
    match RowOf(m).kind
    case R => o.imm == 0
    case I => o.rs2 == 0 && -0x800 <= o.imm <= 0x7FF
    case S => o.rd == 0 && -0x800 <= o.imm <= 0x7FF
    case B => o.rd == 0 && -0x1000 <= o.imm <= 0xFFF && o.imm % 2 == 0
    case U => o.rs1 == 0 && o.rs2 == 0 && -0x8_0000 <= o.imm <= 0xF_FFFF
    case Z => o == Operands(0, 0, 0, 0)
    case P => false
  }

  lemma ParsedAccepted(m: Mnemonic, line: string)
    requires ParseOperands(m, line).Ok?
    ensures Accepted(m, ParseOperands(m, line).value)
  {
    hide Sscanf, RegisterValue, ScanAddress, RowOf;
  }

  /**
    The instruction a mnemonic and its operands name in the ISA manual, written without the
    table's numbers: none for a shift amount outside 0..31 and for pseudo-instructions.
    A U-type operand names the twenty bits it is congruent to.
   */
  function Named(m: Mnemonic, o: Operands): Option<Isa.Instr> {
    match m
    case Add => Some(Isa.Op(Isa.ADD, o.rd, o.rs1, o.rs2))
    case Sub => Some(Isa.Op(Isa.SUB, o.rd, o.rs1, o.rs2))
    case Xor => Some(Isa.Op(Isa.XOR, o.rd, o.rs1, o.rs2))
    case Or => Some(Isa.Op(Isa.OR, o.rd, o.rs1, o.rs2))
    case And => Some(Isa.Op(Isa.AND, o.rd, o.rs1, o.rs2))
    case Sll => Some(Isa.Op(Isa.SLL, o.rd, o.rs1, o.rs2))
    case Srl => Some(Isa.Op(Isa.SRL, o.rd, o.rs1, o.rs2))
    case Sra => Some(Isa.Op(Isa.SRA, o.rd, o.rs1, o.rs2))
    case Slt => Some(Isa.Op(Isa.SLT, o.rd, o.rs1, o.rs2))
    case Sltu => Some(Isa.Op(Isa.SLTU, o.rd, o.rs1, o.rs2))
    case Addi => Some(Isa.OpImm(Isa.ADD, o.rd, o.rs1, o.imm))
    case Xori => Some(Isa.OpImm(Isa.XOR, o.rd, o.rs1, o.imm))
    case Ori => Some(Isa.OpImm(Isa.OR, o.rd, o.rs1, o.imm))
    case Andi => Some(Isa.OpImm(Isa.AND, o.rd, o.rs1, o.imm))
    case Slti => Some(Isa.OpImm(Isa.SLT, o.rd, o.rs1, o.imm))
    case Sltiu => Some(Isa.OpImm(Isa.SLTU, o.rd, o.rs1, o.imm))
    case Slli => if 0 <= o.imm < 0x20 then Some(Isa.OpImm(Isa.SLL, o.rd, o.rs1, o.imm)) else None
    case Srli => if 0 <= o.imm < 0x20 then Some(Isa.OpImm(Isa.SRL, o.rd, o.rs1, o.imm)) else None
    case Srai => if 0 <= o.imm < 0x20 then Some(Isa.OpImm(Isa.SRA, o.rd, o.rs1, o.imm)) else None
    case Lb => Some(Isa.Load(Isa.B, o.rd, o.rs1, o.imm))
    case Lh => Some(Isa.Load(Isa.H, o.rd, o.rs1, o.imm))
    case Lw => Some(Isa.Load(Isa.W, o.rd, o.rs1, o.imm))
    case Lbu => Some(Isa.Load(Isa.BU, o.rd, o.rs1, o.imm))
    case Lhu => Some(Isa.Load(Isa.HU, o.rd, o.rs1, o.imm))
    case Sb => Some(Isa.Store(Isa.B, o.rs1, o.rs2, o.imm))
    case Sh => Some(Isa.Store(Isa.H, o.rs1, o.rs2, o.imm))
    case Sw => Some(Isa.Store(Isa.W, o.rs1, o.rs2, o.imm))
    case Beq => Some(Isa.Branch(Isa.EQ, o.rs1, o.rs2, o.imm))
    case Bne => Some(Isa.Branch(Isa.NE, o.rs1, o.rs2, o.imm))
    case Blt => Some(Isa.Branch(Isa.LT, o.rs1, o.rs2, o.imm))
    case Bge => Some(Isa.Branch(Isa.GE, o.rs1, o.rs2, o.imm))
    case Bltu => Some(Isa.Branch(Isa.LTU, o.rs1, o.rs2, o.imm))
    case Bgeu => Some(Isa.Branch(Isa.GEU, o.rs1, o.rs2, o.imm))
    case Lui => Some(Isa.Lui(o.rd, o.imm % 0x10_0000))
    case Auipc => Some(Isa.Auipc(o.rd, o.imm % 0x10_0000))
    case Ecall => Some(Isa.Ecall)
    case _ => None
  }

  lemma RegisterNamed(m: Mnemonic, o: Operands)
    requires m in {Add, Sub, Xor, Or, And, Sll, Srl, Sra, Slt, Sltu} && Named(m, o).Some?
    ensures NameOf(m) == Isa.ManualName(Named(m, o).value)
  {
  }

  lemma ImmediateNamed(m: Mnemonic, o: Operands)
    requires m in {Addi, Xori, Ori, Andi, Slli, Srli, Srai, Slti, Sltiu} && Named(m, o).Some?
    ensures NameOf(m) == Isa.ManualName(Named(m, o).value)
  {
  }

  lemma AccessNamed(m: Mnemonic, o: Operands)
    requires m in {Lb, Lh, Lw, Lbu, Lhu, Sb, Sh, Sw} && Named(m, o).Some?
    ensures NameOf(m) == Isa.ManualName(Named(m, o).value)
  {
  }

  lemma OtherNamed(m: Mnemonic, o: Operands)
    requires m in {Beq, Bne, Blt, Bge, Bltu, Bgeu, Lui, Auipc, Ecall} && Named(m, o).Some?
    ensures NameOf(m) == Isa.ManualName(Named(m, o).value)
  {
  }

  lemma PseudoUnnamed(m: Mnemonic, o: Operands)
    requires m in {Li, La, Mv, Neg, Nop, Not, Seqz, Snez}
    ensures Named(m, o) == None
  {
  }

  /** The name in the table is the manual's name of the instruction. */
  lemma NamedInManual(m: Mnemonic, o: Operands)
    requires Named(m, o).Some?
    ensures NameOf(m) == Isa.ManualName(Named(m, o).value)
  {
    hide Named, NameOf, Isa.ManualName;
    if m in {Add, Sub, Xor, Or, And, Sll, Srl, Sra, Slt, Sltu} {
      RegisterNamed(m, o);
    } else if m in {Addi, Xori, Ori, Andi, Slli, Srli, Srai, Slti, Sltiu} {
      ImmediateNamed(m, o);
    } else if m in {Lb, Lh, Lw, Lbu, Lhu, Sb, Sh, Sw} {
      AccessNamed(m, o);
    } else if m in {Beq, Bne, Blt, Bge, Bltu, Bgeu, Lui, Auipc, Ecall} {
      OtherNamed(m, o);
    } else {
      PseudoUnnamed(m, o);
    }
  }

  /** The right shifts whose function code the I-type packing loses or lets the amount overwrite. */
  predicate Misencoded(m: Mnemonic, imm: int) {
    || (m == Srai && 0 <= imm < 0x20)
    || (m in {Srli, Srai} && 0x400 <= imm < 0x420)
  }

  /** Every field of the packed word, by format. */
  predicate FieldsMatch(m: Mnemonic, o: Operands, w: Word) {
    var row := RowOf(m);
    && Isa.Opcode(w) == row.opcode
    && (row.kind in {R, I, S, B} ==> Isa.Funct3(w) == row.funct3 && Isa.Rs1(w) == o.rs1)
    && (row.kind in {R, S, B} ==> Isa.Rs2(w) == o.rs2)
    && (row.kind in {R, I, U} ==> Isa.Rd(w) == o.rd)
    && (row.kind == R ==> Isa.Funct7(w) == row.funct7)
    && (row.kind == I ==> Isa.ImmI(w) == o.imm && Isa.Funct7(w) == o.imm % 0x1000 / 0x20 && Isa.Rs2(w) == o.imm % 0x20)
    && (row.kind == S ==> Isa.ImmS(w) == o.imm)
    && (row.kind == B ==> Isa.ImmB(w) == o.imm)
    && (row.kind == U ==> Isa.ImmU(w) == o.imm % 0x10_0000)
    && (row.kind == Z ==> w == 0x73)
  }

  lemma OnlyEcall(m: Mnemonic)
    requires RowOf(m).kind == Z
    ensures m == Ecall && RowOf(Ecall).opcode == 0x73
  {
  }

  /** Reading a packed word back field by field gives the row and the operands. */
  lemma PackFields(m: Mnemonic, o: Operands)
    requires Accepted(m, o)
    ensures FieldsMatch(m, o, Pack(m, o))
  {
    hide RowOf, PackZ, PackR, PackI, PackS, PackB, PackU;
    var row := RowOf(m);
    if row.kind == Z {
      OnlyEcall(m);
      EcallWord();
    } else {
      hide Isa.Opcode, Isa.Funct3, Isa.Funct7, Isa.Rd, Isa.Rs1, Isa.Rs2, Isa.ImmI, Isa.ImmS, Isa.ImmB, Isa.ImmU;
      match row.kind
      case R => RoundTripR(row, o.rs2, o.rs1, o.rd);
      case I => RoundTripI(row, o.rs1, o.imm, o.rd);
      case S => RoundTripS(row, o.rs1, o.rs2, o.imm);
      case B => RoundTripB(row, o.rs1, o.rs2, o.imm);
      case U => RoundTripU(row, o.rd, o.imm);
    }
  }

  lemma EcallWord()
    ensures PackZ(RowOf(Ecall)) == 0x73 && Isa.Opcode(0x73) == 0x73
  {
    hide Bitwise32, Pow2;
    Powers();
    OrBelow(12, 0x1000, 0, 0);
    OrBelow(12, 0x1000, 0, 0x73);
  }

  /** Which part of the decoder an opcode leads to. */
  lemma DecodePart(w: Word)
    ensures Isa.Opcode(w) == 0x33 ==> Isa.Decode(w) == Isa.DecodeOp(w)
    ensures Isa.Opcode(w) == 0x13 ==> Isa.Decode(w) == Isa.DecodeOpImm(w)
    ensures Isa.Opcode(w) == 0x03 ==> Isa.Decode(w) == Isa.DecodeLoad(w)
    ensures Isa.Opcode(w) == 0x23 ==> Isa.Decode(w) == Isa.DecodeStore(w)
    ensures Isa.Opcode(w) == 0x63 ==> Isa.Decode(w) == Isa.DecodeBranch(w)
    ensures Isa.Opcode(w) == 0x37 ==> Isa.Decode(w) == Some(Isa.Lui(Isa.Rd(w), Isa.ImmU(w)))
    ensures Isa.Opcode(w) == 0x17 ==> Isa.Decode(w) == Some(Isa.Auipc(Isa.Rd(w), Isa.ImmU(w)))
  {
    hide Isa.Opcode, Isa.DecodeOp, Isa.DecodeOpImm, Isa.DecodeLoad, Isa.DecodeStore, Isa.DecodeBranch;
  }

  lemma DecodesR(m: Mnemonic, o: Operands, w: Word)
    requires RowOf(m).kind == R && Accepted(m, o) && FieldsMatch(m, o, w)
    ensures Isa.Decode(w) == Named(m, o)
  {
    hide Isa.Opcode, Isa.Funct3, Isa.Funct7, Isa.Rd, Isa.Rs1, Isa.Rs2, Isa.ImmI, Isa.ImmS, Isa.ImmB, Isa.ImmU,
         Isa.Decode;
    DecodePart(w);
  }

  lemma DecodesI(m: Mnemonic, o: Operands, w: Word)
    requires RowOf(m).kind == I && m !in {Slli, Srli, Srai} && Accepted(m, o) && FieldsMatch(m, o, w)
    ensures Isa.Decode(w) == Named(m, o)
  {
    hide Isa.Opcode, Isa.Funct3, Isa.Funct7, Isa.Rd, Isa.Rs1, Isa.Rs2, Isa.ImmI, Isa.ImmS, Isa.ImmB, Isa.ImmU,
         Isa.Decode;
    DecodePart(w);
  }

  lemma DecodesS(m: Mnemonic, o: Operands, w: Word)
    requires RowOf(m).kind == S && Accepted(m, o) && FieldsMatch(m, o, w)
    ensures Isa.Decode(w) == Named(m, o)
  {
    hide Isa.Opcode, Isa.Funct3, Isa.Funct7, Isa.Rd, Isa.Rs1, Isa.Rs2, Isa.ImmI, Isa.ImmS, Isa.ImmB, Isa.ImmU,
         Isa.Decode;
    DecodePart(w);
  }

  lemma DecodesB(m: Mnemonic, o: Operands, w: Word)
    requires RowOf(m).kind == B && Accepted(m, o) && FieldsMatch(m, o, w)
    ensures Isa.Decode(w) == Named(m, o)
  {
    hide Isa.Opcode, Isa.Funct3, Isa.Funct7, Isa.Rd, Isa.Rs1, Isa.Rs2, Isa.ImmI, Isa.ImmS, Isa.ImmB, Isa.ImmU,
         Isa.Decode;
    DecodePart(w);
  }

  lemma DecodesU(m: Mnemonic, o: Operands, w: Word)
    requires RowOf(m).kind == U && Accepted(m, o) && FieldsMatch(m, o, w)
    ensures Isa.Decode(w) == Named(m, o)
  {
    hide Isa.Opcode, Isa.Funct3, Isa.Funct7, Isa.Rd, Isa.Rs1, Isa.Rs2, Isa.ImmI, Isa.ImmS, Isa.ImmB, Isa.ImmU,
         Isa.Decode;
    DecodePart(w);
  }

  lemma NotPseudo(m: Mnemonic, o: Operands)
    requires Accepted(m, o)
    ensures RowOf(m).kind != P
  {
    hide RowOf;
  }

  /** Shifts by a constant: the amount and the function code share the immediate field. */
  lemma DecodesShift(m: Mnemonic, o: Operands, w: Word)
    requires m in {Slli, Srli, Srai} && Accepted(m, o) && FieldsMatch(m, o, w)
    ensures Isa.Decode(w) == Named(m, o) <==> !Misencoded(m, o.imm)
  {
    hide Isa.Opcode, Isa.Funct3, Isa.Funct7, Isa.Rd, Isa.Rs1, Isa.Rs2, Isa.ImmI, Isa.ImmS, Isa.ImmB, Isa.ImmU;
    var f7, low := o.imm % 0x1000 / 0x20, o.imm % 0x20;
    assert f7 == 0 <==> 0 <= o.imm < 0x20;
    assert f7 == 0x20 <==> 0x400 <= o.imm < 0x420;
    assert f7 == 0 ==> low == o.imm;
  }

  /**
    Encoding is right except on two families of right shifts: the word of an accepted line
    decodes to the instruction the line names if and only if the line is not misencoded.
   */
  lemma DecodesToNamed(m: Mnemonic, o: Operands)
    requires Accepted(m, o)
    ensures Isa.Decode(Pack(m, o)) == Named(m, o) <==> !Misencoded(m, o.imm)
  {
    hide FieldsMatch, Isa.Decode, Named, Accepted, Pack;
    NotPseudo(m, o);
    PackFields(m, o);
    var w := Pack(m, o);
    assert RowOf(Slli).kind == I && RowOf(Srli).kind == I && RowOf(Srai).kind == I;
    if RowOf(m).kind == Z {
      OnlyEcall(m);
    }
    hide RowOf;
    match RowOf(m).kind
    case R => DecodesR(m, o, w);
    case I => if m in {Slli, Srli, Srai} { DecodesShift(m, o, w); } else { DecodesI(m, o, w); }
    case S => DecodesS(m, o, w);
    case B => DecodesB(m, o, w);
    case U => DecodesU(m, o, w);
    case Z => DecodesEcall(o, w);
  }

  lemma DecodesEcall(o: Operands, w: Word)
    requires FieldsMatch(Ecall, o, w)
    ensures Isa.Decode(w) == Named(Ecall, o)
  {
  }

  lemma SamePacking(o: Operands)
    ensures Pack(Srai, o) == Pack(Srli, o)
  {
    hide Encoder.Or;
  }

  /** The arithmetic right shift assembles to the logical one, for every register and amount. */
  lemma SraiAssemblesToSrli(rd: Reg, rs1: Reg, amount: int)
    requires 0 <= amount < 0x20
    ensures Pack(Srai, Operands(rd, rs1, 0, amount)) == Pack(Srli, Operands(rd, rs1, 0, amount))
    ensures Isa.Decode(Pack(Srai, Operands(rd, rs1, 0, amount))) == Some(Isa.OpImm(Isa.SRL, rd, rs1, amount))
  {
    var o := Operands(rd, rs1, 0, amount);
    hide Pack, Isa.Decode;
    SamePacking(o);
    LogicalShift(o);
  }

  lemma LogicalShift(o: Operands)
    requires Accepted(Srli, o) && o.imm < 0x20 && o.imm >= 0
    ensures Isa.Decode(Pack(Srli, o)) == Some(Isa.OpImm(Isa.SRL, o.rd, o.rs1, o.imm))
  {
    hide Pack, Isa.Decode, RowOf, Accepted;
    DecodesToNamed(Srli, o);
  }

  /** The mnemonic that an opcode and function codes stand for in the table. */
  function MnemonicOf(opcode: int, f3: int, f7: int): Mnemonic {
    match opcode
    case 0x33 =>
      (match f3
       case 0 => if f7 == 0 then Add else Sub
       case 1 => Sll
       case 2 => Slt
       case 3 => Sltu
       case 4 => Xor
       case 5 => if f7 == 0 then Srl else Sra
       case 6 => Or
       case _ => And)
    case 0x13 =>
      (match f3
       case 0 => Addi
       case 1 => Slli
       case 2 => Slti
       case 3 => Sltiu
       case 4 => Xori
       case 5 => Srli
       case 6 => Ori
       case _ => Andi)
    case 0x03 =>
      (match f3
       case 0 => Lb
       case 1 => Lh
       case 2 => Lw
       case 4 => Lbu
       case _ => Lhu)
    case 0x23 =>
      (match f3
       case 0 => Sb
       case 1 => Sh
       case _ => Sw)
    case 0x63 =>
      (match f3
       case 0 => Beq
       case 1 => Bne
       case 4 => Blt
       case 5 => Bge
       case 6 => Bltu
       case _ => Bgeu)
    case 0x17 => Auipc
    case 0x37 => Lui
    case _ => Ecall
  }

  lemma RowIdentifies(m: Mnemonic, f3: int, f7: int)
    requires RowOf(m).kind in {R, I, S, B} ==> f3 == RowOf(m).funct3
    requires RowOf(m).kind == R ==> f7 == RowOf(m).funct7
    requires RowOf(m).kind != P
    ensures MnemonicOf(RowOf(m).opcode, f3, f7) == if m == Srai then Srli else m
  {
  }

  lemma Identified(m: Mnemonic, o: Operands, w: Word)
    requires RowOf(m).kind != P && FieldsMatch(m, o, w)
    ensures MnemonicOf(Isa.Opcode(w), Isa.Funct3(w), Isa.Funct7(w)) == if m == Srai then Srli else m
  {
    hide RowOf, MnemonicOf, Isa.Opcode, Isa.Funct3, Isa.Funct7, Isa.Rd, Isa.Rs1, Isa.Rs2;
    RowIdentifies(m, Isa.Funct3(w), Isa.Funct7(w));
  }

  lemma SameOperands(m: Mnemonic, o1: Operands, n: Mnemonic, o2: Operands, w: Word)
    requires RowOf(m).kind == RowOf(n).kind
    requires Accepted(m, o1) && Accepted(n, o2) && FieldsMatch(m, o1, w) && FieldsMatch(n, o2, w)
    ensures o1.rd == o2.rd && o1.rs1 == o2.rs1 && o1.rs2 == o2.rs2
    ensures o1.imm == o2.imm || (RowOf(m).kind == U && o1.imm % 0x10_0000 == o2.imm % 0x10_0000)
  {
    hide Isa.Opcode, Isa.Funct3, Isa.Funct7, Isa.Rd, Isa.Rs1, Isa.Rs2, Isa.ImmI, Isa.ImmS, Isa.ImmB, Isa.ImmU;
    hide RowOf;
  }

  /**
    No two accepted lines share a word unless they have the same registers, the same immediate
    (modulo 2^20 for U-type) and the same mnemonic, `srli` and `srai` apart.
   */
  lemma Injective(m: Mnemonic, o1: Operands, n: Mnemonic, o2: Operands)
    requires Accepted(m, o1) && Accepted(n, o2)
    requires Pack(m, o1) == Pack(n, o2)
    ensures m == n || (m in {Srli, Srai} && n in {Srli, Srai})
    ensures o1.rd == o2.rd && o1.rs1 == o2.rs1 && o1.rs2 == o2.rs2
    ensures o1.imm == o2.imm || (RowOf(m).kind == U && o1.imm % 0x10_0000 == o2.imm % 0x10_0000)
  {
    hide Pack, FieldsMatch, MnemonicOf, Accepted;
    NotPseudo(m, o1);
    NotPseudo(n, o2);
    PackFields(m, o1);
    PackFields(n, o2);
    var w := Pack(m, o1);
    assert RowOf(Srli).kind == I && RowOf(Srai).kind == I;
    hide RowOf;
    Identified(m, o1, w);
    Identified(n, o2, w);
    SameOperands(m, o1, n, o2, w);
  }
}
