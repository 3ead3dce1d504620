/** The mnemonic table that `find_instruction` searches. */
module InstructionTable {
  import opened CText

  datatype Mnemonic =
    | Add | Sub | Xor | Or | And | Sll | Srl | Sra | Slt | Sltu
    | Addi | Xori | Ori | Andi | Slli | Srli | Srai | Slti | Sltiu | Lb
    | Lh | Lw | Lbu | Lhu | Ecall | Sb | Sh | Sw | Auipc | Lui
    | Beq | Bne | Blt | Bge | Bltu | Bgeu | Li | La | Mv | Neg
    | Nop | Not | Seqz | Snez

  /** The letters of the `type` column; J has no row. */
  datatype Kind = R | I | S | B | U | Z | P

  datatype Row = Row(opcode: nat, funct3: nat, funct7: nat, kind: Kind)

  function RowOf(m: Mnemonic): (row: Row)
    ensures row.opcode < 0x80 && row.funct3 < 8 && row.funct7 < 0x80
  {
    match m
    case Add => Row(0x33, 0x0, 0x00, R)
    case Sub => Row(0x33, 0x0, 0x20, R)
    case Xor => Row(0x33, 0x4, 0x00, R)
    case Or => Row(0x33, 0x6, 0x00, R)
    case And => Row(0x33, 0x7, 0x00, R)
    case Sll => Row(0x33, 0x1, 0x00, R)
    case Srl => Row(0x33, 0x5, 0x00, R)
    case Sra => Row(0x33, 0x5, 0x20, R)
    case Slt => Row(0x33, 0x2, 0x00, R)
    case Sltu => Row(0x33, 0x3, 0x00, R)
    case Addi => Row(0x13, 0x0, 0x00, I)
    case Xori => Row(0x13, 0x4, 0x00, I)
    case Ori => Row(0x13, 0x6, 0x00, I)
    case Andi => Row(0x13, 0x7, 0x00, I)
    case Slli => Row(0x13, 0x1, 0x00, I)
    case Srli => Row(0x13, 0x5, 0x00, I)
    case Srai => Row(0x13, 0x5, 0x20, I)
    case Slti => Row(0x13, 0x2, 0x00, I)
    case Sltiu => Row(0x13, 0x3, 0x00, I)
    case Lb => Row(0x03, 0x0, 0x00, I)
    case Lh => Row(0x03, 0x1, 0x00, I)
    case Lw => Row(0x03, 0x2, 0x00, I)
    case Lbu => Row(0x03, 0x4, 0x00, I)
    case Lhu => Row(0x03, 0x5, 0x00, I)
    case Ecall => Row(0x73, 0x0, 0x00, Z)
    case Sb => Row(0x23, 0x0, 0x00, S)
    case Sh => Row(0x23, 0x1, 0x00, S)
    case Sw => Row(0x23, 0x2, 0x00, S)
    case Auipc => Row(0x17, 0x0, 0x00, U)
    case Lui => Row(0x37, 0x0, 0x00, U)
    case Beq => Row(0x63, 0x0, 0x00, B)
    case Bne => Row(0x63, 0x1, 0x00, B)
    case Blt => Row(0x63, 0x4, 0x00, B)
    case Bge => Row(0x63, 0x5, 0x00, B)
    case Bltu => Row(0x63, 0x6, 0x00, B)
    case Bgeu => Row(0x63, 0x7, 0x00, B)
    case Li => Row(0x13, 0x0, 0x00, P)
    case La => Row(0x17, 0x0, 0x00, P)
    case Mv => Row(0x13, 0x0, 0x00, P)
    case Neg => Row(0x33, 0x0, 0x20, P)
    case Nop => Row(0x13, 0x0, 0x00, P)
    case Not => Row(0x13, 0x4, 0x00, P)
    case Seqz => Row(0x13, 0x3, 0x00, P)
    case Snez => Row(0x33, 0x3, 0x00, P)
  }

  function NameOf(m: Mnemonic): string {
    match m
    case Add => "add"
    case Sub => "sub"
    case Xor => "xor"
    case Or => "or"
    case And => "and"
    case Sll => "sll"
    case Srl => "srl"
    case Sra => "sra"
    case Slt => "slt"
    case Sltu => "sltu"
    case Addi => "addi"
    case Xori => "xori"
    case Ori => "ori"
    case Andi => "andi"
    case Slli => "slli"
    case Srli => "srli"
    case Srai => "srai"
    case Slti => "slti"
    case Sltiu => "sltiu"
    case Lb => "lb"
    case Lh => "lh"
    case Lw => "lw"
    case Lbu => "lbu"
    case Lhu => "lhu"
    case Ecall => "ecall"
    case Sb => "sb"
    case Sh => "sh"
    case Sw => "sw"
    case Auipc => "auipc"
    case Lui => "lui"
    case Beq => "beq"
    case Bne => "bne"
    case Blt => "blt"
    case Bge => "bge"
    case Bltu => "bltu"
    case Bgeu => "bgeu"
    case Li => "li"
    case La => "la"
    case Mv => "mv"
    case Neg => "neg"
    case Nop => "nop"
    case Not => "not"
    case Seqz => "seqz"
    case Snez => "snez"
  }

  /** `find_instruction`: exact search by name. */
  function FindInstruction(name: string): Option<Mnemonic> {
    match name
    case "add" => Some(Add)
    case "sub" => Some(Sub)
    case "xor" => Some(Xor)
    case "or" => Some(Or)
    case "and" => Some(And)
    case "sll" => Some(Sll)
    case "srl" => Some(Srl)
    case "sra" => Some(Sra)
    case "slt" => Some(Slt)
    case "sltu" => Some(Sltu)
    case "addi" => Some(Addi)
    case "xori" => Some(Xori)
    case "ori" => Some(Ori)
    case "andi" => Some(Andi)
    case "slli" => Some(Slli)
    case "srli" => Some(Srli)
    case "srai" => Some(Srai)
    case "slti" => Some(Slti)
    case "sltiu" => Some(Sltiu)
    case "lb" => Some(Lb)
    case "lh" => Some(Lh)
    case "lw" => Some(Lw)
    case "lbu" => Some(Lbu)
    case "lhu" => Some(Lhu)
    case "ecall" => Some(Ecall)
    case "sb" => Some(Sb)
    case "sh" => Some(Sh)
    case "sw" => Some(Sw)
    case "auipc" => Some(Auipc)
    case "lui" => Some(Lui)
    case "beq" => Some(Beq)
    case "bne" => Some(Bne)
    case "blt" => Some(Blt)
    case "bge" => Some(Bge)
    case "bltu" => Some(Bltu)
    case "bgeu" => Some(Bgeu)
    case "li" => Some(Li)
    case "la" => Some(La)
    case "mv" => Some(Mv)
    case "neg" => Some(Neg)
    case "nop" => Some(Nop)
    case "not" => Some(Not)
    case "seqz" => Some(Seqz)
    case "snez" => Some(Snez)
    case _ => None
  }

  /** `is_load_store`. */
  predicate IsLoadStore(m: Mnemonic) {
    m in {Lb, Lh, Lw, Lbu, Lhu, Sb, Sh, Sw}
  }

  lemma FindRegisterForm(m: Mnemonic)
    requires RowOf(m).kind == R
    ensures FindInstruction(NameOf(m)) == Some(m)
  {
  }

  lemma FindImmediateForm(m: Mnemonic)
    requires RowOf(m).kind == I
    ensures FindInstruction(NameOf(m)) == Some(m)
  {
  }

  lemma FindOtherForm(m: Mnemonic)
    requires RowOf(m).kind in {S, B, U, Z}
    ensures FindInstruction(NameOf(m)) == Some(m)
  {
  }

  lemma FindPseudo(m: Mnemonic)
    requires RowOf(m).kind == P
    ensures FindInstruction(NameOf(m)) == Some(m)
  {
  }

  lemma FindByName(m: Mnemonic)
    ensures FindInstruction(NameOf(m)) == Some(m)
  {
    hide FindInstruction, NameOf, RowOf;
    if RowOf(m).kind == R {
      FindRegisterForm(m);
    } else if RowOf(m).kind == I {
      FindImmediateForm(m);
    } else if RowOf(m).kind == P {
      FindPseudo(m);
    } else {
      FindOtherForm(m);
    }
  }

  lemma FoundName(name: string)
    requires FindInstruction(name).Some?
    ensures NameOf(FindInstruction(name).value) == name
  {
  }

  lemma NameShape(m: Mnemonic)
    ensures 0 < |NameOf(m)| <= 5
    ensures forall i :: 0 <= i < |NameOf(m)| ==> 'a' <= NameOf(m)[i] <= 'z'
  {
  }
}
