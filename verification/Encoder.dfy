/**
  The instruction encoder: operand scanning, register names, immediate ranges and the packing
  of operands into instruction words, with its correctness against the decoder of `Isa`.
 */
module Encoder {
  import opened Bits
  import opened CText
  import opened Errors
  import opened InstructionTable
  import Isa

  type Reg = Isa.Reg

  // ----- register names -----

  function RegisterIn(digits: string, last: nat): Result<nat>
  {
    match ScanByte(digits)
    case Some(n) => if n <= last then Ok(n) else Err(InvalidRegister)
    case None => Err(InvalidRegister)
  }

  /** The register a spelling without blanks names. */
  function NamedRegister(r: string): Result<Reg>
    requires r != ""
  {
    match r[0]
    case 'x' =>
      var n :- RegisterIn(r[1..], 31);
      if n < 32 then Ok(n) else Err(InvalidRegister)
    case 'a' =>
      var n :- RegisterIn(r[1..], 7);
      if n < 8 then Ok(n + 10) else Err(InvalidRegister)
    case 's' =>
      if |r| > 1 && r[1] == 'p' then
        if r == "sp" then Ok(2) else Err(InvalidRegister)
      else
        var n :- RegisterIn(r[1..], 11);
        if n < 2 then Ok(n + 8) else if n < 12 then Ok(n + 16) else Err(InvalidRegister)
    case 't' =>
      if |r| > 1 && r[1] == 'p' then
        if r == "tp" then Ok(4) else Err(InvalidRegister)
      else
        var n :- RegisterIn(r[1..], 6);
        if n < 3 then Ok(n + 5) else if n < 7 then Ok(n + 25) else Err(InvalidRegister)
    case 'r' => if r == "ra" then Ok(1) else Err(InvalidRegister)
    case 'g' => if r == "gp" then Ok(3) else Err(InvalidRegister)
    case 'z' => if r == "zero" then Ok(0) else Err(InvalidRegister)
    case _ => Err(InvalidRegister)
  }

  /** The register an operand names: its first blank-delimited word, of at most four characters. */
  function RegisterValue(reg: string): Result<Reg> {
    var start := SkipSpace(reg);
    var len := Span(start, " \t\r\n");
    if len == 0 || len >= 5 then Err(InvalidRegister) else NamedRegister(start[..len])
  }

  method ParseRegister(reg: string) returns (r: Result<Reg>)
    ensures r == RegisterValue(reg)
  {
    var start := 0;
    while start < |reg| && IsSpace(reg[start])
      invariant start <= |reg|
      invariant SkipSpace(reg) == SkipSpace(reg[start..])
    {
      start := start + 1;
    }
    var len := Span(reg[start..], " \t\r\n");
    if len == 0 || len >= 5 {
      return Err(InvalidRegister);
    }
    r := NamedRegister(reg[start..][..len]);
  }

  // ----- operands -----

  /** The operands of a machine instruction; those a format does not have are zero. */
  datatype Operands = Operands(rd: Reg, rs1: Reg, rs2: Reg, imm: int)

  const R_FORMAT := SkipWord(Blank(Until(4, ",",
      Exact(',', Blank(Until(4, ",", Exact(',', Blank(Until(4, "#\n", End)))))))))
  const I_FORMAT := SkipWord(Blank(Until(4, ",", Exact(',', Blank(Until(4, ",", Exact(',', Blank(Integer(End)))))))))
  const U_FORMAT := SkipWord(Blank(Until(4, ",", Exact(',', Blank(Integer(End))))))
  const OFFSET_FORMAT := SkipWord(Blank(Until(4, ",",
      Exact(',', Blank(Integer(Exact('(', Until(4, ")", Exact(')', End)))))))))
  const PAIR_FORMAT := SkipWord(Blank(Until(4, ",", Exact(',', Blank(Until(4, "#\n", End))))))

  function CheckImmediate(imm: int, min: int, max: int): Result<int> {
    if imm < min || imm > max then Err(InvalidImmediate) else Ok(imm)
  }

  function CheckEven(imm: int, min: int, max: int): Result<int> {
    if imm < min || imm > max || imm % 2 != 0 then Err(InvalidImmediate) else Ok(imm)
  }

  /** `reg, offset(base)`, or `reg, base` with an implicit zero offset. */
  function ScanAddress(line: string): Result<(string, int, string)> {
    match Sscanf(line, OFFSET_FORMAT)
    case Text(r, Number(imm, Text(base, _))) => Ok((r, imm, base))
    case _ =>
      match Sscanf(line, PAIR_FORMAT)
      case Text(r, Text(base, NoMore)) => Ok((r, 0, base))
      case _ => Err(ParseError)
  }

  function OperandsR(line: string): Result<Operands> {
    match Sscanf(line, R_FORMAT)
    case Text(rd, Text(rs1, Text(rs2, NoMore))) =>
      var r2 :- RegisterValue(rs2);
      var r1 :- RegisterValue(rs1);
      var d :- RegisterValue(rd);
      Ok(Operands(d, r1, r2, 0))
    case _ => Err(ParseError)
  }

  function OperandsImm(line: string): Result<Operands> {
    match Sscanf(line, I_FORMAT)
    case Text(rd, Text(rs1, Number(n, NoMore))) =>
      var imm :- CheckImmediate(n, -0x800, 0x7FF);
      var r1 :- RegisterValue(rs1);
      var d :- RegisterValue(rd);
      Ok(Operands(d, r1, 0, imm))
    case _ => Err(ParseError)
  }

  function OperandsLoad(line: string): Result<Operands> {
    var (rd, n, rs1) :- ScanAddress(line);
    var imm :- CheckImmediate(n, -0x800, 0x7FF);
    var r1 :- RegisterValue(rs1);
    var d :- RegisterValue(rd);
    Ok(Operands(d, r1, 0, imm))
  }

  function OperandsStore(line: string): Result<Operands> {
    var (rs2, n, rs1) :- ScanAddress(line);
    var imm :- CheckImmediate(n, -0x800, 0x7FF);
    var r2 :- RegisterValue(rs2);
    var r1 :- RegisterValue(rs1);
    Ok(Operands(0, r1, r2, imm))
  }

  function OperandsB(line: string): Result<Operands> {
    match Sscanf(line, I_FORMAT)
    case Text(rs1, Text(rs2, Number(n, NoMore))) =>
      var imm :- CheckEven(n, -0x1000, 0xFFF);
      var r1 :- RegisterValue(rs1);
      var r2 :- RegisterValue(rs2);
      Ok(Operands(0, r1, r2, imm))
    case _ => Err(ParseError)
  }

  function OperandsU(line: string): Result<Operands> {
    match Sscanf(line, U_FORMAT)
    case Text(rd, Number(n, NoMore)) =>
      var imm :- CheckImmediate(n, -0x8_0000, 0xF_FFFF);
      var d :- RegisterValue(rd);
      Ok(Operands(d, 0, 0, imm))
    case _ => Err(ParseError)
  }

  /** The part of `encode` before packing: scanning, range checks and register names. */
  function ParseOperands(m: Mnemonic, line: string): Result<Operands> {
    match RowOf(m).kind
    case R => OperandsR(line)
    case I => if IsLoadStore(m) then OperandsLoad(line) else OperandsImm(line)
    case S => OperandsStore(line)
    case B => OperandsB(line)
    case U => OperandsU(line)
    case Z => Ok(Operands(0, 0, 0, 0))
    case P => Err(GeneralError)
  }

  // ----- packing -----

  function Or(a: Word, b: Word): Word {
    Bitwise32(OrBit, a, b)
  }

  /** ASSEMBLE_R_TYPE */
  function PackR(row: Row, rs2: Reg, rs1: Reg, rd: Reg): Word
    requires ValidRow(row)
  {
    Or(Or(Or(Or(Or(row.funct7 * 0x200_0000, rs2 * 0x10_0000), rs1 * 0x8000), row.funct3 * 0x1000), rd * 0x80),
        row.opcode)
  }

  /** ASSEMBLE_I_TYPE */
  function PackI(row: Row, rs1: Reg, imm: int, rd: Reg): Word
    requires ValidRow(row)
  {
    Or(Or(Or(Or(ToWord(imm) % 0x1000 * 0x10_0000, rs1 * 0x8000), row.funct3 * 0x1000), rd * 0x80), row.opcode)
  }

  /** ASSEMBLE_S_TYPE */
  function PackS(row: Row, rs1: Reg, rs2: Reg, imm: Word): Word
    requires ValidRow(row)
  {
    Or(Or(Or(Or(Or(imm / 0x20 % 0x80 * 0x200_0000, rs2 * 0x10_0000), rs1 * 0x8000), row.funct3 * 0x1000),
          imm % 0x20 * 0x80), row.opcode)
  }

  /** ASSEMBLE_B_TYPE */
  function PackB(row: Row, rs1: Reg, rs2: Reg, imm: Word): Word
    requires ValidRow(row)
  {
    Or(Or(Or(Or(Or(Or(Or(imm / 0x1000 % 2 * 0x8000_0000, imm / 0x20 % 0x40 * 0x200_0000), rs2 * 0x10_0000),
        rs1 * 0x8000),
                row.funct3 * 0x1000), imm / 2 % 0x10 * 0x100), imm / 0x800 % 2 * 0x80), row.opcode)
  }

  /** ASSEMBLE_U_TYPE */
  function PackU(row: Row, rd: Reg, imm: int): Word
    requires ValidRow(row)
  {
    Or(Or(ToWord(imm) % 0x10_0000 * 0x1000, rd * 0x80), row.opcode)
  }

  /** ASSEMBLE_J_TYPE */
  function PackJ(row: Row, rd: Reg, imm: Word): Word
    requires ValidRow(row)
  {
    Or(Or(Or(Or(Or(imm / 0x10_0000 % 2 * 0x8000_0000, imm / 2 % 0x400 * 0x20_0000), imm / 0x800 % 2 * 0x10_0000),
             imm / 0x1000 % 0x100 * 0x1000), rd * 0x80), row.opcode)
  }

  /** ASSEMBLE_Z_TYPE */
  function PackZ(row: Row): Word
    requires ValidRow(row)
  {
    Or(Or(row.funct7 * 0x200_0000, row.funct3 * 0x1000), row.opcode)
  }

  predicate ValidRow(row: Row) {
    row.opcode < 0x80 && row.funct3 < 8 && row.funct7 < 0x80
  }

  function Pack(m: Mnemonic, o: Operands): Word
    requires RowOf(m).kind != P
  {
    var row := RowOf(m);
    match row.kind
    case R => PackR(row, o.rs2, o.rs1, o.rd)
    case I => PackI(row, o.rs1, o.imm, o.rd)
    case S => PackS(row, o.rs1, o.rs2, ToWord(o.imm))
    case B => PackB(row, o.rs1, o.rs2, ToWord(o.imm))
    case U => PackU(row, o.rd, o.imm)
    case Z => PackZ(row)
  }

  /** `encode`: the word a line of a machine instruction is assembled to. */
  function Encode(m: Mnemonic, line: string): Result<Word> {
    var o :- ParseOperands(m, line);
    if RowOf(m).kind == P then Err(GeneralError) else Ok(Pack(m, o))
  }

  method ScanR(line: string) returns (r: Result<Operands>)
    ensures r == OperandsR(line)
  {
    hide Sscanf, RegisterValue, R_FORMAT;
    match Sscanf(line, R_FORMAT) {
      case Text(rd, Text(rs1, Text(rs2, NoMore))) =>
        var r2 :- ParseRegister(rs2);
        var r1 :- ParseRegister(rs1);
        var d :- ParseRegister(rd);
        return Ok(Operands(d, r1, r2, 0));
      case _ => return Err(ParseError);
    }
  }

  method ScanImm(line: string) returns (r: Result<Operands>)
    ensures r == OperandsImm(line)
  {
    hide Sscanf, RegisterValue, I_FORMAT;
    match Sscanf(line, I_FORMAT) {
      case Text(rd, Text(rs1, Number(imm, NoMore))) =>
        if imm < -0x800 || imm > 0x7FF {
          return Err(InvalidImmediate);
        }
        var r1 :- ParseRegister(rs1);
        var d :- ParseRegister(rd);
        return Ok(Operands(d, r1, 0, imm));
      case _ => return Err(ParseError);
    }
  }

  method ScanLoad(line: string) returns (r: Result<Operands>)
    ensures r == OperandsLoad(line)
  {
    hide ScanAddress, RegisterValue;
    var parts :- ScanAddress(line);
    var (rd, imm, rs1) := parts;
    if imm < -0x800 || imm > 0x7FF {
      return Err(InvalidImmediate);
    }
    var r1 :- ParseRegister(rs1);
    var d :- ParseRegister(rd);
    return Ok(Operands(d, r1, 0, imm));
  }

  method ScanStore(line: string) returns (r: Result<Operands>)
    ensures r == OperandsStore(line)
  {
    hide ScanAddress, RegisterValue;
    var parts :- ScanAddress(line);
    var (rs2, imm, rs1) := parts;
    if imm < -0x800 || imm > 0x7FF {
      return Err(InvalidImmediate);
    }
    var r2 :- ParseRegister(rs2);
    var r1 :- ParseRegister(rs1);
    return Ok(Operands(0, r1, r2, imm));
  }

  method ScanB(line: string) returns (r: Result<Operands>)
    ensures r == OperandsB(line)
  {
    hide Sscanf, RegisterValue, I_FORMAT;
    match Sscanf(line, I_FORMAT) {
      case Text(rs1, Text(rs2, Number(imm, NoMore))) =>
        if imm < -0x1000 || imm > 0xFFF || imm % 2 != 0 {
          return Err(InvalidImmediate);
        }
        var r1 :- ParseRegister(rs1);
        var r2 :- ParseRegister(rs2);
        return Ok(Operands(0, r1, r2, imm));
      case _ => return Err(ParseError);
    }
  }

  method ScanU(line: string) returns (r: Result<Operands>)
    ensures r == OperandsU(line)
  {
    hide Sscanf, RegisterValue, U_FORMAT;
    match Sscanf(line, U_FORMAT) {
      case Text(rd, Number(imm, NoMore)) =>
        if imm < -0x8_0000 || imm > 0xF_FFFF {
          return Err(InvalidImmediate);
        }
        var d :- ParseRegister(rd);
        return Ok(Operands(d, 0, 0, imm));
      case _ => return Err(ParseError);
    }
  }

  /** `encode`: scan, check the immediate, parse the registers one by one, pack. */
  method EncodeInstruction(m: Mnemonic, line: string) returns (r: Result<Word>)
    ensures r == Encode(m, line)
  {
    hide RowOf, IsLoadStore, Pack, OperandsR, OperandsImm, OperandsLoad, OperandsStore, OperandsB, OperandsU;
    var o: Result<Operands>;
    match RowOf(m).kind {
      case R => o := ScanR(line);
      case I => if IsLoadStore(m) { o := ScanLoad(line); } else { o := ScanImm(line); }
      case S => o := ScanStore(line);
      case B => o := ScanB(line);
      case U => o := ScanU(line);
      case Z => o := Ok(Operands(0, 0, 0, 0));
      case P => return Err(GeneralError);
    }
    match o
    case Ok(operands) => return Ok(Pack(m, operands));
    case Err(e) => return Err(e);
  }

  // ----- packing keeps every field -----

  lemma Powers()
    ensures Pow2(7) == 0x80 && Pow2(8) == 0x100 && Pow2(12) == 0x1000 && Pow2(15) == 0x8000
    ensures Pow2(20) == 0x10_0000 && Pow2(21) == 0x20_0000 && Pow2(25) == 0x200_0000 && Pow2(31) == 0x8000_0000
  {
    assert Pow2(4) == 0x10 && Pow2(10) == 0x400;
    assert Pow2(16) == 0x1_0000;
    assert Pow2(22) == 0x40_0000;
    assert Pow2(28) == 0x1000_0000;
  }

  /** The common lower part: `high` at bit 15, then the function code, a five-bit field and the opcode. */
  lemma JoinLow(high: nat, f3: nat, low: nat, op: nat)
    requires high < 0x2_0000 && f3 < 8 && low < 0x20 && op < 0x80
    ensures high * 0x8000 + f3 * 0x1000 + low * 0x80 + op < 0x1_0000_0000
    ensures Or(Or(Or(high * 0x8000, f3 * 0x1000), low * 0x80), op) == high * 0x8000 + f3 * 0x1000 + low * 0x80 + op
  {
    hide Bitwise32, Pow2;
    Powers();
    OrBelow(15, 0x8000, high, f3 * 0x1000);
    OrBelow(12, 0x1000, high * 8 + f3, low * 0x80);
    OrBelow(7, 0x80, high * 0x100 + f3 * 0x20 + low, op);
  }

  lemma JoinHigh(f7: nat, rs2: nat, rs1: nat)
    requires f7 < 0x80 && rs2 < 0x20 && rs1 < 0x20
    ensures Or(Or(f7 * 0x200_0000, rs2 * 0x10_0000), rs1 * 0x8000) == (f7 * 0x400 + rs2 * 0x20 + rs1) * 0x8000
  {
    hide Bitwise32, Pow2;
    Powers();
    OrBelow(25, 0x200_0000, f7, rs2 * 0x10_0000);
    OrBelow(20, 0x10_0000, f7 * 0x20 + rs2, rs1 * 0x8000);
  }

  /** Six fields laid side by side as in figure 2.2 of the manual. */
  function Layout(f7: nat, rs2: nat, rs1: nat, f3: nat, low: nat, op: nat): nat {
    f7 * 0x200_0000 + rs2 * 0x10_0000 + rs1 * 0x8000 + f3 * 0x1000 + low * 0x80 + op
  }

  predicate Fit(f7: nat, rs2: nat, rs1: nat, f3: nat, low: nat, op: nat) {
    f7 < 0x80 && rs2 < 0x20 && rs1 < 0x20 && f3 < 8 && low < 0x20 && op < 0x80
  }

  lemma ReadLayout(f7: nat, rs2: nat, rs1: nat, f3: nat, low: nat, op: nat)
    requires Fit(f7, rs2, rs1, f3, low, op)
    ensures Layout(f7, rs2, rs1, f3, low, op) < 0x1_0000_0000
    ensures var w := Layout(f7, rs2, rs1, f3, low, op);
      Isa.Funct7(w) == f7 && Isa.Rs2(w) == rs2 && Isa.Rs1(w) == rs1 && Isa.Funct3(w) == f3 && Isa.Rd(w) == low
          && Isa.Opcode(w) == op
  {
    var above20 := f7 * 0x20 + rs2;
    var above15 := above20 * 0x20 + rs1;
    var above12 := above15 * 8 + f3;
    var above7 := above12 * 0x20 + low;
    DivMod(0x80, above7, op);
    DivMod(0x20, above12, low);
    DivMod(0x1000, above12, low * 0x80 + op);
    DivMod(8, above15, f3);
    DivMod(0x8000, above15, f3 * 0x1000 + low * 0x80 + op);
    DivMod(0x20, above20, rs1);
    DivMod(0x10_0000, above20, rs1 * 0x8000 + f3 * 0x1000 + low * 0x80 + op);
    DivMod(0x20, f7, rs2);
    DivMod(0x200_0000, f7, rs2 * 0x10_0000 + rs1 * 0x8000 + f3 * 0x1000 + low * 0x80 + op);
  }

  lemma LayoutR(row: Row, rs2: Reg, rs1: Reg, rd: Reg)
    requires ValidRow(row)
    ensures PackR(row, rs2, rs1, rd) == Layout(row.funct7, rs2, rs1, row.funct3, rd, row.opcode)
  {
    hide Bitwise32;
    JoinHigh(row.funct7, rs2, rs1);
    JoinLow(row.funct7 * 0x400 + rs2 * 0x20 + rs1, row.funct3, rd, row.opcode);
  }

  lemma LayoutI(row: Row, rs1: Reg, imm: int, rd: Reg)
    requires ValidRow(row)
    ensures PackI(row, rs1, imm, rd)
         == Layout(ToWord(imm) % 0x1000 / 0x20, ToWord(imm) % 0x20, rs1, row.funct3, rd, row.opcode)
  {
    var u := ToWord(imm) % 0x1000;
    assert u == u / 0x20 * 0x20 + ToWord(imm) % 0x20;
    hide Bitwise32, Pow2;
    Powers();
    OrBelow(20, 0x10_0000, u, rs1 * 0x8000);
    JoinLow(u * 0x20 + rs1, row.funct3, rd, row.opcode);
  }

  lemma LayoutS(row: Row, rs1: Reg, rs2: Reg, imm: Word)
    requires ValidRow(row)
    ensures PackS(row, rs1, rs2, imm) == Layout(imm / 0x20 % 0x80, rs2, rs1, row.funct3, imm % 0x20, row.opcode)
  {
    hide Bitwise32;
    JoinHigh(imm / 0x20 % 0x80, rs2, rs1);
    JoinLow(imm / 0x20 % 0x80 * 0x400 + rs2 * 0x20 + rs1, row.funct3, imm % 0x20, row.opcode);
  }

  lemma LayoutB(row: Row, rs1: Reg, rs2: Reg, imm: Word)
    requires ValidRow(row)
    ensures PackB(row, rs1, rs2, imm)
         == Layout(imm / 0x1000 % 2 * 0x40 + imm / 0x20 % 0x40, rs2, rs1, row.funct3,
                   imm / 2 % 0x10 * 2 + imm / 0x800 % 2, row.opcode)
  {
    hide Bitwise32, Pow2;
    Powers();
    var sign, f7 := imm / 0x1000 % 2, imm / 0x1000 % 2 * 0x40 + imm / 0x20 % 0x40;
    OrBelow(31, 0x8000_0000, sign, imm / 0x20 % 0x40 * 0x200_0000);
    JoinHigh(f7, rs2, rs1);
    var high := f7 * 0x400 + rs2 * 0x20 + rs1;
    OrBelow(15, 0x8000, high, row.funct3 * 0x1000);
    OrBelow(12, 0x1000, high * 8 + row.funct3, imm / 2 % 0x10 * 0x100);
    OrBelow(8, 0x100, high * 0x80 + row.funct3 * 0x10 + imm / 2 % 0x10, imm / 0x800 % 2 * 0x80);
    OrBelow(7, 0x80, high * 0x100 + row.funct3 * 0x20 + imm / 2 % 0x10 * 2 + imm / 0x800 % 2, row.opcode);
  }

  lemma LayoutU(row: Row, rd: Reg, imm: int)
    requires ValidRow(row)
    ensures PackU(row, rd, imm) == imm % 0x10_0000 * 0x1000 + rd * 0x80 + row.opcode
  {
    hide Bitwise32, Pow2;
    Powers();
    var u := ToWord(imm) % 0x10_0000;
    assert u == imm % 0x10_0000;
    OrBelow(12, 0x1000, u, rd * 0x80);
    OrBelow(7, 0x80, u * 0x20 + rd, row.opcode);
  }

  lemma LayoutJ(row: Row, rd: Reg, imm: Word)
    requires ValidRow(row)
    ensures PackJ(row, rd, imm)
         == (imm / 0x10_0000 % 2 * 0x8_0000 + imm / 2 % 0x400 * 0x200 + imm / 0x800 % 2 * 0x100
             + imm / 0x1000 % 0x100) * 0x1000
            + rd * 0x80 + row.opcode
  {
    hide Bitwise32, Pow2;
    Powers();
    var a, b, c, d := imm / 0x10_0000 % 2, imm / 2 % 0x400, imm / 0x800 % 2, imm / 0x1000 % 0x100;
    OrBelow(31, 0x8000_0000, a, b * 0x20_0000);
    OrBelow(21, 0x20_0000, a * 0x400 + b, c * 0x10_0000);
    OrBelow(20, 0x10_0000, a * 0x800 + b * 2 + c, d * 0x1000);
    OrBelow(12, 0x1000, a * 0x8_0000 + b * 0x200 + c * 0x100 + d, rd * 0x80);
    OrBelow(7, 0x80, (a * 0x8_0000 + b * 0x200 + c * 0x100 + d) * 0x20 + rd, row.opcode);
  }

  // ----- encode, then decode: one lemma a format -----

  lemma RoundTripR(row: Row, rs2: Reg, rs1: Reg, rd: Reg)
    requires ValidRow(row)
    ensures var w := PackR(row, rs2, rs1, rd);
      Isa.Opcode(w) == row.opcode && Isa.Funct3(w) == row.funct3 && Isa.Funct7(w) == row.funct7
      && Isa.Rd(w) == rd && Isa.Rs1(w) == rs1 && Isa.Rs2(w) == rs2
  {
    hide PackR;
    LayoutR(row, rs2, rs1, rd);
    ReadLayout(row.funct7, rs2, rs1, row.funct3, rd, row.opcode);
  }

  lemma RoundTripI(row: Row, rs1: Reg, imm: int, rd: Reg)
    requires ValidRow(row) && -0x800 <= imm <= 0x7FF
    ensures var w := PackI(row, rs1, imm, rd);
      Isa.Opcode(w) == row.opcode && Isa.Funct3(w) == row.funct3
      && Isa.Rd(w) == rd && Isa.Rs1(w) == rs1 && Isa.ImmI(w) == imm
      && Isa.Funct7(w) == imm % 0x1000 / 0x20 && Isa.Rs2(w) == imm % 0x20
  {
    hide PackI, Layout, Isa.Funct7, Isa.Rs2, Isa.Rs1, Isa.Rd, Isa.Funct3, Isa.Opcode, Isa.ImmI;
    var w := PackI(row, rs1, imm, rd);
    LowImmediate(imm);
    LayoutI(row, rs1, imm, rd);
    ReadLayout(imm % 0x1000 / 0x20, imm % 0x20, rs1, row.funct3, rd, row.opcode);
    ReadImmI(w, imm);
  }

  lemma LowImmediate(imm: int)
    ensures ToWord(imm) % 0x1000 == imm % 0x1000 && ToWord(imm) % 0x20 == imm % 0x20
    ensures 0 <= imm % 0x1000 / 0x20 < 0x80
  {
    LowBits(imm, 0x1000, 0x10_0000);
    LowBits(imm, 0x20, 0x800_0000);
  }

  lemma LowTwice(imm: int)
    ensures imm % 0x1000 % 0x20 == imm % 0x20
  {
    ModAdd(imm % 0x1000, imm / 0x1000 * 0x80, 0x20);
  }

  /** The twelve-bit immediate in terms of the two fields that cover it. */
  lemma ReadImmI(w: Word, imm: int)
    requires Isa.Funct7(w) == imm % 0x1000 / 0x20 && Isa.Rs2(w) == imm % 0x20
    requires -0x800 <= imm <= 0x7FF
    ensures Isa.ImmI(w) == imm
  {
    DivModTwice(w, 0x10_0000, 0x20);
    DivModTwice(imm % 0x1000, 0x20, 0x80);
    LowTwice(imm);
  }

  lemma RoundTripS(row: Row, rs1: Reg, rs2: Reg, imm: int)
    requires ValidRow(row) && -0x800 <= imm <= 0x7FF
    ensures var w := PackS(row, rs1, rs2, ToWord(imm));
      Isa.Opcode(w) == row.opcode && Isa.Funct3(w) == row.funct3
      && Isa.Rs1(w) == rs1 && Isa.Rs2(w) == rs2 && Isa.ImmS(w) == imm
  {
    hide PackS, Layout, Isa.Funct7, Isa.Rs2, Isa.Rs1, Isa.Rd, Isa.Funct3, Isa.Opcode, Isa.ImmS, ToWord;
    var u := ToWord(imm);
    var w := PackS(row, rs1, rs2, u);
    LayoutS(row, rs1, rs2, u);
    ReadLayout(u / 0x20 % 0x80, rs2, rs1, row.funct3, u % 0x20, row.opcode);
    ReadImmS(w, imm);
  }

  lemma ReadImmS(w: Word, imm: int)
    requires Isa.Funct7(w) == ToWord(imm) / 0x20 % 0x80 && Isa.Rd(w) == ToWord(imm) % 0x20
    requires -0x800 <= imm <= 0x7FF
    ensures Isa.ImmS(w) == imm
  {
    var u := ToWord(imm);
    DivModTwice(u, 0x20, 0x80);
    LowImmediate(imm);
    hide ToWord;
  }

  lemma RoundTripB(row: Row, rs1: Reg, rs2: Reg, imm: int)
    requires ValidRow(row) && -0x1000 <= imm <= 0xFFF && imm % 2 == 0
    ensures var w := PackB(row, rs1, rs2, ToWord(imm));
      Isa.Opcode(w) == row.opcode && Isa.Funct3(w) == row.funct3
      && Isa.Rs1(w) == rs1 && Isa.Rs2(w) == rs2 && Isa.ImmB(w) == imm
  {
    hide PackB, Layout, Isa.Funct7, Isa.Rs2, Isa.Rs1, Isa.Rd, Isa.Funct3, Isa.Opcode, Isa.ImmB, ToWord;
    var u := ToWord(imm);
    var f7, low := u / 0x1000 % 2 * 0x40 + u / 0x20 % 0x40, u / 2 % 0x10 * 2 + u / 0x800 % 2;
    LayoutB(row, rs1, rs2, u);
    ReadLayout(f7, rs2, rs1, row.funct3, low, row.opcode);
    ReadImmB(PackB(row, rs1, rs2, u), f7, low);
    DivMod(0x40, u / 0x1000 % 2, u / 0x20 % 0x40);
    DivMod(2, u / 2 % 0x10, u / 0x800 % 2);
    SplitImmB(imm);
  }

  /** The branch offset in terms of the two fields that hold it. */
  lemma ReadImmB(w: Word, f7: nat, low: nat)
    requires Isa.Funct7(w) == f7 && Isa.Rd(w) == low
    ensures Isa.ImmB(w) == Isa.SignExtend(f7 / 0x40 * 0x1000 + low % 2 * 0x800 + f7 % 0x40 * 0x20 + low / 2 * 2, 0x1000)
  {
    var x := w / 0x80;
    DivModTwice(w, 0x200_0000, 0x40);
    DivModTwice(w, 0x80, 2);
    DivModTwice(x, 2, 0x10);
    LowTwo(x);
  }

  lemma LowTwo(x: int)
    ensures x % 0x20 % 2 == x % 2
  {
    ModAdd(x % 0x20, x / 0x20 * 0x10, 2);
  }

  lemma SignExtendLow(x: int, half: int)
    requires half > 0 && -half <= x < half
    ensures Isa.SignExtend(x % (2 * half), half) == x
  {
    if x < 0 {
      DivMod(2 * half, 0, x + 2 * half);
      ModAdd(x, 1, 2 * half);
    } else {
      DivMod(2 * half, 0, x);
    }
  }

  lemma BranchFields(u: nat)
    requires u % 2 == 0
    ensures u % 0x2000 == u / 0x1000 % 2 * 0x1000 + u / 0x800 % 2 * 0x800 + u / 0x20 % 0x40 * 0x20 + u / 2 % 0x10 * 2
  {
    DivModTwice(u, 0x1000, 2);
    DivModTwice(u, 0x800, 2);
    DivModTwice(u, 0x20, 0x40);
    DivModTwice(u, 2, 0x10);
  }

  lemma JumpFields(u: nat)
    requires u % 2 == 0
    ensures u % 0x20_0000
         == u / 0x10_0000 % 2 * 0x10_0000 + u / 0x1000 % 0x100 * 0x1000 + u / 0x800 % 2 * 0x800 + u / 2 % 0x400 * 2
  {
    DivModTwice(u, 0x10_0000, 2);
    DivModTwice(u, 0x1000, 0x100);
    DivModTwice(u, 0x800, 2);
    DivModTwice(u, 2, 0x400);
  }

  lemma SplitImmB(imm: int)
    requires -0x1000 <= imm <= 0xFFF && imm % 2 == 0
    ensures var u := ToWord(imm);
      Isa.SignExtend(u / 0x1000 % 2 * 0x1000 + u / 0x800 % 2 * 0x800 + u / 0x20 % 0x40 * 0x20 + u / 2 % 0x10 * 2,
          0x1000) == imm
  {
    var u := ToWord(imm);
    LowBits(imm, 0x2000, 0x8_0000);
    LowBits(imm, 2, 0x8000_0000);
    hide ToWord;
    BranchFields(u);
    SignExtendLow(imm, 0x1000);
  }

  lemma RoundTripU(row: Row, rd: Reg, imm: int)
    requires ValidRow(row)
    ensures var w := PackU(row, rd, imm);
      Isa.Opcode(w) == row.opcode && Isa.Rd(w) == rd && Isa.ImmU(w) == imm % 0x10_0000
  {
    hide PackU;
    LayoutU(row, rd, imm);
  }

  lemma RoundTripJ(row: Row, rd: Reg, imm: int)
    requires ValidRow(row) && -0x10_0000 <= imm <= 0xF_FFFF && imm % 2 == 0
    ensures var w := PackJ(row, rd, ToWord(imm));
      Isa.Opcode(w) == row.opcode && Isa.Rd(w) == rd && Isa.ImmJ(w) == imm
  {
    hide PackJ, ToWord, Isa.ImmJ;
    var u := ToWord(imm);
    LayoutJ(row, rd, u);
    var a, b, c, d := u / 0x10_0000 % 2, u / 2 % 0x400, u / 0x800 % 2, u / 0x1000 % 0x100;
    var x := a * 0x8_0000 + b * 0x200 + c * 0x100 + d;
    DivMod(0x1000, x, rd * 0x80 + row.opcode);
    DivMod(0x80, x * 0x20 + rd, row.opcode);
    DivMod(0x20, x, rd);
    ReadImmJ(PackJ(row, rd, u), a, b, c, d);
    SplitImmJ(imm);
  }

  lemma ReadImmJ(w: Word, a: nat, b: nat, c: nat, d: nat)
    requires a < 2 && b < 0x400 && c < 2 && d < 0x100
    requires w / 0x1000 == a * 0x8_0000 + b * 0x200 + c * 0x100 + d
    ensures Isa.ImmJ(w) == Isa.SignExtend(a * 0x10_0000 + d * 0x1000 + c * 0x800 + b * 2, 0x10_0000)
  {
    var x := w / 0x1000;
    assert w / 0x8000_0000 == x / 0x8_0000;
    assert w / 0x10_0000 == x / 0x100;
    assert w / 0x20_0000 == x / 0x200;
    DivMod(0x8_0000, a, b * 0x200 + c * 0x100 + d);
    DivMod(0x100, a * 0x800 + b * 2 + c, d);
    DivMod(2, a * 0x400 + b, c);
    DivMod(0x200, a * 0x400 + b, c * 0x100 + d);
    DivMod(0x400, a, b);
  }

  lemma SplitImmJ(imm: int)
    requires -0x10_0000 <= imm <= 0xF_FFFF && imm % 2 == 0
    ensures var u := ToWord(imm);
      Isa.SignExtend(u / 0x10_0000 % 2 * 0x10_0000 + u / 0x1000 % 0x100 * 0x1000 + u / 0x800 % 2 * 0x800
          + u / 2 % 0x400 * 2,
                     0x10_0000) == imm
  {
    var u := ToWord(imm);
    LowBits(imm, 0x20_0000, 0x800);
    LowBits(imm, 2, 0x8000_0000);
    hide ToWord;
    JumpFields(u);
    SignExtendLow(imm, 0x10_0000);
  }
}
