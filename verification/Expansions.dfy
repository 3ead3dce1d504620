/**
  What the pseudo-instruction expansions do: every printed line is read back to the operands it
  was printed from, passes the range checks, and the machine instructions it is assembled to
  have the effect the ISA manual gives the pseudo-instruction.
 */
module Expansions {
  import opened Bits
  import opened CText
  import opened Errors
  import opened InstructionTable
  import opened Encoder
  import opened Encoding
  import opened Pseudo
  import Isa

  // ----- the split into upper twenty and lower twelve bits -----

  lemma LowPart(x: int)
    requires IsInt32(x)
    ensures Lo12(x) == Isa.SignExtend(x % 0x1000, 0x800)
  {
    var r, q := x % 0x1000, x / 0x1000;
    assert x * 0x10_0000 == r * 0x10_0000 + q * 0x1_0000_0000;
    ModAdd(r * 0x10_0000, q, 0x1_0000_0000);
    assert ToWord(x * 0x10_0000) == r * 0x10_0000;
  }

  /** The split always fits the two instructions and recombines to the value modulo 2^32. */
  lemma SplitFits(x: int)
    requires IsInt32(x)
    ensures -0x800 <= Lo12(x) <= 0x7FF
    ensures -0x8_0000 <= Hi20(x) <= 0x7_FFFF
    ensures ToWord(Hi20(x) * 0x1000 + Lo12(x)) == ToWord(x)
    ensures Lo12(x) == 0 <==> x % 0x1000 == 0
  {
    hide Lo12, ToWord, ToInt32;
    LowPart(x);
    LowRange(x);
    UpperPart(x - Lo12(x));
    Int32Range(x - Lo12(x));
    SameWord(Hi20(x) * 0x1000, x - Lo12(x), Lo12(x));
  }

  lemma LowRange(x: int)
    ensures var lo := Isa.SignExtend(x % 0x1000, 0x800);
      -0x800 <= lo <= 0x7FF && (x - lo) % 0x1000 == 0 && (lo == 0 <==> x % 0x1000 == 0)
  {
  }

  lemma UpperPart(y: int)
    requires y % 0x1000 == 0
    ensures var hi := ToInt32(y) / 0x1000;
      hi * 0x1000 == ToInt32(y) && -0x8_0000 <= hi <= 0x7_FFFF
  {
    LowBits(y, 0x1000, 0x10_0000);
    var w := ToWord(y);
    hide ToWord;
    assert w % 0x1000 == 0;
  }

  /** The upper half as the twenty-bit field holds it. */
  lemma UpperField(x: int)
    requires IsInt32(x)
    ensures ToWord(Hi20(x) % 0x10_0000 * 0x1000) == ToWord(x - Lo12(x))
    ensures ToWord(ToWord(x - Lo12(x)) + Lo12(x)) == ToWord(x)
  {
    SplitFits(x);
    var h, lo := Hi20(x), Lo12(x);
    hide Hi20, Lo12;
    var q := h / 0x10_0000;
    assert h % 0x10_0000 * 0x1000 == h * 0x1000 + -q * 0x1_0000_0000;
    ModAdd(h * 0x1000, -q, 0x1_0000_0000);
    SameWord(h * 0x1000 + lo, x, -lo);
    ToWordAdds(x - lo, lo);
  }

  // ----- printing and reading back -----

  lemma NameIsWord(m: Mnemonic)
    ensures NameOf(m) != "" && forall i :: 0 <= i < |NameOf(m)| ==> !IsSpace(NameOf(m)[i])
  {
    NameShape(m);
    hide NameOf;
  }

  lemma ZeroRegister()
    ensures RegisterValue("zero") == Ok(0) && IsOperand("zero")
  {
    assert SkipSpace("zero") == "zero";
    assert "zero" + "" == "zero";
    SpanAll("zero", "", " \t\r\n");
    assert "zero"[..4] == "zero";
  }

  /** A printed U-type line is read back to the register and the number it was printed from. */
  lemma ReparseU(m: Mnemonic, rd: string, imm: int)
    requires IsOperand(rd) && IsInt32(imm)
    ensures Sscanf(LineU(m, rd, imm).line, U_FORMAT) == Text(rd, Number(imm, NoMore))
  {
    hide Sscanf, NameOf, PrintInt;
    NameIsWord(m);
    var tail := " " + PrintInt(imm);
    assert LineU(m, rd, imm).line == NameOf(m) + " " + rd + "," + tail;
    ScanHead(NameOf(m), rd, tail, Blank(Integer(End)));
    ScanLastInteger(imm, "");
    assert tail + "" == tail;
  }

  lemma ReparseI(m: Mnemonic, rd: string, rs1: string, imm: int)
    requires IsOperand(rd) && IsOperand(rs1) && IsInt32(imm)
    ensures Sscanf(LineI(m, rd, rs1, imm).line, I_FORMAT) == Text(rd, Text(rs1, Number(imm, NoMore)))
  {
    hide Sscanf, NameOf, PrintInt;
    NameIsWord(m);
    var last := " " + PrintInt(imm);
    var tail := " " + rs1 + "," + last;
    assert LineI(m, rd, rs1, imm).line == NameOf(m) + " " + rd + "," + tail;
    ScanHead(NameOf(m), rd, tail, Blank(Until(4, ",", Exact(',', Blank(Integer(End))))));
    ScanOperand(rs1, last, Blank(Integer(End)));
    ScanLastInteger(imm, "");
    assert last + "" == last;
  }

  lemma ReparseR(m: Mnemonic, rd: string, rs1: string, rs2: string)
    requires IsOperand(rd) && IsOperand(rs1)
    requires 0 < |rs2| <= 4 && !IsSpace(rs2[0]) && forall i :: 0 <= i < |rs2| ==> rs2[i] !in "#\n"
    ensures Sscanf(LineR(m, rd, rs1, rs2).line, R_FORMAT) == Text(rd, Text(rs1, Text(rs2, NoMore)))
  {
    hide Sscanf, NameOf;
    NameIsWord(m);
    var last := " " + rs2;
    var tail := " " + rs1 + "," + last;
    assert LineR(m, rd, rs1, rs2).line == NameOf(m) + " " + rd + "," + tail;
    ScanHead(NameOf(m), rd, tail, Blank(Until(4, ",", Exact(',', Blank(Until(4, "#\n", End))))));
    ScanOperand(rs1, last, Blank(Until(4, "#\n", End)));
    ScanLastOperand(rs2);
  }

  // ----- what a printed line is assembled to -----

  /** Two optional registers, the failure of either being the same error. */
  function Both(a: Result<Reg>, b: Result<Reg>): Result<(Reg, Reg)> {
    var x :- a;
    var y :- b;
    Ok((x, y))
  }

  lemma DecodeU(m: Mnemonic, d: Reg, imm: int)
    requires m in {Lui, Auipc} && -0x8_0000 <= imm <= 0xF_FFFF
    ensures Isa.Decode(Pack(m, Operands(d, 0, 0, imm)))
         == Some(if m == Lui then Isa.Lui(d, imm % 0x10_0000) else Isa.Auipc(d, imm % 0x10_0000))
  {
    hide Isa.Decode, Pack;
    DecodesToNamed(m, Operands(d, 0, 0, imm));
  }

  lemma DecodeI(m: Mnemonic, d: Reg, s: Reg, imm: int)
    requires m in {Addi, Xori, Sltiu} && -0x800 <= imm <= 0x7FF
    ensures Isa.Decode(Pack(m, Operands(d, s, 0, imm))) == Some(Isa.OpImm(ImmediateAlu(m), d, s, imm))
  {
    hide Isa.Decode, Pack;
    DecodesToNamed(m, Operands(d, s, 0, imm));
  }

  lemma DecodeR(m: Mnemonic, d: Reg, s: Reg)
    requires m in {Sub, Sltu}
    ensures Isa.Decode(Pack(m, Operands(d, 0, s, 0))) == Some(Isa.Op(if m == Sub then Isa.SUB else Isa.SLTU, d, 0, s))
  {
    hide Isa.Decode, Pack;
    DecodesToNamed(m, Operands(d, 0, s, 0));
  }

  /** The formats of the instructions that expansions use. */
  lemma ExpansionRows(m: Mnemonic)
    ensures m in {Lui, Auipc} ==> RowOf(m).kind == U
    ensures m in {Addi, Xori, Sltiu} ==> RowOf(m).kind == I && !IsLoadStore(m)
    ensures m in {Sub, Sltu} ==> RowOf(m).kind == R
  {
  }

  /** The encoder by format, as scanning followed by packing. */
  function Packed(m: Mnemonic, r: Result<Operands>): Result<Word>
    requires RowOf(m).kind != P
  {
    match r
    case Ok(o) => Ok(Pack(m, o))
    case Err(e) => Err(e)
  }

  lemma EncodeByKind(m: Mnemonic, line: string)
    requires RowOf(m).kind in {R, I, U}
    ensures RowOf(m).kind == R ==> Encode(m, line) == Packed(m, OperandsR(line))
    ensures RowOf(m).kind == I && !IsLoadStore(m) ==> Encode(m, line) == Packed(m, OperandsImm(line))
    ensures RowOf(m).kind == U ==> Encode(m, line) == Packed(m, OperandsU(line))
  {
    hide RowOf, IsLoadStore, OperandsR, OperandsImm, OperandsU, OperandsLoad, OperandsStore, OperandsB, Pack;
  }

  lemma ReadU(line: string, rd: string, imm: int)
    requires Sscanf(line, U_FORMAT) == Text(rd, Number(imm, NoMore)) && -0x8_0000 <= imm <= 0xF_FFFF
    ensures OperandsU(line) == match RegisterValue(rd) case Ok(d) => Ok(Operands(d, 0, 0, imm)) case Err(e) => Err(e)
  {
    hide RegisterValue, Sscanf, U_FORMAT;
  }

  lemma ReadI(line: string, rd: string, rs1: string, imm: int)
    requires Sscanf(line, I_FORMAT) == Text(rd, Text(rs1, Number(imm, NoMore))) && -0x800 <= imm <= 0x7FF
    ensures OperandsImm(line)
         == match Both(RegisterValue(rs1), RegisterValue(rd)) case Ok((s, d)) => Ok(Operands(d, s, 0, imm))
             case Err(e) => Err(e)
  {
    hide RegisterValue, Sscanf, I_FORMAT;
  }

  lemma ReadR(line: string, rd: string, rs2: string)
    requires Sscanf(line, R_FORMAT) == Text(rd, Text("zero", Text(rs2, NoMore)))
    ensures OperandsR(line)
         == match Both(RegisterValue(rs2), RegisterValue(rd)) case Ok((s, d)) => Ok(Operands(d, 0, s, 0))
             case Err(e) => Err(e)
  {
    ZeroRegister();
    hide RegisterValue, Sscanf, R_FORMAT;
  }

  lemma EncodeU(m: Mnemonic, rd: string, imm: int)
    requires m in {Lui, Auipc} && IsOperand(rd) && -0x8_0000 <= imm <= 0xF_FFFF
    ensures var r := Encode(m, LineU(m, rd, imm).line);
      match RegisterValue(rd)
      case Err(e) => r == Err(e)
      case Ok(d) =>
        r.Ok? && Isa.Decode(r.value)
                 == Some(if m == Lui then Isa.Lui(d, imm % 0x10_0000) else Isa.Auipc(d, imm % 0x10_0000))
  {
    hide RowOf, RegisterValue, LineU, Isa.Decode, Pack, OperandsU, Encode, Sscanf;
    var line := LineU(m, rd, imm).line;
    ExpansionRows(m);
    EncodeByKind(m, line);
    ReparseU(m, rd, imm);
    ReadU(line, rd, imm);
    if RegisterValue(rd).Ok? {
      DecodeU(m, RegisterValue(rd).value, imm);
    }
  }

  /** The operation of the immediate instructions that expansions use. */
  function ImmediateAlu(m: Mnemonic): Isa.Alu {
    match m
    case Xori => Isa.XOR
    case Sltiu => Isa.SLTU
    case _ => Isa.ADD
  }

  lemma EncodeI(m: Mnemonic, rd: string, rs1: string, imm: int)
    requires m in {Addi, Xori, Sltiu} && IsOperand(rd) && IsOperand(rs1) && -0x800 <= imm <= 0x7FF
    ensures var r := Encode(m, LineI(m, rd, rs1, imm).line);
      match Both(RegisterValue(rs1), RegisterValue(rd))
      case Err(e) => r == Err(e)
      case Ok((s, d)) => r.Ok? && Isa.Decode(r.value) == Some(Isa.OpImm(ImmediateAlu(m), d, s, imm))
  {
    ReparseI(m, rd, rs1, imm);
    EncodeScannedI(m, LineI(m, rd, rs1, imm).line, rd, rs1, imm);
  }

  lemma EncodeScannedI(m: Mnemonic, line: string, rd: string, rs1: string, imm: int)
    requires m in {Addi, Xori, Sltiu} && -0x800 <= imm <= 0x7FF
    requires Sscanf(line, I_FORMAT) == Text(rd, Text(rs1, Number(imm, NoMore)))
    ensures var r := Encode(m, line);
      match Both(RegisterValue(rs1), RegisterValue(rd))
      case Err(e) => r == Err(e)
      case Ok((s, d)) => r.Ok? && Isa.Decode(r.value) == Some(Isa.OpImm(ImmediateAlu(m), d, s, imm))
  {
    hide RowOf, RegisterValue, Isa.Decode, Pack, OperandsImm, Encode, Sscanf, IsLoadStore;
    ExpansionRows(m);
    EncodeByKind(m, line);
    ReadI(line, rd, rs1, imm);
    if RegisterValue(rd).Ok? && RegisterValue(rs1).Ok? {
      DecodeI(m, RegisterValue(rd).value, RegisterValue(rs1).value, imm);
    }
  }

  lemma EncodeR(m: Mnemonic, rd: string, rs2: string)
    requires m in {Sub, Sltu} && IsOperand(rd)
    requires 0 < |rs2| <= 4 && !IsSpace(rs2[0]) && forall i :: 0 <= i < |rs2| ==> rs2[i] !in "#\n"
    ensures var r := Encode(m, LineR(m, rd, "zero", rs2).line);
      match Both(RegisterValue(rs2), RegisterValue(rd))
      case Err(e) => r == Err(e)
      case Ok((s, d)) => r.Ok? && Isa.Decode(r.value) == Some(Isa.Op(if m == Sub then Isa.SUB else Isa.SLTU, d, 0, s))
  {
    hide RowOf, RegisterValue, LineR, Isa.Decode, Pack, OperandsR, Encode, Sscanf;
    ExpansionRows(m);
    ZeroRegister();
    ReparseR(m, rd, "zero", rs2);
    var line := LineR(m, rd, "zero", rs2).line;
    EncodeByKind(m, line);
    ReadR(line, rd, rs2);
    if RegisterValue(rd).Ok? && RegisterValue(rs2).Ok? {
      DecodeR(m, RegisterValue(rd).value, RegisterValue(rs2).value);
    }
  }

  lemma EncodeOne(x: Expanded)
    ensures var w, r := Encode(x.m, x.line), EncodeAll([x]);
      if w.Ok? then r.Ok? && r.value == [w.value] else r == Err(w.error)
  {
    hide Encode;
    assert [x][..0] == [];
    assert EncodeAll([x][..0]) == Ok([]);
  }

  lemma EncodeTwo(x: Expanded, y: Expanded)
    ensures var w, v, r := Encode(x.m, x.line), Encode(y.m, y.line), EncodeAll([x, y]);
      if w.Err? then r == Err(w.error)
      else if v.Err? then r == Err(v.error)
      else r.Ok? && r.value == [w.value, v.value]
  {
    hide Encode;
    assert [x, y][..1] == [x];
    EncodeOne(x);
  }

  // ----- li -----

  /** The instructions of `li`. */
  function LiCode(d: Reg, imm: int): seq<Isa.Instr> {
    if -0x800 <= imm <= 0x7FF then [Isa.OpImm(Isa.ADD, d, 0, imm)]
    else if Lo12(imm) != 0 then [Isa.Lui(d, Hi20(imm) % 0x10_0000), Isa.OpImm(Isa.ADD, d, d, Lo12(imm))]
    else [Isa.Lui(d, Hi20(imm) % 0x10_0000)]
  }

  lemma Int32Same(x: int)
    requires IsInt32(x)
    ensures ToInt32(x) == x
  {
    if x < 0 {
      ModAdd(x, 1, 0x1_0000_0000);
    }
  }

  /** Every `li` of a 32-bit value passes the encoder whenever its register does. */
  lemma LiEncodes(rd: string, imm: int)
    requires IsOperand(rd) && IsInt32(imm)
    ensures match RegisterValue(rd)
      case Err(e) => EncodeAll(LiLines(rd, imm)) == Err(e)
      case Ok(d) => EncodeAll(LiLines(rd, imm)).Ok? && Isa.DecodesTo(EncodeAll(LiLines(rd, imm)).value, LiCode(d, imm))
  {
    Int32Same(imm);
    if -0x800 <= imm <= 0x7FF {
      LiOneAddi(rd, imm);
    } else {
      SplitFits(imm);
      UpperEncodes(Lui, rd, Hi20(imm));
      UpperLowerEncodes(Lui, rd, Hi20(imm), Lo12(imm));
      hide RegisterValue, EncodeAll, LineI, LineU, Isa.Decode, Lo12, Hi20, ToInt32;
    }
  }

  lemma LiOneAddi(rd: string, imm: int)
    requires IsOperand(rd) && -0x800 <= imm <= 0x7FF
    ensures var r := EncodeAll([LineI(Addi, rd, "zero", imm)]);
      match RegisterValue(rd)
      case Err(e) => r == Err(e)
      case Ok(d) => r.Ok? && Isa.DecodesTo(r.value, [Isa.OpImm(Isa.ADD, d, 0, imm)])
  {
    ZeroRegister();
    hide RegisterValue, Encode, LineI, Isa.Decode, EncodeAll;
    EncodeI(Addi, rd, "zero", imm);
    EncodeOne(LineI(Addi, rd, "zero", imm));
  }

  /** The instruction of a U-type line. */
  function UpperCode(m: Mnemonic, d: Reg, hi: int): Isa.Instr {
    if m == Lui then Isa.Lui(d, hi % 0x10_0000) else Isa.Auipc(d, hi % 0x10_0000)
  }

  lemma UpperEncodes(m: Mnemonic, rd: string, hi: int)
    requires m in {Lui, Auipc} && IsOperand(rd) && -0x8_0000 <= hi <= 0xF_FFFF
    ensures var r := EncodeAll([LineU(m, rd, hi)]);
      match RegisterValue(rd)
      case Err(e) => r == Err(e)
      case Ok(d) => r.Ok? && Isa.DecodesTo(r.value, [UpperCode(m, d, hi)])
  {
    hide RegisterValue, Encode, LineU, Isa.Decode, EncodeAll;
    EncodeU(m, rd, hi);
    EncodeOne(LineU(m, rd, hi));
  }

  lemma UpperLowerEncodes(m: Mnemonic, rd: string, hi: int, lo: int)
    requires m in {Lui, Auipc} && IsOperand(rd) && -0x8_0000 <= hi <= 0xF_FFFF && -0x800 <= lo <= 0x7FF
    ensures var r := EncodeAll([LineU(m, rd, hi), LineI(Addi, rd, rd, lo)]);
      match RegisterValue(rd)
      case Err(e) => r == Err(e)
      case Ok(d) => r.Ok? && Isa.DecodesTo(r.value, [UpperCode(m, d, hi), Isa.OpImm(Isa.ADD, d, d, lo)])
  {
    hide RegisterValue, Encode, LineU, LineI, Isa.Decode, EncodeAll;
    EncodeU(m, rd, hi);
    EncodeI(Addi, rd, rd, lo);
    EncodeTwo(LineU(m, rd, hi), LineI(Addi, rd, rd, lo));
  }

  /** Running the expansion of `li` puts the value in the register and changes nothing else. */
  lemma LiRuns(d: Reg, imm: int, s: Isa.State)
    requires IsInt32(imm)
    ensures Isa.ExecuteAll(LiCode(d, imm), s) == Some(s.Set(d, ToWord(imm)).Skip(4 * |LiCode(d, imm)|))
  {
    SplitFits(imm);
    UpperField(imm);
    hide Lo12, Hi20, ToWord;
    var upper, lower := Isa.Lui(d, Hi20(imm) % 0x10_0000), Isa.OpImm(Isa.ADD, d, d, Lo12(imm));
    if -0x800 <= imm <= 0x7FF {
      Isa.ExecuteOne(Isa.OpImm(Isa.ADD, d, 0, imm), s);
      AddZero(imm);
    } else if Lo12(imm) == 0 {
      Isa.ExecuteOne(upper, s);
    } else {
      Isa.ExecuteTwo(upper, lower, s);
      TwoStep(d, ToWord(imm - Lo12(imm)), Lo12(imm), s);
    }
  }

  lemma AddZero(imm: int)
    ensures ToWord(0 + ToWord(imm)) == ToWord(imm)
  {
    ToWordAdds(imm, 0);
  }

  /** A register set to `a`, then increased by an immediate. */
  lemma TwoStep(d: Reg, a: Word, lo: int, s: Isa.State)
    ensures Isa.Execute(Isa.OpImm(Isa.ADD, d, d, lo), s.Set(d, a).Skip(4)) == Some(s.Set(d, ToWord(a + lo)).Skip(8))
  {
    var t := s.Set(d, a).Skip(4);
    AddWords(a, lo);
    ToWordAdds(s.pc + 4, 4);
    if d != 0 {
      assert t.Get(d) == a;
      assert s.regs[d := a][d := ToWord(a + lo)] == s.regs[d := ToWord(a + lo)];
    }
  }

  lemma AddWords(a: Word, lo: int)
    ensures ToWord(a + ToWord(lo)) == ToWord(a + lo)
  {
    ToWordAdds(lo, a);
  }

  /** `li` is as short as `lui` and `addi` allow: one instruction exactly when one suffices. */
  lemma LiShortest(d: Reg, imm: int, s: Isa.State)
    requires IsInt32(imm) && d != 0
    ensures |LiCode(d, imm)| == 1 <==> (-0x800 <= imm <= 0x7FF || imm % 0x1000 == 0)
    ensures |LiCode(d, imm)| == 2 ==>
      && (forall n :: -0x800 <= n <= 0x7FF ==> Isa.Execute(Isa.OpImm(Isa.ADD, d, 0, n), s).value.Get(d) != ToWord(imm))
      && (forall u :: 0 <= u < 0x10_0000 ==> Isa.Execute(Isa.Lui(d, u), s).value.Get(d) != ToWord(imm))
  {
    SplitFits(imm);
    if |LiCode(d, imm)| == 2 {
      hide Lo12, Hi20, LiCode;
      forall n | -0x800 <= n <= 0x7FF
        ensures Isa.Execute(Isa.OpImm(Isa.ADD, d, 0, n), s).value.Get(d) != ToWord(imm)
      {
        AddZero(n);
        DifferentWords(n, imm);
      }
      forall u | 0 <= u < 0x10_0000
        ensures Isa.Execute(Isa.Lui(d, u), s).value.Get(d) != ToWord(imm)
      {
        NotUpper(u, imm);
      }
    }
  }

  lemma DifferentWords(a: int, b: int)
    requires IsInt32(a) && IsInt32(b) && a != b
    ensures ToWord(a) != ToWord(b)
  {
    Int32Same(a);
    Int32Same(b);
  }

  lemma NotUpper(u: int, imm: int)
    requires imm % 0x1000 != 0
    ensures ToWord(u * 0x1000) != ToWord(imm)
  {
    LowBits(imm, 0x1000, 0x10_0000);
    LowBits(u * 0x1000, 0x1000, 0x10_0000);
    ModAdd(0, u, 0x1000);
  }

  // ----- la -----

  /** The distance from `pc` to `target` as `int32_t`. */
  function Distance(target: Word, pc: Word): int {
    ToInt32(target - Signed(pc))
  }

  /** The instructions of `la`. */
  function LaCode(d: Reg, distance: int): seq<Isa.Instr> {
    [Isa.Auipc(d, Hi20(distance) % 0x10_0000), Isa.OpImm(Isa.ADD, d, d, Lo12(distance))]
  }

  lemma Int32Range(x: int)
    ensures IsInt32(ToInt32(x)) && ToWord(ToInt32(x)) == ToWord(x)
  {
    var w := ToWord(x);
    hide ToWord;
    WordOfSigned(w);
  }

  lemma WordOfSigned(w: Word)
    ensures ToWord(Signed(w)) == w
  {
    if w >= 0x8000_0000 {
      ModAdd(w, -1, 0x1_0000_0000);
    }
  }

  /** Every `la` of every symbol passes the encoder whenever its register does. */
  lemma LaEncodes(rd: string, target: Word, pc: Word)
    requires IsOperand(rd)
    ensures var r := EncodeAll(LaLines(rd, target, pc));
      match RegisterValue(rd)
      case Err(e) => r == Err(e)
      case Ok(d) => r.Ok? && Isa.DecodesTo(r.value, LaCode(d, Distance(target, pc)))
  {
    var x := Distance(target, pc);
    Int32Range(target - Signed(pc));
    SplitFits(x);
    UpperLowerEncodes(Auipc, rd, Hi20(x), Lo12(x));
    hide RegisterValue, EncodeAll, LineI, LineU, Isa.Decode, Lo12, Hi20, ToInt32;
  }

  /** Running the expansion of `la` at `pc` puts the target address in the register. */
  lemma LaRuns(d: Reg, target: Word, s: Isa.State)
    ensures Isa.ExecuteAll(LaCode(d, Distance(target, s.pc)), s) == Some(s.Set(d, target).Skip(8))
  {
    hide Lo12, Hi20, ToWord, Distance, Isa.ExecuteAll, Isa.State.Set, Isa.State.Skip;
    var x := Distance(target, s.pc);
    Arrives(target, s.pc);
    AuipcAddi(d, Hi20(x) % 0x10_0000, Lo12(x), s);
  }

  lemma AuipcAddi(d: Reg, u: int, lo: int, s: Isa.State)
    ensures Isa.ExecuteAll([Isa.Auipc(d, u), Isa.OpImm(Isa.ADD, d, d, lo)], s)
         == Some(s.Set(d, ToWord(ToWord(s.pc + u * 0x1000) + lo)).Skip(8))
  {
    hide Isa.Execute, Isa.ExecuteAll, ToWord, Isa.State.Set, Isa.State.Skip;
    AuipcStep(d, u, s);
    Isa.ExecuteTwo(Isa.Auipc(d, u), Isa.OpImm(Isa.ADD, d, d, lo), s);
    TwoStep(d, ToWord(s.pc + u * 0x1000), lo, s);
  }

  lemma AuipcStep(d: Reg, u: int, s: Isa.State)
    ensures Isa.Execute(Isa.Auipc(d, u), s) == Some(s.Set(d, ToWord(s.pc + u * 0x1000)).Skip(4))
  {
  }

  /** The address `auipc` and `addi` arrive at: pc + (x - lo) + lo. */
  lemma Arrives(target: Word, pc: Word)
    ensures var x := Distance(target, pc);
      ToWord(ToWord(pc + Hi20(x) % 0x10_0000 * 0x1000) + Lo12(x)) == target
  {
    hide Lo12, Hi20, ToWord, Distance;
    var x := Distance(target, pc);
    DistanceReaches(target, pc);
    UpperField(x);
    var u, lo := Hi20(x) % 0x10_0000 * 0x1000, Lo12(x);
    ToWordAdds(u, pc);
    ToWordAdds(x - lo, pc);
    ToWordAdds(pc + (x - lo), lo);
  }

  lemma DistanceReaches(target: Word, pc: Word)
    ensures ToWord(pc + Distance(target, pc)) == target
    ensures IsInt32(Distance(target, pc))
  {
    hide ToInt32, ToWord;
    WordItself(target);
    Int32Range(target - Signed(pc));
    WordOfSigned(pc);
    ToWordAdds(Distance(target, pc), pc);
    ToWordAdds(target - Signed(pc), pc);
    ToWordAdds(Signed(pc), target - Signed(pc));
  }

  // ----- the pseudo-instructions with one register source -----

  function PairCode(m: Mnemonic, d: Reg, s: Reg): Isa.Instr
    requires IsPair(m)
  {
    match m
    case Mv => Isa.OpImm(Isa.ADD, d, s, 0)
    case Not => Isa.OpImm(Isa.XOR, d, s, -1)
    case Seqz => Isa.OpImm(Isa.SLTU, d, s, 1)
    case Neg => Isa.Op(Isa.SUB, d, 0, s)
    case Snez => Isa.Op(Isa.SLTU, d, 0, s)
  }

  /** What the ISA manual, chapter 25, says the destination receives. */
  function PairValue(m: Mnemonic, v: Word): Word
    requires IsPair(m)
  {
    match m
    case Mv => v
    case Not => 0xFFFF_FFFF - v
    case Seqz => if v == 0 then 1 else 0
    case Neg => if v == 0 then 0 else 0x1_0000_0000 - v
    case Snez => if v != 0 then 1 else 0
  }

  lemma PairRuns(m: Mnemonic, d: Reg, s: Reg, st: Isa.State)
    requires IsPair(m)
    ensures Isa.ExecuteAll([PairCode(m, d, s)], st) == Some(st.Set(d, PairValue(m, st.Get(s))).Skip(4))
  {
    PairComputes(m, st.Get(s));
    Isa.ExecuteOne(PairCode(m, d, s), st);
    hide Isa.Compute, PairValue;
  }

  lemma PairComputes(m: Mnemonic, v: Word)
    requires IsPair(m)
    ensures match PairCode(m, 0, 0)
      case OpImm(alu, _, _, imm) => Isa.Compute(alu, v, ToWord(imm)) == PairValue(m, v)
      case Op(alu, _, _, _) => Isa.Compute(alu, 0, v) == PairValue(m, v)
      case _ => false
  {
    hide Bitwise32, Pow2;
    if m == Not {
      Complement(v);
    }
  }

  lemma Complement(v: Word)
    ensures Isa.Compute(Isa.XOR, v, ToWord(-1)) == 0xFFFF_FFFF - v
  {
    assert ToWord(-1) == 0xFFFF_FFFF;
    hide Bitwise32;
    XorAllOnes(v);
  }

  /** An operand as `%4[^#\n]` leaves it. */
  predicate IsSource(rs: string) {
    0 < |rs| <= 4 && !IsSpace(rs[0]) && forall i :: 0 <= i < |rs| ==> rs[i] !in "#\n"
  }

  /** The machine instruction and constant of the pseudo-instructions that expand to an immediate line. */
  function ImmediateForm(m: Mnemonic): (Mnemonic, int) {
    if m == Mv then (Addi, 0) else if m == Not then (Xori, -1) else (Sltiu, 1)
  }

  lemma PairImmediate(m: Mnemonic, rd: string, rs: string)
    requires m in {Mv, Not, Seqz} && IsOperand(rd) && IsOperand(rs)
    ensures var r := EncodeAll(PairLine(m, rd, rs).value);
      match Both(RegisterValue(rs), RegisterValue(rd))
      case Err(e) => r == Err(e)
      case Ok((s, d)) => r.Ok? && Isa.DecodesTo(r.value, [PairCode(m, d, s)])
  {
    hide RegisterValue, Encode, LineI, LineR, Isa.Decode, EncodeAll, IsOperand;
    var (i, k) := ImmediateForm(m);
    EncodeI(i, rd, rs, k);
    EncodeOne(LineI(i, rd, rs, k));
  }

  lemma PairRegister(m: Mnemonic, rd: string, rs: string)
    requires m in {Neg, Snez} && IsOperand(rd) && IsSource(rs)
    ensures var r := EncodeAll(PairLine(m, rd, rs).value);
      match Both(RegisterValue(rs), RegisterValue(rd))
      case Err(e) => r == Err(e)
      case Ok((s, d)) => r.Ok? && Isa.DecodesTo(r.value, [PairCode(m, d, s)])
  {
    hide RegisterValue, Encode, LineI, LineR, Isa.Decode, EncodeAll, IsOperand;
    var i := if m == Neg then Sub else Sltu;
    EncodeR(i, rd, rs);
    EncodeOne(LineR(i, rd, "zero", rs));
  }

  /** With a comma-free source operand each expansion is assembled to its instruction. */
  lemma PairEncodes(m: Mnemonic, rd: string, rs: string)
    requires IsPair(m) && IsOperand(rd) && IsSource(rs)
    requires m in {Mv, Not, Seqz} ==> ',' !in rs
    ensures var r := EncodeAll(PairLine(m, rd, rs).value);
      match Both(RegisterValue(rs), RegisterValue(rd))
      case Err(e) => r == Err(e)
      case Ok((s, d)) => r.Ok? && Isa.DecodesTo(r.value, [PairCode(m, d, s)])
  {
    hide RegisterValue, PairLine, Isa.DecodesTo, EncodeAll, PairCode;
    if m in {Mv, Not, Seqz} {
      PairImmediate(m, rd, rs);
    } else {
      PairRegister(m, rd, rs);
    }
  }
}
