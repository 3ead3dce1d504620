/**
  Writing programs in the assembler's syntax: every operand combination the encoder accepts can be
  written and is read back as it was, and so are labels, lists of integers and filled space.
 */
module Printing {
  import opened Bits
  import opened CText
  import opened Errors
  import opened InstructionTable
  import opened Encoder
  import opened Encoding
  import opened Pseudo
  import opened Expansions
  import opened Storage
  import opened DataDirectives
  import opened Passes
  import opened Notation
  import opened Numerals
  import Isa
  import SymbolTable

  // ----- registers -----

  /** The ABI name of a register, table 25.1 of the manual. */
  function RegName(r: Reg): string {
    if r == 0 then "zero"
    else if r == 1 then "ra"
    else if r == 2 then "sp"
    else if r == 3 then "gp"
    else if r == 4 then "tp"
    else if r < 8 then "t" + Decimal(r - 5)
    else if r < 10 then "s" + Decimal(r - 8)
    else if r < 18 then "a" + Decimal(r - 10)
    else if r < 28 then "s" + Decimal(r - 16)
    else "t" + Decimal(r - 25)
  }

  /** A spelling of a register that can stand anywhere in a line. */
  predicate IsPlain(s: string) {
    0 < |s| <= 4 && forall i :: 0 <= i < |s| ==> 'a' <= s[i] <= 'z' || '0' <= s[i] <= '9'
  }

  lemma ShortDecimal(n: nat)
    requires n < 100
    ensures |Decimal(n)| <= 2
  {
    if n >= 10 {
      assert Decimal(n) == Decimal(n / 10) + [DigitChar(n % 10)];
    }
  }

  lemma ScanDigitsDecimal(n: nat)
    ensures ScanDigits(Decimal(n), 10) == Some((n, ""))
  {
    var d := Decimal(n);
    hide Decimal, Numeral;
    DigitRunAll(d, "", 10);
    assert d + "" == d;
    NumeralDecimal(n);
    assert d[..|d|] == d && d[|d|..] == "";
  }

  lemma ScanByteDecimal(n: nat)
    requires n < 100
    ensures ScanByte(Decimal(n)) == Some(n)
  {
    hide Decimal, ScanByte, ScanDigits;
    ScanDigitsDecimal(n);
    ScanUnsigned(Decimal(n), n);
  }

  lemma ScanUnsigned(d: string, n: nat)
    requires d != "" && '0' <= d[0] <= '9' && n < 0x100
    requires ScanDigits(d, 10) == Some((n, ""))
    ensures ScanByte(d) == Some(n)
  {
    hide ScanDigits, SkipSpace;
    SkipNone(d);
    assert d[0] != '-' && d[0] != '+';
  }

  lemma WholeRegister(s: string)
    requires IsPlain(s)
    ensures RegisterValue(s) == NamedRegister(s)
  {
    hide NamedRegister;
    assert SkipSpace(s) == s;
    SpanAll(s, "", " \t\r\n");
    assert s + "" == s && s[..|s|] == s;
  }

  lemma NumberedPlain(c: char, n: nat)
    requires 'a' <= c <= 'z' && n < 100
    ensures IsPlain([c] + Decimal(n)) && ([c] + Decimal(n))[0] == c && ([c] + Decimal(n))[1..] == Decimal(n)
    ensures |[c] + Decimal(n)| > 1 && '0' <= ([c] + Decimal(n))[1] <= '9'
  {
    ShortDecimal(n);
    var s, d := [c] + Decimal(n), Decimal(n);
    assert s[1..] == d && s[1] == d[0];
    forall i | 0 <= i < |s|
      ensures 'a' <= s[i] <= 'z' || '0' <= s[i] <= '9'
    {
      assert i > 0 ==> s[i] == d[i - 1];
    }
  }

  /** Numbered register names: `x0` to `x31`, `a0` to `a7`, `s0` to `s11` and `t0` to `t6`. */
  lemma NumberedRegister(c: char, n: nat)
    requires (c == 'x' && n < 32) || (c == 'a' && n < 8) || (c == 's' && n < 12) || (c == 't' && n < 7)
    ensures IsPlain([c] + Decimal(n))
    ensures RegisterValue([c] + Decimal(n))
         == Ok(if c == 'x' then n else if c == 'a' then n + 10
               else if c == 's' then (if n < 2 then n + 8 else n + 16) else (if n < 3 then n + 5 else n + 25))
  {
    var s := [c] + Decimal(n);
    hide RegisterValue, Decimal, ScanByte, IsPlain;
    NumberedPlain(c, n);
    WholeRegister(s);
    ScanByteDecimal(n);
  }

  lemma FixedNames()
    ensures IsPlain("ra") && IsPlain("sp") && IsPlain("gp") && IsPlain("tp") && IsPlain("zero")
    ensures RegisterValue("ra") == Ok(1) && RegisterValue("sp") == Ok(2) && RegisterValue("gp") == Ok(3)
    ensures RegisterValue("tp") == Ok(4) && RegisterValue("zero") == Ok(0)
  {
    hide RegisterValue, ScanByte;
    WholeRegister("ra");
    WholeRegister("sp");
    WholeRegister("gp");
    WholeRegister("tp");
    WholeRegister("zero");
  }

  /** Every register is read back from its ABI name and from its number. */
  lemma RegisterNames(r: Reg)
    ensures IsPlain(RegName(r)) && RegisterValue(RegName(r)) == Ok(r)
    ensures RegisterValue("x" + Decimal(r)) == Ok(r)
  {
    hide RegisterValue, IsPlain, Decimal;
    FixedNames();
    NumberedRegister('x', r);
    if r >= 28 {
      NumberedRegister('t', r - 25);
    } else if r >= 18 {
      NumberedRegister('s', r - 16);
    } else if r >= 10 {
      NumberedRegister('a', r - 10);
    } else if r >= 8 {
      NumberedRegister('s', r - 8);
    } else if r >= 5 {
      NumberedRegister('t', r - 5);
    }
  }

  lemma PlainOperand(s: string)
    requires IsPlain(s)
    ensures IsOperand(s) && forall i :: 0 <= i < |s| ==> s[i] !in "#\n" && s[i] !in ")"
  {
  }

  // ----- lines -----

  const PLAIN := Spacing(" ", " ", " ", "", "")

  function Printed(n: int): Literal {
    Literal(PrintInt(n), n)
  }

  /** The operands of an instruction, with registers by their ABI names. */
  function FormOf(m: Mnemonic, o: Operands): Form {
    match RowOf(m).kind
    case R => Registers(RegName(o.rd), RegName(o.rs1), RegName(o.rs2))
    case I =>
      if IsLoadStore(m) then Offset(RegName(o.rd), Printed(o.imm), RegName(o.rs1))
      else Numbered(RegName(o.rd), RegName(o.rs1), Printed(o.imm))
    case S => Offset(RegName(o.rs2), Printed(o.imm), RegName(o.rs1))
    case B => Numbered(RegName(o.rs1), RegName(o.rs2), Printed(o.imm))
    case U => Upper(RegName(o.rd), Printed(o.imm))
    case _ => Bare
  }

  /** An instruction as an assembly line. */
  function Show(m: Mnemonic, o: Operands): string {
    FormLine(m, FormOf(m, o), PLAIN)
  }

  lemma NameOperand(r: Reg)
    ensures IsOperand(RegName(r)) && IsFinal(RegName(r)) && IsBaseRegister(RegName(r)) && RegOf(RegName(r)) == r
    ensures RegisterValue(RegName(r)) == Ok(r)
  {
    hide RegisterValue;
    RegisterNames(r);
    NameLetter(r);
    hide RegName;
    PlainOperand(RegName(r));
  }

  lemma NameLetter(r: Reg)
    ensures RegName(r) != "" && 'a' <= RegName(r)[0] <= 'z'
  {
  }

  lemma PrintedOk(n: int)
    requires IsLong(n)
    ensures LiteralOk(Printed(n))
  {
    PrintedSpells(n);
  }

  lemma PlainThree(f: Form)
    ensures f.Registers? ==> FormText(f, PLAIN) == " " + f.a + ", " + f.b + ", " + f.c
    ensures f.Numbered? ==> FormText(f, PLAIN) == " " + f.a + ", " + f.b + ", " + f.n.text
  {
  }

  lemma PlainOffset(f: Form)
    ensures f.Offset? ==> FormText(f, PLAIN) == " " + f.a + ", " + f.n.text + "(" + f.base + ")"
  {
  }

  lemma PlainTwo(f: Form)
    ensures f.Pair? ==> FormText(f, PLAIN) == " " + f.a + ", " + f.b
    ensures f.Upper? ==> FormText(f, PLAIN) == " " + f.a + ", " + f.n.text
    ensures f.Symbolic? ==> FormText(f, PLAIN) == " " + f.a + ", " + f.name
    ensures f.Bare? ==> FormText(f, PLAIN) == ""
  {
  }

  /** A line with single blanks. */
  lemma PlainText(m: Mnemonic, f: Form)
    ensures FormLine(m, f, PLAIN) == NameOf(m) +
      match f
      case Bare => ""
      case Registers(a, b, c) => " " + a + ", " + b + ", " + c
      case Numbered(a, b, n) => " " + a + ", " + b + ", " + n.text
      case Offset(a, n, base) => " " + a + ", " + n.text + "(" + base + ")"
      case Pair(a, b) => " " + a + ", " + b
      case Upper(a, n) => " " + a + ", " + n.text
      case Symbolic(a, name) => " " + a + ", " + name
  {
    hide NameOf, FormText;
    PlainThree(f);
    PlainOffset(f);
    PlainTwo(f);
  }

  lemma PlainSpacing(f: Form)
    ensures SpacingOk(f, PLAIN)
  {
  }

  lemma ShownOperands(m: Mnemonic, o: Operands)
    requires Accepted(m, o)
    ensures OperandsOk(FormOf(m, o)) && Fits(m, FormOf(m, o)) && RegistersOk(FormOf(m, o))
  {
    hide RegName, RegisterValue, IsFinal, IsOperand, IsBaseRegister, LiteralOk, PrintInt, RegOf, RowOf;
    NameOperand(o.rd);
    NameOperand(o.rs1);
    NameOperand(o.rs2);
    PrintedOk(o.imm);
  }

  lemma ShownRoles(m: Mnemonic, o: Operands)
    requires Accepted(m, o)
    ensures FormOperands(m, FormOf(m, o)) == o
  {
    hide RegName, RegisterValue, PrintInt, RegOf, IsFinal, IsOperand, IsBaseRegister, RowOf;
    NameOperand(o.rd);
    NameOperand(o.rs1);
    NameOperand(o.rs2);
  }

  /** Every instruction with operands the encoder accepts is read back as it was written. */
  lemma ShowParses(m: Mnemonic, o: Operands)
    requires Accepted(m, o)
    ensures ParseOperands(m, Show(m, o)) == Ok(o)
  {
    hide ParseOperands, FormLine, FormOf, OperandsOk, SpacingOk, Fits, RegistersOk, FormOperands, Accepted, RowOf;
    NotPseudo(m, o);
    PlainSpacing(FormOf(m, o));
    ShownOperands(m, o);
    ShownRoles(m, o);
    FormParses(m, FormOf(m, o), PLAIN);
  }

  /** A load or store of a register alone: the other register holds the address, and the offset is zero. */
  lemma ImplicitOffset(m: Mnemonic, r: Reg, base: Reg)
    requires IsLoadStore(m)
    ensures ParseOperands(m, NameOf(m) + " " + RegName(r) + ", " + RegName(base))
         == Ok(if RowOf(m).kind == S then Operands(0, base, r, 0) else Operands(r, base, 0, 0))
  {
    hide RegName, RegisterValue, IsFinal, IsOperand, IsBaseRegister, RegOf, RowOf, IsLoadStore, NameOf, ParseOperands,
         FormLine, SpacingOk, FormResult;
    LoadStoreRows(m);
    NameOperand(r);
    NameOperand(base);
    var f := Pair(RegName(r), RegName(base));
    PlainSpacing(f);
    FormParses(m, f, PLAIN);
    PlainText(m, f);
    assert NameOf(m) + (" " + RegName(r) + ", " + RegName(base)) == NameOf(m) + " " + RegName(r) + ", " + RegName(base);
    PairResult(m, RegName(r), RegName(base));
  }

  lemma PairResult(m: Mnemonic, a: string, b: string)
    requires RowOf(m).kind in {I, S} && RegisterValue(a).Ok? && RegisterValue(b).Ok?
    ensures FormResult(m, Pair(a, b))
         == Ok(if RowOf(m).kind == S then Operands(0, RegOf(b), RegOf(a), 0) else Operands(RegOf(a), RegOf(b), 0, 0))
  {
    hide RegisterValue, RowOf;
  }

  lemma LoadStoreRows(m: Mnemonic)
    requires IsLoadStore(m)
    ensures RowOf(m).kind in {I, S}
  {
  }

  /**
    Assembling what was written: the word decodes to the instruction written, the two families of
    right shifts that are misencoded apart.
   */
  lemma ShowAssembles(m: Mnemonic, o: Operands)
    requires Accepted(m, o)
    ensures Encode(m, Show(m, o)).Ok?
    ensures Isa.Decode(Encode(m, Show(m, o)).value) == Named(m, o) <==> !Misencoded(m, o.imm)
  {
    hide Show, ParseOperands, Accepted, RowOf, Pack, Isa.Decode, Named;
    NotPseudo(m, o);
    ShowParses(m, o);
    DecodesToNamed(m, o);
  }

  // ----- whole lines -----

  /** The mnemonic of a line is found at its start. */
  lemma NameFound(m: Mnemonic, rest: string)
    requires rest == "" || IsSpace(rest[0])
    ensures Sscanf(NameOf(m) + rest, LINE_NAME_FORMAT) == Text(NameOf(m), NoMore)
  {
    hide NameOf, Sscanf, SkipSpace, TokenRun;
    var name, t := NameOf(m), NameOf(m) + rest;
    NameShape(m);
    NameIsWord(m);
    assert t[0] == name[0] && t[..|name|] == name;
    SkipNone(t);
    TokenRunAll(name, rest);
    SameName(t);
  }

  lemma ShowHead(m: Mnemonic, o: Operands) returns (rest: string)
    ensures Show(m, o) == NameOf(m) + rest && (rest == "" || IsSpace(rest[0]))
  {
    hide NameOf, RegName, PrintInt;
    rest := FormText(FormOf(m, o), PLAIN);
    assert PLAIN.first[0] == ' ';
  }

  /** A written instruction is a text line that assembles to its one word at every offset. */
  lemma ShowText(env: Env, offset: nat, m: Mnemonic, o: Operands)
    requires Accepted(m, o)
    ensures RowOf(m).kind != P
    ensures TextWords(env, offset, Show(m, o)).Ok? && TextWords(env, offset, Show(m, o)).value == [Pack(m, o)]
  {
    hide Show, NameOf, FindInstruction, ParseOperands, Pack, Accepted, RowOf, Sscanf, Expand;
    NotPseudo(m, o);
    var rest := ShowHead(m, o);
    NameFound(m, rest);
    FindByName(m);
    ShowParses(m, o);
  }
}
