/**
  The source operand of `mv`, `not` and `seqz` is read up to a comment, so it may contain a comma,
  and the printed line is then read back with a different immediate. This file says exactly when.
 */
module Commas {
  import opened CText
  import opened Errors
  import opened InstructionTable
  import opened Encoder
  import opened Pseudo
  import opened Expansions
  import Isa

  /** How a printed line with a comma inside its source operand is scanned. */
  lemma ScanComma(m: Mnemonic, rd: string, rs: string, imm: int)
    requires IsOperand(rd) && IsSource(rs) && ',' in rs
    ensures var p := Span(rs, ",");
      && p < |rs| && rs[p] == ','
      && Sscanf(LineI(m, rd, rs, imm).line, I_FORMAT)
         == Text(rd, if p == 0 then NoMore
                     else Text(rs[..p], Sscanf(rs[p + 1..] + "," + (" " + PrintInt(imm)), Blank(Integer(End)))))
  {
    hide Sscanf, NameOf, PrintInt, Span, LineI, IsSource;
    var p := Span(rs, ",");
    SpanStops(rs, ",");
    NameIsWord(m);
    var last := " " + PrintInt(imm);
    var tail := rs[p + 1..] + "," + last;
    var rest := " " + rs[..p] + "," + tail;
    LineParts(m, rd, rs, imm, p);
    ScanSource(rs, p, tail);
    ScanHead(NameOf(m), rd, rest, Blank(Until(4, ",", Exact(',', Blank(Integer(End))))));
  }

  /** The source operand ends at its first comma. */
  lemma ScanSource(rs: string, p: nat, tail: string)
    requires IsSource(rs) && p == Span(rs, ",") < |rs|
    ensures Sscanf(" " + rs[..p] + "," + tail, Blank(Until(4, ",", Exact(',', Blank(Integer(End))))))
         == if p == 0 then NoMore else Text(rs[..p], Sscanf(tail, Blank(Integer(End))))
  {
    hide Sscanf;
    SpanStops(rs, ",");
    if p == 0 {
      assert " " + rs[..p] + "," + tail == " " + ("," + tail);
      NoOperand(tail, Exact(',', Blank(Integer(End))));
    } else {
      assert rs[..p][0] == rs[0];
      ScanOperand(rs[..p], tail, Blank(Integer(End)));
    }
  }

  lemma LineParts(m: Mnemonic, rd: string, rs: string, imm: int, p: nat)
    requires p < |rs| && rs[p] == ','
    ensures LineI(m, rd, rs, imm).line
         == NameOf(m) + " " + rd + "," + (" " + rs[..p] + "," + (rs[p + 1..] + "," + (" " + PrintInt(imm))))
  {
    hide NameOf, PrintInt;
    assert rs == rs[..p] + "," + rs[p + 1..];
  }

  lemma NoOperand(tail: string, next: Format)
    ensures Sscanf(" " + ("," + tail), Blank(Until(4, ",", next))) == NoMore
  {
    var t := "," + tail;
    ScanBlank(t, Until(4, ",", next));
    assert t[0] == ',';
    assert Span(t, ",") == 0;
  }

  predicate IsDigit(c: char) {
    '0' <= c <= '9'
  }

  /** At most one character before a comma is a number exactly when it is a digit. */
  lemma ShortTail(tail: string, rest: string)
    requires |tail| <= 1
    ensures Sscanf(tail + "," + rest, Blank(Integer(End)))
         == if tail != "" && IsDigit(tail[0]) then Number(DigitValue(tail[0]), NoMore) else NoMore
  {
    hide ScanSigned, SkipSpace, ScanMagnitude;
    var s := tail + "," + rest;
    var after := "," + rest;
    NoNumber(after);
    SkipNone(after);
    if tail == "" {
      assert s == after;
    } else {
      assert s == [tail[0]] + after;
      if IsSpace(tail[0]) {
        assert s[0..] == s && s[1..] == after;
        SkipOne(s, 0);
      } else {
        SkipNone(s);
        OneDigit(tail[0], after);
      }
    }
  }

  lemma NoNumber(after: string)
    requires after != "" && after[0] == ','
    ensures ScanMagnitude(after) == None && ScanSigned(after) == None
  {
  }

  lemma OneNumeral(c: char, base: nat)
    ensures Numeral([c], base) == DigitValue(c)
  {
    assert [c][..0] == "";
    assert Numeral("", base) * base == 0;
  }

  lemma OneDigit(c: char, after: string)
    requires after != "" && after[0] == ',' && !IsSpace(c)
    ensures ScanSigned([c] + after) == if IsDigit(c) then Some((DigitValue(c), after)) else None
  {
    hide Numeral;
    var s := [c] + after;
    assert s[0] == c && s[1] == ',' && s[1..] == after;
    NoNumber(after);
    if IsDigit(c) {
      DigitRunAll([c], after, 10);
      if c == '0' {
        DigitRunAll([c], after, 8);
      }
      assert s[..1] == [c];
      OneNumeral(c, 10);
      OneNumeral(c, 8);
    }
  }

  lemma OneCharacter(r: string)
    requires |r| == 1
    ensures RegisterValue(r).Err?
  {
    assert ScanByte("") == None;
    assert r[1..] == "";
  }

  lemma OneNamed(r: string)
    requires |r| == 1
    ensures NamedRegister(r).Err?
  {
    assert ScanByte("") == None;
    assert r[1..] == "";
    hide ScanByte;
  }

  lemma TwoCharacters(r: string)
    requires |r| == 2 && !IsSpace(r[0])
    ensures RegisterValue(r).Ok? ==> Span(r, " \t\r\n") == 2
  {
    var n := Span(r, " \t\r\n");
    assert SkipSpace(r) == r;
    hide Span, SkipSpace, NamedRegister;
    if n == 1 {
      OneNamed(r[..1]);
    }
  }

  lemma NoByte(s: string)
    requires |s| == 3 && s[1] == ','
    ensures ScanByte(s) == None
  {
    var t, u := SkipSpace(s), s[1..];
    NoDigits(u);
    SkipNone(u);
    if IsSpace(s[0]) {
      SkipOne(s, 0);
      assert s[0..] == s;
      hide SkipSpace, ScanDigits;
      assert t == u;
    } else {
      SkipNone(s);
      hide SkipSpace, Numeral;
      assert t == s;
      assert DigitRun(s, 10) <= 1;
    }
  }

  lemma NoDigits(u: string)
    requires u != "" && u[0] == ','
    ensures DigitRun(u, 10) == 0 && ScanDigits(u, 10) == None
  {
  }

  /** An operand of the shape `r?,d` names no register. */
  lemma CommaNamesNothing(rs: string)
    requires |rs| == 4 && !IsSpace(rs[0]) && rs[2] == ',' && IsDigit(rs[3])
    requires RegisterValue(rs[..2]).Ok?
    ensures RegisterValue(rs).Err?
  {
    hide RegisterValue, NamedRegister, Span, SkipSpace;
    TwoCharacters(rs[..2]);
    WholeSpan(rs);
    NamedComma(rs);
    WholeWord(rs);
  }

  lemma WholeWord(rs: string)
    requires |rs| == 4 && SkipSpace(rs) == rs && Span(rs, " \t\r\n") == 4
    ensures RegisterValue(rs) == NamedRegister(rs)
  {
    hide Span, SkipSpace, NamedRegister;
    assert rs[..4] == rs;
  }

  lemma NoRegisterIn(s: string, last: nat)
    requires |s| == 3 && s[1] == ','
    ensures RegisterIn(s, last) == Err(InvalidRegister)
  {
    hide ScanByte;
    NoByte(s);
  }

  lemma NamedComma(rs: string)
    requires |rs| == 4 && rs[2] == ','
    ensures NamedRegister(rs).Err?
  {
    hide ScanByte, RegisterIn;
    NoRegisterIn(rs[1..], 31);
    NoRegisterIn(rs[1..], 7);
    NoRegisterIn(rs[1..], 11);
    NoRegisterIn(rs[1..], 6);
  }

  lemma NotStop(c: char)
    requires !IsSpace(c)
    ensures c !in " \t\r\n"
  {
  }

  lemma WholeSpan(rs: string)
    requires |rs| == 4 && !IsSpace(rs[0]) && rs[2] == ',' && IsDigit(rs[3])
    requires Span(rs[..2], " \t\r\n") == 2
    ensures SkipSpace(rs) == rs && Span(rs, " \t\r\n") == 4
  {
    assert SkipSpace(rs) == rs;
    hide Span, SkipSpace;
    NotStop(rs[0]);
    assert rs[1] == rs[..2][1];
    NotStop(rs[2]);
    NotStop(rs[3]);
    SpanAll(rs, "", " \t\r\n");
    assert rs + "" == rs;
  }

  /**
    When the encoder accepts an immediate line whose source operand contains a comma, the operand
    is a two-character register, a comma and a digit, and the digit is the immediate.
   */
  lemma CommaAccepted(m: Mnemonic, rd: string, rs: string, imm: int)
    requires m in {Addi, Xori, Sltiu} && IsOperand(rd) && IsSource(rs) && ',' in rs
    requires Encode(m, LineI(m, rd, rs, imm).line).Ok?
    ensures |rs| == 4 && rs[2] == ',' && IsDigit(rs[3])
    ensures RegisterValue(rd).Ok? && RegisterValue(rs[..2]).Ok? && RegisterValue(rs).Err?
    ensures Isa.Decode(Encode(m, LineI(m, rd, rs, imm).line).value)
         == Some(Isa.OpImm(ImmediateAlu(m), RegisterValue(rd).value, RegisterValue(rs[..2]).value, DigitValue(rs[3])))
  {
    hide RegisterValue, LineI, Sscanf, Encode, Isa.Decode, Span, IsSource;
    CommaScanned(m, rd, rs, imm);
    EncodeScannedI(m, LineI(m, rd, rs, imm).line, rd, rs[..2], DigitValue(rs[3]));
    CommaNamesNothing(rs);
  }

  /** How an accepted line with a comma in its source operand was scanned. */
  lemma CommaScanned(m: Mnemonic, rd: string, rs: string, imm: int)
    requires m in {Addi, Xori, Sltiu} && IsOperand(rd) && IsSource(rs) && ',' in rs
    requires Encode(m, LineI(m, rd, rs, imm).line).Ok?
    ensures |rs| == 4 && rs[2] == ',' && IsDigit(rs[3]) && !IsSpace(rs[0])
    ensures Sscanf(LineI(m, rd, rs, imm).line, I_FORMAT) == Text(rd, Text(rs[..2], Number(DigitValue(rs[3]), NoMore)))
  {
    hide RegisterValue, LineI, Sscanf, Encode, RowOf, IsLoadStore, Pack, Span, OperandsImm, PrintInt;
    ExpansionRows(m);
    ScanComma(m, rd, rs, imm);
    OneBeforeComma(m, rd, rs, imm);
    EncodeByKind(m, LineI(m, rd, rs, imm).line);
    NeedsThree(LineI(m, rd, rs, imm).line);
    if Span(rs, ",") > 1 {
      TailAfterComma(rs, Span(rs, ","), " " + PrintInt(imm));
    }
  }

  /** What is read after a comma at `p`: a digit, when that is the last of the four characters. */
  lemma TailAfterComma(rs: string, p: nat, last: string)
    requires 1 < p < |rs| <= 4 && rs[p] == ','
    ensures var more := Sscanf(rs[p + 1..] + "," + last, Blank(Integer(End)));
      more != NoMore ==> |rs| == 4 && p == 2 && IsDigit(rs[3]) && more == Number(DigitValue(rs[3]), NoMore)
  {
    hide Sscanf;
    ShortTail(rs[p + 1..], last);
    assert p == 2 && |rs| == 4 ==> rs[p + 1..] == [rs[3]];
  }

  /** A one-character operand before the comma names no register. */
  lemma OneBeforeComma(m: Mnemonic, rd: string, rs: string, imm: int)
    requires m in {Addi, Xori, Sltiu} && IsOperand(rd) && IsSource(rs) && ',' in rs
    ensures Span(rs, ",") == 1 ==> Encode(m, LineI(m, rd, rs, imm).line).Err?
  {
    hide RegisterValue, LineI, Sscanf, Encode, RowOf, IsLoadStore, Pack, Span, OperandsImm;
    var line := LineI(m, rd, rs, imm).line;
    ExpansionRows(m);
    ScanComma(m, rd, rs, imm);
    EncodeByKind(m, line);
    if Span(rs, ",") == 1 {
      OneCharacter(rs[..1]);
      BadSource(line, rd, rs[..1]);
    }
  }

  lemma NeedsThree(line: string)
    ensures OperandsImm(line).Ok? ==>
      match Sscanf(line, I_FORMAT) case Text(_, Text(_, Number(_, NoMore))) => true case _ => false
  {
    hide Sscanf, RegisterValue;
  }

  lemma BadSource(line: string, rd: string, rs1: string)
    requires RegisterValue(rs1).Err?
    requires match Sscanf(line, I_FORMAT) case Text(_, Text(s, _)) => s == rs1 case _ => true
    ensures OperandsImm(line).Err?
  {
    hide Sscanf, RegisterValue;
  }

  /** A two-character register contains no comma. */
  lemma RegisterHasNoComma(r: string)
    requires |r| == 2 && !IsSpace(r[0]) && RegisterValue(r).Ok?
    ensures r[0] != ',' && r[1] != ','
  {
    hide Span, RegisterValue, NamedRegister;
    TwoCharacters(r);
    ShortRegister(r);
    NamedHasNoComma(r);
  }

  lemma ShortRegister(r: string)
    requires |r| == 2 && !IsSpace(r[0]) && Span(r, " \t\r\n") == 2
    ensures RegisterValue(r) == NamedRegister(r)
  {
    hide Span, SkipSpace, NamedRegister;
    SkipNone(r);
    assert r[..2] == r;
  }

  lemma NamedHasNoComma(r: string)
    requires |r| == 2 && NamedRegister(r).Ok?
    ensures r[0] != ',' && r[1] != ','
  {
    hide ScanByte;
    CommaDigits(r[1..]);
  }

  lemma CommaDigits(s: string)
    requires |s| == 1
    ensures s[0] == ',' ==> ScanByte(s) == None
  {
    if s[0] == ',' {
      SkipNone(s);
      NoDigits(s);
    }
  }

  /** The operands with a comma that are accepted. */
  predicate CommaOperand(rs: string) {
    |rs| == 4 && rs[2] == ',' && IsDigit(rs[3]) && RegisterValue(rs[..2]).Ok?
  }

  /** The encoder accepts an immediate line whose source operand contains a comma in exactly one case. */
  lemma CommaExactly(m: Mnemonic, rd: string, rs: string, imm: int)
    requires m in {Addi, Xori, Sltiu} && IsOperand(rd) && IsSource(rs) && ',' in rs
    ensures Encode(m, LineI(m, rd, rs, imm).line).Ok? <==> CommaOperand(rs) && RegisterValue(rd).Ok?
  {
    hide RegisterValue, LineI, Sscanf, Encode, Span, IsSource;
    if Encode(m, LineI(m, rd, rs, imm).line).Ok? {
      CommaAccepted(m, rd, rs, imm);
    }
    if CommaOperand(rs) && RegisterValue(rd).Ok? {
      CommaRead(m, rd, rs, imm);
      EncodeScannedI(m, LineI(m, rd, rs, imm).line, rd, rs[..2], DigitValue(rs[3]));
    }
  }

  lemma CommaRead(m: Mnemonic, rd: string, rs: string, imm: int)
    requires IsOperand(rd) && IsSource(rs) && ',' in rs && CommaOperand(rs)
    ensures Sscanf(LineI(m, rd, rs, imm).line, I_FORMAT) == Text(rd, Text(rs[..2], Number(DigitValue(rs[3]), NoMore)))
  {
    hide RegisterValue, LineI, Sscanf, Span, PrintInt, Decimal;
    assert rs[0] == rs[..2][0] && rs[1] == rs[..2][1];
    RegisterHasNoComma(rs[..2]);
    assert Span(rs, ",") == 2 by {
      TwoBefore(rs);
    }
    ScanComma(m, rd, rs, imm);
    assert rs[3..][0] == rs[3];
    ShortTail(rs[3..], " " + PrintInt(imm));
    assert rs[3..] + "," + (" " + PrintInt(imm)) == rs[3..] + "," + " " + PrintInt(imm);
  }

  lemma TwoBefore(rs: string)
    requires |rs| > 2 && rs[0] != ',' && rs[1] != ',' && rs[2] == ','
    ensures Span(rs, ",") == 2
  {
    assert rs[1..][0] == rs[1] && rs[2..][0] == rs[2] && rs[1..][1..] == rs[2..];
    assert Span(rs[2..], ",") == 0;
    assert Span(rs[1..], ",") == 1;
  }
}
