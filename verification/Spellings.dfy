/**
  The operands the assembler takes for registers: exactly which spellings are accepted, and for
  which register each stands.
 */
module Spellings {
  import opened CText
  import opened Errors
  import opened Encoder

  // ----- numbers -----

  predicate AllDecimal(s: string) {
    forall i :: 0 <= i < |s| ==> DigitValue(s[i]) < 10
  }

  /** White space, a sign and at least one digit; the number counts modulo 256. */
  predicate ByteParts(u: string, blanks: string, sign: string, digits: string, n: nat) {
    && u == blanks + sign + digits
    && AllBlank(blanks) && sign in {"", "+", "-"} && digits != "" && AllDecimal(digits)
    && n == (if sign == "-" then 0 - Numeral(digits, 10) else Numeral(digits, 10)) % 256
  }

  lemma {:induction false} DigitRunDigits(s: string)
    ensures forall i :: 0 <= i < DigitRun(s, 10) ==> DigitValue(s[i]) < 10
  {
    if s != "" && DigitValue(s[0]) < 10 {
      DigitRunDigits(s[1..]);
    }
  }

  /** All digits of a string read as a number. */
  lemma ReadDigits(s: string)
    ensures ScanDigits(s, 10).Some? && ScanDigits(s, 10).value.1 == "" <==> s != "" && AllDecimal(s)
    ensures s != "" && AllDecimal(s) ==> ScanDigits(s, 10) == Some((Numeral(s, 10), ""))
  {
    hide Numeral;
    DigitRunDigits(s);
    if AllDecimal(s) {
      DigitRunAll(s, "", 10);
      assert s + "" == s;
    }
    assert s[..|s|] == s;
    if DigitRun(s, 10) < |s| {
      assert s[DigitRun(s, 10)..] != "";
    }
  }

  /** A string read without white space: what sign and digits it consists of. */
  lemma SignedDigits(t: string, n: nat) returns (sign: string, digits: string)
    requires ScanByte(t) == Some(n) && SkipSpace(t) == t
    ensures ByteParts(t, "", sign, digits, n)
  {
    hide ScanDigits, Numeral, SkipSpace, AllDecimal;
    sign := if t != "" && (t[0] == '-' || t[0] == '+') then t[..1] else "";
    digits := t[|sign|..];
    ReadDigits(digits);
    assert sign == "" || sign == [t[0]];
    assert t == "" + sign + digits;
  }

  lemma ByteOfParts(sign: string, digits: string, n: nat)
    requires ByteParts(sign + digits, "", sign, digits, n)
    ensures ScanByte(sign + digits) == Some(n) && !IsSpace((sign + digits)[0])
  {
    hide ScanDigits, Numeral, SkipSpace;
    var t := sign + digits;
    ReadDigits(digits);
    assert DigitValue(digits[0]) < 10;
    assert t[0] == if sign == "" then digits[0] else sign[0];
    SkipNone(t);
    assert sign != "" ==> t[1..] == digits;
    assert sign == "" ==> t == digits;
  }

  lemma SkippedByte(u: string)
    ensures ScanByte(u) == ScanByte(SkipSpace(u))
  {
    SkipNone(SkipSpace(u));
  }

  /** `%hhu` to the end of the string reads exactly such numbers. */
  lemma ByteRead(u: string, n: nat)
    ensures ScanByte(u) == Some(n) <==> exists blanks, sign, digits :: ByteParts(u, blanks, sign, digits, n)
  {
    hide ScanByte, Numeral;
    SkippedByte(u);
    if ScanByte(u) == Some(n) {
      var blanks := SkippedBlanks(u);
      SkipNone(SkipSpace(u));
      var sign, digits := SignedDigits(SkipSpace(u), n);
      assert u == blanks + sign + digits;
      assert ByteParts(u, blanks, sign, digits, n);
    }
    if blanks, sign, digits :| ByteParts(u, blanks, sign, digits, n) {
      assert sign + digits == "" + sign + digits;
      ByteOfParts(sign, digits, n);
      BlanksSkipped(blanks, sign + digits);
      assert u == blanks + (sign + digits);
    }
  }

  // ----- registers -----

  /** The register a letter and a number name: `x0` to `x31`, `a0` to `a7`, `s0` to `s11`, `t0` to `t6`. */
  function Numbered(c: char, n: nat): Option<Reg> {
    if c == 'x' && n < 32 then Some(n)
    else if c == 'a' && n < 8 then Some(n + 10)
    else if c == 's' && n < 12 then Some(if n < 2 then n + 8 else n + 16)
    else if c == 't' && n < 7 then Some(if n < 3 then n + 5 else n + 25)
    else None
  }

  /** A letter and a number the assembler reads. */
  ghost predicate SpellsNumbered(w: string, r: Reg)
    requires w != ""
  {
    exists blanks, sign, digits, n: nat ::
      ByteParts(w[1..], blanks, sign, digits, n) && Numbered(w[0], n) == Some(r)
  }

  /** A fixed name, or a letter and a number. */
  ghost predicate SpellsRegister(w: string, r: Reg) {
    || (w == "zero" && r == 0) || (w == "ra" && r == 1) || (w == "sp" && r == 2) || (w == "gp" && r == 3)
    || (w == "tp" && r == 4)
    || (w != "" && SpellsNumbered(w, r))
  }

  lemma NoLetter(u: string)
    requires u != "" && 'a' <= u[0] <= 'z'
    ensures ScanByte(u) == None
  {
    SkipNone(u);
  }

  /** The switch of the register parser, by letter and number. */
  lemma RegisterNamedExactly(w: string, r: Reg)
    requires w != ""
    ensures NamedRegister(w) == Ok(r) <==>
      || (w == "zero" && r == 0) || (w == "ra" && r == 1) || (w == "sp" && r == 2) || (w == "gp" && r == 3)
      || (w == "tp" && r == 4)
      || (ScanByte(w[1..]).Some? && Numbered(w[0], ScanByte(w[1..]).value) == Some(r))
  {
    hide ScanByte;
    if |w| > 1 && 'a' <= w[1] <= 'z' {
      NoLetter(w[1..]);
    }
  }

  lemma SpellsByNumber(w: string, r: Reg)
    requires w != ""
    ensures SpellsNumbered(w, r)
       <==> (ScanByte(w[1..]).Some? && Numbered(w[0], ScanByte(w[1..]).value) == Some(r))
  {
    hide ScanByte, ByteParts, Numbered;
    var u := w[1..];
    if ScanByte(u).Some? {
      ByteRead(u, ScanByte(u).value);
    }
    forall blanks, sign, digits, n: nat | ByteParts(u, blanks, sign, digits, n)
      ensures ScanByte(u) == Some(n)
    {
      ByteRead(u, n);
    }
  }

  /** The first word of an operand. */
  function FirstWord(reg: string): string {
    var start := SkipSpace(reg);
    start[..Span(start, " \t\r\n")]
  }

  /**
    An operand is accepted for a register exactly when its first word has one to four characters and
    spells it. A number counts modulo 256 and may have a sign or leading zeros: `x+5` is accepted
    for `x5`, and `x256` for `x0`.
   */
  lemma AcceptedSpellings(reg: string, r: Reg)
    ensures RegisterValue(reg) == Ok(r) <==> 0 < |FirstWord(reg)| <= 4 && SpellsRegister(FirstWord(reg), r)
  {
    hide NamedRegister, ByteParts, Numbered, SkipSpace, Span;
    var w := FirstWord(reg);
    if w != "" {
      RegisterNamedExactly(w, r);
      SpellsByNumber(w, r);
    }
  }
}
