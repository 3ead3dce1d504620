/**
  The ways a line of the text segment may be written: operands with their blanks, numbers in any
  base and sign, an offset or none, and a comment after the last operand. Scanning such a line
  gives its operands, or the error that its operands deserve.
 */
module Notation {
  import opened Bits
  import opened CText
  import opened Numerals
  import opened Errors
  import opened InstructionTable
  import opened Encoder
  import opened Encoding
  import opened Pseudo
  import opened Expansions

  /** A number and the text it is written as. */
  datatype Literal = Literal(text: string, value: int)

  /** The operands of a line as they are written. */
  datatype Form =
    | Bare
    | Registers(a: string, b: string, c: string)          // a, b, c
    | Numbered(a: string, b: string, n: Literal)          // a, b, n
    | Offset(a: string, n: Literal, base: string)         // a, n(base)
    | Pair(a: string, b: string)                          // a, b
    | Upper(a: string, n: Literal)                        // a, n
    | Symbolic(a: string, name: string)                      // a, name

  /** White space before each operand, and what may stand after the last. */
  datatype Spacing = Spacing(first: string, second: string, third: string, last: string, comment: string)

  // ----- the text of a line -----

  function Rest(g: Spacing): string {
    g.last + g.comment
  }

  /** What follows the mnemonic. */
  function FormText(f: Form, g: Spacing): string {
    match f
    case Bare => Rest(g)
    case Registers(a, b, c) =>
      g.first + (a + ("," + (g.second + (b + ("," + (g.third + (c + Rest(g))))))))
    case Numbered(a, b, n) =>
      g.first + (a + ("," + (g.second + (b + ("," + (g.third + (n.text + Rest(g))))))))
    case Offset(a, n, base) =>
      g.first + (a + ("," + (g.second + (n.text + ("(" + (base + (")" + Rest(g))))))))
    case Pair(a, b) => g.first + (a + ("," + (g.second + (b + Rest(g)))))
    case Upper(a, n) => g.first + (a + ("," + (g.second + (n.text + Rest(g)))))
    case Symbolic(a, name) => g.first + (a + ("," + (g.second + (name + Rest(g)))))
  }

  function FormLine(m: Mnemonic, f: Form, g: Spacing): string {
    NameOf(m) + FormText(f, g)
  }

  predicate IsLong(v: int) {
    -0x8000_0000_0000_0000 <= v <= 0x7FFF_FFFF_FFFF_FFFF
  }

  predicate LiteralOk(n: Literal) {
    Spells(n.text, n.value) && IsLong(n.value)
  }

  /** A last operand: at most four characters, the first a letter. */
  predicate IsFinal(r: string) {
    0 < |r| <= 4 && 'a' <= r[0] <= 'z' && forall i :: 0 <= i < |r| ==> r[i] !in ",#\n"
  }

  predicate IsBaseRegister(r: string) {
    0 < |r| <= 4 && ')' !in r
  }

  predicate IsWord(s: string) {
    0 < |s| <= 511 && forall i :: 0 <= i < |s| ==> s[i] !in BLANKS
  }

  predicate OperandsOk(f: Form) {
    match f
    case Bare => true
    case Registers(a, b, c) => IsOperand(a) && IsOperand(b) && IsFinal(c)
    case Numbered(a, b, n) => IsOperand(a) && IsOperand(b) && LiteralOk(n)
    case Offset(a, n, base) => IsOperand(a) && LiteralOk(n) && IsBaseRegister(base)
    case Pair(a, b) => IsOperand(a) && IsFinal(b)
    case Upper(a, n) => IsOperand(a) && LiteralOk(n)
    case Symbolic(a, name) => IsOperand(a) && IsWord(name)
  }

  /** Blanks where they may stand, at least one after the mnemonic and before the comment after a word. */
  predicate SpacingOk(f: Form, g: Spacing) {
    && AllBlank(g.first) && AllBlank(g.second) && AllBlank(g.third)
    && (forall i :: 0 <= i < |g.last| ==> g.last[i] in " \t")
    && (g.comment == "" || g.comment[0] == '#')
    && (!f.Bare? ==> g.first != "")
    && (f.Bare? || f.Symbolic? ==> g.comment == "" || g.last != "")
  }

  predicate FormOk(f: Form, g: Spacing) {
    OperandsOk(f) && SpacingOk(f, g)
  }

  // ----- scanning its parts -----

  lemma BlankFirst(gap: string, t: string)
    requires AllBlank(gap) && gap != ""
    ensures IsSpace((gap + t)[0])
  {
    SpaceIsBlank(gap[0]);
  }

  /** `%*s` takes the mnemonic. */
  lemma ScanMnemonic(m: Mnemonic, text: string, next: Format)
    requires text == "" || IsSpace(text[0])
    ensures Sscanf(NameOf(m) + text, SkipWord(next)) == Sscanf(text, next)
  {
    hide NameOf;
    NameIsWord(m);
    var t := NameOf(m) + text;
    assert t[0] == NameOf(m)[0];
    SkipNone(t);
    TokenRunAll(NameOf(m), text);
    assert t[|NameOf(m)|..] == text;
  }

  lemma ScanGap(gap: string, t: string, next: Format)
    requires AllBlank(gap) && (t == "" || !IsSpace(t[0]))
    ensures Sscanf(gap + t, Blank(next)) == Sscanf(t, next)
  {
    BlanksSkipped(gap, t);
  }

  /** An operand before a comma. */
  lemma ScanField(gap: string, a: string, rest: string, next: Format)
    requires AllBlank(gap) && IsOperand(a)
    ensures Sscanf(gap + (a + ("," + rest)), Blank(Until(4, ",", Exact(',', next)))) == Text(a, Sscanf(rest, next))
  {
    var tail, f := "," + rest, Exact(',', next);
    assert (a + tail)[0] == a[0];
    hide Span, SkipSpace, AllBlank;
    ScanGap(gap, a + tail, Until(4, ",", f));
    ScanUntil(a, tail, 4, ",", f);
    assert tail[1..] == rest;
  }

  /** What follows a number does not belong to it. */
  lemma NumberStops(s: string, rest: string)
    requires rest == "" || rest[0] in " \t#("
    ensures Complete(s, rest)
  {
  }

  /** A number, before a character that cannot belong to it. */
  lemma ScanLiteral(gap: string, n: Literal, rest: string, next: Format)
    requires AllBlank(gap) && LiteralOk(n) && Complete(Magnitude(n.text), rest)
    ensures Sscanf(gap + (n.text + rest), Blank(Integer(next))) == Number(n.value, Sscanf(rest, next))
  {
    hide ScanSigned, Spells, Complete, Magnitude, AllBlank;
    ScanSpelling(n.text, n.value, n.value, rest);
    var t := n.text + rest;
    assert t[0] == n.text[0];
    ScanGap(gap, t, Integer(next));
    SkipNone(t);
    hide SkipSpace;
  }

  /** What `%4[^#\n]` leaves of a last operand before blanks and a comment. */
  function Cut(c: string, last: string): string {
    (c + last)[..Min(4, |c + last|)]
  }

  lemma SpanLast(t: string, comment: string)
    requires (forall i :: 0 <= i < |t| ==> t[i] !in "#\n") && (comment == "" || comment[0] == '#')
    ensures Span(t + comment, "#\n") == |t|
  {
    SpanAll(t, comment, "#\n");
  }

  lemma ScanFinal(gap: string, c: string, g: Spacing)
    requires AllBlank(gap) && IsFinal(c) && SpacingOk(Bare, g.(comment := ""))
        && (g.comment == "" || g.comment[0] == '#')
    ensures Sscanf(gap + (c + Rest(g)), Blank(Until(4, "#\n", End))) == Text(Cut(c, g.last), NoMore)
  {
    var t := c + Rest(g);
    assert t == (c + g.last) + g.comment;
    SpanLast(c + g.last, g.comment);
    assert t[0] == c[0];
    hide Span, SkipSpace, AllBlank;
    ScanGap(gap, t, Until(4, "#\n", End));
    assert t[..Min(4, |c + g.last|)] == Cut(c, g.last);
  }

  /** The blanks that `%4[^#\n]` takes along do not change the register. */
  lemma CutRegister(c: string, last: string)
    requires IsFinal(c) && forall i :: 0 <= i < |last| ==> last[i] in " \t"
    ensures RegisterValue(Cut(c, last)) == RegisterValue(c)
    ensures IsSource(Cut(c, last)) && ',' !in Cut(c, last)
  {
    var r := Cut(c, last);
    assert r[0] == c[0] && c <= r;
    SkipNone(r);
    SkipNone(c);
    FirstWordCut(c, r);
    hide NamedRegister, SkipSpace, Span;
  }

  lemma FirstWordCut(c: string, r: string)
    requires c <= r && c != "" && (forall i :: |c| <= i < |r| ==> r[i] in " \t")
    ensures Span(r, " \t\r\n") == Span(c, " \t\r\n") && r[..Span(c, " \t\r\n")] == c[..Span(c, " \t\r\n")]
  {
    var n := Span(c, " \t\r\n");
    SpanStops(c, " \t\r\n");
    assert r[..n] == c[..n] && r == r[..n] + r[n..];
    assert n < |r| ==> r[n] in " \t\r\n";
    SpanAll(r[..n], r[n..], " \t\r\n");
  }

  lemma ScanOffsetBase(n: Literal, base: string, gap: string, rest: string)
    requires AllBlank(gap) && LiteralOk(n) && IsBaseRegister(base)
    ensures Sscanf(gap + (n.text + ("(" + (base + (")" + rest)))),
            Blank(Integer(Exact('(', Until(4, ")", Exact(')', End))))))
         == Number(n.value, Text(base, NoMore))
  {
    var u := base + (")" + rest);
    var f := Until(4, ")", Exact(')', End));
    NumberStops(Magnitude(n.text), "(" + u);
    hide Span, Complete, Spells, Magnitude, AllBlank, SkipSpace;
    ScanLiteral(gap, n, "(" + u, Exact('(', f));
    assert ("(" + u)[1..] == u;
    ScanUntil(base, ")" + rest, 4, ")", Exact(')', End));
  }

  /** A register is no number. */
  lemma NoNumberAt(b: string, rest: string, gap: string, next: Format)
    requires AllBlank(gap) && b != "" && 'a' <= b[0] <= 'z'
    ensures Sscanf(gap + (b + rest), Blank(Integer(next))) == NoMore
  {
    var t := b + rest;
    assert t[0] == b[0];
    ScanGap(gap, t, Integer(next));
    SkipNone(t);
    assert DigitRun(t, 10) == 0;
    assert ScanMagnitude(t) == None;
  }

  lemma ScanName(gap: string, name: string, rest: string)
    requires AllBlank(gap) && IsWord(name) && (rest == "" || IsSpace(rest[0]))
    ensures Sscanf(gap + (name + rest), Blank(Word(511, End))) == Text(name, NoMore)
  {
    var t := name + rest;
    forall i | 0 <= i < |name|
      ensures !IsSpace(name[i])
    {
      SpaceIsBlank(name[i]);
    }
    assert t[0] == name[0];
    TokenRunAll(name, rest);
    hide TokenRun, AllBlank, IsSpace;
    ScanGap(gap, t, Word(511, End));
    SkipNone(t);
    assert t[..|name|] == name;
  }

  // ----- scanning a line -----

  lemma StartsBlank(f: Form, g: Spacing)
    requires FormOk(f, g)
    ensures FormText(f, g) == "" || IsSpace(FormText(f, g)[0])
  {
    if f.Bare? {
      assert g.last != "" ==> Rest(g)[0] == g.last[0];
    } else {
      hide AllBlank, OperandsOk, Rest;
      assert FormText(f, g)[0] == g.first[0];
      BlankFirst(g.first, "");
      assert g.first + "" == g.first;
    }
  }

  lemma RegistersScanned(m: Mnemonic, f: Form, g: Spacing)
    requires FormOk(f, g) && f.Registers?
    ensures Sscanf(FormLine(m, f, g), R_FORMAT) == Text(f.a, Text(f.b, Text(Cut(f.c, g.last), NoMore)))
  {
    StartsBlank(f, g);
    hide NameOf, Sscanf, AllBlank, IsOperand, IsFinal, Rest;
    var last := g.third + (f.c + Rest(g));
    var second := g.second + (f.b + ("," + last));
    ScanMnemonic(m, FormText(f, g), Blank(Until(4, ",", Exact(',', Blank(Until(4, ",", Exact(',',
                 Blank(Until(4, "#\n", End)))))))));
    ScanField(g.first, f.a, second, Blank(Until(4, ",", Exact(',', Blank(Until(4, "#\n", End))))));
    ScanField(g.second, f.b, last, Blank(Until(4, "#\n", End)));
    ScanFinal(g.third, f.c, g);
  }

  lemma NumberedScanned(m: Mnemonic, f: Form, g: Spacing)
    requires FormOk(f, g) && f.Numbered?
    ensures Sscanf(FormLine(m, f, g), I_FORMAT) == Text(f.a, Text(f.b, Number(f.n.value, NoMore)))
  {
    StartsBlank(f, g);
    RestEnds(f, g);
    NumberStops(Magnitude(f.n.text), Rest(g));
    hide NameOf, Sscanf, AllBlank, IsOperand, LiteralOk, Rest, Complete, Magnitude;
    var last := g.third + (f.n.text + Rest(g));
    var second := g.second + (f.b + ("," + last));
    ScanMnemonic(m, FormText(f, g), Blank(Until(4, ",", Exact(',', Blank(Until(4, ",", Exact(',',
                 Blank(Integer(End)))))))));
    ScanField(g.first, f.a, second, Blank(Until(4, ",", Exact(',', Blank(Integer(End))))));
    ScanField(g.second, f.b, last, Blank(Integer(End)));
    ScanLiteral(g.third, f.n, Rest(g), End);
    assert Sscanf(Rest(g), End) == NoMore by {
      NothingMore(Rest(g));
    }
  }

  lemma NothingMore(s: string)
    ensures Sscanf(s, End) == NoMore
  {
  }

  lemma RestEnds(f: Form, g: Spacing)
    requires SpacingOk(f, g)
    ensures Rest(g) == "" || Rest(g)[0] in " \t#"
  {
    assert g.last != "" ==> Rest(g)[0] == g.last[0];
  }

  lemma OffsetScanned(m: Mnemonic, f: Form, g: Spacing)
    requires FormOk(f, g) && f.Offset?
    ensures Sscanf(FormLine(m, f, g), OFFSET_FORMAT) == Text(f.a, Number(f.n.value, Text(f.base, NoMore)))
  {
    StartsBlank(f, g);
    hide NameOf, Sscanf, AllBlank, IsOperand, LiteralOk, Rest, IsBaseRegister;
    var next := Blank(Integer(Exact('(', Until(4, ")", Exact(')', End)))));
    var second := g.second + (f.n.text + ("(" + (f.base + (")" + Rest(g)))));
    ScanMnemonic(m, FormText(f, g), Blank(Until(4, ",", Exact(',', next))));
    ScanField(g.first, f.a, second, next);
    ScanOffsetBase(f.n, f.base, g.second, Rest(g));
  }

  /** Two registers: as a pair, and as no offset. */
  lemma PairScanned(m: Mnemonic, f: Form, g: Spacing)
    requires FormOk(f, g) && f.Pair?
    ensures Sscanf(FormLine(m, f, g), PAIR_FORMAT) == Text(f.a, Text(Cut(f.b, g.last), NoMore))
    ensures Sscanf(FormLine(m, f, g), OFFSET_FORMAT) == Text(f.a, NoMore)
  {
    StartsBlank(f, g);
    assert 'a' <= f.b[0] <= 'z';
    hide NameOf, Sscanf, AllBlank, IsOperand, IsFinal, Rest;
    var next := Blank(Integer(Exact('(', Until(4, ")", Exact(')', End)))));
    var second := g.second + (f.b + Rest(g));
    ScanMnemonic(m, FormText(f, g), Blank(Until(4, ",", Exact(',', next))));
    ScanMnemonic(m, FormText(f, g), Blank(Until(4, ",", Exact(',', Blank(Until(4, "#\n", End))))));
    ScanField(g.first, f.a, second, next);
    ScanField(g.first, f.a, second, Blank(Until(4, "#\n", End)));
    ScanFinal(g.second, f.b, g);
    NoNumberAt(f.b, Rest(g), g.second, Exact('(', Until(4, ")", Exact(')', End))));
  }

  lemma UpperScanned(m: Mnemonic, f: Form, g: Spacing)
    requires FormOk(f, g) && f.Upper?
    ensures Sscanf(FormLine(m, f, g), U_FORMAT) == Text(f.a, Number(f.n.value, NoMore))
  {
    StartsBlank(f, g);
    RestEnds(f, g);
    NumberStops(Magnitude(f.n.text), Rest(g));
    hide NameOf, Sscanf, AllBlank, IsOperand, LiteralOk, Rest, Complete, Magnitude;
    var second := g.second + (f.n.text + Rest(g));
    ScanMnemonic(m, FormText(f, g), Blank(Until(4, ",", Exact(',', Blank(Integer(End))))));
    ScanField(g.first, f.a, second, Blank(Integer(End)));
    ScanLiteral(g.second, f.n, Rest(g), End);
    assert Sscanf(Rest(g), End) == NoMore by {
      NothingMore(Rest(g));
    }
  }

  lemma SymbolicScanned(m: Mnemonic, f: Form, g: Spacing)
    requires FormOk(f, g) && f.Symbolic?
    ensures Sscanf(FormLine(m, f, g), LA_FORMAT) == Text(f.a, Text(f.name, NoMore))
  {
    StartsBlank(f, g);
    assert Rest(g) == "" || IsSpace(Rest(g)[0]) by {
      assert g.last != "" ==> Rest(g)[0] == g.last[0];
    }
    hide NameOf, Sscanf, AllBlank, IsOperand, IsWord, Rest;
    var second := g.second + (f.name + Rest(g));
    ScanMnemonic(m, FormText(f, g), Blank(Until(4, ",", Exact(',', Blank(Word(511, End))))));
    ScanField(g.first, f.a, second, Blank(Word(511, End)));
    ScanName(g.second, f.name, Rest(g));
  }

  // ----- the operands of a line -----

  /** The operands a mnemonic takes. */
  predicate Fits(m: Mnemonic, f: Form) {
    match RowOf(m).kind
    case R => f.Registers?
    case I => if IsLoadStore(m) then f.Offset? || f.Pair? else f.Numbered?
    case S => f.Offset? || f.Pair?
    case B => f.Numbered?
    case U => f.Upper?
    case Z => f.Bare?
    case P => if m == Li then f.Upper? else if m == La then f.Symbolic? else if m == Nop then f.Bare? else f.Pair?
  }

  predicate RegistersOk(f: Form) {
    match f
    case Bare => true
    case Registers(a, b, c) => RegisterValue(a).Ok? && RegisterValue(b).Ok? && RegisterValue(c).Ok?
    case Numbered(a, b, _) => RegisterValue(a).Ok? && RegisterValue(b).Ok?
    case Offset(a, _, base) => RegisterValue(a).Ok? && RegisterValue(base).Ok?
    case Pair(a, b) => RegisterValue(a).Ok? && RegisterValue(b).Ok?
    case Upper(a, _) => RegisterValue(a).Ok?
    case Symbolic(a, _) => RegisterValue(a).Ok?
  }

  /** The register an operand names; zero when there is none. */
  function RegOf(r: string): Reg {
    match RegisterValue(r)
    case Ok(n) => n
    case Err(_) => 0
  }

  /** The operands of a line, in the roles its format gives them: a store reads its first register
      and a branch compares both; without an offset the offset is zero. */
  function FormOperands(m: Mnemonic, f: Form): Operands {
    var kind := RowOf(m).kind;
    match f
    case Bare => Operands(0, 0, 0, 0)
    case Registers(a, b, c) => Operands(RegOf(a), RegOf(b), RegOf(c), 0)
    case Numbered(a, b, n) =>
      if kind == B then Operands(0, RegOf(a), RegOf(b), n.value) else Operands(RegOf(a), RegOf(b), 0, n.value)
    case Offset(a, n, base) =>
      if kind == S then Operands(0, RegOf(base), RegOf(a), n.value) else Operands(RegOf(a), RegOf(base), 0, n.value)
    case Pair(a, b) =>
      if kind == S then Operands(0, RegOf(b), RegOf(a), 0) else Operands(RegOf(a), RegOf(b), 0, 0)
    case Upper(a, n) => Operands(RegOf(a), 0, 0, n.value)
    case Symbolic(a, _) => Operands(RegOf(a), 0, 0, 0)
  }

  lemma OneRegisterError(r: string)
    ensures RegisterValue(r).Err? ==> RegisterValue(r) == Err(InvalidRegister)
  {
    hide ScanByte, SkipSpace, Span;
  }

  /** The numbers an instruction takes, whatever its registers. */
  predicate InRange(m: Mnemonic, f: Form) {
    Accepted(m, FormOperands(m, f))
  }

  /** What operands come to: out of range, not a register, or as they are written. */
  function FormResult(m: Mnemonic, f: Form): Result<Operands> {
    if !InRange(m, f) then Err(InvalidImmediate)
    else if !RegistersOk(f) then Err(InvalidRegister)
    else Ok(FormOperands(m, f))
  }

  lemma ParsesR(m: Mnemonic, f: Form, g: Spacing)
    requires FormOk(f, g) && Fits(m, f) && RowOf(m).kind == R
    ensures OperandsR(FormLine(m, f, g)) == FormResult(m, f)
  {
    hide Sscanf, RegisterValue, FormLine, RowOf, Cut, R_FORMAT;
    RegistersScanned(m, f, g);
    CutRegister(f.c, g.last);
    OneRegisterError(f.a);
    OneRegisterError(f.b);
    OneRegisterError(f.c);
  }

  lemma ParsesBranch(m: Mnemonic, f: Form, line: string)
    requires f.Numbered? && RowOf(m).kind == B
        && Sscanf(line, I_FORMAT) == Text(f.a, Text(f.b, Number(f.n.value, NoMore)))
    ensures OperandsB(line) == FormResult(m, f)
  {
    OneRegisterError(f.a);
    OneRegisterError(f.b);
    hide Sscanf, RegisterValue, RowOf, I_FORMAT;
  }

  lemma ParsesImmediate(m: Mnemonic, f: Form, line: string)
    requires f.Numbered? && RowOf(m).kind == I
        && Sscanf(line, I_FORMAT) == Text(f.a, Text(f.b, Number(f.n.value, NoMore)))
    ensures OperandsImm(line) == FormResult(m, f)
  {
    OneRegisterError(f.a);
    OneRegisterError(f.b);
    hide Sscanf, RegisterValue, RowOf, I_FORMAT;
  }

  lemma ParsesNumbered(m: Mnemonic, f: Form, g: Spacing)
    requires FormOk(f, g) && f.Numbered?
    ensures RowOf(m).kind == B ==> OperandsB(FormLine(m, f, g)) == FormResult(m, f)
    ensures RowOf(m).kind == I ==> OperandsImm(FormLine(m, f, g)) == FormResult(m, f)
  {
    hide Sscanf, FormLine, FormOk, RowOf, OperandsB, OperandsImm, FormResult, I_FORMAT;
    NumberedScanned(m, f, g);
    if RowOf(m).kind == B {
      ParsesBranch(m, f, FormLine(m, f, g));
    } else if RowOf(m).kind == I {
      ParsesImmediate(m, f, FormLine(m, f, g));
    }
  }

  lemma ParsesUpper(m: Mnemonic, f: Form, g: Spacing)
    requires FormOk(f, g) && f.Upper? && RowOf(m).kind == U
    ensures OperandsU(FormLine(m, f, g)) == FormResult(m, f)
  {
    hide Sscanf, RegisterValue, FormLine, FormOk, RowOf, U_FORMAT;
    UpperScanned(m, f, g);
    OneRegisterError(f.a);
  }

  /** The address of a load or store, with an offset or without. */
  lemma AddressScanned(m: Mnemonic, f: Form, g: Spacing)
    requires FormOk(f, g)
    ensures f.Offset? ==> ScanAddress(FormLine(m, f, g)) == Ok((f.a, f.n.value, f.base))
    ensures f.Pair? ==> ScanAddress(FormLine(m, f, g)) == Ok((f.a, 0, Cut(f.b, g.last)))
  {
    if f.Offset? {
      OffsetScanned(m, f, g);
    } else if f.Pair? {
      PairScanned(m, f, g);
    }
    hide Sscanf, FormLine, FormOk, Cut;
  }

  lemma ParsesLoad(m: Mnemonic, f: Form, line: string, base: string, n: int)
    requires || (f.Pair? && n == 0 && RegisterValue(base) == RegisterValue(f.b))
             || (f.Offset? && base == f.base && n == f.n.value)
    requires RowOf(m).kind == I && ScanAddress(line) == Ok((f.a, n, base))
    ensures OperandsLoad(line) == FormResult(m, f)
  {
    OneRegisterError(f.a);
    OneRegisterError(base);
    hide RegisterValue, RowOf, ScanAddress;
  }

  lemma ParsesStore(m: Mnemonic, f: Form, line: string, base: string, n: int)
    requires || (f.Pair? && n == 0 && RegisterValue(base) == RegisterValue(f.b))
             || (f.Offset? && base == f.base && n == f.n.value)
    requires RowOf(m).kind == S && ScanAddress(line) == Ok((f.a, n, base))
    ensures OperandsStore(line) == FormResult(m, f)
  {
    OneRegisterError(f.a);
    OneRegisterError(base);
    hide RegisterValue, RowOf, ScanAddress;
  }

  lemma ParsesAddress(m: Mnemonic, f: Form, g: Spacing)
    requires FormOk(f, g) && (f.Offset? || f.Pair?)
    ensures RowOf(m).kind == I ==> OperandsLoad(FormLine(m, f, g)) == FormResult(m, f)
    ensures RowOf(m).kind == S ==> OperandsStore(FormLine(m, f, g)) == FormResult(m, f)
  {
    hide RegisterValue, FormLine, RowOf, Cut, ScanAddress, OperandsLoad, OperandsStore, FormResult, AllBlank;
    AddressScanned(m, f, g);
    var base, n := if f.Pair? then Cut(f.b, g.last) else f.base, if f.Pair? then 0 else f.n.value;
    if f.Pair? {
      CutRegister(f.b, g.last);
    }
    if RowOf(m).kind == I {
      ParsesLoad(m, f, FormLine(m, f, g), base, n);
    } else if RowOf(m).kind == S {
      ParsesStore(m, f, FormLine(m, f, g), base, n);
    }
  }

  /**
    Every machine instruction, however its operands are spelled and spaced, is read as those
    operands; the only errors are a number out of range and then a name that is no register.
   */
  lemma FormParses(m: Mnemonic, f: Form, g: Spacing)
    requires FormOk(f, g) && Fits(m, f) && RowOf(m).kind != P
    ensures ParseOperands(m, FormLine(m, f, g)) == FormResult(m, f)
  {
    hide FormOk, FormLine, OperandsR, OperandsImm, OperandsLoad, OperandsStore, OperandsB, OperandsU, RowOf,
         IsLoadStore, RegisterValue, FormResult;
    match RowOf(m).kind
    case R => ParsesR(m, f, g);
    case I => if IsLoadStore(m) { ParsesAddress(m, f, g); } else { ParsesNumbered(m, f, g); }
    case S => ParsesAddress(m, f, g);
    case B => ParsesNumbered(m, f, g);
    case U => ParsesUpper(m, f, g);
    case Z => NoOperands(m, f);
  }

  lemma NoOperands(m: Mnemonic, f: Form)
    requires RowOf(m).kind == Z && f.Bare?
    ensures FormResult(m, f) == Ok(Operands(0, 0, 0, 0))
  {
    hide RowOf, RegisterValue;
  }
}
