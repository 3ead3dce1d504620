/**
  Whole programs as they may be written: text lines and labelled data directives in any order, with
  segment lines, comments, blank lines and blanks around every line. When they build, what each line
  means in the built program, and when a line makes the assembler store past a buffer.
 */
module Programs {
  import opened Bits
  import opened CText
  import opened Numerals
  import opened Errors
  import opened Storage
  import opened Layout
  import opened InstructionTable
  import opened Encoder
  import opened Pseudo
  import opened DataDirectives
  import opened SymbolTable
  import opened Listings
  import opened Passes
  import opened Source
  import opened Notation
  import opened DataNotation
  import opened Lines
  import opened Items
  import opened Pipeline
  import Agreement
  import Simulation
  import Elf
  import Isa

  // ----- data lines -----

  datatype Directive =
    | Integers(step: nat, entries: seq<Entry>, end: string)
    | Chars(title: string, before: string, pieces: seq<Piece>, stray: bool, after: string)
    | Space(entries: seq<Entry>, end: string)

  /** A labelled directive, with the blanks after the label and after the directive's name. */
  datatype Datum = Datum(name: string, gap: string, directive: Directive, sep: string)

  function DirectiveName(d: Directive): string {
    match d
    case Integers(step, _, _) => if step == 1 then ".byte" else if step == 2 then ".half" else ".word"
    case Chars(title, _, _, _, _) => title
    case Space(_, _) => ".space"
  }

  function DirectiveArgs(d: Directive): string {
    match d
    case Integers(_, entries, end) => ListText(entries, end)
    case Chars(_, before, ps, stray, after) => before + ("\"" + (PiecesText(ps, stray) + "\"" + after))
    case Space(entries, end) => ListText(entries, end)
  }

  function DatumContent(d: Datum): string {
    DirectiveName(d.directive) + (d.sep + DirectiveArgs(d.directive))
  }

  function DatumText(d: Datum): string {
    d.name + ":" + (d.gap + DatumContent(d))
  }

  predicate DirectiveOk(d: Directive) {
    match d
    case Integers(step, entries, end) => step in {1, 2, 4} && EntriesOk(entries, end)
    case Chars(title, before, ps, _, after) =>
      title in {".string", ".asciz", ".asciiz"} && '"' !in before && '"' !in after && PiecesOk(ps)
    case Space(entries, end) =>
      && EntriesOk(entries, end) && entries != []
      && entries[0].number.value >= 0 && 0 <= SpaceFill(entries) <= 255
  }

  predicate DatumOk(d: Datum) {
    && IsName(d.name) && d.name[0] != '#' && d.name[0] != '.'
    && AllBlank(d.gap) && d.gap != "" && AllBlank(d.sep)
    && DirectiveOk(d.directive)
    && var args := DirectiveArgs(d.directive);
       && (if args == "" then d.sep == "" else d.sep != "" && d.sep[0] in " \t" && !IsSpace(args[0]))
       && EndsWell(DatumText(d))
  }

  function DirectiveSize(d: Directive): int {
    match d
    case Integers(step, entries, _) => step * |entries|
    case Chars(_, _, ps, stray, _) => |PiecesBytes(ps, stray)| + 1
    case Space(entries, _) => if entries != [] then entries[0].number.value else 0
  }

  /** The bytes a written directive stands for. */
  predicate IsImage(d: Directive, bytes: seq<Byte>) {
    match d
    case Integers(step, entries, _) =>
      step > 0 && |bytes| == step * |entries| && StoredValues(bytes, step) == Residues(Values(entries), Pow256(step))
    case Chars(_, _, ps, stray, _) => bytes == PiecesBytes(ps, stray) + [0]
    case Space(entries, _) =>
      && entries != [] && |bytes| == entries[0].number.value
      && forall i :: 0 <= i < |bytes| ==> bytes[i] == SpaceFill(entries)
  }

  lemma TitleShape(d: Directive)
    requires DirectiveOk(d)
    ensures 0 < |DirectiveName(d)| <= 63 && forall i :: 0 <= i < |DirectiveName(d)| ==> !IsSpace(DirectiveName(d)[i])
  {
  }

  lemma ArgsFit(d: Directive, room: nat)
    requires DirectiveOk(d)
    ensures var r := DirectiveImage(DirectiveName(d), DirectiveArgs(d), room);
      if DirectiveSize(d) <= room then r.Ok? && |r.value| == DirectiveSize(d) && IsImage(d, r.value)
      else r == Err(GeneralError)
  {
    hide IntegerImage, StringImage, SpaceImage, ListText, StoredValues, Residues, Pow256, EntriesOk, PiecesText,
         PiecesBytes, PiecesOk, Values;
    match d
    case Integers(step, entries, end) => ListRoundTrip(entries, end, step, room);
    case Chars(title, before, ps, stray, after) => StringForm(title, before, ps, stray, after, room);
    case Space(entries, end) => SpaceRoundTrip(entries, end, room);
  }

  /** The name and the arguments of a directive are told apart again. */
  lemma ScanDirective(name: string, sep: string, args: string)
    requires 0 < |name| <= 63 && forall i :: 0 <= i < |name| ==> !IsSpace(name[i])
    requires AllBlank(sep) && (sep != "" ==> sep[0] in " \t") && (args != "" ==> sep != "" && !IsSpace(args[0]))
    ensures var p := name + (sep + args);
      Sscanf(p, Word(63, End)) == Text(name, NoMore) && SkipSpace(p[Span(p, " \t")..]) == args
  {
    var rest := sep + args;
    var p := name + rest;
    assert p[..|name|] == name && p[|name|..] == rest && p[0] == name[0];
    assert rest != "" ==> rest[0] in " \t" && IsSpace(rest[0]);
    ScanFirstWord(p);
    TokenRunAll(name, rest);
    forall i | 0 <= i < |name|
      ensures name[i] !in " \t"
    {
      assert !IsSpace(name[i]);
    }
    SpanAll(name, rest, " \t");
    hide Sscanf, TokenRun, Span;
    BlanksSkipped(sep, args);
  }

  /** A written directive gives its bytes when they fit, and is refused when they do not. */
  lemma DatumFits(d: Datum, used: nat)
    requires DatumOk(d) && used <= CAPACITY
    ensures var r := ContentImage(DatumContent(d), used);
      if used + DirectiveSize(d.directive) <= CAPACITY then
        r.Ok? && |r.value| == DirectiveSize(d.directive) && IsImage(d.directive, r.value)
      else r == Err(GeneralError)
  {
    hide Sscanf, SkipSpace, Span, DirectiveArgs, DirectiveName, DirectiveImage, EndsWell, IsImage, DirectiveSize,
         AllBlank, IsName;
    TitleShape(d.directive);
    ArgsFit(d.directive, CAPACITY - used);
    ScanDirective(DirectiveName(d.directive), d.sep, DirectiveArgs(d.directive));
  }

  /** What the scanner sees of a labelled directive. */
  lemma DatumLine(d: Datum)
    requires DatumOk(d)
    ensures var t := DatumText(d);
      && Trim(t) == t && IsContent(t) && HasLabel(t) && LabelOf(t) == d.name && Content(t) == DatumContent(d)
      && DatumContent(d) != ""
  {
    var t, content := DatumText(d), DatumContent(d);
    TitleShape(d.directive);
    assert content[0] == DirectiveName(d.directive)[0];
    assert !IsSpace(t[0]) && t[0] == d.name[0] by {
      SpaceIsBlank(d.name[0]);
    }
    hide DirectiveName, DirectiveArgs, DirectiveOk, EndsWell, Trim, HasLabel, LabelOf, Content, AllBlank, IsSpace;
    LabelRoundTrip(d.name, d.gap, content);
    LabelledContent(t);
  }

  lemma LabelledContent(t: string)
    requires EndsWell(t) && !IsSpace(t[0]) && t[0] != '#' && t[0] != '.'
    ensures Trim(t) == t && IsContent(t)
  {
    SkipNone(t);
    TrimNothing(t);
  }

  // ----- programs -----

  datatype Line =
    | Skipped(comment: string)
    | Switch(segment: string)
    | Code(item: Item)
    | Data(datum: Datum)

  /** A line with blanks before and after it. */
  datatype Written = Written(before: string, line: Line, after: string)

  function LineText(l: Line): string {
    match l
    case Skipped(comment) => comment
    case Switch(segment) => "." + segment
    case Code(item) => ItemText(item)
    case Data(datum) => DatumText(datum)
  }

  function ShowLine(w: Written): string {
    w.before + LineText(w.line) + w.after
  }

  function ShowProgram(p: seq<Written>): (lines: seq<string>)
    ensures |lines| == |p| && forall i :: 0 <= i < |p| ==> lines[i] == ShowLine(p[i])
  {
    seq(|p|, i requires 0 <= i < |p| => ShowLine(p[i]))
  }

  /** The segment after the lines. */
  function SegmentOf(p: seq<Written>): string {
    if p == [] then ""
    else
      match p[|p| - 1].line
      case Switch(segment) => segment
      case _ => SegmentOf(p[..|p| - 1])
  }

  function TextBytes(w: Written): nat {
    match w.line
    case Code(item) => 4 * ItemSize(item)
    case _ => 0
  }

  function DataBytes(w: Written): nat
  {
    match w.line
    case Data(datum) => var n := DirectiveSize(datum.directive); if n < 0 then 0 else n
    case _ => 0
  }

  function TextSize(p: seq<Written>): nat {
    if p == [] then 0 else TextSize(p[..|p| - 1]) + TextBytes(p[|p| - 1])
  }

  function DataSize(p: seq<Written>): nat {
    if p == [] then 0 else DataSize(p[..|p| - 1]) + DataBytes(p[|p| - 1])
  }

  /** The labels so far, each at the sum of the sizes before it. */
  function SymbolsOf(p: seq<Written>): seq<Symbol> {
    if p == [] then []
    else
      var init := p[..|p| - 1];
      match p[|p| - 1].line
      case Data(datum) => SymbolsOf(init) + [Symbol(datum.name, ToWord(DataSize(init)), DataSymbol)]
      case _ => SymbolsOf(init)
  }

  /** A line that may follow `p`: text under no name or `text`, data under `data`, labels new and at
      most 128 of them, and `la` of a label above it. */
  predicate LineOk(p: seq<Written>, w: Written) {
    && AllBlank(w.before) && AllBlank(w.after)
    && match w.line
       case Skipped(comment) => comment == "" || comment[0] == '#'
       case Switch(segment) => segment == "" || segment[|segment| - 1] !in BLANKS
       case Code(item) => SegmentOf(p) in {"", "text"} && ItemOk(SymbolsOf(p), item)
       case Data(datum) =>
         && SegmentOf(p) == "data" && DatumOk(datum)
         && |SymbolsOf(p)| < 128 && Lookup(SymbolsOf(p), datum.name).None?
  }

  predicate ProgramOk(p: seq<Written>) {
    p == [] || (ProgramOk(p[..|p| - 1]) && LineOk(p[..|p| - 1], p[|p| - 1]))
  }

  lemma {:induction false} LineWithin(p: seq<Written>, k: nat)
    requires ProgramOk(p) && k < |p|
    ensures ProgramOk(p[..k]) && LineOk(p[..k], p[k])
    decreases |p|
  {
    hide LineOk;
    if k < |p| - 1 {
      var init := p[..|p| - 1];
      LineWithin(init, k);
      assert init[..k] == p[..k];
    }
  }

  lemma ProgramPrefix(p: seq<Written>, k: nat)
    requires k <= |p|
    ensures ShowProgram(p)[..k] == ShowProgram(p[..k])
  {
    hide ShowLine;
  }

  /** The line without the blanks around it is what both passes see. */
  lemma LineTrimmed(p: seq<Written>, w: Written)
    requires LineOk(p, w) && (w.line.Code? || w.line.Data?)
    ensures Trim(ShowLine(w)) == LineText(w.line) && IsContent(ShowLine(w))
  {
    hide Trim, ItemText, DatumText, AllBlank, ItemShape, ItemError, DatumOk, Lookup, SymbolsOf, SegmentOf, HasLabel,
         Ignorable, LabelOf, Content, DatumContent, Sscanf, NameOf;
    TrimAround(w.before, LineText(w.line), w.after);
    match w.line
    case Code(item) => ItemLine(item);
    case Data(datum) => DatumLine(datum);
  }

  // ----- the first pass -----

  /** What the first pass knows after the lines. */
  predicate Knows(c: ScanState, p: seq<Written>) {
    && c.segment == SegmentOf(p) && c.text == ToWord(TextSize(p)) && c.data == DataSize(p)
    && c.symbols == SymbolsOf(p)
  }

  /** Entering a label under `data`. */
  lemma DataLabel(c: ScanState, t: string)
    requires HasLabel(t) && c.segment == "data"
    ensures var r := ScanLabel(c, t);
      if |c.symbols| >= 128 || Lookup(c.symbols, LabelOf(t)).Some? then r == Err(GeneralError)
      else
        r.Ok? && r.value == c.(symbols := r.value.symbols)
        && r.value.symbols == c.symbols + [Symbol(LabelOf(t), c.data, DataSymbol)]
  {
    hide HasLabel, LabelOf, Lookup;
  }

  /** The first pass on a data line, whatever its label and size: refused if the table is full, if the
      label is taken or if the bytes do not fit. */
  lemma DatumCounted(base: Word, c: ScanState, d: Datum)
    requires DatumOk(d) && c.segment == "data" && c.data <= CAPACITY
    ensures var r := ScanLine(base, c, DatumText(d));
      if |c.symbols| >= 128 || Lookup(c.symbols, d.name).Some? || c.data + DirectiveSize(d.directive) > CAPACITY then
        r == Err(GeneralError)
      else
        r.Ok? && r.value == c.(data := r.value.data, symbols := r.value.symbols)
        && r.value.data == c.data + DirectiveSize(d.directive)
        && r.value.symbols == c.symbols + [Symbol(d.name, c.data, DataSymbol)]
  {
    hide DatumText, DirectiveSize, DatumContent, ContentImage, Trim, Ignorable, HasLabel, LabelOf, Content, Lookup,
         IsImage, DatumOk, ScanLabel;
    DatumLine(d);
    DatumFits(d, c.data);
    DataLabel(c, DatumText(d));
  }

  /** One more line, once it is known what it does. */
  lemma {:induction false} KnowsNext(c: ScanState, d: ScanState, p: seq<Written>)
    requires p != [] && Knows(c, p[..|p| - 1])
    requires var w := p[|p| - 1];
      && d.segment == (if w.line.Switch? then w.line.segment else c.segment)
      && d.text == ToWord(c.text + TextBytes(w)) && d.data == c.data + DataBytes(w)
      && d.symbols == (if w.line.Data? then c.symbols + [Symbol(w.line.datum.name, c.data, DataSymbol)] else c.symbols)
      && c.data <= CAPACITY
    ensures Knows(d, p)
  {
    hide TextBytes, DataBytes;
    ToWordAdds(TextSize(p[..|p| - 1]), TextBytes(p[|p| - 1]));
    WordItself(c.data);
    hide ToWord;
  }

  /** What a line of each kind does in the first pass. */
  lemma LineStep(base: Word, c: ScanState, w: Written)
    requires AllBlank(w.before) && AllBlank(w.after)
    ensures ScanLine(base, c, ShowLine(w)) == ScanLine(base, c, LineText(w.line))
    ensures w.line.Skipped? && (w.line.comment == "" || w.line.comment[0] == '#') ==>
      ScanLine(base, c, LineText(w.line)) == Ok(c)
    ensures w.line.Switch? && (w.line.segment == "" || w.line.segment[|w.line.segment| - 1] !in BLANKS) ==>
      ScanLine(base, c, LineText(w.line)) == Ok(c.(segment := w.line.segment))
  {
    hide ScanLine, AllBlank, ItemText, DatumText;
    var env, a := Env(base, [], 0), EMPTY;
    BlanksAround(base, c, env, a, w.before, LineText(w.line), w.after);
    NoBlanks();
    match w.line
    case Skipped(comment) =>
      if comment == "" || comment[0] == '#' {
        assert "" + comment == comment;
        NothingToDo(base, c, env, a, "", comment);
      }
    case Switch(segment) =>
      if segment == "" || segment[|segment| - 1] !in BLANKS {
        SegmentSwitch(base, c, env, a, segment);
      }
    case _ =>
  }

  lemma {:induction false} LineScans(base: Word, c: ScanState, p: seq<Written>)
    requires p != [] && LineOk(p[..|p| - 1], p[|p| - 1]) && Knows(c, p[..|p| - 1]) && c.data <= CAPACITY
    ensures var r := ScanLine(base, c, ShowLine(p[|p| - 1]));
      if DataSize(p) <= CAPACITY then r.Ok? && Knows(r.value, p) else r == Err(GeneralError)
  {
    hide ScanLine, ItemText, DatumText, AllBlank, ItemOk, DatumOk, Lookup, DirectiveSize, ItemSize, ToWord, ShowLine;
    var w := p[|p| - 1];
    var r := ScanLine(base, c, ShowLine(w));
    LineStep(base, c, w);
    if w.line.Code? {
      ItemCounted(base, c, w.line.item);
    } else if w.line.Data? {
      DatumCounted(base, c, w.line.datum);
      DatumWeighs(w.line.datum);
    } else {
      assert ToWord(c.text + 0) == c.text by {
        WordItself(c.text);
      }
    }
    if r.Ok? {
      assert ToWord(c.text + 0) == c.text by {
        WordItself(c.text);
      }
      KnowsNext(c, r.value, p);
    }
  }

  lemma DatumWeighs(d: Datum)
    requires DatumOk(d)
    ensures DirectiveSize(d.directive) >= 0
    ensures forall n: int :: 0 <= n <= CAPACITY ==> ToWord(n) == n
  {
    hide AllBlank, EndsWell, PiecesBytes, EntriesOk, PiecesOk;
  }

  /** The first pass accepts a program exactly when its data fits, with every label at the sum of the
      sizes before it. */
  lemma {:induction false} ProgramScans(base: Word, p: seq<Written>)
    requires ProgramOk(p)
    ensures if DataSize(p) <= CAPACITY then ScanAll(base, ShowProgram(p)).Ok?
        && Knows(ScanAll(base, ShowProgram(p)).value, p)
      else ScanAll(base, ShowProgram(p)) == Err(GeneralError)
    decreases |p|
  {
    hide ScanLine, ShowLine, LineOk, TextBytes, DataBytes, Knows;
    var lines := ShowProgram(p);
    if p == [] {
      assert lines == [];
      NothingKnown(base);
    } else {
      var k := |p| - 1;
      ProgramScans(base, p[..k]);
      ProgramPrefix(p, k);
      if DataSize(p[..k]) <= CAPACITY {
        var c := ScanAll(base, lines[..k]).value;
        assert c.data == DataSize(p[..k]) by {
          KnownData(c, p[..k]);
        }
        LineScans(base, c, p);
      }
    }
  }

  lemma KnownData(c: ScanState, p: seq<Written>)
    requires Knows(c, p)
    ensures c.data == DataSize(p)
  {
  }

  lemma NothingKnown(base: Word)
    ensures ScanAll(base, []) == Ok(START) && Knows(START, [])
  {
  }

  // ----- the second pass -----

  predicate HasSizes(a: Image, p: seq<Written>) {
    a.segment == SegmentOf(p) && |a.text| == TextSize(p) && |a.data| == DataSize(p)
  }

  lemma DatumAssembled(env: Env, a: Image, d: Datum)
    requires DatumOk(d) && a.segment == "data" && |a.data| <= |a.data| + DirectiveSize(d.directive) <= CAPACITY
    ensures var r := AssembleLine(env, a, DatumText(d));
      r.Ok? && r.value == a.(data := r.value.data) && |r.value.data| == |a.data| + DirectiveSize(d.directive)
  {
    hide DatumText, DirectiveSize, DatumContent, ContentImage, Trim, Ignorable, Content, IsImage, DirectiveOk, EndsWell,
         AllBlank, HasLabel, LabelOf;
    DatumLine(d);
    DatumFits(d, |a.data|);
  }

  lemma {:induction false} LineAssembles(env: Env, a: Image, p: seq<Written>)
    requires p != [] && LineOk(p[..|p| - 1], p[|p| - 1]) && HasSizes(a, p[..|p| - 1])
    requires DataSize(p) <= CAPACITY && TextSize(p[..|p| - 1]) <= CAPACITY && SymbolsOf(p) <= env.symbols
    ensures var r := AssembleLine(env, a, ShowLine(p[|p| - 1]));
      if TextSize(p) <= CAPACITY then r.Ok? && HasSizes(r.value, p) else r == Err(GeneralError)
  {
    hide AssembleLine, ItemText, DatumText, AllBlank, ItemOk, DatumOk, Lookup, DirectiveSize, ItemSize, ToWord;
    var init, w := p[..|p| - 1], p[|p| - 1];
    BlanksAround(env.base, START, env, a, w.before, LineText(w.line), w.after);
    match w.line
    case Skipped(comment) =>
      NoBlanks();
      assert "" + comment == comment;
      NothingToDo(env.base, START, env, a, "", comment);
    case Switch(segment) => SegmentSwitch(env.base, START, env, a, segment);
    case Code(item) =>
      ItemStaysOk(SymbolsOf(init), env.symbols, item);
      ItemAssembled(env, a, item);
    case Data(datum) =>
      DatumWeighs(datum);
      DatumAssembled(env, a, datum);
  }

  lemma SymbolsPrefix(p: seq<Written>)
    requires p != []
    ensures SymbolsOf(p[..|p| - 1]) <= SymbolsOf(p)
  {
  }

  /** The second pass accepts it exactly when its text fits. */
  lemma {:induction false} ProgramAssembles(env: Env, p: seq<Written>)
    requires ProgramOk(p) && DataSize(p) <= CAPACITY && SymbolsOf(p) <= env.symbols
    ensures Assembles(env, ShowProgram(p)) <==> TextSize(p) <= CAPACITY
    ensures if TextSize(p) <= CAPACITY then HasSizes(AssembleAll(env, ShowProgram(p)).image, p)
      else AssembleAll(env, ShowProgram(p)).err == Some(GeneralError)
    decreases |p|
  {
    hide AssembleLine, ShowLine, LineOk, TextBytes, DataBytes, HasSizes, SymbolsOf;
    var lines := ShowProgram(p);
    if p == [] {
      assert lines == [];
      NothingDone(env);
    } else {
      var k := |p| - 1;
      SymbolsPrefix(p);
      ProgramAssembles(env, p[..k]);
      ProgramPrefix(p, k);
      if TextSize(p[..k]) <= CAPACITY {
        LineAssembles(env, AssembleAll(env, lines[..k]).image, p);
      }
    }
  }

  lemma NothingDone(env: Env)
    ensures AssembleAll(env, []) == Outcome(EMPTY, None) && HasSizes(EMPTY, [])
  {
  }

  // ----- building -----

  /** What the first pass leaves of a program. */
  function ProgramEnv(base: Word, p: seq<Written>): Env {
    Env(base, SymbolsOf(p), TextSize(p))
  }

  lemma SizedText(a: Image, p: seq<Written>)
    requires HasSizes(a, p)
    ensures |a.text| == TextSize(p)
  {
  }

  lemma KnownEnv(base: Word, c: ScanState, p: seq<Written>)
    requires Knows(c, p)
    ensures c.symbols == SymbolsOf(p) && c.text == ToWord(TextSize(p))
    ensures TextSize(p) <= CAPACITY ==> EnvAfter(base, c) == ProgramEnv(base, p)
  {
  }

  /** A program builds exactly when both its segments fit, and then there is a file exactly when it has
      text; otherwise the error is the one for the capacity. */
  lemma ProgramBuilds(base: Word, p: seq<Written>)
    requires ProgramOk(p)
    ensures if DataSize(p) <= 2048 && TextSize(p) <= 2048 then
        && Build(base, ShowProgram(p)).Ok?
        && (Build(base, ShowProgram(p)).value.Some? <==> TextSize(p) > 0)
        && (TextSize(p) > 0 ==>
              Builds(ProgramEnv(base, p), ShowProgram(p), Build(base, ShowProgram(p)).value.value))
      else Build(base, ShowProgram(p)) == Err(GeneralError)
  {
    hide ScanAll, AssembleAll, ShowProgram, SymbolsOf, DataSize, TextSize, ProgramOk, Elf.FileImage, Knows, HasSizes;
    var lines := ShowProgram(p);
    ProgramScans(base, p);
    if DataSize(p) <= CAPACITY {
      var c := ScanAll(base, lines).value;
      KnownEnv(base, c, p);
      ProgramAssembles(EnvAfter(base, c), p);
      if TextSize(p) <= CAPACITY {
        SizedText(AssembleAll(EnvAfter(base, c), lines).image, p);
      }
    }
  }

  // ----- what a built program does -----

  /** A program that builds to a file. */
  predicate IsBuilt(base: Word, p: seq<Written>) {
    ProgramOk(p) && DataSize(p) <= 2048 && 0 < TextSize(p) <= 2048
  }

  lemma BuiltProgram(base: Word, p: seq<Written>)
    requires IsBuilt(base, p)
    ensures Build(base, ShowProgram(p)).Ok? && Build(base, ShowProgram(p)).value.Some?
    ensures Builds(ProgramEnv(base, p), ShowProgram(p), Build(base, ShowProgram(p)).value.value)
    ensures Simulation.Assembled(ProgramEnv(base, p), ShowProgram(p))
  {
    hide ProgramOk, Builds, ShowProgram, SymbolsOf, DataSize, TextSize, Simulation.Assembled, Build;
    ProgramBuilds(base, p);
    BuiltFrom(ProgramEnv(base, p), ShowProgram(p), Build(base, ShowProgram(p)).value.value);
  }

  lemma {:induction false} SmallPrefix(p: seq<Written>, k: nat)
    requires k <= |p|
    ensures DataSize(p[..k]) <= DataSize(p) && SymbolsOf(p[..k]) <= SymbolsOf(p)
    decreases |p|
  {
    hide DataBytes;
    if k < |p| {
      var init := p[..|p| - 1];
      SmallPrefix(init, k);
      assert init[..k] == p[..k];
    } else {
      assert p[..k] == p;
    }
  }

  /** The lines of a program are in the segment they are written for. */
  lemma LineSegment(base: Word, p: seq<Written>, i: nat)
    requires IsBuilt(base, p) && i < |p|
    ensures SegmentAfter(ShowProgram(p)[..i]) == SegmentOf(p[..i])
  {
    hide ProgramOk, ShowProgram, SymbolsOf, Simulation.Assembled, Build, ScanAll, AssembleAll, LineOk, Builds,
         SegmentAfter, SegmentOf, DataSize, TextSize;
    BuiltProgram(base, p);
    PrefixState(ProgramEnv(base, p), ShowProgram(p), i);
    LineWithin(p, i);
    SmallPrefix(p, i);
    ProgramPrefix(p, i);
    ProgramScans(base, p[..i]);
  }

  lemma CodeLine(base: Word, p: seq<Written>, i: nat)
    requires IsBuilt(base, p) && i < |p| && p[i].line.Code?
    ensures ItemOk(ProgramEnv(base, p).symbols, p[i].line.item)
    ensures Trim(ShowProgram(p)[i]) == ItemText(p[i].line.item) && IsTextLine(ShowProgram(p), i)
  {
    hide ProgramOk, SymbolsOf, ItemOk, ItemText, Trim, IsContent, ShowLine, SegmentAfter, SegmentOf, DataSize,
         TextSize, AllBlank;
    LineSegment(base, p, i);
    LineWithin(p, i);
    LineTrimmed(p[..i], p[i]);
    SmallPrefix(p, i);
    ItemStaysOk(SymbolsOf(p[..i]), SymbolsOf(p), p[i].line.item);
  }

  /** In a built program the statement at every line's address is the one the line is written for. */
  lemma ProgramMeans(base: Word, p: seq<Written>, i: nat)
    requires IsBuilt(base, p) && i < |p| && p[i].line.Code?
    ensures ItemOk(ProgramEnv(base, p).symbols, p[i].line.item)
    ensures var env := ProgramEnv(base, p);
      Simulation.StatementAt(env, ShowProgram(p), LineAddress(env, ShowProgram(p), i))
          == ItemMeaning(env, p[i].line.item)
  {
    hide IsBuilt, ItemOk, Trim, SymbolsOf, ShowProgram, Builds, Simulation.StatementAt, LineAddress, MeaningOf,
         ItemMeaning, IsTextLine, TextSize, Simulation.Assembled, ItemText, Build;
    var env := ProgramEnv(base, p);
    BuiltProgram(base, p);
    CodeLine(base, p, i);
    LineAtAddress(env, ShowProgram(p), i);
    ItemMeans(env, p[i].line.item);
  }

  lemma DataLine(base: Word, p: seq<Written>, j: nat)
    requires IsBuilt(base, p) && j < |p| && p[j].line.Data?
    ensures DatumOk(p[j].line.datum) && Defines(ShowProgram(p), j, p[j].line.datum.name)
    ensures Content(Trim(ShowProgram(p)[j])) == DatumContent(p[j].line.datum)
  {
    hide ProgramOk, SymbolsOf, DatumOk, DatumText, Trim, IsContent, ShowLine, SegmentAfter, SegmentOf, DataSize,
         TextSize, AllBlank, HasLabel, LabelOf, Content, DatumContent, Lookup;
    LineSegment(base, p, j);
    LineWithin(p, j);
    LineTrimmed(p[..j], p[j]);
    DatumLine(p[j].line.datum);
  }

  /**
    In every built program, loaded from its file, every `la` puts an address in the register where
    the values its directive was written with lie.
   */
  lemma LaFindsDatum(base: Word, p: seq<Written>, i: nat, j: nat, s: Isa.State)
    requires IsBuilt(base, p) && Build(base, ShowProgram(p)).Ok? && Build(base, ShowProgram(p)).value.Some?
    requires Elf.LoadFile(Build(base, ShowProgram(p)).value.value).Some?
    requires s.mem == Elf.LoadFile(Build(base, ShowProgram(p)).value.value).value.mem
    requires i < |p| && p[i].line.Code? && p[i].line.item.m == La && FirstIn(p[i].line.item.form) != 0
    requires j < |p| && p[j].line.Data? && p[j].line.datum.name == NameIn(p[i].line.item.form)
    requires s.pc == LineAddress(ProgramEnv(base, p), ShowProgram(p), i)
    ensures IsImage(p[j].line.datum.directive, DirectiveBytes(ShowProgram(p), j))
    ensures Isa.Run(2, s).Some?
    ensures Reaches(ProgramEnv(base, p), ShowProgram(p), j, FirstIn(p[i].line.item.form), Isa.Run(2, s).value)
  {
    hide IsBuilt, ItemOk, Trim, SymbolsOf, ShowProgram, Builds, Build, LineAddress, IsTextLine, FirstIn, NameIn,
         TextSize, Elf.LoadFile, Isa.Run, Reaches, Defines, IsLa, DatumOk, IsImage, ContentImage, Content,
         DatumContent, Simulation.Assembled, ItemText, DirectiveSize;
    var env, lines := ProgramEnv(base, p), ShowProgram(p);
    var item, datum := p[i].line.item, p[j].line.datum;
    BuiltProgram(base, p);
    CodeLine(base, p, i);
    DataLine(base, p, j);
    LaIsLa(env.symbols, item);
    DirectiveListed(env, lines, j, datum.name);
    DatumFits(datum, 0);
    LaReachesDirective(env, lines, Build(base, lines).value.value, i, FirstIn(item.form), NameIn(item.form), s);
  }

  // ----- stores past a buffer -----

  /** The first pass stores outside on the last line, given what it knows before it. */
  predicate OverrunsNext(c: ScanState, t: string) {
    && ScanLabel(c, t).Ok? && Content(t) != ""
    && (if IsTextSegment(c.segment) then TextOverruns(Content(t))
        else c.segment == "data" && ContentOverruns(Content(t), c.data))
  }

  lemma LastLine(base: Word, p: seq<Written>, raw: string) returns (c: ScanState)
    requires ProgramOk(p) && DataSize(p) <= CAPACITY && IsContent(raw)
    ensures c.segment == SegmentOf(p) && c.data == DataSize(p) && c.symbols == SymbolsOf(p)
    ensures ScanOverruns(base, ShowProgram(p) + [raw], |p|) <==> OverrunsNext(c, Trim(raw))
  {
    hide ScanAll, IsContent, ScanLabel, Content, TextOverruns, ContentOverruns, Trim, SegmentOf, SymbolsOf, DataSize,
         TextSize, ProgramOk;
    ProgramScans(base, p);
    c := ScanAll(base, ShowProgram(p)).value;
    assert (ShowProgram(p) + [raw])[..|p|] == ShowProgram(p);
  }

  /** After any program whose data fits, a string directive makes the first pass store past its scratch
      buffer exactly when its text overruns the room left. */
  lemma OverrunReached(base: Word, p: seq<Written>, w: Written)
    requires ProgramOk(p) && DataSize(p) <= CAPACITY
    requires LineOk(p, w) && w.line.Data? && w.line.datum.directive.Chars?
    ensures var d := w.line.datum.directive;
      (ScanOverruns(base, ShowProgram(p) + [ShowLine(w)], |p|)
       <==> Overruns(PiecesText(d.pieces, d.stray), CAPACITY - DataSize(p)))
  {
    hide ProgramOk, ScanAll, DatumText, Trim, IsContent, HasLabel, LabelOf, Content, DatumContent, Lookup,
         Overruns, PiecesText, AllBlank, SegmentOf, DataSize, TextSize, SymbolsOf, DatumOk, ContentOverruns,
         ShowProgram, ShowLine, ScanLabel, TextOverruns, ScanOverruns;
    LineTrimmed(p, w);
    DatumLine(w.line.datum);
    var c := LastLine(base, p, ShowLine(w));
    DataLabel(c, DatumText(w.line.datum));
    StringOverrun(w.line.datum, DataSize(p));
  }

  lemma StringOverrun(d: Datum, used: nat)
    requires DatumOk(d) && d.directive.Chars?
    ensures ContentOverruns(DatumContent(d), used)
       <==> Overruns(PiecesText(d.directive.pieces, d.directive.stray), CAPACITY - used)
  {
    var c := d.directive;
    TitleShape(c);
    ScanDirective(DirectiveName(c), d.sep, DirectiveArgs(c));
    StringForm(c.title, c.before, c.pieces, c.stray, c.after, 0);
    hide Sscanf, SkipSpace, Span, DirectiveOverruns, DirectiveImage, PiecesText, PiecesBytes, PiecesOk, IsName,
         EndsWell;
  }

  /** A text line makes it store past the symbol name's buffer exactly when it is an `la` of a name of
      64 characters or more. */
  lemma NameReached(base: Word, p: seq<Written>, w: Written)
    requires ProgramOk(p) && DataSize(p) <= CAPACITY && AllBlank(w.before) && AllBlank(w.after)
    requires SegmentOf(p) in {"", "text"} && w.line.Code? && ItemShape(w.line.item)
    ensures ScanOverruns(base, ShowProgram(p) + [ShowLine(w)], |p|)
       <==> w.line.item.m == La && |NameIn(w.line.item.form)| >= 64
  {
    hide ProgramOk, ScanAll, ItemText, Trim, IsContent, HasLabel, SkipSpace, AllBlank, SegmentOf, DataSize,
         TextSize, SymbolsOf, ItemShape, TextOverruns, ShowProgram, Sscanf, NameIn, Content, ContentOverruns,
         ScanLabel, ScanOverruns;
    var item := w.line.item;
    TrimAround(w.before, ItemText(item), w.after);
    ItemLine(item);
    LongName(item);
    TrimmedStart(ItemText(item));
    SameContent(ShowLine(w), ItemText(item));
    var c := LastLine(base, p, ShowLine(w));
    Agreement.UnlabelledContent(c, ItemText(item));
  }

  lemma SameContent(raw: string, t: string)
    requires Trim(raw) == t && Trim(t) == t && IsContent(t)
    ensures IsContent(raw)
  {
    hide Trim, Ignorable;
  }

  lemma TrimmedStart(t: string)
    requires Trim(t) == t && IsContent(t)
    ensures t != "" && !IsSpace(t[0])
  {
    SkipNone(t);
  }
}
