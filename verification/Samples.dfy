/** Concrete sources: a test program of the repository, line by line, and a source that overruns. */
module Samples {
  import opened Bits
  import opened CText
  import opened Numerals
  import opened Errors
  import opened Layout
  import opened InstructionTable
  import opened Encoder
  import opened Pseudo
  import opened DataDirectives
  import opened SymbolTable
  import opened Passes
  import opened Source
  import opened Notation
  import opened DataNotation
  import opened Printing
  import opened Lines
  import opened Items
  import opened Pipeline
  import opened Programs
  import Isa

  // ----- writing line after line -----

  lemma {:induction false} Append(p: seq<Written>, w: Written)
    requires ProgramOk(p) && LineOk(p, w)
    ensures ProgramOk(p + [w]) && ShowProgram(p + [w]) == ShowProgram(p) + [ShowLine(w)]
    ensures SegmentOf(p + [w]) == if w.line.Switch? then w.line.segment else SegmentOf(p)
    ensures TextSize(p + [w]) == TextSize(p) + TextBytes(w) && DataSize(p + [w]) == DataSize(p) + DataBytes(w)
    ensures SymbolsOf(p + [w])
         == if w.line.Data? then SymbolsOf(p) + [Symbol(w.line.datum.name, ToWord(DataSize(p)), DataSymbol)]
            else SymbolsOf(p)
  {
    hide LineOk, ShowLine, TextBytes, DataBytes;
    assert (p + [w])[..|p|] == p && (p + [w])[|p|] == w;
  }

  /** A line of the file, as `fgets` gives it. */
  function Ended(l: Line): Written {
    Written("", l, "\n")
  }

  /** What is known of a program as it grows. */
  predicate State(p: seq<Written>, lines: seq<string>, segment: string, text: int, data: int, symbols: seq<Symbol>) {
    && ProgramOk(p) && ShowProgram(p) == lines && SegmentOf(p) == segment
    && TextSize(p) == text && DataSize(p) == data && SymbolsOf(p) == symbols
  }

  lemma {:induction false} AddSkipped(p: seq<Written>, lines: seq<string>, segment: string, text: int, data: int,
                                      symbols: seq<Symbol>, comment: string)
    returns (q: seq<Written>)
    requires State(p, lines, segment, text, data, symbols) && (comment == "" || comment[0] == '#')
    ensures State(q, lines + [comment + "\n"], segment, text, data, symbols)
  {
    hide ProgramOk, SegmentOf, TextSize, DataSize, SymbolsOf, ShowProgram;
    var w := Ended(Skipped(comment));
    Append(p, w);
    q := p + [w];
    assert ShowLine(w) == comment + "\n";
  }

  lemma {:induction false} AddSwitch(p: seq<Written>, lines: seq<string>, segment: string, text: int, data: int,
                                     symbols: seq<Symbol>, next: string)
    returns (q: seq<Written>)
    requires State(p, lines, segment, text, data, symbols) && next in {"text", "data"}
    ensures State(q, lines + ["." + next + "\n"], next, text, data, symbols)
  {
    hide ProgramOk, SegmentOf, TextSize, DataSize, SymbolsOf, ShowProgram;
    var w := Ended(Switch(next));
    Append(p, w);
    q := p + [w];
    assert ShowLine(w) == "." + next + "\n";
  }

  lemma {:induction false} AddCode(p: seq<Written>, lines: seq<string>, segment: string, text: int, data: int,
                                   symbols: seq<Symbol>, item: Item)
    returns (q: seq<Written>)
    requires State(p, lines, segment, text, data, symbols) && segment in {"", "text"} && ItemOk(symbols, item)
    ensures State(q, lines + [ItemText(item) + "\n"], segment, text + 4 * ItemSize(item), data, symbols)
  {
    hide ProgramOk, SegmentOf, TextSize, DataSize, SymbolsOf, ShowProgram, ItemOk, ItemText, ItemSize;
    var w := Ended(Code(item));
    Append(p, w);
    q := p + [w];
    assert ShowLine(w) == ItemText(item) + "\n";
  }

  lemma {:induction false} AddData(p: seq<Written>, lines: seq<string>, segment: string, text: int, data: int,
                                   symbols: seq<Symbol>, d: Datum)
    returns (q: seq<Written>)
    requires State(p, lines, segment, text, data, symbols) && segment == "data" && DatumOk(d)
    requires |symbols| < 128 && Lookup(symbols, d.name).None?
    ensures State(q, lines + [DatumText(d) + "\n"], segment, text, data + DirectiveSize(d.directive),
                symbols + [Symbol(d.name, ToWord(data), DataSymbol)])
  {
    DatumWeighs(d);
    hide ProgramOk, SegmentOf, TextSize, DataSize, SymbolsOf, ShowProgram, DatumOk, DatumText, DirectiveSize,
         Lookup, ToWord, LineOk, ShowLine, DataBytes;
    var w := Ended(Data(d));
    DataIsOk(p, d);
    Append(p, w);
    q := p + [w];
  }

  lemma {:induction false} DataIsOk(p: seq<Written>, d: Datum)
    requires SegmentOf(p) == "data" && DatumOk(d) && |SymbolsOf(p)| < 128 && Lookup(SymbolsOf(p), d.name).None?
    requires DirectiveSize(d.directive) >= 0
    ensures LineOk(p, Ended(Data(d))) && ShowLine(Ended(Data(d))) == DatumText(d) + "\n"
    ensures DataBytes(Ended(Data(d))) == DirectiveSize(d.directive) && TextBytes(Ended(Data(d))) == 0
  {
    hide SegmentOf, SymbolsOf, Lookup, DatumOk, DatumText, DirectiveSize;
  }

  // ----- items and data with single blanks -----

  const COMMENTED := Spacing(" ", " ", "", " ", "# address")

  lemma SymbolicText(m: Mnemonic, a: string, name: string)
    ensures FormLine(m, Symbolic(a, name), COMMENTED) == NameOf(m) + (" " + a + ", " + name + " # address")
  {
    hide NameOf;
    assert Rest(COMMENTED) == " # address";
    Sides(" " + a, ",", " " + name, " # address");
  }

  lemma Sides(a: string, b: string, c: string, d: string)
    ensures a + (b + (c + d)) == a + b + c + d
  {
  }

  function AddressItem(): Item {
    Item(La, Symbolic("a0", "x"), COMMENTED)
  }

  lemma AddressText()
    ensures ItemText(AddressItem()) == "la a0, x # address" && EndsWell(ItemText(AddressItem()))
  {
    LaName();
    hide NameOf, FormLine;
    SymbolicText(La, "a0", "x");
  }

  lemma AddressShape()
    ensures FormOk(AddressItem().form, COMMENTED) && Fits(La, AddressItem().form)
  {
  }

  lemma AddressOk(symbols: seq<Symbol>)
    requires Lookup(symbols, "x").Some?
    ensures ItemOk(symbols, AddressItem()) && ItemSize(AddressItem()) == 2
  {
    hide RegisterValue, Lookup, ItemError, ItemSize, ItemText, FormOk, Fits, EndsWell;
    AddressText();
    AddressShape();
    assert RegisterValue("a0").Ok? by {
      RegistersZeroOne();
    }
    LaError(symbols, AddressItem());
  }

  function EcallItem(): Item {
    Item(Ecall, Bare, Spacing("", "", "", "", ""))
  }

  lemma EcallOk(symbols: seq<Symbol>)
    ensures ItemOk(symbols, EcallItem()) && ItemSize(EcallItem()) == 1 && ItemText(EcallItem()) == "ecall"
  {
    assert ItemText(EcallItem()) == "ecall";
  }

  lemma SmallBlanks()
    ensures AllBlank("") && AllBlank(" ")
  {
  }

  /** A string directive with single blanks. */
  function StringDatum(name: string, title: string, ps: seq<Piece>): Datum {
    Datum(name, " ", Chars(title, "", ps, false, ""), " ")
  }

  lemma StringText(name: string, title: string, ps: seq<Piece>)
    ensures DatumText(StringDatum(name, title, ps))
         == name + ": " + title + " \"" + PiecesText(ps, false) + "\""
  {
    hide PiecesText;
  }

  lemma StringOk(name: string, title: string, ps: seq<Piece>)
    requires IsName(name) && name[0] != '#' && name[0] != '.' && PiecesOk(ps)
    requires title in {".string", ".asciz", ".asciiz"}
    ensures DatumOk(StringDatum(name, title, ps))
    ensures DirectiveSize(StringDatum(name, title, ps).directive) == |PiecesBytes(ps, false)| + 1
  {
    hide PiecesText, PiecesBytes, PiecesOk, IsName, DatumText, EndsWell, AllBlank;
    var d := StringDatum(name, title, ps);
    SmallBlanks();
    StringText(name, title, ps);
    assert EndsWell("\"") by {
      QuoteEnds();
    }
    EndsTogether(name + ": " + title + " \"" + PiecesText(ps, false), "\"");
    assert DirectiveArgs(d.directive)[0] == '"';
  }

  lemma QuoteEnds()
    ensures EndsWell("\"")
  {
  }

  function Message(): Datum {
    StringDatum("x", ".asciiz", [Plain('h'), Plain('i'), Newline])
  }

  lemma MessageText()
    ensures var ps := [Plain('h'), Plain('i'), Newline];
      PiecesText(ps, false) == "hi\\n" && PiecesBytes(ps, false) == [104, 105, 10]
  {
    var ps := [Plain('h'), Plain('i'), Newline];
    assert ps[1..] == [Plain('i'), Newline] && ps[1..][1..] == [Newline] && ps[1..][1..][1..] == [];
  }

  lemma MessageOk()
    ensures DatumOk(Message()) && DatumText(Message()) == "x: .asciiz \"hi\\n\""
    ensures DirectiveSize(Message().directive) == 4
  {
    var ps := [Plain('h'), Plain('i'), Newline];
    MessageText();
    SmallNames();
    hide PiecesText, PiecesBytes, IsName, PiecesOk, DatumOk, DatumText;
    StringOk("x", ".asciiz", ps);
    StringText("x", ".asciiz", ps);
    assert "x" + ": " + ".asciiz" + " \"" + "hi\\n" + "\"" == "x: .asciiz \"hi\\n\"";
  }

  lemma SmallNames()
    ensures IsName("x") && IsName("a") && IsName("b")
    ensures PiecesOk([Plain('h'), Plain('i'), Newline]) && PiecesOk([Other('q')])
  {
  }

  // ----- a whole source -----

  /** A comment, a string in the data segment, a blank line, and its address taken with a comment. */
  const SAMPLE: seq<string> :=
    [ "# sample\n", ".data\n", "x: .asciiz \"hi\\n\"\n", "\n", ".text\n", "la a0, x # address\n", "ecall\n" ]

  lemma Nothing()
    ensures State([], [], "", 0, 0, [])
  {
  }

  lemma SampleData() returns (p: seq<Written>)
    ensures State(p, SAMPLE[..3], "data", 0, 4, [Symbol("x", 0, DataSymbol)])
  {
    hide State, DatumOk, DatumText, DirectiveSize, Lookup;
    MessageOk();
    Nothing();
    LookupMissing([], "x");
    p := AddSkipped([], [], "", 0, 0, [], "# sample");
    var lines := [] + ["# sample" + "\n"];
    p := AddSwitch(p, lines, "", 0, 0, [], "data");
    lines := lines + ["." + "data" + "\n"];
    p := AddData(p, lines, "data", 0, 0, [], Message());
    lines := lines + [DatumText(Message()) + "\n"];
    assert "# sample" + "\n" == "# sample\n" && "." + "data" + "\n" == ".data\n";
    assert "x: .asciiz \"hi\\n\"" + "\n" == "x: .asciiz \"hi\\n\"\n";
    assert lines == SAMPLE[..3];
    assert [] + [Symbol("x", ToWord(0), DataSymbol)] == [Symbol("x", 0, DataSymbol)];
  }

  /** The sample is a written program. */
  lemma SampleWritten() returns (p: seq<Written>)
    ensures State(p, SAMPLE, "text", 12, 4, [Symbol("x", 0, DataSymbol)])
  {
    hide State, ItemOk, ItemSize, ItemText, Lookup;
    var symbols, lines := [Symbol("x", 0, DataSymbol)], SAMPLE[..3];
    p := SampleData();
    LookupFound(symbols, "x", 0);
    AddressOk(symbols);
    AddressText();
    EcallOk(symbols);
    p := AddSkipped(p, lines, "data", 0, 4, symbols, "");
    lines := lines + ["" + "\n"];
    p := AddSwitch(p, lines, "data", 0, 4, symbols, "text");
    lines := lines + ["." + "text" + "\n"];
    p := AddCode(p, lines, "text", 0, 4, symbols, AddressItem());
    lines := lines + [ItemText(AddressItem()) + "\n"];
    p := AddCode(p, lines, "text", 8, 4, symbols, EcallItem());
    lines := lines + [ItemText(EcallItem()) + "\n"];
    assert "" + "\n" == "\n" && "." + "text" + "\n" == ".text\n" && "ecall" + "\n" == "ecall\n";
    assert "la a0, x # address" + "\n" == "la a0, x # address\n";
    assert lines == SAMPLE;
  }

  /** It builds at every base address. */
  lemma SampleBuilds(base: Word)
    ensures Build(base, SAMPLE).Ok? && Build(base, SAMPLE).value.Some?
  {
    hide Build, ProgramOk, TextSize, DataSize, ShowProgram, SymbolsOf, SegmentOf, Builds;
    var p := SampleWritten();
    ProgramBuilds(base, p);
  }

  // ----- an overrun -----

  function FilledPage(): Datum {
    Datum("a", " ", Space([Entry("", "", Printed(2047), ""), Entry("", "", Printed(0), "")], ""), " ")
  }

  function OneEscape(): Datum {
    StringDatum("b", ".string", [Other('q')])
  }

  lemma OneMoreDigit(n: nat)
    ensures n >= 10 ==> PrintInt(n) == PrintInt(n / 10) + [DigitChar(n % 10)]
    ensures n < 10 ==> PrintInt(n) == [DigitChar(n)]
  {
  }

  lemma PrintedNumbers()
    ensures PrintInt(2047) == "2047" && PrintInt(0) == "0"
  {
    hide PrintInt;
    OneMoreDigit(2047);
    OneMoreDigit(204);
    OneMoreDigit(20);
    OneMoreDigit(2);
    OneMoreDigit(0);
  }

  lemma FilledArgs()
    ensures var d := FilledPage().directive;
      DirectiveOk(d) && DirectiveArgs(d) == "2047,0" && DirectiveSize(d) == 2047
  {
    PrintedNumbers();
    PrintedOk(2047);
    PrintedOk(0);
    NumberStops(Magnitude("2047"), "");
    NumberStops(Magnitude("0"), "");
    hide PrintInt, LiteralOk, Complete, Magnitude;
    var entries := FilledPage().directive.entries;
    assert entries[1..] == [Entry("", "", Printed(0), "")];
    assert ListText(entries[1..], "") == "0";
  }

  lemma FilledOk()
    ensures DatumOk(FilledPage()) && DatumText(FilledPage()) == "a: .space 2047,0"
  {
    FilledArgs();
    hide DirectiveOk, DirectiveArgs, DirectiveSize, PrintInt;
    assert DatumText(FilledPage()) == "a: .space 2047,0";
  }

  lemma FilledSize()
    ensures DirectiveSize(FilledPage().directive) == 2047 && FilledPage().name == "a"
  {
  }

  lemma EscapeText()
    ensures PiecesText([Other('q')], false) == "\\q"
  {
    assert [Other('q')][1..] == [];
  }

  lemma EscapeOk()
    ensures DatumOk(OneEscape()) && DatumText(OneEscape()) == "b: .string \"\\q\""
    ensures DirectiveSize(OneEscape().directive) >= 0
  {
    EscapeText();
    SmallNames();
    hide PiecesText, PiecesBytes, IsName, PiecesOk, DatumOk, DatumText;
    StringOk("b", ".string", [Other('q')]);
    StringText("b", ".string", [Other('q')]);
    assert "b" + ": " + ".string" + " \"" + "\\q" + "\"" == "b: .string \"\\q\"";
  }

  const OVERRUN: seq<string> := [ ".data\n", "a: .space 2047,0\n", "b: .string \"\\q\"\n" ]

  lemma FilledData() returns (p: seq<Written>)
    ensures State(p, OVERRUN[..2], "data", 0, 2047, [Symbol("a", 0, DataSymbol)])
  {
    hide State, DatumOk, DatumText, DirectiveSize, Lookup, FilledPage;
    FilledOk();
    FilledSize();
    Nothing();
    LookupMissing([], "a");
    p := AddSwitch([], [], "", 0, 0, [], "data");
    var lines := [] + ["." + "data" + "\n"];
    p := AddData(p, lines, "data", 0, 0, [], FilledPage());
    lines := lines + [DatumText(FilledPage()) + "\n"];
    assert "." + "data" + "\n" == ".data\n" && "a: .space 2047,0" + "\n" == "a: .space 2047,0\n";
    assert lines == OVERRUN[..2];
    assert [] + [Symbol("a", ToWord(0), DataSymbol)] == [Symbol("a", 0, DataSymbol)];
  }

  /** After 2047 bytes the two bytes of one unknown escape no longer fit. */
  lemma OverrunHappens(base: Word)
    ensures ScanOverruns(base, OVERRUN, 2)
  {
    hide State, DatumOk, DatumText, DirectiveSize, Lookup, ScanOverruns, ProgramOk, ShowProgram, SegmentOf,
         TextSize, DataSize, SymbolsOf, LineOk, ShowLine, Overruns, PiecesText;
    EscapeOk();
    var p := FilledData();
    var symbols := [Symbol("a", 0, DataSymbol)];
    LookupMissing(symbols, "b");
    StateParts(p, OVERRUN[..2], "data", 0, 2047, symbols);
    DataIsOk(p, OneEscape());
    OverrunReached(base, p, Ended(Data(OneEscape())));
    EscapeText();
    OneLeft();
    assert "b: .string \"\\q\"" + "\n" == "b: .string \"\\q\"\n";
    assert OVERRUN[..2] + [DatumText(OneEscape()) + "\n"] == OVERRUN;
  }

  lemma StateParts(p: seq<Written>, lines: seq<string>, segment: string, text: int, data: int, symbols: seq<Symbol>)
    requires State(p, lines, segment, text, data, symbols)
    ensures ProgramOk(p) && ShowProgram(p) == lines && |p| == |lines| && SegmentOf(p) == segment
    ensures DataSize(p) == data && SymbolsOf(p) == symbols
  {
    hide ProgramOk, SegmentOf, SymbolsOf, DataSize, TextSize;
  }

  lemma OneLeft()
    ensures Overruns("\\q", 1)
  {
    assert |EscapeStep("\\q").0| == 2;
  }
}
