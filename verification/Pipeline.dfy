/**
  From source lines to a file, and from the file to a running program: the loaded file simulates
  its source, and every `la` finds the bytes its symbol's directive describes.
 */
module Pipeline {
  import opened Bits
  import opened CText
  import opened Errors
  import opened Storage
  import opened Layout
  import opened InstructionTable
  import opened Encoder
  import opened Pseudo
  import opened SymbolTable
  import opened Passes
  import opened Agreement
  import opened Listings
  import opened Source
  import opened Simulation
  import opened ElfLoading
  import Assembler
  import Elf
  import Expansions
  import Isa

  // ----- the file -----

  function EnvAfter(base: Word, c: ScanState): Env {
    Env(base, c.symbols, c.text)
  }

  /** The file for a source; none when the source has no text. */
  function Build(base: Word, lines: seq<string>): Result<Option<seq<Byte>>> {
    var c :- ScanAll(base, lines);
    var outcome := AssembleAll(EnvAfter(base, c), lines);
    match outcome.err
    case Some(e) => Err(e)
    case None =>
      PassesAgree(base, EnvAfter(base, c), lines);
      if outcome.image.text == [] then Ok(None)
      else Ok(Some(Elf.FileImage(base, outcome.image.text, outcome.image.data, 0)))
  }

  /** Both passes, and the writer when there is text; `overrun` when a byte is stored past a buffer,
      which only the first pass ever does. */
  method BuildFile(base: Word, lines: seq<string>) returns (r: Result<Option<seq<Byte>>>, overrun: bool)
    ensures match Build(base, lines)
      case Ok(None) => r == Ok(None)
      case Ok(Some(file)) => r.Ok? && r.value.Some? && r.value.value == file
      case Err(e) => r == Err(e)
    ensures overrun <==> exists k :: 0 <= k < |lines| && ScanOverruns(base, lines, k)
    ensures overrun ==> r.Err?
  {
    hide ScanAll, AssembleAll, Elf.FileImage, ScanOverruns, AssembleOverruns;
    var ctx := new Assembler.Context(base);
    var err;
    err, overrun := ctx.ScanLabels(lines);
    forall k | 0 <= k < |lines| && ScanAll(base, lines).Ok?
      ensures !ScanOverruns(base, lines, k)
    {
      FirstPassInBounds(base, lines, k);
    }
    if err.Some? {
      return Err(err.value), overrun;
    }
    ghost var env := EnvAfter(base, ScanAll(base, lines).value);
    forall k | 0 <= k < |lines|
      ensures !AssembleOverruns(env, lines, k)
    {
      SecondPassInBounds(env, lines, k);
    }
    err, overrun := ctx.AssembleFile(lines);
    if err.Some? {
      return Err(err.value), overrun;
    }
    PassesAgree(base, env, lines);
    if ctx.textSize > 0 {
      var file := Elf.Write(base, ctx.text[..ctx.textSize], ctx.data[..ctx.dataSize], 0);
      return Ok(Some(file)), overrun;
    }
    return Ok(None), overrun;
  }

  /** A source that yields a file, with what its passes know. */
  predicate Builds(env: Env, lines: seq<string>, file: seq<Byte>) {
    && Build(env.base, lines) == Ok(Some(file))
    && env == EnvAfter(env.base, ScanAll(env.base, lines).value)
  }

  function DataOf(env: Env, lines: seq<string>): seq<Byte> {
    AssembleAll(env, lines).image.data
  }

  lemma BuiltFrom(env: Env, lines: seq<string>, file: seq<Byte>)
    requires Builds(env, lines, file)
    ensures Assembled(env, lines)
    ensures Elf.Sizes(|TextOf(env, lines)|, |DataOf(env, lines)|, 0)
    ensures file == Elf.FileImage(env.base, TextOf(env, lines), DataOf(env, lines), 0)
    ensures |TextOf(env, lines)| == env.textSize
  {
    hide ScanAll, AssembleAll, Elf.FileImage;
    PassesAgree(env.base, env, lines);
  }

  /** Loading a built file starts at the first text line and puts both segments in place. */
  lemma BuiltLoads(env: Env, lines: seq<string>, file: seq<Byte>)
    requires Builds(env, lines, file)
    ensures var loaded := Elf.LoadFile(file);
      && loaded.Some?
      && loaded.value.entry == TextVaddr(env.base)
      && InMemory(loaded.value.mem, TextVaddr(env.base), TextOf(env, lines))
      && InMemory(loaded.value.mem, DataVaddr(env.base, env.textSize), DataListing(lines))
  {
    hide Builds, TextOf, AssembleAll, Elf.FileImage, Elf.LoadFile, InMemory, TextVaddr, DataVaddr, DataListing,
         Assembled;
    BuiltFrom(env, lines, file);
    FileLoads(env.base, TextOf(env, lines), DataOf(env, lines), 0);
    assert DataOf(env, lines) == DataListing(lines) by {
      AssembledListing(env, lines);
    }
  }

  lemma AssembledListing(env: Env, lines: seq<string>)
    requires Assembled(env, lines)
    ensures DataOf(env, lines) == DataListing(lines)
  {
    hide AssembleAll, ScanAll, DataListing;
    DataIsListing(env, lines);
  }

  /**
    A built program, loaded from its file and started at its entry point, simulates every run of
    its source as assembled, whatever the registers hold; unless the run executes a lost shift, that
    is the source's own run.
   */
  lemma FileRuns(env: Env, lines: seq<string>, file: seq<Byte>, regs: map<int, Word>, n: nat)
    requires Builds(env, lines, file)
    ensures Elf.LoadFile(file).Some?
    ensures var s := Isa.State(Elf.LoadFile(file).value.entry, regs, Elf.LoadFile(file).value.mem);
      && (AssembledRun(env, lines, n, s).Some? ==>
            exists m :: n <= m <= 2 * n && Isa.Run(m, s) == AssembledRun(env, lines, n, s))
      && (KeepsShifts(env, lines, n, s) ==> AssembledRun(env, lines, n, s) == SourceRun(env, lines, n, s))
  {
    hide Builds, KeepsShifts, Elf.LoadFile, Assembled, InMemory, SourceRun, AssembledRun, Isa.Run, TextOf, TextVaddr;
    BuiltFrom(env, lines, file);
    BuiltLoads(env, lines, file);
    var s := Isa.State(Elf.LoadFile(file).value.entry, regs, Elf.LoadFile(file).value.mem);
    if KeepsShifts(env, lines, n, s) {
      SameRun(env, lines, n, s);
    }
    if AssembledRun(env, lines, n, s).Some? {
      RunSimulated(env, lines, n, s);
    }
  }

  // ----- labels -----

  /** Line `j` is a line of the data segment that carries the label `name`. */
  predicate Defines(lines: seq<string>, j: nat, name: string): (r: bool)
    ensures r ==> j < |lines|
  {
    && j < |lines| && IsContent(lines[j]) && SegmentAfter(lines[..j]) == "data"
    && HasLabel(Trim(lines[j])) && LabelOf(Trim(lines[j])) == name
  }

  /** Entering a label makes it resolve to the offset it was entered with. */
  lemma LabelEntered(c: ScanState, t: string)
    requires HasLabel(t) && c.segment == "data" && ScanLabel(c, t).Ok?
    ensures Lookup(c.symbols, LabelOf(t)).None?
    ensures Lookup(ScanLabel(c, t).value.symbols, LabelOf(t)) == Some(c.data)
  {
    hide HasLabel, LabelOf, Lookup;
    var name := LabelOf(t);
    var last := Symbol(name, c.data, DataSymbol);
    assert ScanLabel(c, t).value.symbols == c.symbols + [last];
    LookupLast(c.symbols, last, name);
  }

  lemma LabelScanned(base: Word, c: ScanState, raw: string)
    requires IsContent(raw) && HasLabel(Trim(raw)) && c.segment == "data" && ScanLine(base, c, raw).Ok?
    ensures var name := LabelOf(Trim(raw));
      Lookup(c.symbols, name).None? && Lookup(ScanLine(base, c, raw).value.symbols, name) == Some(c.data)
  {
    hide Trim, Ignorable, HasLabel, LabelOf, ScanLabel, ScanContent, Lookup, Content;
    var t := Trim(raw);
    LabelEntered(c, t);
    if Content(t) != "" {
      ContentKeepsSymbols(base, ScanLabel(c, t).value, Content(t));
    }
  }

  /** Passing from a prefix to the whole source keeps what resolved. */
  lemma StillResolves(base: Word, lines: seq<string>, k: nat, name: string)
    requires k <= |lines| && ScanAll(base, lines).Ok?
    ensures ScanAll(base, lines[..k]).Ok?
    ensures Lookup(ScanAll(base, lines[..k]).value.symbols, name).Some? ==>
      Lookup(ScanAll(base, lines).value.symbols, name) == Lookup(ScanAll(base, lines[..k]).value.symbols, name)
  {
    hide ScanAll, Lookup;
    SymbolsGrow(base, lines, k);
    var before, after := ScanAll(base, lines[..k]).value.symbols, ScanAll(base, lines).value.symbols;
    if Lookup(before, name).Some? {
      assert after == before + after[|before|..];
      LookupGrows(before, after[|before|..], name);
    }
  }

  /** Both passes on a prefix of an assembled source. */
  lemma PrefixState(env: Env, lines: seq<string>, j: nat)
    requires Assembled(env, lines) && j <= |lines|
    ensures ScanAll(env.base, lines[..j]).Ok? && Assembles(env, lines[..j])
    ensures var c := ScanAll(env.base, lines[..j]).value;
      c.segment == SegmentAfter(lines[..j]) && c.data == |DataListing(lines[..j])|
  {
    hide ScanAll, AssembleAll, DataListing, SegmentAfter;
    ScanPrefix(env.base, lines, j);
    AssemblePrefix(env, lines, j);
    PassesAgree(env.base, env, lines[..j]);
    SegmentTracked(env, lines[..j]);
    DataIsListing(env, lines[..j]);
  }

  /** A label resolves to the number of data bytes before its line. */
  lemma LabelResolves(env: Env, lines: seq<string>, j: nat, name: string)
    requires Assembled(env, lines) && Defines(lines, j, name)
    ensures ScanAll(env.base, lines[..j]).Ok? && Lookup(ScanAll(env.base, lines[..j]).value.symbols, name).None?
    ensures Lookup(env.symbols, name) == Some(|DataListing(lines[..j])|)
  {
    hide ScanLine, DataListing, SegmentAfter, HasLabel, LabelOf, Trim, IsContent, Lookup, Assembles;
    PrefixState(env, lines, j);
    ScanNext(env.base, lines, j);
    StillResolves(env.base, lines, j + 1, name);
    hide ScanAll;
    LabelScanned(env.base, ScanAll(env.base, lines[..j]).value, lines[j]);
  }

  /** No two lines define the same label. */
  lemma DefinedOnce(env: Env, lines: seq<string>, i: nat, j: nat, name: string)
    requires Assembled(env, lines) && Defines(lines, i, name) && Defines(lines, j, name)
    ensures i == j
  {
    if i < j {
      NotAgain(env, lines, i, j, name);
    } else if j < i {
      NotAgain(env, lines, j, i, name);
    }
  }

  lemma NotAgain(env: Env, lines: seq<string>, i: nat, j: nat, name: string)
    requires Assembled(env, lines) && Defines(lines, i, name) && i < j < |lines|
    ensures !Defines(lines, j, name)
  {
    hide ScanAll, AssembleAll, DataListing, SegmentAfter, HasLabel, LabelOf, Trim, IsContent, Lookup;
    if Defines(lines, j, name) {
      LabelResolves(env, lines, j, name);
      PrefixState(env, lines, i);
      var init := lines[..j];
      assert init[..i] == lines[..i] && init[i] == lines[i];
      assert init[..i + 1] == lines[..i + 1];
      StillResolves(env.base, init, i + 1, name);
      LabelAt(env, lines, i, name);
      assert false;
    }
  }

  /** Right after its line a label resolves. */
  lemma LabelAt(env: Env, lines: seq<string>, i: nat, name: string)
    requires Assembled(env, lines) && Defines(lines, i, name)
    ensures ScanAll(env.base, lines[..i + 1]).Ok? && Lookup(ScanAll(env.base, lines[..i + 1]).value.symbols, name).Some?
  {
    hide ScanLine, ScanAll, AssembleAll, DataListing, SegmentAfter, HasLabel, LabelOf, Trim, IsContent, Lookup;
    PrefixState(env, lines, i);
    ScanPrefix(env.base, lines, i + 1);
    ScanNext(env.base, lines, i);
    LabelScanned(env.base, ScanAll(env.base, lines[..i]).value, lines[i]);
  }

  /** Every name that resolves is defined by a line of the data segment. */
  lemma DefinitionExists(env: Env, lines: seq<string>, name: string)
    requires Assembled(env, lines) && Lookup(env.symbols, name).Some?
    ensures exists j :: Defines(lines, j, name)
  {
    hide ScanAll, Lookup, DefinedAt, AssembleAll;
    LookupEntry(env.symbols, name);
    var i :| 0 <= i < |env.symbols| && env.symbols[i].name == name
        && env.symbols[i].offset == Lookup(env.symbols, name).value;
    SymbolsAreData(env.base, env, lines, i);
    var j :| DefinedAt(env, lines, j, env.symbols[i]);
    DefinedDefines(env, lines, j, env.symbols[i]);
  }

  lemma DefinedDefines(env: Env, lines: seq<string>, j: nat, symbol: Symbol)
    requires DefinedAt(env, lines, j, symbol)
    ensures Defines(lines, j, symbol.name)
  {
    hide SegmentAfter, HasLabel, LabelOf, Trim, IsContent, ContentImage, AssembleAll;
    SegmentTracked(env, lines[..j]);
  }

  // ----- la -----

  /** `la rd, name`, `d` being the register `rd` names. */
  predicate IsLa(t: string, d: Reg, name: string) {
    && Sscanf(t, LINE_NAME_FORMAT) == Text("la", NoMore)
    && match Sscanf(t, LA_FORMAT)
       case Text(rd, Text(symbol, NoMore)) => RegisterValue(rd) == Ok(d) && symbol == name
       case _ => false
  }

  lemma LaMeans(env: Env, offset: nat, t: string, d: Reg, name: string)
    requires IsLa(t, d, name) && TextWords(env, offset, t).Ok?
    ensures Lookup(env.symbols, name).Some?
    ensures MeaningOf(env, t) == Some(LoadAddress(d, SymbolVaddr(env, Lookup(env.symbols, name).value)))
  {
    hide Sscanf, FindInstruction, RegisterValue, Lookup, LaLines, SymbolVaddr, Encode, EncodeAll;
    assert FindInstruction("la") == Some(La) by {
      FindByName(La);
    }
    assert RowOf(La).kind == P;
    hide RowOf;
  }

  /** A line `la rd, name` that the first pass accepts names a symbol that is already there. */
  lemma LaScanned(base: Word, c: ScanState, raw: string, d: Reg, name: string)
    requires IsContent(raw) && IsTextSegment(c.segment) && IsLa(Trim(raw), d, name) && ScanLine(base, c, raw).Ok?
    ensures Lookup(c.symbols, name).Some?
  {
    hide Trim, Ignorable, HasLabel, LabelOf, Sscanf, FindInstruction, RegisterValue, Lookup, RowOf, LaLines,
         SymbolVaddr;
    var t := Trim(raw);
    LaFound();
    SameName(t);
    if HasLabel(t) {
      LabelIsNoInstruction(t);
      assert false;
    } else {
      UnlabelledLine(base, c, raw);
    }
  }

  lemma LaFound()
    ensures FindInstruction("la") == Some(La) && RowOf(La).kind == P
  {
    FindByName(La);
    assert NameOf(La) == "la";
  }

  /** In an assembled source the directive of a label stands before every `la` that names it. */
  lemma DefinedBeforeUse(env: Env, lines: seq<string>, j: nat, k: nat, d: Reg, name: string)
    requires Assembled(env, lines) && Defines(lines, j, name)
    requires IsTextLine(lines, k) && IsLa(Trim(lines[k]), d, name)
    ensures j < k
  {
    hide ScanAll, AssembleAll, DataListing, SegmentAfter, HasLabel, LabelOf, Trim, IsContent, Lookup, IsLa, ScanLine,
         IsTextSegment;
    PrefixState(env, lines, k);
    PrefixState(env, lines, k + 1);
    ScanNext(env.base, lines, k);
    LaScanned(env.base, ScanAll(env.base, lines[..k]).value, lines[k], d, name);
    LabelResolves(env, lines, j, name);
    if k <= j {
      var init := lines[..j];
      assert init[..k] == lines[..k];
      StillResolves(env.base, init, k, name);
      assert false;
    }
  }

  lemma {:induction false} ListingGrows(lines: seq<string>, k: nat)
    requires k <= |lines|
    ensures DataListing(lines[..k]) <= DataListing(lines)
    decreases |lines|
  {
    hide SegmentAfter, IsContent, ContentImage, Content, Trim;
    if k < |lines| {
      var init := lines[..|lines| - 1];
      assert init[..k] == lines[..k];
      ListingGrows(init, k);
    } else {
      assert lines[..k] == lines;
    }
  }

  /** The image of the directive on line `j`. */
  function DirectiveBytes(lines: seq<string>, j: nat): seq<Byte>
    requires j < |lines|
  {
    var image := ContentImage(Content(Trim(lines[j])), 0);
    if image.Ok? then image.value else []
  }

  /** A labelled directive extends the data by its own bytes. */
  lemma DirectiveListed(env: Env, lines: seq<string>, j: nat, name: string)
    requires Assembled(env, lines) && Defines(lines, j, name)
    ensures ContentImage(Content(Trim(lines[j])), 0).Ok?
    ensures DataListing(lines[..j + 1]) == DataListing(lines[..j]) + DirectiveBytes(lines, j)
  {
    hide ScanAll, AssembleLine, AssembleAll, SegmentAfter, HasLabel, LabelOf, Trim, IsContent, ContentImage, Content;
    PrefixState(env, lines, j);
    AssemblePrefix(env, lines, j + 1);
    AssembleNext(env, lines, j);
    SegmentTracked(env, lines[..j]);
    DataIsListing(env, lines[..j]);
    DataAppends(env, AssembleAll(env, lines[..j]).image, lines[j]);
    assert lines[..j + 1][..j] == lines[..j];
  }

  /** The bytes of a labelled directive lie in the data segment from its label's offset on. */
  lemma DirectiveInData(env: Env, lines: seq<string>, j: nat, name: string)
    requires Assembled(env, lines) && Defines(lines, j, name)
    ensures ContentImage(Content(Trim(lines[j])), 0).Ok?
    ensures var from := |DataListing(lines[..j])|;
      var to := from + |DirectiveBytes(lines, j)|;
      to <= |DataListing(lines)| && DataListing(lines)[from..to] == DirectiveBytes(lines, j)
  {
    hide Assembled, Defines, DataListing, DirectiveBytes, ContentImage, Content, Trim;
    DirectiveListed(env, lines, j, name);
    ListingGrows(lines, j + 1);
    Middle(DataListing(lines[..j]), DirectiveBytes(lines, j), DataListing(lines));
  }

  lemma Middle(a: seq<Byte>, b: seq<Byte>, whole: seq<Byte>)
    requires a + b <= whole
    ensures |a| + |b| <= |whole| && whole[|a|..|a| + |b|] == b
  {
    assert whole[..|a| + |b|] == a + b;
  }

  /** The address `la` computes for a label is where the loader puts its directive's bytes. */
  lemma SymbolLoaded(env: Env, lines: seq<string>, mem: map<int, Byte>, j: nat, name: string)
    requires Assembled(env, lines) && Defines(lines, j, name)
    requires InMemory(mem, DataVaddr(env.base, env.textSize), DataListing(lines))
    ensures Lookup(env.symbols, name) == Some(|DataListing(lines[..j])|)
    ensures InMemory(mem, SymbolVaddr(env, Lookup(env.symbols, name).value), DirectiveBytes(lines, j))
  {
    hide InMemory, DataVaddr, DataListing, Defines, Assembled, DirectiveBytes, Lookup, ContentImage, Content,
         Trim, ToWord, ScanAll;
    LabelResolves(env, lines, j, name);
    DirectiveInData(env, lines, j, name);
    var from := |DataListing(lines[..j])|;
    PartInMemory(mem, DataVaddr(env.base, env.textSize), DataListing(lines), from, from + |DirectiveBytes(lines, j)|);
  }

  /** Line `k` is a text line. */
  predicate IsTextLine(lines: seq<string>, k: nat): (r: bool)
    ensures r ==> k < |lines|
  {
    k < |lines| && IsTextSegment(SegmentAfter(lines[..k])) && IsContent(lines[k])
  }

  /** The address of a text line: four bytes for every word before it. */
  function LineAddress(env: Env, lines: seq<string>, k: nat): Word
    requires k <= |lines|
  {
    ToWord(TextVaddr(env.base) + 4 * |TextListing(env, lines[..k])|)
  }

  /** The first pass's count at a text line. */
  lemma CountedOffset(env: Env, lines: seq<string>, k: nat)
    requires Assembled(env, lines) && IsTextLine(lines, k)
    ensures IsCodeLine(env.base, lines[..k], lines[k])
    ensures ScanAll(env.base, lines[..k]).value.text == 4 * |TextListing(env, lines[..k])| <= CAPACITY
  {
    hide ScanAll, AssembleAll, TextListing, SegmentAfter, IsContent, IsTextSegment, Words, DataListing;
    PrefixState(env, lines, k);
    PassesAgree(env.base, env, lines[..k]);
    TextIsListing(env, lines[..k]);
  }

  /** The line at the address of a text line is that line, for the source machine too. */
  lemma LineAtAddress(env: Env, lines: seq<string>, k: nat)
    requires Assembled(env, lines) && IsTextLine(lines, k)
    ensures StatementAt(env, lines, LineAddress(env, lines, k)) == MeaningOf(env, Trim(lines[k]))
    ensures TextWords(env, 4 * |TextListing(env, lines[..k])|, Trim(lines[k])).Ok?
  {
    hide ScanAll, AssembleAll, TextListing, IsTextLine, IsCodeLine, Trim, MeaningOf, LineAt, TextWords,
         TextVaddr, ToWord, Words;
    CountedOffset(env, lines, k);
    EveryLineFound(env, lines, k);
    LinePlaced(env, lines, k);
    OffsetOf(env.base, 4 * |TextListing(env, lines[..k])|);
  }

  lemma OffsetOf(base: Word, offset: nat)
    requires offset <= CAPACITY
    ensures ToWord(ToWord(TextVaddr(base) + offset) - TextVaddr(base)) == offset
  {
    ToWordAdds(TextVaddr(base) + offset, 0 - TextVaddr(base));
  }

  /** From its line's address, `la` puts the address of its symbol in the register. */
  lemma LaRunsAt(env: Env, lines: seq<string>, k: nat, d: Reg, name: string, s: Isa.State)
    requires Assembled(env, lines) && TextLoaded(env, lines, s)
    requires IsTextLine(lines, k) && IsLa(Trim(lines[k]), d, name) && s.pc == LineAddress(env, lines, k)
    ensures Lookup(env.symbols, name).Some?
    ensures Isa.Run(2, s) == Some(s.Set(d, SymbolVaddr(env, Lookup(env.symbols, name).value)).Skip(8))
  {
    hide Assembled, TextLoaded, IsTextLine, IsLa, LineAddress, MeaningOf, TextWords, Lookup, SymbolVaddr, Isa.Run,
         StatementAt, Trim, ToWord, Isa.State.Set, Isa.State.Skip, Expansions.Distance;
    LineAtAddress(env, lines, k);
    LaMeans(env, 4 * |TextListing(env, lines[..k])|, Trim(lines[k]), d, name);
    LineSimulated(env, lines, s);
  }

  /** The register holds the address of the directive on line `j`, and its bytes lie there. */
  ghost predicate Reaches(env: Env, lines: seq<string>, j: nat, d: Reg, s: Isa.State)
    requires j < |lines|
  {
    && s.Get(d) == ToWord(DataVaddr(env.base, env.textSize) + |DataListing(lines[..j])|)
    && InMemory(s.mem, s.Get(d), DirectiveBytes(lines, j))
  }

  lemma LaReaches(env: Env, lines: seq<string>, k: nat, d: Reg, name: string, s: Isa.State, j: nat)
    requires Assembled(env, lines) && TextLoaded(env, lines, s)
    requires InMemory(s.mem, DataVaddr(env.base, env.textSize), DataListing(lines))
    requires IsTextLine(lines, k) && IsLa(Trim(lines[k]), d, name) && d != 0 && s.pc == LineAddress(env, lines, k)
    requires Defines(lines, j, name)
    ensures Isa.Run(2, s).Some? && Reaches(env, lines, j, d, Isa.Run(2, s).value)
  {
    hide Assembled, IsTextLine, IsLa, LineAddress, Isa.Run, Lookup, TextLoaded, DataVaddr, DataListing,
         Defines, InMemory, Trim, DirectiveBytes, ToWord;
    LaRunsAt(env, lines, k, d, name, s);
    SymbolLoaded(env, lines, s.mem, j, name);
  }

  /**
    End to end: when the built file is loaded and the two instructions of a line `la rd, name` run,
    the register holds the address where the loader has put the bytes of the directive labelled
    `name`, and there is such a directive (`DefinedOnce`: only one).
   */
  lemma LaReachesDirective(env: Env, lines: seq<string>, file: seq<Byte>, k: nat, d: Reg, name: string, s: Isa.State)
    requires Builds(env, lines, file) && Elf.LoadFile(file).Some? && s.mem == Elf.LoadFile(file).value.mem
    requires IsTextLine(lines, k) && IsLa(Trim(lines[k]), d, name) && d != 0 && s.pc == LineAddress(env, lines, k)
    ensures Isa.Run(2, s).Some?
    ensures exists j :: Defines(lines, j, name)
    ensures forall j :: Defines(lines, j, name) ==> Reaches(env, lines, j, d, Isa.Run(2, s).value)
  {
    hide Builds, Elf.LoadFile, Assembled, IsTextLine, IsLa, LineAddress, Isa.Run, Lookup, TextOf, TextVaddr, DataVaddr,
         DataListing, Defines, InMemory, Trim, Reaches;
    BuiltFrom(env, lines, file);
    BuiltLoads(env, lines, file);
    LaRunsAt(env, lines, k, d, name, s);
    DefinitionExists(env, lines, name);
    forall j | Defines(lines, j, name)
      ensures Reaches(env, lines, j, d, Isa.Run(2, s).value)
    {
      LaReaches(env, lines, k, d, name, s, j);
    }
  }
}
