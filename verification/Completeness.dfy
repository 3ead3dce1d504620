/**
  Every list of machine instructions can be assembled: written one a line it builds exactly when it
  fits the text segment, and the text is the instructions' words.
 */
module Completeness {
  import opened Bits
  import opened CText
  import opened Errors
  import opened Storage
  import opened Layout
  import opened InstructionTable
  import opened Encoder
  import opened Encoding
  import opened Pseudo
  import opened Expansions
  import opened Passes
  import opened Printing
  import opened Notation
  import opened Pipeline
  import Simulation
  import Listings
  import Elf
  import ElfLoading
  import Isa

  datatype Coded = Coded(m: Mnemonic, o: Operands)

  predicate AllAccepted(code: seq<Coded>) {
    forall i :: 0 <= i < |code| ==> Accepted(code[i].m, code[i].o)
  }

  function ShowAll(code: seq<Coded>): (lines: seq<string>)
    ensures |lines| == |code|
  {
    if code == [] then [] else ShowAll(code[..|code| - 1]) + [Show(code[|code| - 1].m, code[|code| - 1].o)]
  }

  function PackAll(code: seq<Coded>): (words: seq<Word>)
    requires AllAccepted(code)
    ensures |words| == |code|
  {
    if code == [] then []
    else
      var last := code[|code| - 1];
      NotPseudo(last.m, last.o);
      PackAll(code[..|code| - 1]) + [Pack(last.m, last.o)]
  }

  // ----- one line -----

  lemma RegisterEnds(r: Reg)
    ensures EndsWell(RegName(r))
  {
    hide RegName, RegisterValue;
    RegisterNames(r);
  }

  lemma NumberEnds(n: int)
    ensures EndsWell(PrintInt(n))
  {
    var d := Decimal(if n < 0 then 0 - n else n);
    hide Decimal;
    assert PrintInt(n)[|PrintInt(n)| - 1] == d[|d| - 1];
  }

  lemma ShowEnds(m: Mnemonic, o: Operands)
    ensures EndsWell(Show(m, o))
  {
    hide RegName, NameOf, PrintInt, EndsWell, FormLine, RowOf;
    RegisterEnds(o.rs2);
    NumberEnds(o.imm);
    WordEnds(m);
    PlainText(m, FormOf(m, o));
    match FormOf(m, o)
    case Registers(a, b, c) =>
      EndsTogether(" " + a + ", " + b + ", ", c);
      EndsTogether(NameOf(m), " " + a + ", " + b + ", " + c);
    case Numbered(a, b, n) =>
      EndsTogether(" " + a + ", " + b + ", ", n.text);
      EndsTogether(NameOf(m), " " + a + ", " + b + ", " + n.text);
    case Offset(a, n, base) =>
      EndsTogether(" " + a + ", " + n.text + "(" + base, ")");
      EndsTogether(NameOf(m), " " + a + ", " + n.text + "(" + base + ")");
    case Upper(a, n) =>
      EndsTogether(" " + a + ", ", n.text);
      EndsTogether(NameOf(m), " " + a + ", " + n.text);
    case Bare => assert NameOf(m) + "" == NameOf(m);
    case _ =>
  }

  lemma WordEnds(m: Mnemonic)
    ensures EndsWell(")") && EndsWell(NameOf(m))
  {
    hide NameOf;
    NameShape(m);
  }

  /** A line that starts with a mnemonic is a content line without a label. */
  lemma NamedLine(m: Mnemonic, rest: string)
    requires (rest == "" || IsSpace(rest[0])) && EndsWell(NameOf(m) + rest)
    ensures var t := NameOf(m) + rest;
      && Trim(t) == t && IsContent(t) && !HasLabel(t)
      && Sscanf(t, NAME_FORMAT) == Text(NameOf(m), NoMore) && Sscanf(t, LINE_NAME_FORMAT) == Text(NameOf(m), NoMore)
  {
    hide NameOf, Sscanf, TokenRun, SkipSpace, Trim, EndsWell, HasLabel, IsContent;
    var t := NameOf(m) + rest;
    NameFound(m, rest);
    SameName(t);
    NameShape(m);
    assert t[0] == NameOf(m)[0];
    PlainContent(t);
    NoLabel(m, rest);
  }

  lemma ShownLine(m: Mnemonic, o: Operands)
    ensures var t := Show(m, o);
      Trim(t) == t && IsContent(t) && !HasLabel(t) && Sscanf(t, NAME_FORMAT) == Text(NameOf(m), NoMore)
  {
    hide Show, NameOf, Sscanf, Trim, EndsWell, HasLabel, IsContent;
    var rest := ShowHead(m, o);
    ShowEnds(m, o);
    NamedLine(m, rest);
  }

  lemma PlainContent(t: string)
    requires EndsWell(t) && 'a' <= t[0] <= 'z'
    ensures Trim(t) == t && IsContent(t)
  {
    SkipNone(t);
    TrimNothing(t);
  }

  lemma NoLabel(m: Mnemonic, rest: string)
    requires rest == "" || IsSpace(rest[0])
    ensures !HasLabel(NameOf(m) + rest)
  {
    hide NameOf, TokenRun, SkipSpace;
    var t := NameOf(m) + rest;
    NameShape(m);
    NameIsWord(m);
    assert t[0] == NameOf(m)[0];
    SkipNone(t);
    TokenRunAll(NameOf(m), rest);
    assert t[..|NameOf(m)|] == NameOf(m);
  }

  // ----- all lines -----

  lemma ShowScanned(base: Word, c: ScanState, m: Mnemonic, o: Operands)
    requires Accepted(m, o) && c.segment == ""
    ensures ScanLine(base, c, Show(m, o)) == Ok(c.(text := ToWord(c.text + 4)))
  {
    hide Show, NameOf, Sscanf, FindInstruction, RowOf, Trim, HasLabel, Ignorable, Accepted, Expand;
    ShownLine(m, o);
    FindByName(m);
    NotPseudo(m, o);
  }

  lemma {:induction false} InstructionsScan(base: Word, code: seq<Coded>)
    requires AllAccepted(code)
    ensures ScanAll(base, ShowAll(code)) == Ok(ScanState("", ToWord(4 * |code|), 0, []))
    decreases |code|
  {
    hide ScanLine, Show, Accepted;
    if code != [] {
      var init, last := code[..|code| - 1], code[|code| - 1];
      InstructionsScan(base, init);
      assert ShowAll(code)[..|code| - 1] == ShowAll(init);
      ShowScanned(base, ScanState("", ToWord(4 * |init|), 0, []), last.m, last.o);
      ToWordAdds(4 * |init|, 4);
    }
  }

  lemma ShowAssembled(env: Env, a: Image, m: Mnemonic, o: Operands)
    requires Accepted(m, o) && a.segment == ""
    ensures RowOf(m).kind != P
    ensures var r := AssembleLine(env, a, Show(m, o));
      if |a.text| + 4 <= CAPACITY then r == Ok(a.(text := a.text + Words([Pack(m, o)]))) else r == Err(GeneralError)
  {
    hide Show, Sscanf, RowOf, Trim, HasLabel, Ignorable, Accepted, TextWords, Pack, Words;
    ShownLine(m, o);
    ShowText(env, |a.text|, m, o);
  }

  lemma {:induction false} InstructionsAssemble(env: Env, code: seq<Coded>)
    requires AllAccepted(code) && 4 * |code| <= CAPACITY
    ensures AssembleAll(env, ShowAll(code)) == Outcome(Image("", Words(PackAll(code)), []), None)
    decreases |code|
  {
    hide AssembleLine, Show, Accepted, Pack, LittleEndian;
    if code != [] {
      var init, last := code[..|code| - 1], code[|code| - 1];
      InstructionsAssemble(env, init);
      assert ShowAll(code)[..|code| - 1] == ShowAll(init);
      ShowAssembled(env, Image("", Words(PackAll(init)), []), last.m, last.o);
      Listings.WordsJoin(PackAll(init), [Pack(last.m, last.o)]);
    }
  }

  lemma {:induction false} ShowPrefix(code: seq<Coded>, k: nat)
    requires k <= |code|
    ensures ShowAll(code)[..k] == ShowAll(code[..k])
    decreases |code|
  {
    hide Show;
    if k < |code| {
      var init := code[..|code| - 1];
      ShowPrefix(init, k);
      assert init[..k] == code[..k];
      assert ShowAll(code)[..k] == ShowAll(init)[..k];
    } else {
      assert code[..k] == code;
    }
  }

  lemma LastShown(code: seq<Coded>, k: nat)
    requires k < |code|
    ensures ShowAll(code)[k] == Show(code[k].m, code[k].o)
  {
    hide Show;
    ShowPrefix(code, k + 1);
    assert code[..k + 1][..k] == code[..k];
    assert ShowAll(code)[k] == ShowAll(code)[..k + 1][k];
  }

  /** One instruction too many stops the second pass. */
  lemma TooMany(env: Env, code: seq<Coded>)
    requires AllAccepted(code) && 4 * |code| > CAPACITY
    ensures AssembleAll(env, ShowAll(code)).err == Some(GeneralError)
  {
    hide AssembleLine, AssembleAll, Show, Accepted, Pack, ShowAll, PackAll;
    var k, lines := CAPACITY / 4, ShowAll(code);
    ShowPrefix(code, k);
    InstructionsAssemble(env, code[..k]);
    LastShown(code, k);
    AssembleNext(env, lines, k);
    ShowAssembled(env, Image("", Words(PackAll(code[..k])), []), code[k].m, code[k].o);
    AssembleFails(env, lines, k + 1);
  }

  lemma {:induction false} PackAt(code: seq<Coded>, i: nat)
    requires AllAccepted(code) && i < |code|
    ensures RowOf(code[i].m).kind != P && PackAll(code)[i] == Pack(code[i].m, code[i].o)
    decreases |code|
  {
    hide Accepted, Pack, RowOf;
    NotPseudo(code[i].m, code[i].o);
    if i < |code| - 1 {
      PackAt(code[..|code| - 1], i);
    }
  }

  /** A list of instructions builds exactly when it fits, to the file with its words as the text. */
  lemma ListBuilds(base: Word, code: seq<Coded>)
    requires AllAccepted(code) && code != []
    ensures Build(base, ShowAll(code)).Ok? <==> 4 * |code| <= CAPACITY
    ensures 4 * |code| <= CAPACITY ==>
      && Build(base, ShowAll(code)).value.Some?
      && Build(base, ShowAll(code)).value.value == Elf.FileImage(base, Words(PackAll(code)), [], 0)
  {
    hide ScanAll, AssembleAll, ShowAll, Accepted, Words, PackAll, Elf.FileImage;
    InstructionsScan(base, code);
    var env := EnvAfter(base, ScanState("", ToWord(4 * |code|), 0, []));
    if 4 * |code| <= CAPACITY {
      InstructionsAssemble(env, code);
      assert |Words(PackAll(code))| == 4 * |code|;
    } else {
      TooMany(env, code);
    }
  }

  /**
    Completeness: every list of accepted instructions that fits builds, and when its file is loaded
    the word fetched for the i-th instruction decodes to that instruction, misencoded right shifts apart.
   */
  lemma EveryListLoads(base: Word, code: seq<Coded>, i: nat)
    requires AllAccepted(code) && i < |code| && 4 * |code| <= CAPACITY
    ensures Build(base, ShowAll(code)).Ok? && Build(base, ShowAll(code)).value.Some?
    ensures var loaded := Elf.LoadFile(Build(base, ShowAll(code)).value.value);
      && loaded.Some? && loaded.value.entry == TextVaddr(base)
      && var w := ToWord(Isa.ReadMem(loaded.value.mem, ToWord(TextVaddr(base) + 4 * i), 4));
         Isa.Decode(w) == Named(code[i].m, code[i].o) <==> !Misencoded(code[i].m, code[i].o.imm)
  {
    hide Build, ShowAll, Accepted, Words, PackAll, Pack, Elf.FileImage, Elf.LoadFile, Isa.Decode, Isa.ReadMem,
         Named, Misencoded, RowOf, InMemory, TextVaddr, DataVaddr, ToWord;
    ListBuilds(base, code);
    var words := PackAll(code);
    assert |Words(words)| == 4 * |words|;
    ElfLoading.FileLoads(base, Words(words), [], 0);
    var loaded := Elf.LoadFile(Elf.FileImage(base, Words(words), [], 0)).value;
    Simulation.FetchAt(loaded.mem, TextVaddr(base), words, i);
    PackAt(code, i);
    DecodesToNamed(code[i].m, code[i].o);
  }
}
