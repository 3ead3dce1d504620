/**
  Runs of assembled programs: a source-level machine that executes lines, and the proof that
  fetching, decoding and executing the assembled words simulates it.
 */
module Simulation {
  import opened Bits
  import opened CText
  import opened Storage
  import opened Layout
  import opened Pseudo
  import opened Passes
  import opened Agreement
  import opened Source
  import Isa

  // ----- a line's words in memory -----

  lemma FetchAt(mem: map<int, Byte>, a: Word, words: seq<Word>, i: nat)
    requires i < |words| && InMemory(mem, a, Words(words))
    ensures ToWord(Isa.ReadMem(mem, ToWord(a + 4 * i), 4)) == words[i]
  {
    hide InMemory, Words, LittleEndian, Isa.ReadMem, ToWord;
    WordAt(words, i);
    PartInMemory(mem, a, Words(words), 4 * i, 4 * i + 4);
    FetchWord(mem, ToWord(a + 4 * i), words[i]);
  }

  lemma OneStep(s: Isa.State)
    ensures Isa.Run(1, s) == Isa.Step(s)
  {
    hide Isa.Step;
    if Isa.Step(s).Some? {
      assert Isa.Run(0, Isa.Step(s).value) == Isa.Step(s);
    }
  }

  lemma FetchExecute(words: seq<Word>, code: seq<Isa.Instr>, a: Word, s: Isa.State, i: nat)
    requires Isa.DecodesTo(words, code) && i < |words|
    requires InMemory(s.mem, a, Words(words)) && s.pc == ToWord(a + 4 * i)
    ensures Isa.Step(s) == Isa.Execute(code[i], s)
  {
    hide InMemory, Words, Isa.ReadMem, Isa.Execute, Isa.Decode, ToWord;
    FetchAt(s.mem, a, words, i);
  }

  /** The first of two words builds an upper immediate and falls through. */
  lemma CodeShape(stmt: Statement, pc: Word)
    requires StatementOk(stmt)
    ensures 1 <= |CodeOf(stmt, pc)| <= 2
    ensures |CodeOf(stmt, pc)| == 2 ==> CodeOf(stmt, pc)[0].Lui? || CodeOf(stmt, pc)[0].Auipc?
  {
    hide Expansions.PairCode, Expansions.Distance, Lo12, Hi20;
  }

  lemma UpperFallsThrough(i: Isa.Instr, s: Isa.State)
    requires i.Lui? || i.Auipc?
    ensures Isa.Execute(i, s).Some?
    ensures var t := Isa.Execute(i, s).value; t.mem == s.mem && t.pc == ToWord(s.pc + 4)
  {
  }

  lemma SamePc(s: Isa.State)
    ensures s.pc == ToWord(s.pc + 4 * 0)
  {
  }

  /** Running a statement's words from memory is executing its code. */
  lemma CodeRuns(stmt: Statement, words: seq<Word>, s: Isa.State)
    requires StatementOk(stmt) && Isa.DecodesTo(words, CodeOf(stmt, s.pc))
    requires InMemory(s.mem, s.pc, Words(words))
    ensures 1 <= |words| <= 2
    ensures Isa.Run(|words|, s) == Isa.ExecuteAll(CodeOf(stmt, s.pc), s)
  {
    var code := CodeOf(stmt, s.pc);
    hide CodeOf, StatementOk, Isa.Execute, Isa.Step, Isa.ExecuteAll, Isa.Decode, InMemory, Words, ToWord;
    CodeShape(stmt, s.pc);
    SamePc(s);
    FetchExecute(words, code, s.pc, s, 0);
    if |code| == 1 {
      OneStep(s);
      assert code == [code[0]];
      Isa.ExecuteOne(code[0], s);
    } else {
      UpperFallsThrough(code[0], s);
      var t := Isa.Execute(code[0], s).value;
      FetchExecute(words, code, s.pc, t, 1);
      OneStep(t);
      assert code == [code[0], code[1]];
      Isa.ExecuteTwo(code[0], code[1], s);
    }
  }

  // ----- where lines are -----

  /** The line after `before` is a line of the text segment with an instruction. */
  predicate IsCodeLine(base: Word, before: seq<string>, line: string) {
    && ScanAll(base, before).Ok?
    && IsTextSegment(ScanAll(base, before).value.segment)
    && IsContent(line)
  }

  /** The text line whose code starts at `offset`, by the first pass's count. */
  function LineAt(base: Word, lines: seq<string>, offset: Word): (k: Option<nat>)
    ensures k.Some? ==> k.value < |lines|
  {
    if lines == [] then None
    else
      var k := |lines| - 1;
      if IsCodeLine(base, lines[..k], lines[k]) && ScanAll(base, lines[..k]).value.text == offset then Some(k)
      else LineAt(base, lines[..k], offset)
  }

  /** What both passes leave behind: symbols and text size of the first, and no error in the second. */
  predicate Assembled(env: Env, lines: seq<string>) {
    && ScanAll(env.base, lines).Ok?
    && env.symbols == ScanAll(env.base, lines).value.symbols
    && env.textSize == ScanAll(env.base, lines).value.text
    && Assembles(env, lines)
  }

  function TextOf(env: Env, lines: seq<string>): seq<Byte> {
    AssembleAll(env, lines).image.text
  }

  /** The words of line `k` lie where the first pass counted. */
  ghost predicate PlacedAt(env: Env, lines: seq<string>, k: nat)
    requires k < |lines| && ScanAll(env.base, lines[..k]).Ok?
  {
    var offset := ScanAll(env.base, lines[..k]).value.text;
    var words := TextWords(env, offset, Trim(lines[k]));
    && words.Ok?
    && offset + 4 * |words.value| <= |TextOf(env, lines)|
    && TextOf(env, lines)[offset..offset + 4 * |words.value|] == Words(words.value)
  }

  lemma CodeAppended(env: Env, a: Image, raw: string)
    requires AssembleLine(env, a, raw).Ok?
    requires IsTextSegment(a.segment) && IsContent(raw)
    ensures var words := TextWords(env, |a.text|, Trim(raw));
      words.Ok? && AssembleLine(env, a, raw).value.text == a.text + Words(words.value)
  {
    hide TextWords, Trim, Ignorable, Words;
  }

  lemma LastPlaced(env: Env, lines: seq<string>)
    requires lines != [] && ScanAll(env.base, lines).Ok? && Assembles(env, lines)
    requires IsCodeLine(env.base, lines[..|lines| - 1], lines[|lines| - 1])
    ensures PlacedAt(env, lines, |lines| - 1)
  {
    hide ScanLine, AssembleLine, TextWords, Trim, Ignorable, Words, IsTextSegment;
    var init := lines[..|lines| - 1];
    PassesAgree(env.base, env, init);
    var a := AssembleAll(env, init).image;
    CodeAppended(env, a, lines[|lines| - 1]);
    var words := TextWords(env, |a.text|, Trim(lines[|lines| - 1])).value;
    assert TextOf(env, lines) == a.text + Words(words);
    assert (a.text + Words(words))[|a.text|..|a.text| + 4 * |words|] == Words(words);
  }

  lemma {:induction false} LinePlaced(env: Env, lines: seq<string>, k: nat)
    requires k < |lines| && ScanAll(env.base, lines).Ok? && Assembles(env, lines)
    requires IsCodeLine(env.base, lines[..k], lines[k])
    ensures PlacedAt(env, lines, k)
    decreases |lines|
  {
    hide ScanLine, AssembleLine, TextWords, Trim, Ignorable, Words;
    if k == |lines| - 1 {
      LastPlaced(env, lines);
    } else {
      var init := lines[..|lines| - 1];
      assert init[..k] == lines[..k];
      LinePlaced(env, init, k);
      LineExtends(env, AssembleAll(env, init).image, lines[|lines| - 1]);
      var offset := ScanAll(env.base, lines[..k]).value.text;
      SamePart(TextOf(env, init), TextOf(env, lines), offset,
          offset + 4 * |TextWords(env, offset, Trim(lines[k])).value|);
    }
  }

  // ----- the source machine -----

  /** A store into the text segment, which the source machine does not perform. */
  predicate Overwrites(stmt: Statement, s: Isa.State, start: Word, size: nat) {
    && stmt.Machine? && stmt.instr.Store?
    && !Apart(ToWord(s.Get(stmt.instr.rs1) + stmt.instr.imm), Isa.AccessSize(stmt.instr.access), start, size)
  }

  /** The statement on the line that starts at the state's program counter. */
  function StatementAt(env: Env, lines: seq<string>, pc: Word): Option<Statement> {
    match LineAt(env.base, lines, ToWord(pc - TextVaddr(env.base)))
    case Some(k) => MeaningOf(env, Trim(lines[k]))
    case None => None
  }

  /** One line; the machine stops where no line starts and before a store into the text. */
  function SourceStep(env: Env, lines: seq<string>, s: Isa.State): Option<Isa.State> {
    match StatementAt(env, lines, s.pc)
    case Some(stmt) => if Overwrites(stmt, s, TextVaddr(env.base), env.textSize) then None else Effect(stmt, s)
    case None => None
  }

  /** `n` lines. */
  function SourceRun(env: Env, lines: seq<string>, n: nat, s: Isa.State): Option<Isa.State>
    decreases n
  {
    if n == 0 then Some(s)
    else
      match SourceStep(env, lines, s)
      case Some(t) => SourceRun(env, lines, n - 1, t)
      case None => None
  }

  // ----- simulation -----

  /** A line found by offset is a line of code at that offset. */
  lemma {:induction false} LineAtIsCode(base: Word, lines: seq<string>, offset: Word)
    requires LineAt(base, lines, offset).Some?
    ensures var k := LineAt(base, lines, offset).value;
      IsCodeLine(base, lines[..k], lines[k]) && ScanAll(base, lines[..k]).value.text == offset
    decreases |lines|
  {
    hide ScanAll, Trim, Ignorable, IsTextSegment;
    var last := |lines| - 1;
    if !(IsCodeLine(base, lines[..last], lines[last]) && ScanAll(base, lines[..last]).value.text == offset) {
      LineAtIsCode(base, lines[..last], offset);
      var k := LineAt(base, lines, offset).value;
      assert lines[..last][..k] == lines[..k];
    }
  }

  lemma Address(base: Word, pc: Word)
    ensures ToWord(TextVaddr(base) + ToWord(pc - TextVaddr(base))) == pc
  {
    ToWordAdds(pc - TextVaddr(base), TextVaddr(base));
  }

  /** The words of line `k` lie in memory at the address of its offset. */
  lemma LineLoaded(env: Env, lines: seq<string>, k: nat, mem: map<int, Byte>)
    requires k < |lines| && Assembled(env, lines) && IsCodeLine(env.base, lines[..k], lines[k])
    requires InMemory(mem, TextVaddr(env.base), TextOf(env, lines))
    ensures var offset := ScanAll(env.base, lines[..k]).value.text;
      var words := TextWords(env, offset, Trim(lines[k]));
      words.Ok? && InMemory(mem, ToWord(TextVaddr(env.base) + offset), Words(words.value))
  {
    hide ScanAll, AssembleAll, TextWords, InMemory, Words, Trim, Ignorable, IsTextSegment, TextVaddr, ToWord, TextOf;
    LinePlaced(env, lines, k);
    var offset := ScanAll(env.base, lines[..k]).value.text;
    var words := TextWords(env, offset, Trim(lines[k])).value;
    PartInMemory(mem, TextVaddr(env.base), TextOf(env, lines), offset, offset + 4 * |words|);
  }

  /** The words of the statement at the program counter lie there. */
  lemma StatementLoaded(env: Env, lines: seq<string>, s: Isa.State) returns (words: seq<Word>)
    requires Assembled(env, lines) && InMemory(s.mem, TextVaddr(env.base), TextOf(env, lines))
    requires StatementAt(env, lines, s.pc).Some?
    ensures var stmt := StatementAt(env, lines, s.pc).value;
      && StatementOk(stmt) && ShiftInRange(stmt)
      && InMemory(s.mem, s.pc, Words(words))
      && Isa.DecodesTo(words, CodeOf(stmt, s.pc))
  {
    hide ScanAll, TextWords, MeaningOf, CodeOf, InMemory, Isa.DecodesTo, Words, IsCodeLine, TextVaddr, ToWord,
         StatementOk, ShiftInRange, LineAt, Assembled, TextOf, Trim;
    var offset := ToWord(s.pc - TextVaddr(env.base));
    LineAtIsCode(env.base, lines, offset);
    var k := LineAt(env.base, lines, offset).value;
    LineLoaded(env, lines, k, s.mem);
    words := TextWords(env, offset, Trim(lines[k])).value;
    Address(env.base, s.pc);
    LineCompiled(env, offset, Trim(lines[k]));
    MeaningWellFormed(env, Trim(lines[k]));
  }

  /** Only a store changes memory. */
  lemma OnlyStoresWrite(stmt: Statement, s: Isa.State)
    requires Effect(stmt, s).Some?
    ensures stmt.Machine? && stmt.instr.Store? ==>
      Effect(stmt, s).value.mem == Isa.WriteMem(s.mem, ToWord(s.Get(stmt.instr.rs1) + stmt.instr.imm),
                                                Isa.AccessSize(stmt.instr.access), s.Get(stmt.instr.rs2))
    ensures !(stmt.Machine? && stmt.instr.Store?) ==> Effect(stmt, s).value.mem == s.mem
  {
    hide Isa.Compute, Isa.Holds, Isa.LoadValue, Isa.WriteMem, Isa.AccessSize, ToWord, Expansions.PairValue, LiSize;
  }

  lemma TextSurvives(stmt: Statement, s: Isa.State, start: Word, bytes: seq<Byte>)
    requires InMemory(s.mem, start, bytes) && !Overwrites(stmt, s, start, |bytes|) && Effect(stmt, s).Some?
    ensures InMemory(Effect(stmt, s).value.mem, start, bytes)
  {
    hide Effect, InMemory, Isa.WriteMem, Apart, Isa.AccessSize, ToWord;
    OnlyStoresWrite(stmt, s);
    if stmt.Machine? && stmt.instr.Store? {
      var a := ToWord(s.Get(stmt.instr.rs1) + stmt.instr.imm);
      WriteElsewhere(s.mem, a, Isa.AccessSize(stmt.instr.access), s.Get(stmt.instr.rs2), start, bytes);
    }
  }

  lemma TextSize(env: Env, lines: seq<string>)
    requires Assembled(env, lines)
    ensures |TextOf(env, lines)| == env.textSize
  {
    hide ScanAll, AssembleAll;
    PassesAgree(env.base, env, lines);
  }

  /** None of the `n` lines that run from the state is an arithmetic right shift the encoder loses. */
  predicate KeepsShifts(env: Env, lines: seq<string>, n: nat, s: Isa.State)
    decreases n
  {
    n == 0
    || (&& (StatementAt(env, lines, s.pc).Some? ==> !ShiftLost(StatementAt(env, lines, s.pc).value))
        && (SourceStep(env, lines, s).Some? ==> KeepsShifts(env, lines, n - 1, SourceStep(env, lines, s).value)))
  }

  /** The assembled text lies in memory where the loader puts it. */
  ghost predicate TextLoaded(env: Env, lines: seq<string>, s: Isa.State) {
    InMemory(s.mem, TextVaddr(env.base), TextOf(env, lines))
  }

  /** The statement a line's words carry out: an arithmetic right shift by a constant becomes logical. */
  function AsAssembled(stmt: Statement): (r: Statement)
    ensures !IsArithmeticShift(r)
  {
    if IsArithmeticShift(stmt) then Machine(Isa.OpImm(Isa.SRL, stmt.instr.rd, stmt.instr.rs1, stmt.instr.imm)) else stmt
  }

  lemma SameCode(stmt: Statement, pc: Word, s: Isa.State, start: Word, size: nat)
    requires StatementOk(stmt)
    ensures CodeOf(AsAssembled(stmt), pc) == CodeOf(stmt, pc) && StatementOk(AsAssembled(stmt))
    ensures Overwrites(AsAssembled(stmt), s, start, size) <==> Overwrites(stmt, s, start, size)
  {
    hide Expansions.LiCode, Expansions.LaCode, Expansions.PairCode, Expansions.Distance, Apart, ToWord;
  }

  /**
    One line: from any state with the text in memory, one or two machine steps do what the line at
    the program counter was assembled to, which is what it means unless its shift is lost, and the
    machine stops when the line stops it. The text stays unless the line stores into it.
   */
  lemma LineSimulated(env: Env, lines: seq<string>, s: Isa.State)
    requires Assembled(env, lines) && TextLoaded(env, lines, s) && StatementAt(env, lines, s.pc).Some?
    ensures var stmt := StatementAt(env, lines, s.pc).value;
      var n := |CodeOf(stmt, s.pc)|;
      && 1 <= n <= 2 && Isa.Run(n, s) == Effect(AsAssembled(stmt), s)
      && (!ShiftLost(stmt) ==> Isa.Run(n, s) == Effect(stmt, s))
      && (Isa.Run(n, s).Some? && !Overwrites(stmt, s, TextVaddr(env.base), env.textSize) ==>
            TextLoaded(env, lines, Isa.Run(n, s).value))
  {
    hide CodeOf, Effect, InMemory, Isa.DecodesTo, Words, TextVaddr, StatementOk, ShiftInRange, LineAt, Assembled,
         TextOf, Trim, MeaningOf, ShiftLost, Overwrites, Isa.Run, Isa.ExecuteAll, Isa.Decode, AsAssembled,
         IsArithmeticShift, StatementAt;
    var stmt := StatementAt(env, lines, s.pc).value;
    var words := StatementLoaded(env, lines, s);
    CodeRuns(stmt, words, s);
    DecodedCount(words, CodeOf(stmt, s.pc));
    SameCode(stmt, s.pc, s, TextVaddr(env.base), env.textSize);
    CodeMeans(AsAssembled(stmt), s);
    if !ShiftLost(stmt) {
      StatementMeans(stmt, s);
    }
    TextSize(env, lines);
    if Isa.Run(|words|, s).Some? && !Overwrites(stmt, s, TextVaddr(env.base), env.textSize) {
      TextSurvives(AsAssembled(stmt), s, TextVaddr(env.base), TextOf(env, lines));
    }
  }

  lemma DecodedCount(words: seq<Word>, code: seq<Isa.Instr>)
    requires Isa.DecodesTo(words, code)
    ensures |words| == |code|
  {
  }

  /** One line as it was assembled, with the stops of `SourceStep`. */
  function AssembledStep(env: Env, lines: seq<string>, s: Isa.State): Option<Isa.State> {
    match StatementAt(env, lines, s.pc)
    case Some(stmt) =>
      if Overwrites(stmt, s, TextVaddr(env.base), env.textSize) then None else Effect(AsAssembled(stmt), s)
    case None => None
  }

  function AssembledRun(env: Env, lines: seq<string>, n: nat, s: Isa.State): Option<Isa.State>
    decreases n
  {
    if n == 0 then Some(s)
    else
      match AssembledStep(env, lines, s)
      case Some(t) => AssembledRun(env, lines, n - 1, t)
      case None => None
  }

  lemma SameStep(env: Env, lines: seq<string>, s: Isa.State)
    requires StatementAt(env, lines, s.pc).Some? ==> !ShiftLost(StatementAt(env, lines, s.pc).value)
    ensures AssembledStep(env, lines, s) == SourceStep(env, lines, s)
  {
    hide Effect, MeaningOf, Trim, AsAssembled, CodeOf, LineAt, StatementOk, ShiftInRange, ShiftLost, Overwrites,
         ToWord, TextVaddr;
    var k := LineAt(env.base, lines, ToWord(s.pc - TextVaddr(env.base)));
    if StatementAt(env, lines, s.pc).Some? {
      var stmt := StatementAt(env, lines, s.pc).value;
      MeaningWellFormed(env, Trim(lines[k.value]));
      SameCode(stmt, s.pc, s, TextVaddr(env.base), env.textSize);
      CodeMeans(AsAssembled(stmt), s);
      StatementMeans(stmt, s);
    }
  }

  /** A run that executes no lost shift is the source's own. */
  lemma {:induction false} SameRun(env: Env, lines: seq<string>, n: nat, s: Isa.State)
    requires KeepsShifts(env, lines, n, s)
    ensures AssembledRun(env, lines, n, s) == SourceRun(env, lines, n, s)
    decreases n
  {
    hide AssembledStep, SourceStep, ShiftLost, StatementAt;
    if n > 0 {
      SameStep(env, lines, s);
      if SourceStep(env, lines, s).Some? {
        SameRun(env, lines, n - 1, SourceStep(env, lines, s).value);
      }
    }
  }

  /**
    Compilation preserves meaning: every run of `n` lines as assembled is a run of between `n` and
    `2 * n` machine instructions from memory, ending in the same state with the text still in place;
    and it is the source's own run unless a lost shift is executed.
   */
  lemma {:induction false} RunSimulated(env: Env, lines: seq<string>, n: nat, s: Isa.State)
    requires Assembled(env, lines) && TextLoaded(env, lines, s)
    requires AssembledRun(env, lines, n, s).Some?
    ensures TextLoaded(env, lines, AssembledRun(env, lines, n, s).value)
    ensures exists m :: n <= m <= 2 * n && Isa.Run(m, s) == AssembledRun(env, lines, n, s)
    ensures KeepsShifts(env, lines, n, s) ==> AssembledRun(env, lines, n, s) == SourceRun(env, lines, n, s)
    decreases n
  {
    hide CodeOf, Effect, Isa.Step, StatementAt, Assembled, TextLoaded, Overwrites, ShiftLost, AsAssembled, KeepsShifts,
         SourceRun;
    if KeepsShifts(env, lines, n, s) {
      SameRun(env, lines, n, s);
    }
    if n == 0 {
      assert Isa.Run(0, s) == Some(s);
    } else {
      var t := AssembledStep(env, lines, s).value;
      LineSimulated(env, lines, s);
      var m1 := |CodeOf(StatementAt(env, lines, s.pc).value, s.pc)|;
      RunSimulated(env, lines, n - 1, t);
      var m2 :| n - 1 <= m2 <= 2 * (n - 1) && Isa.Run(m2, t) == AssembledRun(env, lines, n - 1, t);
      Isa.RunAdds(m1, m2, s);
      assert Isa.Run(m1 + m2, s) == AssembledRun(env, lines, n, s);
    }
  }

  // ----- every line can be reached -----

  lemma WordsCount(env: Env, offset: nat, t: string)
    requires TextWords(env, offset, t).Ok?
    ensures 1 <= |TextWords(env, offset, t).value| <= 2
  {
    hide Sscanf, InstructionTable.FindInstruction, InstructionTable.RowOf, Expand, Encoder.Encode;
    match Sscanf(t, LINE_NAME_FORMAT)
    case Text(name, NoMore) =>
      var m := InstructionTable.FindInstruction(name).value;
      if InstructionTable.RowOf(m).kind == InstructionTable.P {
        var pc := ToWord(TextVaddr(env.base) + offset);
        ExpandLength(env, env, m, t, pc, pc);
        EncodedCount(Expand(env, m, t, pc).value);
      }
  }

  /** Every line of code starts at its own offset, so the source machine finds it there. */
  lemma {:induction false} EveryLineFound(env: Env, lines: seq<string>, k: nat)
    requires k < |lines| && ScanAll(env.base, lines).Ok? && Assembles(env, lines)
    requires IsCodeLine(env.base, lines[..k], lines[k])
    ensures LineAt(env.base, lines, ScanAll(env.base, lines[..k]).value.text) == Some(k)
    decreases |lines|
  {
    hide ScanLine, AssembleLine, TextWords, Trim, Ignorable, IsTextSegment, Words;
    if k < |lines| - 1 {
      var init := lines[..|lines| - 1];
      assert init[..k] == lines[..k];
      EveryLineFound(env, init, k);
      LinePlaced(env, init, k);
      WordsCount(env, ScanAll(env.base, lines[..k]).value.text, Trim(lines[k]));
      PassesAgree(env.base, env, init);
    }
  }
}
