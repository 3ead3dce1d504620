/**
  The meaning of a text line at source level, and the theorem that the words it is assembled to
  have that meaning. The meaning is written from the ISA manual: chapter 2 for instructions,
  chapter 25 for pseudo-instructions.
 */
module Source {
  import opened Bits
  import opened CText
  import opened Errors
  import opened InstructionTable
  import opened Encoder
  import opened Encoding
  import opened Pseudo
  import opened Expansions
  import opened Layout
  import opened Passes
  import Commas
  import Printing
  import Isa
  import SymbolTable

  datatype Statement =
    | Machine(instr: Isa.Instr)
    | LoadImmediate(rd: Reg, value: int)
    | LoadAddress(rd: Reg, address: Word)
    | Unary(m: Mnemonic, rd: Reg, rs: Reg)
    | NoOperation

  function PlainMeaning(m: Mnemonic, t: string): Option<Statement> {
    match ParseOperands(m, t)
    case Err(_) => None
    case Ok(o) =>
      match Named(m, o)
      case Some(i) => Some(Machine(i))
      case None => None
  }

  function LiMeaning(t: string): Option<Statement> {
    match Sscanf(t, U_FORMAT)
    case Text(rd, Number(v, NoMore)) =>
      if RegisterValue(rd).Ok? && IsInt32(v) then Some(LoadImmediate(RegisterValue(rd).value, v)) else None
    case _ => None
  }

  function LaMeaning(env: Env, t: string): Option<Statement> {
    match Sscanf(t, LA_FORMAT)
    case Text(rd, Text(name, NoMore)) =>
      var offset := SymbolTable.Lookup(env.symbols, name);
      if RegisterValue(rd).Ok? && offset.Some? then
        Some(LoadAddress(RegisterValue(rd).value, SymbolVaddr(env, offset.value)))
      else None
    case _ => None
  }

  function PairMeaning(m: Mnemonic, t: string): Option<Statement> {
    match Sscanf(t, PAIR_FORMAT)
    case Text(rd, Text(rs, NoMore)) =>
      if RegisterValue(rd).Ok? && RegisterValue(rs).Ok? then
        Some(Unary(m, RegisterValue(rd).value, RegisterValue(rs).value))
      else None
    case _ => None
  }

  function MnemonicMeaning(env: Env, m: Mnemonic, t: string): Option<Statement> {
    if RowOf(m).kind != P then PlainMeaning(m, t)
    else if m == Li then LiMeaning(t)
    else if m == La then LaMeaning(env, t)
    else if m == Nop then Some(NoOperation)
    else PairMeaning(m, t)
  }

  /** The statement a text line stands for; none when it is not well formed. */
  function MeaningOf(env: Env, t: string): Option<Statement> {
    match Sscanf(t, LINE_NAME_FORMAT)
    case Text(name, NoMore) =>
      (match FindInstruction(name)
       case Some(m) => MnemonicMeaning(env, m, t)
       case None => None)
    case _ => None
  }

  /** Words of `li`: one if the value is twelve signed bits or a multiple of 4096, else two. */
  function LiSize(v: int): nat {
    if -0x800 <= v <= 0x7FF || v % 0x1000 == 0 then 1 else 2
  }

  /** What executing the statement does, control continuing at the next line. */
  function Effect(stmt: Statement, s: Isa.State): Option<Isa.State> {
    match stmt
    case Machine(i) => Isa.Execute(i, s)
    case LoadImmediate(rd, v) => Some(s.Set(rd, ToWord(v)).Skip(4 * LiSize(v)))
    case LoadAddress(rd, a) => Some(s.Set(rd, a).Skip(8))
    case Unary(m, rd, rs) => if IsPair(m) then Some(s.Set(rd, PairValue(m, s.Get(rs))).Skip(4)) else None
    case NoOperation => Some(s.Skip(4))
  }

  /** The word a statement is written with. */
  function StatementName(stmt: Statement): string {
    match stmt
    case Machine(i) => Isa.ManualName(i)
    case LoadImmediate(_, _) => "li"
    case LoadAddress(_, _) => "la"
    case Unary(m, _, _) =>
      (match m
       case Mv => "mv"
       case Neg => "neg"
       case Not => "not"
       case Seqz => "seqz"
       case _ => "snez")
    case NoOperation => "nop"
  }

  lemma PseudoWord(m: Mnemonic)
    ensures NameOf(Li) == "li" && NameOf(La) == "la" && NameOf(Nop) == "nop"
    ensures IsPair(m) ==> forall d: Reg, s: Reg :: StatementName(Unary(m, d, s)) == NameOf(m)
  {
    hide RowOf;
  }

  /** A line means a statement of the name it starts with. */
  lemma LineNamed(env: Env, t: string)
    requires MeaningOf(env, t).Some?
    ensures Sscanf(t, LINE_NAME_FORMAT) == Text(StatementName(MeaningOf(env, t).value), NoMore)
  {
    hide Sscanf, FindInstruction, RegisterValue, SymbolTable.Lookup, SymbolVaddr, ParseOperands, NameOf, Named, RowOf,
         StatementName, Isa.ManualName;
    match Sscanf(t, LINE_NAME_FORMAT)
    case Text(name, NoMore) =>
      FoundName(name);
      var m := FindInstruction(name).value;
      PseudoWord(m);
      PseudoNames(m);
      FixedWords();
      if RowOf(m).kind != P {
        NamedInManual(m, ParseOperands(m, t).value);
      }
  }

  lemma FixedWords()
    ensures StatementName(NoOperation) == "nop"
    ensures forall d: Reg, v: int :: StatementName(LoadImmediate(d, v)) == "li"
    ensures forall d: Reg, a: Word :: StatementName(LoadAddress(d, a)) == "la"
    ensures forall i: Isa.Instr :: StatementName(Machine(i)) == Isa.ManualName(i)
  {
  }

  // ----- the code of a statement -----

  /** The instructions a statement is assembled to when its line is at `pc`. */
  function CodeOf(stmt: Statement, pc: Word): seq<Isa.Instr> {
    match stmt
    case Machine(i) => if i.OpImm? && i.alu == Isa.SRA then [Isa.OpImm(Isa.SRL, i.rd, i.rs1, i.imm)] else [i]
    case LoadImmediate(rd, v) => LiCode(rd, v)
    case LoadAddress(rd, a) => LaCode(rd, Distance(a, pc))
    case Unary(m, rd, rs) => if IsPair(m) then [PairCode(m, rd, rs)] else []
    case NoOperation => [Isa.OpImm(Isa.ADD, 0, 0, 0)]
  }

  /** The words assembled at `offset` decode to the code of the line's statement. */
  ghost predicate Compiled(env: Env, offset: nat, t: string, stmt: Statement) {
    && TextWords(env, offset, t).Ok?
    && Isa.DecodesTo(TextWords(env, offset, t).value, CodeOf(stmt, ToWord(TextVaddr(env.base) + offset)))
  }

  lemma EncodedWord(m: Mnemonic, t: string)
    requires Encode(m, t).Ok?
    ensures RowOf(m).kind != P && ParseOperands(m, t).Ok? && Encode(m, t).value == Pack(m, ParseOperands(m, t).value)
  {
    hide ParseOperands, Pack, RowOf;
  }

  lemma PlainCompiled(m: Mnemonic, t: string, pc: Word)
    requires Encode(m, t).Ok? && PlainMeaning(m, t).Some?
    ensures Isa.DecodesTo([Encode(m, t).value], CodeOf(PlainMeaning(m, t).value, pc))
  {
    hide Encode, ParseOperands, Pack, RowOf, Accepted, Isa.Decode, Named;
    EncodedWord(m, t);
    ParsedAccepted(m, t);
    PackedCode(m, ParseOperands(m, t).value, pc);
  }

  lemma PackedCode(m: Mnemonic, o: Operands, pc: Word)
    requires Accepted(m, o) && RowOf(m).kind != P && Named(m, o).Some?
    ensures Isa.DecodesTo([Pack(m, o)], CodeOf(Machine(Named(m, o).value), pc))
  {
    hide Pack, Isa.Decode, RowOf, Accepted;
    if m == Srai {
      SraiNamed(o);
      SraiAssemblesToSrli(o.rd, o.rs1, o.imm);
    } else {
      NamedNotSra(m, o);
      DecodesToNamed(m, o);
    }
  }

  lemma SraiNamed(o: Operands)
    requires Accepted(Srai, o) && Named(Srai, o).Some?
    ensures 0 <= o.imm < 0x20 && o == Operands(o.rd, o.rs1, 0, o.imm)
  {
  }

  lemma NamedNotSra(m: Mnemonic, o: Operands)
    requires m != Srai && Named(m, o).Some?
    ensures !Misencoded(m, o.imm)
    ensures !(Named(m, o).value.OpImm? && Named(m, o).value.alu == Isa.SRA)
  {
  }

  // ----- operands as scanned from a line -----

  predicate IsRead(r: string, v: string, stops: string) {
    0 < |r| <= 4 && |r| <= |v| && !IsSpace(r[0]) && forall i :: 0 <= i < |r| ==> r[i] !in stops
  }

  /** What `%4[^...]` reads where no blank can start. */
  lemma ScannedUntil(v: string, stops: string, next: Format)
    requires v != "" ==> !IsSpace(v[0])
    ensures var x := Sscanf(v, Until(4, stops, next));
      if x.Text? then IsRead(x.s, v, stops) && x.more == Sscanf(v[|x.s|..], next) else x == NoMore
  {
    var n := Min(4, Span(v, stops));
    SpanStops(v, stops);
    assert Sscanf(v, Until(4, stops, next)) == if n == 0 then NoMore else Text(v[..n], Sscanf(v[n..], next));
    hide Sscanf, Span;
    if n > 0 {
      assert v[..n][0] == v[0];
      assert forall i :: 0 <= i < n ==> v[..n][i] == v[i];
    }
  }

  lemma BlankStep(u: string, next: Format)
    ensures Sscanf(u, Blank(next)) == Sscanf(SkipSpace(u), next)
  {
  }

  /** The text after the mnemonic. */
  function AfterName(t: string): string {
    var s := SkipSpace(t);
    SkipSpace(s[TokenRun(s)..])
  }

  lemma NameStep(t: string, next: Format)
    ensures Sscanf(t, SkipWord(Blank(next))) == if SkipSpace(t) == "" then NoMore else Sscanf(AfterName(t), next)
  {
    var s := SkipSpace(t);
    hide SkipSpace, TokenRun;
    if s != "" {
      BlankStep(s[TokenRun(s)..], next);
    }
  }

  lemma ScannedOperand(t: string, next: Format)
    ensures match Sscanf(t, SkipWord(Blank(Until(4, ",", next)))) case Text(rd, _) => IsOperand(rd) case _ => true
  {
    NameStep(t, Until(4, ",", next));
    hide Sscanf, TokenRun, SkipSpace;
    ScannedUntil(AfterName(t), ",", next);
  }

  lemma ScannedPair(t: string)
    ensures match Sscanf(t, PAIR_FORMAT) case Text(rd, Text(rs, NoMore)) => IsOperand(rd) && IsSource(rs) case _ => true
  {
    var last := Until(4, "#\n", End);
    ScannedOperand(t, Exact(',', Blank(last)));
    NameStep(t, Until(4, ",", Exact(',', Blank(last))));
    var u := AfterName(t);
    ScannedUntil(u, ",", Exact(',', Blank(last)));
    match Sscanf(t, PAIR_FORMAT)
    case Text(rd, more) =>
      var v := u[|rd|..];
      if v != "" && v[0] == ',' {
        CommaStep(v, last);
        hide Sscanf, TokenRun, SkipSpace, Span;
        ScannedUntil(SkipSpace(v[1..]), "#\n", End);
      }
    case _ =>
  }

  lemma CommaStep(v: string, next: Format)
    requires v != "" && v[0] == ','
    ensures Sscanf(v, Exact(',', Blank(next))) == Sscanf(SkipSpace(v[1..]), next)
  {
    BlankStep(v[1..], next);
  }

  // ----- the code of the pseudo-instructions -----

  lemma LiCompiled(t: string, pc: Word)
    requires ExpandLiLine(t).Ok? && EncodeAll(ExpandLiLine(t).value).Ok? && LiMeaning(t).Some?
    ensures Isa.DecodesTo(EncodeAll(ExpandLiLine(t).value).value, CodeOf(LiMeaning(t).value, pc))
  {
    ScannedOperand(t, Exact(',', Blank(Integer(End))));
    hide Sscanf, EncodeAll, LiLines, RegisterValue, Isa.Decode, LiCode;
    match Sscanf(t, U_FORMAT)
    case Text(rd, Number(v, NoMore)) => LiEncodes(rd, v);
  }

  lemma LaCompiled(env: Env, t: string, pc: Word)
    requires ExpandLaLine(env, t, pc).Ok? && EncodeAll(ExpandLaLine(env, t, pc).value).Ok? && LaMeaning(env, t).Some?
    ensures Isa.DecodesTo(EncodeAll(ExpandLaLine(env, t, pc).value).value, CodeOf(LaMeaning(env, t).value, pc))
  {
    ScannedOperand(t, Exact(',', Blank(Word(511, End))));
    hide Sscanf, EncodeAll, LaLines, RegisterValue, Isa.Decode, LaCode, SymbolTable.Lookup, SymbolVaddr, Distance;
    match Sscanf(t, LA_FORMAT)
    case Text(rd, Text(name, NoMore)) =>
      LaEncodes(rd, SymbolVaddr(env, SymbolTable.Lookup(env.symbols, name).value), pc);
  }

  lemma PairNoComma(m: Mnemonic, rd: string, rs: string)
    requires IsPair(m) && IsOperand(rd) && IsSource(rs)
    requires EncodeAll(PairLine(m, rd, rs).value).Ok? && RegisterValue(rs).Ok?
    ensures m in {Mv, Not, Seqz} ==> ',' !in rs
  {
    if m in {Mv, Not, Seqz} && ',' in rs {
      var (i, k) := ImmediateForm(m);
      hide RegisterValue, Encode, LineI, Isa.Decode, EncodeAll;
      EncodeOne(LineI(i, rd, rs, k));
      Commas.CommaAccepted(i, rd, rs, k);
    }
  }

  lemma PairCompiled(m: Mnemonic, t: string, lines: seq<Expanded>, pc: Word)
    requires IsPair(m) && PairMeaning(m, t).Some?
    requires match Sscanf(t, PAIR_FORMAT) case Text(rd, Text(rs, NoMore)) => PairLine(m, rd, rs) == Ok(lines)
        case _ => false
    requires EncodeAll(lines).Ok?
    ensures Isa.DecodesTo(EncodeAll(lines).value, CodeOf(PairMeaning(m, t).value, pc))
  {
    ScannedPair(t);
    hide Sscanf, EncodeAll, PairLine, RegisterValue, Isa.Decode, PairCode, IsOperand, IsSource;
    match Sscanf(t, PAIR_FORMAT)
    case Text(rd, Text(rs, NoMore)) =>
      PairNoComma(m, rd, rs);
      PairEncodes(m, rd, rs);
  }

  lemma NopCompiled(pc: Word)
    requires EncodeAll([LineI(Addi, "zero", "zero", 0)]).Ok?
    ensures Isa.DecodesTo(EncodeAll([LineI(Addi, "zero", "zero", 0)]).value, CodeOf(NoOperation, pc))
  {
    ZeroRegister();
    hide RegisterValue, Encode, LineI, Isa.Decode, EncodeAll;
    EncodeI(Addi, "zero", "zero", 0);
    EncodeOne(LineI(Addi, "zero", "zero", 0));
  }

  /** Every text line that assembles and has a meaning is assembled to the code of its meaning. */
  lemma LineCompiled(env: Env, offset: nat, t: string)
    requires TextWords(env, offset, t).Ok? && MeaningOf(env, t).Some?
    ensures Compiled(env, offset, t, MeaningOf(env, t).value)
  {
    var pc := ToWord(TextVaddr(env.base) + offset);
    hide Sscanf, FindInstruction, RowOf, Encode, EncodeAll, CodeOf, PlainMeaning, LiMeaning, LaMeaning, PairMeaning,
         ExpandLiLine, ExpandLaLine, PairLine, Isa.DecodesTo, LineI, TextVaddr;
    match Sscanf(t, LINE_NAME_FORMAT)
    case Text(name, NoMore) =>
      var m := FindInstruction(name).value;
      if RowOf(m).kind != P {
        PlainCompiled(m, t, pc);
      } else if m == Li {
        LiCompiled(t, pc);
      } else if m == La {
        LaCompiled(env, t, pc);
      } else if m == Nop {
        NopCompiled(pc);
      } else {
        PairCompiled(m, t, Expand(env, m, t, pc).value, pc);
      }
  }

  // ----- the effect of the code -----

  lemma LiCodeSize(rd: Reg, v: int)
    requires IsInt32(v)
    ensures |LiCode(rd, v)| == LiSize(v)
  {
    SplitFits(v);
    hide Lo12, Hi20;
  }

  predicate StatementOk(stmt: Statement) {
    && (stmt.LoadImmediate? ==> IsInt32(stmt.value))
    && (stmt.Unary? ==> IsPair(stmt.m))
  }

  predicate IsArithmeticShift(stmt: Statement) {
    stmt.Machine? && stmt.instr.OpImm? && stmt.instr.alu == Isa.SRA
  }

  /** The one kind of statement whose code can differ from its meaning. */
  predicate ShiftLost(stmt: Statement) {
    IsArithmeticShift(stmt) && stmt.instr.rd != 0 && stmt.instr.rs1 != 0 && stmt.instr.imm % 0x20 != 0
  }

  lemma CodeMeans(stmt: Statement, s: Isa.State)
    requires StatementOk(stmt) && !IsArithmeticShift(stmt)
    ensures Isa.ExecuteAll(CodeOf(stmt, s.pc), s) == Effect(stmt, s)
  {
    hide Isa.Execute, Isa.ExecuteAll, LiCode, LaCode, PairCode, PairValue, Distance, LiSize, Isa.State.Set,
         Isa.State.Skip, ToWord;
    match stmt
    case Machine(i) => Isa.ExecuteOne(i, s);
    case LoadImmediate(rd, v) =>
      LiRuns(rd, v, s);
      LiCodeSize(rd, v);
    case LoadAddress(rd, a) => LaRuns(rd, a, s);
    case Unary(m, rd, rs) => PairRuns(m, rd, rs, s);
    case NoOperation => NopRuns(s);
  }

  lemma NopRuns(s: Isa.State)
    ensures Isa.ExecuteAll([Isa.OpImm(Isa.ADD, 0, 0, 0)], s) == Some(s.Skip(4))
  {
    Isa.ExecuteOne(Isa.OpImm(Isa.ADD, 0, 0, 0), s);
  }

  // ----- the lost arithmetic shift -----

  /** Floor division of the least 32-bit integer by at least two. */
  lemma HalvedMinimum(p: nat)
    requires p >= 2
    ensures -0x4000_0000 <= -0x8000_0000 / p <= -1
    ensures 0 <= 0x8000_0000 / p <= 0x4000_0000
  {
    var q := -0x8000_0000 / p;
    assert q * p <= -0x8000_0000 < q * p + p;
    var r := 0x8000_0000 / p;
    assert r * p <= 0x8000_0000;
  }

  lemma ShiftsDiffer(k: nat)
    requires 0 < k < 0x20
    ensures Isa.Compute(Isa.SRL, 0x8000_0000, k) != Isa.Compute(Isa.SRA, 0x8000_0000, k)
  {
    hide Pow2, ToWord;
    PowerIsTwo(k);
    HalvedMinimum(Pow2(k));
    assert k % 0x20 == k;
    SignsDiffer(0x8000_0000 / Pow2(k), -0x8000_0000 / Pow2(k));
  }

  lemma SignsDiffer(x: int, y: int)
    requires 0 <= x <= 0x4000_0000 && -0x4000_0000 <= y <= -1
    ensures ToWord(x) != ToWord(y)
  {
    ModAdd(y, 1, 0x1_0000_0000);
  }

  lemma PowerIsTwo(k: nat)
    requires k > 0
    ensures Pow2(k) >= 2
  {
  }

  lemma ShiftsAgree(a: Word, k: nat)
    requires k < 0x20 && (a == 0 || k == 0)
    ensures Isa.Compute(Isa.SRL, a, k) == Isa.Compute(Isa.SRA, a, k)
  {
    WordOfSigned(a);
    assert Pow2(0) == 1;
    if a == 0 {
      hide Pow2;
      DivMod(Pow2(k), 0, 0);
    }
  }

  /** A statement that shifts right arithmetically by a constant, in range. */
  predicate ShiftInRange(stmt: Statement) {
    IsArithmeticShift(stmt) ==> 0 <= stmt.instr.imm < 0x20
  }

  lemma ShiftMeans(stmt: Statement, s: Isa.State)
    requires IsArithmeticShift(stmt) && ShiftInRange(stmt) && !ShiftLost(stmt)
    ensures Isa.ExecuteAll(CodeOf(stmt, s.pc), s) == Effect(stmt, s)
  {
    hide Isa.Compute, Isa.ExecuteAll, Isa.State.Skip, Pow2;
    var i := stmt.instr;
    Isa.ExecuteOne(Isa.OpImm(Isa.SRL, i.rd, i.rs1, i.imm), s);
    assert ToWord(i.imm) == i.imm;
    hide ToWord;
    if i.rd != 0 {
      ShiftsAgree(s.Get(i.rs1), i.imm);
    }
  }

  lemma ShiftFails(stmt: Statement, pc: Word) returns (s: Isa.State)
    requires ShiftInRange(stmt) && ShiftLost(stmt)
    ensures s.pc == pc && Isa.ExecuteAll(CodeOf(stmt, s.pc), s) != Effect(stmt, s)
  {
    hide Isa.Compute, Isa.ExecuteAll, Isa.State.Skip, Pow2;
    var i := stmt.instr;
    s := Isa.State(pc, map[i.rs1 := 0x8000_0000], map[]);
    Isa.ExecuteOne(Isa.OpImm(Isa.SRL, i.rd, i.rs1, i.imm), s);
    ShiftsDiffer(i.imm);
    assert ToWord(i.imm) == i.imm;
    SetSkipDiffers(s, i.rd, Isa.Compute(Isa.SRL, 0x8000_0000, i.imm), Isa.Compute(Isa.SRA, 0x8000_0000, i.imm));
  }

  lemma SetSkipDiffers(s: Isa.State, d: Reg, x: Word, y: Word)
    requires d != 0 && x != y
    ensures s.Set(d, x).Skip(4) != s.Set(d, y).Skip(4)
  {
    assert s.Set(d, x).Skip(4).Get(d) == x && s.Set(d, y).Skip(4).Get(d) == y;
  }

  lemma MeaningWellFormed(env: Env, t: string)
    requires MeaningOf(env, t).Some?
    ensures StatementOk(MeaningOf(env, t).value) && ShiftInRange(MeaningOf(env, t).value)
  {
    hide Sscanf, FindInstruction, RegisterValue, SymbolTable.Lookup, SymbolVaddr, ParseOperands;
    match Sscanf(t, LINE_NAME_FORMAT)
    case Text(name, NoMore) =>
      var m := FindInstruction(name).value;
      PseudoNames(m);
      if RowOf(m).kind != P {
        NamedShift(m, ParseOperands(m, t).value);
      }
      hide RowOf, Named;
  }

  lemma PseudoNames(m: Mnemonic)
    ensures RowOf(m).kind == P <==> m in {Li, La, Nop, Mv, Neg, Not, Seqz, Snez}
  {
  }

  lemma NamedShift(m: Mnemonic, o: Operands)
    requires Named(m, o).Some?
    ensures ShiftInRange(Machine(Named(m, o).value))
  {
  }

  /**
    Compilation of one line preserves meaning: the words of an accepted, meaningful line decode to
    instructions whose execution has the line's effect from every state, unless the line is an
    arithmetic right shift by a constant that is lost, and then they do not.
   */
  lemma LineFaithful(env: Env, offset: nat, t: string)
    requires TextWords(env, offset, t).Ok? && MeaningOf(env, t).Some?
    ensures var stmt, pc := MeaningOf(env, t).value, ToWord(TextVaddr(env.base) + offset);
      && Isa.DecodesTo(TextWords(env, offset, t).value, CodeOf(stmt, pc))
      && ((forall s: Isa.State :: s.pc == pc ==> Isa.ExecuteAll(CodeOf(stmt, pc), s) == Effect(stmt, s))
        <==> !ShiftLost(stmt))
  {
    hide TextWords, MeaningOf, CodeOf, Effect, Isa.DecodesTo, Isa.ExecuteAll, TextVaddr;
    LineCompiled(env, offset, t);
    MeaningWellFormed(env, t);
    var stmt, pc := MeaningOf(env, t).value, ToWord(TextVaddr(env.base) + offset);
    if ShiftLost(stmt) {
      var s := ShiftFails(stmt, pc);
    } else {
      forall s: Isa.State | s.pc == pc
        ensures Isa.ExecuteAll(CodeOf(stmt, pc), s) == Effect(stmt, s)
      {
        StatementMeans(stmt, s);
      }
    }
  }

  lemma StatementMeans(stmt: Statement, s: Isa.State)
    requires StatementOk(stmt) && ShiftInRange(stmt) && !ShiftLost(stmt)
    ensures Isa.ExecuteAll(CodeOf(stmt, s.pc), s) == Effect(stmt, s)
  {
    if IsArithmeticShift(stmt) {
      ShiftMeans(stmt, s);
    } else {
      CodeMeans(stmt, s);
    }
  }

  // ----- accepted lines without a meaning -----

  /** Shift amounts outside 0..31, and a comma inside the source operand of `mv`, `not`, `seqz`. */
  predicate IsLoose(m: Mnemonic, t: string) {
    if m in {Slli, Srli, Srai} then
      ParseOperands(m, t).Ok? && !(0 <= ParseOperands(m, t).value.imm < 0x20)
    else if m in {Mv, Not, Seqz} then
      match Sscanf(t, PAIR_FORMAT) case Text(_, Text(rs, NoMore)) => ',' in rs case _ => false
    else false
  }

  predicate LooseLine(t: string) {
    match Sscanf(t, LINE_NAME_FORMAT)
    case Text(name, NoMore) =>
      (match FindInstruction(name)
       case Some(m) => IsLoose(m, t)
       case None => false)
    case _ => false
  }

  lemma NamedExactly(m: Mnemonic, o: Operands)
    requires RowOf(m).kind != P
    ensures Named(m, o).None? <==> m in {Slli, Srli, Srai} && !(0 <= o.imm < 0x20)
  {
  }

  lemma LiHasMeaning(t: string)
    requires ExpandLiLine(t).Ok? && EncodeAll(ExpandLiLine(t).value).Ok?
    ensures LiMeaning(t).Some?
  {
    ScannedOperand(t, Exact(',', Blank(Integer(End))));
    hide Sscanf, EncodeAll, LiLines, RegisterValue, Isa.DecodesTo, LiCode;
    match Sscanf(t, U_FORMAT)
    case Text(rd, Number(v, NoMore)) => LiEncodes(rd, v);
  }

  lemma LaHasMeaning(env: Env, t: string, pc: Word)
    requires ExpandLaLine(env, t, pc).Ok? && EncodeAll(ExpandLaLine(env, t, pc).value).Ok?
    ensures LaMeaning(env, t).Some?
  {
    ScannedOperand(t, Exact(',', Blank(Word(511, End))));
    hide Sscanf, EncodeAll, LaLines, RegisterValue, Isa.DecodesTo, LaCode, SymbolTable.Lookup, SymbolVaddr, Distance;
    match Sscanf(t, LA_FORMAT)
    case Text(rd, Text(name, NoMore)) =>
      LaEncodes(rd, SymbolVaddr(env, SymbolTable.Lookup(env.symbols, name).value), pc);
  }

  lemma PairOperands(m: Mnemonic, rd: string, rs: string)
    requires IsPair(m) && IsOperand(rd) && IsSource(rs) && EncodeAll(PairLine(m, rd, rs).value).Ok?
    ensures RegisterValue(rd).Ok?
    ensures RegisterValue(rs).Err? <==> m in {Mv, Not, Seqz} && ',' in rs
  {
    if m in {Mv, Not, Seqz} && ',' in rs {
      var (i, k) := ImmediateForm(m);
      hide RegisterValue, Encode, LineI, Isa.Decode, EncodeAll;
      EncodeOne(LineI(i, rd, rs, k));
      Commas.CommaAccepted(i, rd, rs, k);
    } else {
      PairEncodes(m, rd, rs);
      hide RegisterValue, EncodeAll, PairLine, Isa.DecodesTo, PairCode, IsOperand, IsSource;
    }
  }

  lemma PairMeansExactly(m: Mnemonic, t: string, lines: seq<Expanded>)
    requires IsPair(m)
    requires match Sscanf(t, PAIR_FORMAT) case Text(rd, Text(rs, NoMore)) => PairLine(m, rd, rs) == Ok(lines)
        case _ => false
    requires EncodeAll(lines).Ok?
    ensures PairMeaning(m, t).None? <==> IsLoose(m, t)
  {
    ScannedPair(t);
    hide Sscanf, EncodeAll, PairLine, RegisterValue, IsOperand, IsSource, ParseOperands;
    match Sscanf(t, PAIR_FORMAT)
    case Text(rd, Text(rs, NoMore)) => PairOperands(m, rd, rs);
  }

  /** The assembler accepts exactly the meaningful lines it can place and the loose ones. */
  lemma AcceptedMeaning(env: Env, offset: nat, t: string)
    requires TextWords(env, offset, t).Ok?
    ensures MeaningOf(env, t).None? <==> LooseLine(t)
  {
    var pc := ToWord(TextVaddr(env.base) + offset);
    hide Sscanf, FindInstruction, Encode, EncodeAll, PlainMeaning, LiMeaning, LaMeaning, PairMeaning,
         ExpandLiLine, ExpandLaLine, PairLine, LineI, TextVaddr, IsLoose;
    match Sscanf(t, LINE_NAME_FORMAT)
    case Text(name, NoMore) =>
      var m := FindInstruction(name).value;
      PseudoNames(m);
      hide RowOf;
      if RowOf(m).kind != P {
        PlainMeansExactly(m, t);
      } else if m == Li {
        LiHasMeaning(t);
        NotLoose(m, t);
      } else if m == La {
        LaHasMeaning(env, t, pc);
        NotLoose(m, t);
      } else if m == Nop {
        NotLoose(m, t);
      } else {
        PairMeansExactly(m, t, Expand(env, m, t, pc).value);
      }
  }

  lemma NotLoose(m: Mnemonic, t: string)
    requires m in {Li, La, Nop}
    ensures !IsLoose(m, t)
  {
  }

  lemma PlainMeansExactly(m: Mnemonic, t: string)
    requires RowOf(m).kind != P && Encode(m, t).Ok?
    ensures PlainMeaning(m, t).None? <==> IsLoose(m, t)
  {
    PseudoNames(m);
    EncodedWord(m, t);
    NamedExactly(m, ParseOperands(m, t).value);
    hide ParseOperands, RowOf, Named, Encode, Sscanf;
  }

  // ----- concrete lines -----

  /** A written instruction means the instruction it names. */
  lemma ShowMeans(env: Env, m: Mnemonic, o: Operands)
    requires Accepted(m, o) && Named(m, o).Some?
    ensures MeaningOf(env, Printing.Show(m, o)) == Some(Machine(Named(m, o).value))
  {
    hide Printing.Show, NameOf, FindInstruction, ParseOperands, Accepted, RowOf, Sscanf, Named;
    NotPseudo(m, o);
    var rest := Printing.ShowHead(m, o);
    Printing.NameFound(m, rest);
    FindByName(m);
    Printing.ShowParses(m, o);
  }

  lemma SraiAccepted(o: Operands)
    requires o.rs2 == 0 && 0 <= o.imm < 0x20
    ensures Accepted(Srai, o) && Named(Srai, o) == Some(Isa.OpImm(Isa.SRA, o.rd, o.rs1, o.imm))
  {
  }

  /** `srai` by a constant: accepted everywhere, and its shift is lost. */
  lemma LostShift(env: Env, offset: nat, d: Reg, s: Reg, amount: nat)
    requires d != 0 && s != 0 && 0 < amount < 0x20
    ensures var line := Printing.Show(Srai, Operands(d, s, 0, amount));
      && TextWords(env, offset, line).Ok?
      && MeaningOf(env, line).Some? && ShiftLost(MeaningOf(env, line).value)
  {
    hide Printing.Show, TextWords, MeaningOf, Accepted, Named, RowOf, Pack;
    var o := Operands(d, s, 0, amount);
    SraiAccepted(o);
    Printing.ShowText(env, offset, Srai, o);
    ShowMeans(env, Srai, o);
  }

  /** How `mv a0, a1,5` is scanned. */
  lemma MoveScanned()
    ensures Sscanf("mv a0, a1,5", LINE_NAME_FORMAT) == Text("mv", NoMore)
    ensures Sscanf("mv a0, a1,5", PAIR_FORMAT) == Text("a0", Text("a1,5", NoMore))
    ensures NameOf(Mv) == "mv"
  {
    hide Sscanf;
    assert "mv a0, a1,5" == "mv" + " a0, a1,5" && " a0, a1,5"[0] == ' ';
    Printing.NameFound(Mv, " a0, a1,5");
    assert "mv a0, a1,5" == "mv" + " " + "a0" + "," + " a1,5" && " a1,5" == " " + "a1,5";
    ScanHead("mv", "a0", " a1,5", Blank(Until(4, "#\n", End)));
    ScanLastOperand("a1,5");
  }

  lemma MoveOperand()
    ensures Commas.CommaOperand("a1,5") && "a1,5"[..2] == "a1" && DigitValue("a1,5"[3]) == 5
    ensures RegisterValue("a0") == Ok(10) && RegisterValue("a1") == Ok(11)
  {
    hide RegisterValue;
    RegistersZeroOne();
    assert "a1,5"[..2] == "a1";
  }

  /** `mv a0, a1,5` is accepted and adds five. */
  lemma MoveWithComma(env: Env, offset: nat)
    ensures var words := TextWords(env, offset, "mv a0, a1,5");
      words.Ok? && Isa.DecodesTo(words.value, [Isa.OpImm(Isa.ADD, 10, 11, 5)])
    ensures LooseLine("mv a0, a1,5")
  {
    hide Sscanf, FindInstruction, Encode, EncodeAll, RegisterValue, NameOf, LineI, Isa.Decode, RowOf,
         Commas.CommaOperand;
    MoveScanned();
    FindByName(Mv);
    PseudoNames(Mv);
    MoveOperand();
    Commas.CommaExactly(Addi, "a0", "a1,5", 0);
    Commas.CommaAccepted(Addi, "a0", "a1,5", 0);
    EncodeOne(LineI(Addi, "a0", "a1,5", 0));
  }

  lemma RegistersZeroOne()
    ensures RegisterValue("a0") == Ok(10) && RegisterValue("a1") == Ok(11)
  {
    hide RegisterValue;
    Printing.NumberedRegister('a', 0);
    Printing.NumberedRegister('a', 1);
    assert ['a'] + Decimal(0) == "a0" && ['a'] + Decimal(1) == "a1";
  }
}
