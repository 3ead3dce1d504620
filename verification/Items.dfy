/**
  Text lines as they may be written, for every mnemonic: what each line means, how many words it is
  assembled to, and which error a line with bad operands ends in.
 */
module Items {
  import opened Bits
  import opened CText
  import opened Errors
  import opened Storage
  import opened Layout
  import opened InstructionTable
  import opened Encoder
  import opened Encoding
  import opened Pseudo
  import opened Expansions
  import opened SymbolTable
  import opened Passes
  import opened Source
  import opened Notation
  import opened Printing
  import opened Completeness
  import opened Pipeline
  import Agreement

  datatype Item = Item(m: Mnemonic, form: Form, spacing: Spacing)

  function ItemText(i: Item): string {
    FormLine(i.m, i.form, i.spacing)
  }

  /** Operands of the right kind for the mnemonic, well spaced, and nothing to trim. */
  predicate ItemShape(i: Item) {
    FormOk(i.form, i.spacing) && Fits(i.m, i.form) && EndsWell(ItemText(i))
  }

  /** The number and the name among the operands. */
  function NumberIn(f: Form): int {
    match f
    case Numbered(_, _, n) => n.value
    case Offset(_, n, _) => n.value
    case Upper(_, n) => n.value
    case _ => 0
  }

  function NameIn(f: Form): string {
    match f
    case Symbolic(_, name) => name
    case _ => ""
  }

  /** The first register and, of a pair, the second. */
  function FirstIn(f: Form): Reg {
    if f.Bare? then 0 else RegOf(f.a)
  }

  function SecondIn(f: Form): Reg {
    match f
    case Pair(_, b) => RegOf(b)
    case _ => 0
  }

  /** What is wrong with the operands, in the order in which the assembler finds out. */
  function ItemError(symbols: seq<Symbol>, i: Item): Option<Error> {
    if RowOf(i.m).kind != P && !InRange(i.m, i.form) then Some(InvalidImmediate)
    else if i.m == Li && !IsInt32(NumberIn(i.form)) then Some(InvalidImmediate)
    else if i.m == La && Lookup(symbols, NameIn(i.form)).None? then Some(SymbolNotFound)
    else if !RegistersOk(i.form) then Some(InvalidRegister)
    else None
  }

  predicate ItemOk(symbols: seq<Symbol>, i: Item) {
    ItemShape(i) && ItemError(symbols, i).None?
  }

  /** Words of a line. */
  function ItemSize(i: Item): (n: nat)
    ensures 1 <= n <= 2
  {
    if i.m == Li then LiSize(NumberIn(i.form)) else if i.m == La then 2 else 1
  }

  /** The statement a line is written for. */
  function ItemMeaning(env: Env, i: Item): Option<Statement>
    requires ItemOk(env.symbols, i)
  {
    if RowOf(i.m).kind != P then
      match Named(i.m, FormOperands(i.m, i.form))
      case Some(instr) => Some(Machine(instr))
      case None => None
    else if i.m == Li then Some(LoadImmediate(FirstIn(i.form), NumberIn(i.form)))
    else if i.m == La then
      Some(LoadAddress(FirstIn(i.form), SymbolVaddr(env, Lookup(env.symbols, NameIn(i.form)).value)))
    else if i.m == Nop then Some(NoOperation)
    else Some(Unary(i.m, FirstIn(i.form), SecondIn(i.form)))
  }

  // ----- what the scanner sees -----

  lemma ItemLine(i: Item)
    requires ItemShape(i)
    ensures var t, name := ItemText(i), NameOf(i.m);
      && Trim(t) == t && IsContent(t) && !HasLabel(t)
      && Sscanf(t, NAME_FORMAT) == Text(name, NoMore) && Sscanf(t, LINE_NAME_FORMAT) == Text(name, NoMore)
  {
    hide NameOf, Sscanf, Trim, IsContent, HasLabel, EndsWell, FormOk, FormText, Fits;
    StartsBlank(i.form, i.spacing);
    NamedLine(i.m, FormText(i.form, i.spacing));
  }

  /** The pseudo-instructions and the operands they take. */
  lemma PseudoForms(i: Item)
    requires ItemShape(i)
    ensures RowOf(i.m).kind == P <==> i.m in {Li, La, Nop} || IsPair(i.m)
    ensures i.m == Li ==> i.form.Upper?
    ensures i.m == La ==> i.form.Symbolic?
    ensures IsPair(i.m) ==> i.form.Pair?
    ensures i.m == Nop ==> i.form.Bare? && RegistersOk(i.form)
  {
    hide FormOk, EndsWell, ItemText;
    PseudoNames(i.m);
  }

  lemma LiScanned(i: Item)
    requires ItemShape(i) && i.m == Li
    ensures i.form.Upper? && IsOperand(i.form.a)
    ensures Sscanf(ItemText(i), U_FORMAT) == Text(i.form.a, Number(NumberIn(i.form), NoMore))
  {
    PseudoForms(i);
    hide Sscanf, EndsWell, SpacingOk, FormText, LiteralOk, IsOperand;
    UpperScanned(i.m, i.form, i.spacing);
  }

  lemma LaScannedItem(i: Item)
    requires ItemShape(i) && i.m == La
    ensures i.form.Symbolic? && IsOperand(i.form.a)
    ensures Sscanf(ItemText(i), LA_FORMAT) == Text(i.form.a, Text(NameIn(i.form), NoMore))
  {
    PseudoForms(i);
    hide Sscanf, EndsWell, SpacingOk, FormText, IsWord, IsOperand;
    SymbolicScanned(i.m, i.form, i.spacing);
  }

  lemma PairScannedItem(i: Item)
    requires ItemShape(i) && IsPair(i.m)
    ensures i.form.Pair? && IsOperand(i.form.a)
    ensures var rs := Cut(i.form.b, i.spacing.last);
      && Sscanf(ItemText(i), PAIR_FORMAT) == Text(i.form.a, Text(rs, NoMore))
      && RegisterValue(rs) == RegisterValue(i.form.b) && IsSource(rs) && ',' !in rs
  {
    PseudoForms(i);
    assert forall k :: 0 <= k < |i.spacing.last| ==> i.spacing.last[k] in " \t";
    hide Sscanf, EndsWell, SpacingOk, FormText, IsFinal, IsOperand, RegisterValue, Cut, IsSource;
    PairScanned(i.m, i.form, i.spacing);
    CutRegister(i.form.b, i.spacing.last);
  }

  // ----- what a line means -----

  lemma MachineMeans(env: Env, i: Item)
    requires ItemOk(env.symbols, i) && RowOf(i.m).kind != P
    ensures PlainMeaning(i.m, ItemText(i)) == ItemMeaning(env, i)
  {
    hide ParseOperands, FormOk, Fits, RowOf, InRange, RegistersOk, FormOperands, EndsWell, FormLine, Named, Lookup;
    FormParses(i.m, i.form, i.spacing);
  }

  lemma LiMeans(i: Item)
    requires ItemShape(i) && i.m == Li && IsInt32(NumberIn(i.form)) && RegistersOk(i.form)
    ensures LiMeaning(ItemText(i)) == Some(LoadImmediate(FirstIn(i.form), NumberIn(i.form)))
  {
    hide Sscanf, RegisterValue, ItemText, ItemShape, U_FORMAT, IsOperand;
    LiScanned(i);
  }

  lemma LaMeansItem(env: Env, i: Item)
    requires ItemShape(i) && i.m == La && Lookup(env.symbols, NameIn(i.form)).Some? && RegistersOk(i.form)
    ensures LaMeaning(env, ItemText(i))
         == Some(LoadAddress(FirstIn(i.form), SymbolVaddr(env, Lookup(env.symbols, NameIn(i.form)).value)))
  {
    hide Sscanf, RegisterValue, ItemText, ItemShape, LA_FORMAT, IsOperand, Lookup, SymbolVaddr;
    LaScannedItem(i);
  }

  lemma PairMeansItem(i: Item)
    requires ItemShape(i) && IsPair(i.m) && RegistersOk(i.form)
    ensures PairMeaning(i.m, ItemText(i)) == Some(Unary(i.m, FirstIn(i.form), SecondIn(i.form)))
  {
    hide Sscanf, RegisterValue, ItemText, ItemShape, PAIR_FORMAT, IsOperand, Cut, IsSource;
    PairScannedItem(i);
  }

  lemma PseudoMeans(env: Env, i: Item)
    requires ItemOk(env.symbols, i) && RowOf(i.m).kind == P
    ensures MnemonicMeaning(env, i.m, ItemText(i)) == ItemMeaning(env, i)
  {
    PseudoForms(i);
    hide ItemShape, RowOf, InRange, ItemText, Named, Lookup, SymbolVaddr, LiMeaning, LaMeaning, PairMeaning,
         RegistersOk, FirstIn, SecondIn, NumberIn, NameIn;
    if i.m == Li {
      LiMeans(i);
    } else if i.m == La {
      LaMeansItem(env, i);
    } else if i.m != Nop {
      PairMeansItem(i);
    }
  }

  /** However it is spelled and spaced, a line means the statement it is written for. */
  lemma ItemMeans(env: Env, i: Item)
    requires ItemOk(env.symbols, i)
    ensures MeaningOf(env, ItemText(i)) == ItemMeaning(env, i)
  {
    hide Sscanf, ItemText, NameOf, FindInstruction, ItemMeaning, PlainMeaning, Trim, IsContent, HasLabel, RowOf,
         FormOk, Fits, ItemError;
    ItemLine(i);
    FindByName(i.m);
    if RowOf(i.m).kind == P {
      PseudoMeans(env, i);
    } else {
      MachineMeans(env, i);
    }
  }

  // ----- what a line is assembled to -----

  /** What a pseudo-instruction expands to: an error, or lines that are encoded if the registers are. */
  ghost predicate Expands(env: Env, i: Item, lines: Result<seq<Expanded>>) {
    match ItemError(env.symbols, i)
    case None => lines.Ok? && |lines.value| == ItemSize(i) && EncodeAll(lines.value).Ok?
    case Some(InvalidRegister) => lines.Ok? && |lines.value| == ItemSize(i)
        && EncodeAll(lines.value) == Err(InvalidRegister)
    case Some(e) => lines == Err(e)
  }

  lemma LiError(symbols: seq<Symbol>, i: Item)
    requires ItemShape(i) && i.m == Li
    ensures i.form.Upper? && ItemSize(i) == LiSize(i.form.n.value)
    ensures ItemError(symbols, i)
         == if !IsInt32(i.form.n.value) then Some(InvalidImmediate)
            else if RegisterValue(i.form.a).Err? then Some(InvalidRegister) else None
  {
    PseudoForms(i);
    hide RegisterValue, Lookup, RowOf, ItemText, FormOk, Fits, EndsWell, InRange, LiSize;
  }

  lemma LiExpands(env: Env, i: Item)
    requires ItemShape(i) && i.m == Li
    ensures Expands(env, i, ExpandLiLine(ItemText(i)))
  {
    hide Sscanf, RegisterValue, EncodeAll, LiLines, LiSize, IsOperand, Isa.DecodesTo, LiCode, ItemText, FormOk, Fits,
         EndsWell, ItemError, ItemSize, U_FORMAT;
    LiScanned(i);
    LiError(env.symbols, i);
    OneRegisterError(i.form.a);
    if IsInt32(i.form.n.value) {
      LiEncodes(i.form.a, i.form.n.value);
      LiLinesSize(i.form.a, i.form.n.value);
    }
  }

  lemma LiLinesSize(rd: string, v: int)
    requires IsInt32(v)
    ensures |LiLines(rd, v)| == LiSize(v)
  {
    Int32Same(v);
    SplitFits(v);
    hide LineI, LineU, Lo12, Hi20, ToInt32;
  }

  lemma LaError(symbols: seq<Symbol>, i: Item)
    requires ItemShape(i) && i.m == La
    ensures i.form.Symbolic? && ItemSize(i) == 2
    ensures ItemError(symbols, i)
         == if Lookup(symbols, i.form.name).None? then Some(SymbolNotFound)
            else if RegisterValue(i.form.a).Err? then Some(InvalidRegister) else None
  {
    PseudoForms(i);
    hide RegisterValue, Lookup, RowOf, ItemText, FormOk, Fits, EndsWell, InRange;
  }

  lemma LaExpands(env: Env, i: Item, pc: Word)
    requires ItemShape(i) && i.m == La
    ensures Expands(env, i, ExpandLaLine(env, ItemText(i), pc))
  {
    hide Sscanf, RegisterValue, EncodeAll, IsOperand, Isa.DecodesTo, LaCode, Lookup, SymbolVaddr, LineU, LineI,
         Lo12, Hi20, Distance, ItemText, FormOk, Fits, EndsWell, ItemError, ItemSize, LA_FORMAT;
    LaScannedItem(i);
    LaError(env.symbols, i);
    OneRegisterError(i.form.a);
    if Lookup(env.symbols, i.form.name).Some? {
      LaEncodes(i.form.a, SymbolVaddr(env, Lookup(env.symbols, i.form.name).value), pc);
    }
  }

  lemma PairError(symbols: seq<Symbol>, i: Item)
    requires ItemShape(i) && IsPair(i.m)
    ensures i.form.Pair? && ItemSize(i) == 1
    ensures ItemError(symbols, i)
         == if RegisterValue(i.form.a).Ok? && RegisterValue(i.form.b).Ok? then None else Some(InvalidRegister)
  {
    PseudoForms(i);
    hide RegisterValue, Lookup, RowOf, ItemText, FormOk, Fits, EndsWell, InRange;
  }

  lemma PairExpands(env: Env, i: Item, rs: string)
    requires ItemShape(i) && IsPair(i.m) && i.form.Pair? && RegisterValue(rs) == RegisterValue(i.form.b)
    requires IsOperand(i.form.a) && IsSource(rs) && ',' !in rs
    ensures Expands(env, i, PairLine(i.m, i.form.a, rs))
  {
    hide RegisterValue, EncodeAll, Isa.DecodesTo, PairCode, LineI, LineR, IsOperand, IsSource, ItemShape, ItemError,
         ItemSize;
    PairError(env.symbols, i);
    OneRegisterError(i.form.a);
    OneRegisterError(i.form.b);
    PairEncodes(i.m, i.form.a, rs);
  }

  lemma NopExpands(env: Env, i: Item)
    requires ItemShape(i) && i.m == Nop
    ensures Expands(env, i, Ok([LineI(Addi, "zero", "zero", 0)]))
  {
    PseudoForms(i);
    hide RegisterValue, EncodeAll, LineI, IsOperand, RowOf, FormLine, FormOk, Fits, EndsWell, InRange,
         RegistersOk, Encode;
    ZeroRegister();
    EncodeI(Addi, "zero", "zero", 0);
    EncodeOne(LineI(Addi, "zero", "zero", 0));
  }

  lemma ItemExpands(env: Env, i: Item, pc: Word)
    requires ItemShape(i) && RowOf(i.m).kind == P
    ensures Expands(env, i, Expand(env, i.m, ItemText(i), pc))
  {
    PseudoForms(i);
    hide Sscanf, RegisterValue, ItemText, Expands, LineI, PairLine, IsOperand, ExpandLiLine, ExpandLaLine,
         RowOf, FormOk, Fits, Cut, IsSource;
    if i.m == Li {
      LiExpands(env, i);
    } else if i.m == La {
      LaExpands(env, i, pc);
    } else if i.m == Nop {
      NopExpands(env, i);
    } else {
      PairScannedItem(i);
      PairExpands(env, i, Cut(i.form.b, i.spacing.last));
    }
  }

  /** A written line assembles at every offset to its number of words, or ends in the error its
      operands deserve. */
  lemma ItemOutcome(env: Env, offset: nat, i: Item)
    requires ItemShape(i)
    ensures match ItemError(env.symbols, i)
      case None => TextWords(env, offset, ItemText(i)).Ok? && |TextWords(env, offset, ItemText(i)).value| == ItemSize(i)
      case Some(e) => TextWords(env, offset, ItemText(i)) == Err(e)
  {
    hide Sscanf, ItemText, Encode, EncodeAll, Expand, NameOf, FindInstruction, Trim, IsContent, HasLabel, RowOf,
         FormOk, Fits, Pack, InRange, RegistersOk, Lookup, EndsWell;
    ItemLine(i);
    FindByName(i.m);
    if RowOf(i.m).kind == P {
      var pc := ToWord(TextVaddr(env.base) + offset);
      var lines := Expand(env, i.m, ItemText(i), pc);
      ItemExpands(env, i, pc);
      if lines.Ok? && EncodeAll(lines.value).Ok? {
        EncodedCount(lines.value);
      }
    } else {
      PseudoForms(i);
      MachineOutcome(i);
    }
  }

  lemma MachineOutcome(i: Item)
    requires ItemShape(i) && RowOf(i.m).kind != P
    ensures if !InRange(i.m, i.form) then Encode(i.m, ItemText(i)) == Err(InvalidImmediate)
      else if !RegistersOk(i.form) then Encode(i.m, ItemText(i)) == Err(InvalidRegister)
      else Encode(i.m, ItemText(i)).Ok?
  {
    hide ParseOperands, FormOk, Fits, RowOf, InRange, RegistersOk, FormOperands, EndsWell, FormLine, Pack;
    FormParses(i.m, i.form, i.spacing);
  }

  /** The first pass counts the words of a written line. */
  lemma ItemCounted(base: Word, c: ScanState, i: Item)
    requires ItemOk(c.symbols, i) && IsTextSegment(c.segment)
    ensures ScanLine(base, c, ItemText(i)) == Ok(c.(text := ToWord(c.text + 4 * ItemSize(i))))
  {
    hide Sscanf, ItemText, EncodeAll, Expand, NameOf, FindInstruction, Trim, Ignorable, HasLabel, RowOf, ItemShape,
         ItemError, ItemSize, Expands, TextVaddr;
    ItemLine(i);
    FindByName(i.m);
    if RowOf(i.m).kind == P {
      var env, pc := Env(base, c.symbols, 0), ToWord(TextVaddr(base) + c.text);
      ItemExpands(env, i, pc);
      ExpandsWhole(env, i, Expand(env, i.m, ItemText(i), pc));
    } else {
      OneWord(i);
    }
  }

  lemma ExpandsWhole(env: Env, i: Item, lines: Result<seq<Expanded>>)
    requires ItemOk(env.symbols, i) && Expands(env, i, lines)
    ensures lines.Ok? && |lines.value| == ItemSize(i)
  {
    hide ItemShape, ItemError, ItemSize, EncodeAll;
  }

  lemma OneWord(i: Item)
    requires ItemShape(i) && RowOf(i.m).kind != P
    ensures ItemSize(i) == 1
  {
    PseudoForms(i);
    hide RowOf, ItemShape;
  }

  lemma ItemAssembled(env: Env, a: Image, i: Item)
    requires ItemOk(env.symbols, i) && IsTextSegment(a.segment)
    ensures var r := AssembleLine(env, a, ItemText(i));
      if |a.text| + 4 * ItemSize(i) <= CAPACITY then
        r.Ok? && r.value == a.(text := r.value.text) && |r.value.text| == |a.text| + 4 * ItemSize(i)
      else r == Err(GeneralError)
  {
    hide Sscanf, ItemText, NameOf, Trim, Ignorable, HasLabel, TextWords, Words, FormOk, Fits, ItemError, EndsWell;
    ItemLine(i);
    ItemOutcome(env, |a.text|, i);
  }

  lemma NothingScanned(m: Mnemonic)
    ensures Sscanf(NameOf(m), R_FORMAT) == NoMore && Sscanf(NameOf(m), I_FORMAT) == NoMore
    ensures Sscanf(NameOf(m), U_FORMAT) == NoMore && Sscanf(NameOf(m), OFFSET_FORMAT) == NoMore
    ensures Sscanf(NameOf(m), PAIR_FORMAT) == NoMore && Sscanf(NameOf(m), LA_FORMAT) == NoMore
  {
    hide NameOf, Sscanf;
    assert NameOf(m) + "" == NameOf(m);
    Empty(Exact(',', Blank(Until(4, ",", Exact(',', Blank(Until(4, "#\n", End)))))));
    Empty(Exact(',', Blank(Until(4, ",", Exact(',', Blank(Integer(End)))))));
    Empty(Exact(',', Blank(Integer(End))));
    Empty(Exact(',', Blank(Integer(Exact('(', Until(4, ")", Exact(')', End)))))));
    Empty(Exact(',', Blank(Until(4, "#\n", End))));
    Empty(Exact(',', Blank(Word(511, End))));
    ScanMnemonic(m, "", Blank(Until(4, ",",
        Exact(',', Blank(Until(4, ",", Exact(',', Blank(Until(4, "#\n", End)))))))));
    ScanMnemonic(m, "", Blank(Until(4, ",", Exact(',', Blank(Until(4, ",", Exact(',', Blank(Integer(End)))))))));
    ScanMnemonic(m, "", Blank(Until(4, ",", Exact(',', Blank(Integer(End))))));
    ScanMnemonic(m, "", Blank(Until(4, ",", Exact(',', Blank(Integer(Exact('(', Until(4, ")", Exact(')', End)))))))));
    ScanMnemonic(m, "", Blank(Until(4, ",", Exact(',', Blank(Until(4, "#\n", End))))));
    ScanMnemonic(m, "", Blank(Until(4, ",", Exact(',', Blank(Word(511, End))))));
  }

  lemma Empty(next: Format)
    ensures Sscanf("", Blank(Until(4, ",", next))) == NoMore
  {
  }

  lemma OnlyTwoBare(m: Mnemonic)
    ensures RowOf(m).kind == Z ==> m == Ecall
    ensures RowOf(m).kind == P <==> m in {Li, La, Nop} || IsPair(m)
  {
    PseudoNames(m);
    if RowOf(m).kind == Z {
      OnlyEcall(m);
    }
  }

  /** A mnemonic that takes operands and has none is a line the assembler cannot read. */
  lemma MissingOperands(env: Env, offset: nat, m: Mnemonic)
    requires m !in {Ecall, Nop}
    ensures TextWords(env, offset, NameOf(m)) == Err(ParseError)
  {
    NothingScanned(m);
    OnlyTwoBare(m);
    NameFound(m, "");
    FindByName(m);
    assert NameOf(m) + "" == NameOf(m);
    hide Sscanf, NameOf, FindInstruction, RowOf, EncodeAll, IsLoadStore, Pack;
  }

  /** Symbols that are added later do not change a line that is right. */
  lemma ItemStaysOk(symbols: seq<Symbol>, more: seq<Symbol>, i: Item)
    requires ItemOk(symbols, i) && symbols <= more
    ensures ItemOk(more, i)
  {
    hide FormOk, Fits, InRange, RegistersOk, EndsWell, FormLine, Lookup;
    if i.m == La {
      assert more == symbols + more[|symbols|..];
      LookupGrows(symbols, more[|symbols|..], NameIn(i.form));
    }
  }

  /** Exactly an `la` of a name of 64 characters or more is stored past the name's buffer. */
  lemma LongName(i: Item)
    requires ItemShape(i)
    ensures TextOverruns(ItemText(i)) <==> i.m == La && |NameIn(i.form)| >= 64
  {
    hide Sscanf, ItemText, NameOf, FindInstruction, Trim, IsContent, HasLabel, RowOf, FormOk, Fits;
    ItemLine(i);
    FindByName(i.m);
    if i.m == La {
      LaScannedItem(i);
    }
  }

  /** A written `la` is the `la` of its register and name. */
  lemma LaIsLa(symbols: seq<Symbol>, i: Item)
    requires ItemOk(symbols, i) && i.m == La
    ensures IsLa(ItemText(i), FirstIn(i.form), NameIn(i.form))
  {
    PseudoForms(i);
    LaFound();
    LaName();
    hide Sscanf, ItemText, RegisterValue, Lookup, Trim, IsContent, HasLabel, NameOf, RowOf, FormOk, Fits, InRange,
         FindInstruction;
    ItemLine(i);
    LaScannedItem(i);
  }

  lemma LaName()
    ensures NameOf(La) == "la"
  {
  }
}
