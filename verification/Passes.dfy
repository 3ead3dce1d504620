/**
  The two passes over the source as functions of the lines: the first computes segment sizes and
  the symbol table, the second the bytes of the text and data segments.
 */
module Passes {
  import opened Bits
  import opened CText
  import opened Errors
  import opened InstructionTable
  import opened Encoder
  import opened Pseudo
  import opened Layout
  import opened DataDirectives
  import opened Storage
  import opened SymbolTable

  // ----- lines -----

  predicate Ignorable(line: string): (r: bool)
    ensures !r ==> line != ""
  {
    var s := SkipSpace(line);
    s == "" || s[0] == '#'
  }

  /** Neither blank, nor a comment, nor a segment line. */
  predicate IsContent(raw: string) {
    !Ignorable(Trim(raw)) && Trim(raw)[0] != '.'
  }

  predicate IsTextSegment(segment: string) {
    segment == "" || segment == "text"
  }

  /** What `%255s` reads at the start of a line, and the empty string when it reads nothing. */
  function FirstToken(t: string): (r: string)
    ensures |r| <= |SkipSpace(t)|
  {
    var s := SkipSpace(t);
    s[..Min(255, TokenRun(s))]
  }

  predicate HasLabel(t: string) {
    var token := FirstToken(t);
    token != "" && token[|token| - 1] == ':'
  }

  /** The label of a line, cut to what the symbol table holds. */
  function LabelOf(t: string): (name: string)
    requires HasLabel(t)
    ensures |name| < LABEL_LEN
  {
    var token := FirstToken(t);
    if |token| - 1 >= LABEL_LEN then token[..LABEL_LEN - 1] else token[..|token| - 1]
  }

  /** What follows the label and white space, or the whole line. */
  function Content(t: string): string {
    if HasLabel(t) then SkipSpace(SkipSpace(t)[|FirstToken(t)|..]) else SkipSpace(t)
  }

  const NAME_FORMAT := Blank(Word(63, End))
  const LINE_NAME_FORMAT := Blank(Word(63, Blank(End)))

  /** The image of a data directive with `used` bytes of the segment taken. */
  function ContentImage(p: string, used: int): Result<seq<Byte>> {
    match Sscanf(p, Word(63, End))
    case Text(directive, NoMore) => DirectiveImage(directive, SkipSpace(p[Span(p, " \t")..]), CAPACITY - used)
    case _ => Err(ParseError)
  }

  /** The directive stores past the end of the segment. */
  predicate ContentOverruns(p: string, used: int) {
    match Sscanf(p, Word(63, End))
    case Text(directive, NoMore) => DirectiveOverruns(directive, SkipSpace(p[Span(p, " \t")..]), CAPACITY - used)
    case _ => false
  }

  /** The line is an `la` whose symbol name is stored past its buffer. */
  predicate TextOverruns(p: string) {
    match Sscanf(p, NAME_FORMAT)
    case Text(name, NoMore) => FindInstruction(name) == Some(La) && NameOverruns(p)
    case _ => false
  }

  // ----- the first pass -----

  datatype ScanState = ScanState(segment: string, text: Word, data: Word, symbols: seq<Symbol>)

  function SetLastKind(symbols: seq<Symbol>, kind: SymbolKind): seq<Symbol>
    requires symbols != []
  {
    symbols[..|symbols| - 1] + [symbols[|symbols| - 1].(kind := kind)]
  }

  function AddLabel(c: ScanState, name: string, offset: Word, kind: SymbolKind): Result<ScanState> {
    match Insert(c.symbols, name, offset)
    case Some(symbols) => Ok(c.(symbols := SetLastKind(symbols, kind)))
    case None => Err(GeneralError)
  }

  function ScanLabel(c: ScanState, t: string): Result<ScanState> {
    if !HasLabel(t) then Ok(c)
    else if IsTextSegment(c.segment) then AddLabel(c, LabelOf(t), c.text, TextSymbol)
    else if c.segment == "data" then AddLabel(c, LabelOf(t), c.data, DataSymbol)
    else Err(GeneralError)
  }

  function ScanText(base: Word, c: ScanState, p: string): Result<ScanState> {
    match Sscanf(p, NAME_FORMAT)
    case Text(name, NoMore) =>
      (match FindInstruction(name)
       case None => Err(UnknownInstruction)
       case Some(m) =>
         if RowOf(m).kind == P then
           var lines :- Expand(Env(base, c.symbols, 0), m, p, ToWord(TextVaddr(base) + c.text));
           Ok(c.(text := ToWord(c.text + 4 * |lines|)))
         else Ok(c.(text := ToWord(c.text + 4))))
    case _ => Ok(c)
  }

  function ScanContent(base: Word, c: ScanState, p: string): Result<ScanState> {
    if IsTextSegment(c.segment) then ScanText(base, c, p)
    else if c.segment == "data" || c.segment == "bss" then
      var image :- ContentImage(p, c.data);
      Ok(c.(data := ToWord(c.data + |image|)))
    else Err(GeneralError)
  }

  function ScanLine(base: Word, c: ScanState, raw: string): Result<ScanState> {
    var t := Trim(raw);
    if Ignorable(t) then Ok(c)
    else if t[0] == '.' then Ok(c.(segment := t[1..]))
    else
      var labelled :- ScanLabel(c, t);
      if Content(t) == "" then Ok(labelled) else ScanContent(base, labelled, Content(t))
  }

  const START := ScanState("", 0, 0, [])

  /** `scan_labels` over all lines. */
  function ScanAll(base: Word, lines: seq<string>): Result<ScanState> {
    if lines == [] then Ok(START)
    else
      var c :- ScanAll(base, lines[..|lines| - 1]);
      ScanLine(base, c, lines[|lines| - 1])
  }

  /** On line `k` the first pass stores past the end of its scratch buffer or of a symbol name. */
  predicate ScanOverruns(base: Word, lines: seq<string>, k: nat)
    requires k < |lines|
  {
    && ScanAll(base, lines[..k]).Ok? && IsContent(lines[k])
    && var c, t := ScanAll(base, lines[..k]).value, Trim(lines[k]);
       && ScanLabel(c, t).Ok? && Content(t) != ""
       && (if IsTextSegment(c.segment) then TextOverruns(Content(t))
           else c.segment == "data" && ContentOverruns(Content(t), c.data))
  }

  // ----- the second pass -----

  datatype Image = Image(segment: string, text: seq<Byte>, data: seq<Byte>)

  /** Where the second pass stops: the segments so far, and the error that ended it. */
  datatype Outcome = Outcome(image: Image, err: Option<Error>)

  /** The words of a pseudo-instruction at `offset`. */
  function PseudoWords(env: Env, offset: nat, m: Mnemonic, t: string): Result<seq<Word>> {
    var lines :- Expand(env, m, t, ToWord(TextVaddr(env.base) + offset));
    EncodeAll(lines)
  }

  /** The words a text line is assembled to at `offset`. */
  function TextWords(env: Env, offset: nat, t: string): Result<seq<Word>> {
    match Sscanf(t, LINE_NAME_FORMAT)
    case Text(name, NoMore) =>
      (match FindInstruction(name)
       case None => Err(UnknownInstruction)
       case Some(m) =>
         if RowOf(m).kind == P then PseudoWords(env, offset, m, t)
         else
           var w :- Encode(m, t);
           Ok([w]))
    case _ => Err(ParseError)
  }

  function AssembleText(env: Env, a: Image, t: string): Result<Image> {
    var words :- TextWords(env, |a.text|, t);
    if |a.text| + 4 * |words| > CAPACITY then Err(GeneralError) else Ok(a.(text := a.text + Words(words)))
  }

  function AssembleData(a: Image, t: string): Result<Image> {
    var image :- ContentImage(Content(t), |a.data|);
    Ok(a.(data := a.data + image))
  }

  /** `process_assembly_line` */
  function AssembleContent(env: Env, a: Image, t: string): Result<Image> {
    if IsTextSegment(a.segment) then AssembleText(env, a, t)
    else if a.segment == "data" then AssembleData(a, t)
    else if a.segment == "bss" then Ok(a)
    else Err(GeneralError)
  }

  function AssembleLine(env: Env, a: Image, raw: string): Result<Image> {
    var t := Trim(raw);
    if Ignorable(t) then Ok(a)
    else if t[0] == '.' then Ok(a.(segment := t[1..]))
    else AssembleContent(env, a, t)
  }

  const EMPTY := Image("", [], [])

  /** `assemble_file` over all lines; a failing line leaves everything as it was before it. */
  function AssembleAll(env: Env, lines: seq<string>): Outcome {
    if lines == [] then Outcome(EMPTY, None)
    else
      var before := AssembleAll(env, lines[..|lines| - 1]);
      if before.err.Some? then before
      else
        match AssembleLine(env, before.image, lines[|lines| - 1])
        case Ok(a) => Outcome(a, None)
        case Err(e) => Outcome(before.image, Some(e))
  }

  /** On line `k` the second pass stores past the end of the data segment or of a symbol name. */
  predicate AssembleOverruns(env: Env, lines: seq<string>, k: nat)
    requires k < |lines|
  {
    && Assembles(env, lines[..k]) && IsContent(lines[k])
    && var a := AssembleAll(env, lines[..k]).image;
       if IsTextSegment(a.segment) then TextOverruns(Trim(lines[k]))
       else a.segment == "data" && ContentOverruns(Content(Trim(lines[k])), |a.data|)
  }

  predicate Assembles(env: Env, lines: seq<string>) {
    AssembleAll(env, lines).err == None
  }

  // ----- prefixes of a source -----

  lemma {:induction false} ScanPrefix(base: Word, lines: seq<string>, k: nat)
    requires k <= |lines| && ScanAll(base, lines).Ok?
    ensures ScanAll(base, lines[..k]).Ok?
    decreases |lines|
  {
    hide ScanLine;
    if k < |lines| {
      var init := lines[..|lines| - 1];
      assert init[..k] == lines[..k];
      ScanPrefix(base, init, k);
    } else {
      assert lines[..k] == lines;
    }
  }

  /** One more line, for prefixes. */
  lemma ScanNext(base: Word, lines: seq<string>, k: nat)
    requires k < |lines| && ScanAll(base, lines[..k]).Ok?
    ensures ScanAll(base, lines[..k + 1]) == ScanLine(base, ScanAll(base, lines[..k]).value, lines[k])
  {
    hide ScanLine;
    assert lines[..k + 1][..k] == lines[..k];
  }

  lemma {:induction false} ScanFails(base: Word, lines: seq<string>, k: nat)
    requires k <= |lines| && ScanAll(base, lines[..k]).Err?
    ensures ScanAll(base, lines) == ScanAll(base, lines[..k])
    decreases |lines|
  {
    hide ScanLine;
    if k < |lines| {
      var init := lines[..|lines| - 1];
      assert init[..k] == lines[..k];
      ScanFails(base, init, k);
    } else {
      assert lines[..k] == lines;
    }
  }

  lemma {:induction false} AssemblePrefix(env: Env, lines: seq<string>, k: nat)
    requires k <= |lines| && Assembles(env, lines)
    ensures Assembles(env, lines[..k])
    decreases |lines|
  {
    hide AssembleLine;
    if k < |lines| {
      var init := lines[..|lines| - 1];
      assert init[..k] == lines[..k];
      AssemblePrefix(env, init, k);
    } else {
      assert lines[..k] == lines;
    }
  }

  lemma AssembleNext(env: Env, lines: seq<string>, k: nat)
    requires k < |lines| && Assembles(env, lines[..k])
    ensures var a := AssembleAll(env, lines[..k]).image;
      AssembleAll(env, lines[..k + 1])
      == match AssembleLine(env, a, lines[k]) case Ok(b) => Outcome(b, None) case Err(e) => Outcome(a, Some(e))
  {
    hide AssembleLine;
    assert lines[..k + 1][..k] == lines[..k];
  }

  lemma {:induction false} AssembleFails(env: Env, lines: seq<string>, k: nat)
    requires k <= |lines| && !Assembles(env, lines[..k])
    ensures AssembleAll(env, lines) == AssembleAll(env, lines[..k])
    decreases |lines|
  {
    hide AssembleLine;
    if k < |lines| {
      var init := lines[..|lines| - 1];
      assert init[..k] == lines[..k];
      AssembleFails(env, init, k);
    } else {
      assert lines[..k] == lines;
    }
  }

  /** After the line that fails nothing more is scanned, and nothing stored. */
  lemma ScanStops(base: Word, lines: seq<string>, i: nat)
    requires i < |lines| && ScanAll(base, lines[..i + 1]).Err?
    ensures ScanAll(base, lines) == ScanAll(base, lines[..i + 1])
    ensures forall k :: i < k < |lines| ==> !ScanOverruns(base, lines, k)
  {
    hide ScanAll, ContentOverruns, TextOverruns, ScanLabel, Content;
    ScanFails(base, lines, i + 1);
    forall k | i < k < |lines|
      ensures !ScanOverruns(base, lines, k)
    {
      assert lines[..k][..i + 1] == lines[..i + 1];
      ScanFails(base, lines[..k], i + 1);
    }
  }

  lemma AssemblyStops(env: Env, lines: seq<string>, i: nat)
    requires i < |lines| && !Assembles(env, lines[..i + 1])
    ensures AssembleAll(env, lines) == AssembleAll(env, lines[..i + 1])
    ensures forall k :: i < k < |lines| ==> !AssembleOverruns(env, lines, k)
  {
    hide AssembleAll, ContentOverruns, TextOverruns, Content;
    AssembleFails(env, lines, i + 1);
    forall k | i < k < |lines|
      ensures !AssembleOverruns(env, lines, k)
    {
      assert lines[..k][..i + 1] == lines[..i + 1];
      AssembleFails(env, lines[..k], i + 1);
    }
  }

  // ----- what one line does -----

  lemma {:induction false} EncodedCount(lines: seq<Expanded>)
    requires EncodeAll(lines).Ok?
    ensures |EncodeAll(lines).value| == |lines|
  {
    hide Encode;
    if lines != [] {
      EncodedCount(lines[..|lines| - 1]);
    }
  }

  /** The two ways the passes read a mnemonic give the same name. */
  lemma SameName(t: string)
    ensures Sscanf(t, NAME_FORMAT) == Sscanf(t, LINE_NAME_FORMAT)
    ensures match Sscanf(t, NAME_FORMAT)
      case Text(name, NoMore) => name == SkipSpace(t)[..Min(63, TokenRun(SkipSpace(t)))] && name != ""
      case more => more == NoMore && SkipSpace(t) == ""
  {
    var s := SkipSpace(t);
    assert SkipSpace(s) == s;
    var n := Min(63, TokenRun(s));
    assert Sscanf(t, NAME_FORMAT) == Sscanf(s, Word(63, End));
    assert Sscanf(t, LINE_NAME_FORMAT) == Sscanf(s, Word(63, Blank(End)));
  }

  /** No label is the name of an instruction. */
  lemma LabelIsNoInstruction(t: string)
    requires HasLabel(t)
    ensures match Sscanf(t, NAME_FORMAT) case Text(name, NoMore) => FindInstruction(name) == None case _ => false
  {
    hide FindInstruction, NameOf, Sscanf;
    SameName(t);
    var s := SkipSpace(t);
    var name, token := s[..Min(63, TokenRun(s))], FirstToken(t);
    if FindInstruction(name).Some? {
      FoundName(name);
      NameShape(FindInstruction(name).value);
      assert false;
    }
  }

  lemma ExpandLength(env: Env, env2: Env, m: Mnemonic, t: string, pc: Word, pc2: Word)
    requires Expand(env, m, t, pc).Ok? && Expand(env2, m, t, pc2).Ok?
    ensures |Expand(env, m, t, pc).value| == |Expand(env2, m, t, pc2).value|
    ensures 1 <= |Expand(env, m, t, pc).value| <= 2
  {
    hide Sscanf, LineI, LineR, LineU, Lo12, Hi20;
  }

  /** Outside the text segment a content line without a directive of its own never gets through:
      a line that starts with a dot changes the segment instead. */
  lemma UnlabelledUnknown(t: string, used: int)
    requires t != "" && !IsSpace(t[0]) && t[0] != '.'
    ensures ContentImage(t, used) == Err(UnknownPseudo)
  {
    hide DirectiveImage, Span, Sscanf, TokenRun, SkipSpace, Min;
    var n := Min(63, TokenRun(t));
    ScanFirstWord(t);
    assert t[..n][0] == t[0];
    NotDirective(t[..n], SkipSpace(t[Span(t, " \t")..]), CAPACITY - used);
  }

  lemma ScanFirstWord(t: string)
    requires t != "" && !IsSpace(t[0])
    ensures 0 < Min(63, TokenRun(t)) <= |t|
    ensures Sscanf(t, Word(63, End)) == Text(t[..Min(63, TokenRun(t))], NoMore)
  {
    assert SkipSpace(t) == t;
  }

  lemma NotDirective(directive: string, args: string, room: int)
    requires directive != "" && directive[0] != '.'
    ensures DirectiveImage(directive, args, room) == Err(UnknownPseudo)
  {
    assert ".byte"[0] == '.' && ".half"[0] == '.' && ".word"[0] == '.' && ".space"[0] == '.';
    assert ".string"[0] == '.' && ".asciz"[0] == '.' && ".asciiz"[0] == '.';
  }

  lemma ContentOverrunFails(p: string, used: int)
    requires ContentOverruns(p, used)
    ensures p != "" && ContentImage(p, used) == Err(GeneralError)
  {
    hide DirectiveImage, DirectiveOverruns, Span, SkipSpace, TokenRun;
    match Sscanf(p, Word(63, End))
    case Text(directive, NoMore) => OverrunFails(directive, SkipSpace(p[Span(p, " \t")..]), CAPACITY - used);
  }

  /** A line of `.bss` with a label is refused at the label, one without at its directive. */
  lemma BssNeverOverruns(c: ScanState, t: string)
    requires c.segment == "bss" && t != "" && !IsSpace(t[0]) && t[0] != '.'
    ensures ScanLabel(c, t).Ok? ==> !ContentOverruns(Content(t), c.data)
  {
    hide HasLabel, LabelOf, Lookup, ContentImage, ContentOverruns, FirstToken;
    SkipNone(t);
    if !HasLabel(t) && ContentOverruns(t, c.data) {
      ContentOverrunFails(t, c.data);
      UnlabelledUnknown(t, c.data);
    }
  }

  /** The first pass accepts no content line under `.bss`. */
  lemma BssContentRejected(base: Word, c: ScanState, raw: string)
    requires c.segment == "bss" && IsContent(raw)
    ensures ScanLine(base, c, raw).Err?
  {
    hide Trim, Ignorable, HasLabel, LabelOf, Lookup, ContentImage, SkipSpace, FirstToken, ScanText;
    var t := Trim(raw);
    if !HasLabel(t) {
      SkipNone(t);
      UnlabelledUnknown(t, c.data);
    }
  }
}
