/**
  The two passes agree: on every prefix of every source both succeed on, they hold the same
  segment name and offsets; the second pass fails only where the first cannot have looked; and
  every symbol of an assembled program is a data symbol that marks its directive's bytes.
 */
module Agreement {
  import opened Bits
  import opened CText
  import opened Errors
  import opened InstructionTable
  import opened Encoder
  import opened Pseudo
  import opened Layout
  import opened DataDirectives
  import opened Storage
  import opened SymbolTable
  import opened Passes

  ghost predicate Agree(c: ScanState, a: Image) {
    && c.segment == a.segment
    && c.text == |a.text| <= CAPACITY
    && c.text % 4 == 0
    && c.data == |a.data| <= CAPACITY
  }

  lemma ContentFits(p: string, used: nat)
    requires used <= CAPACITY && ContentImage(p, used).Ok?
    ensures used + |ContentImage(p, used).value| <= CAPACITY
  {
    hide DirectiveImage, Sscanf, Span, SkipSpace;
    match Sscanf(p, Word(63, End))
    case Text(directive, NoMore) =>
      DirectiveFits(directive, SkipSpace(p[Span(p, " \t")..]), CAPACITY - used);
  }

  /** The words of a text line, seen from the first pass. */
  lemma TextSizes(env: Env, offset: nat, base: Word, c: ScanState, t: string)
    requires TextWords(env, offset, t).Ok? && ScanText(base, c, t).Ok?
    ensures ScanText(base, c, t).value == c.(text := ToWord(c.text + 4 * |TextWords(env, offset, t).value|))
    ensures 1 <= |TextWords(env, offset, t).value| <= 2
  {
    SameName(t);
    hide Sscanf, FindInstruction, Expand, Encode, EncodeAll, RowOf, SkipSpace, TokenRun, TextVaddr, ToWord;
    match Sscanf(t, NAME_FORMAT)
    case Text(name, NoMore) =>
      var m := FindInstruction(name).value;
      if RowOf(m).kind == P {
        var pc, pc1 := ToWord(TextVaddr(env.base) + offset), ToWord(TextVaddr(base) + c.text);
        ExpandLength(env, Env(base, c.symbols, 0), m, t, pc, pc1);
        EncodedCount(Expand(env, m, t, pc).value);
      }
  }

  /** A text line with a label assembles in no state. */
  lemma LabelledTextFails(env: Env, offset: nat, t: string)
    requires HasLabel(t)
    ensures TextWords(env, offset, t) == Err(UnknownInstruction)
  {
    hide Sscanf, FindInstruction, Expand, Encode, RowOf;
    SameName(t);
    LabelIsNoInstruction(t);
  }

  /** An unlabelled text line both passes accept. */
  lemma TextAgrees(base: Word, c: ScanState, env: Env, a: Image, t: string)
    requires Agree(c, a) && ScanText(base, c, t).Ok? && AssembleText(env, a, t).Ok?
    ensures Agree(ScanText(base, c, t).value, AssembleText(env, a, t).value)
  {
    hide TextWords, ScanText, Words;
    TextSizes(env, |a.text|, base, c, t);
  }

  /** A line of the data segment both passes accept, and what its label does. */
  lemma DataAgrees(base: Word, c: ScanState, a: Image, t: string)
    requires Agree(c, a) && a.segment == "data" && ScanLabel(c, t).Ok? && AssembleData(a, t).Ok?
    ensures Content(t) != "" && ScanContent(base, ScanLabel(c, t).value, Content(t)).Ok?
    ensures Agree(ScanContent(base, ScanLabel(c, t).value, Content(t)).value, AssembleData(a, t).value)
  {
    hide ContentImage, HasLabel, LabelOf, Content, Lookup, Stored;
    ContentFits(Content(t), |a.data|);
    EmptyContent(|a.data|);
  }

  lemma LineAgrees(base: Word, c: ScanState, env: Env, a: Image, raw: string)
    requires Agree(c, a)
    requires ScanLine(base, c, raw).Ok? && AssembleLine(env, a, raw).Ok?
    ensures Agree(ScanLine(base, c, raw).value, AssembleLine(env, a, raw).value)
  {
    hide Trim, ScanText, AssembleText, AssembleData, Ignorable, HasLabel;
    var t := Trim(raw);
    if IsContent(raw) {
      if IsTextSegment(a.segment) {
        if HasLabel(t) {
          LabelledTextFails(env, |a.text|, t);
          LabelledLineFails(env, a, t);
        } else {
          UnlabelledLine(base, c, raw);
          TextAgrees(base, c, env, a, t);
        }
      } else if a.segment == "data" {
        hide ScanLabel, ScanContent, Content;
        DataAgrees(base, c, a, t);
      } else {
        BssContentRejected(base, c, raw);
      }
    }
  }

  lemma LabelledLineFails(env: Env, a: Image, t: string)
    requires TextWords(env, |a.text|, t).Err?
    ensures AssembleText(env, a, t).Err?
  {
    hide TextWords;
  }

  lemma UnlabelledLine(base: Word, c: ScanState, raw: string)
    requires IsContent(raw) && IsTextSegment(c.segment) && !HasLabel(Trim(raw))
    ensures ScanLine(base, c, raw) == ScanText(base, c, Trim(raw))
  {
    hide Trim, ScanText, HasLabel, Ignorable;
  }

  lemma EmptyContent(used: int)
    ensures ContentImage("", used) == Err(ParseError)
  {
    hide DirectiveImage;
    assert Sscanf("", Word(63, End)) == NoMore;
  }

  /** Cross-pass agreement, on every source and therefore on every prefix of one. */
  lemma {:induction false} PassesAgree(base: Word, env: Env, lines: seq<string>)
    requires ScanAll(base, lines).Ok? && Assembles(env, lines)
    ensures Agree(ScanAll(base, lines).value, AssembleAll(env, lines).image)
  {
    hide ScanLine, AssembleLine;
    if lines != [] {
      var init, last := lines[..|lines| - 1], lines[|lines| - 1];
      PassesAgree(base, env, init);
      LineAgrees(base, ScanAll(base, init).value, env, AssembleAll(env, init).image, last);
    }
  }

  // ----- why the second pass can fail -----

  /** The mnemonic is known and expands, but an operand is refused by the encoder. */
  predicate EncoderRejects(env: Env, offset: nat, t: string) {
    match Sscanf(t, LINE_NAME_FORMAT)
    case Text(name, NoMore) =>
      (match FindInstruction(name)
       case None => false
       case Some(m) =>
         if RowOf(m).kind == P then
           var x := Expand(env, m, t, ToWord(TextVaddr(env.base) + offset));
           x.Ok? && EncodeAll(x.value).Err?
         else Encode(m, t).Err?)
    case _ => false
  }

  /** A labelled text line, a bare data label, an operand the encoder rejects, or text overflow. */
  predicate FailureCause(env: Env, a: Image, t: string) {
    if IsTextSegment(a.segment) then
      || HasLabel(t)
      || EncoderRejects(env, |a.text|, t)
      || (TextWords(env, |a.text|, t).Ok? && |a.text| + 4 * |TextWords(env, |a.text|, t).value| > CAPACITY)
    else a.segment == "data" && HasLabel(t) && Content(t) == ""
  }

  lemma ExpandGrows(base: Word, symbols: seq<Symbol>, env: Env, m: Mnemonic, t: string, pc: Word, pc2: Word)
    requires symbols <= env.symbols
    requires Expand(Env(base, symbols, 0), m, t, pc).Ok?
    ensures Expand(env, m, t, pc2).Ok?
  {
    hide Sscanf, LineI, LineR, LineU, Lo12, Hi20, PairLine, LiLines, LaLines;
    if m == La {
      match Sscanf(t, LA_FORMAT) {
        case Text(rd, Text(name, NoMore)) =>
          assert env.symbols == symbols + env.symbols[|symbols|..];
          LookupGrows(symbols, env.symbols[|symbols|..], name);
        case _ =>
      }
    }
  }

  lemma TextFailure(env: Env, offset: nat, base: Word, c: ScanState, t: string)
    requires !HasLabel(t) && SkipSpace(t) != "" && ScanText(base, c, t).Ok? && c.symbols <= env.symbols
    ensures TextWords(env, offset, t).Err? <==> EncoderRejects(env, offset, t)
  {
    SameName(t);
    hide Sscanf, FindInstruction, Expand, Encode, RowOf, EncodeAll, SkipSpace, TokenRun, HasLabel;
    match Sscanf(t, NAME_FORMAT)
    case Text(name, NoMore) =>
      var m := FindInstruction(name).value;
      if RowOf(m).kind == P {
        ExpandGrows(base, c.symbols, env, m, t, ToWord(TextVaddr(base) + c.text), ToWord(TextVaddr(env.base) + offset));
      }
  }

  lemma LineFailure(base: Word, c: ScanState, env: Env, a: Image, raw: string)
    requires Agree(c, a) && c.symbols <= env.symbols
    requires ScanLine(base, c, raw).Ok?
    ensures AssembleLine(env, a, raw).Err?
       <==> IsContent(raw) && FailureCause(env, a, Trim(raw))
  {
    var t := Trim(raw);
    hide Trim, TextWords, ScanText, ContentImage, EncoderRejects;
    if Ignorable(t) || t[0] == '.' {
    } else if IsTextSegment(a.segment) {
      if HasLabel(t) {
        LabelledTextFails(env, |a.text|, t);
      } else {
        TextFailure(env, |a.text|, base, c, t);
      }
    } else if a.segment == "data" {
      EmptyContent(|a.data|);
    } else if a.segment == "bss" {
      BssContentRejected(base, c, raw);
    }
  }

  lemma LabelGrows(c: ScanState, t: string)
    requires ScanLabel(c, t).Ok?
    ensures c.symbols <= ScanLabel(c, t).value.symbols
  {
    hide HasLabel, LabelOf, Lookup, Stored;
  }

  lemma ScanTextSymbols(base: Word, c: ScanState, p: string)
    requires ScanText(base, c, p).Ok?
    ensures ScanText(base, c, p).value.symbols == c.symbols
  {
    hide Sscanf, FindInstruction, Expand, RowOf;
  }

  lemma ContentKeepsSymbols(base: Word, c: ScanState, p: string)
    requires ScanContent(base, c, p).Ok?
    ensures ScanContent(base, c, p).value.symbols == c.symbols
  {
    hide ScanText, ContentImage;
    if IsTextSegment(c.segment) {
      ScanTextSymbols(base, c, p);
    }
  }

  lemma SymbolsGrowLine(base: Word, c: ScanState, raw: string)
    requires ScanLine(base, c, raw).Ok?
    ensures c.symbols <= ScanLine(base, c, raw).value.symbols
  {
    hide Trim, ScanLabel, ScanContent, Content, Ignorable;
    var t := Trim(raw);
    if !Ignorable(t) && t[0] != '.' {
      LabelGrows(c, t);
      if Content(t) != "" {
        ContentKeepsSymbols(base, ScanLabel(c, t).value, Content(t));
      }
    }
  }

  lemma {:induction false} SymbolsGrow(base: Word, lines: seq<string>, k: nat)
    requires k <= |lines| && ScanAll(base, lines).Ok?
    ensures ScanAll(base, lines[..k]).Ok?
    ensures ScanAll(base, lines[..k]).value.symbols <= ScanAll(base, lines).value.symbols
    decreases |lines|
  {
    hide ScanLine;
    ScanPrefix(base, lines, k);
    if k < |lines| {
      var init := lines[..|lines| - 1];
      assert init[..k] == lines[..k];
      SymbolsGrow(base, init, k);
      SymbolsGrowLine(base, ScanAll(base, init).value, lines[|lines| - 1]);
    } else {
      assert lines[..k] == lines;
    }
  }

  /**
    Failure completeness: after a successful first pass the second pass fails on a line if and only if
    it is a labelled text line, a bare data label, refused by the encoder, or past the end of the
    text segment. It never fails on a symbol, a directive or a segment name.
   */
  lemma SecondPassFailures(base: Word, lines: seq<string>, env: Env, k: nat)
    requires ScanAll(base, lines).Ok? && env.symbols == ScanAll(base, lines).value.symbols
    requires k < |lines| && Assembles(env, lines[..k])
    ensures var a, t := AssembleAll(env, lines[..k]).image, Trim(lines[k]);
      AssembleLine(env, a, lines[k]).Err? <==> IsContent(lines[k]) && FailureCause(env, a, t)
  {
    hide ScanLine, AssembleLine, FailureCause;
    SymbolsGrow(base, lines, k);
    ScanPrefix(base, lines, k + 1);
    ScanNext(base, lines, k);
    PassesAgree(base, env, lines[..k]);
    LineFailure(base, ScanAll(base, lines[..k]).value, env, AssembleAll(env, lines[..k]).image, lines[k]);
  }

  // ----- stores stay inside the buffers -----

  predicate NamesShort(symbols: seq<Symbol>) {
    forall i :: 0 <= i < |symbols| ==> |symbols[i].name| < NAME_LEN
  }

  lemma LabelShort(c: ScanState, t: string)
    requires NamesShort(c.symbols) && ScanLabel(c, t).Ok?
    ensures NamesShort(ScanLabel(c, t).value.symbols)
  {
    hide HasLabel, Lookup;
  }

  /** The table only holds names of fewer than 64 characters. */
  lemma {:induction false} AllNamesShort(base: Word, lines: seq<string>)
    requires ScanAll(base, lines).Ok?
    ensures NamesShort(ScanAll(base, lines).value.symbols)
    decreases |lines|
  {
    hide Trim, Ignorable, ScanLabel, ScanContent, Content, NamesShort;
    if lines == [] {
      NoNames();
    } else {
      var init, raw := lines[..|lines| - 1], lines[|lines| - 1];
      AllNamesShort(base, init);
      var c := ScanAll(base, init).value;
      if IsContent(raw) {
        LabelShort(c, Trim(raw));
        if Content(Trim(raw)) != "" {
          ContentKeepsSymbols(base, ScanLabel(c, Trim(raw)).value, Content(Trim(raw)));
        }
      }
    }
  }

  lemma NoNames()
    ensures NamesShort([])
  {
  }

  /** An `la` of a name that overruns finds no symbol. */
  lemma LongNameFails(base: Word, c: ScanState, p: string)
    requires NamesShort(c.symbols) && TextOverruns(p)
    ensures ScanText(base, c, p).Err?
  {
    hide Sscanf, FindInstruction, RowOf, LaLines, Lookup;
    LaIsPseudo();
    match Sscanf(p, LA_FORMAT)
    case Text(_, Text(name, _)) =>
      if Lookup(c.symbols, name).Some? {
        LookupEntry(c.symbols, name);
      }
  }

  lemma LaIsPseudo()
    ensures RowOf(La).kind == P
  {
  }

  /** A source the first pass accepts never made it store outside a buffer. */
  lemma FirstPassInBounds(base: Word, lines: seq<string>, k: nat)
    requires ScanAll(base, lines).Ok? && k < |lines|
    ensures !ScanOverruns(base, lines, k)
  {
    hide ScanAll, ScanLabel, ContentImage, ContentOverruns, TextOverruns, Content, Trim, Ignorable, ScanText,
         NamesShort;
    ScanPrefix(base, lines, k);
    ScanPrefix(base, lines, k + 1);
    ScanNext(base, lines, k);
    if ScanOverruns(base, lines, k) {
      var c, t := ScanAll(base, lines[..k]).value, Trim(lines[k]);
      LabelKeepsOffsets(c, t);
      if IsTextSegment(c.segment) {
        AllNamesShort(base, lines[..k]);
        LabelShort(c, t);
        LongNameFails(base, ScanLabel(c, t).value, Content(t));
      } else {
        ContentOverrunFails(Content(t), c.data);
      }
    }
  }

  lemma LabelKeepsOffsets(c: ScanState, t: string)
    requires ScanLabel(c, t).Ok?
    ensures ScanLabel(c, t).value == c.(symbols := ScanLabel(c, t).value.symbols)
  {
    hide HasLabel, LabelOf, Lookup;
  }

  lemma LabelledNeverOverruns(t: string)
    requires HasLabel(t)
    ensures !TextOverruns(t)
  {
    hide Sscanf, FindInstruction, HasLabel;
    LabelIsNoInstruction(t);
  }

  lemma UnlabelledContent(c: ScanState, t: string)
    requires !HasLabel(t) && (t == "" || !IsSpace(t[0]))
    ensures Content(t) == t && ScanLabel(c, t) == Ok(c)
  {
    hide HasLabel;
    SkipNone(t);
  }

  /** After a successful first pass the second never stores outside a buffer. */
  lemma SecondPassInBounds(env: Env, lines: seq<string>, k: nat)
    requires ScanAll(env.base, lines).Ok? && k < |lines|
    ensures !AssembleOverruns(env, lines, k)
  {
    hide ScanAll, AssembleAll, ContentOverruns, TextOverruns, Content, Trim, Ignorable, ScanLabel,
         ContentImage, HasLabel;
    if AssembleOverruns(env, lines, k) {
      ScanPrefix(env.base, lines, k + 1);
      ScanPrefix(env.base, lines, k);
      ScanNext(env.base, lines, k);
      PassesAgree(env.base, env, lines[..k]);
      FirstPassInBounds(env.base, lines, k);
      var c, t := ScanAll(env.base, lines[..k]).value, Trim(lines[k]);
      if IsTextSegment(c.segment) {
        if HasLabel(t) {
          LabelledNeverOverruns(t);
        } else {
          UnlabelledContent(c, t);
        }
      } else {
        ContentOverrunFails(Content(t), c.data);
      }
    }
  }

  // ----- what the symbols of an assembled program mean -----

  /** Line `k` defines the symbol: its directive's image starts at the symbol's offset. */
  ghost predicate DefinedAt(env: Env, lines: seq<string>, k: nat, symbol: Symbol) {
    && k < |lines| && Assembles(env, lines[..k])
    && IsContent(lines[k]) && HasLabel(Trim(lines[k])) && LabelOf(Trim(lines[k])) == symbol.name
    && symbol.kind == DataSymbol
    && AssembleAll(env, lines[..k]).image.segment == "data"
    && symbol.offset == |AssembleAll(env, lines[..k]).image.data|
    && var image := ContentImage(Content(Trim(lines[k])), symbol.offset);
       && image.Ok?
       && symbol.offset + |image.value| <= |AssembleAll(env, lines).image.data|
       && AssembleAll(env, lines).image.data[symbol.offset..symbol.offset + |image.value|] == image.value
  }

  lemma TextExtends(env: Env, a: Image, t: string)
    requires AssembleText(env, a, t).Ok?
    ensures var b := AssembleText(env, a, t).value; a.text <= b.text && a.data == b.data && a.segment == b.segment
  {
    hide TextWords, Words;
  }

  lemma DataExtends(a: Image, t: string)
    requires AssembleData(a, t).Ok?
    ensures var b := AssembleData(a, t).value; a.text == b.text && a.data <= b.data && a.segment == b.segment
  {
    hide ContentImage, Content;
  }

  lemma LineExtends(env: Env, a: Image, raw: string)
    requires AssembleLine(env, a, raw).Ok?
    ensures var b := AssembleLine(env, a, raw).value; a.text <= b.text && a.data <= b.data
  {
    hide Trim, Ignorable, AssembleText, AssembleData;
    var t := Trim(raw);
    if !Ignorable(t) && t[0] != '.' {
      if IsTextSegment(a.segment) {
        TextExtends(env, a, t);
      } else if a.segment == "data" {
        DataExtends(a, t);
      }
    }
  }

  lemma NewSymbol(base: Word, c: ScanState, env: Env, a: Image, raw: string)
    requires Agree(c, a)
    requires ScanLine(base, c, raw).Ok? && AssembleLine(env, a, raw).Ok?
    ensures var before, after, t := c.symbols, ScanLine(base, c, raw).value.symbols, Trim(raw);
      || after == before
      || (&& |after| == |before| + 1 && after[..|before|] == before
          && IsContent(raw) && HasLabel(t) && after[|before|] == Symbol(LabelOf(t), c.data, DataSymbol)
            && a.segment == "data"
          && ContentImage(Content(t), c.data).Ok?
          && AssembleLine(env, a, raw).value.data == a.data + ContentImage(Content(t), c.data).value)
  {
    var t := Trim(raw);
    hide Trim, TextWords, ScanText, ContentImage, Lookup;
    if Ignorable(t) || t[0] == '.' {
    } else if IsTextSegment(a.segment) {
      if HasLabel(t) {
        LabelledTextFails(env, |a.text|, t);
      } else {
        ScanTextSymbols(base, c, t);
      }
    } else if a.segment == "data" {
      EmptyContent(|a.data|);
    }
  }

  /** If both passes succeed, every symbol is a data symbol, and the bytes at its offset are those
      of the directive on the line that defines it. */
  lemma {:induction false} SymbolsAreData(base: Word, env: Env, lines: seq<string>, i: nat)
    requires ScanAll(base, lines).Ok? && Assembles(env, lines)
    requires i < |ScanAll(base, lines).value.symbols|
    ensures exists k :: DefinedAt(env, lines, k, ScanAll(base, lines).value.symbols[i])
    decreases |lines|
  {
    hide ScanLine, AssembleLine, DefinedAt;
    if lines != [] {
      var init, last := lines[..|lines| - 1], lines[|lines| - 1];
      var c := ScanAll(base, init).value;
      var symbol := ScanAll(base, lines).value.symbols[i];
      SymbolsGrowLine(base, c, last);
      if i < |c.symbols| {
        SymbolsAreData(base, env, init, i);
        var k :| DefinedAt(env, init, k, c.symbols[i]);
        StillDefined(env, lines, k, symbol);
      } else {
        JustDefined(base, env, lines, i);
      }
    }
  }

  lemma JustDefined(base: Word, env: Env, lines: seq<string>, i: nat)
    requires lines != [] && ScanAll(base, lines).Ok? && Assembles(env, lines)
    requires |ScanAll(base, lines[..|lines| - 1]).value.symbols| <= i < |ScanAll(base, lines).value.symbols|
    ensures DefinedAt(env, lines, |lines| - 1, ScanAll(base, lines).value.symbols[i])
  {
    hide ScanLine, AssembleLine, ContentImage, Content, HasLabel, LabelOf, Trim, IsContent;
    var init, last := lines[..|lines| - 1], lines[|lines| - 1];
    PassesAgree(base, env, init);
    NewSymbol(base, ScanAll(base, init).value, env, AssembleAll(env, init).image, last);
  }

  lemma StillDefined(env: Env, lines: seq<string>, k: nat, symbol: Symbol)
    requires lines != [] && Assembles(env, lines) && Assembles(env, lines[..|lines| - 1])
    requires DefinedAt(env, lines[..|lines| - 1], k, symbol)
    ensures DefinedAt(env, lines, k, symbol)
  {
    hide AssembleLine, ContentImage, Content, HasLabel, LabelOf, Trim, IsContent;
    var init := lines[..|lines| - 1];
    assert init[..k] == lines[..k] && init[k] == lines[k];
    LineExtends(env, AssembleAll(env, init).image, lines[|lines| - 1]);
    var n := symbol.offset + |ContentImage(Content(Trim(lines[k])), symbol.offset).value|;
    SamePart(AssembleAll(env, init).image.data, AssembleAll(env, lines).image.data, symbol.offset, n);
  }

  lemma SamePart(s: seq<Byte>, t: seq<Byte>, from: nat, to: nat)
    requires s <= t && from <= to <= |s|
    ensures s[from..to] == t[from..to]
  {
  }
}
