/**
  The assembler as it runs: the context with its segment buffers and symbol table, and the two
  passes that loop over the lines and update it. Each method is proved against the functions of
  `Passes`.
 */
module Assembler {
  import opened Bits
  import opened CText
  import opened Errors
  import opened InstructionTable
  import opened Encoder
  import opened Pseudo
  import opened Layout
  import opened Storage
  import opened DataDirectives
  import opened SymbolTable
  import opened Passes
  import Agreement

  /** Where the content of a line starts: after its label and white space, if it has one. */
  method SkipLabel(t: string) returns (p: nat)
    ensures p <= |t| && t[p..] == Content(t)
  {
    hide FirstToken, SkipSpace;
    p := SkipBlanks(t, 0);
    assert t[0..] == t;
    var token := FirstToken(t);
    if token != "" && token[|token| - 1] == ':' {
      assert t[p..][|token|..] == t[p + |token|..];
      p := SkipBlanks(t, p + |token|);
    }
  }

  /** The first position from `from` on that holds no white space. */
  method SkipBlanks(t: string, from: nat) returns (p: nat)
    requires from <= |t|
    ensures from <= p <= |t| && t[p..] == SkipSpace(t[from..])
  {
    hide SkipSpace;
    p := from;
    while p < |t| && IsSpace(t[p])
      invariant from <= p <= |t| && SkipSpace(t[p..]) == SkipSpace(t[from..])
    {
      SkipOne(t, p);
      p := p + 1;
    }
    SkipNone(t[p..]);
  }

  class Context {
    const base: Word
    const text: array<Byte>
    const data: array<Byte>
    const table: Table
    var textSize: nat
    var dataSize: nat

    ghost predicate Valid()
      reads this, table, table.symbols
    {
      text.Length == CAPACITY && data.Length == CAPACITY && text != data && table.Valid()
    }

    function CurrentEnv(): Env
      requires Valid()
      reads this, table, table.symbols
    {
      Env(base, table.Entries(), textSize)
    }

    constructor (baseVaddr: Word)
      ensures Valid() && base == baseVaddr && textSize == 0 && dataSize == 0 && table.Entries() == []
      ensures fresh(text) && fresh(data) && fresh(table) && fresh(table.symbols)
    {
      base := baseVaddr;
      text := new Byte[CAPACITY](_ => 0);
      data := new Byte[CAPACITY](_ => 0);
      table := new Table();
      textSize, dataSize := 0, 0;
    }

    /** The buffers up to the offsets, and the segment name, are those of the image. */
    ghost predicate Holds(a: Image, segment: string, textOffset: nat, dataOffset: nat)
      reads text, data
    {
      && textOffset <= text.Length && dataOffset <= data.Length
      && a.segment == segment && a.text == text[..textOffset] && a.data == data[..dataOffset]
    }

    // ----- the second pass -----

    /** Expands a pseudo-instruction and encodes what it expands to. */
    method EncodePseudo(m: Mnemonic, line: string, textOffset: nat, encoded: array<Word>)
      returns (err: Option<Error>, count: nat, overrun: bool)
      requires Valid() && encoded.Length == 2
      modifies encoded
      ensures match PseudoWords(CurrentEnv(), textOffset, m, line)
        case Ok(words) => err == None && count == |words| && count <= 2 && encoded[..count] == words
        case Err(e) => err == Some(e)
      ensures overrun <==> m == La && NameOverruns(line)
    {
      hide Expand, EncodeAll, NameOverruns;
      count := 0;
      var expansion := new Expansion();
      var pc := ToWord(TextVaddr(base) + textOffset);
      err, overrun := expansion.ExpandPseudo(CurrentEnv(), table, m, line, pc);
      if err.Some? {
        return;
      }
      ExpandLength(CurrentEnv(), CurrentEnv(), m, line, pc, pc);
      var counter;
      err, counter := EncodeExpansion(expansion.lines, encoded, textOffset);
      count := |expansion.lines|;
    }

    /** The words of a text line, at most two; `overrun` when a symbol name is stored past its buffer. */
    method EncodeLine(line: string, textOffset: nat, encoded: array<Word>)
      returns (err: Option<Error>, count: nat, overrun: bool)
      requires Valid() && encoded.Length == 2
      modifies encoded
      ensures match TextWords(CurrentEnv(), textOffset, line)
        case Ok(words) => err == None && count == |words| && count <= 2 && encoded[..count] == words
        case Err(e) => err == Some(e)
      ensures overrun <==> TextOverruns(line)
    {
      hide Sscanf, FindInstruction, RowOf, Encode, PseudoWords, NameOverruns, SkipSpace, TokenRun;
      err, count, overrun := None, 0, false;
      SameName(line);
      Agreement.LaIsPseudo();
      match Sscanf(line, LINE_NAME_FORMAT) {
        case Text(name, NoMore) =>
          var found := FindInstruction(name);
          if found.None? {
            return Some(UnknownInstruction), 0, false;
          }
          if RowOf(found.value).kind == P {
            err, count, overrun := EncodePseudo(found.value, line, textOffset, encoded);
            return;
          }
          var word := EncodeInstruction(found.value, line);
          match word {
            case Ok(w) =>
              encoded[0] := w;
              count := 1;
            case Err(e) =>
              err := Some(e);
          }
        case _ =>
          err := Some(ParseError);
      }
    }

    /** Copies bytes into the text segment one by one, up to its capacity. */
    method CopyText(bytes: seq<Byte>, textOffset: nat) returns (err: Option<Error>, next: nat)
      requires Valid() && textOffset <= CAPACITY
      modifies text
      ensures text[..textOffset] == old(text[..textOffset])
      ensures if textOffset + |bytes| <= CAPACITY
              then err == None && next == textOffset + |bytes| && text[textOffset..next] == bytes
              else err == Some(GeneralError) && next == textOffset
    {
      var currentSize := textOffset;
      for i := 0 to |bytes|
        invariant currentSize == textOffset + i <= CAPACITY
        invariant text[..textOffset] == old(text[..textOffset])
        invariant text[textOffset..currentSize] == bytes[..i]
      {
        if currentSize >= text.Length {
          return Some(GeneralError), textOffset;
        }
        text[currentSize] := bytes[i];
        currentSize := currentSize + 1;
      }
      return None, currentSize;
    }

    /** `process_segment_text`: a line that fails leaves the offset and the bytes before it alone. */
    method ProcessSegmentText(line: string, textOffset: nat, ghost a: Image)
      returns (err: Option<Error>, next: nat, overrun: bool)
      requires Valid() && textOffset <= CAPACITY && a.text == text[..textOffset]
      modifies text
      ensures match AssembleText(CurrentEnv(), a, line)
        case Ok(b) => err == None && next <= CAPACITY && text[..next] == b.text
        case Err(e) => err == Some(e) && next == textOffset && text[..next] == a.text
      ensures overrun <==> TextOverruns(line)
    {
      hide TextWords, Words, TextOverruns;
      var encoded := new Word[2](_ => 0);
      var count;
      err, count, overrun := EncodeLine(line, textOffset, encoded);
      if err.Some? {
        return err, textOffset, overrun;
      }
      err, next := CopyText(Words(encoded[..count]), textOffset);
      if err.None? {
        assert text[..next] == text[..textOffset] + text[textOffset..next];
      }
    }

    /** `process_segment_data`; `overrun` when a byte is stored past the segment. */
    method ProcessSegmentData(line: string, dataOffset: nat, ghost a: Image)
      returns (err: Option<Error>, next: nat, overrun: bool)
      requires Valid()
      requires dataOffset <= CAPACITY && a.data == data[..dataOffset]
      modifies data
      ensures match AssembleData(a, line)
        case Ok(b) => err == None && next <= CAPACITY && data[..next] == b.data
        case Err(e) => err == Some(e) && next == dataOffset && data[..next] == a.data
      ensures overrun <==> ContentOverruns(Content(line), dataOffset)
      ensures overrun ==> err.Some?
    {
      hide Sscanf, Content, DirectiveImage, DirectiveOverruns, Span, SkipSpace;
      ghost var before := data[..];
      var p := SkipLabel(line);
      next, overrun := dataOffset, false;
      match Sscanf(line[p..], Word(63, End)) {
        case Text(directive, NoMore) =>
          var args := SkipSpace(line[p..][Span(line[p..], " \t")..]);
          var size;
          err, size, overrun := ParseDirective(data, directive, args, dataOffset, CAPACITY);
          if err.None? {
            next := size;
            DirectiveFits(directive, args, CAPACITY - dataOffset);
            assert data[..next] == data[..dataOffset] + data[dataOffset..next];
          }
          assert data[..dataOffset] == before[..dataOffset];
        case _ =>
          err := Some(ParseError);
      }
    }

    /** `process_assembly_line` */
    method ProcessLine(segment: string, line: string, textOffset: nat, dataOffset: nat, ghost a: Image)
      returns (err: Option<Error>, nextText: nat, nextData: nat, overrun: bool)
      requires Valid()
      requires textOffset <= CAPACITY && dataOffset <= CAPACITY && Holds(a, segment, textOffset, dataOffset)
      modifies text, data
      ensures nextText <= CAPACITY && nextData <= CAPACITY
      ensures match AssembleContent(CurrentEnv(), a, line)
        case Ok(b) => err == None && Holds(b, segment, nextText, nextData)
        case Err(e) => err == Some(e) && Holds(a, segment, nextText, nextData)
      ensures overrun <==>
        if IsTextSegment(segment) then TextOverruns(line)
        else segment == "data" && ContentOverruns(Content(line), dataOffset)
    {
      hide AssembleText, AssembleData, ContentOverruns, TextOverruns, Content;
      err, nextText, nextData, overrun := None, textOffset, dataOffset, false;
      if segment == "" || segment == "text" {
        err, nextText, overrun := ProcessSegmentText(line, textOffset, a);
        if err.None? {
          Agreement.TextExtends(CurrentEnv(), a, line);
        }
      } else if segment == "data" {
        err, nextData, overrun := ProcessSegmentData(line, dataOffset, a);
        if err.None? {
          Agreement.DataExtends(a, line);
        }
      } else if segment != "bss" {
        err := Some(GeneralError);
      }
    }

    /** `assemble_file`: the sizes say how far the pass came, also when it failed. */
    method AssembleFile(lines: seq<string>) returns (err: Option<Error>, overrun: bool)
      requires Valid()
      modifies this`textSize, this`dataSize, text, data
      ensures Valid()
      ensures var outcome := AssembleAll(old(CurrentEnv()), lines);
        err == outcome.err && textSize <= CAPACITY && dataSize <= CAPACITY
        && text[..textSize] == outcome.image.text && data[..dataSize] == outcome.image.data
      ensures overrun <==> exists k :: 0 <= k < |lines| && AssembleOverruns(old(CurrentEnv()), lines, k)
    {
      hide AssembleContent, Trim, Ignorable, ContentOverruns, TextOverruns, Content;
      ghost var env := CurrentEnv();
      var segment, textOffset: nat, dataOffset: nat := "", 0, 0;
      err, overrun := None, false;
      for i := 0 to |lines|
        invariant overrun <==> exists k :: 0 <= k < i && AssembleOverruns(env, lines, k)
        invariant CurrentEnv() == env && Valid() && textOffset <= CAPACITY && dataOffset <= CAPACITY
        invariant err == None && Assembles(env, lines[..i])
        invariant Holds(AssembleAll(env, lines[..i]).image, segment, textOffset, dataOffset)
      {
        ghost var a := AssembleAll(env, lines[..i]).image;
        AssembleNext(env, lines, i);
        var line := Trim(lines[i]);
        if Ignorable(line) {
          continue;
        }
        if line[0] == '.' {
          segment := line[1..];
          continue;
        }
        var outside;
        err, textOffset, dataOffset, outside := ProcessLine(segment, line, textOffset, dataOffset, a);
        assert outside <==> AssembleOverruns(env, lines, i);
        overrun := overrun || outside;
        if err.Some? {
          AssemblyStops(env, lines, i);
          break;
        }
      }
      assert lines[..|lines|] == lines;
      textSize := textOffset;
      dataSize := dataOffset;
    }

    // ----- the first pass -----

    /** Enters the label of a line, if it has one. */
    method EnterLabel(segment: string, t: string, textOffset: Word, dataOffset: Word) returns (err: Option<Error>)
      requires Valid()
      modifies table, table.symbols
      ensures Valid()
      ensures match ScanLabel(ScanState(segment, textOffset, dataOffset, old(table.Entries())), t)
        case Ok(c) => err == None && c == ScanState(segment, textOffset, dataOffset, c.symbols)
            && table.Entries() == c.symbols
        case Err(e) => err == Some(e) && table.Entries() == old(table.Entries())
    {
      hide FirstToken, Lookup;
      err := None;
      if !HasLabel(t) {
        return;
      }
      var address;
      if segment == "" || segment == "text" {
        address := textOffset;
      } else if segment == "data" {
        address := dataOffset;
      } else {
        return Some(GeneralError);
      }
      var ok := table.InsertSymbol(LabelOf(t), address);
      if !ok {
        return Some(GeneralError);
      }
      table.SetLastKind(if segment == "" || segment == "text" then TextSymbol else DataSymbol);
    }

    /** Advances the offset of the current segment by the size of a line's content; `overrun` when a
        byte is stored past the scratch buffer. */
    method MeasureContent(segment: string, p: string, textOffset: Word, dataOffset: Word)
      returns (err: Option<Error>, nextText: Word, nextData: Word, overrun: bool)
      requires Valid() && textSize == 0 && dataOffset <= CAPACITY
      ensures nextData <= CAPACITY
      ensures match ScanContent(base, ScanState(segment, textOffset, dataOffset, table.Entries()), p)
        case Ok(c) => err == None && c == ScanState(segment, nextText, nextData, table.Entries())
        case Err(e) => err == Some(e)
      ensures overrun <==>
        if IsTextSegment(segment) then TextOverruns(p)
        else segment in {"data", "bss"} && ContentOverruns(p, dataOffset)
    {
      hide ScanText, ContentImage, ContentOverruns, TextOverruns;
      err, nextText, nextData, overrun := None, textOffset, dataOffset, false;
      if segment == "" || segment == "text" {
        err, nextText, overrun := MeasureText(segment, p, textOffset, dataOffset);
      } else if segment == "data" || segment == "bss" {
        err, nextData, overrun := MeasureData(p, dataOffset);
      } else {
        err := Some(GeneralError);
      }
    }

    method MeasureText(segment: string, p: string, textOffset: Word, dataOffset: Word)
      returns (err: Option<Error>, nextText: Word, overrun: bool)
      requires Valid() && textSize == 0
      ensures match ScanText(base, ScanState(segment, textOffset, dataOffset, table.Entries()), p)
        case Ok(c) => err == None && c == ScanState(segment, nextText, dataOffset, table.Entries())
        case Err(e) => err == Some(e)
      ensures overrun <==> TextOverruns(p)
    {
      hide Sscanf, FindInstruction, RowOf, Expand, NameOverruns;
      err, nextText, overrun := None, textOffset, false;
      Agreement.LaIsPseudo();
      match Sscanf(p, NAME_FORMAT) {
        case Text(name, NoMore) =>
          var found := FindInstruction(name);
          if found.None? {
            return Some(UnknownInstruction), textOffset, false;
          }
          if RowOf(found.value).kind == P {
            var expansion := new Expansion();
            var pc := ToWord(TextVaddr(base) + textOffset);
            err, overrun := expansion.ExpandPseudo(CurrentEnv(), table, found.value, p, pc);
            if err.None? {
              nextText := ToWord(textOffset + 4 * |expansion.lines|);
            }
          } else {
            nextText := ToWord(textOffset + 4);
          }
        case _ =>
      }
    }

    /** Runs the directive on a buffer that is thrown away, of exactly the capacity. */
    method MeasureData(p: string, dataOffset: Word) returns (err: Option<Error>, nextData: Word, overrun: bool)
      requires dataOffset <= CAPACITY
      ensures nextData <= CAPACITY
      ensures match ContentImage(p, dataOffset)
        case Ok(image) => err == None && nextData == dataOffset + |image|
        case Err(e) => err == Some(e)
      ensures overrun <==> ContentOverruns(p, dataOffset)
      ensures overrun ==> err.Some?
    {
      hide Sscanf, DirectiveImage, DirectiveOverruns, Span, SkipSpace;
      nextData, overrun := dataOffset, false;
      match Sscanf(p, Word(63, End)) {
        case Text(directive, NoMore) =>
          var args := SkipSpace(p[Span(p, " \t")..]);
          var temp := new Byte[CAPACITY](_ => 0);
          var size;
          err, size, overrun := ParseDirective(temp, directive, args, dataOffset, CAPACITY);
          if err.None? {
            DirectiveFits(directive, args, CAPACITY - dataOffset);
            nextData := size;
          }
        case _ =>
          err := Some(ParseError);
      }
    }

    /** `scan_labels`: the sizes are stored only when the whole source was scanned. */
    method ScanLabels(lines: seq<string>) returns (err: Option<Error>, overrun: bool)
      requires Valid() && textSize == 0 && table.Entries() == []
      modifies this`textSize, this`dataSize, table, table.symbols
      ensures Valid()
      ensures match ScanAll(base, lines)
        case Ok(c) => err == None && textSize == c.text && dataSize == c.data && table.Entries() == c.symbols
        case Err(e) => err == Some(e) && textSize == old(textSize) && dataSize == old(dataSize)
      ensures overrun <==> exists k :: 0 <= k < |lines| && ScanOverruns(base, lines, k)
    {
      hide ScanContent, ScanLabel, Trim, Ignorable, Content, ContentOverruns, TextOverruns;
      var segment, textOffset: Word, dataOffset: Word := "", 0, 0;
      overrun := false;
      for i := 0 to |lines|
        invariant Valid() && textSize == 0 && dataSize == old(dataSize) && dataOffset <= CAPACITY
        invariant ScanAll(base, lines[..i]).Ok?
        invariant ScanAll(base, lines[..i]).value == ScanState(segment, textOffset, dataOffset, table.Entries())
        invariant overrun <==> exists k :: 0 <= k < i && ScanOverruns(base, lines, k)
      {
        ScanNext(base, lines, i);
        var line := Trim(lines[i]);
        if Ignorable(line) {
          continue;
        }
        if line[0] == '.' {
          segment := line[1..];
          continue;
        }
        ghost var c := ScanAll(base, lines[..i]).value;
        err := EnterLabel(segment, line, textOffset, dataOffset);
        if err.Some? {
          ScanStops(base, lines, i);
          return;
        }
        var p := SkipLabel(line);
        if p == |line| {
          continue;
        }
        if segment == "bss" {
          BssNeverOverruns(c, line);
        }
        var outside;
        err, textOffset, dataOffset, outside := MeasureContent(segment, line[p..], textOffset, dataOffset);
        assert outside <==> ScanOverruns(base, lines, i);
        overrun := overrun || outside;
        if err.Some? {
          ScanStops(base, lines, i);
          return;
        }
      }
      assert lines[..|lines|] == lines;
      textSize := textOffset;
      dataSize := dataOffset;
      err := None;
    }
  }
}
