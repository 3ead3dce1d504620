/**
  The ways a data directive may be written: lists of numbers with blanks and empty places, strings
  in which every character and every escape may occur, space with and without a fill byte, and the
  label before them.
 */
module DataNotation {
  import opened Bits
  import opened CText
  import opened Numerals
  import opened Errors
  import opened Storage
  import opened DataDirectives
  import opened Passes
  import opened Notation
  import SymbolTable

  // ----- lists of numbers -----

  /** One place of a list: commas of empty places before it, blanks, a number, and what follows it. */
  datatype Entry = Entry(commas: string, blanks: string, number: Literal, after: string)

  predicate AllCommas(s: string) {
    forall i :: 0 <= i < |s| ==> s[i] == ','
  }

  predicate EntryOk(e: Entry) {
    && AllCommas(e.commas) && AllBlank(e.blanks) && LiteralOk(e.number)
    && ',' !in e.after && Complete(Magnitude(e.number.text), e.after)
  }

  function TokenText(e: Entry): string {
    e.blanks + (e.number.text + e.after)
  }

  function ListText(entries: seq<Entry>, end: string): string {
    if entries == [] then end
    else
      entries[0].commas + (TokenText(entries[0])
      + (if |entries| == 1 then end else "," + ListText(entries[1..], end)))
  }

  /** What `strtok` goes on with after the first number. */
  function TailText(entries: seq<Entry>, end: string): string
    requires entries != []
  {
    if |entries| > 1 then ListText(entries[1..], end) else if end == "" then "" else end[1..]
  }

  predicate EntriesOk(entries: seq<Entry>, end: string) {
    AllCommas(end) && forall i :: 0 <= i < |entries| ==> EntryOk(entries[i])
  }

  lemma {:induction false} SkipCommas(commas: string, s: string)
    requires AllCommas(commas)
    ensures NextToken(commas + s) == NextToken(s)
  {
    if commas == "" {
      assert commas + s == s;
    } else {
      assert (commas + s)[1..] == commas[1..] + s;
      SkipCommas(commas[1..], s);
    }
  }

  /** `strtok` takes the text up to the next comma. */
  lemma OneToken(t: string, rest: string)
    requires t != "" && ',' !in t && (rest == "" || rest[0] == ',')
    ensures NextToken(t + rest) == Some((t, if rest == "" then "" else rest[1..]))
  {
    var s := t + rest;
    SpanAll(t, rest, ",");
    assert s[0] == t[0] && s[..|t|] == t;
    if rest != "" {
      assert s[|t| + 1..] == rest[1..];
    }
  }

  lemma NoGlyphComma(s: string, base: nat, n: nat)
    requires IsBase(base) && Denotes(s, base, n)
    ensures ',' !in s
  {
    DenotesNumeral(s, base, n);
    assert DigitValue(',') == 16;
    hide DigitValue, Denotes, Numeral;
  }

  lemma NumberHasNoComma(n: Literal)
    requires LiteralOk(n)
    ensures n.text != "" && ',' !in n.text && !IsSpace(n.text[0])
  {
    var m := Magnitude(n.text);
    MagnitudeHasNoComma(m, Absolute(n.value));
    NumberStops(m, "");
    hide SpellsMagnitude, Complete;
    ScanSpelling(n.text, n.value, n.value, "");
    assert n.text == m || n.text == [n.text[0]] + m;
  }

  lemma MagnitudeHasNoComma(m: string, n: nat)
    requires SpellsMagnitude(m, n)
    ensures ',' !in m
  {
    hide Denotes;
    SpellingShape(m, n);
    if HasHexPrefix(m) {
      NoGlyphComma(m[2..], 16, n);
      assert m == [m[0]] + [m[1]] + m[2..];
    } else {
      NoGlyphComma(m, if m[0] == '0' then 8 else 10, n);
    }
  }

  lemma TokenShape(e: Entry)
    requires EntryOk(e)
    ensures TokenText(e) != "" && ',' !in TokenText(e)
    ensures ScanInteger(TokenText(e)) == Some((e.number.value, e.after))
  {
    NumberHasNoComma(e.number);
    ScanSpelling(e.number.text, e.number.value, e.number.value, e.after);
    var t := e.number.text + e.after;
    assert t[0] == e.number.text[0];
    BlanksSkipped(e.blanks, t);
    hide ScanSigned, LiteralOk, Complete, SkipSpace;
    assert ',' !in e.blanks;
  }

  /** The first number of a list, and what is left. */
  lemma ListHead(entries: seq<Entry>, end: string)
    requires EntriesOk(entries, end) && entries != []
    ensures NextToken(ListText(entries, end)) == Some((TokenText(entries[0]), TailText(entries, end)))
    ensures ScanInteger(TokenText(entries[0])) == Some((entries[0].number.value, entries[0].after))
  {
    var e := entries[0];
    TokenShape(e);
    hide TokenText, ScanInteger, EntryOk;
    assert AllCommas(e.commas) by {
      EntryCommas(e);
    }
    var rest := if |entries| == 1 then end else "," + ListText(entries[1..], end);
    SkipCommas(e.commas, TokenText(e) + rest);
    OneToken(TokenText(e), rest);
    assert |entries| > 1 ==> rest[1..] == ListText(entries[1..], end);
  }

  lemma EntryCommas(e: Entry)
    requires EntryOk(e)
    ensures AllCommas(e.commas)
  {
  }

  lemma ListEnds(entries: seq<Entry>, end: string)
    requires EntriesOk(entries, end) && entries == []
    ensures NextToken(ListText(entries, end)) == None
  {
    SkipCommas(end, "");
    assert end + "" == end;
  }

  function Values(entries: seq<Entry>): seq<int> {
    if entries == [] then [] else [entries[0].number.value] + Values(entries[1..])
  }

  function Residues(values: seq<int>, p: nat): seq<nat>
    requires p > 0
  {
    if values == [] then [] else [values[0] % p] + Residues(values[1..], p)
  }

  lemma TailIsList(entries: seq<Entry>, end: string) returns (rest: string)
    requires EntriesOk(entries, end) && entries != []
    ensures EntriesOk(entries[1..], rest) && TailText(entries, end) == ListText(entries[1..], rest)
  {
    hide EntryOk;
    rest := if |entries| > 1 || end == "" then end else end[1..];
    assert |entries| == 1 ==> entries[1..] == [];
  }

  /** A written list of integers assembles exactly when it fits, to the same numbers modulo 256^step. */
  lemma {:induction false} ListRoundTrip(entries: seq<Entry>, end: string, step: nat, room: int)
    requires step > 0 && room >= 0 && EntriesOk(entries, end)
    ensures IntegerImage(ListText(entries, end), step, room).Ok? <==> step * |entries| <= room
    ensures var r := IntegerImage(ListText(entries, end), step, room);
      if r.Ok? then
        |r.value| == step * |entries| && StoredValues(r.value, step) == Residues(Values(entries), Pow256(step))
      else r == Err(GeneralError)
    decreases |entries|
  {
    hide IntegerImage, StoredValues, NextToken, ScanInteger, Pow256, LittleEndian, ListText, TailText,
         TokenText, EntriesOk;
    var args := ListText(entries, end);
    if entries == [] {
      ListEnds(entries, end);
      IntegerDone(args, step, room);
      NothingStored(step);
    } else {
      var tail := entries[1..];
      assert step * |entries| == step + step * |tail|;
      ListHead(entries, end);
      var rest := TailIsList(entries, end);
      IntegerStep(args, step, room);
      if step <= room {
        ListRoundTrip(tail, rest, step, room - step);
        if IntegerImage(ListText(tail, rest), step, room - step).Ok? {
          StoredStep(entries[0].number.value, step, IntegerImage(ListText(tail, rest), step, room - step).value);
        }
      } else {
        assert step * |tail| >= 0;
      }
    }
  }

  lemma NothingStored(step: nat)
    requires step > 0
    ensures StoredValues([], step) == []
  {
  }

  lemma StoredStep(v: int, step: nat, tail: seq<Byte>)
    requires step > 0
    ensures StoredValues(LittleEndian(v, step) + tail, step) == [v % Pow256(step)] + StoredValues(tail, step)
  {
    hide LittleEndian, Value, Pow256;
    LittleEndianValue(v, step);
    var b := LittleEndian(v, step) + tail;
    assert b[..step] == LittleEndian(v, step) && b[step..] == tail;
  }

  /** Written space: a count, and a fill byte that is zero when there is none. */
  function SpaceFill(entries: seq<Entry>): int {
    if |entries| > 1 then entries[1].number.value else 0
  }

  /** It assembles to that many fill bytes when they fit; a negative count and a fill that is no byte
      are errors. */
  lemma SpaceRoundTrip(entries: seq<Entry>, end: string, room: int)
    requires EntriesOk(entries, end) && entries != []
    ensures SpaceImage(ListText(entries, end), room)
         == if entries[0].number.value < 0 || SpaceFill(entries) < 0 || SpaceFill(entries) > 255 then Err(ParseError)
            else if entries[0].number.value > room then Err(GeneralError)
            else Ok(Repeat(SpaceFill(entries), entries[0].number.value))
  {
    hide NextToken, ScanInteger, ListText, TailText, TokenText, EntriesOk;
    ListHead(entries, end);
    var rest := TailIsList(entries, end);
    if |entries| > 1 {
      ListHead(entries[1..], rest);
    } else {
      ListEnds(entries[1..], rest);
    }
  }

  /** A token that is no number ends a list in an error, unless the numbers before it already fill the
      room; the same token for a count or a fill byte is an error, and so is no count at all. */
  lemma {:induction false} BadNumber(entries: seq<Entry>, bad: string, rest: string, step: nat, room: int)
    requires step > 0 && room >= 0 && EntriesOk(entries, "")
    requires bad != "" && ',' !in bad && ScanInteger(bad) == None && (rest == "" || rest[0] == ',')
    ensures var args := ListText(entries + [Wrong(bad)], rest);
      && IntegerImage(args, step, room) == (if step * |entries| > room then Err(GeneralError) else Err(ParseError))
      && (|entries| <= 1 ==> SpaceImage(args, room) == Err(ParseError))
    ensures SpaceImage("", room) == Err(ParseError)
    decreases |entries|
  {
    var all := entries + [Wrong(bad)];
    var args := ListText(all, rest);
    hide IntegerImage, NextToken, ScanInteger, LittleEndian, TokenText, EntryOk, ListText;
    NoCount();
    if entries == [] {
      OnlyWrong(bad, rest);
      OneToken(bad, rest);
      assert all == [Wrong(bad)];
      IntegerStep(args, step, room);
    } else {
      assert all[1..] == entries[1..] + [Wrong(bad)];
      assert step * |entries| == step + step * |entries[1..]|;
      FirstOfMore(all, rest);
      IntegerStep(args, step, room);
      if step <= room {
        BadNumber(entries[1..], bad, rest, step, room - step);
      }
      if |entries| == 1 {
        assert all[1..] == [Wrong(bad)];
        OnlyWrong(bad, rest);
        OneToken(bad, rest);
      }
    }
  }

  /** A place of a list that holds something else than a number. */
  function Wrong(bad: string): Entry {
    Entry("", "", Literal(bad, 0), "")
  }

  lemma OnlyWrong(bad: string, rest: string)
    ensures ListText([Wrong(bad)], rest) == bad + rest
  {
    assert TokenText(Wrong(bad)) == bad;
  }

  lemma NoCount()
    ensures NextToken("") == None
  {
  }

  /** The first of several numbers. */
  lemma FirstOfMore(all: seq<Entry>, rest: string)
    requires |all| > 1 && EntryOk(all[0])
    ensures NextToken(ListText(all, rest)) == Some((TokenText(all[0]), ListText(all[1..], rest)))
    ensures ScanInteger(TokenText(all[0])) == Some((all[0].number.value, all[0].after))
  {
    TokenShape(all[0]);
    EntryCommas(all[0]);
    hide TokenText, ScanInteger, EntryOk;
    var more := "," + ListText(all[1..], rest);
    SkipCommas(all[0].commas, TokenText(all[0]) + more);
    OneToken(TokenText(all[0]), more);
    assert more[1..] == ListText(all[1..], rest);
  }

  // ----- strings -----

  /** What stands between the quotes, piece by piece. */
  datatype Piece =
    | Plain(c: char)
    | Newline | Tab | Return | Backslash | Quote
    | Other(c: char)      // a backslash and a character that makes no escape

  predicate PieceOk(p: Piece) {
    match p
    case Plain(c) => c != '\\' && c as int < 0x100
    case Other(c) => c !in "ntr\\\"" && c as int < 0x100
    case _ => true
  }

  function PieceText(p: Piece): string {
    match p
    case Plain(c) => [c]
    case Newline => "\\n"
    case Tab => "\\t"
    case Return => "\\r"
    case Backslash => "\\\\"
    case Quote => "\\\""
    case Other(c) => "\\" + [c]
  }

  /** The bytes a piece stands for; what is no escape stays as it is written. */
  function PieceBytes(p: Piece): seq<int> {
    match p
    case Plain(c) => [c as int]
    case Newline => [0x0A]
    case Tab => [0x09]
    case Return => [0x0D]
    case Backslash => [0x5C]
    case Quote => [0x22]
    case Other(c) => [0x5C, c as int]
  }

  /** The pieces, and perhaps a backslash before the closing quote. */
  function PiecesText(ps: seq<Piece>, stray: bool): string {
    if ps == [] then (if stray then "\\" else "") else PieceText(ps[0]) + PiecesText(ps[1..], stray)
  }

  function PiecesBytes(ps: seq<Piece>, stray: bool): seq<int> {
    if ps == [] then (if stray then [0x5C] else []) else PieceBytes(ps[0]) + PiecesBytes(ps[1..], stray)
  }

  predicate PiecesOk(ps: seq<Piece>) {
    forall i :: 0 <= i < |ps| ==> PieceOk(ps[i])
  }

  lemma UnescapePiece(p: Piece, tail: string)
    requires PieceOk(p)
    ensures Unescape(PieceText(p) + tail) == PieceBytes(p) + Unescape(tail)
  {
    var text := PieceText(p);
    var s := text + tail;
    assert s[|text|..] == tail && s[0] == text[0] && (|text| > 1 ==> s[1] == text[1]);
  }

  lemma UnescapeStray()
    ensures Unescape("\\") == [92] && Unescape("") == []
  {
    assert "\\"[1..] == "";
  }

  lemma {:induction false} UnescapePieces(ps: seq<Piece>, stray: bool)
    requires PiecesOk(ps)
    ensures Unescape(PiecesText(ps, stray)) == PiecesBytes(ps, stray)
    decreases |ps|
  {
    hide Unescape, PieceText, PieceBytes, PieceOk;
    if ps == [] {
      UnescapeStray();
    } else {
      UnescapePieces(ps[1..], stray);
      UnescapePiece(ps[0], PiecesText(ps[1..], stray));
    }
  }

  /** The piece a text starts with. */
  function FirstPiece(s: string): Piece
    requires s != "" && s != "\\"
  {
    if s[0] != '\\' then Plain(s[0])
    else if s[1] == 'n' then Newline
    else if s[1] == 't' then Tab
    else if s[1] == 'r' then Return
    else if s[1] == '\\' then Backslash
    else if s[1] == '"' then Quote
    else Other(s[1])
  }

  lemma FirstPieceText(s: string)
    requires s != "" && s != "\\" && forall i :: 0 <= i < |s| ==> s[i] as int < 0x100
    ensures var p := FirstPiece(s); PieceOk(p) && PieceText(p) <= s
  {
  }

  /** Every text is made of pieces, so its bytes are known. */
  lemma {:induction false} EveryText(s: string) returns (ps: seq<Piece>, stray: bool)
    requires forall i :: 0 <= i < |s| ==> s[i] as int < 0x100
    ensures PiecesOk(ps) && PiecesText(ps, stray) == s && Unescape(s) == PiecesBytes(ps, stray)
    decreases |s|
  {
    hide PieceText, PieceOk, Unescape, PiecesBytes;
    if s == "" || s == "\\" {
      ps, stray := [], s == "\\";
    } else {
      var p := FirstPiece(s);
      FirstPieceText(s);
      var k := |PieceText(p)|;
      assert k > 0 by {
        PieceNotEmpty(p);
      }
      var more;
      more, stray := EveryText(s[k..]);
      ps := [p] + more;
      assert ps[1..] == more;
      assert s == s[..k] + s[k..];
    }
    UnescapePieces(ps, stray);
  }

  lemma PieceNotEmpty(p: Piece)
    ensures PieceText(p) != ""
  {
  }

  lemma {:induction false} LastQuote(a: string, b: string)
    requires '"' !in b
    ensures LastIndex(a + "\"" + b, '"') == |a|
    ensures LastIndex(b, '"') == -1
    decreases |b|
  {
    var s := a + "\"" + b;
    if b != "" {
      var init := b[..|b| - 1];
      LastQuote(a, init);
      assert s[..|s| - 1] == a + "\"" + init && s[|s| - 1] == b[|b| - 1];
    } else {
      assert s == a + "\"";
    }
  }

  /** The text runs from the first quote to the last, whatever stands around them. */
  lemma QuotedText(before: string, inner: string, after: string)
    requires '"' !in before && '"' !in after
    ensures Quoted(before + ("\"" + (inner + "\"" + after))) == Some(inner)
  {
    hide LastIndex, Span;
    var tail := inner + "\"" + after;
    var s := before + ("\"" + tail);
    SpanAll(before, "\"" + tail, "\"");
    LastQuote(inner, after);
    assert s[|before| + 1..] == tail && tail[..|inner|] == inner;
  }

  /** Without two quotes there is no text, which is an error whatever the room. */
  lemma Unquoted(before: string, after: string, room: int)
    requires '"' !in before && '"' !in after
    ensures Quoted(before) == None && Quoted(before + ("\"" + after)) == None
    ensures StringImage(before, room) == Err(ParseError)
    ensures StringImage(before + ("\"" + after), room) == Err(ParseError)
  {
    hide LastIndex, Span;
    SpanAll(before, "", "\"");
    SpanAll(before, "\"" + after, "\"");
    assert before + "" == before && (before + ("\"" + after))[|before| + 1..] == after;
    LastQuote("", after);
  }

  /** A string directive under each of its names: its bytes and a zero, exactly when they fit. */
  lemma StringForm(name: string, before: string, ps: seq<Piece>, stray: bool, after: string, room: int)
    requires name in {".string", ".asciz", ".asciiz"} && '"' !in before && '"' !in after && PiecesOk(ps)
    ensures var bytes := PiecesBytes(ps, stray);
      var r := DirectiveImage(name, before + ("\"" + (PiecesText(ps, stray) + "\"" + after)), room);
      if |bytes| + 1 <= room then r.Ok? && r.value == bytes + [0] else r == Err(GeneralError)
    ensures forall more :: DirectiveOverruns(name, before + ("\"" + (PiecesText(ps, stray) + "\"" + after)), more)
                      <==> Overruns(PiecesText(ps, stray), more)
  {
    hide Quoted, Unescape, Overruns, PiecesText, PiecesBytes;
    QuotedText(before, PiecesText(ps, stray), after);
    UnescapePieces(ps, stray);
  }

  // ----- labels -----

  predicate IsName(s: string) {
    0 < |s| < 64 && forall i :: 0 <= i < |s| ==> s[i] !in BLANKS
  }

  /** A label and what follows it are told apart again. */
  lemma LabelRoundTrip(name: string, gap: string, content: string)
    requires IsName(name) && AllBlank(gap) && (gap == "" ==> content == "") && (content == "" || !IsSpace(content[0]))
    ensures var t := name + ":" + (gap + content);
      HasLabel(t) && LabelOf(t) == name && Content(t) == content
  {
    var token, rest := name + ":", gap + content;
    var t := token + rest;
    assert t[0] == name[0];
    forall i | 0 <= i < |token|
      ensures !IsSpace(token[i])
    {
      SpaceIsBlank(token[i]);
      assert i < |name| ==> token[i] == name[i];
    }
    if gap != "" {
      BlankFirst(gap, content);
    }
    hide TokenRun, AllBlank, IsName, IsSpace;
    SkipNone(t);
    TokenRunAll(token, rest);
    assert t[..|token|] == token && t[|token|..] == rest;
    assert token[..|name|] == name;
    BlanksSkipped(gap, content);
  }

  /** A longer label is cut to its first 63 characters. */
  lemma LongLabel(name: string, rest: string)
    requires 64 <= |name| <= 254 && (forall i :: 0 <= i < |name| ==> name[i] !in BLANKS)
    requires rest == "" || IsSpace(rest[0])
    ensures HasLabel(name + ":" + rest) && LabelOf(name + ":" + rest) == name[..63]
  {
    var token := name + ":";
    var t := token + rest;
    assert t[0] == name[0];
    forall i | 0 <= i < |token|
      ensures !IsSpace(token[i])
    {
      SpaceIsBlank(token[i]);
      assert i < |name| ==> token[i] == name[i];
    }
    hide TokenRun, IsSpace;
    SkipNone(t);
    TokenRunAll(token, rest);
    assert t[..|token|] == token;
    assert token[..63] == name[..63];
  }
}
