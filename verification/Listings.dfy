/**
  What the segments of an assembled program contain: the words of its text lines and the images
  of its data directives, in source order.
 */
module Listings {
  import opened Bits
  import opened CText
  import opened Storage
  import opened Layout
  import opened Pseudo
  import opened DataDirectives
  import opened Passes

  // ----- the contents of the segments -----

  /** The segment the next line belongs to: what the last segment line says. */
  function SegmentAfter(lines: seq<string>): string {
    if lines == [] then ""
    else
      var t := Trim(lines[|lines| - 1]);
      if !Ignorable(t) && t[0] == '.' then t[1..] else SegmentAfter(lines[..|lines| - 1])
  }

  /** The words of all text lines in source order, each expanded at its own address. */
  function TextListing(env: Env, lines: seq<string>): seq<Word> {
    if lines == [] then []
    else
      var init, last := lines[..|lines| - 1], lines[|lines| - 1];
      var before := TextListing(env, init);
      if IsTextSegment(SegmentAfter(init)) && IsContent(last) && TextWords(env, 4 * |before|, Trim(last)).Ok? then
        before + TextWords(env, 4 * |before|, Trim(last)).value
      else before
  }

  /** The images of all data directives in source order, each assembled on its own. */
  function DataListing(lines: seq<string>): seq<Byte> {
    if lines == [] then []
    else
      var init, last := lines[..|lines| - 1], lines[|lines| - 1];
      if SegmentAfter(init) == "data" && IsContent(last) && ContentImage(Content(Trim(last)), 0).Ok? then
        DataListing(init) + ContentImage(Content(Trim(last)), 0).value
      else DataListing(init)
  }

  lemma {:induction false} WordsJoin(a: seq<Word>, b: seq<Word>)
    ensures Words(a + b) == Words(a) + Words(b)
    decreases |b|
  {
    hide LittleEndian;
    if b == [] {
      assert a + b == a;
    } else {
      var init := b[..|b| - 1];
      WordsJoin(a, init);
      assert (a + b)[..|a + b| - 1] == a + init;
    }
  }

  lemma {:induction false} SegmentTracked(env: Env, lines: seq<string>)
    requires Assembles(env, lines)
    ensures AssembleAll(env, lines).image.segment == SegmentAfter(lines)
  {
    hide AssembleText, AssembleData, Trim, Ignorable;
    if lines != [] {
      var init, last := lines[..|lines| - 1], lines[|lines| - 1];
      SegmentTracked(env, init);
      SegmentKept(env, AssembleAll(env, init).image, last);
    }
  }

  lemma SegmentKept(env: Env, a: Image, raw: string)
    requires AssembleLine(env, a, raw).Ok?
    ensures AssembleLine(env, a, raw).value.segment == if IsContent(raw) || Ignorable(Trim(raw)) then a.segment
        else Trim(raw)[1..]
  {
    hide TextWords, Words, ContentImage, Trim, Ignorable;
  }

  lemma TextAppends(env: Env, a: Image, raw: string)
    requires AssembleLine(env, a, raw).Ok?
    ensures AssembleLine(env, a, raw).value.text
         == if IsTextSegment(a.segment)
             && IsContent(raw) then a.text + Words(TextWords(env, |a.text|, Trim(raw)).value) else a.text
    ensures IsTextSegment(a.segment) && IsContent(raw) ==>
      TextWords(env, |a.text|, Trim(raw)).Ok? && |AssembleLine(env, a, raw).value.text| <= CAPACITY
  {
    hide TextWords, Words, ContentImage, Trim, Ignorable;
  }

  /**
    At every point of the second pass the text is the little-endian form of the words of the lines
    so far, so its size is a multiple of four, and it is within the capacity.
   */
  lemma {:induction false} TextIsListing(env: Env, lines: seq<string>)
    requires Assembles(env, lines)
    ensures AssembleAll(env, lines).image.text == Words(TextListing(env, lines))
    ensures |AssembleAll(env, lines).image.text| == 4 * |TextListing(env, lines)| <= CAPACITY
  {
    hide AssembleLine, TextWords, Words, IsContent, IsTextSegment, SegmentAfter, Trim;
    if lines == [] {
      assert Words([]) == [];
    } else {
      var init, last := lines[..|lines| - 1], lines[|lines| - 1];
      var a, before := AssembleAll(env, init).image, TextListing(env, init);
      TextIsListing(env, init);
      SegmentTracked(env, init);
      TextAppends(env, a, last);
      if IsTextSegment(a.segment) && IsContent(last) {
        WordsJoin(before, TextWords(env, |a.text|, Trim(last)).value);
      }
    }
  }

  /** A directive gives the same bytes wherever in the segment it stands. */
  lemma SameImage(p: string, used: nat)
    requires used <= CAPACITY && ContentImage(p, used).Ok?
    ensures ContentImage(p, 0).Ok? && ContentImage(p, 0).value == ContentImage(p, used).value
    ensures used + |ContentImage(p, used).value| <= CAPACITY
  {
    hide DirectiveImage, Sscanf, Span, SkipSpace;
    match Sscanf(p, Word(63, End))
    case Text(directive, NoMore) =>
      var args := SkipSpace(p[Span(p, " \t")..]);
      DirectiveFits(directive, args, CAPACITY - used);
      RoomOnlyLimits(directive, args, CAPACITY - used, CAPACITY);
  }

  lemma DataAppends(env: Env, a: Image, raw: string)
    requires AssembleLine(env, a, raw).Ok? && |a.data| <= CAPACITY
    ensures a.segment == "data" && IsContent(raw) ==> ContentImage(Content(Trim(raw)), 0).Ok?
    ensures AssembleLine(env, a, raw).value.data
         == if a.segment == "data" && IsContent(raw) then a.data + ContentImage(Content(Trim(raw)), 0).value else a.data
    ensures |AssembleLine(env, a, raw).value.data| <= CAPACITY
  {
    hide TextWords, Words, ContentImage, Trim, Ignorable, Content;
    if a.segment == "data" && IsContent(raw) {
      SameImage(Content(Trim(raw)), |a.data|);
    }
  }

  /**
    The data segment is the concatenation in source order of the images of the directives, each as
    it would be on its own, and is within the capacity.
   */
  lemma {:induction false} DataIsListing(env: Env, lines: seq<string>)
    requires Assembles(env, lines)
    ensures AssembleAll(env, lines).image.data == DataListing(lines)
    ensures |AssembleAll(env, lines).image.data| <= CAPACITY
  {
    hide AssembleLine, ContentImage, IsContent, SegmentAfter, Trim;
    if lines != [] {
      var init, last := lines[..|lines| - 1], lines[|lines| - 1];
      DataIsListing(env, init);
      SegmentTracked(env, init);
      DataAppends(env, AssembleAll(env, init).image, last);
    }
  }
}
