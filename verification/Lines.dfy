/**
  What the two passes make of white space and comments: blanks around a line never matter, blank
  lines and comments change nothing, and a line that starts with a dot only changes the segment.
 */
module Lines {
  import opened Bits
  import opened CText
  import opened Errors
  import opened InstructionTable
  import opened Pseudo
  import opened Passes

  // ----- trimming -----

  lemma {:induction false} SkipBefore(b: string, t: string)
    requires AllBlank(b)
    ensures SkipSpace(b + t) == SkipSpace(t)
  {
    if b == "" {
      assert b + t == t;
    } else {
      SpaceIsBlank(b[0]);
      assert (b + t)[1..] == b[1..] + t;
      SkipBefore(b[1..], t);
    }
  }

  lemma {:induction false} CutAfter(t: string, e: string)
    requires AllBlank(e)
    ensures TrimRight(t + e) == TrimRight(t)
    decreases |e|
  {
    if e == "" {
      assert t + e == t;
    } else {
      var last := |e| - 1;
      SpaceIsBlank(e[last]);
      assert (t + e)[..|t + e| - 1] == t + e[..last];
      CutAfter(t, e[..last]);
    }
  }

  lemma {:induction false} TrimAfter(t: string, e: string)
    requires AllBlank(e)
    ensures Trim(t + e) == Trim(t)
  {
    if t == "" {
      assert t + e == e && e + "" == e;
      BlanksSkipped(e, "");
    } else {
      assert (t + e)[0] == t[0] && (t + e)[1..] == t[1..] + e;
      if IsSpace(t[0]) {
        TrimAfter(t[1..], e);
      } else {
        CutAfter(t, e);
      }
    }
  }

  /** Blanks before and after a line are cut, and nothing else is. */
  lemma TrimAround(b: string, t: string, e: string)
    requires AllBlank(b) && AllBlank(e)
    ensures Trim(b + t + e) == Trim(t)
    ensures t == "" || (t[0] !in BLANKS && t[|t| - 1] !in BLANKS) ==> Trim(t) == t
  {
    hide SkipSpace, TrimRight, AllBlank;
    SkipBefore(b, t + e);
    assert b + t + e == b + (t + e);
    TrimAfter(t, e);
    if t == "" {
      SkipNone(t);
      TrimEmpty();
    } else {
      SpaceIsBlank(t[0]);
      SpaceIsBlank(t[|t| - 1]);
      if !IsSpace(t[0]) && !IsSpace(t[|t| - 1]) {
        SkipNone(t);
        TrimNothing(t);
      }
    }
  }

  lemma TrimEmpty()
    ensures TrimRight("") == ""
  {
  }

  // ----- lines -----

  /** Blanks around a line make no difference to either pass. */
  lemma BlanksAround(base: Word, c: ScanState, env: Env, a: Image, b: string, t: string, e: string)
    requires AllBlank(b) && AllBlank(e)
    ensures ScanLine(base, c, b + t + e) == ScanLine(base, c, t)
    ensures AssembleLine(env, a, b + t + e) == AssembleLine(env, a, t)
  {
    hide Trim, Ignorable, ScanLabel, ScanContent, AssembleContent, AllBlank;
    TrimAround(b, t, e);
  }

  /** Lines of blanks and comments change nothing in either pass. */
  lemma NothingToDo(base: Word, c: ScanState, env: Env, a: Image, b: string, comment: string)
    requires AllBlank(b) && (comment == "" || comment[0] == '#')
    ensures ScanLine(base, c, b + comment) == Ok(c)
    ensures AssembleLine(env, a, b + comment) == Ok(a)
  {
    hide ScanLabel, ScanContent, AssembleContent, Trim, Ignorable;
    IgnoredLine(b, comment);
  }

  lemma IgnoredLine(b: string, comment: string)
    requires AllBlank(b) && (comment == "" || comment[0] == '#')
    ensures Ignorable(Trim(b + comment))
  {
    SkipBefore(b, comment);
    SkipNone(comment);
    hide SkipSpace, TrimRight, AllBlank;
    if comment == "" {
      TrimEmpty();
      SkipNone("");
    } else {
      CommentStays(comment);
      SkipNone(TrimRight(comment));
    }
  }

  lemma {:induction false} CommentStays(comment: string)
    requires comment != "" && !IsSpace(comment[0])
    ensures TrimRight(comment) != "" && TrimRight(comment)[0] == comment[0]
  {
    if IsSpace(comment[|comment| - 1]) {
      CommentStays(comment[..|comment| - 1]);
    }
  }

  /** A dot and a name change the segment to that name. */
  lemma SegmentSwitch(base: Word, c: ScanState, env: Env, a: Image, name: string)
    requires name == "" || name[|name| - 1] !in BLANKS
    ensures ScanLine(base, c, "." + name) == Ok(c.(segment := name))
    ensures AssembleLine(env, a, "." + name) == Ok(a.(segment := name))
    ensures Trim("." + name) == "." + name && !Ignorable("." + name)
  {
    hide ScanLabel, ScanContent, AssembleContent, Trim, AllBlank, SkipSpace;
    var t := "." + name;
    assert AllBlank("") by {
      NoBlanks();
    }
    TrimAround("", t, "");
    assert t[1..] == name;
    SkipNone(t);
  }

  lemma NoBlanks()
    ensures AllBlank("")
  {
  }

  /** The second pass skips what stands under `.bss`; the first accepts none of it
      (`Passes.BssContentRejected`). */
  lemma BssSkipped(env: Env, a: Image, raw: string)
    requires IsContent(raw) && a.segment == "bss"
    ensures AssembleLine(env, a, raw) == Ok(a)
  {
    hide Trim, Ignorable;
  }

  /** A first word that is no mnemonic is refused by both passes with the same error. */
  lemma UnknownMnemonic(base: Word, c: ScanState, env: Env, a: Image, raw: string)
    requires IsContent(raw) && !HasLabel(Trim(raw)) && IsTextSegment(c.segment) && IsTextSegment(a.segment)
    requires var s := Trim(raw); FindInstruction(s[..Min(63, TokenRun(s))]) == None
    ensures ScanLine(base, c, raw) == Err(UnknownInstruction)
    ensures AssembleLine(env, a, raw) == Err(UnknownInstruction)
  {
    hide Trim, Ignorable, HasLabel, FindInstruction, Sscanf, SkipSpace, TokenRun;
    var t := Trim(raw);
    SkipNone(t);
    SameName(t);
  }

  /** Content in a segment of any other name than text, data and bss is refused by both passes. */
  lemma UnknownSegment(base: Word, c: ScanState, env: Env, a: Image, raw: string)
    requires IsContent(raw) && c.segment == a.segment && c.segment !in {"", "text", "data", "bss"}
    ensures AssembleLine(env, a, raw) == Err(GeneralError)
    ensures HasLabel(Trim(raw)) || Content(Trim(raw)) != "" ==> ScanLine(base, c, raw) == Err(GeneralError)
  {
    hide Trim, Ignorable, HasLabel, Content;
  }
}
