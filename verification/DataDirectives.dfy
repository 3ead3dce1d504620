/**
  The data directives: lists of integers, escaped strings and filled space. Each appends its
  own image to the segment buffer. The handlers write into `data` before they know whether the
  whole directive fits, and the string handler can store one byte past the capacity: `Overruns`
  says exactly when. A store past the end of the array is reported by the handlers' last result
  and leaves the array as it is.
 */
module DataDirectives {
  import opened Bits
  import opened CText
  import opened Errors
  import opened Storage

  // ----- the image of a directive -----

  function StepOf(directive: string): (n: nat)
    ensures n in {1, 2, 4}
  {
    if directive == ".byte" then 1 else if directive == ".half" then 2 else 4
  }

  /** Comma-separated integers of `step` bytes; the first bad token or full buffer ends the list. */
  function IntegerImage(args: string, step: nat, room: int): Result<seq<Byte>>
    decreases |args|
  {
    match NextToken(args)
    case None => Ok([])
    case Some((token, rest)) =>
      match ScanInteger(token)
      case None => Err(ParseError)
      case Some((v, _)) =>
        if step > room then Err(GeneralError)
        else
          var tail :- IntegerImage(rest, step, room - step);
          Ok(LittleEndian(v, step) + tail)
  }

  function KnownEscape(c: char): Option<Byte> {
    match c
    case 'n' => Some(10)
    case 't' => Some(9)
    case 'r' => Some(13)
    case '\\' => Some(92)
    case '"' => Some(34)
    case _ => None
  }

  /** The bytes of the text between the quotes. */
  function Unescape(s: string): (b: seq<Byte>)
    ensures s != "" ==> b != []
  {
    if s == "" then []
    else if s[0] == '\\' && |s| > 1 then
      (match KnownEscape(s[1])
       case Some(c) => [c]
       case None => [92, ByteOf(s[1])]) + Unescape(s[2..])
    else [ByteOf(s[0])] + Unescape(s[1..])
  }

  /** `strrchr`: position of the last `c`, or -1. */
  function LastIndex(s: string, c: char): (i: int)
    ensures -1 <= i < |s|
  {
    if s == "" then -1
    else if s[|s| - 1] == c then |s| - 1
    else LastIndex(s[..|s| - 1], c)
  }

  /** The text between the first and the last quote. */
  function Quoted(args: string): Option<string> {
    var open := Span(args, "\"");
    if open == |args| then None
    else
      var tail := args[open + 1..];
      var close := LastIndex(tail, '"');
      if close < 0 then None else Some(tail[..close])
  }

  function StringImage(args: string, room: int): Result<seq<Byte>> {
    match Quoted(args)
    case None => Err(ParseError)
    case Some(inner) =>
      var bytes := Unescape(inner);
      if |bytes| + 1 > room then Err(GeneralError) else Ok(bytes + [0])
  }

  /** The optional fill byte after the count. */
  function FillByte(args: string): Result<Byte> {
    match NextToken(args)
    case None => Ok(0)
    case Some((token, _)) =>
      match ScanInteger(token)
      case None => Err(ParseError)
      case Some((v, _)) => if 0 <= v <= 255 then Ok(v) else Err(ParseError)
  }

  function SpaceImage(args: string, room: int): Result<seq<Byte>> {
    match NextToken(args)
    case None => Err(ParseError)
    case Some((token, rest)) =>
      match ScanInteger(token)
      case None => Err(ParseError)
      case Some((count, _)) =>
        if count < 0 then Err(ParseError)
        else
          var fill :- FillByte(rest);
          if count > room then Err(GeneralError) else Ok(Repeat(fill, count))
  }

  /** `parse_data_directive`: what a directive appends when `room` bytes are left. */
  function DirectiveImage(directive: string, args: string, room: int): Result<seq<Byte>> {
    if directive in {".byte", ".half", ".word"} then IntegerImage(args, StepOf(directive), room)
    else if directive in {".string", ".asciz", ".asciiz"} then StringImage(args, room)
    else if directive == ".space" then SpaceImage(args, room)
    else Err(UnknownPseudo)
  }

  // ----- the handlers -----

  /** A handler's outcome: the image appended at `start`, and nothing before it touched. */
  ghost predicate Appended(before: seq<Byte>, after: seq<Byte>, start: nat, image: Result<seq<Byte>>,
                           err: Option<Error>, size: nat)
    requires start <= |before| == |after|
  {
    && after[..start] == before[..start]
    && match image
       case Ok(bytes) => err == None && size == start + |bytes| && size <= |after| && after[start..size] == bytes
       case Err(e) => err == Some(e)
  }

  /** `memcpy` into the buffer. */
  method CopyInto(data: array<Byte>, at: nat, bytes: seq<Byte>)
    requires at + |bytes| <= data.Length
    modifies data
    ensures data[..at] == old(data[..at]) && data[at..at + |bytes|] == bytes
  {
    forall i | 0 <= i < |bytes| {
      data[at + i] := bytes[i];
    }
  }

  lemma JoinSlices(before: seq<Byte>, after: seq<Byte>, start: nat, size: nat, bytes: seq<Byte>)
    requires start <= size <= |before| && size + |bytes| <= |after|
    requires after[..size] == before[..size] && after[size..size + |bytes|] == bytes
    ensures after[..start] == before[..start]
    ensures after[start..size + |bytes|] == before[start..size] + bytes
  {
    assert after[..start] == after[..size][..start];
    assert before[..start] == before[..size][..start];
    assert after[start..size] == after[..size][start..];
    assert before[start..size] == before[..size][start..];
  }

  /** What one turn of a loop leaves of the bytes written so far. */
  lemma Extended(before: seq<Byte>, after: seq<Byte>, start: nat, at: nat, written: seq<Byte>, bytes: seq<Byte>)
    requires start <= at <= |before| == |after| && after[..at] == before[..at] && before[start..at] == written
    requires at + |bytes| <= |after| ==> after[at..at + |bytes|] == bytes
    ensures after[..start] == before[..start]
    ensures at + |bytes| <= |after| ==> after[start..at + |bytes|] == written + bytes
  {
    assert after[..start] == after[..at][..start] && before[..start] == before[..at][..start];
    if at + |bytes| <= |after| {
      JoinSlices(before, after, start, at, bytes);
    }
  }

  /** Where the list stands: what is written so far, followed by the image of the rest. */
  ghost predicate Continues(whole: Result<seq<Byte>>, written: seq<Byte>, tail: Result<seq<Byte>>) {
    if tail.Ok? then whole.Ok? && whole.value == written + tail.value else whole == tail
  }

  /** One step of the integer list. */
  lemma IntegerStep(rest: string, step: nat, room: int)
    requires NextToken(rest).Some?
    ensures var (token, after) := NextToken(rest).value;
      var scanned := ScanInteger(token);
      if scanned.None? then IntegerImage(rest, step, room) == Err(ParseError)
      else if step > room then IntegerImage(rest, step, room) == Err(GeneralError)
      else
        var tail := IntegerImage(after, step, room - step);
        if tail.Err? then IntegerImage(rest, step, room) == tail
        else
          && IntegerImage(rest, step, room).Ok?
          && IntegerImage(rest, step, room).value == LittleEndian(scanned.value.0, step) + tail.value
  {
    hide ScanInteger, LittleEndian;
  }

  /** One turn of the loop over the integer list. */
  lemma IntegerTurn(whole: Result<seq<Byte>>, written: seq<Byte>, rest: string, step: nat, room: int)
    requires NextToken(rest).Some? && Continues(whole, written, IntegerImage(rest, step, room))
    ensures var (token, after) := NextToken(rest).value;
      var scanned := ScanInteger(token);
      if scanned.None? then whole == Err(ParseError)
      else if step > room then whole == Err(GeneralError)
      else Continues(whole, written + LittleEndian(scanned.value.0, step), IntegerImage(after, step, room - step))
  {
    hide NextToken, ScanInteger, LittleEndian, IntegerImage;
    IntegerStep(rest, step, room);
  }

  lemma ContinuesEnds(whole: Result<seq<Byte>>, written: seq<Byte>)
    ensures Continues(whole, [], whole)
    ensures Continues(whole, written, Ok([])) ==> whole == Ok(written)
  {
    assert written + [] == written;
  }

  lemma IntegerDone(rest: string, step: nat, room: int)
    requires NextToken(rest).None?
    ensures IntegerImage(rest, step, room) == Ok([])
  {
  }

  method HandleInteger(data: array<Byte>, directive: string, args: string, start: nat, capacity: nat)
    returns (err: Option<Error>, size: nat)
    requires start <= capacity <= data.Length
    modifies data
    ensures Appended(old(data[..]), data[..], start, IntegerImage(args, StepOf(directive), capacity - start), err, size)
  {
    hide IntegerImage, NextToken, ScanInteger, LittleEndian, Continues, StepOf;
    var step := StepOf(directive);
    size := start;
    ghost var rest, written: seq<Byte> := args, [];
    ghost var whole := IntegerImage(args, step, capacity - start);
    ContinuesEnds(whole, []);
    var next := NextToken(args);
    while next.Some?
      invariant start <= size <= capacity && next == NextToken(rest)
      invariant data[..start] == old(data[..start]) && data[start..size] == written
      invariant Continues(whole, written, IntegerImage(rest, step, capacity - size))
      decreases |rest|
    {
      IntegerTurn(whole, written, rest, step, capacity - size);
      var (token, after) := next.value;
      var scanned := ScanInteger(token);
      if scanned.None? {
        return Some(ParseError), size;
      }
      if size + step > capacity {
        return Some(GeneralError), size;
      }
      ghost var before := data[..];
      var bytes := LittleEndian(scanned.value.0, step);
      CopyInto(data, size, bytes);
      Extended(before, data[..], start, size, written, bytes);
      written := written + bytes;
      size := size + step;
      next := NextToken(after);
      rest := after;
    }
    IntegerDone(rest, step, capacity - size);
    ContinuesEnds(whole, written);
    return None, size;
  }

  /** What the next iteration of the string loop writes. */
  function EscapeStep(s: string): (r: (seq<Byte>, nat))
    requires s != ""
    ensures 0 < |r.0| <= 2 && 0 < r.1 <= |s|
  {
    if s[0] == '\\' && |s| > 1 then
      (match KnownEscape(s[1]) case Some(c) => ([c], 2) case None => ([92, ByteOf(s[1])], 2))
    else ([ByteOf(s[0])], 1)
  }

  /** With `room` bytes left, the loop over `s` reaches an unknown escape when exactly one is left:
      it checks the capacity once and then stores two bytes. */
  predicate Overruns(s: string, room: int)
    decreases |s|
  {
    s != "" && room > 0
    && var (bytes, n) := EscapeStep(s);
       |bytes| > room || Overruns(s[n..], room - |bytes|)
  }

  lemma UnescapeFrom(inner: string, p: nat)
    requires p < |inner|
    ensures var (bytes, n) := EscapeStep(inner[p..]);
      && Unescape(inner[p..]) == bytes + Unescape(inner[p + n..])
      && inner[p..][n..] == inner[p + n..]
  {
    var s := inner[p..];
    assert s[1..] == inner[p + 1..];
    if |s| > 1 {
      assert s[2..] == inner[p + 2..];
    }
  }

  /** `data[size] = b`, and whether that is past the end of the array. */
  method Store(data: array<Byte>, size: nat, b: Byte) returns (outside: bool)
    modifies data
    ensures outside <==> size >= data.Length
    ensures data[..] == if outside then old(data[..]) else old(data[..])[size := b]
  {
    outside := size >= data.Length;
    if !outside {
      data[size] := b;
    }
  }

  /** The body of the string loop: stores the byte or bytes `inner[p..]` starts with. */
  method WriteCharacter(data: array<Byte>, inner: string, p: nat, size: nat)
    returns (nextP: nat, nextSize: nat, overrun: bool)
    requires p < |inner| && size < data.Length
    modifies data
    ensures var (bytes, n) := EscapeStep(inner[p..]);
      && nextP == p + n && nextSize == size + |bytes| && data[..size] == old(data[..size])
      && (overrun <==> nextSize > data.Length)
      && (!overrun ==> data[size..nextSize] == bytes)
  {
    nextP, nextSize := p, size;
    if inner[p] == '\\' && p + 1 < |inner| {
      nextP := nextP + 1;
      match KnownEscape(inner[nextP]) {
        case Some(c) =>
          overrun := Store(data, nextSize, c);
          nextSize := nextSize + 1;
        case None =>
          overrun := Store(data, nextSize, 92);
          nextSize := nextSize + 1;
          overrun := Store(data, nextSize, ByteOf(inner[nextP]));
          nextSize := nextSize + 1;
      }
    } else {
      overrun := Store(data, nextSize, ByteOf(inner[p]));
      nextSize := nextSize + 1;
    }
    nextP := nextP + 1;
  }

  /** A string directive with these arguments stores past a buffer that has `room` bytes left. */
  predicate StringOverruns(args: string, room: int) {
    Quoted(args).Some? && Overruns(Quoted(args).value, room)
  }

  /** The string loop: `ok` when it gets to the end of the text. */
  method WriteText(data: array<Byte>, inner: string, start: nat, capacity: nat)
    returns (ok: bool, size: nat, overrun: bool)
    requires start <= capacity <= data.Length
    modifies data
    ensures data[..start] == old(data[..start])
    ensures ok ==> size == start + |Unescape(inner)|
    ensures ok && !overrun ==> size <= data.Length && data[start..size] == Unescape(inner)
    ensures !ok ==> start + |Unescape(inner)| > capacity
    ensures overrun <==> capacity == data.Length && Overruns(inner, capacity - start)
    ensures overrun && ok ==> size > capacity
  {
    hide Unescape, KnownEscape, EscapeStep, Overruns;
    size, overrun := start, false;
    var p := 0;
    ghost var written: seq<Byte> := [];
    assert inner[0..] == inner;
    while p < |inner|
      invariant 0 <= p <= |inner| && size == start + |written| <= capacity + 1
      invariant data[..start] == old(data[..start])
      invariant overrun <==> size > data.Length
      invariant !overrun ==> data[start..size] == written
      invariant Unescape(inner) == written + Unescape(inner[p..])
      invariant capacity == data.Length ==>
        (Overruns(inner, capacity - start) <==> overrun || Overruns(inner[p..], capacity - size))
    {
      UnescapeFrom(inner, p);
      OverrunsStep(inner[p..], capacity - size);
      if size >= capacity {
        return false, size, overrun;
      }
      ghost var before, at, bytes := data[..], size, EscapeStep(inner[p..]).0;
      p, size, overrun := WriteCharacter(data, inner, p, size);
      Extended(before, data[..], start, at, written, bytes);
      written := written + bytes;
    }
    StringDone(inner, p, capacity - size);
    return true, size, overrun;
  }

  method HandleString(data: array<Byte>, args: string, start: nat, capacity: nat)
    returns (err: Option<Error>, size: nat, overrun: bool)
    requires start <= capacity <= data.Length
    modifies data
    ensures Appended(old(data[..]), data[..], start, StringImage(args, capacity - start), err, size)
    ensures overrun <==> capacity == data.Length && StringOverruns(args, capacity - start)
    ensures overrun ==> err.Some?
  {
    hide Span, LastIndex, Unescape, Overruns;
    size, overrun := start, false;
    var open := Span(args, "\"");
    if open == |args| {
      return Some(ParseError), size, false;
    }
    var tail := args[open + 1..];
    var close := LastIndex(tail, '"');
    if close < 0 {
      return Some(ParseError), size, false;
    }
    var ok;
    ok, size, overrun := WriteText(data, tail[..close], start, capacity);
    if !ok || size >= capacity {
      return Some(GeneralError), size, overrun;
    }
    ghost var before := data[..];
    data[size] := 0;
    JoinSlices(before, data[..], start, size, [0]);
    size := size + 1;
    return None, size, overrun;
  }

  lemma StringDone(inner: string, p: nat, room: int)
    requires p == |inner|
    ensures Unescape(inner[p..]) == [] && !Overruns(inner[p..], room)
  {
  }

  /** One turn of the string loop, seen from `Overruns`. */
  lemma OverrunsStep(s: string, room: int)
    requires s != ""
    ensures room <= 0 ==> !Overruns(s, room)
    ensures room > 0 ==>
      var (bytes, n) := EscapeStep(s);
      Overruns(s, room) <==> |bytes| > room || Overruns(s[n..], room - |bytes|)
  {
    hide EscapeStep;
  }

  method HandleSpace(data: array<Byte>, args: string, start: nat, capacity: nat)
    returns (err: Option<Error>, size: nat)
    requires start <= capacity <= data.Length
    modifies data
    ensures Appended(old(data[..]), data[..], start, SpaceImage(args, capacity - start), err, size)
  {
    size := start;
    var token := NextToken(args);
    if token.None? {
      return Some(ParseError), size;
    }
    var scanned := ScanInteger(token.value.0);
    if scanned.None? || scanned.value.0 < 0 {
      return Some(ParseError), size;
    }
    var count, fill := scanned.value.0, 0;
    var fillToken := NextToken(token.value.1);
    if fillToken.Some? {
      var scannedFill := ScanInteger(fillToken.value.0);
      if scannedFill.None? || scannedFill.value.0 < 0 || scannedFill.value.0 > 255 {
        return Some(ParseError), size;
      }
      fill := scannedFill.value.0;
    }
    if count > capacity - size {
      return Some(GeneralError), size;
    }
    forall i | size <= i < size + count {
      data[i] := fill;
    }
    size := size + count;
    assert data[start..size] == Repeat(fill, count);
    return None, size;
  }

  /** The directive stores past a buffer that has `room` bytes left. */
  predicate DirectiveOverruns(directive: string, args: string, room: int) {
    directive in {".string", ".asciz", ".asciiz"} && StringOverruns(args, room)
  }

  method ParseDirective(data: array<Byte>, directive: string, args: string, start: nat, capacity: nat)
    returns (err: Option<Error>, size: nat, overrun: bool)
    requires start <= capacity <= data.Length
    modifies data
    ensures Appended(old(data[..]), data[..], start, DirectiveImage(directive, args, capacity - start), err, size)
    ensures overrun <==> capacity == data.Length && DirectiveOverruns(directive, args, capacity - start)
    ensures overrun ==> err.Some?
  {
    hide StringOverruns;
    overrun := false;
    if directive == ".byte" || directive == ".half" || directive == ".word" {
      err, size := HandleInteger(data, directive, args, start, capacity);
    } else if directive == ".string" || directive == ".asciz" || directive == ".asciiz" {
      err, size, overrun := HandleString(data, args, start, capacity);
    } else if directive == ".space" {
      err, size := HandleSpace(data, args, start, capacity);
    } else {
      err, size := Some(UnknownPseudo), start;
    }
  }

  // ----- properties of the images -----

  lemma {:induction false} IntegerImageFits(args: string, step: nat, room: int)
    requires room >= 0 && IntegerImage(args, step, room).Ok?
    ensures |IntegerImage(args, step, room).value| <= room
    decreases |args|
  {
    hide IntegerImage, NextToken, ScanInteger, LittleEndian;
    var next := NextToken(args);
    if next.Some? {
      IntegerStep(args, step, room);
      IntegerImageFits(next.value.1, step, room - step);
    } else {
      IntegerDone(args, step, room);
    }
  }

  /** A directive that succeeds never fills more than the room it was given. */
  lemma DirectiveFits(directive: string, args: string, room: int)
    requires room >= 0 && DirectiveImage(directive, args, room).Ok?
    ensures |DirectiveImage(directive, args, room).value| <= room
  {
    hide NextToken, ScanInteger, Quoted, Unescape;
    if directive in {".byte", ".half", ".word"} {
      IntegerImageFits(args, StepOf(directive), room);
    }
  }

  lemma {:induction false} IntegerRoom(args: string, step: nat, room: int, other: int)
    requires room >= 0 && other >= 0 && IntegerImage(args, step, room).Ok?
    ensures IntegerImage(args, step, other).Ok? <==> |IntegerImage(args, step, room).value| <= other
    ensures IntegerImage(args, step, other).Ok?
        ==> IntegerImage(args, step, other).value == IntegerImage(args, step, room).value
    decreases |args|
  {
    hide IntegerImage, NextToken, ScanInteger, LittleEndian;
    var next := NextToken(args);
    if next.Some? {
      IntegerStep(args, step, room);
      IntegerStep(args, step, other);
      if step <= other {
        IntegerRoom(next.value.1, step, room - step, other - step);
      }
    } else {
      IntegerDone(args, step, room);
      IntegerDone(args, step, other);
    }
  }

  /** The room left decides only whether a directive fits: exactly when its image does. */
  lemma RoomOnlyLimits(directive: string, args: string, room: int, other: int)
    requires room >= 0 && other >= 0 && DirectiveImage(directive, args, room).Ok?
    ensures DirectiveImage(directive, args, other).Ok? <==> |DirectiveImage(directive, args, room).value| <= other
    ensures DirectiveImage(directive, args, other).Ok? ==>
      DirectiveImage(directive, args, other).value == DirectiveImage(directive, args, room).value
  {
    hide NextToken, ScanInteger, Quoted, Unescape;
    if directive in {".byte", ".half", ".word"} {
      IntegerRoom(args, StepOf(directive), room, other);
    }
  }

  // ----- overruns -----

  /** A string that fits with its terminating zero never overruns. */
  lemma {:induction false} FittingString(s: string, room: int)
    requires |Unescape(s)| + 1 <= room
    ensures !Overruns(s, room)
    decreases |s|
  {
    hide Unescape, EscapeStep, Overruns;
    if s != "" {
      assert s[0..] == s;
      UnescapeFrom(s, 0);
      OverrunsStep(s, room);
      var (bytes, n) := EscapeStep(s);
      FittingString(s[n..], room - |bytes|);
    } else {
      StringDone(s, 0, room);
      assert s[0..] == s;
    }
  }

  /** `p` is where the loop stands before some turn. */
  predicate OnBoundary(s: string, p: nat)
    requires p <= |s|
    decreases |s|
  {
    p == 0 || (EscapeStep(s).1 <= p && OnBoundary(s[EscapeStep(s).1..], p - EscapeStep(s).1))
  }

  /** An unknown escape at `p`, reached when exactly one byte is left. */
  predicate OverrunAt(s: string, room: int, p: nat) {
    && p + 1 < |s| && OnBoundary(s, p)
    && s[p] == '\\' && KnownEscape(s[p + 1]) == None
    && |Unescape(s[..p])| == room - 1
  }

  /** The first turn of a prefix that ends on a boundary. */
  lemma PrefixStep(s: string, p: nat)
    requires 0 < p <= |s| && OnBoundary(s, p)
    ensures var (bytes, n) := EscapeStep(s);
      n <= p && Unescape(s[..p]) == bytes + Unescape(s[n..][..p - n])
  {
    hide KnownEscape;
    var n := EscapeStep(s).1;
    assert s[..p][0..] == s[..p] && s[..p][n..] == s[n..][..p - n];
    assert s[..p][0] == s[0] && (p > 1 ==> s[..p][1] == s[1]);
    UnescapeFrom(s[..p], 0);
  }

  lemma OverrunLater(s: string, room: int, p: nat)
    requires s != "" && EscapeStep(s).1 <= p
    ensures var (bytes, n) := EscapeStep(s);
      OverrunAt(s, room, p) <==> OverrunAt(s[n..], room - |bytes|, p - n)
  {
    hide EscapeStep, Unescape, KnownEscape;
    var n := EscapeStep(s).1;
    if p + 1 < |s| && OnBoundary(s, p) {
      PrefixStep(s, p);
    }
    assert p - n + 1 < |s[n..]| ==> s[n..][p - n] == s[p] && s[n..][p - n + 1] == s[p + 1];
  }

  lemma OverrunNow(s: string, room: int)
    requires s != ""
    ensures OverrunAt(s, room, 0) <==> room == 1 && |EscapeStep(s).0| == 2
  {
    assert s[..0] == "";
  }

  lemma NotInside(s: string, room: int, p: nat)
    requires s != "" && 0 < p < EscapeStep(s).1
    ensures !OverrunAt(s, room, p)
  {
    hide EscapeStep, Unescape, KnownEscape;
  }

  /** The loop overruns exactly when an unknown escape is reached with one byte left. */
  lemma {:induction false} OverrunsExactly(s: string, room: int)
    ensures Overruns(s, room) <==> exists p: nat :: OverrunAt(s, room, p)
    decreases |s|
  {
    hide OverrunAt, EscapeStep, Overruns;
    if s == "" {
      assert s[0..] == s;
      StringDone(s, 0, room);
      NoneIn(room);
    } else {
      var (bytes, n) := EscapeStep(s);
      OverrunsStep(s, room);
      OverrunNow(s, room);
      OverrunsExactly(s[n..], room - |bytes|);
      var rest, left := s[n..], room - |bytes|;
      if p: nat :| OverrunAt(rest, left, p) {
        OverrunLater(s, room, p + n);
        assert OverrunAt(s, room, p + n);
        EnoughRoom(rest, left, p);
      }
      if p: nat :| OverrunAt(s, room, p) {
        if 0 < p < n {
          NotInside(s, room, p);
        } else if p > 0 {
          OverrunLater(s, room, p);
        }
        EnoughRoom(s, room, p);
      }
    }
  }

  lemma NoneIn(room: int)
    ensures forall p: nat :: !OverrunAt("", room, p)
  {
  }

  lemma EnoughRoom(s: string, room: int, p: nat)
    requires OverrunAt(s, room, p)
    ensures room > 0
  {
  }

  /** A directive that overruns fails: no program that gets through stores outside its buffer. */
  lemma OverrunFails(directive: string, args: string, room: int)
    requires DirectiveOverruns(directive, args, room)
    ensures DirectiveImage(directive, args, room) == Err(GeneralError)
  {
    hide Quoted, Overruns, Unescape;
    var s := Quoted(args).value;
    if |Unescape(s)| + 1 <= room {
      FittingString(s, room);
    }
  }

  // ----- integer lists -----

  /** The numbers of a list, each reduced to `step` bytes. */
  function ListedValues(args: string, step: nat): seq<nat>
    decreases |args|
  {
    match NextToken(args)
    case None => []
    case Some((token, rest)) =>
      match ScanInteger(token)
      case None => []
      case Some((v, _)) => [v % Pow256(step)] + ListedValues(rest, step)
  }

  /** The numbers that lie in memory one after the other, `step` bytes each. */
  function StoredValues(b: seq<Byte>, step: nat): seq<nat>
    requires step > 0
  {
    if |b| < step then [] else [Value(b[..step])] + StoredValues(b[step..], step)
  }

  /** Every number of an accepted list is stored, in order, modulo 256^step. */
  lemma {:induction false} ListIsStored(args: string, step: nat, room: int)
    requires step > 0 && IntegerImage(args, step, room).Ok?
    ensures StoredValues(IntegerImage(args, step, room).value, step) == ListedValues(args, step)
    decreases |args|
  {
    hide IntegerImage, NextToken, ScanInteger, LittleEndian, Value, Pow256;
    var next := NextToken(args);
    if next.Some? {
      IntegerStep(args, step, room);
      var v, tail := ScanInteger(next.value.0).value.0, IntegerImage(next.value.1, step, room - step).value;
      ListIsStored(next.value.1, step, room - step);
      LittleEndianValue(v, step);
      var b := LittleEndian(v, step) + tail;
      assert b[..step] == LittleEndian(v, step) && b[step..] == tail;
    } else {
      IntegerDone(args, step, room);
    }
  }

  // ----- strings survive escaping -----

  function EscapeChar(c: char): string {
    match c
    case '\n' => "\\n"
    case '\t' => "\\t"
    case '\r' => "\\r"
    case '\\' => "\\\\"
    case '"' => "\\\""
    case _ => [c]
  }

  function Escape(s: string): string {
    if s == "" then "" else EscapeChar(s[0]) + Escape(s[1..])
  }

  lemma UnescapeEnd()
    ensures Unescape("") == []
  {
  }

  lemma UnescapeHead(c: char, tail: string)
    ensures Unescape(EscapeChar(c) + tail) == [ByteOf(c)] + Unescape(tail)
  {
    var head := EscapeChar(c);
    assert (head + tail)[|head|..] == tail;
  }

  lemma {:induction false} UnescapeEscape(s: string)
    ensures Unescape(Escape(s)) == BytesOf(s)
  {
    hide Unescape, EscapeChar;
    if s == "" {
      UnescapeEnd();
    } else {
      UnescapeEscape(s[1..]);
      UnescapeHead(s[0], Escape(s[1..]));
      assert BytesOf(s) == [ByteOf(s[0])] + BytesOf(s[1..]);
    }
  }

  lemma QuotedWhole(inner: string)
    ensures Quoted("\"" + inner + "\"") == Some(inner)
  {
    var s := "\"" + inner + "\"";
    assert s[0] == '"';
    assert Span(s, "\"") == 0;
    assert s[1..] == inner + "\"";
    assert (inner + "\"")[..|inner|] == inner;
  }

  /** Escaping a string, quoting it and assembling it gives its bytes and a terminating zero,
      exactly when they fit. */
  lemma StringRoundTrip(s: string, room: int)
    ensures StringImage("\"" + Escape(s) + "\"", room)
         == if |s| + 1 <= room then Ok(BytesOf(s) + [0]) else Err(GeneralError)
  {
    QuotedWhole(Escape(s));
    UnescapeEscape(s);
  }

  /** The three string directives are one. */
  lemma EveryStringName(name: string, s: string, room: int)
    requires name in {".string", ".asciz", ".asciiz"}
    ensures DirectiveImage(name, "\"" + Escape(s) + "\"", room)
         == if |s| + 1 <= room then Ok(BytesOf(s) + [0]) else Err(GeneralError)
  {
    hide StringImage, Escape;
    StringRoundTrip(s, room);
  }

  /** A name that is none of the seven is no directive. */
  lemma OtherNames(name: string, args: string, room: int)
    ensures DirectiveImage(name, args, room) == Err(UnknownPseudo)
         || name in {".byte", ".half", ".word", ".string", ".asciz", ".asciiz", ".space"}
  {
    hide IntegerImage, StringImage, SpaceImage;
  }
}
