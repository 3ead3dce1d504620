/**
  The C text functions the assembler is built on: `isspace`, `strcspn`, `strtok` on a comma,
  `strchr`/`strrchr`, the `sscanf` conversions it uses and the `%d` conversion of `printf`.
  A C string is a `string` without its terminating NUL.
 */
module CText {
  datatype Option<+T> = None | Some(value: T)

  predicate IsSpace(c: char) {
    c == ' ' || '\t' <= c <= '\r'
  }

  /** Skips leading white space. */
  function SkipSpace(s: string): (r: string)
    ensures |r| <= |s|
    ensures r != "" ==> !IsSpace(r[0])
  {
    if s != "" && IsSpace(s[0]) then SkipSpace(s[1..]) else s
  }

  lemma SkipNone(s: string)
    requires s == "" || !IsSpace(s[0])
    ensures SkipSpace(s) == s
  {
  }

  /** The six white-space characters. */
  const BLANKS: string := " \t\n\U{B}\U{C}\r"

  lemma SpaceIsBlank(c: char)
    ensures IsSpace(c) <==> c in BLANKS
  {
  }

  predicate AllBlank(s: string) {
    forall i :: 0 <= i < |s| ==> s[i] in BLANKS
  }

  lemma {:induction false} BlanksSkipped(blanks: string, rest: string)
    requires AllBlank(blanks) && (rest == "" || !IsSpace(rest[0]))
    ensures SkipSpace(blanks + rest) == rest
  {
    if blanks == "" {
      assert blanks + rest == rest;
    } else {
      SpaceIsBlank(blanks[0]);
      assert (blanks + rest)[1..] == blanks[1..] + rest;
      BlanksSkipped(blanks[1..], rest);
    }
  }

  lemma {:induction false} SkippedBlanks(s: string) returns (blanks: string)
    ensures s == blanks + SkipSpace(s) && AllBlank(blanks)
  {
    if s != "" && IsSpace(s[0]) {
      SpaceIsBlank(s[0]);
      var more := SkippedBlanks(s[1..]);
      blanks := [s[0]] + more;
    } else {
      blanks := "";
    }
  }

  lemma SkipOne(t: string, p: nat)
    requires p < |t| && IsSpace(t[p])
    ensures SkipSpace(t[p..]) == SkipSpace(t[p + 1..])
  {
    assert t[p..][1..] == t[p + 1..];
  }

  function TrimRight(s: string): (r: string)
    ensures r <= s
    ensures r != "" ==> !IsSpace(r[|r| - 1])
  {
    if s != "" && IsSpace(s[|s| - 1]) then TrimRight(s[..|s| - 1]) else s
  }

  function Trim(s: string): (r: string)
    ensures r != "" ==> !IsSpace(r[0])
  {
    TrimRight(SkipSpace(s))
  }

  predicate EndsWell(s: string) {
    s != "" && !IsSpace(s[|s| - 1])
  }

  lemma EndsTogether(a: string, b: string)
    requires EndsWell(b)
    ensures EndsWell(a + b)
  {
  }

  lemma TrimNothing(t: string)
    requires EndsWell(t)
    ensures TrimRight(t) == t
  {
  }

  /** Length of the longest prefix without white space (what `%s` matches). */
  function TokenRun(s: string): (n: nat)
    ensures n <= |s|
  {
    if s == "" || IsSpace(s[0]) then 0 else 1 + TokenRun(s[1..])
  }

  /** `strcspn`: length of the longest prefix without a character of `stops`. */
  function Span(s: string, stops: string): (n: nat)
    ensures n <= |s|
  {
    if s == "" || s[0] in stops then 0 else 1 + Span(s[1..], stops)
  }

  lemma {:induction false} SpanStops(s: string, stops: string)
    ensures Span(s, stops) < |s| ==> s[Span(s, stops)] in stops
    ensures forall i :: 0 <= i < Span(s, stops) ==> s[i] !in stops
  {
    if s != "" && s[0] !in stops {
      SpanStops(s[1..], stops);
    }
  }

  function Min(a: nat, b: nat): nat {
    if a <= b then a else b
  }

  /** One call of `strtok` with delimiter `,`: the token and what the next call starts from. */
  function NextToken(s: string): (r: Option<(string, string)>)
    ensures r.Some? ==> r.value.0 != "" && |r.value.1| < |s|
    decreases |s|
  {
    if s == "" then None
    else if s[0] == ',' then NextToken(s[1..])
    else
      var n := Span(s, ",");
      Some((s[..n], if n < |s| then s[n + 1..] else ""))
  }

  // ----- numbers -----

  /** Value of a character as a digit in bases up to sixteen; 16 for a non-digit. */
  function DigitValue(c: char): (d: nat)
    ensures d <= 16
  {
    if '0' <= c <= '9' then c as int - '0' as int
    else if 'a' <= c <= 'f' then c as int - 'a' as int + 10
    else if 'A' <= c <= 'F' then c as int - 'A' as int + 10
    else 16
  }

  function DigitRun(s: string, base: nat): (n: nat)
    ensures n <= |s|
  {
    if s == "" || DigitValue(s[0]) >= base then 0 else 1 + DigitRun(s[1..], base)
  }

  /** The number a digit string denotes. */
  function Numeral(s: string, base: nat): (n: nat) {
    if s == "" then 0 else Numeral(s[..|s| - 1], base) * base + DigitValue(s[|s| - 1])
  }

  /** `strtol` stores the nearest 64-bit value when the number does not fit. */
  function ClampLong(v: int): int {
    if v > 0x7FFF_FFFF_FFFF_FFFF then 0x7FFF_FFFF_FFFF_FFFF
    else if v < -0x8000_0000_0000_0000 then -0x8000_0000_0000_0000
    else v
  }

  /** Reads the longest run of digits of `base`; at least one is needed. */
  function ScanDigits(s: string, base: nat): (r: Option<(nat, string)>)
    ensures r.Some? ==> |r.value.1| < |s|
  {
    var n := DigitRun(s, base);
    if n == 0 then None else Some((Numeral(s[..n], base), s[n..]))
  }

  /** An unsigned number with the base taken from its prefix: `0x` hexadecimal, `0` octal. */
  function ScanMagnitude(s: string): (r: Option<(nat, string)>)
    ensures r.Some? ==> |r.value.1| < |s|
  {
    if |s| >= 2 && s[0] == '0' && (s[1] == 'x' || s[1] == 'X') then ScanDigits(s[2..], 16)
    else if s != "" && s[0] == '0' then ScanDigits(s, 8)
    else ScanDigits(s, 10)
  }

  /** `%li` and `%lli`: optional white space and sign, then a number in its own base. */
  function ScanInteger(s: string): (r: Option<(int, string)>) {
    ScanSigned(SkipSpace(s))
  }

  function ScanSigned(t: string): (r: Option<(int, string)>) {
    var signed := t != "" && (t[0] == '-' || t[0] == '+');
    match ScanMagnitude(if signed then t[1..] else t)
    case None => None
    case Some((m, rest)) => Some((ClampLong(if signed && t[0] == '-' then 0 - m else m), rest))
  }

  /** `%hhu` followed by nothing else: a decimal number, reduced modulo 256. */
  function ScanByte(s: string): Option<nat> {
    var t := SkipSpace(s);
    var signed := t != "" && (t[0] == '-' || t[0] == '+');
    match ScanDigits(if signed then t[1..] else t, 10)
    case Some((m, "")) => Some((if signed && t[0] == '-' then 0 - m else m) % 256)
    case _ => None
  }

  function DigitChar(d: nat): (c: char)
    requires d < 10
    ensures DigitValue(c) == d && '0' <= c <= '9'
  {
    '0' + d as char
  }

  function Decimal(n: nat): (s: string)
    ensures s != ""
    ensures forall i :: 0 <= i < |s| ==> '0' <= s[i] <= '9'
    ensures s[0] == '0' <==> n == 0
  {
    if n < 10 then [DigitChar(n)] else Decimal(n / 10) + [DigitChar(n % 10)]
  }

  /** `%d`. */
  function PrintInt(n: int): (s: string)
    ensures s != "" && !IsSpace(s[0]) && s[0] != ','
  {
    if n < 0 then "-" + Decimal(-n) else Decimal(n)
  }

  // ----- sscanf -----

  /** The conversion specifications of the formats the assembler uses, in order. */
  datatype Format =
    | End
    | Blank(next: Format)                                 // white space in the format
    | Exact(c: char, next: Format)                        // an ordinary character
    | SkipWord(next: Format)                              // %*s
    | Word(width: nat, next: Format)                      // %63s
    | Until(width: nat, stops: string, next: Format)      // %4[^,]
    | Integer(next: Format)                               // %li

  /** The values `sscanf` assigned, in order; their number is its return value. */
  datatype Fields =
    | NoMore
    | Text(s: string, more: Fields)
    | Number(n: int, more: Fields)

  function Sscanf(s: string, format: Format): Fields
    decreases format
  {
    match format
    case End => NoMore
    case Blank(next) => Sscanf(SkipSpace(s), next)
    case Exact(c, next) =>
      if s != "" && s[0] == c then Sscanf(s[1..], next) else NoMore
    case SkipWord(next) =>
      var t := SkipSpace(s);
      if t == "" then NoMore else Sscanf(t[TokenRun(t)..], next)
    case Word(width, next) =>
      var t := SkipSpace(s);
      var n := Min(width, TokenRun(t));
      if t == "" then NoMore else Text(t[..n], Sscanf(t[n..], next))
    case Until(width, stops, next) =>
      var n := Min(width, Span(s, stops));
      if n == 0 then NoMore else Text(s[..n], Sscanf(s[n..], next))
    case Integer(next) =>
      match ScanInteger(s)
      case None => NoMore
      case Some((v, rest)) => Number(v, Sscanf(rest, next))
  }

  // ----- printing and reading back -----

  lemma {:induction false} NumeralDecimal(n: nat)
    ensures Numeral(Decimal(n), 10) == n
  {
    if n >= 10 {
      NumeralDecimal(n / 10);
      var d := Decimal(n);
      assert d[..|d| - 1] == Decimal(n / 10);
    } else {
      assert Decimal(n)[..0] == "";
    }
  }

  lemma {:induction false} DigitRunAll(s: string, rest: string, base: nat)
    requires forall i :: 0 <= i < |s| ==> DigitValue(s[i]) < base
    requires rest == "" || DigitValue(rest[0]) >= base
    ensures DigitRun(s + rest, base) == |s|
  {
    if s == "" {
      assert s + rest == rest;
    } else {
      assert (s + rest)[1..] == s[1..] + rest;
      DigitRunAll(s[1..], rest, base);
    }
  }

  /** What may follow a printed number for it to be read back whole. */
  predicate EndsNumber(rest: string) {
    rest == "" || (DigitValue(rest[0]) >= 10 && rest[0] != 'x' && rest[0] != 'X')
  }

  lemma ScanDecimal(n: nat, rest: string)
    requires EndsNumber(rest)
    ensures ScanMagnitude(Decimal(n) + rest) == Some((n, rest))
  {
    var d := Decimal(n);
    var s := d + rest;
    assert s[0] == d[0];
    assert s[..|d|] == d && s[|d|..] == rest;
    if n == 0 {
      assert d == "0";
      DigitRunAll(d, rest, 8);
      assert d[..0] == "";
      assert Numeral(d, 8) == 0;
    } else {
      DigitRunAll(d, rest, 10);
      NumeralDecimal(n);
    }
  }

  /** Reading back a printed number gives the number, never octal or hexadecimal. */
  lemma ScanPrinted(n: int, rest: string)
    requires -0x8000_0000_0000_0000 <= n <= 0x7FFF_FFFF_FFFF_FFFF
    requires EndsNumber(rest)
    ensures ScanInteger(PrintInt(n) + rest) == Some((n, rest))
  {
    var s := PrintInt(n) + rest;
    assert s[0] == PrintInt(n)[0];
    assert SkipSpace(s) == s;
    hide ScanMagnitude, SkipSpace;
    if n < 0 {
      ScanPrintedNegative(-n, rest);
    } else {
      ScanDecimal(n, rest);
    }
  }

  lemma ScanPrintedNegative(m: nat, rest: string)
    requires 0 < m <= 0x8000_0000_0000_0000
    requires EndsNumber(rest)
    ensures ScanSigned("-" + Decimal(m) + rest) == Some((0 - m, rest))
  {
    hide ScanMagnitude, Decimal;
    var s := "-" + Decimal(m) + rest;
    assert s[0] == '-';
    assert s[1..] == Decimal(m) + rest;
    ScanDecimal(m, rest);
  }

  /** An operand as the assembler reads it: at most four characters up to a comma. */
  predicate IsOperand(r: string) {
    0 < |r| <= 4 && !IsSpace(r[0]) && ',' !in r
  }

  lemma {:induction false} SpanAll(s: string, rest: string, stops: string)
    requires forall i :: 0 <= i < |s| ==> s[i] !in stops
    requires rest == "" || rest[0] in stops
    ensures Span(s + rest, stops) == |s|
  {
    if s == "" {
      assert s + rest == rest;
    } else {
      assert (s + rest)[1..] == s[1..] + rest;
      SpanAll(s[1..], rest, stops);
    }
  }

  lemma SkipOneSpace(s: string)
    requires s == "" || !IsSpace(s[0])
    ensures SkipSpace(" " + s) == s
  {
    assert (" " + s)[1..] == s;
  }

  lemma ScanUntil(r: string, rest: string, width: nat, stops: string, next: Format)
    requires 0 < |r| <= width
    requires forall i :: 0 <= i < |r| ==> r[i] !in stops
    requires rest == "" || rest[0] in stops
    ensures Sscanf(r + rest, Until(width, stops, next)) == Text(r, Sscanf(rest, next))
  {
    SpanAll(r, rest, stops);
    assert (r + rest)[..|r|] == r && (r + rest)[|r|..] == rest;
  }

  lemma ScanBlank(t: string, next: Format)
    requires t == "" || !IsSpace(t[0])
    ensures Sscanf(" " + t, Blank(next)) == Sscanf(t, next)
  {
    SkipOneSpace(t);
  }

  /** Scanning ` r, rest` with ` %4[^,],` reads the operand and leaves ` rest`. */
  lemma ScanOperand(r: string, rest: string, next: Format)
    requires IsOperand(r)
    ensures Sscanf(" " + r + "," + rest, Blank(Until(4, ",", Exact(',', next)))) == Text(r, Sscanf(rest, next))
  {
    hide Span, SkipSpace;
    var tail := "," + rest;
    var f := Exact(',', next);
    assert " " + r + "," + rest == " " + (r + tail);
    ScanBlank(r + tail, Until(4, ",", f));
    ScanUntil(r, tail, 4, ",", f);
    assert tail[1..] == rest;
  }

  /** The mnemonic and the first operand: `name r,rest` with `%*s %4[^,],`. */
  lemma ScanHead(name: string, r: string, rest: string, next: Format)
    requires name != "" && forall i :: 0 <= i < |name| ==> !IsSpace(name[i])
    requires IsOperand(r)
    ensures Sscanf(name + " " + r + "," + rest, SkipWord(Blank(Until(4, ",", Exact(',', next)))))
        == Text(r, Sscanf(rest, next))
  {
    var tail := " " + r + "," + rest;
    var t := name + tail;
    assert name + " " + r + "," + rest == t;
    assert t[0] == name[0];
    assert SkipSpace(t) == t;
    TokenRunAll(name, tail);
    assert t[|name|..] == tail;
    ScanOperand(r, rest, next);
  }

  lemma {:induction false} TokenRunAll(s: string, rest: string)
    requires forall i :: 0 <= i < |s| ==> !IsSpace(s[i])
    requires rest == "" || IsSpace(rest[0])
    ensures TokenRun(s + rest) == |s|
  {
    if s == "" {
      assert s + rest == rest;
    } else {
      assert (s + rest)[1..] == s[1..] + rest;
      TokenRunAll(s[1..], rest);
    }
  }

  /** The number at the end of a printed line, read with ` %li`. */
  lemma ScanLastInteger(n: int, rest: string)
    requires -0x8000_0000_0000_0000 <= n <= 0x7FFF_FFFF_FFFF_FFFF
    requires EndsNumber(rest)
    ensures Sscanf(" " + PrintInt(n) + rest, Blank(Integer(End))) == Number(n, NoMore)
  {
    var t := PrintInt(n) + rest;
    assert " " + PrintInt(n) + rest == " " + t;
    assert t[0] == PrintInt(n)[0];
    SkipOneSpace(t);
    ScanPrinted(n, rest);
    assert Sscanf(t, Integer(End)) == Number(n, Sscanf(rest, End));
    assert Sscanf(" " + t, Blank(Integer(End))) == Sscanf(t, Integer(End));
  }

  /** The register at the end of a printed line, read with ` %4[^#\n]`. */
  lemma ScanLastOperand(r: string)
    requires 0 < |r| <= 4 && !IsSpace(r[0])
    requires forall i :: 0 <= i < |r| ==> r[i] !in "#\n"
    ensures Sscanf(" " + r, Blank(Until(4, "#\n", End))) == Text(r, NoMore)
  {
    ScanBlank(r, Until(4, "#\n", End));
    ScanUntil(r, "", 4, "#\n", End);
    assert r + "" == r;
  }
}
