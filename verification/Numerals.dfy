/**
  How a number may be written: sign, base prefix and digits, read off the characters themselves,
  and that the scanner reads exactly the numbers so written.
 */
module Numerals {
  import opened Bits
  import opened CText

  // ----- digits -----

  /** `c` stands for the digit `d`, in either case. */
  predicate IsGlyph(c: char, d: nat) {
    d < 16 && (c == "0123456789abcdef"[d] || c == "0123456789ABCDEF"[d])
  }

  predicate IsHexDigit(c: char) {
    c in "0123456789abcdefABCDEF"
  }

  lemma GlyphValue(c: char, d: nat)
    requires d < 16
    ensures IsGlyph(c, d) <==> DigitValue(c) == d
  {
  }

  lemma HexDigitValue(c: char)
    ensures IsHexDigit(c) <==> DigitValue(c) < 16
    ensures c in "0123456789" <==> DigitValue(c) < 10
    ensures c in "01234567" <==> DigitValue(c) < 8
  {
  }

  predicate IsBase(base: nat) {
    base in {8, 10, 16}
  }

  /** `s` is `n` written in base `base`, perhaps with leading zeros. */
  predicate Denotes(s: string, base: nat, n: nat)
    requires IsBase(base)
  {
    && s != "" && IsGlyph(s[|s| - 1], n % base)
    && if |s| == 1 then n < base else Denotes(s[..|s| - 1], base, n / base)
  }

  predicate AllDigits(s: string, base: nat) {
    forall i :: 0 <= i < |s| ==> DigitValue(s[i]) < base
  }

  lemma DigitStep(q: nat, d: nat, base: nat, n: nat)
    requires IsBase(base) && d < base
    ensures q * base + d == n <==> q == n / base && d == n % base
    ensures n < base ==> n % base == n
  {
    if base == 8 {
    } else if base == 10 {
    } else {
    }
  }

  /** The scanner's digits and number are the written ones. */
  lemma {:induction false} DenotesNumeral(s: string, base: nat, n: nat)
    requires IsBase(base)
    ensures Denotes(s, base, n) <==> s != "" && AllDigits(s, base) && Numeral(s, base) == n
    decreases |s|
  {
    hide IsGlyph, DigitValue, Numeral, AllDigits;
    if |s| == 1 {
      DenotesOne(s, base, n);
    } else if s != "" {
      hide Denotes;
      var init, c := s[..|s| - 1], s[|s| - 1];
      assert s == init + [c];
      DenotesNumeral(init, base, n / base);
      DenotesMore(init, c, base, n);
    }
  }

  lemma DenotesOne(s: string, base: nat, n: nat)
    requires |s| == 1 && IsBase(base)
    ensures Denotes(s, base, n) <==> AllDigits(s, base) && Numeral(s, base) == n
  {
    GlyphValue(s[0], n % base);
    hide IsGlyph, DigitValue;
    assert s[..0] == "" && Numeral("", base) == 0;
    assert s == [s[0]];
    DigitStep(0, if DigitValue(s[0]) < base then DigitValue(s[0]) else 0, base, n);
  }

  lemma DenotesMore(init: string, c: char, base: nat, n: nat)
    requires init != "" && IsBase(base)
    requires Denotes(init, base, n / base) <==> AllDigits(init, base) && Numeral(init, base) == n / base
    ensures Denotes(init + [c], base, n) <==> AllDigits(init + [c], base) && Numeral(init + [c], base) == n
  {
    var s := init + [c];
    LastIsDigit(init, c, base);
    GlyphValue(c, n % base);
    assert s[..|s| - 1] == init;
    assert Numeral(s, base) == Numeral(init, base) * base + DigitValue(c);
    assert Denotes(s, base, n) <==> IsGlyph(c, n % base) && Denotes(init, base, n / base);
    hide Denotes, AllDigits, Numeral, IsGlyph, DigitValue;
    if DigitValue(c) < base {
      DigitStep(Numeral(init, base), DigitValue(c), base, n);
    }
  }

  lemma LastIsDigit(init: string, c: char, base: nat)
    ensures AllDigits(init + [c], base) <==> AllDigits(init, base) && DigitValue(c) < base
  {
    hide DigitValue;
    var s := init + [c];
    assert s[|init|] == c && forall i :: 0 <= i < |init| ==> s[i] == init[i];
  }

  /** The longest run of digits is the number when what follows is no digit. */
  lemma ScanDenoted(s: string, base: nat, n: nat, rest: string)
    requires IsBase(base) && Denotes(s, base, n) && (rest == "" || DigitValue(rest[0]) >= base)
    ensures ScanDigits(s + rest, base) == Some((n, rest))
  {
    DenotesNumeral(s, base, n);
    hide DigitValue, Numeral, Denotes;
    DigitRunAll(s, rest, base);
    assert (s + rest)[..|s|] == s && (s + rest)[|s|..] == rest;
  }

  lemma {:induction false} DigitRunStops(t: string, base: nat)
    ensures AllDigits(t[..DigitRun(t, base)], base)
    ensures DigitRun(t, base) < |t| ==> DigitValue(t[DigitRun(t, base)]) >= base
  {
    hide DigitValue;
    if t != "" && DigitValue(t[0]) < base {
      DigitRunStops(t[1..], base);
      assert t[..DigitRun(t, base)] == [t[0]] + t[1..][..DigitRun(t[1..], base)];
    }
  }

  /** What the scanner reads as digits is a written number, and more digits do not follow. */
  lemma ScannedDenotes(t: string, base: nat)
    requires IsBase(base) && ScanDigits(t, base).Some?
    ensures var (n, rest) := ScanDigits(t, base).value;
      && |rest| < |t| && t == t[..|t| - |rest|] + rest
      && Denotes(t[..|t| - |rest|], base, n) && (rest == "" || DigitValue(rest[0]) >= base)
  {
    hide DigitValue, Numeral, Denotes, DigitRun;
    DigitRunStops(t, base);
    var k := DigitRun(t, base);
    DenotesNumeral(t[..k], base, Numeral(t[..k], base));
    assert t == t[..k] + t[k..];
  }

  // ----- magnitudes -----

  predicate HasHexPrefix(s: string) {
    |s| >= 2 && s[0] == '0' && s[1] in "xX"
  }

  /** `0x` and hexadecimal digits, `0` and octal digits, or decimal digits. */
  predicate SpellsMagnitude(s: string, n: nat) {
    if HasHexPrefix(s) then Denotes(s[2..], 16, n)
    else if s != "" && s[0] == '0' then Denotes(s, 8, n)
    else Denotes(s, 10, n)
  }

  /** Nothing that follows `s` belongs to the number. */
  predicate Complete(s: string, rest: string) {
    rest == "" ||
    if HasHexPrefix(s) then !IsHexDigit(rest[0])
    else if s != "" && s[0] == '0' then rest[0] !in "01234567" && (s == "0" ==> rest[0] !in "xX")
    else rest[0] !in "0123456789"
  }

  lemma ScanSpelled(s: string, n: nat, rest: string)
    requires SpellsMagnitude(s, n) && Complete(s, rest)
    ensures ScanMagnitude(s + rest) == Some((n, rest))
  {
    var t := s + rest;
    if rest != "" {
      HexDigitValue(rest[0]);
    }
    hide DigitValue, ScanDigits, Denotes;
    assert s != "" by {
      SpellingShape(s, n);
    }
    assert t[0] == s[0];
    if HasHexPrefix(s) {
      TailOf(s, rest, 2);
      ScanDenoted(s[2..], 16, n, rest);
    } else if s[0] == '0' {
      assert |t| >= 2 ==> t[1] == if |s| > 1 then s[1] else rest[0];
      ScanDenoted(s, 8, n, rest);
    } else {
      ScanDenoted(s, 10, n, rest);
    }
  }

  lemma TailOf(s: string, rest: string, k: nat)
    requires k <= |s|
    ensures (s + rest)[k..] == s[k..] + rest && forall i :: 0 <= i < k ==> (s + rest)[i] == s[i]
  {
  }

  lemma SpellingShape(s: string, n: nat)
    requires SpellsMagnitude(s, n)
    ensures s != "" && IsHexDigit(s[0])
  {
    if HasHexPrefix(s) {
    } else {
      var base := if s != "" && s[0] == '0' then 8 else 10;
      DenotesNumeral(s, base, n);
      HexDigitValue(s[0]);
    }
  }

  lemma ScannedHex(t: string)
    requires HasHexPrefix(t) && ScanDigits(t[2..], 16).Some?
    ensures var (n, rest) := ScanDigits(t[2..], 16).value;
      && |rest| < |t| && t == t[..|t| - |rest|] + rest
      && SpellsMagnitude(t[..|t| - |rest|], n) && Complete(t[..|t| - |rest|], rest)
  {
    var (n, rest) := ScanDigits(t[2..], 16).value;
    if rest != "" {
      HexDigitValue(rest[0]);
    }
    hide DigitValue, ScanDigits, Denotes, IsHexDigit;
    var s := t[..|t| - |rest|];
    ScannedDenotes(t[2..], 16);
    assert t[2..][..|t| - 2 - |rest|] == s[2..];
    assert s[0] == t[0] && s[1] == t[1];
  }

  lemma ScannedPlain(t: string, base: nat)
    requires t != "" && !HasHexPrefix(t) && base == (if t[0] == '0' then 8 else 10) && ScanDigits(t, base).Some?
    ensures var (n, rest) := ScanDigits(t, base).value;
      && |rest| < |t| && t == t[..|t| - |rest|] + rest
      && SpellsMagnitude(t[..|t| - |rest|], n) && Complete(t[..|t| - |rest|], rest)
  {
    var (n, rest) := ScanDigits(t, base).value;
    if rest != "" {
      HexDigitValue(rest[0]);
    }
    hide DigitValue, ScanDigits, Denotes, IsHexDigit;
    var s := t[..|t| - |rest|];
    ScannedDenotes(t, base);
    assert s[0] == t[0];
    NotHex(t, s, rest);
  }

  lemma ScannedSpells(t: string)
    requires ScanMagnitude(t).Some?
    ensures var (n, rest) := ScanMagnitude(t).value;
      && |rest| < |t| && t == t[..|t| - |rest|] + rest
      && SpellsMagnitude(t[..|t| - |rest|], n) && Complete(t[..|t| - |rest|], rest)
  {
    hide ScanDigits, SpellsMagnitude, Complete;
    if HasHexPrefix(t) {
      ScannedHex(t);
    } else {
      assert t != "" by {
        NoDigitsAtEnd();
      }
      ScannedPlain(t, if t[0] == '0' then 8 else 10);
    }
  }

  lemma NoDigitsAtEnd()
    ensures ScanDigits("", 10) == None
  {
  }

  /** Octal digits before an `x` are not a prefix. */
  lemma NotHex(t: string, s: string, rest: string)
    requires t == s + rest && s != "" && !HasHexPrefix(t)
    ensures !HasHexPrefix(s) && (s == "0" && rest != "" ==> rest[0] !in "xX")
  {
    assert |s| >= 2 ==> s[1] == t[1];
    assert s == "0" && rest != "" ==> t[1] == rest[0];
  }

  // ----- integers -----

  predicate HasSign(s: string) {
    s != "" && s[0] in "+-"
  }

  function Magnitude(s: string): string {
    if HasSign(s) then s[1..] else s
  }

  function Absolute(v: int): nat {
    if v < 0 then 0 - v else v
  }

  /** `s` is a way to write `v`: an optional sign and a magnitude. */
  predicate Spells(s: string, v: int) {
    && SpellsMagnitude(Magnitude(s), Absolute(v))
    && (v < 0 ==> s[..1] == "-")
    && (v > 0 ==> s[..1] != "-")
  }

  /** `w` is `v`, or the end of the 64-bit range nearest to it. */
  predicate IsNearest(v: int, w: int) {
    && -0x8000_0000_0000_0000 <= w <= 0x7FFF_FFFF_FFFF_FFFF
    && (-0x8000_0000_0000_0000 <= v <= 0x7FFF_FFFF_FFFF_FFFF ==> w == v)
    && (v < w ==> w == -0x8000_0000_0000_0000)
    && (v > w ==> w == 0x7FFF_FFFF_FFFF_FFFF)
  }

  lemma NearestIsClamped(v: int, w: int)
    ensures IsNearest(v, w) <==> w == ClampLong(v)
  {
  }

  /** Reading a spelling whole, before anything that is no part of it. */
  lemma ScanSpelling(s: string, v: int, w: int, rest: string)
    requires Spells(s, v) && IsNearest(v, w) && Complete(Magnitude(s), rest)
    ensures ScanSigned(s + rest) == Some((w, rest)) && s != "" && !IsSpace(s[0])
  {
    var t, u := s + rest, Magnitude(s);
    SpellingShape(u, Absolute(v));
    ScanSpelled(u, Absolute(v), rest);
    SignIsNoDigit(s[0]);
    NearestIsClamped(v, w);
    hide ScanMagnitude, SpellsMagnitude, Complete, IsHexDigit, IsSpace, ClampLong, IsNearest;
    assert t[0] == s[0] && s[..1] == [s[0]];
    TailOf(s, rest, |s| - |u|);
    assert t[0..] == t;
  }

  lemma SignIsNoDigit(c: char)
    ensures IsHexDigit(c) ==> c != '+' && c != '-' && !IsSpace(c)
  {
  }

  /** What is read is such a spelling. */
  lemma ScannedSpelling(t: string)
    requires ScanSigned(t).Some?
    ensures var (w, rest) := ScanSigned(t).value;
      exists s, v :: t == s + rest && Spells(s, v) && IsNearest(v, w) && Complete(Magnitude(s), rest)
  {
    hide ScanMagnitude, SpellsMagnitude, Complete, Magnitude;
    var (w, rest) := ScanSigned(t).value;
    ScannedMagnitude(t);
    var n := ScanMagnitude(Magnitude(t)).value.0;
    var s := t[..|t| - |rest|];
    WithSign(s, n, t[0] == '-');
    assert IsNearest(SignedBy(t[0] == '-', n), w);
  }

  lemma ScannedMagnitude(t: string)
    requires ScanSigned(t).Some?
    ensures ScanMagnitude(Magnitude(t)).Some? && t != ""
    ensures var (n, rest) := ScanMagnitude(Magnitude(t)).value;
      && rest == ScanSigned(t).value.1 && |rest| < |t|
      && ScanSigned(t).value.0 == ClampLong(SignedBy(t[0] == '-', n))
      && var s := t[..|t| - |rest|];
         t == s + rest && s[0] == t[0] && SpellsMagnitude(Magnitude(s), n) && Complete(Magnitude(s), rest)
  {
    ScannedSpells(Magnitude(t));
    hide ScanMagnitude, SpellsMagnitude, Complete;
    MagnitudeOf(t, ScanSigned(t).value.1);
  }

  function SignedBy(minus: bool, n: nat): int {
    if minus then -(n as int) else n
  }

  lemma WithSign(s: string, n: nat, minus: bool)
    requires s != "" && SpellsMagnitude(Magnitude(s), n) && (minus <==> s[0] == '-')
    ensures Spells(s, SignedBy(minus, n))
  {
    hide SpellsMagnitude, Magnitude;
    assert s[..1] == [s[0]];
  }

  lemma MagnitudeOf(t: string, rest: string)
    requires |rest| < |Magnitude(t)|
    ensures var s := t[..|t| - |rest|];
      s != "" && s[0] == t[0] && t[|s|..] == Magnitude(t)[|Magnitude(t)| - |rest|..]
          && Magnitude(s) == Magnitude(t)[..|Magnitude(t)| - |rest|]
  {
  }

  /**
    `%li` reads white space and then the longest spelling of a number, and stores the number or the
    nearest one in the 64-bit range; it fails when there is no spelling to read.
   */
  lemma IntegerRead(t: string, w: int, rest: string)
    ensures ScanInteger(t) == Some((w, rest))
       <==> exists b, s, v ::
              && t == b + s + rest && AllBlank(b) && Spells(s, v) && IsNearest(v, w)
              && Complete(Magnitude(s), rest)
  {
    hide ScanSigned, Spells, Complete, Magnitude, IsNearest;
    if ScanInteger(t) == Some((w, rest)) {
      var b := SkippedBlanks(t);
      ScannedSpelling(SkipSpace(t));
      var s, v :| SkipSpace(t) == s + rest && Spells(s, v) && IsNearest(v, w) && Complete(Magnitude(s), rest);
      assert t == b + s + rest;
    }
    if b, s, v :| && t == b + s + rest && AllBlank(b) && Spells(s, v) && IsNearest(v, w)
                  && Complete(Magnitude(s), rest) {
      ScanSpelling(s, v, w, rest);
      assert (s + rest)[0] == s[0];
      BlanksSkipped(b, s + rest);
      assert t == b + (s + rest);
    }
  }

  // ----- every number can be written -----

  /** `n` in a base of up to sixteen. */
  function InBase(n: nat, base: nat, glyphs: string): (s: string)
    requires IsBase(base) && |glyphs| == 16
    ensures s != ""
  {
    if n < base then [glyphs[n]] else InBase(n / base, base, glyphs) + [glyphs[n % base]]
  }

  lemma {:induction false} InBaseDenotes(n: nat, base: nat, glyphs: string)
    requires IsBase(base) && glyphs in {"0123456789abcdef", "0123456789ABCDEF"}
    ensures Denotes(InBase(n, base, glyphs), base, n)
    ensures n > 0 ==> InBase(n, base, glyphs)[0] != '0'
    ensures IsHexDigit(InBase(n, base, glyphs)[0])
    decreases n
  {
    if n >= base {
      InBaseDenotes(n / base, base, glyphs);
      var s := InBase(n, base, glyphs);
      assert s[..|s| - 1] == InBase(n / base, base, glyphs);
    } else {
      DigitStep(0, n, base, n);
    }
  }

  const LOWER: string := "0123456789abcdef"
  const UPPER: string := "0123456789ABCDEF"

  /** A sign as it may stand before a number. */
  predicate SignOf(sign: string, v: int) {
    if v < 0 then sign == "-" else if v > 0 then sign in {"", "+"} else sign in {"", "+", "-"}
  }

  /** Hexadecimal in either case, octal and decimal, with or without a sign, are all read as the number. */
  lemma EveryBase(v: int, sign: string, x: string, glyphs: string)
    requires SignOf(sign, v) && x in {"0x", "0X"} && glyphs in {LOWER, UPPER}
    ensures var n := Absolute(v);
      && Spells(sign + (x + InBase(n, 16, glyphs)), v)
      && Spells(sign + ("0" + InBase(n, 8, LOWER)), v)
      && Spells(sign + InBase(n, 10, LOWER), v)
  {
    hide IsGlyph, DigitValue, Numeral, InBase, Denotes, SpellsMagnitude;
    var n := Absolute(v);
    InBaseDenotes(n, 16, glyphs);
    InBaseDenotes(n, 8, LOWER);
    InBaseDenotes(n, 10, LOWER);
    var h, o, d := x + InBase(n, 16, glyphs), "0" + InBase(n, 8, LOWER), InBase(n, 10, LOWER);
    HexSpells(x, InBase(n, 16, glyphs), n);
    OctalSpells(InBase(n, 8, LOWER), n);
    DecimalSpells(d, n);
    SignedSpells(sign, h, v);
    SignedSpells(sign, o, v);
    SignIsNoDigit(d[0]);
    SignedSpells(sign, d, v);
  }

  lemma HexSpells(x: string, h: string, n: nat)
    requires x in {"0x", "0X"} && Denotes(h, 16, n)
    ensures SpellsMagnitude(x + h, n) && (x + h)[0] == '0'
  {
    hide Denotes;
    assert (x + h)[2..] == h;
  }

  lemma SignedSpells(sign: string, m: string, v: int)
    requires SignOf(sign, v) && m != "" && m[0] != '+' && m[0] != '-' && SpellsMagnitude(m, Absolute(v))
    ensures Spells(sign + m, v)
  {
    hide SpellsMagnitude;
    var s := sign + m;
    if sign == "" {
      assert s == m;
    } else {
      assert s[0] == sign[0] && s[1..] == m;
    }
    assert s[..1] == [s[0]];
  }

  lemma OctalSpells(o: string, n: nat)
    requires Denotes(o, 8, n)
    ensures SpellsMagnitude("0" + o, n) && ("0" + o)[0] == '0'
  {
    DenotesNumeral(o, 8, n);
    DenotesNumeral("0" + o, 8, n);
    LeadingZero(o, 8);
    hide Denotes, Numeral;
    assert DigitValue('0') == 0;
    assert AllDigits("0" + o, 8) by {
      assert ("0" + o)[1..] == o;
    }
    assert DigitValue('x') == 16 && DigitValue('X') == 16;
    assert ("0" + o)[1] == o[0];
  }

  lemma {:induction false} LeadingZero(o: string, base: nat)
    ensures Numeral("0" + o, base) == Numeral(o, base)
    decreases |o|
  {
    var s := "0" + o;
    if o == "" {
      assert s[..0] == "" && s[0] == '0';
    } else {
      assert s[..|s| - 1] == "0" + o[..|o| - 1];
      LeadingZero(o[..|o| - 1], base);
    }
  }

  lemma DecimalSpells(d: string, n: nat)
    requires Denotes(d, 10, n) && (n > 0 ==> d[0] != '0') && d == InBase(n, 10, LOWER)
    ensures SpellsMagnitude(d, n)
  {
    if n == 0 {
      assert d == "0";
      assert Denotes("0", 8, 0);
    }
  }

  /** `%d` prints a spelling of the number. */
  lemma PrintedSpells(v: int)
    ensures Spells(PrintInt(v), v)
  {
    hide Decimal;
    var n, d := Absolute(v), Decimal(Absolute(v));
    DecimalDenotes(n);
    SignedSpells(if v < 0 then "-" else "", d, v);
    assert "" + d == d;
  }

  lemma DecimalDenotes(n: nat)
    ensures SpellsMagnitude(Decimal(n), n) && Decimal(n)[0] != '+' && Decimal(n)[0] != '-'
  {
    var d := Decimal(n);
    NumeralDecimal(n);
    forall i | 0 <= i < |d|
      ensures DigitValue(d[i]) < 10
    {
    }
    if n == 0 {
      assert d == "0" && Denotes("0", 8, 0);
    } else {
      hide Numeral, DigitValue;
      DenotesNumeral(d, 10, n);
      hide Denotes, Decimal;
    }
  }
}
