/** Bytes in files and in memory: little-endian fields, and memory that holds given bytes. */
module Storage {
  import opened Bits
  import opened Isa

  // ----- bytes of numbers and strings -----

  function ByteOf(c: char): Byte {
    c as int % 0x100
  }

  /** The first `n` bytes of a `long long` in memory. */
  function LittleEndian(v: int, n: nat): (b: seq<Byte>)
    ensures |b| == n
    decreases n
  {
    if n == 0 then [] else [v % 0x100] + LittleEndian(v / 0x100, n - 1)
  }

  function Repeat(b: Byte, n: nat): (r: seq<Byte>)
    ensures |r| == n && forall i :: 0 <= i < n ==> r[i] == b
  {
    seq(n, _ => b)
  }

  function BytesOf(s: string): (b: seq<Byte>)
    ensures |b| == |s|
  {
    seq(|s|, i requires 0 <= i < |s| => ByteOf(s[i]))
  }

  /** A character of eight bits is stored as its code. */
  lemma PlainBytes(s: string)
    requires forall i :: 0 <= i < |s| ==> s[i] as int < 0x100
    ensures |BytesOf(s)| == |s| && forall i :: 0 <= i < |s| ==> BytesOf(s)[i] == s[i] as int
  {
  }

  /** Consecutive fields of four bytes. */
  function Words(values: seq<int>): (b: seq<Byte>)
    ensures |b| == 4 * |values|
  {
    if values == [] then [] else Words(values[..|values| - 1]) + LittleEndian(values[|values| - 1], 4)
  }

  /** Consecutive fields of two bytes. */
  function Halves(values: seq<int>): (b: seq<Byte>)
    ensures |b| == 2 * |values|
  {
    if values == [] then [] else Halves(values[..|values| - 1]) + LittleEndian(values[|values| - 1], 2)
  }

  // ----- reading numbers back -----

  /** The number little-endian bytes stand for. */
  function Value(b: seq<Byte>): nat {
    if b == [] then 0 else b[0] + 0x100 * Value(b[1..])
  }

  function Pow256(n: nat): (p: nat)
    ensures p > 0
  {
    if n == 0 then 1 else 0x100 * Pow256(n - 1)
  }

  /** An integer of `n` bytes is stored modulo 256^n, also when it is negative. */
  lemma {:induction false} LittleEndianValue(v: int, n: nat)
    ensures Value(LittleEndian(v, n)) == v % Pow256(n)
    decreases n
  {
    if n > 0 {
      LittleEndianValue(v / 0x100, n - 1);
      assert LittleEndian(v, n)[1..] == LittleEndian(v / 0x100, n - 1);
      DivModTwice(v, 0x100, Pow256(n - 1));
    }
  }

  lemma {:induction false} WordAt(values: seq<int>, i: nat)
    requires i < |values|
    ensures Words(values)[4 * i..4 * i + 4] == LittleEndian(values[i], 4)
    decreases |values|
  {
    hide LittleEndian;
    if i < |values| - 1 {
      var init := values[..|values| - 1];
      WordAt(init, i);
      assert Words(values)[4 * i..4 * i + 4] == Words(init)[4 * i..4 * i + 4];
    }
  }

  lemma {:induction false} HalfAt(values: seq<int>, i: nat)
    requires i < |values|
    ensures Halves(values)[2 * i..2 * i + 2] == LittleEndian(values[i], 2)
    decreases |values|
  {
    hide LittleEndian;
    if i < |values| - 1 {
      var init := values[..|values| - 1];
      HalfAt(init, i);
      assert Halves(values)[2 * i..2 * i + 2] == Halves(init)[2 * i..2 * i + 2];
    }
  }

  // ----- memory -----

  /** The bytes lie in memory from `a` on. */
  ghost predicate InMemory(mem: map<int, Byte>, a: Word, bytes: seq<Byte>) {
    forall i :: 0 <= i < |bytes| ==> Cell(mem, ToWord(a + i)) == bytes[i]
  }

  lemma DistinctCells(a: Word, i: nat, j: nat)
    requires i < j < 0x1_0000_0000
    ensures ToWord(a + i) != ToWord(a + j)
  {
    ToWordAdds(a + i, j - i);
  }

  /** A part of what lies in memory. */
  lemma PartInMemory(mem: map<int, Byte>, a: Word, bytes: seq<Byte>, from: nat, to: nat)
    requires InMemory(mem, a, bytes) && from <= to <= |bytes|
    ensures InMemory(mem, ToWord(a + from), bytes[from..to])
  {
    hide ToWord;
    forall i | 0 <= i < to - from
      ensures Cell(mem, ToWord(ToWord(a + from) + i)) == bytes[from..to][i]
    {
      ToWordAdds(a + from, i);
      assert a + from + i == a + (from + i);
    }
  }

  /** Reading memory gives the number the bytes there stand for. */
  lemma {:induction false} ReadValue(mem: map<int, Byte>, a: Word, bytes: seq<Byte>)
    requires InMemory(mem, a, bytes)
    ensures ReadMem(mem, a, |bytes|) == Value(bytes)
    decreases |bytes|
  {
    if bytes != [] {
      assert ToWord(a + 0) == a;
      PartInMemory(mem, a, bytes, 1, |bytes|);
      hide InMemory;
      ReadValue(mem, ToWord(a + 1), bytes[1..]);
    }
  }

  /** A word in memory is fetched as it was stored. */
  lemma FetchWord(mem: map<int, Byte>, a: Word, w: Word)
    requires InMemory(mem, a, LittleEndian(w, 4))
    ensures ToWord(ReadMem(mem, a, 4)) == w
  {
    hide LittleEndian, InMemory, ReadMem, Value;
    ReadValue(mem, a, LittleEndian(w, 4));
    LittleEndianValue(w, 4);
    assert Pow256(4) == 0x1_0000_0000;
  }

  /** None of the `n` cells from `a` on is one of the `size` cells from `b` on. */
  predicate Apart(a: Word, n: nat, b: Word, size: nat)
    decreases n
  {
    n == 0 || (ToWord(a - b) >= size && Apart(ToWord(a + 1), n - 1, b, size))
  }

  lemma WriteCell(mem: map<int, Byte>, a: Word, v: Byte, b: Word, bytes: seq<Byte>)
    requires InMemory(mem, b, bytes) && ToWord(a - b) >= |bytes|
    ensures InMemory(mem[a := v], b, bytes)
  {
    forall j | 0 <= j < |bytes|
      ensures Cell(mem[a := v], ToWord(b + j)) == bytes[j]
    {
      if ToWord(b + j) == a {
        ToWordAdds(b + j, 0 - b);
      }
    }
  }

  /** Writing elsewhere leaves bytes in memory alone. */
  lemma {:induction false} WriteElsewhere(mem: map<int, Byte>, a: Word, n: nat, v: nat, b: Word, bytes: seq<Byte>)
    requires InMemory(mem, b, bytes) && Apart(a, n, b, |bytes|)
    ensures InMemory(WriteMem(mem, a, n, v), b, bytes)
    decreases n
  {
    hide InMemory;
    if n > 0 {
      WriteCell(mem, a, v % 0x100, b, bytes);
      WriteElsewhere(mem[a := v % 0x100], ToWord(a + 1), n - 1, v / 0x100, b, bytes);
    }
  }
}
