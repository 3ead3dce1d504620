/** What a reader of the written file finds: the layout, the loaded memory and the sections. */
module ElfLoading {
  import opened Bits
  import opened CText
  import opened Storage
  import opened Layout
  import opened Elf
  import Isa

  // ----- the parts of the file -----

  lemma SixParts(a: seq<Byte>, b: seq<Byte>, c: seq<Byte>, d: seq<Byte>, e: seq<Byte>, f: seq<Byte>)
    ensures var w := a + b + c + d + e + f;
      var i := |a|; var j := i + |b|; var k := j + |c|; var l := k + |d|; var m := l + |e|;
      |w| == m + |f| && w[..i] == a && w[i..j] == b && w[j..k] == c && w[k..l] == d && w[l..m] == e && w[m..] == f
  {
  }

  /** Header, program header, text, data, section names and section headers tile the file. */
  lemma FileTiles(base: Word, text: seq<Byte>, data: seq<Byte>, bss: nat)
    requires Sizes(|text|, |data|, bss)
    ensures var file, strings, sections := FileImage(base, text, data, bss), StringsOffset(|text|, |data|),
        SectionsOffset(|text|, |data|);
      && |file| == sections + SHDR_SIZE * SECTIONS
      && file[..52] == EhdrBytes(TextVaddr(base), sections)
      && file[52..84] == PhdrBytes(base, strings, strings + bss)
      && file[84..84 + |text|] == text
      && file[84 + |text|..strings] == data
      && file[strings..sections] == BytesOf(SHSTRTAB)
      && file[sections..] == TableBytes(SectionTable(base, |text|, |data|, bss))
  {
    ShortNames();
    hide EhdrBytes, PhdrBytes, TableBytes, SectionTable, BytesOf, SHSTRTAB;
    var strings, sections := StringsOffset(|text|, |data|), SectionsOffset(|text|, |data|);
    SixParts(EhdrBytes(TextVaddr(base), sections), PhdrBytes(base, strings, strings + bss), text, data,
             BytesOf(SHSTRTAB), TableBytes(SectionTable(base, |text|, |data|, bss)));
  }

  // ----- the header fields -----

  lemma FourParts(a: seq<Byte>, b: seq<Byte>, c: seq<Byte>, d: seq<Byte>)
    ensures var w := a + b + c + d;
      var i := |a|; var j := i + |b|; var k := j + |c|;
      w[..i] == a && w[i..j] == b && w[j..k] == c && w[k..] == d
  {
  }

  lemma EhdrParts(file: seq<Byte>, entry: Word, shoff: Word)
    requires |file| >= 52 && file[..52] == EhdrBytes(entry, shoff)
    ensures file[..16] == IDENT && file[16..20] == Halves([2, 243])
    ensures file[20..40] == Words([1, entry, 52, shoff, 0]) && file[40..52] == Halves([52, 32, 1, 40, 5, 4])
  {
    hide Words, Halves;
    FourParts(IDENT, Halves([2, 243]), Words([1, entry, 52, shoff, 0]), Halves([52, 32, 1, 40, 5, 4]));
    assert file[0..52] == file[..52];
    Part(file, 0, 52, 0, 16);
    Part(file, 0, 52, 16, 20);
    Part(file, 0, 52, 20, 40);
    Part(file, 0, 52, 40, 52);
  }

  lemma HeaderFields(file: seq<Byte>, entry: Word, shoff: Word)
    requires |file| >= 52 && file[..52] == EhdrBytes(entry, shoff)
    ensures IsRiscvExecutable(file)
    ensures Field(file, 20, 4) == 1 && Field(file, 24, 4) == entry && Field(file, 28, 4) == 52
    ensures Field(file, 32, 4) == shoff && Field(file, 36, 4) == 0 && Field(file, 40, 2) == 52
    ensures Field(file, 42, 2) == 32 && Field(file, 44, 2) == 1 && Field(file, 46, 2) == 40 && Field(file, 48, 2) == 5
    ensures Field(file, 50, 2) == 4
  {
    hide Words, Halves, EhdrBytes, Field;
    EhdrParts(file, entry, shoff);
    Marked(file);
    HalfOf(file, 16, [2, 243], 0);
    HalfOf(file, 16, [2, 243], 1);
    var words, halves := [1, entry, 52, shoff, 0], [52, 32, 1, 40, 5, 4];
    WordOf(file, 20, words, 0);
    WordOf(file, 20, words, 1);
    WordOf(file, 20, words, 2);
    WordOf(file, 20, words, 3);
    WordOf(file, 20, words, 4);
    HalfOf(file, 40, halves, 0);
    HalfOf(file, 40, halves, 1);
    HalfOf(file, 40, halves, 2);
    HalfOf(file, 40, halves, 3);
    HalfOf(file, 40, halves, 4);
    HalfOf(file, 40, halves, 5);
  }

  lemma Marked(file: seq<Byte>)
    requires |file| >= 16 && file[..16] == IDENT
    ensures file[..4] == [0x7F, 0x45, 0x4C, 0x46] && file[4] == 1 && file[5] == 1 && file[6] == 1
  {
    assert file[..4] == file[..16][..4];
    assert forall i :: 4 <= i < 7 ==> file[i] == file[..16][i];
  }

  /** The file starts with the identification of a 32-bit little-endian ELF file, and with any other
      class or byte order no reader would load it. */
  lemma FileMarked(base: Word, text: seq<Byte>, data: seq<Byte>, bss: nat, b: Byte)
    requires Sizes(|text|, |data|, bss)
    ensures var file := FileImage(base, text, data, bss);
      && |file| >= 84 && file[..16] == [0x7F, 0x45, 0x4C, 0x46, 1, 1, 1, 0, 0, 0, 0, 0, 0, 0, 0, 0]
      && (b != 1 ==> LoadFile(file[4 := b]) == None && LoadFile(file[5 := b]) == None)
  {
    hide FileImage, EhdrBytes, PhdrBytes, TableBytes, SectionTable, BytesOf, Field;
    FileTiles(base, text, data, bss);
    EhdrParts(FileImage(base, text, data, bss), TextVaddr(base), SectionsOffset(|text|, |data|));
  }

  /** The one load segment: all of its fields, in their order. */
  lemma ProgramFields(file: seq<Byte>, base: Word, filesz: Word, memsz: Word)
    requires |file| >= 84 && file[52..84] == PhdrBytes(base, filesz, memsz)
    ensures Field(file, 52, 4) == 1 && Field(file, 56, 4) == 0
    ensures Field(file, 60, 4) == base && Field(file, 64, 4) == base
    ensures Field(file, 68, 4) == filesz && Field(file, 72, 4) == memsz
    ensures Field(file, 76, 4) == 7 && Field(file, 80, 4) == 0x1000
  {
    hide Words, Field;
    var words := PhdrFields(base, filesz, memsz);
    WordOf(file, 52, words, 0);
    WordOf(file, 52, words, 1);
    WordOf(file, 52, words, 2);
    WordOf(file, 52, words, 3);
    WordOf(file, 52, words, 4);
    WordOf(file, 52, words, 5);
    WordOf(file, 52, words, 6);
    WordOf(file, 52, words, 7);
  }

  /**
    The gABI asks that p_vaddr and p_offset are congruent modulo p_align: they are exactly when the
    base address is a multiple of 4096, as both the default base and the one for the proxy kernel are.
   */
  lemma SegmentAligned(base: Word, text: seq<Byte>, data: seq<Byte>, bss: nat)
    requires Sizes(|text|, |data|, bss)
    ensures var file := FileImage(base, text, data, bss);
      && |file| >= 84 && Field(file, 80, 4) > 0
      && (Field(file, 60, 4) % Field(file, 80, 4) == Field(file, 56, 4) % Field(file, 80, 4) <==> base % 0x1000 == 0)
    ensures 0x8000_0000 % 0x1000 == 0 && 0x1_0000 % 0x1000 == 0
  {
    hide FileImage, EhdrBytes, PhdrBytes, TableBytes, SectionTable, BytesOf, Field;
    var strings := StringsOffset(|text|, |data|);
    FileTiles(base, text, data, bss);
    ProgramFields(FileImage(base, text, data, bss), base, strings, strings + bss);
  }

  // ----- loading -----

  lemma {:induction false} PlaceHolds(mem: map<int, Byte>, a: Word, bytes: seq<Byte>)
    requires |bytes| <= 0x1_0000_0000
    ensures InMemory(Place(mem, a, bytes), a, bytes)
  {
    hide ToWord;
    if bytes != [] {
      var last := |bytes| - 1;
      PlaceHolds(mem, a, bytes[..last]);
      forall i | 0 <= i < last
        ensures Isa.Cell(Place(mem, a, bytes), ToWord(a + i)) == bytes[i]
      {
        DistinctCells(a, i, last);
        assert bytes[..last][i] == bytes[i];
      }
    }
  }

  /** The one segment: everything before the section names, then zeros for `.bss`. */
  function SegmentBytes(file: seq<Byte>, strings: nat, bss: nat): seq<Byte>
    requires strings <= |file|
  {
    file[0..strings] + Repeat(0, bss)
  }

  lemma OneSegment(file: seq<Byte>, base: Word, strings: Word, memsz: Word)
    requires 84 <= strings <= |file| && strings <= memsz
    requires file[52..84] == PhdrBytes(base, strings, memsz)
    ensures LoadSegments(file, 52, 32, 1, map[])
        == Some(Place(map[], base, SegmentBytes(file, strings, memsz - strings)))
  {
    hide Field, PhdrBytes, Place;
    ProgramFields(file, base, strings, memsz);
    assert ToWord(base) == base;
  }

  /**
    Loading the written file gives the entry point and both segments at the addresses the
    expander computes with, and zeros where `.bss` is.
   */
  lemma FileLoads(base: Word, text: seq<Byte>, data: seq<Byte>, bss: nat)
    requires Sizes(|text|, |data|, bss)
    ensures var loaded := LoadFile(FileImage(base, text, data, bss));
      && loaded.Some?
      && loaded.value.entry == TextVaddr(base)
      && InMemory(loaded.value.mem, TextVaddr(base), text)
      && InMemory(loaded.value.mem, DataVaddr(base, |text|), data)
      && InMemory(loaded.value.mem, ToWord(base + StringsOffset(|text|, |data|)), Repeat(0, bss))
  {
    hide FileImage, EhdrBytes, PhdrBytes, TableBytes, SectionTable, BytesOf, Field, IsRiscvExecutable,
         InMemory, Place, ToWord;
    var file, strings := FileImage(base, text, data, bss), StringsOffset(|text|, |data|);
    FileTiles(base, text, data, bss);
    HeaderFields(file, TextVaddr(base), SectionsOffset(|text|, |data|));
    OneSegment(file, base, strings, strings + bss);
    var bytes := SegmentBytes(file, strings, bss);
    PlaceHolds(map[], base, bytes);
    var mem := Place(map[], base, bytes);
    SegmentParts(file, strings, bss, |text|);
    PartInMemory(mem, base, bytes, 84, 84 + |text|);
    PartInMemory(mem, base, bytes, 84 + |text|, strings);
    PartInMemory(mem, base, bytes, strings, strings + bss);
    Addresses(base, |text|);
  }

  lemma SegmentParts(file: seq<Byte>, strings: nat, bss: nat, text: nat)
    requires 84 + text <= strings <= |file|
    ensures var bytes := SegmentBytes(file, strings, bss);
      && |bytes| == strings + bss
      && bytes[84..84 + text] == file[84..84 + text]
      && bytes[84 + text..strings] == file[84 + text..strings]
      && bytes[strings..strings + bss] == Repeat(0, bss)
  {
  }

  lemma Addresses(base: Word, text: nat)
    ensures ToWord(base + 84) == TextVaddr(base)
    ensures ToWord(base + (84 + text)) == DataVaddr(base, text)
    ensures ToWord(TextVaddr(base)) == TextVaddr(base)
  {
    ToWordAdds(base + 84, text);
  }

  // ----- sections -----

  lemma Before(s: seq<Byte>, t: seq<Byte>, i: nat, j: nat)
    requires i <= j <= |s|
    ensures (s + t)[i..j] == s[i..j]
  {
  }

  lemma {:induction false} TableAt(t: seq<Section>, k: nat)
    requires k < |t|
    ensures TableBytes(t)[40 * k..40 * k + 40] == ShdrBytes(t[k])
    decreases |t|
  {
    hide ShdrBytes;
    if k < |t| - 1 {
      var init := t[..|t| - 1];
      TableAt(init, k);
      Before(TableBytes(init), ShdrBytes(t[|t| - 1]), 40 * k, 40 * k + 40);
    }
  }

  lemma SectionFields(file: seq<Byte>, at: nat, s: Section)
    requires at + 40 <= |file| && file[at..at + 40] == ShdrBytes(s)
    ensures Field(file, at, 4) == s.name && Field(file, at + 4, 4) == s.kind && Field(file, at + 8, 4) == s.flags
    ensures Field(file, at + 12, 4) == s.addr && Field(file, at + 16, 4) == s.offset
        && Field(file, at + 20, 4) == s.size
    ensures Field(file, at + 32, 4) == s.align
  {
    hide Words, Field;
    var words := ShdrFields(s);
    WordOf(file, at, words, 0);
    WordOf(file, at, words, 1);
    WordOf(file, at, words, 2);
    WordOf(file, at, words, 3);
    WordOf(file, at, words, 4);
    WordOf(file, at, words, 5);
    WordOf(file, at, words, 8);
  }

  /** Reading the section table back gives the five sections. */
  lemma SectionsRead(base: Word, text: seq<Byte>, data: seq<Byte>, bss: nat, k: nat)
    requires Sizes(|text|, |data|, bss) && k < SECTIONS
    ensures ReadSection(FileImage(base, text, data, bss), k) == Some(SectionTable(base, |text|, |data|, bss)[k])
  {
    hide FileImage, EhdrBytes, PhdrBytes, TableBytes, SectionTable, BytesOf, Field, ShdrBytes, IsRiscvExecutable;
    var file, t, sections := FileImage(base, text, data, bss), SectionTable(base, |text|, |data|, bss),
        SectionsOffset(|text|, |data|);
    FileTiles(base, text, data, bss);
    HeaderFields(file, TextVaddr(base), sections);
    TableAt(t, k);
    assert file[sections..|file|] == file[sections..];
    Part(file, sections, |file|, 40 * k, 40 * k + 40);
    SectionFields(file, sections + 40 * k, t[k]);
  }

  const NAMES: seq<string> := ["", ".text", ".data", ".bss", ".shstrtab"]

  function NameOffset(k: nat): nat {
    if k == 0 then 0 else if k == 1 then 1 else if k == 2 then 7 else if k == 3 then 13 else 18
  }

  lemma NameBytes(k: nat)
    requires k < SECTIONS
    ensures var at, name := NameOffset(k), NAMES[k];
      at + |name| < 28 && SHSTRTAB[at..at + |name| + 1] == name + "\0"
  {
    NamesJoined();
    hide SHSTRTAB;
    FiveStrings("\0", ".text\0", ".data\0", ".bss\0", ".shstrtab\0");
    assert "" + "\0" == "\0" && ".text" + "\0" == ".text\0" && ".data" + "\0" == ".data\0";
    assert ".bss" + "\0" == ".bss\0" && ".shstrtab" + "\0" == ".shstrtab\0";
  }

  lemma NamesJoined()
    ensures SHSTRTAB == "\0" + ".text\0" + ".data\0" + ".bss\0" + ".shstrtab\0"
  {
  }

  lemma FiveStrings(a: string, b: string, c: string, d: string, e: string)
    ensures var w := a + b + c + d + e;
      var i := |a|; var j := i + |b|; var k := j + |c|; var l := k + |d|;
      w[0..i] == a && w[i..j] == b && w[j..k] == c && w[k..l] == d && w[l..l + |e|] == e
  {
  }

  lemma BytesOfPart(s: string, i: nat, j: nat)
    requires i <= j <= |s|
    ensures BytesOf(s)[i..j] == BytesOf(s[i..j])
  {
  }

  lemma AddressBack(base: Word, offset: nat)
    requires offset < 0x1_0000_0000
    ensures ToWord(ToWord(base + offset) - base) == offset
  {
    hide ToWord;
    ToWordAdds(base + offset, 0 - base);
    WordItself(offset);
  }

  /** Type, flags and alignment: nothing, allocated code, allocated writable data and as much without
      contents in the file, and a string table. */
  predicate SectionTypes(s: Section, k: nat) {
    && s.kind == (if k == 0 then 0 else if k in {1, 2} then 1 else if k == 3 then 8 else 3)
    && s.flags == (if k == 1 then 2 + 4 else if k in {2, 3} then 1 + 2 else 0)
    && s.align == (if k == 0 then 0 else if k == 4 then 1 else 0x1000)
  }

  lemma SectionShape(base: Word, text: nat, data: nat, bss: nat, k: nat)
    requires Sizes(text, data, bss) && k < SECTIONS
    ensures var s := SectionTable(base, text, data, bss)[k];
      && s.name == NameOffset(k)
      && (k in {1, 2, 3} ==> ToWord(s.addr - base) == s.offset)
      && (k == 1 ==> s.offset == 84 && s.size == text)
      && (k == 2 ==> s.offset == 84 + text && s.size == data)
      && (k == 3 ==> s.offset == StringsOffset(text, data) && s.size == bss)
      && (k == 4 ==> s.addr == 0 && s.offset == StringsOffset(text, data) && s.size == 28)
      && SectionTypes(s, k)
  {
    hide ToWord;
    AddressBack(base, TEXT_OFFSET);
    AddressBack(base, TEXT_OFFSET + text);
    AddressBack(base, StringsOffset(text, data));
  }

  /** The section name bytes of every section. */
  lemma SectionNames(base: Word, text: seq<Byte>, data: seq<Byte>, bss: nat, k: nat)
    requires Sizes(|text|, |data|, bss) && k < SECTIONS
    ensures var file, name := FileImage(base, text, data, bss), NAMES[k];
      var at := StringsOffset(|text|, |data|) + NameOffset(k);
      at + |name| < |file| && file[at..at + |name| + 1] == BytesOf(name + "\0")
  {
    hide FileImage, EhdrBytes, PhdrBytes, TableBytes, SectionTable, BytesOf;
    FileTiles(base, text, data, bss);
    var file, strings, sections := FileImage(base, text, data, bss), StringsOffset(|text|, |data|),
        SectionsOffset(|text|, |data|);
    NameBytes(k);
    ShortNames();
    var at, end := NameOffset(k), NameOffset(k) + |NAMES[k]| + 1;
    hide SHSTRTAB, NAMES;
    BytesOfPart(SHSTRTAB, at, end);
    Part(file, strings, sections, at, end);
  }

  lemma {:induction false} CStringAt(file: seq<Byte>, at: nat, name: string)
    requires at + |name| < |file| && file[at..at + |name| + 1] == BytesOf(name + "\0")
    requires forall i :: 0 <= i < |name| ==> ' ' < name[i] <= '~'
    ensures CString(file, at) == BytesOf(name)
    decreases |name|
  {
    var s, z := BytesOf(name + "\0"), name + "\0";
    assert file[at] == file[at..at + |name| + 1][0] == s[0] == ByteOf(z[0]);
    if name != "" {
      assert z[0] == name[0] && z[1..] == name[1..] + "\0";
      Part(file, at, at + |name| + 1, 1, |name| + 1);
      BytesOfPart(z, 1, |name| + 1);
      assert z[1..|name| + 1] == z[1..];
      CStringAt(file, at + 1, name[1..]);
      assert BytesOf(name) == [ByteOf(name[0])] + BytesOf(name[1..]);
    }
  }

  lemma PrintableNames(k: nat)
    requires k < SECTIONS
    ensures forall i :: 0 <= i < |NAMES[k]| ==> ' ' < NAMES[k][i] <= '~'
  {
  }

  /** Every section is found under its name. */
  lemma SectionsNamed(base: Word, text: seq<Byte>, data: seq<Byte>, bss: nat, k: nat)
    requires Sizes(|text|, |data|, bss) && k < SECTIONS
    ensures SectionName(FileImage(base, text, data, bss), k) == Some(BytesOf(NAMES[k]))
    ensures |BytesOf(NAMES[k])| == |NAMES[k]|
    ensures forall i :: 0 <= i < |NAMES[k]| ==> BytesOf(NAMES[k])[i] == NAMES[k][i] as int
  {
    hide FileImage, EhdrBytes, PhdrBytes, TableBytes, SectionTable, BytesOf, ReadSection, Field, CString,
         IsRiscvExecutable, SHSTRTAB;
    ShortNames();
    var file, strings := FileImage(base, text, data, bss), StringsOffset(|text|, |data|);
    FileTiles(base, text, data, bss);
    HeaderFields(file, TextVaddr(base), SectionsOffset(|text|, |data|));
    SectionsRead(base, text, data, bss, k);
    SectionsRead(base, text, data, bss, 4);
    SectionShape(base, |text|, |data|, bss, k);
    SectionShape(base, |text|, |data|, bss, 4);
    SectionNames(base, text, data, bss, k);
    PrintableNames(k);
    PlainBytes(NAMES[k]);
    CStringAt(file, strings + NameOffset(k), NAMES[k]);
  }

  /**
    The sections the reader finds hold the contents of `.text` and `.data`, and every allocated
    section is loaded where its address says: sh_addr - p_vaddr == sh_offset - p_offset.
   */
  lemma SectionsDescribeFile(base: Word, text: seq<Byte>, data: seq<Byte>, bss: nat, k: nat)
    requires Sizes(|text|, |data|, bss) && k < SECTIONS
    ensures var file := FileImage(base, text, data, bss);
      var s := ReadSection(file, k);
      && s.Some?
      && SectionTypes(s.value, k)
      && (k in {1, 2, 3} ==> ToWord(s.value.addr - base) == s.value.offset)
      && (k == 3 ==> s.value.size == bss) && (k == 4 ==> s.value.size == 28)
      && (k in {1, 2} ==> s.value.offset + s.value.size <= |file|
                          && file[s.value.offset..s.value.offset + s.value.size] == if k == 1 then text else data)
  {
    hide FileImage, EhdrBytes, PhdrBytes, TableBytes, SectionTable, BytesOf, ReadSection, SHSTRTAB, ToWord;
    SectionsRead(base, text, data, bss, k);
    FileTiles(base, text, data, bss);
    SectionShape(base, |text|, |data|, bss, k);
  }
}
