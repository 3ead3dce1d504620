/**
  The ELF32 writer, and a reader of ELF files after the System V gABI (chapter 4 for the header and
  the section table, chapter 5 for loading) that recovers what was written.
 */
module Elf {
  import opened Bits
  import opened CText
  import opened Storage
  import opened Layout

  // ----- the bytes of the headers -----

  const IDENT: seq<Byte> := [0x7F, 0x45, 0x4C, 0x46, 1, 1, 1, 0, 0, 0, 0, 0, 0, 0, 0, 0]

  lemma HeaderSizes()
    ensures EHDR_SIZE == 52 && PHDR_SIZE == 32 && SHDR_SIZE == 40 && SECTIONS == 5
  {
  }

  lemma IdentBytes()
    ensures IDENT == [0x7F, 0x45, 0x4C, 0x46, 1, 1, 1, 0, 0, 0, 0, 0, 0, 0, 0, 0]
  {
  }

  const SHDR_SIZE: nat := 40
  const SECTIONS: nat := 5
  const SHSTRTAB: string := "\0.text\0.data\0.bss\0.shstrtab\0"

  /** The ELF header: executable, RISC-V, one program header, five section headers. */
  function EhdrBytes(entry: Word, shoff: Word): (b: seq<Byte>)
    ensures |b| == EHDR_SIZE
  {
    IDENT + Halves([2, 243]) + Words([1, entry, 52, shoff, 0]) + Halves([52, 32, 1, 40, 5, 4])
  }

  function PhdrFields(base: Word, filesz: Word, memsz: Word): seq<int> {
    [1, 0, base, base, filesz, memsz, 7, 0x1000]
  }

  function PhdrBytes(base: Word, filesz: Word, memsz: Word): (b: seq<Byte>)
    ensures |b| == PHDR_SIZE
  {
    Words(PhdrFields(base, filesz, memsz))
  }

  datatype Section = Section(name: Word, kind: Word, flags: Word, addr: Word, offset: Word, size: Word, align: Word)

  function ShdrFields(s: Section): seq<int> {
    [s.name, s.kind, s.flags, s.addr, s.offset, s.size, 0, 0, s.align, 0]
  }

  function ShdrBytes(s: Section): (b: seq<Byte>)
    ensures |b| == SHDR_SIZE
  {
    Words(ShdrFields(s))
  }

  // ----- the layout of the file -----

  const TEXT_OFFSET: nat := EHDR_SIZE + PHDR_SIZE

  function StringsOffset(text: nat, data: nat): nat {
    TEXT_OFFSET + text + data
  }

  function SectionsOffset(text: nat, data: nat): nat {
    StringsOffset(text, data) + |SHSTRTAB|
  }

  predicate Sizes(text: nat, data: nat, bss: nat) {
    text <= CAPACITY && data <= CAPACITY && bss <= CAPACITY
  }

  function SectionTable(base: Word, text: nat, data: nat, bss: nat): (t: seq<Section>)
    requires Sizes(text, data, bss)
    ensures |t| == SECTIONS
  {
    var dataOffset := TEXT_OFFSET + text;
    var strings := StringsOffset(text, data);
    [ Section(0, 0, 0, 0, 0, 0, 0),
      Section(1, 1, 6, ToWord(base + TEXT_OFFSET), TEXT_OFFSET, text, 0x1000),
      Section(7, 1, 3, ToWord(base + dataOffset), dataOffset, data, 0x1000),
      Section(13, 8, 3, ToWord(base + strings), strings, bss, 0x1000),
      Section(18, 3, 0, 0, strings, |SHSTRTAB|, 1) ]
  }

  function TableBytes(t: seq<Section>): (b: seq<Byte>)
    ensures |b| == SHDR_SIZE * |t|
  {
    if t == [] then [] else TableBytes(t[..|t| - 1]) + ShdrBytes(t[|t| - 1])
  }

  /** The file `writer32` produces. */
  function FileImage(base: Word, text: seq<Byte>, data: seq<Byte>, bss: nat): seq<Byte>
    requires Sizes(|text|, |data|, bss)
  {
    var strings := StringsOffset(|text|, |data|);
    EhdrBytes(ToWord(base + TEXT_OFFSET), SectionsOffset(|text|, |data|))
    + PhdrBytes(base, strings, strings + bss)
    + text + data + BytesOf(SHSTRTAB) + TableBytes(SectionTable(base, |text|, |data|, bss))
  }

  // ----- the writer -----

  class Ehdr {
    var ident: seq<Byte>
    var kind: Word
    var machine: Word
    var version: Word
    var entry: Word
    var phoff: Word
    var shoff: Word
    var flags: Word
    var ehsize: Word
    var phentsize: Word
    var phnum: Word
    var shentsize: Word
    var shnum: Word
    var shstrndx: Word

    constructor () {
      ident := Repeat(0, 16);
      kind, machine, version, entry, phoff, shoff, flags := 0, 0, 0, 0, 0, 0, 0;
      ehsize, phentsize, phnum, shentsize, shnum, shstrndx := 0, 0, 0, 0, 0, 0;
    }

    /** The structure as it lies in memory. */
    function Raw(): seq<Byte>
      reads this
    {
      ident + Halves([kind, machine]) + Words([version, entry, phoff, shoff, flags])
      + Halves([ehsize, phentsize, phnum, shentsize, shnum, shstrndx])
    }

    method FillIdent()
      modifies this`ident
      ensures ident == [0x7F, 0x45, 0x4C, 0x46, 1, 1, 1, 0, 0, 0, 0, 0, 0, 0, 0, 0]
    {
      ident := Repeat(0, 16);
      ident := ident[0 := 0x7F][1 := 0x45][2 := 0x4C][3 := 0x46];
      ident := ident[4 := 1][5 := 1][6 := 1][7 := 0][8 := 0];
    }

    lemma Filled(entryPoint: Word, sectionsOffset: Word)
      requires ident == IDENT && kind == 2 && machine == 243 && version == 1 && entry == entryPoint && phoff == 52
      requires shoff == sectionsOffset && flags == 0 && ehsize == 52 && phentsize == 32 && phnum == 1
      requires shentsize == 40 && shnum == 5 && shstrndx == 4
      ensures Raw() == EhdrBytes(entryPoint, sectionsOffset)
    {
      hide Words, Halves, IDENT;
    }

    method Fill(entryPoint: Word, sectionsOffset: Word)
      modifies this
      ensures Raw() == EhdrBytes(entryPoint, sectionsOffset)
    {
      hide *;
      HeaderSizes();
      FillIdent();
      IdentBytes();
      kind, machine, version := 2, 243, 1;
      entry := entryPoint;
      flags := 0;
      ehsize := EHDR_SIZE;
      phoff := EHDR_SIZE;
      phentsize := PHDR_SIZE;
      phnum := 1;
      shoff := sectionsOffset;
      shentsize := SHDR_SIZE;
      shnum := SECTIONS;
      shstrndx := 4;
      Filled(entryPoint, sectionsOffset);
    }
  }

  class Phdr {
    var kind: Word
    var offset: Word
    var vaddr: Word
    var paddr: Word
    var filesz: Word
    var memsz: Word
    var flags: Word
    var align: Word

    constructor () {
      kind, offset, vaddr, paddr, filesz, memsz, flags, align := 0, 0, 0, 0, 0, 0, 0, 0;
    }

    function Raw(): seq<Byte>
      reads this
    {
      Words([kind, offset, vaddr, paddr, filesz, memsz, flags, align])
    }

    method Fill(base: Word, fileSize: Word, memSize: Word)
      modifies this
      ensures Raw() == PhdrBytes(base, fileSize, memSize)
    {
      kind := 1;
      offset := 0;
      vaddr := base;
      paddr := base;
      filesz := fileSize;
      memsz := memSize;
      flags := 7;
      align := 0x1000;
    }
  }

  class Shdr {
    var s: Section

    constructor ()
      ensures s == Section(0, 0, 0, 0, 0, 0, 0)
    {
      s := Section(0, 0, 0, 0, 0, 0, 0);
    }

    function Raw(): seq<Byte>
      reads this
    {
      ShdrBytes(s)
    }

    method Fill(name: Word, kind: Word, flags: Word, addr: Word, offset: Word, size: Word, align: Word)
      modifies this
      ensures s == Section(name, kind, flags, addr, offset, size, align)
    {
      s := s.(name := name, kind := kind, flags := flags);
      s := s.(addr := addr, offset := offset, size := size, align := align);
    }
  }

  /** The section headers, in the order they are written. */
  method FillSections(base: Word, text: nat, data: nat, bss: nat) returns (bytes: seq<Byte>)
    requires Sizes(text, data, bss)
    ensures bytes == TableBytes(SectionTable(base, text, data, bss))
  {
    hide ShdrBytes, TableBytes;
    var textOffset := EHDR_SIZE + PHDR_SIZE;
    var dataOffset := textOffset + text;
    var strings := dataOffset + data;
    var header := new Shdr();
    bytes := header.Raw();
    header.Fill(1, 1, 6, ToWord(base + textOffset), textOffset, text, 0x1000);
    bytes := bytes + header.Raw();
    header.Fill(7, 1, 3, ToWord(base + dataOffset), dataOffset, data, 0x1000);
    bytes := bytes + header.Raw();
    header.Fill(13, 8, 3, ToWord(base + strings), strings, bss, 0x1000);
    bytes := bytes + header.Raw();
    header.Fill(18, 3, 0, 0, strings, |SHSTRTAB|, 1);
    bytes := bytes + header.Raw();
    TableOfFive(SectionTable(base, text, data, bss));
  }

  /** Segments without contents are skipped. */
  method AppendSegment(file: seq<Byte>, segment: seq<Byte>) returns (longer: seq<Byte>)
    ensures longer == file + segment
  {
    longer := file;
    if |segment| > 0 {
      longer := longer + segment;
    }
  }

  /** `writer32`, the file being what the successive writes produce. */
  method Write(base: Word, text: seq<Byte>, data: seq<Byte>, bss: nat) returns (file: seq<Byte>)
    requires Sizes(|text|, |data|, bss)
    ensures file == FileImage(base, text, data, bss)
  {
    hide EhdrBytes, PhdrBytes, TableBytes, SectionTable, BytesOf, SHSTRTAB, Ehdr.Raw, Phdr.Raw, ToWord;
    var textOffset := EHDR_SIZE + PHDR_SIZE;
    var strings := textOffset + |text| + |data|;
    var shoff := strings + |SHSTRTAB|;
    ShortNames();
    var ehdr := new Ehdr();
    ehdr.Fill(ToWord(base + textOffset), shoff);
    var phdr := new Phdr();
    phdr.Fill(base, strings, strings + bss);
    var sections := FillSections(base, |text|, |data|, bss);

    file := ehdr.Raw() + phdr.Raw();
    file := AppendSegment(file, text);
    file := AppendSegment(file, data);
    file := file + BytesOf(SHSTRTAB) + sections;
  }

  lemma ShortNames()
    ensures |SHSTRTAB| == 28
  {
  }

  lemma TableOfFive(t: seq<Section>)
    requires |t| == 5
    ensures TableBytes(t) == ShdrBytes(t[0]) + ShdrBytes(t[1]) + ShdrBytes(t[2]) + ShdrBytes(t[3]) + ShdrBytes(t[4])
  {
    hide ShdrBytes;
    assert t[..4][..3] == t[..3] && t[..3][..2] == t[..2] && t[..2][..1] == t[..1] && t[..1][..0] == [];
    assert TableBytes(t[..1]) == ShdrBytes(t[0]);
    assert TableBytes(t[..2]) == TableBytes(t[..1]) + ShdrBytes(t[1]);
    assert TableBytes(t[..3]) == TableBytes(t[..2]) + ShdrBytes(t[2]);
    assert TableBytes(t[..4]) == TableBytes(t[..3]) + ShdrBytes(t[3]);
  }

  // ----- reading an ELF file -----

  /** The little-endian field of `n` bytes at `at`. */
  function Field(file: seq<Byte>, at: nat, n: nat): nat
    requires at + n <= |file|
  {
    Value(file[at..at + n])
  }

  /** The magic number, 32-bit, little-endian, the current version, executable, RISC-V. */
  predicate IsRiscvExecutable(file: seq<Byte>) {
    && |file| >= 52 && file[..4] == [0x7F, 0x45, 0x4C, 0x46] && file[4] == 1 && file[5] == 1 && file[6] == 1
    && Field(file, 16, 2) == 2 && Field(file, 18, 2) == 243 && Field(file, 20, 4) == 1
  }

  /** Bytes put in memory from `a` on, addresses wrapping around. */
  function Place(mem: map<int, Byte>, a: Word, bytes: seq<Byte>): map<int, Byte> {
    if bytes == [] then mem
    else Place(mem, a, bytes[..|bytes| - 1])[ToWord(a + |bytes| - 1) := bytes[|bytes| - 1]]
  }

  /** Loads the segments of `n` program headers of `size` bytes from `at` on. */
  function LoadSegments(file: seq<Byte>, at: nat, size: nat, n: nat, mem: map<int, Byte>): Option<map<int, Byte>>
    decreases n
  {
    if n == 0 then Some(mem)
    else if at + 32 > |file| then None
    else
      var kind, offset, vaddr := Field(file, at, 4), Field(file, at + 4, 4), Field(file, at + 8, 4);
      var filesz, memsz := Field(file, at + 16, 4), Field(file, at + 20, 4);
      if kind != 1 then LoadSegments(file, at + size, size, n - 1, mem)
      else if offset + filesz > |file| || filesz > memsz then None
      else
        var bytes := file[offset..offset + filesz] + Repeat(0, memsz - filesz);
        LoadSegments(file, at + size, size, n - 1, Place(mem, ToWord(vaddr), bytes))
  }

  datatype Loaded = Loaded(entry: Word, mem: map<int, Byte>)

  function LoadFile(file: seq<Byte>): Option<Loaded> {
    if !IsRiscvExecutable(file) then None
    else
      match LoadSegments(file, Field(file, 28, 4), Field(file, 42, 2), Field(file, 44, 2), map[])
      case Some(mem) => Some(Loaded(ToWord(Field(file, 24, 4)), mem))
      case None => None
  }

  /** Section header `k` of a file. */
  function ReadSection(file: seq<Byte>, k: nat): Option<Section> {
    if |file| < EHDR_SIZE then None
    else
      var at := Field(file, 32, 4) + k * Field(file, 46, 2);
      if k >= Field(file, 48, 2) || at + SHDR_SIZE > |file| then None
      else
        Some(Section(ToWord(Field(file, at, 4)), ToWord(Field(file, at + 4, 4)), ToWord(Field(file, at + 8, 4)),
                     ToWord(Field(file, at + 12, 4)), ToWord(Field(file, at + 16, 4)), ToWord(Field(file, at + 20, 4)),
                     ToWord(Field(file, at + 32, 4))))
  }

  /** The NUL-terminated string at `at`, without its terminator. */
  function CString(file: seq<Byte>, at: nat): seq<Byte>
    decreases |file| - at
  {
    if at >= |file| || file[at] == 0 then [] else [file[at]] + CString(file, at + 1)
  }

  /** The name of section `k`, found in the string table the header points at. */
  function SectionName(file: seq<Byte>, k: nat): Option<seq<Byte>> {
    if |file| < EHDR_SIZE then None
    else
      match (ReadSection(file, k), ReadSection(file, Field(file, 50, 2)))
      case (Some(section), Some(strings)) => Some(CString(file, strings.offset + section.name))
      case _ => None
  }

  // ----- reading back what was packed -----

  lemma Pow256Of4()
    ensures Pow256(4) == 0x1_0000_0000 && Pow256(2) == 0x1_0000
  {
  }

  /** A word stored in a field of four bytes is read back. */
  lemma ReadWord(file: seq<Byte>, at: nat, v: Word)
    requires at + 4 <= |file| && file[at..at + 4] == LittleEndian(v, 4)
    ensures Field(file, at, 4) == v
  {
    LittleEndianValue(v, 4);
    Pow256Of4();
    hide Value, LittleEndian, Pow256;
  }

  lemma ReadHalf(file: seq<Byte>, at: nat, v: nat)
    requires at + 2 <= |file| && v < 0x1_0000 && file[at..at + 2] == LittleEndian(v, 2)
    ensures Field(file, at, 2) == v
  {
    LittleEndianValue(v, 2);
    Pow256Of4();
    hide Value, LittleEndian, Pow256;
  }

  lemma Part(file: seq<Byte>, from: nat, to: nat, i: nat, j: nat)
    requires from <= to <= |file| && i <= j <= to - from
    ensures file[from..to][i..j] == file[from + i..from + j]
  {
    var x, y := file[from..to][i..j], file[from + i..from + j];
    assert forall k :: 0 <= k < j - i ==> x[k] == file[from + i + k] == y[k];
  }

  /** Word `i` of a part of the file made of words. */
  lemma WordOf(file: seq<Byte>, start: nat, values: seq<int>, i: nat)
    requires i < |values| && start + 4 * |values| <= |file|
    requires file[start..start + 4 * |values|] == Words(values)
    requires 0 <= values[i] < 0x1_0000_0000
    ensures Field(file, start + 4 * i, 4) == values[i]
  {
    hide Words, LittleEndian, Field;
    WordAt(values, i);
    Part(file, start, start + 4 * |values|, 4 * i, 4 * i + 4);
    ReadWord(file, start + 4 * i, values[i]);
  }

  lemma HalfOf(file: seq<Byte>, start: nat, values: seq<int>, i: nat)
    requires i < |values| && start + 2 * |values| <= |file|
    requires file[start..start + 2 * |values|] == Halves(values)
    requires 0 <= values[i] < 0x1_0000
    ensures Field(file, start + 2 * i, 2) == values[i]
  {
    hide Halves, LittleEndian, Field;
    HalfAt(values, i);
    Part(file, start, start + 2 * |values|, 2 * i, 2 * i + 2);
    ReadHalf(file, start + 2 * i, values[i]);
  }
}
