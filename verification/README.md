# A two-pass RV32I assembler, modelled and proved in Dafny

This project models the pipeline of a small RISC-V assembler written in C: the first pass that
collects labels and sizes, the second pass that expands, encodes and stores, the data directives,
the symbol table and the ELF32 writer. Beside it stand two things the C code does not contain: a
small RV32I machine (decoding and execution, after the RISC-V Unprivileged ISA manual, version
20191213, sections 2.2 to 2.6 and chapter 25) and a reader of ELF files (after the System V gABI,
chapters 4 and 5). The main results connect the two sides.

- **Meaning.** A built file, loaded and started at its entry point, simulates every run of its
  source as assembled, one or two machine steps a line, and that is the source's own run unless it
  executes an arithmetic right shift that the encoder loses (`Pipeline.FileRuns`). Line by line this
  is exact: the words have the line's meaning in every state if and only if the line is not such a
  shift (`Source.LineFaithful`).
- **Addresses.** After the two instructions of `la rd, name` the register holds the address at
  which the loader has put the bytes of the one directive labelled `name`
  (`Pipeline.LaReachesDirective`).
- **The passes.** They agree on every prefix of every source (`Agreement.PassesAgree`), and after
  a successful first pass the second fails on exactly four kinds of line
  (`Agreement.SecondPassFailures`).
- **Text and data.** The text is the words of the text lines and the data the images of the
  directives, in source order (`Listings.TextIsListing`, `Listings.DataIsListing`).
- **Completeness.** A program is a sequence of text lines, labelled directives, segment lines,
  comments and blank lines in any order, each spelled and spaced in any of the ways described under
  Notation. It builds exactly when both its segments fit (`Programs.ProgramBuilds`), and the
  statement at every line's address is the one the line is written for (`Programs.ProgramMeans`).
  For plain lists of instructions the words fetched from the loaded file decode to them, two
  families of right shifts apart (`Completeness.EveryListLoads`).
- **Buffers.** The second pass never stores outside a buffer once the first has succeeded
  (`Agreement.SecondPassInBounds`). The first pass can store one byte past its scratch buffer, or a
  symbol name past the expander's buffer, and it is said exactly when (`DataDirectives.OverrunsExactly`,
  `Programs.OverrunReached`, `Pseudo.Expansion.ExpandPseudo`).
- **Notation.** Numbers are read exactly when they are spelled in decimal, octal or hexadecimal, with
  or without a sign, leading zeros or capitals (`Numerals.IntegerRead`, if and only if). Operands with
  any blanks, with an offset or none, and with a comment behind them are read as those operands, and
  bad ones end in a known error (`Notation.FormParses`, `Items.ItemOutcome`). The same holds of lists,
  strings, space and labels (`DataNotation`), and blanks around a line, blank lines and comments
  never matter (`Lines.BlanksAround`, `Lines.NothingToDo`). The spellings of each register are known
  exactly (`Spellings.AcceptedSpellings`), and the names of the instructions are those of the ISA
  manual (`Source.LineNamed`).

## How it is organised

| file | contents |
|---|---|
| `Bits.dfy`, `CText.dfy`, `Storage.dfy`, `Errors.dfy` | machine words and bitwise operators; the C text functions with the `sscanf` formats in use; bytes in files and memory; error codes |
| `Isa.dfy` | the specification machine |
| `InstructionTable.dfy`, `Encoder.dfy`, `Encoding.dfy` | mnemonic table, operand scanning and packing, and what packing guarantees |
| `Pseudo.dfy`, `Expansions.dfy`, `Commas.dfy` | the pseudo-instruction expander, its correctness, and operands with a comma |
| `SymbolTable.dfy`, `DataDirectives.dfy`, `Layout.dfy` | symbol table, directives, addresses |
| `Passes.dfy`, `Agreement.dfy`, `Listings.dfy` | the two passes as functions, how they relate, what the segments hold |
| `Assembler.dfy` | the context and the methods that update it, proved against `Passes` |
| `Source.dfy`, `Simulation.dfy` | the meaning of lines and of runs |
| `Elf.dfy`, `ElfLoading.dfy` | the writer, the reader, and that the second recovers the first |
| `Spellings.dfy`, `Numerals.dfy` | accepted register operands; how numbers are written |
| `Notation.dfy`, `DataNotation.dfy`, `Lines.dfy` | how operands, directives and lines may be written, and how they are read |
| `Printing.dfy`, `Completeness.dfy` | instructions by their ABI names; every list of them |
| `Pipeline.dfy` | the end-to-end theorems |
| `Items.dfy`, `Programs.dfy`, `Samples.dfy` | text lines as written; every written program; two concrete sources |

The code that works in place is imperative here too: the symbol table, the expansion under
construction, the data handlers on an array, the ELF structures and the context with its two
buffers are classes and methods with loops. Each method's contract equates its effect with a
function, and the theorems are about those functions.

## Assumptions

- A source is a sequence of lines, each a C string of at most 511 bytes without NUL, as `fgets`
  delivers them. The formatted lines of the expander fit their buffers, so `snprintf` never cuts.
- `int` is two's complement with 32 bits, `long` has 64, right shift of a negative number is
  arithmetic, the host is little-endian. The context starts zeroed with capacity 2048 per segment.
- `0x` without a hexadecimal digit after it is a matching failure of `%li`, as the C standard says.
  A number of 256 or more read with `%hhu` is stored modulo 256, as common C libraries do.
- A store outside a buffer is reported by the methods' result `overrun` and changes nothing in the
  model; what a C program does after such a store is undefined.

## What the code does that its user may not expect

- `srai` by a constant is assembled to `srli` (`Encoding.SraiAssemblesToSrli`); `Source.LostShift`
  gives the lines, `Source.LineFaithful` says these are the only ones.
- Shift amounts are not limited to 0..31. `Encoding.DecodesToNamed` says exactly which words decode
  to the instruction named.
- The source operand of `mv`, `not` and `seqz` may contain a comma: `mv a0, a1,5` adds five
  (`Source.MoveWithComma`). `Commas.CommaExactly` gives all such operands, and
  `Source.AcceptedMeaning` shows that these and the shift amounts are the only accepted lines
  without a meaning.
- A line that starts with a dot changes the segment, so a data directive needs a label on its own
  line. Together with the rejection of labels this makes the first pass reject every content line
  under `.bss` (`Passes.BssContentRejected`); the difference between the passes on `.bss` content
  is therefore unreachable and no theorem here excludes it by hypothesis.
- Labels in the text segment and labels without a directive pass the first pass and fail the
  second (`Agreement.SecondPassFailures`), so every symbol of an assembled program is a data symbol
  (`Agreement.SymbolsAreData`), as the address computation of `la` takes for granted.
- The string handler checks the capacity once before it stores the two bytes of an unknown escape.
  With one byte left the second byte falls outside. The first pass runs every directive on an array
  of exactly the capacity, so there the store is out of bounds: after `a: .space 2047,0` the line
  `b: .string "\q"` reaches it (`Samples.OverrunHappens`). `DataDirectives.Overruns` follows
  the loop; `DataDirectives.OverrunsExactly` says what it comes to: an unknown escape stands at a
  place where exactly one byte of room is left. `Programs.OverrunReached` shows that this decides
  after every program.
- The symbol name of `la` is scanned without a width into a buffer of 64 bytes, so a name of 64 or
  more characters is stored past its end (`Pseudo.Expansion.ExpandPseudo` and `Programs.NameReached`,
  if and only if). No label
  is that long, so such a line is refused (`Agreement.LongNameFails`).
- A source on which either store happens is refused by the first pass
  (`Agreement.FirstPassInBounds`), so the second pass, which comes after a first that succeeded,
  never does it (`Agreement.SecondPassInBounds`).
- Forward references are refused: the first pass expands every pseudo-instruction and so looks its
  symbol up before it has read the lines below. In an assembled source every label is defined before
  each `la` that names it (`Pipeline.DefinedBeforeUse`), so the data has to precede the text that
  refers to it.
- A register number counts modulo 256 and may have a sign: `x+5` is `x5` and `x256` is `x0`
  (`Spellings.AcceptedSpellings`).
- An integer directive without a number is accepted and stores nothing, empty places between commas
  are skipped, and so is what follows a number up to the next comma (`DataNotation.ListRoundTrip`).
- A number of more than 64 bits is read as the nearest one of 64 (`Numerals.IntegerRead`), so `.word`
  accepts it.
- U-type immediates from -2^19 to 2^20-1 are accepted, so they are recovered modulo 2^20
  (`Encoder.RoundTripU`).

## Model

| member | source | states |
|---|---|---|
| CText.ScanPrinted | src/instruction.c:80-151 | a number printed with `%d` is read back by `%li` as itself, whatever non-digit follows, never as octal or hexadecimal |
| Numerals.IntegerRead | src/instruction.c:711-717 | `%li` and `%lli` read white space and a spelling of a number in decimal, octal or hexadecimal with an optional sign, to its end, and store it or the nearest of 64 bits; if and only if |
| Numerals.EveryBase | src/instruction.c:232-237 | every number has such spellings: `0x` and `0X` with digits of either case, a leading `0`, and decimal, each with its sign |
| CText.SpaceIsBlank | src/utils.c:42-76 | white space is exactly the six characters of C |
| InstructionTable.FindByName | gperf/instructions.gperf:13-56 | every row of the table is found under its name |
| InstructionTable.FoundName | gperf/instructions.gperf:13-56 | what a search finds bears the name searched for: the search is exact |
| Encoder.ParseRegister | src/instruction.c:324-439 | the scan of a register operand gives the register its first blank-delimited word names, or the error |
| Encoder.EncodeInstruction | src/instruction.c:542-684 | scanning, range checks, register names in the order of the source and packing give the word of the line, or its first error; `Notation.FormParses` says which operands and errors these are |
| Notation.FormParses | src/instruction.c:542-684 | for every machine instruction, however registers, numbers, blanks and comment are written, the operands are those written, in the roles of the format; a number out of range and then a name that is no register are the only errors |
| Notation.OffsetScanned | src/instruction.c:573-611 | `name reg, imm(base)` is scanned back to its parts, in any spelling and spacing |
| Notation.PairScanned | src/instruction.c:573-611 | `name reg, base` is scanned as two registers and never as an offset |
| Printing.ImplicitOffset | src/instruction.c:573-611 | a load or store without an offset uses its second register as the address, its first as the value, and offset zero |
| Spellings.ByteRead | src/instruction.c:351-353 | `%hhu` to the end of a string reads exactly white space, an optional sign and digits, modulo 256 |
| Spellings.AcceptedSpellings | src/instruction.c:324-439 | an operand is accepted for a register if and only if its first word has one to four characters and is a fixed name or a letter with a number in range modulo 256 |
| Encoder.RoundTripR | include/instruction.h:70-72 | decoding an R-type word gives back opcode, both function codes and all three registers |
| Encoder.RoundTripI | include/instruction.h:74-76 | decoding an I-type word gives back opcode, funct3, registers and the sign-extended immediate, whose bits also fill the funct7 field |
| Encoder.RoundTripS | include/instruction.h:78-80 | decoding an S-type word gives back every field and the sign-extended immediate |
| Encoder.RoundTripB | include/instruction.h:82-85 | decoding a B-type word gives back every field and the even branch offset |
| Encoder.RoundTripU | include/instruction.h:87-88 | decoding a U-type word gives back opcode, register and the immediate modulo 2^20 |
| Encoder.RoundTripJ | include/instruction.h:90-92 | decoding a J-type word gives back opcode, register and the even jump offset |
| Encoding.ParsedAccepted | src/instruction.c:542-684 | operands that survive scanning are within the ranges of their format, and even for branches |
| Encoding.PackFields | src/instruction.c:441-527 | for every mnemonic and accepted operands, the word read by the manual's layouts has the row's codes and the operands |
| Encoding.DecodesToNamed | src/instruction.c:558-678 | the word decodes to the instruction the line names if and only if it is not one of two families of right shifts |
| Encoding.SraiAssemblesToSrli | include/instruction.h:74-76 | `srai` gives the word of `srli`, which decodes to the logical shift, for all registers and amounts |
| Encoding.Injective | gperf/instructions.gperf:13-48 | equal words come from equal registers, equal immediates (U modulo 2^20) and the same mnemonic, `srli` and `srai` apart |
| Encoding.NamedInManual | gperf/instructions.gperf:13-48 | the name in the table is the ISA manual's name of the instruction it stands for |
| SymbolTable.Table.InsertSymbol | src/symtable.c:4-21 | appends one entry, or fails and changes nothing, when the table is full or the name taken |
| SymbolTable.Table.LookupSymbol | src/symtable.c:23-32 | the offset of the first entry with the name, or none |
| SymbolTable.Table.SetLastKind | src/instruction.c:1102-1103 | only the kind of the newest entry changes |
| SymbolTable.LookupGrows | src/symtable.c:23-32 | a name that resolves keeps its answer when entries are added |
| SymbolTable.LookupIsMap | src/symtable.c:23-32 | with distinct names the search is application of a partial map |
| SymbolTable.InsertIsMap | src/symtable.c:4-21 | insertion fails exactly when full or taken, otherwise adds one binding and keeps names distinct and the count within 128 |
| SymbolTable.EveryHistory | src/symtable.c:4-32 | over every sequence of inserts and lookups names stay distinct, the count bounded, entries in place and resolved names fixed |
| Pseudo.Expansion.Add | src/instruction.c:50-63 | at most two lines; a third is refused and changes nothing |
| Pseudo.Expansion.ExpandLi | src/instruction.c:80-116 | the lines of `li`, whose meaning is `Expansions.LiRuns` |
| Pseudo.Expansion.ExpandLa | src/instruction.c:118-151 | the lines of `la`, whose meaning is `Expansions.LaRuns` |
| Pseudo.Expansion.ExpandPair | src/instruction.c:153-216 | the line of `mv`, `neg`, `not`, `seqz` or `snez`, whose meaning is `Expansions.PairRuns` |
| Pseudo.Expansion.ExpandPseudo | src/instruction.c:218-322 | which expansion a line has, or which error, with every error path; stores past the symbol name's buffer if and only if the line is an `la` whose name has 64 or more characters |
| Pseudo.EncodeExpansion | src/instruction.c:686-698 | the words of all lines in order and the counter advanced by four for each, or the first error |
| Expansions.SplitFits | src/instruction.c:92-113 | for every 32-bit value lo is in [-2048, 2047], hi in [-2^19, 2^19-1], and hi * 4096 + lo is the value modulo 2^32 |
| Expansions.ReparseU | src/instruction.c:99-99 | a printed U-type line is scanned back to its register and number |
| Expansions.ReparseI | src/instruction.c:111-111 | a printed immediate line is scanned back to both registers and its number |
| Expansions.ReparseR | src/instruction.c:164-173 | a printed register line is scanned back to its three registers |
| Expansions.LiEncodes | src/instruction.c:80-116 | every `li` of a 32-bit value encodes whenever its register is valid, to the expected instructions |
| Expansions.LiRuns | src/instruction.c:80-116 | running `li` from any state sets the register to the value modulo 2^32 and changes nothing else |
| Expansions.LiShortest | src/instruction.c:83-115 | one instruction exactly for 12-bit values and multiples of 4096; otherwise no single `lui` or `addi` gives the value |
| Expansions.LaEncodes | src/instruction.c:118-151 | every `la` of every address encodes whenever its register is valid |
| Expansions.LaRuns | src/instruction.c:118-151 | running `la` at its address sets the register to the target address and changes nothing else |
| Expansions.PairEncodes | src/instruction.c:153-216 | with comma-free operands each one-line expansion encodes to its instruction |
| Expansions.PairRuns | src/instruction.c:153-216 | running it has the effect chapter 25 of the manual gives the pseudo-instruction |
| Commas.CommaAccepted | src/instruction.c:159-159 | an accepted operand with a comma is a two-character register and a digit, and the digit becomes the immediate |
| Commas.CommaExactly | src/instruction.c:159-159 | exactly which operands with a comma the encoder accepts |
| Storage.LittleEndianValue | src/instruction.c:700-731 | the first n bytes of an integer stand for it modulo 256^n, also when it is negative |
| DataDirectives.HandleInteger | src/instruction.c:700-731 | appends the list's image at the current size and leaves earlier bytes alone, or fails |
| DataDirectives.Store | src/instruction.c:748-779 | one byte stored at the current size, or outside the array when there is no room |
| DataDirectives.WriteCharacter | src/instruction.c:754-773 | one turn of the string loop stores the one or two bytes of the next character, touches nothing before them, and stores outside exactly when they pass the end of the array |
| DataDirectives.WriteText | src/instruction.c:747-774 | the string loop writes the unescaped text, or stops for lack of capacity; stores past a buffer of exactly the capacity if and only if the text overruns the room left |
| DataDirectives.HandleString | src/instruction.c:733-788 | appends the unescaped string and a zero, or fails; stores past a buffer of exactly the capacity if and only if its text overruns the room left, and then fails |
| DataDirectives.HandleSpace | src/instruction.c:790-821 | appends the filled space, or fails |
| DataDirectives.ParseDirective | src/instruction.c:823-837 | every directive appends its own image and nothing else, or reports its error; only string directives store outside, exactly when they overrun |
| DataDirectives.DirectiveFits | src/instruction.c:823-837 | a directive that succeeds takes no more than the room left |
| DataDirectives.RoomOnlyLimits | src/instruction.c:823-837 | the room left decides only whether the image fits, never what it is |
| DataDirectives.FittingString | src/instruction.c:748-782 | a string that fits with its zero never overruns |
| DataDirectives.OverrunFails | src/instruction.c:748-782 | a directive that overruns is refused for lack of capacity |
| DataDirectives.OverrunsExactly | src/instruction.c:748-782 | a text overruns the room left if and only if an unknown escape stands on an escape boundary at which the text before it leaves exactly one byte |
| DataDirectives.ListIsStored | src/instruction.c:700-731 | the numbers read back from an integer list's bytes are the listed ones modulo 256^step, in order |
| DataDirectives.UnescapeEscape | src/instruction.c:748-774 | unescaping undoes escaping on every string |
| DataDirectives.StringRoundTrip | src/instruction.c:733-788 | an escaped, quoted string assembles to its bytes and a zero exactly when they fit |
| DataDirectives.EveryStringName | src/instruction.c:828-830 | under each of its three names an escaped, quoted string assembles to its bytes and a zero exactly when they fit |
| DataDirectives.OtherNames | src/instruction.c:823-837 | every other directive is refused as unknown |
| Printing.NumberedRegister | src/instruction.c:350-439 | `x`, `a`, `s` and `t` names with their number give the register the ABI assigns |
| Printing.RegisterNames | src/instruction.c:324-439 | every register is read back from its ABI name and from its number |
| Printing.ShowParses | src/instruction.c:542-684 | every mnemonic with every accepted operands, written as a line, is parsed back to the same operands |
| Printing.ShowAssembles | src/instruction.c:542-684 | the written line encodes, and decodes to the instruction written except for the misencoded right shifts |
| Printing.ShowText | src/instruction.c:892-964 | the written line is an accepted text line of one word at every offset |
| DataNotation.ListRoundTrip | src/instruction.c:700-731 | a written list of integers, in any spelling and with empty places, assembles exactly when it fits, to the same numbers modulo 256^step, and is refused for lack of capacity otherwise |
| DataNotation.SpaceRoundTrip | src/instruction.c:790-821 | written space assembles to that many fill bytes, zero without a fill; a negative count, a fill that is no byte and a lack of capacity are the errors |
| DataNotation.BadNumber | src/instruction.c:711-809 | the first token that is no number ends a list in an error, unless the numbers before it already fill the room; as a count or fill byte it is an error, and so is a missing count |
| DataNotation.UnescapePieces | src/instruction.c:748-774 | plain characters and the five escapes give one byte each, an unknown escape its two characters and a last backslash itself |
| DataNotation.EveryText | src/instruction.c:748-774 | every text is made of such pieces, so the bytes of every text are known |
| DataNotation.QuotedText | src/instruction.c:735-744 | the text runs from the first quote to the last, whatever stands before and after |
| DataNotation.Unquoted | src/instruction.c:735-744 | without two quotes there is no text, and that is a parse error |
| DataNotation.StringForm | src/instruction.c:828-830 | `.string`, `.asciz` and `.asciiz` give the bytes of their pieces and a zero exactly when they fit, and overrun exactly when the text does |
| DataNotation.LabelRoundTrip | src/instruction.c:1073-1113 | a label of fewer than 64 bytes and the content after any blanks are told apart again |
| DataNotation.LongLabel | src/instruction.c:1077-1083 | a label of 64 to 254 characters is cut to its first 63 |
| Passes.LabelIsNoInstruction | src/instruction.c:904-913 | a line with a label never starts with a known mnemonic |
| Passes.ExpandLength | src/instruction.c:1137-1143 | the number of words of an expansion is one or two and does not depend on symbols, sizes or addresses |
| Passes.BssContentRejected | src/instruction.c:1146-1172 | the first pass rejects every content line under `.bss` |
| Lines.TrimAround | src/utils.c:54-84 | trimming cuts the blanks before and after a line and nothing else |
| Lines.BlanksAround | src/instruction.c:1012-1059 | blanks around a line make no difference to either pass |
| Lines.NothingToDo | src/utils.c:42-52 | blank lines and comments change nothing in either pass |
| Lines.SegmentSwitch | src/instruction.c:1017-1022 | a line that starts with a dot changes the segment to the rest of it, and nothing else |
| Lines.BssSkipped | src/instruction.c:966-973 | the second pass skips what stands under `.bss` |
| Lines.UnknownMnemonic | src/instruction.c:1124-1130 | a first word that is no mnemonic ends either pass with the same error |
| Lines.UnknownSegment | src/instruction.c:975-992 | content in a segment of an unknown name is refused by both passes |
| Agreement.LineAgrees | src/instruction.c:1057-1181 | one line both passes accept keeps segment, text offset and data offset equal |
| Agreement.PassesAgree | src/instruction.c:1011-1031 | on every source both passes accept, and so on every prefix, they hold the same segment and offsets, aligned and within capacity |
| Agreement.LabelledTextFails | src/instruction.c:904-913 | a labelled text line fails in the second pass in every state |
| Agreement.SymbolsGrow | src/instruction.c:1096-1103 | the symbols of a prefix are a prefix of the symbols |
| Agreement.SecondPassFailures | src/instruction.c:892-964 | after a successful first pass a line fails in the second if and only if it is a labelled text line, a bare data label, refused by the encoder or past the capacity |
| Agreement.AllNamesShort | src/instruction.c:1073-1103 | every name in the table has fewer than 64 characters |
| Agreement.LongNameFails | src/instruction.c:242-256 | an `la` whose name stores past its buffer is refused by the first pass |
| Agreement.FirstPassInBounds | src/instruction.c:1115-1181 | on a source it accepts the first pass never stores past its scratch buffer or the symbol name's buffer |
| Agreement.SecondPassInBounds | src/instruction.c:878-951 | after a successful first pass the second never stores past the data segment or the symbol name's buffer |
| Agreement.SymbolsAreData | src/instruction.c:250-258 | every symbol of an assembled program is a data symbol whose directive's bytes lie at its offset |
| Listings.TextIsListing | src/instruction.c:892-964 | at every point the text is the little-endian words of the lines so far, a multiple of four bytes, within capacity |
| Listings.SameImage | src/instruction.c:839-890 | a directive gives the same bytes wherever in the segment it stands |
| Listings.DataIsListing | src/instruction.c:839-890 | the data segment is the images of the directives in source order, within capacity |
| Source.LineCompiled | src/instruction.c:892-964 | the words of an accepted, meaningful line decode to the code of its statement |
| Source.LineNamed | gperf/instructions.gperf:13-56 | a line means a statement of the name it starts with, the names being those of the ISA manual |
| Source.LineFaithful | src/instruction.c:892-964 | executing them has the line's effect from every state if and only if no arithmetic shift is lost |
| Source.AcceptedMeaning | src/instruction.c:542-684 | an accepted line lacks a meaning if and only if its shift amount is out of range or its source operand contains a comma |
| Source.LostShift | gperf/instructions.gperf:29-29 | concrete accepted lines whose shift is lost |
| Source.MoveWithComma | src/instruction.c:263-269 | `mv a0, a1,5` is accepted and decodes to an addition of five |
| Simulation.CodeRuns | src/instruction.c:892-964 | fetching, decoding and executing a statement's words from memory is executing its code |
| Simulation.LinePlaced | src/instruction.c:892-964 | a line's words lie in the final text at the offset the first pass counted |
| Simulation.EveryLineFound | src/instruction.c:1115-1145 | every line of code starts at an offset of its own |
| Simulation.LineSimulated | src/instruction.c:892-964 | from any state with the text in memory one or two machine steps do what the line was assembled to, stopping included, which is what the line means unless its shift is lost; the text stays in place unless the line stores into it |
| Simulation.SameRun | src/instruction.c:994-1036 | a run that executes no lost shift is the same as assembled and as written |
| Simulation.RunSimulated | src/instruction.c:994-1036 | every run of n lines as assembled is a machine run of n to 2n steps to the same state, and it is the source's own run unless it executes a lost shift |
| Elf.Ehdr.FillIdent | src/writer.c:42-56 | the sixteen identification bytes, as numbers |
| Elf.Ehdr.Fill | src/writer.c:58-76 | the bytes of the ELF header, read back in `ElfLoading.HeaderFields` |
| Elf.Phdr.Fill | src/writer.c:78-88 | the bytes of the program header, read back in `ElfLoading.ProgramFields` |
| Elf.Shdr.Fill | src/writer.c:90-100 | the seven fields of a section header |
| Elf.FillSections | src/writer.c:122-140 | the bytes of the five section headers in order |
| Elf.Write | src/writer.c:102-207 | the successive writes produce the file whose layout `ElfLoading.FileTiles` describes |
| ElfLoading.FileTiles | src/writer.c:115-118 | headers, text, data, names and section headers tile the file without gap or overlap |
| ElfLoading.HeaderFields | src/writer.c:58-76 | a reader that checks magic number, class, byte order, version, type and machine accepts the file and finds every field of the header |
| ElfLoading.FileMarked | src/writer.c:42-56 | the file starts with the identification of a 32-bit little-endian ELF file, and with another class or byte order it would not load |
| ElfLoading.ProgramFields | src/writer.c:78-88 | a reader finds the one load segment from file offset zero at the base address: all eight fields of the program header |
| ElfLoading.SegmentAligned | src/writer.c:78-88 | p_vaddr and p_offset are congruent modulo p_align if and only if the base address is a multiple of 4096, as both bases of the program are |
| ElfLoading.FileLoads | src/writer.c:102-215 | loading the file puts text, data and zeros for `.bss` at the addresses the expander uses and starts at the text |
| ElfLoading.SectionsRead | src/writer.c:120-140 | reading the section table gives the five sections |
| ElfLoading.SectionsNamed | src/writer.c:106-140 | every section's name is the NUL-terminated string found through the header's string table index, character by character |
| ElfLoading.SectionsDescribeFile | src/writer.c:120-140 | types, flags, alignments and sizes of the five sections; `.text` and `.data` cover exactly the segments, and sh_addr - p_vaddr equals sh_offset - p_offset for allocated sections |
| Assembler.SkipBlanks | src/instruction.c:848-851 | the first position from which no white space leads |
| Assembler.SkipLabel | src/instruction.c:848-864 | the position after leading white space, a label and the white space after it |
| Assembler.Context.EncodePseudo | src/instruction.c:917-934 | the one or two words of a pseudo-instruction, or its error, and whether its symbol name was stored past its buffer |
| Assembler.Context.EncodeLine | src/instruction.c:899-951 | the one or two words of a text line, or its error, and whether a symbol name was stored past its buffer |
| Assembler.Context.CopyText | src/instruction.c:953-963 | copies all bytes, or fails at the capacity leaving the offset and the bytes before it |
| Assembler.Context.ProcessSegmentText | src/instruction.c:892-964 | appends a line's words to the text; a failing line leaves the offset and the bytes before it; stores past the symbol name's buffer exactly when the line overruns |
| Assembler.Context.ProcessSegmentData | src/instruction.c:839-890 | appends a directive's image to the data; a failing line leaves the offset and the bytes before it; stores outside the segment exactly when the directive overruns |
| Assembler.Context.ProcessLine | src/instruction.c:975-992 | dispatch on the segment; `.bss` changes nothing and an unknown name is an error; a store outside happens exactly when the line overruns in its segment |
| Assembler.Context.AssembleFile | src/instruction.c:994-1036 | after the loop the buffers up to the stored sizes are the image of the lines before the failure, or of all; a store outside happens exactly when some line reached overruns |
| Assembler.Context.EnterLabel | src/instruction.c:1073-1103 | enters a line's label with the offset and kind of its segment, or reports the error |
| Assembler.Context.MeasureContent | src/instruction.c:1115-1181 | advances the offset of the current segment by the size of a line; a store outside happens exactly when the line overruns in its segment |
| Assembler.Context.MeasureText | src/instruction.c:1116-1145 | four bytes for every word of a text line, counted without encoding, and whether a symbol name was stored past its buffer |
| Assembler.Context.MeasureData | src/instruction.c:1146-1172 | the size of a directive, found on a buffer of exactly the capacity that is thrown away, and whether it stored outside |
| Assembler.Context.ScanLabels | src/instruction.c:1038-1186 | after the loop the table and sizes are those of the whole source; on an error the sizes are untouched; a store outside the scratch buffer or the symbol name's buffer happens exactly when some line reached overruns |
| Pipeline.BuildFile | src/main.c:34-86 | both passes, then the writer when there is text, or the first error; a store past the scratch buffer, the data segment or the symbol name's buffer happens exactly when the first pass reaches a line that overruns, and then the build fails |
| Pipeline.BuiltLoads | src/main.c:34-86 | a built file loads, starts at the text and has both segments in place |
| Pipeline.FileRuns | src/main.c:34-86 | a built file, loaded and started at its entry, simulates every run of its source as assembled, which is the source's own run unless it executes a lost shift |
| Pipeline.LabelResolves | src/instruction.c:1096-1103 | a label resolves to the number of data bytes before its line, and not before that line |
| Pipeline.DefinedBeforeUse | src/instruction.c:254-256 | in an assembled source a label is defined by a line before every `la` that names it |
| Pipeline.DefinedOnce | src/symtable.c:4-21 | no label is defined by two lines of an assembled program |
| Pipeline.DefinitionExists | src/instruction.c:250-258 | every name that resolves is defined by a line of the data segment |
| Pipeline.DirectiveInData | src/instruction.c:839-890 | the bytes of a labelled directive lie in the data segment from its label's offset on |
| Pipeline.LaRunsAt | src/instruction.c:242-261 | at its line's address `la` puts its symbol's address in the register and changes nothing else |
| Pipeline.LaReachesDirective | src/instruction.c:242-261 | in the loaded program the register then points at the bytes of the directive labelled so, and there is one |
| Completeness.TooMany | src/instruction.c:953-963 | a list of more than 512 instructions stops the second pass with the overflow error |
| Completeness.ListBuilds | src/main.c:34-86 | a list of accepted instructions, written one a line, builds exactly when it has at most 512, to the file whose text is their words |
| Completeness.EveryListLoads | src/main.c:34-86 | in the loaded file the word fetched for each instruction decodes to it, misencoded right shifts apart |
| Items.ItemMeans | src/instruction.c:218-322 | every line of every mnemonic, however it is spelled and spaced, means the statement it is written for |
| Items.ItemOutcome | src/instruction.c:892-964 | such a line assembles at every offset to its number of words, or ends in the error of its operands: a number out of range, an unknown symbol or a name that is no register |
| Items.MissingOperands | src/instruction.c:558-678 | a mnemonic that takes operands and has none is a parse error |
| Items.LongName | src/instruction.c:242-246 | exactly an `la` of a name of 64 characters or more is stored past the name's buffer |
| Programs.DatumFits | src/instruction.c:823-837 | every written directive gives its bytes when they fit and is refused when they do not: the characters and a zero, the fill repeated, or bytes that store the listed numbers modulo 256^step |
| Programs.DatumCounted | src/instruction.c:1073-1172 | in the first pass a written data line is refused if the table holds 128 labels, if its label is taken or if its bytes do not fit, and otherwise enters its label at the current offset |
| Programs.ProgramScans | src/instruction.c:1038-1186 | the first pass accepts a written program exactly when its data fits, with each label at the sum of the sizes before it |
| Programs.ProgramAssembles | src/instruction.c:994-1036 | the second pass accepts it exactly when its text fits |
| Programs.ProgramBuilds | src/main.c:34-86 | a written program builds exactly when both its segments fit in 2048 bytes, and then there is a file exactly when it has text |
| Programs.ProgramMeans | src/instruction.c:892-964 | in a built program the statement at every line's address is the one the line is written for |
| Programs.LaFindsDatum | src/instruction.c:242-261 | in every built program, loaded from its file, every `la` puts in the register the address of the bytes of its directive, which are the text, space or numbers it was written with |
| Programs.OverrunReached | src/instruction.c:1161-1165 | after every program whose data fits a string directive of any name makes the first pass store outside exactly when its text overruns the room left |
| Programs.NameReached | src/instruction.c:242-246 | and a text line makes it store outside exactly when it is an `la` of a name of 64 characters or more |
| Samples.OverrunHappens | src/instruction.c:1161-1165 | a source of three lines on which the first pass stores outside its buffer |
| Samples.SampleBuilds | src/main.c:34-86 | a source with comments, a blank line, `.asciiz` and `la` that builds at every base address |

## Left out

- File access, the command line, logging, error texts and the `PICO_BUILD` paths: the source is a sequence of lines and the output a sequence of bytes.
- The gperf hash function: the search is by exact name.
- General `sscanf`: only the conversions of the formats in use are modelled; `%li` clamps to 64 bits, `%hhu` reduces modulo 256.
- `ret` and J-type rows: the table has none, so `Encoder.RoundTripJ` is about packing alone.
- Section alignment: `sh_addralign` is 0x1000 although addresses follow the 84 header bytes, so the gABI alignment rule does not hold and is not claimed.
- `.bss` contents: no content line is accepted under `.bss`, so its size is zero in a built file; the writer is nevertheless modelled for any size.
- `print_code` and the host byte-order check.
- Pipeline.FileRuns: says nothing of runs that jump into the middle of a line's code, store into the text or reach an accepted line without a meaning (`Source.LooseLine`, for instance `mv a0, a1,5` or `slli` by 40), since the source machine stops there, nor of what an environment call does.
- Pipeline.LaReachesDirective: asks for a register other than `x0`, which cannot hold an address.
- Notation.FormParses: describes operands followed by blanks and a comment; other text after the last operand, which the scanner ignores or cuts, is not described.
