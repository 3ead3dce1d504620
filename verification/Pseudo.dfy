/**
  The pseudo-instruction expander: every pseudo-instruction is printed as one or two lines of
  machine instructions, which the encoder then reads back.
 */
module Pseudo {
  import opened Bits
  import opened CText
  import opened Errors
  import opened InstructionTable
  import opened Encoder
  import opened Layout
  import SymbolTable

  /** What the expander knows of the program: load base, symbols and the size of the text segment. */
  datatype Env = Env(base: Word, symbols: seq<SymbolTable.Symbol>, textSize: nat)

  datatype Expanded = Expanded(m: Mnemonic, line: string)

  const LA_FORMAT := SkipWord(Blank(Until(4, ",", Exact(',', Blank(Word(511, End))))))

  // ----- the expansion of each pseudo-instruction -----

  /** `(x << 20) >> 20` on `int32_t`. */
  function Lo12(x: int): int {
    ToInt32(x * 0x10_0000) / 0x10_0000
  }

  /** `(x - lo) >> 12` on `int32_t`. */
  function Hi20(x: int): int {
    ToInt32(x - Lo12(x)) / 0x1000
  }

  /** The formats `name %s, %d`, `name %s, %s, %d` and `name %s, %s, %s` of the printed lines. */
  function LineU(m: Mnemonic, rd: string, imm: int): (x: Expanded)
    ensures x.m == m
  {
    Expanded(m, NameOf(m) + " " + rd + ", " + PrintInt(imm))
  }

  function LineI(m: Mnemonic, rd: string, rs1: string, imm: int): (x: Expanded)
    ensures x.m == m
  {
    Expanded(m, NameOf(m) + " " + rd + ", " + rs1 + ", " + PrintInt(imm))
  }

  function LineR(m: Mnemonic, rd: string, rs1: string, rs2: string): (x: Expanded)
    ensures x.m == m
  {
    Expanded(m, NameOf(m) + " " + rd + ", " + rs1 + ", " + rs2)
  }

  function LiLines(rd: string, imm64: int): seq<Expanded> {
    var imm := ToInt32(imm64);
    if -0x800 <= imm <= 0x7FF then [LineI(Addi, rd, "zero", imm)]
    else if Lo12(imm) != 0 then [LineU(Lui, rd, Hi20(imm)), LineI(Addi, rd, rd, Lo12(imm))]
    else [LineU(Lui, rd, Hi20(imm))]
  }

  function LaLines(rd: string, symbol: Word, pc: Word): seq<Expanded> {
    var offset := ToInt32(symbol - Signed(pc));
    [LineU(Auipc, rd, Hi20(offset)), LineI(Addi, rd, rd, Lo12(offset))]
  }

  /** The pseudo-instructions with one register source. */
  predicate IsPair(m: Mnemonic) {
    m in {Mv, Neg, Not, Seqz, Snez}
  }

  /** Their expansion, from the operand text. */
  function PairLine(m: Mnemonic, rd: string, rs: string): Result<seq<Expanded>> {
    match m
    case Mv => Ok([LineI(Addi, rd, rs, 0)])
    case Neg => Ok([LineR(Sub, rd, "zero", rs)])
    case Not => Ok([LineI(Xori, rd, rs, -1)])
    case Seqz => Ok([LineI(Sltiu, rd, rs, 1)])
    case Snez => Ok([LineR(Sltu, rd, "zero", rs)])
    case _ => Err(UnknownPseudo)
  }

  /** `expand_pseudo_instr` */
  function Expand(env: Env, m: Mnemonic, line: string, pc: Word): Result<seq<Expanded>> {
    if m == Li then ExpandLiLine(line)
    else if m == La then ExpandLaLine(env, line, pc)
    else if m == Nop then Ok([LineI(Addi, "zero", "zero", 0)])
    else if IsPair(m) then
      match Sscanf(line, PAIR_FORMAT)
      case Text(rd, Text(rs, NoMore)) => PairLine(m, rd, rs)
      case _ => Err(ParseError)
    else Err(UnknownPseudo)
  }

  function ExpandLiLine(line: string): Result<seq<Expanded>> {
    match Sscanf(line, U_FORMAT)
    case Text(rd, Number(imm, NoMore)) =>
      var checked :- CheckImmediate(imm, -0x8000_0000, 0x7FFF_FFFF);
      Ok(LiLines(rd, checked))
    case _ => Err(ParseError)
  }

  function ExpandLaLine(env: Env, line: string, pc: Word): Result<seq<Expanded>> {
    match Sscanf(line, LA_FORMAT)
    case Text(rd, Text(name, NoMore)) =>
      (match SymbolTable.Lookup(env.symbols, name)
       case Some(offset) => Ok(LaLines(rd, SymbolVaddr(env, offset), pc))
       case None => Err(SymbolNotFound))
    case _ => Err(ParseError)
  }

  /** The address the expander computes for a symbol: always an offset into the data segment. */
  function SymbolVaddr(env: Env, offset: Word): Word {
    ToWord(DataVaddr(env.base, env.textSize) + offset)
  }

  /** Encoding an expansion line by line, up to the first failure. */
  function EncodeAll(lines: seq<Expanded>): Result<seq<Word>> {
    if lines == [] then Ok([])
    else
      var init :- EncodeAll(lines[..|lines| - 1]);
      var last :- Encode(lines[|lines| - 1].m, lines[|lines| - 1].line);
      Ok(init + [last])
  }

  const NAME_LEN: nat := 64

  /** The symbol name of an `la` line does not fit the expander's buffer with its terminator. */
  predicate NameOverruns(line: string) {
    match Sscanf(line, LA_FORMAT)
    case Text(_, Text(name, _)) => |name| >= NAME_LEN
    case _ => false
  }

  // ----- the expander -----

  class Expansion {
    var lines: seq<Expanded>

    constructor ()
      ensures lines == []
    {
      lines := [];
    }

    method Add(line: Expanded) returns (err: Option<Error>)
      modifies this
      ensures |old(lines)| < 2 ==> err == None && lines == old(lines) + [line]
      ensures |old(lines)| >= 2 ==> err == Some(GeneralError) && lines == old(lines)
    {
      if |lines| >= 2 {
        return Some(GeneralError);
      }
      lines := lines + [line];
      return None;
    }

    method ExpandLi(rd: string, imm64: int) returns (err: Option<Error>)
      requires lines == []
      modifies this
      ensures err == None && lines == LiLines(rd, imm64)
    {
      hide LineU, LineI;
      var imm32 := ToInt32(imm64);
      if -0x800 <= imm32 <= 0x7FF {
        err := Add(LineI(Addi, rd, "zero", imm32));
        return;
      }
      var lo := ToInt32(imm32 * 0x10_0000) / 0x10_0000;
      var hi := ToInt32(imm32 - lo) / 0x1000;
      err := Add(LineU(Lui, rd, hi));
      if err.Some? {
        return;
      }
      if lo != 0 {
        err := Add(LineI(Addi, rd, rd, lo));
      }
    }

    method ExpandLa(rd: string, symbol: Word, pc: Word) returns (err: Option<Error>)
      requires lines == []
      modifies this
      ensures err == None && lines == LaLines(rd, symbol, pc)
    {
      hide LineU, LineI;
      var offset := ToInt32(symbol - Signed(pc));
      var lo := ToInt32(offset * 0x10_0000) / 0x10_0000;
      var hi := ToInt32(offset - lo) / 0x1000;
      err := Add(LineU(Auipc, rd, hi));
      if err.Some? {
        return;
      }
      err := Add(LineI(Addi, rd, rd, lo));
    }

    /** Starts afresh and fills in the expansion of one line; `overrun` when a symbol name is stored
        past its buffer. */
    method ExpandPseudo(env: Env, table: SymbolTable.Table, m: Mnemonic, line: string, pc: Word)
      returns (err: Option<Error>, overrun: bool)
      requires table.Valid() && table.Entries() == env.symbols
      modifies this
      ensures overrun <==> m == La && NameOverruns(line)
      ensures match Expand(env, m, line, pc)
        case Ok(expanded) => err == None && lines == expanded
        case Err(e) => err == Some(e)
    {
      hide PairLine, LiLines, LaLines, Sscanf, SymbolVaddr, PrintInt;
      lines, overrun := [], false;
      if m == Li {
        match Sscanf(line, U_FORMAT) {
          case Text(rd, Number(imm, NoMore)) =>
            if imm < -0x8000_0000 || imm > 0x7FFF_FFFF {
              return Some(InvalidImmediate), false;
            }
            err := ExpandLi(rd, imm);
          case _ => err := Some(ParseError);
        }
      } else if m == La {
        match Sscanf(line, LA_FORMAT) {
          case Text(rd, Text(name, more)) =>
            overrun := |name| >= NAME_LEN;
            if more != NoMore {
              return Some(ParseError), overrun;
            }
            var offset := table.LookupSymbol(name);
            if offset.None? {
              return Some(SymbolNotFound), overrun;
            }
            err := ExpandLa(rd, SymbolVaddr(env, offset.value), pc);
          case _ => err := Some(ParseError);
        }
      } else if m == Nop {
        err := Add(LineI(Addi, "zero", "zero", 0));
      } else if IsPair(m) {
        match Sscanf(line, PAIR_FORMAT) {
          case Text(rd, Text(rs, NoMore)) => err := ExpandPair(m, rd, rs);
          case _ => err := Some(ParseError);
        }
      } else {
        err := Some(UnknownPseudo);
      }
    }

    method ExpandPair(m: Mnemonic, rd: string, rs: string) returns (err: Option<Error>)
      requires lines == [] && IsPair(m)
      modifies this
      ensures err == None && PairLine(m, rd, rs).Ok? && lines == PairLine(m, rd, rs).value
    {
      match m
      case Mv => err := Add(LineI(Addi, rd, rs, 0));
      case Neg => err := Add(LineR(Sub, rd, "zero", rs));
      case Not => err := Add(LineI(Xori, rd, rs, -1));
      case Seqz => err := Add(LineI(Sltiu, rd, rs, 1));
      case Snez => err := Add(LineR(Sltu, rd, "zero", rs));
    }
  }

  /** `encode_pseudo_instr`: `out` receives the words, `counter` advances by four for each. */
  method EncodeExpansion(lines: seq<Expanded>, out: array<Word>, counter: nat)
    returns (err: Option<Error>, next: nat)
    requires |lines| <= out.Length
    modifies out
    ensures match EncodeAll(lines)
      case Ok(words) => err == None && |words| == |lines| && out[..|words|] == words && next == counter + 4 * |words|
      case Err(e) => err == Some(e)
  {
    hide Encode;
    err := None;
    next := counter;
    var i := 0;
    while i < |lines|
      invariant 0 <= i <= |lines|
      invariant EncodeAll(lines[..i]).Ok? && out[..i] == EncodeAll(lines[..i]).value && next == counter + 4 * i
    {
      assert lines[..i + 1][..i] == lines[..i];
      var encoded := EncodeInstruction(lines[i].m, lines[i].line);
      match encoded {
        case Ok(w) =>
          out[i] := w;
          next := next + 4;
        case Err(e) =>
          EncodeFails(lines, i, e);
          return Some(e), next;
      }
      i := i + 1;
    }
    assert lines[..i] == lines;
  }

  lemma {:induction false} EncodeFails(lines: seq<Expanded>, i: nat, e: Error)
    requires i < |lines| && EncodeAll(lines[..i]).Ok?
    requires Encode(lines[i].m, lines[i].line) == Err(e)
    ensures EncodeAll(lines) == Err(e)
    decreases |lines|
  {
    hide Encode;
    var init := lines[..|lines| - 1];
    if i < |lines| - 1 {
      assert init[..i] == lines[..i];
      EncodeFails(init, i, e);
    } else {
      assert init == lines[..i];
    }
  }
}
