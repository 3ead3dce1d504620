/** The symbol table: a bounded array of named offsets, shown to be a partial map that only grows. */
module SymbolTable {
  import opened Bits
  import opened CText

  const MAX_SYMBOLS: nat := 128
  const LABEL_LEN: nat := 64

  datatype SymbolKind = TextSymbol | DataSymbol
  datatype Symbol = Symbol(name: string, offset: Word, kind: SymbolKind)

  // ----- specification: the entries in order -----

  ghost predicate Distinct(symbols: seq<Symbol>) {
    forall i, j :: 0 <= i < j < |symbols| ==> symbols[i].name != symbols[j].name
  }

  ghost predicate WellFormed(symbols: seq<Symbol>) {
    |symbols| <= MAX_SYMBOLS && Distinct(symbols)
  }

  function Lookup(symbols: seq<Symbol>, name: string): Option<Word> {
    if symbols == [] then None
    else if symbols[0].name == name then Some(symbols[0].offset)
    else Lookup(symbols[1..], name)
  }

  /** The part of a name the fixed-size entry keeps. */
  function Stored(name: string): (r: string)
    ensures |name| < LABEL_LEN ==> r == name
  {
    if |name| < LABEL_LEN then name else name[..LABEL_LEN - 1]
  }

  function Insert(symbols: seq<Symbol>, name: string, offset: Word): Option<seq<Symbol>> {
    if |symbols| >= MAX_SYMBOLS || Lookup(symbols, name).Some? then None
    else Some(symbols + [Symbol(Stored(name), offset, TextSymbol)])
  }

  /** The table seen as a partial map. */
  ghost function AsMap(symbols: seq<Symbol>): map<string, Word> {
    if symbols == [] then map[]
    else AsMap(symbols[..|symbols| - 1])[symbols[|symbols| - 1].name := symbols[|symbols| - 1].offset]
  }

  // ----- the table in memory -----

  class Table {
    const symbols: array<Symbol>
    var count: nat

    ghost predicate Valid()
      reads this, symbols
    {
      symbols.Length == MAX_SYMBOLS && count <= MAX_SYMBOLS
    }

    function Entries(): seq<Symbol>
      requires Valid()
      reads this, symbols
    {
      symbols[..count]
    }

    constructor ()
      ensures Valid() && Entries() == [] && fresh(symbols)
    {
      symbols := new Symbol[MAX_SYMBOLS](_ => Symbol("", 0, TextSymbol));
      count := 0;
    }

    method InsertSymbol(name: string, address: Word) returns (ok: bool)
      requires Valid()
      modifies this`count, symbols
      ensures Valid()
      ensures ok == Insert(old(Entries()), name, address).Some?
      ensures Entries() == if ok then Insert(old(Entries()), name, address).value else old(Entries())
    {
      if count >= MAX_SYMBOLS {
        return false;
      }
      for i := 0 to count
        invariant forall k :: 0 <= k < i ==> symbols[k].name != name
      {
        if symbols[i].name == name {
          LookupFound(Entries(), name, i);
          return false;
        }
      }
      LookupMissing(Entries(), name);
      symbols[count] := Symbol(Stored(name), address, TextSymbol);
      count := count + 1;
      return true;
    }

    method LookupSymbol(name: string) returns (r: Option<Word>)
      requires Valid()
      ensures r == Lookup(Entries(), name)
    {
      for i := 0 to count
        invariant forall k :: 0 <= k < i ==> symbols[k].name != name
      {
        if symbols[i].name == name {
          LookupFirst(Entries(), name, i);
          return Some(symbols[i].offset);
        }
      }
      LookupMissing(Entries(), name);
      return None;
    }

    /** Records the segment of the entry just added. */
    method SetLastKind(kind: SymbolKind)
      requires Valid() && count > 0
      modifies symbols
      ensures Valid()
      ensures Entries() == old(Entries())[..count - 1] + [old(Entries())[count - 1].(kind := kind)]
    {
      symbols[count - 1] := symbols[count - 1].(kind := kind);
    }
  }

  // ----- the entries as a map -----

  lemma {:induction false} LookupFirst(symbols: seq<Symbol>, name: string, i: nat)
    requires i < |symbols| && symbols[i].name == name
    requires forall k :: 0 <= k < i ==> symbols[k].name != name
    ensures Lookup(symbols, name) == Some(symbols[i].offset)
  {
    if i > 0 {
      LookupFirst(symbols[1..], name, i - 1);
    }
  }

  lemma {:induction false} LookupFound(symbols: seq<Symbol>, name: string, i: nat)
    requires i < |symbols| && symbols[i].name == name
    ensures Lookup(symbols, name).Some?
  {
    if i > 0 {
      LookupFound(symbols[1..], name, i - 1);
    }
  }

  lemma {:induction false} LookupMissing(symbols: seq<Symbol>, name: string)
    requires forall k :: 0 <= k < |symbols| ==> symbols[k].name != name
    ensures Lookup(symbols, name) == None
  {
    if symbols != [] {
      LookupMissing(symbols[1..], name);
    }
  }

  /** A search that succeeds names an entry. */
  lemma {:induction false} LookupEntry(symbols: seq<Symbol>, name: string)
    requires Lookup(symbols, name).Some?
    ensures exists i ::
      0 <= i < |symbols| && symbols[i].name == name && symbols[i].offset == Lookup(symbols, name).value
  {
    if symbols[0].name != name {
      LookupEntry(symbols[1..], name);
      var i :| 0 <= i < |symbols[1..]| && symbols[1..][i].name == name
               && symbols[1..][i].offset == Lookup(symbols, name).value;
      assert symbols[i + 1] == symbols[1..][i];
    }
  }

  /** A search that succeeds gives the same answer when entries are added. */
  lemma {:induction false} LookupGrows(symbols: seq<Symbol>, more: seq<Symbol>, name: string)
    requires Lookup(symbols, name).Some?
    ensures Lookup(symbols + more, name) == Lookup(symbols, name)
  {
    if symbols[0].name != name {
      assert (symbols + more)[1..] == symbols[1..] + more;
      LookupGrows(symbols[1..], more, name);
    }
  }

  lemma {:induction false} LookupLast(symbols: seq<Symbol>, last: Symbol, name: string)
    ensures Lookup(symbols + [last], name)
         == if Lookup(symbols, name).Some? then Lookup(symbols, name)
            else if last.name == name then Some(last.offset) else None
  {
    if symbols == [] {
      assert symbols + [last] == [last];
    } else {
      assert (symbols + [last])[1..] == symbols[1..] + [last];
      LookupLast(symbols[1..], last, name);
    }
  }

  /** While names are distinct the search computes the map. */
  lemma {:induction false} LookupIsMap(symbols: seq<Symbol>, name: string)
    requires Distinct(symbols)
    ensures Lookup(symbols, name) == if name in AsMap(symbols) then Some(AsMap(symbols)[name]) else None
  {
    if symbols != [] {
      var init, last := symbols[..|symbols| - 1], symbols[|symbols| - 1];
      assert symbols == init + [last];
      LookupIsMap(init, name);
      LookupLast(init, last, name);
      if name == last.name {
        LookupMissing(init, name);
      }
    }
  }

  /** Insertion keeps the table well formed; it fails exactly when full or the name is taken, and
      otherwise adds exactly one binding to the map. */
  lemma InsertIsMap(symbols: seq<Symbol>, name: string, offset: Word)
    requires WellFormed(symbols) && |name| < 64
    ensures var r := Insert(symbols, name, offset);
      && (r == None <==> |symbols| == 128 || name in AsMap(symbols))
      && (r.Some? ==> WellFormed(r.value) && AsMap(r.value) == AsMap(symbols)[name := offset])
  {
    hide Lookup, AsMap, Distinct;
    LookupIsMap(symbols, name);
    if Insert(symbols, name, offset).Some? {
      OneMore(symbols, Symbol(name, offset, TextSymbol));
    }
  }

  lemma OneMore(symbols: seq<Symbol>, last: Symbol)
    requires Distinct(symbols) && Lookup(symbols, last.name).None?
    ensures Distinct(symbols + [last]) && AsMap(symbols + [last]) == AsMap(symbols)[last.name := last.offset]
  {
    hide Lookup;
    assert (symbols + [last])[..|symbols|] == symbols;
    forall i | 0 <= i < |symbols|
      ensures symbols[i].name != last.name
    {
      if symbols[i].name == last.name {
        LookupFound(symbols, last.name, i);
      }
    }
  }

  // ----- every sequence of operations -----

  datatype Operation = InsertOp(name: string, offset: Word) | LookupOp(name: string)

  function Apply(symbols: seq<Symbol>, op: Operation): seq<Symbol> {
    match op
    case InsertOp(name, offset) =>
      (match Insert(symbols, name, offset)
       case Some(s) => s
       case None => symbols)
    case LookupOp(_) => symbols
  }

  function ApplyAll(symbols: seq<Symbol>, ops: seq<Operation>): seq<Symbol>
    decreases |ops|
  {
    if ops == [] then symbols else ApplyAll(Apply(symbols, ops[0]), ops[1..])
  }

  /** Over every sequence of inserts and lookups names stay distinct, the count stays bounded,
      and a name that resolved once resolves to the same offset ever after. */
  lemma {:induction false} EveryHistory(symbols: seq<Symbol>, ops: seq<Operation>, name: string)
    requires WellFormed(symbols)
    requires forall k :: 0 <= k < |ops| ==> |ops[k].name| < 64
    ensures WellFormed(ApplyAll(symbols, ops))
    ensures symbols <= ApplyAll(symbols, ops)
    ensures Lookup(symbols, name).Some? ==> Lookup(ApplyAll(symbols, ops), name) == Lookup(symbols, name)
    decreases |ops|
  {
    if ops != [] {
      var next := Apply(symbols, ops[0]);
      if ops[0].InsertOp? {
        InsertIsMap(symbols, ops[0].name, ops[0].offset);
      }
      if Lookup(symbols, name).Some? && next != symbols {
        assert next == symbols + next[|symbols|..];
        LookupGrows(symbols, next[|symbols|..], name);
      }
      EveryHistory(next, ops[1..], name);
    }
  }
}
