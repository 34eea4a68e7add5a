/** The symbols of one object file, in a stable order: relocations name symbols by position. */
module Symbols {
  import opened Words

  datatype SymbolBinding = Local | Global | Weak | Extern

  const UNDEFINED_SECTION: nat := 0xFFFF_FFFF

  datatype Symbol = Symbol(name: string, binding: SymbolBinding, section: nat, value: u64, defined: bool)

  function NewSymbol(name: string): Symbol {
    Symbol(name, Local, UNDEFINED_SECTION, 0, false)
  }

  /** Position of the first symbol called `name`, or `|symbols|`. */
  function IndexOf(symbols: seq<Symbol>, name: string): (i: nat)
    ensures i <= |symbols|
    ensures i < |symbols| ==> symbols[i].name == name
    ensures forall k :: 0 <= k < i ==> symbols[k].name != name
  {
    if symbols == [] then 0
    else if symbols[0].name == name then 0
    else 1 + IndexOf(symbols[1..], name)
  }

  predicate UniqueNames(symbols: seq<Symbol>) {
    forall i, j :: 0 <= i < j < |symbols| ==> symbols[i].name != symbols[j].name
  }

  function Find(symbols: seq<Symbol>, name: string): Option<Symbol> {
    var i := IndexOf(symbols, name);
    if i < |symbols| then Some(symbols[i]) else None
  }

  /** `findOrAdd`: the table with `name` in it. */
  function WithName(symbols: seq<Symbol>, name: string): (r: seq<Symbol>)
    ensures symbols <= r && IndexOf(symbols, name) < |r| && r[IndexOf(symbols, name)].name == name
  {
    if IndexOf(symbols, name) < |symbols| then symbols else symbols + [NewSymbol(name)]
  }

  /** `addSymbol`: replaces in place, or appends. */
  function WithSymbol(symbols: seq<Symbol>, symbol: Symbol): seq<Symbol> {
    var i := IndexOf(symbols, symbol.name);
    if i < |symbols| then symbols[i := symbol] else symbols + [symbol]
  }

  lemma IndexUnique(symbols: seq<Symbol>, i: nat)
    requires UniqueNames(symbols) && i < |symbols|
    ensures IndexOf(symbols, symbols[i].name) == i
  {
  }

  /** Adding a symbol never renumbers another: every name keeps its position, and a new name gets
      the next one. */
  lemma PositionsStable(symbols: seq<Symbol>, symbol: Symbol, other: string)
    requires UniqueNames(symbols)
    ensures var r := WithSymbol(symbols, symbol);
      && UniqueNames(r) && IndexOf(r, symbol.name) == IndexOf(symbols, symbol.name)
      && r[IndexOf(r, symbol.name)] == symbol
      && (IndexOf(symbols, other) < |symbols| ==> IndexOf(r, other) == IndexOf(symbols, other))
      && (other != symbol.name ==> Find(r, other) == Find(symbols, other))
  {
    var r := WithSymbol(symbols, symbol);
    var i, k := IndexOf(symbols, symbol.name), IndexOf(symbols, other);
    IndexUnique(r, i);
    if k < |symbols| {
      IndexUnique(r, k);
    }
  }

  /** The same for `findOrAdd`, which leaves an existing symbol as it is. */
  lemma NamesStable(symbols: seq<Symbol>, name: string, other: string)
    requires UniqueNames(symbols)
    ensures var r := WithName(symbols, name);
      && UniqueNames(r) && IndexOf(r, name) == IndexOf(symbols, name)
      && (IndexOf(symbols, other) < |symbols| ==> IndexOf(r, other) == IndexOf(symbols, other))
      && (other != name || IndexOf(symbols, name) < |symbols| ==> Find(r, other) == Find(symbols, other))
      && Find(r, name) == Some(if IndexOf(symbols, name) < |symbols| then symbols[IndexOf(symbols, name)] else NewSymbol(name))
  {
    var r := WithName(symbols, name);
    var i, k := IndexOf(symbols, name), IndexOf(symbols, other);
    IndexUnique(r, i);
    if k < |symbols| {
      IndexUnique(r, k);
    }
  }

  /** The table: the symbols and an index from name to position. */
  class SymbolTable {
    var symbols: seq<Symbol>
    var index: map<string, nat>

    ghost predicate Valid()
      reads this
    {
      && UniqueNames(symbols)
      && (forall name :: name in index <==> IndexOf(symbols, name) < |symbols|)
      && (forall name :: name in index ==> index[name] == IndexOf(symbols, name))
    }

    constructor ()
      ensures Valid() && symbols == []
    {
      symbols, index := [], map[];
    }

    method AddSymbol(symbol: Symbol) returns (position: nat)
      requires Valid()
      modifies this
      ensures Valid()
      ensures symbols == WithSymbol(old(symbols), symbol) && position == IndexOf(old(symbols), symbol.name)
    {
      ghost var before := symbols;
      if symbol.name in index {
        position := index[symbol.name];
        symbols := symbols[position := symbol];
      } else {
        position := |symbols|;
        index := index[symbol.name := position];
        symbols := symbols + [symbol];
      }
      IndexFollows(before, symbol, symbols);
    }

    method FindOrAdd(name: string) returns (position: nat)
      requires Valid()
      modifies this
      ensures Valid()
      ensures symbols == WithName(old(symbols), name) && position == IndexOf(old(symbols), name)
    {
      if name in index {
        return index[name];
      }
      position := AddSymbol(NewSymbol(name));
    }

    /** Updates the symbol at a position without renaming it, as through the reference `at` returns. */
    method Update(position: nat, symbol: Symbol)
      requires Valid() && position < |symbols| && symbol.name == symbols[position].name
      modifies this
      ensures Valid() && symbols == old(symbols)[position := symbol]
    {
      ghost var before := symbols;
      symbols := symbols[position := symbol];
      IndexUnique(before, position);
      IndexFollows(before, symbol, symbols);
    }
  }

  lemma IndexFollows(before: seq<Symbol>, symbol: Symbol, after: seq<Symbol>)
    requires UniqueNames(before) && after == WithSymbol(before, symbol)
    ensures UniqueNames(after)
    ensures forall name :: IndexOf(after, name) < |after| <==> IndexOf(before, name) < |before| || name == symbol.name
    ensures forall name :: IndexOf(after, name) < |after| ==> IndexOf(after, name) == IndexOf(before, name)
  {
    PositionsStable(before, symbol, symbol.name);
    forall name
      ensures IndexOf(after, name) < |after| <==> IndexOf(before, name) < |before| || name == symbol.name
      ensures IndexOf(after, name) < |after| ==> IndexOf(after, name) == IndexOf(before, name)
    {
      PositionsStable(before, symbol, name);
    }
  }
}
