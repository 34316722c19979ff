/**
 * The per-section tables of the assembler: symbols, literals, external references
 * and modification entries all share one shape, three parallel lists of names,
 * locations and (for modification entries) widths.
 */
module Symbols {
  import opened Strings

  /** A name with every `=` removed, as symbols and literals are stored. */
  function Strip(s: string): (r: string)
    ensures '=' !in r
    ensures forall c :: c != '=' ==> (c in r <==> c in s)
  {
    Without(s, {'='})
  }

  /** Stripping twice is stripping once. */
  lemma StripIdempotent(s: string)
    ensures Strip(Strip(s)) == Strip(s)
  {
    WithoutAbsent(Strip(s), {'='});
  }

  /** The index of the first entry equal to `name`, or |names| when there is none. */
  function FirstIndex(names: seq<string>, name: string): (k: nat)
    ensures k <= |names|
    ensures k < |names| ==> names[k] == name
    ensures forall j :: 0 <= j < k ==> names[j] != name
    ensures k == |names| <==> name !in names
  {
    if names == [] then 0
    else if names[0] == name then 0
    else 1 + FirstIndex(names[1..], name)
  }

  /** What `search` answers: the location of the first entry named `name`, or -1. */
  function Lookup(names: seq<string>, locs: seq<int>, name: string): (r: int)
    requires |names| == |locs|
    ensures name !in names ==> r == -1
    ensures name in names ==> r == locs[FirstIndex(names, name)]
  {
    var k := FirstIndex(names, name);
    if k < |names| then locs[k] else -1
  }

  /** The locations after the first entry named `name` is moved to `v`; unchanged when
      no entry has that name. */
  function Patch(names: seq<string>, locs: seq<int>, name: string, v: int): (r: seq<int>)
    requires |names| == |locs|
    ensures |r| == |locs|
  {
    var k := FirstIndex(names, name);
    if k < |names| then locs[k := v] else locs
  }

  /** No name occurs twice. */
  predicate Distinct(names: seq<string>)
  {
    forall i, j :: 0 <= i < j < |names| ==> names[i] != names[j]
  }

  /** `getLiteralSize`: one byte for a literal with an `X` anywhere in it, otherwise the
      number of characters left after removing every `C` and quote, when it has a `C`. */
  function LiteralSize(name: string): (n: nat)
    ensures 'X' in name ==> n == 1
    ensures 'X' !in name && 'C' !in name ==> n == 0
    ensures n <= |name|
  {
    if 'X' in name then 1
    else if 'C' in name then |Without(name, {'C', '\''})|
    else 0
  }

  /** A character literal `C'text'` whose text holds no `C`, `X` or quote has the
      length of its text. */
  lemma CharLiteralSize(text: string)
    requires 'C' !in text && 'X' !in text && '\'' !in text
    ensures LiteralSize("C'" + text + "'") == |text|
  {
    var lit := "C'" + text + "'";
    assert lit == ['C', '\''] + text + ['\''];
    assert 'X' !in lit;
    assert lit[0] == 'C';
    WithoutAbsent(text, {'C', '\''});
    WithoutConcat(['C', '\''], text, {'C', '\''});
    WithoutConcat(['C', '\''] + text, ['\''], {'C', '\''});
  }

  lemma {:induction false} WithoutConcat(a: string, b: string, drop: set<char>)
    ensures Without(a + b, drop) == Without(a, drop) + Without(b, drop)
  {
    if a != [] {
      var head: string := if a[0] in drop then [] else [a[0]];
      assert (a + b)[0] == a[0];
      assert (a + b)[1..] == a[1..] + b;
      assert Without(a + b, drop) == head + Without(a[1..] + b, drop);
      WithoutConcat(a[1..], b, drop);
      assert Without(a, drop) == head + Without(a[1..], drop);
    } else {
      assert a + b == b;
    }
  }

  /** The contents of a table at one moment. */
  datatype Table = Table(names: seq<string>, locs: seq<int>, widths: seq<int>)
  {
    /** Every name has its location. */
    predicate Valid()
    {
      |names| == |locs|
    }
  }

  const EmptyTable := Table([], [], [])

  /** The table after `putSymbol(symbol, location)`. */
  function Put(t: Table, symbol: string, location: int): (r: Table)
    requires t.Valid()
    ensures r.Valid() && r.widths == t.widths
  {
    var name := Strip(symbol);
    if name in t.names then t else Table(t.names + [name], t.locs + [location], t.widths)
  }

  /** The table after `putModifSymbol(symbol, location, size)`. */
  function PutModif(t: Table, symbol: string, location: int, size: int): (r: Table)
    requires t.Valid()
    ensures r.Valid()
  {
    Table(t.names + [symbol], t.locs + [location], t.widths + [size])
  }

  /** The table after `modifySymbol(symbol, location)`. */
  function Modify(t: Table, symbol: string, location: int): (r: Table)
    requires t.Valid()
    ensures r.Valid() && r.names == t.names && r.widths == t.widths
  {
    t.(locs := Patch(t.names, t.locs, Strip(symbol), location))
  }

  /** `SymbolTable`: one table of a control section. */
  class SymbolTable {
    var symbolList: seq<string>
    var locationList: seq<int>
    var modifSizeList: seq<int>
    /** Tells the tables of a program apart. */
    ghost const id: nat

    /** Every name has its location. */
    predicate Valid()
      reads this
    {
      |symbolList| == |locationList|
    }

    /** The table's contents. */
    function View(): Table
      reads this
    {
      Table(symbolList, locationList, modifSizeList)
    }

    constructor (ghost id: nat)
      ensures Valid()
      ensures View() == EmptyTable && this.id == id
    {
      this.id := id;
      symbolList, locationList, modifSizeList := [], [], [];
    }

    /** Adds `symbol` without its `=` signs at `location`, unless that name is present. */
    method PutSymbol(symbol: string, location: int)
      requires Valid()
      modifies this
      ensures Valid()
      ensures Strip(symbol) in old(symbolList) ==>
        symbolList == old(symbolList) && locationList == old(locationList)
      ensures Strip(symbol) !in old(symbolList) ==>
        symbolList == old(symbolList) + [Strip(symbol)] && locationList == old(locationList) + [location]
      ensures modifSizeList == old(modifSizeList)
      ensures View() == Put(old(View()), symbol, location)
    {
      var inputSymbol := symbol;
      ContainsChar(symbol, '=');
      if Contains(symbol, "=") {
        inputSymbol := Strip(inputSymbol);
      } else {
        WithoutAbsent(symbol, {'='});
      }
      if inputSymbol !in symbolList {
        symbolList := symbolList + [inputSymbol];
        locationList := locationList + [location];
      }
    }

    /** Appends a modification entry, duplicates included. */
    method PutModifSymbol(modifSymbol: string, location: int, modifSize: int)
      requires Valid()
      modifies this
      ensures Valid()
      ensures symbolList == old(symbolList) + [modifSymbol]
      ensures locationList == old(locationList) + [location]
      ensures modifSizeList == old(modifSizeList) + [modifSize]
      ensures View() == PutModif(old(View()), modifSymbol, location, modifSize)
    {
      symbolList := symbolList + [modifSymbol];
      locationList := locationList + [location];
      modifSizeList := modifSizeList + [modifSize];
    }

    /** Moves the first entry named `symbol` (without its `=` signs) to `newLocation`. */
    method ModifySymbol(symbol: string, newLocation: int)
      requires Valid()
      modifies this
      ensures Valid()
      ensures symbolList == old(symbolList) && modifSizeList == old(modifSizeList)
      ensures locationList == Patch(old(symbolList), old(locationList), Strip(symbol), newLocation)
      ensures View() == Modify(old(View()), symbol, newLocation)
    {
      var inputSymbol := symbol;
      ContainsChar(symbol, '=');
      if Contains(symbol, "=") {
        inputSymbol := Strip(inputSymbol);
      } else {
        WithoutAbsent(symbol, {'='});
      }
      if inputSymbol in symbolList {
        var index := 0;
        while index < |symbolList|
          invariant 0 <= index <= |symbolList|
          invariant forall j :: 0 <= j < index ==> symbolList[j] != inputSymbol
          invariant symbolList == old(symbolList) && locationList == old(locationList)
        {
          if inputSymbol == symbolList[index] {
            symbolList := symbolList[index := inputSymbol];
            locationList := locationList[index := newLocation];
            break;
          }
          index := index + 1;
        }
      }
    }

    /** `search`: the location of the first entry named `symbol`, or -1. */
    method Search(symbol: string) returns (address: int)
      requires Valid()
      ensures symbol !in symbolList ==> address == -1
      ensures symbol in symbolList ==> address == locationList[FirstIndex(symbolList, symbol)]
      ensures address == Lookup(symbolList, locationList, symbol)
    {
      address := 0;
      if symbol in symbolList {
        var index := 0;
        while index < |symbolList|
          invariant 0 <= index <= |symbolList|
          invariant forall j :: 0 <= j < index ==> symbolList[j] != symbol
        {
          if symbol == symbolList[index] {
            address := locationList[index];
            break;
          }
          index := index + 1;
        }
      } else {
        address := -1;
      }
    }

    function GetSymbol(index: nat): string
      reads this
      requires index < |symbolList|
    {
      symbolList[index]
    }

    function GetLocation(index: nat): int
      reads this
      requires index < |locationList|
    {
      locationList[index]
    }

    function GetSize(): nat
      reads this
    {
      |symbolList|
    }

    function GetLiteralSize(index: nat): nat
      reads this
      requires index < |symbolList|
    {
      LiteralSize(symbolList[index])
    }

    function GetModifSize(index: nat): int
      reads this
      requires index < |modifSizeList|
    {
      modifSizeList[index]
    }
  }

  /** After adding a new name, searching it finds its location, and every other
      name is found where it was. */
  lemma {:induction false} LookupAfterPut(names: seq<string>, locs: seq<int>, s: string, v: int, t: string)
    requires |names| == |locs| && s !in names
    ensures Lookup(names + [s], locs + [v], s) == v
    ensures t != s ==> Lookup(names + [s], locs + [v], t) == Lookup(names, locs, t)
  {
    FirstIndexSnoc(names, s, s);
    FirstIndexSnoc(names, s, t);
  }

  lemma {:induction false} FirstIndexSnoc(names: seq<string>, s: string, t: string)
    ensures t in names ==> FirstIndex(names + [s], t) == FirstIndex(names, t)
    ensures t !in names && t == s ==> FirstIndex(names + [s], t) == |names|
  {
    if names != [] {
      assert (names + [s])[1..] == names[1..] + [s];
      FirstIndexSnoc(names[1..], s, t);
    }
  }

  /** Adding only absent names keeps the names distinct. */
  lemma PutKeepsDistinct(names: seq<string>, s: string)
    requires Distinct(names)
    ensures Distinct(if s in names then names else names + [s])
  {
  }

  /** After moving `s`, searching `s` finds the new location when `s` is present and
      -1 otherwise; every other name is found where it was. */
  lemma LookupAfterPatch(names: seq<string>, locs: seq<int>, s: string, v: int, t: string)
    requires |names| == |locs|
    ensures Lookup(names, Patch(names, locs, s, v), s) == if s in names then v else -1
    ensures t != s ==> Lookup(names, Patch(names, locs, s, v), t) == Lookup(names, locs, t)
  {
    var k := FirstIndex(names, s);
    if t != s && t in names {
      assert FirstIndex(names, t) != k;
    }
  }

  /** Moving an entry changes the location of that entry only. */
  lemma PatchOnlyFirst(names: seq<string>, locs: seq<int>, s: string, v: int)
    requires |names| == |locs|
    ensures forall j :: 0 <= j < |locs| && j != FirstIndex(names, s) ==> Patch(names, locs, s, v)[j] == locs[j]
    ensures s in names ==> Patch(names, locs, s, v)[FirstIndex(names, s)] == v
  {
  }
}
