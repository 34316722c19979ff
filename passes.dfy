/**
 * What the two passes of the assembler compute, as functions of the source lines:
 * pass 1 splits the program into control sections, tokenizes every line and fills
 * the symbol, literal, external-reference and modification tables of its section;
 * pass 2 encodes every token and writes the H, D, R, T, M and E records.
 */
module Passes {
  import opened Strings
  import opened Options
  import opened Instructions
  import opened Symbols
  import opened Tokens

  /** The tables and tokens of one control section. */
  datatype Section = Section(symbols: Table, literals: Table, externals: Table, modifs: Table,
                             tokens: seq<TokenView>)
  {
    /** Every name has its location, every modification entry its width. */
    predicate Valid()
    {
      symbols.Valid() && literals.Valid() && externals.Valid() && modifs.Valid()
      && |modifs.widths| == |modifs.names|
    }
  }

  const NewSection := Section(EmptyTable, EmptyTable, EmptyTable, EmptyTable, [])

  /** The state pass 1 carries from line to line. */
  datatype Progress = Progress(sections: seq<Section>, locCounter: int, programNumber: int)
  {
    predicate Valid()
    {
      forall k :: 0 <= k < |sections| ==> sections[k].Valid()
    }

    /** `programNumber` names an existing section. */
    predicate Active()
    {
      0 <= programNumber < |sections|
    }
  }

  const Initial := Progress([], 0, 0)

  // ---------------------------------------------------------------------------
  // Pass 1
  // ---------------------------------------------------------------------------

  /** Opening a section: a line containing `START` or `CSECT` appends a section of empty
      tables and resets the location counter; only `CSECT` moves to the next number. */
  function Opened(pr: Progress, line: string): (o: Progress)
    requires pr.Valid()
    ensures o.Valid()
    ensures Contains(line, "START") || Contains(line, "CSECT") ==>
      o.sections == pr.sections + [NewSection] && o.locCounter == 0
    ensures o.programNumber == if !Contains(line, "START") && Contains(line, "CSECT") then pr.programNumber + 1
                               else pr.programNumber
    ensures !Contains(line, "START") && !Contains(line, "CSECT") ==> o == pr
  {
    if Contains(line, "START") then Progress(pr.sections + [NewSection], 0, pr.programNumber)
    else if Contains(line, "CSECT") then Progress(pr.sections + [NewSection], 0, pr.programNumber + 1)
    else pr
  }

  /** `operateAddress` has no exception: a difference has two operands. */
  predicate Addressable(operand: string)
  {
    operand != "*" && Contains(operand, "-") ==> |Split(operand, '-')| >= 2
  }

  /** `operateAddress`: the location counter for `*`, the difference of the two symbols'
      addresses for `A-B`, and 0 for anything else. */
  function AddressOf(operand: string, loc: int, symbols: Table): int
    requires symbols.Valid() && Addressable(operand)
  {
    if operand == "*" then loc
    else if Contains(operand, "-") then
      var operands := Split(operand, '-');
      Lookup(symbols.names, symbols.locs, operands[0]) - Lookup(symbols.names, symbols.locs, operands[1])
    else 0
  }

  /** `*` is the location counter, `A-B` the distance between two defined symbols, and an
      operand without `-` is 0. */
  lemma AddressOfCases(a: string, b: string, loc: int, symbols: Table)
    requires symbols.Valid() && '-' !in a && '-' !in b && b != ""
    ensures AddressOf("*", loc, symbols) == loc
    ensures Addressable(a + "-" + b) && AddressOf(a + "-" + b, loc, symbols)
      == Lookup(symbols.names, symbols.locs, a) - Lookup(symbols.names, symbols.locs, b)
    ensures a != "*" ==> Addressable(a) && AddressOf(a, loc, symbols) == 0
  {
    var s := a + "-" + b;
    assert s == a + ['-'] + b;
    SplitPair(a, b, '-');
    ContainsChar(s, '-');
    ContainsChar(a, '-');
    assert s[|a|] == '-';
  }

  /** A token whose label is bound: one that is neither empty nor `.`. */
  predicate Labelled(t: TokenView)
  {
    t.labelName != "" && t.labelName != "."
  }

  /** Binding the label of `t` in its section: to `operateAddress` of the operand for
      `EQU`, otherwise to the location counter; a labelled token with a `=` operand also
      registers that literal at 0. */
  function Bind(sec: Section, t: TokenView, loc: int): (r: Section)
    requires sec.Valid() && WellShaped(t)
    requires Labelled(t) && t.operator == Some("EQU") ==> t.operand.Some? && Addressable(t.operand.value[0])
    ensures r.Valid() && r.tokens == sec.tokens && r.externals == sec.externals && r.modifs == sec.modifs
  {
    if !Labelled(t) then sec
    else
      var value := if t.operator.value == "EQU" then AddressOf(t.operand.value[0], loc, sec.symbols) else loc;
      var symbols := Put(sec.symbols, t.labelName, value);
      var literals := if t.operand.Some? && Contains(t.operand.value[0], "=") then Put(sec.literals, t.operand.value[0], 0)
                      else sec.literals;
      sec.(symbols := symbols, literals := literals)
  }

  /** The sum of the sizes of the literals `names`. */
  function LiteralSum(names: seq<string>): (n: nat)
  {
    if names == [] then 0 else LiteralSum(names[..|names| - 1]) + LiteralSize(names[|names| - 1])
  }

  /** Placing the literal pool: each literal of `names` in turn moves to the location
      counter, which then advances by the literal's size. */
  function Place(t: Table, names: seq<string>, loc: int): (r: (Table, int))
    requires t.Valid()
    ensures r.0.Valid() && r.0.names == t.names && r.0.widths == t.widths
  {
    if names == [] then (t, loc)
    else
      var previous := Place(t, names[..|names| - 1], loc);
      var name := names[|names| - 1];
      (Modify(previous.0, name, previous.1), previous.1 + LiteralSize(name))
  }

  /** Placing one more literal of `names`: it moves to where the earlier ones end. */
  lemma PlaceSnoc(t: Table, names: seq<string>, j: nat, loc: int)
    requires t.Valid() && j < |names|
    ensures var p := Place(t, names[..j], loc);
      Place(t, names[..j + 1], loc) == (Modify(p.0, names[j], p.1), p.1 + LiteralSize(names[j]))
  {
    var longer := names[..j + 1];
    assert longer[..|longer| - 1] == names[..j] && longer[|longer| - 1] == names[j];
  }

  /** The index of the first of `names` that occurs in `s`, or |names|. */
  function FirstContained(names: seq<string>, s: string): (k: nat)
    ensures k <= |names|
    ensures k < |names| ==> Contains(s, names[k])
    ensures forall j :: 0 <= j < k ==> !Contains(s, names[j])
  {
    if names == [] then 0
    else if Contains(s, names[0]) then 0
    else 1 + FirstContained(names[1..], s)
  }

  /** A modification entry can be written: an `A-B` operand has two pieces. */
  predicate Modifiable(externals: seq<string>, operand: string)
  {
    FirstContained(externals, operand) < |externals| && Contains(operand, "-") ==> |Split(operand, '-')| >= 2
  }

  /** A token whose first operand pass 1 searches for external references: one with
      operands whose operator is none of `LTORG`, `END` and `EXTREF`. */
  predicate RefersOut(t: TokenView)
  {
    t.operator.Some? && t.operand.Some?
    && t.operator.value != "LTORG" && t.operator.value != "END" && t.operator.value != "EXTREF"
  }

  /** The modification entries of an operand naming an external reference: the first name
      in `externals` occurring in the operand selects a width of 5 for `+` operators and 6
      otherwise, at `loc + 6 - width`; `A-B` adds `+A` and `-B`, anything else `+operand`. */
  function Modification(modifs: Table, externals: seq<string>, operator: string, operand: string, loc: int): (r: Table)
    requires modifs.Valid() && Modifiable(externals, operand)
    ensures r.Valid() && (|modifs.widths| == |modifs.names| ==> |r.widths| == |r.names|)
  {
    if FirstContained(externals, operand) == |externals| then modifs
    else
      var width := if Contains(operator, "+") then 5 else 6;
      var at := loc + (6 - width);
      if Contains(operand, "-") then
        var opSymbols := Split(operand, '-');
        PutModif(PutModif(modifs, "+" + opSymbols[0], at, width), "-" + opSymbols[1], at, width)
      else PutModif(modifs, "+" + operand, at, width)
  }

  /** The table after putting every name of `names` at `location`, in order. */
  function PutAll(t: Table, names: seq<string>, location: int): (r: Table)
    requires t.Valid()
    ensures r.Valid() && r.widths == t.widths
  {
    if names == [] then t else Put(PutAll(t, names[..|names| - 1], location), names[|names| - 1], location)
  }

  /** The directive handling of pass 1: `LTORG`/`END` place the literal pool, `EXTREF`
      registers its operands, and any other operator with operands may record a
      modification entry; returns the section and the location counter. */
  function Direct(sec: Section, t: TokenView, loc: int): (r: (Section, int))
    requires sec.Valid() && WellShaped(t)
    requires t.operator == Some("EXTREF") ==> t.operand.Some?
    requires RefersOut(t) ==> Modifiable(sec.externals.names, t.operand.value[0])
    ensures r.0.Valid() && r.0.tokens == sec.tokens && r.0.symbols == sec.symbols
    ensures r.0.literals.names == sec.literals.names
  {
    if t.operator.None? then (sec, loc)
    else
      var op := t.operator.value;
      if op == "LTORG" || op == "END" then
        var placed := Place(sec.literals, sec.literals.names, loc);
        (sec.(literals := placed.0), placed.1)
      else if op == "EXTREF" then (sec.(externals := PutAll(sec.externals, t.operand.value, 0)), loc)
      else if t.operand.Some? then
        (sec.(modifs := Modification(sec.modifs, sec.externals.names, op, t.operand.value[0], loc)), loc)
      else (sec, loc)
  }

  /** The token `t` can be read into the current section of `o`: a section is open, an
      `EQU` or `EXTREF` has operands, and differences have two operands. */
  predicate ReadOk(o: Progress, t: TokenView)
  {
    o.Valid() && o.Active() && WellShaped(t)
    && var sec := o.sections[o.programNumber];
    && (Labelled(t) && t.operator == Some("EQU") ==> t.operand.Some? && Addressable(t.operand.value[0]))
    && (t.operator == Some("EXTREF") ==> t.operand.Some?)
    && (RefersOut(t) ==> Modifiable(sec.externals.names, t.operand.value[0]))
  }

  /** Reading the token `t` of a line: it joins the current section, its label is bound,
      its directive is carried out and the location counter moves past it. */
  function Read(o: Progress, t: TokenView): (r: Progress)
    requires ReadOk(o, t)
    ensures r.Valid() && r.Active() && r.programNumber == o.programNumber && |r.sections| == |o.sections|
  {
    var p := o.programNumber;
    var sec := o.sections[p].(tokens := o.sections[p].tokens + [t]);
    var done := Direct(Bind(sec, t, o.locCounter), t, o.locCounter);
    Progress(o.sections[p := done.0], done.1 + t.byteSize, p)
  }

  /** `Read` as the three updates of the current section it is made of: the token is
      appended, its label bound, its directive carried out. */
  lemma ReadInSteps(o: Progress, t: TokenView, appended: seq<Section>, bound: seq<Section>,
                    directed: seq<Section>, loc: int)
    requires ReadOk(o, t)
    requires var p := o.programNumber;
      appended == o.sections[p := o.sections[p].(tokens := o.sections[p].tokens + [t])]
    requires bound == appended[o.programNumber := Bind(appended[o.programNumber], t, o.locCounter)]
    requires var done := Direct(bound[o.programNumber], t, o.locCounter);
      directed == bound[o.programNumber := done.0] && loc == done.1
    ensures Read(o, t) == Progress(directed, loc + t.byteSize, o.programNumber)
  {
  }

  /** Pass 1 can process `line`: only the first line contains `START`, the line can be
      tokenized and its token read. */
  predicate StepOk(pr: Progress, line: string, inst: Catalog)
  {
    pr.Valid()
    && (Contains(line, "START") ==> pr.sections == [])
    && Tokenizable(line, inst)
    && var o := Opened(pr, line);
    ReadOk(o, Tokenize(line, inst, o.locCounter))
  }

  /** One iteration of pass 1 on `line`. */
  function Step(pr: Progress, line: string, inst: Catalog): (r: Progress)
    requires StepOk(pr, line, inst)
    ensures r.Valid() && r.Active()
  {
    var o := Opened(pr, line);
    Read(o, Tokenize(line, inst, o.locCounter))
  }

  /** A step opens a section, if the line says so, and reads the line's token there. */
  lemma StepInParts(pr: Progress, line: string, inst: Catalog, o: Progress, t: TokenView)
    requires StepOk(pr, line, inst) && o == Opened(pr, line) && t == Tokenize(line, inst, o.locCounter)
    ensures ReadOk(o, t) && Step(pr, line, inst) == Read(o, t)
  {
  }

  /** Pass 1 can process every line of `lines`. */
  predicate Pass1Ok(lines: seq<string>, inst: Catalog)
  {
    if lines == [] then true
    else Pass1Ok(lines[..|lines| - 1], inst) && StepOk(Pass1(lines[..|lines| - 1], inst), lines[|lines| - 1], inst)
  }

  /** The state after pass 1 has read `lines`. */
  function Pass1(lines: seq<string>, inst: Catalog): (r: Progress)
    ensures r.Valid()
  {
    if lines == [] then Initial
    else
      var before := Pass1(lines[..|lines| - 1], inst);
      if StepOk(before, lines[|lines| - 1], inst) then Step(before, lines[|lines| - 1], inst) else before
  }

  /** The number of lines that open a section. */
  function Openings(lines: seq<string>): nat
  {
    if lines == [] then 0
    else Openings(lines[..|lines| - 1])
         + (if Contains(lines[|lines| - 1], "START") || Contains(lines[|lines| - 1], "CSECT") then 1 else 0)
  }

  /** The number of lines that move to the next section number. */
  function Advances(lines: seq<string>): nat
  {
    if lines == [] then 0
    else Advances(lines[..|lines| - 1])
         + (if !Contains(lines[|lines| - 1], "START") && Contains(lines[|lines| - 1], "CSECT") then 1 else 0)
  }

  /** Pass 1 makes one section per `START`/`CSECT` line, numbers them by the `CSECT` lines,
      and leaves every section's literal table free of `=` and of duplicates. */
  lemma {:induction false} Pass1Sections(lines: seq<string>, inst: Catalog)
    requires Pass1Ok(lines, inst)
    ensures |Pass1(lines, inst).sections| == Openings(lines)
    ensures Pass1(lines, inst).programNumber == Advances(lines)
    ensures lines != [] ==> Pass1(lines, inst).programNumber == |Pass1(lines, inst).sections| - 1
    ensures forall k :: 0 <= k < |Pass1(lines, inst).sections| ==> Pooled(Pass1(lines, inst).sections[k].literals)
  {
    if lines != [] {
      var init := lines[..|lines| - 1];
      var line := lines[|lines| - 1];
      Pass1Sections(init, inst);
      var before := Pass1(init, inst);
      StepPooled(before, line, inst);
    }
  }

  /** Pass 1 can process a prefix of lines it can process. */
  lemma {:induction false} Pass1OkPrefix(lines: seq<string>, n: nat, inst: Catalog)
    requires Pass1Ok(lines, inst) && n <= |lines|
    ensures Pass1Ok(lines[..n], inst)
    decreases |lines|
  {
    if n < |lines| {
      var init := lines[..|lines| - 1];
      Pass1OkPrefix(init, n, inst);
      assert init[..n] == lines[..n];
    } else {
      assert lines[..n] == lines;
    }
  }

  /** Line `i` of lines pass 1 can process opens a section if it says so, and its token
      `t` is then read there: that gives the state after line `i`. */
  lemma Pass1Next(lines: seq<string>, i: nat, inst: Catalog) returns (o: Progress, t: TokenView)
    requires Pass1Ok(lines, inst) && i < |lines|
    ensures Contains(lines[i], "START") ==> Pass1(lines[..i], inst).sections == []
    ensures o == Opened(Pass1(lines[..i], inst), lines[i])
    ensures Tokenizable(lines[i], inst) && t == Tokenize(lines[i], inst, o.locCounter) && ReadOk(o, t)
    ensures Pass1(lines[..i + 1], inst) == Read(o, t)
  {
    Pass1OkPrefix(lines, i + 1, inst);
    assert lines[..i + 1][..i] == lines[..i];
    o := Opened(Pass1(lines[..i], inst), lines[i]);
    t := Tokenize(lines[i], inst, o.locCounter);
    StepInParts(Pass1(lines[..i], inst), lines[i], inst, o, t);
  }

  /** A literal table as pass 1 builds it: names free of `=`, none twice. */
  predicate Pooled(t: Table)
  {
    Distinct(t.names) && forall k :: 0 <= k < |t.names| ==> '=' !in t.names[k]
  }

  lemma PutPooled(t: Table, symbol: string, location: int)
    requires t.Valid() && Pooled(t)
    ensures Pooled(Put(t, symbol, location))
  {
    PutKeepsDistinct(t.names, Strip(symbol));
  }

  lemma StepPooled(pr: Progress, line: string, inst: Catalog)
    requires StepOk(pr, line, inst)
    requires forall k :: 0 <= k < |pr.sections| ==> Pooled(pr.sections[k].literals)
    ensures |Step(pr, line, inst).sections| == |Opened(pr, line).sections|
    ensures forall k :: 0 <= k < |Step(pr, line, inst).sections| ==> Pooled(Step(pr, line, inst).sections[k].literals)
  {
    var o := Opened(pr, line);
    var p := o.programNumber;
    var t := Tokenize(line, inst, o.locCounter);
    var sec := o.sections[p].(tokens := o.sections[p].tokens + [t]);
    assert forall k :: 0 <= k < |o.sections| ==> Pooled(o.sections[k].literals);
    BindPooled(sec, t, o.locCounter);
    var bound := Bind(sec, t, o.locCounter);
    var done := Direct(bound, t, o.locCounter);
    assert Pooled(done.0.literals);
    assert Step(pr, line, inst).sections == o.sections[p := done.0];
  }

  lemma BindPooled(sec: Section, t: TokenView, loc: int)
    requires sec.Valid() && WellShaped(t) && Pooled(sec.literals)
    requires Labelled(t) && t.operator == Some("EQU") ==> t.operand.Some? && Addressable(t.operand.value[0])
    ensures Pooled(Bind(sec, t, loc).literals)
  {
    if Labelled(t) && t.operand.Some? && Contains(t.operand.value[0], "=") {
      PutPooled(sec.literals, t.operand.value[0], 0);
    }
  }

  /** Binding, case by case: a token without a label changes nothing; a new label is bound
      to `operateAddress` of the first operand for `EQU` and to the location counter
      otherwise, a label already present changes no symbol, and every other name keeps its
      location; the first operand is registered as a literal at 0 exactly when the token is
      labelled and that operand contains `=`. */
  lemma BindCases(sec: Section, t: TokenView, loc: int)
    requires sec.Valid() && WellShaped(t)
    requires Labelled(t) && t.operator == Some("EQU") ==> t.operand.Some? && Addressable(t.operand.value[0])
    ensures !Labelled(t) ==> Bind(sec, t, loc) == sec
    ensures var r := Bind(sec, t, loc);
      Labelled(t) && Strip(t.labelName) !in sec.symbols.names ==>
        Lookup(r.symbols.names, r.symbols.locs, Strip(t.labelName))
          == if t.operator == Some("EQU") then AddressOf(t.operand.value[0], loc, sec.symbols) else loc
    ensures var r := Bind(sec, t, loc);
      Labelled(t) && Strip(t.labelName) in sec.symbols.names ==> r.symbols == sec.symbols
    ensures var r := Bind(sec, t, loc);
      forall name :: name != Strip(t.labelName) ==>
        Lookup(r.symbols.names, r.symbols.locs, name) == Lookup(sec.symbols.names, sec.symbols.locs, name)
    ensures Bind(sec, t, loc).literals
      == if Labelled(t) && t.operand.Some? && Contains(t.operand.value[0], "=") then Put(sec.literals, t.operand.value[0], 0)
         else sec.literals
  {
    var r := Bind(sec, t, loc);
    var key := Strip(t.labelName);
    if Labelled(t) && key !in sec.symbols.names {
      var value := if t.operator == Some("EQU") then AddressOf(t.operand.value[0], loc, sec.symbols) else loc;
      assert r.symbols == Table(sec.symbols.names + [key], sec.symbols.locs + [value], sec.symbols.widths);
      forall name | true
        ensures name == key ==> Lookup(r.symbols.names, r.symbols.locs, name) == value
        ensures name != key ==>
          Lookup(r.symbols.names, r.symbols.locs, name) == Lookup(sec.symbols.names, sec.symbols.locs, name)
      {
        LookupAfterPut(sec.symbols.names, sec.symbols.locs, key, value, name);
      }
    }
  }

  /** `BindCases` for a step of pass 1: the token is appended to the current section and no
      other section changes; a new key is bound to `operateAddress` of the first operand
      for `EQU` and otherwise to the location counter, which is the token's own location;
      every other symbol keeps its location; the literal pool gains the first operand
      exactly when the token is labelled and that operand contains `=`. */
  lemma StepBindsLabel(pr: Progress, line: string, inst: Catalog)
    requires StepOk(pr, line, inst)
    ensures var o := Opened(pr, line);
      var p := o.programNumber;
      var t := Tokenize(line, inst, o.locCounter);
      var r := Step(pr, line, inst);
      var before := o.sections[p];
      && r.programNumber == p && |r.sections| == |o.sections|
      && r.sections[p].tokens == before.tokens + [t]
      && (forall k :: 0 <= k < |o.sections| && k != p ==> r.sections[k] == o.sections[k])
      && (Labelled(t) && Strip(t.labelName) !in before.symbols.names ==>
            Lookup(r.sections[p].symbols.names, r.sections[p].symbols.locs, Strip(t.labelName))
              == if t.operator == Some("EQU") then AddressOf(t.operand.value[0], o.locCounter, before.symbols)
                 else t.location)
      && (Labelled(t) ==> t.location == o.locCounter)
      && (forall name :: name != Strip(t.labelName) ==>
            Lookup(r.sections[p].symbols.names, r.sections[p].symbols.locs, name)
              == Lookup(before.symbols.names, before.symbols.locs, name))
      && r.sections[p].literals.names
           == if Labelled(t) && t.operand.Some? && Contains(t.operand.value[0], "=")
              then Put(before.literals, t.operand.value[0], 0).names
              else before.literals.names
  {
    var o := Opened(pr, line);
    var p := o.programNumber;
    var t := Tokenize(line, inst, o.locCounter);
    var withToken := o.sections[p].(tokens := o.sections[p].tokens + [t]);
    BindCases(withToken, t, o.locCounter);
    var bound := Bind(withToken, t, o.locCounter);
    var done := Direct(bound, t, o.locCounter);
    assert Step(pr, line, inst).sections == o.sections[p := done.0];
    assert done.0.symbols == bound.symbols && done.0.literals.names == bound.literals.names;
  }

  /** The location counter after a line: the token's size is added, after the literal
      pool's total size at `LTORG` and `END`. */
  lemma StepAdvances(pr: Progress, line: string, inst: Catalog)
    requires StepOk(pr, line, inst)
    ensures var o := Opened(pr, line);
      var t := Tokenize(line, inst, o.locCounter);
      var lits := Bind(o.sections[o.programNumber], t, o.locCounter).literals;
      Step(pr, line, inst).locCounter
        == o.locCounter + t.byteSize
           + (if t.operator == Some("LTORG") || t.operator == Some("END") then LiteralSum(lits.names) else 0)
  {
    var o := Opened(pr, line);
    var t := Tokenize(line, inst, o.locCounter);
    var sec := o.sections[o.programNumber];
    var withToken := sec.(tokens := sec.tokens + [t]);
    var bound := Bind(withToken, t, o.locCounter);
    assert bound.literals == Bind(sec, t, o.locCounter).literals;
    DirectAdvances(bound, t, o.locCounter);
  }

  lemma DirectAdvances(sec: Section, t: TokenView, loc: int)
    requires sec.Valid() && WellShaped(t)
    requires t.operator == Some("EXTREF") ==> t.operand.Some?
    requires RefersOut(t) ==> Modifiable(sec.externals.names, t.operand.value[0])
    ensures Direct(sec, t, loc).1
      == loc + (if t.operator == Some("LTORG") || t.operator == Some("END") then LiteralSum(sec.literals.names) else 0)
  {
    if t.operator == Some("LTORG") || t.operator == Some("END") {
      PlaceEnd(sec.literals, sec.literals.names, loc);
    }
  }

  lemma {:induction false} PlaceEnd(t: Table, names: seq<string>, loc: int)
    requires t.Valid()
    ensures Place(t, names, loc).1 == loc + LiteralSum(names)
  {
    if names != [] {
      PlaceEnd(t, names[..|names| - 1], loc);
    }
  }

  /** Placing a pool of distinct `=`-free literals puts the k-th one at the location
      counter plus the sizes of the ones before it, and leaves the counter past them all. */
  lemma PlaceLiterals(t: Table, loc: int)
    requires t.Valid() && Pooled(t)
    ensures var placed := Place(t, t.names, loc);
      && placed.1 == loc + LiteralSum(t.names)
      && forall k :: 0 <= k < |t.names| ==> placed.0.locs[k] == loc + LiteralSum(t.names[..k])
  {
    PlacePrefix(t, |t.names|, loc);
    assert t.names[..|t.names|] == t.names;
  }

  lemma {:induction false} PlacePrefix(t: Table, n: nat, loc: int)
    requires t.Valid() && Pooled(t) && n <= |t.names|
    ensures var placed := Place(t, t.names[..n], loc);
      && placed.1 == loc + LiteralSum(t.names[..n])
      && (forall k :: 0 <= k < n ==> placed.0.locs[k] == loc + LiteralSum(t.names[..k]))
      && (forall k :: n <= k < |t.names| ==> placed.0.locs[k] == t.locs[k])
  {
    if n > 0 {
      var names := t.names[..n];
      assert names[..n - 1] == t.names[..n - 1];
      PlacePrefix(t, n - 1, loc);
      var previous := Place(t, t.names[..n - 1], loc);
      var name := t.names[n - 1];
      WithoutAbsent(name, {'='});
      assert Strip(name) == name;
      assert FirstIndex(t.names, name) == n - 1;
      assert previous.0.names == t.names;
      var placed := Place(t, names, loc);
      assert placed.0.locs == previous.0.locs[n - 1 := previous.1];
      assert LiteralSum(t.names[..n]) == LiteralSum(t.names[..n - 1]) + LiteralSize(name);
    }
  }

  /** Outside `LTORG`, `END` and `EXTREF`, a token with operands naming an external
      reference appends one modification entry (two for `A-B`), of width 5 for a `+`
      operator and 6 otherwise, at the location counter plus 6 minus the width; a token
      naming none appends nothing. */
  lemma ModificationEntries(modifs: Table, externals: seq<string>, operator: string, operand: string, loc: int)
    requires modifs.Valid() && Modifiable(externals, operand)
    ensures var r := Modification(modifs, externals, operator, operand, loc);
      var width := if Contains(operator, "+") then 5 else 6;
      var at := loc + 6 - width;
      && ((forall j :: 0 <= j < |externals| ==> !Contains(operand, externals[j])) ==> r == modifs)
      && ((exists j :: 0 <= j < |externals| && Contains(operand, externals[j])) && !Contains(operand, "-") ==>
            r.names == modifs.names + ["+" + operand] && r.locs == modifs.locs + [at]
            && r.widths == modifs.widths + [width])
      && ((exists j :: 0 <= j < |externals| && Contains(operand, externals[j])) && Contains(operand, "-") ==>
            var opSymbols := Split(operand, '-');
            r.names == modifs.names + ["+" + opSymbols[0], "-" + opSymbols[1]] && r.locs == modifs.locs + [at, at]
            && r.widths == modifs.widths + [width, width])
  {
    var k := FirstContained(externals, operand);
    if exists j :: 0 <= j < |externals| && Contains(operand, externals[j]) {
      assert k < |externals|;
    }
  }

  // ---------------------------------------------------------------------------
  // Pass 2
  // ---------------------------------------------------------------------------

  /** The sum of the sizes of `tokens`. */
  function SizeSum(tokens: seq<TokenView>): int
  {
    if tokens == [] then 0 else SizeSum(tokens[..|tokens| - 1]) + tokens[|tokens| - 1].byteSize
  }

  /** The tokens after `makeObjectCode` has run on each in order: the program counter
      passed for the k-th token is the sum of the sizes up to and including it. */
  function EncodeTokens(tokens: seq<TokenView>, inst: Catalog, symbols: Table, literals: Table): (r: seq<TokenView>)
    requires symbols.Valid() && literals.Valid()
    requires forall k :: 0 <= k < |tokens| ==> Encodable(tokens[k], inst)
    ensures |r| == |tokens|
    ensures forall k :: 0 <= k < |tokens| ==> r[k] == tokens[k].(objectCode := r[k].objectCode)
  {
    if tokens == [] then []
    else
      var init := tokens[..|tokens| - 1];
      EncodeTokens(init, inst, symbols, literals) + [Encode(tokens[|tokens| - 1], SizeSum(tokens), inst, symbols, literals)]
  }

  /** The k-th encoded token is the k-th token encoded with the program counter past it. */
  lemma {:induction false} EncodeTokensAt(tokens: seq<TokenView>, inst: Catalog, symbols: Table, literals: Table)
    requires symbols.Valid() && literals.Valid()
    requires forall k :: 0 <= k < |tokens| ==> Encodable(tokens[k], inst)
    ensures forall k :: 0 <= k < |tokens| ==>
      EncodeTokens(tokens, inst, symbols, literals)[k] == Encode(tokens[k], SizeSum(tokens[..k + 1]), inst, symbols, literals)
  {
    if tokens != [] {
      var init := tokens[..|tokens| - 1];
      EncodeTokensAt(init, inst, symbols, literals);
      assert tokens[..|tokens|] == tokens;
      InitPrefixes(tokens);
    }
  }

  /** Encoding token `j` at the program counter past it extends the encoded prefix by
      one token. */
  lemma EncodeStep(views: seq<TokenView>, j: nat, inst: Catalog, symbols: Table, literals: Table,
                   before: seq<TokenView>, pc: int, after: seq<TokenView>)
    requires symbols.Valid() && literals.Valid() && j < |views|
    requires forall k :: 0 <= k < |views| ==> Encodable(views[k], inst)
    requires before == EncodeTokens(views[..j], inst, symbols, literals) + views[j..]
    requires pc == SizeSum(views[..j]) + views[j].byteSize
    requires after == before[j := Encode(before[j], pc, inst, symbols, literals)]
    ensures SizeSum(views[..j + 1]) == SizeSum(views[..j]) + views[j].byteSize
    ensures after == EncodeTokens(views[..j + 1], inst, symbols, literals) + views[j + 1..]
  {
    var done, next := views[..j], views[..j + 1];
    assert next[..j] == done && next[j] == views[j];
    var prefix := EncodeTokens(done, inst, symbols, literals);
    var e := Encode(views[j], SizeSum(next), inst, symbols, literals);
    assert EncodeTokens(next, inst, symbols, literals) == prefix + [e];
    assert |prefix| == j && before[j] == views[j] && SizeSum(next) == pc;
    assert views[j..][1..] == views[j + 1..];
    Replaced(prefix, views[j..], e);
  }

  /** Replacing the first element after `p` in `p + s`. */
  lemma Replaced<T>(p: seq<T>, s: seq<T>, e: T)
    requires s != []
    ensures (p + s)[|p| := e] == p + [e] + s[1..]
  {
  }

  lemma InitPrefixes(tokens: seq<TokenView>)
    requires tokens != []
    ensures forall n :: 0 <= n < |tokens| ==> tokens[..|tokens| - 1][..n] == tokens[..n]
  {
  }

  /** The end of the Text run that starts at token `k` with `size` bytes already in it:
      it stops before a token without size, a `RESW`/`RESB`, or one that would take the
      record past 30 bytes. */
  function RunEnd(tokens: seq<TokenView>, k: nat, size: int): (e: nat)
    requires k <= |tokens|
    ensures k <= e <= |tokens|
    decreases |tokens| - k
  {
    if k == |tokens| then k
    else
      var t := tokens[k];
      if t.byteSize == 0 || t.operator == Some("RESW") || t.operator == Some("RESB") || size + t.byteSize > 30 then k
      else RunEnd(tokens, k + 1, size + t.byteSize)
  }

  /** A Text run holds at most 30 bytes of sized tokens other than `RESW` and `RESB`, and
      it ends at the last token or before one that may not join it. */
  lemma {:induction false} RunShape(tokens: seq<TokenView>, k: nat, size: int)
    requires k <= |tokens| && size <= 30
    ensures var e := RunEnd(tokens, k, size);
      && size + SizeSum(tokens[k..e]) <= 30
      && (forall j :: k <= j < e ==>
            tokens[j].byteSize != 0 && tokens[j].operator != Some("RESW") && tokens[j].operator != Some("RESB"))
      && (e < |tokens| ==>
            || tokens[e].byteSize == 0 || tokens[e].operator == Some("RESW") || tokens[e].operator == Some("RESB")
            || size + SizeSum(tokens[k..e]) + tokens[e].byteSize > 30)
    decreases |tokens| - k
  {
    var e := RunEnd(tokens, k, size);
    if k < |tokens| {
      var t := tokens[k];
      if !(t.byteSize == 0 || t.operator == Some("RESW") || t.operator == Some("RESB") || size + t.byteSize > 30) {
        RunShape(tokens, k + 1, size + t.byteSize);
        SizeSumCons(tokens[k..e]);
        assert tokens[k..e][1..] == tokens[k + 1..e];
      }
    }
  }

  lemma {:induction false} SizeSumCons(tokens: seq<TokenView>)
    requires tokens != []
    ensures SizeSum(tokens) == tokens[0].byteSize + SizeSum(tokens[1..])
  {
    if |tokens| > 1 {
      var init := tokens[..|tokens| - 1];
      SizeSumCons(init);
      assert init[1..] == tokens[1..][..|tokens| - 2];
    }
  }

  /** The text of an object code; a missing one reads `null`. */
  function CodeText(t: TokenView): string
  {
    if t.objectCode.Some? then t.objectCode.value else "null"
  }

  /** The object codes of `tokens`, concatenated. */
  function Codes(tokens: seq<TokenView>): string
  {
    if tokens == [] then "" else Codes(tokens[..|tokens| - 1]) + CodeText(tokens[|tokens| - 1])
  }

  /** The codes of a run grow by the code of the token after it. */
  lemma CodesNext(tokens: seq<TokenView>, j: nat, k: nat)
    requires j <= k < |tokens|
    ensures Codes(tokens[j..k + 1]) == Codes(tokens[j..k]) + CodeText(tokens[k])
  {
    assert tokens[j..k + 1][..k - j] == tokens[j..k];
  }

  /** A Text record: `T`, the start location, the length of the run and its codes. */
  function TextRecord(tokens: seq<TokenView>, j: nat, e: nat): string
    requires j < e <= |tokens|
  {
    "T" + FormatHex(tokens[j].location, 6) + FormatHex(SizeSum(tokens[j..e]), 2) + Codes(tokens[j..e])
  }

  /** The Header record of a section: `H`, its name, a blank, the start address and the
      size of its tokens and literals less the start. */
  function HeaderRecord(literals: Table, tokens: seq<TokenView>, t: TokenView): string
    requires |tokens| >= 1
  {
    var start := tokens[0].location;
    var programSize := SizeSum(tokens) + LiteralSum(literals.names);
    "H" + t.labelName + " " + FormatHex(start, 6) + FormatHex(programSize - start, 6)
  }

  /** Each name followed by its address in the symbol table. */
  function DefineEntries(names: seq<string>, symbols: Table): string
    requires symbols.Valid()
  {
    if names == [] then ""
    else DefineEntries(names[..|names| - 1], symbols) + names[|names| - 1]
         + FormatHex(Lookup(symbols.names, symbols.locs, names[|names| - 1]), 6)
  }

  /** The names, concatenated. */
  function Concat(names: seq<string>): string
  {
    if names == [] then "" else Concat(names[..|names| - 1]) + names[|names| - 1]
  }

  /** The characters of `s` as two hex digits each. */
  function CharCodes(s: string): string
  {
    if s == [] then "" else CharCodes(s[..|s| - 1]) + FormatHex(s[|s| - 1] as int, 2)
  }

  /** The data of a literal: a hex literal's digits, a character literal's characters in
      hex, anything else as written. */
  function LiteralData(name: string): string
  {
    if Contains(name, "X") then Without(name, {'X', '\''})
    else if Contains(name, "C") then CharCodes(Without(name, {'C', '\''}))
    else name
  }

  /** The data of the literals `names`, concatenated. */
  function LiteralCodes(names: seq<string>): string
  {
    if names == [] then "" else LiteralCodes(names[..|names| - 1]) + LiteralData(names[|names| - 1])
  }

  /** The Text record of the literal pool at an `LTORG` or `END` token. */
  function LiteralRecord(t: TokenView, literals: Table): string
  {
    "T" + FormatHex(t.location, 6) + FormatHex(LiteralSum(literals.names), 2) + LiteralCodes(literals.names)
  }

  /** The tokens of a section can be written: each is parsed-shaped; `EXTDEF`/`EXTREF`
      have operands; an instruction token is sized between 1 and 30 bytes and is no
      `RESW`/`RESB`, so that its Text run is never empty. */
  predicate RecordsOk(tokens: seq<TokenView>, inst: Catalog)
  {
    forall k :: 0 <= k < |tokens| ==>
      && WellShaped(tokens[k])
      && (tokens[k].operator == Some("EXTDEF") || tokens[k].operator == Some("EXTREF") ==> tokens[k].operand.Some?)
      && (tokens[k].operator.Some? && tokens[k].operator.value in inst ==>
            0 < tokens[k].byteSize <= 30
            && tokens[k].operator.value != "RESW" && tokens[k].operator.value != "RESB")
  }

  /** What pass 2 does with the token at `j`, given the last record text `codeLine`: the
      records it writes (none or one), the index of the next token it looks at and the last
      record text afterwards. A Text record takes the whole run of instructions from `j`. */
  function TokenRecord(symbols: Table, literals: Table, tokens: seq<TokenView>, inst: Catalog, j: nat,
                       codeLine: string): (r: (seq<string>, nat, string))
    requires symbols.Valid() && j < |tokens| && RecordsOk(tokens, inst)
    ensures j < r.1 <= |tokens| && |r.0| <= 1
    ensures r.2 == if r.0 == [] then codeLine else r.0[0]
    ensures r.1 != j + 1 ==> tokens[j].operator.Some? && tokens[j].operator.value in inst
  {
    var t := tokens[j];
    if t.labelName == "." then ([], j + 1, codeLine)
    else
      var op := t.operator.value;
      if op == "START" || op == "CSECT" then
        var line := HeaderRecord(literals, tokens, t);
        ([line], j + 1, line)
      else if op == "EXTDEF" then
        var line := "D" + DefineEntries(t.operand.value, symbols);
        ([line], j + 1, line)
      else if op == "EXTREF" then
        var line := "R" + Concat(t.operand.value);
        ([line], j + 1, line)
      else if op in inst then
        var e := RunEnd(tokens, j, 0);
        var line := TextRecord(tokens, j, e);
        ([line], e, line)
      else if op == "BYTE" || op == "WORD" then ([codeLine], j + 1, codeLine)
      else if op == "LTORG" || op == "END" then
        var line := LiteralRecord(t, literals);
        ([line], j + 1, line)
      else ([], j + 1, codeLine)
  }

  /** The records pass 2 writes for the tokens from `j` on, given the last record text
      `codeLine`, and the last record text afterwards. */
  function TokenRecords(symbols: Table, literals: Table, tokens: seq<TokenView>, inst: Catalog, j: nat,
                        codeLine: string): (r: (seq<string>, string))
    requires symbols.Valid() && j <= |tokens| && RecordsOk(tokens, inst)
    decreases |tokens| - j
  {
    if j == |tokens| then ([], codeLine)
    else
      var step := TokenRecord(symbols, literals, tokens, inst, j, codeLine);
      var rest := TokenRecords(symbols, literals, tokens, inst, step.1, step.2);
      (step.0 + rest.0, rest.1)
  }

  /** The records written so far, `done`, followed by those of the tokens from `j` on, are
      `done` with the records of token `j`, followed by those of the tokens after it. */
  lemma RecordsAdvance(symbols: Table, literals: Table, tokens: seq<TokenView>, inst: Catalog, j: nat,
                       codeLine: string, done: seq<string>, records: (seq<string>, string))
    returns (written: seq<string>)
    requires symbols.Valid() && j < |tokens| && RecordsOk(tokens, inst)
    requires var rest := TokenRecords(symbols, literals, tokens, inst, j, codeLine);
      records == (done + rest.0, rest.1)
    ensures var step := TokenRecord(symbols, literals, tokens, inst, j, codeLine);
      var rest := TokenRecords(symbols, literals, tokens, inst, step.1, step.2);
      written == done + step.0 && records == (written + rest.0, rest.1)
  {
    var step := TokenRecord(symbols, literals, tokens, inst, j, codeLine);
    var rest := TokenRecords(symbols, literals, tokens, inst, step.1, step.2);
    written := done + step.0;
    assert done + (step.0 + rest.0) == written + rest.0;
  }

  /** The k-th Modification record: `M`, the location, the width and the signed name. */
  function ModifRecord(modifs: Table, k: nat): string
    requires modifs.Valid() && |modifs.widths| == |modifs.names| && k < |modifs.names|
  {
    "M" + FormatHex(modifs.locs[k], 6) + FormatHex(modifs.widths[k], 2) + modifs.names[k]
  }

  /** The first `n` Modification records. */
  function ModifRecords(modifs: Table, n: nat): (r: seq<string>)
    requires modifs.Valid() && |modifs.widths| == |modifs.names| && n <= |modifs.names|
    ensures |r| == n
    ensures forall k :: 0 <= k < n ==> r[k] == ModifRecord(modifs, k)
  {
    if n == 0 then [] else ModifRecords(modifs, n - 1) + [ModifRecord(modifs, n - 1)]
  }

  /** The End record: with the first token's location for the first section, bare after. */
  function EndRecord(i: nat, tokens: seq<TokenView>): string
    requires |tokens| >= 1
  {
    if i == 0 then "E" + FormatHex(tokens[0].location, 6) else "E"
  }

  /** Pass 2 can process section `sec`: it has a token, every token can be encoded, and
      its records can be written. */
  predicate SectionOk(sec: Section, inst: Catalog)
  {
    sec.Valid() && |sec.tokens| >= 1
    && (forall k :: 0 <= k < |sec.tokens| ==> Encodable(sec.tokens[k], inst))
    && RecordsOk(sec.tokens, inst)
  }

  lemma EncodedRecordsOk(sec: Section, inst: Catalog)
    requires SectionOk(sec, inst)
    ensures RecordsOk(EncodeTokens(sec.tokens, inst, sec.symbols, sec.literals), inst)
  {
    var r := EncodeTokens(sec.tokens, inst, sec.symbols, sec.literals);
    forall k | 0 <= k < |r|
      ensures WellShaped(r[k])
    {
      assert r[k] == sec.tokens[k].(objectCode := r[k].objectCode);
    }
  }

  /** Section `sec` after `makeObjectCode` has run on each of its tokens: only the object
      codes changed, and the records can still be written. */
  function Encoded(sec: Section, inst: Catalog): (r: Section)
    requires SectionOk(sec, inst)
    ensures r.Valid() && |r.tokens| == |sec.tokens| && RecordsOk(r.tokens, inst)
    ensures r.(tokens := sec.tokens) == sec
    ensures forall k :: 0 <= k < |sec.tokens| ==> r.tokens[k] == sec.tokens[k].(objectCode := r.tokens[k].objectCode)
  {
    EncodedRecordsOk(sec, inst);
    sec.(tokens := EncodeTokens(sec.tokens, inst, sec.symbols, sec.literals))
  }

  /** A section whose tokens are encoded is `Encoded`. */
  lemma EncodedIs(sec: Section, inst: Catalog, tokens: seq<TokenView>)
    requires SectionOk(sec, inst) && tokens == EncodeTokens(sec.tokens, inst, sec.symbols, sec.literals)
    ensures Encoded(sec, inst) == sec.(tokens := tokens)
  {
  }

  /** The records of section number `i` after the last record text `codeLine`: those of its
      encoded tokens, its Modification records and its End record. */
  function SectionRecords(sec: Section, i: nat, inst: Catalog, codeLine: string): (r: (seq<string>, string))
    requires SectionOk(sec, inst)
  {
    var enc := Encoded(sec, inst);
    var body := TokenRecords(enc.symbols, enc.literals, enc.tokens, inst, 0, codeLine);
    (body.0 + ModifRecords(enc.modifs, |enc.modifs.names|) + [EndRecord(i, enc.tokens)], body.1)
  }

  /** The records of a section are those of its encoded tokens, then its trailer: the
      Modification records and the End record. */
  lemma SectionParts(sec: Section, i: nat, inst: Catalog, codeLine: string)
    returns (body: (seq<string>, string), trailer: seq<string>)
    requires SectionOk(sec, inst)
    ensures var enc := Encoded(sec, inst);
      && body == TokenRecords(enc.symbols, enc.literals, enc.tokens, inst, 0, codeLine)
      && trailer == ModifRecords(enc.modifs, |enc.modifs.names|) + [EndRecord(i, enc.tokens)]
    ensures SectionRecords(sec, i, inst, codeLine) == (body.0 + trailer, body.1)
  {
    var enc := Encoded(sec, inst);
    body := TokenRecords(enc.symbols, enc.literals, enc.tokens, inst, 0, codeLine);
    trailer := ModifRecords(enc.modifs, |enc.modifs.names|) + [EndRecord(i, enc.tokens)];
    assert body.0 + ModifRecords(enc.modifs, |enc.modifs.names|) + [EndRecord(i, enc.tokens)] == body.0 + trailer;
  }

  /** Pass 2 can process every section. */
  predicate Pass2Ok(sections: seq<Section>, inst: Catalog)
  {
    forall k :: 0 <= k < |sections| ==> SectionOk(sections[k], inst)
  }

  /** `now` is `initial` with its first `i` sections encoded. */
  predicate EncodedUpTo(now: seq<Section>, initial: seq<Section>, i: nat, inst: Catalog)
    requires Pass2Ok(initial, inst)
  {
    && |now| == |initial| && i <= |initial|
    && (forall k :: 0 <= k < i ==> now[k] == Encoded(initial[k], inst))
    && (forall k :: i <= k < |now| ==> now[k] == initial[k])
  }

  /** Encoding section `i` next keeps `now` the encoded prefix of `initial`. */
  lemma EncodedNext(now: seq<Section>, initial: seq<Section>, i: nat, inst: Catalog)
    requires Pass2Ok(initial, inst) && EncodedUpTo(now, initial, i, inst) && i < |initial|
    ensures now[i] == initial[i] && EncodedUpTo(now[i := Encoded(now[i], inst)], initial, i + 1, inst)
  {
  }

  /** Appending is associative. */
  lemma Associative<T>(a: seq<T>, b: seq<T>, c: seq<T>)
    ensures a + b + c == a + (b + c)
  {
  }

  /** The records pass 2 writes for `sections`, and the last record text. */
  function Pass2(sections: seq<Section>, inst: Catalog): (r: (seq<string>, string))
    requires Pass2Ok(sections, inst)
  {
    if sections == [] then ([], "")
    else
      var init := sections[..|sections| - 1];
      var before := Pass2(init, inst);
      var last := SectionRecords(sections[|sections| - 1], |init|, inst, before.1);
      (before.0 + last.0, last.1)
  }

  /** Pass 2 before its first section: nothing written, no last record text. */
  lemma Pass2None(sections: seq<Section>, inst: Catalog, start: seq<string>)
    requires Pass2Ok(sections, inst)
    ensures Pass2Ok(sections[..0], inst)
    ensures start == start + Pass2(sections[..0], inst).0 && Pass2(sections[..0], inst).1 == ""
  {
    assert sections[..0] == [];
  }

  /** Pass 2 after its last section. */
  lemma Pass2All(sections: seq<Section>, inst: Catalog, start: seq<string>, written: seq<string>)
    requires Pass2Ok(sections, inst) && Pass2Ok(sections[..|sections|], inst)
    requires written == start + Pass2(sections[..|sections|], inst).0
    ensures written == start + Pass2(sections, inst).0
  {
    assert sections[..|sections|] == sections;
  }

  /** Pass 2 one section further: after the records of the first `i` sections, written
      after `start`, the records of section `i` give those of the first `i + 1`. */
  lemma Pass2Next(sections: seq<Section>, i: nat, inst: Catalog, start: seq<string>, written: seq<string>,
                  codeLine: string, next: seq<string>, nextLine: string)
    requires Pass2Ok(sections, inst) && i < |sections|
    requires Pass2Ok(sections[..i], inst)
    requires written == start + Pass2(sections[..i], inst).0 && codeLine == Pass2(sections[..i], inst).1
    requires next == written + SectionRecords(sections[i], i, inst, codeLine).0
    requires nextLine == SectionRecords(sections[i], i, inst, codeLine).1
    ensures Pass2Ok(sections[..i + 1], inst)
    ensures next == start + Pass2(sections[..i + 1], inst).0 && nextLine == Pass2(sections[..i + 1], inst).1
  {
    assert sections[..i + 1][..i] == sections[..i];
    Associative(start, Pass2(sections[..i], inst).0, SectionRecords(sections[i], i, inst, codeLine).0);
  }

  /** Every section's records end with its Modification records, one per entry in order,
      and then its End record, which carries the start address in the first section only. */
  lemma SectionEnds(sec: Section, i: nat, inst: Catalog, codeLine: string)
    requires SectionOk(sec, inst)
    ensures var r := SectionRecords(sec, i, inst, codeLine).0;
      var m := |sec.modifs.names|;
      && |r| >= m + 1
      && r[|r| - 1] == (if i == 0 then "E" + FormatHex(sec.tokens[0].location, 6) else "E")
      && forall k :: 0 <= k < m ==> r[|r| - 1 - m + k] == ModifRecord(sec.modifs, k)
  {
    var tokens := EncodeTokens(sec.tokens, inst, sec.symbols, sec.literals);
    assert tokens[0].location == sec.tokens[0].location;
  }

  /** A Text record is `T`, six hex digits of location, two of length (at most 30) and the
      codes of the run. */
  lemma TextRecordLayout(tokens: seq<TokenView>, j: nat, inst: Catalog)
    requires j < |tokens| && RecordsOk(tokens, inst)
    requires tokens[j].operator.Some? && tokens[j].operator.value in inst
    requires 0 <= tokens[j].location < Pow16(6)
    requires forall k :: j <= k < |tokens| ==> tokens[k].byteSize >= 0
    ensures var e := RunEnd(tokens, j, 0);
      var r := TextRecord(tokens, j, e);
      && j < e
      && 0 < SizeSum(tokens[j..e]) <= 30
      && |r| == 9 + |Codes(tokens[j..e])|
      && r[..7] == "T" + FormatHex(tokens[j].location, 6)
      && r[7..9] == FormatHex(SizeSum(tokens[j..e]), 2)
      && r[9..] == Codes(tokens[j..e])
  {
    var t := tokens[j];
    assert 0 < t.byteSize <= 30 && t.operator != Some("RESW") && t.operator != Some("RESB");
    RunBounds(tokens, j);
    TextFields(tokens, j, RunEnd(tokens, j, 0));
  }

  /** A Text run that starts at a sized token other than `RESW`/`RESB` holds it and is
      between 1 and 30 bytes long. */
  lemma RunBounds(tokens: seq<TokenView>, j: nat)
    requires j < |tokens| && 0 < tokens[j].byteSize <= 30
    requires tokens[j].operator != Some("RESW") && tokens[j].operator != Some("RESB")
    requires forall k :: j <= k < |tokens| ==> tokens[k].byteSize >= 0
    ensures var e := RunEnd(tokens, j, 0);
      j < e && 0 < SizeSum(tokens[j..e]) <= 30
  {
    var e := RunEnd(tokens, j, 0);
    RunShape(tokens, j, 0);
    RunPositive(tokens, j, e);
  }

  /** The fields of a Text record whose location and length fit their widths. */
  lemma TextFields(tokens: seq<TokenView>, j: nat, e: nat)
    requires j < e <= |tokens| && 0 <= tokens[j].location < Pow16(6) && 0 <= SizeSum(tokens[j..e]) <= 30
    ensures var r := TextRecord(tokens, j, e);
      && |r| == 9 + |Codes(tokens[j..e])|
      && r[..7] == "T" + FormatHex(tokens[j].location, 6)
      && r[7..9] == FormatHex(SizeSum(tokens[j..e]), 2)
      && r[9..] == Codes(tokens[j..e])
  {
    assert Pow16(2) == 256 by { assert Pow16(1) == 16; }
    var loc := FormatHex(tokens[j].location, 6);
    var len := FormatHex(SizeSum(tokens[j..e]), 2);
    assert |loc| == 6 && |len| == 2;
    var r := "T" + loc + len + Codes(tokens[j..e]);
    assert r[..7] == "T" + loc;
    assert r[7..9] == len;
    assert r[9..] == Codes(tokens[j..e]);
  }

  lemma {:induction false} RunPositive(tokens: seq<TokenView>, j: nat, e: nat)
    requires j < e <= |tokens|
    requires forall k :: j <= k < e ==> tokens[k].byteSize > 0
    ensures SizeSum(tokens[j..e]) > 0
    decreases e - j
  {
    SizeSumCons(tokens[j..e]);
    assert tokens[j..e][1..] == tokens[j + 1..e];
    if j + 1 < e {
      RunPositive(tokens, j + 1, e);
    }
  }

  /** The Header record is `H`, the section name, a blank and two six-digit hex fields: the
      start address and the size of the tokens and literals less it. */
  lemma HeaderLayout(literals: Table, tokens: seq<TokenView>, t: TokenView)
    requires |tokens| >= 1
    requires 0 <= tokens[0].location < Pow16(6)
    requires 0 <= SizeSum(tokens) + LiteralSum(literals.names) - tokens[0].location < Pow16(6)
    ensures var r := HeaderRecord(literals, tokens, t);
      var n := |t.labelName|;
      && |r| == n + 14
      && r[0] == 'H' && r[1..n + 1] == t.labelName && r[n + 1] == ' '
      && r[n + 2..n + 8] == FormatHex(tokens[0].location, 6)
      && r[n + 8..] == FormatHex(SizeSum(tokens) + LiteralSum(literals.names) - tokens[0].location, 6)
  {
    var start := FormatHex(tokens[0].location, 6);
    var size := FormatHex(SizeSum(tokens) + LiteralSum(literals.names) - tokens[0].location, 6);
    var r := "H" + t.labelName + " " + start + size;
    var n := |t.labelName|;
    assert r[1..n + 1] == t.labelName;
    assert r[n + 2..n + 8] == start;
    assert r[n + 8..] == size;
  }
}
