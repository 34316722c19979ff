/**
 * The assembler itself: the per-section lists of tables and token tables, the
 * location counter and section number, and the two passes over the source lines,
 * each proved to compute what `Passes` says.
 */
module Assembly {
  import opened Strings
  import opened Options
  import opened Instructions
  import opened Symbols
  import opened Tokens
  import opened Passes

  /** The contents of the section whose tables are these. */
  ghost function SectionOf(symtab: SymbolTable, literals: SymbolTable, externals: SymbolTable, modifs: SymbolTable,
                           tokens: TokenTable): Section
    reads symtab, literals, externals, modifs, tokens, tokens.tokenList
  {
    Section(symtab.View(), literals.View(), externals.View(), modifs.View(), tokens.Views())
  }

  /** `Assembler`: the state of one assembly run. */
  class Assembler {
    const instTable: InstTable
    /** The source lines, one element per line. */
    const lineList: seq<string>
    var symtabList: seq<SymbolTable>
    var literalList: seq<SymbolTable>
    var externalList: seq<SymbolTable>
    var modifList: seq<SymbolTable>
    var tokenList: seq<TokenTable>
    var codeList: seq<string>
    var locCounter: int
    var programNumber: int
    /** The contents of the sections' tables, one element per section. */
    ghost var sections: seq<Section>

    /** One table of each kind and one token table per section. */
    ghost predicate Aligned()
      reads this`symtabList, this`literalList, this`externalList, this`modifList, this`tokenList, this`sections
    {
      |symtabList| == |tokenList| && |literalList| == |tokenList| && |externalList| == |tokenList|
      && |modifList| == |tokenList| && |sections| == |tokenList|
    }

    /** Every section's tables are valid, belong together and hold what `sections` says. */
    ghost predicate Valid()
      reads this`symtabList, this`literalList, this`externalList, this`modifList, this`tokenList, this`sections
      reads symtabList, literalList, externalList, modifList, tokenList, TokenObjects()
    {
      && Aligned()
      && (forall i :: 0 <= i < |sections| ==> sections[i].Valid())
      && forall i {:trigger Belong(i, sections[i], symtabList[i], literalList[i], externalList[i], modifList[i], tokenList[i])}
        :: 0 <= i < |tokenList| ==>
        assert forall t :: t in tokenList[i].tokenList ==> t in TokenObjects();
        Belong(i, sections[i], symtabList[i], literalList[i], externalList[i], modifList[i], tokenList[i])
    }

    /** Section number `i` holds `sec`: its tables are told apart by their ids, its token
        table uses its symbol and literal tables and the catalog, every table is valid,
        and their contents are `sec`. */
    ghost predicate Belong(i: nat, sec: Section, symtab: SymbolTable, literals: SymbolTable, externals: SymbolTable,
                           modifs: SymbolTable, tokens: TokenTable)
      reads symtab, literals, externals, modifs, tokens, tokens.tokenList
    {
      && symtab.id == 4 * i && literals.id == 4 * i + 1 && externals.id == 4 * i + 2 && modifs.id == 4 * i + 3
      && symtab.Valid() && literals.Valid() && externals.Valid() && modifs.Valid()
      && |modifs.modifSizeList| == |modifs.symbolList|
      && tokens.section == i && tokens.Valid()
      && tokens.symTab == symtab && tokens.litTab == literals && tokens.instTab == instTable
      && sec.Valid() && sec == SectionOf(symtab, literals, externals, modifs, tokens)
    }

    /** Every token of every section. */
    ghost function TokenObjects(): set<Token>
      reads this`tokenList, tokenList
    {
      set i, t | 0 <= i < |tokenList| && t in tokenList[i].tokenList :: t
    }

    /** The state pass 1 works on. */
    ghost function State(): Progress
      reads this`sections, this`locCounter, this`programNumber
    {
      Progress(sections, locCounter, programNumber)
    }

    /** No token table has encoded anything yet. */
    ghost predicate Unencoded()
      reads this`tokenList, tokenList
    {
      forall i :: 0 <= i < |tokenList| ==> tokenList[i].programCounter == 0
    }

    /** An assembler for `lineList` with the catalog read from `instLines`. */
    constructor (instLines: seq<string>, lineList: seq<string>)
      requires WellFormed(instLines)
      ensures Valid() && Unencoded() && this.lineList == lineList
      ensures instTable.instMap == Load(map[], Entries(instLines))
      ensures tokenList == [] && codeList == [] && State() == Initial
    {
      instTable := new InstTable(instLines);
      this.lineList := lineList;
      symtabList, literalList, externalList, modifList := [], [], [], [];
      tokenList, codeList := [], [];
      locCounter, programNumber := 0, 0;
      sections := [];
    }

    /** The objects of section `p`: its tables, its token table and its tokens. */
    ghost function Footprint(p: nat): set<object>
      reads this`symtabList, this`literalList, this`externalList, this`modifList, this`tokenList, this`sections
      reads tokenList
      requires Aligned() && p < |tokenList|
    {
      var tables: set<object> := {symtabList[p], literalList[p], externalList[p], modifList[p], tokenList[p]};
      tables + set t | t in tokenList[p].tokenList
    }

    /** The tables and the token table of section `p`. */
    ghost function Tables(p: nat): set<object>
      reads this`symtabList, this`literalList, this`externalList, this`modifList, this`tokenList, this`sections
      requires Aligned() && p < |tokenList|
    {
      {symtabList[p], literalList[p], externalList[p], modifList[p], tokenList[p]}
    }

    /** The tables and the token table of the current section, if there is one. */
    ghost function Current(): set<object>
      reads this`symtabList, this`literalList, this`externalList, this`modifList, this`tokenList, this`sections
      reads this`programNumber
    {
      if Aligned() && 0 <= programNumber < |tokenList| then Tables(programNumber) else {}
    }

    /** Only the objects of section `p` changed, and it holds what `sections` says: the
        assembler is valid. */
    twostate lemma OthersUnchanged(p: nat)
      requires old(Valid()) && Aligned() && p < |tokenList|
      requires old(symtabList) == symtabList && old(literalList) == literalList
      requires old(externalList) == externalList && old(modifList) == modifList && old(tokenList) == tokenList
      requires sections == old(sections)[p := sections[p]]
      requires forall o: object :: old(allocated(o)) && o != this && o !in old(Footprint(p)) ==> unchanged(o)
      requires Belong(p, sections[p], symtabList[p], literalList[p], externalList[p], modifList[p], tokenList[p])
      ensures Valid()
    {
      forall k | 0 <= k < |tokenList| && k != p
        ensures Belong(k, sections[k], symtabList[k], literalList[k], externalList[k], modifList[k], tokenList[k])
      {
        assert old(Belong(p, sections[p], symtabList[p], literalList[p], externalList[p], modifList[p], tokenList[p]));
        assert old(Belong(k, sections[k], symtabList[k], literalList[k], externalList[k], modifList[k], tokenList[k]));
        assert symtabList[k] !in old(Footprint(p)) && literalList[k] !in old(Footprint(p));
        assert externalList[k] !in old(Footprint(p)) && modifList[k] !in old(Footprint(p));
        assert tokenList[k] !in old(Footprint(p));
        assert unchanged(symtabList[k], literalList[k], externalList[k], modifList[k], tokenList[k]);
        var tokens := tokenList[k].tokenList;
        assert forall j :: 0 <= j < |tokens| ==> old(allocated(tokens[j]));
        assert forall j :: 0 <= j < |tokens| ==> tokens[j] !in old(Footprint(p));
        assert forall j :: 0 <= j < |tokens| ==> unchanged(tokens[j]);
        assert tokenList[k].Views() == old(tokenList[k].Views());
      }
    }

    /** Only the tokens of section `p` changed, and `sections` follows them: section `p`
        still belongs together. */
    twostate lemma Reencoded(p: nat)
      requires old(Valid()) && p < old(|tokenList|) && |sections| == old(|sections|)
      requires old(symtabList) == symtabList && old(literalList) == literalList
      requires old(externalList) == externalList && old(modifList) == modifList && old(tokenList) == tokenList
      requires unchanged(symtabList[p], literalList[p], externalList[p], modifList[p])
      requires tokenList[p].Valid()
      requires sections[p] == old(sections[p]).(tokens := tokenList[p].Views())
      ensures Belong(p, sections[p], symtabList[p], literalList[p], externalList[p], modifList[p], tokenList[p])
    {
      assert old(Belong(p, sections[p], symtabList[p], literalList[p], externalList[p], modifList[p], tokenList[p]));
    }

    /** No table changed: the assembler is still valid. */
    twostate lemma TablesKept()
      requires old(Valid())
      requires unchanged(this`symtabList, this`literalList, this`externalList, this`modifList, this`tokenList, this`sections)
      requires unchanged(symtabList, literalList, externalList, modifList, tokenList, old(TokenObjects()))
      ensures Valid()
    {
    }

    /** One section was appended and no earlier object changed: the assembler is valid. */
    twostate lemma Extended()
      requires old(Valid()) && Aligned() && |tokenList| == old(|tokenList|) + 1
      requires symtabList[..old(|tokenList|)] == old(symtabList) && literalList[..old(|tokenList|)] == old(literalList)
      requires externalList[..old(|tokenList|)] == old(externalList) && modifList[..old(|tokenList|)] == old(modifList)
      requires tokenList[..old(|tokenList|)] == old(tokenList) && sections[..old(|tokenList|)] == old(sections)
      requires forall k :: 0 <= k < old(|tokenList|) ==>
        && unchanged(old(symtabList[k]), old(literalList[k]), old(externalList[k]), old(modifList[k]), old(tokenList[k]))
        && unchanged(old(tokenList[k].tokenList))
      requires var n := old(|tokenList|);
        Belong(n, sections[n], symtabList[n], literalList[n], externalList[n], modifList[n], tokenList[n])
      ensures Valid()
    {
      var n := old(|tokenList|);
      forall k | 0 <= k < n
        ensures Belong(k, sections[k], symtabList[k], literalList[k], externalList[k], modifList[k], tokenList[k])
      {
        assert symtabList[..n][k] == symtabList[k] && literalList[..n][k] == literalList[k];
        assert externalList[..n][k] == externalList[k] && modifList[..n][k] == modifList[k];
        assert tokenList[..n][k] == tokenList[k] && sections[..n][k] == sections[k];
        assert old(Belong(k, sections[k], symtabList[k], literalList[k], externalList[k], modifList[k], tokenList[k]));
      }
    }

    // -------------------------------------------------------------------------
    // Pass 1
    // -------------------------------------------------------------------------

    /** `operateAddress`, against the symbol table of the current section. */
    method OperateAddress(inputOperand: string) returns (result: int)
      requires 0 <= programNumber < |symtabList| && symtabList[programNumber].Valid() && Addressable(inputOperand)
      ensures result == AddressOf(inputOperand, locCounter, symtabList[programNumber].View())
    {
      result := 0;
      if inputOperand == "*" {
        result := locCounter;
      } else {
        if Contains(inputOperand, "-") {
          var operands := Split(inputOperand, '-');
          var a := symtabList[programNumber].Search(operands[0]);
          var b := symtabList[programNumber].Search(operands[1]);
          result := a - b;
        }
      }
    }

    /** `pass1`: reads every source line into tokens and tables. */
    method Pass1()
      requires Valid() && Unencoded() && tokenList == [] && locCounter == 0 && programNumber == 0
      requires Pass1Ok(lineList, instTable.instMap)
      modifies this
      ensures Valid() && Unencoded() && codeList == old(codeList)
      ensures State() == Passes.Pass1(lineList, instTable.instMap)
    {
      ghost var inst := instTable.instMap;
      var tokenIndex := 0;
      var i := 0;
      while i < |lineList|
        invariant 0 <= i <= |lineList| && instTable.instMap == inst
        invariant Valid() && Unencoded() && codeList == old(codeList)
        invariant State() == Passes.Pass1(lineList[..i], inst)
        invariant fresh(Current())
        invariant |tokenList| == 0 ==> programNumber == 0
        invariant |tokenList| > 0 ==>
          programNumber == |tokenList| - 1 && tokenIndex == |tokenList[programNumber].tokenList|
      {
        ghost var o, t := Pass1Next(lineList, i, inst);
        tokenIndex := ProcessLine(lineList[i], tokenIndex, o, t);
        i := i + 1;
      }
      assert lineList[..i] == lineList;
    }

    /** One iteration of the loop of `pass1` on `line`: the section is opened if the line
        says so, then the line's token `t` is read into the current section. */
    method ProcessLine(line: string, tokenIndex: nat, ghost o: Progress, ghost t: TokenView) returns (next: nat)
      requires Valid() && Unencoded() && (Contains(line, "START") ==> sections == [])
      requires |tokenList| == 0 ==> programNumber == 0
      requires |tokenList| > 0 ==>
        programNumber == |tokenList| - 1 && tokenIndex == |tokenList[programNumber].tokenList|
      requires o == Opened(State(), line) && Tokenizable(line, instTable.instMap)
      requires t == Tokenize(line, instTable.instMap, o.locCounter) && ReadOk(o, t)
      modifies this, Current()
      ensures Valid() && Unencoded() && codeList == old(codeList)
      ensures State() == Read(o, t) && instTable.instMap == old(instTable.instMap)
      ensures programNumber == |tokenList| - 1 && next == |tokenList[programNumber].tokenList|
      ensures Current() == old(Current()) || fresh(Current())
    {
      assert o.Active();
      var index := OpenSection(line, tokenIndex);
      ReadLine(line, index, t);
      next := index + 1;
    }

    /** The start of one iteration of `pass1`: a line containing `START` or `CSECT` opens a
        section, with fresh tables, a token table over them, a location counter of 0 and a
        token index of 0 (`CSECT` also moves to the next section number). */
    method OpenSection(line: string, tokenIndex: nat) returns (index: nat)
      requires Valid() && Unencoded() && (Contains(line, "START") ==> sections == [])
      requires !Contains(line, "START") && Contains(line, "CSECT") ==> |tokenList| > 0
      requires |tokenList| == 0 ==> programNumber == 0
      requires |tokenList| > 0 ==>
        programNumber == |tokenList| - 1 && tokenIndex == |tokenList[programNumber].tokenList|
      modifies this`symtabList, this`literalList, this`externalList, this`modifList, this`tokenList, this`sections
      modifies this`locCounter, this`programNumber
      ensures Valid() && Unencoded() && State() == Opened(old(State()), line)
      ensures |tokenList| == 0 ==> programNumber == 0
      ensures |tokenList| > 0 ==>
        programNumber == |tokenList| - 1 && index == |tokenList[programNumber].tokenList|
      ensures Current() == old(Current()) || fresh(Current())
    {
      index := tokenIndex;
      if Contains(line, "START") {
        locCounter := 0;
        index := 0;
        AddSection();
      } else if Contains(line, "CSECT") {
        programNumber := programNumber + 1;
        locCounter := 0;
        index := 0;
        AddSection();
      }
    }

    /** Appends one section of empty tables and an empty token table over them. */
    method AddSection()
      requires Valid() && Unencoded()
      modifies this`symtabList, this`literalList, this`externalList, this`modifList, this`tokenList, this`sections
      ensures Valid() && Unencoded()
      ensures sections == old(sections) + [NewSection] && |tokenList| == old(|tokenList|) + 1
      ensures tokenList[|tokenList| - 1].tokenList == []
      ensures fresh(Tables(|tokenList| - 1))
    {
      var symtab, literals, externals, modifs, tokens := NewTables(|tokenList|);
      symtabList := symtabList + [symtab];
      literalList := literalList + [literals];
      externalList := externalList + [externals];
      modifList := modifList + [modifs];
      tokenList := tokenList + [tokens];
      sections := sections + [NewSection];
      Extended();
    }

    /** The tables of a new section number `n`: all empty. */
    method NewTables(n: nat) returns (symtab: SymbolTable, literals: SymbolTable, externals: SymbolTable,
                                      modifs: SymbolTable, tokens: TokenTable)
      ensures fresh(symtab) && fresh(literals) && fresh(externals) && fresh(modifs) && fresh(tokens)
      ensures Belong(n, NewSection, symtab, literals, externals, modifs, tokens)
      ensures tokens.programCounter == 0 && tokens.tokenList == []
    {
      symtab := new SymbolTable(4 * n);
      literals := new SymbolTable(4 * n + 1);
      externals := new SymbolTable(4 * n + 2);
      modifs := new SymbolTable(4 * n + 3);
      tokens := new TokenTable(symtab, literals, instTable, n);
    }

    /** The rest of one iteration of `pass1`: the line becomes token `t` of the current
        section, its label and literal are bound, its directive is carried out and the
        location counter moves past it. */
    method ReadLine(line: string, tokenIndex: nat, ghost t: TokenView)
      requires Valid() && Unencoded() && 0 <= programNumber < |tokenList|
      requires tokenIndex == |tokenList[programNumber].tokenList|
      requires Tokenizable(line, instTable.instMap) && t == Tokenize(line, instTable.instMap, locCounter) && ReadOk(State(), t)
      modifies this`locCounter, this`sections, tokenList[programNumber]
      modifies symtabList[programNumber], literalList[programNumber], externalList[programNumber], modifList[programNumber]
      ensures Valid() && Unencoded()
      ensures State() == Read(old(State()), t) && |tokenList[programNumber].tokenList| == tokenIndex + 1
    {
      ghost var o := State();
      AppendToken(line, t);
      ghost var appended := sections;
      var currentToken := tokenList[programNumber].GetToken(tokenIndex);
      BindLabel(currentToken, t);
      ghost var bound := sections;
      Directives(currentToken, t);
      ReadInSteps(o, t, appended, bound, sections, locCounter);
      Advance(currentToken.byteSize);
    }

    /** The location counter moves past a token of `size` bytes. */
    method Advance(size: int)
      requires Valid() && Unencoded()
      modifies this`locCounter
      ensures Valid() && Unencoded() && locCounter == old(locCounter) + size
    {
      locCounter := locCounter + size;
    }

    /** `putToken` on the current section: its token list grows by `t`, the token of `line`. */
    method AppendToken(line: string, ghost t: TokenView)
      requires Valid() && Unencoded() && 0 <= programNumber < |tokenList|
      requires Tokenizable(line, instTable.instMap) && t == Tokenize(line, instTable.instMap, locCounter)
      modifies this`sections, tokenList[programNumber]
      ensures Valid() && Unencoded()
      ensures |tokenList[programNumber].tokenList| == old(|tokenList[programNumber].tokenList|) + 1
      ensures tokenList[programNumber].tokenList[old(|tokenList[programNumber].tokenList|)].View() == t
      ensures sections == old(sections)[programNumber := old(sections[programNumber]).(tokens := old(sections[programNumber]).tokens + [t])]
    {
      var p := programNumber;
      assert Belong(p, sections[p], symtabList[p], literalList[p], externalList[p], modifList[p], tokenList[p]);
      tokenList[p].PutToken(line, locCounter);
      sections := sections[p := sections[p].(tokens := sections[p].tokens + [t])];
      assert Belong(p, sections[p], symtabList[p], literalList[p], externalList[p], modifList[p], tokenList[p]);
      OthersUnchanged(p);
    }

    /** Binding the label of `currentToken`, whose contents are `t`, in the current
        section, as `Bind` says. */
    method BindLabel(currentToken: Token, ghost t: TokenView)
      requires Valid() && Unencoded() && 0 <= programNumber < |tokenList| && currentToken.View() == t && WellShaped(t)
      requires Labelled(t) && t.operator == Some("EQU") ==> t.operand.Some? && Addressable(t.operand.value[0])
      modifies this`sections, symtabList[programNumber], literalList[programNumber]
      ensures Valid() && Unencoded()
      ensures sections == old(sections)[programNumber := Bind(old(sections[programNumber]), t, locCounter)]
    {
      var p := programNumber;
      assert Belong(p, sections[p], symtabList[p], literalList[p], externalList[p], modifList[p], tokenList[p]);
      BindTables(currentToken, symtabList[p], literalList[p], sections[p]);
      sections := sections[p := Bind(sections[p], t, locCounter)];
      assert Belong(p, sections[p], symtabList[p], literalList[p], externalList[p], modifList[p], tokenList[p]);
      OthersUnchanged(p);
    }

    /** The directives of pass 1 on `currentToken`, whose contents are `t`, in the current
        section, as `Direct` says. */
    method Directives(currentToken: Token, ghost t: TokenView)
      requires Valid() && Unencoded() && 0 <= programNumber < |tokenList| && currentToken.View() == t && WellShaped(t)
      requires t.operator == Some("EXTREF") ==> t.operand.Some?
      requires RefersOut(t) ==> Modifiable(sections[programNumber].externals.names, t.operand.value[0])
      modifies this`sections, this`locCounter
      modifies literalList[programNumber], externalList[programNumber], modifList[programNumber]
      ensures Valid() && Unencoded()
      ensures var done := Direct(old(sections[programNumber]), t, old(locCounter));
        sections == old(sections)[programNumber := done.0] && locCounter == done.1
    {
      var p := programNumber;
      assert Belong(p, sections[p], symtabList[p], literalList[p], externalList[p], modifList[p], tokenList[p]);
      ghost var done := Direct(sections[p], t, locCounter);
      DirectTables(currentToken, literalList[p], externalList[p], modifList[p], sections[p]);
      sections := sections[p := done.0];
      assert Belong(p, sections[p], symtabList[p], literalList[p], externalList[p], modifList[p], tokenList[p]);
      OthersUnchanged(p);
    }

    /** Binding the label of `currentToken` in section `sec`, whose symbol and literal
        tables are `symtab` and `literals`. */
    method BindTables(currentToken: Token, symtab: SymbolTable, literals: SymbolTable, ghost sec: Section)
      requires 0 <= programNumber < |symtabList| && symtab == symtabList[programNumber]
      requires sec.Valid() && sec.symbols == symtab.View() && sec.literals == literals.View() && symtab != literals
      requires WellShaped(currentToken.View())
      requires var t := currentToken.View();
        Labelled(t) && t.operator == Some("EQU") ==> t.operand.Some? && Addressable(t.operand.value[0])
      modifies symtab, literals
      ensures symtab.Valid() && literals.Valid()
      ensures var bound := Bind(sec, currentToken.View(), locCounter);
        symtab.View() == bound.symbols && literals.View() == bound.literals
    {
      if currentToken.labelName != "" && currentToken.labelName != "." {
        if currentToken.operator.value == "EQU" {
          var address := OperateAddress(currentToken.operand.value[0]);
          symtab.PutSymbol(currentToken.labelName, address);
        } else {
          symtab.PutSymbol(currentToken.labelName, locCounter);
        }
        if currentToken.operand.Some? && Contains(currentToken.operand.value[0], "=") {
          literals.PutSymbol(currentToken.operand.value[0], 0);
        }
      }
    }

    /** The directives of pass 1 on `currentToken` in section `sec`, whose literal,
        external and modification tables are `literals`, `externals` and `modifs`. */
    method DirectTables(currentToken: Token, literals: SymbolTable, externals: SymbolTable, modifs: SymbolTable,
                        ghost sec: Section)
      requires sec.Valid() && sec.literals == literals.View() && sec.externals == externals.View()
      requires sec.modifs == modifs.View() && literals != externals && literals != modifs && externals != modifs
      requires var t := currentToken.View();
        && WellShaped(t)
        && (t.operator == Some("EXTREF") ==> t.operand.Some?)
        && (RefersOut(t) ==> Modifiable(sec.externals.names, t.operand.value[0]))
      modifies literals, externals, modifs, this`locCounter
      ensures literals.Valid() && externals.Valid() && modifs.Valid()
      ensures |modifs.modifSizeList| == |modifs.symbolList|
      ensures var done := Direct(sec, currentToken.View(), old(locCounter));
        && literals.View() == done.0.literals && externals.View() == done.0.externals
        && modifs.View() == done.0.modifs && locCounter == done.1
    {
      if currentToken.operator.Some? {
        var operator := currentToken.operator.value;
        if operator == "LTORG" || operator == "END" {
          PlaceLiterals(literals);
        } else if operator == "EXTREF" {
          ReferExternals(externals, currentToken.operand.value);
        } else if currentToken.operand.Some? {
          RecordModification(externals, modifs, operator, currentToken.operand.value[0]);
        }
      }
    }

    /** `LTORG`/`END`: every literal of `table` in turn moves to the location counter,
        which advances by one for a hexadecimal literal and by the text's length for a
        character literal. */
    method PlaceLiterals(table: SymbolTable)
      requires table.Valid()
      modifies table, this`locCounter
      ensures table.Valid()
      ensures var placed := Place(old(table.View()), old(table.symbolList), old(locCounter));
        table.View() == placed.0 && locCounter == placed.1
    {
      ghost var t0 := table.View();
      ghost var loc0 := locCounter;
      var j := 0;
      while j < table.GetSize()
        invariant 0 <= j <= |t0.names|
        invariant table.Valid() && table.symbolList == t0.names
        invariant table.View() == Place(t0, t0.names[..j], loc0).0
        invariant locCounter == Place(t0, t0.names[..j], loc0).1
      {
        ghost var before := Place(t0, t0.names[..j], loc0);
        PlaceSnoc(t0, t0.names, j, loc0);
        var literal := table.GetSymbol(j);
        table.ModifySymbol(literal, locCounter);
        assert table.View() == Place(t0, t0.names[..j + 1], loc0).0;
        ContainsChar(literal, 'X');
        ContainsChar(literal, 'C');
        if Contains(literal, "X") {
          locCounter := locCounter + 1;
        } else if Contains(literal, "C") {
          literal := Without(literal, {'C', '\''});
          locCounter := locCounter + |literal|;
        }
        assert locCounter == before.1 + LiteralSize(t0.names[j]);
        j := j + 1;
      }
      assert t0.names[..j] == t0.names;
    }

    /** `EXTREF`: every one of `names` joins the external table at 0. */
    method ReferExternals(table: SymbolTable, names: seq<string>)
      requires table.Valid()
      modifies table
      ensures table.Valid() && table.View() == PutAll(old(table.View()), names, 0)
    {
      ghost var t0 := table.View();
      var j := 0;
      while j < |names|
        invariant 0 <= j <= |names|
        invariant table.Valid() && table.View() == PutAll(t0, names[..j], 0)
      {
        table.PutSymbol(names[j], 0);
        assert names[..j + 1][..j] == names[..j];
        j := j + 1;
      }
      assert names[..j] == names;
    }

    /** Any other operator with operands: the first external reference occurring in
        `operand` records its modification entries, as `Modification` says. */
    method RecordModification(externals: SymbolTable, modifs: SymbolTable, operator: string, operand: string)
      requires modifs.Valid() && |modifs.modifSizeList| == |modifs.symbolList|
      requires Modifiable(externals.symbolList, operand) && externals != modifs
      modifies modifs
      ensures modifs.Valid() && |modifs.modifSizeList| == |modifs.symbolList|
      ensures modifs.View() == Modification(old(modifs.View()), externals.symbolList, operator, operand, locCounter)
    {
      var j := 0;
      while j < externals.GetSize()
        invariant 0 <= j <= |externals.symbolList|
        invariant forall k :: 0 <= k < j ==> !Contains(operand, externals.symbolList[k])
      {
        if Contains(operand, externals.GetSymbol(j)) {
          var modifSize := 6;
          if Contains(operator, "+") {
            modifSize := 5;
          }
          if Contains(operand, "-") {
            var opSymbols := Split(operand, '-');
            modifs.PutModifSymbol("+" + opSymbols[0], locCounter + (6 - modifSize), modifSize);
            modifs.PutModifSymbol("-" + opSymbols[1], locCounter + (6 - modifSize), modifSize);
          } else {
            modifs.PutModifSymbol("+" + operand, locCounter + (6 - modifSize), modifSize);
          }
          return;
        }
        j := j + 1;
      }
    }


    // -------------------------------------------------------------------------
    // Pass 2
    // -------------------------------------------------------------------------

    /** `pass2`: section by section, encodes every token and then writes the section's
        records; the records and the encoded sections are what `Passes` says. */
    method Pass2()
      requires Valid() && Unencoded() && Pass2Ok(sections, instTable.instMap)
      modifies this`codeList, this`sections, tokenList, TokenObjects()
      ensures Valid() && |sections| == old(|sections|)
      ensures forall k :: 0 <= k < |sections| ==> sections[k] == Encoded(old(sections[k]), instTable.instMap)
      ensures codeList == old(codeList) + Passes.Pass2(old(sections), instTable.instMap).0
    {
      ghost var initial, inst := sections, instTable.instMap;
      Pass2None(initial, inst, codeList);
      ghost var owned := TokenObjects();
      var codeLine := "";
      var i := 0;
      while i < |tokenList|
        invariant WrittenUpTo(i, initial, inst, old(codeList), codeLine)
        invariant forall k :: i <= k < |tokenList| ==>
          tokenList[k].tokenList == old(tokenList[k].tokenList) && tokenList[k].programCounter == 0
        invariant forall k, t :: i <= k < |tokenList| && t in tokenList[k].tokenList ==> t in owned
      {
        codeLine := PassSection(i, codeLine, initial, inst, old(codeList));
        i := i + 1;
      }
      Pass2All(initial, inst, old(codeList), codeList);
    }

    /** The first `i` sections of `initial` are encoded, and their records, whose last text
        is `codeLine`, are written after `start`. */
    ghost predicate WrittenUpTo(i: nat, initial: seq<Section>, inst: Catalog, start: seq<string>, codeLine: string)
      reads this, instTable, symtabList, literalList, externalList, modifList, tokenList, TokenObjects()
    {
      && i <= |tokenList| && Valid() && instTable.instMap == inst
      && Pass2Ok(initial, inst) && EncodedUpTo(sections, initial, i, inst) && Pass2Ok(initial[..i], inst)
      && codeList == start + Passes.Pass2(initial[..i], inst).0 && codeLine == Passes.Pass2(initial[..i], inst).1
    }

    /** One iteration of the loop of `pass2`: section `i` of `initial` is encoded, and its
        records are written after the last record text `codeLine`. */
    method PassSection(i: nat, codeLine: string, ghost initial: seq<Section>, ghost inst: Catalog,
                       ghost start: seq<string>)
      returns (last: string)
      requires WrittenUpTo(i, initial, inst, start, codeLine) && i < |tokenList| && tokenList[i].programCounter == 0
      modifies this`codeList, this`sections, tokenList[i], tokenList[i].tokenList
      ensures WrittenUpTo(i + 1, initial, inst, start, last)
      ensures forall k :: i < k < |tokenList| ==>
        tokenList[k].tokenList == old(tokenList[k].tokenList) && tokenList[k].programCounter == old(tokenList[k].programCounter)
    {
      ghost var written := codeList;
      EncodeNextSection(i, initial, inst);
      last := WriteOut(i, codeLine, initial[i]);
      Pass2Next(initial, i, inst, start, written, codeLine, codeList, last);
    }

    /** The first loop of `pass2` in one iteration of its outer loop: section `i` of
        `initial`, the next one, is encoded. */
    method EncodeNextSection(i: nat, ghost initial: seq<Section>, ghost inst: Catalog)
      requires Valid() && i < |tokenList| && tokenList[i].programCounter == 0 && inst == instTable.instMap
      requires Pass2Ok(initial, inst) && EncodedUpTo(sections, initial, i, inst)
      modifies this`sections, tokenList[i], tokenList[i].tokenList
      ensures Valid() && EncodedUpTo(sections, initial, i + 1, inst)
      ensures sections[i] == Encoded(initial[i], inst)
      ensures forall k :: i < k < |tokenList| ==>
        tokenList[k].tokenList == old(tokenList[k].tokenList) && tokenList[k].programCounter == old(tokenList[k].programCounter)
    {
      Separate(i);
      EncodedNext(sections, initial, i, inst);
      EncodeSection(i);
      EncodedIs(initial[i], inst, sections[i].tokens);
    }

    /** The records of section `i`, which holds `sec` encoded, after the last record text
        `codeLine`. */
    method WriteOut(i: nat, codeLine: string, ghost sec: Section) returns (last: string)
      requires Valid() && i < |tokenList| && SectionOk(sec, instTable.instMap)
      requires sections[i] == Encoded(sec, instTable.instMap)
      modifies this`codeList
      ensures Valid() && unchanged(tokenList)
      ensures codeList == old(codeList) + SectionRecords(sec, i, instTable.instMap, codeLine).0
      ensures last == SectionRecords(sec, i, instTable.instMap, codeLine).1
    {
      ghost var enc := sections[i];
      var tokens, symtab, literals, modifs := tokenList[i], symtabList[i], literalList[i], modifList[i];
      assert Belong(i, enc, symtab, literals, externalList[i], modifs, tokens);
      last := WriteSection(i, tokens, symtab, literals, modifs, codeLine, sec, enc);
      TablesKept();
    }

    /** The token table of section `p` is no other section's. */
    lemma Separate(p: nat)
      requires Valid() && p < |tokenList|
      ensures forall k :: 0 <= k < |tokenList| && k != p ==> tokenList[k] != tokenList[p]
    {
      assert Belong(p, sections[p], symtabList[p], literalList[p], externalList[p], modifList[p], tokenList[p]);
      forall k | 0 <= k < |tokenList| && k != p
        ensures tokenList[k] != tokenList[p]
      {
        assert Belong(k, sections[k], symtabList[k], literalList[k], externalList[k], modifList[k], tokenList[k]);
      }
    }

    /** The first loop of `pass2` on section `p`. */
    method EncodeSection(p: nat)
      requires Valid() && p < |tokenList| && tokenList[p].programCounter == 0
      requires SectionOk(sections[p], instTable.instMap)
      modifies this`sections, tokenList[p], tokenList[p].tokenList
      ensures Valid()
      ensures var sec := old(sections[p]);
        sections == old(sections)[p := sec.(tokens := EncodeTokens(sec.tokens, instTable.instMap, sec.symbols, sec.literals))]
    {
      ghost var sec := sections[p];
      var tokens := tokenList[p];
      assert Belong(p, sections[p], symtabList[p], literalList[p], externalList[p], modifList[p], tokenList[p]);
      sections := sections[p := sec.(tokens := EncodeTokens(sec.tokens, instTable.instMap, sec.symbols, sec.literals))];
      EncodeTokenTable(tokens, sec);
      Reencoded(p);
      OthersUnchanged(p);
    }

    /** `makeObjectCode` on each token of `tokens`, which hold `sec`, in turn. */
    method EncodeTokenTable(tokens: TokenTable, ghost sec: Section)
      requires tokens.Valid() && tokens.programCounter == 0 && sec.Valid()
      requires tokens.Views() == sec.tokens && tokens.symTab.View() == sec.symbols && tokens.litTab.View() == sec.literals
      requires forall k :: 0 <= k < |sec.tokens| ==> Encodable(sec.tokens[k], tokens.instTab.instMap)
      modifies tokens, tokens.tokenList
      ensures tokens.Valid() && tokens.tokenList == old(tokens.tokenList)
      ensures tokens.Views() == EncodeTokens(sec.tokens, tokens.instTab.instMap, sec.symbols, sec.literals)
      ensures tokens.programCounter == SizeSum(sec.tokens)
    {
      EncodedNone(tokens, sec);
      var j := 0;
      while j < |tokens.tokenList|
        invariant tokens.tokenList == old(tokens.tokenList) && EncodedBefore(tokens, j, sec)
      {
        EncodeNext(tokens, j, sec);
        j := j + 1;
      }
      EncodedAll(tokens, sec);
    }

    /** Before the first loop of `pass2` no token is encoded. */
    lemma EncodedNone(tokens: TokenTable, sec: Section)
      requires tokens.Valid() && tokens.programCounter == 0 && sec.Valid()
      requires tokens.Views() == sec.tokens && tokens.symTab.View() == sec.symbols && tokens.litTab.View() == sec.literals
      requires forall k :: 0 <= k < |sec.tokens| ==> Encodable(sec.tokens[k], tokens.instTab.instMap)
      ensures EncodedBefore(tokens, 0, sec)
    {
      assert sec.tokens[..0] == [] && sec.tokens[0..] == sec.tokens;
    }

    /** After the first loop of `pass2` every token is encoded. */
    lemma EncodedAll(tokens: TokenTable, sec: Section)
      requires EncodedBefore(tokens, |tokens.tokenList|, sec)
      ensures tokens.Valid()
      ensures tokens.Views() == EncodeTokens(sec.tokens, tokens.instTab.instMap, sec.symbols, sec.literals)
      ensures tokens.programCounter == SizeSum(sec.tokens)
    {
      assert sec.tokens[..|sec.tokens|] == sec.tokens && sec.tokens[|sec.tokens|..] == [];
    }

    /** The tokens of `tokens`, which held `sec`, before position `j` are encoded, and the
        program counter is past them. */
    ghost predicate EncodedBefore(tokens: TokenTable, j: nat, sec: Section)
      reads tokens, tokens.tokenList, tokens.symTab, tokens.litTab, tokens.instTab
    {
      && j <= |sec.tokens| == |tokens.tokenList| && tokens.Valid() && sec.Valid()
      && tokens.symTab.View() == sec.symbols && tokens.litTab.View() == sec.literals
      && (forall k :: 0 <= k < |sec.tokens| ==> Encodable(sec.tokens[k], tokens.instTab.instMap))
      && tokens.programCounter == SizeSum(sec.tokens[..j])
      && tokens.Views() == EncodeTokens(sec.tokens[..j], tokens.instTab.instMap, sec.symbols, sec.literals) + sec.tokens[j..]
    }

    /** One iteration of the first loop of `pass2`: token `j` of `tokens`, which held
        `sec`, is encoded next. */
    method EncodeNext(tokens: TokenTable, j: nat, ghost sec: Section)
      requires EncodedBefore(tokens, j, sec) && j < |tokens.tokenList|
      modifies tokens, tokens.tokenList[j]
      ensures tokens.tokenList == old(tokens.tokenList) && EncodedBefore(tokens, j + 1, sec)
    {
      ghost var before := tokens.Views();
      assert before[j] == sec.tokens[j];
      tokens.MakeObjectCode(j);
      EncodeStep(sec.tokens, j, tokens.instTab.instMap, sec.symbols, sec.literals, before,
                 tokens.programCounter, tokens.Views());
    }

    /** The rest of one iteration of `pass2`: the records of section number `i`, whose tables
        hold `enc`, the tables of `sec` with its tokens encoded, after the last record text
        `codeLine`. */
    method WriteSection(i: nat, tokens: TokenTable, symtab: SymbolTable, literals: SymbolTable,
                        modifs: SymbolTable, codeLine: string, ghost sec: Section, ghost enc: Section)
      returns (last: string)
      requires SectionOk(sec, instTable.instMap) && enc == Encoded(sec, instTable.instMap)
      requires tokens.Views() == enc.tokens && symtab.View() == enc.symbols && literals.View() == enc.literals
      requires modifs.View() == enc.modifs
      modifies this`codeList
      ensures codeList == old(codeList) + SectionRecords(sec, i, instTable.instMap, codeLine).0
      ensures last == SectionRecords(sec, i, instTable.instMap, codeLine).1
    {
      ghost var body, trailer := SectionParts(sec, i, instTable.instMap, codeLine);
      last := WriteTokens(tokens, symtab, literals, codeLine, enc, instTable.instMap);
      WriteTrailer(i, tokens, modifs, enc, trailer);
      Associative(old(codeList), body.0, trailer);
    }

    /** The Modification records of a section whose tables hold `enc`, then its End record. */
    method WriteTrailer(i: nat, tokens: TokenTable, modifs: SymbolTable, ghost enc: Section, ghost trailer: seq<string>)
      requires enc.Valid() && 1 <= |enc.tokens| && tokens.Views() == enc.tokens && modifs.View() == enc.modifs
      requires trailer == ModifRecords(enc.modifs, |enc.modifs.names|) + [EndRecord(i, enc.tokens)]
      modifies this`codeList
      ensures codeList == old(codeList) + trailer
    {
      WriteModifs(modifs, enc.modifs);
      WriteEnd(i, tokens, enc.tokens);
      Associative(old(codeList), ModifRecords(enc.modifs, |enc.modifs.names|), [EndRecord(i, enc.tokens)]);
    }

    /** The token table, symbol table and literal table of a section hold `enc`, whose
        tokens pass 2 can write with the catalog `inst`. */
    ghost predicate Writable(tokens: TokenTable, symtab: SymbolTable, literals: SymbolTable, enc: Section, inst: Catalog)
      reads instTable, tokens, tokens.tokenList, symtab, literals
    {
      && enc.Valid() && inst == instTable.instMap && RecordsOk(enc.tokens, inst)
      && tokens.Views() == enc.tokens && symtab.View() == enc.symbols && literals.View() == enc.literals
    }

    /** The loop of `pass2` over the tokens of a section that holds `enc`: one record per
        token, a Text record for a run of instructions. */
    method WriteTokens(tokens: TokenTable, symtab: SymbolTable, literals: SymbolTable, codeLine: string,
                       ghost enc: Section, ghost inst: Catalog)
      returns (last: string)
      requires Writable(tokens, symtab, literals, enc, inst)
      modifies this`codeList
      ensures var r := TokenRecords(enc.symbols, enc.literals, enc.tokens, inst, 0, codeLine);
        codeList == old(codeList) + r.0 && last == r.1
    {
      ghost var records := TokenRecords(enc.symbols, enc.literals, enc.tokens, inst, 0, codeLine);
      ghost var done: seq<string> := [];
      assert done + records.0 == records.0;
      last := codeLine;
      var j, count := 0, |tokens.tokenList|;
      while j < count
        invariant 0 <= j <= count == |enc.tokens| && codeList == old(codeList) + done
        invariant Writable(tokens, symtab, literals, enc, inst)
        invariant var rest := TokenRecords(enc.symbols, enc.literals, enc.tokens, inst, j, last);
          records == (done + rest.0, rest.1)
        decreases |enc.tokens| - j
      {
        j, last, done := WriteNext(tokens, symtab, literals, j, last, enc, inst, old(codeList), done, records);
      }
    }

    /** The body of the loop of `WriteTokens`: token `j` is written, and what is left to
        write is the rest of `records`. */
    method WriteNext(tokens: TokenTable, symtab: SymbolTable, literals: SymbolTable, j: nat, codeLine: string,
                     ghost enc: Section, ghost inst: Catalog, ghost start: seq<string>, ghost done: seq<string>,
                     ghost records: (seq<string>, string))
      returns (next: nat, line: string, ghost written: seq<string>)
      requires Writable(tokens, symtab, literals, enc, inst) && j < |enc.tokens| && codeList == start + done
      requires var rest := TokenRecords(enc.symbols, enc.literals, enc.tokens, inst, j, codeLine);
        records == (done + rest.0, rest.1)
      modifies this`codeList
      ensures j < next <= |enc.tokens| && codeList == start + written
      ensures var rest := TokenRecords(enc.symbols, enc.literals, enc.tokens, inst, next, line);
        records == (written + rest.0, rest.1)
    {
      written := RecordsAdvance(enc.symbols, enc.literals, enc.tokens, inst, j, codeLine, done, records);
      ghost var step := TokenRecord(enc.symbols, enc.literals, enc.tokens, inst, j, codeLine);
      next, line := WriteToken(tokens, symtab, literals, j, codeLine, enc, inst);
      Associative(start, done, step.0);
    }

    /** One iteration of the loop of `pass2` over the tokens of a section that holds `enc`:
        what it writes for token `j`, after the last record text `codeLine`. */
    method WriteToken(tokens: TokenTable, symtab: SymbolTable, literals: SymbolTable, j: nat, codeLine: string,
                      ghost enc: Section, ghost inst: Catalog)
      returns (next: nat, line: string)
      requires Writable(tokens, symtab, literals, enc, inst) && j < |enc.tokens|
      modifies this`codeList
      ensures var step := TokenRecord(enc.symbols, enc.literals, enc.tokens, inst, j, codeLine);
        codeList == old(codeList) + step.0 && next == step.1 && line == step.2
    {
      var written: bool;
      written, next, line := TokenLine(tokens, symtab, literals, j, codeLine, enc, inst);
      if written {
        codeList := codeList + [line];
      }
    }

    /** The record `pass2` writes for token `j` of a section that holds `enc`, if it writes
        one, with the index of the next token to look at. */
    method TokenLine(tokens: TokenTable, symtab: SymbolTable, literals: SymbolTable, j: nat, codeLine: string,
                     ghost enc: Section, ghost inst: Catalog)
      returns (written: bool, next: nat, line: string)
      requires Writable(tokens, symtab, literals, enc, inst) && j < |enc.tokens|
      ensures var step := TokenRecord(enc.symbols, enc.literals, enc.tokens, inst, j, codeLine);
        step.0 == (if written then [line] else []) && next == step.1 && line == step.2
    {
      var currentToken := tokens.GetToken(j);
      assert currentToken.View() == enc.tokens[j];
      written, next, line := false, j + 1, codeLine;
      if currentToken.labelName == "." {
        return;
      }
      var operator := currentToken.operator.value;
      if operator == "START" || operator == "CSECT" {
        line := HeaderLine(tokens, literals, currentToken);
      } else if operator == "EXTDEF" {
        line := DefineLine(symtab, currentToken.operand.value);
      } else if operator == "EXTREF" {
        line := ReferLine(currentToken.operand.value);
      } else if instTable.IsInstruction(operator) {
        line, next := TextLine(tokens, j);
      } else if operator == "BYTE" || operator == "WORD" {
      } else if operator == "LTORG" || operator == "END" {
        line := LiteralLine(literals, currentToken);
      } else {
        return;
      }
      written := true;
    }

    /** The Header record of the section of `tokens`, named by `token`. */
    method HeaderLine(tokens: TokenTable, literals: SymbolTable, token: Token) returns (line: string)
      requires 1 <= |tokens.tokenList|
      ensures line == HeaderRecord(literals.View(), tokens.Views(), token.View())
    {
      ghost var views := tokens.Views();
      var startAddress := tokens.GetToken(0).location;
      var programSize := 0;
      var k := 0;
      while k < |tokens.tokenList|
        invariant 0 <= k <= |views| && programSize == SizeSum(views[..k])
      {
        programSize := programSize + tokens.GetToken(k).byteSize;
        assert views[..k + 1][..k] == views[..k];
        k := k + 1;
      }
      assert views[..k] == views;
      ghost var names := literals.symbolList;
      k := 0;
      while k < literals.GetSize()
        invariant 0 <= k <= |names| && programSize == SizeSum(views) + LiteralSum(names[..k])
      {
        programSize := programSize + literals.GetLiteralSize(k);
        assert names[..k + 1][..k] == names[..k];
        k := k + 1;
      }
      assert names[..k] == names;
      line := "H" + token.labelName + " " + FormatHex(startAddress, 6) + FormatHex(programSize - startAddress, 6);
    }

    /** The Define record of the names `names`, with their addresses in `symtab`. */
    method DefineLine(symtab: SymbolTable, names: seq<string>) returns (line: string)
      requires symtab.Valid()
      ensures line == "D" + DefineEntries(names, symtab.View())
    {
      var entries := "";
      var k := 0;
      while k < |names|
        invariant 0 <= k <= |names| && entries == DefineEntries(names[..k], symtab.View())
      {
        var address := symtab.Search(names[k]);
        entries := entries + names[k] + FormatHex(address, 6);
        assert names[..k + 1][..k] == names[..k];
        k := k + 1;
      }
      assert names[..k] == names;
      line := "D" + entries;
    }

    /** The Refer record of the names `names`. */
    method ReferLine(names: seq<string>) returns (line: string)
      ensures line == "R" + Concat(names)
    {
      var entries := "";
      var k := 0;
      while k < |names|
        invariant 0 <= k <= |names| && entries == Concat(names[..k])
      {
        entries := entries + names[k];
        assert names[..k + 1][..k] == names[..k];
        k := k + 1;
      }
      assert names[..k] == names;
      line := "R" + entries;
    }

    /** The Text record of the run of instructions that starts at token `j`, and the
        index after the run. */
    method TextLine(tokens: TokenTable, j: nat) returns (line: string, next: nat)
      requires j < |tokens.tokenList|
      requires 0 < tokens.Views()[j].byteSize <= 30
      requires tokens.Views()[j].operator != Some("RESW") && tokens.Views()[j].operator != Some("RESB")
      ensures next == RunEnd(tokens.Views(), j, 0) && j < next
      ensures line == TextRecord(tokens.Views(), j, next)
    {
      var lineSize;
      next, lineSize := RunLength(tokens, j);
      var codes := RunCodes(tokens, j, next);
      line := "T" + FormatHex(tokens.GetToken(j).location, 6) + FormatHex(lineSize, 2) + codes;
    }

    /** The first inner loop of the Text record case of `pass2`: the run that starts at
        token `j` ends before `next` and holds `lineSize` bytes. */
    method RunLength(tokens: TokenTable, j: nat) returns (next: nat, lineSize: int)
      requires j < |tokens.tokenList|
      requires 0 < tokens.Views()[j].byteSize <= 30
      requires tokens.Views()[j].operator != Some("RESW") && tokens.Views()[j].operator != Some("RESB")
      ensures next == RunEnd(tokens.Views(), j, 0) && j < next <= |tokens.tokenList|
      ensures lineSize == SizeSum(tokens.Views()[j..next])
    {
      ghost var views := tokens.Views();
      lineSize := 0;
      next := j;
      while next < |tokens.tokenList|
        invariant j <= next <= |views| && lineSize == SizeSum(views[j..next])
        invariant RunEnd(views, next, lineSize) == RunEnd(views, j, 0)
        invariant next == j ==> lineSize == 0
      {
        var token := tokens.GetToken(next);
        if token.byteSize == 0 || token.operator == Some("RESW") || token.operator == Some("RESB")
           || lineSize + token.byteSize > 30 {
          break;
        }
        lineSize := lineSize + token.byteSize;
        assert views[j..next + 1][..next - j] == views[j..next];
        next := next + 1;
      }
    }

    /** The second inner loop of the Text record case of `pass2`: the object codes of the
        tokens from `j` up to `next`. */
    method RunCodes(tokens: TokenTable, j: nat, next: nat) returns (codes: string)
      requires j <= next <= |tokens.tokenList|
      ensures codes == Codes(tokens.Views()[j..next])
    {
      ghost var views := tokens.Views();
      codes := "";
      var k := j;
      while k < next
        invariant j <= k <= next && codes == Codes(views[j..k])
      {
        var code := CodeText(tokens.GetToken(k).View());
        CodesNext(views, j, k);
        codes := codes + code;
        k := k + 1;
      }
    }

    /** The Text record of the literal pool of `literals`, placed at `token`. */
    method LiteralLine(literals: SymbolTable, token: Token) returns (line: string)
      ensures line == LiteralRecord(token.View(), literals.View())
    {
      var lineSize := LiteralBytes(literals);
      var codes := LiteralTexts(literals);
      line := "T" + FormatHex(token.location, 6) + FormatHex(lineSize, 2) + codes;
    }

    /** The first loop over the literal pool: the bytes of all literals of `literals`. */
    method LiteralBytes(literals: SymbolTable) returns (lineSize: int)
      ensures lineSize == LiteralSum(literals.symbolList)
    {
      ghost var names := literals.symbolList;
      lineSize := 0;
      var k := 0;
      while k < literals.GetSize()
        invariant 0 <= k <= |names| && lineSize == LiteralSum(names[..k])
      {
        lineSize := lineSize + literals.GetLiteralSize(k);
        assert names[..k + 1][..k] == names[..k];
        k := k + 1;
      }
      assert names[..k] == names;
    }

    /** The second loop over the literal pool: the data of all literals of `literals`. */
    method LiteralTexts(literals: SymbolTable) returns (codes: string)
      ensures codes == LiteralCodes(literals.symbolList)
    {
      ghost var names := literals.symbolList;
      codes := "";
      var k := 0;
      while k < literals.GetSize()
        invariant 0 <= k <= |names| && codes == LiteralCodes(names[..k])
      {
        var literalData := LiteralText(literals, k);
        codes := codes + literalData;
        assert names[..k + 1][..k] == names[..k];
        k := k + 1;
      }
      assert names[..k] == names;
    }

    /** The data of literal `k` of `literals`. */
    method LiteralText(literals: SymbolTable, k: nat) returns (literalData: string)
      requires k < |literals.symbolList|
      ensures literalData == LiteralData(literals.symbolList[k])
    {
      literalData := literals.GetSymbol(k);
      ContainsChar(literalData, 'X');
      ContainsChar(literalData, 'C');
      if Contains(literalData, "X") {
        literalData := Without(literalData, {'X', '\''});
      } else if Contains(literalData, "C") {
        var temp := "";
        literalData := Without(literalData, {'C', '\''});
        var l := 0;
        while l < literals.GetLiteralSize(k)
          invariant 0 <= l <= |literalData| && temp == CharCodes(literalData[..l])
        {
          temp := temp + FormatHex(literalData[l] as int, 2);
          assert literalData[..l + 1][..l] == literalData[..l];
          l := l + 1;
        }
        assert literalData[..l] == literalData;
        literalData := temp;
      }
    }

    /** The Modification records of `modifs`, which holds `table`, in order. */
    method WriteModifs(modifs: SymbolTable, ghost table: Table)
      requires table.Valid() && |table.widths| == |table.names| && modifs.View() == table
      modifies this`codeList
      ensures codeList == old(codeList) + ModifRecords(table, |table.names|)
    {
      var j := 0;
      while j < modifs.GetSize()
        invariant 0 <= j <= |table.names| && codeList == old(codeList) + ModifRecords(table, j)
      {
        codeList := codeList + ["M" + FormatHex(modifs.GetLocation(j), 6) + FormatHex(modifs.GetModifSize(j), 2)
                                + modifs.GetSymbol(j)];
        j := j + 1;
      }
    }

    /** The End record of section number `i`, whose tokens are `views`. */
    method WriteEnd(i: nat, tokens: TokenTable, ghost views: seq<TokenView>)
      requires 1 <= |views| && tokens.Views() == views
      modifies this`codeList
      ensures codeList == old(codeList) + [EndRecord(i, views)]
    {
      if i == 0 {
        codeList := codeList + ["E" + FormatHex(tokens.GetToken(0).location, 6)];
      } else {
        codeList := codeList + ["E"];
      }
    }

  }
}
