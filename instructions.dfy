/**
 * The instruction catalog: one line per SIC/XE mnemonic, `mnemonic format opcode
 * arity`, read into a table keyed by mnemonic.
 */
module Instructions {
  import opened Strings
  import opened Options

  /** One catalog entry; `opcode` was written in hex, the other numbers in decimal. */
  datatype Instruction = Instruction(instruction: string, format: int, opcode: int, numberOfOperand: int)

  /** A line the parser accepts: four blank-separated fields, the last three numbers
      that `Integer.parseInt` reads in radix 10, 16 and 10. */
  predicate WellFormedLine(line: string)
  {
    var w := Words(line);
    |w| >= 4 && IsInt(w[1], 10) && IsInt(w[2], 16) && IsInt(w[3], 10)
  }

  /** `Instruction.parsing`: the first four blank-separated fields, in order. */
  function Parse(line: string): (i: Instruction)
    requires WellFormedLine(line)
    ensures i.instruction != [] && ' ' !in i.instruction
  {
    var w := Words(line);
    assert w[0] in w;
    WordsAreWords(line);
    Instruction(w[0], ParseInt(w[1], 10), ParseInt(w[2], 16), ParseInt(w[3], 10))
  }

  lemma WordsAreWords(line: string)
    ensures forall k :: 0 <= k < |Words(line)| ==> Words(line)[k] != [] && ' ' !in Words(line)[k]
  {
    var f := Fields(line, ' ');
    NonEmptyFrom(f);
  }

  lemma {:induction false} NonEmptyFrom(r: seq<string>)
    ensures forall k :: 0 <= k < |NonEmpty(r)| ==> NonEmpty(r)[k] in r
  {
    if r != [] {
      NonEmptyFrom(r[1..]);
      var t := NonEmpty(r[1..]);
      forall k | 0 <= k < |NonEmpty(r)| ensures NonEmpty(r)[k] in r {
        if r[0] != "" && k == 0 {
        } else {
          var j := if r[0] == "" then k else k - 1;
          assert NonEmpty(r)[k] == t[j];
          assert t[j] in r[1..];
        }
      }
    }
  }

  /** An entry that can be written as a catalog line: a blank-free mnemonic and
      numbers that fit a Java `int` without a sign. */
  predicate Printable(i: Instruction)
  {
    i.instruction != [] && ' ' !in i.instruction
    && 0 <= i.format <= IntMax && 0 <= i.opcode <= IntMax && 0 <= i.numberOfOperand <= IntMax
  }

  /** The catalog line of an entry. */
  function Render(i: Instruction): string
    requires Printable(i)
  {
    Join([i.instruction, Numeral(i.format, 10), Numeral(i.opcode, 16), Numeral(i.numberOfOperand, 10)], ' ')
  }

  /** A numeral reads back as its value. */
  lemma NumeralParses(n: nat, radix: nat)
    requires IsRadix(radix) && n <= IntMax
    ensures ' ' !in Numeral(n, radix)
    ensures IsInt(Numeral(n, radix), radix) && ParseInt(Numeral(n, radix), radix) == n
  {
    var s := Numeral(n, radix);
    NumeralDigits(n, radix);
    assert DigitValue(s[0]) < radix;
    assert Magnitude(s) == s;
  }

  lemma {:induction false} NonEmptyAll(r: seq<string>)
    requires forall k :: 0 <= k < |r| ==> r[k] != ""
    ensures NonEmpty(r) == r
  {
    if r != [] {
      NonEmptyAll(r[1..]);
    }
  }

  /** The words of a rendered line are its four fields. */
  lemma RenderWords(i: Instruction)
    requires Printable(i)
    ensures Words(Render(i))
      == [i.instruction, Numeral(i.format, 10), Numeral(i.opcode, 16), Numeral(i.numberOfOperand, 10)]
  {
    var r := [i.instruction, Numeral(i.format, 10), Numeral(i.opcode, 16), Numeral(i.numberOfOperand, 10)];
    NumeralParses(i.format, 10);
    NumeralParses(i.opcode, 16);
    NumeralParses(i.numberOfOperand, 10);
    assert forall k :: 0 <= k < |r| ==> r[k] != "" && ' ' !in r[k];
    FieldsJoin(r, ' ');
    NonEmptyAll(r);
  }

  /** Parsing the rendered line gives back the entry. */
  lemma ParseRender(i: Instruction)
    requires Printable(i)
    ensures WellFormedLine(Render(i)) && Parse(Render(i)) == i
  {
    var line := Render(i);
    RenderWords(i);
    NumeralParses(i.format, 10);
    NumeralParses(i.opcode, 16);
    NumeralParses(i.numberOfOperand, 10);
    var r := Words(line);
    assert WellFormedLine(line);
    assert Parse(line) == Instruction(r[0], ParseInt(r[1], 10), ParseInt(r[2], 16), ParseInt(r[3], 10));
  }

  /** Every line of a catalog file is well formed. */
  predicate WellFormed(lines: seq<string>)
  {
    forall k :: 0 <= k < |lines| ==> WellFormedLine(lines[k])
  }

  /** The entries of the lines, in file order. */
  function Entries(lines: seq<string>): (r: seq<Instruction>)
    requires WellFormed(lines)
    ensures |r| == |lines|
  {
    if lines == [] then []
    else
      var init := lines[..|lines| - 1];
      assert forall k :: 0 <= k < |init| ==> init[k] == lines[k];
      Entries(init) + [Parse(lines[|lines| - 1])]
  }

  /** The catalog after storing `entries` into `m` one by one, each under its mnemonic,
      replacing any earlier entry of that mnemonic. */
  function Load(m: map<string, Instruction>, entries: seq<Instruction>): map<string, Instruction>
    decreases |entries|
  {
    if entries == [] then m
    else Load(m[entries[0].instruction := entries[0]], entries[1..])
  }

  /** The last of `entries` with mnemonic `name`, if there is one. */
  function LastEntry(entries: seq<Instruction>, name: string): Option<Instruction>
  {
    if entries == [] then None
    else if entries[|entries| - 1].instruction == name then Some(entries[|entries| - 1])
    else LastEntry(entries[..|entries| - 1], name)
  }

  /** Storing one more entry puts it on top of the catalog stored so far. */
  lemma {:induction false} LoadSnoc(m: map<string, Instruction>, entries: seq<Instruction>, i: Instruction)
    ensures Load(m, entries + [i]) == Load(m, entries)[i.instruction := i]
    decreases |entries|
  {
    if entries != [] {
      assert (entries + [i])[1..] == entries[1..] + [i];
      LoadSnoc(m[entries[0].instruction := entries[0]], entries[1..], i);
    }
  }

  /** Loading one more line of `lines` stores its entry last. */
  lemma LoadNext(m: map<string, Instruction>, lines: seq<string>, n: nat)
    requires WellFormed(lines) && n < |lines|
    ensures WellFormed(lines[..n]) && WellFormed(lines[..n + 1])
    ensures Load(m, Entries(lines[..n + 1])) == Load(m, Entries(lines[..n]))[Parse(lines[n]).instruction := Parse(lines[n])]
  {
    var done := lines[..n + 1];
    assert done[..n] == lines[..n];
    assert WellFormed(done);
    assert Entries(done) == Entries(lines[..n]) + [Parse(lines[n])];
    LoadSnoc(m, Entries(lines[..n]), Parse(lines[n]));
  }

  /** A later entry of the same mnemonic replaces the earlier one: after storing
      `entries`, `name` holds its last entry, or what it held before if none names it. */
  lemma {:induction false} LoadLast(m: map<string, Instruction>, entries: seq<Instruction>, name: string)
    ensures LastEntry(entries, name).Some? ==> name in Load(m, entries) && Load(m, entries)[name] == LastEntry(entries, name).value
    ensures LastEntry(entries, name).None? ==> (name in Load(m, entries) <==> name in m)
    ensures LastEntry(entries, name).None? && name in m ==> Load(m, entries)[name] == m[name]
    decreases |entries|
  {
    if entries != [] {
      var init := entries[..|entries| - 1];
      var last := entries[|entries| - 1];
      assert entries == init + [last];
      LoadSnoc(m, init, last);
      LoadLast(m, init, name);
    }
  }

  /** The contents of an instruction table: each mnemonic's entry. */
  type Catalog = map<string, Instruction>

  /** The opcode of `name`, or -1 when `catalog` does not know it. */
  function OpcodeOf(catalog: Catalog, name: string): int
  {
    if name in catalog then catalog[name].opcode else -1
  }

  /** The operand count of `name`, or -1 when `catalog` does not know it. */
  function OperandCountOf(catalog: Catalog, name: string): int
  {
    if name in catalog then catalog[name].numberOfOperand else -1
  }

  /** The format of `name`, or 0 when `catalog` does not know it. */
  function FormatOf(catalog: Catalog, name: string): int
  {
    if name in catalog then catalog[name].format else 0
  }

  /** `InstTable`: the catalog of instructions, keyed by mnemonic. */
  class InstTable {
    var instMap: Catalog

    /** A table built from the lines of a catalog file. */
    constructor (lines: seq<string>)
      requires WellFormed(lines)
      ensures instMap == Load(map[], Entries(lines))
    {
      instMap := map[];
      new;
      OpenFile(lines);
    }

    /** Reads every line into the map, under its mnemonic. */
    method OpenFile(lines: seq<string>)
      requires WellFormed(lines)
      modifies this
      ensures instMap == Load(old(instMap), Entries(lines))
    {
      var n := 0;
      while n < |lines|
        invariant 0 <= n <= |lines|
        invariant WellFormed(lines[..n])
        invariant instMap == Load(old(instMap), Entries(lines[..n]))
      {
        var inst := Parse(lines[n]);
        LoadNext(old(instMap), lines, n);
        instMap := instMap[inst.instruction := inst];
        n := n + 1;
      }
      assert lines[..n] == lines;
    }

    /** The opcode of `name`, or -1 when the catalog does not know it. */
    function GetOpcode(name: string): (r: int)
      reads this
      ensures name in instMap ==> r == instMap[name].opcode
      ensures name !in instMap ==> r == -1
    {
      OpcodeOf(instMap, name)
    }

    /** The operand count of `name`, or -1 when the catalog does not know it. */
    function GetNumberOfOperand(name: string): (r: int)
      reads this
      ensures name in instMap ==> r == instMap[name].numberOfOperand
      ensures name !in instMap ==> r == -1
    {
      OperandCountOf(instMap, name)
    }

    /** The format of `name`, or 0 when the catalog does not know it. */
    function GetFormat(name: string): (r: int)
      reads this
      ensures name in instMap ==> r == instMap[name].format
      ensures name !in instMap ==> r == 0
    {
      FormatOf(instMap, name)
    }

    /** Whether `name` is a mnemonic of the catalog. */
    predicate IsInstruction(name: string)
      reads this
    {
      name in instMap
    }
  }

  /** After loading `lines` into an empty table, each getter answers from the last line
      naming the mnemonic, and with its sentinel when no line names it. */
  lemma LookupAfterLoad(t: InstTable, lines: seq<string>, name: string)
    requires WellFormed(lines)
    requires t.instMap == Load(map[], Entries(lines))
    ensures t.IsInstruction(name) <==> LastEntry(Entries(lines), name).Some?
    ensures t.GetOpcode(name) == if LastEntry(Entries(lines), name).Some? then LastEntry(Entries(lines), name).value.opcode else -1
    ensures t.GetFormat(name) == if LastEntry(Entries(lines), name).Some? then LastEntry(Entries(lines), name).value.format else 0
    ensures t.GetNumberOfOperand(name) == if LastEntry(Entries(lines), name).Some? then LastEntry(Entries(lines), name).value.numberOfOperand else -1
  {
    LoadLast(map[], Entries(lines), name);
  }
}
