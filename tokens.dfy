/**
 * Tokens of a SIC/XE source program: a source line split into label, operator,
 * operands and comment, its size in bytes, its n/i/x/b/p/e flags and, in the
 * second pass, its object code.
 */
module Tokens {
  import opened Strings
  import opened Options
  import opened Instructions
  import opened Symbols

  /** At most this many comma-separated operands are split off. */
  const MaxOperand: nat := 3

  const NFlag: bv8 := 32
  const IFlag: bv8 := 16
  const XFlag: bv8 := 8
  const BFlag: bv8 := 4
  const PFlag: bv8 := 2
  const EFlag: bv8 := 1

  /** One of the six flag bits. */
  predicate IsFlag(f: bv8)
  {
    f == NFlag || f == IFlag || f == XFlag || f == BFlag || f == PFlag || f == EFlag
  }

  /** The fields of a token at one moment; `None` where the program keeps `null`. */
  datatype TokenView = TokenView(
    location: int,
    labelName: string,
    operator: Option<string>,
    operand: Option<seq<string>>,
    comment: Option<string>,
    nixbpe: bv8,
    objectCode: Option<string>,
    byteSize: int)

  /** The shape every parsed token has: a list of operands is never empty, only a comment
      token (labelled `.`) lacks an operator, and a token without operator has no size. */
  predicate WellShaped(t: TokenView)
  {
    && (t.operand.Some? ==> 1 <= |t.operand.value| <= MaxOperand)
    && (t.labelName != "." ==> t.operator.Some?)
    && (t.operator.None? ==> t.byteSize == 0)
  }

  // ---------------------------------------------------------------------------
  // Flags
  // ---------------------------------------------------------------------------

  /** `setFlag`: value 1 turns the bits of `flag` on; any other value flips them. */
  function SetBits(nixbpe: bv8, flag: bv8, value: int): bv8
  {
    if value == 1 then nixbpe | flag else nixbpe ^ flag
  }

  /** `getFlag`: the bits of `flags` that are on, as a number. */
  function Flag(nixbpe: bv8, flags: bv8): (r: int)
    ensures 0 <= r <= flags as int
  {
    (nixbpe & flags) as int
  }

  /** Setting a flag turns it on; clearing it flips it, so it ends up off only if it
      was on; neither touches another flag. */
  lemma SetFlagBits(x: bv8, f: bv8, g: bv8)
    requires IsFlag(f) && IsFlag(g)
    ensures Flag(SetBits(x, f, 1), f) == f as int
    ensures Flag(SetBits(x, f, 0), f) == if Flag(x, f) == 0 then f as int else 0
    ensures f != g ==> Flag(SetBits(x, f, 1), g) == Flag(x, g) && Flag(SetBits(x, f, 0), g) == Flag(x, g)
  {
  }

  /** The flags `parsing` sets first: `e` for an extended operator, otherwise `p` when
      the token has operands and a positive size. */
  function BaseFlags(extended: bool, size: int, operand: Option<seq<string>>): bv8
  {
    if extended then SetBits(0, EFlag, 1)
    else if operand.Some? && size > 0 then SetBits(0, PFlag, 1)
    else 0
  }

  /** The flags `parsing` then sets for a size of at least 3: `x` for indexing and `n`/`i`
      by addressing mode, where a `#` operand also flips `p`. */
  function ModeFlags(f: bv8, size: int, operand: Option<seq<string>>): bv8
    requires operand.Some? ==> |operand.value| >= 1
  {
    if size < 3 then f
    else if operand.None? then SetBits(SetBits(f, NFlag, 1), IFlag, 1)
    else
      var ops := operand.value;
      var g := if |ops| > 1 && ops[1] == "X" then SetBits(f, XFlag, 1) else f;
      if Contains(ops[0], "#") then SetBits(SetBits(g, IFlag, 1), PFlag, 0)
      else if Contains(ops[0], "@") then SetBits(g, NFlag, 1)
      else SetBits(SetBits(g, NFlag, 1), IFlag, 1)
  }

  /** The flags of a token. */
  function Flags(extended: bool, size: int, operand: Option<seq<string>>): bv8
    requires operand.Some? ==> |operand.value| >= 1
  {
    ModeFlags(BaseFlags(extended, size, operand), size, operand)
  }

  /** Each flag bit of a token, stated on its own. */
  lemma FlagsMeaning(extended: bool, size: int, operand: Option<seq<string>>)
    requires operand.Some? ==> |operand.value| >= 1
    ensures var f := Flags(extended, size, operand);
      var imm := operand.Some? && Contains(operand.value[0], "#");
      var ind := operand.Some? && Contains(operand.value[0], "@");
      && (Flag(f, EFlag) == 1 <==> extended)
      && (Flag(f, PFlag) == 2 <==> ((!extended && operand.Some? && size > 0) != (size >= 3 && imm)))
      && (Flag(f, NFlag) == 32 <==> size >= 3 && !imm)
      && (Flag(f, IFlag) == 16 <==> size >= 3 && (imm || !ind))
      && (Flag(f, XFlag) == 8 <==> size >= 3 && operand.Some? && |operand.value| > 1 && operand.value[1] == "X")
      && Flag(f, BFlag) == 0
  {
  }

  // ---------------------------------------------------------------------------
  // Parsing a line
  // ---------------------------------------------------------------------------

  /** `getInstSize` is defined: `RESB` and `RESW` that are no catalog entries need a
      decimal first operand. */
  predicate SizeDefined(inst: Catalog, op: string, operand: Option<seq<string>>)
  {
    op in inst || (op != "RESB" && op != "RESW")
    || (operand.Some? && |operand.value| >= 1 && IsInt(operand.value[0], 10))
  }

  /** `getInstSize`: the size in bytes of a token whose operator has no `+`. */
  function InstSize(inst: Catalog, op: string, operand: Option<seq<string>>): (n: int)
    requires SizeDefined(inst, op, operand)
    ensures op in inst ==> n == FormatOf(inst, op)
    ensures op !in inst && op == "RESB" ==> n == ParseInt(operand.value[0], 10)
    ensures op !in inst && op == "RESW" ==> n == 3 * ParseInt(operand.value[0], 10)
    ensures op !in inst && op == "BYTE" ==> n == 1
    ensures op !in inst && op == "WORD" ==> n == 3
    ensures op !in inst && op !in {"RESB", "RESW", "BYTE", "WORD"} ==> n == 0
  {
    if op in inst then FormatOf(inst, op)
    else if op == "RESB" then ParseInt(operand.value[0], 10)
    else if op == "RESW" then ParseInt(operand.value[0], 10) * 3
    else if op == "BYTE" then 1
    else if op == "WORD" then 3
    else 0
  }

  /** The operands of a non-comment line: its third field split at commas into at most
      three, for an operator whose operand count is not 0 (unknown operators count -1). */
  function Operands(units: seq<string>, inst: Catalog): (r: Option<seq<string>>)
    requires |units| >= 2
    ensures r.Some? ==> 1 <= |r.value| <= MaxOperand
  {
    if OperandCountOf(inst, units[1]) != 0 && |units| > 2 then Some(SplitAtMost(units[2], ',', MaxOperand))
    else None
  }

  /** The comment of a non-comment line: the field after the operands, or the third
      field for an operator that takes no operand. */
  function CommentOf(units: seq<string>, inst: Catalog): Option<string>
    requires |units| >= 2 && (OperandCountOf(inst, units[1]) == 0 ==> |units| >= 3)
  {
    if OperandCountOf(inst, units[1]) != 0 then (if |units| > 3 then Some(units[3]) else None)
    else Some(units[2])
  }

  /** A line `parsing` handles without an exception: at least one field; a non-comment
      line has an operator, a third field when the operator takes no operand, and a
      size that `getInstSize` can compute. */
  predicate Tokenizable(line: string, inst: Catalog)
  {
    var units := Split(line, '\t');
    |units| >= 1
    && (units[0] != "." ==>
          |units| >= 2
          && (OperandCountOf(inst, units[1]) == 0 ==> |units| >= 3)
          && (Contains(units[1], "+") || SizeDefined(inst, units[1], Operands(units, inst))))
  }

  /** The token `Token.parsing` makes of `line` while the location counter is `loc`. */
  function Tokenize(line: string, inst: Catalog, loc: int): (t: TokenView)
    requires Tokenizable(line, inst)
    ensures t.objectCode.None? && WellShaped(t)
  {
    var units := Split(line, '\t');
    if units[0] == "." then
      TokenView(0, ".", None, None, if |units| > 1 then Some(units[1]) else None, 0, None, 0)
    else
      var op := units[1];
      var operand := Operands(units, inst);
      var comment := CommentOf(units, inst);
      var extended := Contains(op, "+");
      var size := if extended then 4 else InstSize(inst, op, operand);
      TokenView(loc, units[0], Some(op), operand, comment, Flags(extended, size, operand), None, size)
  }

  /** A line whose first field is `.` is a comment: no operator, no size, no flags. */
  lemma CommentLine(line: string, inst: Catalog, loc: int)
    requires Tokenizable(line, inst) && Split(line, '\t')[0] == "."
    ensures var t := Tokenize(line, inst, loc);
      t.labelName == "." && t.operator.None? && t.operand.None? && t.byteSize == 0 && t.nixbpe == 0
  {
  }

  /** An operator with a `+` makes a 4-byte token with `e` set; otherwise a token with
      operands and a positive size has `p` set unless a `#` operand flipped it; every
      other token is placed at the location counter. */
  lemma OperatorLine(line: string, inst: Catalog, loc: int)
    requires Tokenizable(line, inst) && Split(line, '\t')[0] != "."
    ensures var t := Tokenize(line, inst, loc);
      && t.operator == Some(Split(line, '\t')[1]) && t.location == loc
      && (Contains(t.operator.value, "+") ==> t.byteSize == 4 && Flag(t.nixbpe, EFlag) == 1)
      && ((!Contains(t.operator.value, "+") && t.operand.Some? && t.byteSize > 0
            && !(t.byteSize >= 3 && Contains(t.operand.value[0], "#"))) ==> Flag(t.nixbpe, PFlag) == 2)
      && (!Contains(t.operator.value, "+") ==> Flag(t.nixbpe, EFlag) == 0)
  {
    var units := Split(line, '\t');
    var op := units[1];
    var operand := Operands(units, inst);
    var extended := Contains(op, "+");
    var size := if extended then 4 else InstSize(inst, op, operand);
    FlagsMeaning(extended, size, operand);
  }

  // ---------------------------------------------------------------------------
  // Object code
  // ---------------------------------------------------------------------------

  /** `addressToString`: the address in 5 hex digits for a 4-byte token and 3 otherwise;
      a negative address keeps only the last 3 or 5 digits of its two's complement. */
  function AddressToString(address: int, size: int): (r: string)
    ensures |r| >= 3
    ensures size == 4 ==> |r| >= 5
  {
    var addressData := if size == 4 then FormatHex(address, 5) else FormatHex(address, 3);
    if address < 0 then
      if size == 3 then Tail(addressData, 3)
      else if size == 4 then Tail(addressData, 5)
      else addressData
    else addressData
  }

  /** The digit count of the address field of a token of `size` bytes. */
  function AddressWidth(size: int): nat
  {
    if size == 4 then 5 else 3
  }

  /** A negative address prints as exactly the low 3 or 5 hex digits of its 32-bit two's
      complement; a non-negative one as its own value, in exactly 3 or 5 digits when
      it fits. */
  lemma AddressDigits(address: int, size: int)
    requires size == 3 || size == 4
    ensures var r := AddressToString(address, size);
      var w := AddressWidth(size);
      && (IntMin <= address < 0 ==> r == LowHex(address + Word32, w) && |r| == w)
      && (0 <= address ==> AllDigits(r, 16) && DigitsValue(r, 16) == address)
      && (0 <= address < Pow16(w) ==> |r| == w)
  {
    var w := AddressWidth(size);
    if IntMin <= address < 0 {
      PaddedHexTail(address + Word32, w, w);
    }
    FormatHexValue(address, w);
  }

  /** The register names in the order of their numbers. */
  const Registers: seq<string> := ["A", "X", "L", "B", "S", "T"]

  /** The number of register `name`; 0 for a name that is no register. */
  function RegisterNumber(name: string): (r: nat)
    ensures r < |Registers|
  {
    if name == "A" then 0
    else if name == "X" then 1
    else if name == "L" then 2
    else if name == "B" then 3
    else if name == "S" then 4
    else if name == "T" then 5
    else 0
  }

  /** Register numbers are the positions in `Registers`. */
  lemma RegisterNumbers(name: string)
    ensures forall k :: 0 <= k < |Registers| ==> RegisterNumber(Registers[k]) == k
    ensures name !in Registers ==> RegisterNumber(name) == 0
  {
  }

  /** The operator as a catalog key: without its `+` signs. */
  function Mnemonic(t: TokenView): string
    requires t.operator.Some?
  {
    Without(t.operator.value, {'+'})
  }

  /** `makeObjectCode` runs without an exception on this token: a format-3/4 instruction
      that takes an operand has one, decimal when immediate; a register instruction has
      one or two operands as its count asks; `BYTE`/`WORD` has an operand. */
  predicate Encodable(t: TokenView, inst: Catalog)
  {
    t.operator.Some? ==>
      var op := Mnemonic(t);
      var ops := t.operand;
      if op in inst then
        if FormatOf(inst, op) == 3 then
          (OperandCountOf(inst, op) >= 1 && (Flag(t.nixbpe, NFlag) == 32 || Flag(t.nixbpe, IFlag) == 16) ==>
             ops.Some? && |ops.value| >= 1
             && (Flag(t.nixbpe, NFlag) != 32 ==> IsInt(Without(ops.value[0], {'#'}), 10)))
        else
          ops.Some? && |ops.value| >= (if OperandCountOf(inst, op) == 1 then 1 else 2)
      else
        (op == "BYTE" || op == "WORD") ==> ops.Some? && |ops.value| >= 1
  }

  /** The target address of a format-3/4 token: a symbol (or, with `=`, literal) looked up
      for `n`, the number after `#` for immediate `i` only; made relative to `pc` when `p`
      is set, and 0 when only `e` is; 0 for an instruction without operands. */
  function TargetAddress(t: TokenView, pc: int, inst: Catalog, symbols: Table, literals: Table): int
    requires t.operator.Some? && Encodable(t, inst) && symbols.Valid() && literals.Valid()
    requires Mnemonic(t) in inst && FormatOf(inst, Mnemonic(t)) == 3
  {
    if OperandCountOf(inst, Mnemonic(t)) >= 1 then
      var base :=
        if Flag(t.nixbpe, NFlag) == 32 then
          var name := Without(t.operand.value[0], {'@'});
          if '=' in name then Lookup(literals.names, literals.locs, Without(name, {'='}))
          else Lookup(symbols.names, symbols.locs, name)
        else if Flag(t.nixbpe, IFlag) == 16 then ParseInt(Without(t.operand.value[0], {'#'}), 10)
        else 0;
      if Flag(t.nixbpe, PFlag) == 2 then base - pc
      else if Flag(t.nixbpe, EFlag) == 1 then 0
      else base
    else 0
  }

  /** The object code `makeObjectCode` gives a token, if any: format 3/4 as opcode plus
      `n`/`i` in two hex digits, `xbpe` in one and the address field; other instructions
      as opcode and two register digits; `BYTE`/`WORD` with an `X` as the operand without
      `X` and quotes. */
  function ObjectCode(t: TokenView, pc: int, inst: Catalog, symbols: Table, literals: Table): Option<string>
    requires Encodable(t, inst) && symbols.Valid() && literals.Valid()
  {
    if t.operator.None? then None
    else
      var op := Mnemonic(t);
      if op in inst then
        if FormatOf(inst, op) == 3 then
          var opcode := OpcodeOf(inst, op) + Flag(t.nixbpe, NFlag) / 16 + Flag(t.nixbpe, IFlag) / 16;
          var xbpe := Flag(t.nixbpe, XFlag) + Flag(t.nixbpe, BFlag) + Flag(t.nixbpe, PFlag) + Flag(t.nixbpe, EFlag);
          Some(FormatHex(opcode, 2) + FormatHex(xbpe, 1)
               + AddressToString(TargetAddress(t, pc, inst, symbols, literals), t.byteSize))
        else
          var ops := t.operand.value;
          var r2 := if OperandCountOf(inst, op) == 1 then 0 else RegisterNumber(ops[1]);
          Some(FormatHex(OpcodeOf(inst, op), 2) + FormatHex(RegisterNumber(ops[0]), 1) + FormatHex(r2, 1))
      else if (op == "BYTE" || op == "WORD") && Contains(t.operand.value[0], "X") then
        Some(Without(t.operand.value[0], {'X', '\''}))
      else None
  }

  /** The token after `makeObjectCode` with program counter `pc` (already advanced past it). */
  function Encode(t: TokenView, pc: int, inst: Catalog, symbols: Table, literals: Table): (e: TokenView)
    requires Encodable(t, inst) && symbols.Valid() && literals.Valid()
    ensures e == t.(objectCode := e.objectCode)
  {
    var code := ObjectCode(t, pc, inst, symbols, literals);
    if code.Some? then t.(objectCode := code) else t
  }

  /** One hex digit for a value below 16. */
  lemma HexDigit(v: nat)
    requires v < 16
    ensures FormatHex(v, 1) == [DigitChar(v)]
  {
    assert Pow16(1) == 16;
  }

  /** A flag reads as 0 or as its own bit. */
  lemma SingleBit(x: bv8, f: bv8)
    requires IsFlag(f)
    ensures Flag(x, f) == 0 || Flag(x, f) == f as int
  {
  }

  /** The `n` and `i` flags divided by 16 are 2 and 1 when set, 0 when not. */
  lemma FlagQuotients(x: bv8)
    ensures Flag(x, NFlag) / 16 == if Flag(x, NFlag) == 32 then 2 else 0
    ensures Flag(x, IFlag) / 16 == if Flag(x, IFlag) == 16 then 1 else 0
  {
    SingleBit(x, NFlag);
    SingleBit(x, IFlag);
  }

  /** The four low flags summed are the low four bits. */
  lemma XbpeBits(x: bv8)
    ensures Flag(x, XFlag) + Flag(x, BFlag) + Flag(x, PFlag) + Flag(x, EFlag) == (x & 15) as int
  {
  }

  /** The fields of a format-3/4 object code: two hex digits of opcode + 2n + i (for an
      opcode below 0xFD), one digit holding x, b, p and e as the bits 8, 4, 2, 1, and the
      address field. */
  lemma Format34Layout(t: TokenView, pc: int, inst: Catalog, symbols: Table, literals: Table)
    requires Encodable(t, inst) && symbols.Valid() && literals.Valid()
    requires t.operator.Some? && Mnemonic(t) in inst && FormatOf(inst, Mnemonic(t)) == 3
    requires 0 <= OpcodeOf(inst, Mnemonic(t)) < 0xFD
    requires t.byteSize == 3 || t.byteSize == 4
    ensures var code := ObjectCode(t, pc, inst, symbols, literals).value;
      var n := if Flag(t.nixbpe, NFlag) == 32 then 2 else 0;
      var i := if Flag(t.nixbpe, IFlag) == 16 then 1 else 0;
      var target := TargetAddress(t, pc, inst, symbols, literals);
      && |code| >= 6
      && code[..2] == FormatHex(OpcodeOf(inst, Mnemonic(t)) + n + i, 2)
      && code[2] == DigitChar((t.nixbpe & 15) as int)
      && code[3..] == AddressToString(target, t.byteSize)
  {
    var op := Mnemonic(t);
    var n := if Flag(t.nixbpe, NFlag) == 32 then 2 else 0;
    var i := if Flag(t.nixbpe, IFlag) == 16 then 1 else 0;
    var opcode := OpcodeOf(inst, op) + n + i;
    var xbpe := (t.nixbpe & 15) as int;
    var address := AddressToString(TargetAddress(t, pc, inst, symbols, literals), t.byteSize);
    Format34Parts(t, pc, inst, symbols, literals);
    assert t.nixbpe & 15 <= 15;
    HexFields(opcode, xbpe, address);
  }

  /** Two hex digits of a byte, one of a nibble and a field after them split back into
      those parts. */
  lemma HexFields(opcode: int, xbpe: int, address: string)
    requires 0 <= opcode < 256 && 0 <= xbpe < 16
    ensures var code := FormatHex(opcode, 2) + FormatHex(xbpe, 1) + address;
      && |code| == 3 + |address|
      && code[..2] == FormatHex(opcode, 2) && code[2] == DigitChar(xbpe) && code[3..] == address
  {
    HexDigit(xbpe);
    assert |FormatHex(opcode, 2)| == 2 by { assert Pow16(2) == 256; }
    Fields3(FormatHex(opcode, 2), FormatHex(xbpe, 1), address);
  }

  /** The object code of a format-3/4 instruction as the sum of its parts. */
  lemma Format34Parts(t: TokenView, pc: int, inst: Catalog, symbols: Table, literals: Table)
    requires Encodable(t, inst) && symbols.Valid() && literals.Valid()
    requires t.operator.Some? && Mnemonic(t) in inst && FormatOf(inst, Mnemonic(t)) == 3
    ensures var n := if Flag(t.nixbpe, NFlag) == 32 then 2 else 0;
      var i := if Flag(t.nixbpe, IFlag) == 16 then 1 else 0;
      ObjectCode(t, pc, inst, symbols, literals)
        == Some(FormatHex(OpcodeOf(inst, Mnemonic(t)) + n + i, 2) + FormatHex((t.nixbpe & 15) as int, 1)
                + AddressToString(TargetAddress(t, pc, inst, symbols, literals), t.byteSize))
  {
    FlagQuotients(t.nixbpe);
    XbpeBits(t.nixbpe);
  }

  /** A string made of a 2-character, a 1-character and a third part splits back into them. */
  lemma Fields3(a: string, b: string, c: string)
    requires |a| == 2 && |b| == 1
    ensures (a + b + c)[..2] == a && (a + b + c)[2] == b[0] && (a + b + c)[3..] == c
  {
  }

  /** A register instruction's code is its opcode in two hex digits and the two register
      numbers, the second 0 for a one-operand instruction. */
  lemma RegisterLayout(t: TokenView, pc: int, inst: Catalog, symbols: Table, literals: Table)
    requires Encodable(t, inst) && symbols.Valid() && literals.Valid()
    requires t.operator.Some? && Mnemonic(t) in inst && FormatOf(inst, Mnemonic(t)) != 3
    requires 0 <= OpcodeOf(inst, Mnemonic(t)) < 256
    ensures var code := ObjectCode(t, pc, inst, symbols, literals).value;
      var ops := t.operand.value;
      && |code| == 4
      && code[..2] == FormatHex(OpcodeOf(inst, Mnemonic(t)), 2)
      && code[2] == DigitChar(RegisterNumber(ops[0]))
      && code[3] == DigitChar(if OperandCountOf(inst, Mnemonic(t)) == 1 then 0 else RegisterNumber(ops[1]))
  {
    var op := Mnemonic(t);
    var ops := t.operand.value;
    var r2 := if OperandCountOf(inst, op) == 1 then 0 else RegisterNumber(ops[1]);
    HexDigit(RegisterNumber(ops[0]));
    HexDigit(r2);
    assert |FormatHex(OpcodeOf(inst, op), 2)| == 2 by { assert Pow16(2) == 256; }
  }

  // ---------------------------------------------------------------------------
  // Token and TokenTable
  // ---------------------------------------------------------------------------

  /** `Token`: one analysed source line. */
  class Token {
    var location: int
    var labelName: string
    var operator: Option<string>
    var operand: Option<seq<string>>
    var comment: Option<string>
    var nixbpe: bv8
    var objectCode: Option<string>
    var byteSize: int
    const instTable: InstTable
    /** The control section and the position in it of this token. */
    ghost const owner: nat
    ghost const index: nat

    /** The token's fields. */
    function View(): TokenView
      reads this
    {
      TokenView(location, labelName, operator, operand, comment, nixbpe, objectCode, byteSize)
    }

    /** All fields still as a new object has them. */
    predicate Blank()
      reads this
    {
      View() == TokenView(0, "", None, None, None, 0, None, 0)
    }

    /** A token for `line`, read while the location counter is `loc`. */
    constructor (line: string, instTable: InstTable, loc: int, ghost owner: nat, ghost index: nat)
      requires Tokenizable(line, instTable.instMap)
      ensures View() == Tokenize(line, instTable.instMap, loc)
      ensures this.instTable == instTable && this.owner == owner && this.index == index
    {
      this.instTable := instTable;
      this.owner := owner;
      this.index := index;
      location, labelName, operator, operand, comment := 0, "", None, None, None;
      nixbpe, objectCode, byteSize := 0, None, 0;
      new;
      Parsing(line, loc);
    }

    /** `parsing`: fills the fields of a blank token from `line`. */
    method Parsing(line: string, loc: int)
      requires Tokenizable(line, instTable.instMap) && Blank()
      modifies this
      ensures View() == Tokenize(line, instTable.instMap, loc)
    {
      var units := Split(line, '\t');
      if units[0] == "." {
        labelName := units[0];
        if |units| > 1 {
          comment := Some(units[1]);
        }
      } else {
        ReadFields(units);
        SizeAndFlags();
        location := loc;
      }
    }

    /** The label, operator, operands and comment of a non-comment line. */
    method ReadFields(units: seq<string>)
      requires |units| >= 2 && (instTable.GetNumberOfOperand(units[1]) == 0 ==> |units| >= 3)
      requires Blank()
      modifies this
      ensures View() == TokenView(0, units[0], Some(units[1]), Operands(units, instTable.instMap),
                                  CommentOf(units, instTable.instMap), 0, None, 0)
    {
      labelName := units[0];
      operator := Some(units[1]);
      if instTable.GetNumberOfOperand(units[1]) != 0 {
        if |units| > 2 {
          operand := Some(SplitAtMost(units[2], ',', MaxOperand));
        }
        if |units| > 3 {
          comment := Some(units[3]);
        }
      } else {
        comment := Some(units[2]);
      }
    }

    /** The size of the token and its flags, from its operator and operands. */
    method SizeAndFlags()
      requires operator.Some? && nixbpe == 0
      requires operand.Some? ==> 1 <= |operand.value|
      requires Contains(operator.value, "+") || SizeDefined(instTable.instMap, operator.value, operand)
      modifies this`byteSize, this`nixbpe
      ensures byteSize == if Contains(operator.value, "+") then 4 else InstSize(instTable.instMap, operator.value, operand)
      ensures nixbpe == Flags(Contains(operator.value, "+"), byteSize, operand)
    {
      var op := operator.value;
      if Contains(op, "+") {
        byteSize := 4;
        SetFlag(EFlag, 1);
      } else {
        byteSize := InstSize(instTable.instMap, op, operand);
        if operand.Some? && byteSize > 0 {
          SetFlag(PFlag, 1);
        }
      }
      assert nixbpe == BaseFlags(Contains(op, "+"), byteSize, operand);
      if byteSize >= 3 {
        AddressingFlags();
      }
    }

    /** The `n`, `i` and `x` flags of a token of at least 3 bytes. */
    method AddressingFlags()
      requires byteSize >= 3 && (operand.Some? ==> 1 <= |operand.value|)
      modifies this`nixbpe
      ensures nixbpe == ModeFlags(old(nixbpe), byteSize, operand)
    {
      if operand.Some? {
        var ops := operand.value;
        if |ops| > 1 && ops[1] == "X" {
          SetFlag(XFlag, 1);
        }
        if Contains(ops[0], "#") {
          SetFlag(IFlag, 1);
          SetFlag(PFlag, 0);
        } else if Contains(ops[0], "@") {
          SetFlag(NFlag, 1);
        } else {
          SetFlag(NFlag, 1);
          SetFlag(IFlag, 1);
        }
      } else {
        SetFlag(NFlag, 1);
        SetFlag(IFlag, 1);
      }
    }

    /** `setFlag(flag, value)`. */
    method SetFlag(flag: bv8, value: int)
      modifies this`nixbpe
      ensures nixbpe == SetBits(old(nixbpe), flag, value)
    {
      if value == 1 {
        nixbpe := nixbpe | flag;
      } else {
        nixbpe := nixbpe ^ flag;
      }
    }

    /** `getFlag(flags)`. */
    function GetFlag(flags: bv8): int
      reads this
    {
      Flag(nixbpe, flags)
    }
  }

  /** `TokenTable`: the tokens of one control section with the tables they are encoded
      against. */
  class TokenTable {
    const symTab: SymbolTable
    const litTab: SymbolTable
    const instTab: InstTable
    var tokenList: seq<Token>
    var programCounter: int
    /** The control section of this table. */
    ghost const section: nat

    /** Each token knows its section and position and shares the catalog. */
    ghost predicate Valid()
      reads this
    {
      forall k :: 0 <= k < |tokenList| ==>
        tokenList[k].owner == section && tokenList[k].index == k && tokenList[k].instTable == instTab
    }

    /** The tokens' fields, in order. */
    function Views(): (r: seq<TokenView>)
      reads this, tokenList
      ensures |r| == |tokenList|
      ensures forall k :: 0 <= k < |tokenList| ==> r[k] == tokenList[k].View()
    {
      seq(|tokenList|, k requires 0 <= k < |tokenList| reads this, tokenList => tokenList[k].View())
    }

    constructor (symTab: SymbolTable, litTab: SymbolTable, instTab: InstTable, ghost section: nat)
      ensures this.symTab == symTab && this.litTab == litTab && this.instTab == instTab
      ensures this.section == section
      ensures tokenList == [] && programCounter == 0 && Valid()
    {
      this.symTab := symTab;
      this.litTab := litTab;
      this.instTab := instTab;
      this.section := section;
      tokenList := [];
      programCounter := 0;
    }

    /** `putToken`: appends the token of `line`, placed at `locCounter`. */
    method PutToken(line: string, locCounter: int)
      requires Valid() && Tokenizable(line, instTab.instMap)
      modifies this
      ensures Valid() && programCounter == old(programCounter)
      ensures |tokenList| == old(|tokenList|) + 1 && tokenList[..old(|tokenList|)] == old(tokenList)
      ensures fresh(tokenList[old(|tokenList|)])
      ensures Views() == old(Views()) + [Tokenize(line, instTab.instMap, locCounter)]
    {
      var t := new Token(line, instTab, locCounter, section, |tokenList|);
      tokenList := tokenList + [t];
    }

    /** `getToken`. */
    function GetToken(index: nat): Token
      reads this
      requires index < |tokenList|
    {
      tokenList[index]
    }

    /** `makeObjectCode`: advances the program counter past the token and stores its
      object code. */
    method MakeObjectCode(index: nat)
      requires Valid() && index < |tokenList|
      requires symTab.Valid() && litTab.Valid()
      requires Encodable(tokenList[index].View(), instTab.instMap)
      modifies this, tokenList[index]
      ensures Valid() && tokenList == old(tokenList)
      ensures programCounter == old(programCounter) + old(tokenList[index].byteSize)
      ensures Views() == old(Views())[index := Encode(old(Views())[index], programCounter, instTab.instMap, symTab.View(), litTab.View())]
    {
      programCounter := programCounter + tokenList[index].byteSize;
      var currentToken := tokenList[index];
      var code := CodeOf(currentToken);
      if code.Some? {
        currentToken.objectCode := code;
      }
      assert forall k :: 0 <= k < |tokenList| && k != index ==> tokenList[k] != currentToken;
    }

    /** The object code of `token` at the current program counter. */
    method CodeOf(token: Token) returns (code: Option<string>)
      requires symTab.Valid() && litTab.Valid() && token.instTable == instTab
      requires Encodable(token.View(), instTab.instMap)
      ensures code == ObjectCode(token.View(), programCounter, instTab.instMap, symTab.View(), litTab.View())
    {
      code := None;
      if token.operator.None? {
        return;
      }
      var operator := token.operator.value;
      ContainsChar(operator, '+');
      if Contains(operator, "+") {
        operator := Without(operator, {'+'});
      } else {
        WithoutAbsent(operator, {'+'});
      }
      assert operator == Mnemonic(token.View());
      if instTab.IsInstruction(operator) {
        if instTab.GetFormat(operator) == 3 {
          code := Format34Code(token, operator);
        } else {
          code := RegisterCode(token, operator);
        }
      } else if operator == "BYTE" || operator == "WORD" {
        if Contains(token.operand.value[0], "X") {
          var operandData := Without(token.operand.value[0], {'X', '\''});
          code := Some(operandData);
        }
      }
    }

    /** The object code of a format-3/4 `token` whose catalog key is `operator`: opcode
        plus `n` and `i`, then `xbpe`, then the address field. */
    method Format34Code(token: Token, operator: string) returns (code: Option<string>)
      requires symTab.Valid() && litTab.Valid() && token.instTable == instTab && token.operator.Some?
      requires Encodable(token.View(), instTab.instMap) && operator == Mnemonic(token.View())
      requires instTab.IsInstruction(operator) && instTab.GetFormat(operator) == 3
      ensures code == ObjectCode(token.View(), programCounter, instTab.instMap, symTab.View(), litTab.View())
    {
      var opcode := instTab.GetOpcode(operator);
      opcode := opcode + token.GetFlag(NFlag) / 16;
      opcode := opcode + token.GetFlag(IFlag) / 16;
      var xbpe := 0;
      xbpe := xbpe + token.GetFlag(XFlag);
      xbpe := xbpe + token.GetFlag(BFlag);
      xbpe := xbpe + token.GetFlag(PFlag);
      xbpe := xbpe + token.GetFlag(EFlag);
      var targetAddress := TargetOf(token, operator);
      var addressData := AddressToString(targetAddress, token.byteSize);
      code := Some(FormatHex(opcode, 2) + FormatHex(xbpe, 1) + addressData);
    }

    /** The object code of a register (format-2) `token` whose catalog key is `operator`:
        opcode and the numbers of its one or two registers. */
    method RegisterCode(token: Token, operator: string) returns (code: Option<string>)
      requires symTab.Valid() && litTab.Valid() && token.instTable == instTab && token.operator.Some?
      requires Encodable(token.View(), instTab.instMap) && operator == Mnemonic(token.View())
      requires instTab.IsInstruction(operator) && instTab.GetFormat(operator) != 3
      ensures code == ObjectCode(token.View(), programCounter, instTab.instMap, symTab.View(), litTab.View())
    {
      var opcode := instTab.GetOpcode(operator);
      var register1, register2 := 0, 0;
      if instTab.GetNumberOfOperand(operator) == 1 {
        register1 := RegisterNumber(token.operand.value[0]);
      } else {
        register1 := RegisterNumber(token.operand.value[0]);
        register2 := RegisterNumber(token.operand.value[1]);
      }
      code := Some(FormatHex(opcode, 2) + FormatHex(register1, 1) + FormatHex(register2, 1));
    }

    /** The target address of a format-3/4 `token` whose catalog key is `operator`. */
    method TargetOf(token: Token, operator: string) returns (targetAddress: int)
      requires symTab.Valid() && litTab.Valid() && token.operator.Some?
      requires Encodable(token.View(), instTab.instMap) && operator == Mnemonic(token.View())
      requires instTab.IsInstruction(operator) && instTab.GetFormat(operator) == 3
      ensures targetAddress == TargetAddress(token.View(), programCounter, instTab.instMap, symTab.View(), litTab.View())
    {
      targetAddress := 0;
      if instTab.GetNumberOfOperand(operator) >= 1 {
        if token.GetFlag(NFlag) == 32 {
          var operandData := token.operand.value[0];
          ContainsChar(operandData, '@');
          if Contains(operandData, "@") {
            operandData := Without(operandData, {'@'});
          } else {
            WithoutAbsent(operandData, {'@'});
          }
          ContainsChar(operandData, '=');
          if Contains(operandData, "=") {
            operandData := Without(operandData, {'='});
            targetAddress := litTab.Search(operandData);
          } else {
            targetAddress := symTab.Search(operandData);
          }
        } else if token.GetFlag(IFlag) == 16 {
          var operandData := token.operand.value[0];
          ContainsChar(operandData, '#');
          if Contains(operandData, "#") {
            operandData := Without(operandData, {'#'});
          } else {
            WithoutAbsent(operandData, {'#'});
          }
          targetAddress := ParseInt(operandData, 10);
        }
        if token.GetFlag(PFlag) == 2 {
          targetAddress := targetAddress - programCounter;
        } else if token.GetFlag(EFlag) == 1 {
          targetAddress := 0;
        }
      } else {
        targetAddress := 0;
      }
    }
  }
}
