# SIC/XE two-pass assembler, modelled in Dafny

This project models the core of a two-pass assembler for the SIC/XE teaching
machine. The model proves properties of it.

Pass 1 reads the source program line by line. It splits each line at tabs into a
token: label, operator, up to three comma-separated operands, and a comment. It
gives the token a size in bytes and the six addressing flags `n i x b p e`. It
keeps one symbol table, one literal table, one external-reference table and one
modification table per control section. A new section starts at every line that
contains `START` or `CSECT`. Pass 1 binds labels (and `EQU` expressions) to the
location counter, and places the literal pool at `LTORG` and `END`. It also records
a modification entry for every operand that names an external reference.

Pass 2 encodes every token of a section. A format-3/4 instruction gets its opcode,
flags and a PC-relative or absolute address. A register instruction gets two
register digits. `BYTE`/`WORD` hex constants are encoded too. Pass 2 then writes
the object program's Header, Define, Refer, Text, Modification and End records.

Modules, one per source file, plus two helper modules:

- `Strings`: the Java library operations the assembler relies on, as functions on
  `seq<char>`:
  - `String.contains`;
  - `split` with and without a limit;
  - `StringTokenizer`;
  - `replaceAll` of a character class;
  - `Integer.parseInt`;
  - `String.format("%0wX")` of a 32-bit `int`.
- `Options`: the `Option` type. It stands for a Java `null`.
- `Instructions` (`InstTable.java`): the catalog entry `Instruction`, the parsing of
  a catalog line, and the class `InstTable` with its map and lookups.
- `Symbols` (`SymbolTable.java`): the class `SymbolTable` with its three parallel
  lists, and the datatype `Table` holding a table's contents at one moment.
- `Tokens` (`TokenTable.java`):
  - the classes `Token` and `TokenTable`;
  - the datatype `TokenView`, a token's fields at one moment;
  - the functions that specify parsing (`Tokenize`), flags (`Flags`), sizes
    (`InstSize`) and object code (`ObjectCode`, `TargetAddress`, `AddressToString`).
- `Passes`: what each pass computes, as functions of the source lines:
  - `Pass1` is a left fold of `Step` over the lines;
  - `Pass2` gives the records of all sections.
- `Assembly` (`Assembler.java`): the class `Assembler`. Its fields are:
  - the per-section lists of tables;
  - the location counter and section number, which are static globals in Java;
  - the list of written records.

  Its methods `Pass1` and `Pass2` are loops over the lines and over the sections.
  They are proved to leave exactly the state that `Passes.Pass1` and `Passes.Pass2`
  describe. A ghost `sections` field mirrors the heap tables. The predicate
  `Valid` ties the two together.

Java exceptions become preconditions. For example, `Pass1Ok` and `Pass2Ok` say
that every line can be tokenized, every `RESB`/`RESW` count is decimal, and
every register instruction has its operands. The index getters of `SymbolTable`,
`TokenTable.getToken`, `Token.getFlag` and `InstTable.isInstruction` are modelled
as functions that read the fields directly. Their meaning is carried by the
contracts of the members that use them.

## Model

| member | source | states |
|---|---|---|
| `Symbols.Strip` | src/SymbolTable.java:35-36 | the stored name has no `=` and keeps every other character of the input |
| `Symbols.StripIdempotent` | src/SymbolTable.java:35-36 | stripping an already stripped name changes nothing |
| `Symbols.FirstIndex` | src/SymbolTable.java:92-97 | the index of the first equal entry: every entry before it differs, and it is the length exactly when the name is absent |
| `Symbols.Lookup` | src/SymbolTable.java:86-103 | -1 for an absent name, otherwise the location stored at the first entry with that name |
| `Symbols.LiteralSize` | src/SymbolTable.java:120-135 | 1 for a literal containing `X`; 0 for one with neither `X` nor `C`; never more than the literal's length |
| `Symbols.CharLiteralSize` | src/SymbolTable.java:128-131 | a character literal `C'text'` has the length of its text |
| `Symbols.Put` | src/SymbolTable.java:31-43 | the table after `putSymbol` stays well formed, and its widths are untouched |
| `Symbols.PutModif` | src/SymbolTable.java:45-50 | the table after `putModifSymbol` stays well formed |
| `Symbols.Modify` | src/SymbolTable.java:60-77 | the table after `modifySymbol` keeps its names and widths |
| `Symbols.SymbolTable.constructor` | src/SymbolTable.java:13-18 | a new table is empty |
| `Symbols.SymbolTable.PutSymbol` | src/SymbolTable.java:31-43 | a present stripped name leaves the table unchanged; an absent one is appended with its location; the widths never change |
| `Symbols.SymbolTable.PutModifSymbol` | src/SymbolTable.java:45-50 | appends name, location and width, duplicates included |
| `Symbols.SymbolTable.ModifySymbol` | src/SymbolTable.java:60-77 | names and widths stay; the locations are patched at the first entry named by the stripped name, or kept when there is none |
| `Symbols.SymbolTable.Search` | src/SymbolTable.java:86-103 | -1 for an absent name, otherwise the location of its first entry |
| `Symbols.LookupAfterPut` | src/SymbolTable.java:38-42 | after a new name is put, searching it gives its location, and every other name is found where it was |
| `Symbols.FirstIndexSnoc` | src/SymbolTable.java:40 | appending a name keeps the first index of any present name, and an absent name appended is found at the end |
| `Symbols.PutKeepsDistinct` | src/SymbolTable.java:38-42 | insert-if-absent keeps the names distinct |
| `Symbols.LookupAfterPatch` | src/SymbolTable.java:60-77 | after a patch, the patched name is found at its new location (-1 if absent), and every other name is unchanged |
| `Symbols.PatchOnlyFirst` | src/SymbolTable.java:69-75 | a patch changes only the location of the first entry with that name |
| `Instructions.Parse` | src/InstTable.java:177-184 | the mnemonic of an entry is non-empty and free of blanks; that the format, the hex opcode and the operand count follow it in that order is stated, for every rendered entry, by `Instructions.ParseRender` |
| `Instructions.NumeralParses` | src/InstTable.java:180-183 | a decimal or hex numeral reads back as its value |
| `Instructions.RenderWords` | src/InstTable.java:179-183 | the words of a rendered catalog line are its four fields |
| `Instructions.ParseRender` | src/InstTable.java:177-184 | parsing a rendered catalog line gives the entry back (round trip) |
| `Instructions.Entries` | src/InstTable.java:42-49 | one entry per catalog line |
| `Instructions.LoadSnoc` | src/InstTable.java:47 | storing one more entry puts it over the catalog stored so far |
| `Instructions.LoadNext` | src/InstTable.java:42-49 | reading one more line stores that line's entry under its mnemonic |
| `Instructions.LoadLast` | src/InstTable.java:42-49 | a later line with the same mnemonic replaces the earlier entry; an unnamed mnemonic keeps what it had |
| `Instructions.InstTable.constructor` | src/InstTable.java:21-24 | the catalog is the lines' entries stored in order into an empty map |
| `Instructions.InstTable.OpenFile` | src/InstTable.java:42-49 | the loop stores every line's entry under its mnemonic, in file order |
| `Instructions.InstTable.GetOpcode` | src/InstTable.java:69-84 | the stored opcode of a known mnemonic, -1 for an unknown one |
| `Instructions.InstTable.GetNumberOfOperand` | src/InstTable.java:92-107 | the stored operand count of a known mnemonic, -1 for an unknown one |
| `Instructions.InstTable.GetFormat` | src/InstTable.java:115-130 | the stored format of a known mnemonic, 0 for an unknown one |
| `Instructions.LookupAfterLoad` | src/InstTable.java:139-142 | after loading, `isInstruction` holds exactly for mnemonics that some line names, and each getter answers from the last such line or with its sentinel |
| `Tokens.Flag` | src/TokenTable.java:403-406 | a flag read is between 0 and the mask |
| `Tokens.SetFlagBits` | src/TokenTable.java:383-390 | setting turns the flag on; "clearing" toggles it, so it ends off only if it was on; other flags are untouched |
| `Tokens.FlagsMeaning` | src/TokenTable.java:323-366 | each flag of a parsed token on its own: `e` exactly for `+`; `n`, `i`, `x` by addressing mode for sizes of at least 3; `p` set unless `#` toggled it; `b` never |
| `Tokens.InstSize` | src/TokenTable.java:408-436 | the catalog format for an instruction; n for `RESB n`; 3n for `RESW n`; 1 for `BYTE`; 3 for `WORD`; 0 otherwise |
| `Tokens.Operands` | src/TokenTable.java:309-313 | a parsed operand list has one to three elements |
| `Tokens.Tokenize` | src/TokenTable.java:293-369 | a parsed token has no object code and is well shaped: operand lists are non-empty, only a `.` line lacks an operator, and a token without an operator has size 0 |
| `Tokens.CommentLine` | src/TokenTable.java:297-303 | a `.` line gives label `.`, no operator or operand, size 0 and no flags |
| `Tokens.OperatorLine` | src/TokenTable.java:306-334 | a `+` operator gives size 4 with `e`; a token with operands and a positive size gets `p` unless a `#` toggled it; the token sits at the location counter |
| `Tokens.AddressToString` | src/TokenTable.java:233-251 | at least 3 digits, and at least 5 for a 4-byte token |
| `Tokens.AddressDigits` | src/TokenTable.java:233-251 | a negative address prints as exactly the low 3 or 5 hex digits of its two's complement; a non-negative one reads back as its value, in exactly 3 or 5 digits when it fits |
| `Tokens.RegisterNumber` | src/TokenTable.java:158-199 | a register number is below 6 |
| `Tokens.RegisterNumbers` | src/TokenTable.java:158-199 | `A X L B S T` are numbered 0 to 5, and any other name gives 0 |
| `Tokens.Encode` | src/TokenTable.java:79-215 | encoding changes only the object code |
| `Tokens.HexDigit` | src/TokenTable.java:151 | one hex digit of a value below 16 |
| `Tokens.SingleBit` | src/TokenTable.java:100-107 | a single flag reads as 0 or as its own bit |
| `Tokens.FlagQuotients` | src/TokenTable.java:100-101 | `n`/16 and `i`/16 add 2 and 1 to the opcode when set, 0 when not |
| `Tokens.XbpeBits` | src/TokenTable.java:103-107 | the sum of `x`, `b`, `p` and `e` is the low four bits of the flag word |
| `Tokens.Format34Layout` | src/TokenTable.java:98-153 | a format-3/4 code is 2 hex digits of opcode + 2n + i, one digit of the `xbpe` bits, then the address field |
| `Tokens.Format34Parts` | src/TokenTable.java:100-151 | the format-3/4 code as the sum of its three parts |
| `Tokens.RegisterLayout` | src/TokenTable.java:154-205 | a register code is 4 characters: the opcode in 2 hex digits, then the two register digits, the second 0 for a one-operand instruction |
| `Tokens.Token.constructor` | src/TokenTable.java:280-285 | a new token holds what `Tokenize` gives for its line at the location counter |
| `Tokens.Token.Parsing` | src/TokenTable.java:293-369 | the token's fields become what `Tokenize` gives |
| `Tokens.Token.ReadFields` | src/TokenTable.java:305-321 | label, operator, operands (when the count is not 0) and comment, in field order |
| `Tokens.Token.SizeAndFlags` | src/TokenTable.java:323-366 | size 4 for `+`, otherwise `getInstSize`; the flag word is `Flags` of them |
| `Tokens.Token.AddressingFlags` | src/TokenTable.java:336-366 | the `n`, `i`, `x` (and toggled `p`) flags of a token of at least 3 bytes |
| `Tokens.Token.SetFlag` | src/TokenTable.java:383-390 | the flag word becomes `SetBits` of the old one |
| `Tokens.TokenTable.constructor` | src/TokenTable.java:41-49 | an empty token table over the given tables with program counter 0 |
| `Tokens.TokenTable.Views` | src/TokenTable.java:68-71 | the k-th view is the k-th token's fields |
| `Tokens.TokenTable.PutToken` | src/TokenTable.java:57-60 | one fresh token is appended, holding the parsed line at the location counter; earlier tokens stay |
| `Tokens.TokenTable.MakeObjectCode` | src/TokenTable.java:79-215 | the program counter grows by the token's size first; then only that token changes, to `Encode` of it at the new counter |
| `Tokens.TokenTable.CodeOf` | src/TokenTable.java:84-214 | the code is `ObjectCode` of the token: none without an operator, `+` stripped before lookup |
| `Tokens.TokenTable.Format34Code` | src/TokenTable.java:96-153 | the format-3/4 code is `ObjectCode` of the token |
| `Tokens.TokenTable.RegisterCode` | src/TokenTable.java:154-205 | the register code is `ObjectCode` of the token |
| `Tokens.TokenTable.TargetOf` | src/TokenTable.java:109-147 | the target is `TargetAddress`: `n` looks up the literal or symbol table; otherwise `i` reads the decimal after `#`; then `p` subtracts the program counter and a lone `e` gives 0 |
| `Passes.Opened` | src/Assembler.java:198-225 | a `START`/`CSECT` line appends exactly one empty section and resets the counter; only `CSECT` moves the section number; any other line changes nothing |
| `Passes.AddressOfCases` | src/Assembler.java:545-573 | `*` is the location counter; `A-B` is search(A) - search(B) in the current symbol table; anything else is 0 |
| `Passes.Bind` | src/Assembler.java:234-255 | binding changes only the symbol and literal tables of the section; what it binds and registers is stated by `Passes.BindCases` |
| `Passes.BindCases` | src/Assembler.java:234-255 | an unlabelled token (empty or `.` label) changes nothing; a new label is bound to `operateAddress(operand[0])` for `EQU` and to the location counter otherwise, a label already present changes no symbol, and every other name keeps its location; the first operand is registered as a literal at 0 exactly when the token is labelled and that operand contains `=` |
| `Passes.Place` | src/Assembler.java:261-279 | placing the pool keeps the literal names and widths |
| `Passes.PlaceSnoc` | src/Assembler.java:263-278 | one more literal moves to where the earlier ones end, and the counter advances by its size |
| `Passes.FirstContained` | src/Assembler.java:291-294 | the first external name contained in the operand: no earlier name is contained |
| `Passes.Direct` | src/Assembler.java:257-323 | directives leave the tokens, symbols and literal names alone |
| `Passes.Read` | src/Assembler.java:228-329 | reading a token keeps the state valid, the section count and the section number |
| `Passes.ReadInSteps` | src/Assembler.java:228-325 | reading a token is three updates in order: append, bind, then directives |
| `Passes.Step` | src/Assembler.java:190-329 | after a line, a section is open |
| `Passes.StepInParts` | src/Assembler.java:190-329 | a step opens a section if the line asks, then reads the token there |
| `Passes.Pass1Sections` | src/Assembler.java:198-225 | pass 1 makes one section per `START`/`CSECT` line, numbers them by the `CSECT` lines (ending at the last), and leaves every literal table free of `=` and of duplicates |
| `Passes.Pass1OkPrefix` | src/Assembler.java:190-329 | pass 1 can process any prefix of lines it can process |
| `Passes.Pass1Next` | src/Assembler.java:190-329 | the state after line i is that line's token read into the state after the lines before it, with the section opened first |
| `Passes.PutPooled` | src/SymbolTable.java:31-43 | putting into a pool keeps it free of `=` and duplicates |
| `Passes.StepPooled` | src/Assembler.java:249-254 | every step keeps every literal table free of `=` and duplicates |
| `Passes.BindPooled` | src/Assembler.java:251-254 | registering a literal keeps the pool free of `=` and duplicates |
| `Passes.StepBindsLabel` | src/Assembler.java:226-255 | in a step of pass 1 the token joins the current section and no other section changes; a new label is bound to `operateAddress(operand[0])` for `EQU` and otherwise to the token's own location, the counter before its size is added; other symbols keep their locations; the literal pool gains the first operand exactly when the line is labelled and that operand contains `=` |
| `Passes.StepAdvances` | src/Assembler.java:261-325 | the counter after a line is the old one plus the token's size, plus the pool's total size at `LTORG`/`END` |
| `Passes.DirectAdvances` | src/Assembler.java:261-279 | the directives move the counter only at `LTORG`/`END`, by the pool's total size |
| `Passes.PlaceEnd` | src/Assembler.java:263-278 | after placing literals the counter is past all of them |
| `Passes.PlaceLiterals` | src/Assembler.java:261-279 | the k-th literal of the pool gets the counter plus the sizes of those before it, and the counter ends past them all |
| `Passes.PlacePrefix` | src/Assembler.java:263-278 | after k literals are placed, each placed one holds its offset and the rest keep their old locations |
| `Passes.ModificationEntries` | src/Assembler.java:289-322 | no entry when no external name is contained; otherwise `+operand`, or `+A` then `-B` for `A-B`, with width 5 for `+` operators and 6 otherwise, at counter + 6 - width |
| `Passes.EncodeTokens` | src/Assembler.java:350-353 | encoding every token keeps each token's fields except its object code |
| `Passes.EncodeTokensAt` | src/Assembler.java:350-353 | the k-th token is encoded with the program counter equal to the sizes up to and including it |
| `Passes.EncodeStep` | src/Assembler.java:350-353 | encoding token j at the counter past it extends the encoded prefix by one |
| `Passes.RunEnd` | src/Assembler.java:413-425 | the end of a Text run lies between its start and the end of the section |
| `Passes.RunShape` | src/Assembler.java:413-425 | a Text run holds at most 30 bytes of sized tokens that are not `RESW`/`RESB`, and stops at the end or before a token that may not join |
| `Passes.SizeSumCons` | src/Assembler.java:413-425 | the size of a run is its first token's size plus the rest |
| `Passes.CodesNext` | src/Assembler.java:431-434 | the codes of a run grow by the next token's code |
| `Passes.RecordsAdvance` | src/Assembler.java:355-486 | the records so far followed by those from token j are the records so far, then token j's, then those after it |
| `Passes.TokenRecord` | src/Assembler.java:358-486 | one token writes at most one record and moves at least one token on; only a Text run skips tokens; the last record text is the written one |
| `Passes.ModifRecords` | src/Assembler.java:491-492 | one M record per modification entry, in insertion order |
| `Passes.EncodedRecordsOk` | src/Assembler.java:350-353 | encoded tokens can still be written |
| `Passes.Encoded` | src/Assembler.java:350-353 | encoding a section changes only its tokens' object codes |
| `Passes.EncodedIs` | src/Assembler.java:350-353 | a section whose tokens are encoded is the encoded section |
| `Passes.SectionParts` | src/Assembler.java:355-499 | a section's records are its token records, then its M records, then its E record |
| `Passes.EncodedNext` | src/Assembler.java:346-353 | encoding the next section extends the encoded prefix |
| `Passes.Pass2None` | src/Assembler.java:340-343 | before the first section nothing is written and the last record text is empty |
| `Passes.Pass2All` | src/Assembler.java:343-500 | after the last section all sections are written |
| `Passes.Pass2Next` | src/Assembler.java:343-500 | the records of the first i + 1 sections are those of the first i, then section i's |
| `Passes.SectionEnds` | src/Assembler.java:491-499 | every section ends with one M record per entry in order, then `E` with the first location for section 0 and a bare `E` after |
| `Passes.TextRecordLayout` | src/Assembler.java:410-437 | a Text record is `T`, 6 hex digits of the start location, 2 of the run length (1 to 30), then the run's codes |
| `Passes.RunBounds` | src/Assembler.java:413-425 | a run that starts at a sized instruction holds it and has 1 to 30 bytes |
| `Passes.TextFields` | src/Assembler.java:429 | the fields of a Text record whose numbers fit their widths |
| `Passes.RunPositive` | src/Assembler.java:413-425 | a run of sized tokens has a positive length |
| `Passes.HeaderLayout` | src/Assembler.java:369-388 | a Header record is `H`, the name, a blank, 6 hex digits of start and 6 of token sizes plus literal sizes less the start |
| `Assembly.Assembler.constructor` | src/Assembler.java:58-72 | a new assembler has the loaded catalog, no sections, counter 0, section 0 and no records |
| `Assembly.Assembler.OperateAddress` | src/Assembler.java:545-573 | the result is `AddressOf` in the current section's symbol table |
| `Assembly.Assembler.Pass1` | src/Assembler.java:180-329 | the assembler's sections, counter and section number become `Passes.Pass1` of the lines; nothing is encoded or written |
| `Assembly.Assembler.ProcessLine` | src/Assembler.java:190-329 | one loop iteration: the state becomes the line's token read into the opened state |
| `Assembly.Assembler.OpenSection` | src/Assembler.java:198-225 | the state becomes `Opened` of the old state and the line |
| `Assembly.Assembler.AddSection` | src/Assembler.java:205-209 | one section of fresh empty tables is appended |
| `Assembly.Assembler.NewTables` | src/Assembler.java:205-209 | four fresh empty tables and a token table over them |
| `Assembly.Assembler.ReadLine` | src/Assembler.java:228-329 | the state becomes `Read` of the old state and the token |
| `Assembly.Assembler.Advance` | src/Assembler.java:325 | the counter grows by the token's size |
| `Assembly.Assembler.AppendToken` | src/Assembler.java:228-231 | the current section's tokens grow by the line's token |
| `Assembly.Assembler.BindLabel` | src/Assembler.java:234-255 | the current section becomes `Bind` of it |
| `Assembly.Assembler.Directives` | src/Assembler.java:257-323 | the current section and the counter become `Direct` of them |
| `Assembly.Assembler.BindTables` | src/Assembler.java:234-255 | the symbol and literal tables become those of `Bind` |
| `Assembly.Assembler.DirectTables` | src/Assembler.java:257-323 | the literal, external and modification tables and the counter become those of `Direct` |
| `Assembly.Assembler.PlaceLiterals` | src/Assembler.java:261-279 | the literal table and the counter become `Place` of the pool |
| `Assembly.Assembler.ReferExternals` | src/Assembler.java:282-287 | every `EXTREF` operand is put into the external table at 0, in order |
| `Assembly.Assembler.RecordModification` | src/Assembler.java:289-322 | the modification table becomes `Modification` of it |
| `Assembly.Assembler.Pass2` | src/Assembler.java:335-502 | every section is encoded, and the records written are `Passes.Pass2` of the sections |
| `Assembly.Assembler.PassSection` | src/Assembler.java:346-500 | one iteration: section i is encoded and its records follow those of the sections before |
| `Assembly.Assembler.EncodeNextSection` | src/Assembler.java:350-353 | section i becomes its encoded form; later sections stay |
| `Assembly.Assembler.WriteOut` | src/Assembler.java:355-499 | the records of section i, and its last record text, are appended |
| `Assembly.Assembler.EncodeSection` | src/Assembler.java:350-353 | section p's tokens become `EncodeTokens` of them |
| `Assembly.Assembler.EncodeTokenTable` | src/Assembler.java:350-353 | the loop encodes every token in order, and the program counter ends at the section's total size |
| `Assembly.Assembler.EncodedNone` | src/Assembler.java:350 | before the loop no token is encoded |
| `Assembly.Assembler.EncodedAll` | src/Assembler.java:350-353 | after the loop every token is encoded |
| `Assembly.Assembler.EncodeNext` | src/Assembler.java:352 | one more token is encoded |
| `Assembly.Assembler.WriteSection` | src/Assembler.java:355-499 | the section's records, and its last record text, are appended |
| `Assembly.Assembler.WriteTrailer` | src/Assembler.java:491-499 | the M records and then the E record are appended |
| `Assembly.Assembler.WriteTokens` | src/Assembler.java:355-486 | the loop appends `TokenRecords` of the section and leaves its last record text |
| `Assembly.Assembler.WriteNext` | src/Assembler.java:355-486 | one iteration leaves the rest of the records still to write |
| `Assembly.Assembler.WriteToken` | src/Assembler.java:358-486 | token j appends `TokenRecord` of it |
| `Assembly.Assembler.TokenLine` | src/Assembler.java:358-483 | the record of token j, if any, with the next index: none for `.`; H, D, R, a Text run, the previous text for `BYTE`/`WORD`, or the literal Text record; nothing otherwise |
| `Assembly.Assembler.HeaderLine` | src/Assembler.java:369-388 | the line is `HeaderRecord` |
| `Assembly.Assembler.DefineLine` | src/Assembler.java:391-398 | `D` and each name with its 6-hex address |
| `Assembly.Assembler.ReferLine` | src/Assembler.java:401-407 | `R` and the names concatenated |
| `Assembly.Assembler.TextLine` | src/Assembler.java:410-437 | the Text record of the run from j, and the index after it |
| `Assembly.Assembler.RunLength` | src/Assembler.java:413-425 | the run ends at `RunEnd`, past j, and its length is the sum of its sizes |
| `Assembly.Assembler.RunCodes` | src/Assembler.java:431-434 | the codes of the run, a missing one read as `null` |
| `Assembly.Assembler.LiteralLine` | src/Assembler.java:446-480 | the literal pool's Text record |
| `Assembly.Assembler.LiteralBytes` | src/Assembler.java:449-453 | the sum of the literal sizes |
| `Assembly.Assembler.LiteralTexts` | src/Assembler.java:458-479 | the data of every literal, concatenated |
| `Assembly.Assembler.LiteralText` | src/Assembler.java:461-477 | a hex literal's digits, a character literal's characters as 2 hex digits each, or the literal as written |
| `Assembly.Assembler.WriteModifs` | src/Assembler.java:491-492 | one M record per entry, in order |
| `Assembly.Assembler.WriteEnd` | src/Assembler.java:496-499 | the End record, with the first location only for section 0 |
| `Strings.ContainsAt` | src/TokenTable.java:91 | the recursive `Contains` holds exactly when the pattern occurs at some index |
| `Strings.ContainsChar` | src/TokenTable.java:91 | containing a one-character string is containing that character |
| `Strings.Without` | src/TokenTable.java:92 | removing a character class keeps exactly the other characters |
| `Strings.JoinFields` | src/TokenTable.java:295 | splitting at a character and joining again gives the line back |
| `Strings.FieldsJoin` | src/TokenTable.java:295 | joining separator-free pieces and splitting gives the pieces back |
| `Strings.SplitAtMost` | src/TokenTable.java:312 | a limited split gives 1 to n pieces that join back to the input; only the last may hold the separator, and only when the limit is reached |
| `Strings.SplitPair` | src/Assembler.java:568 | `A-B` splits into A and B |
| `Strings.FormatHexValue` | src/Assembler.java:385 | the digits `%0wX` prints read back as the value, a negative one as its 32-bit two's complement |
| `Strings.NumeralDigits` | src/InstTable.java:180-183 | a numeral is digits that read back as its value |
| `Strings.PaddedHexTail` | src/TokenTable.java:244-247 | the last k characters of a padded hex numeral are its k lowest digits |

## Left out

- File and console I/O are not modelled. This covers `main`, `loadInputFile`, `printSymbolTable`, `printObjectCode` and the file reading in `InstTable.openFile`. The source lines and the catalog lines are given as sequences of strings.
- The `Assembler` constructor takes the catalog lines and the source lines that `InstTable.openFile` and `loadInputFile` would read. `main`'s sequence of calls, `pass1` and then `pass2`, is the callers' business: `Pass1` and `Pass2` are separate methods.
- `locCounter` and `programNumber` are static globals in Java. Here they are fields of `Assembler`, and `Token` receives the counter as a parameter. A second run in one process, which would find them not reset, is not modelled.
- Java exceptions are preconditions, not error results:
  - `Integer.parseInt` of a malformed number;
  - a missing tab field, which includes the unguarded third field of a zero-operand operator;
  - a missing operand of `RESB`, `RESW`, `EQU`, `EXTREF`, `EXTDEF`, `BYTE` or `WORD`;
  - the missing operand of format-1 and register instructions;
  - `A-B` without a second symbol, in an `EQU` operand or in an operand naming an external reference (the latter is searched only for operators other than `LTORG`, `END` and `EXTREF`);
  - an instruction token of size 0 or over 30 bytes in pass 2, on which the Java loop never ends.

  `Pass1Ok`, `Pass2Ok`, `Tokenizable`, `Encodable` and `RecordsOk` collect these conditions.
- A line after the first that contains `START` anywhere (a comment `. RESTART`, a label `START2`) is excluded by `StepOk`. Java throws nothing there (`Assembler.java:198-209`, `:228-231`): it resets `tokenIndex` to 0 and appends four new tables and a token table without moving `programNumber`; the line joins the current section's token table, and that line and every later one bind their label and carry out their directives with an earlier token of the section, because `tokenIndex` restarted. The table lists then run one entry ahead of `programNumber`, so a later `CSECT` works on the extra entries, and pass 2 writes records for the extra token table too. The model does not capture these extra tables or that misreading.
- `Assembler.java:209` and `:224` pass four arguments to the three-argument `TokenTable` constructor of `TokenTable.java:41`. The model follows `TokenTable.java`, so a token table does not hold the external table.
- Integers are unbounded. A 32-bit overflow of the location counter or the program counter is not modelled. `String.format("%X")` of a negative `int` is modelled as its 32-bit two's complement, so -1 from a failed search prints 8 hex digits, as in Java.
- Names are compared by value, as `equals` and `List.contains` do. Java object identity plays no role.
- The index getters (`getSymbol`, `getLocation`, `getSize`, `getLiteralSize`, `getModifSize`, `getToken`, `getFlag`, `isInstruction`) and `TokenTable.getObjectCode`/`getSize` are functions that read the fields. They carry no contract of their own.
- Kept as written, not corrected:
  - `setFlag(flag, 0)` toggles the bit, so an extended immediate instruction ends up with `p` set.
  - A `BYTE`/`WORD` token that is not inside a Text run writes the previous record text again.
  - A token without object code inside a run contributes the text `null`.
  - Literals are registered only on labelled lines.
  - The program's start address is always the first token's location, which is 0.
  - Pass 2's program counter (`TokenTable.java:82`) grows only by token sizes, so the bytes of a literal pool placed at `LTORG` are not counted: a PC-relative displacement across such a pool is short by the pool's size.
  - `END` places the whole literal pool again (`Assembler.java:261-279`), including literals already placed at `LTORG`, which then move to the end and are written a second time.
