# goobj in Dafny

A model of `goobj`, a decoder for Go 1.10 object files (the "go19ld" format).
An object file is laid out as follows:
- an 8-byte magic header;
- a version byte, which must be 1;
- the dependencies, up to a zero byte;
- a reference table of (name, version) entries;
- a data block, preceded by its length and five size hints;
- a symbol table;
- a 7-byte magic footer.

Every integer is a zigzag-signed base-128 varint. A string is a varint length followed by raw bytes.

The repository has two decoders:
- `parser.go`, the streaming decoder. It reads through a counting reader that holds the first error.
- `parserorg.go`, the original `GoObjParser`. It returns each error as it happens, except inside a symbol record after the relocation count, where read errors are dropped.

`print.go` prints the decoded symbols as an aligned text table.

The model has these parts:
- `Ints` spells out Go's fixed-width integer semantics: wrap-around, conversions, shifts and XOR.
- `Zigzag` and `Wire` model the scalar encodings and prove their round trips.
- `Goobj` holds the decoded entities and the names printed for symbol kinds and relocation types.
- `Format` is a pure, position-passing specification of the whole file layout, with the error each part fails with.
- Both decoders are imperative classes:
  - `Bufio.Source` models the buffered input stream;
  - `Counter.Reader` models `readerWithCounter`;
  - `Parser.Parser` models the streaming parser;
  - `ParserOrg.GoObjParser` models the original parser.

  Each method's contract ties its result and the stream position it leaves to the `Format` function of the part it reads. The error it reports is the one `Format` gives for that part.
- Whole-file theorems state what each decoder's `Parse` returns for any input.
  - `Parser.Parse` is stated in terms of `Format.StreamingFile`.
  - `ParserOrg.GoObjParser.Parse` is stated in terms of `ParserOrg.GoObjFile`.
- `Print` models the `table` type as a class with spec functions for its text. Its lemmas cover:
  - the widest-cell property of the column widths;
  - column alignment;
  - line lengths;
  - the two table tests;
  - round trips for the hex and decimal cells.

## Model

| member | source | states |
|---|---|---|
| Ints.ToInt64 | zigzag.go:8 | the int64 conversion is the identity in range and congruent modulo 2^64 elsewhere |
| Ints.ToInt32 | parser.go:587 | the `RelocType` (int32) conversion is the identity in range and congruent modulo 2^32 elsewhere |
| Ints.Add64 | parserorg.go:331 | int64 `+=` on the data address is the exact sum whenever that sum fits in 64 bits |
| Ints.Shl64IsTruncatedProduct | parser.go:691 | a uint64 left shift is the product with 2^k truncated to 64 bits, so shifts of 64 or more contribute 0 |
| Ints.Xor64 | zigzag.go:3-9 | XOR with 0 is the identity, and XOR with all ones is the complement |
| Zigzag.EncodeValue | zigzag.go:3-5 | the bitwise encoding (`Zigzag.Encode`) maps v ≥ 0 to 2v and v < 0 to −2v−1 |
| Zigzag.DecodeValue | zigzag.go:7-9 | the bitwise decoding (`Zigzag.Decode`) maps even u to u/2 and odd u to −(u/2)−1 |
| Zigzag.DecodeEven | zigzag.go:7-9 | decoding an even value halves it |
| Zigzag.DecodeOdd | zigzag.go:7-9 | decoding an odd value gives −(u/2)−1 |
| Zigzag.DecodeEncode | zigzag.go:3-9 | decoding an encoded int64 gives it back |
| Zigzag.EncodeDecode | zigzag.go:3-9 | encoding a decoded uint64 gives it back, so the mapping is a bijection |
| Zigzag.SignedUnsigned | zigzag.go:3-9 | the arithmetic forms of the two directions are inverse |
| Zigzag.UnsignedSigned | zigzag.go:3-9 | the arithmetic forms are inverse in the other order too |
| Wire.Low7 | parser.go:691 | the payload of a byte is below 128 |
| Wire.ByteAt | parser.go:719-727 | reading one byte succeeds exactly when one remains, and fails with EOF otherwise |
| Wire.VarintLast | parser.go:685-696 | finds the first byte without the continuation bit |
| Wire.VarintLastMore | parser.go:692 | every byte before the last one of a varint has the continuation bit |
| Wire.GroupSumSnoc | parser.go:691 | one more byte adds its payload shifted by 7 bits per earlier byte |
| Wire.AccumulateGroup | parser.go:691 | one step of the `value += uint64(b&0x7f) << shift` loop keeps value equal to the group sum modulo 2^64 |
| Wire.DecodeUvarint | parser.go:682-696 | a decoded varint ends after its start and within the input; the only failure is EOF |
| Wire.UvarintExtent | parser.go:685-696 | decoding fails exactly when every remaining byte has the continuation bit; otherwise it ends at the first byte without it |
| Wire.DecodeVarint | parser.go:682-698 | the signed varint ends within the input and fails only with EOF |
| Wire.DecodeString | parser.go:700-717 | a negative length fails with NegativeLength and a short input with EOF |
| Wire.StringLayout | parser.go:700-717 | a decoded string is the bytes after its length varint, as many as the length says; it exists exactly when that many remain |
| Wire.StringCases | parserorg.go:222-241 | the string outcome for every case of its length varint: failed, negative, too long, or fits |
| Wire.EncodeUvarint | parser.go:682-698 | an encoding has at least one byte |
| Wire.EncodeUvarintShape | parser.go:682-698 | the encoding's group sum is the value; only its last byte lacks the continuation bit |
| Wire.VarintLastAt | parser.go:692-694 | the varint ends at the first byte without the continuation bit |
| Wire.UvarintRoundTrip | parser.go:682-696 | decoding the varint encoding of any uint64, amid any surrounding bytes, gives it back and ends right after it |
| Wire.VarintRoundTrip | parser.go:682-698 | decoding the zigzag varint encoding of any int64 gives it back and ends right after it |
| Goobj.KindName | parser.go:70-98 | kinds 0..10 print as their names, from INVALID to SDWARFLOC; every other kind prints as UNKNOWN |
| Goobj.RelocTypeName | parser.go:274-368 | a type prints as Unknown exactly when it lies outside 1..44; type t in 1..44 prints as entry t−1 of the name table |
| Goobj.RelocTypeNameInjective | parser.go:274-368 | distinct types in 1..44 print distinctly, so the printed name identifies the type |
| Goobj.RelocTypeNumbering | parser.go:113-271 | the numbering starts at 1 (R_ADDR) and follows the constants' order: 5 is R_ADDROFF, 8 R_CALL, 11 R_CALLIND, 15 R_PCREL, 44 R_ADDRCUOFF; 0 and 45 print as Unknown |
| Goobj.KindNameInjective | parser.go:70-98 | distinct known kinds print distinctly |
| Goobj.BitPattern | parserorg.go:306-313 | `(flags>>k)&0x1 != 0` on a signed flags value (`Goobj.Bit`) tests bit k of its 64-bit two's complement pattern, negative values included |
| Goobj.Strip | parser.go:594-600 | the streaming decoder keeps a symbol with everything except its function metadata |
| Goobj.StripAll | parser.go:600 | stripping a table strips each symbol in place |
| Goobj.StripAllSnoc | parser.go:600 | appending a symbol then stripping equals stripping then appending |
| Format.MagicEnd | parser.go:452-459 | finds the first position at or after q where the magic header ends; none if there is none |
| Format.WindowRead | parser.go:446-447 | the first 8 bytes read form the window that ends at the read position |
| Format.MagicSlide | parser.go:452-459 | sliding the window by one byte keeps it equal to the 8 bytes before the position, and does not skip a header |
| Format.Header | parser.go:445-461 | succeeds exactly when a magic header ends at least 8 bytes on, and stops at the first such end; fails with EOF otherwise |
| Format.HeaderShort | parser.go:446-450 | fewer than 8 bytes fail with EOF |
| Format.HeaderExhausted | parser.go:452-456 | input that ends before any header fails with EOF |
| Format.HeaderFound | parser.go:452-460 | the window matching the magic ends the header |
| Format.Version | parser.go:463-473 | succeeds exactly on byte 1; fails with EOF at the end and with UnexpectedVersion(b) on any other byte |
| Format.Dependencies | parser.go:475-486 | stops just after the first zero byte; fails with EOF exactly when no zero byte remains |
| Format.Footer | parser.go:660-671 | succeeds exactly when the next 7 bytes are the magic footer; fails with EOF at the end and with InvalidFooter(window) otherwise |
| Format.FooterFrom | parserorg.go:441-452 | the footer outcome for the zero-padded window a short read fills |
| Format.NoVarints | parser.go:682 | reading zero varints reads nothing |
| Format.VarintsShape | parser.go:682-698 | a run of k varints yields k values and stays within the input; it fails only with EOF |
| Format.Count | parser.go:583 | a count loop `i < int(n)` runs n times when n ≥ 0 and never when n < 0 |
| Format.Reference | parser.go:507-520 | a reference is a name string followed by a version varint |
| Format.References | parser.go:488-505 | a decoded reference table ends strictly after its start and within the input |
| Format.ReferencesMarker | parser.go:490-499 | at the end of input the table fails with EOF, 0xff ends it, and any byte except 0xfe fails with SanityCheckFailed(b) |
| Format.ReferencesEntry | parser.go:501-503 | a 0xfe entry prepends its reference to the rest of the table, or fails with the reference's error |
| Format.VarintsStep | parser.go:682-698 | reading one more varint extends a run of k to a run of k+1 |
| Format.VarintsFailure | parser.go:687-689 | once a run of varints fails, every longer run fails with the same error |
| Format.DataBlock | parser.go:522-544 | the data block ends within the input |
| Format.DataBlockFrom | parser.go:522-544 | a negative length fails with NegativeLength; a failing hint fails; otherwise the block is the next `length` bytes, or EOF when fewer remain |
| Format.Layout | parserorg.go:386-409 | one region per table size, each region having that size |
| Format.LayoutStep | parserorg.go:404-406 | one more table is placed where the previous ones end, and the address advances by its size with int64 wrap |
| Format.LayoutConcat | parserorg.go:386-409 | laying out two lists is laying out the second where the first ends |
| Format.ToRelocations | parser.go:583-592 | one relocation per five values |
| Format.ToRelocationsStep | parser.go:584-591 | five more values append one relocation (offset, size, int32 type, add, index) |
| Format.ToLocals | parserorg.go:376-384 | one local per four values |
| Format.ToLocalsStep | parserorg.go:377-383 | four more values append one local |
| Format.FuncHead | parser.go:605-616 | five varints, then four varints per local; fails only with EOF |
| Format.PcSizes | parser.go:618-634 | at least the four fixed table sizes; fails only with EOF |
| Format.Counted | parser.go:644-647 | the file list ends within the input and fails only with EOF |
| Format.FuncData | parser.go:636-642 | a count, then that many indexes, then that many offsets, the two lists equally long |
| Format.InlineTree | parser.go:649-655 | the inline tree ends within the input and fails only with EOF |
| Format.Stext | parser.go:604-658 | the function metadata of an STEXT symbol ends within the input and fails only with EOF |
| Format.SymbolOf | parserorg.go:295-347 | the symbol record's fields, data region at the current address, and the address advanced by the data size |
| Format.SymbolOfFields | parserorg.go:297-316 | DupOK, Local and Typelink are bits 0, 1 and 2 of the flags varint's 64-bit pattern; the ID index, size and Go type index are the header varints in order |
| Format.StextOfFields | parserorg.go:356-409 | `StextOf` sets Leaf, CFunc, TypeMethod and SharedFunc from bits 0 to 3 of the flags varint and NoSplit from a nonzero varint; pcsp, pcfile, pcline, pcinline and then the pcdata tables take consecutive regions from the current address, which ends after the last of them |
| Format.SymbolHead | parser.go:566-592 | the kind is the byte read and the symbol's data starts at the current address; fails only with EOF |
| Format.SymbolRecord | parser.go:565-602 | a record has function metadata exactly when its kind is STEXT |
| Format.Symbols | parser.go:546-563 | a decoded symbol table ends strictly after its start and within the input |
| Format.SymbolsMarker | parser.go:548-557 | at the end of input the table fails with EOF, 0xff ends it, and any byte except 0xfe fails with SanityCheckFailed(b) |
| Format.SymbolsEntry | parser.go:559-561 | a 0xfe entry prepends its symbol to the rest of the table, or fails with the symbol's error |
| Format.SymbolHeadEnd | parser.go:567 | a symbol record at the end of input fails with EOF |
| Format.Preamble | parser.go:406-416 | the header, version and dependencies end within the input |
| Format.StreamingFile | parser.go:404-428 | the file the streaming decoder builds ends within the input, and none of its symbols keeps function metadata |
| Bufio.Source.constructor | parser.go:405 | a fresh stream over the file's bytes, at position 0 |
| Bufio.Source.ReadByte | parserorg.go:144-147 | yields the next byte and advances by one, or EOF at the end |
| Bufio.Source.Read | parserorg.go:137 | copies 1..min(requested, remaining) next bytes, all of them for requests of at most 8; EOF at the end; nothing else of the buffer changes |
| Bufio.Source.Discard | parserorg.go:50 | skips min(n, remaining) bytes, with EOF when fewer than n remain and NegativeCount for n < 0 |
| Counter.Reader.constructor | parser.go:441-443 | no bytes counted and no error held |
| Counter.Reader.ReadByte | parser.go:719-727 | with an error held it returns 0 and touches nothing; otherwise it follows `ByteAt` and counts one byte |
| Counter.Reader.Read | parser.go:729-737 | with an error held it returns 0 and touches nothing; otherwise it follows the stream's read and counts what it read |
| Counter.Reader.ReadVarint | parser.go:682-698 | with an error held it returns 0; otherwise it follows `DecodeVarint` exactly |
| Counter.Reader.ReadFull | parser.go:533-541 | fills the buffer with the next bytes, or holds EOF when too few remain |
| Counter.Reader.ReadString | parser.go:700-717 | with an error held it returns ""; otherwise it follows `DecodeString`, returning "" on error |
| Parser.Parser.constructor | parser.go:441-443 | empty tables, a zero data address and no error |
| Parser.Parser.SkipHeader | parser.go:445-461 | stops just after the first magic header at least 8 bytes on, or fails with EOF |
| Parser.Parser.CheckVersion | parser.go:463-473 | follows `Version`: EOF, UnexpectedVersion(b), or one byte consumed |
| Parser.Parser.SkipDependencies | parser.go:475-486 | follows `Dependencies` |
| Parser.Parser.ParseReferences | parser.go:488-505 | appends exactly the references the table decodes to, and stops after its end marker or fails with its error |
| Parser.Parser.ParseReference | parser.go:507-520 | appends the decoded reference, or leaves the table unchanged on error |
| Parser.Parser.NextVarint | parser.go:682-698 | extends a run of varints by one |
| Parser.Parser.ParseData | parser.go:522-544 | keeps exactly the data block's bytes; on failure reports the block's error, or, for a zero length after a failed size hint, leaves that error held in the reader with no data |
| Parser.Parser.ParseSymbols | parser.go:546-563 | appends the stripped symbols the table decodes to and advances the data address to their end, or fails with the table's error |
| Parser.Parser.ParseSymbol | parser.go:565-602 | follows `SymbolRecord`; on error it still appends the symbol unless it is STEXT, as the code does |
| Parser.Parser.ParseSymbolHead | parser.go:566-592 | follows `SymbolHead`, the kind being the byte read |
| Parser.Parser.ParseRelocations | parser.go:582-592 | reads 5 varints per relocation and builds the relocations from them |
| Parser.Parser.SkipSTEXTFields | parser.go:604-658 | follows `Stext` and advances the data address past the symbol's pc tables |
| Parser.Parser.SkipFuncHead | parser.go:605-616 | follows `FuncHead` |
| Parser.Parser.ReadPcSizes | parser.go:618-634 | follows `PcSizes` and advances the data address by the laid-out sizes |
| Parser.Parser.ReadPcDataSizes | parser.go:630-634 | reads the pcdata sizes and advances the data address by them |
| Parser.Parser.SkipFuncData | parser.go:636-642 | follows `FuncData` |
| Parser.Parser.SkipFiles | parser.go:644-647 | follows `Counted` |
| Parser.Parser.SkipInlineTree | parser.go:649-655 | follows `InlineTree` |
| Parser.Parser.SkipVarints | parser.go:637-639 | reads n varints, or none when n < 0 |
| Parser.Parser.SkipRecords4 | parser.go:611-616 | reads four varints per record |
| Parser.Parser.SkipFooter | parser.go:660-671 | follows `Footer` |
| Parser.Parse | parser.go:404-431 | for every input, returns no file and the first part's error when `StreamingFile` fails; otherwise returns that file together with the footer check's outcome |
| ParserOrg.GoObjParser.constructor | parserorg.go:17-19 | nothing read, no references, data address 0 |
| ParserOrg.GoObjParser.SkipToEndOfMagicHeader | parserorg.go:135-154 | follows `Header` |
| ParserOrg.GoObjParser.SkipVersion | parserorg.go:156-167 | follows `Version` |
| ParserOrg.GoObjParser.SkipDependencies | parserorg.go:169-181 | follows `Dependencies` |
| ParserOrg.GoObjParser.ReadReferences | parserorg.go:183-206 | returns the zero reference followed by the decoded table, or the table's error and nil |
| ParserOrg.GoObjParser.ReadReference | parserorg.go:208-220 | follows `Reference`, returning the zero reference on error |
| ParserOrg.GoObjParser.ReadString | parserorg.go:222-241 | follows `DecodeString`, returning "" on error |
| ParserOrg.GoObjParser.ReadVarint | parserorg.go:243-261 | follows `DecodeVarint` and counts every byte it consumed |
| ParserOrg.GoObjParser.NextVarint | parserorg.go:243-261 | extends a run of varints by one, keeping the first error |
| ParserOrg.GoObjParser.ReadSymbols | parserorg.go:263-286 | returns exactly the symbols the table decodes to and advances the data address to their end, or the table's error and nil |
| ParserOrg.GoObjParser.ReadSymbol | parserorg.go:288-439 | follows `SymbolRecord` from the current data address; any error it returns is the record's error, and it returns one exactly when the kind byte or the six head varints fail, so errors after the head are dropped |
| ParserOrg.GoObjParser.ReadSymbolHead | parserorg.go:297-336 | reads the six head varints, returning at the first error; the data region is placed at the current address and the address advances by its size |
| ParserOrg.GoObjParser.CheckedVarint | parserorg.go:297-300 | one checked read: its error is the error of the whole head |
| ParserOrg.GoObjParser.ReadRelocations | parserorg.go:338-348 | reads five varints per relocation, dropping errors, and builds the relocations from them |
| ParserOrg.GoObjParser.ReadStextFields | parserorg.go:354-436 | follows `Stext` from the current data address, with errors dropped |
| ParserOrg.GoObjParser.ReadFuncHead | parserorg.go:356-384 | reads args, frame, flags, nosplit and the locals |
| ParserOrg.GoObjParser.ReadLocals | parserorg.go:374-384 | reads four varints per local and builds the locals from them |
| ParserOrg.GoObjParser.ReadPcTables | parserorg.go:386-409 | the pc tables are laid out one after another from the current data address |
| ParserOrg.GoObjParser.ReadFixedTables | parserorg.go:386-400 | pcsp, pcfile, pcline and pcinline are laid out in that order |
| ParserOrg.GoObjParser.ReadPcData | parserorg.go:402-409 | each pcdata table is laid out where the previous one ends |
| ParserOrg.GoObjParser.ReadFuncData | parserorg.go:411-420 | follows `FuncData` |
| ParserOrg.GoObjParser.ReadFiles | parserorg.go:422-426 | follows `Counted` |
| ParserOrg.GoObjParser.SkipInlineTree | parserorg.go:428-434 | follows `InlineTree` |
| ParserOrg.GoObjParser.ReadVarints | parserorg.go:412-415 | reads n varints, or none when n < 0 |
| ParserOrg.GoObjParser.SkipMagicFooter | parserorg.go:441-452 | follows `Footer`, leaving the byte count unchanged |
| ParserOrg.GoObjParser.SkipPreamble | parserorg.go:22-32 | follows `Preamble` |
| ParserOrg.GoObjParser.SkipSizeHints | parserorg.go:44-48 | skips five varints, stopping at the end of input on error |
| ParserOrg.GoObjParser.Parse | parserorg.go:21-133 | for every input: the first error of `GoObjFile`, or its references and symbols together with the footer check's outcome |
| ParserOrg.GoObjFile | parserorg.go:21-55 | the file `GoObjParser` reads; its reference table always starts with the zero reference |
| ParserOrg.HintsEnd | parserorg.go:44-48 | where the size hints end, or the end of input if they fail |
| ParserOrg.DataEnd | parserorg.go:50 | discarding a negative length skips nothing; otherwise it skips the length, capped at the input's end |
| ParserOrg.FileFrom | parserorg.go:52-55 | the file is the zero reference plus the table, and the symbols; it fails with the symbol table's error |
| ParserOrg.PreambleFailure | parserorg.go:22-32 | a failing preamble fails the file with its error |
| ParserOrg.TableFailure | parserorg.go:34-43 | a failing reference table or data length fails the file with that error |
| ParserOrg.GoObjFileSymbols | parserorg.go:44-55 | symbols start after the discarded data block, at the byte count reached before the block |
| ParserOrg.HeadFailure | parserorg.go:297-336 | an error among the head varints fails the whole symbol record with it |
| Print.Table.constructor | print.go:42-44 | a table with the given headers and no rows |
| Print.Table.AddRow | print.go:46-48 | the row is appended, and earlier rows are unchanged |
| Print.Table.CalcMaxWidths | print.go:63-78 | the widths are `MaxWidths` of the headers and rows |
| Print.ColumnWidthIsMax | print.go:63-78 | a column's width is at least its header and every cell in it, and equals the header or one of those cells |
| Print.MaxWidthsFit | print.go:63-87 | every cell fits its column, so padding is never negative |
| Print.MaxWidthsExample | print_test.go:9-18 | headers a, ab, abc with row ab, ab, ab give widths [2, 2, 3] |
| Print.Table.WriteRowTo | print.go:80-87 | emits `RowText`: a space, each cell padded to its width plus one, then a newline |
| Print.RowTextExample | print_test.go:20-30 | cells a, ab with widths [2, 2] print as " a  ab \n" |
| Print.CellsLength | print.go:80-87 | padded cells take exactly their columns |
| Print.RowTextLength | print.go:80-87 | a line whose cells fit has length 1 + Σ(width+1) + 1 over its columns |
| Print.CellsAt | print.go:82-85 | cell i sits where column i starts among the padded cells, followed by spaces to the column's end |
| Print.CellAt | print.go:80-87 | on the emitted line, cell i starts at column i's offset, and the rest of that column is spaces |
| Print.TableLinesAligned | print.go:54-87 | a row with a cell under every header prints as long as the header line |
| Print.RowsTextSnoc | print.go:46-61 | a row added last prints last |
| Print.Table.WriteTo | print.go:54-61 | emits `TableText`: the header line, then every row's line in insertion order, all padded to the same widths |
| Print.Text | print.go:28 | `%s` of a name keeps its bytes and their count |
| Print.Spaces | print.go:84 | n spaces |
| Print.Digits | print.go:22 | a number prints as at least one digit |
| Print.DigitsRoundTrip | print.go:22-29 | reading printed digits back gives the number |
| Print.Hex | print.go:22-23 | a `%#x` cell starts with a minus sign exactly when the number is negative |
| Print.Decimal | print.go:29 | a `%d` cell starts with a minus sign exactly when the number is negative |
| Print.BoolText | print.go:25-27 | a `%v` cell of a flag is "true" exactly when the flag is set and "false" exactly when it is not |
| Print.HexRoundTrip | print.go:22-23 | a `%#x` cell, with its sign and prefix, reads back as the number |
| Print.DecimalRoundTrip | print.go:29 | a `%d` cell reads back as the number |
| Print.SymbolRow | print.go:17-31 | a symbol's row has one cell per header |
| Print.SymbolRows | print.go:17-33 | one row per symbol, none longer than the headers |
| Print.SymbolRowReadsBack | print.go:18-31 | the row shows the data offset and the size in hex, the kind name, the three flags, and the reference's version in decimal, all recoverable from the text; the name cells keep their byte length |
| Print.PrintSymbols | print.go:13-35 | the title line, then `TableText` of the headers and one row per symbol |

## Left out

- Bufio.Source.Read: a read of at most 8 bytes is assumed to fill the window whenever that many bytes remain. Go's buffered reader may return fewer at a buffer boundary. Larger reads are modelled as returning any count from 1 to the bytes available.
- Bufio.Source.Discard: only the count and position are modelled. The buffered reader's internal refills are not.
- Opening the file and `cmd/readgoobj` are outside the model. Each decoder takes the file's bytes as its input.
- Output to standard output is modelled as returned text:
  - `table.print` (print.go:50-52) and `fmt.Println` in `PrintSymbols` are not modelled separately.
  - Print.PrintSymbols returns the title line and the table as text.
  - Print.Table.WriteTo returns the table as text instead of writing to an `io.Writer`.
- The printing block of `GoObjParser.Parse` (parserorg.go:57-126) is not modelled. It prints through a `NewTable`/`AddRow`/`PrintText` API that print.go does not define.
  - ParserOrg.GoObjParser.Parse returns the decoded symbols, which are the input to that block.
  - The block indexes the reference table with each symbol's `IDIndex` and `GoTypeIndex` and each function-data index (parserorg.go:61-62, 100) before the footer is checked (parserorg.go:128). Go's `Parse` therefore panics on a file with an index outside the table, where ParserOrg.GoObjParser.Parse reports the footer outcome.
- ParserOrg.GoObjParser.ReadSymbol returns the zero symbol with an error, where Go returns the partly filled one. `readSymbols` discards that value on error (parserorg.go:280-282), so nothing observable differs.
- Parser.Parser.ParseSymbol states the appended entry only by count and prefix when the record fails. The decoder's result is discarded on that path (parser.go:426-428).
- Both decoders treat `make([]byte, n)` with negative n as an error, where Go panics. This covers the string length in `readString` (parser.go:706, parserorg.go:228) and the data length in `parseData` (parser.go:533). The model reports `NegativeLength` instead of a runtime panic.
- ParserOrg.GoObjParser.readBytes is an unbounded count rather than an int64. Go's counter cannot overflow on a file that fits in memory. The data address derived from it (parserorg.go:49) is converted to int64 explicitly.
- Counter.Reader.numReadBytes is likewise an unbounded count.
- The `%#x`, `%d`, `%v` and `%s` formatting is modelled only for the types print.go passes: int64, bool, a symbol kind, and names. Field widths, flags and other verbs are not modelled.
- Print.Text maps each byte of a name to one character. No UTF-8 decoding is modelled, so a cell's length is its byte length, which is what Go's `len` measures.
- Print.SymbolRowReadsBack recovers only the numeric cells, the flags and the kind name. The name cells are stated by length only, because a name's printed text is its bytes.
- Go's `reflect.DeepEqual` on byte slices is modelled as sequence equality.
- Print.Table.CalcMaxWidths requires that no row has more cells than there are headers. Go panics on an out-of-range index in that case (print.go:72), and the model does not represent the panic.
- Print.Table.WriteRowTo requires that each cell is at most one character wider than its column. `strings.Repeat` panics on a negative count (print.go:84), and the model does not represent the panic. Widths from `calcMaxWidths` always satisfy this (`Print.MaxWidthsFit`).
- Print.PrintSymbols requires each symbol's two reference indexes to be in range. Go panics on an out-of-range index otherwise (print.go:18-19).

## Code and tests disagree

- parser.go `parseReferences` (parser.go:488-505) does not put a zero entry at index 0 of the reference table. `parseReference` only appends what it reads.
  - `TestParser_parseReferences` (parser_test.go:69-85) expects a table of two entries with the zero entry first.
  - The format's symbol indexes are 1-based, as `GoObjParser.readReferences` (parserorg.go:184) reflects by seeding the zero entry.
  - The model follows the code: Parser.Parser.ParseReferences appends exactly the decoded entries, and ParserOrg.GoObjParser.ReadReferences seeds the zero entry.
- The parser tests name the fields `SymbolReferences` and read them through the parser. The code's embedded `File` keeps them in the unexported field `symbolReferences`. The model uses the code's fields.
- The parser tests also read `p.Symbols` (parser_test.go:131-150) and a symbol's `DataAddr` (parser_test.go:173-174). The code names these fields `symbols` (parser.go:17) and `Data` (parser.go:37). The model follows the code: `File.symbols` and `Symbol.data`.
- `PrintSymbols` reads `symbol.DataAddr.Offset` (print.go:22), but a `Symbol` has no `DataAddr` field, only `Data DataAddr` (parser.go:37). print.go therefore does not compile against parser.go as written. The model follows the evident intent: Print.SymbolRow prints `symbol.data.offset`, the offset of the symbol's data region.
- `Parse` returns the decoded `File` together with the footer error (parser.go:430). A caller that checks only the error still receives the file when the footer is wrong. The model follows the code: Parser.Parse returns the file whether or not the footer matches, and reports the footer error beside it.
