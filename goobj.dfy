/**
 * The decoded form of a Go 1.10 object file: symbol references, the data
 * block, and the symbols with their relocations and, for executable symbols,
 * the extra function metadata. Offsets into the data block are `DataAddr`s.
 */
module Goobj {
  import opened Ints
  import opened Results

  /** A symbol's name and version, referred to by index from symbols and relocations. */
  datatype SymbolReference = SymbolReference(name: seq<byte>, version: int64)

  /** A region of the data block. */
  datatype DataAddr = DataAddr(size: int64, offset: int64)

  datatype Relocation = Relocation(offset: int64, size: int64, relocType: int32, add: int64, idIndex: int64)

  /** A local variable, an argument or a result of a function. */
  datatype Local = Local(asymIndex: int64, offset: int64, localType: int64, gotypeIndex: int64)

  /** The metadata only STEXT symbols carry, with their pc-value tables. */
  datatype StextFields = StextFields(
    args: int64,
    frame: int64,
    leaf: bool,
    cFunc: bool,
    typeMethod: bool,
    sharedFunc: bool,
    noSplit: bool,
    locals: seq<Local>,
    pcsp: DataAddr,
    pcFile: DataAddr,
    pcLine: DataAddr,
    pcInline: DataAddr,
    pcData: seq<DataAddr>,
    funcDataIndex: seq<int64>,
    funcDataOffset: seq<int64>,
    fileIndex: seq<int64>)

  datatype Symbol = Symbol(
    idIndex: int64,
    kind: byte,
    size: int64,
    dupOK: bool,
    local: bool,
    typelink: bool,
    goTypeIndex: int64,
    data: DataAddr,
    relocations: seq<Relocation>,
    stextFields: Option<StextFields>)

  datatype File = File(symbols: seq<Symbol>, symbolReferences: seq<SymbolReference>, data: seq<byte>)

  /** The symbol kinds of Go 1.10, numbered from 0 in this order. */
  const KIND_NAMES: seq<string> := [
    "INVALID", "STEXT", "SRODATA", "SNOPTRDATA", "SDATA", "SBSS",
    "SNOPTRBSS", "STLSBSS", "SDWARFINFO", "SDWARFRANGE", "SDWARFLOC"]

  /** The kind whose symbols carry `StextFields`. */
  const STEXT: byte := 1

  /** The relocation types of Go 1.10, numbered from 1 in this order. */
  const RELOC_NAMES: seq<string> := [
    "R_ADDR", "R_ADDRPOWER", "R_ADDRARM64", "R_ADDRMIPS", "R_ADDROFF",
    "R_WEAKADDROFF", "R_SIZE", "R_CALL", "R_CALLARM", "R_CALLARM64",
    "R_CALLIND", "R_CALLPOWER", "R_CALLMIPS", "R_CONST", "R_PCREL",
    "R_TLS_LE", "R_TLS_IE", "R_GOTOFF", "R_PLT0", "R_PLT1",
    "R_PLT2", "R_USEFIELD", "R_USETYPE", "R_METHODOFF", "R_POWER_TOC",
    "R_GOTPCREL", "R_JMPMIPS", "R_DWARFSECREF", "R_DWARFFILEREF", "R_ARM64_TLS_LE",
    "R_ARM64_TLS_IE", "R_ARM64_GOTPCREL", "R_POWER_TLS_LE", "R_POWER_TLS_IE", "R_POWER_TLS",
    "R_ADDRPOWER_DS", "R_ADDRPOWER_GOT", "R_ADDRPOWER_PCREL", "R_ADDRPOWER_TOCREL", "R_ADDRPOWER_TOCREL_DS",
    "R_PCRELDBL", "R_ADDRMIPSU", "R_ADDRMIPSTLS", "R_ADDRCUOFF"]

  /** The printed name of a symbol kind; kinds past SDWARFLOC print as "UNKNOWN". */
  function KindName(kind: byte): (r: string)
    ensures r == "UNKNOWN" <==> kind >= |KIND_NAMES|
    ensures kind < |KIND_NAMES| ==> r == KIND_NAMES[kind]
  {
    if kind < |KIND_NAMES| then KIND_NAMES[kind] else "UNKNOWN"
  }

  /** The printed name of a relocation type; anything outside 1..44 prints as "Unknown". */
  function RelocTypeName(t: int32): (r: string)
    ensures r == "Unknown" <==> !(1 <= t <= |RELOC_NAMES|)
    ensures 1 <= t <= |RELOC_NAMES| ==> r == RELOC_NAMES[t - 1]
  {
    if 1 <= t <= |RELOC_NAMES| then RelocNamesPrefixed(); RELOC_NAMES[t - 1] else "Unknown"
  }

  /** Every relocation name starts with 'R', so none of them is "Unknown". */
  lemma RelocNamesPrefixed()
    ensures forall i :: 0 <= i < |RELOC_NAMES| ==> |RELOC_NAMES[i]| > 2 && RELOC_NAMES[i][0] == 'R'
  {
  }

  /** Distinct kinds print distinctly, so the printed name identifies the kind. */
  lemma KindNameInjective(a: byte, b: byte)
    requires a < |KIND_NAMES| && b < |KIND_NAMES| && a != b
    ensures KindName(a) != KindName(b)
  {
  }

  /** Distinct relocation types print distinctly, so the printed name identifies the type. */
  lemma RelocTypeNameInjective(a: int32, b: int32)
    requires 1 <= a <= |RELOC_NAMES| && 1 <= b <= |RELOC_NAMES| && a != b
    ensures RelocTypeName(a) != RelocTypeName(b)
  {
    var i: nat, j: nat := if a < b then a as int - 1 else b as int - 1, if a < b then b as int - 1 else a as int - 1;
    var qi, qj := i / 11, j / 11;
    if qi == 0 && qj == 0 { RelocNamesDistinct00(i, j); }
    else if qi == 0 && qj == 1 { RelocNamesDistinct01(i, j); }
    else if qi == 0 && qj == 2 { RelocNamesDistinct02(i, j); }
    else if qi == 0 { RelocNamesDistinct03(i, j); }
    else if qi == 1 && qj == 1 { RelocNamesDistinct11(i, j); }
    else if qi == 1 && qj == 2 { RelocNamesDistinct12(i, j); }
    else if qi == 1 { RelocNamesDistinct13(i, j); }
    else if qi == 2 && qj == 2 { RelocNamesDistinct22(i, j); }
    else if qi == 2 { RelocNamesDistinct23(i, j); }
    else { RelocNamesDistinct33(i, j); }
  }

  /** No two names in the first quarter of the table (indexes 0 to 10) are equal. */
  lemma RelocNamesDistinct00(i: nat, j: nat)
    requires i < j < 11
    ensures RELOC_NAMES[i] != RELOC_NAMES[j]
  {
  }

  /** No name of the first quarter reappears in the second quarter. */
  lemma RelocNamesDistinct01(i: nat, j: nat)
    requires i < 11 && 11 <= j < 22
    ensures RELOC_NAMES[i] != RELOC_NAMES[j]
  {
  }

  /** No name of the first quarter reappears in the third quarter. */
  lemma RelocNamesDistinct02(i: nat, j: nat)
    requires i < 11 && 22 <= j < 33
    ensures RELOC_NAMES[i] != RELOC_NAMES[j]
  {
  }

  /** No name of the first quarter reappears in the fourth quarter. */
  lemma RelocNamesDistinct03(i: nat, j: nat)
    requires i < 11 && 33 <= j < 44
    ensures RELOC_NAMES[i] != RELOC_NAMES[j]
  {
  }

  /** No two names in the second quarter of the table (indexes 11 to 21) are equal. */
  lemma RelocNamesDistinct11(i: nat, j: nat)
    requires 11 <= i < j < 22
    ensures RELOC_NAMES[i] != RELOC_NAMES[j]
  {
  }

  /** No name of the second quarter reappears in the third quarter. */
  lemma RelocNamesDistinct12(i: nat, j: nat)
    requires 11 <= i < 22 && 22 <= j < 33
    ensures RELOC_NAMES[i] != RELOC_NAMES[j]
  {
  }

  /** No name of the second quarter reappears in the fourth quarter. */
  lemma RelocNamesDistinct13(i: nat, j: nat)
    requires 11 <= i < 22 && 33 <= j < 44
    ensures RELOC_NAMES[i] != RELOC_NAMES[j]
  {
  }

  /** No two names in the third quarter of the table (indexes 22 to 32) are equal. */
  lemma RelocNamesDistinct22(i: nat, j: nat)
    requires 22 <= i < j < 33
    ensures RELOC_NAMES[i] != RELOC_NAMES[j]
  {
  }

  /** No name of the third quarter reappears in the fourth quarter. */
  lemma RelocNamesDistinct23(i: nat, j: nat)
    requires 22 <= i < 33 && 33 <= j < 44
    ensures RELOC_NAMES[i] != RELOC_NAMES[j]
  {
  }

  /** No two names in the fourth quarter of the table (indexes 33 to 43) are equal. */
  lemma RelocNamesDistinct33(i: nat, j: nat)
    requires 33 <= i < j < 44
    ensures RELOC_NAMES[i] != RELOC_NAMES[j]
  {
  }

  /** The table follows the numbering of the `RelocType` constants, which start at 1 with R_ADDR. */
  lemma RelocTypeNumbering()
    ensures RelocTypeName(1) == "R_ADDR" && RelocTypeName(5) == "R_ADDROFF"
    ensures RelocTypeName(8) == "R_CALL" && RelocTypeName(11) == "R_CALLIND"
    ensures RelocTypeName(15) == "R_PCREL" && RelocTypeName(44) == "R_ADDRCUOFF"
    ensures RelocTypeName(0) == "Unknown" && RelocTypeName(45) == "Unknown"
  {
    assert RELOC_NAMES[0] == "R_ADDR" && RELOC_NAMES[4] == "R_ADDROFF";
    assert RELOC_NAMES[7] == "R_CALL" && RELOC_NAMES[10] == "R_CALLIND";
    assert RELOC_NAMES[14] == "R_PCREL" && RELOC_NAMES[43] == "R_ADDRCUOFF";
  }

  /** Go `(v>>k)&0x1 != 0` on an int64: `>>` is floor division by 2^k. */
  predicate Bit(v: int64, k: nat)
  {
    (v / Pow2(k)) % 2 == 1
  }

  /** `Bit` reads bit k of the 64-bit two's complement pattern, negative values included. */
  lemma BitPattern(v: int64, k: nat)
    requires k < 64
    ensures Bit(v, k) <==> (ToUint64(v) / Pow2(k)) % 2 == 1
  {
    if v < 0 {
      Pow2Split(k);
      UnsignedOfNegative(v);
      EvenShiftParity(ToUint64(v), v, Pow2(k), Pow2(64 - k));
    }
  }

  /** The masks the decoders test: bits 0 to 3 are the values 1, 2, 4 and 8. */
  lemma LowPowers()
    ensures Pow2(0) == 1 && Pow2(1) == 2 && Pow2(2) == 4 && Pow2(3) == 8
  {
  }

  /** The symbol as the streaming decoder keeps it, without function metadata. */
  function Strip(sym: Symbol): (r: Symbol)
    ensures r.stextFields.None?
    ensures r.(stextFields := sym.stextFields) == sym
  {
    sym.(stextFields := None)
  }

  function StripAll(syms: seq<Symbol>): (r: seq<Symbol>)
    ensures |r| == |syms|
    ensures forall i :: 0 <= i < |syms| ==> r[i] == Strip(syms[i])
  {
    seq(|syms|, i requires 0 <= i < |syms| => Strip(syms[i]))
  }

  /** Stripping a table one symbol longer strips that symbol at its end. */
  lemma StripAllSnoc(syms: seq<Symbol>, sym: Symbol)
    ensures StripAll(syms + [sym]) == StripAll(syms) + [Strip(sym)]
  {
    assert forall i :: 0 <= i < |syms| ==> (syms + [sym])[i] == syms[i];
  }
}
