/**
 * The streaming decoder. A `Parser` reads the object file once, front to
 * back, through a counting reader: it skips the header, checks the version,
 * skips the dependencies, then keeps the reference table, the data block and
 * the symbols (without their function metadata, which it skips), and finally
 * checks the footer.
 *
 * Each step is proved against the pure layout of module Format: on success it
 * consumes exactly the bytes of its part and keeps what that part decodes to;
 * on failure it reports the error the layout says the part fails with.
 */
module Parser {
  import opened Ints
  import opened Results
  import opened Goobj
  import opened Wire
  import opened Format
  import opened Bufio
  import opened Counter

  class Parser {
    const reader: Reader
    /** The total size of the data-block regions associated with the symbols parsed so far. */
    var associatedDataSize: int64
    var symbols: seq<Symbol>
    var symbolReferences: seq<SymbolReference>
    var data: array<byte>

    ghost predicate Valid()
      reads this, reader, reader.raw
    {
      reader.Valid()
    }

    /** The whole input, position 0 on. */
    ghost function Input(): seq<byte>
    {
      reader.raw.input
    }

    /** How far the input has been consumed. */
    ghost function Pos(): nat
      reads reader.raw
    {
      reader.raw.pos
    }

    /** The error the reader holds. */
    ghost function Err(): Option<Error>
      reads reader
    {
      reader.err
    }

    constructor (raw: Source)
      requires raw.Valid()
      ensures Valid() && fresh(reader) && reader.raw == raw
      ensures Err().None? && Pos() == old(raw.pos)
      ensures associatedDataSize == 0 && symbols == [] && symbolReferences == [] && data.Length == 0
    {
      reader := new Reader(raw);
      associatedDataSize := 0;
      symbols := [];
      symbolReferences := [];
      data := new byte[0];
    }

    /**
     * Reads an 8-byte window, then slides it one byte at a time until it holds
     * the magic header.
     */
    method SkipHeader() returns (e: Option<Error>)
      requires Valid()
      modifies reader, reader.raw
      ensures Valid()
      ensures old(Err()).Some? ==> e == old(Err()) && Err() == e && Pos() == old(Pos())
      ensures old(Err()).None? ==> Reached(Header(Input(), old(Pos())), e, Pos())
      ensures Err() == e
    {
      hide Header, MagicEnd, MagicWindow;
      ghost var s, p0 := Input(), Pos();
      var buff := new byte[|MAGIC_HEADER|](i => 0);
      var n := reader.Read(buff, 0);
      if reader.err.Some? {
        if old(Err()).None? {
          HeaderShort(s, p0);
        }
        return reader.err;
      }
      var window := buff[..];
      if n == |MAGIC_HEADER| {
        WindowRead(s, p0, window);
      } else {
        assert window[7] == 0;
      }
      while window != MAGIC_HEADER
        invariant Valid() && Input() == s && Err().None? && p0 < Pos()
        invariant |window| == |MAGIC_HEADER|
        invariant Pos() >= p0 + 8 ==> MagicWindow(s, Pos(), window) && MagicEnd(s, p0 + 8) == MagicEnd(s, Pos())
        invariant Pos() < p0 + 8 ==> Pos() == |s| && window[7] == 0
        decreases |s| - Pos()
      {
        ghost var q := Pos();
        var b := reader.ReadByte();
        if reader.err.Some? {
          if q < p0 + 8 {
            HeaderShort(s, p0);
          } else {
            HeaderExhausted(s, p0, q, window);
          }
          return reader.err;
        }
        MagicSlide(s, q, window, b);
        window := window[1..] + [b];
      }
      HeaderFound(s, p0, Pos());
      e := None;
    }

    /** One byte, which must be version 1. */
    method CheckVersion() returns (e: Option<Error>)
      requires Valid()
      modifies reader, reader.raw
      ensures Valid()
      ensures old(Err()).Some? ==> e == old(Err()) && Err() == e && Pos() == old(Pos())
      ensures old(Err()).None? ==> Reached(Version(Input(), old(Pos())), e, Pos())
      ensures e.None? ==> Err().None?
    {
      var version := reader.ReadByte();
      if reader.err.Some? {
        return reader.err;
      }
      if version != SUPPORTED_VERSION {
        return Some(UnexpectedVersion(version));
      }
      return None;
    }

    /** Bytes up to and including the first zero. */
    method SkipDependencies() returns (e: Option<Error>)
      requires Valid()
      modifies reader, reader.raw
      ensures Valid()
      ensures old(Err()).Some? ==> e == old(Err()) && Pos() == old(Pos())
      ensures old(Err()).None? ==> Reached(Dependencies(Input(), old(Pos())), e, Pos())
      ensures Err() == e
    {
      ghost var s, p0 := Input(), Pos();
      while true
        invariant Valid() && Input() == s && Err() == old(Err())
        invariant old(Err()).Some? ==> Pos() == p0
        invariant old(Err()).None? ==> p0 <= Pos() && Dependencies(s, p0) == Dependencies(s, Pos())
        decreases |s| - Pos()
      {
        var b := reader.ReadByte();
        if reader.err.Some? {
          return reader.err;
        }
        if b == 0 {
          return None;
        }
      }
    }

    /**
     * The reference table, appended to `symbolReferences` in file order.
     * Yields, as ghost, the references it appended.
     */
    method ParseReferences() returns (e: Option<Error>, ghost got: seq<SymbolReference>)
      requires Valid()
      modifies this, reader, reader.raw
      ensures Valid()
      ensures old(Err()).Some? ==> e == old(Err()) && Pos() == old(Pos()) && got == []
      ensures old(Err()).None? ==> Follows(References(Input(), old(Pos())), got, e, Pos())
      ensures e.None? ==> Err().None?
      ensures symbolReferences == old(symbolReferences) + got
      ensures associatedDataSize == old(associatedDataSize) && symbols == old(symbols) && data == old(data)
    {
      hide References;
      ghost var s, p0 := Input(), Pos();
      got := [];
      PrependNothing(References(s, p0));
      while true
        invariant Valid() && Input() == s && Err() == old(Err())
        invariant associatedDataSize == old(associatedDataSize) && symbols == old(symbols) && data == old(data)
        invariant old(Err()).Some? ==> Pos() == p0 && got == []
        invariant symbolReferences == old(symbolReferences) + got
        invariant old(Err()).None? ==> References(s, p0) == PrependAll(got, References(s, Pos()))
        decreases |s| - Pos()
      {
        ghost var p := Pos();
        ReferencesMarker(s, p);
        var b := reader.ReadByte();
        if reader.err.Some? {
          return reader.err, got;
        }
        if b == MARKER_END {
          assert got + [] == got;
          return None, got;
        } else if b != MARKER_ENTRY {
          return Some(SanityCheckFailed(b)), got;
        }
        ghost var ref;
        ghost var p1 := Pos();
        e, ref := ParseReference();
        ReferencesEntry(s, p, p1, ref, e, Pos());
        if e.Some? {
          return e, got;
        }
        PrependAllTwice(got, [ref], References(s, Pos()));
        got := got + [ref];
      }
    }

    /** One reference: a name string and a version varint. Yields, as ghost, the reference it read. */
    method ParseReference() returns (e: Option<Error>, ghost ref: SymbolReference)
      requires Valid() && Err().None?
      modifies this, reader, reader.raw
      ensures Valid() && Err() == e
      ensures Follows(Reference(Input(), old(Pos())), ref, e, Pos())
      ensures e.None? ==> symbolReferences == old(symbolReferences) + [ref]
      ensures e.Some? ==> symbolReferences == old(symbolReferences)
      ensures associatedDataSize == old(associatedDataSize) && symbols == old(symbols) && data == old(data)
    {
      ref := SymbolReference([], 0);
      var symbolName := reader.ReadString();
      if reader.err.Some? {
        return reader.err, ref;
      }
      var symbolVersion := reader.ReadVarint();
      if reader.err.Some? {
        return reader.err, ref;
      }
      symbolReferences := symbolReferences + [SymbolReference(symbolName, symbolVersion)];
      ref := SymbolReference(symbolName, symbolVersion);
      return None, ref;
    }

    /**
     * `reader.ReadVarint()`, seen as the next varint of a run that started at
     * `p` and has yielded `vs` so far. `track` is false where no run is being
     * followed, because an error was already held where it would have started.
     */
    method NextVarint(ghost p: nat, ghost vs: seq<int64>, ghost track: bool) returns (v: int64)
      requires Valid()
      requires track ==> Follows(Varints(Input(), p, |vs|), vs, Err(), Pos())
      modifies reader, reader.raw
      ensures Valid()
      ensures old(Err()).Some? ==> v == 0 && Err() == old(Err()) && Pos() == old(Pos())
      ensures track ==> Follows(Varints(Input(), p, |vs| + 1), vs + [v], Err(), Pos())
      ensures Err().Some? ==> v == 0
    {
      ghost var e0, pos0 := Err(), Pos();
      v := reader.ReadVarint();
      if track {
        VarintsStep(Input(), p, |vs|, vs, v, e0, pos0, Err(), Pos());
      }
    }

    /**
     * The data block. The five size hints are read without checking for
     * errors, so when they run into EOF and the length is zero the error
     * stays held in the reader instead of being returned.
     */
    method ParseData() returns (e: Option<Error>)
      requires Valid()
      modifies this, reader, reader.raw
      ensures Valid()
      ensures old(Err()).Some? ==> e == old(Err()) && Pos() == old(Pos()) && data == old(data)
      ensures old(Err()).None? ==>
        match DataBlock(Input(), old(Pos()))
        case Done(bytes, q) => e.None? && Err().None? && Pos() == q && data[..] == bytes
        case Fail(x) => e == Some(x) || (e.None? && Err() == Some(x) && data.Length == 0)
      ensures associatedDataSize == old(associatedDataSize) && symbols == old(symbols)
      ensures symbolReferences == old(symbolReferences)
    {
      hide DecodeVarint, Varints;
      ghost var s, p := Input(), Pos();
      var dataLength := reader.ReadVarint();
      if reader.err.Some? {
        return reader.err;
      }
      ghost var p1 := Pos();
      ghost var vs: seq<int64> := [];
      NoVarints(s, p1);
      var reloc := NextVarint(p1, vs, true);
      vs := vs + [reloc];
      var pcdata := NextVarint(p1, vs, true);
      vs := vs + [pcdata];
      var automatics := NextVarint(p1, vs, true);
      vs := vs + [automatics];
      var funcdata := NextVarint(p1, vs, true);
      vs := vs + [funcdata];
      var files := NextVarint(p1, vs, true);
      vs := vs + [files];
      DataBlockFrom(s, p, dataLength, vs, p1, Err(), Pos());
      if dataLength < 0 {
        return Some(NegativeLength);
      }
      data := new byte[dataLength](i => 0);
      e := reader.ReadFull(data);
    }

    /** The symbol table, appended to `symbols` in file order. */
    method ParseSymbols() returns (e: Option<Error>)
      requires Valid()
      modifies this, reader, reader.raw
      ensures Valid()
      ensures old(Err()).Some? ==> e == old(Err()) && Pos() == old(Pos()) && symbols == old(symbols)
      ensures old(Err()).None? ==>
        match Symbols(Input(), old(Pos()), old(associatedDataSize))
        case Done((syms, end), q) =>
          e.None? && Err().None? && Pos() == q && associatedDataSize == end && symbols == old(symbols) + StripAll(syms)
        case Fail(x) => e == Some(x)
      ensures symbolReferences == old(symbolReferences) && data == old(data)
    {
      hide Symbols, SymbolRecord;
      ghost var s, p0, off0 := Input(), Pos(), associatedDataSize;
      ghost var done: seq<Symbol> := [];
      PrependNoSymbols(Symbols(s, p0, off0));
      while true
        invariant Valid() && Input() == s && Err() == old(Err())
        invariant symbolReferences == old(symbolReferences) && data == old(data)
        invariant old(Err()).Some? ==> Pos() == p0 && done == []
        invariant symbols == old(symbols) + StripAll(done)
        invariant old(Err()).None? ==> Symbols(s, p0, off0) == PrependSymbols(done, Symbols(s, Pos(), associatedDataSize))
        decreases |s| - Pos()
      {
        ghost var p, off := Pos(), associatedDataSize;
        SymbolsMarker(s, p, off);
        var b := reader.ReadByte();
        if reader.err.Some? {
          return reader.err;
        }
        if b == MARKER_END {
          assert done + [] == done;
          return None;
        } else if b != MARKER_ENTRY {
          return Some(SanityCheckFailed(b));
        }
        ghost var sym;
        ghost var p1 := Pos();
        e, sym := ParseSymbol();
        SymbolsEntry(s, p, p1, off, sym, e, Pos());
        if e.Some? {
          return e;
        }
        PrependSymbolsTwice(done, [sym.0], Symbols(s, Pos(), associatedDataSize));
        StripAllSnoc(done, sym.0);
        done := done + [sym.0];
      }
    }

    /**
     * One symbol record, from its kind byte on. Its reads are not checked one
     * by one: after a failed read the remaining ones yield zeros, and the
     * held error is returned at the end. The symbol is kept unless skipping
     * its function metadata failed. Yields, as ghost, the record it read.
     */
    method ParseSymbol() returns (e: Option<Error>, ghost sym: (Symbol, int64))
      requires Valid() && Err().None?
      modifies this, reader, reader.raw
      ensures Valid() && e == Err()
      ensures Follows(SymbolRecord(Input(), old(Pos()), old(associatedDataSize)), sym, e, Pos())
      ensures e.None? ==> symbols == old(symbols) + [Strip(sym.0)] && associatedDataSize == sym.1
      ensures e.Some? ==>
        var kept := if old(Pos()) < |Input()| && Input()[old(Pos())] == STEXT then 0 else 1;
        |symbols| == |old(symbols)| + kept && symbols[..|old(symbols)|] == old(symbols)
      ensures symbolReferences == old(symbolReferences) && data == old(data)
    {
      hide SymbolRecord, SymbolHead, Stext;
      ghost var s, p, off := Input(), Pos(), associatedDataSize;
      var symbol := ParseSymbolHead();
      ghost var head := (symbol, associatedDataSize);
      ghost var e1, p1 := Err(), Pos();
      ghost var fields: (StextFields, int64) :| true;
      sym := head;
      if symbol.kind == STEXT {
        e, fields := SkipSTEXTFields();
        sym := (symbol.(stextFields := Some(fields.0)), fields.1);
        SymbolRecordFrom(s, p, off, head, fields, e1, p1, Err(), Pos());
        if e.Some? {
          return e, sym;
        }
      } else {
        SymbolRecordFrom(s, p, off, head, fields, e1, p1, Err(), Pos());
      }
      symbols := symbols + [symbol];
      return reader.err, sym;
    }

    /**
     * A symbol record up to its function metadata: the kind byte, the fixed
     * part and the relocations. The symbol's data takes the next region of
     * the data block.
     */
    method ParseSymbolHead() returns (symbol: Symbol)
      requires Valid() && Err().None?
      modifies this, reader, reader.raw
      ensures Valid()
      ensures Follows(SymbolHead(Input(), old(Pos()), old(associatedDataSize)), (symbol, associatedDataSize), Err(), Pos())
      ensures symbol.kind == if old(Pos()) < |Input()| then Input()[old(Pos())] else 0
      ensures symbols == old(symbols) && symbolReferences == old(symbolReferences) && data == old(data)
    {
      hide DecodeVarint, Varints, SymbolHead, Add64, Bit, ToRelocations;
      ghost var s, p, off := Input(), Pos(), associatedDataSize;
      var kind := reader.ReadByte();
      ghost var ok := Err().None?;
      ghost var vs: seq<int64> := [];
      NoVarints(s, p + 1);
      var idIndex := NextVarint(p + 1, vs, ok);
      vs := vs + [idIndex];
      var flags := NextVarint(p + 1, vs, ok);
      vs := vs + [flags];
      var size := NextVarint(p + 1, vs, ok);
      vs := vs + [size];
      var goTypeIndex := NextVarint(p + 1, vs, ok);
      vs := vs + [goTypeIndex];
      var dataSize := NextVarint(p + 1, vs, ok);
      vs := vs + [dataSize];
      var symData := DataAddr(dataSize, associatedDataSize);
      associatedDataSize := Add64(associatedDataSize, dataSize);
      var numRelocs := NextVarint(p + 1, vs, ok);
      vs := vs + [numRelocs];
      ghost var e1, p1 := Err(), Pos();
      var relocations, rs := ParseRelocations(numRelocs);
      symbol := Symbol(idIndex, kind, size, Bit(flags, 0), Bit(flags, 1), Bit(flags, 2), goTypeIndex,
                       symData, relocations, None);
      assert SymbolOf(kind, vs, rs, off) == (symbol, associatedDataSize);
      if ok {
        SymbolHeadFrom(s, p, off, vs, rs, e1, p1, Err(), Pos());
      } else {
        SymbolHeadEnd(s, p, off);
      }
    }

    /** The relocations of a symbol, five varints each. */
    method ParseRelocations(n: int64) returns (relocations: seq<Relocation>, ghost vs: seq<int64>)
      requires Valid()
      modifies reader, reader.raw
      ensures Valid()
      ensures relocations == ToRelocations(vs)
      ensures old(Err()).Some? ==> Err() == old(Err()) && Pos() == old(Pos())
      ensures old(Err()).None? ==> Follows(Varints(Input(), old(Pos()), Count(n) * 5), vs, Err(), Pos())
    {
      hide DecodeVarint, Varints, ToRelocations;
      ghost var q := Pos();
      ghost var ok := Err().None?;
      NoVarints(Input(), q);
      vs := [];
      relocations := [];
      var i := 0;
      while i < n
        invariant Valid() && 0 <= i && (i == 0 || i <= n) && |vs| == i * 5
        invariant relocations == ToRelocations(vs)
        invariant !ok ==> Err() == old(Err()) && Pos() == q
        invariant ok ==> Follows(Varints(Input(), q, |vs|), vs, Err(), Pos())
        decreases n - i
      {
        ghost var prev := vs;
        var offset := NextVarint(q, vs, ok);
        vs := vs + [offset];
        var relocSize := NextVarint(q, vs, ok);
        vs := vs + [relocSize];
        var relocType := NextVarint(q, vs, ok);
        vs := vs + [relocType];
        var add := NextVarint(q, vs, ok);
        vs := vs + [add];
        var relocIndex := NextVarint(q, vs, ok);
        vs := vs + [relocIndex];
        assert vs == prev + [offset, relocSize, relocType, add, relocIndex];
        ToRelocationsStep(prev, offset, relocSize, relocType, add, relocIndex);
        relocations := relocations + [Relocation(offset, relocSize, ToInt32(relocType), add, relocIndex)];
        i := i + 1;
      }
    }

    /**
     * The metadata of an STEXT symbol, skipped except for the sizes of its
     * pc-value tables, which take their regions of the data block. Yields,
     * as ghost, the metadata it went past.
     */
    method SkipSTEXTFields() returns (e: Option<Error>, ghost fields: (StextFields, int64))
      requires Valid()
      modifies this, reader, reader.raw
      ensures Valid() && e == Err()
      ensures old(Err()).Some? ==> e == old(Err()) && Pos() == old(Pos())
      ensures old(Err()).None? ==> Follows(Stext(Input(), old(Pos()), old(associatedDataSize)), fields, e, Pos())
      ensures old(Err()).None? && e.None? ==> associatedDataSize == fields.1
      ensures symbols == old(symbols) && symbolReferences == old(symbolReferences) && data == old(data)
    {
      hide Stext, FuncHead, PcSizes, FuncData, Counted, InlineTree;
      ghost var s, p, off := Input(), Pos(), associatedDataSize;
      ghost var head, locals := SkipFuncHead();
      ghost var e1, p1 := Err(), Pos();
      ghost var sizes := ReadPcSizes();
      ghost var e2, p2 := Err(), Pos();
      ghost var indexes, offsets := SkipFuncData();
      ghost var e3, p3 := Err(), Pos();
      ghost var files := SkipFiles();
      ghost var e4, p4 := Err(), Pos();
      SkipInlineTree();
      fields := StextOf(head, locals, sizes, indexes, offsets, files, off);
      if old(Err()).None? {
        StextFrom(s, p, off, head, locals, sizes, indexes, offsets, files, e1, p1, e2, p2, e3, p3, e4, p4, Err(), Pos());
      }
      e := reader.err;
    }

    /** Args, frame, flags, nosplit, then the locals, four varints each. */
    method SkipFuncHead() returns (ghost head: seq<int64>, ghost locals: seq<int64>)
      requires Valid()
      modifies reader, reader.raw
      ensures Valid()
      ensures |head| == FUNC_HEAD
      ensures old(Err()).Some? ==> Err() == old(Err()) && Pos() == old(Pos())
      ensures old(Err()).None? ==> Follows(FuncHead(Input(), old(Pos())), (head, locals), Err(), Pos())
    {
      hide DecodeVarint, Varints, FuncHead;
      ghost var s, p := Input(), Pos();
      ghost var ok := Err().None?;
      NoVarints(s, p);
      head := [];
      var args := NextVarint(p, head, ok);
      head := head + [args];
      var frame := NextVarint(p, head, ok);
      head := head + [frame];
      var flags := NextVarint(p, head, ok);
      head := head + [flags];
      var noSplit := NextVarint(p, head, ok);
      head := head + [noSplit];
      var numLocals := NextVarint(p, head, ok);
      head := head + [numLocals];
      ghost var e1, p1 := Err(), Pos();
      locals := SkipRecords4(numLocals);
      if ok {
        FuncHeadFrom(s, p, head, locals, e1, p1, Err(), Pos());
      }
    }

    /**
     * The sizes of the pc-value tables: pcsp, pcfile, pcline, pcinline, then
     * the pcdata tables. Each table takes the next region of the data block.
     */
    method ReadPcSizes() returns (ghost sizes: seq<int64>)
      requires Valid()
      modifies this, reader, reader.raw
      ensures Valid()
      ensures |sizes| >= 4
      ensures old(Err()).Some? ==> Err() == old(Err()) && Pos() == old(Pos())
      ensures old(Err()).None? ==> Follows(PcSizes(Input(), old(Pos())), sizes, Err(), Pos())
      ensures associatedDataSize == Layout(sizes, old(associatedDataSize)).1
      ensures symbols == old(symbols) && symbolReferences == old(symbolReferences) && data == old(data)
    {
      hide DecodeVarint, Varints, PcSizes, Layout, Add64;
      ghost var s, p, off := Input(), Pos(), associatedDataSize;
      ghost var ok := Err().None?;
      ghost var tables: seq<int64> := [];
      NoVarints(s, p);
      LayoutEmpty(off);
      var pcspSize := NextVarint(p, tables, ok);
      LayoutStep(tables, pcspSize, off);
      tables := tables + [pcspSize];
      associatedDataSize := Add64(associatedDataSize, pcspSize);
      var pcFileSize := NextVarint(p, tables, ok);
      LayoutStep(tables, pcFileSize, off);
      tables := tables + [pcFileSize];
      associatedDataSize := Add64(associatedDataSize, pcFileSize);
      var pcLineSize := NextVarint(p, tables, ok);
      LayoutStep(tables, pcLineSize, off);
      tables := tables + [pcLineSize];
      associatedDataSize := Add64(associatedDataSize, pcLineSize);
      var pcInlineSize := NextVarint(p, tables, ok);
      LayoutStep(tables, pcInlineSize, off);
      tables := tables + [pcInlineSize];
      associatedDataSize := Add64(associatedDataSize, pcInlineSize);
      var numPCData := NextVarint(p, tables, ok);
      ghost var head := tables + [numPCData];
      ghost var e1, p1 := Err(), Pos();
      ghost var pcdata := ReadPcDataSizes(numPCData);
      LayoutConcat(tables, pcdata, off);
      sizes := tables + pcdata;
      if ok {
        assert head[..4] == tables;
        PcSizesFrom(s, p, head, pcdata, e1, p1, Err(), Pos());
      }
    }

    /** The pc-data tables' sizes, which move the data size past each table. */
    method ReadPcDataSizes(n: int64) returns (ghost sizes: seq<int64>)
      requires Valid()
      modifies this, reader, reader.raw
      ensures Valid()
      ensures |sizes| == Count(n)
      ensures old(Err()).Some? ==> Err() == old(Err()) && Pos() == old(Pos())
      ensures old(Err()).None? ==> Follows(Varints(Input(), old(Pos()), Count(n)), sizes, Err(), Pos())
      ensures associatedDataSize == Layout(sizes, old(associatedDataSize)).1
      ensures symbols == old(symbols) && symbolReferences == old(symbolReferences) && data == old(data)
    {
      hide DecodeVarint, Varints, Layout, Add64;
      ghost var q, off := Pos(), associatedDataSize;
      ghost var ok := Err().None?;
      NoVarints(Input(), q);
      LayoutEmpty(off);
      sizes := [];
      var i := 0;
      while i < n
        invariant Valid() && 0 <= i && (i == 0 || i <= n) && |sizes| == i
        invariant symbols == old(symbols) && symbolReferences == old(symbolReferences) && data == old(data)
        invariant !ok ==> Err() == old(Err()) && Pos() == q
        invariant ok ==> Follows(Varints(Input(), q, |sizes|), sizes, Err(), Pos())
        invariant associatedDataSize == Layout(sizes, off).1
        decreases n - i
      {
        var pcDataSize := NextVarint(q, sizes, ok);
        LayoutStep(sizes, pcDataSize, off);
        associatedDataSize := Add64(associatedDataSize, pcDataSize);
        sizes := sizes + [pcDataSize];
        i := i + 1;
      }
    }

    /** The funcdata count, then that many symbol indexes, then that many offsets. */
    method SkipFuncData() returns (ghost indexes: seq<int64>, ghost offsets: seq<int64>)
      requires Valid()
      modifies reader, reader.raw
      ensures Valid()
      ensures old(Err()).Some? ==> Err() == old(Err()) && Pos() == old(Pos())
      ensures old(Err()).None? ==> Follows(FuncData(Input(), old(Pos())), (indexes, offsets), Err(), Pos())
    {
      ghost var s, p := Input(), Pos();
      var numFuncData := reader.ReadVarint();
      ghost var e1, p1 := Err(), Pos();
      indexes := SkipVarints(numFuncData);
      ghost var e2, p2 := Err(), Pos();
      offsets := SkipVarints(numFuncData);
      if old(Err()).None? {
        FuncDataFrom(s, p, numFuncData, indexes, offsets, e1, p1, e2, p2, Err(), Pos());
      }
    }

    /** The file count, then that many file indexes. */
    method SkipFiles() returns (ghost files: seq<int64>)
      requires Valid()
      modifies reader, reader.raw
      ensures Valid()
      ensures old(Err()).Some? ==> Err() == old(Err()) && Pos() == old(Pos())
      ensures old(Err()).None? ==> Follows(Counted(Input(), old(Pos())), files, Err(), Pos())
    {
      ghost var s, p := Input(), Pos();
      var numFiles := reader.ReadVarint();
      ghost var e1, p1 := Err(), Pos();
      files := SkipVarints(numFiles);
      if old(Err()).None? {
        CountedFrom(s, p, numFiles, files, e1, p1, Err(), Pos());
      }
    }

    /** The inline tree count, then that many records of parent, file, line and func. */
    method SkipInlineTree()
      requires Valid()
      modifies reader, reader.raw
      ensures Valid()
      ensures old(Err()).Some? ==> Err() == old(Err()) && Pos() == old(Pos())
      ensures old(Err()).None? ==> Reached(InlineTree(Input(), old(Pos())), Err(), Pos())
    {
      ghost var s, p := Input(), Pos();
      var numInlineTrees := reader.ReadVarint();
      ghost var e1, p1 := Err(), Pos();
      ghost var trees := SkipRecords4(numInlineTrees);
      if old(Err()).None? {
        InlineTreeFrom(s, p, numInlineTrees, trees, e1, p1, Err(), Pos());
      }
    }

    /**
     * Go's `for i := 0; i < int(n); i++ { _ = readVarint() }`. Once an error
     * is held, every read leaves it as it is.
     */
    method SkipVarints(n: int64) returns (ghost vs: seq<int64>)
      requires Valid()
      modifies reader, reader.raw
      ensures Valid()
      ensures old(Err()).Some? ==> Err() == old(Err()) && Pos() == old(Pos())
      ensures old(Err()).None? ==> Follows(Varints(Input(), old(Pos()), Count(n)), vs, Err(), Pos())
    {
      hide DecodeVarint, Varints;
      ghost var q := Pos();
      ghost var ok := Err().None?;
      NoVarints(Input(), q);
      vs := [];
      var i := 0;
      while i < n
        invariant Valid() && 0 <= i && (i == 0 || i <= n) && |vs| == i
        invariant !ok ==> Err() == old(Err()) && Pos() == q
        invariant ok ==> Follows(Varints(Input(), q, |vs|), vs, Err(), Pos())
        decreases n - i
      {
        var v := NextVarint(q, vs, ok);
        vs := vs + [v];
        i := i + 1;
      }
    }

    /**
     * Go's `for i := 0; i < int(n); i++` over records of four discarded
     * varints, as the locals and the inline tree are skipped.
     */
    method SkipRecords4(n: int64) returns (ghost vs: seq<int64>)
      requires Valid()
      modifies reader, reader.raw
      ensures Valid()
      ensures old(Err()).Some? ==> Err() == old(Err()) && Pos() == old(Pos())
      ensures old(Err()).None? ==> Follows(Varints(Input(), old(Pos()), Count(n) * 4), vs, Err(), Pos())
    {
      hide DecodeVarint, Varints;
      ghost var q := Pos();
      ghost var ok := Err().None?;
      NoVarints(Input(), q);
      vs := [];
      var i := 0;
      while i < n
        invariant Valid() && 0 <= i && (i == 0 || i <= n) && |vs| == i * 4
        invariant !ok ==> Err() == old(Err()) && Pos() == q
        invariant ok ==> Follows(Varints(Input(), q, |vs|), vs, Err(), Pos())
        decreases n - i
      {
        var parent := NextVarint(q, vs, ok);
        vs := vs + [parent];
        var file := NextVarint(q, vs, ok);
        vs := vs + [file];
        var line := NextVarint(q, vs, ok);
        vs := vs + [line];
        var fn := NextVarint(q, vs, ok);
        vs := vs + [fn];
        i := i + 1;
      }
    }

    /** A single read of up to seven bytes, which must be the magic footer. */
    method SkipFooter() returns (e: Option<Error>)
      requires Valid()
      modifies reader, reader.raw
      ensures Valid()
      ensures old(Err()).Some? ==> e == old(Err())
      ensures old(Err()).None? ==> Reached(Footer(Input(), old(Pos())), e, Pos())
    {
      hide Footer;
      ghost var s, p := Input(), Pos();
      var buff := new byte[|MAGIC_FOOTER|](i => 0);
      assert buff[..] == Zeros(|MAGIC_FOOTER|);
      var n := reader.Read(buff, 0);
      if reader.err.Some? {
        return reader.err;
      }
      var window := buff[..];
      assert window == s[p..p + n] + Zeros(|MAGIC_FOOTER| - n) by {
        assert window == buff[0..n] + buff[n..];
      }
      FooterFrom(s, p, n, window);
      if window != MAGIC_FOOTER {
        return Some(InvalidFooter(window));
      }
      return None;
    }
  }

  /**
   * Go's Parse: decodes the whole object file. The file is returned once the
   * symbol table has been read, together with the outcome of the footer check.
   */
  method Parse(input: seq<byte>) returns (file: Option<File>, err: Option<Error>)
    ensures StreamingFile(input).Fail? ==> file.None? && err == Some(StreamingFile(input).error)
    ensures StreamingFile(input).Done? ==>
              file == Some(StreamingFile(input).value) && err == ErrorOf(Footer(input, StreamingFile(input).next))
  {
    hide Header, Version, Dependencies, References, DataBlock, Symbols, Footer;
    var raw := new Source(input);
    var parser := new Parser(raw);
    err := parser.SkipHeader();
    if err.Some? {
      return None, err;
    }
    err := parser.CheckVersion();
    if err.Some? {
      return None, err;
    }
    err := parser.SkipDependencies();
    if err.Some? {
      return None, err;
    }
    ghost var refs;
    err, refs := parser.ParseReferences();
    if err.Some? {
      return None, err;
    }
    err := parser.ParseData();
    if err.Some? {
      return None, err;
    }
    ghost var bytes := parser.data[..];
    err := parser.ParseSymbols();
    if err.Some? {
      return None, err;
    }
    assert parser.data[..] == bytes;
    assert StreamingFile(input).Done?;
    assert StreamingFile(input).value.symbolReferences == parser.symbolReferences;
    assert StreamingFile(input).value.data == parser.data[..];
    assert StreamingFile(input).value.symbols == parser.symbols;
    file := Some(File(parser.symbols, parser.symbolReferences, parser.data[..]));
    err := parser.SkipFooter();
  }
}
