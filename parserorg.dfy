/**
 * The original decoder, `GoObjParser`. It reads the object file through the
 * buffered reader directly and returns each error as it happens, except in
 * the part of a symbol record after its relocation count, where every read
 * error is dropped. It counts the bytes it reads, and the count at the start
 * of the data block is where it places the symbols' data.
 *
 * A dropped error is always EOF, after which the stream stands at its end and
 * every further read yields zero. That is what the streaming decoder's held
 * error does too, so a ghost "would-be error" lets these methods be proved
 * against the same layout functions of module Format.
 */
module ParserOrg {
  import opened Ints
  import opened Results
  import opened Goobj
  import opened Wire
  import opened Format
  import opened Bufio
  import Zigzag

  /** Go's zero `Symbol{}`, returned with an error. */
  const ZERO_SYMBOL: Symbol := Symbol(0, 0, 0, false, false, false, 0, DataAddr(0, 0), [], None)

  /** Go's zero `SymbolReference{}`: the first entry of the reference table, and what a failed read returns. */
  const ZERO_REFERENCE: SymbolReference := SymbolReference([], 0)

  class GoObjParser {
    const reader: Source
    var refs: seq<SymbolReference>
    var readBytes: nat
    var currDataAddr: int64
    /**
     * The bytes consumed that `readBytes` leaves out: the markers and kind
     * bytes of the symbol table, the bytes of a string whose read failed, and
     * the footer.
     */
    ghost var uncounted: nat

    ghost predicate Valid()
      reads this, reader
    {
      reader.Valid() && readBytes + uncounted == reader.pos
    }

    /** The whole input, position 0 on. */
    ghost function Input(): seq<byte>
    {
      reader.input
    }

    /** How far the input has been consumed. */
    ghost function Pos(): nat
      reads reader
    {
      reader.pos
    }

    /** Go's NewGoObjParser on a file opened at its start. */
    constructor (input: seq<byte>)
      ensures Valid() && fresh(reader) && Input() == input && Pos() == 0
      ensures refs == [] && readBytes == 0 && currDataAddr == 0 && uncounted == 0
    {
      reader := new Source(input);
      refs := [];
      readBytes := 0;
      currDataAddr := 0;
      uncounted := 0;
    }

    /** Reads an 8-byte window, then slides it one byte at a time until it holds the magic header. */
    method SkipToEndOfMagicHeader() returns (err: Option<Error>)
      requires Valid()
      modifies this`readBytes, reader
      ensures Valid()
      ensures Reached(Header(Input(), old(Pos())), err, Pos())
    {
      hide Header, MagicEnd, MagicWindow;
      ghost var s, p0 := Input(), Pos();
      var buff := new byte[|MAGIC_HEADER|](i => 0);
      var n, e := reader.Read(buff, 0);
      if e.Some? {
        HeaderShort(s, p0);
        return e;
      }
      readBytes := readBytes + n;
      var window := buff[..];
      if n == |MAGIC_HEADER| {
        WindowRead(s, p0, window);
      } else {
        assert window[7] == 0;
      }
      while window != MAGIC_HEADER
        invariant Valid() && Input() == s && p0 < Pos()
        invariant |window| == |MAGIC_HEADER|
        invariant Pos() >= p0 + 8 ==> MagicWindow(s, Pos(), window) && MagicEnd(s, p0 + 8) == MagicEnd(s, Pos())
        invariant Pos() < p0 + 8 ==> Pos() == |s| && window[7] == 0
        decreases |s| - Pos()
      {
        ghost var q := Pos();
        var b, e := reader.ReadByte();
        if e.Some? {
          if q < p0 + 8 {
            HeaderShort(s, p0);
          } else {
            HeaderExhausted(s, p0, q, window);
          }
          return e;
        }
        MagicSlide(s, q, window, b);
        window := window[1..] + [b];
        readBytes := readBytes + 1;
      }
      HeaderFound(s, p0, Pos());
      err := None;
    }

    /** One byte, which must be version 1. */
    method SkipVersion() returns (err: Option<Error>)
      requires Valid()
      modifies this`readBytes, reader
      ensures Valid()
      ensures Reached(Version(Input(), old(Pos())), err, Pos())
    {
      var version, e := reader.ReadByte();
      if e.Some? {
        return e;
      }
      readBytes := readBytes + 1;
      if version != SUPPORTED_VERSION {
        return Some(UnexpectedVersion(version));
      }
      return None;
    }

    /** Bytes up to and including the first zero. */
    method SkipDependencies() returns (err: Option<Error>)
      requires Valid()
      modifies this`readBytes, reader
      ensures Valid()
      ensures Reached(Dependencies(Input(), old(Pos())), err, Pos())
    {
      ghost var s, p0 := Input(), Pos();
      while true
        invariant Valid() && Input() == s && p0 <= Pos()
        invariant Dependencies(s, p0) == Dependencies(s, Pos())
        decreases |s| - Pos()
      {
        var b, e := reader.ReadByte();
        if e.Some? {
          return e;
        }
        readBytes := readBytes + 1;
        if b == 0 {
          return None;
        }
      }
    }

    /**
     * The reference table. Its first entry is the zero reference, so that
     * index 0 means "no symbol"; the entries read follow in file order.
     */
    method ReadReferences() returns (entries: seq<SymbolReference>, err: Option<Error>)
      requires Valid()
      modifies this`readBytes, this`uncounted, reader
      ensures Valid()
      ensures match References(Input(), old(Pos()))
        case Done(table, q) => err.None? && entries == [ZERO_REFERENCE] + table && Pos() == q && uncounted == old(uncounted)
        case Fail(x) => err == Some(x) && entries == []
    {
      hide References;
      ghost var s, p0 := Input(), Pos();
      entries := [ZERO_REFERENCE];
      PrependNothing(References(s, p0));
      assert entries[1..] == [];
      while true
        invariant Valid() && Input() == s
        invariant uncounted == old(uncounted)
        invariant |entries| >= 1 && entries[0] == ZERO_REFERENCE
        invariant References(s, p0) == PrependAll(entries[1..], References(s, Pos()))
        decreases |s| - Pos()
      {
        ghost var p := Pos();
        ReferencesMarker(s, p);
        var b, e := reader.ReadByte();
        if e.Some? {
          return [], e;
        }
        readBytes := readBytes + 1;
        if b == MARKER_END {
          assert entries[1..] + [] == entries[1..];
          assert entries == [ZERO_REFERENCE] + entries[1..];
          return entries, None;
        } else if b != MARKER_ENTRY {
          return [], Some(SanityCheckFailed(b));
        }
        ghost var p1 := Pos();
        var ref, e1 := ReadReference();
        ReferencesEntry(s, p, p1, ref, e1, Pos());
        if e1.Some? {
          return [], e1;
        }
        PrependAllTwice(entries[1..], [ref], References(s, Pos()));
        assert (entries + [ref])[1..] == entries[1..] + [ref];
        entries := entries + [ref];
      }
    }

    /** One reference: a name string and a version varint. */
    method ReadReference() returns (ref: SymbolReference, err: Option<Error>)
      requires Valid()
      modifies this`readBytes, this`uncounted, reader
      ensures Valid()
      ensures Follows(Reference(Input(), old(Pos())), ref, err, Pos())
      ensures err.None? ==> uncounted == old(uncounted)
      ensures err.Some? ==> ref == ZERO_REFERENCE
    {
      var symbolName, e := ReadString();
      if e.Some? {
        return ZERO_REFERENCE, e;
      }
      var symbolVersion, e2 := ReadVarint();
      if e2.Some? {
        return ZERO_REFERENCE, e2;
      }
      return SymbolReference(symbolName, symbolVersion), None;
    }

    /**
     * A string: a varint length, then that many bytes, read until the buffer
     * is full. The bytes are counted only once all of them are read. A
     * negative length is Go's panic in `make`, returned here as an error.
     */
    method ReadString() returns (str: seq<byte>, err: Option<Error>)
      requires Valid()
      modifies this`readBytes, this`uncounted, reader
      ensures Valid()
      ensures Follows(DecodeString(Input(), old(Pos())), str, err, Pos())
      ensures err.None? ==> uncounted == old(uncounted)
      ensures err.Some? ==> str == []
    {
      hide DecodeString, DecodeVarint;
      ghost var s := Input();
      StringCases(s, Pos());
      var n, e := ReadVarint();
      if e.Some? {
        return [], e;
      }
      if n < 0 {
        return [], Some(NegativeLength);
      }
      var buff := new byte[n](i => 0);
      ghost var q := Pos();
      var numRead := 0;
      while numRead != n
        invariant reader.Valid() && Input() == s && 0 <= numRead <= n
        invariant Pos() == q + numRead <= |s| && buff[..numRead] == s[q..Pos()]
        invariant readBytes + uncounted + numRead == Pos()
        invariant uncounted == old(uncounted)
        decreases n - numRead
      {
        ghost var before := Pos();
        var read, e := reader.Read(buff, numRead);
        if e.Some? {
          uncounted := uncounted + numRead;
          return [], e;
        }
        SlicesJoin(buff[..], s, q, numRead, read);
        numRead := numRead + read;
      }
      readBytes := readBytes + numRead;
      assert buff[..] == buff[..numRead];
      return buff[..], None;
    }

    /** A signed varint, accumulated in a uint64 seven bits at a time and zigzag-decoded; every byte read is counted. */
    method ReadVarint() returns (v: int64, err: Option<Error>)
      requires Valid()
      modifies this`readBytes, reader
      ensures Valid()
      ensures readBytes == old(readBytes) + (Pos() - old(Pos()))
      ensures Follows(DecodeVarint(Input(), old(Pos())), v, err, Pos())
      ensures err.Some? ==> v == 0 && Pos() == |Input()|
    {
      hide GroupSum, Shl64, Pow2;
      ghost var s, p0 := Input(), Pos();
      var value: uint64 := 0;
      var shift: nat := 0;
      GroupSumEmpty(s[p0..Pos()]);
      while true
        invariant Valid() && Input() == s && p0 <= Pos() <= |s|
        invariant shift == 7 * (Pos() - p0)
        invariant forall j :: p0 <= j < Pos() ==> More(s[j])
        invariant value == GroupSum(s[p0..Pos()]) % TWO_64
        decreases |s| - Pos()
      {
        var b, e := reader.ReadByte();
        if e.Some? {
          UvarintExtent(s, p0);
          return 0, e;
        }
        readBytes := readBytes + 1;
        var last := Pos() - 1;
        assert s[p0..Pos()] == s[p0..last] + [b];
        AccumulateGroup(s[p0..last], b, value, shift);
        value := (value + Shl64(Low7(b), shift)) % TWO_64;
        if !More(b) {
          VarintLastAt(s, p0, last);
          break;
        }
        shift := shift + 7;
      }
      v := Zigzag.Decode(value);
      Zigzag.DecodeValue(value);
      err := None;
    }

    /**
     * `ReadVarint`, seen as the next varint of a run that started at `q` and
     * has yielded `vs` so far. `e0` is the error already dropped in this
     * record, if any, after which the stream stands at its end; `e1` is the
     * first error dropped once this read is done. `track` is false where no
     * run is being followed, because an error was dropped before it started.
     */
    method NextVarint(ghost q: nat, ghost vs: seq<int64>, ghost e0: Option<Error>, ghost track: bool)
      returns (v: int64, err: Option<Error>, ghost e1: Option<Error>)
      requires Valid() && (e0.Some? ==> Pos() == |Input()|)
      requires track ==> Follows(Varints(Input(), q, |vs|), vs, e0, Pos())
      modifies this`readBytes, reader
      ensures Valid()
      ensures e1 == if e0.Some? then e0 else err
      ensures e1.Some? ==> v == 0 && Pos() == |Input()|
      ensures track ==> Follows(Varints(Input(), q, |vs| + 1), vs + [v], e1, Pos())
    {
      ghost var pos0 := Pos();
      v, err := ReadVarint();
      e1 := if e0.Some? then e0 else err;
      if track {
        VarintsStep(Input(), q, |vs|, vs, v, e0, pos0, e1, Pos());
      }
    }

    /**
     * The symbol table, in file order. Each record's data regions follow the
     * previous record's, from `currDataAddr` on.
     */
    method ReadSymbols() returns (symbols: seq<Symbol>, err: Option<Error>)
      requires Valid()
      modifies this`readBytes, this`uncounted, this`currDataAddr, reader
      ensures Valid()
      ensures match Symbols(Input(), old(Pos()), old(currDataAddr))
        case Done((syms, end), q) => err.None? && symbols == syms && Pos() == q && currDataAddr == end
        case Fail(x) => err == Some(x) && symbols == []
    {
      hide Symbols, SymbolRecord;
      ghost var s, p0, off0 := Input(), Pos(), currDataAddr;
      symbols := [];
      PrependNoSymbols(Symbols(s, p0, off0));
      while true
        invariant Valid() && Input() == s
        invariant Symbols(s, p0, off0) == PrependSymbols(symbols, Symbols(s, Pos(), currDataAddr))
                  || (Pos() == |s| && Symbols(s, p0, off0) == Fail(EOF))
        decreases |s| - Pos()
      {
        ghost var p, off := Pos(), currDataAddr;
        SymbolsMarker(s, p, off);
        var b, e := reader.ReadByte();
        if e.Some? {
          return [], e;
        }
        uncounted := uncounted + 1;
        if b == MARKER_END {
          assert symbols + [] == symbols;
          return symbols, None;
        } else if b != MARKER_ENTRY {
          return [], Some(SanityCheckFailed(b));
        }
        ghost var p1 := Pos();
        var symbol, e1, dropped := ReadSymbol();
        SymbolsEntry(s, p, p1, off, (symbol, currDataAddr), dropped, Pos());
        if e1.Some? {
          return [], e1;
        }
        if dropped.None? {
          PrependSymbolsTwice(symbols, [symbol], Symbols(s, Pos(), currDataAddr));
        }
        symbols := symbols + [symbol];
      }
    }

    /**
     * One symbol record, from its kind byte on. The reads of the kind byte
     * and the fixed part return their errors; the relocations and the
     * function metadata are read with their errors dropped. `dropped` is the
     * error the record's layout fails with, whether returned or dropped.
     */
    method ReadSymbol() returns (symbol: Symbol, err: Option<Error>, ghost dropped: Option<Error>)
      requires Valid()
      modifies this`readBytes, this`uncounted, this`currDataAddr, reader
      ensures Valid()
      ensures uncounted == old(uncounted) + (if old(Pos()) < |Input()| then 1 else 0)
      ensures Follows(SymbolRecord(Input(), old(Pos()), old(currDataAddr)), (symbol, currDataAddr), dropped, Pos())
      ensures dropped.Some? ==> Pos() == |Input()|
      ensures err.Some? ==> err == dropped
      ensures err.None? <==> old(Pos()) < |Input()| && Varints(Input(), old(Pos()) + 1, SYMBOL_HEAD).Done?
    {
      hide SymbolRecord, SymbolHead, Stext, DecodeVarint, Varints, Add64, Bit, ToRelocations;
      ghost var s, p, off := Input(), Pos(), currDataAddr;
      ghost var fields: (StextFields, int64) :| true;
      var kind, e := reader.ReadByte();
      if e.Some? {
        SymbolHeadEnd(s, p, off);
        SymbolRecordFrom(s, p, off, (ZERO_SYMBOL, off), fields, e, p, e, p);
        return ZERO_SYMBOL, e, e;
      }
      uncounted := uncounted + 1;
      var idIndex, flags, size, goTypeIndex, symData, numRelocs;
      ghost var vs;
      idIndex, flags, size, goTypeIndex, symData, numRelocs, err, vs := ReadSymbolHead();
      if err.Some? {
        HeadFailure(s, p, off, SYMBOL_HEAD);
        return ZERO_SYMBOL, err, err;
      }
      ghost var p1 := Pos();
      var relocations;
      ghost var rs;
      relocations, rs, dropped := ReadRelocations(numRelocs);
      symbol := Symbol(idIndex, kind, size, Bit(flags, 0), Bit(flags, 1), Bit(flags, 2), goTypeIndex,
                       symData, relocations, None);
      assert SymbolOf(kind, vs, rs, off) == (symbol, currDataAddr);
      SymbolHeadFrom(s, p, off, vs, rs, None, p1, dropped, Pos());
      ghost var head := (symbol, currDataAddr);
      ghost var p2 := Pos();
      if kind != STEXT {
        SymbolRecordFrom(s, p, off, head, fields, dropped, p2, dropped, p2);
        return symbol, None, dropped;
      }
      ghost var e1 := dropped;
      var stextFields;
      stextFields, dropped := ReadStextFields(e1);
      SymbolRecordFrom(s, p, off, head, (stextFields, currDataAddr), e1, p2, dropped, Pos());
      symbol := symbol.(stextFields := Some(stextFields));
      return symbol, None, dropped;
    }

    /**
     * The fixed part of a symbol record, every read checked: ID index, flags,
     * size, Go type index, data size and the number of relocations. The data
     * region is placed at the current data address, which then moves past it.
     */
    method ReadSymbolHead()
      returns (idIndex: int64, flags: int64, size: int64, goTypeIndex: int64, symData: DataAddr, numRelocs: int64,
               err: Option<Error>, ghost vs: seq<int64>)
      requires Valid()
      modifies this`readBytes, this`currDataAddr, reader
      ensures Valid()
      ensures Follows(Varints(Input(), old(Pos()), SYMBOL_HEAD), vs, err, Pos())
      ensures err.Some? ==> Pos() == |Input()|
      ensures err.None? ==> vs == [idIndex, flags, size, goTypeIndex, symData.size, numRelocs]
      ensures err.None? ==> symData == DataAddr(vs[4], old(currDataAddr)) && currDataAddr == Add64(old(currDataAddr), vs[4])
    {
      hide DecodeVarint, Varints, Add64;
      ghost var q := Pos();
      idIndex, flags, size, goTypeIndex, symData, numRelocs := 0, 0, 0, 0, DataAddr(0, 0), 0;
      vs := [];
      NoVarints(Input(), q);
      idIndex, err := CheckedVarint(q, vs);
      if err.Some? {
        return;
      }
      assert vs + [idIndex] == [idIndex];
      vs := [idIndex];
      flags, err := CheckedVarint(q, vs);
      if err.Some? {
        return;
      }
      assert vs + [flags] == [idIndex, flags];
      vs := [idIndex, flags];
      size, err := CheckedVarint(q, vs);
      if err.Some? {
        return;
      }
      assert vs + [size] == [idIndex, flags, size];
      vs := [idIndex, flags, size];
      goTypeIndex, err := CheckedVarint(q, vs);
      if err.Some? {
        return;
      }
      assert vs + [goTypeIndex] == [idIndex, flags, size, goTypeIndex];
      vs := [idIndex, flags, size, goTypeIndex];
      var dataSize;
      dataSize, err := CheckedVarint(q, vs);
      if err.Some? {
        return;
      }
      assert vs + [dataSize] == [idIndex, flags, size, goTypeIndex, dataSize];
      vs := [idIndex, flags, size, goTypeIndex, dataSize];
      symData := DataAddr(dataSize, currDataAddr);
      currDataAddr := Add64(currDataAddr, dataSize);
      numRelocs, err := CheckedVarint(q, vs);
      if err.Some? {
        return;
      }
      assert vs + [numRelocs] == [idIndex, flags, size, goTypeIndex, dataSize, numRelocs];
      vs := [idIndex, flags, size, goTypeIndex, dataSize, numRelocs];
    }

    /** One checked read of the fixed part of a symbol record, the first `|vs|` being read already. */
    method CheckedVarint(ghost q: nat, ghost vs: seq<int64>) returns (v: int64, err: Option<Error>)
      requires Valid() && |vs| < SYMBOL_HEAD && Follows(Varints(Input(), q, |vs|), vs, None, Pos())
      modifies this`readBytes, reader
      ensures Valid()
      ensures err.None? ==> Follows(Varints(Input(), q, |vs| + 1), vs + [v], None, Pos())
      ensures err.Some? ==> Varints(Input(), q, SYMBOL_HEAD) == Fail(err.value) && Pos() == |Input()|
    {
      ghost var dropped;
      v, err, dropped := NextVarint(q, vs, None, true);
      if err.Some? {
        VarintsFailure(Input(), q, |vs| + 1, SYMBOL_HEAD);
      }
    }

    /** The relocations of a symbol, five varints each, read with their errors dropped. */
    method ReadRelocations(n: int64) returns (relocations: seq<Relocation>, ghost vs: seq<int64>, ghost e: Option<Error>)
      requires Valid()
      modifies this`readBytes, reader
      ensures Valid()
      ensures relocations == ToRelocations(vs)
      ensures Follows(Varints(Input(), old(Pos()), Count(n) * 5), vs, e, Pos())
      ensures e.Some? ==> Pos() == |Input()|
    {
      hide DecodeVarint, Varints, ToRelocations;
      ghost var q := Pos();
      NoVarints(Input(), q);
      vs := [];
      e := None;
      relocations := [];
      var i := 0;
      while i < n
        invariant Valid()
        invariant 0 <= i && (i == 0 || i <= n) && |vs| == i * 5
        invariant relocations == ToRelocations(vs)
        invariant Follows(Varints(Input(), q, |vs|), vs, e, Pos()) && (e.Some? ==> Pos() == |Input()|)
        decreases n - i
      {
        ghost var prev := vs;
        var offset, _, e1 := NextVarint(q, vs, e, true);
        vs, e := vs + [offset], e1;
        var relocSize, _, e2 := NextVarint(q, vs, e, true);
        vs, e := vs + [relocSize], e2;
        var relocType, _, e3 := NextVarint(q, vs, e, true);
        vs, e := vs + [relocType], e3;
        var add, _, e4 := NextVarint(q, vs, e, true);
        vs, e := vs + [add], e4;
        var idIndex, _, e5 := NextVarint(q, vs, e, true);
        vs, e := vs + [idIndex], e5;
        assert vs == prev + [offset, relocSize, relocType, add, idIndex];
        ToRelocationsStep(prev, offset, relocSize, relocType, add, idIndex);
        relocations := relocations + [Relocation(offset, relocSize, ToInt32(relocType), add, idIndex)];
        i := i + 1;
      }
    }


    /**
     * The metadata of an STEXT symbol, read with its errors dropped. Its
     * pc-value tables take the next regions of the data block.
     */
    method ReadStextFields(ghost e0: Option<Error>) returns (fields: StextFields, ghost e: Option<Error>)
      requires Valid() && (e0.Some? ==> Pos() == |Input()|)
      modifies this`readBytes, this`currDataAddr, reader
      ensures Valid()
      ensures e0.Some? ==> e == e0 && Pos() == old(Pos())
      ensures e0.None? ==> Follows(Stext(Input(), old(Pos()), old(currDataAddr)), (fields, currDataAddr), e, Pos())
      ensures e.Some? ==> Pos() == |Input()|
    {
      hide Stext, FuncHead, PcSizes, FuncData, Counted, InlineTree, Layout, Bit, ToLocals, DecodeVarint, Varints;
      ghost var s, p, off := Input(), Pos(), currDataAddr;
      var args, frame, flags, noSplit, locals, head, localVs, e1 := ReadFuncHead(e0);
      ghost var p1 := Pos();
      var pcsp, pcFile, pcLine, pcInline, pcData, sizes, e2 := ReadPcTables(e1);
      ghost var p2 := Pos();
      var funcDataIndex, funcDataOffset, e3 := ReadFuncData(e2);
      ghost var p3 := Pos();
      var fileIndex, e4 := ReadFiles(e3);
      ghost var p4 := Pos();
      e := SkipInlineTree(e4);
      fields := StextFields(args, frame, Bit(flags, 0), Bit(flags, 1), Bit(flags, 2), Bit(flags, 3), noSplit != 0,
                            locals, pcsp, pcFile, pcLine, pcInline, pcData, funcDataIndex, funcDataOffset, fileIndex);
      assert StextOf(head, localVs, sizes, funcDataIndex, funcDataOffset, fileIndex, off) == (fields, currDataAddr);
      if e0.None? {
        StextFrom(s, p, off, head, localVs, sizes, funcDataIndex, funcDataOffset, fileIndex,
                  e1, p1, e2, p2, e3, p3, e4, p4, e, Pos());
      }
    }

    /** Args, frame, flags and nosplit, then the locals count and the locals. */
    method ReadFuncHead(ghost e0: Option<Error>)
      returns (args: int64, frame: int64, flags: int64, noSplit: int64, locals: seq<Local>,
               ghost head: seq<int64>, ghost localVs: seq<int64>, ghost e: Option<Error>)
      requires Valid() && (e0.Some? ==> Pos() == |Input()|)
      modifies this`readBytes, reader
      ensures Valid()
      ensures |head| == FUNC_HEAD && head[..4] == [args, frame, flags, noSplit] && locals == ToLocals(localVs)
      ensures e0.Some? ==> e == e0 && Pos() == old(Pos())
      ensures e0.None? ==> Follows(FuncHead(Input(), old(Pos())), (head, localVs), e, Pos())
      ensures e.Some? ==> Pos() == |Input()|
    {
      hide DecodeVarint, Varints, FuncHead;
      ghost var s, p := Input(), Pos();
      ghost var ok := e0.None?;
      NoVarints(s, p);
      head := [];
      e := e0;
      var dropped: Option<Error>;
      ghost var e1: Option<Error>;
      args, dropped, e1 := NextVarint(p, head, e, ok);
      head, e := head + [args], e1;
      frame, dropped, e1 := NextVarint(p, head, e, ok);
      head, e := head + [frame], e1;
      flags, dropped, e1 := NextVarint(p, head, e, ok);
      head, e := head + [flags], e1;
      noSplit, dropped, e1 := NextVarint(p, head, e, ok);
      head, e := head + [noSplit], e1;
      var numLocals;
      numLocals, dropped, e1 := NextVarint(p, head, e, ok);
      head, e := head + [numLocals], e1;
      ghost var eh, ph := e, Pos();
      locals, localVs, e := ReadLocals(numLocals, eh);
      if ok {
        FuncHeadFrom(s, p, head, localVs, eh, ph, e, Pos());
      }
    }

    /** The locals of a function, four varints each. */
    method ReadLocals(n: int64, ghost e0: Option<Error>) returns (locals: seq<Local>, ghost vs: seq<int64>, ghost e: Option<Error>)
      requires Valid() && (e0.Some? ==> Pos() == |Input()|)
      modifies this`readBytes, reader
      ensures Valid()
      ensures locals == ToLocals(vs)
      ensures e0.Some? ==> e == e0 && Pos() == old(Pos())
      ensures e0.None? ==> Follows(Varints(Input(), old(Pos()), Count(n) * 4), vs, e, Pos())
      ensures e.Some? ==> Pos() == |Input()|
    {
      hide DecodeVarint, Varints, ToLocals;
      ghost var q := Pos();
      ghost var ok := e0.None?;
      NoVarints(Input(), q);
      vs, e := [], e0;
      locals := [];
      var i := 0;
      while i < n
        invariant Valid()
        invariant 0 <= i && (i == 0 || i <= n) && |vs| == i * 4
        invariant locals == ToLocals(vs)
        invariant e.Some? ==> Pos() == |Input()|
        invariant !ok ==> e == e0 && Pos() == q
        invariant ok ==> Follows(Varints(Input(), q, |vs|), vs, e, Pos())
        decreases n - i
      {
        ghost var prev := vs;
        var asymIndex, _, e1 := NextVarint(q, vs, e, ok);
        vs, e := vs + [asymIndex], e1;
        var offset, _, e2 := NextVarint(q, vs, e, ok);
        vs, e := vs + [offset], e2;
        var localType, _, e3 := NextVarint(q, vs, e, ok);
        vs, e := vs + [localType], e3;
        var gotypeIndex, _, e4 := NextVarint(q, vs, e, ok);
        vs, e := vs + [gotypeIndex], e4;
        assert vs == prev + [asymIndex, offset, localType, gotypeIndex];
        ToLocalsStep(prev, asymIndex, offset, localType, gotypeIndex);
        locals := locals + [Local(asymIndex, offset, localType, gotypeIndex)];
        i := i + 1;
      }
    }

    /**
     * The pc-value tables: the sizes of pcsp, pcfile, pcline and pcinline,
     * then the pcdata count and sizes. Each table takes the next region of
     * the data block.
     */
    method ReadPcTables(ghost e0: Option<Error>)
      returns (pcsp: DataAddr, pcFile: DataAddr, pcLine: DataAddr, pcInline: DataAddr, pcData: seq<DataAddr>,
               ghost sizes: seq<int64>, ghost e: Option<Error>)
      requires Valid() && (e0.Some? ==> Pos() == |Input()|)
      modifies this`readBytes, this`currDataAddr, reader
      ensures Valid()
      ensures |sizes| >= 4
      ensures Layout(sizes, old(currDataAddr)) == ([pcsp, pcFile, pcLine, pcInline] + pcData, currDataAddr)
      ensures e0.Some? ==> e == e0 && Pos() == old(Pos())
      ensures e0.None? ==> Follows(PcSizes(Input(), old(Pos())), sizes, e, Pos())
      ensures e.Some? ==> Pos() == |Input()|
    {
      hide DecodeVarint, Varints, PcSizes, Layout, Add64;
      ghost var s, p, off := Input(), Pos(), currDataAddr;
      ghost var ok := e0.None?;
      ghost var tables;
      pcsp, pcFile, pcLine, pcInline, tables, e := ReadFixedTables(e0);
      var numPCData, _, e5 := NextVarint(p, tables, e, ok);
      ghost var head := tables + [numPCData];
      e := e5;
      ghost var ph := Pos();
      ghost var pcdata;
      pcData, pcdata, e := ReadPcData(numPCData, e);
      LayoutConcat(tables, pcdata, off);
      sizes := tables + pcdata;
      if ok {
        assert head[..4] == tables;
        PcSizesFrom(s, p, head, pcdata, e5, ph, e, Pos());
      }
    }

    /** The sizes of pcsp, pcfile, pcline and pcinline, laid out one after another. */
    method ReadFixedTables(ghost e0: Option<Error>)
      returns (pcsp: DataAddr, pcFile: DataAddr, pcLine: DataAddr, pcInline: DataAddr,
               ghost tables: seq<int64>, ghost e: Option<Error>)
      requires Valid() && (e0.Some? ==> Pos() == |Input()|)
      modifies this`readBytes, this`currDataAddr, reader
      ensures Valid()
      ensures |tables| == 4
      ensures Layout(tables, old(currDataAddr)) == ([pcsp, pcFile, pcLine, pcInline], currDataAddr)
      ensures e0.Some? ==> e == e0 && Pos() == old(Pos())
      ensures e0.None? ==> Follows(Varints(Input(), old(Pos()), 4), tables, e, Pos())
      ensures e.Some? ==> Pos() == |Input()|
    {
      hide DecodeVarint, Varints, Layout, Add64;
      ghost var s, p, off := Input(), Pos(), currDataAddr;
      ghost var ok := e0.None?;
      tables := [];
      NoVarints(s, p);
      LayoutEmpty(off);
      e := e0;
      var pcspSize, _, e1 := NextVarint(p, tables, e, ok);
      LayoutStep(tables, pcspSize, off);
      assert tables + [pcspSize] == [pcspSize];
      tables, e := [pcspSize], e1;
      pcsp := DataAddr(pcspSize, currDataAddr);
      currDataAddr := Add64(currDataAddr, pcspSize);
      assert [] + [pcsp] == [pcsp];
      assert Layout(tables, off) == ([pcsp], currDataAddr);
      var pcFileSize, _, e2 := NextVarint(p, tables, e, ok);
      LayoutStep(tables, pcFileSize, off);
      assert tables + [pcFileSize] == [pcspSize, pcFileSize];
      tables, e := [pcspSize, pcFileSize], e2;
      pcFile := DataAddr(pcFileSize, currDataAddr);
      currDataAddr := Add64(currDataAddr, pcFileSize);
      assert [pcsp] + [pcFile] == [pcsp, pcFile];
      assert Layout(tables, off) == ([pcsp, pcFile], currDataAddr);
      var pcLineSize, _, e3 := NextVarint(p, tables, e, ok);
      LayoutStep(tables, pcLineSize, off);
      assert tables + [pcLineSize] == [pcspSize, pcFileSize, pcLineSize];
      tables, e := [pcspSize, pcFileSize, pcLineSize], e3;
      pcLine := DataAddr(pcLineSize, currDataAddr);
      currDataAddr := Add64(currDataAddr, pcLineSize);
      assert [pcsp, pcFile] + [pcLine] == [pcsp, pcFile, pcLine];
      assert Layout(tables, off) == ([pcsp, pcFile, pcLine], currDataAddr);
      var pcInlineSize, _, e4 := NextVarint(p, tables, e, ok);
      LayoutStep(tables, pcInlineSize, off);
      assert tables + [pcInlineSize] == [pcspSize, pcFileSize, pcLineSize, pcInlineSize];
      tables, e := [pcspSize, pcFileSize, pcLineSize, pcInlineSize], e4;
      pcInline := DataAddr(pcInlineSize, currDataAddr);
      currDataAddr := Add64(currDataAddr, pcInlineSize);
      assert [pcsp, pcFile, pcLine] + [pcInline] == [pcsp, pcFile, pcLine, pcInline];
    }

    /** The pc-data tables: each is laid out where the previous one ends. */
    method ReadPcData(n: int64, ghost e0: Option<Error>) returns (pcData: seq<DataAddr>, ghost sizes: seq<int64>, ghost e: Option<Error>)
      requires Valid() && (e0.Some? ==> Pos() == |Input()|)
      modifies this`readBytes, this`currDataAddr, reader
      ensures Valid()
      ensures |sizes| == Count(n)
      ensures Layout(sizes, old(currDataAddr)) == (pcData, currDataAddr)
      ensures e0.Some? ==> e == e0 && Pos() == old(Pos())
      ensures e0.None? ==> Follows(Varints(Input(), old(Pos()), Count(n)), sizes, e, Pos())
      ensures e.Some? ==> Pos() == |Input()|
    {
      hide DecodeVarint, Varints, Layout, Add64;
      ghost var q, off := Pos(), currDataAddr;
      ghost var ok := e0.None?;
      NoVarints(Input(), q);
      LayoutEmpty(off);
      pcData, sizes, e := [], [], e0;
      var i := 0;
      while i < n
        invariant Valid()
        invariant 0 <= i && (i == 0 || i <= n) && |sizes| == i
        invariant e.Some? ==> Pos() == |Input()|
        invariant !ok ==> e == e0 && Pos() == q
        invariant ok ==> Follows(Varints(Input(), q, |sizes|), sizes, e, Pos())
        invariant Layout(sizes, off) == (pcData, currDataAddr)
        decreases n - i
      {
        var pcDataSize, _, e1 := NextVarint(q, sizes, e, ok);
        LayoutStep(sizes, pcDataSize, off);
        var addr := DataAddr(pcDataSize, currDataAddr);
        currDataAddr := Add64(currDataAddr, pcDataSize);
        pcData := pcData + [addr];
        sizes, e := sizes + [pcDataSize], e1;
        i := i + 1;
      }
    }

    /** The funcdata count, then that many symbol indexes, then that many offsets. */
    method ReadFuncData(ghost e0: Option<Error>) returns (indexes: seq<int64>, offsets: seq<int64>, ghost e: Option<Error>)
      requires Valid() && (e0.Some? ==> Pos() == |Input()|)
      modifies this`readBytes, reader
      ensures Valid()
      ensures e0.Some? ==> e == e0 && Pos() == old(Pos())
      ensures e0.None? ==> Follows(FuncData(Input(), old(Pos())), (indexes, offsets), e, Pos())
      ensures e.Some? ==> Pos() == |Input()|
    {
      ghost var s, p := Input(), Pos();
      var numFuncData, err := ReadVarint();
      ghost var e1, p1 := if e0.Some? then e0 else err, Pos();
      ghost var e2;
      indexes, e2 := ReadVarints(numFuncData, e1);
      ghost var p2 := Pos();
      offsets, e := ReadVarints(numFuncData, e2);
      if e0.None? {
        FuncDataFrom(s, p, numFuncData, indexes, offsets, e1, p1, e2, p2, e, Pos());
      }
    }

    /** The file count, then that many file indexes. */
    method ReadFiles(ghost e0: Option<Error>) returns (files: seq<int64>, ghost e: Option<Error>)
      requires Valid() && (e0.Some? ==> Pos() == |Input()|)
      modifies this`readBytes, reader
      ensures Valid()
      ensures e0.Some? ==> e == e0 && Pos() == old(Pos())
      ensures e0.None? ==> Follows(Counted(Input(), old(Pos())), files, e, Pos())
      ensures e.Some? ==> Pos() == |Input()|
    {
      ghost var s, p := Input(), Pos();
      var numFiles, err := ReadVarint();
      ghost var e1, p1 := if e0.Some? then e0 else err, Pos();
      files, e := ReadVarints(numFiles, e1);
      if e0.None? {
        CountedFrom(s, p, numFiles, files, e1, p1, e, Pos());
      }
    }

    /** The inline tree count, then that many records of parent, file, line and func, all dropped. */
    method SkipInlineTree(ghost e0: Option<Error>) returns (ghost e: Option<Error>)
      requires Valid() && (e0.Some? ==> Pos() == |Input()|)
      modifies this`readBytes, reader
      ensures Valid()
      ensures e0.Some? ==> e == e0 && Pos() == old(Pos())
      ensures e0.None? ==> Reached(InlineTree(Input(), old(Pos())), e, Pos())
      ensures e.Some? ==> Pos() == |Input()|
    {
      hide DecodeVarint, Varints, InlineTree;
      ghost var s, p := Input(), Pos();
      var numInlineTrees, err := ReadVarint();
      e := if e0.Some? then e0 else err;
      ghost var e1, q := e, Pos();
      ghost var ok := e1.None?;
      ghost var vs: seq<int64> := [];
      NoVarints(s, q);
      var i: int := 0;
      while i < numInlineTrees
        invariant Valid() && Input() == s
        invariant 0 <= i && (i == 0 || i <= numInlineTrees) && |vs| == i * 4
        invariant e.Some? ==> Pos() == |s|
        invariant !ok ==> e == e1 && Pos() == q
        invariant ok ==> Follows(Varints(s, q, |vs|), vs, e, Pos())
        decreases numInlineTrees - i
      {
        var parent, _, e2 := NextVarint(q, vs, e, ok);
        vs, e := vs + [parent], e2;
        var file, _, e3 := NextVarint(q, vs, e, ok);
        vs, e := vs + [file], e3;
        var line, _, e4 := NextVarint(q, vs, e, ok);
        vs, e := vs + [line], e4;
        var fn, _, e5 := NextVarint(q, vs, e, ok);
        vs, e := vs + [fn], e5;
        i := i + 1;
      }
      if e0.None? {
        InlineTreeFrom(s, p, numInlineTrees, vs, e1, q, e, Pos());
      }
    }

    /** Go's `for i := int64(0); i < n; i++` over single varints, each appended, with errors dropped. */
    method ReadVarints(n: int64, ghost e0: Option<Error>) returns (vs: seq<int64>, ghost e: Option<Error>)
      requires Valid() && (e0.Some? ==> Pos() == |Input()|)
      modifies this`readBytes, reader
      ensures Valid()
      ensures |vs| == Count(n)
      ensures e0.Some? ==> e == e0 && Pos() == old(Pos())
      ensures e0.None? ==> Follows(Varints(Input(), old(Pos()), Count(n)), vs, e, Pos())
      ensures e.Some? ==> Pos() == |Input()|
    {
      hide DecodeVarint, Varints;
      ghost var q := Pos();
      ghost var ok := e0.None?;
      NoVarints(Input(), q);
      vs, e := [], e0;
      var i := 0;
      while i < n
        invariant Valid()
        invariant 0 <= i && (i == 0 || i <= n) && |vs| == i
        invariant e.Some? ==> Pos() == |Input()|
        invariant !ok ==> e == e0 && Pos() == q
        invariant ok ==> Follows(Varints(Input(), q, |vs|), vs, e, Pos())
        decreases n - i
      {
        var v, _, e1 := NextVarint(q, vs, e, ok);
        vs, e := vs + [v], e1;
        i := i + 1;
      }
    }

    /** A single read of up to seven bytes, which must be the magic footer. */
    method SkipMagicFooter() returns (err: Option<Error>)
      requires Valid()
      modifies this`uncounted, reader
      ensures Valid() && readBytes == old(readBytes)
      ensures Reached(Footer(Input(), old(Pos())), err, Pos())
    {
      hide Footer;
      ghost var s, p := Input(), Pos();
      var buff := new byte[|MAGIC_FOOTER|](i => 0);
      assert buff[..] == Zeros(|MAGIC_FOOTER|);
      var n, e := reader.Read(buff, 0);
      uncounted := uncounted + n;
      if e.Some? {
        return e;
      }
      var window := buff[..];
      assert window == s[p..p + n] + Zeros(|MAGIC_FOOTER| - n) by {
        assert window == buff[0..n] + buff[n..];
      }
      FooterFrom(s, p, n, window);
      if window != MAGIC_FOOTER {
        return Some(InvalidFooter(window));
      }
      return None;
    }

    /**
     * Go's Parse, without the printing of the symbol table: decodes the file
     * from its start, keeps the reference table in `refs`, and returns the
     * symbols that the table is printed from, then checks the footer. The
     * symbols' data regions are counted from the start of the file.
     */
    method Parse() returns (symbols: seq<Symbol>, err: Option<Error>)
      requires Valid() && Pos() == 0
      modifies this, reader
      ensures Valid()
      ensures GoObjFile(Input()).Fail? ==> err == Some(GoObjFile(Input()).error)
      ensures GoObjFile(Input()).Done? ==>
                refs == GoObjFile(Input()).value.0 && symbols == GoObjFile(Input()).value.1 &&
                err == ErrorOf(Footer(Input(), GoObjFile(Input()).next))
    {
      hide References, Symbols, Footer, DecodeVarint, Varints, GoObjFile, Preamble, HintsEnd, DataEnd;
      ghost var s := Input();
      assert readBytes == 0 && uncounted == 0;
      err := SkipPreamble();
      if err.Some? {
        PreambleFailure(s);
        return [], err;
      }
      ghost var q1 := Pos();
      refs, err := ReadReferences();
      ghost var table := if References(s, q1).Done? then References(s, q1).value else [];
      ghost var q2 := Pos();
      if err.Some? {
        TableFailure(s, q1);
        return [], err;
      }
      var dataLength;
      dataLength, err := ReadVarint();
      if err.Some? {
        TableFailure(s, q1);
        return [], err;
      }
      ghost var q3 := Pos();
      assert readBytes == q3;
      SkipSizeHints();
      ghost var q4 := Pos();
      assert readBytes == q4;
      currDataAddr := ToInt64(readBytes);
      var _, _ := reader.Discard(dataLength);
      uncounted := uncounted + (Pos() - q4);
      assert Pos() == DataEnd(q4, dataLength, |s|);
      GoObjFileSymbols(s, q1, table, q2, dataLength, q3);
      symbols, err := ReadSymbols();
      if err.Some? {
        return [], err;
      }
      err := SkipMagicFooter();
    }

    /** The magic header, the version byte and the dependency list, from the start of the file. */
    method SkipPreamble() returns (err: Option<Error>)
      requires Valid() && Pos() == 0
      modifies this`readBytes, reader
      ensures Valid()
      ensures Reached(Preamble(Input()), err, Pos())
    {
      hide Header, Version, Dependencies;
      ghost var s := Input();
      err := SkipToEndOfMagicHeader();
      if err.Some? {
        return;
      }
      ghost var h := Pos();
      assert Header(s, 0).Done? && Header(s, 0).next == h;
      err := SkipVersion();
      if err.Some? {
        return;
      }
      ghost var v := Pos();
      assert Version(s, h).Done? && Version(s, h).next == v;
      err := SkipDependencies();
    }

    /** The five size hints, read with their errors dropped. */
    method SkipSizeHints()
      requires Valid()
      modifies this`readBytes, reader
      ensures Valid()
      ensures Pos() == HintsEnd(Input(), old(Pos()))
    {
      hide Varints, DecodeVarint;
      ghost var q := Pos();
      ghost var hints: seq<int64> := [];
      NoVarints(Input(), q);
      var reloc, _, e1 := NextVarint(q, hints, None, true);
      hints := hints + [reloc];
      var pcdata, _, e2 := NextVarint(q, hints, e1, true);
      hints := hints + [pcdata];
      var automatics, _, e3 := NextVarint(q, hints, e2, true);
      hints := hints + [automatics];
      var funcdata, _, e4 := NextVarint(q, hints, e3, true);
      hints := hints + [funcdata];
      var files, _, e5 := NextVarint(q, hints, e4, true);
    }
  }

  /**
   * A buffer filled from `q` by `k` bytes, then `m` more, holds the `k + m`
   * bytes from `q`: the step that keeps the invariant of the short-read loop
   * in `GoObjParser.ReadString` (parserorg.go:230-237).
   */
  lemma SlicesJoin(buff: seq<byte>, s: seq<byte>, q: nat, k: nat, m: nat)
    requires k + m <= |buff| && q + k + m <= |s|
    requires buff[..k] == s[q..q + k] && buff[k..k + m] == s[q + k..q + k + m]
    ensures buff[..k + m] == s[q..q + k + m]
  {
    assert buff[..k + m] == buff[..k] + buff[k..k + m];
    assert s[q..q + k + m] == s[q..q + k] + s[q + k..q + k + m];
  }

  /** Where the header, version or dependencies fail, the file fails the same way. */
  lemma PreambleFailure(s: seq<byte>)
    requires Preamble(s).Fail?
    ensures GoObjFile(s) == Fail(Preamble(s).error)
  {
  }

  /** Where the reference table or the data length fails, the file fails the same way. */
  lemma TableFailure(s: seq<byte>, q1: nat)
    requires Preamble(s).Done? && Preamble(s).next == q1
    ensures References(s, q1).Fail? ==> GoObjFile(s) == Fail(References(s, q1).error)
    ensures References(s, q1).Done? && DecodeVarint(s, References(s, q1).next).Fail? ==>
              GoObjFile(s) == Fail(DecodeVarint(s, References(s, q1).next).error)
  {
  }

  /** Past the data length, the file is decided by the symbol table, read from where the data block is skipped to. */
  lemma GoObjFileSymbols(s: seq<byte>, q1: nat, table: seq<SymbolReference>, q2: nat, len: int64, q3: nat)
    requires Preamble(s).Done? && Preamble(s).next == q1
    requires References(s, q1) == Done(table, q2) && DecodeVarint(s, q2) == Done(len, q3)
    ensures GoObjFile(s) == FileFrom(table, Symbols(s, DataEnd(HintsEnd(s, q3), len, |s|), ToInt64(HintsEnd(s, q3))))
  {
  }

  /** A failure within the fixed part of a symbol record fails the whole record. */
  lemma HeadFailure(s: seq<byte>, p: nat, off: int64, k: nat)
    requires p < |s| && 0 < k <= SYMBOL_HEAD && Varints(s, p + 1, k).Fail?
    ensures SymbolRecord(s, p, off) == Fail(Varints(s, p + 1, k).error)
  {
    VarintsFailure(s, p + 1, k, SYMBOL_HEAD);
  }

  /**
   * The file as the original decoder reads it: the reference table with the
   * zero reference in front, and the symbols with their function metadata.
   * The size hints are read with their errors dropped, and the data block is
   * skipped rather than read: a negative length skips nothing, a length past
   * the end stops there. The symbols' data regions are counted from where
   * the data block starts in the file. Also yields where the footer starts.
   */
  function GoObjFile(s: seq<byte>): (r: Outcome<(seq<SymbolReference>, seq<Symbol>)>)
    ensures r.Done? ==> r.next <= |s| && |r.value.0| >= 1 && r.value.0[0] == ZERO_REFERENCE
  {
    match Preamble(s)
    case Fail(e) => Fail(e)
    case Done(_, q1) =>
    match References(s, q1)
    case Fail(e) => Fail(e)
    case Done(table, q2) =>
    match DecodeVarint(s, q2)
    case Fail(e) => Fail(e)
    case Done(len, q3) =>
      var q4 := HintsEnd(s, q3);
      FileFrom(table, Symbols(s, DataEnd(q4, len, |s|), ToInt64(q4)))
  }

  /** Where the five size hints end; a failed hint leaves the reader at the end of the input. */
  function HintsEnd(s: seq<byte>, p: nat): (r: nat)
    requires p <= |s|
    ensures p <= r <= |s|
    ensures Varints(s, p, NUM_HINTS).Done? ==> r == Varints(s, p, NUM_HINTS).next
    ensures Varints(s, p, NUM_HINTS).Fail? ==> r == |s|
  {
    VarintsShape(s, p, NUM_HINTS);
    var hints := Varints(s, p, NUM_HINTS);
    if hints.Done? then hints.next else |s|
  }

  /** Where skipping a data block of length `len` from `p` leaves the reader in an input of length `n`. */
  function DataEnd(p: nat, len: int64, n: nat): (r: nat)
    requires p <= n
    ensures p <= r <= n
    ensures len < 0 ==> r == p
    ensures len >= 0 ==> r == Min(p + len, n)
  {
    if len < 0 then p else Min(p + len, n)
  }

  /** The file from its reference table and the outcome of its symbol table. */
  function FileFrom(table: seq<SymbolReference>, symbols: Outcome<(seq<Symbol>, int64)>): (r: Outcome<(seq<SymbolReference>, seq<Symbol>)>)
    ensures r.Done? <==> symbols.Done?
    ensures r.Fail? ==> r.error == symbols.error
    ensures r.Done? ==> r.value == ([ZERO_REFERENCE] + table, symbols.value.0) && r.next == symbols.next
  {
    match symbols
    case Fail(e) => Fail(e)
    case Done((syms, _), q) => Done(([ZERO_REFERENCE] + table, syms), q)
  }
}
