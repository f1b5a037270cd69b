/**
 * The Go 1.10 ("go19ld") object file layout, as pure functions of the input
 * bytes. Each function decodes one part of the file starting at a position and
 * yields the decoded value with the position after it, or the first error.
 * Both decoders of the repository are proved to follow these functions.
 *
 *   header      any bytes, then the 8-byte magic "\x00\x00go19ld"
 *   version     one byte, which must be 1
 *   deps        bytes up to and including the first zero byte
 *   references  0xfe, name string, version varint ... then 0xff
 *   data        length varint, five size hints, then `length` raw bytes
 *   symbols     0xfe, symbol record ... then 0xff
 *   footer      the 7 bytes "\xffgo19ld"
 */
module Format {
  import opened Ints
  import opened Results
  import opened Wire
  import opened Goobj

  const MAGIC_HEADER: seq<byte> := [0x00, 0x00, 0x67, 0x6f, 0x31, 0x39, 0x6c, 0x64]
  const MAGIC_FOOTER: seq<byte> := [0xff, 0x67, 0x6f, 0x31, 0x39, 0x6c, 0x64]
  const SUPPORTED_VERSION: byte := 1
  const MARKER_ENTRY: byte := 0xfe
  const MARKER_END: byte := 0xff

  // ---------------------------------------------------------------------------
  // Framing

  /** The magic header ends exactly at position k. */
  predicate MagicAt(s: seq<byte>, k: nat)
  {
    |MAGIC_HEADER| <= k <= |s| && s[k - |MAGIC_HEADER|..k] == MAGIC_HEADER
  }

  /** The first position at or after q where a magic header ends. */
  function MagicEnd(s: seq<byte>, q: nat): (r: Option<nat>)
    decreases |s| + 1 - q
    ensures r.Some? ==> q <= r.value && MagicAt(s, r.value)
    ensures r.Some? ==> forall k :: q <= k < r.value ==> !MagicAt(s, k)
    ensures r.None? ==> forall k :: q <= k ==> !MagicAt(s, k)
  {
    if q > |s| then None
    else if MagicAt(s, q) then Some(q)
    else MagicEnd(s, q + 1)
  }

  /** `w` holds the 8 bytes that end at position `k`. */
  predicate MagicWindow(s: seq<byte>, k: nat, w: seq<byte>)
  {
    |MAGIC_HEADER| <= k <= |s| && w == s[k - |MAGIC_HEADER|..k]
  }

  /** The first full window read from `p`. */
  lemma WindowRead(s: seq<byte>, p: nat, w: seq<byte>)
    requires p + |MAGIC_HEADER| <= |s| && w == s[p..p + |MAGIC_HEADER|]
    ensures MagicWindow(s, p + |MAGIC_HEADER|, w)
  {
  }

  /** Sliding an 8-byte window that does not hold the magic header one byte on does not move the first header. */
  lemma MagicSlide(s: seq<byte>, q: nat, window: seq<byte>, b: byte)
    requires q < |s| && MagicWindow(s, q, window) && window != MAGIC_HEADER && b == s[q]
    ensures MagicWindow(s, q + 1, window[1..] + [b])
    ensures MagicEnd(s, q) == MagicEnd(s, q + 1)
  {
  }

  /**
   * Skipping to the end of the first magic header. The search reads one
   * 8-byte window and then slides it one byte at a time, so a header is only
   * found if it ends at least 8 bytes after `p`; running dry is EOF.
   */
  function Header(s: seq<byte>, p: nat): (r: Outcome<()>)
    ensures r.Done? <==> exists k :: p + |MAGIC_HEADER| <= k && MagicAt(s, k)
    ensures r.Done? ==> MagicAt(s, r.next) && p + |MAGIC_HEADER| <= r.next
    ensures r.Done? ==> forall k :: p + |MAGIC_HEADER| <= k < r.next ==> !MagicAt(s, k)
    ensures r.Fail? ==> r.error == EOF
  {
    match MagicEnd(s, p + |MAGIC_HEADER|)
    case None => Fail(EOF)
    case Some(q) => Done((), q)
  }

  /** Fewer than 8 bytes after `p`: no header can be found. */
  lemma HeaderShort(s: seq<byte>, p: nat)
    requires |s| < p + |MAGIC_HEADER|
    ensures Header(s, p) == Fail(EOF)
  {
  }

  /** The window slid to the end of the input without meeting the header. */
  lemma HeaderExhausted(s: seq<byte>, p: nat, q: nat, window: seq<byte>)
    requires p + |MAGIC_HEADER| <= q == |s| && MagicWindow(s, q, window) && window != MAGIC_HEADER
    requires MagicEnd(s, p + |MAGIC_HEADER|) == MagicEnd(s, q)
    ensures Header(s, p) == Fail(EOF)
  {
  }

  /** The window holds the header: the search stops where the window ends. */
  lemma HeaderFound(s: seq<byte>, p: nat, q: nat)
    requires p + |MAGIC_HEADER| <= q && MagicWindow(s, q, MAGIC_HEADER) && MagicEnd(s, p + |MAGIC_HEADER|) == MagicEnd(s, q)
    ensures Header(s, p).Done? && Header(s, p).next == q
  {
  }

  function Version(s: seq<byte>, p: nat): (r: Outcome<()>)
    ensures r.Done? <==> p < |s| && s[p] == SUPPORTED_VERSION
    ensures r.Done? ==> r.next == p + 1
    ensures p >= |s| ==> r == Fail(EOF)
    ensures p < |s| && s[p] != SUPPORTED_VERSION ==> r == Fail(UnexpectedVersion(s[p]))
  {
    if p >= |s| then Fail(EOF)
    else if s[p] != SUPPORTED_VERSION then Fail(UnexpectedVersion(s[p]))
    else Done((), p + 1)
  }

  /** The dependency list is skipped through the first zero byte. */
  function Dependencies(s: seq<byte>, p: nat): (r: Outcome<()>)
    decreases |s| - p
    ensures r.Done? ==> p < r.next <= |s| && s[r.next - 1] == 0
    ensures r.Done? ==> forall k :: p <= k < r.next - 1 ==> s[k] != 0
    ensures r.Fail? <==> forall k :: p <= k < |s| ==> s[k] != 0
    ensures r.Fail? ==> r.error == EOF
  {
    if p >= |s| then Fail(EOF)
    else if s[p] == 0 then Done((), p + 1)
    else Dependencies(s, p + 1)
  }

  /** `n` zero bytes: what fills the part of a read buffer a short read leaves untouched. */
  function Zeros(n: nat): (r: seq<byte>)
    ensures |r| == n && forall i :: 0 <= i < n ==> r[i] == 0
  {
    seq(n, i => 0)
  }

  /**
   * The footer check: a single read of up to 7 bytes. Fewer bytes than that
   * leave zeros in the buffer, which is then reported as it is.
   */
  function Footer(s: seq<byte>, p: nat): (r: Outcome<()>)
    requires p <= |s|
    ensures r.Done? <==> p + |MAGIC_FOOTER| <= |s| && s[p..p + |MAGIC_FOOTER|] == MAGIC_FOOTER
    ensures r.Done? ==> r.next == p + |MAGIC_FOOTER|
    ensures p == |s| ==> r == Fail(EOF)
    ensures r.Fail? && p < |s| ==> r.error.InvalidFooter? && |r.error.got| == |MAGIC_FOOTER|
  {
    if p == |s| then Fail(EOF)
    else
      var n := if |s| - p < |MAGIC_FOOTER| then |s| - p else |MAGIC_FOOTER|;
      var window := s[p..p + n] + Zeros(|MAGIC_FOOTER| - n);
      assert n < |MAGIC_FOOTER| ==> window[|MAGIC_FOOTER| - 1] == 0;
      if window == MAGIC_FOOTER then Done((), p + n) else Fail(InvalidFooter(window))
  }

  /** The footer check compares the bytes it could read, padded with zeros, against the magic footer. */
  lemma FooterFrom(s: seq<byte>, p: nat, n: nat, window: seq<byte>)
    requires p < |s| && n == (if |s| - p < |MAGIC_FOOTER| then |s| - p else |MAGIC_FOOTER|)
    requires window == s[p..p + n] + Zeros(|MAGIC_FOOTER| - n)
    ensures Footer(s, p) == if window == MAGIC_FOOTER then Done((), p + n) else Fail(InvalidFooter(window))
  {
  }

  // ---------------------------------------------------------------------------
  // Runs of varints

  /** `k` consecutive varints. */
  function Varints(s: seq<byte>, p: nat, k: nat): Outcome<seq<int64>>
    decreases k
  {
    if k == 0 then Done([], p)
    else match Varints(s, p, k - 1)
      case Fail(e) => Fail(e)
      case Done(vs, q) =>
        match DecodeVarint(s, q)
        case Fail(e) => Fail(e)
        case Done(v, q2) => Done(vs + [v], q2)
  }

  /** The empty run reads nothing. */
  lemma NoVarints(s: seq<byte>, p: nat)
    ensures Varints(s, p, 0) == Done([], p)
  {
  }

  /** A run of `k` varints yields `k` values and ends no earlier than it starts; it can only fail with EOF. */
  lemma {:induction false} VarintsShape(s: seq<byte>, p: nat, k: nat)
    requires p <= |s|
    ensures Varints(s, p, k).Done? ==> |Varints(s, p, k).value| == k && p <= Varints(s, p, k).next <= |s|
    ensures Varints(s, p, k).Done? && k > 0 ==> p < Varints(s, p, k).next
    ensures Varints(s, p, k).Fail? ==> Varints(s, p, k).error == EOF
    decreases k
  {
    if k > 0 {
      VarintsShape(s, p, k - 1);
      var prev := Varints(s, p, k - 1);
      if prev.Done? {
        var d := DecodeVarint(s, prev.next);
        if d.Done? {
          assert Varints(s, p, k) == Done(prev.value + [d.value], d.next);
        } else {
          assert Varints(s, p, k) == Fail(d.error);
        }
      }
    }
  }

  /** How many times Go's `for i := 0; i < int(n); i++` runs. */
  function Count(n: int64): (r: nat)
    ensures n >= 0 ==> r == n
    ensures n < 0 ==> r == 0
  {
    if n < 0 then 0 else n
  }

  // ---------------------------------------------------------------------------
  // References

  /** One reference: a name string and a version varint. */
  function Reference(s: seq<byte>, p: nat): (r: Outcome<SymbolReference>)
    requires p <= |s|
    ensures r.Done? ==> p < r.next <= |s|
    ensures r.Done? ==> DecodeString(s, p).Done? && r.value.name == DecodeString(s, p).value
    ensures r.Done? ==> DecodeVarint(s, DecodeString(s, p).next) == Done(r.value.version, r.next)
  {
    match DecodeString(s, p)
    case Fail(e) => Fail(e)
    case Done(name, q) =>
      match DecodeVarint(s, q)
      case Fail(e) => Fail(e)
      case Done(version, q2) => Done(SymbolReference(name, version), q2)
  }

  /** The reference table: entries each opened by 0xfe, closed by 0xff; any other marker is rejected. */
  function References(s: seq<byte>, p: nat): (r: Outcome<seq<SymbolReference>>)
    requires p <= |s|
    decreases |s| - p
    ensures r.Done? ==> p < r.next <= |s|
  {
    if p == |s| then Fail(EOF)
    else if s[p] == MARKER_END then Done([], p + 1)
    else if s[p] != MARKER_ENTRY then Fail(SanityCheckFailed(s[p]))
    else match Reference(s, p + 1)
      case Fail(e) => Fail(e)
      case Done(ref, q) =>
        match References(s, q)
        case Fail(e) => Fail(e)
        case Done(refs, q2) => Done([ref] + refs, q2)
  }

  // ---------------------------------------------------------------------------
  // Following a run step by step

  /** A decoder that read k varints and then one more follows the run of k + 1. */
  lemma VarintsStep(s: seq<byte>, p: nat, k: nat, vs: seq<int64>, v: int64,
                    err0: Option<Error>, pos0: nat, err1: Option<Error>, pos1: nat)
    requires Follows(Varints(s, p, k), vs, err0, pos0)
    requires err0.Some? ==> err1 == err0
    requires err0.None? ==> Follows(DecodeVarint(s, pos0), v, err1, pos1)
    ensures Follows(Varints(s, p, k + 1), vs + [v], err1, pos1)
  {
  }

  /** Once a run of varints fails, every longer run fails the same way. */
  lemma {:induction false} VarintsFailure(s: seq<byte>, p: nat, k: nat, n: nat)
    requires k <= n && Varints(s, p, k).Fail?
    ensures Varints(s, p, n) == Varints(s, p, k)
    decreases n
  {
    if k < n {
      VarintsFailure(s, p, k, n - 1);
    }
  }

  /** Prepends decoded entries to a table's outcome. */
  function PrependAll<T>(xs: seq<T>, o: Outcome<seq<T>>): (r: Outcome<seq<T>>)
    ensures r.Fail? <==> o.Fail?
    ensures r.Done? ==> r.value == xs + o.value && r.next == o.next
  {
    match o
    case Fail(e) => Fail(e)
    case Done(ys, q) => Done(xs + ys, q)
  }

  /** Prepends decoded symbols to a symbol table's outcome. */
  function PrependSymbols(xs: seq<Symbol>, o: Outcome<(seq<Symbol>, int64)>): (r: Outcome<(seq<Symbol>, int64)>)
    ensures r.Fail? <==> o.Fail?
    ensures r.Done? ==> r.value == (xs + o.value.0, o.value.1) && r.next == o.next
  {
    match o
    case Fail(e) => Fail(e)
    case Done((ys, end), q) => Done((xs + ys, end), q)
  }

  /** Prepending no entries leaves a table's outcome as it is. */
  lemma PrependNothing<T>(o: Outcome<seq<T>>)
    ensures PrependAll([], o) == o
  {
    if o.Done? {
      assert [] + o.value == o.value;
    }
  }

  /** Prepending no symbols leaves a symbol table's outcome as it is. */
  lemma PrependNoSymbols(o: Outcome<(seq<Symbol>, int64)>)
    ensures PrependSymbols([], o) == o
  {
    if o.Done? {
      assert [] + o.value.0 == o.value.0;
    }
  }

  // ---------------------------------------------------------------------------
  // Data block

  /** The five size hints after the data length, which the decoders skip. */
  const NUM_HINTS: nat := 5

  /**
   * The data block: its length, five size hints that are skipped, then the
   * bytes. A negative length is Go's panic in `make`; a block longer than
   * what remains runs into EOF.
   */
  function DataBlock(s: seq<byte>, p: nat): (r: Outcome<seq<byte>>)
    requires p <= |s|
    ensures r.Done? ==> p < r.next <= |s|
  {
    var len := DecodeVarint(s, p);
    if len.Fail? then Fail(len.error)
    else if len.value < 0 then Fail(NegativeLength)
    else
      var hints := Varints(s, len.next, NUM_HINTS);
      if hints.Fail? then Fail(hints.error)
      else if hints.next + len.value > |s| then Fail(EOF)
      else Done(s[hints.next..hints.next + len.value], hints.next + len.value)
  }

  // ---------------------------------------------------------------------------
  // Symbols

  /** Consecutive regions of the given sizes, the first at `start`; also yields where the last one ends. */
  function Layout(sizes: seq<int64>, start: int64): (r: (seq<DataAddr>, int64))
    ensures |r.0| == |sizes|
    ensures forall i :: 0 <= i < |sizes| ==> r.0[i].size == sizes[i]
    decreases |sizes|
  {
    if |sizes| == 0 then ([], start)
    else
      var (addrs, end) := Layout(sizes[..|sizes| - 1], start);
      (addrs + [DataAddr(sizes[|sizes| - 1], end)], Add64(end, sizes[|sizes| - 1]))
  }

  /**
   * Relocation records from a flat run of varints, five per record: offset,
   * size, type (an int64 narrowed to int32), addend, IDIndex.
   */
  function ToRelocations(vs: seq<int64>): (r: seq<Relocation>)
    ensures |r| == |vs| / 5
    decreases |vs|
  {
    if |vs| < 5 then []
    else
      var k := |vs| - 5;
      ToRelocations(vs[..k]) + [Relocation(vs[k], vs[k + 1], ToInt32(vs[k + 2]), vs[k + 3], vs[k + 4])]
  }

  /** Five more varints make one more relocation. */
  lemma ToRelocationsStep(vs: seq<int64>, a: int64, b: int64, c: int64, d: int64, e: int64)
    requires |vs| % 5 == 0
    ensures ToRelocations(vs + [a, b, c, d, e]) == ToRelocations(vs) + [Relocation(a, b, ToInt32(c), d, e)]
  {
    assert (vs + [a, b, c, d, e])[..|vs|] == vs;
  }

  /** No sizes, no regions: the end is the start. */
  lemma LayoutEmpty(start: int64)
    ensures Layout([], start) == ([], start)
  {
  }

  /** Appending a size appends one region, where the previous ones end, and moves the end past it. */
  lemma LayoutStep(sizes: seq<int64>, x: int64, start: int64)
    ensures Layout(sizes + [x], start).0 == Layout(sizes, start).0 + [DataAddr(x, Layout(sizes, start).1)]
    ensures Layout(sizes + [x], start).1 == Add64(Layout(sizes, start).1, x)
  {
    assert (sizes + [x])[..|sizes|] == sizes;
  }

  /** Laying out two runs of sizes one after the other lays out the second where the first ends. */
  lemma {:induction false} LayoutConcat(a: seq<int64>, b: seq<int64>, start: int64)
    ensures Layout(a + b, start).0 == Layout(a, start).0 + Layout(b, Layout(a, start).1).0
    ensures Layout(a + b, start).1 == Layout(b, Layout(a, start).1).1
    decreases |b|
  {
    hide Layout;
    var mid := Layout(a, start).1;
    if |b| == 0 {
      assert b == [] && a + b == a;
      LayoutEmpty(mid);
    } else {
      var b', x := b[..|b| - 1], b[|b| - 1];
      assert b == b' + [x];
      assert a + b == (a + b') + [x];
      LayoutConcat(a, b', start);
      LayoutStep(a + b', x, start);
      LayoutStep(b', x, mid);
    }
  }

  /** Locals from a flat run of varints, four per record: AsymIndex, offset, type, GotypeIndex. */
  function ToLocals(vs: seq<int64>): (r: seq<Local>)
    ensures |r| == |vs| / 4
    decreases |vs|
  {
    if |vs| < 4 then []
    else
      var k := |vs| - 4;
      ToLocals(vs[..k]) + [Local(vs[k], vs[k + 1], vs[k + 2], vs[k + 3])]
  }

  /** Four more varints make one more local. */
  lemma ToLocalsStep(vs: seq<int64>, a: int64, b: int64, c: int64, d: int64)
    requires |vs| % 4 == 0
    ensures ToLocals(vs + [a, b, c, d]) == ToLocals(vs) + [Local(a, b, c, d)]
  {
    assert (vs + [a, b, c, d])[..|vs|] == vs;
  }

  /** The fixed part of an STEXT symbol's metadata: args, frame, flags, nosplit and the locals count. */
  const FUNC_HEAD: nat := 5
  /** The four pc-value table sizes (pcsp, pcfile, pcline, pcinline) and the pcdata count. */
  const PCLN_HEAD: nat := 5

  /** The fixed part of a function's metadata, then its locals, four varints each. */
  function FuncHead(s: seq<byte>, p: nat): (r: Outcome<(seq<int64>, seq<int64>)>)
    requires p <= |s|
    ensures r.Done? ==> p < r.next <= |s| && |r.value.0| == FUNC_HEAD
    ensures r.Done? ==> |r.value.1| == Count(r.value.0[4]) * 4
    ensures r.Fail? ==> r.error == EOF
  {
    VarintsShape(s, p, FUNC_HEAD);
    match Varints(s, p, FUNC_HEAD)
    case Fail(e) => Fail(e)
    case Done(head, q) =>
      VarintsShape(s, q, Count(head[4]) * 4);
      match Varints(s, q, Count(head[4]) * 4)
      case Fail(e) => Fail(e)
      case Done(locals, q2) => Done((head, locals), q2)
  }

  /** The sizes of the pc-value tables: pcsp, pcfile, pcline, pcinline, then each pcdata table. */
  function PcSizes(s: seq<byte>, p: nat): (r: Outcome<seq<int64>>)
    requires p <= |s|
    ensures r.Done? ==> p < r.next <= |s| && |r.value| >= 4
    ensures r.Fail? ==> r.error == EOF
  {
    VarintsShape(s, p, PCLN_HEAD);
    match Varints(s, p, PCLN_HEAD)
    case Fail(e) => Fail(e)
    case Done(head, q) =>
      VarintsShape(s, q, Count(head[4]));
      match Varints(s, q, Count(head[4]))
      case Fail(e) => Fail(e)
      case Done(pcdata, q2) => Done(head[..4] + pcdata, q2)
  }

  /** A count, then that many varints. */
  function Counted(s: seq<byte>, p: nat): (r: Outcome<seq<int64>>)
    requires p <= |s|
    ensures r.Done? ==> p < r.next <= |s|
    ensures r.Fail? ==> r.error == EOF
  {
    match DecodeVarint(s, p)
    case Fail(e) => Fail(e)
    case Done(n, q) =>
      VarintsShape(s, q, Count(n));
      Varints(s, q, Count(n))
  }

  /** The funcdata count, then that many symbol indexes, then that many offsets. */
  function FuncData(s: seq<byte>, p: nat): (r: Outcome<(seq<int64>, seq<int64>)>)
    requires p <= |s|
    ensures r.Done? ==> p < r.next <= |s| && |r.value.0| == |r.value.1|
    ensures r.Fail? ==> r.error == EOF
  {
    match DecodeVarint(s, p)
    case Fail(e) => Fail(e)
    case Done(n, q) =>
      VarintsShape(s, q, Count(n));
      match Varints(s, q, Count(n))
      case Fail(e) => Fail(e)
      case Done(indexes, q2) =>
        VarintsShape(s, q2, Count(n));
        match Varints(s, q2, Count(n))
        case Fail(e) => Fail(e)
        case Done(offsets, q3) => Done((indexes, offsets), q3)
  }

  /** The inline tree: a count, then records of parent, file, line and func, all dropped. */
  function InlineTree(s: seq<byte>, p: nat): (r: Outcome<()>)
    requires p <= |s|
    ensures r.Done? ==> p < r.next <= |s|
    ensures r.Fail? ==> r.error == EOF
  {
    match DecodeVarint(s, p)
    case Fail(e) => Fail(e)
    case Done(n, q) =>
      VarintsShape(s, q, Count(n) * 4);
      match Varints(s, q, Count(n) * 4)
      case Fail(e) => Fail(e)
      case Done(_, q2) => Done((), q2)
  }

  /**
   * The metadata of an STEXT symbol from its decoded parts. Its pc-value
   * tables occupy consecutive regions of the data block starting at `off`;
   * the second component is the offset after the last of them.
   */
  function StextOf(head: seq<int64>, locals: seq<int64>, sizes: seq<int64>,
                   funcDataIndex: seq<int64>, funcDataOffset: seq<int64>, files: seq<int64>, off: int64): (StextFields, int64)
    requires |head| == FUNC_HEAD && |sizes| >= 4
  {
    var (tables, end) := Layout(sizes, off);
    var flags := head[2];
    (StextFields(
       head[0], head[1], Bit(flags, 0), Bit(flags, 1), Bit(flags, 2), Bit(flags, 3), head[3] != 0,
       ToLocals(locals),
       tables[0], tables[1], tables[2], tables[3], tables[4..],
       funcDataIndex, funcDataOffset, files),
     end)
  }
  /**
   * The fields of an STEXT record: the flags varint carries LEAF, CFUNC,
   * TYPEMETHOD and SHAREDFUNC in bits 0 to 3; any nonzero NoSplit varint sets
   * NoSplit; the pc-value tables pcsp, pcfile, pcline, pcinline and then the
   * pcdata tables take consecutive regions from `off`, in that order.
   */
  lemma StextOfFields(head: seq<int64>, locals: seq<int64>, sizes: seq<int64>,
                      funcDataIndex: seq<int64>, funcDataOffset: seq<int64>, files: seq<int64>, off: int64)
    requires |head| == FUNC_HEAD && |sizes| >= 4
    ensures var (f, end) := StextOf(head, locals, sizes, funcDataIndex, funcDataOffset, files, off);
      f.args == head[0] && f.frame == head[1] &&
      (f.leaf <==> (ToUint64(head[2]) / 1) % 2 == 1) &&
      (f.cFunc <==> (ToUint64(head[2]) / 2) % 2 == 1) &&
      (f.typeMethod <==> (ToUint64(head[2]) / 4) % 2 == 1) &&
      (f.sharedFunc <==> (ToUint64(head[2]) / 8) % 2 == 1) &&
      (f.noSplit <==> head[3] != 0) &&
      f.locals == ToLocals(locals) &&
      [f.pcsp, f.pcFile, f.pcLine, f.pcInline] + f.pcData == Layout(sizes, off).0 &&
      end == Layout(sizes, off).1 &&
      f.funcDataIndex == funcDataIndex && f.funcDataOffset == funcDataOffset && f.fileIndex == files
  {
    LowPowers();
    BitPattern(head[2], 0);
    BitPattern(head[2], 1);
    BitPattern(head[2], 2);
    BitPattern(head[2], 3);
    var tables := Layout(sizes, off).0;
    assert [tables[0], tables[1], tables[2], tables[3]] + tables[4..] == tables;
  }


  /** The metadata of an STEXT symbol whose pc-value tables start at `off` in the data block. */
  function Stext(s: seq<byte>, p: nat, off: int64): (r: Outcome<(StextFields, int64)>)
    requires p <= |s|
    ensures r.Done? ==> p < r.next <= |s|
    ensures r.Fail? ==> r.error == EOF
  {
    match FuncHead(s, p)
    case Fail(e) => Fail(e)
    case Done((head, locals), q1) =>
    match PcSizes(s, q1)
    case Fail(e) => Fail(e)
    case Done(sizes, q2) =>
    match FuncData(s, q2)
    case Fail(e) => Fail(e)
    case Done((funcDataIndex, funcDataOffset), q3) =>
    match Counted(s, q3)
    case Fail(e) => Fail(e)
    case Done(files, q4) =>
    match InlineTree(s, q4)
    case Fail(e) => Fail(e)
    case Done(_, q5) => Done(StextOf(head, locals, sizes, funcDataIndex, funcDataOffset, files, off), q5)
  }

  /** The fixed part of a symbol: IDIndex, flags, size, GoTypeIndex, data size and the relocation count. */
  const SYMBOL_HEAD: nat := 6

  /** A symbol from its kind, its fixed part and its relocations, with its data at `off`; also where its data ends. */
  function SymbolOf(kind: byte, head: seq<int64>, relocs: seq<int64>, off: int64): (r: (Symbol, int64))
    requires |head| == SYMBOL_HEAD
    ensures r.0.kind == kind && r.0.data == DataAddr(head[4], off) && r.0.stextFields.None?
    ensures |r.0.relocations| == |relocs| / 5 && r.1 == Add64(off, head[4])
  {
    var flags := head[1];
    (Symbol(head[0], kind, head[2], Bit(flags, 0), Bit(flags, 1), Bit(flags, 2), head[3],
            DataAddr(head[4], off), ToRelocations(relocs), None),
     Add64(off, head[4]))
  }
  /**
   * The fields of a symbol record: the flags varint carries DUPOK in bit 0,
   * LOCAL in bit 1 and TYPELINK in bit 2 of its 64-bit pattern; the other
   * fields are the header varints in order.
   */
  lemma SymbolOfFields(kind: byte, head: seq<int64>, relocs: seq<int64>, off: int64)
    requires |head| == SYMBOL_HEAD
    ensures var sym := SymbolOf(kind, head, relocs, off).0;
      sym.idIndex == head[0] && sym.size == head[2] && sym.goTypeIndex == head[3] &&
      sym.relocations == ToRelocations(relocs) &&
      (sym.dupOK <==> (ToUint64(head[1]) / 1) % 2 == 1) &&
      (sym.local <==> (ToUint64(head[1]) / 2) % 2 == 1) &&
      (sym.typelink <==> (ToUint64(head[1]) / 4) % 2 == 1)
  {
    LowPowers();
    BitPattern(head[1], 0);
    BitPattern(head[1], 1);
    BitPattern(head[1], 2);
  }


  /** A symbol record up to its function metadata: kind byte, fixed part and relocations. */
  function SymbolHead(s: seq<byte>, p: nat, off: int64): (r: Outcome<(Symbol, int64)>)
    requires p <= |s|
    ensures r.Done? ==> p < r.next <= |s|
    ensures r.Done? ==> r.value.0.kind == s[p] && r.value.0.data.offset == off && r.value.0.stextFields.None?
    ensures r.Fail? ==> r.error == EOF
  {
    if p == |s| then Fail(EOF)
    else
      VarintsShape(s, p + 1, SYMBOL_HEAD);
      var head := Varints(s, p + 1, SYMBOL_HEAD);
      if head.Fail? then Fail(head.error)
      else
        VarintsShape(s, head.next, Count(head.value[5]) * 5);
        var relocs := Varints(s, head.next, Count(head.value[5]) * 5);
        if relocs.Fail? then Fail(relocs.error)
        else Done(SymbolOf(s[p], head.value, relocs.value, off), relocs.next)
  }

  /**
   * One symbol record, from its kind byte on. Its data occupies the region of
   * the data block at `off`; the result carries the offset after the symbol's
   * last region.
   */
  function SymbolRecord(s: seq<byte>, p: nat, off: int64): (r: Outcome<(Symbol, int64)>)
    requires p <= |s|
    ensures r.Done? ==> p < r.next <= |s|
    ensures r.Done? ==> r.value.0.kind == s[p] && r.value.0.data.offset == off
    ensures r.Done? ==> (r.value.0.stextFields.Some? <==> s[p] == STEXT)
    ensures r.Fail? ==> r.error == EOF
  {
    match SymbolHead(s, p, off)
    case Fail(e) => Fail(e)
    case Done((sym, next), q) =>
      if s[p] != STEXT then Done((sym, next), q)
      else match Stext(s, q, next)
        case Fail(e) => Fail(e)
        case Done((fields, end), q2) => Done((sym.(stextFields := Some(fields)), end), q2)
  }

  /** The symbol table: records each opened by 0xfe, closed by 0xff. */
  function Symbols(s: seq<byte>, p: nat, off: int64): (r: Outcome<(seq<Symbol>, int64)>)
    requires p <= |s|
    decreases |s| - p
    ensures r.Done? ==> p < r.next <= |s|
  {
    if p == |s| then Fail(EOF)
    else if s[p] == MARKER_END then Done(([], off), p + 1)
    else if s[p] != MARKER_ENTRY then Fail(SanityCheckFailed(s[p]))
    else match SymbolRecord(s, p + 1, off)
      case Fail(e) => Fail(e)
      case Done((sym, next), q) =>
        match Symbols(s, q, next)
        case Fail(e) => Fail(e)
        case Done((syms, end), q2) => Done(([sym] + syms, end), q2)
  }

  // ---------------------------------------------------------------------------
  // Putting a part together from its pieces
  //
  // A decoder reads a part as a sequence of smaller pieces and follows each of
  // them (see `Follows`); once a piece fails, the later pieces leave the error
  // as it is. Then it follows the whole part.

  lemma FuncHeadFrom(s: seq<byte>, p: nat, head: seq<int64>, locals: seq<int64>,
                     e1: Option<Error>, p1: nat, e2: Option<Error>, p2: nat)
    requires p <= |s| && |head| == FUNC_HEAD
    requires Follows(Varints(s, p, FUNC_HEAD), head, e1, p1)
    requires e1.Some? ==> e2 == e1
    requires e1.None? ==> Follows(Varints(s, p1, Count(head[4]) * 4), locals, e2, p2)
    ensures Follows(FuncHead(s, p), (head, locals), e2, p2)
  {
    VarintsShape(s, p, FUNC_HEAD);
  }

  lemma PcSizesFrom(s: seq<byte>, p: nat, head: seq<int64>, pcdata: seq<int64>,
                    e1: Option<Error>, p1: nat, e2: Option<Error>, p2: nat)
    requires p <= |s| && |head| == PCLN_HEAD
    requires Follows(Varints(s, p, PCLN_HEAD), head, e1, p1)
    requires e1.Some? ==> e2 == e1
    requires e1.None? ==> Follows(Varints(s, p1, Count(head[4])), pcdata, e2, p2)
    ensures Follows(PcSizes(s, p), head[..4] + pcdata, e2, p2)
  {
    VarintsShape(s, p, PCLN_HEAD);
  }

  lemma CountedFrom(s: seq<byte>, p: nat, n: int64, vs: seq<int64>,
                    e1: Option<Error>, p1: nat, e2: Option<Error>, p2: nat)
    requires p <= |s|
    requires Follows(DecodeVarint(s, p), n, e1, p1)
    requires e1.Some? ==> e2 == e1
    requires e1.None? ==> Follows(Varints(s, p1, Count(n)), vs, e2, p2)
    ensures Follows(Counted(s, p), vs, e2, p2)
  {
  }

  lemma FuncDataFrom(s: seq<byte>, p: nat, n: int64, indexes: seq<int64>, offsets: seq<int64>,
                     e1: Option<Error>, p1: nat, e2: Option<Error>, p2: nat, e3: Option<Error>, p3: nat)
    requires p <= |s|
    requires Follows(DecodeVarint(s, p), n, e1, p1)
    requires e1.Some? ==> e2 == e1
    requires e1.None? ==> Follows(Varints(s, p1, Count(n)), indexes, e2, p2)
    requires e2.Some? ==> e3 == e2
    requires e2.None? ==> Follows(Varints(s, p2, Count(n)), offsets, e3, p3)
    ensures Follows(FuncData(s, p), (indexes, offsets), e3, p3)
  {
  }

  lemma InlineTreeFrom(s: seq<byte>, p: nat, n: int64, trees: seq<int64>,
                       e1: Option<Error>, p1: nat, e2: Option<Error>, p2: nat)
    requires p <= |s|
    requires Follows(DecodeVarint(s, p), n, e1, p1)
    requires e1.Some? ==> e2 == e1
    requires e1.None? ==> Follows(Varints(s, p1, Count(n) * 4), trees, e2, p2)
    ensures Follows(InlineTree(s, p), (), e2, p2)
  {
  }

  lemma StextFrom(s: seq<byte>, p: nat, off: int64,
                  head: seq<int64>, locals: seq<int64>, sizes: seq<int64>,
                  funcDataIndex: seq<int64>, funcDataOffset: seq<int64>, files: seq<int64>,
                  e1: Option<Error>, p1: nat, e2: Option<Error>, p2: nat, e3: Option<Error>, p3: nat,
                  e4: Option<Error>, p4: nat, e5: Option<Error>, p5: nat)
    requires p <= |s| && |head| == FUNC_HEAD && |sizes| >= 4
    requires p1 <= |s| && p2 <= |s| && p3 <= |s| && p4 <= |s|
    requires Follows(FuncHead(s, p), (head, locals), e1, p1)
    requires e1.Some? ==> e2 == e1
    requires e1.None? ==> Follows(PcSizes(s, p1), sizes, e2, p2)
    requires e2.Some? ==> e3 == e2
    requires e2.None? ==> Follows(FuncData(s, p2), (funcDataIndex, funcDataOffset), e3, p3)
    requires e3.Some? ==> e4 == e3
    requires e3.None? ==> Follows(Counted(s, p3), files, e4, p4)
    requires e4.Some? ==> e5 == e4
    requires e4.None? ==> Follows(InlineTree(s, p4), (), e5, p5)
    ensures Follows(Stext(s, p, off), StextOf(head, locals, sizes, funcDataIndex, funcDataOffset, files, off), e5, p5)
  {
  }

  /** A symbol record cannot start where the input ends. */
  lemma SymbolHeadEnd(s: seq<byte>, p: nat, off: int64)
    requires p == |s|
    ensures SymbolHead(s, p, off) == Fail(EOF)
  {
  }

  lemma SymbolHeadFrom(s: seq<byte>, p: nat, off: int64, head: seq<int64>, relocs: seq<int64>,
                       e1: Option<Error>, p1: nat, e2: Option<Error>, p2: nat)
    requires p < |s| && |head| == SYMBOL_HEAD
    requires Follows(Varints(s, p + 1, SYMBOL_HEAD), head, e1, p1)
    requires e1.Some? ==> e2 == e1
    requires e1.None? ==> Follows(Varints(s, p1, Count(head[5]) * 5), relocs, e2, p2)
    ensures Follows(SymbolHead(s, p, off), SymbolOf(s[p], head, relocs, off), e2, p2)
  {
    VarintsShape(s, p + 1, SYMBOL_HEAD);
  }

  lemma SymbolRecordFrom(s: seq<byte>, p: nat, off: int64, sym: (Symbol, int64), fields: (StextFields, int64),
                         e1: Option<Error>, p1: nat, e2: Option<Error>, p2: nat)
    requires p <= |s| && p1 <= |s|
    requires Follows(SymbolHead(s, p, off), sym, e1, p1)
    requires e1.Some? || !(p < |s| && s[p] == STEXT) ==> e2 == e1 && p2 == p1
    requires e1.None? && p < |s| && s[p] == STEXT ==> Follows(Stext(s, p1, sym.1), fields, e2, p2)
    ensures Follows(SymbolRecord(s, p, off),
                    if p < |s| && s[p] == STEXT then (sym.0.(stextFields := Some(fields.0)), fields.1) else sym, e2, p2)
  {
  }

  /** Where a data block's length and size hints were followed, the block is decided by the bytes after them. */
  lemma DataBlockFrom(s: seq<byte>, p: nat, len: int64, hints: seq<int64>,
                      p1: nat, e2: Option<Error>, p2: nat)
    requires p <= |s| && p2 <= |s|
    requires Follows(DecodeVarint(s, p), len, None, p1)
    requires Follows(Varints(s, p1, NUM_HINTS), hints, e2, p2)
    ensures len < 0 ==> DataBlock(s, p) == Fail(NegativeLength)
    ensures len >= 0 && e2.Some? ==> DataBlock(s, p) == Fail(e2.value)
    ensures len >= 0 && e2.None? ==>
              DataBlock(s, p) == if p2 + len > |s| then Fail(EOF) else Done(s[p2..p2 + len], p2 + len)
  {
    hide DecodeVarint, Varints;
  }

  /** Where the reference table ends, runs out, or meets a marker that is not an entry's. */
  lemma ReferencesMarker(s: seq<byte>, p: nat)
    requires p <= |s|
    ensures p == |s| ==> References(s, p) == Fail(EOF)
    ensures p < |s| && s[p] == MARKER_END ==> References(s, p) == Done([], p + 1)
    ensures p < |s| && s[p] != MARKER_END && s[p] != MARKER_ENTRY ==> References(s, p) == Fail(SanityCheckFailed(s[p]))
  {
  }

  /** An entry of the reference table is followed by the rest of the table, unless the entry fails. */
  lemma ReferencesEntry(s: seq<byte>, p: nat, p1: nat, ref: SymbolReference, e: Option<Error>, q: nat)
    requires Follows(ByteAt(s, p), MARKER_ENTRY, None, p1)
    requires p1 <= |s| && Follows(Reference(s, p1), ref, e, q)
    ensures e.None? ==> References(s, p) == PrependAll([ref], References(s, q))
    ensures e.Some? ==> References(s, p) == Fail(e.value)
  {
    hide Reference;
  }

  /** Prepending in two steps is prepending the concatenation. */
  lemma PrependAllTwice<T>(xs: seq<T>, ys: seq<T>, o: Outcome<seq<T>>)
    ensures PrependAll(xs, PrependAll(ys, o)) == PrependAll(xs + ys, o)
  {
    if o.Done? {
      assert xs + (ys + o.value) == xs + ys + o.value;
    }
  }

  /** Where the symbol table ends, runs out, or meets a marker that is not a record's. */
  lemma SymbolsMarker(s: seq<byte>, p: nat, off: int64)
    requires p <= |s|
    ensures p == |s| ==> Symbols(s, p, off) == Fail(EOF)
    ensures p < |s| && s[p] == MARKER_END ==> Symbols(s, p, off) == Done(([], off), p + 1)
    ensures p < |s| && s[p] != MARKER_END && s[p] != MARKER_ENTRY ==> Symbols(s, p, off) == Fail(SanityCheckFailed(s[p]))
  {
  }

  /** A symbol record is followed by the rest of the table, its data regions after the record's, unless the record fails. */
  lemma SymbolsEntry(s: seq<byte>, p: nat, p1: nat, off: int64, sym: (Symbol, int64), e: Option<Error>, q: nat)
    requires Follows(ByteAt(s, p), MARKER_ENTRY, None, p1)
    requires p1 <= |s| && Follows(SymbolRecord(s, p1, off), sym, e, q)
    ensures e.None? ==> Symbols(s, p, off) == PrependSymbols([sym.0], Symbols(s, q, sym.1))
    ensures e.Some? ==> Symbols(s, p, off) == Fail(e.value)
  {
    hide SymbolRecord;
  }

  /** Prepending symbols in two steps is prepending the concatenation. */
  lemma PrependSymbolsTwice(xs: seq<Symbol>, ys: seq<Symbol>, o: Outcome<(seq<Symbol>, int64)>)
    ensures PrependSymbols(xs, PrependSymbols(ys, o)) == PrependSymbols(xs + ys, o)
  {
    if o.Done? {
      assert xs + (ys + o.value.0) == xs + ys + o.value.0;
    }
  }

  // ---------------------------------------------------------------------------
  // The file up to the data block

  /** Header, version and dependencies: where the reference table starts. */
  function Preamble(s: seq<byte>): (r: Outcome<()>)
    ensures r.Done? ==> r.next <= |s|
  {
    match Header(s, 0)
    case Fail(e) => Fail(e)
    case Done(_, q1) =>
    match Version(s, q1)
    case Fail(e) => Fail(e)
    case Done(_, q2) => Dependencies(s, q2)
  }

  // ---------------------------------------------------------------------------
  // The whole file, as the streaming decoder reads it

  /**
   * Everything up to the end marker of the symbol table: references, data
   * block and symbols, with data offsets counted from the start of the data
   * block and function metadata dropped. Also yields where the footer starts.
   */
  function StreamingFile(s: seq<byte>): (r: Outcome<File>)
    ensures r.Done? ==> r.next <= |s|
    ensures r.Done? ==> forall i :: 0 <= i < |r.value.symbols| ==> r.value.symbols[i].stextFields.None?
  {
    match Preamble(s)
    case Fail(e) => Fail(e)
    case Done(_, q1) =>
    match References(s, q1)
    case Fail(e) => Fail(e)
    case Done(refs, q2) =>
    match DataBlock(s, q2)
    case Fail(e) => Fail(e)
    case Done(bytes, q3) =>
    match Symbols(s, q3, 0)
    case Fail(e) => Fail(e)
    case Done((syms, _), q4) => Done(File(StripAll(syms), refs, bytes), q4)
  }
}
