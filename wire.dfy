/**
 * The wire encoding of the object file's scalars, as pure functions of the
 * input bytes and a position: base-128 varints (low group first, bit 7 of each
 * byte set while more bytes follow), zigzag-signed on top, and strings made of
 * a varint length followed by that many raw bytes.
 */
module Wire {
  import opened Ints
  import opened Results
  import Zigzag

  /** Go `(b>>7)&0x1 != 0`: the continuation bit. */
  predicate More(b: byte)
  {
    b >= TWO_7
  }

  /** Go `b&0x7f`: the seven payload bits. */
  function Low7(b: byte): (r: nat)
    ensures r < TWO_7
  {
    b % TWO_7
  }

  /** A single byte. */
  function ByteAt(s: seq<byte>, p: nat): (r: Outcome<byte>)
    ensures r.Done? <==> p < |s|
    ensures r.Done? ==> r.value == s[p] && r.next == p + 1
    ensures r.Fail? ==> r.error == EOF
  {
    if p < |s| then Done(s[p], p + 1) else Fail(EOF)
  }

  /** The index of the byte that ends the varint starting at `p`: the first one with bit 7 clear. */
  function VarintLast(s: seq<byte>, p: nat): (r: Option<nat>)
    decreases |s| - p
    ensures r.Some? ==> p <= r.value < |s| && !More(s[r.value])
  {
    if p >= |s| then None
    else if !More(s[p]) then Some(p)
    else VarintLast(s, p + 1)
  }

  /** Every byte before the last one of a varint has bit 7 set; with no last byte, every byte left has. */
  lemma {:induction false} VarintLastMore(s: seq<byte>, p: nat)
    decreases |s| - p
    ensures VarintLast(s, p).Some? ==> forall j :: p <= j < VarintLast(s, p).value ==> More(s[j])
    ensures VarintLast(s, p).None? ==> forall j :: p <= j < |s| ==> More(s[j])
  {
    if p < |s| && More(s[p]) {
      VarintLastMore(s, p + 1);
    }
  }

  /** The payload of the groups `g`, low group first: the sum of (g[i] & 0x7f) * 2^(7i). */
  function GroupSum(g: seq<byte>): nat
  {
    if |g| == 0 then 0 else Low7(g[0]) + TWO_7 * GroupSum(g[1..])
  }

  /** No groups, no payload. */
  lemma GroupSumEmpty(g: seq<byte>)
    requires g == []
    ensures GroupSum(g) == 0
  {
  }

  /** Appending a group adds its payload shifted past the others, as the decoding loop accumulates it. */
  lemma {:induction false} GroupSumSnoc(g: seq<byte>, b: byte)
    ensures GroupSum(g + [b]) == GroupSum(g) + Low7(b) * Pow2(7 * |g|)
    decreases |g|
  {
    if |g| == 0 {
      assert Pow2(0) == 1;
      assert ([] + [b])[1..] == [];
    } else {
      var t, x := g[1..], Low7(b);
      var p := Pow2(7 * |t|);
      assert (g + [b])[1..] == t + [b];
      GroupSumSnoc(t, b);
      Pow2Add(7, 7 * |t|);
      assert Pow2(7) == TWO_7;
      calc {
        GroupSum(g + [b]);
        Low7(g[0]) + TWO_7 * GroupSum(t + [b]);
        Low7(g[0]) + TWO_7 * (GroupSum(t) + x * p);
        { assert TWO_7 * (GroupSum(t) + x * p) == TWO_7 * GroupSum(t) + TWO_7 * (x * p); }
        GroupSum(g) + TWO_7 * (x * p);
        { MulAssoc(TWO_7, x, p); MulAssoc(x, TWO_7, p); }
        GroupSum(g) + x * (TWO_7 * p);
        GroupSum(g) + x * Pow2(7 * |g|);
      }
    }
  }

  /**
   * One step of Go's decoding loop, `value += uint64(b&0x7f) << shift`: a
   * uint64 holding the payload of the groups read so far holds, after the
   * step, the payload of one group more.
   */
  lemma AccumulateGroup(g: seq<byte>, b: byte, value: uint64, shift: nat)
    requires shift == 7 * |g| && value == GroupSum(g) % TWO_64
    ensures (value + Shl64(Low7(b), shift)) % TWO_64 == GroupSum(g + [b]) % TWO_64
  {
    GroupSumSnoc(g, b);
    Shl64IsTruncatedProduct(Low7(b), shift);
    AddMod64(GroupSum(g), Low7(b) * Pow2(shift));
  }

  /**
   * The unsigned value of the varint at `p`, accumulated in a uint64 as Go does:
   * the sum is taken modulo 2^64, and groups beyond the ninth lose their bits.
   */
  function DecodeUvarint(s: seq<byte>, p: nat): (r: Outcome<uint64>)
    ensures r.Done? ==> p < r.next <= |s|
    ensures r.Fail? ==> r.error == EOF
  {
    match VarintLast(s, p)
    case None => Fail(EOF)
    case Some(last) => Done(GroupSum(s[p..last + 1]) % TWO_64, last + 1)
  }

  /**
   * A varint extends exactly through the first byte with bit 7 clear; decoding
   * fails, with EOF, exactly when no such byte follows `p`.
   */
  lemma UvarintExtent(s: seq<byte>, p: nat)
    ensures DecodeUvarint(s, p).Done? ==> !More(s[DecodeUvarint(s, p).next - 1])
    ensures DecodeUvarint(s, p).Done? ==> forall j :: p <= j < DecodeUvarint(s, p).next - 1 ==> More(s[j])
    ensures DecodeUvarint(s, p).Fail? <==> forall j :: p <= j < |s| ==> More(s[j])
  {
    VarintLastMore(s, p);
  }

  /** The signed value of the varint at `p`: the zigzag decoding of its unsigned value. */
  function DecodeVarint(s: seq<byte>, p: nat): (r: Outcome<int64>)
    ensures r.Done? ==> p < r.next <= |s|
    ensures r.Fail? ==> r.error == EOF
  {
    match DecodeUvarint(s, p)
    case Fail(e) => Fail(e)
    case Done(u, q) => Done(Zigzag.Signed(u), q)
  }

  /** A string: a varint byte count, then exactly that many bytes. */
  function DecodeString(s: seq<byte>, p: nat): (r: Outcome<seq<byte>>)
    ensures r.Done? ==> p < r.next <= |s|
    ensures r.Fail? && DecodeVarint(s, p).Done? ==> r.error == (if DecodeVarint(s, p).value < 0 then NegativeLength else EOF)
  {
    match DecodeVarint(s, p)
    case Fail(e) => Fail(e)
    case Done(n, q) =>
      if n < 0 then Fail(NegativeLength)
      else if q + n > |s| then Fail(EOF)
      else Done(s[q..q + n], q + n)
  }

  /** A decoded string is the `len` bytes right after its length varint, and fails only when they are not all there. */
  lemma StringLayout(s: seq<byte>, p: nat)
    ensures DecodeString(s, p).Done? ==> DecodeVarint(s, p).Done? && DecodeVarint(s, p).value == |DecodeString(s, p).value|
    ensures DecodeString(s, p).Done? ==> DecodeString(s, p).value == s[DecodeVarint(s, p).next..DecodeString(s, p).next]
    ensures DecodeVarint(s, p).Done? && DecodeVarint(s, p).value >= 0 ==>
              (DecodeString(s, p).Done? <==> DecodeVarint(s, p).next + DecodeVarint(s, p).value <= |s|)
  {
  }

  /** The three ways a string can end once its length is known, and the failed length. */
  lemma StringCases(s: seq<byte>, p: nat)
    ensures DecodeVarint(s, p).Fail? ==> DecodeString(s, p) == Fail(DecodeVarint(s, p).error)
    ensures DecodeVarint(s, p).Done? ==>
              var (n, q) := (DecodeVarint(s, p).value, DecodeVarint(s, p).next);
              DecodeString(s, p) == if n < 0 then Fail(NegativeLength)
                                    else if q + n > |s| then Fail(EOF)
                                    else Done(s[q..q + n], q + n)
  {
  }

  // ---------------------------------------------------------------------------
  // The encoder: the inverse the format is written with.

  /** Seven bits at a time, low group first, bit 7 set on every byte but the last. */
  function EncodeUvarint(u: nat): (g: seq<byte>)
    ensures |g| >= 1
    decreases u
  {
    if u < TWO_7 then [u] else [u % TWO_7 + TWO_7] + EncodeUvarint(u / TWO_7)
  }

  function EncodeVarint(v: int64): seq<byte>
  {
    EncodeUvarint(Zigzag.Encode(v))
  }

  /** The encoding's groups carry exactly u, and only its last byte ends the varint. */
  lemma {:induction false} EncodeUvarintShape(u: nat)
    ensures GroupSum(EncodeUvarint(u)) == u
    ensures !More(EncodeUvarint(u)[|EncodeUvarint(u)| - 1])
    ensures forall j :: 0 <= j < |EncodeUvarint(u)| - 1 ==> More(EncodeUvarint(u)[j])
    decreases u
  {
    var g := EncodeUvarint(u);
    if u < TWO_7 {
      assert g == [u];
      assert GroupSum(g) == Low7(u) + TWO_7 * GroupSum([]);
    } else {
      var rest := EncodeUvarint(u / TWO_7);
      EncodeUvarintShape(u / TWO_7);
      var b: byte := u % TWO_7 + TWO_7;
      assert g == [b] + rest;
      assert g[1..] == rest;
      assert Low7(b) == u % TWO_7;
      forall j | 0 <= j < |g| - 1
        ensures More(g[j])
      {
        if j > 0 {
          assert g[j] == rest[j - 1];
        }
      }
    }
  }

  /** Where the varint ends is decided by the bytes before and including its terminator. */
  lemma {:induction false} VarintLastAt(s: seq<byte>, p: nat, last: nat)
    requires p <= last < |s| && !More(s[last])
    requires forall j :: p <= j < last ==> More(s[j])
    ensures VarintLast(s, p) == Some(last)
    decreases last - p
  {
    if p < last {
      VarintLastAt(s, p + 1, last);
    }
  }

  /** Round trip: any uint64, encoded and embedded anywhere in a stream, decodes back and consumes exactly its bytes. */
  lemma UvarintRoundTrip(pre: seq<byte>, u: uint64, post: seq<byte>)
    ensures DecodeUvarint(pre + EncodeUvarint(u) + post, |pre|) == Done(u, |pre| + |EncodeUvarint(u)|)
  {
    hide GroupSum, EncodeUvarint, VarintLast;
    var g := EncodeUvarint(u);
    var s := pre + g + post;
    EncodeUvarintShape(u);
    var last := |pre| + |g| - 1;
    forall j | |pre| <= j < last
      ensures More(s[j])
    {
      assert s[j] == g[j - |pre|];
    }
    assert s[last] == g[|g| - 1];
    VarintLastAt(s, |pre|, last);
    assert s[|pre|..last + 1] == g;
  }

  /** Round trip for signed values, through the zigzag mapping. */
  lemma VarintRoundTrip(pre: seq<byte>, v: int64, post: seq<byte>)
    ensures DecodeVarint(pre + EncodeVarint(v) + post, |pre|) == Done(v, |pre| + |EncodeVarint(v)|)
  {
    UvarintRoundTrip(pre, Zigzag.Encode(v), post);
    Zigzag.EncodeValue(v);
    Zigzag.SignedUnsigned(v);
  }
}
