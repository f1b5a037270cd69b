/**
 * The counting reader of the streaming decoder. It wraps the buffered reader,
 * counts the bytes consumed, and keeps the first error instead of returning
 * it: once an error is held, every read returns zero values without touching
 * the stream, so a caller may issue several reads and check the error once.
 */
module Counter {
  import opened Ints
  import opened Results
  import opened Wire
  import opened Bufio
  import Zigzag

  class Reader {
    const raw: Source
    var numReadBytes: int
    var err: Option<Error>
    /** Where the stream stood when this reader was made. */
    ghost const start: nat

    /** While no error is held, numReadBytes counts exactly the bytes consumed through this reader. */
    ghost predicate Valid()
      reads this, raw
    {
      raw.Valid() && start <= raw.pos && (err.None? ==> numReadBytes == raw.pos - start)
    }

    constructor (raw: Source)
      requires raw.Valid()
      ensures Valid() && this.raw == raw && start == raw.pos
      ensures numReadBytes == 0 && err.None?
    {
      this.raw := raw;
      numReadBytes := 0;
      err := None;
      start := raw.pos;
    }

    /** One byte; counted even when the stream is dry. */
    method ReadByte() returns (b: byte)
      requires Valid()
      modifies this, raw
      ensures Valid()
      ensures old(err).Some? ==> b == 0 && err == old(err) && raw.pos == old(raw.pos) && numReadBytes == old(numReadBytes)
      ensures old(err).None? ==> Follows(ByteAt(raw.input, old(raw.pos)), b, err, raw.pos)
      ensures old(err).None? ==> numReadBytes == old(numReadBytes) + 1
      ensures err.Some? ==> b == 0 && raw.pos == old(raw.pos)
    {
      if err.Some? {
        return 0;
      }
      b, err := raw.ReadByte();
      numReadBytes := numReadBytes + 1;
    }

    /** One read into buf[lo..], counted by the number of bytes it returned. */
    method Read(buf: array<byte>, lo: nat) returns (n: nat)
      requires Valid() && lo <= buf.Length
      modifies this, raw, buf
      ensures Valid()
      ensures old(err).Some? ==> n == 0 && err == old(err) && raw.pos == old(raw.pos) && numReadBytes == old(numReadBytes)
      ensures old(err).Some? ==> buf[..] == old(buf[..])
      ensures old(err).None? ==> numReadBytes == old(numReadBytes) + n
      ensures old(err).None? && lo == buf.Length ==> n == 0 && err.None?
      ensures old(err).None? && lo < buf.Length && old(raw.pos) == |raw.input| ==> err == Some(EOF)
      ensures old(err).None? && lo < buf.Length && old(raw.pos) < |raw.input| ==> err.None? && 1 <= n
      ensures n <= Min(buf.Length - lo, |raw.input| - old(raw.pos))
      ensures old(err).None? && buf.Length - lo <= FULL_READ ==> n == Min(buf.Length - lo, |raw.input| - old(raw.pos))
      ensures raw.pos == old(raw.pos) + n
      ensures buf[lo..lo + n] == raw.input[old(raw.pos)..raw.pos]
      ensures buf[..lo] == old(buf[..lo]) && buf[lo + n..] == old(buf[lo + n..])
      ensures err.Some? ==> n == 0
    {
      if err.Some? {
        return 0;
      }
      n, err := raw.Read(buf, lo);
      numReadBytes := numReadBytes + n;
    }

    /** A signed varint, accumulated in a uint64 seven bits at a time and zigzag-decoded. */
    method ReadVarint() returns (v: int64)
      requires Valid()
      modifies this, raw
      ensures Valid()
      ensures old(err).Some? ==> v == 0 && err == old(err) && raw.pos == old(raw.pos) && numReadBytes == old(numReadBytes)
      ensures old(err).None? ==> Follows(DecodeVarint(raw.input, old(raw.pos)), v, err, raw.pos)
      ensures err.Some? ==> v == 0
    {
      hide GroupSum, Shl64, Pow2;
      ghost var s, p0 := raw.input, raw.pos;
      var value: uint64 := 0;
      var shift: nat := 0;
      GroupSumEmpty(s[p0..raw.pos]);
      while true
        invariant Valid() && raw.input == s && p0 <= raw.pos <= |s|
        invariant old(err).Some? ==> err == old(err) && raw.pos == p0 && numReadBytes == old(numReadBytes)
        invariant old(err).None? ==> err.None?
        invariant shift == 7 * (raw.pos - p0)
        invariant forall j :: p0 <= j < raw.pos ==> More(s[j])
        invariant value == GroupSum(s[p0..raw.pos]) % TWO_64
        decreases |s| - raw.pos
      {
        var b := ReadByte();
        if err.Some? {
          if old(err).None? {
            assert raw.pos == |s|;
            UvarintExtent(s, p0);
          }
          return 0;
        }
        var last := raw.pos - 1;
        assert s[p0..raw.pos] == s[p0..last] + [b];
        AccumulateGroup(s[p0..last], b, value, shift);
        value := (value + Shl64(Low7(b), shift)) % TWO_64;
        if !More(b) {
          VarintLastAt(s, p0, last);
          break;
        }
        shift := shift + 7;
      }
      v := Zigzag.Decode(value);
      Zigzag.DecodeValue(value);
    }

    /**
     * Go's `for numRead != len(buf) { n := read(buf[numRead:]); if err != nil
     * { return err }; numRead += n }`, shared by readString and parseData: reads
     * until the buffer is full, which fails with EOF exactly when fewer bytes
     * remain than the buffer holds. An empty buffer reads nothing and reports
     * no error, even when one is held.
     */
    method ReadFull(buf: array<byte>) returns (e: Option<Error>)
      requires Valid()
      modifies this, raw, buf
      ensures Valid()
      ensures old(err).Some? ==> err == old(err) && raw.pos == old(raw.pos) && numReadBytes == old(numReadBytes)
      ensures old(err).Some? ==> e == (if buf.Length == 0 then None else old(err))
      ensures old(err).None? ==> e == err
      ensures old(err).None? && old(raw.pos) + buf.Length <= |raw.input| ==>
                err.None? && raw.pos == old(raw.pos) + buf.Length && buf[..] == raw.input[old(raw.pos)..raw.pos]
      ensures old(err).None? && old(raw.pos) + buf.Length > |raw.input| ==> err == Some(EOF)
    {
      ghost var s, q := raw.input, raw.pos;
      var numRead := 0;
      while numRead != buf.Length
        invariant Valid() && raw.input == s && 0 <= numRead <= buf.Length
        invariant old(err).Some? ==> err == old(err) && raw.pos == q && numReadBytes == old(numReadBytes) && numRead == 0
        invariant old(err).None? ==> err.None? && raw.pos == q + numRead <= |s| && buf[..numRead] == s[q..raw.pos]
        decreases buf.Length - numRead
      {
        ghost var before := raw.pos;
        var n := Read(buf, numRead);
        if err.Some? {
          return err;
        }
        assert buf[..numRead] == s[q..before];
        assert buf[numRead..numRead + n] == s[before..raw.pos];
        assert s[q..raw.pos] == s[q..before] + s[before..raw.pos];
        assert buf[..numRead + n] == buf[..numRead] + buf[numRead..numRead + n];
        numRead := numRead + n;
      }
      assert buf[..] == buf[..numRead];
      e := None;
    }

    /**
     * A string: a varint length, then that many bytes. A negative length is
     * Go's panic in `make`, held here as an error.
     */
    method ReadString() returns (str: seq<byte>)
      requires Valid()
      modifies this, raw
      ensures Valid()
      ensures old(err).Some? ==> str == [] && err == old(err) && raw.pos == old(raw.pos) && numReadBytes == old(numReadBytes)
      ensures old(err).None? ==> Follows(DecodeString(raw.input, old(raw.pos)), str, err, raw.pos)
      ensures err.Some? ==> str == []
    {
      ghost var s, p0 := raw.input, raw.pos;
      var len := ReadVarint();
      if err.Some? {
        return [];
      }
      assert DecodeVarint(s, p0) == Done(len, raw.pos);
      if len < 0 {
        err := Some(NegativeLength);
        return [];
      }
      var buff := new byte[len](i => 0);
      var e := ReadFull(buff);
      if e.Some? {
        return [];
      }
      str := buff[..];
    }
  }
}
