/**
 * The buffered reader both decoders read the object file through, reduced to
 * what they observe: the file's bytes and how many of them have been consumed.
 */
module Bufio {
  import opened Ints
  import opened Results

  /**
   * Reads that ask for at most this many bytes get all of them when that many
   * remain (the 8-byte header window and the 7-byte footer fit); a larger read
   * may return fewer bytes, but at least one while any remain.
   */
  const FULL_READ: nat := 8

  function Min(a: nat, b: nat): nat
  {
    if a < b then a else b
  }

  class Source {
    const input: seq<byte>
    var pos: nat

    ghost predicate Valid()
      reads this
    {
      pos <= |input|
    }

    constructor (input: seq<byte>)
      ensures Valid() && this.input == input && pos == 0
    {
      this.input := input;
      pos := 0;
    }

    /** The next byte, or EOF once every byte has been consumed. */
    method ReadByte() returns (b: byte, err: Option<Error>)
      requires Valid()
      modifies this
      ensures Valid()
      ensures old(pos) < |input| ==> b == input[old(pos)] && err.None? && pos == old(pos) + 1
      ensures old(pos) == |input| ==> b == 0 && err == Some(EOF) && pos == old(pos)
    {
      if pos == |input| {
        return 0, Some(EOF);
      }
      b := input[pos];
      pos := pos + 1;
      err := None;
    }

    /**
     * Read into buf[lo..]: copies the next n bytes there and leaves the rest of
     * the buffer alone. An empty request returns 0 without error; a request
     * at the end of the input returns EOF.
     */
    method Read(buf: array<byte>, lo: nat) returns (n: nat, err: Option<Error>)
      requires Valid() && lo <= buf.Length
      modifies this, buf
      ensures Valid()
      ensures lo == buf.Length ==> n == 0 && err.None?
      ensures lo < buf.Length && old(pos) == |input| ==> n == 0 && err == Some(EOF)
      ensures lo < buf.Length && old(pos) < |input| ==> err.None? && 1 <= n
      ensures n <= Min(buf.Length - lo, |input| - old(pos))
      ensures buf.Length - lo <= FULL_READ ==> n == Min(buf.Length - lo, |input| - old(pos))
      ensures pos == old(pos) + n
      ensures buf[lo..lo + n] == input[old(pos)..pos]
      ensures buf[..lo] == old(buf[..lo]) && buf[lo + n..] == old(buf[lo + n..])
    {
      var want := buf.Length - lo;
      if want == 0 {
        return 0, None;
      }
      if pos == |input| {
        return 0, Some(EOF);
      }
      var most := Min(want, |input| - pos);
      if want <= FULL_READ {
        n := most;
      } else {
        n :| 1 <= n <= most;
      }
      forall i | lo <= i < lo + n {
        buf[i] := input[pos + (i - lo)];
      }
      pos := pos + n;
      err := None;
    }

    /**
     * Skip n bytes. A negative count skips nothing; skipping past the end
     * stops there and reports EOF.
     */
    method Discard(n: int) returns (discarded: nat, err: Option<Error>)
      requires Valid()
      modifies this
      ensures Valid()
      ensures n < 0 ==> discarded == 0 && err == Some(NegativeCount)
      ensures n >= 0 ==> discarded == Min(n, |input| - old(pos))
      ensures n >= 0 ==> (err.Some? <==> discarded < n) && (err.Some? ==> err == Some(EOF))
      ensures pos == old(pos) + discarded
    {
      if n < 0 {
        return 0, Some(NegativeCount);
      }
      discarded := Min(n, |input| - pos);
      pos := pos + discarded;
      err := if discarded < n then Some(EOF) else None;
    }
  }
}
