/**
 * The symbol table printout: a text table whose columns are as wide as their
 * widest cell, each cell followed by the spaces that pad it to its column and
 * one more, each line opened by a space. The writer the table is printed to is
 * modelled by the text the methods return.
 */
module Print {
  import opened Ints
  import opened Results
  import opened Goobj

  // ---------------------------------------------------------------------------
  // Cell formatting, as Go's fmt verbs produce it

  const DIGITS: string := "0123456789abcdef"

  /** The digits of `n` in base 10 or 16, most significant first, without leading zeros. */
  function Digits(n: nat, base: nat): (r: string)
    requires base == 10 || base == 16
    ensures |r| >= 1
    decreases n
  {
    if n < base then [DIGITS[n]] else Digits(n / base, base) + [DIGITS[n % base]]
  }

  /** The value of a digit character, or none for any other character. */
  function DigitValue(c: char): (r: Option<nat>)
    ensures r.Some? ==> r.value < |DIGITS| && DIGITS[r.value] == c
  {
    if '0' <= c <= '9' then Some(c as int - '0' as int)
    else if 'a' <= c <= 'f' then Some(c as int - 'a' as int + 10)
    else None
  }

  /** Reading digits back, most significant first; a non-digit or a digit too large for the base reads as none. */
  function DigitsValue(s: string, base: nat): (r: Option<nat>)
    decreases |s|
  {
    if |s| == 0 then Some(0)
    else
      match (DigitsValue(s[..|s| - 1], base), DigitValue(s[|s| - 1]))
      case (Some(high), Some(d)) => if d < base then Some(high * base + d) else None
      case _ => None
  }

  lemma DigitOf(d: nat)
    requires d < |DIGITS|
    ensures DigitValue(DIGITS[d]) == Some(d)
  {
  }

  /** Reading one more digit scales what was read so far by the base. */
  lemma DigitsValueSnoc(high: string, d: nat, base: nat)
    requires base == 10 || base == 16
    requires d < base
    ensures DigitsValue(high + [DIGITS[d]], base) ==
            if DigitsValue(high, base).Some? then Some(DigitsValue(high, base).value * base + d) else None
  {
    var s := high + [DIGITS[d]];
    assert s[..|s| - 1] == high && s[|s| - 1] == DIGITS[d];
    DigitOf(d);
  }

  /** Digits read back as the number they were written from. */
  lemma {:induction false} DigitsRoundTrip(n: nat, base: nat)
    requires base == 10 || base == 16
    ensures DigitsValue(Digits(n, base), base) == Some(n)
    decreases n
  {
    hide *;
    DivMod(n, base);
    var q, d := n / base, n % base;
    DigitsStep(n, base);
    if n < base {
      SingleDigit(n, base);
    } else {
      DigitsRoundTrip(q, base);
      DigitsValueSnoc(Digits(q, base), d, base);
    }
  }

  lemma DigitsStep(n: nat, base: nat)
    requires base == 10 || base == 16
    ensures Digits(n, base) == if n < base then [DIGITS[n]] else Digits(n / base, base) + [DIGITS[n % base]]
  {
  }

  lemma SingleDigit(d: nat, base: nat)
    requires base == 10 || base == 16
    requires d < base
    ensures DigitsValue([DIGITS[d]], base) == Some(d)
  {
    DigitsValueSnoc([], d, base);
    assert [] + [DIGITS[d]] == [DIGITS[d]];
  }

  lemma DivMod(n: nat, base: nat)
    requires base == 10 || base == 16
    ensures n / base * base + n % base == n && n % base < base
    ensures n >= base ==> n / base < n
  {
  }

  /** Go `%d` of an integer: its decimal digits, after a minus sign when negative. */
  function Decimal(v: int): (r: string)
    ensures |r| >= 1 && (r[0] == '-' <==> v < 0)
  {
    if v < 0 then "-" + Digits(-v, 10) else DigitsFirst(v, 10); Digits(v, 10)
  }

  /** Go `%#x` of an integer: `0x` and its lower-case hex digits, after a minus sign when negative. */
  function Hex(v: int): (r: string)
    ensures |r| >= 3 && (r[0] == '-' <==> v < 0)
  {
    if v < 0 then "-0x" + Digits(-v, 16) else "0x" + Digits(v, 16)
  }

  /** Reading a signed number back: an optional minus sign, the given prefix, then digits. */
  function SignedValue(s: string, prefix: string, base: nat): (r: Option<int>)
  {
    if |s| > 0 && s[0] == '-' then
      if |s| >= 1 + |prefix| && s[1..1 + |prefix|] == prefix then
        match DigitsValue(s[1 + |prefix|..], base)
        case Some(n) => Some(0 - n as int)
        case None => None
      else None
    else if |s| >= |prefix| && s[..|prefix|] == prefix then
      match DigitsValue(s[|prefix|..], base)
      case Some(n) => Some(n)
      case None => None
    else None
  }

  /** Reading back a sign, a prefix and digits gives the digits' value with the sign. */
  lemma SignedValueOf(negative: bool, prefix: string, digits: string, base: nat)
    requires |digits| > 0 && digits[0] != '-'
    requires prefix == [] || prefix[0] != '-'
    ensures SignedValue((if negative then "-" else "") + prefix + digits, prefix, base) ==
            if DigitsValue(digits, base).None? then None
            else if negative then Some(0 - DigitsValue(digits, base).value)
            else Some(DigitsValue(digits, base).value)
  {
    var s := (if negative then "-" else "") + prefix + digits;
    hide DigitsValue;
    if negative {
      assert s[1..1 + |prefix|] == prefix && s[1 + |prefix|..] == digits;
    } else {
      assert s[..|prefix|] == prefix && s[|prefix|..] == digits;
    }
  }

  /** A number's digits never start with a minus sign. */
  lemma {:induction false} DigitsFirst(n: nat, base: nat)
    requires base == 10 || base == 16
    ensures Digits(n, base)[0] != '-'
    decreases n
  {
    if n >= base {
      DivMod(n, base);
      DigitsFirst(n / base, base);
    }
  }

  /** A printed offset or size identifies the number it was printed from. */
  lemma HexRoundTrip(v: int)
    ensures SignedValue(Hex(v), "0x", 16) == Some(v)
  {
    hide SignedValue, DigitsValue, Digits;
    var n := if v < 0 then -v else v;
    DigitsRoundTrip(n, 16);
    DigitsFirst(n, 16);
    assert Hex(v) == (if v < 0 then "-" else "") + "0x" + Digits(n, 16);
    SignedValueOf(v < 0, "0x", Digits(n, 16), 16);
  }

  /** A printed version identifies the number it was printed from. */
  lemma DecimalRoundTrip(v: int)
    ensures SignedValue(Decimal(v), "", 10) == Some(v)
  {
    hide SignedValue, DigitsValue, Digits;
    var n := if v < 0 then -v else v;
    DigitsRoundTrip(n, 10);
    DigitsFirst(n, 10);
    assert Decimal(v) == (if v < 0 then "-" else "") + "" + Digits(n, 10);
    SignedValueOf(v < 0, "", Digits(n, 10), 10);
  }

  /** Go `%v` of a bool. */
  function BoolText(b: bool): (r: string)
    ensures r == "true" <==> b
    ensures r == "false" <==> !b
  {
    if b then "true" else "false"
  }

  /** Go `%s` of a name: its bytes, one character each, so Go's byte length is the length here. */
  function Text(name: seq<byte>): (r: string)
    ensures |r| == |name|
    ensures forall i :: 0 <= i < |name| ==> r[i] as int == name[i]
  {
    seq(|name|, i requires 0 <= i < |name| => name[i] as char)
  }

  /** Go `strings.Repeat(" ", n)`. */
  function Spaces(n: nat): (r: string)
    ensures |r| == n && forall i :: 0 <= i < n ==> r[i] == ' '
  {
    seq(n, i => ' ')
  }

  // ---------------------------------------------------------------------------
  // The table's text, as specifications

  /** Every row has at most as many cells as there are headers: the column widths are indexed by cell. */
  predicate WithinHeaders(headers: seq<string>, rows: seq<seq<string>>)
  {
    forall i :: 0 <= i < |rows| ==> |rows[i]| <= |headers|
  }

  /** The width of column `j`: the longest of its header and of the cells the rows have in it. */
  function ColumnWidth(headers: seq<string>, rows: seq<seq<string>>, j: nat): (w: nat)
    requires j < |headers|
    decreases |rows|
  {
    if |rows| == 0 then |headers[j]|
    else
      var last := rows[|rows| - 1];
      var w := ColumnWidth(headers, rows[..|rows| - 1], j);
      if j < |last| && w < |last[j]| then |last[j]| else w
  }

  function MaxWidths(headers: seq<string>, rows: seq<seq<string>>): (r: seq<nat>)
    ensures |r| == |headers|
  {
    seq(|headers|, j requires 0 <= j < |headers| => ColumnWidth(headers, rows, j))
  }

  /** A column is at least as wide as its header and each of its cells, and exactly as wide as one of them. */
  lemma {:induction false} ColumnWidthIsMax(headers: seq<string>, rows: seq<seq<string>>, j: nat)
    requires j < |headers|
    ensures |headers[j]| <= ColumnWidth(headers, rows, j)
    ensures forall i :: 0 <= i < |rows| && j < |rows[i]| ==> |rows[i][j]| <= ColumnWidth(headers, rows, j)
    ensures ColumnWidth(headers, rows, j) == |headers[j]| ||
            exists i :: 0 <= i < |rows| && j < |rows[i]| && ColumnWidth(headers, rows, j) == |rows[i][j]|
    decreases |rows|
  {
    if |rows| > 0 {
      var init := rows[..|rows| - 1];
      ColumnWidthIsMax(headers, init, j);
      forall i | 0 <= i < |rows| - 1
        ensures rows[i] == init[i]
      {
      }
      var w := ColumnWidth(headers, init, j);
      if w != |headers[j]| {
        var i :| 0 <= i < |init| && j < |init[i]| && w == |init[i][j]|;
        assert rows[i] == init[i];
      }
    }
  }

  /** The columns fit every cell, so padding never asks for a negative count. */
  lemma MaxWidthsFit(headers: seq<string>, rows: seq<seq<string>>)
    requires WithinHeaders(headers, rows)
    ensures Fits(headers, MaxWidths(headers, rows))
    ensures forall i :: 0 <= i < |rows| ==> Fits(rows[i], MaxWidths(headers, rows))
  {
    forall j | 0 <= j < |headers|
      ensures |headers[j]| <= MaxWidths(headers, rows)[j]
      ensures forall i :: 0 <= i < |rows| && j < |rows[i]| ==> |rows[i][j]| <= MaxWidths(headers, rows)[j]
    {
      ColumnWidthIsMax(headers, rows, j);
    }
  }

  /** Each cell of the row is no wider than its column. */
  predicate Fits(row: seq<string>, widths: seq<int>)
  {
    |row| <= |widths| && forall i :: 0 <= i < |row| ==> |row[i]| <= widths[i]
  }

  /** Each cell can be padded: Go's `strings.Repeat` panics on the negative count a cell two or more wider than its column asks for. */
  predicate Paddable(row: seq<string>, widths: seq<int>)
  {
    |row| <= |widths| && forall i :: 0 <= i < |row| ==> |row[i]| <= widths[i] + 1
  }

  /** The cells of a row, each followed by the spaces up to its column's width and one more. */
  function Cells(row: seq<string>, widths: seq<int>): (r: string)
    requires Paddable(row, widths)
    decreases |row|
  {
    if |row| == 0 then ""
    else
      var k := |row| - 1;
      Cells(row[..k], widths) + row[k] + Spaces(widths[k] - |row[k]| + 1)
  }

  /** One line of the table: a space, the padded cells, a newline. */
  function RowText(row: seq<string>, widths: seq<int>): (r: string)
    requires Paddable(row, widths)
  {
    " " + Cells(row, widths) + "\n"
  }

  /** The lines of the rows, in order. */
  function RowsText(rows: seq<seq<string>>, widths: seq<int>): (r: string)
    requires forall i :: 0 <= i < |rows| ==> Paddable(rows[i], widths)
    decreases |rows|
  {
    if |rows| == 0 then ""
    else RowsText(rows[..|rows| - 1], widths) + RowText(rows[|rows| - 1], widths)
  }

  /** The whole table: the header line, then a line per row, all padded to the same column widths. */
  function TableText(headers: seq<string>, rows: seq<seq<string>>): (r: string)
    requires WithinHeaders(headers, rows)
  {
    MaxWidthsFit(headers, rows);
    var widths := MaxWidths(headers, rows);
    RowText(headers, widths) + RowsText(rows, widths)
  }

  /** Where column `i` starts on a line: after the opening space and the padded columns before it. */
  function Start(widths: seq<int>, i: nat): int
    requires i <= |widths|
  {
    if i == 0 then 1 else Start(widths, i - 1) + widths[i - 1] + 1
  }

  /** Columns start after the opening space, each after the ones before it. */
  lemma {:induction false} StartGrows(row: seq<string>, widths: seq<int>, i: nat, j: nat)
    requires Fits(row, widths) && i <= j < |row|
    ensures 1 <= Start(widths, i)
    ensures i < j ==> Start(widths, i) + widths[i] + 1 <= Start(widths, j)
    decreases j
  {
    if i < j {
      StartGrows(row, widths, i, j - 1);
    } else if i > 0 {
      StartGrows(row, widths, i - 1, i - 1);
    }
  }

  /** Padded cells take exactly their columns. */
  lemma {:induction false} CellsLength(row: seq<string>, widths: seq<int>)
    requires Fits(row, widths)
    ensures |Cells(row, widths)| == Start(widths, |row|) - 1
    decreases |row|
  {
    if |row| > 0 {
      CellsLength(row[..|row| - 1], widths);
    }
  }

  /** Cell `i` sits in the padded cells where column `i` starts, followed by spaces to the column's end. */
  lemma {:induction false} CellsAt(row: seq<string>, widths: seq<int>, i: nat)
    requires Fits(row, widths) && i < |row|
    ensures 1 <= Start(widths, i)
    ensures Start(widths, i) + widths[i] <= |Cells(row, widths)|
    ensures Cells(row, widths)[Start(widths, i) - 1..Start(widths, i) - 1 + |row[i]|] == row[i]
    ensures forall c :: Start(widths, i) - 1 + |row[i]| <= c < Start(widths, i) + widths[i] ==> Cells(row, widths)[c] == ' '
    decreases |row|
  {
    var k := |row| - 1;
    if i == k {
      CellsAtLast(row, widths);
      return;
    }
    var init := row[..k];
    CellsSnoc(row, widths);
    StartGrows(row, widths, i, k);
    CellsLength(init, widths);
    hide Cells, Start, Spaces;
    var cells, head := Cells(row, widths), Cells(init, widths);
    var o := Start(widths, i) - 1;
    CellsAt(init, widths, i);
    assert init[i] == row[i];
    assert o + widths[i] + 1 <= |head|;
    assert cells[o..o + |row[i]|] == head[o..o + |row[i]|];
    forall c | o + |row[i]| <= c < o + widths[i] + 1
      ensures cells[c] == ' '
    {
      assert cells[c] == head[c];
    }
  }


  /** The padded cells of a row are those of all but its last cell, then the last cell and its padding. */
  lemma CellsSnoc(row: seq<string>, widths: seq<int>)
    requires Fits(row, widths) && |row| > 0
    ensures Fits(row[..|row| - 1], widths)
    ensures Cells(row, widths) ==
              Cells(row[..|row| - 1], widths) + row[|row| - 1] + Spaces(widths[|row| - 1] - |row[|row| - 1]| + 1)
  {
  }

  /** The last cell sits where its column starts, after the padded cells before it, followed by its padding. */
  lemma CellsAtLast(row: seq<string>, widths: seq<int>)
    requires Fits(row, widths) && |row| > 0
    ensures 1 <= Start(widths, |row| - 1)
    ensures Start(widths, |row| - 1) + widths[|row| - 1] <= |Cells(row, widths)|
    ensures Cells(row, widths)[Start(widths, |row| - 1) - 1..Start(widths, |row| - 1) - 1 + |row[|row| - 1]|] == row[|row| - 1]
    ensures forall c :: Start(widths, |row| - 1) - 1 + |row[|row| - 1]| <= c < Start(widths, |row| - 1) + widths[|row| - 1] ==>
              Cells(row, widths)[c] == ' '
  {
    var k := |row| - 1;
    var init := row[..k];
    var cells, head := Cells(row, widths), Cells(init, widths);
    var pad := Spaces(widths[k] - |row[k]| + 1);
    assert cells == head + row[k] + pad;
    StartGrows(row, widths, k, k);
    CellsLength(init, widths);
    var o := Start(widths, k) - 1;
    assert cells[o..o + |row[k]|] == row[k];
    forall c | o + |row[k]| <= c < o + widths[k] + 1
      ensures cells[c] == ' '
    {
      assert cells[c] == pad[c - o - |row[k]|];
    }
  }

  /**
   * The columns line up: cell `i` of any row that fits starts on its line
   * where column `i` starts, and the rest of its column is spaces.
   */
  lemma CellAt(row: seq<string>, widths: seq<int>, i: nat)
    requires Fits(row, widths) && i < |row|
    ensures 1 <= Start(widths, i)
    ensures Start(widths, i) + widths[i] + 1 <= |RowText(row, widths)|
    ensures RowText(row, widths)[Start(widths, i)..Start(widths, i) + |row[i]|] == row[i]
    ensures forall c :: Start(widths, i) + |row[i]| <= c < Start(widths, i) + widths[i] + 1 ==> RowText(row, widths)[c] == ' '
  {
    hide Cells, Start;
    CellsAt(row, widths, i);
    var cells, text := Cells(row, widths), RowText(row, widths);
    assert text == " " + cells + "\n";
    var s := Start(widths, i);
    assert text[s..s + |row[i]|] == cells[s - 1..s - 1 + |row[i]|];
    forall c | s + |row[i]| <= c < s + widths[i] + 1
      ensures text[c] == ' '
    {
      assert text[c] == cells[c - 1];
    }
  }

  /** Every line of a row that fits has the same length, given by the widths alone. */
  lemma RowTextLength(row: seq<string>, widths: seq<int>)
    requires Fits(row, widths)
    ensures |RowText(row, widths)| == Start(widths, |row|) + 1
  {
    CellsLength(row, widths);
  }

  /** Rows with a cell under every header print as long as the header line. */
  lemma TableLinesAligned(headers: seq<string>, rows: seq<seq<string>>, i: nat)
    requires WithinHeaders(headers, rows) && i < |rows| && |rows[i]| == |headers|
    ensures Fits(headers, MaxWidths(headers, rows)) && Fits(rows[i], MaxWidths(headers, rows))
    ensures |RowText(rows[i], MaxWidths(headers, rows))| == |RowText(headers, MaxWidths(headers, rows))|
  {
    MaxWidthsFit(headers, rows);
    RowTextLength(rows[i], MaxWidths(headers, rows));
    RowTextLength(headers, MaxWidths(headers, rows));
  }

  /** A row added last prints last. */
  lemma RowsTextSnoc(rows: seq<seq<string>>, row: seq<string>, widths: seq<int>)
    requires forall i :: 0 <= i < |rows| ==> Paddable(rows[i], widths)
    requires Paddable(row, widths)
    ensures RowsText(rows + [row], widths) == RowsText(rows, widths) + RowText(row, widths)
  {
    assert (rows + [row])[..|rows|] == rows;
  }

  /** The lines of the first `i + 1` rows are those of the first `i` and then row `i`'s. */
  lemma RowsTextPrefix(rows: seq<seq<string>>, i: nat, widths: seq<int>)
    requires forall k :: 0 <= k < |rows| ==> Paddable(rows[k], widths)
    requires i < |rows|
    ensures RowsText(rows[..i + 1], widths) == RowsText(rows[..i], widths) + RowText(rows[i], widths)
  {
    assert rows[..i + 1][..i] == rows[..i];
  }

  /** Headers a, ab, abc and a row ab, ab, ab: the columns are 2, 2 and 3 wide. */
  lemma MaxWidthsExample()
    ensures MaxWidths(["a", "ab", "abc"], [["ab", "ab", "ab"]]) == [2, 2, 3]
  {
    var headers, rows := ["a", "ab", "abc"], [["ab", "ab", "ab"]];
    assert rows[..0] == [];
    assert ColumnWidth(headers, rows, 0) == 2;
    assert ColumnWidth(headers, rows, 1) == 2;
    assert ColumnWidth(headers, rows, 2) == 3;
  }

  /** Cells a and ab in columns 2 wide print as " a  ab \n". */
  lemma RowTextExample()
    ensures RowText(["a", "ab"], [2, 2]) == " a  ab \n"
  {
    var row := ["a", "ab"];
    assert row[..1] == ["a"] && row[..1][..0] == [];
    assert Cells(["a"], [2, 2]) == "a  ";
    assert Cells(row, [2, 2]) == "a  ab ";
  }

  // ---------------------------------------------------------------------------
  // The table

  class Table {
    /** The header cells; never changed after the table is made. */
    const headers: seq<string>
    var rows: seq<seq<string>>

    constructor (headers: seq<string>)
      ensures this.headers == headers && rows == []
    {
      this.headers := headers;
      rows := [];
    }

    method AddRow(values: seq<string>)
      modifies this
      ensures rows == old(rows) + [values]
    {
      rows := rows + [values];
    }

    /** One width per header: the longest of the header and of the cells below it. */
    method CalcMaxWidths() returns (maxWidths: seq<nat>)
      requires WithinHeaders(headers, rows)
      ensures maxWidths == MaxWidths(headers, rows)
    {
      var widths := new nat[|headers|];
      for i := 0 to |headers|
        invariant forall k :: 0 <= k < i ==> widths[k] == |headers[k]|
      {
        widths[i] := |headers[i]|;
      }
      for r := 0 to |rows|
        invariant forall k :: 0 <= k < |headers| ==> widths[k] == ColumnWidth(headers, rows[..r], k)
      {
        var row := rows[r];
        assert rows[..r + 1][..r] == rows[..r];
        for j := 0 to |row|
          invariant forall k :: 0 <= k < j ==> widths[k] == ColumnWidth(headers, rows[..r + 1], k)
          invariant forall k :: j <= k < |headers| ==> widths[k] == ColumnWidth(headers, rows[..r], k)
        {
          if widths[j] < |row[j]| {
            widths[j] := |row[j]|;
          }
        }
      }
      assert rows[..|rows|] == rows;
      maxWidths := widths[..];
    }

    /** One line: a space, then each cell padded to its column and one more, then a newline. */
    method WriteRowTo(row: seq<string>, maxWidths: seq<int>) returns (out: string)
      requires Paddable(row, maxWidths)
      ensures out == RowText(row, maxWidths)
    {
      out := " ";
      for i := 0 to |row|
        invariant out == " " + Cells(row[..i], maxWidths)
      {
        var val := row[i];
        assert row[..i + 1][..i] == row[..i];
        out := out + val;
        out := out + Spaces(maxWidths[i] - |val| + 1);
      }
      assert row[..|row|] == row;
      out := out + "\n";
    }

    /** The header line, then the rows' lines in the order they were added. */
    method WriteTo() returns (out: string)
      requires WithinHeaders(headers, rows)
      ensures out == TableText(headers, rows)
    {
      var maxWidths := CalcMaxWidths();
      MaxWidthsFit(headers, rows);
      out := WriteRowTo(headers, maxWidths);
      for i := 0 to |rows|
        invariant out == RowText(headers, maxWidths) + RowsText(rows[..i], maxWidths)
      {
        var line := WriteRowTo(rows[i], maxWidths);
        RowsTextPrefix(rows, i, maxWidths);
        out := out + line;
      }
      assert rows[..|rows|] == rows;
    }
  }

  // ---------------------------------------------------------------------------
  // The symbol listing

  const SYMBOL_HEADER_ROWS: seq<string> :=
    ["Offset", "Size", "Type", "DupOK", "Local", "MakeTypeLink", "Name", "Version", "GoType"]

  const SYMBOLS_TITLE: string := "The list of defined symbols:\n"

  /** A symbol's name and Go type are looked up in the reference table; both indexes must be in it. */
  predicate Printable(refs: seq<SymbolReference>, symbol: Symbol)
  {
    0 <= symbol.idIndex < |refs| && 0 <= symbol.goTypeIndex < |refs|
  }

  /** A symbol's row: one cell per header, in the headers' order. */
  function SymbolRow(refs: seq<SymbolReference>, symbol: Symbol): (row: seq<string>)
    requires Printable(refs, symbol)
    ensures |row| == |SYMBOL_HEADER_ROWS|
  {
    var ref, goType := refs[symbol.idIndex], refs[symbol.goTypeIndex];
    [Hex(symbol.data.offset), Hex(symbol.size), KindName(symbol.kind),
     BoolText(symbol.dupOK), BoolText(symbol.local), BoolText(symbol.typelink),
     Text(ref.name), Decimal(ref.version), Text(goType.name)]
  }

  /** The rows of the listing, one per symbol, in the symbols' order. */
  function SymbolRows(file: File): (rows: seq<seq<string>>)
    requires forall i :: 0 <= i < |file.symbols| ==> Printable(file.symbolReferences, file.symbols[i])
    ensures |rows| == |file.symbols|
    ensures WithinHeaders(SYMBOL_HEADER_ROWS, rows)
  {
    seq(|file.symbols|, i requires 0 <= i < |file.symbols| => SymbolRow(file.symbolReferences, file.symbols[i]))
  }

  /**
   * What a symbol's row shows can be read back: its data offset and size
   * from the hex cells, its kind's name, its flags, and the name and version
   * of the reference its ID index points at.
   */
  lemma SymbolRowReadsBack(refs: seq<SymbolReference>, symbol: Symbol)
    requires Printable(refs, symbol)
    ensures var row := SymbolRow(refs, symbol);
            SignedValue(row[0], "0x", 16) == Some(symbol.data.offset as int) &&
            SignedValue(row[1], "0x", 16) == Some(symbol.size as int) &&
            row[2] == KindName(symbol.kind) &&
            (row[3] == "true" <==> symbol.dupOK) && (row[4] == "true" <==> symbol.local) &&
            (row[5] == "true" <==> symbol.typelink) &&
            |row[6]| == |refs[symbol.idIndex].name| &&
            SignedValue(row[7], "", 10) == Some(refs[symbol.idIndex].version as int) &&
            |row[8]| == |refs[symbol.goTypeIndex].name|
  {
    hide SignedValue, Hex, Decimal;
    HexRoundTrip(symbol.data.offset);
    HexRoundTrip(symbol.size);
    DecimalRoundTrip(refs[symbol.idIndex].version);
  }

  /** The listing: a title line, then the table of the symbols, one row each, in order. */
  method PrintSymbols(file: File) returns (out: string)
    requires forall i :: 0 <= i < |file.symbols| ==> Printable(file.symbolReferences, file.symbols[i])
    ensures out == SYMBOLS_TITLE + TableText(SYMBOL_HEADER_ROWS, SymbolRows(file))
  {
    var table := new Table(SYMBOL_HEADER_ROWS);
    for i := 0 to |file.symbols|
      invariant table.headers == SYMBOL_HEADER_ROWS
      invariant table.rows == SymbolRows(file)[..i]
    {
      var symbol := file.symbols[i];
      var row := SymbolRow(file.symbolReferences, symbol);
      table.AddRow(row);
      assert SymbolRows(file)[..i + 1] == SymbolRows(file)[..i] + [row];
    }
    assert SymbolRows(file)[..|file.symbols|] == SymbolRows(file);
    var text := table.WriteTo();
    out := SYMBOLS_TITLE + text;
  }
}
