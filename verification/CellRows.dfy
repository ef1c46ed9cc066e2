/**
 Rows of cells sent to the terminal. A wide glyph takes two cells flagged as its leading and its
 trailing half; a row can be cut anywhere, also through a glyph.
 */
module CellRows {
  import opened Numbers
  import opened VtText

  /** An attribute word: the two flags, and the word without them. */
  datatype Attr = Attr(lead: bool, trail: bool, rest: Unit)

  datatype Cell = Cell(ch: Unit, attr: Attr)

  // ------------------------------------------------------------------------ conversion

  /** A double-byte code page: which bytes lead a pair, and the wide characters of bytes and pairs. */
  datatype Conversion = Conversion(lead: Byte -> bool, one: Byte -> Unit, two: (Byte, Byte) -> Unit)

  /** A cell of byte text holds its byte in the low half of the character. */
  function Ascii(c: Cell): Byte {
    c.ch % 256
  }

  function Plain(a: Attr): Attr {
    a.(lead := false, trail := false)
  }

  /** A row of byte cells as wide cells: pairs are flagged, a pair cut off by the row's end is blank. */
  function ConvertedRow(cp: Conversion, row: seq<Cell>): (r: seq<Cell>)
    ensures |r| == |row|
  {
    if row == [] then []
    else if !cp.lead(Ascii(row[0])) then
      [Cell(cp.one(Ascii(row[0])), Plain(row[0].attr))] + ConvertedRow(cp, row[1..])
    else if |row| == 1 then
      [Cell(SPACE, Plain(row[0].attr))]
    else
      var ch := cp.two(Ascii(row[0]), Ascii(row[1]));
      [Cell(ch, Plain(row[0].attr).(lead := true)), Cell(ch, Plain(row[1].attr).(trail := true))]
      + ConvertedRow(cp, row[2..])
  }

  /** A flag at `i` has its partner next to it. */
  predicate PairedAt(row: seq<Cell>, i: int)
    requires 0 <= i < |row|
  {
    var a := row[i].attr;
    && !(a.lead && a.trail)
    && (a.lead ==> i + 1 < |row| && row[i + 1].attr.trail && row[i + 1].ch == row[i].ch)
    && (a.trail ==> i > 0 && row[i - 1].attr.lead)
  }

  /** Leading and trailing flags stand only in adjacent pairs. */
  ghost predicate Paired(row: seq<Cell>) {
    forall i :: 0 <= i < |row| ==> PairedAt(row, i)
  }

  lemma PairedConcat(a: seq<Cell>, b: seq<Cell>)
    requires Paired(a) && Paired(b)
    ensures Paired(a + b)
  {
    forall i | 0 <= i < |a + b| ensures PairedAt(a + b, i) {
      if i < |a| {
        assert PairedAt(a, i);
      } else {
        assert PairedAt(b, i - |a|);
      }
    }
  }

  lemma {:induction false} ConvertedIsPaired(cp: Conversion, row: seq<Cell>)
    ensures Paired(ConvertedRow(cp, row))
  {
    var r := ConvertedRow(cp, row);
    if row != [] {
      var n := if cp.lead(Ascii(row[0])) && |row| > 1 then 2 else 1;
      ConvertedIsPaired(cp, row[n..]);
      assert r == r[..n] + ConvertedRow(cp, row[n..]);
      PairedConcat(r[..n], ConvertedRow(cp, row[n..]));
    }
  }

  /**
   Cell `i` of the converted row keeps its attributes. It is the second half of the glyph before it; or
   its byte and the next are a pair, whose character it shows; or its byte leads a pair that the row's
   end cuts off; or its byte is a character.
   */
  ghost predicate ConvertedAt(cp: Conversion, row: seq<Cell>, r: seq<Cell>, i: int)
    requires 0 <= i < |row| == |r|
  {
    var c, b := r[i], row[i].ch % 256;
    && c.attr.rest == row[i].attr.rest
    && if c.attr.trail then !c.attr.lead && i > 0 && r[i - 1].attr.lead && c.ch == r[i - 1].ch
       else if c.attr.lead then
         && cp.lead(b) && i + 1 < |row| && r[i + 1].attr.trail
         && c.ch == cp.two(b, row[i + 1].ch % 256)
       else if cp.lead(b) then i + 1 == |row| && c.ch == SPACE
       else c.ch == cp.one(b)
  }

  ghost predicate IsConverted(cp: Conversion, row: seq<Cell>, r: seq<Cell>) {
    |row| == |r| && forall i :: 0 <= i < |row| ==> ConvertedAt(cp, row, r, i)
  }

  /** The conversion is the one row that is right cell by cell. */
  lemma ConvertedExactly(cp: Conversion, row: seq<Cell>, r: seq<Cell>)
    ensures IsConverted(cp, row, r) <==> r == ConvertedRow(cp, row)
  {
    ConvertedIsRight(cp, row);
    if IsConverted(cp, row, r) {
      ConvertedOnce(cp, row, r, ConvertedRow(cp, row), |row|);
    }
  }

  lemma {:induction false} ConvertedIsRight(cp: Conversion, row: seq<Cell>)
    ensures IsConverted(cp, row, ConvertedRow(cp, row))
  {
    if row != [] {
      var r, n := ConvertedRow(cp, row), if cp.lead(Ascii(row[0])) && |row| > 1 then 2 else 1;
      var rest, next := row[n..], ConvertedRow(cp, row[n..]);
      ConvertedIsRight(cp, rest);
      assert r == r[..n] + next;
      forall i | 0 <= i < |row| ensures ConvertedAt(cp, row, r, i) {
        if i >= n {
          assert ConvertedAt(cp, rest, next, i - n) && row[i] == rest[i - n] && r[i] == next[i - n];
          assert i + 1 < |row| ==> row[i + 1] == rest[i - n + 1] && r[i + 1] == next[i - n + 1];
          assert i > n ==> r[i - 1] == next[i - n - 1];
        }
      }
    }
  }

  lemma {:induction false} ConvertedOnce(cp: Conversion, row: seq<Cell>, r: seq<Cell>, s: seq<Cell>, n: nat)
    requires IsConverted(cp, row, r) && IsConverted(cp, row, s) && n <= |row|
    ensures r[..n] == s[..n]
  {
    if n > 0 {
      ConvertedOnce(cp, row, r, s, n - 1);
      var i := n - 1;
      assert ConvertedAt(cp, row, r, i) && ConvertedAt(cp, row, s, i);
      if i > 0 {
        assert ConvertedAt(cp, row, r, i - 1) && ConvertedAt(cp, row, s, i - 1);
        assert r[i - 1] == r[..i][i - 1] == s[..i][i - 1] == s[i - 1];
      }
      assert r[i] == s[i];
      assert r[..n] == r[..i] + [r[i]] && s[..n] == s[..i] + [s[i]];
    }
  }

  /** What one row's conversion has done after `j` cells. */
  ghost predicate Converting(cp: Conversion, was: seq<Cell>, now: seq<Cell>, j: nat) {
    && |was| == |now| && j <= |was|
    && now[j..] == was[j..]
    && now[..j] + ConvertedRow(cp, was[j..]) == ConvertedRow(cp, was)
  }

  lemma ConvertsSingle(cp: Conversion, was: seq<Cell>, now: seq<Cell>, j: nat)
    requires Converting(cp, was, now, j) && j < |was| && !cp.lead(Ascii(now[j]))
    ensures Converting(cp, was, now[j := Cell(cp.one(Ascii(now[j])), Plain(now[j].attr))], j + 1)
  {
    assert now[j] == now[j..][0] == was[j];
    var next := now[j := Cell(cp.one(Ascii(now[j])), Plain(now[j].attr))];
    assert next[..j + 1] == now[..j] + [next[j]];
    assert next[j + 1..] == now[j..][1..] == was[j + 1..];
    assert was[j..][1..] == was[j + 1..];
  }

  lemma ConvertsLast(cp: Conversion, was: seq<Cell>, now: seq<Cell>, j: nat)
    requires Converting(cp, was, now, j) && j + 1 == |was| && cp.lead(Ascii(now[j]))
    ensures Converting(cp, was, now[j := Cell(SPACE, Plain(now[j].attr))], j + 1)
  {
    assert now[j] == now[j..][0] == was[j];
    var next := now[j := Cell(SPACE, Plain(now[j].attr))];
    assert next[..j + 1] == now[..j] + [next[j]];
    assert was[j + 1..] == [] && next[j + 1..] == [];
  }

  lemma ConvertsPair(cp: Conversion, was: seq<Cell>, now: seq<Cell>, j: nat)
    requires Converting(cp, was, now, j) && j + 1 < |was| && cp.lead(Ascii(now[j]))
    ensures var ch := cp.two(Ascii(now[j]), Ascii(now[j + 1]));
      Converting(cp, was, now[j := Cell(ch, Plain(now[j].attr).(lead := true))]
                             [j + 1 := Cell(ch, Plain(now[j + 1].attr).(trail := true))], j + 2)
  {
    var ch := cp.two(Ascii(now[j]), Ascii(now[j + 1]));
    assert now[j] == now[j..][0] == was[j] && now[j + 1] == now[j..][1] == was[j + 1];
    var first := now[j := Cell(ch, Plain(now[j].attr).(lead := true))];
    var next := first[j + 1 := Cell(ch, Plain(now[j + 1].attr).(trail := true))];
    assert next[..j + 2] == now[..j] + [next[j], next[j + 1]];
    assert next[j + 2..] == now[j..][2..] == was[j + 2..];
    assert was[j..][2..] == was[j + 2..];
  }

  lemma ConvertsEnds(cp: Conversion, was: seq<Cell>, now: seq<Cell>)
    ensures Converting(cp, was, was, 0)
    ensures Converting(cp, was, now, |was|) ==> now == ConvertedRow(cp, was)
  {
    assert was[0..] == was;
    if Converting(cp, was, now, |was|) {
      assert now[..|was|] == now && was[|was|..] == [];
    }
  }

  /** Converts the cell or the pair at `j` of the row at `start`. */
  method ConvertAt(cp: Conversion, a: array<Cell>, start: nat, width: nat, j: nat, ghost was: seq<Cell>)
    returns (next: nat)
    requires start + width <= a.Length && j < width && Converting(cp, was, a[start..start + width], j)
    modifies a
    ensures j < next <= width && Converting(cp, was, a[start..start + width], next)
    ensures forall i :: 0 <= i < start || start + width <= i < a.Length ==> a[i] == old(a[i])
  {
    hide Converting, ConvertedRow, Plain, Ascii;
    ghost var now := a[start..start + width];
    var c := a[start + j];
    assert c == now[j];
    SameLength(cp, was, now, j);
    if cp.lead(Ascii(c)) {
      if j < width - 1 {
        ConvertsPair(cp, was, now, j);
        var d := a[start + j + 1];
        assert d == now[j + 1];
        var ch := cp.two(Ascii(c), Ascii(d));
        a[start + j] := Cell(ch, Plain(c.attr).(lead := true));
        a[start + j + 1] := Cell(ch, Plain(d.attr).(trail := true));
        assert a[start..start + width] == now[j := a[start + j]][j + 1 := a[start + j + 1]];
        return j + 2;
      }
      ConvertsLast(cp, was, now, j);
      a[start + j] := Cell(SPACE, Plain(c.attr));
    } else {
      ConvertsSingle(cp, was, now, j);
      a[start + j] := Cell(cp.one(Ascii(c)), Plain(c.attr));
    }
    assert a[start..start + width] == now[j := a[start + j]];
    next := j + 1;
  }

  lemma SameLength(cp: Conversion, was: seq<Cell>, now: seq<Cell>, j: nat)
    requires Converting(cp, was, now, j)
    ensures |was| == |now|
  {
  }

  /** Converts the row of `width` cells at `start` where it lies. */
  method ConvertRow(cp: Conversion, a: array<Cell>, start: nat, width: nat)
    requires start + width <= a.Length
    modifies a
    ensures a[start..start + width] == ConvertedRow(cp, old(a[start..start + width]))
    ensures forall i :: 0 <= i < start || start + width <= i < a.Length ==> a[i] == old(a[i])
  {
    hide Converting, ConvertedRow;
    ghost var was := a[start..start + width];
    ConvertsEnds(cp, was, was);
    var j := 0;
    while j < width
      invariant 0 <= j <= width
      invariant Converting(cp, was, a[start..start + width], j)
      invariant forall i :: 0 <= i < start || start + width <= i < a.Length ==> a[i] == old(a[i])
    {
      j := ConvertAt(cp, a, start, width, j, was);
    }
    ConvertsEnds(cp, was, a[start..start + width]);
  }

  /** Row `i` of cells laid out with the given number of cells a row. */
  function RowOf(cells: seq<Cell>, width: nat, i: nat): (r: seq<Cell>)
    requires i * width + width <= |cells|
    ensures |r| == width
  {
    cells[i * width..i * width + width]
  }

  lemma RowBounds(width: nat, i: nat, height: nat)
    requires i < height
    ensures 0 <= i * width && i * width + width == (i + 1) * width <= height * width
  {
    if i + 1 < height {
      RowBounds(width, i, height - 1);
    }
  }

  /** The first `height` rows are converted and the cells after them untouched. */
  ghost predicate RowsConverted(cp: Conversion, was: seq<Cell>, now: seq<Cell>, width: nat, height: nat)
    requires height * width <= |was| == |now|
  {
    && (forall i | 0 <= i < height ::
          (RowBounds(width, i, height); RowOf(now, width, i) == ConvertedRow(cp, RowOf(was, width, i))))
    && now[height * width..] == was[height * width..]
  }

  lemma OneRowMore(cp: Conversion, was: seq<Cell>, now: seq<Cell>, next: seq<Cell>, width: nat, height: nat)
    requires height * width + width <= |was| == |now| == |next|
    requires RowsConverted(cp, was, now, width, height)
    requires next[..height * width] == now[..height * width]
    requires RowOf(next, width, height) == ConvertedRow(cp, RowOf(now, width, height))
    requires next[height * width + width..] == now[height * width + width..]
    ensures (height + 1) * width <= |was| && RowsConverted(cp, was, next, width, height + 1)
  {
    var at := height * width;
    RowBounds(width, height, height + 1);
    TailsAgree(now, was, at, width);
    forall i | 0 <= i < height + 1
      ensures (RowBounds(width, i, height + 1); RowOf(next, width, i) == ConvertedRow(cp, RowOf(was, width, i)))
    {
      RowBounds(width, i, height + 1);
      if i < height {
        RowBounds(width, i, height);
        FrontsAgree(next, now, at, i * width, i * width + width);
      }
    }
  }

  lemma FrontsAgree(a: seq<Cell>, b: seq<Cell>, at: nat, from: nat, to: nat)
    requires from <= to <= at <= |a| && at <= |b| && a[..at] == b[..at]
    ensures a[from..to] == b[from..to]
  {
    assert a[from..to] == a[..at][from..to] && b[from..to] == b[..at][from..to];
  }

  lemma TailsAgree(a: seq<Cell>, b: seq<Cell>, at: nat, n: nat)
    requires at + n <= |a| == |b| && a[at..] == b[at..]
    ensures a[at..at + n] == b[at..at + n] && a[at + n..] == b[at + n..]
  {
    assert a[at..at + n] == a[at..][..n] && b[at..at + n] == b[at..][..n];
    assert a[at + n..] == a[at..][n..] && b[at + n..] == b[at..][n..];
  }

  ghost predicate RowsPaired(cells: seq<Cell>, width: nat, height: nat)
    requires height * width <= |cells|
  {
    forall i | 0 <= i < height :: (RowBounds(width, i, height); Paired(RowOf(cells, width, i)))
  }

  /** Converts all rows in place; every row then has its flags in pairs. */
  method ConvertCells(cp: Conversion, a: array<Cell>, width: nat, height: nat)
    requires height * width <= a.Length
    modifies a
    ensures RowsConverted(cp, old(a[..]), a[..], width, height)
    ensures RowsPaired(a[..], width, height)
  {
    ghost var was := a[..];
    var start := 0;
    for i := 0 to height
      invariant start == i * width && i * width <= height * width
      invariant RowsConverted(cp, was, a[..], width, i)
    {
      ghost var now := a[..];
      RowBounds(width, i, height);
      assert RowOf(now, width, i) == a[start..start + width];
      ConvertRow(cp, a, start, width);
      assert a[..][..start] == now[..start] && a[..][start + width..] == now[start + width..];
      assert RowOf(a[..], width, i) == a[start..start + width];
      OneRowMore(cp, was, now, a[..], width, i);
      start := start + width;
    }
    forall i | 0 <= i < height ensures (RowBounds(width, i, height); Paired(RowOf(a[..], width, i))) {
      RowBounds(width, i, height);
      ConvertedIsPaired(cp, RowOf(was, width, i));
    }
  }
}
