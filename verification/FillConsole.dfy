/**
 Filling a screen buffer from a position on with characters or attributes, row by row. A wide glyph
 that does not fit at the end of a row is put on the next one and the column left over is blank.
 */
module FillConsole {
  import opened VtText
  import opened CellRows

  datatype Mode = WriteAttribute | FillAttribute | WriteCharacter | FillCharacter

  function Repeat(ch: Unit, n: nat): (r: seq<Unit>)
    ensures |r| == n && forall i :: 0 <= i < n ==> r[i] == ch
  {
    seq(n, _ => ch)
  }

  /** The input as the caller means it: filling repeats the first element. */
  function Input(mode: Mode, data: seq<Unit>, length: nat): (r: seq<Unit>)
    requires length > 0 ==> |data| >= if mode.FillAttribute? || mode.FillCharacter? then 1 else length
    ensures |r| == length
  {
    if length == 0 then []
    else if mode.FillAttribute? || mode.FillCharacter? then Repeat(data[0], length)
    else data[..length]
  }

  predicate Attributes(mode: Mode) {
    mode.WriteAttribute? || mode.FillAttribute?
  }

  // ------------------------------------------------------------------------- one row

  /** An attribute word without the two flags. */
  function Rest(word: Unit): Unit {
    word - word / 256 % 4 * 256
  }

  function Repainted(c: Cell, word: Unit): Cell {
    c.(attr := c.attr.(rest := Rest(word)))
  }

  /** Repainting keeps the character and the two flags, bits 8 and 9, and takes every other bit from the word. */
  lemma RepaintsTheRest(c: Cell, word: Unit)
    ensures var r := Repainted(c, word);
      && r.ch == c.ch && r.attr.lead == c.attr.lead && r.attr.trail == c.attr.trail
      && r.attr.rest % 0x100 == word % 0x100 && r.attr.rest / 0x400 == word / 0x400 && r.attr.rest / 0x100 % 4 == 0
  {
    ghost var low, flags, high := word % 0x100, word / 0x100 % 4, word / 0x400;
    assert word / 0x100 == 4 * high + flags;
    assert Rest(word) == 0x400 * high + low;
    HighAndLow(high, low);
  }

  lemma HighAndLow(high: nat, low: nat)
    requires low < 0x100
    ensures (0x400 * high + low) % 0x100 == low && (0x400 * high + low) / 0x100 == 4 * high
    ensures (0x400 * high + low) / 0x400 == high
  {
  }

  function Narrow(c: Cell, ch: Unit): Cell {
    Cell(ch, c.attr.(lead := false, trail := false))
  }

  function Lead(c: Cell, ch: Unit): Cell {
    Cell(ch, c.attr.(lead := true, trail := false))
  }

  function Trail(c: Cell, ch: Unit): Cell {
    Cell(ch, c.attr.(lead := false, trail := true))
  }

  predicate Wide(full: Unit -> bool, ch: Unit) {
    ch >= 0x80 && full(ch)
  }

  /** The cells written over the front of a row, how much of the input they took, and whether the last is padding. */
  datatype Fill = Fill(cells: seq<Cell>, taken: nat, padded: bool)

  function Chars(full: Unit -> bool, row: seq<Cell>, input: seq<Unit>): (r: Fill)
    ensures |r.cells| <= |row| && r.taken <= |input|
    ensures row != [] && input != [] ==> r.cells != []
    ensures r.taken < |input| ==> |r.cells| == |row|
  {
    if row == [] || input == [] then Fill([], 0, false)
    else if !Wide(full, input[0]) then
      var r := Chars(full, row[1..], input[1..]);
      Fill([Narrow(row[0], input[0])] + r.cells, 1 + r.taken, r.padded)
    else if |row| == 1 then Fill([Narrow(row[0], SPACE)], 0, true)
    else
      var r := Chars(full, row[2..], input[1..]);
      Fill([Lead(row[0], input[0]), Trail(row[1], input[0])] + r.cells, 1 + r.taken, r.padded)
  }

  function Colours(row: seq<Cell>, input: seq<Unit>): (r: Fill)
    ensures |r.cells| == r.taken <= |row| && r.taken <= |input|
    ensures r.taken == |row| || r.taken == |input|
  {
    var n := if |row| < |input| then |row| else |input|;
    Fill(seq(n, i requires 0 <= i < n => Repainted(row[i], input[i])), n, false)
  }

  function RowFill(mode: Mode, full: Unit -> bool, row: seq<Cell>, input: seq<Unit>): (r: Fill)
    ensures |r.cells| <= |row| && r.taken <= |input|
    ensures row != [] && input != [] ==> r.cells != []
    ensures r.taken < |input| ==> |r.cells| == |row|
  {
    if Attributes(mode) then Colours(row, input) else Chars(full, row, input)
  }

  // ------------------------------------------------------------------ what a row says

  /** The text of cells in which each leading half is followed by its trailing half. */
  function TextOf(cells: seq<Cell>): seq<Unit> {
    if cells == [] then []
    else if cells[0].attr.lead && |cells| > 1 then [cells[0].ch] + TextOf(cells[2..])
    else [cells[0].ch] + TextOf(cells[1..])
  }

  lemma {:induction false} CharsPaired(full: Unit -> bool, row: seq<Cell>, input: seq<Unit>)
    ensures Paired(Chars(full, row, input).cells)
  {
    var r := Chars(full, row, input).cells;
    if row != [] && input != [] {
      var n := if Wide(full, input[0]) && |row| > 1 then 2 else 1;
      if !Wide(full, input[0]) || |row| > 1 {
        CharsPaired(full, row[n..], input[1..]);
        var more := Chars(full, row[n..], input[1..]).cells;
        assert r == r[..n] + more;
        PairedConcat(r[..n], more);
      }
    }
  }

  /** Padding is one blank in the row's last column, left for a wide glyph that comes next. */
  lemma {:induction false} PaddingIsBlank(full: Unit -> bool, row: seq<Cell>, input: seq<Unit>)
    requires Chars(full, row, input).padded
    ensures var r := Chars(full, row, input);
      && r.taken < |input| && Wide(full, input[r.taken]) && |r.cells| == |row| > 0
      && r.cells[|row| - 1] == Narrow(row[|row| - 1], SPACE)
  {
    if !Wide(full, input[0]) || |row| > 1 {
      var n := if Wide(full, input[0]) then 2 else 1;
      PaddingIsBlank(full, row[n..], input[1..]);
    }
  }

  lemma TextOfNarrow(c: Cell, more: seq<Cell>)
    requires !c.attr.lead
    ensures TextOf([c] + more) == [c.ch] + TextOf(more)
  {
    assert ([c] + more)[1..] == more;
  }

  lemma TextOfWide(c: Cell, d: Cell, more: seq<Cell>)
    requires c.attr.lead
    ensures TextOf([c, d] + more) == [c.ch] + TextOf(more)
  {
    assert ([c, d] + more)[2..] == more;
  }

  /** The written cells spell the part of the input taken, then the padding. */
  lemma {:induction false} CharsSpell(full: Unit -> bool, row: seq<Cell>, input: seq<Unit>)
    ensures var r := Chars(full, row, input);
      TextOf(r.cells) == input[..r.taken] + if r.padded then [SPACE] else []
  {
    hide TextOf;
    var r := Chars(full, row, input);
    if row == [] || input == [] {
      NothingSaid();
    } else if Wide(full, input[0]) && |row| == 1 {
      NothingSaid();
      TextOfNarrow(r.cells[0], []);
      assert r.cells == [r.cells[0]] + [];
    } else {
      var n := if Wide(full, input[0]) then 2 else 1;
      var m := Chars(full, row[n..], input[1..]);
      CharsSpell(full, row[n..], input[1..]);
      if n == 1 {
        TextOfNarrow(r.cells[0], m.cells);
        assert r.cells == [r.cells[0]] + m.cells;
      } else {
        TextOfWide(r.cells[0], r.cells[1], m.cells);
        assert r.cells == [r.cells[0], r.cells[1]] + m.cells;
      }
      assert input[..r.taken] == [input[0]] + input[1..][..m.taken];
    }
  }

  lemma NothingSaid()
    ensures TextOf([]) == []
  {
  }

  // --------------------------------------------------------------- what a row looks like

  /** A glyph takes two cells exactly when it is beyond ASCII and full width; `pad` marks a blank left over. */
  ghost predicate WidthOk(full: Unit -> bool, c: Cell, pad: bool) {
    && (c.attr.lead || c.attr.trail ==> c.ch > 0x7F && full(c.ch) && !pad)
    && (!c.attr.lead && !c.attr.trail ==> if pad then c.ch == SPACE else c.ch <= 0x7F || !full(c.ch))
  }

  ghost predicate WidthsOk(full: Unit -> bool, cells: seq<Cell>, padded: bool) {
    forall i :: 0 <= i < |cells| ==> WidthOk(full, cells[i], padded && i == |cells| - 1)
  }

  lemma {:induction false} CharsWidths(full: Unit -> bool, row: seq<Cell>, input: seq<Unit>)
    ensures WidthsOk(full, Chars(full, row, input).cells, Chars(full, row, input).padded)
  {
    var r := Chars(full, row, input);
    if row != [] && input != [] && (!Wide(full, input[0]) || |row| > 1) {
      var n := if Wide(full, input[0]) then 2 else 1;
      var m := Chars(full, row[n..], input[1..]);
      CharsWidths(full, row[n..], input[1..]);
      if m.padded {
        PaddingIsBlank(full, row[n..], input[1..]);
      }
      forall i | 0 <= i < |r.cells| ensures WidthOk(full, r.cells[i], r.padded && i == |r.cells| - 1) {
        if i >= n {
          assert r.cells[i] == m.cells[i - n] && WidthOk(full, m.cells[i - n], m.padded && i - n == |m.cells| - 1);
        }
      }
    }
  }

  lemma {:induction false} CharsKeepColours(full: Unit -> bool, row: seq<Cell>, input: seq<Unit>)
    ensures forall i :: 0 <= i < |Chars(full, row, input).cells| ==>
      Chars(full, row, input).cells[i].attr.rest == row[i].attr.rest
  {
    var r := Chars(full, row, input).cells;
    if row != [] && input != [] && (!Wide(full, input[0]) || |row| > 1) {
      var n := if Wide(full, input[0]) then 2 else 1;
      var m := Chars(full, row[n..], input[1..]).cells;
      CharsKeepColours(full, row[n..], input[1..]);
      forall i | 0 <= i < |r| ensures r[i].attr.rest == row[i].attr.rest {
        if i >= n {
          assert r[i] == m[i - n] && row[i] == row[n..][i - n];
        }
      }
    }
  }

  /** A cell whose attributes were written: its glyph stays, and the word gives every bit but the two flags. */
  ghost predicate Coloured(now: Cell, was: Cell, word: Unit) {
    && now.ch == was.ch && now.attr.lead == was.attr.lead && now.attr.trail == was.attr.trail
    && now.attr.rest % 0x100 == word % 0x100 && now.attr.rest / 0x400 == word / 0x400
    && now.attr.rest / 0x100 % 4 == 0
  }

  /**
   Writing attributes leaves the glyphs and colours one cell for each word; writing characters leaves
   the colours and spells the input, each glyph in the cells its width takes.
   */
  lemma RowFillMeans(mode: Mode, full: Unit -> bool, row: seq<Cell>, input: seq<Unit>)
    ensures var r := RowFill(mode, full, row, input);
      match mode
      case WriteAttribute | FillAttribute =>
        |r.cells| == r.taken && forall i :: 0 <= i < r.taken ==> Coloured(r.cells[i], row[i], input[i])
      case WriteCharacter | FillCharacter =>
        && TextOf(r.cells) == input[..r.taken] + (if r.padded then [SPACE] else [])
        && Paired(r.cells) && WidthsOk(full, r.cells, r.padded)
        && forall i :: 0 <= i < |r.cells| ==> r.cells[i].attr.rest == row[i].attr.rest
  {
    hide Chars, TextOf, Paired, WidthsOk, Rest;
    if mode.WriteAttribute? || mode.FillAttribute? {
      var r := Colours(row, input);
      forall i | 0 <= i < r.taken ensures Coloured(r.cells[i], row[i], input[i]) {
        RepaintsTheRest(row[i], input[i]);
      }
    } else {
      CharsSpell(full, row, input);
      CharsPaired(full, row, input);
      CharsWidths(full, row, input);
      CharsKeepColours(full, row, input);
    }
  }

  // ------------------------------------------------------------------------ all rows

  /** The rows after filling, how much of the input they took and how many cells were written. */
  datatype Result = Result(rows: seq<seq<Cell>>, read: nat, modified: nat)

  /** The row with the cells written over it from column `x` on. */
  function Over(row: seq<Cell>, x: nat, cells: seq<Cell>): (r: seq<Cell>)
    requires x + |cells| <= |row|
    ensures |r| == |row|
  {
    row[..x] + cells + row[x + |cells|..]
  }

  /** Fills from column `x` of the first row, then from the left of each next row. */
  function Filled(mode: Mode, full: Unit -> bool, rows: seq<seq<Cell>>, x: nat, input: seq<Unit>): (r: Result)
    requires rows != [] ==> x <= |rows[0]|
    ensures |r.rows| == |rows| && r.read <= |input|
    decreases |rows|
  {
    if rows == [] || input == [] then Result(rows, 0, 0)
    else
      var f := RowFill(mode, full, rows[0][x..], input);
      var r := Filled(mode, full, rows[1..], 0, input[f.taken..]);
      Result([Over(rows[0], x, f.cells)] + r.rows, f.taken + r.read, |f.cells| + r.modified)
  }

  function Flat(rows: seq<seq<Cell>>): seq<Cell> {
    if rows == [] then [] else rows[0] + Flat(rows[1..])
  }

  /** The cells written, row after row. */
  function Run(mode: Mode, full: Unit -> bool, rows: seq<seq<Cell>>, x: nat, input: seq<Unit>): (r: seq<Cell>)
    requires rows != [] ==> x <= |rows[0]|
    ensures |r| == Filled(mode, full, rows, x, input).modified
    decreases |rows|
  {
    if rows == [] || input == [] then []
    else
      var f := RowFill(mode, full, rows[0][x..], input);
      f.cells + Run(mode, full, rows[1..], 0, input[f.taken..])
  }

  lemma RunJoins(row: seq<Cell>, x: nat, cells: seq<Cell>, tail: seq<Cell>, more: seq<Cell>)
    requires x + |cells| <= |row| && |more| <= |tail|
    requires more != [] ==> x + |cells| == |row|
    ensures var was, run := row + tail, cells + more;
      Over(row, x, cells) + (more + tail[|more|..]) == was[..x] + run + was[x + |run|..]
  {
    var was, run := row + tail, cells + more;
    assert was[..x] == row[..x];
    if more == [] {
      assert run == cells && was[x + |run|..] == row[x + |cells|..] + tail && tail[|more|..] == tail;
    } else {
      assert row[x + |cells|..] == [] && was[x + |run|..] == tail[|more|..];
    }
  }

  /** Only the run of cells from `x` on is replaced. */
  ghost predicate Replaces(now: seq<Cell>, was: seq<Cell>, x: nat, run: seq<Cell>) {
    x + |run| <= |was| && now == was[..x] + run + was[x + |run|..]
  }

  /** The filling replaces one contiguous run of cells from the start on; it ends early only at the end. */
  lemma {:induction false} FilledIsContiguous(mode: Mode, full: Unit -> bool, rows: seq<seq<Cell>>, x: nat,
                                              input: seq<Unit>)
    requires rows != [] ==> x <= |rows[0]|
    requires rows == [] ==> x == 0
    ensures var r, run := Filled(mode, full, rows, x, input), Run(mode, full, rows, x, input);
      && Replaces(Flat(r.rows), Flat(rows), x, run)
      && (r.read < |input| ==> x + |run| == |Flat(rows)|)
    decreases |rows|
  {
    hide RowFill, Over, Filled, Run, Flat;
    if rows != [] && input != [] {
      var f := RowFill(mode, full, rows[0][x..], input);
      var tail, more := Flat(rows[1..]), Run(mode, full, rows[1..], 0, input[f.taken..]);
      FilledIsContiguous(mode, full, rows[1..], 0, input[f.taken..]);
      FilledStep(mode, full, rows, x, input);
      assert tail[..0] + more + tail[0 + |more|..] == more + tail[|more|..];
      RunJoins(rows[0], x, f.cells, tail, more);
    } else {
      NothingFilled(mode, full, rows, x, input);
      var was := Flat(rows);
      assert was == was[..x] + [] + was[x..];
    }
  }

  /** One row of the filling and the rest of it. */
  lemma FilledStep(mode: Mode, full: Unit -> bool, rows: seq<seq<Cell>>, x: nat, input: seq<Unit>)
    requires rows != [] && input != [] && x <= |rows[0]|
    ensures var f := RowFill(mode, full, rows[0][x..], input);
      var s, r := Filled(mode, full, rows, x, input), Filled(mode, full, rows[1..], 0, input[f.taken..]);
      && s.read == f.taken + r.read && Flat(rows) == rows[0] + Flat(rows[1..])
      && Flat(s.rows) == Over(rows[0], x, f.cells) + Flat(r.rows)
      && Run(mode, full, rows, x, input) == f.cells + Run(mode, full, rows[1..], 0, input[f.taken..])
      && (input[f.taken..] == [] ==> r.read == 0 && Run(mode, full, rows[1..], 0, input[f.taken..]) == [])
  {
    hide RowFill, Over;
    var f := RowFill(mode, full, rows[0][x..], input);
    var r := Filled(mode, full, rows[1..], 0, input[f.taken..]);
    assert ([Over(rows[0], x, f.cells)] + r.rows)[1..] == r.rows;
  }

  lemma NothingFilled(mode: Mode, full: Unit -> bool, rows: seq<seq<Cell>>, x: nat, input: seq<Unit>)
    requires (rows == [] || input == []) && (rows != [] ==> x <= |rows[0]|) && (rows == [] ==> x == 0)
    ensures Filled(mode, full, rows, x, input) == Result(rows, 0, 0) && Run(mode, full, rows, x, input) == []
    ensures x <= |Flat(rows)| && (rows == [] ==> |Flat(rows)| == 0)
  {
  }

  /** What each row written took. */
  function Lines(full: Unit -> bool, rows: seq<seq<Cell>>, x: nat, input: seq<Unit>): seq<Fill>
    requires rows != [] ==> x <= |rows[0]|
    decreases |rows|
  {
    if rows == [] || input == [] then []
    else
      var f := Chars(full, rows[0][x..], input);
      [f] + Lines(full, rows[1..], 0, input[f.taken..])
  }

  function Cells(lines: seq<Fill>): seq<Cell> {
    if lines == [] then [] else lines[0].cells + Cells(lines[1..])
  }

  /** The text of the lines, without their padding. */
  function Spelled(lines: seq<Fill>): seq<Unit> {
    if lines == [] then []
    else
      var t := TextOf(lines[0].cells);
      (if lines[0].padded && t != [] then t[..|t| - 1] else t) + Spelled(lines[1..])
  }

  /** The run of cells is the lines one after another, and no line begins or ends inside a glyph. */
  lemma {:induction false} RunIsLines(mode: Mode, full: Unit -> bool, rows: seq<seq<Cell>>, x: nat, input: seq<Unit>)
    requires !Attributes(mode) && (rows != [] ==> x <= |rows[0]|)
    ensures var lines := Lines(full, rows, x, input);
      Run(mode, full, rows, x, input) == Cells(lines) && forall i :: 0 <= i < |lines| ==> Paired(lines[i].cells)
    decreases |rows|
  {
    hide Chars, Paired;
    if rows != [] && input != [] {
      var f := Chars(full, rows[0][x..], input);
      RunIsLines(mode, full, rows[1..], 0, input[f.taken..]);
      CharsPaired(full, rows[0][x..], input);
    }
  }

  lemma LineSpells(full: Unit -> bool, row: seq<Cell>, input: seq<Unit>, more: seq<Fill>)
    ensures var f := Chars(full, row, input); Spelled([f] + more) == input[..f.taken] + Spelled(more)
  {
    var f := Chars(full, row, input);
    hide Chars, TextOf;
    CharsSpell(full, row, input);
    assert ([f] + more)[1..] == more;
    assert input[..f.taken] + [] == input[..f.taken];
    assert (input[..f.taken] + [SPACE])[..f.taken] == input[..f.taken];
  }

  /** The lines spell exactly the part of the input reported as read, in order. */
  lemma {:induction false} LinesSpellTheInput(mode: Mode, full: Unit -> bool, rows: seq<seq<Cell>>, x: nat,
                                              input: seq<Unit>)
    requires !Attributes(mode) && (rows != [] ==> x <= |rows[0]|)
    ensures Spelled(Lines(full, rows, x, input)) == input[..Filled(mode, full, rows, x, input).read]
    decreases |rows|
  {
    hide Chars, Over, Spelled;
    if rows != [] && input != [] {
      var f := Chars(full, rows[0][x..], input);
      var rest := input[f.taken..];
      LinesSpellTheInput(mode, full, rows[1..], 0, rest);
      LineSpells(full, rows[0][x..], input, Lines(full, rows[1..], 0, rest));
      var r := Filled(mode, full, rows[1..], 0, rest).read;
      assert input[..f.taken + r] == input[..f.taken] + rest[..r];
    } else {
      NothingSpelled();
    }
  }

  lemma NothingSpelled()
    ensures Spelled([]) == []
  {
  }

  /** Attributes: cell by cell the input, with the flags and the characters left as they were. */
  lemma {:induction false} FilledPaints(mode: Mode, full: Unit -> bool, rows: seq<seq<Cell>>, x: nat, input: seq<Unit>)
    requires Attributes(mode) && (rows != [] ==> x <= |rows[0]|) && (rows == [] ==> x == 0)
    ensures var run, was := Run(mode, full, rows, x, input), Flat(rows);
      && |run| == Filled(mode, full, rows, x, input).read && x + |run| <= |was| && |run| <= |input|
      && forall i :: 0 <= i < |run| ==> run[i] == Repainted(was[x + i], input[i])
    decreases |rows|
  {
    hide Repainted, Over, Filled, Run, Flat, RowFill, Colours;
    if rows != [] && input != [] {
      var f := RowFill(mode, full, rows[0][x..], input);
      assert f == Colours(rows[0][x..], input) by { AttributesFill(mode, full, rows[0][x..], input); }
      FilledPaints(mode, full, rows[1..], 0, input[f.taken..]);
      FilledStep(mode, full, rows, x, input);
      PaintsJoin(rows[0], x, Flat(rows[1..]), input, f, Run(mode, full, rows[1..], 0, input[f.taken..]));
    } else {
      NothingFilled(mode, full, rows, x, input);
    }
  }

  /** The cells of one row and those of the rows below, painted from the input one after another. */
  lemma AttributesFill(mode: Mode, full: Unit -> bool, row: seq<Cell>, input: seq<Unit>)
    requires Attributes(mode)
    ensures RowFill(mode, full, row, input) == Colours(row, input)
  {
  }

  lemma PaintsJoin(row: seq<Cell>, x: nat, tail: seq<Cell>, input: seq<Unit>, f: Fill, more: seq<Cell>)
    requires x <= |row| && f == Colours(row[x..], input) && (more != [] ==> x + f.taken == |row|)
    requires |more| <= |tail| && f.taken + |more| <= |input|
    requires forall i :: 0 <= i < |more| ==> more[i] == Repainted(tail[i], input[f.taken..][i])
    ensures var run, was := f.cells + more, row + tail;
      forall i :: 0 <= i < |run| ==> x + i < |was| && run[i] == Repainted(was[x + i], input[i])
  {
    hide Repainted;
    var run, was := f.cells + more, row + tail;
    forall i | 0 <= i < |run| ensures x + i < |was| && run[i] == Repainted(was[x + i], input[i]) {
      if i < f.taken {
        assert run[i] == f.cells[i] && was[x + i] == row[x..][i];
      } else {
        assert run[i] == more[i - f.taken] && was[x + i] == tail[i - f.taken];
      }
    }
  }

  // ------------------------------------------------------------------------ the loops

  /** What writing characters over a row has done after `n` of them. */
  ghost predicate Filling(full: Unit -> bool, row: seq<Cell>, input: seq<Unit>, now: seq<Cell>, columns: nat, n: nat) {
    && |now| == |row| && columns <= |row| && n <= |input| && now[columns..] == row[columns..]
    && var f, g := Chars(full, row, input), Chars(full, row[columns..], input[n..]);
      f.cells == now[..columns] + g.cells && f.taken == n + g.taken
  }

  ghost predicate RowDone(full: Unit -> bool, row: seq<Cell>, input: seq<Unit>, now: seq<Cell>, columns: nat, n: nat) {
    columns <= |now| && now[..columns] == Chars(full, row, input).cells && n == Chars(full, row, input).taken
  }

  lemma FillsEnd(full: Unit -> bool, row: seq<Cell>, input: seq<Unit>, now: seq<Cell>, columns: nat, n: nat)
    requires Filling(full, row, input, now, columns, n) && (columns == |row| || n == |input|)
    ensures RowDone(full, row, input, now, columns, n)
  {
  }

  lemma FillsPad(full: Unit -> bool, row: seq<Cell>, input: seq<Unit>, now: seq<Cell>, columns: nat, n: nat)
    requires Filling(full, row, input, now, columns, n) && columns + 1 == |row| && n < |input| && Wide(full, input[n])
    ensures RowDone(full, row, input, now[columns := Narrow(now[columns], SPACE)], columns + 1, n)
  {
    assert now[columns] == now[columns..][0] == row[columns];
    var next := now[columns := Narrow(now[columns], SPACE)];
    assert next[..columns + 1] == now[..columns] + [next[columns]];
  }

  lemma FillsNarrow(full: Unit -> bool, row: seq<Cell>, input: seq<Unit>, now: seq<Cell>, columns: nat, n: nat)
    requires Filling(full, row, input, now, columns, n) && columns < |row| && n < |input| && !Wide(full, input[n])
    ensures Filling(full, row, input, now[columns := Narrow(now[columns], input[n])], columns + 1, n + 1)
  {
    assert now[columns] == now[columns..][0] == row[columns];
    var next := now[columns := Narrow(now[columns], input[n])];
    assert next[..columns + 1] == now[..columns] + [next[columns]];
    assert next[columns + 1..] == now[columns..][1..] == row[columns + 1..];
    assert row[columns..][1..] == row[columns + 1..] && input[n..][1..] == input[n + 1..];
  }

  lemma FillsWide(full: Unit -> bool, row: seq<Cell>, input: seq<Unit>, now: seq<Cell>, columns: nat, n: nat)
    requires Filling(full, row, input, now, columns, n) && columns + 1 < |row| && n < |input| && Wide(full, input[n])
    ensures Filling(full, row, input,
                    now[columns := Lead(now[columns], input[n])][columns + 1 := Trail(now[columns + 1], input[n])],
                    columns + 2, n + 1)
  {
    hide Wide, Lead, Trail, Narrow;
    assert now[columns] == now[columns..][0] == row[columns];
    assert now[columns + 1] == now[columns..][1] == row[columns + 1];
    var next := now[columns := Lead(now[columns], input[n])][columns + 1 := Trail(now[columns + 1], input[n])];
    assert next[..columns + 2] == now[..columns] + [next[columns], next[columns + 1]];
    assert next[columns + 2..] == now[columns..][2..] == row[columns + 2..];
    assert row[columns..][2..] == row[columns + 2..] && input[n..][1..] == input[n + 1..];
  }

  /** Characters one by one, wide ones in two columns. */
  method WriteChars(full: Unit -> bool, info: array<Cell>, available: nat, data: seq<Unit>, pos: nat)
    returns (columns: nat, next: nat)
    requires available <= info.Length && pos <= |data|
    modifies info
    ensures columns <= available && next >= pos
    ensures RowDone(full, old(info[..available]), data[pos..], info[..available], columns, next - pos)
  {
    hide Filling, RowDone, Chars;
    ghost var row := info[..available];
    columns, next := 0, pos;
    FillsStart(full, row, data[pos..]);
    while columns < available && next < |data|
      invariant columns <= available && pos <= next <= |data|
      invariant Filling(full, row, data[pos..], info[..available], columns, next - pos)
      decreases |data| - next
    {
      ghost var now := info[..available];
      var ch := data[next];
      assert ch == data[pos..][next - pos];
      if Wide(full, ch) {
        if columns + 1 >= available {
          FillsPad(full, row, data[pos..], now, columns, next - pos);
          info[columns] := Narrow(info[columns], SPACE);
          assert info[..available] == now[columns := Narrow(now[columns], SPACE)];
          columns := columns + 1;
          return;
        }
        FillsWide(full, row, data[pos..], now, columns, next - pos);
        info[columns] := Lead(info[columns], ch);
        columns := columns + 1;
        info[columns] := Trail(info[columns], ch);
        columns := columns + 1;
        assert info[..available]
            == now[columns - 2 := Lead(now[columns - 2], ch)][columns - 1 := Trail(now[columns - 1], ch)];
      } else {
        FillsNarrow(full, row, data[pos..], now, columns, next - pos);
        info[columns] := Narrow(info[columns], ch);
        assert info[..available] == now[columns := Narrow(now[columns], ch)];
        columns := columns + 1;
      }
      next := next + 1;
    }
    FillsEnd(full, row, data[pos..], info[..available], columns, next - pos);
  }

  lemma FillsStart(full: Unit -> bool, row: seq<Cell>, input: seq<Unit>)
    ensures Filling(full, row, input, row, 0, 0)
  {
    assert row[0..] == row && input[0..] == input;
  }

  /** The loop over one wide glyph; a last column on its own is left blank. */
  method FillWide(full: Unit -> bool, info: array<Cell>, available: nat, ch: Unit, length: nat, pos: nat)
    returns (columns: nat, next: nat)
    requires available <= info.Length && pos <= length && Wide(full, ch)
    modifies info
    ensures columns <= available && next >= pos
    ensures RowDone(full, old(info[..available]), Repeat(ch, length)[pos..], info[..available], columns, next - pos)
  {
    hide Filling, RowDone, Chars, Wide, Narrow, Lead, Trail;
    ghost var row, input := info[..available], Repeat(ch, length)[pos..];
    columns, next := 0, pos;
    FillsStart(full, row, input);
    while columns < available && next < length
      invariant columns <= available && pos <= next <= length
      invariant Filling(full, row, input, info[..available], columns, next - pos)
    {
      ghost var now := info[..available];
      if columns + 1 >= available {
        FillsPad(full, row, input, now, columns, next - pos);
        info[columns] := Narrow(info[columns], SPACE);
        assert info[..available] == now[columns := Narrow(now[columns], SPACE)];
        columns := columns + 1;
        return;
      }
      FillsWide(full, row, input, now, columns, next - pos);
      info[columns] := Lead(info[columns], ch);
      columns := columns + 1;
      info[columns] := Trail(info[columns], ch);
      columns := columns + 1;
      assert info[..available]
          == now[columns - 2 := Lead(now[columns - 2], ch)][columns - 1 := Trail(now[columns - 1], ch)];
      next := next + 1;
    }
    FillsEnd(full, row, input, info[..available], columns, next - pos);
  }

  /** The loop over one narrow character. */
  method FillNarrow(full: Unit -> bool, info: array<Cell>, available: nat, ch: Unit, length: nat, pos: nat)
    returns (columns: nat, next: nat)
    requires available <= info.Length && pos <= length && !Wide(full, ch)
    modifies info
    ensures columns <= available && next >= pos
    ensures RowDone(full, old(info[..available]), Repeat(ch, length)[pos..], info[..available], columns, next - pos)
  {
    hide Filling, RowDone, Chars, Wide, Narrow, Lead, Trail;
    ghost var row, input := info[..available], Repeat(ch, length)[pos..];
    columns, next := 0, pos;
    FillsStart(full, row, input);
    while columns < available && next < length
      invariant columns <= available && pos <= next <= length
      invariant Filling(full, row, input, info[..available], columns, next - pos)
    {
      ghost var now := info[..available];
      FillsNarrow(full, row, input, now, columns, next - pos);
      info[columns] := Narrow(info[columns], ch);
      assert info[..available] == now[columns := Narrow(now[columns], ch)];
      columns := columns + 1;
      next := next + 1;
    }
    FillsEnd(full, row, input, info[..available], columns, next - pos);
  }

  /** The same character over and over; whether it is wide is asked once. */
  method FillChars(full: Unit -> bool, info: array<Cell>, available: nat, ch: Unit, length: nat, pos: nat)
    returns (columns: nat, next: nat)
    requires available <= info.Length && pos <= length
    modifies info
    ensures columns <= available && next >= pos
    ensures RowDone(full, old(info[..available]), Repeat(ch, length)[pos..], info[..available], columns, next - pos)
  {
    hide RowDone, Wide;
    if Wide(full, ch) {
      columns, next := FillWide(full, info, available, ch, length, pos);
    } else {
      columns, next := FillNarrow(full, info, available, ch, length, pos);
    }
  }

  /** Attributes cell by cell; only the flags of the cells stay. */
  method WriteColours(info: array<Cell>, available: nat, data: seq<Unit>, fill: bool, length: nat, pos: nat)
    returns (columns: nat, next: nat)
    requires available <= info.Length && pos < length && |data| >= if fill then 1 else length
    modifies info
    ensures var input := if fill then Repeat(data[0], length) else data[..length];
      var f := Colours(old(info[..available]), input[pos..]);
      columns == |f.cells| && next == pos + f.taken && info[..columns] == f.cells
  {
    ghost var row, input := info[..available], if fill then Repeat(data[0], length) else data[..length];
    columns, next := 0, pos;
    while columns < available && next < length
      invariant columns <= available && pos <= next <= length && columns == next - pos
      invariant forall i :: 0 <= i < columns ==> info[i] == Repainted(row[i], input[pos + i])
      invariant forall i :: columns <= i < available ==> info[i] == row[i]
    {
      var word := if fill then data[0] else data[next];
      info[columns] := Repainted(info[columns], word);
      columns, next := columns + 1, next + 1;
    }
  }

  /** What has been done when row `y` is next: `was` are the rows from the start on, `now` what they are. */
  ghost predicate Progress(mode: Mode, full: Unit -> bool, was: seq<seq<Cell>>, x: nat, input: seq<Unit>,
                           now: seq<seq<Cell>>, y: nat, pos: nat, modified: nat)
    requires was != [] ==> x <= |was[0]|
  {
    && |now| == |was| && y <= |was| && pos <= |input| && now[y..] == was[y..]
    && (y == 0 ==> pos == 0 && modified == 0)
    && var r := Filled(mode, full, was, x, input);
      var left := Filled(mode, full, was[y..], if y == 0 then x else 0, input[pos..]);
      r.rows == now[..y] + left.rows && r.read == pos + left.read && r.modified == modified + left.modified
  }

  lemma Halves(rows: seq<seq<Cell>>, y: nat)
    requires y <= |rows|
    ensures rows == rows[..y] + rows[y..]
  {
  }

  lemma ProgressStart(mode: Mode, full: Unit -> bool, was: seq<seq<Cell>>, x: nat, input: seq<Unit>)
    requires was != [] ==> x <= |was[0]|
    ensures Progress(mode, full, was, x, input, was, 0, 0, 0)
  {
    assert was[0..] == was && input[0..] == input;
  }

  lemma ProgressNext(mode: Mode, full: Unit -> bool, was: seq<seq<Cell>>, x: nat, input: seq<Unit>,
                     now: seq<seq<Cell>>, y: nat, pos: nat, modified: nat)
    requires (was != [] ==> x <= |was[0]|) && Progress(mode, full, was, x, input, now, y, pos, modified)
    requires y < |was| && pos < |input|
    ensures var begin := if y == 0 then x else 0;
      && begin <= |now[y]|
      && var f := RowFill(mode, full, now[y][begin..], input[pos..]);
        Progress(mode, full, was, x, input, now[y := Over(now[y], begin, f.cells)], y + 1, pos + f.taken,
                 modified + |f.cells|)
  {
    hide RowFill, Over, Filled;
    var begin := if y == 0 then x else 0;
    assert now[y] == now[y..][0] == was[y];
    var f := RowFill(mode, full, now[y][begin..], input[pos..]);
    var next := now[y := Over(now[y], begin, f.cells)];
    FilledHead(mode, full, was[y..], begin, input[pos..]);
    assert next[..y + 1] == now[..y] + [Over(now[y], begin, f.cells)];
    assert next[y + 1..] == now[y..][1..] == was[y + 1..];
    assert was[y..][1..] == was[y + 1..] && input[pos..][f.taken..] == input[pos + f.taken..];
  }

  lemma FilledHead(mode: Mode, full: Unit -> bool, rows: seq<seq<Cell>>, x: nat, input: seq<Unit>)
    requires rows != [] && input != [] && x <= |rows[0]|
    ensures var f := RowFill(mode, full, rows[0][x..], input);
      var r := Filled(mode, full, rows[1..], 0, input[f.taken..]);
      Filled(mode, full, rows, x, input)
      == Result([Over(rows[0], x, f.cells)] + r.rows, f.taken + r.read, |f.cells| + r.modified)
  {
    hide RowFill, Over;
  }

  lemma ProgressEnd(mode: Mode, full: Unit -> bool, was: seq<seq<Cell>>, x: nat, input: seq<Unit>,
                    now: seq<seq<Cell>>, y: nat, pos: nat, modified: nat)
    requires (was != [] ==> x <= |was[0]|) && Progress(mode, full, was, x, input, now, y, pos, modified)
    requires y == |was| || pos == |input|
    ensures Filled(mode, full, was, x, input) == Result(now, pos, modified)
  {
    assert now == now[..y] + now[y..];
  }

  class Screen {
    var rows: seq<seq<Cell>>
    const width: nat
    const height: nat

    constructor (width: nat, height: nat, blank: Cell)
      requires width > 0
      ensures Valid() && this.width == width && this.height == height
    {
      this.width, this.height := width, height;
      rows := seq(height, _ => seq(width, _ => blank));
    }

    ghost predicate Valid()
      reads this
    {
      width > 0 && |rows| == height && forall i :: 0 <= i < height ==> |rows[i]| == width
    }

    /** Fills one row from column `x` on. */
    method FillRow(mode: Mode, full: Unit -> bool, data: seq<Unit>, length: nat, pos: nat, x: nat, y: nat)
      returns (columns: nat, next: nat)
      requires Valid() && x < width && y < height && pos < length
      requires |data| >= if mode.FillAttribute? || mode.FillCharacter? then 1 else length
      modifies this`rows
      ensures Valid()
      ensures var f := RowFill(mode, full, old(rows[y][x..]), Input(mode, data, length)[pos..]);
        columns == |f.cells| && next == pos + f.taken && rows == old(rows)[y := Over(old(rows[y]), x, f.cells)]
    {
      hide Chars, Repainted;
      var row, available := rows[y], width - x;
      var info := new Cell[available](i requires 0 <= i < available => row[x + i]);
      assert info[..available] == row[x..];
      ghost var f := RowFill(mode, full, row[x..], Input(mode, data, length)[pos..]);
      match mode {
      case WriteAttribute => columns, next := WriteColours(info, available, data, false, length, pos);
      case FillAttribute => columns, next := WriteColours(info, available, data, true, length, pos);
      case WriteCharacter => columns, next := WriteChars(full, info, available, data[..length], pos);
      case FillCharacter => columns, next := FillChars(full, info, available, data[0], length, pos);
      }
      assert info[..available][..columns] == info[..columns];
      assert info[..columns] == f.cells && columns == |f.cells|;
      rows := rows[y := Over(row, x, info[..columns])];
    }

    /** The rows from the position on, one after another. */
    method FillRows(mode: Mode, full: Unit -> bool, data: seq<Unit>, length: nat, x: nat, y: nat)
      returns (read: nat, modified: nat)
      requires Valid() && x < width && y < height && length > 0
      requires |data| >= if mode.FillAttribute? || mode.FillCharacter? then 1 else length
      modifies this`rows
      ensures Valid() && rows[..y] == old(rows[..y])
      ensures Filled(mode, full, old(rows[y..]), x, Input(mode, data, length)) == Result(rows[y..], read, modified)
    {
      hide Filled, RowFill, Over, Progress, Input;
      ghost var input, was := Input(mode, data, length), rows[y..];
      var row := y;
      read, modified := 0, 0;
      ProgressStart(mode, full, was, x, input);
      while row < height && read < length
        invariant y <= row <= height && read <= length && Valid() && rows[..y] == old(rows[..y])
        invariant Progress(mode, full, was, x, input, rows[y..], row - y, read, modified)
        decreases height - row
      {
        ghost var now := rows[y..];
        ProgressNext(mode, full, was, x, input, now, row - y, read, modified);
        assert rows[row] == now[row - y];
        var columns, next := FillRow(mode, full, data, length, read, if row == y then x else 0, row);
        assert rows[y..] == now[row - y := rows[row]];
        row, read, modified := row + 1, next, modified + columns;
      }
      ProgressEnd(mode, full, was, x, input, rows[y..], row - y, read, modified);
    }

    /**
     Fills from a position on. The rows below the position become those of the filling, the rows
     above stay, and the counts are its counts; outside the buffer nothing happens.
     */
    method FillConsole(mode: Mode, full: Unit -> bool, data: seq<Unit>, length: nat, x: int, y: int)
      returns (read: nat, modified: nat)
      requires Valid()
      requires length > 0 ==> |data| >= if mode.FillAttribute? || mode.FillCharacter? then 1 else length
      modifies this`rows
      ensures Valid()
      ensures if length == 0 || !(0 <= x < width && 0 <= y < height) then read == modified == 0 && rows == old(rows)
        else
          var r := Filled(mode, full, old(rows)[y..], x, Input(mode, data, length));
          rows == old(rows)[..y] + r.rows && read == r.read && modified == r.modified
    {
      read, modified := 0, 0;
      if length == 0 || !(0 <= x < width && 0 <= y < height) {
        return;
      }
      hide Filled, Input;
      read, modified := FillRows(mode, full, data, length, x, y);
      Halves(rows, y);
    }
  }
}
