/**
 Writing a rectangle of cells: the part of it inside the screen buffer is sent row by row, each row
 a slice of the caller's row.
 */
module CellBlocks {
  import opened Numbers
  import opened VtText
  import opened CellRows
  import opened CellOutput
  import opened CellTerminal

  /** A rectangle without its right column and bottom row. */
  datatype Rect = Rect(left: int, top: int, right: int, bottom: int)

  datatype Outcome = Rejected | Nothing | Wrote(area: Rect)

  ghost predicate Holds(r: Rect, x: int, y: int) {
    r.left <= x < r.right && r.top <= y < r.bottom
  }

  function Clip(a: Rect, b: Rect): (r: Rect)
    ensures forall x, y :: Holds(r, x, y) <==> Holds(a, x, y) && Holds(b, x, y)
  {
    Rect(Max(a.left, b.left), Max(a.top, b.top), Min(a.right, b.right), Min(a.bottom, b.bottom))
  }

  predicate NonEmpty(r: Rect) {
    r.left < r.right && r.top < r.bottom
  }

  /** Where the caller's cells for row `k` of the clipped area begin. */
  function Offset(request: Rect, area: Rect, stride: int, k: int): int {
    (area.top - request.top + k) * stride + (area.left - request.left)
  }

  /** The caller's cells reach as far as the last clipped row. */
  predicate Reaches(cells: seq<Cell>, stride: int, request: Rect, area: Rect) {
    NonEmpty(area) ==> Offset(request, area, stride, area.bottom - area.top - 1) + (area.right - area.left) <= |cells|
  }

  lemma OffsetInRange(request: Rect, area: Rect, stride: int, k: nat, last: nat)
    requires stride > 0 && k <= last && request.top <= area.top && request.left <= area.left
    ensures 0 <= Offset(request, area, stride, k) <= Offset(request, area, stride, last)
  {
    var a, b := area.top - request.top + k, area.top - request.top + last;
    assert a * stride <= b * stride by {
      assert b * stride - a * stride == (b - a) * stride;
    }
  }

  ghost function RowSlice(cells: seq<Cell>, stride: int, request: Rect, area: Rect, k: nat): (r: seq<Cell>)
    requires stride > 0 && NonEmpty(area) && k < area.bottom - area.top && Reaches(cells, stride, request, area)
    requires request.top <= area.top && request.left <= area.left
    ensures |r| == area.right - area.left
  {
    OffsetInRange(request, area, stride, k, area.bottom - area.top - 1);
    var at := Offset(request, area, stride, k);
    cells[at..at + (area.right - area.left)]
  }

  function Join(rows: seq<seq<Piece>>): seq<Piece> {
    if rows == [] then [] else Join(rows[..|rows| - 1]) + rows[|rows| - 1]
  }

  /** The terminal shows exactly one column for each cell, and in it what the cell says. */
  ghost predicate Shows(ps: seq<Piece>, cells: seq<Cell>) {
    Screen(ps) == ExpectedRow(cells, |cells|)
  }

  /** The caller's cells for each row of the clipped area. */
  ghost function Slices(cells: seq<Cell>, stride: int, request: Rect, area: Rect): (r: seq<seq<Cell>>)
    requires stride > 0 && NonEmpty(area) && Reaches(cells, stride, request, area)
    requires request.top <= area.top && request.left <= area.left
    ensures |r| == area.bottom - area.top
    ensures forall k :: 0 <= k < |r| ==> r[k] == RowSlice(cells, stride, request, area, k)
  {
    seq(area.bottom - area.top, k requires 0 <= k < area.bottom - area.top => RowSlice(cells, stride, request, area, k))
  }

  /** What is sent for the rows, one below the other from (x, y). */
  function RowPieces(slices: seq<seq<Cell>>, x: nat, y: nat): (r: seq<seq<Piece>>)
    ensures |r| == |slices| && forall k :: 0 <= k < |r| ==> r[k] == PiecesFor(x, y + k, slices[k], |slices[k]|)
  {
    seq(|slices|, k requires 0 <= k < |slices| => PiecesFor(x, y + k, slices[k], |slices[k]|))
  }

  /** The bytes of one more row. */
  lemma NextRow(rows: seq<seq<Piece>>, k: nat, look: Attr -> Look)
    requires k < |rows|
    ensures RenderAll(Items(look, Join(rows[..k + 1])))
         == RenderAll(Items(look, Join(rows[..k]))) + RenderAll(Items(look, rows[k]))
  {
    hide RenderAll, Items;
    var more := rows[..k + 1];
    assert more[..|more| - 1] == rows[..k] && more[|more| - 1] == rows[k];
    BytesAppend(look, Join(rows[..k]), rows[k]);
  }

  lemma OffsetNext(request: Rect, area: Rect, stride: int, k: int)
    ensures Offset(request, area, stride, k + 1) == Offset(request, area, stride, k) + stride
  {
  }

  /** Sends the rows of the area, top to bottom, each at its place. */
  method SendRows(cells: seq<Cell>, stride: int, request: Rect, area: Rect, look: Attr -> Look) returns (out: seq<Byte>)
    requires stride > 0 && NonEmpty(area) && Reaches(cells, stride, request, area)
    requires request.top <= area.top && request.left <= area.left && 0 <= area.top && 0 <= area.left
    ensures out == RenderAll(Items(look, Join(RowPieces(Slices(cells, stride, request, area), area.left, area.top))))
  {
    hide RenderAll, Read, Acts, AllWanted, Items, Join, Offset, Slices, RowPieces, Reaches, PiecesFor;
    out := [];
    var columns := area.right - area.left;
    var totalOffset := Offset(request, area, stride, 0);
    ghost var slices := Slices(cells, stride, request, area);
    ghost var rows := RowPieces(slices, area.left, area.top);
    NoRows(look);
    for y := area.top to area.bottom
      invariant totalOffset == Offset(request, area, stride, y - area.top)
      invariant out == RenderAll(Items(look, Join(rows[..y - area.top])))
    {
      RowAt(cells, stride, request, area, y - area.top);
      var bytes := WriteInfos(area.left, y, cells[totalOffset..totalOffset + columns], look);
      NextRow(rows, y - area.top, look);
      OffsetNext(request, area, stride, y - area.top);
      out := out + bytes;
      totalOffset := totalOffset + stride;
    }
    assert rows[..|rows|] == rows;
  }

  lemma RowAt(cells: seq<Cell>, stride: int, request: Rect, area: Rect, k: nat)
    requires stride > 0 && NonEmpty(area) && Reaches(cells, stride, request, area) && k < area.bottom - area.top
    requires request.top <= area.top && request.left <= area.left && 0 <= area.top && 0 <= area.left
    ensures var at, n := Offset(request, area, stride, k), area.right - area.left;
      && 0 <= at <= at + n <= |cells|
      && RowPieces(Slices(cells, stride, request, area), area.left, area.top)[k]
         == PiecesFor(area.left, area.top + k, cells[at..at + n], n)
  {
    hide PiecesFor;
    OffsetInRange(request, area, stride, k, area.bottom - area.top - 1);
  }

  lemma NoRows(look: Attr -> Look)
    ensures RenderAll(Items(look, Join([]))) == []
  {
  }

  /** Sends the part of the rectangle inside the screen buffer. */
  method WriteRows(cells: seq<Cell>, stride: int, request: Rect, width: nat, height: nat, look: Attr -> Look)
    returns (r: Outcome, out: seq<Byte>)
    requires var area := Clip(Rect(0, 0, width, height), request);
      stride > 0 && (area.bottom - area.top) * stride <= |cells| ==> Reaches(cells, stride, request, area)
    ensures var area := Clip(Rect(0, 0, width, height), request);
      if stride <= 0 then r == Rejected && out == []
      else if !NonEmpty(area) then r == Nothing && out == []
      else if |cells| < (area.bottom - area.top) * stride then r == Rejected && out == []
      else r == Wrote(area)
           && out == RenderAll(Items(look, Join(RowPieces(Slices(cells, stride, request, area), area.left, area.top))))
  {
    hide RenderAll, Reaches, Items, Join, Slices, Offset, RowPieces;
    out := [];
    if stride <= 0 {
      return Rejected, out;
    }
    var area := Clip(Rect(0, 0, width, height), request);
    if !NonEmpty(area) {
      return Nothing, out;
    }
    if |cells| < (area.bottom - area.top) * stride {
      return Rejected, out;
    }
    out := SendRows(cells, stride, request, area, look);
    r := Wrote(area);
  }

  /**
   The code's size test counts the clipped rows only: whatever passes it reaches the last row exactly
   when no row is clipped at the top and the caller's rows are as wide as the area reaches.
   */
  lemma SizeTestSufficesExactlyWhen(stride: int, request: Rect, area: Rect, c: Cell)
    requires stride > 0 && NonEmpty(area) && request.top <= area.top && request.left <= area.left
    ensures (forall cells: seq<Cell> ::
               (area.bottom - area.top) * stride <= |cells| ==> Reaches(cells, stride, request, area))
       <==> area.top == request.top && area.right - request.left <= stride
  {
    var rows, skipped := area.bottom - area.top, area.top - request.top;
    assert (skipped + (rows - 1)) * stride == skipped * stride + (rows * stride - stride);
    if skipped > 0 {
      assert skipped * stride >= stride by {
        RowBounds(stride, 0, skipped);
      }
    }
    assert rows * stride >= 0;
    var fewest := seq(rows * stride, _ => c);
    assert Reaches(fewest, stride, request, area) <==> skipped == 0 && area.right - request.left <= stride;
  }

  /** A buffer that passes the size test and is too short: one row above the screen and one on it. */
  lemma SizeTestCanPassTooFew(c: Cell)
    ensures var request := Rect(0, -1, 1, 1);
      var area := Clip(Rect(0, 0, 1, 1), request);
      NonEmpty(area) && (area.bottom - area.top) * 1 <= |[c]| && !Reaches([c], 1, request, area)
  {
  }

  /** Every row of the clipped area lies inside one row of the caller. */
  lemma SliceOfRow(cells: seq<Cell>, request: Rect, area: Rect, stride: nat, k: nat)
    requires stride == request.right - request.left && stride > 0 && NonEmpty(area)
    requires request.top <= area.top && request.left <= area.left && area.right <= request.right
    requires area.bottom <= request.bottom
    requires (request.bottom - request.top) * stride <= |cells| && k < area.bottom - area.top
    ensures Reaches(cells, stride, request, area)
    ensures var i, from := area.top - request.top + k, area.left - request.left;
      i * stride + stride <= |cells|
      && RowSlice(cells, stride, request, area, k) == RowOf(cells, stride, i)[from..from + (area.right - area.left)]
  {
    var i, from := area.top - request.top + k, area.left - request.left;
    var last := area.bottom - request.top - 1;
    RowBounds(stride, i, request.bottom - request.top);
    RowBounds(stride, last, request.bottom - request.top);
    assert Offset(request, area, stride, area.bottom - area.top - 1) == last * stride + from;
    assert Offset(request, area, stride, k) == i * stride + from;
    SliceOfSlice(cells, i * stride, stride, from, area.right - area.left);
  }

  lemma SliceOfSlice(cells: seq<Cell>, at: nat, n: nat, from: nat, count: nat)
    requires at + n <= |cells| && from + count <= n
    ensures cells[at..at + n][from..from + count] == cells[at + from..at + from + count]
  {
    var a, b := cells[at..at + n][from..from + count], cells[at + from..at + from + count];
    assert |a| == |b| && forall j :: 0 <= j < count ==> a[j] == b[j];
  }

  /** Every column of every row shows what its cell says, also where the clipping cuts a glyph. */
  ghost predicate AllShown(rows: seq<seq<Piece>>, slices: seq<seq<Cell>>) {
    |rows| == |slices| && forall k :: 0 <= k < |rows| ==> Shows(rows[k], slices[k])
  }

  /** Slices of paired rows keep the order their showing needs. */
  lemma SlicesInOrder(cells: seq<Cell>, stride: nat, request: Rect, area: Rect, k: nat)
    requires stride == request.right - request.left && stride > 0 && NonEmpty(area)
    requires request.top <= area.top && request.left <= area.left && area.right <= request.right
    requires area.bottom <= request.bottom
    requires (request.bottom - request.top) * stride <= |cells|
    requires RowsPaired(cells, stride, request.bottom - request.top)
    requires Reaches(cells, stride, request, area) && k < area.bottom - area.top
    ensures Slice(Slices(cells, stride, request, area)[k])
  {
    hide Paired, Slice, Reaches, Offset, RowSlice;
    var i := area.top - request.top + k;
    SliceOfRow(cells, request, area, stride, k);
    RowBounds(stride, i, request.bottom - request.top);
    SliceOfPaired(RowOf(cells, stride, i), area.left - request.left, area.right - request.left);
  }

  lemma ShownInOrder(slices: seq<seq<Cell>>, x: nat, y: nat, look: Attr -> Look)
    requires forall k :: 0 <= k < |slices| ==> Slice(slices[k])
    ensures AllShown(RowPieces(slices, x, y), slices)
  {
    hide Slice, PiecesFor, ExpectedRow, Screen;
    var rows := RowPieces(slices, x, y);
    forall k | 0 <= k < |rows| ensures Shows(rows[k], slices[k]) {
      PiecesShowCells(look, x, y + k, slices[k]);
    }
  }

  // ---------------------------------------------------------------- what the terminal does

  ghost function Flat(parts: seq<seq<Act>>): seq<Act> {
    if parts == [] then [] else Flat(parts[..|parts| - 1]) + parts[|parts| - 1]
  }

  /** `s` are the caller's cells for row `y` of the area: each stands in the request where it is to be shown. */
  ghost predicate CellsOfRow(cells: seq<Cell>, stride: int, request: Rect, area: Rect, y: int, s: seq<Cell>) {
    && |s| == area.right - area.left
    && forall j :: 0 <= j < |s| ==>
         var at := (y - request.top) * stride + (area.left + j - request.left);
         0 <= at < |cells| && s[j] == cells[at]
  }

  /** The terminal goes to column `x` of row `y`, counted from 1 there, and shows the cells from there on. */
  ghost predicate RowDrawn(acts: seq<Act>, s: seq<Cell>, x: int, y: int, look: Attr -> Look) {
    && acts != [] && acts[0] == Goes(y + 1, x + 1)
    && (forall j :: 0 < j < |acts| ==> acts[j].Looks? || acts[j].Shows?)
    && forall before :: Spelled(acts, before) == Filling(ExpectedRow(s, |s|), look)
  }

  ghost predicate RowOfBlock(acts: seq<Act>, cells: seq<Cell>, stride: int, request: Rect, area: Rect, y: int,
                             look: Attr -> Look) {
    exists s :: CellsOfRow(cells, stride, request, area, y, s) && RowDrawn(acts, s, area.left, y, look)
  }

  /** What the terminal does is to draw the rows of the area, top to bottom, and nothing else. */
  ghost predicate BlockDrawn(acts: seq<Act>, cells: seq<Cell>, stride: int, request: Rect, area: Rect,
                             look: Attr -> Look) {
    exists parts: seq<seq<Act>> ::
      && |parts| == area.bottom - area.top && acts == Flat(parts)
      && forall k :: 0 <= k < |parts| ==> RowOfBlock(parts[k], cells, stride, request, area, area.top + k, look)
  }

  ghost function AllDoing(look: Attr -> Look, rows: seq<seq<Piece>>): (r: seq<seq<Act>>)
    ensures |r| == |rows| && forall k :: 0 <= k < |r| ==> r[k] == Doing(look, rows[k])
  {
    seq(|rows|, k requires 0 <= k < |rows| => Doing(look, rows[k]))
  }

  /** The actions of the rows, one after the other. */
  lemma {:induction false} JoinedDoing(look: Attr -> Look, rows: seq<seq<Piece>>)
    ensures Doing(look, Join(rows)) == Flat(AllDoing(look, rows))
  {
    var parts := AllDoing(look, rows);
    if rows == [] {
      assert Doing(look, []) == [];
    } else {
      var front, last := rows[..|rows| - 1], rows[|rows| - 1];
      JoinedDoing(look, front);
      assert parts[..|parts| - 1] == AllDoing(look, front);
      DoingConcat(look, Join(front), last);
    }
  }

  lemma DoingConcat(look: Attr -> Look, a: seq<Piece>, b: seq<Piece>)
    ensures Doing(look, a + b) == Doing(look, a) + Doing(look, b)
  {
    assert Items(look, a + b) == Items(look, a) + Items(look, b);
  }

  /** One row: its pieces are drawn. */
  lemma RowIsDrawn(s: seq<Cell>, x: nat, y: nat, look: Attr -> Look)
    requires Slice(s)
    ensures RowDrawn(Doing(look, PiecesFor(x, y, s, |s|)), s, x, y, look)
  {
    hide Slice, PiecesFor, ExpectedRow, Filling, Spelled, Acts, Read, RenderAll, AllWanted;
    var ps := PiecesFor(x, y, s, |s|);
    PiecesShowCells(look, x, y, s);
    forall before ensures Acts(Read(RenderAll(Items(look, ps))), before) == Doing(look, ps)
      && Spelled(Doing(look, ps), before) == Filling(ExpectedRow(s, |s|), look) {
      ReadsBack(Items(look, ps), before);
      TerminalShowsCells(look, x, y, s, before);
    }
    TerminalShowsCells(look, x, y, s, PLAIN);
  }

  lemma SliceIsRow(cells: seq<Cell>, stride: nat, request: Rect, area: Rect, k: nat)
    requires stride == request.right - request.left && stride > 0 && NonEmpty(area)
    requires request.top <= area.top && request.left <= area.left && k < area.bottom - area.top
    requires Reaches(cells, stride, request, area)
    ensures CellsOfRow(cells, stride, request, area, area.top + k, RowSlice(cells, stride, request, area, k))
  {
    OffsetInRange(request, area, stride, k, area.bottom - area.top - 1);
  }

  /** On reading the bytes of the area the terminal draws the block, whatever its look before. */
  lemma AreaDrawn(cells: seq<Cell>, stride: nat, request: Rect, area: Rect, look: Attr -> Look, before: Look)
    requires stride == request.right - request.left && stride > 0 && NonEmpty(area) && 0 <= area.left && 0 <= area.top
    requires request.top <= area.top && request.left <= area.left && area.right <= request.right
    requires area.bottom <= request.bottom
    requires (request.bottom - request.top) * stride <= |cells|
    requires RowsPaired(cells, stride, request.bottom - request.top)
    requires Reaches(cells, stride, request, area)
    ensures var rows := RowPieces(Slices(cells, stride, request, area), area.left, area.top);
      BlockDrawn(Acts(Read(RenderAll(Items(look, Join(rows)))), before), cells, stride, request, area, look)
  {
    hide RowsPaired, Offset, Reaches, RenderAll, Items, Acts, Read, Join, RowOfBlock, Flat, Slices, RowPieces;
    hide BlockDrawn;
    var slices := Slices(cells, stride, request, area);
    var parts := AllDoing(look, RowPieces(slices, area.left, area.top));
    RowsDrawn(slices, area.left, area.top, look, before);
    forall k | 0 <= k < |parts| ensures RowOfBlock(parts[k], cells, stride, request, area, area.top + k, look) {
      RowOfBlockDrawn(cells, stride, request, area, look, k);
    }
    PartsDraw(parts, cells, stride, request, area, look);
  }

  lemma PartsDraw(parts: seq<seq<Act>>, cells: seq<Cell>, stride: int, request: Rect, area: Rect, look: Attr -> Look)
    requires |parts| == area.bottom - area.top
    requires forall k :: 0 <= k < |parts| ==>
      RowOfBlock(parts[k], cells, stride, request, area, area.top + k, look)
    ensures BlockDrawn(Flat(parts), cells, stride, request, area, look)
  {
    hide RowOfBlock, Flat;
  }

  lemma RowOfBlockDrawn(cells: seq<Cell>, stride: nat, request: Rect, area: Rect, look: Attr -> Look, k: nat)
    requires stride == request.right - request.left && stride > 0 && NonEmpty(area) && 0 <= area.left && 0 <= area.top
    requires request.top <= area.top && request.left <= area.left && area.right <= request.right
    requires area.bottom <= request.bottom && k < area.bottom - area.top
    requires (request.bottom - request.top) * stride <= |cells|
    requires RowsPaired(cells, stride, request.bottom - request.top)
    requires Reaches(cells, stride, request, area)
    ensures var rows := RowPieces(Slices(cells, stride, request, area), area.left, area.top);
      RowOfBlock(AllDoing(look, rows)[k], cells, stride, request, area, area.top + k, look)
  {
    hide RowsPaired, Slice, Offset, Reaches, PiecesFor, RowSlice, CellsOfRow, RowDrawn, Doing;
    var s := Slices(cells, stride, request, area)[k];
    SlicesInOrder(cells, stride, request, area, k);
    RowIsDrawn(s, area.left, area.top + k, look);
    SliceIsRow(cells, stride, request, area, k);
  }

  lemma RowsDrawn(slices: seq<seq<Cell>>, x: nat, y: nat, look: Attr -> Look, before: Look)
    ensures var rows := RowPieces(slices, x, y);
      Acts(Read(RenderAll(Items(look, Join(rows)))), before) == Flat(AllDoing(look, rows))
  {
    hide RenderAll, Items, Acts, Read, Join, PiecesFor, Flat, Doing, Printable;
    var rows := RowPieces(slices, x, y);
    forall k | 0 <= k < |rows| ensures Printable(Items(look, rows[k])) {
      PiecesShowCells(look, x, y + k, slices[k]);
    }
    JoinedPrintable(look, rows);
    ActsDoing(look, Join(rows), before);
    JoinedDoing(look, rows);
  }

  lemma {:induction false} JoinedPrintable(look: Attr -> Look, rows: seq<seq<Piece>>)
    requires forall k :: 0 <= k < |rows| ==> Printable(Items(look, rows[k]))
    ensures Printable(Items(look, Join(rows)))
  {
    if rows != [] {
      var front, last := rows[..|rows| - 1], rows[|rows| - 1];
      JoinedPrintable(look, front);
      assert Items(look, Join(front) + last) == Items(look, Join(front)) + Items(look, last);
    }
  }

  lemma ActsDoing(look: Attr -> Look, ps: seq<Piece>, before: Look)
    requires Printable(Items(look, ps))
    ensures Acts(Read(RenderAll(Items(look, ps))), before) == Doing(look, ps)
  {
    ReadsBack(Items(look, ps), before);
  }

  lemma ClippedFits(request: Rect, area: Rect, stride: nat, n: nat)
    requires request.top <= area.top < area.bottom <= request.bottom && (request.bottom - request.top) * stride <= n
    ensures (area.bottom - area.top) * stride <= n
  {
    RowBounds(stride, area.bottom - area.top - 1, request.bottom - request.top);
  }

  /**
   Writes a rectangle of byte text: the cells are converted where they lie, and the part inside the
   screen buffer is shown, each row with exactly as many columns as the clipped area has.
   */
  method WriteOutputA(cp: Conversion, a: array<Cell>, request: Rect, width: nat, height: nat, look: Attr -> Look)
    returns (r: Outcome, out: seq<Byte>)
    requires request.left <= request.right && request.top <= request.bottom
    requires (request.bottom - request.top) * (request.right - request.left) <= a.Length
    modifies a
    ensures var area, stride := Clip(Rect(0, 0, width, height), request), request.right - request.left;
      && RowsConverted(cp, old(a[..]), a[..], stride, request.bottom - request.top)
      && if stride == 0 then r == Rejected && out == []
         else if !NonEmpty(area) then r == Nothing && out == []
         else
           && r == Wrote(area) && Reaches(a[..], stride, request, area)
           && ShownAs(out, a[..], stride, request, area, look)
           && forall before :: BlockDrawn(Acts(Read(out), before), a[..], stride, request, area, look)
  {
    hide RenderAll, RowsConverted, RowsPaired, AllShown, Items, Join, Slices, RowPieces, Offset, Reaches;
    hide BlockDrawn, Acts, Read;
    var stride := request.right - request.left;
    ConvertCells(cp, a, stride, request.bottom - request.top);
    ghost var area := Clip(Rect(0, 0, width, height), request);
    RequestReaches(a[..], stride, request, area);
    if stride > 0 && NonEmpty(area) {
      AreaShown(a[..], stride, request, area, look);
      forall before ensures
        var rows := RowPieces(Slices(a[..], stride, request, area), area.left, area.top);
        BlockDrawn(Acts(Read(RenderAll(Items(look, Join(rows)))), before), a[..], stride, request, area, look)
      {
        AreaDrawn(a[..], stride, request, area, look, before);
      }
    }
    r, out := WriteRows(a[..], stride, request, width, height, look);
  }

  /** Cells for every row of the request are enough for every clipped one. */
  lemma RequestReaches(cells: seq<Cell>, stride: int, request: Rect, area: Rect)
    requires stride == request.right - request.left && (request.bottom - request.top) * stride <= |cells|
    requires request.top <= area.top && request.left <= area.left && area.right <= request.right
    requires area.bottom <= request.bottom
    ensures stride > 0 ==> Reaches(cells, stride, request, area)
    ensures stride > 0 && NonEmpty(area) ==> (area.bottom - area.top) * stride <= |cells|
  {
    if stride > 0 && NonEmpty(area) {
      SliceOfRow(cells, request, area, stride, 0);
      ClippedFits(request, area, stride, |cells|);
    }
  }

  /** Every row of the clipped area of paired rows is shown. */
  lemma AreaShown(cells: seq<Cell>, stride: nat, request: Rect, area: Rect, look: Attr -> Look)
    requires stride == request.right - request.left && stride > 0 && NonEmpty(area) && 0 <= area.left && 0 <= area.top
    requires request.top <= area.top && request.left <= area.left && area.right <= request.right
    requires area.bottom <= request.bottom
    requires (request.bottom - request.top) * stride <= |cells|
    requires RowsPaired(cells, stride, request.bottom - request.top)
    requires Reaches(cells, stride, request, area)
    ensures var slices := Slices(cells, stride, request, area);
      AllShown(RowPieces(slices, area.left, area.top), slices)
  {
    hide RowsPaired, AllShown, Slice, Slices, RowPieces, Offset, Reaches;
    var slices := Slices(cells, stride, request, area);
    forall k | 0 <= k < |slices| ensures Slice(slices[k]) {
      SlicesInOrder(cells, stride, request, area, k);
    }
    ShownInOrder(slices, area.left, area.top, look);
  }

  /** The bytes are those of the clipped rows at their places, and every row shows exactly its cells. */
  ghost predicate ShownAs(out: seq<Byte>, cells: seq<Cell>, stride: int, request: Rect, area: Rect, look: Attr -> Look)
    requires stride > 0 && NonEmpty(area) && Reaches(cells, stride, request, area)
    requires request.top <= area.top && request.left <= area.left && 0 <= area.left && 0 <= area.top
  {
    var slices := Slices(cells, stride, request, area);
    var rows := RowPieces(slices, area.left, area.top);
    out == RenderAll(Items(look, Join(rows))) && AllShown(rows, slices)
  }
}
