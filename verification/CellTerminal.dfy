/**
 From the bytes of a row to what stands on the terminal: it goes to the row's place and shows there, in
 order, the glyph of every column in the look of its cell.
 */
module CellTerminal {
  import opened Options
  import opened VtText
  import opened CellRows
  import opened CellOutput

  /** A character and the look it is shown in. */
  datatype Shot = Shot(code: int, look: Look)

  function LookAfter(acts: seq<Act>, look: Look): Look {
    if acts == [] then look
    else if acts[|acts| - 1].Looks? then acts[|acts| - 1].look
    else LookAfter(acts[..|acts| - 1], look)
  }

  /** The characters a terminal shows, each in the look in force. */
  function Spelled(acts: seq<Act>, look: Look): seq<Shot> {
    if acts == [] then []
    else
      var front, last := acts[..|acts| - 1], acts[|acts| - 1];
      Spelled(front, look) + if last.Shows? then [Shot(last.code, LookAfter(front, look))] else []
  }

  /** The characters that fill the columns: one for each glyph, wide or not. */
  function Filling(columns: seq<Column>, look: Attr -> Look): seq<Shot> {
    if columns == [] then []
    else
      var last := columns[|columns| - 1];
      Filling(columns[..|columns| - 1], look) + if last.half.Right? then [] else [Shot(last.half.ch, look(last.attr))]
  }

  predicate HasPaint(ps: seq<Piece>) {
    exists i :: 0 <= i < |ps| && ps[i].Paint?
  }

  /** Before every glyph attributes are set. */
  ghost predicate Painted(ps: seq<Piece>) {
    forall i :: 0 <= i < |ps| && ps[i].Glyph? ==> HasPaint(ps[..i])
  }

  function Doing(look: Attr -> Look, ps: seq<Piece>): seq<Act> {
    AllWanted(Items(look, ps))
  }

  lemma DoingMore(look: Attr -> Look, ps: seq<Piece>, p: Piece)
    ensures Doing(look, ps + [p]) == Doing(look, ps) + [Wanted(CellOutput.Item(look, p))]
  {
    hide Wanted, CellOutput.Item;
    assert Items(look, ps + [p]) == Items(look, ps) + [CellOutput.Item(look, p)];
  }

  lemma SpelledMore(acts: seq<Act>, act: Act, look: Look)
    ensures Spelled(acts + [act], look)
         == Spelled(acts, look) + if act.Shows? then [Shot(act.code, LookAfter(acts, look))] else []
    ensures LookAfter(acts + [act], look) == if act.Looks? then act.look else LookAfter(acts, look)
  {
    assert (acts + [act])[..|acts|] == acts;
  }

  lemma FillingMore(columns: seq<Column>, c: Column, look: Attr -> Look)
    ensures Filling(columns + [c], look)
         == Filling(columns, look) + if c.half.Right? then [] else [Shot(c.half.ch, look(c.attr))]
  {
    assert (columns + [c])[..|columns|] == columns;
  }

  lemma FillingWritten(columns: seq<Column>, p: Piece, brush: Attr, look: Attr -> Look)
    ensures Filling(columns + Written(p, brush), look)
         == Filling(columns, look) + if p.Glyph? then [Shot(p.ch, look(brush))] else []
  {
    hide Filling;
    if !p.Glyph? {
      assert columns + [] == columns;
    } else if p.wide {
      var left, right := Column(Left(p.ch), brush), Column(Right(p.ch), brush);
      assert columns + [left, right] == columns + [left] + [right];
      FillingMore(columns, left, look);
      FillingMore(columns + [left], right, look);
    } else {
      FillingMore(columns, Column(Whole(p.ch), brush), look);
    }
  }

  lemma PaintedFront(ps: seq<Piece>, p: Piece)
    requires Painted(ps + [p])
    ensures Painted(ps) && (p.Glyph? ==> HasPaint(ps))
    ensures HasPaint(ps + [p]) <==> HasPaint(ps) || p.Paint?
  {
    var all := ps + [p];
    forall i | 0 <= i < |ps| && ps[i].Glyph? ensures HasPaint(ps[..i]) {
      assert all[i] == ps[i] && all[..i] == ps[..i];
    }
    assert all[|ps|] == p && all[..|ps|] == ps;
    if HasPaint(ps) {
      var i :| 0 <= i < |ps| && ps[i].Paint?;
      assert all[i].Paint?;
    }
  }

  /** Pieces that set attributes first show what the columns they write say. */
  lemma {:induction false} PiecesSpelled(look: Attr -> Look, ps: seq<Piece>, before: Look)
    requires Painted(ps)
    ensures Spelled(Doing(look, ps), before) == Filling(Screen(ps), look)
    ensures HasPaint(ps) ==> LookAfter(Doing(look, ps), before) == look(Brush(ps))
    decreases |ps|
  {
    hide Painted, HasPaint, Doing, Spelled, Filling, Screen, Brush, LookAfter;
    if ps == [] {
      NothingSpelled(look, before);
    } else {
      var front, p := ps[..|ps| - 1], ps[|ps| - 1];
      assert ps == front + [p];
      PaintedFront(front, p);
      PiecesSpelled(look, front, before);
      DoingMore(look, front, p);
      SpelledMore(Doing(look, front), Wanted(CellOutput.Item(look, p)), before);
      ScreenOne(front, p);
      FillingWritten(Screen(front), p, Brush(front), look);
    }
  }

  lemma NothingSpelled(look: Attr -> Look, before: Look)
    ensures Spelled(Doing(look, []), before) == Filling(Screen([]), look) && !HasPaint([])
  {
    assert Doing(look, []) == [];
  }

  // ----------------------------------------------------------------------- a slice of cells

  lemma PaintStays(ps: seq<Piece>, p: Piece)
    ensures HasPaint(ps) || p.Paint? ==> HasPaint(ps + [p])
  {
    var all := ps + [p];
    assert all[|ps|] == p && forall i :: 0 <= i < |ps| ==> all[i] == ps[i];
  }

  lemma {:induction false} UnpaintedIsUnset(ps: seq<Piece>)
    ensures !HasPaint(ps) ==> Brush(ps) == UNSET
    decreases |ps|
  {
    hide HasPaint;
    if ps != [] {
      var front, p := ps[..|ps| - 1], ps[|ps| - 1];
      assert ps == front + [p];
      PaintStays(front, p);
      UnpaintedIsUnset(front);
    }
  }

  lemma PaintedGlyphs(ps: seq<Piece>, gs: seq<Piece>)
    requires Painted(ps) && (forall i :: 0 <= i < |gs| ==> gs[i].Glyph? || gs[i].Paint?)
    requires HasPaint(ps) || (gs != [] && gs[0].Paint?)
    ensures Painted(ps + gs)
  {
    var all := ps + gs;
    forall i | 0 <= i < |all| && all[i].Glyph? ensures HasPaint(all[..i]) {
      if i < |ps| {
        assert all[..i] == ps[..i];
      } else if HasPaint(ps) {
        var k :| 0 <= k < |ps| && ps[k].Paint?;
        assert all[..i][k].Paint?;
      } else {
        assert all[..i][|ps|] == gs[0];
      }
    }
  }

  /** The pieces go to the place first and nowhere else. */
  ghost predicate Placed(ps: seq<Piece>, x: nat, y: nat) {
    ps != [] && ps[0] == Move(x, y) && forall j :: 0 < j < |ps| ==> !ps[j].Move?
  }

  lemma PlacedMore(ps: seq<Piece>, more: seq<Piece>, x: nat, y: nat)
    requires Placed(ps, x, y) && forall i :: 0 <= i < |more| ==> !more[i].Move?
    ensures Placed(ps + more, x, y)
  {
  }

  /** One cell more: its attributes are set before its glyphs. */
  lemma PaintedCell(ps: seq<Piece>, attr: Attr, ch: Unit, wide: bool, x: nat, y: nat)
    requires Painted(ps) && Placed(ps, x, y) && attr != UNSET
    ensures var next := ps + Repainted(attr, Brush(ps)) + Glyphs(ch, wide); Painted(next) && Placed(next, x, y)
  {
    hide Painted, HasPaint, Brush, Sanitize, Placed, Replaced;
    var more := Repainted(attr, Brush(ps)) + Glyphs(ch, wide);
    UnpaintedIsUnset(ps);
    PaintedGlyphs(ps, more);
    PlacedMore(ps, more, x, y);
    assert ps + Repainted(attr, Brush(ps)) + Glyphs(ch, wide) == ps + more;
  }

  /** The pieces of a slice set attributes before they show anything, and go nowhere but to its place. */
  lemma {:induction false} PiecesPainted(x: nat, y: nat, s: seq<Cell>, i: nat)
    requires i <= |s| && Slice(s)
    ensures Painted(PiecesFor(x, y, s, i)) && Placed(PiecesFor(x, y, s, i), x, y)
  {
    hide Slice, PiecesFor, Skipped, Repainted, Glyphs, Shown;
    if i == 0 {
      NoPieces(x, y, s);
    } else {
      PiecesPainted(x, y, s, i - 1);
      hide Painted, Placed;
      PiecesGrow(x, y, s, i - 1);
      NeverBoth(s, i - 1);
      PaintedCell(PiecesFor(x, y, s, i - 1), s[i - 1].attr, Shown(s, i - 1), s[i - 1].attr.lead && i < |s|, x, y);
    }
  }

  lemma NeverBoth(s: seq<Cell>, i: nat)
    requires Slice(s) && i < |s|
    ensures s[i].attr != UNSET
  {
    assert SliceAt(s, i);
  }

  /**
   On reading the bytes of a slice a terminal, whatever its look before, goes once, to the slice's place,
   and shows exactly the glyphs of its columns, each in the look of its attributes.
   */
  lemma TerminalShowsCells(look: Attr -> Look, x: nat, y: nat, s: seq<Cell>, before: Look)
    requires Slice(s)
    ensures var acts := Acts(Read(RenderAll(Items(look, PiecesFor(x, y, s, |s|)))), before);
      && acts != [] && acts[0] == Goes(y + 1, x + 1)
      && (forall j :: 0 < j < |acts| ==> acts[j].Looks? || acts[j].Shows?)
      && Spelled(acts, before) == Filling(ExpectedRow(s, |s|), look)
  {
    hide Slice, Painted, HasPaint, Acts, Read, RenderAll, Spelled, Filling, Screen, ExpectedRow, PiecesFor, Printable;
    var ps := PiecesFor(x, y, s, |s|);
    PiecesPainted(x, y, s, |s|);
    PiecesShowCells(look, x, y, s);
    ReadsBack(Items(look, ps), before);
    PiecesSpelled(look, ps, before);
    var acts := Doing(look, ps);
    forall j | 0 < j < |acts| ensures acts[j].Looks? || acts[j].Shows? {
      assert acts[j] == Wanted(Items(look, ps)[j]);
    }
  }
}
