/**
 Sending a slice of a row of cells to the terminal, and what the terminal then shows: each column
 of the slice shows its cell, and glyphs cut by the ends of the slice are blank.
 */
module CellOutput {
  import opened Numbers
  import opened VtText
  import opened CellRows

  /** What is sent for a slice; a wide glyph is one the cells gave two columns. */
  datatype Piece = Move(x: nat, y: nat) | Paint(attr: Attr) | Glyph(ch: Unit, wide: bool)

  /** What a column shows: a narrow glyph, or half of a wide one; and in which attributes. */
  datatype Half = Whole(ch: Unit) | Left(ch: Unit) | Right(ch: Unit)
  datatype Column = Column(half: Half, attr: Attr)

  /** The attributes word that stands for none set yet. */
  const UNSET: Attr := Attr(true, true, 0xFCFF)

  /** The attributes in force after the pieces. */
  function Brush(ps: seq<Piece>): Attr {
    if ps == [] then UNSET
    else if ps[|ps| - 1].Paint? then ps[|ps| - 1].attr
    else Brush(ps[..|ps| - 1])
  }

  /** The columns written by the pieces, left to right. */
  function Screen(ps: seq<Piece>): seq<Column> {
    if ps == [] then []
    else Screen(ps[..|ps| - 1]) + Written(ps[|ps| - 1], Brush(ps[..|ps| - 1]))
  }

  function Written(p: Piece, brush: Attr): seq<Column> {
    if !p.Glyph? then []
    else if p.wide then [Column(Left(p.ch), brush), Column(Right(p.ch), brush)]
    else [Column(Whole(p.ch), brush)]
  }

  // ------------------------------------------------------------------------- the cells

  /** In a slice of a row a flag has its partner next to it unless the slice ends there. */
  predicate SliceAt(s: seq<Cell>, i: int)
    requires 0 <= i < |s|
  {
    var a := s[i].attr;
    && !(a.lead && a.trail)
    && (a.lead && i + 1 < |s| ==> s[i + 1].attr.trail)
    && (a.trail && i > 0 ==> s[i - 1].attr.lead)
  }

  ghost predicate Slice(s: seq<Cell>) {
    forall i :: 0 <= i < |s| ==> SliceAt(s, i)
  }

  lemma SliceOfPaired(row: seq<Cell>, from: nat, to: nat)
    requires Paired(row) && from <= to <= |row|
    ensures Slice(row[from..to])
  {
    var s := row[from..to];
    forall i | 0 <= i < |s| ensures SliceAt(s, i) {
      assert PairedAt(row, from + i);
    }
  }

  predicate Replaced(ch: Unit) {
    Surrogate(ch) || Control(ch)
  }

  /** What column `i` of the slice should show. */
  function Expected(s: seq<Cell>, i: nat): Column
    requires i < |s|
  {
    var c := s[i];
    if c.attr.lead then
      if i + 1 == |s| then Column(Whole(SPACE), c.attr)
      else Column(if Replaced(c.ch) then Whole(Sanitize(c.ch)) else Left(c.ch), c.attr)
    else if c.attr.trail then
      if i == 0 then Column(Whole(SPACE), c.attr)
      else
        var d := s[i - 1];
        Column(if Replaced(d.ch) then Whole(Sanitize(d.ch)) else Right(d.ch), d.attr)
    else Column(Whole(Sanitize(c.ch)), c.attr)
  }

  function ExpectedRow(s: seq<Cell>, n: nat): (r: seq<Column>)
    requires n <= |s|
    ensures |r| == n && forall i :: 0 <= i < n ==> r[i] == Expected(s, i)
  {
    seq(n, i requires 0 <= i < n => Expected(s, i))
  }

  /** The columns filled when cell `i` is next: one more when the cell before it was a leading half. */
  function Filled(s: seq<Cell>, i: nat): nat
    requires i <= |s|
  {
    if 0 < i < |s| && s[i - 1].attr.lead then i + 1 else i
  }

  // ------------------------------------------------------------------------- sending

  function Item(look: Attr -> Look, p: Piece): Item {
    match p
    case Move(x, y) => Position(x, y)
    case Paint(attr) => Attributes(look(attr))
    case Glyph(ch, _) => Character(ch)
  }

  function Items(look: Attr -> Look, ps: seq<Piece>): (r: seq<Item>)
    ensures |r| == |ps| && forall i :: 0 <= i < |ps| ==> r[i] == Item(look, ps[i])
  {
    seq(|ps|, i requires 0 <= i < |ps| => Item(look, ps[i]))
  }

  /** The glyphs sent for a cell: the sanitized character, twice where a wide glyph has a narrow replacement. */
  function Glyphs(ch: Unit, wide: bool): (r: seq<Piece>)
    ensures forall i :: 0 <= i < |r| ==> r[i].Glyph? && !Replaced(r[i].ch)
  {
    if wide && Replaced(ch) then [Glyph(Sanitize(ch), false), Glyph(Sanitize(ch), false)]
    else [Glyph(Sanitize(ch), wide)]
  }

  function Repainted(attr: Attr, brush: Attr): seq<Piece> {
    if brush != attr then [Paint(attr)] else []
  }

  lemma ScreenOne(ps: seq<Piece>, p: Piece)
    ensures Screen(ps + [p]) == Screen(ps) + Written(p, Brush(ps))
    ensures Brush(ps + [p]) == if p.Paint? then p.attr else Brush(ps)
  {
    assert (ps + [p])[..|ps|] == ps;
  }

  /** The columns a cell's glyphs fill. */
  function Drawn(attr: Attr, ch: Unit, wide: bool): seq<Column> {
    if !wide then [Column(Whole(Sanitize(ch)), attr)]
    else if Replaced(ch) then [Column(Whole(Sanitize(ch)), attr), Column(Whole(Sanitize(ch)), attr)]
    else [Column(Left(ch), attr), Column(Right(ch), attr)]
  }

  predicate Halved(c: Cell) {
    c.attr.lead || c.attr.trail
  }

  /** The trailing half of a glyph, not at the start of the slice: nothing is drawn for it. */
  predicate Skipped(s: seq<Cell>, i: nat)
    requires i < |s|
  {
    s[i].attr.trail && !s[i].attr.lead && i > 0
  }

  /** The character drawn for a cell: a half without its partner is blank. */
  function Shown(s: seq<Cell>, i: nat): Unit
    requires i < |s|
  {
    if !Halved(s[i]) then s[i].ch else if !s[i].attr.lead || i + 1 == |s| then SPACE else s[i].ch
  }

  /** Painting and then drawing a cell's glyphs fills one column, or two for a wide cell. */
  lemma DrawsCell(ps: seq<Piece>, attr: Attr, ch: Unit, wide: bool)
    ensures var q := ps + Repainted(attr, Brush(ps)) + Glyphs(ch, wide);
      Brush(q) == attr && Screen(q) == Screen(ps) + Drawn(attr, ch, wide)
  {
    hide Screen, Brush, Sanitize, Repainted, Glyphs, Drawn;
    var p := ps + Repainted(attr, Brush(ps));
    RepaintsOnly(ps, attr);
    DrawsGlyphs(p, ch, wide);
  }

  /** Repainting changes the brush and nothing on the screen. */
  lemma RepaintsOnly(ps: seq<Piece>, attr: Attr)
    ensures var p := ps + Repainted(attr, Brush(ps)); Brush(p) == attr && Screen(p) == Screen(ps)
  {
    hide Screen, Brush;
    if Brush(ps) != attr {
      ScreenOne(ps, Paint(attr));
    } else {
      assert ps + [] == ps;
    }
  }

  lemma DrawsGlyphs(p: seq<Piece>, ch: Unit, wide: bool)
    ensures var q := p + Glyphs(ch, wide);
      Brush(q) == Brush(p) && Screen(q) == Screen(p) + Drawn(Brush(p), ch, wide)
  {
    hide Screen, Brush, Sanitize;
    var g := Glyphs(ch, wide);
    ScreenOne(p, g[0]);
    if |g| == 2 {
      assert p + g == p + [g[0]] + [g[1]];
      ScreenOne(p + [g[0]], g[1]);
    }
  }

  /** Every glyph sent is printable. */
  ghost predicate Clean(ps: seq<Piece>) {
    forall i :: 0 <= i < |ps| && ps[i].Glyph? ==> !Replaced(ps[i].ch)
  }

  lemma {:induction false} RenderAppend(a: seq<Item>, b: seq<Item>)
    ensures RenderAll(a + b) == RenderAll(a) + RenderAll(b)
  {
    hide Render;
    if a == [] {
      assert a + b == b;
    } else {
      assert (a + b)[1..] == a[1..] + b;
      RenderAppend(a[1..], b);
    }
  }

  lemma NothingSent(look: Attr -> Look)
    ensures RenderAll(Items(look, [])) == []
  {
  }

  /** The bytes of pieces sent one after another. */
  lemma BytesAppend(look: Attr -> Look, a: seq<Piece>, b: seq<Piece>)
    ensures RenderAll(Items(look, a + b)) == RenderAll(Items(look, a)) + RenderAll(Items(look, b))
  {
    hide RenderAll, Item, Items;
    assert Items(look, a + b) == Items(look, a) + Items(look, b);
    RenderAppend(Items(look, a), Items(look, b));
  }

  /** The loop's state before cell `i`. */
  ghost predicate Sent(s: seq<Cell>, i: nat, ps: seq<Piece>, brush: Attr) {
    i <= |s| && Brush(ps) == brush && Clean(ps) && (Slice(s) ==> Screen(ps) == ExpectedRow(s, Filled(s, i)))
  }

  lemma FilledNext(s: seq<Cell>, i: nat)
    requires Slice(s) && i < |s| && !Skipped(s, i)
    ensures Filled(s, i) == i && Filled(s, i + 1) == (if s[i].attr.lead && i + 1 < |s| then i + 2 else i + 1)
  {
    assert SliceAt(s, i);
    assert i > 0 ==> SliceAt(s, i - 1);
  }

  lemma ExpectedWide(s: seq<Cell>, i: nat)
    requires Slice(s) && i + 1 < |s| && s[i].attr.lead
    ensures [Expected(s, i), Expected(s, i + 1)] == Drawn(s[i].attr, Shown(s, i), true)
  {
    assert SliceAt(s, i);
    assert SliceAt(s, i + 1);
  }

  lemma ExpectedNarrow(s: seq<Cell>, i: nat)
    requires i < |s| && !Skipped(s, i) && !(s[i].attr.lead && i + 1 < |s|)
    ensures [Expected(s, i)] == Drawn(s[i].attr, Shown(s, i), false)
  {
  }

  /** The columns a cell that draws something should fill. */
  lemma ExpectedNext(s: seq<Cell>, i: nat)
    requires Slice(s) && i < |s| && !Skipped(s, i)
    ensures Filled(s, i) == i
    ensures var wide := s[i].attr.lead && i + 1 < |s|;
      ExpectedRow(s, Filled(s, i + 1)) == ExpectedRow(s, i) + Drawn(s[i].attr, Shown(s, i), wide)
  {
    hide Expected, Drawn, Shown, Filled, Slice;
    FilledNext(s, i);
    if s[i].attr.lead && i + 1 < |s| {
      ExpectedWide(s, i);
      assert ExpectedRow(s, i + 2) == ExpectedRow(s, i) + [Expected(s, i), Expected(s, i + 1)];
    } else {
      ExpectedNarrow(s, i);
      assert ExpectedRow(s, i + 1) == ExpectedRow(s, i) + [Expected(s, i)];
    }
  }

  lemma CleanNext(ps: seq<Piece>, attr: Attr, ch: Unit, wide: bool)
    requires Clean(ps)
    ensures Clean(ps + Repainted(attr, Brush(ps)) + Glyphs(ch, wide))
  {
    hide Brush;
  }

  lemma SentNext(s: seq<Cell>, i: nat, ps: seq<Piece>)
    requires i < |s| && Sent(s, i, ps, Brush(ps)) && !Skipped(s, i)
    ensures Sent(s, i + 1, ps + Repainted(s[i].attr, Brush(ps)) + Glyphs(Shown(s, i), s[i].attr.lead && i + 1 < |s|),
                 s[i].attr)
  {
    hide Slice, Screen, Clean, Brush, Repainted, Glyphs, Drawn, ExpectedRow, Filled, Shown;
    var wide := s[i].attr.lead && i + 1 < |s|;
    DrawsCell(ps, s[i].attr, Shown(s, i), wide);
    if Slice(s) {
      ExpectedNext(s, i);
    }
    CleanNext(ps, s[i].attr, Shown(s, i), wide);
  }

  /** A trailing half inside the slice has been drawn with its leading half. */
  lemma SentTrail(s: seq<Cell>, i: nat, ps: seq<Piece>)
    requires i < |s| && Sent(s, i, ps, Brush(ps)) && Skipped(s, i)
    ensures Sent(s, i + 1, ps, Brush(ps))
  {
    if Slice(s) {
      assert SliceAt(s, i);
    }
  }

  lemma SentStart(x: nat, y: nat, s: seq<Cell>)
    ensures Sent(s, 0, [Move(x, y)], UNSET) && Brush([Move(x, y)]) == UNSET
  {
    ScreenOne([], Move(x, y));
  }

  lemma RenderOne(look: Attr -> Look, p: Piece)
    ensures RenderAll(Items(look, [p])) == Render(Item(look, p))
  {
    assert Items(look, [p])[1..] == [];
  }

  /** What is sent for the first `i` cells. */
  function PiecesFor(x: nat, y: nat, s: seq<Cell>, i: nat): seq<Piece>
    requires i <= |s|
  {
    if i == 0 then [Move(x, y)]
    else
      var ps := PiecesFor(x, y, s, i - 1);
      if Skipped(s, i - 1) then ps
      else ps + Repainted(s[i - 1].attr, Brush(ps)) + Glyphs(Shown(s, i - 1), s[i - 1].attr.lead && i < |s|)
  }

  lemma {:induction false} PiecesSent(x: nat, y: nat, s: seq<Cell>, i: nat)
    requires i <= |s|
    ensures var ps := PiecesFor(x, y, s, i); Sent(s, i, ps, Brush(ps))
  {
    hide Sent, Brush, PiecesFor;
    if i == 0 {
      assert PiecesFor(x, y, s, 0) == [Move(x, y)] by { NoPieces(x, y, s); }
      SentStart(x, y, s);
    } else {
      PiecesSent(x, y, s, i - 1);
      OneSent(x, y, s, i - 1);
    }
  }

  lemma NoPieces(x: nat, y: nat, s: seq<Cell>)
    ensures PiecesFor(x, y, s, 0) == [Move(x, y)]
  {
  }

  lemma PiecesGrow(x: nat, y: nat, s: seq<Cell>, i: nat)
    requires i < |s|
    ensures var ps := PiecesFor(x, y, s, i);
      PiecesFor(x, y, s, i + 1) == if Skipped(s, i) then ps
        else ps + Repainted(s[i].attr, Brush(ps)) + Glyphs(Shown(s, i), s[i].attr.lead && i + 1 < |s|)
  {
    hide Skipped, Brush, Repainted, Glyphs, Shown;
  }

  lemma OneSent(x: nat, y: nat, s: seq<Cell>, i: nat)
    requires i < |s| && Sent(s, i, PiecesFor(x, y, s, i), Brush(PiecesFor(x, y, s, i)))
    ensures Sent(s, i + 1, PiecesFor(x, y, s, i + 1), Brush(PiecesFor(x, y, s, i + 1)))
  {
    hide Sent, Brush, PiecesFor, Repainted, Glyphs, Shown, Skipped, Screen;
    var ps := PiecesFor(x, y, s, i);
    PiecesGrow(x, y, s, i);
    if Skipped(s, i) {
      SentTrail(s, i, ps);
    } else {
      SentNext(s, i, ps);
      DrawsCell(ps, s[i].attr, Shown(s, i), s[i].attr.lead && i + 1 < |s|);
    }
  }

  /**
   For a slice of a paired row the terminal shows one column for each cell, and in it what the cell
   says; every character sent is printable, for all cells.
   */
  lemma PiecesShowCells(look: Attr -> Look, x: nat, y: nat, s: seq<Cell>)
    ensures Printable(Items(look, PiecesFor(x, y, s, |s|)))
    ensures Slice(s) ==> Screen(PiecesFor(x, y, s, |s|)) == ExpectedRow(s, |s|)
  {
    hide Slice, Screen, Brush, ExpectedRow;
    PiecesSent(x, y, s, |s|);
  }

  /** Sends the attributes if they differ from those in force. */
  method WriteAttributes(attr: Attr, brush: Attr, look: Attr -> Look) returns (out: seq<Byte>)
    ensures out == RenderAll(Items(look, Repainted(attr, brush)))
  {
    out := [];
    if brush != attr {
      out := Render(Attributes(look(attr)));
      RenderOne(look, Paint(attr));
    }
  }

  /** Sends the sanitized character, twice when a wide cell has a narrow replacement. */
  method WriteGlyphs(ch: Unit, wide: bool, look: Attr -> Look) returns (out: seq<Byte>)
    ensures out == RenderAll(Items(look, Glyphs(ch, wide)))
  {
    hide RenderAll, Items, Encode, Sanitize;
    out := [];
    var repeat := 1;
    if wide && (Surrogate(ch) || Control(ch)) {
      repeat := repeat + 1;
    }
    ghost var gs := Glyphs(ch, wide);
    NothingSent(look);
    while repeat > 0
      invariant 0 <= repeat <= |gs| && out == RenderAll(Items(look, gs[..|gs| - repeat]))
    {
      ghost var k := |gs| - repeat;
      assert gs[..k + 1] == gs[..k] + [gs[k]];
      BytesAppend(look, gs[..k], [gs[k]]);
      RenderOne(look, gs[k]);
      out := out + Encode(Sanitize(ch));
      repeat := repeat - 1;
    }
    assert gs[..|gs|] == gs;
  }

  /**
   Sends cells: the bytes of their pieces, which read back as the control sequences and the
   sanitized characters.
   */
  method WriteInfos(x: nat, y: nat, s: seq<Cell>, look: Attr -> Look) returns (out: seq<Byte>)
    ensures out == RenderAll(Items(look, PiecesFor(x, y, s, |s|)))
    ensures forall before :: Acts(Read(out), before) == AllWanted(Items(look, PiecesFor(x, y, s, |s|)))
  {
    hide Slice, Screen, Brush, RenderAll, Read, Acts, AllWanted, Items, Repainted, Glyphs, Printable, PiecesFor;
    var attributes := UNSET;
    out := Render(Position(x, y));
    FirstPiece(look, x, y, s);
    for i := 0 to |s|
      invariant attributes == Brush(PiecesFor(x, y, s, i)) && out == RenderAll(Items(look, PiecesFor(x, y, s, i)))
    {
      var c := s[i];
      var ch := c.ch;
      var wide := c.attr.lead || c.attr.trail;
      NextPieces(look, x, y, s, i);
      if wide {
        if c.attr.lead {
          if i == |s| - 1 {
            ch, wide := SPACE, false;
          }
        } else {
          if i == 0 {
            ch, wide := SPACE, false;
          } else {
            continue;
          }
        }
      }
      var paint := WriteAttributes(c.attr, attributes, look);
      var glyphs := WriteGlyphs(ch, wide, look);
      out := out + paint + glyphs;
      attributes := c.attr;
    }
    PiecesShowCells(look, x, y, s);
    forall before ensures Acts(Read(out), before) == AllWanted(Items(look, PiecesFor(x, y, s, |s|))) {
      ReadsBack(Items(look, PiecesFor(x, y, s, |s|)), before);
    }
  }

  lemma FirstPiece(look: Attr -> Look, x: nat, y: nat, s: seq<Cell>)
    ensures RenderAll(Items(look, PiecesFor(x, y, s, 0))) == Render(Position(x, y))
    ensures Brush(PiecesFor(x, y, s, 0)) == UNSET
  {
    RenderOne(look, Move(x, y));
    SentStart(x, y, s);
  }

  /** The bytes and the attributes in force after one more cell. */
  lemma NextPieces(look: Attr -> Look, x: nat, y: nat, s: seq<Cell>, i: nat)
    requires i < |s|
    ensures var ps, next := PiecesFor(x, y, s, i), PiecesFor(x, y, s, i + 1);
      if Skipped(s, i) then next == ps
      else Brush(next) == s[i].attr && RenderAll(Items(look, next)) == RenderAll(Items(look, ps))
             + RenderAll(Items(look, Repainted(s[i].attr, Brush(ps))))
             + RenderAll(Items(look, Glyphs(Shown(s, i), s[i].attr.lead && i + 1 < |s|)))
  {
    hide Screen, Brush, RenderAll, Items, Repainted, Glyphs, Shown;
    var ps, wide := PiecesFor(x, y, s, i), s[i].attr.lead && i + 1 < |s|;
    if !Skipped(s, i) {
      DrawsCell(ps, s[i].attr, Shown(s, i), wide);
      BytesAppend(look, ps, Repainted(s[i].attr, Brush(ps)));
      BytesAppend(look, ps + Repainted(s[i].attr, Brush(ps)), Glyphs(Shown(s, i), wide));
    }
  }
}
