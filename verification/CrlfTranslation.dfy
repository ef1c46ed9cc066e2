/**
 Newline translation for terminals on which a line feed only moves down: the writer puts a
 carriage return before line feeds, leaving out those that would make no difference.
 */
module CrlfTranslation {
  const CR: char := '\r'
  const LF: char := '\n'

  // ------------------------------------------------------------------------ terminals

  /** What the characters do to a terminal's state; `down` is the bare line feed. */
  datatype Terminal<!T> = Terminal(home: T -> T, down: T -> T, other: (T, char) -> T)

  /** Returning twice is returning once, and moving down from column 0 stays in column 0. */
  ghost predicate Lawful<T(!new)>(m: Terminal<T>) {
    && (forall t :: m.home(m.home(t)) == m.home(t))
    && (forall t :: m.home(m.down(m.home(t))) == m.down(m.home(t)))
  }

  function Move<T>(m: Terminal<T>, t: T, ch: char): T {
    if ch == CR then m.home(t) else if ch == LF then m.down(t) else m.other(t, ch)
  }

  /** The same terminal with a line feed that also returns. */
  function Returning<T>(m: Terminal<T>): Terminal<T> {
    Terminal(m.home, t => m.down(m.home(t)), m.other)
  }

  function Replay<T>(m: Terminal<T>, t: T, s: string): T {
    if s == "" then t else Move(m, Replay(m, t, s[..|s| - 1]), s[|s| - 1])
  }

  // ---------------------------------------------------------------------- translation

  /** A piece of output: a character of the input, or a carriage return added before one. */
  datatype Piece = Original(ch: char) | Added

  function Char(p: Piece): char {
    if p.Original? then p.ch else CR
  }

  /** The characters sent to the terminal. */
  function Text(ps: seq<Piece>): (s: string)
    ensures |s| == |ps| && forall i :: 0 <= i < |ps| ==> s[i] == Char(ps[i])
  {
    seq(|ps|, i requires 0 <= i < |ps| => Char(ps[i]))
  }

  /** The output with the added carriage returns deleted. */
  function Originals(ps: seq<Piece>): string {
    if ps == [] then "" else Originals(ps[..|ps| - 1]) + if ps[|ps| - 1].Original? then [ps[|ps| - 1].ch] else []
  }

  function Pieces(s: string): (ps: seq<Piece>)
    ensures |ps| == |s| && forall i :: 0 <= i < |s| ==> ps[i] == Original(s[i])
  {
    seq(|s|, i requires 0 <= i < |s| => Original(s[i]))
  }

  /** The line feed at `i` follows neither a carriage return nor a line feed. */
  predicate NeedsReturn(s: string, i: nat)
    requires i < |s|
  {
    s[i] == LF && (i == 0 || (s[i - 1] != CR && s[i - 1] != LF))
  }

  /** The translation, character by character. */
  function Translated(s: string): seq<Piece> {
    if s == "" then []
    else
      var i := |s| - 1;
      Translated(s[..i]) + (if NeedsReturn(s, i) then [Added] else []) + [Original(s[i])]
  }

  // ------------------------------------------------------------------------- the loop

  /** The position of the next LF from `i` on, or the end. */
  method FindLf(s: string, i: nat) returns (e: nat)
    requires i <= |s|
    ensures i <= e <= |s| && (e < |s| ==> s[e] == LF)
    ensures forall k :: i <= k < e ==> s[k] != LF
  {
    e := i;
    while e < |s| && s[e] != LF
      invariant i <= e <= |s| && forall k :: i <= k < e ==> s[k] != LF
    {
      e := e + 1;
    }
  }

  /** What has been written when the LF at `b` is next: everything before it and its added return. */
  ghost function UpTo(s: string, b: nat): seq<Piece>
    requires b < |s|
  {
    Translated(s[..b]) + if NeedsReturn(s, b) then [Added] else []
  }

  lemma {:induction false} PlainRun(s: string, b: nat, e: nat)
    requires b < e <= |s| && forall k :: b < k < e ==> !NeedsReturn(s, k)
    ensures Translated(s[..e]) == UpTo(s, b) + Pieces(s[b..e])
    decreases e
  {
    assert s[..e][..e - 1] == s[..e - 1];
    assert NeedsReturn(s[..e], e - 1) == NeedsReturn(s, e - 1);
    assert Translated(s[..e])
        == Translated(s[..e - 1]) + (if NeedsReturn(s, e - 1) then [Added] else []) + [Original(s[e - 1])];
    if b < e - 1 {
      PlainRun(s, b, e - 1);
      assert Pieces(s[b..e]) == Pieces(s[b..e - 1]) + [Original(s[e - 1])];
    } else {
      assert Pieces(s[b..e]) == [Original(s[b])];
    }
  }

  lemma {:induction false} NoLineFeeds(s: string, e: nat)
    requires e <= |s| && forall k :: 0 <= k < e ==> s[k] != LF
    ensures Translated(s[..e]) == Pieces(s[0..e])
  {
    if e > 0 {
      NoLineFeeds(s, e - 1);
      assert s[..e][..e - 1] == s[..e - 1];
      assert Pieces(s[0..e]) == Pieces(s[0..e - 1]) + [Original(s[e - 1])];
    }
  }

  /** What the loop holds: at the start nothing, later the LF at `b` and the run of breaks up to `c`. */
  ghost predicate Written(s: string, b: nat, c: nat, out: seq<Piece>) {
    && b <= c <= |s|
    && if b < c then
         && s[b] == LF && out == UpTo(s, b)
         && (forall k :: b < k < c ==> s[k] == LF || s[k] == CR)
         && (c < |s| ==> s[c] != LF && s[c] != CR)
       else b == 0 && out == []
  }

  /** The text up to the next LF, which begins a new run. */
  lemma NextChunk(s: string, b: nat, c: nat, e: nat, out: seq<Piece>)
    requires Written(s, b, c, out) && c <= e <= |s| && (forall k :: c <= k < e ==> s[k] != LF)
    requires (e < |s| ==> s[e] == LF)
    ensures out + Pieces(s[b..e]) == Translated(s[..e])
    ensures e < |s| ==> (NeedsReturn(s, e) <==> e == 0 || s[e - 1] != CR)
  {
    if b < c {
      forall k | b < k < e ensures !NeedsReturn(s, k) {
        assert k < c ==> s[k - 1] == LF || s[k - 1] == CR;
      }
      PlainRun(s, b, e);
    } else {
      NoLineFeeds(s, e);
    }
  }

  /** Emit up to the next LF, add a CR unless one precedes it, then pass over the run of LFs and CRs. */
  method WriteTranslated(s: string) returns (out: seq<Piece>)
    ensures out == Translated(s)
  {
    out := [];
    var begCopy, endCopy := 0, 0;
    while true
      invariant 0 <= begCopy <= endCopy <= |s| && Written(s, begCopy, endCopy, out)
      decreases |s| - begCopy, begCopy == endCopy
    {
      ghost var c := endCopy;
      endCopy := FindLf(s, endCopy);
      NextChunk(s, begCopy, c, endCopy, out);
      out := out + Pieces(s[begCopy..endCopy]);
      begCopy := endCopy;
      if begCopy == |s| {
        assert s[..begCopy] == s;
        break;
      }
      if begCopy == 0 || s[begCopy - 1] != CR {
        out := out + [Added];
      }
      endCopy := PassBreaks(s, begCopy + 1);
    }
  }

  /** The first position from `i` on that holds neither LF nor CR, or the end. */
  method PassBreaks(s: string, i: nat) returns (e: nat)
    requires i <= |s|
    ensures i <= e <= |s| && forall k :: i <= k < e ==> s[k] == LF || s[k] == CR
    ensures e < |s| ==> s[e] != LF && s[e] != CR
  {
    e := i;
    while e < |s| && (s[e] == LF || s[e] == CR)
      invariant i <= e <= |s| && forall k :: i <= k < e ==> s[k] == LF || s[k] == CR
    {
      e := e + 1;
    }
  }

  // --------------------------------------------------------------------------- meaning

  /** Deleting the added carriage returns gives back the input. */
  lemma {:induction false} OriginalsKept(s: string)
    ensures Originals(Translated(s)) == s
  {
    hide Originals, NeedsReturn, Translated;
    if s == "" {
      NoOriginals();
    } else {
      var i := |s| - 1;
      OriginalsKept(s[..i]);
      var front := Translated(s[..i]);
      TranslatedLast(s);
      OriginalsLast(front, Added);
      OriginalsLast(if NeedsReturn(s, i) then front + [Added] else front, Original(s[i]));
      assert s == s[..i] + [s[i]];
    }
  }

  lemma TranslatedLast(s: string)
    requires s != ""
    ensures var i := |s| - 1;
      var front := Translated(s[..i]);
      Translated(s) == (if NeedsReturn(s, i) then front + [Added] else front) + [Original(s[i])]
  {
    hide NeedsReturn;
    var front := Translated(s[..|s| - 1]);
    assert front + [] == front;
  }

  lemma NoOriginals()
    ensures Originals(Translated("")) == ""
  {
  }

  lemma OriginalsLast(ps: seq<Piece>, p: Piece)
    ensures Originals(ps + [p]) == Originals(ps) + if p.Original? then [p.ch] else []
  {
    assert (ps + [p])[..|ps|] == ps;
  }

  lemma {:induction false} ReplayAppend<T>(m: Terminal<T>, t: T, a: string, b: string)
    ensures Replay(m, t, a + b) == Replay(m, Replay(m, t, a), b)
  {
    if b == "" {
      assert a + b == a;
    } else {
      ReplayAppend(m, t, a, b[..|b| - 1]);
      assert (a + b)[..|a + b| - 1] == a + b[..|b| - 1];
    }
  }

  lemma TextAppend(a: seq<Piece>, b: seq<Piece>)
    ensures Text(a + b) == Text(a) + Text(b)
  {
  }

  lemma ReplayOne<T>(m: Terminal<T>, t: T, ch: char)
    ensures Replay(m, t, [ch]) == Move(m, t, ch)
  {
    assert [ch][..0] == "";
  }

  /** After a line break the returning terminal is in column 0. */
  lemma AfterBreak<T(!new)>(m: Terminal<T>, t: T, s: string)
    requires Lawful(m) && s != "" && (s[|s| - 1] == CR || s[|s| - 1] == LF)
    ensures var u := Replay(Returning(m), t, s); m.home(u) == u
  {
  }

  /**
   On every lawful terminal whose line feed only moves down, the output leaves the terminal in the
   state in which the input leaves the same terminal with a returning line feed.
   */
  lemma {:induction false} TranslationPreservesMeaning<T(!new)>(m: Terminal<T>, t: T, s: string)
    requires Lawful(m)
    ensures Replay(m, t, Text(Translated(s))) == Replay(Returning(m), t, s)
  {
    if s != "" {
      var i := |s| - 1;
      var front := Translated(s[..i]);
      TranslationPreservesMeaning(m, t, s[..i]);
      var u := Replay(m, t, Text(front));
      if NeedsReturn(s, i) {
        TextAppend(front + [Added], [Original(s[i])]);
        TextAppend(front, [Added]);
        ReplayAppend(m, t, Text(front) + Text([Added]), Text([Original(s[i])]));
        ReplayAppend(m, t, Text(front), Text([Added]));
        assert Text([Added]) == [CR] && Text([Original(s[i])]) == [s[i]];
        ReplayOne(m, u, CR);
        ReplayOne(m, m.home(u), s[i]);
      } else {
        assert front + [] + [Original(s[i])] == front + [Original(s[i])];
        TextAppend(front, [Original(s[i])]);
        ReplayAppend(m, t, Text(front), Text([Original(s[i])]));
        assert Text([Original(s[i])]) == [s[i]];
        ReplayOne(m, u, s[i]);
        if s[i] == LF {
          AfterBreak(m, t, s[..i]);
        }
      }
    }
  }

  /** The output for a prefix is a prefix of the output, so the states agree after every character. */
  lemma {:induction false} PrefixByPrefix<T(!new)>(m: Terminal<T>, t: T, s: string, n: nat)
    requires Lawful(m) && n <= |s|
    ensures Translated(s[..n]) <= Translated(s)
    ensures Replay(m, t, Text(Translated(s[..n]))) == Replay(Returning(m), t, s[..n])
    decreases |s|
  {
    TranslationPreservesMeaning(m, t, s[..n]);
    if n < |s| {
      var i := |s| - 1;
      PrefixByPrefix(m, t, s[..i], n);
      assert s[..i][..n] == s[..n];
    } else {
      assert s[..n] == s;
    }
  }

  // -------------------------------------------------------------- a cursor on a page

  datatype Cursor = Cursor(col: int, row: int)

  /** A terminal of the given width that wraps at the right edge. */
  function Page(width: int): Terminal<Cursor> {
    Terminal(
      (c: Cursor) => Cursor(0, c.row),
      (c: Cursor) => Cursor(c.col, c.row + 1),
      (c: Cursor, ch: char) => if c.col + 1 < width then Cursor(c.col + 1, c.row) else Cursor(0, c.row + 1))
  }

  lemma PageIsLawful(width: int)
    ensures Lawful(Page(width))
  {
  }

  lemma {:induction false} LineOnPage(width: int, c: Cursor, line: string)
    requires CR !in line && LF !in line && c.col + |line| < width
    ensures Replay(Returning(Page(width)), c, line) == Cursor(c.col + |line|, c.row)
  {
    if line != "" {
      var i := |line| - 1;
      assert line[i] in line && forall ch :: ch in line[..i] ==> ch in line;
      LineOnPage(width, c, line[..i]);
    }
  }

  /** The output for a line that fits and its line feed leaves the cursor at the start of the next row. */
  lemma LineEndsAtStart(width: int, c: Cursor, line: string)
    requires CR !in line && LF !in line && c.col + |line| < width
    ensures Replay(Page(width), c, Text(Translated(line + [LF]))) == Cursor(0, c.row + 1)
  {
    PageIsLawful(width);
    TranslationPreservesMeaning(Page(width), c, line + [LF]);
    LineOnPage(width, c, line);
    assert (line + [LF])[..|line|] == line;
  }

  /** A character in the last column leaves the cursor at the start of the next row too. */
  lemma LastColumnWraps(width: int, c: Cursor, ch: char)
    requires ch != CR && ch != LF && c.col == width - 1
    ensures Replay(Page(width), c, [ch]) == Cursor(0, c.row + 1)
  {
    ReplayOne(Page(width), c, ch);
  }

  /** The cursor on a page of any width is where the program meant it to be. */
  lemma CursorAgrees(width: int, c: Cursor, s: string)
    ensures Replay(Page(width), c, Text(Translated(s))) == Replay(Returning(Page(width)), c, s)
  {
    PageIsLawful(width);
    TranslationPreservesMeaning(Page(width), c, s);
  }
}
