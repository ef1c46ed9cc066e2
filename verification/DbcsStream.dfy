/**
 Writing double-byte text in pieces: a lead byte that ends one call is kept and completed by
 the first byte of the next, so that the wide text does not depend on where calls divide it.
 */
module DbcsStream {
  import opened Numbers

  /**
   A code page: the table of lead byte ranges, the wide character of each single byte and of
   each pair, and the number of bytes a wide character takes.
   */
  datatype CodePage = CodePage(table: seq<Byte>, one: Byte -> int, two: (Byte, Byte) -> int, length: int -> nat)

  /** The table is a list of pairs, the last of which begins with a zero byte. */
  predicate Closed(table: seq<Byte>) {
    |table| >= 2 && |table| % 2 == 0 && table[|table| - 2] == 0
  }

  /** Some pair before the closing one holds `b`. */
  predicate InRange(table: seq<Byte>, i: nat, b: Byte)
    decreases |table| - i
  {
    i + 1 < |table| && table[i] != 0 && (table[i] <= b <= table[i + 1] || InRange(table, i + 2, b))
  }

  predicate Lead(cp: CodePage, b: Byte) {
    InRange(cp.table, 0, b)
  }

  /** Pair `k` of the table is not after its end and holds `b` between its two bytes. */
  ghost predicate HeldBy(table: seq<Byte>, b: Byte, k: nat) {
    && 2 * k + 1 < |table| && table[2 * k] <= b <= table[2 * k + 1]
    && forall j :: 0 <= j <= k ==> table[2 * j] != 0
  }

  lemma {:induction false} RangesHold(table: seq<Byte>, m: nat, b: Byte)
    requires forall j :: 0 <= j < m && 2 * j < |table| ==> table[2 * j] != 0
    ensures InRange(table, 2 * m, b) <==> exists k :: k >= m && HeldBy(table, b, k)
    decreases |table| - 2 * m
  {
    if 2 * m + 1 < |table| && table[2 * m] != 0 {
      if table[2 * m] <= b <= table[2 * m + 1] {
        assert HeldBy(table, b, m);
      } else {
        RangesHold(table, m + 1, b);
        assert forall k :: k >= m && HeldBy(table, b, k) ==> k >= m + 1;
      }
    }
  }

  /** Lead bytes lie above the control characters, and characters take as many bytes as they come from. */
  ghost predicate Lawful(cp: CodePage) {
    && Closed(cp.table)
    && (forall b: Byte :: Lead(cp, b) ==> b >= 0x20)
    && (forall b: Byte :: !Lead(cp, b) ==> cp.length(cp.one(b)) == 1)
    && (forall l: Byte, t: Byte :: Lead(cp, l) ==> cp.length(cp.two(l, t)) == 2)
  }

  /** The table lookup as the program does it. */
  method IsLeadByte(cp: CodePage, b: Byte) returns (r: bool)
    requires Closed(cp.table)
    ensures r == Lead(cp, b)
    ensures r <==> exists k :: k >= 0 && HeldBy(cp.table, b, k)
  {
    RangesHold(cp.table, 0, b);
    var i := 0;
    while cp.table[i] != 0
      invariant 0 <= i <= |cp.table| - 2 && i % 2 == 0
      invariant Lead(cp, b) == InRange(cp.table, i, b)
      decreases |cp.table| - i
    {
      if cp.table[i] <= b <= cp.table[i + 1] {
        return true;
      }
      i := i + 2;
    }
    return false;
  }

  // ------------------------------------------------------------------------- units

  /** The bytes end inside a pair. */
  predicate Bisected(cp: CodePage, s: seq<Byte>) {
    if s == [] then false
    else if Lead(cp, s[0]) then |s| == 1 || Bisected(cp, s[2..])
    else Bisected(cp, s[1..])
  }

  method CheckBisect(cp: CodePage, s: seq<Byte>) returns (r: bool)
    requires Closed(cp.table)
    ensures r == Bisected(cp, s)
  {
    var i, left := 0, |s|;
    while left > 0
      invariant 0 <= i <= |s| && left == |s| - i
      invariant Bisected(cp, s) == Bisected(cp, s[i..])
    {
      var lead := IsLeadByte(cp, s[i]);
      if lead {
        if left <= 1 {
          return true;
        }
        assert s[i..][2..] == s[i + 2..];
        i, left := i + 2, left - 2;
      } else {
        assert s[i..][1..] == s[i + 1..];
        i, left := i + 1, left - 1;
      }
    }
    return false;
  }

  /** The wide text of the bytes taken as a whole. */
  function Decode(cp: CodePage, s: seq<Byte>): seq<int> {
    if s == [] then []
    else if Lead(cp, s[0]) && |s| >= 2 then [cp.two(s[0], s[1])] + Decode(cp, s[2..])
    else [cp.one(s[0])] + Decode(cp, s[1..])
  }

  function Lengths(cp: CodePage, w: seq<int>): nat {
    if w == [] then 0 else cp.length(w[0]) + Lengths(cp, w[1..])
  }

  /** The bytes without a lead byte left over at the end, and that lead byte. */
  function Complete(cp: CodePage, s: seq<Byte>): seq<Byte> {
    if Bisected(cp, s) then s[..|s| - 1] else s
  }

  function Pending(cp: CodePage, s: seq<Byte>): seq<Byte> {
    if Bisected(cp, s) then s[|s| - 1..] else []
  }

  lemma {:induction false} WholeUnits(cp: CodePage, a: seq<Byte>, b: seq<Byte>)
    requires !Bisected(cp, a)
    ensures Bisected(cp, a + b) == Bisected(cp, b)
    ensures Decode(cp, a + b) == Decode(cp, a) + Decode(cp, b)
  {
    hide Lead, Bisected, Decode;
    if a == [] {
      assert a + b == b && Decode(cp, a) == [] by { NoUnits(cp); }
    } else {
      FirstUnit(cp, a);
      var k := if Lead(cp, a[0]) then 2 else 1;
      FirstUnit(cp, a + b);
      WholeUnits(cp, a[k..], b);
      assert (a + b)[k..] == a[k..] + b && (k == 2 ==> (a + b)[1] == a[1]);
    }
  }

  lemma NoUnits(cp: CodePage)
    ensures Decode(cp, []) == []
  {
  }

  /** The first character of a text, of one byte or two, and the rest of it. */
  lemma FirstUnit(cp: CodePage, s: seq<Byte>)
    requires s != []
    ensures Lead(cp, s[0]) && |s| == 1 ==> Bisected(cp, s)
    ensures !(Lead(cp, s[0]) && |s| == 1) ==>
      var k := if Lead(cp, s[0]) then 2 else 1;
      && Bisected(cp, s) == Bisected(cp, s[k..])
      && Decode(cp, s) == [if k == 2 then cp.two(s[0], s[1]) else cp.one(s[0])] + Decode(cp, s[k..])
  {
    hide Lead;
  }

  lemma {:induction false} LeftOver(cp: CodePage, s: seq<Byte>)
    requires Bisected(cp, s)
    ensures s != [] && Lead(cp, s[|s| - 1]) && !Bisected(cp, s[..|s| - 1])
  {
    if Lead(cp, s[0]) && |s| >= 2 {
      LeftOver(cp, s[2..]);
      assert s[2..][|s| - 3] == s[|s| - 1];
      assert s[..|s| - 1][2..] == s[2..][..|s| - 3];
    } else if !Lead(cp, s[0]) {
      LeftOver(cp, s[1..]);
      assert s[1..][|s| - 2] == s[|s| - 1];
      assert s[..|s| - 1][1..] == s[1..][..|s| - 2];
    }
  }

  lemma PendingSplits(cp: CodePage, s: seq<Byte>)
    ensures s == Complete(cp, s) + Pending(cp, s) && !Bisected(cp, Complete(cp, s))
    ensures |Pending(cp, s)| <= 1 && (Pending(cp, s) != [] ==> Lead(cp, Pending(cp, s)[0]))
  {
    if Bisected(cp, s) {
      LeftOver(cp, s);
    }
  }

  /** What is complete after more bytes: what was complete before, and what the carried byte and they add. */
  lemma CompleteAppend(cp: CodePage, a: seq<Byte>, b: seq<Byte>)
    ensures Decode(cp, Complete(cp, a + b))
         == Decode(cp, Complete(cp, a)) + Decode(cp, Complete(cp, Pending(cp, a) + b))
    ensures Pending(cp, a + b) == Pending(cp, Pending(cp, a) + b)
  {
    hide Decode, Bisected, Lead;
    PendingSplits(cp, a);
    var c, d := Complete(cp, a), Pending(cp, a) + b;
    assert a + b == c + d;
    WholeUnits(cp, c, d);
    if Bisected(cp, d) {
      LeftOver(cp, d);
      assert (c + d)[..|c + d| - 1] == c + d[..|d| - 1];
      WholeUnits(cp, c, d[..|d| - 1]);
    }
  }

  /** A wide text takes as many bytes as it was decoded from. */
  lemma {:induction false} LengthsAdd(cp: CodePage, s: seq<Byte>)
    requires Lawful(cp) && !Bisected(cp, s)
    ensures Lengths(cp, Decode(cp, s)) == |s|
  {
    if s != [] {
      var k := if Lead(cp, s[0]) then 2 else 1;
      LengthsAdd(cp, s[k..]);
      assert Decode(cp, s)[1..] == Decode(cp, s[k..]);
    }
  }

  // ------------------------------------------------------------------------- calls

  /** The kept lead byte (0 for none), the wide text and the reported count of one call. */
  datatype Call = Call(lead: Byte, wide: seq<int>, read: int)

  function Write(cp: CodePage, lead: Byte, chunk: seq<Byte>): Call {
    if chunk == [] then Call(lead, [], 0)
    else
      var joins := lead != 0 && chunk[0] >= 0x20;
      var first := if joins then [cp.two(lead, chunk[0])] else [];
      var rest := if joins then chunk[1..] else chunk;
      var cut := Bisected(cp, rest);
      var wide := first + Decode(cp, if cut then rest[..|rest| - 1] else rest);
      Call(if cut then rest[|rest| - 1] else 0, wide,
           Lengths(cp, wide) + (if cut then 1 else 0) - (if joins then 1 else 0))
  }

  /** The console's output object, which keeps the lead byte between calls. */
  class Output {
    var lead: Byte

    constructor ()
      ensures lead == 0
    {
      lead := 0;
    }

    /** One call: complete a kept lead byte, keep a new one, convert the rest and count the bytes. */
    method WriteConsoleA(cp: CodePage, buffer: seq<Byte>) returns (wide: seq<int>, read: int)
      requires Closed(cp.table)
      modifies this
      ensures Call(lead, wide, read) == Write(cp, old(lead), buffer)
    {
      wide, read := [], 0;
      if buffer == [] {
        return;
      }
      var mb := buffer;
      var consumed, captured := false, false;
      if lead != 0 && mb[0] >= 0x20 {
        wide := [cp.two(lead, mb[0])];
        mb := mb[1..];
        consumed := true;
      }
      lead := 0;
      var cut := CheckBisect(cp, mb);
      if cut {
        LeftOver(cp, mb);
        lead := mb[|mb| - 1];
        mb := mb[..|mb| - 1];
        captured := true;
      }
      wide := wide + Decode(cp, mb);
      read := Lengths(cp, wide);
      if captured {
        read := read + 1;
      }
      if consumed {
        read := read - 1;
      }
    }
  }

  function WriteAll(cp: CodePage, lead: Byte, chunks: seq<seq<Byte>>): (r: (Byte, seq<int>))
    decreases |chunks|
  {
    if chunks == [] then (lead, [])
    else
      var c := Write(cp, lead, chunks[0]);
      var (last, wide) := WriteAll(cp, c.lead, chunks[1..]);
      (last, c.wide + wide)
  }

  function Concat(chunks: seq<seq<Byte>>): seq<Byte> {
    if chunks == [] then [] else chunks[0] + Concat(chunks[1..])
  }

  /** A kept lead byte as text. */
  function Kept(lead: Byte): seq<Byte> {
    if lead == 0 then [] else [lead]
  }

  /** No pair ends in a control character. */
  predicate PrintableTrails(cp: CodePage, s: seq<Byte>) {
    if s == [] then true
    else if Lead(cp, s[0]) then |s| == 1 || (s[1] >= 0x20 && PrintableTrails(cp, s[2..]))
    else PrintableTrails(cp, s[1..])
  }

  ghost predicate Keepable(cp: CodePage, lead: Byte) {
    lead == 0 || Lead(cp, lead)
  }

  lemma LeadIsNotZero(cp: CodePage, b: Byte)
    requires Lawful(cp) && Lead(cp, b)
    ensures b != 0
  {
  }

  lemma LengthsFirst(cp: CodePage, x: int, w: seq<int>)
    ensures Lengths(cp, [x] + w) == cp.length(x) + Lengths(cp, w)
  {
    assert ([x] + w)[1..] == w;
  }

  /** Every call reports exactly the bytes it was given, whatever they are. */
  lemma ReportsOwnBytes(cp: CodePage, lead: Byte, chunk: seq<Byte>)
    requires Lawful(cp) && Keepable(cp, lead)
    ensures Write(cp, lead, chunk).read == |chunk| && Keepable(cp, Write(cp, lead, chunk).lead)
  {
    hide Decode, Bisected, Lengths;
    if chunk != [] {
      var joins := lead != 0 && chunk[0] >= 0x20;
      var rest := if joins then chunk[1..] else chunk;
      PendingSplits(cp, rest);
      LengthsAdd(cp, Complete(cp, rest));
      if joins {
        LengthsFirst(cp, cp.two(lead, chunk[0]), Decode(cp, Complete(cp, rest)));
      } else {
        assert [] + Decode(cp, Complete(cp, rest)) == Decode(cp, Complete(cp, rest));
      }
    }
  }

  /** One call decodes what the kept byte and the chunk complete, and keeps what is left over. */
  lemma WriteDecodes(cp: CodePage, lead: Byte, chunk: seq<Byte>)
    requires Lawful(cp) && Keepable(cp, lead) && PrintableTrails(cp, Kept(lead) + chunk)
    ensures var c := Write(cp, lead, chunk); var text := Kept(lead) + chunk;
      c.wide == Decode(cp, Complete(cp, text)) && Kept(c.lead) == Pending(cp, text) && Keepable(cp, c.lead)
  {
    var text := Kept(lead) + chunk;
    if lead == 0 {
      assert text == chunk;
    } else if chunk == [] {
      assert text == [lead];
    } else {
      assert text[2..] == chunk[1..];
      assert chunk[0] == text[1] >= 0x20;
      var rest := chunk[1..];
      assert Bisected(cp, text) == Bisected(cp, rest);
      if Bisected(cp, rest) {
        LeftOver(cp, rest);
        assert text[..|text| - 1][2..] == rest[..|rest| - 1];
      }
    }
    if Bisected(cp, text) {
      LeftOver(cp, text);
      LeadIsNotZero(cp, text[|text| - 1]);
      assert text[|text| - 1..] == [text[|text| - 1]];
    }
  }

  lemma {:induction false} TrailsSuffix(cp: CodePage, a: seq<Byte>, b: seq<Byte>)
    requires PrintableTrails(cp, a + b)
    ensures PrintableTrails(cp, a) && PrintableTrails(cp, Pending(cp, a) + b)
    decreases |a|
  {
    if a == [] {
      assert a + b == b && Pending(cp, a) + b == b;
    } else if Lead(cp, a[0]) && |a| == 1 {
      assert Pending(cp, a) == a;
    } else {
      var k := if Lead(cp, a[0]) then 2 else 1;
      assert (a + b)[k..] == a[k..] + b;
      TrailsSuffix(cp, a[k..], b);
      if Bisected(cp, a) {
        LeftOver(cp, a[k..]);
        assert a[k..][|a[k..]| - 1..] == a[|a| - 1..];
      }
    }
  }

  /** However the text is divided into calls, the wide text and the byte kept at the end are the same. */
  lemma {:induction false} ChunksDoNotMatter(cp: CodePage, lead: Byte, chunks: seq<seq<Byte>>)
    requires Lawful(cp) && Keepable(cp, lead) && PrintableTrails(cp, Kept(lead) + Concat(chunks))
    ensures var r := WriteAll(cp, lead, chunks); var text := Kept(lead) + Concat(chunks);
      r.1 == Decode(cp, Complete(cp, text)) && Kept(r.0) == Pending(cp, text)
    decreases |chunks|
  {
    if chunks == [] {
      assert Kept(lead) + Concat(chunks) == Kept(lead);
    } else {
      var first, more := Kept(lead) + chunks[0], Concat(chunks[1..]);
      assert Kept(lead) + Concat(chunks) == first + more;
      TrailsSuffix(cp, first, more);
      WriteDecodes(cp, lead, chunks[0]);
      ChunksDoNotMatter(cp, Write(cp, lead, chunks[0]).lead, chunks[1..]);
      CompleteAppend(cp, first, more);
    }
  }

  /** Complete text comes out as if written in one call, and nothing is kept. */
  lemma WholeTextComesOut(cp: CodePage, chunks: seq<seq<Byte>>)
    requires Lawful(cp) && PrintableTrails(cp, Concat(chunks)) && !Bisected(cp, Concat(chunks))
    ensures WriteAll(cp, 0, chunks) == (0, Decode(cp, Concat(chunks)))
  {
    assert Kept(0) + Concat(chunks) == Concat(chunks);
    ChunksDoNotMatter(cp, 0, chunks);
  }

  /** A pair that ends in a control character, and where it starts. */
  lemma {:induction false} ControlTrail(cp: CodePage, s: seq<Byte>) returns (a: nat)
    requires !PrintableTrails(cp, s) && !Bisected(cp, s)
    ensures a + 1 < |s| && !Bisected(cp, s[..a]) && Lead(cp, s[a]) && s[a + 1] < 0x20 && !Bisected(cp, s[a + 2..])
  {
    var k := if Lead(cp, s[0]) then 2 else 1;
    if k == 2 && s[1] < 0x20 {
      a := 0;
    } else {
      var b := ControlTrail(cp, s[k..]);
      a := b + k;
      assert s[..a][k..] == s[k..][..b];
      assert s[k..][b + 2..] == s[a + 2..];
    }
  }

  lemma WriteTwo(cp: CodePage, a: seq<Byte>, b: seq<Byte>)
    ensures WriteAll(cp, 0, [a, b]).1 == Write(cp, 0, a).wide + Write(cp, Write(cp, 0, a).lead, b).wide
  {
    var two := [a, b];
    var one := [b];
    assert two[1..] == one && one[1..] == [];
    var c := Write(cp, 0, a);
    assert WriteAll(cp, c.lead, one).1 == Write(cp, c.lead, b).wide + [];
  }

  lemma ConcatOne(s: seq<Byte>)
    ensures Concat([s]) == s
  {
    var one := [s];
    assert one[1..] == [];
  }

  /** The lead byte at the end of the first call is lost when a control character begins the second. */
  lemma DividedWide(cp: CodePage, s: seq<Byte>, a: nat)
    requires Lawful(cp) && a + 1 < |s| && !Bisected(cp, s[..a]) && Lead(cp, s[a]) && s[a + 1] < 0x20
    requires !Bisected(cp, s[a + 2..])
    ensures WriteAll(cp, 0, [s[..a + 1], s[a + 1..]]).1 == Decode(cp, s[..a]) + Decode(cp, s[a + 1..])
  {
    var front, back := s[..a + 1], s[a + 1..];
    assert front == s[..a] + [s[a]] && front[..a] == s[..a] && back[1..] == s[a + 2..];
    WholeUnits(cp, s[..a], [s[a]]);
    assert Write(cp, 0, front).wide == [] + Decode(cp, s[..a]);
    assert Write(cp, s[a], back).wide == [] + Decode(cp, back);
    WriteTwo(cp, front, back);
  }

  /** Dividing the text inside such a pair loses the lead byte and changes the wide text. */
  lemma DivisionShows(cp: CodePage, s: seq<Byte>, a: nat)
    requires Lawful(cp) && a + 1 < |s| && !Bisected(cp, s[..a]) && Lead(cp, s[a]) && s[a + 1] < 0x20
    requires !Bisected(cp, s[a + 2..])
    ensures Concat([s[..a + 1], s[a + 1..]]) == s
    ensures WriteAll(cp, 0, [s[..a + 1], s[a + 1..]]).1 != Decode(cp, s)
  {
    hide Bisected, WriteAll;
    var front, back, x := s[..a + 1], s[a + 1..], Decode(cp, s[..a]);
    ConcatOne(back);
    assert [front, back][1..] == [back];
    DividedWide(cp, s, a);
    assert s == s[..a] + s[a..];
    WholeUnits(cp, s[..a], s[a..]);
    assert (x + Decode(cp, back))[|x|] == cp.one(s[a + 1]);
    assert Decode(cp, s)[|x|] == cp.two(s[a], s[a + 1]);
  }

  /** Complete text comes out the same for every division into calls exactly when no pair ends in a control. */
  lemma IndependentExactlyWhenPrintable(cp: CodePage, s: seq<Byte>)
    requires Lawful(cp) && !Bisected(cp, s)
    ensures (forall chunks :: Concat(chunks) == s ==> WriteAll(cp, 0, chunks).1 == Decode(cp, s))
       <==> PrintableTrails(cp, s)
  {
    if PrintableTrails(cp, s) {
      forall chunks | Concat(chunks) == s ensures WriteAll(cp, 0, chunks).1 == Decode(cp, s) {
        WholeTextComesOut(cp, chunks);
      }
    } else {
      var a := ControlTrail(cp, s);
      DivisionShows(cp, s, a);
    }
  }
}
