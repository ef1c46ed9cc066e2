/**
 The bytes sent to the terminal: characters made printable and encoded as UTF-8, and the control
 sequences that position the cursor and set attributes; and how a terminal reads them back.
 */
module VtText {
  import opened Numbers
  import opened Options

  type Unit = x: int | 0 <= x < 0x10000

  const ESC: Byte := 27
  const SPACE: Unit := 0x20
  const REPLACEMENT: Unit := 0xFFFD

  // ----------------------------------------------------------------------- sanitizing

  predicate Surrogate(ch: Unit) {
    0xD800 <= ch <= 0xDFFF
  }

  predicate Control(ch: int) {
    ch <= 0x1F || 0x7F <= ch <= 0x9F
  }

  /** The symbols code page 437 shows for the codes below the space. */
  const SYMBOLS: seq<Unit> := [
    0x0020, 0x263A, 0x263B, 0x2665, 0x2666, 0x2663, 0x2660, 0x2022,
    0x25D8, 0x25CB, 0x25D9, 0x2642, 0x2640, 0x266A, 0x266B, 0x263C,
    0x25BA, 0x25C4, 0x2195, 0x203C, 0x00B6, 0x00A7, 0x25AC, 0x21A8,
    0x2191, 0x2193, 0x2192, 0x2190, 0x221F, 0x2194, 0x25B2, 0x25BC]

  function Sanitize(ch: Unit): (r: Unit)
    ensures !Control(r) && !Surrogate(r)
    ensures !Control(ch) && !Surrogate(ch) ==> r == ch
  {
    if ch < 0x20 then SYMBOLS[ch]
    else if ch == 0x7F then 0x2302
    else if 0x7F < ch < 0xA0 then 0x3F
    else if Surrogate(ch) then REPLACEMENT
    else ch
  }

  // ---------------------------------------------------------------------------- UTF-8

  function Encode(ch: Unit): (r: seq<Byte>)
    ensures 1 <= |r| <= 3
  {
    var c := if Surrogate(ch) then REPLACEMENT else ch;
    if c <= 0x7F then [c]
    else if c <= 0x7FF then [0xC0 + c / 64, 0x80 + c % 64]
    else [0xE0 + c / 4096, 0x80 + c / 64 % 64, 0x80 + c % 64]
  }

  predicate Tail(b: Byte) {
    0x80 <= b <= 0xBF
  }

  /** The six bits of a continuation byte after the bits read so far. */
  function Add(code: int, b: int): int {
    code * 64 + b - 0x80
  }

  /**
   The first character of a UTF-8 text and its number of bytes, by section 3 of RFC 3629: the
   shortest form only, no surrogates, nothing above U+10FFFF.
   */
  function DecodeFirst(s: seq<Byte>): (r: Option<(int, nat)>)
    requires s != []
    ensures r.Some? ==> 1 <= r.value.1 <= |s|
  {
    var b := s[0];
    if b <= 0x7F then Some((b, 1))
    else if 0xC0 <= b <= 0xDF && |s| >= 2 && Tail(s[1]) then
      Checked(Add(b - 0xC0, s[1]), 0x80, 2)
    else if 0xE0 <= b <= 0xEF && |s| >= 3 && Tail(s[1]) && Tail(s[2]) then
      Checked(Add(Add(b - 0xE0, s[1]), s[2]), 0x800, 3)
    else if 0xF0 <= b <= 0xF7 && |s| >= 4 && Tail(s[1]) && Tail(s[2]) && Tail(s[3]) then
      Checked(Add(Add(Add(b - 0xF0, s[1]), s[2]), s[3]), 0x10000, 4)
    else None
  }

  function Checked(code: int, least: int, length: nat): (r: Option<(int, nat)>)
    ensures r.Some? ==> r.value == (code, length)
  {
    if least <= code <= 0x10FFFF && !(0xD800 <= code <= 0xDFFF) then Some((code, length)) else None
  }

  /** What is encoded is decoded again, whatever follows; a surrogate becomes the replacement character. */
  lemma EncodeDecodes(ch: Unit, rest: seq<Byte>)
    ensures DecodeFirst(Encode(ch) + rest) == Some((if Surrogate(ch) then REPLACEMENT else ch, |Encode(ch)|))
    ensures (Encode(ch) + rest)[|Encode(ch)|..] == rest
    ensures Encode(ch)[0] == ESC ==> ch == ESC
  {
    var c: int := if Surrogate(ch) then REPLACEMENT else ch;
    if c > 0x7FF {
      assert c == c / 4096 * 4096 + c / 64 % 64 * 64 + c % 64;
    }
  }

  /** What is decoded as a character of the basic plane is its encoding and no other bytes. */
  lemma DecodesOnlyEncodings(s: seq<Byte>)
    requires s != [] && DecodeFirst(s).Some?
    ensures var (code, n) := DecodeFirst(s).value;
      && 0 <= code <= 0x10FFFF && (code > 0xFFFF <==> n == 4)
      && (code <= 0xFFFF ==> !Surrogate(code) && s[..n] == Encode(code))
  {
    var (code, n) := DecodeFirst(s).value;
    if n == 2 {
      TwoBytes(s[0] - 0xC0, s[1]);
    } else if n == 3 {
      ThreeBytes(s[0] - 0xE0, s[1], s[2]);
    }
  }

  lemma TwoBytes(a: nat, b: Byte)
    requires Tail(b)
    ensures Add(a, b) / 64 == a && 0x80 + Add(a, b) % 64 == b
  {
  }

  lemma ThreeBytes(a: nat, b: Byte, c: Byte)
    requires Tail(b) && Tail(c)
    ensures var code := Add(Add(a, b), c);
      code / 4096 == a && 0x80 + code / 64 % 64 == b && 0x80 + code % 64 == c
  {
    TwoBytes(a, b);
    TwoBytes(Add(a, b), c);
  }

  // ---------------------------------------------------------------- control sequences

  /** What attributes look like: reverse video, and the palette indexes of colours that are not defaults. */
  datatype Look = Look(reverse: bool, foreground: Option<Index>, background: Option<Index>)

  type Index = i: int | 0 <= i < 16

  function Digits(n: nat): seq<Byte> {
    if n < 10 then [48 + n] else Digits(n / 10) + [48 + n % 10]
  }

  /** The selector of a palette colour: 30 to 37, then 90 to 97. */
  function Selector(i: Index): nat {
    if i < 8 then 30 + i else 82 + i
  }

  function LookParams(look: Look): seq<Byte> {
    [48] + (if look.reverse then [59, 55] else [])
    + (if look.foreground.Some? then [59] + Digits(Selector(look.foreground.value)) else [])
    + (if look.background.Some? then [59] + Digits(Selector(look.background.value) + 10) else [])
  }

  /** What is written: a cursor position, attributes, or a character. */
  datatype Item = Position(x: nat, y: nat) | Attributes(look: Look) | Character(ch: Unit)

  function PositionParams(x: nat, y: nat): seq<Byte> {
    Digits(y + 1) + [59] + Digits(x + 1)
  }

  function Render(item: Item): seq<Byte> {
    match item
    case Position(x, y) => [ESC, 91] + PositionParams(x, y) + [72]
    case Attributes(look) => [ESC, 91] + LookParams(look) + [109]
    case Character(ch) => Encode(ch)
  }

  function RenderAll(items: seq<Item>): seq<Byte> {
    if items == [] then [] else Render(items[0]) + RenderAll(items[1..])
  }

  // -------------------------------------------------------------------------- reading

  /** What a terminal reads: a control sequence, a character, or a byte that is not text. */
  datatype Token = Sequence(params: seq<Byte>, final: Byte) | Text(code: int) | Invalid(byte: Byte)

  predicate Param(b: Byte) {
    0x30 <= b <= 0x3F
  }

  predicate Params(s: seq<Byte>) {
    forall i :: 0 <= i < |s| ==> Param(s[i])
  }

  /** The number of parameter bytes at the front. */
  function ParamCount(s: seq<Byte>): (n: nat)
    ensures n <= |s|
  {
    if s == [] || !Param(s[0]) then 0 else 1 + ParamCount(s[1..])
  }

  function ReadOne(s: seq<Byte>): (r: (Token, nat))
    requires s != []
    ensures 1 <= r.1 <= |s|
  {
    if s[0] == ESC && |s| >= 2 && s[1] == 91 && 2 + ParamCount(s[2..]) < |s| then
      var n := ParamCount(s[2..]);
      (Sequence(s[2..2 + n], s[2 + n]), 3 + n)
    else match DecodeFirst(s)
      case Some((code, n)) => (Text(code), n)
      case None => (Invalid(s[0]), 1)
  }

  function Read(s: seq<Byte>): seq<Token>
    decreases |s|
  {
    if s == [] then [] else [ReadOne(s).0] + Read(s[ReadOne(s).1..])
  }

  /** What a terminal should read for an item. */
  function Meaning(item: Item): Token {
    match item
    case Position(x, y) => Sequence(PositionParams(x, y), 72)
    case Attributes(look) => Sequence(LookParams(look), 109)
    case Character(ch) => Text(ch)
  }

  function Meanings(items: seq<Item>): seq<Token> {
    if items == [] then [] else [Meaning(items[0])] + Meanings(items[1..])
  }

  /** Every character is printable. */
  ghost predicate Printable(items: seq<Item>) {
    forall i :: 0 <= i < |items| && items[i].Character? ==> !Control(items[i].ch) && !Surrogate(items[i].ch)
  }

  lemma {:induction false} DigitsAreParams(n: nat)
    ensures Params(Digits(n))
  {
    if n >= 10 {
      DigitsAreParams(n / 10);
    }
  }

  lemma LookIsParams(look: Look)
    ensures Params(LookParams(look))
  {
    if look.foreground.Some? {
      DigitsAreParams(Selector(look.foreground.value));
    }
    if look.background.Some? {
      DigitsAreParams(Selector(look.background.value) + 10);
    }
  }

  lemma {:induction false} CountsParams(p: seq<Byte>, rest: seq<Byte>)
    requires Params(p) && rest != [] && !Param(rest[0])
    ensures ParamCount(p + rest) == |p|
  {
    if p == [] {
      assert p + rest == rest;
    } else {
      assert (p + rest)[1..] == p[1..] + rest;
      CountsParams(p[1..], rest);
    }
  }

  lemma ReadsSequence(p: seq<Byte>, final: Byte, rest: seq<Byte>)
    requires Params(p) && !Param(final)
    ensures var s := [ESC, 91] + p + [final] + rest;
      ReadOne(s) == (Sequence(p, final), 3 + |p|) && s[3 + |p|..] == rest
  {
    var s := [ESC, 91] + p + [final] + rest;
    assert s[2..] == p + ([final] + rest);
    CountsParams(p, [final] + rest);
    assert s[2..2 + |p|] == p && s[2 + |p|] == final;
  }

  lemma ReadsBackOne(item: Item, rest: seq<Byte>)
    requires item.Character? ==> !Control(item.ch) && !Surrogate(item.ch)
    ensures var s := Render(item) + rest;
      s != [] && ReadOne(s) == (Meaning(item), |Render(item)|) && s[|Render(item)|..] == rest
  {
    match item
    case Position(x, y) =>
      DigitsAreParams(y + 1);
      DigitsAreParams(x + 1);
      ReadsSequence(PositionParams(x, y), 72, rest);
    case Attributes(look) =>
      LookIsParams(look);
      ReadsSequence(LookParams(look), 109, rest);
    case Character(ch) =>
      EncodeDecodes(ch, rest);
  }

  lemma {:induction false} ReadsTokens(items: seq<Item>)
    requires Printable(items)
    ensures Read(RenderAll(items)) == Meanings(items)
  {
    if items != [] {
      ReadsBackOne(items[0], RenderAll(items[1..]));
      ReadsTokens(items[1..]);
    }
  }

  // --------------------------------------------------------------- what a terminal does then

  /** The number that decimal digits write. */
  function Number(s: seq<Byte>): int {
    if s == [] then 0 else Number(s[..|s| - 1]) * 10 + s[|s| - 1] - 48
  }

  /** The parameters of a control sequence: numbers separated by semicolons. */
  function Numerals(s: seq<Byte>): (r: seq<int>)
    ensures r != []
  {
    var n := LastField(s);
    if n == |s| then [Number(s)] else Numerals(s[..|s| - n - 1]) + [Number(s[|s| - n..])]
  }

  /** The length of the last parameter. */
  function LastField(s: seq<Byte>): (n: nat)
    ensures n <= |s| && (n < |s| ==> s[|s| - n - 1] == 59) && forall i :: |s| - n <= i < |s| ==> s[i] != 59
  {
    if s == [] || s[|s| - 1] == 59 then 0 else 1 + LastField(s[..|s| - 1])
  }

  /** What a terminal does on reading: goes to a row and column counted from 1, takes a look, or shows a character. */
  datatype Act = Goes(row: int, column: int) | Looks(look: Look) | Shows(code: int) | Other

  const PLAIN: Look := Look(false, None, None)

  /** One selection of graphic rendition: 30-37 and 90-97 are foregrounds, 40-47 and 100-107 backgrounds. */
  function Select(look: Look, n: int): Look {
    if n == 0 then PLAIN
    else if n == 7 then look.(reverse := true)
    else if n == 27 then look.(reverse := false)
    else if 30 <= n <= 37 then look.(foreground := Some(n - 30))
    else if n == 39 then look.(foreground := None)
    else if 40 <= n <= 47 then look.(background := Some(n - 40))
    else if n == 49 then look.(background := None)
    else if 90 <= n <= 97 then look.(foreground := Some(n - 90 + 8))
    else if 100 <= n <= 107 then look.(background := Some(n - 100 + 8))
    else look
  }

  function Selected(look: Look, ns: seq<int>): Look {
    if ns == [] then look else Select(Selected(look, ns[..|ns| - 1]), ns[|ns| - 1])
  }

  function ActOn(token: Token, look: Look): Act {
    match token
    case Text(code) => Shows(code)
    case Invalid(_) => Other
    case Sequence(params, final) =>
      var ns := Numerals(params);
      if final == 72 && |ns| == 2 then Goes(ns[0], ns[1])
      else if final == 109 then Looks(Selected(look, ns))
      else Other
  }

  /** What the terminal does on a whole text, from the look in force before it. */
  function Acts(tokens: seq<Token>, look: Look): seq<Act> {
    if tokens == [] then []
    else
      var act := ActOn(tokens[0], look);
      [act] + Acts(tokens[1..], if act.Looks? then act.look else look)
  }

  /** What the terminal is meant to do for an item. */
  function Wanted(item: Item): Act {
    match item
    case Position(x, y) => Goes(y + 1, x + 1)
    case Attributes(look) => Looks(look)
    case Character(ch) => Shows(ch)
  }

  function AllWanted(items: seq<Item>): (r: seq<Act>)
    ensures |r| == |items| && forall i :: 0 <= i < |r| ==> r[i] == Wanted(items[i])
  {
    seq(|items|, i requires 0 <= i < |items| => Wanted(items[i]))
  }

  ghost predicate AllDigits(s: seq<Byte>) {
    forall i :: 0 <= i < |s| ==> 48 <= s[i] <= 57
  }

  lemma {:induction false} DigitsRead(n: nat)
    ensures Number(Digits(n)) == n && AllDigits(Digits(n)) && Digits(n) != []
  {
    if n >= 10 {
      DigitsRead(n / 10);
      var s := Digits(n);
      assert s[..|s| - 1] == Digits(n / 10);
    } else {
      assert Digits(n)[..0] == [];
    }
  }

  lemma {:induction false} FieldEnds(p: seq<Byte>, a: seq<Byte>)
    requires AllDigits(a)
    ensures LastField(p + [59] + a) == |a|
    ensures LastField(a) == |a|
    decreases |a|
  {
    if a != [] {
      var s, front := p + [59] + a, a[..|a| - 1];
      FieldEnds(p, front);
      assert s[..|s| - 1] == p + [59] + front;
    }
  }

  lemma NumeralsOne(n: nat)
    ensures Numerals(Digits(n)) == [n]
  {
    hide Number, Digits;
    DigitsRead(n);
    FieldEnds([], Digits(n));
  }

  lemma NumeralsMore(p: seq<Byte>, n: nat)
    ensures Numerals(p + [59] + Digits(n)) == Numerals(p) + [n]
  {
    hide Number, Digits;
    var a := Digits(n);
    var s := p + [59] + a;
    DigitsRead(n);
    FieldEnds(p, a);
    assert s[..|s| - |a| - 1] == p && s[|s| - |a|..] == a;
  }

  lemma PositionActs(x: nat, y: nat, look: Look)
    ensures ActOn(Meaning(Position(x, y)), look) == Goes(y + 1, x + 1)
  {
    hide Numerals, Digits;
    NumeralsOne(y + 1);
    NumeralsMore(Digits(y + 1), x + 1);
  }

  lemma SelectedMore(look: Look, ns: seq<int>, n: int)
    ensures Selected(look, ns + [n]) == Select(Selected(look, ns), n)
  {
    assert (ns + [n])[..|ns|] == ns;
  }

  /** One more selector after the ones before. */
  lemma SelectorReads(look: Look, p: seq<Byte>, n: nat)
    ensures Selected(look, Numerals(p + [59] + Digits(n))) == Select(Selected(look, Numerals(p)), n)
  {
    hide Numerals, Digits, Select, Selected;
    NumeralsMore(p, n);
    SelectedMore(look, Numerals(p), n);
  }

  lemma LookActs(want: Look, look: Look)
    ensures Selected(look, Numerals(LookParams(want))) == want
  {
    hide Numerals, Digits, Selected;
    var p := [48];
    assert p == Digits(0) && [59, 55] == [59] + Digits(7) by { SmallDigits(); }
    NumeralsOne(0);
    SelectedMore(look, [], 0);
    assert [] + [0] == [0];
    assert Selected(look, Numerals(p)) == PLAIN;
    var q := if want.reverse then p + [59] + Digits(7) else p;
    SelectorReads(look, p, 7);
    assert Selected(look, Numerals(q)) == PLAIN.(reverse := want.reverse);
    var r := q;
    if want.foreground.Some? {
      r := q + [59] + Digits(Selector(want.foreground.value));
      SelectorReads(look, q, Selector(want.foreground.value));
    }
    assert Selected(look, Numerals(r)) == PLAIN.(reverse := want.reverse, foreground := want.foreground);
    var s := r;
    if want.background.Some? {
      s := r + [59] + Digits(Selector(want.background.value) + 10);
      SelectorReads(look, r, Selector(want.background.value) + 10);
    }
    assert LookParams(want) == s;
  }

  lemma SmallDigits()
    ensures Digits(0) == [48] && Digits(7) == [55]
  {
  }

  lemma MeaningActs(item: Item, look: Look)
    ensures ActOn(Meaning(item), look) == Wanted(item)
  {
    hide Numerals, Selected, LookParams, PositionParams;
    match item
    case Position(x, y) => PositionActs(x, y, look);
    case Attributes(want) => LookActs(want, look);
    case Character(_) =>
  }

  lemma {:induction false} MeaningsAct(items: seq<Item>, look: Look)
    ensures Acts(Meanings(items), look) == AllWanted(items)
  {
    hide ActOn, Meaning, Wanted;
    if items != [] {
      var act := Wanted(items[0]);
      MeaningActs(items[0], look);
      MeaningsAct(items[1..], if act.Looks? then act.look else look);
      assert AllWanted(items) == [act] + AllWanted(items[1..]);
    }
  }

  /**
   A terminal does exactly what was meant, whatever its look before: it goes to each place, takes on each
   look and shows each character; no character acts as a control.
   */
  lemma ReadsBack(items: seq<Item>, look: Look)
    requires Printable(items)
    ensures Acts(Read(RenderAll(items)), look) == AllWanted(items)
  {
    hide RenderAll, Read, Acts, AllWanted;
    ReadsTokens(items);
    MeaningsAct(items, look);
  }
}
