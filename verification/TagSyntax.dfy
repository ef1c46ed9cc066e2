/**
 The written form of declarations: what each rule of the grammar reads, exactly, and what the
 documented forms of a parameter mean, for every name and value.
 */
module TagSyntax {
  import opened Options
  import opened TagGrammar
  import opened TagParams
  import opened TagRoundTrip
  import ArgValues
  import TagReading

  // ------------------------------------------------------------------------- characters

  const DIGITS: string := "0123456789"
  const LOWER: string := "abcdefghijklmnopqrstuvwxyz"
  const UPPER: string := "ABCDEFGHIJKLMNOPQRSTUVWXYZ"

  ghost predicate OnlyFrom(s: string, chars: string) {
    forall i :: 0 <= i < |s| ==> s[i] in chars
  }

  lemma NameChars(c: char)
    ensures NameChar(c) <==> c in DIGITS + LOWER + UPPER + "_-.:@"
  {
    AlphanumericChars(c);
  }

  lemma AlphanumericChars(c: char)
    ensures Alphanumeric(c) <==> c in DIGITS + LOWER + UPPER
  {
    DigitChars(c);
    LowerChars(c);
    UpperChars(c);
  }

  lemma DigitChars(c: char)
    ensures '0' <= c <= '9' <==> c in DIGITS
  {
    if '0' <= c <= '9' {
      assert DIGITS[c as int - '0' as int] == c;
    }
  }

  lemma LowerChars(c: char)
    ensures 'a' <= c <= 'z' <==> c in LOWER
  {
    if 'a' <= c <= 'z' {
      assert LOWER[c as int - 'a' as int] == c;
    }
  }

  lemma UpperChars(c: char)
    ensures 'A' <= c <= 'Z' <==> c in UPPER
  {
    if 'A' <= c <= 'Z' {
      assert UPPER[c as int - 'A' as int] == c;
    }
  }

  lemma EnvChars(c: char)
    ensures EnvChar(c) <==> c in UPPER + "_"
  {
    UpperChars(c);
  }

  // ------------------------------------------------------------------------ single rules

  /** All of the allowed characters at the front of `s`, and at least one. */
  ghost predicate Longest(s: string, chars: string, v: string, t: string) {
    s == v + t && v != "" && OnlyFrom(v, chars) && (t != "" ==> t[0] !in chars)
  }

  lemma WhileExactly(s: string, test: char -> bool, v: string, t: string)
    ensures TakeWhile1(s, test) == Match(t, v) <==>
      && s == v + t && v != "" && (forall i :: 0 <= i < |v| ==> test(v[i])) && (t != "" ==> !test(t[0]))
  {
    if s == v + t && v != "" && (forall i :: 0 <= i < |v| ==> test(v[i])) && (t != "" ==> !test(t[0])) {
      TakesWhile(v, t, test);
    }
  }

  /** A name is the longest run of letters, digits and the five marks. */
  lemma NameExactly(s: string, v: string, t: string)
    ensures Name(s) == Match(t, v) <==> Longest(s, DIGITS + LOWER + UPPER + "_-.:@", v, t)
  {
    hide NameChar, TakeWhile1;
    WhileExactly(s, NameChar, v, t);
    forall c: char ensures NameChar(c) <==> c in DIGITS + LOWER + UPPER + "_-.:@" {
      NameChars(c);
    }
  }

  ghost predicate PlainFn(f: string) {
    f != "" && forall c :: c in f ==> c !in " \t\"'`()[]{}<>$&\\;|"
  }

  lemma FnChars(f: string)
    ensures PlainFn(f) <==> f != "" && forall i :: 0 <= i < |f| ==> FnChar(f[i])
  {
  }

  /** A function is a name between backquotes. */
  lemma FnExactly(s: string, f: string, t: string)
    ensures ValueFn(s) == Match(t, f) <==> s == "`" + f + "`" + t && PlainFn(f)
  {
    hide PlainFn, FnChar, TakeWhile1;
    FnChars(f);
    NoBackquote();
    if s == "`" + f + "`" + t && PlainFn(f) {
      assert s[1..] == f + ("`" + t);
      TakesWhile(f, "`" + t, FnChar);
    }
    if ValueFn(s) == Match(t, f) {
      var rest := TakeWhile1(s[1..], FnChar).rest;
      assert s == "`" + (f + rest) && rest == "`" + t;
      WhileExactly(s[1..], FnChar, f, rest);
    }
  }

  lemma NoBackquote()
    ensures !FnChar('`')
  {
  }

  /** An environment binding is a dollar sign and a variable, or two dollar signs. */
  lemma EnvExactly(s: string, v: string, t: string)
    ensures BindEnv(s) == Match(t, None) <==> s == " $$" + t
    ensures BindEnv(s) == Match(t, Some(v)) <==> exists u :: s == " $" + u && Longest(u, UPPER + "_", v, t)
  {
    hide EnvChar, TakeWhile1, Longest;
    assert " $" <= s ==> s == " $" + s[2..];
    assert Starts(s[if |s| < 2 then |s| else 2..], '$') ==> s[2..] == "$" + s[3..];
    var u := s[if |s| < 2 then |s| else 2..];
    WhileExactly(u, EnvChar, v, t);
    LongestEnv(u, v, t);
    assert forall w :: s == " $" + w ==> w == u;
    NoDollar(u, v, t);
  }

  lemma LongestEnv(u: string, v: string, t: string)
    ensures Longest(u, UPPER + "_", v, t) <==>
      u == v + t && v != "" && (forall i :: 0 <= i < |v| ==> EnvChar(v[i])) && (t != "" ==> !EnvChar(t[0]))
  {
    hide EnvChar;
    forall c: char ensures EnvChar(c) <==> c in UPPER + "_" {
      EnvChars(c);
    }
  }

  lemma NoDollar(u: string, v: string, t: string)
    ensures Longest(u, UPPER + "_", v, t) ==> !Starts(u, '$')
  {
    if Longest(u, UPPER + "_", v, t) {
      assert u[0] == v[0];
      EnvChars(v[0]);
    }
  }

  /** The written form of a modifier. */
  ghost predicate Writes(m: Modifier, mark: string) {
    match m
    case Optional => mark == ""
    case Required => mark == "!"
    case Terminated => mark == "~"
    case MultipleOptional => mark == "*"
    case MultipleRequired => mark == "+"
    case DelimiterOptional(c) => c in ",:;@|/" && mark == "*" + [c]
    case DelimiterRequired(c) => c in ",:;@|/" && mark == "+" + [c]
  }

  /** Nothing longer than `mark` at the front of `mark + t` is a modifier. */
  ghost predicate MarkEnds(m: Modifier, t: string) {
    && (m == Optional ==> t == "" || t[0] !in "!~*+")
    && (m == MultipleOptional || m == MultipleRequired ==> t == "" || t[0] !in ",:;@|/")
  }

  lemma MarkExactly(rest: string, m: Modifier, t: string)
    ensures Marked(rest) == (t, m) <==> exists mark :: rest == mark + t && Writes(m, mark) && MarkEnds(m, t)
  {
    hide Marked, Writes, MarkEnds;
    if Marked(rest) == (t, m) {
      MarkRead(rest);
    }
    forall mark | rest == mark + t && Writes(m, mark) && MarkEnds(m, t) ensures Marked(rest) == (t, m) {
      MarkWritten(mark, m, t);
    }
  }

  lemma MarkRead(rest: string)
    ensures var (t, m) := Marked(rest); exists mark :: rest == mark + t && Writes(m, mark) && MarkEnds(m, t)
  {
    var (t, m) := Marked(rest);
    var mark := rest[..|rest| - |t|];
    assert rest == mark + t;
    assert Writes(m, mark);
    assert MarkEnds(m, t);
  }

  lemma MarkWritten(mark: string, m: Modifier, t: string)
    requires Writes(m, mark) && MarkEnds(m, t)
    ensures Marked(mark + t) == (t, m)
  {
    var rest := mark + t;
    assert rest[|mark|..] == t;
    assert |mark| > 0 ==> rest[0] == mark[0];
    assert |mark| > 1 ==> rest[1] == mark[1];
    assert |mark| < |rest| ==> rest[|mark|] == t[0];
  }

  /** A prefix is one or two dashes or a plus, with no further one after it. */
  lemma PrefixExactly(s: string, p: string, t: string)
    ensures Prefix(s) == Match(t, p) <==>
      s == p + t && (p == "--" || p == "-" || p == "+") && !Starts(t, p[0])
  {
    if "--" <= s {
      assert s == "--" + s[2..];
      assert s[1..] == "-" + s[2..];
    } else if s != "" {
      assert s == [s[0]] + s[1..];
    }
  }

  /** How many more brackets are opened than closed. */
  ghost function Depth(s: string): int {
    if s == "" then 0
    else Depth(s[..|s| - 1]) + if s[|s| - 1] == '<' then 1 else if s[|s| - 1] == '>' then -1 else 0
  }

  /** Every bracket opened is closed, and none is closed that was not opened. */
  ghost predicate Nested(s: string) {
    Depth(s) == 0 && forall i :: 0 <= i <= |s| ==> Depth(s[..i]) >= 0
  }

  lemma {:induction false} DepthFront(c: char, s: string)
    ensures Depth([c] + s) == Depth([c]) + Depth(s)
  {
    if s == "" {
      assert [c] + s == [c];
    } else {
      var i := |s| - 1;
      DepthFront(c, s[..i]);
      assert ([c] + s)[..i + 1] == [c] + s[..i];
    }
  }

  lemma DepthOne(c: char)
    ensures Depth([c]) == if c == '<' then 1 else if c == '>' then -1 else 0
  {
    assert [c][..0] == "";
  }

  lemma {:induction false} BalancedExactly(s: string, balance: nat)
    requires balance >= 1
    ensures Balanced(s, balance) <==>
      balance + Depth(s) == 1 && forall i :: 0 <= i <= |s| ==> balance + Depth(s[..i]) >= 1
  {
    if s == "" {
      assert s[..0] == "";
    } else {
      var c, u := s[0], s[1..];
      DepthOne(c);
      assert s == [c] + u;
      DepthFront(c, u);
      assert s[..0] == "" && s[..1] == [c];
      forall i | 1 <= i <= |s| ensures Depth(s[..i]) == Depth([c]) + Depth(u[..i - 1]) {
        assert s[..i] == [c] + u[..i - 1];
        DepthFront(c, u[..i - 1]);
      }
      var next := balance + Depth([c]);
      if next >= 1 {
        BalancedExactly(u, next);
        forall i | 0 <= i <= |u| ensures next + Depth(u[..i]) == balance + Depth(s[..i + 1]) {
        }
        if Balanced(s, balance) {
          forall i | 0 <= i <= |s| ensures balance + Depth(s[..i]) >= 1 {
            assert i > 0 ==> next + Depth(u[..i - 1]) >= 1;
          }
        }
      }
    }
  }

  /** A notation stands between angle brackets and may hold nested ones. */
  lemma NotationExactly(s: string, n: string, t: string)
    ensures Notation(s) == Match(t, n) <==> s == " <" + n + ">" + t && Nested(n)
  {
    hide Notation, Balanced, Nested;
    BalancedIsNested(n);
    if s == " <" + n + ">" + t && Nested(n) {
      NotationReads(n, t);
    }
    if Notation(s) == Match(t, n) {
      NotationParts(s);
      TagReading.NotationBalanced(s);
    }
  }

  lemma BalancedIsNested(n: string)
    ensures Balanced(n, 1) <==> Nested(n)
  {
    BalancedExactly(n, 1);
  }

  lemma NotationParts(s: string)
    requires Notation(s).Match?
    ensures s == " <" + Notation(s).value + ">" + Notation(s).rest
  {
    var n := NotationEnd(s[2..], 1).value;
    assert s[2..][n - 1] == s[1 + n] == '>';
    assert s[..2] == " <" && s == s[..2] + s[2..];
    assert s[2..] == s[2..1 + n] + ([s[1 + n]] + s[2 + n..]);
  }

  ghost predicate AllWhite(s: string) {
    forall i :: 0 <= i < |s| ==> White(s[i])
  }

  /** `s` without the white space around it is `d`. */
  ghost predicate TrimsTo(s: string, d: string) {
    Trimmed(d) && exists a, b :: s == a + d + b && AllWhite(a) && AllWhite(b)
  }

  lemma {:induction false} TrimsStart(s: string)
    ensures exists a :: s == a + TrimStart(s) && AllWhite(a)
  {
    if s != "" && White(s[0]) {
      TrimsStart(s[1..]);
      var a :| s[1..] == a + TrimStart(s[1..]) && AllWhite(a);
      assert s == [s[0]] + a + TrimStart(s) && AllWhite([s[0]] + a);
    } else {
      assert s == "" + TrimStart(s) && AllWhite("");
    }
  }

  lemma {:induction false} TrimsEnd(s: string)
    ensures exists b :: s == TrimEnd(s) + b && AllWhite(b)
  {
    if s != "" && White(s[|s| - 1]) {
      var i := |s| - 1;
      TrimsEnd(s[..i]);
      var b :| s[..i] == TrimEnd(s[..i]) + b && AllWhite(b);
      assert s == TrimEnd(s) + (b + [s[i]]) && AllWhite(b + [s[i]]);
    } else {
      assert s == TrimEnd(s) + "" && AllWhite("");
    }
  }

  /** There is one text without white space around it. */
  lemma TrimsOnce(s: string, d: string, e: string)
    requires TrimsTo(s, d) && TrimsTo(s, e)
    ensures d == e
  {
    hide White;
    var a, b :| s == a + d + b && AllWhite(a) && AllWhite(b);
    var a', b' :| s == a' + e + b' && AllWhite(a') && AllWhite(b');
    Core(s, a, d, b);
    Core(s, a', e, b');
    assert d == e;
  }

  /** What is not white space lies in `d`, and so do its first and last such character. */
  lemma Core(s: string, a: string, d: string, b: string)
    requires s == a + d + b && AllWhite(a) && AllWhite(b) && Trimmed(d)
    ensures forall i :: 0 <= i < |s| && !White(s[i]) ==> |a| <= i < |a| + |d|
    ensures d != "" ==> !White(s[|a|]) && !White(s[|a| + |d| - 1])
    ensures d == s[|a|..|a| + |d|]
  {
    hide White;
    assert forall i :: 0 <= i < |a| ==> s[i] == a[i];
    assert forall i :: 0 <= i < |d| ==> s[|a| + i] == d[i];
    assert forall i :: 0 <= i < |b| ==> s[|a| + |d| + i] == b[i];
    forall i | |a| + |d| <= i < |s| ensures White(s[i]) {
      assert s[i] == b[i - |a| - |d|];
    }
  }

  /** The description is what is left without the white space around it, and has to be set off by a space or tab. */
  lemma TailExactly(s: string, d: string)
    ensures Tail(s) == Some(d) <==> (s == "" && d == "") || (s != "" && s[0] in " \t" && TrimsTo(s, d))
  {
    if s != "" && s[0] in " \t" {
      TailTrims(s);
      if TrimsTo(s, d) {
        TrimsOnce(s, d, Tail(s).value);
      }
    }
  }

  lemma TailTrims(s: string)
    requires s != "" && s[0] in " \t"
    ensures Tail(s).Some? && TrimsTo(s, Tail(s).value)
  {
    hide TrimStart, TrimEnd, Trimmed, White, AllWhite, TrimsTo;
    var n := Span(s, Space);
    SpacesBefore(s, n);
    var u := TrimStart(s[n..]);
    TrimsStart(s[n..]);
    TrimsEnd(u);
    var a :| s[n..] == a + u && AllWhite(a);
    var b :| u == TrimEnd(u) + b && AllWhite(b);
    TagReading.TailTrimmed(s);
    assert s == s[..n] + s[n..];
    TrimsParts(s[..n], a, TrimEnd(u), b);
  }

  lemma SpacesBefore(s: string, n: nat)
    requires n <= |s| && forall i :: 0 <= i < n ==> Space(s[i])
    ensures AllWhite(s[..n])
  {
  }

  lemma TrimsParts(x: string, a: string, d: string, b: string)
    requires AllWhite(x) && AllWhite(a) && Trimmed(d) && AllWhite(b)
    ensures TrimsTo(x + (a + (d + b)), d)
  {
    hide White;
    assert x + (a + (d + b)) == (x + a) + d + b;
  }

  // -------------------------------------------------------------------- documented forms

  /** A value that needs no quotes and is not the beginning of something else. */
  ghost predicate PlainValue(v: string) {
    && (forall i :: 0 <= i < |v| ==> v[i] != '|' && v[i] != ']' && !White(v[i]))
    && (v != "" ==> v[0] !in "\"'`=") && !("?`" <= v)
  }

  /** The written form of choices and a default; the first of the choices is the default after an equals sign. */
  ghost predicate WritesValue(d: Data, text: string) {
    match (d.choice, d.default)
    case (None, None) => text == ""
    case (None, Some(Value(v))) => d.modifier == Optional && PlainValue(v) && text == "=" + v
    case (None, Some(DefaultFn(f))) => d.modifier == Optional && PlainFn(f) && text == "=`" + f + "`"
    case (Some(Values(vs)), None) =>
      && vs != [] && (forall i :: 0 <= i < |vs| ==> PlainValue(vs[i]))
      && text == "[" + ArgValues.Joined(vs, '|') + "]"
    case (Some(Values(vs)), Some(Value(v))) =>
      && |vs| >= 2 && v == vs[0] && (forall i :: 0 <= i < |vs| ==> PlainValue(vs[i]))
      && text == "[=" + ArgValues.Joined(vs, '|') + "]"
    case (Some(ChoiceFn(f, true)), None) => PlainFn(f) && text == "[`" + f + "`]"
    case (Some(ChoiceFn(f, false)), None) => PlainFn(f) && text == "[?`" + f + "`]"
    case _ => false
  }

  ghost predicate WritesEnv(env: Option<Option<string>>, text: string) {
    match env
    case None => text == ""
    case Some(None) => text == " $$"
    case Some(Some(v)) => v != "" && OnlyFrom(v, UPPER + "_") && text == " $" + v
  }

  ghost predicate WritesNotations(ns: seq<string>, text: string)
    decreases |ns|
  {
    if ns == [] then text == ""
    else exists more :: Nested(ns[0]) && WritesNotations(ns[1..], more) && text == " <" + ns[0] + ">" + more
  }

  /** A description begins with nothing that could be part of the declaration. */
  ghost predicate WritesDescribe(describe: string, text: string) {
    && Trimmed(describe) && (describe != "" ==> describe[0] != '$' && describe[0] != '<')
    && text == if describe == "" then "" else " " + describe
  }

  /** The parts of a written declaration after its name. */
  datatype Written = Written(mark: string, value: string, env: string, notations: string, describe: string)

  ghost predicate Writing(w: Written, d: Data, ns: seq<string>) {
    && Writes(d.modifier, w.mark) && WritesValue(d, w.value) && WritesEnv(d.env, w.env)
    && WritesNotations(ns, w.notations) && WritesDescribe(d.describe, w.describe)
  }

  ghost function After(w: Written): string {
    w.mark + w.value + w.env + w.notations + w.describe
  }

  lemma MarkRendered(m: Modifier, mark: string)
    requires Writes(m, mark)
    ensures ModifierOk(m) && RenderModifier(m) == mark
  {
  }

  lemma PlainChoice(v: string)
    requires PlainValue(v)
    ensures ChoiceOk(v) && RenderChoice(v) == v
    ensures TextOk(v, White) && !Starts(v, '`') && RenderDefault(v) == v
  {
    hide White;
  }

  lemma {:induction false} ChoicesRendered(vs: seq<string>)
    requires vs != [] && forall i :: 0 <= i < |vs| ==> PlainValue(vs[i])
    ensures (forall i :: 0 <= i < |vs| ==> ChoiceOk(vs[i])) && RenderChoices(vs) == ArgValues.Joined(vs, '|')
  {
    hide PlainValue, ChoiceOk, RenderChoice;
    forall i | 0 <= i < |vs| ensures ChoiceOk(vs[i]) && RenderChoice(vs[i]) == vs[i] {
      PlainChoice(vs[i]);
    }
    if |vs| > 1 {
      ChoicesRendered(vs[1..]);
    }
  }

  lemma ValueRendered(d: Data, text: string)
    requires WritesValue(d, text)
    ensures ValueOk(d) && RenderValue(d.choice, d.default) == text
  {
    hide PlainValue, ChoiceOk, RenderChoices, RenderDefault, TextOk;
    match (d.choice, d.default)
    case (None, Some(Value(v))) => PlainChoice(v);
    case (Some(Values(vs)), _) => ChoicesRendered(vs);
    case _ =>
  }

  lemma EnvRendered(env: Option<Option<string>>, text: string)
    requires WritesEnv(env, text)
    ensures EnvOk(env) && RenderEnv(env) == text
  {
    hide EnvChar;
    forall c: char ensures EnvChar(c) <==> c in UPPER + "_" {
      EnvChars(c);
    }
  }

  lemma {:induction false} NotationsRendered(ns: seq<string>, text: string)
    requires WritesNotations(ns, text)
    ensures (forall i :: 0 <= i < |ns| ==> Balanced(ns[i], 1)) && RenderNotations(ns) == text
    decreases |ns|
  {
    hide Balanced, Nested;
    if ns != [] {
      var more :| Nested(ns[0]) && WritesNotations(ns[1..], more) && text == " <" + ns[0] + ">" + more;
      BalancedIsNested(ns[0]);
      NotationsRendered(ns[1..], more);
    }
  }

  lemma WritingRendered(w: Written, d: Data, ns: seq<string>)
    requires Writing(w, d, ns) && NameOk(d.name)
    ensures DataOk(d) && (forall i :: 0 <= i < |ns| ==> Balanced(ns[i], 1)) && Clear(d.env, ns, d.describe, true)
    ensures RenderBody(d, "", ns) == d.name + After(w)
  {
    hide NameOk, ModifierOk, ValueOk, EnvOk, Balanced, Writes, WritesValue, WritesEnv, WritesNotations, Clear;
    hide RenderModifier, RenderValue, RenderEnv, RenderNotations, Trimmed, After;
    MarkRendered(d.modifier, w.mark);
    ValueRendered(d, w.value);
    EnvRendered(d.env, w.env);
    NotationsRendered(ns, w.notations);
    PlainTextIsClear(d.env, ns, d.describe, true);
    Regrouped(d.name, w);
  }

  lemma Regrouped(name: string, w: Written)
    ensures name + "" + w.mark + w.value + (w.env + (w.notations + w.describe)) == name + After(w)
  {
  }

  /** A positional declared as documented is the parameter it describes. */
  lemma WrittenPositional(w: Written, d: Data, notation: Option<string>)
    requires NameOk(d.name) && Writing(w, d, if notation.Some? then [notation.value] else [])
    ensures ParsePositional(d.name + After(w)) == Some(PositionalParam(d, notation))
  {
    hide NameOk, DataOk, Balanced, Writing, Clear, ParsePositional, RenderNameValue;
    var ns := if notation.Some? then [notation.value] else [];
    WritingRendered(w, d, ns);
    ClearForOne(d, ns, notation.None?);
    PositionalRoundTrip(PositionalParam(d, notation));
    assert RenderPositional(PositionalParam(d, notation)) == RenderBody(d, "", ns);
  }

  lemma ClearForOne(d: Data, ns: seq<string>, more: bool)
    requires Clear(d.env, ns, d.describe, true)
    ensures Clear(d.env, ns, d.describe, more)
  {
  }

  /** The marks for a prefixed and for an assigned option after its name. */
  ghost function Marks(prefixed: bool, assign: bool): string {
    (if prefixed then "-" else "") + (if assign then ":" else "")
  }

  lemma MarksMean(d: Data, short: Option<string>, prefix: string, prefixed: bool, assign: bool, ns: seq<string>)
    requires d.name != "" && d.name[|d.name| - 1] != '-' && d.name[|d.name| - 1] != ':'
    ensures NewOption(d.(name := d.name + Marks(prefixed, assign)), short, prefix, ns)
         == OptionParam(d, short, prefix, prefixed, assign, ns)
  {
    hide EndsWith;
    var n := d.name + Marks(prefixed, assign);
    var n1 := d.name + Marks(prefixed, false);
    MarksAgree(n);
    MarksAgree(n1);
    assert assign ==> n[|n| - 1] == ':' && n[..|n| - 1] == n1;
    assert !assign ==> n == n1;
    assert prefixed ==> n1[|n1| - 1] == '-' && n1[..|n1| - 1] == d.name;
    assert !prefixed ==> n1 == d.name;
  }

  /** An option declared as documented is the option it describes, exactly unless its source is lost. */
  lemma WrittenOption(w: Written, d: Data, short: Option<string>, prefix: string, prefixed: bool, assign: bool,
                      ns: seq<string>)
    requires NameOk(d.name) && d.name[|d.name| - 1] != '-' && d.name[|d.name| - 1] != ':'
    requires ShortOk(short) && PrefixOk(prefix) && Writing(w, d, ns)
    ensures var e := d.(name := d.name + Marks(prefixed, assign));
      ParseOption((if short.Some? then short.value + " " else "") + prefix + e.name + After(w))
        == Some(OptionParam(d, short, prefix, prefixed, assign, ns))
      <==> !Lost(e, short, prefix, ns)
  {
    hide NameOk, DataOk, Balanced, Writing, Clear, ParsePositional, RenderBody, ParseOption, NewOption, Lost,
      After;
    var e := d.(name := d.name + Marks(prefixed, assign));
    NameMarked(d.name, prefixed, assign);
    SameWriting(w, d, e, ns);
    WritingRendered(w, e, ns);
    BodySourceReads(e, short, prefix, ns);
    MarksMean(d, short, prefix, prefixed, assign, ns);
    Headed(RenderShort(short), prefix, e.name, After(w));
  }

  lemma Headed(short: string, prefix: string, name: string, rest: string)
    ensures short + prefix + name + rest == short + (prefix + (name + rest))
  {
  }

  lemma NameMarked(name: string, prefixed: bool, assign: bool)
    requires NameOk(name)
    ensures name != "" && NameOk(name + Marks(prefixed, assign))
  {
  }

  lemma SameWriting(w: Written, d: Data, e: Data, ns: seq<string>)
    requires Writing(w, d, ns) && e == d.(name := e.name)
    ensures Writing(w, e, ns)
  {
    hide WritesNotations;
  }
}
