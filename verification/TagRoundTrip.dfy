/**
 Reading back what was rendered: the grammar applied to the source of a parameter gives the
 parameter again.
 */
module TagRoundTrip {
  import opened Options
  import opened TagGrammar
  import opened TagParams

  // ------------------------------------------------------------------- well-formed parts

  ghost predicate NameOk(name: string) {
    name != "" && forall i :: 0 <= i < |name| ==> NameChar(name[i])
  }

  predicate ModifierOk(m: Modifier) {
    m.DelimiterOptional? || m.DelimiterRequired? ==> Delimiter(m.delimiter)
  }

  predicate QuoteMark(c: char) {
    c == '"' || c == '\''
  }

  /** No quote or backslash inside text that must be quoted, and no quote in front of other text. */
  predicate TextOk(v: string, ends: char -> bool) {
    if exists i :: 0 <= i < |v| && ends(v[i]) then '"' !in v && '\\' !in v
    else v != "" ==> !QuoteMark(v[0])
  }

  /** Not the beginning of a default, a function or a function that does not validate. */
  predicate ChoiceOk(v: string) {
    TextOk(v, EndsChoice) && !Starts(v, '=') && !Starts(v, '`') && !("?`" <= v)
  }

  ghost predicate FnOk(f: string) {
    f != "" && forall i :: 0 <= i < |f| ==> FnChar(f[i])
  }

  /** What a value can be: a default beside choices is the first of two or more, one alone has no modifier. */
  ghost predicate ValueOk(d: Data) {
    match d.choice
    case Some(Values(vs)) =>
      && vs != [] && (forall i :: 0 <= i < |vs| ==> ChoiceOk(vs[i]))
      && (d.default.Some? ==> |vs| >= 2 && d.default.value == Value(vs[0]))
    case Some(ChoiceFn(f, _)) => FnOk(f) && d.default.None?
    case None =>
      match d.default
      case None => true
      case Some(Value(v)) => d.modifier == Optional && TextOk(v, White) && !Starts(v, '`')
      case Some(DefaultFn(f)) => d.modifier == Optional && FnOk(f)
  }

  ghost predicate DataOk(d: Data) {
    NameOk(d.name) && ModifierOk(d.modifier) && ValueOk(d) && EnvOk(d.env) && Trimmed(d.describe)
  }

  /** What may follow a name and its value. */
  predicate Follows(t: string) {
    t == "" || t[0] == ' '
  }

  // ----------------------------------------------------------------------- small pieces

  lemma {:induction false} SpanExact(a: string, t: string, test: char -> bool)
    requires (forall i :: 0 <= i < |a| ==> test(a[i])) && (t != "" ==> !test(t[0]))
    ensures Span(a + t, test) == |a|
  {
    if a == "" {
      assert a + t == t;
    } else {
      assert (a + t)[1..] == a[1..] + t;
      SpanExact(a[1..], t, test);
    }
  }

  lemma TakesWhile(a: string, t: string, test: char -> bool)
    requires a != "" && (forall i :: 0 <= i < |a| ==> test(a[i])) && (t != "" ==> !test(t[0]))
    ensures TakeWhile1(a + t, test) == Match(t, a)
  {
    SpanExact(a, t, test);
    assert (a + t)[|a|..] == t && (a + t)[..|a|] == a;
  }

  lemma TakesTill(a: string, t: string, stop: char -> bool)
    requires (forall i :: 0 <= i < |a| ==> !stop(a[i])) && (t != "" ==> stop(t[0]))
    ensures TakeTill(a + t, stop) == Match(t, a)
  {
    SpanExact(a, t, c => !stop(c));
    assert (a + t)[|a|..] == t && (a + t)[..|a|] == a;
  }

  lemma {:induction false} EscapedReads(v: string, t: string)
    requires '"' !in v && '\\' !in v
    ensures Escaped(v + ("\"" + t), '"') == Some(|v|)
  {
    var s := v + ("\"" + t);
    if v == "" {
      assert s[0] == '"';
    } else {
      assert s[1..] == v[1..] + ("\"" + t) && s[0] == v[0];
      assert v[0] in v && forall c :: c in v[1..] ==> c in v;
      EscapedReads(v[1..], t);
    }
  }

  lemma QuoteReads(v: string, t: string)
    requires '"' !in v && '\\' !in v
    ensures QuotedString(Quote(v) + t) == Match(t, v)
  {
    var s := Quote(v) + t;
    assert s[1..] == v + ("\"" + t) && s[0] == '"';
    EscapedReads(v, t);
    assert s[1 + |v|..] == "\"" + t && s[2 + |v|..] == t && s[1..1 + |v|] == v;
  }

  lemma NotQuoted(s: string)
    requires s != "" ==> !QuoteMark(s[0])
    ensures QuotedString(s) == Miss
  {
  }

  lemma ChoiceReads(v: string, t: string)
    requires ChoiceOk(v) && t != "" && EndsChoice(t[0])
    ensures ChoiceValue(RenderChoice(v) + t) == Match(t, v)
  {
    if exists i :: 0 <= i < |v| && EndsChoice(v[i]) {
      QuoteReads(v, t);
      assert (Quote(v) + t)[0] == '"';
    } else {
      var s := v + t;
      assert s[0] == if v == "" then t[0] else v[0];
      NotQuoted(s);
      TakesTill(v, t, EndsChoice);
    }
  }

  lemma {:induction false} ChoicesRead(vs: seq<string>, t: string)
    requires vs != [] && (forall i :: 0 <= i < |vs| ==> ChoiceOk(vs[i])) && Starts(t, ']')
    ensures Choices(RenderChoices(vs) + t) == Match(t, vs)
  {
    hide ChoiceValue, RenderChoice, ChoiceOk;
    if |vs| == 1 {
      ChoiceReads(vs[0], t);
      assert [vs[0]] == vs;
    } else {
      var more := RenderChoices(vs[1..]) + t;
      ChoicesSplit(vs, t);
      ChoiceReads(vs[0], "|" + more);
      ChoicesRead(vs[1..], t);
      Cons('|', more);
      HeadAndTail(vs);
    }
  }

  lemma ChoicesSplit(vs: seq<string>, t: string)
    requires |vs| >= 2
    ensures RenderChoices(vs) + t == RenderChoice(vs[0]) + ("|" + (RenderChoices(vs[1..]) + t))
  {
    hide RenderChoice;
  }

  lemma ChoicesDefaultRead(vs: seq<string>, t: string)
    requires |vs| >= 2 && (forall i :: 0 <= i < |vs| ==> ChoiceOk(vs[i])) && Starts(t, ']')
    ensures ChoicesDefault("=" + (RenderChoices(vs) + t)) == Match(t, vs)
  {
    hide ChoiceValue, RenderChoice, ChoiceOk, Choices, RenderChoices, Starts;
    var more := RenderChoices(vs[1..]) + t;
    ChoicesSplit(vs, t);
    Cons('=', RenderChoices(vs) + t);
    Cons('|', more);
    ChoiceReads(vs[0], "|" + more);
    ChoicesRead(vs[1..], t);
    HeadAndTail(vs);
  }

  lemma Cons(c: char, t: string)
    ensures Starts([c] + t, c) && ([c] + t)[1..] == t && |[c] + t| == 1 + |t| && ([c] + t)[0] == c
  {
  }

  lemma HeadAndTail(vs: seq<string>)
    requires vs != []
    ensures [vs[0]] + vs[1..] == vs
  {
  }

  lemma DefaultReads(v: string, t: string)
    requires TextOk(v, White) && Follows(t)
    ensures DefaultValue(RenderDefault(v) + t) == Match(t, v)
  {
    hide QuotedString, TakeTill, Quote;
    if exists i :: 0 <= i < |v| && White(v[i]) {
      QuoteReads(v, t);
    } else {
      var s := v + t;
      assert s != "" ==> s[0] == if v == "" then t[0] else v[0];
      NotQuoted(s);
      TakesTill(v, t, White);
    }
  }

  lemma FnReads(f: string, t: string)
    requires FnOk(f)
    ensures ValueFn("`" + (f + ("`" + t))) == Match(t, f)
  {
    var s := "`" + (f + ("`" + t));
    assert s[1..] == f + ("`" + t);
    TakesWhile(f, "`" + t, FnChar);
    assert ("`" + t)[1..] == t;
  }

  lemma NameReads(name: string, t: string)
    requires NameOk(name) && (t != "" ==> !NameChar(t[0]))
    ensures Name(name + t) == Match(t, name)
  {
    TakesWhile(name, t, NameChar);
  }

  lemma ModifiedReads(name: string, m: Modifier, t: string)
    requires NameOk(name) && ModifierOk(m) && (t != "" ==> t[0] in "[= ")
    ensures Modified(name + (RenderModifier(m) + t)) == Match(t, Named(name).(modifier := m))
  {
    hide Name, NameChar, NameOk, Marked, RenderModifier;
    NotInName(m, t);
    NameReads(name, RenderModifier(m) + t);
    MarkReads(m, t);
  }

  lemma MarkReads(m: Modifier, t: string)
    requires ModifierOk(m) && (t != "" ==> t[0] in "[= ")
    ensures Marked(RenderModifier(m) + t) == (t, m)
  {
    hide Delimiter;
    var mt := RenderModifier(m) + t;
    match m
    case Optional => assert mt == t;
    case Required => assert mt[1..] == t;
    case Terminated => assert mt[1..] == t;
    case MultipleOptional => NotDelimited(mt, t);
    case MultipleRequired => NotDelimited(mt, t);
    case DelimiterOptional(c) => assert mt[2..] == t && mt[1] == c;
    case DelimiterRequired(c) => assert mt[2..] == t && mt[1] == c;
  }

  lemma NotInName(m: Modifier, t: string)
    requires t != "" ==> t[0] in "[= "
    ensures var mt := RenderModifier(m) + t; mt != "" ==> !NameChar(mt[0])
  {
    var mt := RenderModifier(m) + t;
    assert mt != "" ==> mt[0] == if m == Optional then t[0] else RenderModifier(m)[0];
  }

  lemma NotDelimited(mt: string, t: string)
    requires |mt| == 1 + |t| && mt[1..] == t && (t != "" ==> t[0] in "[= ")
    ensures |mt| > 1 ==> !Delimiter(mt[1])
  {
    assert t != "" ==> mt[1] == t[0];
  }

  // --------------------------------------------------------------------- name and value

  lemma NotAFunction(vs: seq<string>, t: string)
    requires vs != [] && ChoiceOk(vs[0]) && Starts(t, ']')
    ensures var body := RenderChoices(vs) + t;
      !Starts(body, '=') && !Starts(body, '`') && !("?`" <= body)
  {
    var v := vs[0];
    var u := if |vs| == 1 then t else "|" + (RenderChoices(vs[1..]) + t);
    assert RenderChoices(vs) + t == RenderChoice(v) + u by {
      if |vs| > 1 {
        ChoicesSplit(vs, t);
      }
    }
    hide RenderChoices;
    var body := RenderChoice(v) + u;
    if exists i :: 0 <= i < |v| && EndsChoice(v[i]) {
      assert body[0] == '"';
    } else {
      assert body[0] == if v == "" then u[0] else v[0];
      assert |v| >= 1 && |body| >= 2 ==> body[1] == if |v| == 1 then u[0] else v[1];
    }
  }

  /** The front of a rendered name and value, as the rules for brackets see it. */
  lemma BracketedReads(name: string, m: Modifier, t: string)
    requires NameOk(name) && ModifierOk(m) && (t != "" ==> t[0] in "[= ")
    ensures Bracketed(name + (RenderModifier(m) + t)) ==
      if Starts(t, '[') then Match(t, Named(name).(modifier := m)) else Miss
  {
    hide Modified;
    ModifiedReads(name, m, t);
  }

  lemma ReadsChoices(name: string, m: Modifier, vs: seq<string>, t: string)
    requires NameOk(name) && ModifierOk(m) && vs != [] && (forall i :: 0 <= i < |vs| ==> ChoiceOk(vs[i]))
    ensures NameValue(name + (RenderModifier(m) + ("[" + (RenderChoices(vs) + ("]" + t)))))
         == Match(t, Named(name).(modifier := m, choice := Some(Values(vs))))
  {
    hide Bracketed, ParamChoicesDefault, ParamChoicesFn, ParamChoices, ChoiceOk, NameOk, ModifierOk, RenderChoices,
      RenderModifier;
    var s, body := name + (RenderModifier(m) + ("[" + (RenderChoices(vs) + ("]" + t)))), RenderChoices(vs) + ("]" + t);
    BracketedReads(name, m, "[" + body);
    Cons('[', body);
    NotAFunction(vs, "]" + t);
    NoDefaultInBrackets(s, body, Named(name).(modifier := m));
    ChoicesInBrackets(s, vs, t, Named(name).(modifier := m));
  }

  lemma NoDefaultInBrackets(s: string, body: string, d: Data)
    requires Bracketed(s) == Match("[" + body, d) && !Starts(body, '=') && !Starts(body, '`') && !("?`" <= body)
    ensures ParamChoicesDefault(s).Miss? && ParamChoicesFn(s).Miss?
  {
    hide Bracketed;
    Cons('[', body);
    assert Starts(body, '?') ==> ("[" + body)[2..] == body[1..];
  }

  lemma ChoicesInBrackets(s: string, vs: seq<string>, t: string, d: Data)
    requires vs != [] && (forall i :: 0 <= i < |vs| ==> ChoiceOk(vs[i]))
    requires Bracketed(s) == Match("[" + (RenderChoices(vs) + ("]" + t)), d)
    ensures ParamChoices(s) == Match(t, d.(choice := Some(Values(vs))))
  {
    hide Bracketed, Choices, ChoiceOk, RenderChoices;
    Cons('[', RenderChoices(vs) + ("]" + t));
    Cons(']', t);
    ChoicesRead(vs, "]" + t);
  }

  lemma ReadsChoicesDefault(name: string, m: Modifier, vs: seq<string>, t: string)
    requires NameOk(name) && ModifierOk(m) && |vs| >= 2 && (forall i :: 0 <= i < |vs| ==> ChoiceOk(vs[i]))
    ensures NameValue(name + (RenderModifier(m) + ("[" + ("=" + (RenderChoices(vs) + ("]" + t))))))
         == Match(t, Named(name).(modifier := m, choice := Some(Values(vs)), default := Some(Value(vs[0]))))
  {
    hide Bracketed, ChoicesDefault, ChoiceOk, NameOk, RenderChoices, RenderModifier, ModifierOk;
    var body := "=" + (RenderChoices(vs) + ("]" + t));
    BracketedReads(name, m, "[" + body);
    ChoicesDefaultRead(vs, "]" + t);
    assert ("[" + body)[1..] == body && ("]" + t)[1..] == t;
  }

  lemma ReadsChoiceFn(name: string, m: Modifier, f: string, validate: bool, t: string)
    requires NameOk(name) && ModifierOk(m) && FnOk(f)
    ensures NameValue(name + (RenderModifier(m)
                              + ("[" + ((if validate then "" else "?") + ("`" + (f + ("`" + ("]" + t))))))))
         == Match(t, Named(name).(modifier := m, choice := Some(ChoiceFn(f, validate))))
  {
    hide Bracketed, FnOk, NameOk, RenderModifier, ModifierOk, ValueFn;
    var call := "`" + (f + ("`" + ("]" + t)));
    var body := (if validate then "" else "?") + call;
    BracketedReads(name, m, "[" + body);
    FnReads(f, "]" + t);
    assert ("[" + body)[1..] == body && ("]" + t)[1..] == t;
    if validate {
      assert body == call;
    } else {
      assert ("[" + body)[2..] == call;
    }
  }

  lemma ReadsDefault(name: string, v: string, t: string)
    requires NameOk(name) && TextOk(v, White) && !Starts(v, '`') && Follows(t)
    ensures NameValue(name + ("=" + (RenderDefault(v) + t))) == Match(t, Named(name).(default := Some(Value(v))))
  {
    hide Bracketed, NameOk, Name, DefaultValue, Modified, TextOk, RenderDefault;
    var body := RenderDefault(v) + t;
    BracketedReads(name, Optional, "=" + body);
    assert RenderModifier(Optional) + ("=" + body) == "=" + body;
    NameReads(name, "=" + body);
    DefaultReads(v, t);
    Cons('=', body);
    NotBackquoted(v, t);
  }

  lemma NotBackquoted(v: string, t: string)
    requires !Starts(v, '`') && Follows(t)
    ensures !Starts(RenderDefault(v) + t, '`')
  {
    var body := RenderDefault(v) + t;
    assert body != "" ==> body[0] == if RenderDefault(v) == "" then t[0] else RenderDefault(v)[0];
  }

  lemma ReadsDefaultFn(name: string, f: string, t: string)
    requires NameOk(name) && FnOk(f)
    ensures NameValue(name + ("=" + ("`" + (f + ("`" + t))))) == Match(t, Named(name).(default := Some(DefaultFn(f))))
  {
    hide Bracketed, NameOk, Name, ValueFn, Modified, FnOk;
    var body := "`" + (f + ("`" + t));
    BracketedReads(name, Optional, "=" + body);
    assert RenderModifier(Optional) + ("=" + body) == "=" + body;
    NameReads(name, "=" + body);
    FnReads(f, t);
    assert ("=" + body)[1..] == body;
  }

  lemma ReadsPlain(name: string, m: Modifier, t: string)
    requires NameOk(name) && ModifierOk(m) && Follows(t)
    ensures NameValue(name + (RenderModifier(m) + t)) == Match(t, Named(name).(modifier := m))
  {
    hide Bracketed, NameOk, Name, Modified;
    BracketedReads(name, m, t);
    ModifiedReads(name, m, t);
    var mt := RenderModifier(m) + t;
    NotInName(m, t);
    NameReads(name, mt);
    assert !Starts(mt, '=') by {
      assert mt != "" ==> mt[0] == if m == Optional then t[0] else RenderModifier(m)[0];
    }
  }

  /** The name with its marks, the modifier and the value are read back, whatever follows after a space. */
  lemma NameValueReads(d: Data, suffix: string, t: string)
    requires NameOk(d.name + suffix) && ModifierOk(d.modifier) && ValueOk(d) && Follows(t)
    ensures NameValue(RenderNameValue(d, suffix) + t)
         == Match(t, d.(name := d.name + suffix, env := None, describe := ""))
  {
    hide NameValue, NameOk, ModifierOk, ChoiceOk, FnOk, TextOk, RenderChoices, RenderModifier, RenderDefault;
    var name, m := d.name + suffix, d.modifier;
    var value := RenderValue(d.choice, d.default);
    assert RenderNameValue(d, suffix) + t == name + (RenderModifier(m) + (value + t));
    match d.choice
    case Some(Values(vs)) =>
      if d.default.None? {
        assert value + t == "[" + (RenderChoices(vs) + ("]" + t));
        ReadsChoices(name, m, vs, t);
      } else {
        assert value + t == "[" + ("=" + (RenderChoices(vs) + ("]" + t)));
        ReadsChoicesDefault(name, m, vs, t);
      }
    case Some(ChoiceFn(f, validate)) =>
      assert value + t == "[" + ((if validate then "" else "?") + ("`" + (f + ("`" + ("]" + t)))));
      ReadsChoiceFn(name, m, f, validate, t);
    case None =>
      match d.default
      case None =>
        assert value + t == t;
        ReadsPlain(name, m, t);
      case Some(Value(v)) =>
        OptionalIsEmpty();
        assert RenderModifier(m) + (value + t) == "=" + (RenderDefault(v) + t);
        ReadsDefault(name, v, t);
      case Some(DefaultFn(f)) =>
        OptionalIsEmpty();
        assert RenderModifier(m) + (value + t) == "=" + ("`" + (f + ("`" + t)));
        ReadsDefaultFn(name, f, t);
  }

  lemma OptionalIsEmpty()
    ensures RenderModifier(Optional) == ""
  {
  }

  // ------------------------------------------------------------- what follows the value

  ghost predicate EnvOk(env: Option<Option<string>>) {
    env.Some? && env.value.Some? ==>
      env.value.value != "" && forall i :: 0 <= i < |env.value.value| ==> EnvChar(env.value.value[i])
  }

  lemma EnvReads(env: Option<Option<string>>, t: string)
    requires EnvOk(env) && Follows(t) && (env.None? ==> BindEnv(t).Miss?)
    ensures ZeroOrOneEnv(RenderEnv(env) + t) == (t, env)
  {
    match env
    case None => assert RenderEnv(env) + t == t;
    case Some(None) =>
      var s := " $$" + t;
      assert s[0] == ' ' && s[1] == '$' && s[2..] == "$" + t && s[3..] == t;
    case Some(Some(v)) =>
      var s := " $" + v + t;
      hide TakeWhile1;
      assert s[0] == ' ' && s[1] == '$' && s[2..] == v + t && (v + t)[0] == v[0];
      TakesWhile(v, t, EnvChar);
  }

  /** Every closing bracket inside has its opening one. */
  predicate Balanced(text: string, balance: nat) {
    if text == "" then balance == 1
    else if text[0] == '<' then Balanced(text[1..], balance + 1)
    else if text[0] == '>' then balance > 1 && Balanced(text[1..], balance - 1)
    else Balanced(text[1..], balance)
  }

  lemma {:induction false} NotationEnds(text: string, balance: nat, t: string)
    requires balance >= 1 && Balanced(text, balance)
    ensures NotationEnd(text + (">" + t), balance) == Some(|text| + 1)
  {
    var s := text + (">" + t);
    if text == "" {
      assert s[0] == '>';
    } else {
      assert s[0] == text[0] && s[1..] == text[1..] + (">" + t);
      var next := if text[0] == '<' then balance + 1 else if text[0] == '>' then balance - 1 else balance;
      NotationEnds(text[1..], next, t);
    }
  }

  lemma NotationReads(n: string, t: string)
    requires Balanced(n, 1)
    ensures Notation(" <" + n + ">" + t) == Match(t, n)
  {
    var s := " <" + n + ">" + t;
    assert s[2..] == n + (">" + t);
    NotationEnds(n, 1, t);
    assert s[2..2 + |n|] == n && s[3 + |n|..] == t;
  }

  lemma {:induction false} NotationsRead(ns: seq<string>, t: string)
    requires (forall i :: 0 <= i < |ns| ==> Balanced(ns[i], 1)) && Notation(t).Miss?
    ensures Notations(RenderNotations(ns) + t) == (t, ns)
  {
    hide Notation, Balanced;
    if ns == [] {
      assert RenderNotations(ns) + t == t;
    } else {
      var more := RenderNotations(ns[1..]) + t;
      assert RenderNotations(ns) + t == " <" + ns[0] + ">" + more;
      NotationReads(ns[0], more);
      NotationsRead(ns[1..], t);
      assert [ns[0]] + ns[1..] == ns;
    }
  }

  predicate Trimmed(s: string) {
    s != "" ==> !White(s[0]) && !White(s[|s| - 1])
  }

  lemma TailReads(describe: string)
    requires Trimmed(describe)
    ensures Tail(RenderDescribe(describe)) == Some(describe)
  {
    if describe != "" {
      SpanExact(" ", describe, Space);
      assert (" " + describe)[1..] == describe;
    }
  }

  /**
   The description is not taken for something else: for an environment binding where none is
   given, or for one more notation where one is allowed.
   */
  ghost predicate Clear(env: Option<Option<string>>, ns: seq<string>, describe: string, more: bool) {
    describe != "" ==>
      (env.None? && ns == [] ==> BindEnv(" " + describe).Miss?) && (more ==> Notation(" " + describe).Miss?)
  }

  lemma PlainTextIsClear(env: Option<Option<string>>, ns: seq<string>, describe: string, more: bool)
    requires describe != "" ==> describe[0] != '$' && describe[0] != '<'
    ensures Clear(env, ns, describe, more)
  {
    assert describe != "" ==> (" " + describe)[1] == describe[0];
  }

  /** After the value comes a space or nothing, and an environment binding only if there is one. */
  lemma EnvSkipped(env: Option<Option<string>>, ns: seq<string>, describe: string, more: bool)
    requires Clear(env, ns, describe, more)
    ensures var t := RenderNotations(ns) + RenderDescribe(describe);
      Follows(t) && Follows(RenderEnv(env) + t) && (env.None? ==> BindEnv(t).Miss?)
  {
    var t := RenderNotations(ns) + RenderDescribe(describe);
    if ns == [] {
      assert t == RenderDescribe(describe);
    } else {
      assert t[0] == ' ' && t[1] == '<';
    }
    assert env.None? ==> RenderEnv(env) + t == t;
  }

  // ------------------------------------------------------------------------ round trips

  /** Every well-formed positional parameter is read back from its own source. */
  lemma PositionalRoundTrip(p: PositionalParam)
    requires DataOk(p.data) && (p.notation.Some? ==> Balanced(p.notation.value, 1))
    requires Clear(p.data.env, if p.notation.Some? then [p.notation.value] else [], p.data.describe, p.notation.None?)
    ensures ParsePositional(RenderPositional(p)) == Some(p)
  {
    hide NameOk, ModifierOk, ValueOk, EnvOk, Trimmed, NameValue, RenderNameValue, ZeroOrOneEnv, Notation, Tail,
      Balanced, BindEnv;
    var d, ns := p.data, if p.notation.Some? then [p.notation.value] else [];
    var dsc := RenderDescribe(d.describe);
    var t := RenderNotations(ns) + dsc;
    EnvSkipped(d.env, ns, d.describe, p.notation.None?);
    assert d.name + "" == d.name;
    NameValueReads(d, "", RenderEnv(d.env) + t);
    EnvReads(d.env, t);
    TailReads(d.describe);
    if p.notation.Some? {
      assert RenderNotations(ns[1..]) == "";
      assert t == " <" + p.notation.value + ">" + dsc;
      NotationReads(p.notation.value, dsc);
    } else {
      assert t == dsc;
      NoNotation(d.describe);
    }
  }

  lemma NoNotation(describe: string)
    requires describe != "" ==> Notation(" " + describe).Miss?
    ensures Notation(RenderDescribe(describe)).Miss?
  {
  }

  lemma PrefixKept(n: string)
    ensures var (m, prefixed) := PrefixMark(n);
      m + (if prefixed || EndsWith(m, "-") then "-" else "") == n
    ensures EndsWith(PrefixMark(n).0, ":") <==> EndsWith(n, ":") || EndsWith(n, ":-")
  {
    MarksAgree(n);
    MarksAgree(PrefixMark(n).0);
    if EndsWith(n, "-") {
      assert n == Stem(n) + "-";
    }
  }

  lemma AssignKept(n: string)
    ensures var (m, assign) := AssignMark(n);
      && n == m + (if assign || EndsWith(m, ":") then ":" else "")
      && (EndsWith(m, ":-") && !assign <==> EndsWith(n, ":-"))
  {
    MarksAgree(n);
    MarksAgree(AssignMark(n).0);
    if EndsWith(n, ":") {
      assert n == Stem(n) + ":";
    }
  }

  /** The marks rendered after an option's name are those it had, but for a prefixed name that ends in a colon. */
  lemma MarksKept(d: Data, short: Option<string>, prefix: string, ns: seq<string>)
    ensures var p := NewOption(d, short, prefix, ns);
      p.data.name + Suffix(p) == if EndsWith(d.name, ":-") then d.name + ":" else d.name
  {
    hide EndsWith, AssignMark, PrefixMark;
    var (name1, assign) := AssignMark(d.name);
    var (name2, prefixed) := PrefixMark(name1);
    AssignKept(d.name);
    PrefixKept(name1);
    MarksAgree(name1);
    MarksAgree(d.name);
    var dash := if prefixed || EndsWith(name2, "-") then "-" else "";
    var colon := if assign || EndsWith(name2, ":") then ":" else "";
    assert name2 + (dash + colon) == (name2 + dash) + colon == name1 + colon;
  }

  /** The ends of a name, character by character. */
  lemma MarksAgree(n: string)
    ensures EndsWith(n, ":") <==> n != "" && n[|n| - 1] == ':'
    ensures EndsWith(n, "-") <==> n != "" && n[|n| - 1] == '-'
    ensures EndsWith(n, "::") <==> |n| > 1 && n[|n| - 1] == ':' && n[|n| - 2] == ':'
    ensures EndsWith(n, "--") <==> |n| > 1 && n[|n| - 1] == '-' && n[|n| - 2] == '-'
    ensures EndsWith(n, ":-") <==> |n| > 1 && n[|n| - 1] == '-' && n[|n| - 2] == ':'
  {
    if n != "" {
      assert n[|n| - 1..] == [n[|n| - 1]];
    }
    if |n| > 1 {
      assert n[|n| - 2..] == [n[|n| - 2], n[|n| - 1]];
    }
  }

  /** What follows an option's prefix in its source. */
  function RenderBody(d: Data, suffix: string, ns: seq<string>): string {
    RenderNameValue(d, suffix) + (RenderEnv(d.env) + (RenderNotations(ns) + RenderDescribe(d.describe)))
  }

  lemma BodyReads(d: Data, suffix: string, short: Option<string>, prefix: string, ns: seq<string>)
    requires NameOk(d.name + suffix) && ModifierOk(d.modifier) && ValueOk(d) && EnvOk(d.env) && Trimmed(d.describe)
    requires (forall i :: 0 <= i < |ns| ==> Balanced(ns[i], 1)) && Clear(d.env, ns, d.describe, true)
    ensures OptionBody(RenderBody(d, suffix, ns), short, prefix)
         == Some(NewOption(d.(name := d.name + suffix), short, prefix, ns))
  {
    hide NameOk, ModifierOk, ValueOk, EnvOk, Trimmed, NameValue, RenderNameValue, ZeroOrOneEnv, Notations, Tail,
      Balanced, BindEnv,
      NewOption, RenderEnv, RenderNotations, RenderDescribe;
    var dsc := RenderDescribe(d.describe);
    var t := RenderNotations(ns) + dsc;
    EnvSkipped(d.env, ns, d.describe, true);
    NameValueReads(d, suffix, RenderEnv(d.env) + t);
    EnvReads(d.env, t);
    NoNotation(d.describe);
    NotationsRead(ns, dsc);
    TailReads(d.describe);
  }

  predicate PrefixOk(prefix: string) {
    prefix in ["--", "-", "+"]
  }

  /** What the grammar takes for a short name: a character and its sign, or the character and the space after it. */
  predicate ShortOk(short: Option<string>) {
    short.Some? ==>
      && |short.value| == 2
      && if Sign(short.value[0]) then ShortChar(short.value[1])
         else ShortChar(short.value[0]) && Space(short.value[1])
  }

  lemma PrefixReads(prefix: string, body: string)
    requires PrefixOk(prefix) && body != "" && body[0] != prefix[0]
    ensures Prefix(prefix + body) == Match(body, prefix)
  {
    var s := prefix + body;
    assert s[|prefix|..] == body;
    if prefix == "--" {
      assert s[2] == body[0];
    } else {
      assert s[1] == body[0] && s[0] == prefix[0];
      assert !("--" <= s);
    }
  }

  /** A dash more than the prefix has: one is taken as a second dash of the prefix, two are too many. */
  lemma DashedPrefix(prefix: string, body: string)
    requires (prefix == "--" || prefix == "-") && Starts(body, '-')
    ensures Prefix(prefix + body)
         == if prefix == "-" && !Starts(body[1..], '-') then Match(body[1..], "--") else Miss
  {
    var s := prefix + body;
    assert s[1] == '-' && s[1..][0] == '-';
    if prefix == "-" {
      assert s[2..] == body[1..];
    } else {
      assert s[2..] == body;
    }
  }

  /** A long prefix with the short name before it. */
  function Headed(prefix: Parsed<string>, short: Option<string>): Parsed<(Option<string>, string)> {
    match prefix
    case Miss => Miss
    case Match(rest, pre) => Match(rest, (short, pre))
  }

  lemma ShortHeadReads(short: string, w: string)
    requires ShortOk(Some(short)) && w != "" && !Space(w[0])
    ensures LongHead(RenderShort(Some(short)) + w) == Headed(Prefix(w), Some(short))
  {
    hide Prefix;
    var s := short + " " + w;
    var n := if Sign(short[0]) then 2 else 1;
    var gap := s[n..|s| - |w|];
    assert s[2] == ' ' && s[..2] == short && s[0] == short[0] && s[1] == short[1];
    assert Short(s) == n;
    assert s[n..] == gap + w;
    SpanExact(gap, w, Space);
    assert (gap + w)[|gap|..] == w;
  }

  /** Without a short name the prefix is read where it stands, unless it looks like a short name itself. */
  lemma LongHeadReads(prefix: string, body: string)
    requires PrefixOk(prefix) && body != ""
    requires prefix == "--" || !ShortChar(body[0]) || (|body| > 1 ==> !Space(body[1]))
    ensures LongHead(prefix + body) == Headed(Prefix(prefix + body), None)
  {
    hide Prefix;
    var s := prefix + body;
    assert s[0] == prefix[0];
    assert Short(s) == 0 by {
      if prefix == "--" {
        assert s[1] == '-';
      } else {
        assert s[1] == body[0] && (|body| > 1 ==> s[2] == body[1]);
      }
    }
    assert s[0..] == s;
    SpanExact("", s, Space);
  }

  /** The head of a source, by the rule for long names. */
  lemma HeadReads(short: Option<string>, prefix: string, body: string)
    requires ShortOk(short) && PrefixOk(prefix) && body != ""
    requires short.Some? || prefix == "--" || !ShortChar(body[0]) || (|body| > 1 ==> !Space(body[1]))
    ensures LongHead(RenderShort(short) + (prefix + body)) == Headed(Prefix(prefix + body), short)
  {
    hide LongHead, Prefix, ShortChar, Headed;
    if short.Some? {
      assert (prefix + body)[0] == prefix[0];
      ShortHeadReads(short.value, prefix + body);
    } else {
      assert RenderShort(short) + (prefix + body) == prefix + body;
      LongHeadReads(prefix, body);
    }
  }

  /** Whether an option body is read does not depend on what came before it. */
  lemma BodyAlone(s: string, a: Option<string>, b: Option<string>, prefix: string)
    ensures OptionBody(s, a, prefix).Some? <==> OptionBody(s, b, prefix).Some?
    ensures OptionBody(s, a, prefix).Some? ==>
      OptionBody(s, a, prefix).value.short == a && OptionBody(s, a, prefix).value.prefix == prefix
  {
    hide NameValue, ZeroOrOneEnv, Notations, Tail;
  }

  lemma SoloParts(prefix: string, c: char, rest: string)
    requires (prefix == "-" || prefix == "+") && Starts(rest, ' ')
    ensures var s := prefix + ([c] + rest);
      && |s| > 2 && s[0] == prefix[0] && s[1] == c && s[2] == ' ' && s[0..] == s
      && s[2..] == rest && s[..2] == prefix + [c] && s[1..] == [c] + rest && s[..1] == prefix
  {
  }

  /** A name of one character and nothing else before a space looks like a short name. */
  lemma SoloHead(prefix: string, c: char, rest: string)
    requires (prefix == "-" || prefix == "+") && NameChar(c) && c != '-' && Starts(rest, ' ')
    ensures LongHead(prefix + ([c] + rest)) == Headed(Prefix(rest[Span(rest, Space)..]), Some(prefix + [c]))
  {
    SoloParts(prefix, c, rest);
    hide Prefix, Span, ShortChar, NameChar;
    NameIsShort(c);
  }

  lemma NameIsShort(c: char)
    requires NameChar(c) && c != '-'
    ensures ShortChar(c)
  {
  }

  lemma SoloNoLong(prefix: string, c: char, rest: string)
    requires (prefix == "-" || prefix == "+") && Starts(rest, ' ')
    ensures NoLong(prefix + ([c] + rest)) == OptionBody([c] + rest, None, prefix)
  {
    hide OptionBody;
    SoloParts(prefix, c, rest);
    var s, body := prefix + ([c] + rest), [c] + rest;
    assert !Space(s[0]);
    assert Span(body, Alphanumeric) <= 1 by {
      assert body[1] == ' ';
    }
  }

  /** The head of a description: a space, then no more spaces. */
  lemma DescriptionHead(describe: string)
    requires describe != "" && !White(describe[0])
    ensures var s := " " + describe; s[Span(s, Space)..] == describe
    ensures LongHead(" " + describe) == Headed(Prefix(describe), None)
  {
    hide Prefix;
    var s := " " + describe;
    SpanExact(" ", describe, Space);
    assert s[1..] == describe && s[0..] == s;
  }

  /** A one-character name before a description: it is read unless the description itself reads as a long option. */
  lemma SoloBeforeDescription(prefix: string, c: char, describe: string)
    requires (prefix == "-" || prefix == "+") && NameChar(c) && c != '-' && describe != "" && !White(describe[0])
    ensures var s, body := prefix + ([c] + (" " + describe)), [c] + (" " + describe);
      if WithLong(" " + describe).Some? then ParseOption(s).Some? && ParseOption(s).value.short.Some?
      else ParseOption(s) == OptionBody(body, None, prefix)
  {
    hide Prefix, OptionBody, LongHead, NoLong;
    SoloHead(prefix, c, " " + describe);
    SoloNoLong(prefix, c, " " + describe);
    DescriptionHead(describe);
    match Prefix(describe)
    case Miss =>
    case Match(more, pre) => BodyAlone(more, Some(prefix + [c]), None, pre);
  }

  /** A one-character name before an environment binding or a notation is never taken for a short name. */
  lemma SoloBeforeMore(prefix: string, c: char, rest: string)
    requires (prefix == "-" || prefix == "+") && NameChar(c) && c != '-'
    requires |rest| > 1 && rest[0] == ' ' && (rest[1] == '$' || rest[1] == '<')
    ensures ParseOption(prefix + ([c] + rest)) == OptionBody([c] + rest, None, prefix)
  {
    hide OptionBody, LongHead, NoLong;
    SoloHead(prefix, c, rest);
    SoloNoLong(prefix, c, rest);
    assert rest == " " + rest[1..];
    SpanExact(" ", rest[1..], Space);
  }

  /** The source of an option is only its one-character name. */
  predicate Solo(d: Data) {
    |d.name| == 1 && d.modifier == Optional && d.choice.None? && d.default.None?
  }

  /** The one-character name would be taken for the short name of the option that the description reads as. */
  ghost predicate Mistaken(d: Data, short: Option<string>, prefix: string, ns: seq<string>) {
    && short.None? && prefix != "--" && Solo(d) && d.name != "-" && d.env.None? && ns == [] && d.describe != ""
    && WithLong(" " + d.describe).Some?
  }

  /** The source of a name and value that is more than one character does not have a space in second place. */
  lemma SecondCharacter(d: Data, suffix: string)
    requires NameOk(d.name + suffix) && ValueOk(d)
    ensures var v := RenderNameValue(d, suffix);
      if Solo(d.(name := d.name + suffix)) then v == d.name + suffix
      else |v| > 1 && !Space(v[1]) && v[0] == (d.name + suffix)[0]
  {
    var q, m, u := d.name + suffix, RenderModifier(d.modifier), RenderValue(d.choice, d.default);
    var v := RenderNameValue(d, suffix);
    assert v == q + (m + u);
    if Solo(d.(name := q)) {
      assert m + u == "";
    } else if |q| > 1 {
      assert v[1] == q[1] && NameChar(q[1]);
    } else if m != "" {
      assert v[1] == m[0];
    } else {
      assert m + u == u;
      ValueStarts(d);
      assert v[1] == u[0];
    }
  }

  lemma ValueStarts(d: Data)
    requires ValueOk(d) && (d.choice.Some? || d.default.Some?)
    ensures var u := RenderValue(d.choice, d.default); u != "" && (u[0] == '[' || u[0] == '=')
  {
    hide RenderChoices, RenderDefault;
  }

  /** What an option must be for its source to be read as an option at all. */
  ghost predicate OptionOk(d: Data, short: Option<string>, prefix: string, ns: seq<string>) {
    && DataOk(d) && ShortOk(short) && PrefixOk(prefix)
    && (forall i :: 0 <= i < |ns| ==> Balanced(ns[i], 1)) && Clear(d.env, ns, d.describe, true)
  }

  /** A source that is a prefix and a body with more than a one-character name is read by the rule for long names. */
  lemma ReadsByLong(short: Option<string>, prefix: string, body: string)
    requires ShortOk(short) && PrefixOk(prefix) && body != "" && body[0] != prefix[0]
    requires short.Some? || prefix == "--" || !ShortChar(body[0]) || (|body| > 1 ==> !Space(body[1]))
    requires OptionBody(body, short, prefix).Some?
    ensures ParseOption(RenderShort(short) + (prefix + body)) == OptionBody(body, short, prefix)
  {
    hide LongHead, OptionBody, NoLong, Prefix, ShortChar;
    HeadReads(short, prefix, body);
    PrefixReads(prefix, body);
  }

  function RenderRest(d: Data, ns: seq<string>): string {
    RenderEnv(d.env) + (RenderNotations(ns) + RenderDescribe(d.describe))
  }

  lemma SoloBody(d: Data, ns: seq<string>)
    requires Solo(d) && DataOk(d)
    ensures NameChar(d.name[0]) && d.name == [d.name[0]] && RenderBody(d, "", ns) == [d.name[0]] + RenderRest(d, ns)
  {
    hide RenderEnv, RenderNotations, RenderDescribe, RenderNameValue;
    assert d.name + "" == d.name;
    SecondCharacter(d, "");
  }

  lemma RestShape(d: Data, ns: seq<string>)
    ensures var r := RenderRest(d, ns);
      if d.env.Some? then |r| > 1 && r[0] == ' ' && r[1] == '$'
      else if ns != [] then |r| > 1 && r[0] == ' ' && r[1] == '<'
      else r == RenderDescribe(d.describe)
  {
    var r := RenderRest(d, ns);
    if d.env.Some? {
      assert r[0] == RenderEnv(d.env)[0] && r[1] == RenderEnv(d.env)[1];
    } else if ns != [] {
      assert r == RenderNotations(ns) + RenderDescribe(d.describe);
    } else {
      assert r == RenderDescribe(d.describe);
    }
  }

  /** The source of a one-character name without a short name: only a description that reads as an option misleads. */
  lemma ReadsSolo(d: Data, prefix: string, ns: seq<string>)
    requires (prefix == "-" || prefix == "+") && Solo(d) && DataOk(d) && d.name != "-"
    requires OptionBody(RenderBody(d, "", ns), None, prefix).Some?
    ensures var r := ParseOption(prefix + RenderBody(d, "", ns));
      if Mistaken(d, None, prefix, ns) then r.Some? && r.value.short.Some?
      else r == OptionBody(RenderBody(d, "", ns), None, prefix)
  {
    hide OptionBody, ParseOption, WithLong, RenderRest, RenderBody, NameChar, NameOk, ModifierOk, ValueOk, EnvOk;
    var c, rest := d.name[0], RenderRest(d, ns);
    SoloBody(d, ns);
    RestShape(d, ns);
    if d.env.Some? || ns != [] {
      SoloBeforeMore(prefix, c, rest);
    } else if d.describe != "" {
      SoloBeforeDescription(prefix, c, d.describe);
    } else {
      assert c != '+' by { NotPlus(c); }
      assert RenderShort(None) + (prefix + [c]) == prefix + [c] && [c] + rest == [c];
      ReadsByLong(None, prefix, [c]);
    }
  }

  lemma NotPlus(c: char)
    requires NameChar(c)
    ensures c != '+'
  {
  }

  lemma RenderedName(d: Data, short: Option<string>, prefix: string, ns: seq<string>)
    requires OptionOk(d, short, prefix, ns)
    ensures var p := NewOption(d, short, prefix, ns);
      && var q := p.data.name + Suffix(p);
        && NameOk(q) && p.data.(name := q) == d.(name := q)
        && (q == d.name || (EndsWith(d.name, ":-") && q == d.name + ":"))
  {
    MarksKept(d, short, prefix, ns);
    hide Suffix, PrefixMark, AssignMark, EndsWith;
  }

  /** The source as its short name, prefix and body, the marks counted to the name. */
  lemma SourceParts(d: Data, short: Option<string>, prefix: string, ns: seq<string>)
    requires OptionOk(d, short, prefix, ns)
    ensures var p := NewOption(d, short, prefix, ns);
      var e := d.(name := p.data.name + Suffix(p));
      RenderOption(p) == RenderShort(short) + (prefix + RenderBody(e, "", ns))
  {
    RenderedName(d, short, prefix, ns);
    hide Suffix, RenderEnv, RenderNotations, RenderDescribe, RenderNameValue, OptionOk, NameOk;
    var p := NewOption(d, short, prefix, ns);
    MarkedName(p.data, Suffix(p));
  }

  lemma MarkedName(d: Data, suffix: string)
    ensures RenderNameValue(d, suffix) == RenderNameValue(d.(name := d.name + suffix), "")
  {
    hide RenderModifier, RenderValue;
    assert d.name + suffix + "" == d.name + suffix;
  }

  lemma BodyFacts(e: Data, short: Option<string>, prefix: string, ns: seq<string>)
    requires OptionOk(e, short, prefix, ns)
    ensures var body := RenderBody(e, "", ns);
      && OptionBody(body, short, prefix) == Some(NewOption(e, short, prefix, ns))
      && body != "" && e.name != "" && body[0] == e.name[0] && body[0] != '+'
      && (!Solo(e) ==> |body| > 1 && !Space(body[1]))
  {
    hide OptionBody, NewOption, RenderNameValue, ValueOk, EnvOk, Solo, RenderEnv, RenderNotations, Clear, ModifierOk;
    var body := RenderBody(e, "", ns);
    assert e.name + "" == e.name && e.(name := e.name) == e;
    BodyReads(e, "", short, prefix, ns);
    SecondCharacter(e, "");
    NotPlus(e.name[0]);
    assert body[0] == RenderNameValue(e, "")[0];
    assert !Solo(e) ==> body[1] == RenderNameValue(e, "")[1];
  }

  // ------------------------------------------------------ names that begin with a dash

  /** The dash a name begins with is taken for the prefix, unless a plus keeps them apart or no rule can split them. */
  predicate Dashed(name: string, short: Option<string>, prefix: string) {
    Starts(name, '-') && prefix != "+" && (short.Some? || prefix == "--" || !(name == "-" || "--" <= name))
  }

  /** The body without the first character of its name. */
  lemma BodyTail(e: Data, ns: seq<string>)
    requires e.name != ""
    ensures RenderBody(e, "", ns) != "" && RenderBody(e, "", ns)[1..] == RenderBody(e.(name := e.name[1..]), "", ns)
    ensures |e.name| > 1 ==> Starts(RenderBody(e, "", ns)[1..], e.name[1])
  {
    hide RenderEnv, RenderNotations, RenderDescribe, RenderModifier, RenderValue;
    var rest := e.name[1..];
    var more := RenderModifier(e.modifier) + RenderValue(e.choice, e.default)
      + (RenderEnv(e.env) + (RenderNotations(ns) + RenderDescribe(e.describe)));
    assert RenderBody(e, "", ns) == e.name + more;
    assert RenderBody(e.(name := rest), "", ns) == rest + more;
    assert e.name + more == [e.name[0]] + (rest + more);
  }

  /** What follows a name is not part of a name. */
  lemma NamelessStart(e: Data, ns: seq<string>)
    requires e.name == "" && ValueOk(e)
    ensures var s := RenderBody(e, "", ns); s == "" || s[0] in "!~*+[= "
  {
    hide RenderEnv, RenderDescribe, RenderNotations, RenderValue, ValueOk;
    var s := RenderBody(e, "", ns);
    var m, u, rest := RenderModifier(e.modifier), RenderValue(e.choice, e.default), RenderRest(e, ns);
    assert s == m + (u + rest) by {
      hide RenderModifier;
    }
    ValueStartsOrEmpty(e);
    RestShape(e, ns);
    if m == "" {
      assert s == u + rest;
      RestStarts(e, ns);
    }
  }

  lemma RestStarts(e: Data, ns: seq<string>)
    ensures var rest := RenderRest(e, ns); rest == "" || rest[0] == ' '
  {
    hide RenderRest;
    RestShape(e, ns);
  }

  /** Without a name there is no option. */
  lemma NamelessBody(s: string, short: Option<string>, prefix: string)
    requires s == "" || s[0] in "!~*+[= "
    ensures OptionBody(s, short, prefix).None?
  {
    hide ZeroOrOneEnv, Notations, Tail, NewOption, Choices, ChoicesDefault, ValueFn, DefaultValue, Marked;
    assert Name(s).Miss?;
  }

  lemma ValueStartsOrEmpty(d: Data)
    requires ValueOk(d)
    ensures var u := RenderValue(d.choice, d.default); u == "" || u[0] == '[' || u[0] == '='
  {
    hide RenderChoices, RenderDefault;
    if d.choice.Some? || d.default.Some? {
      ValueStarts(d);
    }
  }

  /** Whether the rule for long names reads a source whose name begins with a dash: only one more character does it. */
  lemma DashedByLong(e: Data, ns: seq<string>)
    requires OptionOk(e, None, "-", ns) && Starts(e.name, '-')
    ensures var body := RenderBody(e, "", ns);
      !Starts(body[1..], '-') && OptionBody(body[1..], None, "--").Some? <==> e.name != "-" && !("--" <= e.name)
  {
    hide OptionBody, NewOption, RenderBody, ModifierOk, ValueOk, EnvOk, Trimmed, Clear, NameChar;
    var body, tail := RenderBody(e, "", ns), e.(name := e.name[1..]);
    BodyTail(e, ns);
    if e.name == "-" {
      ValueIgnoresName(e, "");
      NamelessStart(tail, ns);
      NamelessBody(body[1..], None, "--");
    } else {
      assert tail.name + "" == tail.name;
      TailOfName(e.name);
      ValueIgnoresName(e, tail.name);
      BodyReads(tail, "", None, "--", ns);
    }
  }

  lemma TailOfName(name: string)
    requires NameOk(name) && |name| > 1
    ensures NameOk(name[1..])
  {
    hide NameChar;
    forall i | 0 <= i < |name| - 1 ensures NameChar(name[1..][i]) {
      assert name[1..][i] == name[i + 1];
    }
  }

  lemma ValueIgnoresName(d: Data, name: string)
    requires ValueOk(d)
    ensures ValueOk(d.(name := name))
  {
    hide ChoiceOk, FnOk, TextOk;
  }

  lemma DashedNoLong(prefix: string, body: string)
    requires (prefix == "--" || prefix == "-") && Starts(body, '-')
    ensures NoLong(prefix + body) == OptionBody((prefix + body)[1..], None, "-")
    ensures prefix == "-" ==> (prefix + body)[1..] == body
  {
    hide OptionBody;
    var s := prefix + body;
    assert s[0] == '-' && s[1] == '-' && s[0..] == s && s[..1] == "-";
    SpanExact("", s, Space);
    SpanExact("", s[1..], Alphanumeric);
  }

  lemma NoLongFields(s: string)
    ensures NoLong(s).Some? ==> NoLong(s).value.short.None? && |NoLong(s).value.prefix| == 1
  {
    hide OptionBody;
    var rest := s[Span(s, Space)..];
    if rest != "" {
      BodyAlone(rest[1..], None, None, rest[..1]);
    }
  }

  lemma DashIsNotShort()
    ensures !ShortChar('-')
  {
  }

  /** Reading a source whose name begins with a dash. */
  lemma DashedReads(e: Data, short: Option<string>, prefix: string, ns: seq<string>)
    requires OptionOk(e, short, prefix, ns) && Starts(e.name, '-') && prefix != "+"
    ensures Reading(ParseOption(RenderShort(short) + (prefix + RenderBody(e, "", ns))),
                    Dashed(e.name, short, prefix), NewOption(e, short, prefix, ns))
  {
    hide OptionBody, LongHead, NoLong, Prefix, RenderBody, DataOk, Clear, Solo, AssignMark, PrefixMark, ShortChar,
      ShortOk;
    var body := RenderBody(e, "", ns);
    var s := RenderShort(short) + (prefix + body);
    BodyFacts(e, short, prefix, ns);
    DashIsNotShort();
    HeadReads(short, prefix, body);
    DashedPrefix(prefix, body);
    NoLongFields(s);
    BodyAlone(body[1..], short, None, "--");
    if short.None? {
      assert s == prefix + body;
      DashedNoLong(prefix, body);
      if prefix == "-" {
        DashedByLong(e, ns);
      }
    }
  }

  /** What reading gives: the option, or when its source is lost at most one with another short name or prefix. */
  predicate Reading(r: Option<OptionParam>, lost: bool, p: OptionParam) {
    if lost then r.Some? ==> r.value.short != p.short || r.value.prefix != p.prefix else r == Some(p)
  }

  /** The source is read as another option, or not at all. */
  ghost predicate Lost(d: Data, short: Option<string>, prefix: string, ns: seq<string>) {
    Mistaken(d, short, prefix, ns) || Dashed(d.name, short, prefix)
  }

  /** Reading a source whose name cannot be taken for a part of the prefix. */
  lemma UndashedReads(e: Data, short: Option<string>, prefix: string, ns: seq<string>)
    requires OptionOk(e, short, prefix, ns) && e.name[0] != prefix[0]
    ensures Reading(ParseOption(RenderShort(short) + (prefix + RenderBody(e, "", ns))),
                    Mistaken(e, short, prefix, ns), NewOption(e, short, prefix, ns))
  {
    hide OptionBody, ParseOption, WithLong, RenderBody, DataOk, Clear, NameChar, ShortChar, AssignMark, PrefixMark;
    var body := RenderBody(e, "", ns);
    BodyFacts(e, short, prefix, ns);
    if short.Some? || prefix == "--" || !Solo(e) || e.name == "-" {
      DashIsNotShort();
      ReadsByLong(short, prefix, body);
    } else {
      assert RenderShort(short) + (prefix + body) == prefix + body;
      ReadsSolo(e, prefix, ns);
    }
  }

  /** Reading a source whose marks are part of the name. */
  lemma BodySourceReads(e: Data, short: Option<string>, prefix: string, ns: seq<string>)
    requires OptionOk(e, short, prefix, ns)
    ensures Reading(ParseOption(RenderShort(short) + (prefix + RenderBody(e, "", ns))),
                    Lost(e, short, prefix, ns), NewOption(e, short, prefix, ns))
  {
    hide ParseOption, RenderBody, Clear, NameChar, NewOption, Reading, RenderShort, ValueOk, WithLong;
    if Starts(e.name, '-') && prefix != "+" {
      DashedReads(e, short, prefix, ns);
    } else {
      NotPlus(e.name[0]);
      UndashedReads(e, short, prefix, ns);
    }
  }

  lemma SourceReads(d: Data, short: Option<string>, prefix: string, ns: seq<string>)
    requires OptionOk(d, short, prefix, ns)
    ensures var p := NewOption(d, short, prefix, ns);
      Reading(ParseOption(RenderOption(p)), Lost(d, short, prefix, ns),
              NewOption(d.(name := p.data.name + Suffix(p)), short, prefix, ns))
  {
    hide ParseOption, NewOption, RenderOption, RenderBody, Suffix, RenderShort, OptionOk, Reading, Lost;
    var p := NewOption(d, short, prefix, ns);
    SourceParts(d, short, prefix, ns);
    RenamedOk(d, short, prefix, ns);
    BodySourceReads(d.(name := p.data.name + Suffix(p)), short, prefix, ns);
  }

  lemma RenamedOk(d: Data, short: Option<string>, prefix: string, ns: seq<string>)
    requires OptionOk(d, short, prefix, ns)
    ensures var p := NewOption(d, short, prefix, ns);
      var e := d.(name := p.data.name + Suffix(p));
      OptionOk(e, short, prefix, ns) && (Lost(e, short, prefix, ns) <==> Lost(d, short, prefix, ns))
  {
    hide NewOption, Suffix, Clear, EnvOk, WithLong, ModifierOk;
    RenderedName(d, short, prefix, ns);
  }

  /**
   The source of every well-formed option is read back, and exactly when it is: not when a prefixed
   option's name ends in a colon, whose source gains a colon; not when the name is one character
   and the description after it reads as a long option; and not when the name begins with a dash
   that is taken for the prefix.
   */
  lemma OptionRoundTripExactly(d: Data, short: Option<string>, prefix: string, ns: seq<string>)
    requires OptionOk(d, short, prefix, ns)
    ensures var p := NewOption(d, short, prefix, ns);
      ParseOption(RenderOption(p)) == Some(p)
      <==> !EndsWith(d.name, ":-") && !Mistaken(d, short, prefix, ns) && !Dashed(d.name, short, prefix)
  {
    hide ParseOption, RenderOption, OptionOk, Mistaken, Dashed, EndsWith, Suffix;
    SourceReads(d, short, prefix, ns);
    MarksKept(d, short, prefix, ns);
    if EndsWith(d.name, ":-") {
      ColonAddsMark(d, short, prefix, ns);
    }
  }

  /** One more colon at the end makes another option: an assigned one. */
  lemma ColonAddsMark(d: Data, short: Option<string>, prefix: string, ns: seq<string>)
    requires EndsWith(d.name, ":-")
    ensures NewOption(d.(name := d.name + ":"), short, prefix, ns) != NewOption(d, short, prefix, ns)
  {
    MarksAgree(d.name);
    MarksAgree(d.name + ":");
  }

  /** A source that is not read back: a prefixed option whose name ends in a colon. */
  lemma MarkCanBeLost()
    ensures var p := NewOption(Named("a:-"), None, "--", []); ParseOption(RenderOption(p)) != Some(p)
  {
    hide ParseOption, RenderOption, NewOption;
    MarksAgree("a:-");
    OptionRoundTripExactly(Named("a:-"), None, "--", []);
  }

  /** A source that is not read back: a one-letter name described by something that looks like an option. */
  lemma NameCanBeMistaken()
    ensures var p := NewOption(Named("f").(describe := "--x"), None, "-", []); ParseOption(RenderOption(p)) != Some(p)
  {
    hide ParseOption, RenderOption, NewOption, WithLong;
    DescriptionIsAnOption();
    PlainTextIsClear(None, [], "--x", true);
    OptionRoundTripExactly(Named("f").(describe := "--x"), None, "-", []);
  }

  /** A source that is not read back: a name that begins with a dash is read with a prefix of two. */
  lemma DashCanBeTaken()
    ensures var p := NewOption(Named("-x"), None, "-", []); ParseOption(RenderOption(p)) != Some(p)
  {
    hide ParseOption, RenderOption, NewOption;
    MarksAgree("-x");
    OptionRoundTripExactly(Named("-x"), None, "-", []);
  }

  lemma DescriptionIsAnOption()
    ensures WithLong(" " + "--x").Some?
  {
    hide OptionBody, NewOption, LongHead, Prefix;
    DescriptionHead("--x");
    assert "--x" == "--" + "x";
    PrefixReads("--", "x");
    BodyFacts(Named("x"), None, "--", []);
    assert RenderBody(Named("x"), "", []) == "x";
  }
}
