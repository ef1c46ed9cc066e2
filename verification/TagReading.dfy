/**
 What the grammar reads is well-formed: whatever parameter comes out of a text has a source, and reading
 that source gives the parameter again unless its texts need quoting that rendering does not do.
 */
module TagReading {
  import opened Options
  import opened TagGrammar
  import opened TagParams
  import opened TagRoundTrip

  // ---------------------------------------------------------------------- values that are read

  /** The shape of a value, whatever its texts are. */
  ghost predicate Shaped(d: Data) {
    match d.choice
    case Some(Values(vs)) => vs != [] && (d.default.Some? ==> |vs| >= 2 && d.default.value == Value(vs[0]))
    case Some(ChoiceFn(f, _)) => FnOk(f) && d.default.None?
    case None =>
      match d.default
      case None => true
      case Some(Value(v)) => d.modifier == Optional
      case Some(DefaultFn(f)) => d.modifier == Optional && FnOk(f)
  }

  /** Its texts can be rendered: they need no escapes and are not taken for something else. */
  ghost predicate TextsOk(d: Data) {
    match d.choice
    case Some(Values(vs)) => forall i :: 0 <= i < |vs| ==> ChoiceOk(vs[i])
    case Some(ChoiceFn(_, _)) => true
    case None => d.default.Some? && d.default.value.Value? ==>
      TextOk(d.default.value.text, White) && !Starts(d.default.value.text, '`')
  }

  lemma ValueOkParts(d: Data)
    ensures ValueOk(d) <==> Shaped(d) && TextsOk(d)
  {
    hide ChoiceOk, FnOk, TextOk;
  }

  lemma WhileRead(s: string, test: char -> bool)
    ensures var r := TakeWhile1(s, test);
      r.Match? ==> r.value != "" && forall i :: 0 <= i < |r.value| ==> test(r.value[i])
  {
  }

  lemma NameRead(s: string)
    ensures Name(s).Match? ==> NameOk(Name(s).value)
  {
    WhileRead(s, NameChar);
  }

  lemma FnRead(s: string)
    ensures ValueFn(s).Match? ==> FnOk(ValueFn(s).value)
  {
    if Starts(s, '`') {
      WhileRead(s[1..], FnChar);
    }
  }

  lemma ModifierRead(rest: string)
    ensures ModifierOk(Marked(rest).1)
  {
  }

  lemma ChoicesNotEmpty(s: string)
    ensures Choices(s).Match? ==> Choices(s).value != []
  {
  }

  lemma DefaultAmongTwo(s: string)
    ensures ChoicesDefault(s).Match? ==> |ChoicesDefault(s).value| >= 2
  {
    hide ChoiceValue, Choices;
    if Starts(s, '=') && ChoiceValue(s[1..]).Match? && Starts(ChoiceValue(s[1..]).rest, '|') {
      ChoicesNotEmpty(ChoiceValue(s[1..]).rest[1..]);
    }
  }

  /** The data a rule reads: the name in front, and a value of the right shape. */
  ghost predicate ReadFrom(d: Data, s: string) {
    && Name(s).Match? && d.name == Name(s).value && NameOk(d.name) && ModifierOk(d.modifier) && Shaped(d)
    && d.env.None? && d.describe == ""
  }

  lemma ModifiedRead(s: string)
    ensures Modified(s).Match? ==>
      ReadFrom(Modified(s).value, s) && Modified(s).value.choice.None? && Modified(s).value.default.None?
  {
    hide Marked, NameOk, ModifierOk, Name;
    NameRead(s);
    if Name(s).Match? {
      ModifierRead(Name(s).rest);
    }
  }

  lemma BracketsRead(s: string)
    ensures ParamChoicesDefault(s).Match? ==> ReadFrom(ParamChoicesDefault(s).value, s)
    ensures ParamChoicesFn(s).Match? ==> ReadFrom(ParamChoicesFn(s).value, s)
    ensures ParamChoices(s).Match? ==> ReadFrom(ParamChoices(s).value, s)
  {
    hide Modified, NameOk, ModifierOk, Name, Choices, ChoicesDefault, ValueFn, FnOk;
    ModifiedRead(s);
    if Bracketed(s).Match? {
      var rest := Bracketed(s).rest;
      ChoicesNotEmpty(rest[1..]);
      DefaultAmongTwo(rest[1..]);
      FnRead(if Starts(rest[1..], '?') then rest[2..] else rest[1..]);
    }
  }

  lemma AssignsRead(s: string)
    ensures ParamAssignFn(s).Match? ==> ReadFrom(ParamAssignFn(s).value, s)
    ensures ParamAssign(s).Match? ==> ReadFrom(ParamAssign(s).value, s)
  {
    hide NameOk, Name, DefaultValue, ValueFn, FnOk;
    NameRead(s);
    if Name(s).Match? && Starts(Name(s).rest, '=') {
      FnRead(Name(s).rest[1..]);
    }
  }

  lemma NameValueRead(s: string)
    ensures NameValue(s).Match? ==> ReadFrom(NameValue(s).value, s)
  {
    hide ParamChoicesDefault, ParamChoicesFn, ParamChoices, ParamAssignFn, ParamAssign, Modified, ReadFrom;
    BracketsRead(s);
    AssignsRead(s);
    ModifiedRead(s);
  }

  // ------------------------------------------------------------------ what follows the value

  lemma EnvRead(s: string)
    ensures EnvOk(ZeroOrOneEnv(s).1)
  {
    if " $" <= s {
      WhileRead(s[2..], EnvChar);
    }
  }

  lemma {:induction false} NotationRead(s: string, balance: nat)
    requires balance >= 1 && NotationEnd(s, balance).Some?
    ensures Balanced(s[..NotationEnd(s, balance).value - 1], balance)
    decreases |s|
  {
    var n := NotationEnd(s, balance).value;
    if !(s[0] == '>' && balance == 1) {
      var b := if s[0] == '<' then balance + 1 else if s[0] == '>' then balance - 1 else balance;
      NotationRead(s[1..], b);
      assert s[..n - 1][1..] == s[1..][..n - 2];
    }
  }

  lemma NotationBalanced(s: string)
    ensures Notation(s).Match? ==> Balanced(Notation(s).value, 1)
  {
    hide Balanced;
    if " <" <= s && NotationEnd(s[2..], 1).Some? {
      NotationRead(s[2..], 1);
      var n := NotationEnd(s[2..], 1).value;
      assert s[2..][..n - 1] == s[2..1 + n];
    }
  }

  ghost predicate AllBalanced(ns: seq<string>) {
    forall i :: 0 <= i < |ns| ==> Balanced(ns[i], 1)
  }

  lemma {:induction false} NotationsBalanced(s: string)
    ensures AllBalanced(Notations(s).1)
    decreases |s|
  {
    hide Balanced, Notation;
    NotationBalanced(s);
    if Notation(s).Match? {
      NotationsBalanced(Notation(s).rest);
    }
  }

  lemma {:induction false} TrimmedStart(s: string)
    ensures TrimStart(s) != "" ==> !White(TrimStart(s)[0])
  {
    if s != "" && White(s[0]) {
      TrimmedStart(s[1..]);
    }
  }

  lemma {:induction false} TrimmedEnd(s: string)
    requires s != "" ==> !White(s[0])
    ensures Trimmed(TrimEnd(s))
  {
    if s != "" && White(s[|s| - 1]) {
      TrimmedEnd(s[..|s| - 1]);
    }
  }

  lemma TailTrimmed(s: string)
    ensures Tail(s).Some? ==> Trimmed(Tail(s).value)
  {
    hide TrimStart, TrimEnd;
    if s != "" && Space(s[0]) {
      var t := TrimStart(s[Span(s, Space)..]);
      TrimmedStart(s[Span(s, Space)..]);
      TrimmedEnd(t);
    }
  }

  // ------------------------------------------------------------------------- positionals

  /** Every positional that is read is well-formed but for its texts. */
  lemma PositionalWellRead(s: string)
    requires ParsePositional(s).Some?
    ensures var p := ParsePositional(s).value;
      && NameOk(p.data.name) && ModifierOk(p.data.modifier) && Shaped(p.data) && EnvOk(p.data.env)
      && Trimmed(p.data.describe) && (p.notation.Some? ==> Balanced(p.notation.value, 1))
  {
    hide NameValue, NameOk, ModifierOk, EnvOk, Trimmed, Balanced, FnOk, ZeroOrOneEnv, Notation, Tail, Name;
    NameValueRead(s);
    var rest := NameValue(s).rest;
    EnvRead(rest);
    var rest1 := ZeroOrOneEnv(rest).0;
    NotationBalanced(rest1);
    TailTrimmed(if Notation(rest1).Match? then Notation(rest1).rest else rest1);
  }

  /** So what was read from any text is read again from its own source, where texts and description are plain. */
  lemma PositionalReadAgain(s: string)
    requires ParsePositional(s).Some?
    ensures var p := ParsePositional(s).value;
      && TextsOk(p.data)
      && Clear(p.data.env, if p.notation.Some? then [p.notation.value] else [], p.data.describe, p.notation.None?)
      ==> ParsePositional(RenderPositional(p)) == Some(p)
  {
    hide ParsePositional, RenderPositional, Clear, Shaped, TextsOk, ValueOk, NameOk, ModifierOk, EnvOk, Trimmed,
      Balanced;
    var p := ParsePositional(s).value;
    PositionalWellRead(s);
    ValueOkParts(p.data);
    if TextsOk(p.data)
       && Clear(p.data.env, if p.notation.Some? then [p.notation.value] else [], p.data.describe, p.notation.None?) {
      PositionalRoundTrip(p);
    }
  }

  // ----------------------------------------------------------------------------- options

  /** All an option needs to be well-formed but plain texts and a clear description. */
  ghost predicate WellRead(d: Data, short: Option<string>, prefix: string, ns: seq<string>) {
    && NameOk(d.name) && ModifierOk(d.modifier) && Shaped(d) && EnvOk(d.env) && Trimmed(d.describe)
    && ShortOk(short) && PrefixOk(prefix) && AllBalanced(ns) && !Dashed(d.name, short, prefix)
  }

  /** What a body is read as, the marks still part of the name. */
  lemma BodyRead(s: string, short: Option<string>, prefix: string) returns (d: Data, ns: seq<string>)
    requires OptionBody(s, short, prefix).Some?
    ensures OptionBody(s, short, prefix).value == NewOption(d, short, prefix, ns)
    ensures Name(s).Match? && d.name == Name(s).value
    ensures NameOk(d.name) && ModifierOk(d.modifier) && Shaped(d) && EnvOk(d.env) && Trimmed(d.describe)
    ensures AllBalanced(ns)
  {
    hide NameValue, NameOk, ModifierOk, EnvOk, Trimmed, AllBalanced, FnOk, ZeroOrOneEnv, Notations, Tail, Name,
      NewOption;
    NameValueRead(s);
    var rest := NameValue(s).rest;
    EnvRead(rest);
    var rest1 := ZeroOrOneEnv(rest).0;
    NotationsBalanced(rest1);
    TailTrimmed(Notations(rest1).0);
    d := NameValue(s).value.(env := ZeroOrOneEnv(rest).1, describe := Tail(Notations(rest1).0).value);
    ns := Notations(rest1).1;
  }

  lemma LongHeadRead(s: string)
    requires LongHead(s).Match?
    ensures var (short, prefix) := LongHead(s).value; ShortOk(short) && PrefixOk(prefix)
    ensures LongHead(s).value.1 != "+" ==> !Starts(LongHead(s).rest, '-')
  {
    hide Span;
  }

  lemma NameStarts(s: string)
    requires Name(s).Match?
    ensures s != "" && NameChar(s[0]) && Name(s).value[0] == s[0]
  {
    NameRead(s);
  }

  /** A character more in front of a name changes only the name that is read. */
  lemma LongerName(c: char, u: string)
    requires NameChar(c) && u != "" && NameChar(u[0])
    ensures Name(u).Match? && Name([c] + u) == Match(Name(u).rest, [c] + Name(u).value)
  {
    hide NameChar;
    var s := [c] + u;
    assert s[1..] == u;
    var n := Span(u, NameChar);
    assert Span(s, NameChar) == n + 1;
    assert s[n + 1..] == u[n..] && s[..n + 1] == [c] + u[..n];
  }

  lemma SameRestReads(s: string, t: string)
    requires Name(s).Match? && Name(t).Match? && Name(s).rest == Name(t).rest
    ensures NameValue(s).Match? && NameValue(t).Match? && NameValue(s).rest == NameValue(t).rest
  {
    hide Name, Marked, Choices, ChoicesDefault, ValueFn, DefaultValue;
  }

  lemma LongerBody(c: char, u: string, short: Option<string>, prefix: string, prefix': string)
    requires NameChar(c) && u != "" && NameChar(u[0])
    ensures OptionBody([c] + u, short, prefix).Some? <==> OptionBody(u, short, prefix').Some?
  {
    hide Name, NameValue, ZeroOrOneEnv, Notations, Tail, NewOption, NameChar;
    LongerName(c, u);
    SameRestReads([c] + u, u);
  }

  /** A text without a long option head because of what follows two dashes. */
  lemma TwoDashes(s: string, u: string)
    requires s[Span(s, Space)..] == "--" + u && u != "" && u[0] != '-'
    ensures LongHead(s) == Match(u, (None, "--"))
  {
    hide ShortChar;
    var rest := s[Span(s, Space)..];
    assert rest[2..] == u && rest[2] == u[0];
    assert Short(s) == 0 by {
      DashIsNotShort();
      SpaceIsNotShort();
      if Span(s, Space) == 0 {
        assert s == rest;
      }
    }
    assert s[0..] == s;
  }

  lemma SpaceIsNotShort()
    ensures !ShortChar(' ') && !ShortChar('\t')
  {
  }

  /** The rule without a long name never splits a prefix of two dashes. */
  lemma NoLongUndashed(s: string)
    requires WithLong(s).None? && NoLong(s).Some?
    ensures var rest := s[Span(s, Space)..];
      && rest != "" && Sign(rest[0]) && NoLong(s) == OptionBody(rest[1..], None, rest[..1])
      && Name(rest[1..]).Match? && !Dashed(Name(rest[1..]).value, None, rest[..1])
  {
    hide OptionBody, Name, NameChar, Span, LongHead, AllBalanced, NameOk, Shaped, ModifierOk, EnvOk, Trimmed, NewOption,
      WithLong;
    var rest := s[Span(s, Space)..];
    var body := rest[1..];
    var d, ns := BodyRead(body, None, rest[..1]);
    var name := Name(body).value;
    NameStarts(body);
    if Dashed(name, None, rest[..1]) {
      var u := body[1..];
      assert |name| > 1 && name[1] != '-' by {
        assert !("--" <= name) && name != "-";
      }
      SecondOfName(body);
      assert rest[..1] == "-" && rest == "--" + u && body == ['-'] + u;
      LongWouldRead(s, u);
    }
  }

  lemma LongWouldRead(s: string, u: string)
    requires s[Span(s, Space)..] == "--" + u && u != "" && u[0] != '-' && NameChar(u[0])
    requires OptionBody(['-'] + u, None, "-").Some?
    ensures WithLong(s).Some?
  {
    hide OptionBody, LongHead, Span, NameChar;
    TwoDashes(s, u);
    assert NameChar('-') by { DashInNames(); }
    LongerBody('-', u, None, "-", "--");
  }

  lemma DashInNames()
    ensures NameChar('-')
  {
  }

  lemma SecondOfName(s: string)
    requires Name(s).Match? && |Name(s).value| > 1
    ensures |s| > 1 && NameChar(s[0]) && NameChar(s[1]) && s[1] == Name(s).value[1]
  {
    hide NameChar;
    NameRead(s);
    assert s == Name(s).value + Name(s).rest;
  }

  /** Every option that is read is well-formed but for its texts; no dash of its name could be the prefix's. */
  lemma OptionWellRead(s: string)
    requires ParseOption(s).Some?
    ensures exists d, short, prefix, ns ::
      ParseOption(s).value == NewOption(d, short, prefix, ns) && WellRead(d, short, prefix, ns)
  {
    hide OptionBody, LongHead, NoLong, NewOption, Name, Shaped, NameOk, ModifierOk, EnvOk, Trimmed, AllBalanced,
      ShortOk;
    if WithLong(s).Some? {
      var rest, short, prefix := LongHead(s).rest, LongHead(s).value.0, LongHead(s).value.1;
      LongHeadRead(s);
      var d, ns := BodyRead(rest, short, prefix);
      NameStarts(rest);
      assert WellRead(d, short, prefix, ns);
    } else {
      NoLongUndashed(s);
      var rest := s[Span(s, Space)..];
      var d, ns := BodyRead(rest[1..], None, rest[..1]);
      assert ShortOk(None) by { NoShort(); }
      assert rest[..1] == [rest[0]];
      assert WellRead(d, None, rest[..1], ns);
    }
  }

  lemma NoShort()
    ensures ShortOk(None)
  {
  }

  /** The source of an option is read again exactly when its texts allow. */
  ghost predicate ReadsAgain(p: OptionParam, d: Data, short: Option<string>, prefix: string, ns: seq<string>) {
    TextsOk(d) && Clear(d.env, ns, d.describe, true) ==>
      (ParseOption(RenderOption(p)) == Some(p) <==> !EndsWith(d.name, ":-") && !Mistaken(d, short, prefix, ns))
  }

  /** So what was read from any text is read again from its own source, and exactly when. */
  lemma OptionReadAgain(s: string)
    requires ParseOption(s).Some?
    ensures exists d, short, prefix, ns ::
      && ParseOption(s).value == NewOption(d, short, prefix, ns)
      && WellRead(d, short, prefix, ns) && ReadsAgain(ParseOption(s).value, d, short, prefix, ns)
  {
    hide ParseOption, RenderOption, NewOption, Clear, Shaped, TextsOk, ValueOk, NameOk, ModifierOk, EnvOk, Trimmed,
      Balanced, ShortOk, EndsWith, Mistaken;
    OptionWellRead(s);
    var d, short, prefix, ns :|
      ParseOption(s).value == NewOption(d, short, prefix, ns) && WellRead(d, short, prefix, ns);
    ValueOkParts(d);
    if TextsOk(d) && Clear(d.env, ns, d.describe, true) {
      OptionRoundTripExactly(d, short, prefix, ns);
    }
    assert ReadsAgain(ParseOption(s).value, d, short, prefix, ns);
  }
}
