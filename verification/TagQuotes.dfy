/**
 Quoted values from the side of the text: between quotes of either kind stands any text in which the
 quote and the backslash come only together, the backslash first.
 */
module TagQuotes {
  import opened Options
  import opened TagGrammar
  import opened TagParams
  import opened TagRoundTrip

  /** A backslash stands before the quote, and a quote after a backslash. */
  ghost predicate EscapedAt(v: string, q: char, i: int)
    requires 0 <= i < |v|
  {
    (v[i] == '\\' ==> i + 1 < |v| && v[i + 1] == q) && (v[i] == q ==> i > 0 && v[i - 1] == '\\')
  }

  ghost predicate Escapes(v: string, q: char) {
    forall i :: 0 <= i < |v| ==> EscapedAt(v, q, i)
  }

  /** The text begins with the value between quotes. */
  ghost predicate InQuotes(s: string, q: char, v: string, t: string) {
    QuoteMark(q) && Escapes(v, q) && s == [q] + v + [q] + t
  }

  lemma PlainEscapes(v: string, q: char)
    requires q !in v && '\\' !in v
    ensures Escapes(v, q)
  {
  }

  /** A text without the units at its front. */
  lemma EscapesRest(v: string, q: char)
    requires QuoteMark(q) && Escapes(v, q) && v != ""
    ensures v[0] != q
    ensures v[0] == '\\' ==> |v| >= 2 && v[1] == q && Escapes(v[2..], q)
    ensures v[0] != '\\' ==> Escapes(v[1..], q)
  {
    assert EscapedAt(v, q, 0);
    var k := if v[0] == '\\' then 2 else 1;
    var w := v[k..];
    forall i | 0 <= i < |w| ensures EscapedAt(w, q, i) {
      assert EscapedAt(v, q, i + k) && EscapedAt(v, q, k - 1);
    }
  }

  lemma EscapesFront(front: string, w: string, q: char)
    requires QuoteMark(q) && Escapes(w, q)
    requires front == ['\\', q] || (|front| == 1 && front[0] != q && front[0] != '\\')
    ensures Escapes(front + w, q)
  {
    var v, k := front + w, |front|;
    forall i | 0 <= i < |v| ensures EscapedAt(v, q, i) {
      if i >= k {
        assert EscapedAt(w, q, i - k);
      }
    }
  }

  /** Reading up to the closing quote takes all of an escaped text. */
  lemma {:induction false} EscapedTakes(v: string, q: char, t: string)
    requires QuoteMark(q) && Escapes(v, q)
    ensures Escaped(v + ([q] + t), q) == Some(|v|)
    decreases |v|
  {
    hide Escapes;
    var s := v + ([q] + t);
    if v == "" {
      assert s[0] == q;
    } else {
      EscapesRest(v, q);
      assert s[0] == v[0];
      if v[0] == '\\' {
        assert s[1] == v[1] && s[2..] == v[2..] + ([q] + t);
        EscapedTakes(v[2..], q, t);
      } else {
        assert s[1..] == v[1..] + ([q] + t);
        EscapedTakes(v[1..], q, t);
      }
    }
  }

  /** And takes only such a text. */
  lemma {:induction false} EscapedOnly(s: string, q: char)
    requires QuoteMark(q)
    ensures Escaped(s, q).Some? ==> Escapes(s[..Escaped(s, q).value], q)
    decreases |s|
  {
    hide Escapes;
    if Escaped(s, q).Some? {
      var n := Escaped(s, q).value;
      if n == 0 {
        assert Escapes("", q) by { PlainEscapes("", q); }
        assert s[..n] == "";
      } else if s[0] == '\\' {
        EscapedOnly(s[2..], q);
        EscapesFront(['\\', q], s[2..][..n - 2], q);
        assert s[..n] == ['\\', q] + s[2..][..n - 2];
      } else {
        EscapedOnly(s[1..], q);
        EscapesFront([s[0]], s[1..][..n - 1], q);
        assert s[..n] == [s[0]] + s[1..][..n - 1];
      }
    }
  }

  lemma QuotedTakes(s: string, q: char, v: string, t: string)
    requires InQuotes(s, q, v, t)
    ensures Quoted(s, q) == Match(t, v)
  {
    hide Escapes, Escaped;
    assert s[0] == q && s[1..] == v + ([q] + t);
    EscapedTakes(v, q, t);
    assert s[1 + |v|..] == [q] + t && s[2 + |v|..] == t && s[1..1 + |v|] == v;
  }

  lemma QuotedOnly(s: string, q: char)
    requires QuoteMark(q) && Quoted(s, q).Match?
    ensures InQuotes(s, q, Quoted(s, q).value, Quoted(s, q).rest)
  {
    hide Escapes, Escaped;
    EscapedOnly(s[1..], q);
    PlainEscapes("", q);
    var v, t := Quoted(s, q).value, Quoted(s, q).rest;
    var n := |v|;
    assert s[1..][..n] == v && s[1..][..0] == "";
    assert s[0] == q && s[1 + n] == q && s[2 + n..] == t && s[1..1 + n] == v;
    assert s == [q] + v + [q] + t;
  }

  /** A quoted string is read exactly where one stands, with single quotes or double. */
  lemma QuotedExactly(s: string, v: string, t: string)
    ensures QuotedString(s) == Match(t, v) <==> InQuotes(s, '\'', v, t) || InQuotes(s, '"', v, t)
  {
    hide InQuotes, Quoted;
    if InQuotes(s, '\'', v, t) {
      QuotedTakes(s, '\'', v, t);
    }
    if InQuotes(s, '"', v, t) {
      QuotedTakes(s, '"', v, t);
      OtherQuote(s, '"', v, t);
    }
    if QuotedString(s) == Match(t, v) {
      if Quoted(s, '\'').Match? {
        QuotedOnly(s, '\'');
      } else {
        QuotedOnly(s, '"');
      }
    }
  }

  lemma OtherQuote(s: string, q: char, v: string, t: string)
    requires InQuotes(s, q, v, t) && q == '"'
    ensures Quoted(s, '\'') == Miss
  {
  }

  /** And missed exactly where none stands. */
  lemma QuotedMisses(s: string)
    ensures QuotedString(s) == Miss <==> forall v, t :: !InQuotes(s, '\'', v, t) && !InQuotes(s, '"', v, t)
  {
    hide InQuotes, QuotedString;
    forall v, t ensures QuotedString(s) == Match(t, v) <==> InQuotes(s, '\'', v, t) || InQuotes(s, '"', v, t) {
      QuotedExactly(s, v, t);
    }
    if QuotedString(s).Match? {
      var v, t := QuotedString(s).value, QuotedString(s).rest;
      assert InQuotes(s, '\'', v, t) || InQuotes(s, '"', v, t);
    }
  }

  // ----------------------------------------------------------------------- values in the grammar

  /** The text up to the first character that ends it. */
  ghost predicate UpTo(s: string, ends: char -> bool, v: string, t: string) {
    s == v + t && (forall i :: 0 <= i < |v| ==> !ends(v[i])) && (t != "" ==> ends(t[0]))
  }

  lemma TillTakes(s: string, ends: char -> bool)
    ensures var r := TakeTill(s, ends); r.Match? && UpTo(s, ends, r.value, r.rest)
  {
  }

  /** A default is what stands between quotes, or else the text up to the first white space. */
  lemma DefaultExactly(s: string)
    ensures DefaultValue(s).Match?
    ensures var v, t := DefaultValue(s).value, DefaultValue(s).rest;
      if QuotedString(s).Match? then InQuotes(s, '\'', v, t) || InQuotes(s, '"', v, t) else UpTo(s, White, v, t)
  {
    hide InQuotes, UpTo, QuotedString, TakeTill;
    if QuotedString(s).Match? {
      QuotedExactly(s, QuotedString(s).value, QuotedString(s).rest);
    }
    TillTakes(s, White);
  }

  /** So is a choice, up to a bar or bracket; it does not begin with an equals sign or a backquote. */
  lemma ChoiceExactly(s: string)
    ensures ChoiceValue(s).Miss? <==> s != "" && (s[0] == '=' || s[0] == '`')
    ensures ChoiceValue(s).Match? ==>
      var v, t := ChoiceValue(s).value, ChoiceValue(s).rest;
      if QuotedString(s).Match? then InQuotes(s, '\'', v, t) || InQuotes(s, '"', v, t) else UpTo(s, EndsChoice, v, t)
  {
    hide InQuotes, UpTo, QuotedString, TakeTill;
    if QuotedString(s).Match? {
      QuotedExactly(s, QuotedString(s).value, QuotedString(s).rest);
    }
    TillTakes(s, EndsChoice);
  }

  lemma QuotedNameValue(name: string, q: char, v: string, t: string)
    requires NameOk(name) && QuoteMark(q) && Escapes(v, q)
    ensures NameValue(name + ("=" + ([q] + v + [q] + t))) == Match(t, Named(name).(default := Some(Value(v))))
  {
    hide Bracketed, NameOk, Name, Modified, Escapes, QuotedString;
    var body := [q] + v + [q] + t;
    BracketedReads(name, Optional, "=" + body);
    assert RenderModifier(Optional) + ("=" + body) == "=" + body;
    NameReads(name, "=" + body);
    QuotedExactly(body, v, t);
    Cons('=', body);
    assert body[0] == q;
  }

  /**
   An option declared with a quoted default has the text between the quotes, of either kind, as it stands,
   and what follows as its description.
   */
  lemma QuotedDefaultRead(name: string, q: char, v: string, describe: string)
    requires NameOk(name) && name[0] != '-' && QuoteMark(q) && Escapes(v, q)
    requires Trimmed(describe) && Clear(None, [], describe, true)
    ensures ParseOption("--" + (name + ("=" + ([q] + v + [q] + RenderDescribe(describe)))))
         == Some(NewOption(Named(name).(default := Some(Value(v)), describe := describe), None, "--", []))
  {
    hide NameOk, NameValue, Escapes, ZeroOrOneEnv, Notations, Tail, NewOption, RenderDescribe, Trimmed, BindEnv,
      ParseOption;
    var dsc := RenderDescribe(describe);
    var body := name + ("=" + ([q] + v + [q] + dsc));
    QuotedNameValue(name, q, v, dsc);
    assert RenderEnv(None) + dsc == dsc && RenderNotations([]) + dsc == dsc;
    EnvSkipped(None, [], describe, true);
    EnvReads(None, dsc) by { NoEnv(); }
    NoNotation(describe);
    NotationsRead([], dsc);
    TailReads(describe);
    assert OptionBody(body, None, "--")
        == Some(NewOption(Named(name).(default := Some(Value(v)), describe := describe), None, "--", []));
    assert name != "" && body[0] == name[0] by { NameNotEmpty(name); }
    ReadsByLong(None, "--", body);
    assert RenderShort(None) + ("--" + body) == "--" + body;
  }

  lemma NoEnv()
    ensures EnvOk(None)
  {
  }

  lemma NameNotEmpty(name: string)
    requires NameOk(name)
    ensures name != ""
  {
  }
}
