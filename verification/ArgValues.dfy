/**
 The values of a flag or option: which of the arguments after it they come from, and how those are divided.
 */
module ArgValues {
  import opened Options
  import opened ArgCommand
  import opened ArgMatcher

  // ------------------------------------------------------------------------ dividing a text

  /** The parts with the delimiter between them. */
  ghost function Joined(parts: seq<string>, d: char): string
    requires parts != []
  {
    if |parts| == 1 then parts[0] else parts[0] + [d] + Joined(parts[1..], d)
  }

  /** The text is the parts joined by the delimiter, which none of them holds. */
  ghost predicate Parts(s: string, d: char, parts: seq<string>) {
    parts != [] && Joined(parts, d) == s && forall i :: 0 <= i < |parts| ==> d !in parts[i]
  }

  lemma {:induction false} SplitParts(s: string, d: char)
    ensures Parts(s, d, Split(s, d))
  {
    var r := Split(s, d);
    if s != "" {
      SplitParts(s[1..], d);
      var q := Split(s[1..], d);
      if s[0] == d {
        assert r[1..] == q;
      } else if |q| > 1 {
        assert r[1..] == q[1..];
      }
    }
  }

  lemma JoinedStart(parts: seq<string>, d: char)
    requires parts != []
    ensures var s := Joined(parts, d);
      && parts[0] <= s
      && (|parts| == 1 ==> s == parts[0])
      && (|parts| > 1 ==> |s| > |parts[0]| && s[|parts[0]|] == d && s[|parts[0]| + 1..] == Joined(parts[1..], d))
  {
  }

  /** A text has its parts in one way only. */
  lemma {:induction false} PartsOnce(s: string, d: char, a: seq<string>, b: seq<string>)
    requires Parts(s, d, a) && Parts(s, d, b)
    ensures a == b
    decreases |a|
  {
    hide Joined;
    JoinedStart(a, d);
    JoinedStart(b, d);
    FirstPartOnce(s, d, a[0], b[0], |a| > 1, |b| > 1);
    if |a| > 1 {
      PartsOnce(s[|a[0]| + 1..], d, a[1..], b[1..]);
      assert a == [a[0]] + a[1..] && b == [b[0]] + b[1..];
    }
  }

  lemma NoLonger(s: string, d: char, x: string, y: string)
    requires x <= s && y <= s && d !in y && (|x| < |s| ==> s[|x|] == d)
    ensures |y| <= |x|
  {
    assert forall i :: 0 <= i < |y| ==> s[i] == y[i] && s[i] != d;
  }

  lemma FirstPartOnce(s: string, d: char, x: string, y: string, more: bool, more': bool)
    requires x <= s && y <= s && d !in x && d !in y
    requires if more then |x| < |s| && s[|x|] == d else s == x
    requires if more' then |y| < |s| && s[|y|] == d else s == y
    ensures x == y && more == more'
  {
    NoLonger(s, d, x, y);
    NoLonger(s, d, y, x);
  }

  /** The values are the texts, each divided at the delimiter if there is one. */
  ghost predicate Divided(d: Option<char>, texts: seq<string>, values: seq<string>) {
    if d.None? then values == texts
    else if texts == [] then values == []
    else exists parts :: Parts(texts[0], d.value, parts) && parts <= values
                         && Divided(d, texts[1..], values[|parts|..])
  }

  lemma {:induction false} DelimitDivides(d: Option<char>, texts: seq<string>)
    ensures Divided(d, texts, Delimit(d, texts))
  {
    if d.Some? && texts != [] {
      var parts, rest := Split(texts[0], d.value), Delimit(d, texts[1..]);
      SplitParts(texts[0], d.value);
      DelimitDivides(d, texts[1..]);
      assert (parts + rest)[|parts|..] == rest && parts <= parts + rest;
    }
  }

  lemma {:induction false} DividedOnce(d: Option<char>, texts: seq<string>, a: seq<string>, b: seq<string>)
    requires Divided(d, texts, a) && Divided(d, texts, b)
    ensures a == b
    decreases |texts|
  {
    hide Parts;
    if d.Some? && texts != [] {
      var p :| Parts(texts[0], d.value, p) && p <= a && Divided(d, texts[1..], a[|p|..]);
      var q :| Parts(texts[0], d.value, q) && q <= b && Divided(d, texts[1..], b[|q|..]);
      PartsOnce(texts[0], d.value, p, q);
      DividedOnce(d, texts[1..], a[|p|..], b[|q|..]);
      assert a == p + a[|p|..] && b == q + b[|q|..];
    }
  }

  // ------------------------------------------------------------- the arguments values come from

  /** The argument begins with a name of a prefixed option. */
  ghost predicate Prefixed(p: FlagOption, arg: string) {
    p.prefixed && (p.longName <= arg || (p.short.Some? && p.short.value <= arg))
  }

  /** How many values the parameter may take at most, where others can follow. */
  ghost function Most(p: FlagOption, arg: string): nat {
    if Prefixed(p, arg) then 1 else p.maxValues
  }

  /**
   The `n` arguments after the one at `at` are those its parameter takes: all that are left if it is
   terminated, none if its value is assigned, and otherwise as many as it may have, up to the next flag
   or the end of the line.
   */
  ghost predicate Taken(args: seq<string>, at: nat, n: int, p: FlagOption, plus: bool, compgen: bool)
    requires at < |args|
  {
    && 0 <= n && at + 1 + n <= |args|
    && if p.terminated then at + 1 + n == |args|
       else if p.assign then n == 0
       else
         && n <= Most(p, args[at])
         && (forall k :: at < k <= at + n ==> !EndsValues(args, k, plus, compgen))
         && (n == Most(p, args[at]) || at + 1 + n == |args| || EndsValues(args, at + 1 + n, plus, compgen))
  }

  /** The values of the parameter at `at`, from the `n` arguments after it. */
  ghost predicate ValuesOk(args: seq<string>, at: nat, n: int, p: FlagOption, plus: bool, compgen: bool,
                           values: seq<string>)
    requires at < |args|
  {
    && Taken(args, at, n, p, plus, compgen)
    && var texts := args[at + 1..at + 1 + n];
      if p.terminated then values == texts
      else if Prefixed(p, args[at]) then values == if n == 0 then ["1"] else texts
      else Divided(p.delimiter, texts, values)
  }

  lemma TakesItsRun(args: seq<string>, at: nat, len: nat, p: FlagOption, plus: bool, compgen: bool)
    requires at < |args| && !p.terminated && len == Most(p, args[at])
    ensures Taken(args, at, ValueCount(args, at + 1, len, plus, p.assign, compgen), p, plus, compgen)
  {
    hide EndsValues, Most;
    TakesLongestRun(args, at + 1, len, plus, compgen);
  }

  /** An occurrence gets exactly the values its parameter takes. */
  lemma OptionValuesOk(args: seq<string>, at: nat, p: FlagOption, plus: bool, compgen: bool)
    requires at < |args|
    ensures var r := OptionValues(args, at, p, plus, compgen); ValuesOk(args, at, r.1, p, plus, compgen, r.0)
  {
    hide ValueCount, Taken, Divided, Delimit;
    if p.terminated {
      assert args[at + 1..] == args[at + 1..|args|];
      AllTaken(args, at, p, plus, compgen);
    } else {
      TakesItsRun(args, at, Most(p, args[at]), p, plus, compgen);
      var r := OptionValues(args, at, p, plus, compgen);
      DelimitDivides(p.delimiter, args[at + 1..at + 1 + r.1]);
    }
  }

  lemma AllTaken(args: seq<string>, at: nat, p: FlagOption, plus: bool, compgen: bool)
    requires at < |args| && p.terminated
    ensures Taken(args, at, |args| - at - 1, p, plus, compgen)
  {
  }

  lemma TakenOnce(args: seq<string>, at: nat, m: int, n: int, p: FlagOption, plus: bool, compgen: bool)
    requires at < |args| && Taken(args, at, m, p, plus, compgen) && Taken(args, at, n, p, plus, compgen)
    ensures m == n
  {
    hide EndsValues, Most;
  }

  /** What a parameter takes and what values that gives is determined. */
  lemma ValuesOnce(args: seq<string>, at: nat, m: int, n: int, p: FlagOption, plus: bool, compgen: bool,
                   a: seq<string>, b: seq<string>)
    requires at < |args| && ValuesOk(args, at, m, p, plus, compgen, a) && ValuesOk(args, at, n, p, plus, compgen, b)
    ensures m == n && a == b
  {
    hide Taken, Divided;
    TakenOnce(args, at, m, n, p, plus, compgen);
    assert 0 <= n && at + 1 + n <= |args| by { TakenInside(args, at, n, p, plus, compgen); }
    if !p.terminated && !Prefixed(p, args[at]) {
      DividedOnce(p.delimiter, args[at + 1..at + 1 + n], a, b);
    }
  }

  lemma TakenInside(args: seq<string>, at: nat, n: int, p: FlagOption, plus: bool, compgen: bool)
    requires at < |args| && Taken(args, at, n, p, plus, compgen)
    ensures 0 <= n && at + 1 + n <= |args|
  {
  }
}
