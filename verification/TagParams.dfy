/**
 Positional and option parameters: building them from what the grammar reads, and writing them back
 as source.
 */
module TagParams {
  import opened Options
  import opened TagGrammar

  // ------------------------------------------------------------------------- rendering

  function RenderModifier(m: Modifier): string {
    match m
    case Optional => ""
    case Required => "!"
    case Terminated => "~"
    case MultipleOptional => "*"
    case MultipleRequired => "+"
    case DelimiterOptional(c) => ['*', c]
    case DelimiterRequired(c) => ['+', c]
  }

  function Quote(v: string): string {
    "\"" + v + "\""
  }

  function RenderChoice(v: string): string {
    if exists i :: 0 <= i < |v| && EndsChoice(v[i]) then Quote(v) else v
  }

  function RenderChoices(vs: seq<string>): string {
    if vs == [] then ""
    else if |vs| == 1 then RenderChoice(vs[0])
    else RenderChoice(vs[0]) + "|" + RenderChoices(vs[1..])
  }

  function RenderDefault(v: string): string {
    if exists i :: 0 <= i < |v| && White(v[i]) then Quote(v) else v
  }

  function RenderValue(choice: Option<Choice>, default: Option<Default>): string {
    match choice
    case Some(Values(vs)) =>
      if default.None? then "[" + RenderChoices(vs) + "]"
      else if default.value.Value? then "[=" + RenderChoices(vs) + "]"
      else ""
    case Some(ChoiceFn(f, validate)) => "[" + (if validate then "" else "?") + "`" + f + "`]"
    case None =>
      match default
      case Some(Value(v)) => "=" + RenderDefault(v)
      case Some(DefaultFn(f)) => "=`" + f + "`"
      case None => ""
  }

  function RenderNameValue(d: Data, suffix: string): string {
    d.name + suffix + RenderModifier(d.modifier) + RenderValue(d.choice, d.default)
  }

  function RenderEnv(env: Option<Option<string>>): string {
    match env
    case None => ""
    case Some(Some(v)) => " $" + v
    case Some(None) => " $$"
  }

  function RenderNotations(ns: seq<string>): string {
    if ns == [] then "" else " <" + ns[0] + ">" + RenderNotations(ns[1..])
  }

  function RenderDescribe(describe: string): string {
    if describe == "" then "" else " " + describe
  }

  // ------------------------------------------------------------------------ positionals

  datatype PositionalParam = PositionalParam(data: Data, notation: Option<string>)

  function RenderPositional(p: PositionalParam): string {
    RenderNameValue(p.data, "")
    + (RenderEnv(p.data.env)
    + (RenderNotations(if p.notation.Some? then [p.notation.value] else [])
    + RenderDescribe(p.data.describe)))
  }

  function ParsePositional(s: string): Option<PositionalParam> {
    match NameValue(s)
    case Miss => None
    case Match(rest, d) =>
      var (rest1, env) := ZeroOrOneEnv(rest);
      var notation := Notation(rest1);
      match Tail(if notation.Match? then notation.rest else rest1)
      case None => None
      case Some(describe) =>
        Some(PositionalParam(d.(env := env, describe := describe),
                             if notation.Match? then Some(notation.value) else None))
  }

  // ---------------------------------------------------------------------------- options

  /** `id` and the notations shown to users are computed from these fields and not kept. */
  datatype OptionParam = OptionParam(data: Data, short: Option<string>, prefix: string,
                                     prefixed: bool, assign: bool, notations: seq<string>)

  predicate EndsWith(s: string, t: string) {
    |t| <= |s| && s[|s| - |t|..] == t
  }

  function Stem(name: string): string
    requires name != ""
  {
    name[..|name| - 1]
  }

  /** A colon at the end marks an assigned option; a doubled one stands for itself. */
  function AssignMark(name: string): (string, bool) {
    if EndsWith(name, "::") then (Stem(name), false)
    else if EndsWith(name, ":") then (Stem(name), true)
    else (name, false)
  }

  /** A dash at the end marks a prefixed option; a doubled one stands for itself. */
  function PrefixMark(name: string): (string, bool) {
    if EndsWith(name, "--") then (Stem(name), false)
    else if EndsWith(name, "-") then (Stem(name), true)
    else (name, false)
  }

  function NewOption(d: Data, short: Option<string>, prefix: string, notations: seq<string>): OptionParam {
    var (name1, assign) := AssignMark(d.name);
    var (name2, prefixed) := PrefixMark(name1);
    OptionParam(d.(name := name2), short, prefix, prefixed, assign, notations)
  }

  function Suffix(p: OptionParam): string {
    (if p.prefixed || EndsWith(p.data.name, "-") then "-" else "")
    + (if p.assign || EndsWith(p.data.name, ":") then ":" else "")
  }

  function RenderShort(short: Option<string>): string {
    if short.Some? then short.value + " " else ""
  }

  function RenderOption(p: OptionParam): string {
    RenderShort(p.short) + (p.prefix + (RenderNameValue(p.data, Suffix(p))
    + (RenderEnv(p.data.env) + (RenderNotations(p.notations) + RenderDescribe(p.data.describe)))))
  }

  predicate Sign(c: char) {
    c == '-' || c == '+'
  }

  /** The short name, if one stands there with a space after it, as its length in the input. */
  function Short(s: string): (n: nat)
    ensures n <= |s|
  {
    var i := if s != "" && Sign(s[0]) then 1 else 0;
    if i + 1 < |s| && ShortChar(s[i]) && Space(s[i + 1]) then i + 1 else 0
  }

  /** Dashes or a plus, not followed by one more. */
  function Prefix(s: string): (r: Parsed<string>)
    ensures r.Match? ==> |r.rest| < |s|
  {
    if "--" <= s && !Starts(s[2..], '-') then Match(s[2..], "--")
    else if Starts(s, '-') && !Starts(s[1..], '-') then Match(s[1..], "-")
    else if Starts(s, '+') && !Starts(s[1..], '+') then Match(s[1..], "+")
    else Miss
  }

  /** The short name is taken as the first two characters, sign or not. */
  function LongHead(s: string): (r: Parsed<(Option<string>, string)>) {
    var n := Short(s);
    var rest := s[n..];
    match Prefix(rest[Span(rest, Space)..])
    case Miss => Miss
    case Match(more, prefix) => Match(more, (if n > 0 && |s| >= 2 then Some(s[..2]) else None, prefix))
  }

  /** What comes after the prefix. */
  function OptionBody(s: string, short: Option<string>, prefix: string): Option<OptionParam> {
    match NameValue(s)
    case Miss => None
    case Match(rest, d) =>
      var (rest1, env) := ZeroOrOneEnv(rest);
      var (rest2, ns) := Notations(rest1);
      match Tail(rest2)
      case None => None
      case Some(describe) => Some(NewOption(d.(env := env, describe := describe), short, prefix, ns))
  }

  function WithLong(s: string): Option<OptionParam> {
    match LongHead(s)
    case Miss => None
    case Match(rest, (short, prefix)) => OptionBody(rest, short, prefix)
  }

  /** One sign, and a name that begins with at most one letter or digit. */
  function NoLong(s: string): Option<OptionParam> {
    var rest := s[Span(s, Space)..];
    if rest == "" || !Sign(rest[0]) || Span(rest[1..], Alphanumeric) > 1 then None
    else OptionBody(rest[1..], None, rest[..1])
  }

  function ParseOption(s: string): Option<OptionParam> {
    if WithLong(s).Some? then WithLong(s) else NoLong(s)
  }
}
