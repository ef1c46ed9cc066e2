/**
 The grammar of parameter declarations in script comments, such as `--name*,[=a|b] $ENV <FILE> text`:
 each rule reads a prefix of the input and gives what is left with the value read, or misses.
 */
module TagGrammar {
  import opened Options
  import ArgCommand

  datatype Parsed<T> = Match(rest: string, value: T) | Miss

  datatype Modifier =
    | Optional | Required | Terminated
    | MultipleOptional | MultipleRequired
    | DelimiterOptional(delimiter: char) | DelimiterRequired(delimiter: char)

  datatype Choice = Values(values: seq<string>) | ChoiceFn(name: string, validate: bool)

  datatype Default = Value(text: string) | DefaultFn(name: string)

  /** What all parameters have; an environment binding may leave the variable's name open. */
  datatype Data = Data(name: string, modifier: Modifier, choice: Option<Choice>, default: Option<Default>,
                       env: Option<Option<string>>, describe: string)

  function Named(name: string): Data {
    Data(name, Optional, None, None, None, "")
  }

  // ------------------------------------------------------------------------ characters

  predicate Alphanumeric(c: char) {
    '0' <= c <= '9' || 'a' <= c <= 'z' || 'A' <= c <= 'Z'
  }

  predicate NameChar(c: char) {
    Alphanumeric(c) || c in "_-.:@"
  }

  predicate EnvChar(c: char) {
    'A' <= c <= 'Z' || c == '_'
  }

  predicate ShortChar(c: char) {
    Alphanumeric(c) || c in "!#$%*+,./:=?@[]^_{}~"
  }

  predicate FnChar(c: char) {
    c !in " \t\"'`()[]{}<>$&\\;|"
  }

  predicate Delimiter(c: char) {
    c in ",:;@|/"
  }

  predicate Space(c: char) {
    c == ' ' || c == '\t'
  }

  /** White space of any script. */
  predicate White(c: char) {
    ArgCommand.IsWhitespace(c)
  }

  predicate EndsChoice(c: char) {
    c == '|' || c == ']'
  }

  // ------------------------------------------------------------------------ basic rules

  predicate Starts(s: string, c: char) {
    s != "" && s[0] == c
  }

  /** How many characters at the front satisfy the test. */
  function Span(s: string, test: char -> bool): (n: nat)
    ensures n <= |s| && (n < |s| ==> !test(s[n])) && forall i :: 0 <= i < n ==> test(s[i])
  {
    if s == "" || !test(s[0]) then 0 else 1 + Span(s[1..], test)
  }

  function TakeWhile1(s: string, test: char -> bool): (r: Parsed<string>)
    ensures r.Match? ==> r.value != "" && s == r.value + r.rest
  {
    var n := Span(s, test);
    if n == 0 then Miss else Match(s[n..], s[..n])
  }

  function Name(s: string): (r: Parsed<string>)
    ensures r.Match? ==> |r.rest| < |s|
  {
    TakeWhile1(s, NameChar)
  }

  /** The length of the text before the closing quote; none when a backslash escapes anything else. */
  function Escaped(s: string, quote: char): (r: Option<nat>)
    ensures r.Some? ==> r.value <= |s|
  {
    if s == "" || s[0] == quote then Some(0)
    else if s[0] == '\\' then
      if |s| >= 2 && s[1] == quote then
        match Escaped(s[2..], quote)
        case Some(n) => Some(n + 2)
        case None => None
      else None
    else match Escaped(s[1..], quote)
      case Some(n) => Some(n + 1)
      case None => None
  }

  function Quoted(s: string, quote: char): (r: Parsed<string>)
    ensures r.Match? ==> |r.rest| < |s|
  {
    if !Starts(s, quote) then Miss
    else
      var n := match Escaped(s[1..], quote) case Some(n) => n case None => 0;
      if Starts(s[1 + n..], quote) then Match(s[2 + n..], s[1..1 + n]) else Miss
  }

  function QuotedString(s: string): (r: Parsed<string>)
    ensures r.Match? ==> |r.rest| < |s|
  {
    var single := Quoted(s, '\'');
    if single.Match? then single else Quoted(s, '"')
  }

  function TakeTill(s: string, stop: char -> bool): (r: Parsed<string>)
    ensures r.Match? && s == r.value + r.rest
  {
    var n := Span(s, c => !stop(c));
    Match(s[n..], s[..n])
  }

  // -------------------------------------------------------------------- names and values

  /** The modifier after a name: `!`, `~`, `*` or `+`, and after the last two maybe a delimiter. */
  function Marked(rest: string): (r: (string, Modifier))
    ensures |r.0| <= |rest|
  {
    if Starts(rest, '!') then (rest[1..], Required)
    else if Starts(rest, '~') then (rest[1..], Terminated)
    else if Starts(rest, '*') then
      if |rest| > 1 && Delimiter(rest[1]) then (rest[2..], DelimiterOptional(rest[1]))
      else (rest[1..], MultipleOptional)
    else if Starts(rest, '+') then
      if |rest| > 1 && Delimiter(rest[1]) then (rest[2..], DelimiterRequired(rest[1]))
      else (rest[1..], MultipleRequired)
    else (rest, Optional)
  }

  function Modified(s: string): (r: Parsed<Data>)
    ensures r.Match? ==> |r.rest| < |s|
  {
    match Name(s)
    case Miss => Miss
    case Match(rest, name) => Match(Marked(rest).0, Named(name).(modifier := Marked(rest).1))
  }

  function DefaultValue(s: string): Parsed<string> {
    var q := QuotedString(s);
    if q.Match? then q else TakeTill(s, White)
  }

  /** A function's name between backquotes. */
  function ValueFn(s: string): Parsed<string> {
    if !Starts(s, '`') then Miss
    else match TakeWhile1(s[1..], FnChar)
      case Miss => Miss
      case Match(rest, name) => if Starts(rest, '`') then Match(rest[1..], name) else Miss
  }

  function ChoiceValue(s: string): (r: Parsed<string>)
    ensures r.Match? ==> |r.rest| <= |s|
  {
    if Starts(s, '=') || Starts(s, '`') then Miss
    else
      var q := QuotedString(s);
      if q.Match? then q else TakeTill(s, EndsChoice)
  }

  /** Values separated by bars; a bar without a value after it is left. */
  function Choices(s: string): (r: Parsed<seq<string>>)
    ensures r.Match? ==> |r.rest| <= |s|
    decreases |s|
  {
    match ChoiceValue(s)
    case Miss => Miss
    case Match(rest, v) =>
      if !Starts(rest, '|') then Match(rest, [v])
      else match Choices(rest[1..])
        case Miss => Match(rest, [v])
        case Match(more, vs) => Match(more, [v] + vs)
  }

  /** Two values or more of which the first is marked as the default. */
  function ChoicesDefault(s: string): Parsed<seq<string>> {
    if !Starts(s, '=') then Miss
    else match ChoiceValue(s[1..])
      case Miss => Miss
      case Match(rest, head) =>
        if !Starts(rest, '|') then Miss
        else match Choices(rest[1..])
          case Miss => Miss
          case Match(more, tail) => Match(more, [head] + tail)
  }

  function Bracketed(s: string): (r: Parsed<Data>)
    ensures r.Match? ==> Starts(r.rest, '[')
  {
    match Modified(s)
    case Miss => Miss
    case Match(rest, d) => if Starts(rest, '[') then Match(rest, d) else Miss
  }

  function ParamChoicesDefault(s: string): Parsed<Data> {
    match Bracketed(s)
    case Miss => Miss
    case Match(rest, d) =>
      match ChoicesDefault(rest[1..])
      case Miss => Miss
      case Match(more, vs) =>
        if Starts(more, ']') then Match(more[1..], d.(choice := Some(Values(vs)), default := Some(Value(vs[0]))))
        else Miss
  }

  function ParamChoicesFn(s: string): Parsed<Data> {
    match Bracketed(s)
    case Miss => Miss
    case Match(rest, d) =>
      var open := Starts(rest[1..], '?');
      match ValueFn(if open then rest[2..] else rest[1..])
      case Miss => Miss
      case Match(more, f) =>
        if Starts(more, ']') then Match(more[1..], d.(choice := Some(ChoiceFn(f, !open)))) else Miss
  }

  function ParamChoices(s: string): Parsed<Data> {
    match Bracketed(s)
    case Miss => Miss
    case Match(rest, d) =>
      match Choices(rest[1..])
      case Miss => Miss
      case Match(more, vs) => if Starts(more, ']') then Match(more[1..], d.(choice := Some(Values(vs)))) else Miss
  }

  function ParamAssignFn(s: string): Parsed<Data> {
    match Name(s)
    case Miss => Miss
    case Match(rest, name) =>
      if !Starts(rest, '=') then Miss
      else match ValueFn(rest[1..])
        case Miss => Miss
        case Match(more, f) => Match(more, Named(name).(default := Some(DefaultFn(f))))
  }

  function ParamAssign(s: string): Parsed<Data> {
    match Name(s)
    case Miss => Miss
    case Match(rest, name) =>
      if !Starts(rest, '=') then Miss
      else match DefaultValue(rest[1..])
        case Miss => Miss
        case Match(more, v) => Match(more, Named(name).(default := Some(Value(v))))
  }

  /** The name and value part, by the first rule that fits. */
  function NameValue(s: string): Parsed<Data> {
    if ParamChoicesDefault(s).Match? then ParamChoicesDefault(s)
    else if ParamChoicesFn(s).Match? then ParamChoicesFn(s)
    else if ParamChoices(s).Match? then ParamChoices(s)
    else if ParamAssignFn(s).Match? then ParamAssignFn(s)
    else if ParamAssign(s).Match? then ParamAssign(s)
    else Modified(s)
  }

  // ------------------------------------------------------------- what follows the value

  function BindEnv(s: string): Parsed<Option<string>> {
    if !(" $" <= s) then Miss
    else if Starts(s[2..], '$') then Match(s[3..], None)
    else match TakeWhile1(s[2..], EnvChar)
      case Miss => Miss
      case Match(rest, v) => Match(rest, Some(v))
  }

  function ZeroOrOneEnv(s: string): (string, Option<Option<string>>) {
    match BindEnv(s)
    case Miss => (s, None)
    case Match(rest, env) => (rest, Some(env))
  }

  /** The number of characters up to and with the bracket that closes the notation. */
  function NotationEnd(s: string, balance: nat): (r: Option<nat>)
    requires balance >= 1
    ensures r.Some? ==> 1 <= r.value <= |s| && s[r.value - 1] == '>'
  {
    if s == "" then None
    else if s[0] == '>' && balance == 1 then Some(1)
    else
      var b := if s[0] == '<' then balance + 1 else if s[0] == '>' then balance - 1 else balance;
      match NotationEnd(s[1..], b)
      case None => None
      case Some(n) => Some(n + 1)
  }

  function Notation(s: string): (r: Parsed<string>)
    ensures r.Match? ==> |r.rest| < |s|
  {
    if !(" <" <= s) then Miss
    else match NotationEnd(s[2..], 1)
      case None => Miss
      case Some(n) => Match(s[2 + n..], s[2..1 + n])
  }

  function Notations(s: string): (string, seq<string>)
    decreases |s|
  {
    match Notation(s)
    case Miss => (s, [])
    case Match(rest, v) => var (more, vs) := Notations(rest); (more, [v] + vs)
  }

  function TrimStart(s: string): string {
    if s != "" && White(s[0]) then TrimStart(s[1..]) else s
  }

  function TrimEnd(s: string): string {
    if s != "" && White(s[|s| - 1]) then TrimEnd(s[..|s| - 1]) else s
  }

  /** The description: all that is left, which must begin with a space, trimmed. */
  function Tail(s: string): Option<string> {
    if s == "" then Some("")
    else if !Space(s[0]) then None
    else Some(TrimEnd(TrimStart(s[Span(s, Space)..])))
  }
}
