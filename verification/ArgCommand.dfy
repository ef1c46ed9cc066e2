/**
 A command line's declaration: commands with their flags, options, positionals, symbols
 and subcommands, and the lookups the matcher makes in them.
 */
module ArgCommand {
  import opened Options

  /** A flag or option. `maxValues` is the most values one occurrence takes. */
  datatype FlagOption = FlagOption(
    id: string,
    longPrefix: string,
    longName: string,
    short: Option<string>,
    prefixed: bool,
    assign: bool,
    terminated: bool,
    maxValues: nat,
    delimiter: Option<char>)

  /** A positional parameter. */
  datatype Positional = Positional(multiple: bool, terminated: bool)

  /** A command; `defaultSubcommand` is the one taken when none is named. */
  datatype Command = Command(
    names: seq<string>,
    flagOptions: seq<FlagOption>,
    positionals: seq<Positional>,
    subcommands: seq<Command>,
    defaultSubcommand: Option<nat>,
    symbols: seq<char>,
    helpFlags: seq<string>,
    versionFlags: seq<string>,
    hasFunction: bool)

  predicate StartsWith(s: string, prefix: string) {
    prefix <= s
  }

  predicate NameFits(p: FlagOption, declared: string, name: string) {
    if p.prefixed then StartsWith(name, declared) else declared == name
  }

  predicate IsMatch(p: FlagOption, name: string) {
    p.id == name || NameFits(p, p.longName, name) || (p.short.Some? && NameFits(p, p.short.value, name))
  }

  /** The declared name an argument to a prefixed option starts with. */
  function MatchPrefix(p: FlagOption, arg: string): Option<string> {
    if !p.prefixed then None
    else if StartsWith(arg, p.longName) then Some(p.longName)
    else if p.short.Some? && StartsWith(arg, p.short.value) then Some(p.short.value)
    else None
  }

  /** `i` is the first of the parameters that the name matches. */
  ghost predicate FirstMatchAt(ps: seq<FlagOption>, name: string, i: int) {
    0 <= i < |ps| && IsMatch(ps[i], name) && forall j :: 0 <= j < i ==> !IsMatch(ps[j], name)
  }

  function FirstMatch(ps: seq<FlagOption>, name: string): (r: Option<FlagOption>)
    ensures r.Some? ==> exists i :: FirstMatchAt(ps, name, i) && ps[i] == r.value
    ensures r.Some? ==> r.value in ps && IsMatch(r.value, name)
    ensures r.None? ==> forall i :: 0 <= i < |ps| ==> !IsMatch(ps[i], name)
  {
    if ps == [] then None
    else if IsMatch(ps[0], name) then
      assert FirstMatchAt(ps, name, 0);
      Some(ps[0])
    else
      var r := FirstMatch(ps[1..], name);
      assert r.Some? ==> exists i :: FirstMatchAt(ps, name, i) && ps[i] == r.value by {
        if r.Some? {
          var i :| FirstMatchAt(ps[1..], name, i) && ps[1..][i] == r.value;
          assert FirstMatchAt(ps, name, i + 1);
        }
      }
      r
  }

  function FindFlagOption(c: Command, name: string): (r: Option<FlagOption>)
    ensures r.Some? ==> exists i :: FirstMatchAt(c.flagOptions, name, i) && c.flagOptions[i] == r.value
    ensures r.Some? ==> r.value in c.flagOptions && IsMatch(r.value, name)
    ensures r.None? ==> forall i :: 0 <= i < |c.flagOptions| ==> !IsMatch(c.flagOptions[i], name)
  {
    FirstMatch(c.flagOptions, name)
  }

  /** `i` is the first of the commands that has the name. */
  ghost predicate FirstNamedAt(cs: seq<Command>, name: string, i: int) {
    0 <= i < |cs| && name in cs[i].names && forall j :: 0 <= j < i ==> name !in cs[j].names
  }

  function FirstNamed(cs: seq<Command>, name: string): (r: Option<Command>)
    ensures r.Some? ==> exists i :: FirstNamedAt(cs, name, i) && cs[i] == r.value
    ensures r.Some? ==> r.value in cs && name in r.value.names
    ensures r.None? ==> forall i :: 0 <= i < |cs| ==> name !in cs[i].names
  {
    if cs == [] then None
    else if name in cs[0].names then
      assert FirstNamedAt(cs, name, 0);
      Some(cs[0])
    else
      var r := FirstNamed(cs[1..], name);
      assert r.Some? ==> exists i :: FirstNamedAt(cs, name, i) && cs[i] == r.value by {
        if r.Some? {
          var i :| FirstNamedAt(cs[1..], name, i) && cs[1..][i] == r.value;
          assert FirstNamedAt(cs, name, i + 1);
        }
      }
      r
  }

  function FindSubcommand(c: Command, name: string): (r: Option<Command>)
    ensures r.Some? ==> exists i :: FirstNamedAt(c.subcommands, name, i) && c.subcommands[i] == r.value
    ensures r.Some? ==> r.value in c.subcommands && name in r.value.names
    ensures r.None? ==> forall i :: 0 <= i < |c.subcommands| ==> name !in c.subcommands[i].names
  {
    FirstNamed(c.subcommands, name)
  }

  function FindDefaultSubcommand(c: Command): (r: Option<Command>)
    ensures r.Some? ==> r.value in c.subcommands
  {
    if c.defaultSubcommand.Some? && c.defaultSubcommand.value < |c.subcommands|
    then Some(c.subcommands[c.defaultSubcommand.value]) else None
  }

  /** Every argument of a delegated command is positional. */
  predicate Delegated(c: Command) {
    c.subcommands == [] && c.flagOptions == [] && |c.positionals| == 1 && c.positionals[0].terminated
  }

  predicate HasSign(s: string, sign: char) {
    s != "" && s[0] == sign
  }

  /** Some flag or option of the command is written with a plus. */
  predicate UsesPlus(c: Command) {
    exists i :: 0 <= i < |c.flagOptions| &&
      (|| HasSign(c.flagOptions[i].longPrefix, '+')
       || (c.flagOptions[i].short.Some? && HasSign(c.flagOptions[i].short.value, '+')))
  }

  predicate IsWhitespace(c: char) {
    var n := c as int;
    || 0x09 <= n <= 0x0D || n == 0x20 || n == 0x85 || n == 0xA0 || n == 0x1680
    || 0x2000 <= n <= 0x200A || n == 0x2028 || n == 0x2029 || n == 0x202F || n == 0x205F || n == 0x3000
  }

  predicate Unspaced(s: string) {
    forall i :: 0 <= i < |s| ==> !IsWhitespace(s[i])
  }

  /** The text before the first `=` and the text after it. */
  function SplitOnce(s: string): (r: Option<(string, string)>)
    ensures r.Some? ==> s == r.value.0 + "=" + r.value.1 && '=' !in r.value.0
    ensures r.None? <==> '=' !in s
  {
    if s == "" then None
    else if s[0] == '=' then Some(("", s[1..]))
    else
      match SplitOnce(s[1..])
      case None => None
      case Some((k, v)) => Some(([s[0]] + k, v))
  }

  /** The argument looks like a flag or option: one or two dashes, or one plus if pluses are in use. */
  predicate MaybeFlagOption(arg: string, plus: bool) {
    var cond :=
      if plus && HasSign(arg, '+') then !StartsWith(arg, "++")
      else if HasSign(arg, '-') then |arg| < 3 || !StartsWith(arg, "---")
      else false;
    var key := match SplitOnce(arg) case Some((k, _)) => k case None => arg;
    cond && Unspaced(key)
  }

  /** Splits one value at every delimiter. */
  function Split(s: string, d: char): (r: seq<string>)
    ensures r != []
  {
    if s == "" then [""]
    else
      var r := Split(s[1..], d);
      if s[0] == d then [""] + r else [[s[0]] + r[0]] + r[1..]
  }

  /** Splits every value at the delimiter, if there is one. */
  function Delimit(d: Option<char>, values: seq<string>): seq<string> {
    if d.None? then values
    else if values == [] then []
    else Split(values[0], d.value) + Delimit(d, values[1..])
  }
}
