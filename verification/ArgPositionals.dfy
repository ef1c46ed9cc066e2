/**
 Dealing positional arguments out to positional parameters. The program does this twice, once
 while matching and once in the Bash code it generates; both give every parameter the same span.
 */
module ArgPositionals {
  import opened Options
  import opened ArgCommand
  import ArgAccounts
  import ArgMatcher
  import ArgRuns

  /** The `count` arguments from `start` on. */
  datatype Span = Span(start: nat, count: nat)

  /** Two variadic parameters divided by a `--`: the first takes what stands before it. */
  predicate DashRule(variadic: seq<bool>, dash: nat) {
    dash > 0 && |variadic| == 2 && variadic[0] && variadic[1]
  }

  /** How many arguments parameter `p` takes when `a` of `n` arguments are already dealt out. */
  function Takes(variadic: seq<bool>, dash: nat, n: nat, a: nat, p: nat): (k: nat)
    requires p < |variadic| && a < n && dash <= n && (p == 0 ==> a == 0)
    ensures 1 <= k <= n - a
  {
    if !variadic[p] then 1
    else if p == 0 && DashRule(variadic, dash) then dash
    else if n - a > |variadic| - p then n - a - (|variadic| - p) + 1
    else 1
  }

  /** The spans from parameter `p` on; arguments left over at the end form one more span. */
  function SpansFrom(variadic: seq<bool>, dash: nat, n: nat, a: nat, p: nat): (r: seq<Span>)
    requires p <= |variadic| && a <= n && dash <= n && (p == 0 ==> a == 0)
    decreases |variadic| - p
  {
    if a == n then []
    else if p == |variadic| then [Span(a, n - a)]
    else
      var k := Takes(variadic, dash, n, a, p);
      [Span(a, k)] + SpansFrom(variadic, dash, n, a + k, p + 1)
  }

  function Spans(variadic: seq<bool>, dash: nat, n: nat): seq<Span>
    requires dash <= n
  {
    SpansFrom(variadic, dash, n, 0, 0)
  }

  function Groups(args: seq<string>, spans: seq<Span>): (r: seq<seq<string>>)
    requires forall i :: 0 <= i < |spans| ==> spans[i].start + spans[i].count <= |args|
    ensures |r| == |spans|
    ensures forall i :: 0 <= i < |spans| ==> r[i] == args[spans[i].start..spans[i].start + spans[i].count]
  {
    seq(|spans|, i requires 0 <= i < |spans| => args[spans[i].start..spans[i].start + spans[i].count])
  }

  /** Spans are never empty and follow each other from `a` to `n`. */
  ghost predicate Consecutive(spans: seq<Span>, a: nat, n: nat)
    decreases |spans|
  {
    if spans == [] then a == n
    else
      && spans[0].start == a && spans[0].count >= 1 && a + spans[0].count <= n
      && Consecutive(spans[1..], a + spans[0].count, n)
  }

  lemma {:induction false} SpansConsecutive(variadic: seq<bool>, dash: nat, n: nat, a: nat, p: nat)
    requires p <= |variadic| && a <= n && dash <= n && (p == 0 ==> a == 0)
    ensures Consecutive(SpansFrom(variadic, dash, n, a, p), a, n)
    decreases |variadic| - p
  {
    hide Takes, Consecutive;
    if a < n && p < |variadic| {
      var k := Takes(variadic, dash, n, a, p);
      SpansConsecutive(variadic, dash, n, a + k, p + 1);
      ConsecutiveCons(SpansFrom(variadic, dash, n, a + k, p + 1), a, k, n);
    } else {
      NoneConsecutive(n);
      if a < n {
        ConsecutiveCons([], a, n - a, n);
        assert [Span(a, n - a)] + [] == [Span(a, n - a)];
      }
    }
  }

  lemma ConsecutiveCons(spans: seq<Span>, a: nat, k: nat, n: nat)
    requires 1 <= k && a + k <= n && Consecutive(spans, a + k, n)
    ensures Consecutive([Span(a, k)] + spans, a, n)
  {
    var all := [Span(a, k)] + spans;
    assert all[1..] == spans;
  }

  lemma NoneConsecutive(n: nat)
    ensures Consecutive([], n, n)
  {
  }

  lemma {:induction false} ConsecutiveInside(spans: seq<Span>, a: nat, n: nat)
    requires Consecutive(spans, a, n)
    ensures forall i :: 0 <= i < |spans| ==> spans[i].count >= 1 && spans[i].start + spans[i].count <= n
    decreases |spans|
  {
    if spans != [] {
      ConsecutiveInside(spans[1..], a + spans[0].count, n);
      forall i | 0 <= i < |spans| ensures spans[i].count >= 1 && spans[i].start + spans[i].count <= n {
        if i > 0 {
          assert spans[i] == spans[1..][i - 1];
        }
      }
    }
  }

  // -------------------------------------------------------------- the two implementations

  /** The matcher's own loop: slices the arguments group by group. */
  method MatchPositionals(args: seq<string>, params: seq<Positional>, dash: Option<nat>)
    returns (output: seq<seq<string>>)
    requires dash.Some? ==> dash.value <= |args|
    ensures AreGroups(args, Spans(Variadic(params), DashOr0(dash), |args|), output)
  {
    hide Dealt, AreGroups, CountFor;
    ghost var done: seq<Span> := [];
    output := [];
    NothingDealt(args, params, dash);
    if |args| == 0 {
      AllDealt(args, params, dash, done, output, 0, 0);
      return;
    }
    var argIndex, paramIndex := 0, 0;
    while paramIndex < |params| && argIndex < |args|
      invariant 0 <= paramIndex <= |params| && 0 <= argIndex <= |args| && (paramIndex == 0 ==> argIndex == 0)
      invariant Dealt(args, params, dash, done, output, argIndex, paramIndex)
    {
      var takes := CountFor(params, dash, |args|, argIndex, paramIndex);
      DealNext(args, params, dash, done, output, argIndex, paramIndex);
      output := output + [args[argIndex..argIndex + takes]];
      done := done + [Span(argIndex, takes)];
      argIndex, paramIndex := argIndex + takes, paramIndex + 1;
    }
    AllDealt(args, params, dash, done, output, argIndex, paramIndex);
    if argIndex < |args| {
      output := output + [args[argIndex..]];
    }
  }

  /** The groups are the slices of the arguments that the spans describe. */
  ghost predicate AreGroups(args: seq<string>, spans: seq<Span>, output: seq<seq<string>>) {
    && (forall i :: 0 <= i < |spans| ==> spans[i].start + spans[i].count <= |args|)
    && output == Groups(args, spans)
  }

  /** Parameters before `p` have their groups and the rest of the spans are still to come. */
  ghost predicate Dealt(args: seq<string>, params: seq<Positional>, dash: Option<nat>,
                        done: seq<Span>, output: seq<seq<string>>, a: nat, p: nat)
    requires p <= |params| && a <= |args| && (p == 0 ==> a == 0) && (dash.Some? ==> dash.value <= |args|)
  {
    var variadic, d := Variadic(params), DashOr0(dash);
    Spans(variadic, d, |args|) == done + SpansFrom(variadic, d, |args|, a, p) && Sliced(args, done, output)
  }

  lemma NothingDealt(args: seq<string>, params: seq<Positional>, dash: Option<nat>)
    requires dash.Some? ==> dash.value <= |args|
    ensures Dealt(args, params, dash, [], [], 0, 0)
  {
  }

  lemma DealNext(args: seq<string>, params: seq<Positional>, dash: Option<nat>,
                 done: seq<Span>, output: seq<seq<string>>, a: nat, p: nat)
    requires p < |params| && a < |args| && (p == 0 ==> a == 0) && (dash.Some? ==> dash.value <= |args|)
    requires Dealt(args, params, dash, done, output, a, p)
    ensures var k := CountFor(params, dash, |args|, a, p);
      && 1 <= k <= |args| - a
      && Dealt(args, params, dash, done + [Span(a, k)], output + [args[a..a + k]], a + k, p + 1)
  {
    hide SpansFrom, Takes, Sliced;
    var k := CountFor(params, dash, |args|, a, p);
    SpansStep(done, Variadic(params), DashOr0(dash), |args|, a, p);
    SliceNext(args, done, output, Span(a, k));
  }

  lemma AllDealt(args: seq<string>, params: seq<Positional>, dash: Option<nat>,
                 done: seq<Span>, output: seq<seq<string>>, a: nat, p: nat)
    requires p <= |params| && a <= |args| && (p == 0 ==> a == 0) && (dash.Some? ==> dash.value <= |args|)
    requires Dealt(args, params, dash, done, output, a, p) && (p == |params| || a == |args|)
    ensures AreGroups(args, Spans(Variadic(params), DashOr0(dash), |args|),
                      if a < |args| then output + [args[a..]] else output)
  {
    hide SpansFrom, Groups;
    SpansEnd(done, Variadic(params), DashOr0(dash), |args|, a, p);
    if a < |args| {
      var last := Span(a, |args| - a);
      SliceNext(args, done, output, last);
      SlicedGroups(args, done + [last], output + [args[a..]]);
    } else {
      SlicedGroups(args, done, output);
    }
  }

  lemma SpansStep(done: seq<Span>, variadic: seq<bool>, dash: nat, n: nat, a: nat, p: nat)
    requires p < |variadic| && a < n && dash <= n && (p == 0 ==> a == 0)
    ensures var k := Takes(variadic, dash, n, a, p);
      done + SpansFrom(variadic, dash, n, a, p) == done + [Span(a, k)] + SpansFrom(variadic, dash, n, a + k, p + 1)
  {
  }

  lemma SpansEnd(done: seq<Span>, variadic: seq<bool>, dash: nat, n: nat, a: nat, p: nat)
    requires p <= |variadic| && a <= n && dash <= n && (p == 0 ==> a == 0) && (p == |variadic| || a == n)
    ensures done + SpansFrom(variadic, dash, n, a, p) == if a < n then done + [Span(a, n - a)] else done
  {
  }

  /** The matcher's count for one parameter: the dash, the surplus or one. */
  function CountFor(params: seq<Positional>, dash: Option<nat>, n: nat, a: nat, p: nat): (k: nat)
    requires p < |params| && a < n && (dash.Some? ==> dash.value <= n) && (p == 0 ==> a == 0)
    ensures k == Takes(Variadic(params), DashOr0(dash), n, a, p)
  {
    if MultipleValues(params[p]) then
      var dashValue := if dash.Some? then dash.value else 0;
      if p == 0 && dashValue > 0 && |params| == 2 && MultipleValues(params[1]) then dashValue
      else SaturatingSub(n - a, |params| - p) + 1
    else 1
  }

  ghost predicate Sliced(args: seq<string>, done: seq<Span>, output: seq<seq<string>>) {
    && |output| == |done|
    && (forall i :: 0 <= i < |done| ==>
          done[i].start + done[i].count <= |args| && output[i] == args[done[i].start..done[i].start + done[i].count])
  }

  lemma SliceNext(args: seq<string>, done: seq<Span>, output: seq<seq<string>>, s: Span)
    requires Sliced(args, done, output) && s.start + s.count <= |args|
    ensures Sliced(args, done + [s], output + [args[s.start..s.start + s.count]])
    ensures s.start + s.count == |args| ==> args[s.start..s.start + s.count] == args[s.start..]
  {
  }

  lemma SlicedGroups(args: seq<string>, done: seq<Span>, output: seq<seq<string>>)
    requires Sliced(args, done, output)
    ensures output == Groups(args, done)
  {
  }

  function SaturatingSub(a: int, b: int): int {
    if a < b then 0 else a - b
  }

  predicate MultipleValues(p: Positional) {
    p.multiple || p.terminated
  }

  function Variadic(params: seq<Positional>): (r: seq<bool>)
    ensures |r| == |params| && forall i :: 0 <= i < |r| ==> (r[i] <==> params[i].multiple || params[i].terminated)
  {
    seq(|params|, i requires 0 <= i < |params| => MultipleValues(params[i]))
  }

  function DashOr0(dash: Option<nat>): nat {
    if dash.Some? then dash.value else 0
  }

  /** The generated Bash function: records each span and rejects arguments nobody takes. */
  method BashMatchPositionals(params: seq<bool>, n: nat, dash: Option<nat>)
    returns (values: seq<Span>, unexpected: Option<nat>)
    requires dash.Some? ==> dash.value <= n
    ensures values == Spans(params, DashOr0(dash), n)
    ensures unexpected.Some? <==> |params| > 0 && |values| > |params|
    ensures unexpected.Some? ==> unexpected.value == values[|params|].start
  {
    values, unexpected := [], None;
    if n == 0 {
      return;
    }
    ghost var d := DashOr0(dash);
    var argIndex, paramIndex := 0, 0;
    while paramIndex < |params| && argIndex < n
      invariant 0 <= paramIndex <= |params| && 0 <= argIndex <= n && (paramIndex == 0 ==> argIndex == 0)
      invariant Spans(params, d, n) == values + SpansFrom(params, d, n, argIndex, paramIndex)
    {
      var takes := 0;
      if params[paramIndex] {
        if paramIndex == 0 && dash.Some? && dash.value > 0 && |params| == 2 && params[paramIndex + 1] {
          takes := dash.value;
        } else {
          var argDiff, paramDiff := n - argIndex, |params| - paramIndex;
          if argDiff > paramDiff {
            takes := argDiff - paramDiff + 1;
          } else {
            takes := 1;
          }
        }
      } else {
        takes := 1;
      }
      SpansStep(values, params, d, n, argIndex, paramIndex);
      values := values + [Span(argIndex, takes)];
      argIndex, paramIndex := argIndex + takes, paramIndex + 1;
    }
    SpansEnd(values, params, d, n, argIndex, paramIndex);
    if argIndex < n {
      values := values + [Span(argIndex, n - argIndex)];
    }
    if |params| > 0 && |values| > |params| {
      unexpected := Some(values[|params|].start);
    }
  }

  // ------------------------------------------------------------------ what everyone gets

  ghost function Concat(groups: seq<seq<string>>): seq<string>
  {
    if groups == [] then [] else groups[0] + Concat(groups[1..])
  }

  lemma {:induction false} GroupsConcat(args: seq<string>, spans: seq<Span>, a: nat)
    requires a <= |args| && Consecutive(spans, a, |args|)
    requires forall i :: 0 <= i < |spans| ==> spans[i].start + spans[i].count <= |args|
    ensures Concat(Groups(args, spans)) == args[a..]
    decreases |spans|
  {
    if spans != [] {
      var b := a + spans[0].count;
      forall i | 0 <= i < |spans[1..]| ensures spans[1..][i].start + spans[1..][i].count <= |args| {
        assert spans[1..][i] == spans[i + 1];
      }
      GroupsConcat(args, spans[1..], b);
      assert Groups(args, spans)[1..] == Groups(args, spans[1..]);
      assert args[a..] == args[a..b] + args[b..];
    }
  }

  /** Nothing is lost, repeated or reordered, and no group is empty. */
  lemma DealtOutExactly(args: seq<string>, variadic: seq<bool>, dash: nat)
    requires dash <= |args|
    ensures var spans := Spans(variadic, dash, |args|);
      && (forall i :: 0 <= i < |spans| ==> spans[i].count >= 1 && spans[i].start + spans[i].count <= |args|)
      && Concat(Groups(args, spans)) == args
  {
    SpansConsecutive(variadic, dash, |args|, 0, 0);
    ConsecutiveInside(Spans(variadic, dash, |args|), 0, |args|);
    GroupsConcat(args, Spans(variadic, dash, |args|), 0);
    assert args[0..] == args;
  }

  /** Once as many arguments as parameters are left, every parameter takes one. */
  lemma {:induction false} OneEach(variadic: seq<bool>, dash: nat, n: nat, a: nat, p: nat)
    requires p <= |variadic| && a <= n && dash <= n && (p == 0 ==> a == 0)
    requires n - a == |variadic| - p && (p == 0 ==> !DashRule(variadic, dash))
    ensures |SpansFrom(variadic, dash, n, a, p)| == |variadic| - p
    ensures forall i :: 0 <= i < |variadic| - p ==> SpansFrom(variadic, dash, n, a, p)[i] == Span(a + i, 1)
    decreases |variadic| - p
  {
    if a < n {
      OneEach(variadic, dash, n, a + 1, p + 1);
    }
  }

  /** The share of parameter `i` when the first variadic parameter is `v` and arguments suffice. */
  ghost function Share(v: nat, params: nat, n: nat, i: nat): Span
    requires v < params <= n
  {
    if i < v then Span(i, 1)
    else if i == v then Span(v, n - params + 1)
    else Span(i + n - params, 1)
  }

  /**
   With enough arguments and no dash rule, the first variadic parameter takes the surplus and
   every other parameter takes one argument.
   */
  lemma {:induction false} FirstVariadicTakesSurplus(variadic: seq<bool>, dash: nat, n: nat, v: nat, p: nat)
    requires dash <= n && |variadic| <= n && v < |variadic| && variadic[v] && !DashRule(variadic, dash)
    requires p <= v && forall i :: 0 <= i < v ==> !variadic[i]
    ensures |SpansFrom(variadic, dash, n, p, p)| == |variadic| - p
    ensures forall i :: p <= i < |variadic| ==> SpansFrom(variadic, dash, n, p, p)[i - p] == Share(v, |variadic|, n, i)
    decreases v - p
  {
    var r := SpansFrom(variadic, dash, n, p, p);
    var k := Takes(variadic, dash, n, p, p);
    if p < v {
      FirstVariadicTakesSurplus(variadic, dash, n, v, p + 1);
    } else {
      OneEach(variadic, dash, n, p + k, p + 1);
    }
    assert r[0] == Span(p, k) && r[1..] == SpansFrom(variadic, dash, n, p + k, p + 1);
    forall i | p <= i < |variadic| ensures r[i - p] == Share(v, |variadic|, n, i) {
      if i > p {
        assert r[i - p] == r[1..][i - p - 1];
      }
    }
  }

  /** Without a variadic parameter each takes one, and whatever is left over is one extra group. */
  lemma {:induction false} PlainTakeOneEach(variadic: seq<bool>, dash: nat, n: nat, p: nat)
    requires dash <= n && |variadic| <= n && p <= |variadic| && forall i :: 0 <= i < |variadic| ==> !variadic[i]
    ensures |SpansFrom(variadic, dash, n, p, p)| == |variadic| - p + (if n > |variadic| then 1 else 0)
    ensures forall i :: p <= i < |variadic| ==> SpansFrom(variadic, dash, n, p, p)[i - p] == Span(i, 1)
    ensures n > |variadic| ==> SpansFrom(variadic, dash, n, p, p)[|variadic| - p] == Span(|variadic|, n - |variadic|)
    decreases |variadic| - p
  {
    if p < |variadic| {
      PlainTakeOneEach(variadic, dash, n, p + 1);
      var r := SpansFrom(variadic, dash, n, p, p);
      assert r[1..] == SpansFrom(variadic, dash, n, p + 1, p + 1);
      forall i | p < i < |variadic| ensures r[i - p] == Span(i, 1) {
        assert r[i - p] == r[1..][i - p - 1];
      }
    }
  }

  /** With fewer arguments than parameters the leading parameters take one each. */
  lemma {:induction false} ScarceTakeOneEach(variadic: seq<bool>, dash: nat, n: nat, a: nat)
    requires dash <= n && a <= n < |variadic| && !DashRule(variadic, dash)
    ensures |SpansFrom(variadic, dash, n, a, a)| == n - a
    ensures forall i :: a <= i < n ==> SpansFrom(variadic, dash, n, a, a)[i - a] == Span(i, 1)
    decreases n - a
  {
    hide Takes;
    if a < n {
      ScarceTakes(variadic, dash, n, a);
      var rest := SpansFrom(variadic, dash, n, a + 1, a + 1);
      ScarceTakeOneEach(variadic, dash, n, a + 1);
      assert SpansFrom(variadic, dash, n, a, a) == [Span(a, 1)] + rest;
    }
  }

  lemma ScarceTakes(variadic: seq<bool>, dash: nat, n: nat, a: nat)
    requires dash <= n && a < n < |variadic| && !DashRule(variadic, dash)
    ensures Takes(variadic, dash, n, a, a) == 1
  {
  }

  /** Under the dash rule the first parameter takes the arguments before the dash, the second the rest. */
  lemma DashDivides(variadic: seq<bool>, dash: nat, n: nat)
    requires DashRule(variadic, dash) && dash <= n
    ensures Spans(variadic, dash, n) == [Span(0, dash)] + if dash < n then [Span(dash, n - dash)] else []
  {
    assert SpansFrom(variadic, dash, n, dash, 1) == if dash < n then [Span(dash, n - dash)] else [] by {
      if dash < n {
        assert Takes(variadic, dash, n, dash, 1) == n - dash;
        assert SpansFrom(variadic, dash, n, n, 2) == [];
      }
    }
  }

  /**
   From the command line to the parameters of the command it ends at: every argument the matcher
   left free lands in exactly one group, in order.
   */
  method MatchAndDeal(root: Command, args: seq<string>, combine: bool, compgen: bool)
    returns (groups: seq<seq<string>>, st: ArgMatcher.State, ghost toks: seq<ArgMatcher.Token>)
    requires |args| >= 1
    ensures st == ArgRuns.Matched(root, args, combine, compgen).st
    ensures toks == ArgRuns.Matched(root, args, combine, compgen).tokens
    ensures ArgAccounts.Accounted(root, ArgAccounts.Line(args, combine, compgen), st, toks)
    ensures Concat(groups) == ArgAccounts.FreeArgs(args, toks)
    ensures forall i :: 0 <= i < |groups| ==> groups[i] != []
  {
    hide ArgRuns.Matched, ArgAccounts.Accounted, ArgAccounts.FreeArgs;
    st, toks := ArgRuns.Match(root, args, combine, compgen);
    ArgRuns.DashInside(root, ArgAccounts.Line(args, combine, compgen), st, toks);
    var params := ArgMatcher.Current(st).positionals;
    groups := MatchPositionals(st.positionals, params, st.dash);
    DealtOutExactly(st.positionals, Variadic(params), DashOr0(st.dash));
  }
}
