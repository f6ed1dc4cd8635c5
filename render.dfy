/**
 * The body of `format()` (index.js:298-363): the array shorthand, the
 * replacement of every placeholder by `%s` when arguments are styled
 * (index.js:317-320), the styling of each argument through a fresh root
 * instance (index.js:323-341), the outer style and the final sprintf; and the
 * assembly with prefix and suffix (index.js:365-391).
 */
module Render {
  import opened Wrappers
  import opened Values
  import opened Text
  import opened Chalk
  import opened Placeholders
  import opened Escape
  import opened Options

  /* ---------------------------------------------------------------------- */
  /* Token normalisation                                                     */
  /* ---------------------------------------------------------------------- */

  /** `placeholders.filter(p => p && p !== '%s')`. */
  function NonTrivial(ph: seq<string>): (r: seq<string>)
    ensures forall t :: t in r <==> t in ph && t != "" && t != "%s"
    decreases |ph|
  {
    if |ph| == 0 then []
    else (if ph[0] != "" && ph[0] != "%s" then [ph[0]] else []) + NonTrivial(ph[1..])
  }

  /** The first alternative of a literal alternation that occurs at `i`. */
  function FirstAt(s: string, alts: seq<string>, i: nat): (r: Option<nat>)
    ensures r.Some? ==> r.value < |alts| && OccursAt(s, alts[r.value], i)
    ensures r.Some? ==> forall k :: 0 <= k < r.value ==> !OccursAt(s, alts[k], i)
    ensures r.None? ==> forall k :: 0 <= k < |alts| ==> !OccursAt(s, alts[k], i)
    decreases |alts|
  {
    if |alts| == 0 then None
    else if OccursAt(s, alts[0], i) then Some(0)
    else match FirstAt(s, alts[1..], i)
      case None => None
      case Some(k) => Some(k + 1)
  }

  /**
   * `s.replace(new RegExp(alts.join("|"), "g"), repl)` from position `i`, for
   * non-empty literal alternatives: at each position the first alternative
   * that occurs there is replaced, and the scan resumes after it.
   */
  function ReplaceFrom(s: string, alts: seq<string>, repl: string, i: nat): string
    requires i <= |s|
    requires forall k :: 0 <= k < |alts| ==> |alts[k]| > 0
    decreases |s| - i
  {
    if i == |s| then ""
    else match FirstAt(s, alts, i)
      case Some(k) => repl + ReplaceFrom(s, alts, repl, i + |alts[k]|)
      case None => [s[i]] + ReplaceFrom(s, alts, repl, i + 1)
  }

  /**
   * Every placeholder of the template replaced by `%s`: the distinct
   * non-`%s` tokens are escaped, and the alternation of the escaped tokens
   * matches each token literally.
   */
  function Normalise(template: string, ph: seq<string>): string {
    var tokens := Unique(NonTrivial(ph));
    var escaped := seq(|tokens|, k requires 0 <= k < |tokens| => Escaped(tokens[k]));
    if |escaped| == 0 then template
    else
      var alts := seq(|escaped|, k requires 0 <= k < |escaped| => Unescape(escaped[k]));
      assert forall k :: 0 <= k < |alts| ==> alts[k] == tokens[k] by {
        forall k | 0 <= k < |alts| ensures alts[k] == tokens[k] { UnescapeEscaped(tokens[k]); }
      }
      assert forall k :: 0 <= k < |alts| ==> |alts[k]| > 0 by {
        forall k | 0 <= k < |alts| ensures |alts[k]| > 0 { assert tokens[k] in tokens; }
      }
      ReplaceFrom(template, alts, "%s", 0)
  }

  /** The reference: the text with each of the scanner's matches, from `i` on, replaced by `%s`. */
  function Substituted(s: string, i: nat): string
    requires i <= |s|
    decreases |s| - i
  {
    if i == |s| then ""
    else match MatchEnd(s, i)
      case Some(e) => "%s" + Substituted(s, e)
      case None => [s[i]] + Substituted(s, i + 1)
  }

  /** No match starts strictly inside another: its inner characters are flags and a letter. */
  lemma InsideMatchNoPercent(s: string, i: nat, p: nat)
    requires MatchEnd(s, i).Some? && i < p < MatchEnd(s, i).value
    ensures s[p] != '%' && MatchEnd(s, p).None?
  {
    var e := FlagRunEnd(s, i + 1);
    if p < e { assert IsFlag(s[p]); }
  }

  /** The index among the spans scanned from `i` of the match that starts at `p`. */
  lemma {:induction false} SpanIndex(s: string, i: nat, p: nat) returns (k: nat)
    requires i <= p && i <= |s| && MatchEnd(s, p).Some?
    ensures k < |Spans(s, i)| && Spans(s, i)[k].0 == p
    decreases |s| - i, 1
  {
    assert i < |s|;
    if MatchEnd(s, i).Some? {
      k := SpanIndexAtMatch(s, i, p);
    } else {
      assert Spans(s, i) == Spans(s, i + 1);
      k := SpanIndex(s, i + 1, p);
    }
  }

  /**
   * The same, when a match starts at `i`: that match is the first span, a
   * later match starts at or after its end, and only `p == i` has index 0.
   */
  lemma {:induction false} SpanIndexAtMatch(s: string, i: nat, p: nat) returns (k: nat)
    requires i <= p && i < |s| && MatchEnd(s, i).Some? && MatchEnd(s, p).Some?
    ensures k < |Spans(s, i)| && Spans(s, i)[k].0 == p
    ensures Spans(s, i)[0] == (i, MatchEnd(s, i).value)
    ensures p > i ==> MatchEnd(s, i).value <= p && k > 0
    ensures k == 0 <==> p == i
    decreases |s| - i, 0
  {
    var e := MatchEnd(s, i).value;
    assert Spans(s, i) == [(i, e)] + Spans(s, e);
    if p == i {
      k := 0;
    } else if p < e {
      InsideMatchNoPercent(s, i, p);
      assert false;
    } else {
      var j := SpanIndex(s, e, p);
      ShiftIndex(Spans(s, i), (i, e), Spans(s, e), j);
      k := j + 1;
    }
  }

  /** An element of `r` is found one place further in `[x] + r`. */
  lemma ShiftIndex(whole: seq<(nat, nat)>, x: (nat, nat), r: seq<(nat, nat)>, j: nat)
    requires whole == [x] + r && j < |r|
    ensures j + 1 < |whole| && whole[j + 1] == r[j]
  {
  }

  /** Every position where a match starts is where the scanner, started at or before it, records one. */
  lemma MatchStartsSpan(s: string, i: nat, p: nat)
    requires i <= p && i <= |s| && MatchEnd(s, p).Some?
    ensures exists k :: 0 <= k < |Spans(s, i)| && Spans(s, i)[k].0 == p
  {
    var k := SpanIndex(s, i, p);
  }

  /** The text of every match is one of the scanned tokens. */
  lemma MatchTextScanned(s: string, p: nat)
    requires MatchEnd(s, p).Some?
    ensures s[p..MatchEnd(s, p).value] in Scan(s)
  {
    MatchStartsSpan(s, 0, p);
    var k :| 0 <= k < |Spans(s, 0)| && Spans(s, 0)[k].0 == p;
    assert Scan(s)[k] == s[p..MatchEnd(s, p).value];
  }

  /** A placeholder occurring at `i` is exactly the scanner's match at `i`. */
  lemma PlaceholderAt(s: string, t: string, i: nat)
    requires IsPlaceholder(t) && OccursAt(s, t, i)
    ensures MatchEnd(s, i) == Some(i + |t|)
  {
    MatchIsTheOnlyPlaceholder(s, i, i + |t|);
  }

  /** A placeholder occurring at `i` is the text of the scanner's match at `i`. */
  lemma PlaceholderIfAt(s: string, t: string, i: nat)
    requires IsPlaceholder(t)
    ensures OccursAt(s, t, i) ==> MatchEnd(s, i) == Some(i + |t|) && s[i..MatchEnd(s, i).value] == t
  {
    if OccursAt(s, t, i) { PlaceholderAt(s, t, i); }
  }

  /** Text occurring at `i` starts with the character at `i`. */
  lemma OccursStartsWith(s: string, t: string, i: nat)
    requires |t| > 0
    ensures OccursAt(s, t, i) ==> i < |s| && s[i] == t[0]
  {
    if OccursAt(s, t, i) { assert s[i..i + |t|][0] == s[i]; }
  }

  /** Every alternative is a placeholder, `%s` is not one of them, and every other match text is. */
  predicate CoversMatches(s: string, alts: seq<string>) {
    && (forall k :: 0 <= k < |alts| ==> IsPlaceholder(alts[k]))
    && "%s" !in alts
    && (forall p: nat :: p < |s| && MatchEnd(s, p).Some? && s[p..MatchEnd(s, p).value] != "%s" ==>
          s[p..MatchEnd(s, p).value] in alts)
  }

  /** Where no match starts, or the match is `%s`, no alternative occurs. */
  lemma NoAlternativeAt(s: string, alts: seq<string>, i: nat)
    requires forall k :: 0 <= k < |alts| ==> IsPlaceholder(alts[k])
    requires "%s" !in alts
    requires MatchEnd(s, i).None? || s[i..MatchEnd(s, i).value] == "%s"
    ensures FirstAt(s, alts, i).None?
  {
    forall k | 0 <= k < |alts| ensures !OccursAt(s, alts[k], i) {
      PlaceholderIfAt(s, alts[k], i);
    }
  }

  /** No alternative occurs at a character other than `%`. */
  lemma NoAlternativeOff(s: string, alts: seq<string>, i: nat)
    requires forall k :: 0 <= k < |alts| ==> IsPlaceholder(alts[k])
    requires i < |s| && s[i] != '%'
    ensures FirstAt(s, alts, i).None?
  {
    forall k | 0 <= k < |alts| ensures !OccursAt(s, alts[k], i) {
      assert alts[k][0] == '%';
      OccursStartsWith(s, alts[k], i);
    }
  }

  /** Where a listed match starts, the alternative found is that match. */
  lemma AlternativeAt(s: string, alts: seq<string>, i: nat)
    requires forall k :: 0 <= k < |alts| ==> IsPlaceholder(alts[k])
    requires MatchEnd(s, i).Some? && s[i..MatchEnd(s, i).value] in alts
    ensures FirstAt(s, alts, i).Some?
    ensures |alts[FirstAt(s, alts, i).value]| == MatchEnd(s, i).value - i
  {
    var t := s[i..MatchEnd(s, i).value];
    assert OccursAt(s, t, i);
    var k :| 0 <= k < |alts| && alts[k] == t;
    assert OccursAt(s, alts[k], i);
    PlaceholderAt(s, alts[FirstAt(s, alts, i).value], i);
  }

  /** A `%s` match is not an alternative: its two characters are copied one by one. */
  lemma PercentSKept(s: string, alts: seq<string>, i: nat)
    requires forall k :: 0 <= k < |alts| ==> |alts[k]| > 0 && IsPlaceholder(alts[k])
    requires "%s" !in alts
    requires MatchEnd(s, i).Some? && s[i..MatchEnd(s, i).value] == "%s"
    ensures MatchEnd(s, i).value == i + 2
    ensures ReplaceFrom(s, alts, "%s", i) == "%s" + ReplaceFrom(s, alts, "%s", i + 2)
  {
    var e := MatchEnd(s, i).value;
    NoAlternativeAt(s, alts, i);
    assert |s[i..e]| == 2;
    assert s[i + 1] == s[i..e][1] == 's' && s[i] == '%';
    NoAlternativeOff(s, alts, i + 1);
    assert ReplaceFrom(s, alts, "%s", i + 1) == [s[i + 1]] + ReplaceFrom(s, alts, "%s", i + 2);
    assert [s[i]] + [s[i + 1]] == "%s";
  }

  /** Where no match starts, both rewritings copy the character. */
  lemma CopyStep(s: string, alts: seq<string>, i: nat)
    requires forall k :: 0 <= k < |alts| ==> |alts[k]| > 0 && IsPlaceholder(alts[k])
    requires "%s" !in alts
    requires i < |s| && MatchEnd(s, i).None?
    ensures ReplaceFrom(s, alts, "%s", i) == [s[i]] + ReplaceFrom(s, alts, "%s", i + 1)
    ensures Substituted(s, i) == [s[i]] + Substituted(s, i + 1)
  {
    NoAlternativeAt(s, alts, i);
  }

  /** Where a listed match starts, both rewritings put `%s` for it and resume after it. */
  lemma SubstituteStep(s: string, alts: seq<string>, i: nat)
    requires forall k :: 0 <= k < |alts| ==> |alts[k]| > 0 && IsPlaceholder(alts[k])
    requires i < |s| && MatchEnd(s, i).Some? && s[i..MatchEnd(s, i).value] in alts
    ensures ReplaceFrom(s, alts, "%s", i) == "%s" + ReplaceFrom(s, alts, "%s", MatchEnd(s, i).value)
    ensures Substituted(s, i) == "%s" + Substituted(s, MatchEnd(s, i).value)
  {
    AlternativeAt(s, alts, i);
    var k := FirstAt(s, alts, i).value;
    assert ReplaceFrom(s, alts, "%s", i) == "%s" + ReplaceFrom(s, alts, "%s", i + |alts[k]|);
  }

  /** The alternation built from the template's tokens rewrites exactly the scanner's matches. */
  lemma {:induction false} ReplaceMatches(s: string, alts: seq<string>, i: nat)
    requires i <= |s|
    ensures CoversMatches(s, alts) ==>
              && (forall k :: 0 <= k < |alts| ==> |alts[k]| > 0)
              && ReplaceFrom(s, alts, "%s", i) == Substituted(s, i)
    decreases |s| - i
  {
    if !CoversMatches(s, alts) {
      return;
    }
    assert forall k :: 0 <= k < |alts| ==> |alts[k]| > 0 && IsPlaceholder(alts[k]) by {
      forall k | 0 <= k < |alts| ensures |alts[k]| > 0 && IsPlaceholder(alts[k]) { assert IsPlaceholder(alts[k]); }
    }
    if i < |s| {
      var m := MatchEnd(s, i);
      if m.None? {
        CopyStep(s, alts, i);
        ReplaceMatches(s, alts, i + 1);
      } else if s[i..m.value] == "%s" {
        PercentSKept(s, alts, i);
        assert Substituted(s, i) == "%s" + Substituted(s, m.value);
        ReplaceMatches(s, alts, m.value);
      } else {
        SubstituteStep(s, alts, i);
        ReplaceMatches(s, alts, m.value);
      }
    }
  }

  /** When every match is `%s` already, substitution changes nothing. */
  lemma {:induction false} SubstitutedIdentity(s: string, i: nat)
    requires i <= |s|
    requires forall p: nat :: p < |s| && MatchEnd(s, p).Some? ==> s[p..MatchEnd(s, p).value] == "%s"
    ensures Substituted(s, i) == s[i..]
    decreases |s| - i
  {
    if i < |s| {
      match MatchEnd(s, i)
      case Some(e) =>
        SubstitutedIdentity(s, e);
        assert s[i..] == s[i..e] + s[e..];
      case None =>
        SubstitutedIdentity(s, i + 1);
        assert s[i..] == [s[i]] + s[i + 1..];
    }
  }

  /** Normalising a template with its own placeholders replaces every one of them by `%s` and nothing else. */
  lemma NormaliseSubstitutes(s: string)
    ensures Normalise(s, Scan(s)) == Substituted(s, 0)
  {
    var ph := Scan(s);
    var tokens := Unique(NonTrivial(ph));
    forall p: nat | p < |s| && MatchEnd(s, p).Some? && s[p..MatchEnd(s, p).value] != "%s"
      ensures s[p..MatchEnd(s, p).value] in tokens
    {
      MatchTextScanned(s, p);
    }
    if |tokens| == 0 {
      SubstitutedIdentity(s, 0);
    } else {
      var escaped := seq(|tokens|, k requires 0 <= k < |tokens| => Escaped(tokens[k]));
      var alts := seq(|escaped|, k requires 0 <= k < |escaped| => Unescape(escaped[k]));
      forall k | 0 <= k < |alts| ensures alts[k] == tokens[k] { UnescapeEscaped(tokens[k]); }
      assert alts == tokens;
      assert forall k :: 0 <= k < |tokens| ==> IsPlaceholder(tokens[k]) by {
        forall k | 0 <= k < |tokens| ensures IsPlaceholder(tokens[k]) { assert tokens[k] in ph; }
      }
      assert CoversMatches(s, tokens);
      ReplaceMatches(s, tokens, 0);
    }
  }

  /* ---------------------------------------------------------------------- */
  /* The body                                                                */
  /* ---------------------------------------------------------------------- */

  function MaxOf(xs: seq<nat>): (m: nat)
    ensures forall k :: 0 <= k < |xs| ==> xs[k] <= m
    decreases |xs|
  {
    if |xs| == 0 then 0
    else var rest := MaxOf(xs[1..]); if xs[0] > rest then xs[0] else rest
  }

  /** How deeply arrays nest in a value; every placeholder argument of an array is shallower than the array. */
  function Height(v: Value): nat {
    match v
    case Arr(items) => 1 + MaxOf(seq(|items|, k requires 0 <= k < |items| => Height(items[k])))
    case _ => 0
  }

  function Rank(o: Options): nat {
    if |o.args| > 0 then 1 else 0
  }

  /** The array shorthand applies: an array whose head template has placeholders enough values for. */
  predicate UsesArray(v: Value) {
    v.Arr? && |Extract(v, true)| > 0
  }

  /** `args`: the configured arguments, then the shorthand's trailing values. */
  function ArgList(o: Options, v: Value): seq<Value> {
    o.args + (if UsesArray(v) then v.items[1..] else [])
  }

  /** `string` before formatting: the shorthand's head, or the value itself. */
  function Template(v: Value): Value {
    if UsesArray(v) then v.items[0] else v
  }

  /** The branch that formats a template with enough arguments. */
  predicate ArgsBranch(o: Options, v: Value) {
    Template(v).Str? && |ArgList(o, v)| > 0 && |ArgList(o, v)| >= |Extract(v, true)|
  }

  /** `options.color && options.argStyle`. */
  predicate StylesArgs(o: Options) {
    o.color && o.argStyle.Some?
  }

  /** An element of an array nests less deeply than the array. */
  lemma ItemBelow(v: Value, j: nat)
    requires v.Arr? && j < |v.items|
    ensures Height(v.items[j]) < Height(v)
  {
    var hs := seq(|v.items|, i requires 0 <= i < |v.items| => Height(v.items[i]));
    assert hs[j] == Height(v.items[j]);
  }

  /** Without configured arguments every argument comes from inside the array, so it nests less deeply. */
  lemma ArgBelow(o: Options, v: Value, k: nat)
    requires k < |ArgList(o, v)|
    ensures o.args == [] ==> UsesArray(v) && Height(ArgList(o, v)[k]) < Height(v)
  {
    if o.args == [] {
      var tail := if UsesArray(v) then v.items[1..] else [];
      assert ArgList(o, v) == tail;
      assert UsesArray(v);
      ItemBelow(v, k + 1);
      assert ArgList(o, v)[k] == v.items[k + 1];
    }
  }

  /** The options of `createRoot(value).style(argStyle)`: the defaults, with the argument style as the style. */
  function RootOptions(env: Env, argStyle: Style): Options {
    DefaultOptions(env.color).(style := Some(argStyle))
  }

  /** `${value}` for a boolean, number or string; the inspector's text otherwise. */
  function Printed(env: Env, v: Value): string {
    match v
    case Bool(b) => if b then "true" else "false"
    case Num(t) => t
    case Str(s) => s
    case _ => env.inspect(v)
  }

  function Raws(args: seq<Value>): (r: seq<Arg>)
    ensures |r| == |args| && forall k :: 0 <= k < |args| ==> r[k] == Raw(args[k])
  {
    seq(|args|, k requires 0 <= k < |args| => Raw(args[k]))
  }

  /** The value handed to the root instance for the argument at `k`: inspected for `%j`, pre-formatted for anything but `%s`. */
  function RootValue(env: Env, p: string, a: Value): Value {
    if p == "%j" then Str(env.inspect(a))
    else if p != "%s" then Str(env.sprintf(p, [Raw(a)]))
    else a
  }

  /** The styled text of the defined argument at `k`, wrapped so the outer style resumes after it. */
  function StyledArg(env: Env, o: Options, v: Value, k: nat): string
    requires ArgsBranch(o, v) && StylesArgs(o) && k < |Extract(v, true)|
    decreases Rank(o), Height(v), 0
  {
    var raw := RootValue(env, Extract(v, true)[k], ArgList(o, v)[k]);
    ArgBelow(o, v, k);
    var root := if raw.Null? then "" else Body(env, RootOptions(env, o.argStyle.value), raw);
    if o.style.Some? then Wrap(root, Some(AsFunction(env, o.style.value)), AsFunction(env, Reset)) else root
  }

  /** The arguments after the styling pass: each defined one that has a placeholder becomes styled text. */
  function StyledArgs(env: Env, o: Options, v: Value): (r: seq<Arg>)
    requires ArgsBranch(o, v) && StylesArgs(o)
    ensures |r| == |ArgList(o, v)|
    decreases Rank(o), Height(v), 1
  {
    var ph := Extract(v, true);
    var args := ArgList(o, v);
    seq(|args|, k requires 0 <= k < |args| =>
      if k < |ph| && !args[k].Undefined? then Text(StyledArg(env, o, v, k)) else Raw(args[k]))
  }

  /** The outer style, when colour is on, then sprintf when there are arguments. */
  function Finish(env: Env, o: Options, text: string, args: seq<Arg>): string {
    var painted := if o.color && o.style.Some? then Apply(env, o.style.value, text) else text;
    if |args| > 0 then env.sprintf(painted, args) else painted
  }

  /** The formatted text of a non-null value, before prefix and suffix. */
  function Body(env: Env, o: Options, v: Value): string
    decreases Rank(o), Height(v), 2
  {
    var ph := Extract(v, true);
    var args := ArgList(o, v);
    if ArgsBranch(o, v) then
      if StylesArgs(o) then Finish(env, o, Normalise(Template(v).s, ph), StyledArgs(env, o, v))
      else Finish(env, o, Template(v).s, Raws(args))
    else Finish(env, o, Printed(env, v), Raws(args))
  }

  /**
   * The body as `format()` computes it: the template and the argument list,
   * the styling pass when colour and an argument style are on, then the
   * outer style and sprintf.
   */
  method FormatBody(env: Env, o: Options, v: Value) returns (s: string)
    ensures s == Body(env, o, v)
  {
    var args := o.args;
    var placeholders := Extract(v, true);
    var template := v;
    if v.Arr? && |placeholders| > 0 {
      template := v.items[0];
      args := args + v.items[1..];
    }
    assert args == ArgList(o, v) && template == Template(v);
    var finalArgs := Raws(args);
    var text: string;
    if template.Str? && |args| > 0 && |args| >= |placeholders| {
      text := template.s;
      if o.color && o.argStyle.Some? {
        text := Normalise(text, placeholders);
        finalArgs := StyleArguments(env, o, v);
      }
    } else {
      text := Printed(env, v);
    }
    assert Body(env, o, v) == Finish(env, o, text, finalArgs);
    if o.color && o.style.Some? {
      text := Apply(env, o.style.value, text);
    }
    if |args| > 0 {
      text := env.sprintf(text, finalArgs);
    }
    s := text;
  }

  /**
   * The `placeholders.forEach` pass: `args[index]` is overwritten, one
   * placeholder at a time, by the styled argument; undefined ones are kept.
   */
  method StyleArguments(env: Env, o: Options, v: Value) returns (finalArgs: seq<Arg>)
    requires ArgsBranch(o, v) && StylesArgs(o)
    ensures finalArgs == StyledArgs(env, o, v)
  {
    var args := ArgList(o, v);
    var placeholders := Extract(v, true);
    finalArgs := Raws(args);
    var index := 0;
    while index < |placeholders|
      invariant 0 <= index <= |placeholders|
      invariant |finalArgs| == |args|
      invariant forall k :: 0 <= k < |args| ==>
        finalArgs[k] == (if k < index && !args[k].Undefined? then Text(StyledArg(env, o, v, k)) else Raw(args[k]))
    {
      if !args[index].Undefined? {
        var raw := RootValue(env, placeholders[index], args[index]);
        var root := if raw.Null? then "" else Body(env, RootOptions(env, o.argStyle.value), raw);
        var styled := if o.style.Some? then Wrap(root, Some(AsFunction(env, o.style.value)), AsFunction(env, Reset)) else root;
        finalArgs := finalArgs[index := Text(styled)];
      }
      index := index + 1;
    }
  }

  /** A string without arguments is its own body, under the outer style when colour is on. */
  lemma PlainStringBody(env: Env, o: Options, t: string)
    requires o.args == []
    ensures Body(env, o, Str(t)) == if o.color && o.style.Some? then Apply(env, o.style.value, t) else t
  {
  }

  /** Without colour support nothing is styled: the template and the raw arguments go to sprintf. */
  lemma UncolouredBody(env: Env, o: Options, v: Value)
    requires !o.color && ArgsBranch(o, v)
    ensures Body(env, o, v) == env.sprintf(Template(v).s, Raws(ArgList(o, v)))
  {
  }

  /**
   * With argument styling on, every placeholder of the template becomes `%s`
   * and every defined argument with a placeholder is replaced by its styled text.
   */
  lemma StyledBody(env: Env, o: Options, v: Value)
    requires ArgsBranch(o, v) && StylesArgs(o)
    ensures Extract(v, true) == Scan(Template(v).s)
    ensures Body(env, o, v) == Finish(env, o, Substituted(Template(v).s, 0), StyledArgs(env, o, v))
    ensures forall k :: 0 <= k < |ArgList(o, v)| ==>
              StyledArgs(env, o, v)[k] == if k < |Extract(v, true)| && !ArgList(o, v)[k].Undefined?
                                          then Text(StyledArg(env, o, v, k)) else Raw(ArgList(o, v)[k])
  {
    NormaliseSubstitutes(Template(v).s);
  }

  /**
   * Under an outer style that writes `os` before and `oe` after its text, a
   * styled argument closes the outer style, shows the argument between two
   * reset starts, and re-opens the outer style.
   */
  lemma StyledArgResumesOuterStyle(env: Env, o: Options, v: Value, k: nat, os: string, oe: string, rs: string, re: string)
    requires ArgsBranch(o, v) && StylesArgs(o) && k < |Extract(v, true)| && o.style.Some?
    requires Wraps(AsFunction(env, o.style.value), os, oe) && !Contains(os, StyleDelimiter) && !Contains(oe, StyleDelimiter)
    requires Wraps(AsFunction(env, Reset), rs, re) && !Contains(rs, StyleDelimiter) && !Contains(re, StyleDelimiter)
    ensures var raw := RootValue(env, Extract(v, true)[k], ArgList(o, v)[k]);
            var root := if raw.Null? then "" else Body(env, RootOptions(env, o.argStyle.value), raw);
            StyledArg(env, o, v, k) == oe + rs + root + rs + os
  {
    var raw := RootValue(env, Extract(v, true)[k], ArgList(o, v)[k]);
    var root := if raw.Null? then "" else Body(env, RootOptions(env, o.argStyle.value), raw);
    WrapOfWrapper(AsFunction(env, o.style.value), os, oe, AsFunction(env, Reset), rs, re, root);
  }

  /* ---------------------------------------------------------------------- */
  /* Assembly                                                                */
  /* ---------------------------------------------------------------------- */

  /** Visible length: what is left once `ansi-regex` removed the escape sequences. */
  function VisibleLength(env: Env, s: string): nat {
    |env.strip(s)|
  }

  function IndentIfBroken(env: Env, s: string, n: nat): string {
    if Contains(s, env.eol) then Indent(s, env.eol, n) else s
  }

  /**
   * `prefix + delimiter? + body + delimiter? + suffix`: each delimiter only
   * when its side has visible text, and line breaks of the body and of the
   * suffix indented by the prefix's visible length when that exceeds one.
   */
  function Layout(env: Env, o: Options, body: string, prefixString: string, suffixString: string): string {
    var pl := VisibleLength(env, prefixString);
    var pd := if pl > 0 then o.prefixDelimiter else "";
    var sd := if VisibleLength(env, suffixString) > 0 then o.suffixDelimiter else "";
    if pl > 1 then prefixString + pd + IndentIfBroken(env, body, pl) + sd + IndentIfBroken(env, suffixString, pl)
    else prefixString + pd + body + sd + suffixString
  }

  /**
   * The assembly at the end of `format()` (index.js:366-391, with the suffix
   * indented as intended): the delimiters where their side has visible text,
   * the body and the rendered suffix indented under a prefix wider than one
   * column.
   */
  method Assemble(env: Env, o: Options, body: string, prefixString: string, suffixString: string) returns (s: string)
    ensures s == Layout(env, o, body, prefixString, suffixString)
  {
    var prefixLength := VisibleLength(env, prefixString);
    var prefixDelimiter := if prefixLength > 0 then o.prefixDelimiter else "";
    var suffixDelimiter := if VisibleLength(env, suffixString) > 0 then o.suffixDelimiter else "";
    var text, suffixText := body, suffixString;
    if prefixLength > 1 {
      if Contains(body, env.eol) {
        text := Indent(body, env.eol, prefixLength);
      }
      if Contains(suffixString, env.eol) {
        suffixText := Indent(suffixString, env.eol, prefixLength);
      }
    }
    s := prefixString + prefixDelimiter + text + suffixDelimiter + suffixText;
  }

  /**
   * The assembly as index.js:369-391 writes it: for a suffix instance whose
   * `orig` contains a line break the source rewrites `orig` after the suffix
   * was rendered, so the rendered suffix is emitted unindented; an `orig`
   * that is an array containing the line break, or not a string or array,
   * makes `indexOf`/`split` throw.
   */
  function LayoutAsWritten(env: Env, o: Options, body: string, prefixString: string, suffixString: string,
                           suffixOrig: Option<Value>): Result<string, string>
  {
    var pl := VisibleLength(env, prefixString);
    var pd := if pl > 0 then o.prefixDelimiter else "";
    var sd := if VisibleLength(env, suffixString) > 0 then o.suffixDelimiter else "";
    if pl <= 1 then Ok(prefixString + pd + body + sd + suffixString)
    else
      var b := IndentIfBroken(env, body, pl);
      var origHasBreak: Result<bool, string> :=
        match suffixOrig
        case None => Ok(false)
        case Some(Str(t)) => Ok(Contains(t, env.eol))
        case Some(Arr(items)) => if Str(env.eol) in items then Err("TypeError: suffix.orig.split is not a function") else Ok(false)
        case Some(Null) => Err("TypeError: Cannot read properties of null (reading 'indexOf')")
        case Some(Undefined) => Err("TypeError: Cannot read properties of undefined (reading 'indexOf')")
        case Some(_) => Err("TypeError: suffix.orig.indexOf is not a function");
      match origHasBreak
      case Err(e) => Err(e)
      case Ok(true) => Ok(prefixString + pd + b + sd + suffixString)
      case Ok(false) => Ok(prefixString + pd + b + sd + IndentIfBroken(env, suffixString, pl))
  }

  /** Under a prefix wider than one column every line break of the body and of the suffix is followed by that many spaces. */
  lemma LayoutIndentsUnderWidePrefix(env: Env, o: Options, body: string, p: string, ss: string)
    requires VisibleLength(env, p) > 1
    ensures var n := VisibleLength(env, p);
            Layout(env, o, body, p, ss)
              == p + o.prefixDelimiter + Indent(body, env.eol, n)
                 + (if VisibleLength(env, ss) > 0 then o.suffixDelimiter else "") + Indent(ss, env.eol, n)
  {
    var n := VisibleLength(env, p);
    if !Contains(body, env.eol) { IndentWithoutBreak(body, env.eol, n); }
    if !Contains(ss, env.eol) { IndentWithoutBreak(ss, env.eol, n); }
  }

  /** Sides without visible text add no delimiter: with an empty prefix and suffix the result is the body. */
  lemma LayoutWithoutSides(env: Env, o: Options, body: string)
    requires VisibleLength(env, "") == 0
    ensures Layout(env, o, body, "", "") == body
  {
  }

  /** A one-column prefix adds its delimiter but indents nothing. */
  lemma LayoutNarrowPrefix(env: Env, o: Options, body: string, p: string, ss: string)
    requires VisibleLength(env, p) == 1
    ensures Layout(env, o, body, p, ss)
         == p + o.prefixDelimiter + body + (if VisibleLength(env, ss) > 0 then o.suffixDelimiter else "") + ss
  {
  }

  /** The two assemblies agree except where the source loses the suffix indentation or throws. */
  lemma LayoutAgreesOnPlainSuffix(env: Env, o: Options, body: string, p: string, ss: string, orig: Option<Value>)
    requires orig.None? || (orig.value.Str? && !Contains(orig.value.s, env.eol)) || (orig.value.Arr? && Str(env.eol) !in orig.value.items)
    ensures LayoutAsWritten(env, o, body, p, ss, orig) == Ok(Layout(env, o, body, p, ss))
  {
  }

  /** A plain ASCII environment: `"\n"` line breaks, no escape sequences, styles and sprintf that change nothing. */
  function PlainEnv(): Env {
    Env("\n", true, s => s, (st, t) => t, e => None, (f, a) => f, v => "")
  }

  /**
   * The lost suffix indentation: under the prefix `"ab"` a suffix instance
   * whose `orig` is `"c\nd"` comes out as `"c\nd"` instead of `"c\n  d"`.
   */
  lemma SuffixIndentationLost(o: Options)
    requires o.prefixDelimiter == " " && o.suffixDelimiter == " "
    ensures LayoutAsWritten(PlainEnv(), o, "x", "ab", "c\nd", Some(Str("c\nd"))) == Ok("ab x c\nd")
    ensures Layout(PlainEnv(), o, "x", "ab", "c\nd") == "ab x c\n  d"
  {
    BrokenSuffixIndented();
    PlainWidths();
    WideLayouts(PlainEnv(), o, "x", "ab", "c\nd");
    assert "ab" + " " + "x" + " " + "c\n  d" == "ab x c\n  d";
    assert "ab" + " " + "x" + " " + "c\nd" == "ab x c\nd";
  }

  /** The plain widths of the counterexample's prefix and suffix. */
  lemma PlainWidths()
    ensures VisibleLength(PlainEnv(), "ab") == 2 && VisibleLength(PlainEnv(), "c\nd") == 3
  {
  }

  /** Both assemblies under a wide prefix, with visible text on both sides and a suffix `orig` equal to its rendering. */
  lemma WideLayouts(env: Env, o: Options, body: string, p: string, ss: string)
    requires VisibleLength(env, p) > 1 && VisibleLength(env, ss) > 0
    ensures var n := VisibleLength(env, p);
            && Layout(env, o, body, p, ss)
                 == p + o.prefixDelimiter + IndentIfBroken(env, body, n) + o.suffixDelimiter + IndentIfBroken(env, ss, n)
            && LayoutAsWritten(env, o, body, p, ss, Some(Str(ss)))
                 == Ok(p + o.prefixDelimiter + IndentIfBroken(env, body, n) + o.suffixDelimiter
                       + (if Contains(ss, env.eol) then ss else IndentIfBroken(env, ss, n)))
  {
  }

  /** The texts of the counterexample: `"c\nd"` has a line break and indents to `"c\n  d"`, `"x"` has none. */
  lemma BrokenSuffixIndented()
    ensures Contains("c\nd", "\n") && !Contains("x", "\n")
    ensures IndentIfBroken(PlainEnv(), "x", 2) == "x"
    ensures IndentIfBroken(PlainEnv(), "c\nd", 2) == "c\n  d"
  {
    var env := PlainEnv();
    var t := "c\nd";
    SplitBrokenSuffix();
    assert "x"[0..1] == "x";
    assert IndexOf("x", "\n") == None;
    assert Spaces(2) == "  ";
    assert Join(["c", "d"], "\n  ") == "c" + "\n  " + "d";
    assert env.eol + Spaces(2) == "\n  ";
    assert Indent(t, env.eol, 2) == Join(["c", "d"], "\n  ");
  }

  /** `"c\nd".split("\n")` is `["c", "d"]`. */
  lemma SplitBrokenSuffix()
    ensures Split("c\nd", "\n") == ["c", "d"] && Contains("c\nd", "\n")
  {
    var t := "c\nd";
    assert t[0..1] == "c" && t[1..2] == "\n";
    assert IndexFrom(t, "\n", 1) == Some(1);
    assert IndexOf(t, "\n") == Some(1);
    assert t[..1] == "c" && t[2..] == "d";
    assert "d"[0..1] == "d";
    assert IndexOf("d", "\n") == None;
    assert Split(t, "\n") == ["c"] + Split("d", "\n") == ["c", "d"];
  }
}
