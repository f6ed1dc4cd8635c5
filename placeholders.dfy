/**
 * The sprintf placeholder scanner: leftmost, non-overlapping matches of the
 * pattern `%[-.0-9]*[A-Za-z]` (index.js:885), and `extractPlaceholders`
 * with its two call shapes (index.js:256-281).
 */
module Placeholders {
  import opened Wrappers
  import opened Values

  /** A character the pattern allows between `%` and the conversion letter. */
  predicate IsFlag(c: char) {
    c == '-' || c == '.' || '0' <= c <= '9'
  }

  predicate IsLetter(c: char) {
    'A' <= c <= 'Z' || 'a' <= c <= 'z'
  }

  /** A placeholder token: `%`, any flags, width or precision, then one letter. */
  predicate IsPlaceholder(t: string) {
    |t| >= 2 && t[0] == '%' && IsLetter(t[|t| - 1]) &&
    forall k :: 1 <= k < |t| - 1 ==> IsFlag(t[k])
  }

  /** The end of the longest run of flag characters starting at `j`. */
  function FlagRunEnd(s: string, j: nat): (e: nat)
    requires j <= |s|
    ensures j <= e <= |s|
    ensures forall k :: j <= k < e ==> IsFlag(s[k])
    ensures e == |s| || !IsFlag(s[e])
    decreases |s| - j
  {
    if j < |s| && IsFlag(s[j]) then FlagRunEnd(s, j + 1) else j
  }

  /** The end of the pattern's match starting at `i`, if one starts there. */
  function MatchEnd(s: string, i: nat): (r: Option<nat>)
    ensures r.Some? ==> i < r.value <= |s| && IsPlaceholder(s[i..r.value])
  {
    if i < |s| && s[i] == '%' then
      var e := FlagRunEnd(s, i + 1);
      if e < |s| && IsLetter(s[e]) then Some(e + 1) else None
    else None
  }

  /**
   * At most one placeholder starts at a position, so the greedy flag run finds
   * exactly the placeholders: `s[i..j]` is one if and only if the scanner's
   * match at `i` ends at `j`.
   */
  lemma MatchIsTheOnlyPlaceholder(s: string, i: nat, j: nat)
    requires i < j <= |s|
    ensures IsPlaceholder(s[i..j]) <==> MatchEnd(s, i) == Some(j)
  {
    if IsPlaceholder(s[i..j]) {
      var t := s[i..j];
      assert s[i] == t[0] == '%';
      var e := FlagRunEnd(s, i + 1);
      assert forall k :: i + 1 <= k < j - 1 ==> IsFlag(s[k]) by {
        forall k | i + 1 <= k < j - 1 ensures IsFlag(s[k]) { assert s[k] == t[k - i]; }
      }
      assert IsLetter(s[j - 1]) by { assert s[j - 1] == t[|t| - 1]; }
      assert e == j - 1;
    }
  }

  /** A match of the pattern starts at `p`. */
  predicate MatchAt(s: string, p: nat) {
    MatchEnd(s, p).Some?
  }

  /** No match of the pattern starts in `[lo, hi)`. */
  predicate NoMatchIn(s: string, lo: nat, hi: nat) {
    forall p: nat :: lo <= p < hi ==> !MatchAt(s, p)
  }

  /** The spans `(start, end)` of the matches found scanning from `i`. */
  function Spans(s: string, i: nat): (r: seq<(nat, nat)>)
    requires i <= |s|
    ensures forall k :: 0 <= k < |r| ==> i <= r[k].0 && MatchEnd(s, r[k].0) == Some(r[k].1)
    decreases |s| - i
  {
    if i == |s| then []
    else
      match MatchEnd(s, i)
      case Some(e) => [(i, e)] + Spans(s, e)
      case None => Spans(s, i + 1)
  }

  /**
   * The spans are leftmost and non-overlapping, scanning from `i`: the first
   * starts at or after `i` with no match starting before it, and the others
   * are leftmost scanning from its end; with no spans, no match starts at or
   * after `i`.
   */
  predicate Leftmost(s: string, i: nat, r: seq<(nat, nat)>)
    decreases |r|
  {
    if |r| == 0 then NoMatchIn(s, i, |s|)
    else i <= r[0].0 < r[0].1 && NoMatchIn(s, i, r[0].0) && Leftmost(s, r[0].1, r[1..])
  }

  lemma {:induction false} SpansAreLeftmost(s: string, i: nat)
    requires i <= |s|
    ensures Leftmost(s, i, Spans(s, i))
    decreases |s| - i
  {
    if i < |s| {
      match MatchEnd(s, i)
      case Some(e) =>
        var rest := Spans(s, e);
        SpansAreLeftmost(s, e);
        var r := [(i, e)] + rest;
        assert Spans(s, i) == r;
        assert r[1..] == rest;
      case None =>
        SpansAreLeftmost(s, i + 1);
        SkipLeftmost(s, i, Spans(s, i + 1));
    }
  }

  /** A position where no match starts can be added to the front of the scan. */
  lemma SkipLeftmost(s: string, i: nat, rest: seq<(nat, nat)>)
    requires i < |s| && !MatchAt(s, i)
    requires Leftmost(s, i + 1, rest)
    ensures Leftmost(s, i, rest)
  {
    if |rest| == 0 { NoMatchJoin(s, i, i + 1, |s|); }
    else { NoMatchJoin(s, i, i + 1, rest[0].0); }
  }

  lemma NoMatchJoin(s: string, a: nat, b: nat, c: nat)
    requires a <= b <= c && NoMatchIn(s, a, b) && NoMatchIn(s, b, c)
    ensures NoMatchIn(s, a, c)
  {
  }

  /** `s.match(/(%[-.\d]*[A-Za-z])/g)`, with no match giving the empty sequence. */
  function Scan(s: string): (tokens: seq<string>)
    ensures |tokens| == |Spans(s, 0)|
    ensures forall k :: 0 <= k < |tokens| ==> tokens[k] == s[Spans(s, 0)[k].0..Spans(s, 0)[k].1]
    ensures forall k :: 0 <= k < |tokens| ==> IsPlaceholder(tokens[k])
  {
    var spans := Spans(s, 0);
    seq(|spans|, k requires 0 <= k < |spans| => s[spans[k].0..spans[k].1])
  }

  /**
   * `extractPlaceholders(value, strict)`: the tokens of a string, or of the
   * template at the head of an array; in strict mode the array form yields
   * nothing unless it carries at least one trailing value per token.
   */
  function Extract(value: Value, strict: bool): (tokens: seq<string>)
    ensures value.Str? ==> tokens == Scan(value.s)
    ensures !value.Str? && !value.Arr? ==> tokens == []
    ensures value.Arr? && (|value.items| == 0 || !value.items[0].Str?) ==> tokens == []
    ensures value.Arr? && |value.items| > 0 && value.items[0].Str? ==>
      tokens == (if !strict || |value.items| - 1 >= |Scan(value.items[0].s)| then Scan(value.items[0].s) else [])
    ensures |tokens| > 0 && value.Arr? ==> |value.items| > 0 && value.items[0].Str?
  {
    if value.Str? && |Scan(value.s)| > 0 then Scan(value.s)
    else if value.Arr? && |value.items| > 0 && value.items[0].Str? then
      var tokens := Scan(value.items[0].s);
      if |tokens| > 0 && (!strict || |value.items[1..]| >= |tokens|) then tokens else []
    else []
  }

  /** Every extracted token starts with `%` and ends with a conversion letter. */
  lemma ExtractedAreTokens(value: Value, strict: bool)
    ensures forall t :: t in Extract(value, strict) ==> IsPlaceholder(t)
  {
  }

  /**
   * `args(...values)`: the given values followed by the array form's trailing
   * values, cut to the number of placeholders; no values clears the arguments.
   */
  function ArgsFor(orig: Value, given: seq<Value>): (args: seq<Value>)
    ensures var all := given + (if orig.Arr? && |orig.items| > 0 then orig.items[1..] else []);
            |given| > 0 ==> args <= all && |args| == if |all| < |Extract(orig, true)| then |all| else |Extract(orig, true)|
    ensures |given| == 0 ==> args == []
  {
    if |given| > 0 then
      var all := given + (if orig.Arr? && |orig.items| > 0 then orig.items[1..] else []);
      var n := |Extract(orig, true)|;
      if n < |all| then all[..n] else all
    else given
  }

  /** The index of the first occurrence of `x` in `xs`. */
  function FirstIndex(xs: seq<string>, x: string): (k: nat)
    requires x in xs
    ensures k < |xs| && xs[k] == x
    ensures forall j :: 0 <= j < k ==> xs[j] != x
    decreases |xs|
  {
    if xs[0] == x then 0 else 1 + FirstIndex(xs[1..], x)
  }

  /** Appending an element keeps the first occurrence of anything already present. */
  lemma FirstIndexSnoc(xs: seq<string>, y: string, x: string)
    requires x in xs
    ensures FirstIndex(xs + [y], x) == FirstIndex(xs, x)
  {
    var k, k' := FirstIndex(xs + [y], x), FirstIndex(xs, x);
    assert (xs + [y])[k'] == x;
  }

  /** `[...new Set(xs)]`: the distinct elements, in order of first occurrence. */
  function Unique(xs: seq<string>): (r: seq<string>)
    ensures forall x :: x in r <==> x in xs
    ensures forall a, b :: 0 <= a < b < |r| ==> r[a] != r[b]
    ensures forall a, b :: 0 <= a < b < |r| ==> FirstIndex(xs, r[a]) < FirstIndex(xs, r[b])
  {
    if |xs| == 0 then []
    else
      var init, last := xs[..|xs| - 1], xs[|xs| - 1];
      var u := Unique(init);
      assert xs == init + [last];
      assert forall a :: 0 <= a < |u| ==> FirstIndex(xs, u[a]) == FirstIndex(init, u[a]) by {
        forall a | 0 <= a < |u| ensures FirstIndex(xs, u[a]) == FirstIndex(init, u[a]) { FirstIndexSnoc(init, last, u[a]); }
      }
      if last in u then u
      else
        assert FirstIndex(xs, last) == |xs| - 1;
        u + [last]
  }
}
