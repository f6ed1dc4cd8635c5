/**
 * The style registry of chalk.js: the closed catalogue of style names and
 * the helpers that recover a style's start and end sequences and re-open an
 * outer style around a differently styled piece of text. A style is any
 * function from text to decorated text; a falsy style is `None`.
 */
module Chalk {
  import opened Wrappers
  import opened Text

  const Modifiers: seq<string> :=
    ["reset", "bold", "dim", "italic", "underline", "inverse", "hidden", "strikethrough"]

  /** Foreground colours; "blackBright" is deliberately absent. */
  const Fg: seq<string> :=
    ["black", "red", "green", "yellow", "blue", "magenta", "cyan", "white", "gray", "grey",
     "redBright", "greenBright", "yellowBright", "blueBright", "magentaBright", "cyanBright", "whiteBright"]

  const Bg: seq<string> :=
    ["bgBlack", "bgRed", "bgGreen", "bgYellow", "bgBlue", "bgMagenta", "bgCyan", "bgWhite",
     "bgBlackBright", "bgRedBright", "bgGreenBright", "bgYellowBright", "bgBlueBright",
     "bgMagentaBright", "bgCyanBright", "bgWhiteBright"]

  /** The names that get a chainable style property: modifiers, then foreground, then background. */
  function ChalkProperties(): (names: seq<string>)
    ensures |names| == 41
    ensures forall n :: n in names <==> n in Modifiers || n in Fg || n in Bg
  {
    Modifiers + Fg + Bg
  }

  /** The sentinel rendered through a style to find where the text goes. */
  const StyleDelimiter: string := ">>><<<"

  /** A style that puts `start` before and `end` after any text. */
  ghost predicate Wraps(style: string -> string, start: string, end: string) {
    forall t :: style(t) == start + t + end
  }

  /** `styleStart`: what the style emits before the text. */
  function StyleStart(style: Option<string -> string>): string {
    match style
    case None => ""
    case Some(f) => Split(f(StyleDelimiter), StyleDelimiter)[0]
  }

  /** `styleEnd`: what the style emits after the text; `None` stands for the `undefined` of a missing piece. */
  function StyleEnd(style: Option<string -> string>): Option<string> {
    match style
    case None => Some("")
    case Some(f) =>
      var parts := Split(f(StyleDelimiter), StyleDelimiter);
      if |parts| > 1 then Some(parts[1]) else None
  }

  /** What a template literal makes of a possibly undefined string. */
  function Interpolate(s: Option<string>): string {
    match s
    case None => "undefined"
    case Some(t) => t
  }

  /**
   * `wrap`: closes the outer style before `value` and re-opens it after, with
   * the start of `reset` on both sides of `value`; `resetStyle` is chalk's reset.
   */
  function Wrap(value: string, existing: Option<string -> string>, resetStyle: string -> string): string {
    var reset := if existing.Some? then StyleStart(Some(resetStyle)) else "";
    Interpolate(StyleEnd(existing)) + reset + value + reset + StyleStart(existing)
  }

  /** The catalogue has 8 modifiers, 17 foreground and 16 background names, as listed. */
  lemma CatalogueShape()
    ensures |Modifiers| == 8 && |Fg| == 17 && |Bg| == 16
    ensures "blackBright" !in Fg && "bgBlackBright" in Bg
    ensures "gray" in Fg && "grey" in Fg && "reset" in Modifiers
  {
  }

  /**
   * The delimiter has no proper prefix that is also a suffix, so when it does
   * not occur in `a` its first occurrence in `a + D + b` is the one after `a`.
   */
  lemma DelimiterFoundAfter(a: string, b: string)
    requires !Contains(a, StyleDelimiter)
    ensures IndexOf(a + StyleDelimiter + b, StyleDelimiter) == Some(|a|)
  {
    var d := StyleDelimiter;
    var s := a + d + b;
    assert s[|a|..|a| + |d|] == d;
    assert s[|a|] == '>' && s[|a| + 1] == '>' && s[|a| + 2] == '>';
    forall j: nat | j < |a| ensures !OccursAt(s, d, j) {
      if j + |d| <= |a| {
        assert a[j..j + |d|] == s[j..j + |d|];
        assert !OccursAt(a, d, j);
      } else if j + |d| <= |s| {
        // The window overlaps the delimiter after `a`: it differs from the delimiter somewhere.
        var w := s[j..j + |d|];
        var m := |a| - j;
        if m >= 3 {
          assert w[m] == s[|a|] == '>' && d[m] == '<';
        } else {
          assert w[3] == s[j + 3] == '>' && d[3] == '<';
        }
      }
    }
    assert |a| <= |s| && OccursAt(s, d, |a|);
  }

  /**
   * For a style that writes `start` before and `end` after its text, neither of
   * which contains the delimiter, `styleStart` and `styleEnd` recover them.
   */
  lemma BoundariesOfWrapper(style: string -> string, start: string, end: string)
    requires Wraps(style, start, end)
    requires !Contains(start, StyleDelimiter) && !Contains(end, StyleDelimiter)
    ensures StyleStart(Some(style)) == start
    ensures StyleEnd(Some(style)) == Some(end)
  {
    var d := StyleDelimiter;
    assert style(d) == start + d + end;
    DelimiterFoundAfter(start, end);
    SplitAround(start, d, end);
    SplitWithout(end, d);
    assert Split(style(d), d) == [start, end];
  }

  /** Without an outer style, `wrap` leaves the value as it is. */
  lemma WrapWithoutStyle(value: string, resetStyle: string -> string)
    ensures Wrap(value, None, resetStyle) == value
  {
  }

  /**
   * Wrapping closes and re-opens the outer style: styling text that embeds a
   * wrapped value equals the outer style on the text before it, the value
   * between two reset starts, and the outer style on the text after it.
   */
  lemma WrapKeepsOuterStyle(outer: string -> string, os: string, oe: string,
                            resetStyle: string -> string, rs: string, re: string,
                            before: string, value: string, after: string)
    requires Wraps(outer, os, oe) && !Contains(os, StyleDelimiter) && !Contains(oe, StyleDelimiter)
    requires Wraps(resetStyle, rs, re) && !Contains(rs, StyleDelimiter) && !Contains(re, StyleDelimiter)
    ensures outer(before + Wrap(value, Some(outer), resetStyle) + after)
         == outer(before) + rs + value + rs + outer(after)
  {
    WrapOfWrapper(outer, os, oe, resetStyle, rs, re, value);
    var w := Wrap(value, Some(outer), resetStyle);
    assert outer(before + w + after) == os + (before + w + after) + oe;
    assert outer(before) == os + before + oe;
    assert outer(after) == os + after + oe;
    Regroup(os, before, oe, rs, value, after);
  }

  lemma Regroup(os: string, before: string, oe: string, rs: string, value: string, after: string)
    ensures os + (before + (oe + rs + value + rs + os) + after) + oe
         == (os + before + oe) + rs + value + rs + (os + after + oe)
  {
  }

  /** Wrapping inside a delimited outer style emits the outer end, the reset start, the value, the reset start and the outer start. */
  lemma WrapOfWrapper(outer: string -> string, os: string, oe: string,
                      resetStyle: string -> string, rs: string, re: string, value: string)
    requires Wraps(outer, os, oe) && !Contains(os, StyleDelimiter) && !Contains(oe, StyleDelimiter)
    requires Wraps(resetStyle, rs, re) && !Contains(rs, StyleDelimiter) && !Contains(re, StyleDelimiter)
    ensures Wrap(value, Some(outer), resetStyle) == oe + rs + value + rs + os
  {
    BoundariesOfWrapper(outer, os, oe);
    BoundariesOfWrapper(resetStyle, rs, re);
  }
}
