/**
 * `formatTheme` (index.js:394-413): every character that is not skipped is
 * painted with the next entry of the theme, cycling through the theme; the
 * counter advances only on painted characters.
 */
module Theme {
  import opened Wrappers
  import opened Text
  import opened Placeholders

  /** `chalk.pipe(entry)`: the style a theme entry names, if it names one. */
  type Pipe = Option<string> -> Option<string -> string>

  /**
   * The character at `i` is copied unpainted: a space when spaces are not
   * styled, or either character of a two-character placeholder in the list.
   */
  predicate Skipped(s: string, placeholders: seq<string>, styleSpaces: bool, i: nat)
    requires i < |s|
  {
    || (!styleSpaces && s[i] == ' ')
    || (s[i] == '%' && i + 1 < |s| && [s[i], s[i + 1]] in placeholders)
    || (i > 0 && s[i - 1] == '%' && [s[i - 1], s[i]] in placeholders)
  }

  /** The value of the counter when the character at `i` is reached: how many characters before it were painted. */
  function StyledBefore(s: string, placeholders: seq<string>, styleSpaces: bool, i: nat): nat
    requires i <= |s|
    decreases i
  {
    if i == 0 then 0
    else StyledBefore(s, placeholders, styleSpaces, i - 1) + (if Skipped(s, placeholders, styleSpaces, i - 1) then 0 else 1)
  }

  /** `theme[k % len]`; an empty theme yields `undefined`. */
  function Entry(theme: seq<string>, k: nat): Option<string> {
    if |theme| == 0 then None else Some(theme[k % |theme|])
  }

  /** `color ? color(c) : c`. */
  function Painted(color: Option<string -> string>, c: char): string {
    match color
    case None => [c]
    case Some(f) => f([c])
  }

  /** What the map callback returns for the character at `i`. */
  function Piece(pipe: Pipe, s: string, placeholders: seq<string>, styleSpaces: bool, theme: seq<string>, i: nat): string
    requires i < |s|
  {
    if Skipped(s, placeholders, styleSpaces, i) then [s[i]]
    else Painted(pipe(Entry(theme, StyledBefore(s, placeholders, styleSpaces, i))), s[i])
  }

  function Pieces(pipe: Pipe, s: string, placeholders: seq<string>, styleSpaces: bool, theme: seq<string>): (r: seq<string>)
    ensures |r| == |s|
    ensures forall i :: 0 <= i < |s| ==> r[i] == Piece(pipe, s, placeholders, styleSpaces, theme, i)
  {
    seq(|s|, i requires 0 <= i < |s| => Piece(pipe, s, placeholders, styleSpaces, theme, i))
  }

  /** The themed text: the pieces joined, with the placeholders of the text itself protected. */
  function ThemedText(pipe: Pipe, s: string, theme: seq<string>, styleSpaces: bool): string {
    Join(Pieces(pipe, s, Scan(s), styleSpaces, theme), "")
  }

  /** `formatTheme(value, theme)` with `styleSpaces` read from the instance's options. */
  method FormatTheme(pipe: Pipe, value: string, theme: seq<string>, styleSpaces: bool) returns (r: string)
    ensures r == ThemedText(pipe, value, theme, styleSpaces)
  {
    var placeholders := Scan(value);
    ghost var pieces := Pieces(pipe, value, placeholders, styleSpaces, theme);
    var len := |theme|;
    var index := 0;
    var out: seq<string> := [];
    var i := 0;
    while i < |value|
      invariant 0 <= i <= |value|
      invariant index == StyledBefore(value, placeholders, styleSpaces, i)
      invariant out == pieces[..i]
    {
      var c := value[i];
      assert pieces[..i + 1] == pieces[..i] + [Piece(pipe, value, placeholders, styleSpaces, theme, i)];
      if || (!styleSpaces && c == ' ')
         || (c == '%' && i + 1 < |value| && [c, value[i + 1]] in placeholders)
         || (i > 0 && value[i - 1] == '%' && [value[i - 1], c] in placeholders)
      {
        out := out + [[c]];
      } else {
        var style := if len == 0 then None else Some(theme[index % len]);
        index := index + 1;
        var color := pipe(style);
        out := out + [if color.Some? then color.value([c]) else [c]];
      }
      i := i + 1;
    }
    assert out == pieces;
    r := Join(out, "");
  }

  /** The counter never runs ahead of the position. */
  lemma {:induction false} StyledBeforeBound(s: string, ph: seq<string>, sp: bool, i: nat)
    requires i <= |s|
    ensures StyledBefore(s, ph, sp, i) <= i
    decreases i
  {
    if i > 0 { StyledBeforeBound(s, ph, sp, i - 1); }
  }

  /** Skipped characters between two positions leave the counter where it was. */
  lemma {:induction false} SkippedKeepCounter(s: string, ph: seq<string>, sp: bool, i: nat, j: nat)
    requires i <= j <= |s|
    requires forall k :: i <= k < j ==> Skipped(s, ph, sp, k)
    ensures StyledBefore(s, ph, sp, j) == StyledBefore(s, ph, sp, i)
    decreases j - i
  {
    if i < j { SkippedKeepCounter(s, ph, sp, i, j - 1); }
  }

  /**
   * The counter advances only on painted characters: the next painted
   * character after a painted one at `i` gets the theme entry after its entry.
   */
  lemma NextPaintedAdvancesByOne(s: string, ph: seq<string>, sp: bool, i: nat, j: nat)
    requires i < j < |s|
    requires !Skipped(s, ph, sp, i)
    requires forall k :: i < k < j ==> Skipped(s, ph, sp, k)
    ensures StyledBefore(s, ph, sp, j) == StyledBefore(s, ph, sp, i) + 1
  {
    SkippedKeepCounter(s, ph, sp, i + 1, j);
  }

  /** The k-th painted character gets `theme[k mod len]`, so entries repeat after a full cycle. */
  lemma ThemeCycles(pipe: Pipe, s: string, ph: seq<string>, sp: bool, theme: seq<string>, i: nat, j: nat)
    requires i < |s| && j < |s| && |theme| > 0 && s[i] == s[j]
    requires !Skipped(s, ph, sp, i) && !Skipped(s, ph, sp, j)
    requires StyledBefore(s, ph, sp, j) == StyledBefore(s, ph, sp, i) + |theme|
    ensures Piece(pipe, s, ph, sp, theme, j) == Piece(pipe, s, ph, sp, theme, i)
    ensures Piece(pipe, s, ph, sp, theme, i) == Painted(pipe(Some(theme[StyledBefore(s, ph, sp, i) % |theme|])), s[i])
  {
    ModPeriod(StyledBefore(s, ph, sp, i), |theme|);
  }

  lemma ModPeriod(k: nat, n: nat)
    requires n > 0
    ensures (k + n) % n == k % n
  {
    var q, r := k / n, k % n;
    assert k == n * q + r;
    MulSucc(n, q);
    UniqueRemainder(k + n, n, q + 1, r);
  }

  lemma MulSucc(n: int, q: int)
    ensures n * (q + 1) == n * q + n
  {
  }

  lemma MulAtLeast(n: nat, d: int)
    requires d >= 1
    ensures n * d >= n
  {
  }

  lemma UniqueRemainder(a: int, n: int, q: int, r: int)
    requires n > 0 && 0 <= r < n && a == n * q + r
    ensures a % n == r
  {
    var q', r' := a / n, a % n;
    assert a == n * q' + r';
    if q' < q {
      MulAtLeast(n, q - q');
      MulDiff(n, q, q');
    } else if q' > q {
      MulAtLeast(n, q' - q);
      MulDiff(n, q', q);
    }
  }

  lemma MulDiff(n: int, x: int, y: int)
    ensures n * (x - y) == n * x - n * y
  {
  }

  /** Both characters of a listed two-character placeholder are copied unpainted. */
  lemma ShortPlaceholderProtected(pipe: Pipe, s: string, ph: seq<string>, sp: bool, theme: seq<string>, i: nat)
    requires i + 1 < |s| && s[i] == '%' && [s[i], s[i + 1]] in ph
    ensures Piece(pipe, s, ph, sp, theme, i) == [s[i]]
    ensures Piece(pipe, s, ph, sp, theme, i + 1) == [s[i + 1]]
  {
  }

  /** Unless spaces are styled, a space is copied unpainted. */
  lemma SpaceUnpainted(pipe: Pipe, s: string, ph: seq<string>, theme: seq<string>, i: nat)
    requires i < |s| && s[i] == ' '
    ensures Piece(pipe, s, ph, false, theme, i) == " "
  {
  }

  /** Without a colour for any entry the themed text is the text itself. */
  lemma ColourlessThemeIsIdentity(pipe: Pipe, s: string, theme: seq<string>, sp: bool)
    requires forall e :: pipe(e).None?
    ensures ThemedText(pipe, s, theme, sp) == s
  {
    var pieces := Pieces(pipe, s, Scan(s), sp, theme);
    assert forall i :: 0 <= i < |s| ==> pieces[i] == [s[i]];
    JoinSingletons(pieces, s);
  }

  lemma {:induction false} JoinSingletons(pieces: seq<string>, s: string)
    requires |pieces| == |s|
    requires forall i :: 0 <= i < |s| ==> pieces[i] == [s[i]]
    ensures Join(pieces, "") == s
    decreases |s|
  {
    if |s| > 1 {
      JoinSingletons(pieces[1..], s[1..]);
      assert s == [s[0]] + "" + s[1..];
    }
  }

  /**
   * A longer placeholder such as `%.3f` is not protected: in `"%.3f"` the
   * placeholder list is `["%.3f"]`, yet its `%` gets the first theme entry.
   */
  lemma LongPlaceholderPainted(pipe: Pipe, theme: seq<string>, sp: bool)
    ensures Scan("%.3f") == ["%.3f"]
    ensures Piece(pipe, "%.3f", Scan("%.3f"), sp, theme, 0) == Painted(pipe(Entry(theme, 0)), '%')
  {
    var s := "%.3f";
    assert FlagRunEnd(s, 3) == 3;
    assert FlagRunEnd(s, 1) == 3;
    assert MatchEnd(s, 0) == Some(4);
    assert Spans(s, 0) == [(0, 4)];
    assert s[0..4] == s;
    assert "%." != "%.3f";
  }
}
