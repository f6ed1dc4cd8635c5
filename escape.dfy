/**
 * `escapeRegExp` (index.js:172-186): a backslash before every character that
 * is not an ASCII letter or digit, so that the text can be embedded in a
 * regular expression and match itself literally.
 */
module Escape {
  import opened Wrappers
  import opened Text

  /** `/^[A-Za-z0-9]+$/.test(c)` for a single character. */
  predicate IsAlnum(c: char) {
    'A' <= c <= 'Z' || 'a' <= c <= 'z' || '0' <= c <= '9'
  }

  /**
   * What the loop pushes for one character. The `'\\000'` comparison of the
   * source is kept as written; one character never equals that four-character
   * string (see `OctalTestNeverHolds`).
   */
  function Chunk(c: char): string {
    if IsAlnum(c) then [c]
    else if [c] == "\\000" then "\\000"
    else ['\\', c]
  }

  /** The escaped form of `s`: the chunks of its characters, in order. */
  function Escaped(s: string): string
    decreases |s|
  {
    if |s| == 0 then "" else Chunk(s[0]) + Escaped(s[1..])
  }

  /** The number of characters that get a backslash. */
  function NonAlnumCount(s: string): nat
    decreases |s|
  {
    if |s| == 0 then 0 else (if IsAlnum(s[0]) then 0 else 1) + NonAlnumCount(s[1..])
  }

  /**
   * The literal text matched by a regular-expression source made of letters,
   * digits and identity escapes `\c`: each backslash is dropped and the
   * character after it stands for itself.
   */
  function Unescape(p: string): string
    decreases |p|
  {
    if |p| == 0 then ""
    else if p[0] == '\\' && |p| >= 2 then [p[1]] + Unescape(p[2..])
    else [p[0]] + Unescape(p[1..])
  }

  /**
   * `StringExtra.escapeRegExp(string)`; `None` stands for `null` and
   * `undefined`, which escape to the empty string.
   */
  method EscapeRegExp(value: Option<string>) returns (r: string)
    ensures value.None? ==> r == ""
    ensures value.Some? ==> r == Escaped(value.value)
  {
    var ret: seq<string> := [];
    var s := if value.None? then "" else value.value;
    var i := 0;
    while i < |s|
      invariant 0 <= i <= |s|
      invariant Join(ret, "") == Escaped(s[..i])
    {
      var c := s[i];
      EscapedSnoc(s[..i], c);
      assert s[..i + 1] == s[..i] + [c];
      JoinEmptySnoc(ret, Chunk(c));
      if IsAlnum(c) {
        ret := ret + [[c]];
        i := i + 1;
        continue;
      }
      ret := ret + [if [c] == "\\000" then "\\000" else ['\\', c]];
      i := i + 1;
    }
    assert s[..i] == s;
    r := Join(ret, "");
  }

  /** Joining with the empty separator is concatenation, one piece at a time. */
  lemma {:induction false} JoinEmptySnoc(parts: seq<string>, x: string)
    ensures Join(parts + [x], "") == Join(parts, "") + x
    decreases |parts|
  {
    if |parts| == 0 {
      assert parts + [x] == [x];
    } else if |parts| == 1 {
      assert (parts + [x])[1..] == [x];
    } else {
      JoinEmptySnoc(parts[1..], x);
      assert (parts + [x])[1..] == parts[1..] + [x];
    }
  }

  /** Escaping a string extended by one character appends that character's chunk. */
  lemma {:induction false} EscapedSnoc(s: string, c: char)
    ensures Escaped(s + [c]) == Escaped(s) + Chunk(c)
    decreases |s|
  {
    if |s| == 0 {
      assert s + [c] == [c];
      assert Escaped([c]) == Chunk(c) + Escaped([c][1..]);
    } else {
      EscapedSnoc(s[1..], c);
      assert (s + [c])[1..] == s[1..] + [c];
    }
  }

  /** The source's test for `'\\000'` never holds. */
  lemma OctalTestNeverHolds(c: char)
    ensures [c] != "\\000"
    ensures !IsAlnum(c) ==> Chunk(c) == ['\\', c]
  {
    assert |"\\000"| == 4;
  }

  /** Each character adds itself, and one backslash more when it is not alphanumeric. */
  lemma {:induction false} EscapedLength(s: string)
    ensures |Escaped(s)| == |s| + NonAlnumCount(s)
    decreases |s|
  {
    if |s| > 0 {
      EscapedLength(s[1..]);
      OctalTestNeverHolds(s[0]);
    }
  }

  /** An escaped string used as a pattern matches exactly the original text. */
  lemma {:induction false} UnescapeEscaped(s: string)
    ensures Unescape(Escaped(s)) == s
    decreases |s|
  {
    if |s| > 0 {
      UnescapeEscaped(s[1..]);
      var c := s[0];
      var p := Chunk(c) + Escaped(s[1..]);
      OctalTestNeverHolds(c);
      if IsAlnum(c) {
        assert p[0] == c && p[1..] == Escaped(s[1..]);
      } else {
        assert p[0] == '\\' && p[1] == c && p[2..] == Escaped(s[1..]);
      }
    }
  }

  /** Alphanumeric text escapes to itself. */
  lemma {:induction false} EscapedAlnum(s: string)
    requires forall k :: 0 <= k < |s| ==> IsAlnum(s[k])
    ensures Escaped(s) == s
    decreases |s|
  {
    if |s| > 0 {
      EscapedAlnum(s[1..]);
      assert s == [s[0]] + s[1..];
    }
  }
}
