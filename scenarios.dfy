/**
 * Whole compositions of `StringExtra` calls in a plain ASCII environment,
 * rendered with `toString()`: the order of chained prefixes and suffixes,
 * and what the cache keeps across later composition.
 */
module Scenarios {
  import opened Wrappers
  import opened Values
  import opened Text
  import opened Options
  import opened Render
  import opened Extra

  /** A plain-string instance with the default options, no sides and no cache. */
  ghost predicate Plain(n: StringExtra, t: string)
    reads n
  {
    n.orig == Str(t) && n.options == DefaultOptions(true) && n.prefix.None? && n.suffix.None? && n.formatted.None?
  }

  /** `S('x').prefix('a')`: the new instance `a` becomes the prefix of `x`. */
  method PrefixedOnce(env: Env) returns (x: StringExtra, a: StringExtra)
    requires env == PlainEnv()
    ensures x.Valid() && fresh(x.Repr) && Plain(a, "a") && x != a
    ensures x.orig == Str("x") && x.options == DefaultOptions(true) && x.prefix == Some(a)
    ensures x.suffix.None? && x.formatted.None?
  {
    x := StringExtra.CreateRoot(Str("x"), env.color);
    x.Prefix(Val(Str("a")), "", env);
    a := x.prefix.value;
  }

  /** `S('x').prefix('a').prefix('b')`: `b` is handed on to `a`, the end of the chain. */
  method PrefixedTwice(env: Env) returns (x: StringExtra, a: StringExtra, b: StringExtra)
    requires env == PlainEnv()
    ensures x.Valid() && fresh(x.Repr) && Plain(b, "b")
    ensures x.orig == Str("x") && x.options == DefaultOptions(true) && x.prefix == Some(a)
    ensures x.suffix.None? && x.formatted.None?
    ensures a.orig == Str("a") && a.options == DefaultOptions(true) && a.prefix == Some(b)
    ensures a.suffix.None? && a.formatted.None?
  {
    x, a := PrefixedOnce(env);
    x.Prefix(Val(Str("b")), "", env);
    b := a.prefix.value;
  }

  /** `S('x').prefix('a').prefix('b')` renders the newest prefix first: `b a x`. */
  method PrefixOrder() returns (s: string)
    ensures s == "b a x"
  {
    var env := PlainEnv();
    PlainLayouts(DefaultOptions(true));
    var x, a, b := PrefixedTwice(env);
    UncachedView(b, env, "b");
    UncachedView(a, env, "a");
    UncachedView(x, env, "x");
    s := x.ToString(env);
  }

  /** `S('x').suffix('a')`: the new instance `a` becomes the suffix of `x`. */
  method SuffixedOnce(env: Env) returns (x: StringExtra, a: StringExtra)
    requires env == PlainEnv()
    ensures x.Valid() && fresh(x.Repr) && Plain(a, "a") && x != a
    ensures x.orig == Str("x") && x.options == DefaultOptions(true) && x.suffix == Some(a)
    ensures x.prefix.None? && x.formatted.None?
  {
    x := StringExtra.CreateRoot(Str("x"), env.color);
    x.Suffix(Val(Str("a")), "", env);
    a := x.suffix.value;
  }

  /** `S('x').suffix('a').suffix('b')`: `b` is handed on to `a`, the end of the chain. */
  method SuffixedTwice(env: Env) returns (x: StringExtra, a: StringExtra, b: StringExtra)
    requires env == PlainEnv()
    ensures x.Valid() && fresh(x.Repr) && Plain(b, "b")
    ensures x.orig == Str("x") && x.options == DefaultOptions(true) && x.suffix == Some(a)
    ensures x.prefix.None? && x.formatted.None?
    ensures a.orig == Str("a") && a.options == DefaultOptions(true) && a.suffix == Some(b)
    ensures a.prefix.None? && a.formatted.None?
  {
    x, a := SuffixedOnce(env);
    x.Suffix(Val(Str("b")), "", env);
    b := a.suffix.value;
  }

  /** `S('x').suffix('a').suffix('b')` renders the newest suffix last: `x a b`. */
  method SuffixOrder() returns (s: string)
    ensures s == "x a b"
  {
    var env := PlainEnv();
    PlainLayouts(DefaultOptions(true));
    var x, a, b := SuffixedTwice(env);
    UncachedView(b, env, "b");
    UncachedView(a, env, "a");
    UncachedView(x, env, "x");
    s := x.ToString(env);
  }

  /** `S('x').prefix('a')` rendered once: `a x`, now cached. */
  method RenderedOnce(env: Env) returns (x: StringExtra, a: StringExtra, first: string)
    requires env == PlainEnv()
    ensures first == "a x"
    ensures x.Valid() && fresh(x.Repr) && x != a
    ensures x.orig == Str("x") && x.options == DefaultOptions(true) && x.prefix == Some(a)
    ensures x.suffix.None? && x.formatted == Some("a x")
    ensures a.orig == Str("a") && a.options == DefaultOptions(true) && a.prefix.None? && a.suffix.None?
    ensures a.formatted == Some("a")
  {
    PlainLayouts(DefaultOptions(true));
    x, a := PrefixedOnce(env);
    UncachedView(a, env, "a");
    UncachedView(x, env, "x");
    assert a.View(env) == "a";
    assert x.View(env) == "a x";
    first := x.ToString(env);
  }

  /** Then `.prefix('b')`: `b` goes to `a`, whose cache is dropped, while `x` keeps `a x`. */
  method ChainedAfterRender(env: Env) returns (x: StringExtra, a: StringExtra, b: StringExtra, first: string, stale: string)
    requires env == PlainEnv()
    ensures first == "a x" && stale == "a x"
    ensures x.Valid() && fresh(x.Repr) && Plain(b, "b")
    ensures x.orig == Str("x") && x.options == DefaultOptions(true) && x.prefix == Some(a) && x.suffix.None?
    ensures a.orig == Str("a") && a.options == DefaultOptions(true) && a.prefix == Some(b)
    ensures a.suffix.None? && a.formatted.None?
  {
    x, a, first := RenderedOnce(env);
    x.Prefix(Val(Str("b")), "", env);
    b := a.prefix.value;
    stale := x.ToString(env);
  }

  /**
   * A prefix handed on to an existing prefix leaves the outer rendering
   * cached: after `S('x').prefix('a')` has been rendered, `.prefix('b')`
   * still renders `a x` until `resetFormatted()`, and `b a x` after it.
   */
  method StaleAfterChainedPrefix() returns (first: string, stale: string, renewed: string)
    ensures first == "a x" && stale == "a x" && renewed == "b a x"
  {
    var env := PlainEnv();
    PlainLayouts(DefaultOptions(true));
    var x, a, b;
    x, a, b, first, stale := ChainedAfterRender(env);
    x.ResetFormatted();
    UncachedView(b, env, "b");
    UncachedView(a, env, "a");
    UncachedView(x, env, "x");
    renewed := x.ToString(env);
  }

  /**
   * Clearing the prefix with a falsy value keeps the cache: the rendering
   * stays `a x` until `resetFormatted()`, and is `x` after it.
   */
  method ClearedPrefixKeepsCache() returns (first: string, cleared: string, reset: string)
    ensures first == "a x" && cleared == "a x" && reset == "x"
  {
    var env := PlainEnv();
    PlainLayouts(DefaultOptions(true));
    var x, a;
    x, a, first := RenderedOnce(env);
    x.Prefix(Val(Str("")), "", env);
    cleared := x.ToString(env);
    x.ResetFormatted();
    UncachedView(x, env, "x");
    reset := x.ToString(env);
  }

  /**
   * Rendering fills the prefix's cache with its rendering: after
   * `S('x').prefix('a')` has been rendered and `resetFormatted()`, the next
   * rendering reads `a` from the prefix's cache and is `a x` again.
   */
  method RerenderedFromPrefixCache() returns (first: string, again: string)
    ensures first == "a x" && again == "a x"
  {
    var env := PlainEnv();
    PlainLayouts(DefaultOptions(true));
    var x, a;
    x, a, first := RenderedOnce(env);
    x.ResetFormatted();
    UncachedView(x, env, "x");
    again := x.ToString(env);
  }

  /** An uncached plain-string instance with the default options renders its text between its sides. */
  lemma UncachedView(n: StringExtra, env: Env, t: string)
    requires env == PlainEnv() && n.Valid() && n.formatted.None?
    requires n.orig == Str(t) && n.options == DefaultOptions(true)
    ensures n.View(env) == Layout(env, n.options, t,
                                  if n.prefix.Some? then n.prefix.value.View(env) else "",
                                  if n.suffix.Some? then n.suffix.value.View(env) else "")
  {
    PlainStringBody(env, n.options, t);
  }

  /** The plain renderings the scenarios assemble, with the default options. */
  lemma PlainLayouts(o: Options)
    requires o == DefaultOptions(true)
    ensures Layout(PlainEnv(), o, "b", "", "") == "b"
    ensures Layout(PlainEnv(), o, "x", "", "") == "x"
    ensures Layout(PlainEnv(), o, "a", "", "") == "a"
    ensures Layout(PlainEnv(), o, "a", "b", "") == "b a"
    ensures Layout(PlainEnv(), o, "x", "a", "") == "a x"
    ensures Layout(PlainEnv(), o, "x", "b a", "") == "b a x"
    ensures Layout(PlainEnv(), o, "a", "", "b") == "a b"
    ensures Layout(PlainEnv(), o, "x", "", "a b") == "x a b"
  {
    var env := PlainEnv();
    NoBreakInOneChar('x');
    assert IndentIfBroken(env, "", 3) == "" by { assert !Contains("", "\n"); }
  }

  /** A one-character text other than a line break contains no line break. */
  lemma NoBreakInOneChar(c: char)
    requires c != '\n'
    ensures !Contains([c], "\n")
  {
    forall j: nat | j <= 1
      ensures !OccursAt([c], "\n", j)
    {
      if j == 0 { assert [c][0..1] == [c]; }
    }
  }
}
