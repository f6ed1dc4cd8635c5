/**
 * The `StringExtra` instance (index.js:43-116, 549-562, 643-824, 837-878):
 * the value, the options record, the prefix and suffix instances and the
 * cached rendering, updated in place by the chainable setters and getters.
 */
module Extra {
  import opened Wrappers
  import opened Values
  import opened Text
  import opened Chalk
  import opened Placeholders
  import opened Options
  import opened Render

  /** What `create`, `prefix` and `suffix` accept: an existing instance, or a plain value. */
  datatype Input = Inst(e: StringExtra) | Val(v: Value)
  {
    /** JavaScript truthiness: an instance is an object, so always truthy. */
    predicate Truthy() {
      Inst? || Values.Truthy(v)
    }
  }

  /** The theme `StringExtra.defaultStyles[name]`, if there is one. */
  function DefaultStyle(name: string): (r: Option<seq<string>>)
    ensures r.Some? <==> exists k :: 0 <= k < |DefaultStyles| && DefaultStyles[k].0 == name
    ensures r.Some? ==> exists k :: 0 <= k < |DefaultStyles| && DefaultStyles[k] == (name, r.value)
  {
    if name == "america" then Some(DefaultStyles[0].1)
    else if name == "christmas" then Some(DefaultStyles[1].1)
    else if name == "rainbow" then Some(DefaultStyles[2].1)
    else if name == "zebra" then Some(DefaultStyles[3].1)
    else None
  }

  /** The chalk properties the `header` getter uses are in the catalogue. */
  lemma CatalogueHasHeaderNames()
    ensures "whiteBright" in ChalkProperties() && "bold" in ChalkProperties() && "underline" in ChalkProperties()
  {
    CatalogueShape();
  }

  class StringExtra {
    /** `orig`: the value to render. */
    var orig: Value
    /** `_options`. */
    var options: Options
    /** `_prefix` and `_suffix`; `None` is the empty string they start as. */
    var prefix: Option<StringExtra>
    var suffix: Option<StringExtra>
    /** `_formatted`: the cached rendering, `None` once deleted. */
    var formatted: Option<string>
    /** This instance and every instance reachable through its prefix and suffix. */
    ghost var Repr: set<StringExtra>

    /** The prefix and suffix chains are finite, acyclic and do not share instances. */
    ghost predicate Valid()
      reads this`Repr, this`prefix, this`suffix, Repr`Repr, Repr`prefix, Repr`suffix
      decreases Repr
    {
      && this in Repr
      && (prefix.Some? ==>
            prefix.value in Repr && prefix.value.Repr <= Repr && this !in prefix.value.Repr && prefix.value.Valid())
      && (suffix.Some? ==>
            suffix.value in Repr && suffix.value.Repr <= Repr && this !in suffix.value.Repr && suffix.value.Valid())
      && (prefix.Some? && suffix.Some? ==> prefix.value.Repr !! suffix.value.Repr)
    }

    /** `${this}`: the cached rendering if there is one, else a fresh one. */
    function View(env: Env): string
      requires Valid()
      reads this, Repr
      decreases Repr, 1
    {
      if formatted.Some? then formatted.value else Formatted(env)
    }

    /** What `format()` returns: the null text, or the body between the rendered prefix and suffix. */
    function Formatted(env: Env): string
      requires Valid()
      reads this, Repr
      decreases Repr, 0
    {
      if orig.Null? then (if options.nullAsEmptyString then "" else "null")
      else
        var p := if prefix.Some? then prefix.value.View(env) else "";
        var q := if suffix.Some? then suffix.value.View(env) else "";
        Layout(env, options, Body(env, options, orig), p, q)
    }

    /** `new StringExtra(value, options)`: no prefix or suffix, the defaults merged with the given options. */
    constructor (value: Value, settings: seq<Setting>, color: bool)
      ensures Valid() && fresh(Repr) && Repr == {this}
      ensures orig == (if value.Undefined? then Str("") else value)
      ensures options == Merge(DefaultOptions(color), settings)
      ensures prefix.None? && suffix.None? && formatted.None?
    {
      orig := if value.Undefined? then Str("") else value;
      options := Merge(DefaultOptions(color), settings);
      prefix := None;
      suffix := None;
      formatted := None;
      Repr := {this};
    }

    /**
     * `create(value, options)` (index.js:102-109): an instance is returned as
     * it is, so creating from the result again gives the same instance; any
     * other value becomes a new instance.
     */
    static method Create(value: Input, settings: seq<Setting>, color: bool) returns (r: StringExtra)
      ensures value.Inst? ==> r == value.e
      ensures value.Val? ==>
                && fresh(r) && r.Valid() && fresh(r.Repr) && r.Repr == {r}
                && r.orig == (if value.v.Undefined? then Str("") else value.v)
                && r.options == Merge(DefaultOptions(color), settings)
                && r.prefix.None? && r.suffix.None? && r.formatted.None?
    {
      if value.Inst? {
        return value.e;
      }
      r := new StringExtra(value.v, settings, color);
    }

    /** `createRoot(value)` (index.js:125-127): a new instance with the default options. */
    static method CreateRoot(value: Value, color: bool) returns (r: StringExtra)
      ensures r.Valid() && fresh(r.Repr) && r.Repr == {r}
      ensures r.orig == (if value.Undefined? then Str("") else value)
      ensures r.options == DefaultOptions(color)
      ensures r.prefix.None? && r.suffix.None? && r.formatted.None?
    {
      r := new StringExtra(value, [], color);
    }

    /**
     * `toString()`: the cached rendering when there is one, without formatting
     * again; otherwise `format()`, whose result is cached.
     */
    method ToString(env: Env) returns (s: string)
      requires Valid()
      modifies Repr`formatted
      ensures Valid()
      ensures s == old(View(env))
      ensures formatted == Some(s)
      ensures old(formatted).Some? ==> unchanged(Repr`formatted)
      ensures old(formatted).None? && !orig.Null? && prefix.Some? ==> prefix.value.formatted == Some(old(prefix.value.View(env)))
      ensures old(formatted).None? && !orig.Null? && suffix.Some? ==> suffix.value.formatted == Some(old(suffix.value.View(env)))
      decreases Repr, 1
    {
      if formatted.Some? {
        return formatted.value;
      }
      s := Format(env);
      formatted := Some(s);
    }

    /**
     * `format()`: the null case, the body, then the prefix and suffix rendered
     * (and so cached) and joined to the body with their delimiters, the body
     * and suffix indented under a prefix wider than one column.
     */
    method Format(env: Env) returns (s: string)
      requires Valid()
      modifies Repr`formatted
      ensures Valid()
      ensures s == old(Formatted(env))
      ensures formatted == old(formatted)
      ensures !orig.Null? && prefix.Some? ==> prefix.value.formatted == Some(old(prefix.value.View(env)))
      ensures !orig.Null? && suffix.Some? ==> suffix.value.formatted == Some(old(suffix.value.View(env)))
      decreases Repr, 0
    {
      if orig.Null? {
        return if options.nullAsEmptyString then "" else "null";
      }
      var o := options;
      ghost var f0 := Formatted(env);
      ghost var p0 := if prefix.Some? then prefix.value.View(env) else "";
      ghost var q0 := if suffix.Some? then suffix.value.View(env) else "";
      var body := FormatBody(env, o, orig);
      assert f0 == Layout(env, o, body, p0, q0);
      var prefixString := "";
      if prefix.Some? {
        prefixString := prefix.value.ToString(env);
      }
      assert prefixString == p0;
      assert Valid();
      var suffixString := "";
      if suffix.Some? {
        suffixString := suffix.value.ToString(env);
      }
      assert suffixString == q0;
      assert Valid();
      s := Assemble(env, o, body, prefixString, suffixString);
    }

    /** `setOptions(settings)`: the settings merged over the current options; the cache is dropped. */
    method SetOptions(settings: seq<Setting>)
      requires Valid()
      modifies this`options, this`formatted
      ensures Valid()
      ensures options == Merge(old(options), settings) && formatted.None?
    {
      options := Merge(options, settings);
      formatted := None;
    }

    /** `setOption(name, value)` for a top-level key: the copy with that key set, then `setOptions`. */
    method SetOption(setting: Setting)
      requires Valid()
      modifies this`options, this`formatted
      ensures Valid()
      ensures options == Put(old(options), setting) && formatted.None?
    {
      SetOptions([setting]);
    }

    /** `resetFormatted()`: the cached rendering is deleted. */
    method ResetFormatted()
      requires Valid()
      modifies this`formatted
      ensures Valid() && formatted.None?
    {
      formatted := None;
    }

    /** The `s` setter: a new value, and the cache dropped. */
    method SetS(value: Value)
      requires Valid()
      modifies this`orig, this`formatted
      ensures Valid() && orig == value && formatted.None?
    {
      orig := value;
      formatted := None;
    }

    /** `args(...given)`: the placeholder arguments, completed from the array shorthand and cut to the placeholders. */
    method Args(given: seq<Value>)
      requires Valid()
      modifies this`options, this`formatted
      ensures Valid()
      ensures options == old(options).(args := ArgsFor(orig, given)) && formatted.None?
    {
      var args := given;
      if |given| > 0 {
        args := ArgsFor(orig, given);
      }
      SetOption(SetArgs(args));
    }

    /**
     * `style(arg, reset)`: the active slot composed with the style, or the
     * TypeError, which is thrown before anything is set.
     */
    method Style(arg: StyleArg, reset: bool) returns (error: Option<string>)
      requires Valid()
      modifies this`options, this`formatted
      ensures Valid()
      ensures Restyle(old(options), arg, reset).Err? ==>
                error == Some(Restyle(old(options), arg, reset).error) && unchanged(this)
      ensures Restyle(old(options), arg, reset).Ok? ==>
                error.None? && options == Restyle(old(options), arg, reset).value && formatted.None?
    {
      match Restyle(options, arg, reset)
      case Err(e) =>
        error := Some(e);
      case Ok(o) =>
        options := o;
        formatted := None;
        error := None;
    }

    /** A chalk-property getter such as `.bold`: `style()` with that property of the active slot's style. */
    method Named(name: string)
      requires Valid() && name in ChalkProperties()
      modifies this`options, this`formatted
      ensures Valid() && formatted.None?
      ensures options == Restyle(old(options), NamedArg(old(options), name), false).value
      ensures var current := old(options).SlotValue(old(options).activeStyle).GetOr(Native);
              options == old(options).WithSlot(old(options).activeStyle,
                                               Some(if current.Chainable() then Chain(current, name) else current))
    {
      NamedGetterExtendsActiveSlot(options, name);
      var _ := Style(NamedArg(options, name), false);
    }

    /** The `argStyle` getter: `argStyle` becomes the active slot, reset to plain chalk. */
    method ArgStyle()
      requires Valid()
      modifies this`options, this`formatted
      ensures Valid() && formatted.None?
      ensures options == EnterArgStyle(old(options))
      ensures options == old(options).(activeStyle := ArgStyleSlot, argStyle := Some(Native))
    {
      SetOption(SetActiveStyle(ArgStyleSlot));
      ResetStyle();
    }

    /** The `resetStyle` getter: plain chalk in the active slot. */
    method ResetStyle()
      requires Valid()
      modifies this`options, this`formatted
      ensures Valid() && formatted.None?
      ensures options == old(options).WithSlot(old(options).activeStyle, Some(Native))
    {
      ResetStyleNeutral(options);
      var _ := Style(Falsy, true);
    }

    /** The `header` getter: three chalk properties on the active slot, `argStyle`, then the same three again. */
    method Header()
      requires Valid()
      modifies this`options, this`formatted
      ensures Valid() && formatted.None?
      ensures options == HeaderOptions(old(options))
      ensures old(options).activeStyle == StyleSlot && old(options).style.GetOr(Native).Chainable() ==>
                options == old(options).(style := Some(Emphasis(old(options).style.GetOr(Native))),
                                         activeStyle := ArgStyleSlot, argStyle := Some(Emphasis(Native)))
    {
      if options.activeStyle == StyleSlot && options.style.GetOr(Native).Chainable() {
        HeaderEmphasisesBoth(options);
      }
      CatalogueHasHeaderNames();
      Named("whiteBright");
      Named("bold");
      Named("underline");
      ghost var o3 := options;
      ArgStyle();
      assert options == EnterArgStyle(o3);
      Named("whiteBright");
      Named("bold");
      Named("underline");
    }

    /** A default-style getter such as `.rainbow`: `style()` with that array theme. */
    method Theme(name: string)
      requires Valid() && DefaultStyle(name).Some?
      modifies this`options, this`formatted
      ensures Valid() && formatted.None?
      ensures options == old(options).WithSlot(old(options).activeStyle,
                 Some(Themed(old(options).SlotValue(old(options).activeStyle).GetOr(Native),
                             DefaultStyle(name).value, old(options).styleSpaces)))
    {
      ThemeWrapsExisting(options, DefaultStyle(name).value, false);
      var _ := Style(ThemeList(DefaultStyle(name).value), false);
    }

    /** The instances of the prefix chain, with this one: those whose `Repr` composing a prefix grows. */
    ghost function PrefixNodes(): (nodes: set<StringExtra>)
      requires Valid()
      reads this`Repr, this`prefix, this`suffix, Repr`Repr, Repr`prefix, Repr`suffix
      ensures this in nodes && nodes <= Repr
      decreases Repr
    {
      if prefix.None? then {this} else {this} + prefix.value.PrefixNodes()
    }

    /** The instance at the end of the prefix chain: this one when there is no prefix. */
    ghost function PrefixTail(): (t: StringExtra)
      requires Valid()
      reads this`Repr, this`prefix, this`suffix, Repr`Repr, Repr`prefix, Repr`suffix
      ensures t in PrefixNodes() && t.prefix.None?
      ensures prefix.None? ==> t == this
      ensures prefix.Some? ==> t == prefix.value.PrefixTail()
      decreases Repr
    {
      if prefix.None? then this else prefix.value.PrefixTail()
    }

    /**
     * The part of `prefix()` after the value has become the instance `v`
     * (index.js:694-700): `v` becomes the prefix and the cache is dropped, or
     * `v` is handed on to the existing prefix and this cache is kept. So `v`
     * becomes the prefix of the instance at the end of the chain, which alone
     * drops its cache; no other prefix changes.
     */
    method AttachPrefix(v: StringExtra)
      requires Valid() && v.Valid() && v.Repr !! Repr
      modifies PrefixTail()`prefix, PrefixNodes()`Repr, PrefixTail()`formatted
      ensures Valid()
      ensures Repr == old(Repr) + v.Repr
      ensures old(PrefixTail()).prefix == Some(v)
      ensures old(PrefixTail()).formatted.None?
      decreases Repr
    {
      if prefix.Some? {
        var p := prefix.value;
        assert this !in p.PrefixNodes();
        assert suffix.Some? ==> suffix.value.Repr !! p.PrefixNodes();
        p.AttachPrefix(v);
        assert suffix.Some? ==> suffix.value.Valid();
        Repr := Repr + v.Repr;
      } else {
        prefix := Some(v);
        Repr := Repr + v.Repr;
        ResetFormatted();
      }
    }

    /**
     * `prefix(value, delimiter)` once `value` is an instance (index.js:690-700):
     * a non-empty delimiter is stored as the `prefixDelimiter` option, then the
     * instance is attached at the end of the prefix chain.
     */
    method PrefixWith(v: StringExtra, delimiter: string)
      requires Valid() && v.Valid() && v.Repr !! Repr
      modifies PrefixTail()`prefix, PrefixNodes()`Repr, PrefixTail()`formatted, this`options, this`formatted
      ensures Valid()
      ensures Repr == old(Repr) + v.Repr
      ensures old(PrefixTail()).prefix == Some(v)
      ensures old(PrefixTail()).formatted.None?
      ensures options == if delimiter != "" then old(options).(prefixDelimiter := delimiter) else old(options)
      ensures formatted == if delimiter != "" || old(prefix).None? then None else old(formatted)
    {
      if delimiter != "" {
        SetOption(SetPrefixDelimiter(delimiter));
      }
      AttachPrefix(v);
    }

    /**
     * `prefix(value, delimiter)` (index.js:682-701): a falsy value clears the
     * prefix and keeps the cache; any other value that is not an instance is
     * wrapped in a new root instance first.
     */
    method Prefix(value: Input, delimiter: string, env: Env)
      requires Valid()
      requires value.Inst? ==> value.e.Valid() && value.e.Repr !! Repr
      modifies this`prefix, PrefixTail()`prefix, PrefixNodes()`Repr, PrefixTail()`formatted, this`options, this`formatted
      ensures Valid()
      ensures !value.Truthy() ==>
                prefix.None? && options == old(options) && formatted == old(formatted) && Repr == old(Repr)
      ensures value.Inst? ==> old(PrefixTail()).prefix == Some(value.e) && Repr == old(Repr) + old(value.e.Repr)
      ensures value.Val? && value.Truthy() ==>
                && old(PrefixTail()).prefix.Some?
                && var n := old(PrefixTail()).prefix.value;
                && fresh(n) && Repr == old(Repr) + {n}
                && n.orig == value.v && n.options == DefaultOptions(env.color)
                && n.prefix.None? && n.suffix.None? && n.formatted.None?
      ensures value.Truthy() ==>
                && (old(prefix).Some? ==> prefix == old(prefix))
                && (old(prefix).None? && value.Inst? ==> prefix == Some(value.e))
                && (old(prefix).None? && value.Val? ==> prefix.Some? && fresh(prefix.value) && prefix.value.orig == value.v)
                && options == (if delimiter != "" then old(options).(prefixDelimiter := delimiter) else old(options))
                && formatted == (if delimiter != "" || old(prefix).None? then None else old(formatted))
                && old(PrefixTail()).formatted.None?
    {
      if !value.Truthy() {
        prefix := None;
        return;
      }
      if value.Inst? {
        PrefixWith(value.e, delimiter);
      } else {
        var v := CreateRoot(value.v, env.color);
        PrefixWith(v, delimiter);
      }
    }

    /** The instances of the suffix chain, with this one: those whose `Repr` composing a suffix grows. */
    ghost function SuffixNodes(): (nodes: set<StringExtra>)
      requires Valid()
      reads this`Repr, this`suffix, this`prefix, Repr`Repr, Repr`suffix, Repr`prefix
      ensures this in nodes && nodes <= Repr
      decreases Repr
    {
      if suffix.None? then {this} else {this} + suffix.value.SuffixNodes()
    }

    /** The instance at the end of the suffix chain. */
    ghost function SuffixTail(): (t: StringExtra)
      requires Valid()
      reads this`Repr, this`suffix, this`prefix, Repr`Repr, Repr`suffix, Repr`prefix
      ensures t in SuffixNodes() && t.suffix.None?
      ensures suffix.None? ==> t == this
      ensures suffix.Some? ==> t == suffix.value.SuffixTail()
      decreases Repr
    {
      if suffix.None? then this else suffix.value.SuffixTail()
    }

    /**
     * The part of `suffix()` after the value has become the instance `v`
     * (index.js:763-769): `v` becomes the suffix and the cache is dropped, or
     * `v` is handed on to the existing suffix and this cache is kept. So `v`
     * becomes the suffix of the instance at the end of the chain, which alone
     * drops its cache; no other suffix changes.
     */
    method AttachSuffix(v: StringExtra)
      requires Valid() && v.Valid() && v.Repr !! Repr
      modifies SuffixTail()`suffix, SuffixNodes()`Repr, SuffixTail()`formatted
      ensures Valid()
      ensures Repr == old(Repr) + v.Repr
      ensures old(SuffixTail()).suffix == Some(v)
      ensures old(SuffixTail()).formatted.None?
      decreases Repr
    {
      if suffix.Some? {
        var p := suffix.value;
        assert this !in p.SuffixNodes();
        assert prefix.Some? ==> prefix.value.Repr !! p.SuffixNodes();
        p.AttachSuffix(v);
        assert prefix.Some? ==> prefix.value.Valid();
        Repr := Repr + v.Repr;
      } else {
        suffix := Some(v);
        Repr := Repr + v.Repr;
        ResetFormatted();
      }
    }

    /**
     * `suffix(value, delimiter)` once `value` is an instance (index.js:759-769):
     * a non-empty delimiter is stored as the `suffixDelimiter` option, then the
     * instance is attached at the end of the suffix chain.
     */
    method SuffixWith(v: StringExtra, delimiter: string)
      requires Valid() && v.Valid() && v.Repr !! Repr
      modifies SuffixTail()`suffix, SuffixNodes()`Repr, SuffixTail()`formatted, this`options, this`formatted
      ensures Valid()
      ensures Repr == old(Repr) + v.Repr
      ensures old(SuffixTail()).suffix == Some(v)
      ensures old(SuffixTail()).formatted.None?
      ensures options == if delimiter != "" then old(options).(suffixDelimiter := delimiter) else old(options)
      ensures formatted == if delimiter != "" || old(suffix).None? then None else old(formatted)
    {
      if delimiter != "" {
        SetOption(SetSuffixDelimiter(delimiter));
      }
      AttachSuffix(v);
    }

    /**
     * `suffix(value, delimiter)` (index.js:751-770): a falsy value clears the
     * suffix and keeps the cache; any other value that is not an instance is
     * wrapped in a new root instance first.
     */
    method Suffix(value: Input, delimiter: string, env: Env)
      requires Valid()
      requires value.Inst? ==> value.e.Valid() && value.e.Repr !! Repr
      modifies this`suffix, SuffixTail()`suffix, SuffixNodes()`Repr, SuffixTail()`formatted, this`options, this`formatted
      ensures Valid()
      ensures !value.Truthy() ==>
                suffix.None? && options == old(options) && formatted == old(formatted) && Repr == old(Repr)
      ensures value.Inst? ==> old(SuffixTail()).suffix == Some(value.e) && Repr == old(Repr) + old(value.e.Repr)
      ensures value.Val? && value.Truthy() ==>
                && old(SuffixTail()).suffix.Some?
                && var n := old(SuffixTail()).suffix.value;
                && fresh(n) && Repr == old(Repr) + {n}
                && n.orig == value.v && n.options == DefaultOptions(env.color)
                && n.suffix.None? && n.prefix.None? && n.formatted.None?
      ensures value.Truthy() ==>
                && (old(suffix).Some? ==> suffix == old(suffix))
                && (old(suffix).None? && value.Inst? ==> suffix == Some(value.e))
                && (old(suffix).None? && value.Val? ==> suffix.Some? && fresh(suffix.value) && suffix.value.orig == value.v)
                && options == (if delimiter != "" then old(options).(suffixDelimiter := delimiter) else old(options))
                && formatted == (if delimiter != "" || old(suffix).None? then None else old(formatted))
                && old(SuffixTail()).formatted.None?
    {
      if !value.Truthy() {
        suffix := None;
        return;
      }
      if value.Inst? {
        SuffixWith(value.e, delimiter);
      } else {
        var v := CreateRoot(value.v, env.color);
        SuffixWith(v, delimiter);
      }
    }
  }
}
