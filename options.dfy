/**
 * The configuration of an instance (index.js:643-677, 846-878) and the pure
 * part of `style()` (index.js:715-746): which slot a style goes into and what
 * it becomes. Styles are symbolic; what chalk, `chalk.pipe`, sprintf, the
 * inspector and `ansi-regex` do with text is supplied by an `Env`.
 */
module Options {
  import opened Wrappers
  import opened Values
  import opened Text
  import opened Chalk
  import opened Theme

  /**
   * A style function as the library builds it: chalk itself, a chalk chain
   * extended by a property, `chalk.pipe(spec, base)`, the closure built for
   * an array theme, or a function supplied by the caller.
   */
  datatype Style =
    | Native
    | Chain(base: Style, name: string)
    | Piped(base: Style, spec: string)
    | Themed(base: Style, theme: seq<string>, styleSpaces: bool)
    | Custom(f: string -> string)
  {
    /** Has the chalk properties, so `style[prop]` is again a style. */
    predicate Chainable() {
      Native? || Chain? || Piped?
    }
  }

  /** `os.EOL`, which is never empty. */
  type Eol = s: string | |s| > 0 witness "\n"

  /**
   * Everything the core takes from outside: the line break, whether colour is
   * supported, `ansi-regex` stripping, what a chalk style does to text,
   * `chalk.pipe` on a theme entry, sprintf, and the inspector.
   */
  datatype Env = Env(
    eol: Eol,
    color: bool,
    strip: string -> string,
    chalk: (Style, string) -> string,
    pipe: Pipe,
    sprintf: (string, seq<Arg>) -> string,
    inspect: Value -> string)

  /** The text a style produces. A theme closure hands the style delimiter to its base untouched. */
  function Apply(env: Env, style: Style, t: string): string
    decreases style
  {
    match style
    case Custom(f) => f(t)
    case Themed(base, theme, sp) =>
      Apply(env, base, if t == StyleDelimiter then t else ThemedText(env.pipe, t, theme, sp))
    case _ => env.chalk(style, t)
  }

  function AsFunction(env: Env, style: Style): string -> string {
    t => Apply(env, style, t)
  }

  /** `Chalk.reset`. */
  const Reset: Style := Chain(Native, "reset")

  /**
   * A theme closure starts and ends like its base: the delimiter probe of
   * `styleStart`/`styleEnd` does not go through the theme.
   */
  lemma ThemedBoundaries(env: Env, base: Style, theme: seq<string>, sp: bool)
    ensures StyleStart(Some(AsFunction(env, Themed(base, theme, sp)))) == StyleStart(Some(AsFunction(env, base)))
    ensures StyleEnd(Some(AsFunction(env, Themed(base, theme, sp)))) == StyleEnd(Some(AsFunction(env, base)))
  {
    assert AsFunction(env, Themed(base, theme, sp))(StyleDelimiter) == AsFunction(env, base)(StyleDelimiter);
  }

  /** The two style slots `activeStyle` selects between. */
  datatype Slot = StyleSlot | ArgStyleSlot
  {
    /** The slot that is not this one. */
    function Other(): (r: Slot)
      ensures r != this
    {
      if StyleSlot? then ArgStyleSlot else StyleSlot
    }
  }

  /** The options record; `None` in a style slot is `undefined`. */
  datatype Options = Options(
    activeStyle: Slot,
    args: seq<Value>,
    argStyle: Option<Style>,
    color: bool,
    nullAsEmptyString: bool,
    prefixDelimiter: string,
    style: Option<Style>,
    styleSpaces: bool,
    suffixDelimiter: string)
  {
    /** `getOption(slot)`. */
    function SlotValue(slot: Slot): Option<Style> {
      if slot == StyleSlot then style else argStyle
    }

    /** `setOption(slot, s)` on the record. */
    function WithSlot(slot: Slot, s: Option<Style>): (r: Options)
      ensures r.SlotValue(slot) == s && r.activeStyle == activeStyle && SameOutsideSlots(this, r)
      ensures slot == StyleSlot ==> r == this.(style := s)
      ensures slot == ArgStyleSlot ==> r == this.(argStyle := s)
    {
      if slot == StyleSlot then this.(style := s) else this.(argStyle := s)
    }
  }

  /** One key of an options object passed to `setOptions`, with its value. */
  datatype Setting =
    | SetActiveStyle(slot: Slot)
    | SetArgs(args: seq<Value>)
    | SetArgStyle(argStyle: Option<Style>)
    | SetColor(color: bool)
    | SetNullAsEmptyString(nullAsEmptyString: bool)
    | SetPrefixDelimiter(prefixDelimiter: string)
    | SetStyle(style: Option<Style>)
    | SetStyleSpaces(styleSpaces: bool)
    | SetSuffixDelimiter(suffixDelimiter: string)

  /** How many keys the options record has. */
  const KeyCount: nat := 9

  function KeyOf(s: Setting): (k: nat)
    ensures k < KeyCount
  {
    match s
    case SetActiveStyle(_) => 0
    case SetArgs(_) => 1
    case SetArgStyle(_) => 2
    case SetColor(_) => 3
    case SetNullAsEmptyString(_) => 4
    case SetPrefixDelimiter(_) => 5
    case SetStyle(_) => 6
    case SetStyleSpaces(_) => 7
    case SetSuffixDelimiter(_) => 8
  }

  /** `getOption(key)`, as the setting that would write the current value back. */
  function Get(o: Options, k: nat): (s: Setting)
    requires k < KeyCount
    ensures KeyOf(s) == k
  {
    if k == 0 then SetActiveStyle(o.activeStyle)
    else if k == 1 then SetArgs(o.args)
    else if k == 2 then SetArgStyle(o.argStyle)
    else if k == 3 then SetColor(o.color)
    else if k == 4 then SetNullAsEmptyString(o.nullAsEmptyString)
    else if k == 5 then SetPrefixDelimiter(o.prefixDelimiter)
    else if k == 6 then SetStyle(o.style)
    else if k == 7 then SetStyleSpaces(o.styleSpaces)
    else SetSuffixDelimiter(o.suffixDelimiter)
  }

  /** One key of a spread `{...o, key: value}`: that key reads back the new value, every other key is kept. */
  function Put(o: Options, s: Setting): (r: Options)
    ensures Get(r, KeyOf(s)) == s
    ensures forall k :: 0 <= k < KeyCount && k != KeyOf(s) ==> Get(r, k) == Get(o, k)
  {
    match s
    case SetActiveStyle(v) => o.(activeStyle := v)
    case SetArgs(v) => o.(args := v)
    case SetArgStyle(v) => o.(argStyle := v)
    case SetColor(v) => o.(color := v)
    case SetNullAsEmptyString(v) => o.(nullAsEmptyString := v)
    case SetPrefixDelimiter(v) => o.(prefixDelimiter := v)
    case SetStyle(v) => o.(style := v)
    case SetStyleSpaces(v) => o.(styleSpaces := v)
    case SetSuffixDelimiter(v) => o.(suffixDelimiter := v)
  }

  /** Writing back the value `getOption` read changes nothing. */
  lemma PutGetBack(o: Options, k: nat)
    requires k < KeyCount
    ensures Put(o, Get(o, k)) == o
  {
  }

  /** `{...o, ...settings}`: the keys in order, so a later key overrides an earlier one. */
  function Merge(o: Options, settings: seq<Setting>): Options
    decreases |settings|
  {
    if |settings| == 0 then o else Merge(Put(o, settings[0]), settings[1..])
  }

  /** The last setting of key `k` in the list, if any. */
  function LastFor(settings: seq<Setting>, k: nat): (r: Option<Setting>)
    ensures r.Some? ==> r.value in settings && KeyOf(r.value) == k
    ensures r.None? ==> forall j :: 0 <= j < |settings| ==> KeyOf(settings[j]) != k
    decreases |settings|
  {
    if |settings| == 0 then None
    else match LastFor(settings[1..], k)
      case Some(s) => Some(s)
      case None => if KeyOf(settings[0]) == k then Some(settings[0]) else None
  }

  /** After a merge each key holds the value of its last setting, or its old value when it was not set. */
  lemma {:induction false} MergeReadsLastSetting(o: Options, settings: seq<Setting>, k: nat)
    requires k < KeyCount
    ensures Get(Merge(o, settings), k) == LastFor(settings, k).GetOr(Get(o, k))
    decreases |settings|
  {
    if |settings| > 0 {
      MergeReadsLastSetting(Put(o, settings[0]), settings[1..], k);
    }
  }

  /** The defaults of `StringExtra.defaultOptions`, with colour support as detected. */
  function DefaultOptions(color: bool): (o: Options)
    ensures o.activeStyle == StyleSlot && o.args == [] && o.style.None?
    ensures o.argStyle == Some(Chain(Chain(Native, "bold"), "whiteBright"))
    ensures o.nullAsEmptyString && !o.styleSpaces && o.color == color
    ensures o.prefixDelimiter == " " && o.suffixDelimiter == " "
  {
    Options(StyleSlot, [], Some(Chain(Chain(Native, "bold"), "whiteBright")), color, true, " ", None, false, " ")
  }

  /** `StringExtra.defaultStyles`: the named array themes. */
  const DefaultStyles: seq<(string, seq<string>)> := [
    ("america", ["red", "whiteBright", "blue"]),
    ("christmas", ["red", "green"]),
    ("rainbow", ["red", "orange", "yellow", "green", "blue", "magenta"]),
    ("zebra", ["inverse", "default"])
  ]

  /** What `style()` can be given: a falsy value, a pipe string, an array theme, a style function, or anything else. */
  datatype StyleArg = Falsy | Spec(spec: string) | ThemeList(theme: seq<string>) | Function(f: Style) | NotAStyle
  {
    predicate Truthy() {
      !Falsy? && !(Spec? && spec == "")
    }
  }

  /** Two records that agree on every key other than the style slots and `activeStyle`. */
  predicate SameOutsideSlots(a: Options, b: Options) {
    && a.args == b.args && a.color == b.color && a.nullAsEmptyString == b.nullAsEmptyString
    && a.prefixDelimiter == b.prefixDelimiter && a.suffixDelimiter == b.suffixDelimiter
    && a.styleSpaces == b.styleSpaces
  }

  /** The marker a pipe string uses to carry an argument style. */
  const ArgStyleMarker: string := ".argStyle."

  const StyleTypeError: string :=
    "Provided style must either be a string of chalk styles, piped using dot notation or a function that will be passed a single string value."

  /** A pipe string with text after its first `.argStyle.` marker, which `style()` hands on to `argStyle`. */
  predicate Defers(arg: StyleArg) {
    arg.Spec? && arg.spec != "" && var parts := Split(arg.spec, ArgStyleMarker); |parts| > 1 && parts[1] != ""
  }

  /**
   * One `style(arg, reset)` call up to the deferred argument style: the new
   * options and the argument-style pipe string it carried, if any.
   */
  function StyleStep(o: Options, arg: StyleArg, reset: bool): (r: Result<(Options, Option<string>), string>)
    ensures r.Err? <==> arg.NotAStyle?
    ensures r.Err? ==> r.error == StyleTypeError
    ensures r.Ok? ==> SameOutsideSlots(o, r.value.0) && r.value.0.activeStyle == o.activeStyle
    ensures r.Ok? ==> r.value.0.SlotValue(o.activeStyle).Some?
    ensures r.Ok? ==> r.value.0.SlotValue(o.activeStyle.Other()) == o.SlotValue(o.activeStyle.Other())
    ensures r.Ok? ==> (r.value.1.Some? <==> Defers(arg))
  {
    var slot := o.activeStyle;
    var existing := if reset then Native else o.SlotValue(slot).GetOr(Native);
    match arg
    case NotAStyle => Err(StyleTypeError)
    case Falsy => Ok((o.WithSlot(slot, Some(existing)), None))
    case Spec(spec) =>
      if spec == "" then Ok((o.WithSlot(slot, Some(existing)), None))
      else
        var parts := Split(spec, ArgStyleMarker);
        var deferred := if Defers(arg) then Some(parts[1]) else None;
        Ok((o.WithSlot(slot, Some(Piped(existing, parts[0]))), deferred))
    case ThemeList(theme) => Ok((o.WithSlot(slot, Some(Themed(existing, theme, o.styleSpaces))), None))
    case Function(f) => Ok((o.WithSlot(slot, Some(f)), None))
  }

  /** The `argStyle` getter: `argStyle` becomes the active slot and is reset to plain chalk. */
  function EnterArgStyle(o: Options): (r: Options)
    ensures r == o.(activeStyle := ArgStyleSlot, argStyle := Some(Native))
  {
    StyleStep(o.(activeStyle := ArgStyleSlot), Falsy, true).value.0
  }

  /** `style(arg, reset)`, including `this.argStyle.style(argStyle)` for a deferred argument style. */
  function Restyle(o: Options, arg: StyleArg, reset: bool): (r: Result<Options, string>)
    ensures r.Err? <==> arg.NotAStyle?
    ensures r.Err? ==> r.error == StyleTypeError
    ensures r.Ok? ==> SameOutsideSlots(o, r.value)
    ensures r.Ok? && !(o.activeStyle == StyleSlot && Defers(arg)) ==>
              && r.value.activeStyle == o.activeStyle
              && r.value.SlotValue(o.activeStyle).Some?
              && r.value.SlotValue(o.activeStyle.Other()) == o.SlotValue(o.activeStyle.Other())
  {
    match StyleStep(o, arg, reset)
    case Err(e) => Err(e)
    case Ok((o1, deferred)) =>
      if o.activeStyle == StyleSlot && deferred.Some? then
        Ok(StyleStep(EnterArgStyle(o1), Spec(deferred.value), false).value.0)
      else Ok(o1)
  }

  /** What a named chalk getter passes to `style()`: `style[prop]` of the active slot, or `undefined` when it has no such property. */
  function NamedArg(o: Options, name: string): StyleArg {
    var current := o.SlotValue(o.activeStyle).GetOr(Native);
    if current.Chainable() then Function(Chain(current, name)) else Falsy
  }

  /**
   * A named getter extends the active slot by that property and touches
   * nothing else; on a slot without chalk properties it leaves the slot's
   * style as it was.
   */
  lemma NamedGetterExtendsActiveSlot(o: Options, name: string)
    ensures var current := o.SlotValue(o.activeStyle).GetOr(Native);
            var r := Restyle(o, NamedArg(o, name), false);
            && r.Ok?
            && r.value == o.WithSlot(o.activeStyle, Some(if current.Chainable() then Chain(current, name) else current))
  {
  }

  /** `resetStyle` puts plain chalk in the active slot. */
  lemma ResetStyleNeutral(o: Options)
    ensures Restyle(o, Falsy, true) == Ok(o.WithSlot(o.activeStyle, Some(Native)))
  {
  }

  /** A falsy style keeps the active slot's style, or plain chalk when the slot is empty. */
  lemma FalsyKeepsExisting(o: Options)
    ensures Restyle(o, Falsy, false) == Ok(o.WithSlot(o.activeStyle, Some(o.SlotValue(o.activeStyle).GetOr(Native))))
  {
  }

  /** A style function replaces the active slot's style, whatever `reset` says. */
  lemma FunctionReplacesSlot(o: Options, f: Style, reset: bool)
    ensures Restyle(o, Function(f), reset) == Ok(o.WithSlot(o.activeStyle, Some(f)))
  {
  }

  /**
   * A pipe string without the `.argStyle.` marker, such as `red.bold.underline`,
   * is piped onto the active slot's style, or onto plain chalk under `reset`.
   */
  lemma PipeStringExtendsSlot(o: Options, spec: string, reset: bool)
    requires spec != "" && !Contains(spec, ArgStyleMarker)
    ensures var existing := if reset then Native else o.SlotValue(o.activeStyle).GetOr(Native);
            Restyle(o, Spec(spec), reset) == Ok(o.WithSlot(o.activeStyle, Some(Piped(existing, spec))))
  {
    SplitWithout(spec, ArgStyleMarker);
  }

  /** A value that is no style is refused before anything is set. */
  lemma NotAStyleThrows(o: Options, reset: bool)
    ensures Restyle(o, NotAStyle, reset) == Err(StyleTypeError)
  {
  }

  /**
   * On the `style` slot a pipe string `a.argStyle.b…` styles the text with
   * `a` (piped onto plain chalk under `reset`), makes `argStyle` active and
   * sets it to `b` on plain chalk; whatever follows a second marker is dropped.
   */
  lemma DeferredArgStyle(o: Options, spec: string, reset: bool)
    requires o.activeStyle == StyleSlot && spec != ""
    requires var parts := Split(spec, ArgStyleMarker); |parts| > 1 && parts[1] != ""
    ensures var parts := Split(spec, ArgStyleMarker);
            Restyle(o, Spec(spec), reset)
              == Ok(o.(style := Some(Piped(if reset then Native else o.style.GetOr(Native), parts[0])),
                       activeStyle := ArgStyleSlot,
                       argStyle := Some(Piped(Native, parts[1]))))
  {
    var parts := Split(spec, ArgStyleMarker);
    SplitPiecesFree(spec, ArgStyleMarker);
    SplitWithout(parts[1], ArgStyleMarker);
  }

  /** On the `argStyle` slot the marker is not followed: only the text before it is piped. */
  lemma ArgStyleSlotIgnoresMarker(o: Options, spec: string, reset: bool)
    requires o.activeStyle == ArgStyleSlot && spec != ""
    ensures Restyle(o, Spec(spec), reset)
         == Ok(o.(argStyle := Some(Piped(if reset then Native else o.argStyle.GetOr(Native), Split(spec, ArgStyleMarker)[0]))))
  {
  }

  /** An array theme wraps the active slot's style, or plain chalk under `reset`, in a theme closure. */
  lemma ThemeWrapsExisting(o: Options, theme: seq<string>, reset: bool)
    ensures var existing := if reset then Native else o.SlotValue(o.activeStyle).GetOr(Native);
            Restyle(o, ThemeList(theme), reset) == Ok(o.WithSlot(o.activeStyle, Some(Themed(existing, theme, o.styleSpaces))))
  {
  }

  /** The `header` getter: bright white, bold and underlined text and arguments, leaving `argStyle` active. */
  function HeaderOptions(o: Options): Options {
    var o1 := Restyle(o, NamedArg(o, "whiteBright"), false).value;
    var o2 := Restyle(o1, NamedArg(o1, "bold"), false).value;
    var o3 := Restyle(o2, NamedArg(o2, "underline"), false).value;
    var o4 := EnterArgStyle(o3);
    var o5 := Restyle(o4, NamedArg(o4, "whiteBright"), false).value;
    var o6 := Restyle(o5, NamedArg(o5, "bold"), false).value;
    Restyle(o6, NamedArg(o6, "underline"), false).value
  }

  function Emphasis(base: Style): Style {
    Chain(Chain(Chain(base, "whiteBright"), "bold"), "underline")
  }

  /** From the `style` slot holding a chalk chain, `header` emphasises both slots. */
  lemma HeaderEmphasisesBoth(o: Options)
    requires o.activeStyle == StyleSlot && o.style.GetOr(Native).Chainable()
    ensures HeaderOptions(o) == o.(style := Some(Emphasis(o.style.GetOr(Native))),
                                   activeStyle := ArgStyleSlot,
                                   argStyle := Some(Emphasis(Native)))
  {
    var o1 := Restyle(o, NamedArg(o, "whiteBright"), false).value;
    NamedGetterExtendsActiveSlot(o, "whiteBright");
    var o2 := Restyle(o1, NamedArg(o1, "bold"), false).value;
    NamedGetterExtendsActiveSlot(o1, "bold");
    var o3 := Restyle(o2, NamedArg(o2, "underline"), false).value;
    NamedGetterExtendsActiveSlot(o2, "underline");
    var o4 := EnterArgStyle(o3);
    var o5 := Restyle(o4, NamedArg(o4, "whiteBright"), false).value;
    NamedGetterExtendsActiveSlot(o4, "whiteBright");
    var o6 := Restyle(o5, NamedArg(o5, "bold"), false).value;
    NamedGetterExtendsActiveSlot(o5, "bold");
    NamedGetterExtendsActiveSlot(o6, "underline");
  }
}
