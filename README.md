# string-extra, modelled in Dafny

`StringExtra` wraps a value: a string, a number, an array in the sprintf
shorthand `[template, ...args]`, or `null`. The instance carries a record of
options and is decorated through chainable calls:

- chalk styles, held in two slots: `style` for the whole text and `argStyle`
  for the placeholder arguments;
- array themes that colour the text character by character;
- sprintf arguments;
- a prefix and a suffix, each itself a `StringExtra`.

`toString()` renders the instance once, caches the result, and hands back the
cached text until something resets it. The helper module `chalk.js` adds a
closed catalogue of style names, and it recovers the start and end sequence of
a style function by passing it a sentinel.

The project models this as follows:

- `Values`, `Wrappers` and `Text` hold the JavaScript values the library
  accepts and the string built-ins it relies on: `indexOf`, `split`, `join`
  and `' '.repeat(n)`.
- `Chalk` holds the catalogue and `styleStart`, `styleEnd` and `wrap`. A style
  is any function from text to text, and a falsy style is `None`.
- `Placeholders` is a hand-written scanner for the pattern
  `%[-.0-9]*[A-Za-z]`. On top of it sit `extractPlaceholders` in both of its
  call shapes, the cutting of `args()`, and `unique`.
- `Escape` holds `escapeRegExp` as the loop of the source, together with its
  specification and its inverse.
- `Theme` holds `formatTheme` as a loop that fills a sequence of pieces, and
  the character-level specification of that loop.
- `Options` holds four things:
  - the options record and the merge semantics of `setOptions` and `setOption`;
  - the defaults;
  - the pure part of `style()`, which decides which slot a style goes into and
    what it becomes;
  - the getters that call `style()`.

  Styles are symbolic: chalk, a chalk chain extended by a property,
  `chalk.pipe`, a theme closure, or a function supplied by the caller. Seven
  external operations are fields of an `Env` value: what chalk does to text,
  `chalk.pipe` on a theme entry, sprintf, the inspector, `ansi-regex`
  stripping, `os.EOL` and colour support.
- `Render` holds the body of `format()`: the array shorthand, the rewriting of
  placeholders to `%s`, the styling of arguments, the outer style and sprintf.
  It also holds the final assembly with prefix, suffix, delimiters and
  indentation.
- `Extra` holds the `StringExtra` class. Its fields are updated in place:
  - `orig`, the value;
  - `options`;
  - `prefix` and `suffix`, each an optional instance;
  - `formatted`, the cache.

  Its methods are the chainable setters and getters, `toString()` and
  `format()`. The ghost `Repr` keeps the prefix and suffix chains finite,
  acyclic and disjoint.
- `Scenarios` holds whole compositions in a plain ASCII environment:
  - `x.prefix(a).prefix(b)` renders as `b a x`;
  - `x.suffix(a).suffix(b)` renders as `x a b`;
  - a rendering stays cached across a prefix handed on down the chain;
  - a rendering stays cached when the prefix is cleared.

## Model

| member | source | states |
|---|---|---|
| Chalk.ChalkProperties | index.js:829 | The chainable property names are the 41 names of the modifiers, foreground and background lists; a name is one exactly when it is in one of those lists. |
| Chalk.CatalogueShape | chalk.js:9-59 | The catalogue has 8 modifiers, 17 foreground colours, of which none is `blackBright`, and 16 background colours including `bgBlackBright`. |
| Chalk.DelimiterFoundAfter | chalk.js:60 | The sentinel `>>><<<` has no proper prefix that is also a suffix, so in `a + sentinel + b` with `a` free of it, its first occurrence is right after `a`. |
| Chalk.BoundariesOfWrapper | chalk.js:60-66 | For a style that writes `start` before and `end` after any text, neither containing the sentinel, `styleStart` recovers `start` and `styleEnd` recovers `end`. |
| Chalk.WrapWithoutStyle | chalk.js:67-70 | Without an outer style, `wrap` returns the value unchanged. |
| Chalk.WrapOfWrapper | chalk.js:67-70 | Inside an outer style `(os, oe)`, `wrap` emits the outer end, the reset start, the value, the reset start again and the outer start. |
| Chalk.WrapKeepsOuterStyle | chalk.js:67-70 | An outer style applied to text that embeds a wrapped value equals the outer style on the text before it, the value between two reset starts, and the outer style on the text after it. |
| Text.IndentWithoutBreak | index.js:380-381 | The split-and-join indentation leaves a string without a line break unchanged, so the `indexOf` guard only saves work. |
| Text.JoinSplit | index.js:381 | Joining the pieces of a split with the same separator gives back the string. |
| Placeholders.MatchEnd | index.js:885 | A match found at a position ends after it, inside the text, and spans a placeholder token: `%`, flags, then a letter. |
| Placeholders.MatchIsTheOnlyPlaceholder | index.js:885 | A slice is a placeholder token exactly when the greedy match at its start ends at its end, so at most one token starts anywhere. |
| Placeholders.SpansAreLeftmost | index.js:258 | The global match yields spans in order, without overlap, and misses no match before the first span, between two spans, or after the last. |
| Placeholders.Scan | index.js:257-261 | The tokens of a string are exactly the texts of those leftmost spans, in order, and each one is a placeholder. |
| Placeholders.Extract | index.js:256-281 | A string yields its tokens. An array whose head is a string yields the head's tokens, unless strict mode finds fewer trailing values than tokens. Anything else yields no tokens. |
| Placeholders.ExtractedAreTokens | index.js:256-281 | Every extracted token starts with `%` and ends with a conversion letter. |
| Placeholders.ArgsFor | index.js:556-562 | Given values are followed by the array's trailing values and cut to the number of placeholders: the result is a prefix of that list with the smaller of the two lengths. No values clears the arguments. |
| Placeholders.Unique | index.js:36 | The result holds the same elements as the input, no element twice, in the order of their first occurrence in the input. |
| Escape.EscapeRegExp | index.js:172-186 | `null` and `undefined` escape to the empty string. Any other text escapes to the concatenation of its characters' chunks, proved through the loop invariant. |
| Escape.EscapedSnoc | index.js:177-184 | One more character appends exactly its own chunk, which is the loop's step. |
| Escape.OctalTestNeverHolds | index.js:183 | A single character never equals the four-character `'\\000'`, so every non-alphanumeric character gets one backslash. |
| Escape.EscapedLength | index.js:172-186 | The output is as long as the input plus the number of non-alphanumeric characters. |
| Escape.UnescapeEscaped | index.js:172-186 | Reading the escaped text as a pattern, with each backslash dropped, gives back exactly the input. |
| Escape.EscapedAlnum | index.js:179-181 | Alphanumeric text escapes to itself. |
| Theme.Pieces | index.js:397-412 | The map yields one piece per character of the text, each piece being what the callback returns at that index. |
| Theme.FormatTheme | index.js:394-413 | The loop's result is the themed text: the callback's pieces joined, with the placeholders scanned from the value itself. |
| Theme.StyledBeforeBound | index.js:399 | The theme counter never runs ahead of the character position. |
| Theme.SkippedKeepCounter | index.js:402-408 | Skipped characters leave the counter where it was. |
| Theme.NextPaintedAdvancesByOne | index.js:409 | After a painted character the next painted character gets the counter plus one, whatever was skipped between them. |
| Theme.ThemeCycles | index.js:409-411 | A painted character whose counter is k is styled with `theme[k mod len]`, and a character a full theme cycle later receives the same piece. |
| Theme.ShortPlaceholderProtected | index.js:404-405 | Both characters of a two-character placeholder in the list are copied unstyled. |
| Theme.SpaceUnpainted | index.js:403 | A space is copied unstyled unless spaces are styled. |
| Theme.ColourlessThemeIsIdentity | index.js:410-412 | When no theme entry names a colour, the themed text equals the text. This covers a pipe supplied through `Env` that yields no style function; `chalk-pipe` itself always yields one. |
| Theme.LongPlaceholderPainted | index.js:404-405 | A longer token such as `%.3f` is in the list yet unprotected: its `%` is painted with the first theme entry. |
| Options.ThemedBoundaries | index.js:730 | A theme closure passes the sentinel to its base untouched, so its start and end sequences are those of the base. |
| Options.Get | index.js:643-647 | Reading a key yields the setting of that key holding the record's current value, so writing it back changes nothing (Options.PutGetBack). |
| Options.Put | index.js:662-669 | Setting one key makes that key read back the new value and keeps every other key. |
| Options.PutGetBack | index.js:643-669 | Setting a key to the value read from it leaves the options unchanged. |
| Options.MergeReadsLastSetting | index.js:674-675 | After a merge each key holds the value of its last setting in the list, or its old value when it was not set. |
| Options.DefaultOptions | index.js:850-867 | The defaults: the `style` slot active, no arguments, `bold.whiteBright` as argument style, no style, `null` as the empty string, no styled spaces, single-space delimiters, and colour as detected. |
| Options.StyleStep | index.js:715-739 | `style()` fails exactly for a value that is no style, with the TypeError's message. Otherwise only the active slot changes and is left holding a style; the other slot and `activeStyle` are kept; an argument style is carried on exactly when the pipe string has text after its `.argStyle.` marker. |
| Options.Restyle | index.js:715-746 | The same with the deferred argument style applied: a failure exactly for a non-style, every key other than the two slots and `activeStyle` kept, and, unless a pipe string on the `style` slot defers an argument style, `activeStyle` and the other slot kept and the active slot holding a style. |
| Options.EnterArgStyle | index.js:784-786 | The `argStyle` getter makes `argStyle` the active slot and puts plain chalk in it. |
| Options.NamedGetterExtendsActiveSlot | index.js:837-841 | A named getter extends only the active slot by that property. A slot without chalk properties keeps its style. |
| Options.ResetStyleNeutral | index.js:813-815 | `resetStyle` puts plain chalk in the active slot and touches nothing else. |
| Options.FalsyKeepsExisting | index.js:715-737 | A falsy style without `reset` keeps the active slot's style, or puts plain chalk in an empty slot. |
| Options.FunctionReplacesSlot | index.js:729-737 | A style function becomes the active slot's style, whether or not `reset` is given. |
| Options.PipeStringExtendsSlot | index.js:717-737 | A pipe string without the `.argStyle.` marker is piped onto the active slot's style, or onto plain chalk under `reset`. |
| Options.NotAStyleThrows | index.js:732-734 | A value that is not falsy, a string, an array or a function throws the TypeError. |
| Options.DeferredArgStyle | index.js:715-743 | On the `style` slot, `a.argStyle.b` pipes `a` onto the style (onto plain chalk under `reset`), makes `argStyle` active and sets it to `b` on plain chalk; text after a second marker is dropped. |
| Options.ArgStyleSlotIgnoresMarker | index.js:715-741 | On the `argStyle` slot the marker is not followed: only the text before it is piped, onto the slot's style or onto plain chalk under `reset`. |
| Options.ThemeWrapsExisting | index.js:715-737 | An array theme wraps the active slot's current style, or plain chalk under `reset`, in a theme closure. |
| Options.HeaderEmphasisesBoth | index.js:792-794 | From a chainable `style` slot, `header` makes both slots bright white, bold and underlined, and leaves `argStyle` active. |
| Render.NonTrivial | index.js:317 | The filter keeps exactly the tokens that are non-empty and not `%s`. |
| Render.FirstAt | index.js:319 | The alternation matches the first listed alternative that occurs at a position, or none occurs there. |
| Render.InsideMatchNoPercent | index.js:885 | No match starts strictly inside another match. |
| Render.MatchStartsSpan | index.js:258 | Every position where a match starts is recorded by the global scan started at or before it. |
| Render.SpanIndex | index.js:258 | A match starting at or after the scan's start position is the start of one of the scan's spans, whose index is returned. |
| Render.SpanIndexAtMatch | index.js:258 | The same, for a scan that starts on a match: that match is the first span, a later match starts at or after its end, and only a match at the start has index 0. |
| Render.MatchTextScanned | index.js:305 | The text of every match is among the scanned placeholders. |
| Render.PlaceholderAt | index.js:319 | A placeholder occurring at a position is exactly the scanner's match there. |
| Render.PercentSKept | index.js:317-320 | Because `%s` is filtered out of the alternation, a `%s` match is copied unchanged. |
| Render.CopyStep | index.js:319 | Where the scanner finds no match, the alternation matches nothing either, so both rewritings copy the character. |
| Render.SubstituteStep | index.js:319-320 | Where the scanner finds a match that is among the alternatives, both rewritings put `%s` for it and resume after the match. |
| Render.ReplaceMatches | index.js:317-320 | When the alternatives are non-empty placeholders, exclude `%s` and include every other match of the template, the alternation rewrites exactly the scanner's matches to `%s` and copies every other character. |
| Render.SubstitutedIdentity | index.js:318-320 | When every match is already `%s`, the substitution changes nothing. |
| Render.NormaliseSubstitutes | index.js:317-320 | Unique, filtered and escaped, the template's own placeholders replace every match by `%s` and leave every other character alone. |
| Render.StyledArgs | index.js:323-340 | The styling pass keeps one argument per original argument. |
| Render.FormatBody | index.js:298-363 | The method computes the body of the specification. |
| Render.StyleArguments | index.js:323-340 | The `forEach` pass, which overwrites `args[index]` one placeholder at a time and keeps undefined arguments, yields the specified styled arguments. |
| Render.PlainStringBody | index.js:343-358 | A string without arguments is its own body, under the outer style when colour is on. |
| Render.UncolouredBody | index.js:311-315 | Without colour nothing is styled: sprintf receives the template and the raw arguments. |
| Render.StyledBody | index.js:311-363 | With argument styling on, every placeholder of the template becomes `%s`. Each defined argument that has a placeholder becomes its styled text, and every other argument stays raw. |
| Render.StyledArgResumesOuterStyle | index.js:338-339 | Under an outer style, a styled argument is the outer end, a reset start, the argument rendered by a root instance in the argument style, a reset start, and the outer start. |
| Render.Assemble | index.js:365-391 | The assembly puts each delimiter only where its side has visible text, and indents the body and the rendered suffix under a prefix wider than one column. |
| Render.LayoutIndentsUnderWidePrefix | index.js:376-388 | Under a prefix whose visible length n exceeds one, every line break of the body and of the suffix is followed by n spaces. |
| Render.LayoutWithoutSides | index.js:366-372 | Sides without visible text add no delimiter: an empty prefix and suffix give the body alone. |
| Render.LayoutNarrowPrefix | index.js:376 | A one-column prefix adds its delimiter but indents nothing. |
| Render.LayoutAgreesOnPlainSuffix | index.js:383-388 | The assembly as written agrees with the intended one whenever the suffix's `orig` is absent, or is a string or array without a line break. |
| Render.SuffixIndentationLost | index.js:383-385 | Under the prefix `ab`, a suffix instance with `orig` `c\nd` comes out unindented as written (`ab x c\nd`) and indented as intended (`ab x c\n  d`). |
| Render.WideLayouts | index.js:376-388 | Under a prefix wider than one column, with visible text on both sides, the intended assembly indents a broken suffix while the assembly as written keeps a suffix whose `orig` has a line break as it was rendered. |
| Extra.DefaultStyle | index.js:869-874 | A theme is found exactly for the four listed names, and it is the listed one. |
| Extra.CatalogueHasHeaderNames | index.js:793 | The three properties `header` uses are chainable chalk properties. |
| Extra.StringExtra.constructor | index.js:53-60 | A new instance has no prefix, suffix or cache, holds the value (`undefined` becomes `''`), and has the defaults merged with the given options. |
| Extra.StringExtra.Create | index.js:102-109 | An existing instance is returned itself. Any other value becomes a fresh instance with the defaults merged with the options. |
| Extra.StringExtra.CreateRoot | index.js:125-127 | A fresh instance with the default options and nothing else set. |
| Extra.StringExtra.ToString | index.js:773-782 | The result is the cached rendering when there is one, and no cache anywhere changes then; otherwise it is what `format()` computes, which is then cached, and a present prefix and suffix (of a non-null value) are left caching their own renderings. |
| Extra.StringExtra.Format | index.js:289-392 | `null` renders as `''` or `'null'` per `nullAsEmptyString`; anything else renders as the body between the rendered prefix and suffix. The instance's own cache is untouched; a present prefix and suffix are left caching exactly what they rendered before the call. |
| Extra.StringExtra.SetOptions | index.js:674-677 | The settings are merged over the current options and the cache is dropped. |
| Extra.StringExtra.SetOption | index.js:662-669 | One key is set, every other key is kept, and the cache is dropped. |
| Extra.StringExtra.ResetFormatted | index.js:707-710 | The cache is dropped and nothing else changes. |
| Extra.StringExtra.SetS | index.js:821-824 | The value is replaced and the cache is dropped. |
| Extra.StringExtra.Args | index.js:556-562 | The arguments become the given values completed from the array shorthand and cut to the placeholders; the cache is dropped. |
| Extra.StringExtra.Style | index.js:715-746 | A value that is no style reports the TypeError and leaves the instance unchanged. Any other value sets the restyled options and drops the cache. |
| Extra.StringExtra.Named | index.js:837-841 | A chalk-property getter extends the active slot by that property and leaves every other key as it was. |
| Extra.StringExtra.ArgStyle | index.js:784-786 | `argStyle` becomes the active slot and holds plain chalk; nothing else changes. |
| Extra.StringExtra.ResetStyle | index.js:813-815 | The active slot holds plain chalk; nothing else changes. |
| Extra.StringExtra.Header | index.js:792-794 | Both slots get bright white, bold and underline, and `argStyle` is left active. |
| Extra.StringExtra.Theme | index.js:875-880 | A default-style getter wraps the active slot's style in the named theme. |
| Extra.StringExtra.AttachPrefix | index.js:694-700 | The new prefix goes to the end of the prefix chain, and only that last instance's cache is dropped. |
| Extra.StringExtra.PrefixWith | index.js:690-700 | A non-empty delimiter is stored and drops the cache. Otherwise the cache survives whenever a prefix existed already. |
| Extra.StringExtra.Prefix | index.js:682-702 | A falsy value clears the prefix and keeps the cache. An instance is attached at the end of the chain. Any other value becomes a new root instance attached there. An existing prefix stays this instance's prefix; without one, the attached instance becomes it. |
| Extra.StringExtra.AttachSuffix | index.js:763-769 | The new suffix goes to the end of the suffix chain, and only that last instance's cache is dropped. |
| Extra.StringExtra.SuffixWith | index.js:759-769 | A non-empty delimiter is stored and drops the cache. Otherwise the cache survives whenever a suffix existed already. |
| Extra.StringExtra.Suffix | index.js:751-771 | A falsy value clears the suffix and keeps the cache. An instance is attached at the end of the chain. Any other value becomes a new root instance attached there. An existing suffix stays this instance's suffix; without one, the attached instance becomes it. |
| Scenarios.PrefixedTwice | index.js:693-696 | After `x.prefix(a).prefix(b)`, `x` holds `a` as its prefix and `a` holds `b`. |
| Scenarios.PrefixOrder | index.js:693-696 | `x.prefix(a).prefix(b)` renders as `b a x`. |
| Scenarios.SuffixedTwice | index.js:762-765 | After `x.suffix(a).suffix(b)`, `x` holds `a` as its suffix and `a` holds `b`. |
| Scenarios.SuffixOrder | index.js:762-765 | `x.suffix(a).suffix(b)` renders as `x a b`. |
| Scenarios.StaleAfterChainedPrefix | index.js:693-701 | After `x.prefix(a)` has been rendered, `.prefix(b)` still renders `a x`; it renders `b a x` only after `resetFormatted()`. |
| Scenarios.ClearedPrefixKeepsCache | index.js:683-686 | Clearing a rendered prefix with a falsy value still renders `a x`; it renders `x` only after `resetFormatted()`. |
| Scenarios.RerenderedFromPrefixCache | index.js:365-366 | After `S('x').prefix('a')` has been rendered and `resetFormatted()`, the next rendering takes `a` from the prefix's cache and is `a x` again. |

## Left out

- Inspection is left out. `inspect`, `customInspector` and `attachCustomInspector` reflect over arbitrary objects, so the inspector is an `Env` parameter.
- Stream hooks, deprecation notices, `S`, `option` and `config` are left out: they are stream I/O and stderr output.
- `extendPrototype` and `restorePrototype` are left out: they patch the global `String.prototype`.
- The `b`, `json`, `length` and `rawLength` getters are left out: they read Buffer encodings, the inspector option and `ansi-regex`.
- The `clone*` helpers are left out.
- The library internals are parameters of `Env`:
  - sprintf's numeric formatting;
  - chalk's and `chalk-pipe`'s colour output;
  - stripping with `ansi-regex`;
  - `os.EOL`;
  - colour detection.

  Which pipe strings are valid chalk styles is not modelled either.
- Options.Put: covers only single-segment names. The nested-path branch of `setOption` is not modelled.
- The options record holds the nine keys used by the core. `encoding`, `inspector` and `inspectorOptions` are left out with the getters that read them.
- Setting a style slot to a value that is not a style is left out. The slots hold only styles.
- Extra.StringExtra.PrefixWith: stores the delimiter as a string. The source stores `createRoot(delimiter)`, which renders to the same text with the default options.
- Extra.StringExtra.SuffixWith: stores the delimiter as a string, for the same reason.
- Prefix and suffix values that are `StringJs` instances not created by this library are left out. So are instances shared between chains, and chains that contain the instance itself: `Prefix` and `Suffix` require the new instance's footprint to be disjoint from the chain.
- An `orig` that is itself an instance is left out. So is any object that brings its own `indexOf`. The body-indentation branch that rewrites such an instance's `orig` (index.js:377-378) is therefore not modelled.
- Extra.StringExtra.Prefix: states the end of the chain, not the rendered order of the whole chain. The order is shown by `Scenarios.PrefixOrder` and `Scenarios.StaleAfterChainedPrefix`.
- Extra.StringExtra.Suffix: states the end of the chain, not the rendered order of the whole chain. The order is shown by `Scenarios.SuffixOrder`.
- Extra.StringExtra.Format: renders with the intended assembly `Render.Layout`, not the one index.js:383-385 performs. Under a prefix wider than one column with a suffix set, the source throws a TypeError when the suffix's `orig` is a number, a boolean, `null` or a plain object. It also emits a suffix whose `orig` contains a line break unindented. `Render.LayoutAsWritten` models both. The source also rewrites the suffix's `orig` in place, so the suffix's next uncached rendering is indented; that rewrite is not modelled.
- Extra.StringExtra.Format: states the caches of the immediate prefix and suffix, which hold what they rendered, and not those of instances deeper in the chains, which a rendering fills the same way.
- Extra.StringExtra.ToString: on the uncached path, states the same caches as `Format`, for the same reason.
- Text is a sequence of Unicode characters, not of UTF-16 code units. `formatTheme` splits its text into code units (index.js:397). A character outside the Basic Multilingual Plane is therefore two pieces in the source, each painted and each advancing the theme counter, and one piece in `Theme.Pieces` and `Theme.FormatTheme`.
- An array theme captures `styleSpaces` when `style()` builds the theme closure. The source reads it when the closure runs at rendering; the two differ only when `styleSpaces` changes in between.
- A number is kept as the text `String(n)` gives. Floating-point formatting is left to that text and to sprintf.

## Findings

| source | as written | input that shows it | evidently intended | confidence | as-written member | corrected member |
|---|---|---|---|---|---|---|
| index.js:383-385 | The code rewrites the suffix instance's `orig` to indent it, but only after the suffix was rendered into `suffixString`. The output therefore carries the unindented suffix. An `orig` without `indexOf` (a number, `null`) makes the line throw. | prefix `"ab"`, body `"x"`, suffix instance with `orig` `"c\nd"`: the result is `"ab x c\nd"` | The suffix indented like the body under the wide prefix: `"ab x c\n  d"` | not executed | Render.LayoutAsWritten, shown by Render.SuffixIndentationLost | Render.Layout (Render.Assemble, Render.LayoutIndentsUnderWidePrefix), used by Extra.StringExtra.Format |
