# intlify/h3 request i18n binding, modelled in Dafny

This project models the two pieces of logic in the `@intlify/h3` middleware:

- **`parseAcceptLanguage`** (`src/utils.ts`), in module `AcceptLanguage`
  (`accept_language.dfy`). It turns an `Accept-Language` header into an ordered
  list of language tags. The header is split on `,`, each entry keeps the text
  before its first `;` (so the quality weight is dropped), and entries equal to
  `*` or to the empty string are removed. This is a simplified reading of
  section 12.5.4 of RFC 9110: weights are ignored rather than used for ranking,
  and nothing is trimmed or deduplicated. JavaScript's `split` is modelled
  exactly, including `"".split(",") == [""]`.
- **The request binding** (`src/index.ts`), in module `I18n` (`i18n.dfy`).
  `defineI18nMiddleware` creates one shared `CoreContext` and captures its
  original `locale`. It picks a per-request detector: the caller's function
  bound to `(event, i18n)`, a constant detector for a static locale string, or
  the Accept-Language detector bound to the event.
  - `onRequest` stores that detector in `event.context._i18nLocale` and in the
    shared `i18n.locale`, then attaches the context.
  - `onAfterResponse` restores the original locale and detaches the context.
  - `useTranslation` throws when no context is attached. For an async detector
    it runs the detector once and writes the answer back to the shared context.
    If the detector rejects, `useTranslation` rejects too.
    It returns a translate wrapper. The wrapper builds `{ locale, ...options }`
    and echoes the key when the translator answers `NOT_REOSLVED`.

The shared context and the event are classes whose methods change fields in
place. The foreign code the binding calls is a `Host` value with four
arrow-typed fields, and every property holds for every host:
- `detect`: the bodies of caller-supplied detector functions, with `None` for a
  detector that throws or rejects;
- `headerLocale`: `getHeaderLocale` of `@intlify/utils`;
- `parseOptions`: `parseTranslateArgs` of `@intlify/core`;
- `translate`: `translate` of `@intlify/core`, with `None` standing for `NOT_REOSLVED`.

`createCoreContext` is not a `Host` field. `CoreOptions` stands for the options
as the created context holds them, and the `CoreContext` constructor stores
them unchanged.

`wrappers.dfy` holds the `Option` and `Result` types. `setup_finding.dfy`
holds the two members of the finding below.

Points where the model goes by the code's exact behaviour:
- **Caller's locale wins.** The comment `// bind to request locale`
  (src/index.ts:368) sits above `{ locale, ...options }`
  (src/index.ts:367-371). The spread comes last, so a `locale` the caller puts
  in the options overrides the request locale. The model follows the code
  (`BindOptions`).
- **No locale option.** Any locale value that is neither a function nor a
  string selects the Accept-Language detector (src/index.ts:128-132).
- **Missing detector.** `useTranslation` reads
  `event.context._i18nLocale.constructor` without a check (src/index.ts:353-355).
  An event with a context attached but no detector therefore throws a
  TypeError. The model reports this as `DetectorMissing`. The hooks never
  produce such an event (`Event.Consistent`); see "## Findings".

## Model

| member | source | states |
|---|---|---|
| `AcceptLanguage.Split` | src/utils.ts:9 | `split` on one character yields one more piece than there are separators. No piece contains the separator. The first piece is the prefix of the input up to its first separator. |
| `AcceptLanguage.Join` | src/utils.ts:9 | `Array.prototype.join` on one character starts with the first part, puts the separator right after it, and inserts one separator between each pair of parts. It is the inverse that JoinSplit and SplitJoin pair with `split`. |
| `AcceptLanguage.LanguageRange` | src/utils.ts:9 | `entry.split(';')[0]` is the longest `;`-free prefix of the entry: a prefix with no `;`, followed by `;` or by the end. |
| `AcceptLanguage.Ranges` | src/utils.ts:9 | The map step keeps length and position: element i is the language range of entry i and a prefix of it. |
| `AcceptLanguage.KeepAccepted` | src/utils.ts:9-11 | The filter keeps a tag exactly when it was in the input and is neither `*` nor empty, and never lengthens the list. |
| `AcceptLanguage.ParseAcceptLanguage` | src/utils.ts:8-12 | The result has at most (number of `,`) + 1 tags. No tag is `*` or empty, and no tag contains `,` or `;`. |
| `AcceptLanguage.SplitNoSeparator` | src/utils.ts:9 | A string without the separator splits into itself alone. |
| `AcceptLanguage.SplitAround` | src/utils.ts:9 | Splitting `a + sep + b` gives the pieces of `a` followed by the pieces of `b`. |
| `AcceptLanguage.JoinSplit` | src/utils.ts:9 | Joining the pieces of a split with the separator gives the input back. |
| `AcceptLanguage.SplitJoin` | src/utils.ts:9 | Splitting a join of a non-empty list of separator-free pieces gives the pieces back. |
| `AcceptLanguage.LanguageRangeBeforeWeight` | src/utils.ts:9 | The language range of `tag;weight` is `tag` when `tag` has no `;`. |
| `AcceptLanguage.LanguageRangeOfPlainTag` | src/utils.ts:9 | An entry without `;` is its own language range. |
| `AcceptLanguage.RangesAppend` | src/utils.ts:9 | The map step distributes over concatenation. |
| `AcceptLanguage.KeepAcceptedAppend` | src/utils.ts:9-11 | The filter distributes over concatenation, so it keeps relative order. |
| `AcceptLanguage.RangesOfPlainTags` | src/utils.ts:9 | The map step leaves a list of `;`-free tags unchanged. |
| `AcceptLanguage.KeepAllAccepted` | src/utils.ts:9-11 | The filter leaves a list of accepted tags unchanged. |
| `AcceptLanguage.ParseSingleEntry` | src/utils.ts:9-11 | A header with no `,` yields its language range, or nothing when that range is `*` or empty. |
| `AcceptLanguage.ParseAround` | src/utils.ts:9-11 | Parsing `a,b` gives the tags of `a` followed by the tags of `b`. Together with ParseSingleEntry this fixes the result for every header, in header order. |
| `AcceptLanguage.ParseKeepsExactlyAcceptedRanges` | src/utils.ts:9-11 | A tag is in the result if and only if it is accepted and is the language range of some comma-separated entry. |
| `AcceptLanguage.ParseJoin` | src/utils.ts:9-11 | A `,`-join of accepted tags without `,` or `;` parses back to exactly those tags. |
| `AcceptLanguage.ParseJoinParse` | src/utils.ts:9-11 | Round trip: re-parsing the `,`-join of any result gives that result again. |
| `AcceptLanguage.ParsePlainEntry` | src/utils.ts:9-11 | A clean tag alone parses to itself. |
| `AcceptLanguage.ParseWeightedEntry` | src/utils.ts:9-11 | `tag;weight` parses to `[tag]`. |
| `AcceptLanguage.ParseThreeEntries` | src/utils.ts:9-11 | `a,b;wb,c;wc` parses to `[a, b, c]`: weights are dropped, not used for ranking. |
| `AcceptLanguage.ParseAroundTwice` | src/utils.ts:9-11 | Parsing `a,x,y` gives the tags of `a`, then those of `x`, then those of `y`. |
| `AcceptLanguage.ParseTwoEntries` | src/utils.ts:9-11 | `a,b` parses to `[a, b]`, duplicates included. |
| `AcceptLanguage.ParseWeightedExample` | test/utils.test.ts:9-15 | `"ja,en-US;q=0.7,en;q=0.3"` yields `["ja","en-US","en"]`. |
| `AcceptLanguage.ParseUnweightedExample` | test/utils.test.ts:17-22 | `"ja,en-US"` yields `["ja","en-US"]`. |
| `AcceptLanguage.ParseSingleTagExample` | test/utils.test.ts:24-28 | `"ja"` yields `["ja"]`. |
| `AcceptLanguage.ParseWildcardExample` | test/utils.test.ts:30-32 | `"*"` yields `[]`. |
| `AcceptLanguage.ParseEmptyExample` | test/utils.test.ts:34-36 | `""` yields `[]`. |
| `AcceptLanguage.ParseUntrimmedExample` | src/utils.ts:9 | `"en, ja"` yields `["en", " ja"]`: nothing is trimmed. |
| `AcceptLanguage.ParseDetectorExample` | src/index.test.ts:13-25 | The header of the detector test, `"en-US,en;q=0.9,ja;q=0.8"`, yields `["en-US","en","ja"]`, whose first tag is `en-US`. |
| `I18n.CoreContext.constructor` | src/index.ts:115 | A fresh shared context holds the configured locale and messages. |
| `I18n.Event.constructor` | src/index.ts:136-139 | A fresh event, before `onRequest`, has neither `event.context.i18n` nor `event.context._i18nLocale`, and its detector has not been invoked. |
| `I18n.IsAsync` | src/index.ts:355 | `constructor.name === 'AsyncFunction'`: the static and header detectors are never async. A caller's function bound with `bind` is async exactly when the function is. |
| `I18n.Detect` | src/index.ts:123-131 | When `useTranslation` (src/index.ts:356) or the translator invokes a detector: invoking the static detector answers its string. Invoking the header detector answers `getHeaderLocale` of the bound event's request. A caller's function answers for the bound event's request, or fails. |
| `I18n.GetLocaleDetector` | src/index.ts:118-133 | A function option gives that function bound to `(event, i18n)`, checked first. A string option gives the static detector. Otherwise the Accept-Language detector is bound to the event. Only a caller's async function is async. |
| `I18n.StaticDetectorIsConstant` | src/index.ts:118-124 | The static detector answers the configured string for every event and is not async. |
| `I18n.BindOptions` | src/index.ts:366-371 | `{ locale, ...options }`: a caller-supplied `options.locale` wins, otherwise the request locale is used. The other options pass through unchanged. |
| `I18n.FirstArg` | src/index.ts:362 | `const [arg2] = args`: present exactly when there is an extra argument, and then it is the first one. |
| `I18n.CallOf` | src/index.ts:360-372 | The wrapper passes the attached context's current locale and messages, the key, the first extra argument and the merged options. |
| `I18n.Translate` | src/index.ts:360-374 | The wrapper returns the key when the translator answers `NOT_REOSLVED`, and otherwise the translator's string unchanged. |
| `I18n.UseTranslation` | src/index.ts:343-377 | Fails with NotInitialized exactly when no context is attached, and never with DetectorMissing on an event the hooks keep consistent. An async detector is invoked exactly once. When it rejects, the call fails with DetectorFailed and the shared locale is untouched. Otherwise its answer becomes both the shared locale and the per-call locale. A sync detector is not invoked, and the shared locale and messages stay as they were. |
| `I18n.I18nMiddleware.constructor` | src/index.ts:114-116 | Creates one fresh shared context and captures that context's locale as the original locale. |
| `I18n.I18nMiddleware.OnRequest` | src/index.ts:136-140 | Sets `_i18nLocale` and `i18n.locale` to the selected detector and attaches the shared context. Messages are untouched, and a second call simply overwrites. |
| `I18n.I18nMiddleware.OnAfterResponse` | src/index.ts:141-144 | Restores the original locale and detaches the context. `_i18nLocale` stays. |
| `I18n.I18nMiddleware.HandleRequest` | spec/integration.spec.ts:23-51 | One request end to end. The message is the translator's answer for this request's detector (or for its async answer), or the key when unresolved. Afterwards the original locale is back and the context is detached. The request fails exactly when an async detector rejects, and that detector is invoked exactly once. |
| `I18n.I18nMiddleware.Serve` | src/index.ts:135-145 | For any sequence of hooks over any events, the shared locale is the original one when the last hook was `onAfterResponse`. It is the last request's detector when the last hook was `onRequest`. Messages never change. |

## Left out

- Concurrency: the shared `i18n.locale` field is a cross-request hazard when requests interleave at suspension points (spec/integration.spec.ts:142-202). The model runs the hooks one after another.
- Awaiting: an async detector is a flag on the detector (`LocaleFunction.isAsync`), standing for the `AsyncFunction` constructor-name test. Its result is taken as already awaited.
- Side effects of caller-supplied detectors, such as loading messages into `i18n.messages` (spec/integration.spec.ts:96-108). `Host.detect` is a pure function of the detector and the request. It does not see the context.
- `translate`, `parseTranslateArgs`, message compilation, pluralisation and interpolation of `@intlify/core`: foreign code, kept as `Host` fields.
- I18n.CoreContext.constructor: assumes `createCoreContext` stores the `locale` and `messages` options unchanged. Any normalisation it does, such as defaulting an absent locale, is foreign code and not part of this model. Only these two fields of the context are modelled.
- `getHeaderLocale` and the other `@intlify/utils/h3` re-exports (`getAcceptLanguages`, `getLocale`, `getCookieLocale`, `setCookieLocale`): foreign code. `detectLocaleFromAcceptLanguageHeader` is `Host.headerLocale`, an uninterpreted function of the request.
- `Intl.Locale`, BCP-47 validation, `isLocale` and `validateLanguageTag`: host-library behaviour that src/utils.ts does not contain.
- `console.warn` for a static locale (src/index.ts:120-122): logging only.
- The explicit `locale: undefined` key in the options: `TranslateOptions.locale` records presence or absence only.
- The type-level machinery (`DefaultLocaleMessageSchema`, `ResolveResourceKeys`, the `TranslationFunction` overloads, `DefineLocaleMessage`): compile-time only.
- The playground servers, the e2e child-process test, scripts and tool configuration: I/O and configuration.
- I18n.UseTranslation: detector failures are modelled only for an async caller's detector, the one `useTranslation` invokes (src/index.ts:356). A sync detector, or `getHeaderLocale`, that throws when `@intlify/core` calls it fails inside the translator, which is foreign code.
- I18n.I18nMiddleware.HandleRequest: when the handler rejects, the model stops before `onAfterResponse`. Whether h3 still runs that hook after a handler error is h3's behaviour and not part of this model. `Serve` covers any order of hooks.
- I18n.Translate: requires an attached context. Calling a translate function after `onAfterResponse` hands the `undefined` left by the `delete` (src/index.ts:143) to `@intlify/core`'s `translate` (src/index.ts:364). What that foreign function then does is not modelled.
- I18n.Translate: `parseTranslateArgs` and `translate` are total `Host` functions. A throw inside either is not modelled.

## Findings

| source | as written | input that shows it | evidently intended | confidence | as-written member | corrected member |
|---|---|---|---|---|---|---|
| src/index.test.ts:59-78 | The `useTranslation` unit test sets only `context.i18n` on its event (src/index.test.ts:68-70). `useTranslation` reads `event.context._i18nLocale.constructor` (src/index.ts:353-355), which throws a TypeError on `undefined`. So the test as written rejects at src/index.test.ts:78, before its expectation at :79. | The test's own event: `accept-language: ja,en`, `context: { i18n }`, with the context's locale set to the header detector bound to the event. | The emulation also stores the detector as `_i18nLocale`, as `onRequest` does (src/index.ts:137-139). `useTranslation` then returns a translate function. | high; not executed | `SetupFinding.EmulatedSetupAsWritten` (via `I18n.UseTranslation`, `DetectorMissing`) | `SetupFinding.EmulatedSetupViaOnRequest` |
