/**
 * The request i18n binding of src/index.ts: `defineI18nMiddleware` with its
 * `onRequest` / `onAfterResponse` hooks, the locale detector it selects, and
 * `useTranslation` with the translate wrapper it returns.
 *
 * Code outside this file (the `@intlify/core` translator and argument parser,
 * `getHeaderLocale` of `@intlify/utils`, the bodies of caller-supplied detector
 * functions) is a `Host` value of arrow-typed fields; every property below
 * holds for every host.
 */
module I18n {
  import opened Wrappers

  /** A locale-message catalog: locale -> key -> message. */
  type Messages = map<string, map<string, string>>

  /** What the foreign code can see of an HTTP request (its header and query strings). */
  datatype Request = Request(headers: map<string, string>, query: map<string, string>)

  /**
   * A caller-supplied locale detector function. `id` tells functions apart;
   * `isAsync` stands for `constructor.name === 'AsyncFunction'`, which a
   * bound copy of the function keeps.
   */
  datatype LocaleFunction = LocaleFunction(id: nat, isAsync: bool)

  /** The `locale` a fresh core context holds: a detector function, a static locale string, or nothing. */
  datatype LocaleOption = FunctionLocale(fn: LocaleFunction) | StaticLocale(tag: string) | NoLocale

  /**
   * The options handed to `defineI18nMiddleware`, as the context `createCoreContext`
   * creates from them holds them: `locale` is the created context's `locale` field.
   */
  datatype CoreOptions = CoreOptions(locale: LocaleOption, messages: Messages)

  /**
   * The per-request detector built by `getLocaleDetector`: the caller's function
   * bound to `(event, i18n)`, the static detector `() => orgLocale` bound to
   * `(event, i18n)`, or `detectLocaleFromAcceptLanguageHeader` bound to `event`.
   */
  datatype Detector =
    | BoundFunction(fn: LocaleFunction, event: Event, context: CoreContext)
    | BoundStatic(tag: string, event: Event, context: CoreContext)
    | BoundHeader(event: Event)

  /** A value of the shared `i18n.locale` field. */
  datatype LocaleSpec =
    | LocaleTag(tag: string)
    | UserFunction(fn: LocaleFunction)
    | BoundDetector(detector: Detector)
    | Unset

  /** The translate options of `@intlify/core` that matter here. */
  datatype TranslateOptions = TranslateOptions(locale: Option<string>, plural: Option<int>, defaultMsg: Option<string>)

  /** One argument after the key of a translate call. */
  datatype Arg =
    | Plural(count: int)
    | DefaultMessage(text: string)
    | ListValues(items: seq<string>)
    | NamedValues(named: map<string, string>)
    | Options(options: TranslateOptions)

  /** What the wrapper hands to `@intlify/core`'s `translate`: the shared context's state, the key, `arg2` and the options. */
  datatype TranslateCall = TranslateCall(
    contextLocale: LocaleSpec, messages: Messages, key: string, arg2: Option<Arg>, options: TranslateOptions)

  /**
   * The foreign collaborators. `detect` answers `None` when the caller's detector
   * throws (or, for an async one, rejects); `translate` answers `None` for `NOT_REOSLVED`.
   */
  datatype Host = Host(
    detect: (LocaleFunction, Request) -> Option<string>,
    headerLocale: Request -> string,
    parseOptions: (string, seq<Arg>) -> TranslateOptions,
    translate: TranslateCall -> Option<string>)

  /** The errors `useTranslation` throws. */
  datatype UseError =
    | NotInitialized   // `event.context.i18n == null`: "middleware not initialized, ..."
    | DetectorMissing  // `event.context._i18nLocale` is undefined: reading its `constructor` throws a TypeError
    | DetectorFailed   // `await localeDetector(event)` rejects: the detector's own error

  /** The function `useTranslation` returns: a closure over the event and the per-call locale. */
  datatype TranslateFn = TranslateFn(event: Event, locale: Option<string>)

  /** The shared core context: its `locale` field is written per request. */
  class CoreContext {
    var locale: LocaleSpec
    var messages: Messages

    /** `createCoreContext(options)`, as far as its `locale` and `messages` fields go. */
    constructor (options: CoreOptions)
      ensures locale == ToSpec(options.locale) && messages == options.messages
    {
      locale := ToSpec(options.locale);
      messages := options.messages;
    }
  }

  /** An h3 event: its request and the two fields of `event.context` the binding uses. */
  class Event {
    const request: Request
    var i18n: Option<CoreContext>      // event.context.i18n
    var i18nLocale: Option<Detector>   // event.context._i18nLocale
    ghost var detectorCalls: nat       // how often useTranslation invoked the event's detector

    /** A fresh event, before any hook ran: nothing is attached to its context. */
    constructor (request: Request)
      ensures this.request == request && i18n == None && i18nLocale == None && detectorCalls == 0
    {
      this.request := request;
      i18n, i18nLocale := None, None;
      detectorCalls := 0;
    }

    /** What the hooks maintain: an attached context comes with a detector. */
    predicate Consistent()
      reads this
    {
      i18n.Some? ==> i18nLocale.Some?
    }
  }

  /** The locale option as a value of the context's `locale` field. */
  function ToSpec(option: LocaleOption): LocaleSpec
  {
    match option
    case FunctionLocale(fn) => UserFunction(fn)
    case StaticLocale(tag) => LocaleTag(tag)
    case NoLocale => Unset
  }

  /** Whether `localeDetector.constructor.name === 'AsyncFunction'`: only a caller's async function is. */
  predicate IsAsync(d: Detector): (r: bool)
    ensures d.BoundStatic? || d.BoundHeader? ==> !r
    ensures d.BoundFunction? ==> (r <==> d.fn.isAsync)
  {
    d.BoundFunction? && d.fn.isAsync
  }

  /** The locale a detector returns when it is invoked, or `None` when it throws. */
  function Detect(d: Detector, host: Host): (r: Option<string>)
    ensures d.BoundStatic? ==> r == Some(d.tag)
    ensures d.BoundHeader? ==> r == Some(host.headerLocale(d.event.request))
    ensures d.BoundFunction? ==> r == host.detect(d.fn, d.event.request)
  {
    match d
    case BoundFunction(fn, e, _) => host.detect(fn, e.request)
    case BoundStatic(tag, _, _) => Some(tag)
    case BoundHeader(e) => Some(host.headerLocale(e.request))
  }

  /** `getLocaleDetector(event, i18n)`: the function case is checked first. */
  function GetLocaleDetector(orgLocale: LocaleOption, e: Event, ctx: CoreContext): (d: Detector)
    ensures d.event == e
    ensures IsAsync(d) <==> orgLocale.FunctionLocale? && orgLocale.fn.isAsync
    ensures orgLocale.FunctionLocale? ==> d == BoundFunction(orgLocale.fn, e, ctx)
    ensures orgLocale.StaticLocale? ==> d == BoundStatic(orgLocale.tag, e, ctx)
    ensures orgLocale.NoLocale? ==> d == BoundHeader(e)
  {
    match orgLocale
    case FunctionLocale(fn) => BoundFunction(fn, e, ctx)
    case StaticLocale(tag) => BoundStatic(tag, e, ctx)
    case NoLocale => BoundHeader(e)
  }

  /** The static detector answers the configured string for every event and never awaits. */
  lemma StaticDetectorIsConstant(tag: string, e1: Event, e2: Event, ctx: CoreContext, host: Host)
    ensures Detect(GetLocaleDetector(StaticLocale(tag), e1, ctx), host) == Some(tag)
    ensures Detect(GetLocaleDetector(StaticLocale(tag), e2, ctx), host) == Some(tag)
    ensures !IsAsync(GetLocaleDetector(StaticLocale(tag), e1, ctx))
  {
  }

  /** `{ locale, ...options }`: a locale the caller put in the options wins over the request's. */
  function BindOptions(requestLocale: Option<string>, options: TranslateOptions): (r: TranslateOptions)
    ensures r.locale == if options.locale.Some? then options.locale else requestLocale
    ensures r.plural == options.plural && r.defaultMsg == options.defaultMsg
  {
    if options.locale.Some? then options else options.(locale := requestLocale)
  }

  /** `const [arg2] = args`. */
  function FirstArg(args: seq<Arg>): (r: Option<Arg>)
    ensures r.Some? <==> |args| > 0
    ensures r.Some? ==> r.value == args[0]
  {
    if args == [] then None else Some(args[0])
  }

  /** The call the translate wrapper makes, reading `event.context.i18n` when it runs. */
  function CallOf(t: TranslateFn, key: string, args: seq<Arg>, host: Host): (call: TranslateCall)
    reads t.event, if t.event.i18n.Some? then {t.event.i18n.value} else {}
    requires t.event.i18n.Some?
    ensures call.contextLocale == t.event.i18n.value.locale && call.messages == t.event.i18n.value.messages
    ensures call.key == key && call.arg2 == (if |args| > 0 then Some(args[0]) else None)
    ensures call.options.locale ==
            if host.parseOptions(key, args).locale.Some? then host.parseOptions(key, args).locale else t.locale
  {
    var ctx := t.event.i18n.value;
    TranslateCall(ctx.locale, ctx.messages, key, FirstArg(args), BindOptions(t.locale, host.parseOptions(key, args)))
  }

  /** The translate wrapper `t(key, ...args)`: a key the translator cannot resolve is echoed. */
  function Translate(t: TranslateFn, key: string, args: seq<Arg>, host: Host): (message: string)
    reads t.event, if t.event.i18n.Some? then {t.event.i18n.value} else {}
    requires t.event.i18n.Some?
    ensures host.translate(CallOf(t, key, args, host)).None? ==> message == key
    ensures host.translate(CallOf(t, key, args, host)).Some? ==> message == host.translate(CallOf(t, key, args, host)).value
  {
    match host.translate(CallOf(t, key, args, host))
    case None => key
    case Some(text) => text
  }

  /**
   * `useTranslation(event)`. Only an async detector is invoked here; a sync one
   * stays in the shared context for the translator to call.
   */
  method UseTranslation(e: Event, host: Host) returns (r: Result<TranslateFn, UseError>)
    modifies e`detectorCalls, if e.i18n.Some? then {e.i18n.value} else {}
    ensures e.i18n == old(e.i18n) && e.i18nLocale == old(e.i18nLocale)
    ensures old(e.i18n).None? ==> r == Failure(NotInitialized)
    ensures old(e.i18n).Some? && old(e.i18nLocale).None? ==> r == Failure(DetectorMissing)
    ensures old(e.Consistent()) ==> r != Failure(DetectorMissing)
    ensures r == Failure(DetectorFailed) <==>
              old(e.i18n).Some? && old(e.i18nLocale).Some? &&
              IsAsync(old(e.i18nLocale).value) && Detect(old(e.i18nLocale).value, host).None?
    ensures r.Success? <==>
              old(e.i18n).Some? && old(e.i18nLocale).Some? &&
              (IsAsync(old(e.i18nLocale).value) ==> Detect(old(e.i18nLocale).value, host).Some?)
    ensures e.i18n.Some? ==> e.i18n.value.messages == old(e.i18n.value.messages)
    ensures e.detectorCalls == old(e.detectorCalls) +
              if old(e.i18n).Some? && old(e.i18nLocale).Some? && IsAsync(old(e.i18nLocale).value) then 1 else 0
    ensures r.Failure? && e.i18n.Some? ==> e.i18n.value.locale == old(e.i18n.value.locale)
    ensures r.Success? ==> r.value.event == e
    ensures r.Success? && IsAsync(e.i18nLocale.value) ==>
              var tag := Detect(e.i18nLocale.value, host).value;
              && e.i18n.value.locale == LocaleTag(tag)
              && r.value.locale == Some(tag)
    ensures r.Success? && !IsAsync(e.i18nLocale.value) ==>
              && e.i18n.value.locale == old(e.i18n.value.locale)
              && r.value.locale == None
  {
    if e.i18n.None? {
      return Failure(NotInitialized);
    }
    if e.i18nLocale.None? {
      return Failure(DetectorMissing);
    }
    var detector := e.i18nLocale.value;
    var locale: Option<string> := None;
    if IsAsync(detector) {
      e.detectorCalls := e.detectorCalls + 1;
      var answer := Detect(detector, host);
      if answer.None? {
        return Failure(DetectorFailed);
      }
      e.i18n.value.locale := LocaleTag(answer.value);
      locale := answer;
    }
    r := Success(TranslateFn(e, locale));
  }

  /** One call the host application makes, in order, for some event. */
  datatype Hook =
    | RequestHook(event: Event)
    | HandlerHook(event: Event)
    | AfterResponseHook(event: Event)

  /** The two hooks `defineI18nMiddleware` returns, over one shared context. */
  class I18nMiddleware {
    const i18n: CoreContext
    const orgLocale: LocaleOption

    /** `defineI18nMiddleware(options)`: create the shared context and capture its original locale. */
    constructor (options: CoreOptions)
      ensures fresh(i18n)
      ensures i18n.locale == ToSpec(options.locale) && i18n.messages == options.messages
      ensures orgLocale == options.locale && i18n.locale == ToSpec(orgLocale)
    {
      i18n := new CoreContext(options);
      orgLocale := options.locale;
    }

    /** `onRequest(event)`. */
    method OnRequest(e: Event)
      modifies e`i18nLocale, e`i18n, i18n`locale
      ensures e.i18nLocale == Some(GetLocaleDetector(orgLocale, e, i18n))
      ensures i18n.locale == BoundDetector(GetLocaleDetector(orgLocale, e, i18n))
      ensures e.i18n == Some(i18n)
      ensures i18n.messages == old(i18n.messages) && e.detectorCalls == old(e.detectorCalls)
      ensures e.Consistent()
    {
      e.i18nLocale := Some(GetLocaleDetector(orgLocale, e, i18n));
      i18n.locale := BoundDetector(e.i18nLocale.value);
      e.i18n := Some(i18n);
    }

    /** `onAfterResponse(event)`: `_i18nLocale` stays on the event. */
    method OnAfterResponse(e: Event)
      modifies e`i18n, i18n`locale
      ensures i18n.locale == ToSpec(orgLocale)
      ensures e.i18n == None
      ensures e.i18nLocale == old(e.i18nLocale)
      ensures i18n.messages == old(i18n.messages) && e.detectorCalls == old(e.detectorCalls)
      ensures e.Consistent()
    {
      i18n.locale := ToSpec(orgLocale);
      e.i18n := None;
    }

    /**
     * One request end to end, as the host application runs it: `onRequest`,
     * a handler that calls `useTranslation` and then `t(key, ...args)`, and
     * `onAfterResponse`. The translator sees this request's detector (or, for an
     * async one, its answer) and the message is the key when it is unresolved.
     * When an async detector fails the handler rejects and the request stops
     * there, with the context still attached.
     */
    method HandleRequest(e: Event, key: string, args: seq<Arg>, host: Host) returns (r: Result<string, UseError>)
      modifies e, i18n
      ensures
        var d := GetLocaleDetector(orgLocale, e, i18n);
        && (r.Failure? <==> IsAsync(d) && Detect(d, host).None?)
        && (r.Failure? ==> r.error == DetectorFailed && i18n.locale == BoundDetector(d) && e.i18n == Some(i18n))
        && (r.Success? ==>
              var requestLocale := if IsAsync(d) then Detect(d, host) else None;
              var contextLocale := if IsAsync(d) then LocaleTag(Detect(d, host).value) else BoundDetector(d);
              var call := TranslateCall(contextLocale, old(i18n.messages), key, FirstArg(args),
                                        BindOptions(requestLocale, host.parseOptions(key, args)));
              && r.value == (if host.translate(call).Some? then host.translate(call).value else key)
              && i18n.locale == ToSpec(orgLocale)
              && e.i18n == None)
        && e.i18nLocale == Some(d)
        && e.detectorCalls == old(e.detectorCalls) + (if IsAsync(d) then 1 else 0)
      ensures i18n.messages == old(i18n.messages)
    {
      OnRequest(e);
      var t := UseTranslation(e, host);
      if t.Failure? {
        return Failure(t.error);
      }
      var message := Translate(t.value, key, args, host);
      OnAfterResponse(e);
      r := Success(message);
    }

    /**
     * The host application driving the hooks one after another (handlers call
     * `useTranslation`): once the last hook run is an `onAfterResponse`, the
     * shared locale is the original one, whatever came before.
     */
    method Serve(hooks: seq<Hook>, host: Host)
      requires forall h :: h in hooks ==> h.event.i18n.None? || h.event.i18n == Some(i18n)
      modifies i18n, set h | h in hooks :: h.event
      ensures |hooks| > 0 && hooks[|hooks| - 1].AfterResponseHook? ==> i18n.locale == ToSpec(orgLocale)
      ensures |hooks| > 0 && hooks[|hooks| - 1].RequestHook? ==>
                i18n.locale == BoundDetector(GetLocaleDetector(orgLocale, hooks[|hooks| - 1].event, i18n))
      ensures i18n.messages == old(i18n.messages)
    {
      var k := 0;
      while k < |hooks|
        invariant 0 <= k <= |hooks|
        invariant forall h :: h in hooks ==> h.event.i18n.None? || h.event.i18n == Some(i18n)
        invariant i18n.messages == old(i18n.messages)
        invariant k > 0 && hooks[k - 1].AfterResponseHook? ==> i18n.locale == ToSpec(orgLocale)
        invariant k > 0 && hooks[k - 1].RequestHook? ==>
                    i18n.locale == BoundDetector(GetLocaleDetector(orgLocale, hooks[k - 1].event, i18n))
      {
        var e := hooks[k].event;
        match hooks[k] {
          case RequestHook(_) => OnRequest(e);
          case HandlerHook(_) => { var _ := UseTranslation(e, host); }
          case AfterResponseHook(_) => OnAfterResponse(e);
        }
        k := k + 1;
      }
    }
  }
}
