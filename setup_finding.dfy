/**
 * The unit test of `useTranslation` in src/index.test.ts emulates the middleware
 * by hand: it creates the core context, binds the header detector to the event
 * and attaches the context as `event.context.i18n` — but never sets
 * `event.context._i18nLocale`, which `useTranslation` reads before anything else.
 */
module SetupFinding {
  import opened Wrappers
  import opened I18n

  /** The request of the test: `accept-language: ja,en`. */
  function TestRequest(): Request
  {
    Request(map["accept-language" := "ja,en"], map[])
  }

  /**
   * The emulation as written: only `event.context.i18n` is attached, so
   * `useTranslation` rejects (a TypeError) before a translate function exists.
   */
  method EmulatedSetupAsWritten(messages: Messages, host: Host) returns (r: Result<TranslateFn, UseError>)
    ensures r == Failure(DetectorMissing)
  {
    var headerDetector := LocaleFunction(0, false);
    var context := new CoreContext(CoreOptions(FunctionLocale(headerDetector), messages));
    var e := new Event(TestRequest());
    context.locale := BoundDetector(BoundHeader(e));
    e.i18n := Some(context);
    r := UseTranslation(e, host);
  }

  /**
   * The emulation the test evidently intends, done by `onRequest` itself:
   * the detector is stored on the event as well, and `useTranslation` hands
   * back a translate function that reads the shared context.
   */
  method EmulatedSetupViaOnRequest(messages: Messages, host: Host) returns (r: Result<TranslateFn, UseError>)
    ensures r.Success? && r.value.locale == None
  {
    var headerDetector := LocaleFunction(0, false);
    var middleware := new I18nMiddleware(CoreOptions(FunctionLocale(headerDetector), messages));
    var e := new Event(TestRequest());
    middleware.OnRequest(e);
    r := UseTranslation(e, host);
  }
}
