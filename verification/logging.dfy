/** The part of the logging library the facade relies on: numeric levels, the records the
    facade writes, the exceptions that reach its callers, and how the constructor obtains
    its logger. */
module Logging {
  import opened Wrappers

  /** Numeric levels of the logging library. */
  const NOTSET: int := 0
  const DEBUG: int := 10
  const INFO: int := 20
  const WARNING: int := 30
  const ERROR: int := 40
  const CRITICAL: int := 50

  datatype Severity = Info | Warning | Error

  /** What a log record says; the text formatting of each message is not modelled. */
  datatype Message =
    | RegisterAfterEnable
    | ReplacingHotkey(key: string)
    | RegisteredHotkey(key: string, callbackName: string)
    | EnablingListener
    | DisablingListener
    | TogglingDebug
    | HotkeyListing(listing: map<string, string>)

  /** One call of `logger.info`, `logger.warning` or `logger.error` made by the facade. */
  datatype Event = Event(severity: Severity, message: Message)

  /** Exceptions that escape the facade. */
  datatype Fault =
    | MissingLogger      // AttributeError: `self.logger` was never assigned
    | LevelNotAnInteger  // TypeError raised by `setLevel(None)`

  /** The messages of the records of one severity, in the order they were written. */
  function Messages(es: seq<Event>, sev: Severity): (r: seq<Message>)
    ensures |r| <= |es|
    ensures forall m :: m in r ==> Event(sev, m) in es
  {
    if es == [] then []
    else (if es[0].severity == sev then [es[0].message] else []) + Messages(es[1..], sev)
  }

  lemma {:induction false} MessagesAppend(a: seq<Event>, b: seq<Event>, sev: Severity)
    ensures Messages(a + b, sev) == Messages(a, sev) + Messages(b, sev)
  {
    if a == [] {
      assert a + b == b;
    } else {
      assert (a + b)[0] == a[0];
      assert (a + b)[1..] == a[1..] + b;
      MessagesAppend(a[1..], b, sev);
      calc {
        Messages(a + b, sev);
        (if a[0].severity == sev then [a[0].message] else []) + Messages(a[1..] + b, sev);
        (if a[0].severity == sev then [a[0].message] else []) + (Messages(a[1..], sev) + Messages(b, sev));
        Messages(a, sev) + Messages(b, sev);
      }
    }
  }

  lemma {:induction false} MessagesAbsent(es: seq<Event>, sev: Severity)
    requires forall e :: e in es ==> e.severity != sev
    ensures Messages(es, sev) == []
  {
    if es != [] {
      assert es[0] in es;
      MessagesAbsent(es[1..], sev);
    }
  }

  /** The level of the root logger once the constructor's `get_logger()` has run:
      `basicConfig(level=INFO)` configures the root logger only when it has no handlers
      yet, otherwise the level it already had stays. This is the logger acquisition as
      evidently intended, with `self.logger` assigned in both cases. */
  function InitialLevel(rootHasHandlers: bool, rootLevel: int): (level: int)
    ensures !rootHasHandlers ==> level == INFO
    ensures rootHasHandlers ==> level == rootLevel
  {
    if rootHasHandlers then rootLevel else INFO
  }

  /** The logger acquisition as written: `self.logger` is assigned only inside the branch
      taken when the root logger has no handlers, so `return self.logger` raises
      AttributeError when it already has some. */
  function AcquireAsWritten(rootHasHandlers: bool): (r: Result<int, Fault>)
    ensures r.Success? <==> !rootHasHandlers
    ensures r.Success? ==> r.value == INFO
    ensures r.Failure? ==> r.error == MissingLogger
  {
    if rootHasHandlers then Failure(MissingLogger) else Success(INFO)
  }
}
