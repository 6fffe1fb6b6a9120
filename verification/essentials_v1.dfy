/** The first version of the `Essentials` facade: the hotkey listener runs on a
    `threading.Thread` that disabling never clears. */
module EssentialsV1 {
  import opened Wrappers
  import opened Logging
  import opened Logfile
  import opened Hotkeys

  /** State of `hotkey_thread_stop_event`: absent, created unset, or set. The listener
      never reads it. */
  datatype StopSignal = NoSignal | Clear | Raised

  datatype Facade = Facade(
    hotkeys: Registry,   // the `hotkeys` dictionary
    listener: bool,      // `hotkey_thread` is set
    stop: StopSignal,    // `hotkey_thread_stop_event`
    sink: FileSink,      // `logfile` and `logfile_handler`
    level: int,          // the logger's own level
    log: seq<Event>)     // every record the facade has written so far

  /** The bookkeeping every operation keeps: the file sink is consistent, and a stop
      signal exists exactly when the listener thread does. */
  predicate Valid(s: Facade) {
    && Consistent(s.sink)
    && (s.listener <==> s.stop != NoSignal)
  }

  /** `Essentials()` as evidently intended: the logger is obtained whether or not the root
      logger was configured before. */
  function New(rootHasHandlers: bool, rootLevel: int): (r: Facade)
    ensures r.hotkeys.Keys == {ToggleChord} && r.hotkeys[ToggleChord] == ToggleDebugLogging
    ensures !r.listener && r.stop == NoSignal
    ensures r.sink.logfile == None && r.sink.handlers == multiset{}
    ensures r.log == []
    ensures !rootHasHandlers ==> r.level == INFO
    ensures Valid(r)
  {
    Facade(map[ToggleChord := ToggleDebugLogging], false, NoSignal, NoSink,
           InitialLevel(rootHasHandlers, rootLevel), [])
  }

  /** `Essentials()` as written: construction raises when the root logger already has
      handlers, because `self.logger` is then never assigned. */
  function NewAsWritten(rootHasHandlers: bool): (r: Result<Facade, Fault>)
    ensures r.Success? <==> !rootHasHandlers
    ensures r.Failure? ==> r.error == MissingLogger
    ensures r.Success? ==> r.value.level == INFO && r.value.hotkeys.Keys == {ToggleChord}
  {
    match AcquireAsWritten(rootHasHandlers)
    case Failure(e) => Failure(e)
    case Success(level) =>
      Success(Facade(map[ToggleChord := ToggleDebugLogging], false, NoSignal, NoSink, level, []))
  }

  /** The written constructor fails on a configured root logger, where the intended one
      yields a facade; where the written one succeeds, both agree. */
  lemma NewAsWrittenFailsWhenConfigured(rootLevel: int)
    ensures NewAsWritten(true) == Failure(MissingLogger)
    ensures New(true, rootLevel).level == rootLevel
    ensures NewAsWritten(false) == Success(New(false, rootLevel))
  {
  }

  /** `get_logger(logfile=...)`: only the file-sink bookkeeping changes. */
  function GetLogger(s: Facade, logfile: Option<string>): (r: Facade)
    ensures r.(sink := s.sink) == s
    ensures !Given(logfile) ==> r == s
    ensures Given(logfile) ==> r.sink.logfile == logfile
    ensures Consistent(s.sink) && Given(logfile) ==> r.sink.handlers == multiset{logfile.value}
    ensures Valid(s) ==> Valid(r)
  {
    s.(sink := Attach(s.sink, logfile))
  }

  /** `register_hotkeys(h)`. */
  function Register(s: Facade, h: seq<Binding>): (r: Facade)
    ensures s.listener ==> r == s.(log := s.log + [Event(Error, RegisterAfterEnable)])
    ensures !s.listener ==> r == s.(hotkeys := r.hotkeys, log := r.log)
    ensures !s.listener ==> r.hotkeys.Keys == s.hotkeys.Keys + Keys(h)
    ensures !s.listener && DistinctKeys(h) ==> r.hotkeys == s.hotkeys + AsMap(h)
    ensures s.log <= r.log
  {
    if s.listener then s.(log := s.log + [Event(Error, RegisterAfterEnable)])
    else
      var (reg, events) := RegisterAll(s.hotkeys, h);
      assert DistinctKeys(h) ==> reg == s.hotkeys + AsMap(h) by {
        if DistinctKeys(h) {
          RegisterAllOverrides(s.hotkeys, h);
        }
      }
      s.(hotkeys := reg, log := s.log + events)
  }

  /** With no listener, the records `register_hotkeys` writes for a dictionary are a
      warning for each incoming key already registered, an info record for every incoming
      key, and no error. */
  lemma RegisterRecords(s: Facade, h: seq<Binding>)
    requires !s.listener && DistinctKeys(h)
    ensures Messages(Register(s, h).log[|s.log|..], Info) == Registrations(h)
    ensures Messages(Register(s, h).log[|s.log|..], Warning) == Replaced(s.hotkeys, h)
    ensures Messages(Register(s, h).log[|s.log|..], Error) == []
  {
    var events := RegisterAll(s.hotkeys, h).1;
    assert Register(s, h).log[|s.log|..] == events;
    RegisterAllInfos(s.hotkeys, h);
    RegisterAllWarnings(s.hotkeys, h);
    MessagesAbsent(events, Error);
  }

  /** `enable_hotkeys()`. */
  function Enable(s: Facade): (r: Facade)
    ensures r.listener
    ensures s.listener ==> r == s
    ensures !s.listener ==> r.stop == Clear && r.log == s.log + [Event(Info, EnablingListener)]
    ensures r.hotkeys == s.hotkeys && r.sink == s.sink && r.level == s.level
  {
    if s.listener then s
    else s.(listener := true, stop := Clear, log := s.log + [Event(Info, EnablingListener)])
  }

  /** `disable_hotkeys()`: sets the stop signal but keeps the thread handle. */
  function Disable(s: Facade): (r: Facade)
    ensures !s.listener ==> r == s
    ensures s.listener ==> r.listener && r.stop == Raised
    ensures s.listener ==> r.log == s.log + [Event(Info, DisablingListener)]
    ensures r.hotkeys == s.hotkeys && r.sink == s.sink && r.level == s.level
  {
    if !s.listener then s
    else s.(stop := Raised, log := s.log + [Event(Info, DisablingListener)])
  }

  /** `get_hotkeys()`. */
  function GetHotkeys(s: Facade): (r: map<string, string>)
    ensures r.Keys == s.hotkeys.Keys
    ensures forall k :: k in r ==> r[k] == s.hotkeys[k].Name()
  {
    Names(s.hotkeys)
  }

  /** `_toggle_debug_logging()`: DEBUG when the level is INFO, INFO otherwise. */
  function Toggle(s: Facade): (r: Facade)
    ensures r.level == DEBUG <==> s.level == INFO
    ensures r.level == INFO <==> s.level != INFO
    ensures r.log == s.log + [Event(Info, TogglingDebug)]
    ensures r.(level := s.level, log := s.log) == s
  {
    s.(level := if s.level == INFO then DEBUG else INFO,
       log := s.log + [Event(Info, TogglingDebug)])
  }

  /** The operations a caller can perform on the facade. */
  datatype Op =
    | CallGetLogger(logfile: Option<string>)
    | CallRegister(bindings: seq<Binding>)
    | CallEnable
    | CallDisable
    | CallToggle

  function Apply(s: Facade, op: Op): (r: Facade)
    ensures s.log <= r.log
  {
    match op
    case CallGetLogger(p) => GetLogger(s, p)
    case CallRegister(h) => Register(s, h)
    case CallEnable => Enable(s)
    case CallDisable => Disable(s)
    case CallToggle => Toggle(s)
  }

  /** The facade after a sequence of calls. Records are only ever appended. */
  function Run(s: Facade, ops: seq<Op>): (r: Facade)
    ensures s.log <= r.log
    decreases |ops|
  {
    if ops == [] then s else Run(Apply(s, ops[0]), ops[1..])
  }

  /** Every operation keeps the bookkeeping consistent. */
  lemma {:induction false} RunKeepsValid(s: Facade, ops: seq<Op>)
    requires Valid(s)
    ensures Valid(Run(s, ops))
    decreases |ops|
  {
    if ops != [] {
      var t := Apply(s, ops[0]);
      assert Valid(t);
      RunKeepsValid(t, ops[1..]);
    }
  }

  /** Once the listener has been enabled, it is present for good and the registry never
      changes again, whatever the caller does: `disable_hotkeys` does not clear the thread
      handle, so every later `register_hotkeys` is rejected. */
  lemma {:induction false} FrozenAfterEnable(s: Facade, ops: seq<Op>)
    requires s.listener
    ensures Run(s, ops).listener
    ensures Run(s, ops).hotkeys == s.hotkeys
    decreases |ops|
  {
    if ops != [] {
      var t := Apply(s, ops[0]);
      assert t.listener && t.hotkeys == s.hotkeys;
      FrozenAfterEnable(t, ops[1..]);
    }
  }

  /** Enabling twice is enabling once. */
  lemma EnableIdempotent(s: Facade)
    ensures Enable(Enable(s)) == Enable(s)
  {
  }

  /** Disabling before any enable does nothing. */
  lemma DisableBeforeEnable(rootHasHandlers: bool, rootLevel: int)
    ensures Disable(New(rootHasHandlers, rootLevel)) == New(rootHasHandlers, rootLevel)
  {
  }

  /** After enable then disable, a new enable does nothing and a registration is rejected
      with one error record. */
  lemma DisableDoesNotReenable(s: Facade, h: seq<Binding>)
    ensures var d := Disable(Enable(s));
            && Enable(d) == d
            && Register(d, h) == d.(log := d.log + [Event(Error, RegisterAfterEnable)])
  {
  }

  /** Two toggles from INFO come back to INFO; one toggle from any other level gives INFO. */
  lemma ToggleTwice(s: Facade)
    ensures s.level == INFO ==> Toggle(Toggle(s)).level == INFO
    ensures s.level != INFO ==> Toggle(s).level == INFO && Toggle(Toggle(s)).level == DEBUG
  {
  }

  /** After registering a dictionary on a fresh facade, `get_hotkeys` lists the default
      chord and every incoming chord, each with its callback's name. */
  lemma HotkeysAfterRegister(rootHasHandlers: bool, rootLevel: int, h: seq<Binding>)
    requires DistinctKeys(h)
    ensures var r := GetHotkeys(Register(New(rootHasHandlers, rootLevel), h));
            && r.Keys == {ToggleChord} + Keys(h)
            && (forall i :: 0 <= i < |h| ==> r[h[i].key] == h[i].callback.Name())
            && (ToggleChord !in Keys(h) ==> r[ToggleChord] == "_toggle_debug_logging")
  {
  }
}
