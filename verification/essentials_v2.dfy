/** The second version of the `Essentials` facade: the listener is a `GlobalHotKeys`
    handle that disabling clears, the debug toggle saves and restores the previous level,
    and a second default hotkey lists the registry. */
module EssentialsV2 {
  import opened Wrappers
  import opened Logging
  import opened Logfile
  import opened Hotkeys

  datatype Facade = Facade(
    hotkeys: Registry,        // `_hotkeys`
    listener: bool,           // `_hotkey_thread` is set
    sink: FileSink,           // `_logfile` and `_logfile_handler`
    level: int,               // the logger's own level
    previous: Option<int>,    // `_previous_log_level`
    log: seq<Event>)          // every record the facade has written so far

  /** The bookkeeping every operation keeps: the file sink is consistent, the recorded
      level is never DEBUG, and a level of DEBUG always has a level to return to. */
  predicate Valid(s: Facade) {
    && Consistent(s.sink)
    && (s.previous.Some? ==> s.previous.value != DEBUG)
    && (s.level == DEBUG ==> s.previous.Some?)
  }

  const Defaults: Registry := map[ToggleChord := ToggleDebugLogging, DisplayChord := DisplayHotkeys]

  /** `Essentials()` as evidently intended: the logger is obtained whether or not the root
      logger was configured before. */
  function New(rootHasHandlers: bool, rootLevel: int): (r: Facade)
    ensures r.hotkeys.Keys == {ToggleChord, DisplayChord}
    ensures r.hotkeys[ToggleChord] == ToggleDebugLogging && r.hotkeys[DisplayChord] == DisplayHotkeys
    ensures !r.listener && r.previous == None && r.log == []
    ensures r.sink.logfile == None && r.sink.handlers == multiset{}
    ensures !rootHasHandlers ==> r.level == INFO
    ensures Valid(r) <==> r.level != DEBUG
  {
    Facade(Defaults, false, NoSink, InitialLevel(rootHasHandlers, rootLevel), None, [])
  }

  /** `Essentials()` as written: construction raises when the root logger already has
      handlers, because `self.logger` is then never assigned. */
  function NewAsWritten(rootHasHandlers: bool): (r: Result<Facade, Fault>)
    ensures r.Success? <==> !rootHasHandlers
    ensures r.Failure? ==> r.error == MissingLogger
    ensures r.Success? ==> r.value.level == INFO && r.value.hotkeys.Keys == {ToggleChord, DisplayChord}
  {
    match AcquireAsWritten(rootHasHandlers)
    case Failure(e) => Failure(e)
    case Success(level) => Success(Facade(Defaults, false, NoSink, level, None, []))
  }

  /** The written constructor fails on a configured root logger, where the intended one
      yields a facade; where the written one succeeds, both agree. */
  lemma NewAsWrittenFailsWhenConfigured(rootLevel: int)
    ensures NewAsWritten(true) == Failure(MissingLogger)
    ensures New(true, rootLevel).level == rootLevel
    ensures NewAsWritten(false) == Success(New(false, rootLevel))
  {
  }

  /** `get_logger(logfile=...)`: only the file-sink bookkeeping changes. */
  function GetLogger(s: Facade, logfile: Option<string>): (r: Facade)
    ensures r.(sink := s.sink) == s
    ensures !Given(logfile) ==> r == s
    ensures Given(logfile) ==> r.sink.logfile == logfile
    ensures Consistent(s.sink) && Given(logfile) ==> r.sink.handlers == multiset{logfile.value}
    ensures Valid(s) ==> Valid(r)
  {
    s.(sink := Attach(s.sink, logfile))
  }

  /** `register_hotkeys(h)`. */
  function Register(s: Facade, h: seq<Binding>): (r: Facade)
    ensures s.listener ==> r == s.(log := s.log + [Event(Error, RegisterAfterEnable)])
    ensures !s.listener ==> r == s.(hotkeys := r.hotkeys, log := r.log)
    ensures !s.listener ==> r.hotkeys.Keys == s.hotkeys.Keys + Keys(h)
    ensures !s.listener && DistinctKeys(h) ==> r.hotkeys == s.hotkeys + AsMap(h)
    ensures s.log <= r.log
  {
    if s.listener then s.(log := s.log + [Event(Error, RegisterAfterEnable)])
    else
      var (reg, events) := RegisterAll(s.hotkeys, h);
      assert DistinctKeys(h) ==> reg == s.hotkeys + AsMap(h) by {
        if DistinctKeys(h) {
          RegisterAllOverrides(s.hotkeys, h);
        }
      }
      s.(hotkeys := reg, log := s.log + events)
  }

  /** With no listener, the records `register_hotkeys` writes for a dictionary are a
      warning for each incoming key already registered, an info record for every incoming
      key, and no error. */
  lemma RegisterRecords(s: Facade, h: seq<Binding>)
    requires !s.listener && DistinctKeys(h)
    ensures Messages(Register(s, h).log[|s.log|..], Info) == Registrations(h)
    ensures Messages(Register(s, h).log[|s.log|..], Warning) == Replaced(s.hotkeys, h)
    ensures Messages(Register(s, h).log[|s.log|..], Error) == []
  {
    var events := RegisterAll(s.hotkeys, h).1;
    assert Register(s, h).log[|s.log|..] == events;
    RegisterAllInfos(s.hotkeys, h);
    RegisterAllWarnings(s.hotkeys, h);
    MessagesAbsent(events, Error);
  }

  /** `enable_hotkeys()`. */
  function Enable(s: Facade): (r: Facade)
    ensures r.listener
    ensures s.listener ==> r == s
    ensures !s.listener ==> r.log == s.log + [Event(Info, EnablingListener)]
    ensures r.(listener := s.listener, log := s.log) == s
  {
    if s.listener then s
    else s.(listener := true, log := s.log + [Event(Info, EnablingListener)])
  }

  /** `disable_hotkeys()`: stops the listener and clears its handle; the registry stays. */
  function Disable(s: Facade): (r: Facade)
    ensures !r.listener
    ensures !s.listener ==> r == s
    ensures s.listener ==> r.log == s.log + [Event(Info, DisablingListener)]
    ensures r.(listener := s.listener, log := s.log) == s
  {
    if !s.listener then s
    else s.(listener := false, log := s.log + [Event(Info, DisablingListener)])
  }

  /** `get_hotkeys()`. */
  function GetHotkeys(s: Facade): (r: map<string, string>)
    ensures r.Keys == s.hotkeys.Keys
    ensures forall k :: k in r ==> r[k] == s.hotkeys[k].Name()
  {
    Names(s.hotkeys)
  }

  /** `_display_hotkeys()`: one info record listing the registry; nothing else changes. */
  function Display(s: Facade): (r: Facade)
    ensures r.(log := s.log) == s
    ensures |r.log| == |s.log| + 1 && r.log[..|s.log|] == s.log
    ensures r.log[|s.log|].severity == Info
    ensures r.log[|s.log|].message.HotkeyListing?
    ensures r.log[|s.log|].message.listing.Keys == s.hotkeys.Keys
    ensures forall k :: k in r.log[|s.log|].message.listing ==>
              r.log[|s.log|].message.listing[k] == s.hotkeys[k].Name()
  {
    s.(log := s.log + [Event(Info, HotkeyListing(GetHotkeys(s)))])
  }

  /** `_toggle_debug_logging()`: away from DEBUG it records the level and sets DEBUG; at
      DEBUG it restores the recorded level, and raises when none was recorded. The info
      record is written before the level changes, so it stays when the call raises. */
  function Toggle(s: Facade): (r: Completion<Facade, Fault>)
    ensures r.state.log == s.log + [Event(Info, TogglingDebug)]
    ensures r.state.(level := s.level, previous := s.previous, log := s.log) == s
    ensures s.level != DEBUG ==> r.Normal? && r.state.level == DEBUG && r.state.previous == Some(s.level)
    ensures s.level == DEBUG && s.previous.Some? ==>
              r.Normal? && r.state.level == s.previous.value && r.state.previous == s.previous
    ensures r.Abrupt? <==> s.level == DEBUG && s.previous == None
    ensures r.Abrupt? ==> r.fault == LevelNotAnInteger && r.state == s.(log := s.log + [Event(Info, TogglingDebug)])
  {
    var noted := s.(log := s.log + [Event(Info, TogglingDebug)]);
    if s.level != DEBUG then Normal(noted.(previous := Some(s.level), level := DEBUG))
    else match s.previous
      case None => Abrupt(noted, LevelNotAnInteger)
      case Some(p) => Normal(noted.(level := p))
  }

  /** Two toggles starting away from DEBUG restore exactly the starting level. */
  lemma ToggleTwiceRestores(s: Facade)
    requires s.level != DEBUG
    ensures Toggle(s).Normal? && Toggle(Toggle(s).state).Normal?
    ensures Toggle(Toggle(s).state).state.level == s.level
  {
  }

  /** On a valid facade the toggle never raises and the result is valid again. */
  lemma ToggleKeepsValid(s: Facade)
    requires Valid(s)
    ensures Toggle(s).Normal? && Valid(Toggle(s).state)
  {
  }

  /** The operations a caller can perform on the facade. */
  datatype Op =
    | CallGetLogger(logfile: Option<string>)
    | CallRegister(bindings: seq<Binding>)
    | CallEnable
    | CallDisable
    | CallToggle
    | CallDisplay

  function Apply(s: Facade, op: Op): (r: Completion<Facade, Fault>)
    ensures s.log <= r.state.log
    ensures !op.CallToggle? ==> r.Normal?
  {
    match op
    case CallGetLogger(p) => Normal(GetLogger(s, p))
    case CallRegister(h) => Normal(Register(s, h))
    case CallEnable => Normal(Enable(s))
    case CallDisable => Normal(Disable(s))
    case CallToggle => Toggle(s)
    case CallDisplay => Normal(Display(s))
  }

  /** The facade after a sequence of calls, stopping at the first one that raises.
      Records are only ever appended. */
  function Run(s: Facade, ops: seq<Op>): (r: Completion<Facade, Fault>)
    ensures s.log <= r.state.log
    decreases |ops|
  {
    if ops == [] then Normal(s)
    else match Apply(s, ops[0])
      case Abrupt(t, e) => Abrupt(t, e)
      case Normal(t) => Run(t, ops[1..])
  }

  /** From a valid facade no sequence of calls raises, and validity is kept throughout. */
  lemma {:induction false} RunKeepsValid(s: Facade, ops: seq<Op>)
    requires Valid(s)
    ensures Run(s, ops).Normal? && Valid(Run(s, ops).state)
    decreases |ops|
  {
    if ops != [] {
      if ops[0].CallToggle? {
        ToggleKeepsValid(s);
      }
      var t := Apply(s, ops[0]);
      assert t.Normal? && Valid(t.state);
      RunKeepsValid(t.state, ops[1..]);
    }
  }

  /** A facade built on an unconfigured root logger never raises from its toggle. */
  lemma FreshFacadeNeverRaises(rootLevel: int, ops: seq<Op>)
    ensures Run(New(false, rootLevel), ops).Normal?
  {
    RunKeepsValid(New(false, rootLevel), ops);
  }

  /** Built on a root logger already at DEBUG, the first toggle raises. */
  lemma ToggleRaisesOnDebugRoot()
    ensures Toggle(New(true, DEBUG)).Abrupt?
  {
  }

  /** Enabling twice is enabling once. */
  lemma EnableIdempotent(s: Facade)
    ensures Enable(Enable(s)) == Enable(s)
  {
  }

  /** Disabling before any enable does nothing. */
  lemma DisableBeforeEnable(rootHasHandlers: bool, rootLevel: int)
    ensures Disable(New(rootHasHandlers, rootLevel)) == New(rootHasHandlers, rootLevel)
  {
  }

  /** After enable then disable the registry is kept, a registration is accepted again
      and a new enable takes effect. */
  lemma DisableReenables(s: Facade, h: seq<Binding>)
    requires DistinctKeys(h)
    ensures var d := Disable(Enable(s));
            && d.hotkeys == s.hotkeys
            && Register(d, h).hotkeys == s.hotkeys + AsMap(h)
            && Enable(d).listener && Enable(d).log == d.log + [Event(Info, EnablingListener)]
  {
  }

  /** After registering a dictionary on a fresh facade, `get_hotkeys` lists both default
      chords and every incoming chord, each with its callback's name. */
  lemma HotkeysAfterRegister(rootHasHandlers: bool, rootLevel: int, h: seq<Binding>)
    requires DistinctKeys(h)
    ensures var r := GetHotkeys(Register(New(rootHasHandlers, rootLevel), h));
            && r.Keys == {ToggleChord, DisplayChord} + Keys(h)
            && (forall i :: 0 <= i < |h| ==> r[h[i].key] == h[i].callback.Name())
            && (ToggleChord !in Keys(h) ==> r[ToggleChord] == "_toggle_debug_logging")
            && (DisplayChord !in Keys(h) ==> r[DisplayChord] == "_display_hotkeys")
  {
  }
}
