# Essentials facade — Dafny model

The `essentials` repository ships one class, `Essentials`. It bundles an application
logger, with an optional file sink, and a registry of global hotkeys that a background
listener dispatches. The class exists in two versions:

- `essentials/essentials.py`, called V1 here. The listener runs on a `threading.Thread`.
- `essentialsx/essentials.py`, called V2 here. The listener is a `GlobalHotKeys` handle.
  The debug toggle saves and restores the previous level. A second default hotkey lists
  the registry.

This project models each version as a sequential state machine over an immutable state
record. Every operation is a pure function from the old state to the new one. The
records the facade writes to its logger are appended to a `log` field. The parts both
versions share are defined once:

- `wrappers.dfy`: `Option`, `Result`, and `Completion`. A `Completion` is a state together
  with an optional exception, for calls whose side effects happen before they raise.
- `logging.dfy`: the level constants (DEBUG = 10, INFO = 20, …), the log records, the two
  exceptions that reach callers, and how the constructor obtains its logger.
- `logfile.dfy`: the logfile branch of `get_logger`. It tracks the path and a multiset of
  facade-owned file handlers, each handler represented by its path.
- `hotkeys.dfy`: callbacks (each known by its `__name__`), the registration loop of
  `register_hotkeys`, and the name listing of `get_hotkeys`.
- `essentials_v1.dfy` and `essentials_v2.dfy`: the two facades, their operations, and the
  lemmas about sequences of calls.
- `versions.dfy`: lemmas stating where the two versions differ on matching states.

Modelling choices:

- The dictionary passed to `register_hotkeys` is a sequence of bindings, so that Python's
  iteration order fixes the order of the log records. The loop is modelled on every
  sequence: when a key repeats, the last binding wins. The dictionary-shaped lemmas
  assume distinct keys, as a Python dict guarantees.
- The `log` field holds every `info`/`warning`/`error` call the facade makes. Filtering
  by the logger's level happens inside the logging library and is not modelled.
- The listener is a present/absent flag. In V1 the unread stop event is a three-valued
  signal: absent, clear, or raised.
- Python truthiness of the `logfile` argument is `Logfile.Given`: neither `None` nor `""`.
- `get_logger` takes no level argument in either version. V1's `disable_hotkeys` only
  sets an event that nothing reads. V1's toggle sets DEBUG from INFO, and INFO from any
  other level.

## Model

| member | source | states |
|---|---|---|
| Logging.AcquireAsWritten | essentials/essentials.py:33-54 | as written, obtaining the logger raises (MissingLogger) exactly when the root logger already has handlers; otherwise the level is INFO |
| Logging.InitialLevel | essentialsx/essentials.py:34-41 | as intended, an unconfigured root logger gets INFO from `basicConfig`, and a configured one keeps its level |
| Logfile.Attach | essentials/essentials.py:42-52 | no path or an empty path changes nothing; the same path again changes nothing; a different path removes the old handler and adds one for the new path; with no tracked path the handler is added; afterwards the tracked path is the argument |
| Logfile.AttachLeavesOneSink | essentialsx/essentials.py:43-53 | from consistent bookkeeping, a non-empty path leaves exactly one facade-owned handler, for that path, and none for the old path |
| Logfile.AttachIdempotent | essentialsx/essentials.py:43-53 | passing the same logfile twice is passing it once |
| Logfile.SwitchLogfile | essentialsx/essentials.py:44-53 | "a.log" then "b.log" leaves one sink, on "b.log" |
| Hotkeys.RegisterAll | essentials/essentials.py:68-72 | the key set becomes the union; keys not in the input keep their callback; the last binding for a key wins; no error record is written |
| Hotkeys.RegisterAllOverrides | essentialsx/essentials.py:69-73 | for a dictionary, the new registry is the old one overridden by the incoming map |
| Hotkeys.RegisterAllInfos | essentialsx/essentials.py:73 | one info record per incoming binding, in order, naming its callback |
| Hotkeys.RegisterAllWarnings | essentialsx/essentials.py:70-71 | for a dictionary, the warnings are exactly the incoming keys already registered, in order |
| Hotkeys.ReplacedExactly | essentials/essentials.py:69-70 | a key is warned about if and only if it is incoming and already registered |
| Hotkeys.NamesAfterRegister | essentialsx/essentials.py:106-110 | after registering a dictionary, the listing has the old and the incoming chords; incoming chords show their new callback's name and the others keep theirs |
| EssentialsV1.New | essentials/essentials.py:10-20 | the registry is exactly `<ctrl>+<alt>+d` bound to the toggle; no listener, no stop event, no logfile, no handler, no records; level INFO on an unconfigured root; the bookkeeping is valid |
| EssentialsV1.NewAsWritten | essentials/essentials.py:10-16 | construction as written succeeds if and only if the root logger has no handlers, failing with MissingLogger otherwise |
| EssentialsV1.NewAsWrittenFailsWhenConfigured | essentials/essentials.py:33-54 | the written constructor fails on a configured root logger while the intended one yields a facade at the root's level; the two agree otherwise |
| EssentialsV1.GetLogger | essentials/essentials.py:42-54 | only the file bookkeeping changes; it ends tracking the given path, and from consistent bookkeeping with exactly one handler, for that path; an absent or empty path changes nothing |
| EssentialsV1.Register | essentials/essentials.py:64-72 | with a listener, one error record is appended and nothing else changes; without one, only registry and log change, the keys become the union, and a dictionary overrides the old registry; records are only appended |
| EssentialsV1.RegisterRecords | essentials/essentials.py:68-72 | without a listener, the new records are one info per incoming key, one warning per incoming key already registered, and no error |
| EssentialsV1.Enable | essentials/essentials.py:77-84 | afterwards a listener is present; if one was present nothing changed; otherwise one info record is appended and a clear stop event exists; registry, sink and level are unchanged |
| EssentialsV1.Disable | essentials/essentials.py:89-93 | without a listener nothing changes; with one, the stop event is raised and one info record is appended, but the listener stays present |
| EssentialsV1.GetHotkeys | essentials/essentials.py:106-110 | the listing has exactly the registry's chords, each mapped to its callback's name |
| EssentialsV1.Toggle | essentials/essentials.py:116-121 | the new level is DEBUG if and only if the old one was INFO, and INFO otherwise; one info record is appended; nothing else changes |
| EssentialsV1.RunKeepsValid | essentials/essentials.py:77-93 | every sequence of calls keeps the file bookkeeping consistent and keeps the stop event present exactly when the listener is |
| EssentialsV1.FrozenAfterEnable | essentials/essentials.py:64-93 | once a listener is present, every later sequence of calls keeps it present and leaves the registry unchanged |
| EssentialsV1.EnableIdempotent | essentials/essentials.py:77-78 | enabling twice is enabling once |
| EssentialsV1.DisableBeforeEnable | essentials/essentials.py:89-90 | disabling a fresh facade changes nothing |
| EssentialsV1.DisableDoesNotReenable | essentials/essentials.py:64-93 | after enable then disable, enabling changes nothing and registering only appends an error record |
| EssentialsV1.ToggleTwice | essentials/essentials.py:118-121 | two toggles from INFO return to INFO; from any other level one toggle gives INFO and a second gives DEBUG |
| EssentialsV1.HotkeysAfterRegister | essentials/essentials.py:106-110 | after registering a dictionary on a fresh facade, the listing is the toggle chord plus the incoming chords, each with its callback's name |
| EssentialsV2.New | essentialsx/essentials.py:11-21 | the registry is exactly `<ctrl>+<alt>+d` (toggle) and `<ctrl>+<alt>+l` (display); no listener, no logfile, no handler, no previous level, no records; level INFO on an unconfigured root; valid if and only if the level is not DEBUG |
| EssentialsV2.NewAsWritten | essentialsx/essentials.py:11-16 | construction as written succeeds if and only if the root logger has no handlers, failing with MissingLogger otherwise |
| EssentialsV2.NewAsWrittenFailsWhenConfigured | essentialsx/essentials.py:34-55 | the written constructor fails on a configured root logger while the intended one yields a facade at the root's level; the two agree otherwise |
| EssentialsV2.GetLogger | essentialsx/essentials.py:43-55 | only the file bookkeeping changes; it ends tracking the given path, and from consistent bookkeeping with exactly one handler, for that path; an absent or empty path changes nothing |
| EssentialsV2.Register | essentialsx/essentials.py:65-73 | with a listener, one error record is appended and nothing else changes; without one, only registry and log change, the keys become the union, and a dictionary overrides the old registry |
| EssentialsV2.RegisterRecords | essentialsx/essentials.py:69-73 | without a listener, the new records are one info per incoming key, one warning per incoming key already registered, and no error |
| EssentialsV2.Enable | essentialsx/essentials.py:78-83 | afterwards a listener is present; if one was present nothing changed; otherwise exactly one info record is appended |
| EssentialsV2.Disable | essentialsx/essentials.py:88-93 | afterwards no listener is present; if none was, nothing changed; otherwise exactly one info record is appended; the registry is kept |
| EssentialsV2.GetHotkeys | essentialsx/essentials.py:106-110 | the listing has exactly the registry's chords, each mapped to its callback's name |
| EssentialsV2.Display | essentialsx/essentials.py:120-121 | exactly one info record is appended, a listing of the registry's chords; nothing else changes |
| EssentialsV2.Toggle | essentialsx/essentials.py:112-118 | one info record is always appended; away from DEBUG the level is recorded and DEBUG set; at DEBUG the recorded level is restored; it raises LevelNotAnInteger if and only if the level is DEBUG with nothing recorded, and then only the info record has been added |
| EssentialsV2.ToggleTwiceRestores | essentialsx/essentials.py:114-118 | two toggles starting from any level other than DEBUG restore exactly that level |
| EssentialsV2.ToggleKeepsValid | essentialsx/essentials.py:114-118 | on a valid facade the toggle does not raise and the result is valid |
| EssentialsV2.RunKeepsValid | essentialsx/essentials.py:43-121 | from a valid facade no sequence of calls raises, and validity holds after it |
| EssentialsV2.FreshFacadeNeverRaises | essentialsx/essentials.py:11-21 | a facade built on an unconfigured root logger never raises, whatever the calls |
| EssentialsV2.ToggleRaisesOnDebugRoot | essentialsx/essentials.py:118 | built on a root logger already at DEBUG, the first toggle raises |
| EssentialsV2.EnableIdempotent | essentialsx/essentials.py:78-79 | enabling twice is enabling once |
| EssentialsV2.DisableBeforeEnable | essentialsx/essentials.py:88-89 | disabling a fresh facade changes nothing |
| EssentialsV2.DisableReenables | essentialsx/essentials.py:85-93 | after enable then disable, the registry is kept, a dictionary registration is accepted, and enabling takes effect with one info record |
| EssentialsV2.HotkeysAfterRegister | essentialsx/essentials.py:106-110 | after registering a dictionary on a fresh facade, the listing is both default chords plus the incoming ones, each with its callback's name |
| Versions.DisableThenRegister | essentialsx/essentials.py:92-93 | after enable then disable, V1 rejects a registration with one more error record while V2 overrides its registry |
| Versions.ToggleTwiceDiffers | essentialsx/essentials.py:114-118 | from a level that is neither INFO nor DEBUG, two V1 toggles end at DEBUG while two V2 toggles restore the level |

## Left out

- The hotkey library: chord parsing, key-event matching, dispatch to callbacks, and
  `start`/`stop`/`join` of its listener (`_hotkey_listener`, and the `GlobalHotKeys` calls
  in V2). The listener is only a present/absent flag.
- V1's `threading.Thread`/`threading.Event` objects and their concurrency. Only the
  presence of the thread and the state of the event are kept.
- `logging.basicConfig`, `RichHandler`, message formats, and the ancestor rules of
  `hasHandlers`. Whether the root logger already has handlers is an input to the
  constructor.
- The `hasHandlers` branch of later `get_logger` calls, which can re-point `self.logger`
  at a differently named logger. That depends on library propagation rules; the model
  has one logger.
- Opening and truncating the log file in `FileHandler`, and any I/O error it raises.
  Handlers are path tokens.
- The text of the records, including the `json.dumps` formatting in `_display_hotkeys`.
  The listing is kept as a map.
- Callbacks without `__name__`, which raise AttributeError after the binding is stored.
  Every callback has a name.
- `setLevel` calls the application makes on the logger it received. Toggle contracts hold
  on every state, so the model still covers a level the application set.
- `get_hotkeys` is not an operation of `Run` in either version, because it changes no
  state.
- `setup.py`: packaging metadata only.

## Findings

| source | as written | input that shows it | evidently intended | confidence | as-written member | corrected member |
|---|---|---|---|---|---|---|
| essentials/essentials.py:33-54 | `self.logger` is assigned only when the root logger has no handlers, yet `get_logger` always returns `self.logger` | construct `Essentials()` after `logging.basicConfig()`, or construct a second `Essentials()`: the constructor's `get_logger()` raises AttributeError | assign `self.logger` in every case, so the facade uses the already-configured root logger | high; not executed | EssentialsV1.NewAsWritten, EssentialsV1.NewAsWrittenFailsWhenConfigured | EssentialsV1.New |
| essentialsx/essentials.py:34-55 | same as above, in the second version | same as above | same as above | high; not executed | EssentialsV2.NewAsWritten, EssentialsV2.NewAsWrittenFailsWhenConfigured | EssentialsV2.New |
