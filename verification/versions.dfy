/** Where the two versions of the facade part ways, stated on matching states. */
module Versions {
  import opened Logging
  import opened Hotkeys
  import V1 = EssentialsV1
  import V2 = EssentialsV2

  /** A first-version and a second-version facade that agree on everything both have. */
  predicate Matching(a: V1.Facade, b: V2.Facade) {
    && a.hotkeys == b.hotkeys
    && a.listener == b.listener
    && a.sink == b.sink
    && a.level == b.level
    && a.log == b.log
  }

  /** Enable then disable: the first version still rejects a registration, leaving its
      registry as it was and writing one more error record; the second accepts it. */
  lemma DisableThenRegister(a: V1.Facade, b: V2.Facade, h: seq<Binding>)
    requires Matching(a, b) && DistinctKeys(h)
    ensures V1.Register(V1.Disable(V1.Enable(a)), h).hotkeys == a.hotkeys
    ensures V2.Register(V2.Disable(V2.Enable(b)), h).hotkeys == b.hotkeys + AsMap(h)
    ensures Messages(V1.Register(V1.Disable(V1.Enable(a)), h).log, Error)
            == Messages(a.log, Error) + [RegisterAfterEnable]
  {
    var d := V1.Disable(V1.Enable(a));
    var e := if a.listener then [] else [Event(Info, EnablingListener)];
    var tail := e + [Event(Info, DisablingListener)];
    assert d.listener && d.log == a.log + tail;
    MessagesAppend(a.log, tail, Error);
    MessagesAbsent(tail, Error);
    assert V1.Register(d, h).log == d.log + [Event(Error, RegisterAfterEnable)];
    MessagesAppend(d.log, [Event(Error, RegisterAfterEnable)], Error);
    var d2 := V2.Disable(V2.Enable(b));
    assert !d2.listener && d2.hotkeys == b.hotkeys;
  }

  /** From a level that is neither INFO nor DEBUG, two toggles lose the level in the first
      version (it ends at DEBUG) and restore it in the second. */
  lemma ToggleTwiceDiffers(a: V1.Facade, b: V2.Facade)
    requires Matching(a, b) && a.level != INFO && a.level != DEBUG
    ensures V1.Toggle(V1.Toggle(a)).level == DEBUG
    ensures V2.Toggle(b).Normal? && V2.Toggle(V2.Toggle(b).state).state.level == a.level
  {
  }
}
