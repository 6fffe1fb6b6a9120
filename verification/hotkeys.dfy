/** The hotkey registry shared by both versions: callbacks, the registration loop of
    `register_hotkeys` and the name listing of `get_hotkeys`. */
module Hotkeys {
  import opened Logging

  /** A hotkey callback, known by what its `__name__` reports. */
  datatype Callback = ToggleDebugLogging | DisplayHotkeys | Function(name: string) {
    function Name(): string {
      match this
      case ToggleDebugLogging => "_toggle_debug_logging"
      case DisplayHotkeys => "_display_hotkeys"
      case Function(n) => n
    }
  }

  /** One entry of the dictionary handed to `register_hotkeys`. */
  datatype Binding = Binding(key: string, callback: Callback)

  /** The facade's `hotkeys` dictionary: chord string to callback. */
  type Registry = map<string, Callback>

  const ToggleChord: string := "<ctrl>+<alt>+d"
  const DisplayChord: string := "<ctrl>+<alt>+l"

  function Keys(h: seq<Binding>): set<string> {
    set i | 0 <= i < |h| :: h[i].key
  }

  /** The bindings come from a Python dictionary: no key occurs twice. */
  predicate DistinctKeys(h: seq<Binding>) {
    forall i, j :: 0 <= i < j < |h| ==> h[i].key != h[j].key
  }

  /** No later binding reuses the key of binding `i`. */
  predicate LastOccurrence(h: seq<Binding>, i: int)
    requires 0 <= i < |h|
  {
    forall j :: i < j < |h| ==> h[j].key != h[i].key
  }

  /** The incoming dictionary as a map. */
  function AsMap(h: seq<Binding>): (m: map<string, Callback>)
    requires DistinctKeys(h)
    ensures m.Keys == Keys(h)
    ensures forall i :: 0 <= i < |h| ==> m[h[i].key] == h[i].callback
  {
    map i | 0 <= i < |h| :: h[i].key := h[i].callback
  }

  /** The records `register_hotkeys` writes for a dictionary, in order: an info record per
      incoming key, naming the callback. */
  function Registrations(h: seq<Binding>): (r: seq<Message>)
    ensures |r| == |h|
  {
    seq(|h|, i requires 0 <= i < |h| => RegisteredHotkey(h[i].key, h[i].callback.Name()))
  }

  /** The incoming keys already present in `reg`, in dictionary order, as warnings. */
  function Replaced(reg: Registry, h: seq<Binding>): (r: seq<Message>)
    ensures |r| <= |h|
  {
    if h == [] then []
    else (if h[0].key in reg then [ReplacingHotkey(h[0].key)] else []) + Replaced(reg, h[1..])
  }

  lemma KeysCons(h: seq<Binding>)
    requires h != []
    ensures Keys(h) == {h[0].key} + Keys(h[1..])
  {
    forall k | k in Keys(h) ensures k in {h[0].key} + Keys(h[1..]) {
      var i :| 0 <= i < |h| && h[i].key == k;
      if i > 0 {
        assert h[1..][i - 1].key == k;
      }
    }
    forall k | k in Keys(h[1..]) ensures k in Keys(h) {
      var i :| 0 <= i < |h[1..]| && h[1..][i].key == k;
      assert h[i + 1].key == k;
    }
  }

  /** The records one pass of the loop writes for binding `b`: a warning when its key is
      already registered, then an info record naming the callback. */
  function RegisterNotice(reg: Registry, b: Binding): seq<Event> {
    (if b.key in reg then [Event(Warning, ReplacingHotkey(b.key))] else [])
    + [Event(Info, RegisteredHotkey(b.key, b.callback.Name()))]
  }

  /** The loop of `register_hotkeys` once the listener guard has passed: every incoming
      binding is stored in turn, with a warning when its key is already present and an
      info record naming the callback. Returns the new registry and the records written. */
  function RegisterAll(reg: Registry, h: seq<Binding>): (r: (Registry, seq<Event>))
    ensures r.0.Keys == reg.Keys + Keys(h)
    ensures forall k :: k in reg && k !in Keys(h) ==> r.0[k] == reg[k]
    ensures forall i :: 0 <= i < |h| && LastOccurrence(h, i) ==> r.0[h[i].key] == h[i].callback
    ensures forall e :: e in r.1 ==> e.severity != Error
    decreases |h|
  {
    if h == [] then (reg, [])
    else
      var b := h[0];
      var notice := RegisterNotice(reg, b);
      var rest := RegisterAll(reg[b.key := b.callback], h[1..]);
      KeysCons(h);
      assert forall i :: 0 < i < |h| && LastOccurrence(h, i) ==> LastOccurrence(h[1..], i - 1);
      (rest.0, notice + rest.1)
  }

  /** For a dictionary, the registry afterwards is the old one overridden by the incoming
      bindings: the keys are the union, incoming callbacks win, other entries stay. */
  lemma {:induction false} RegisterAllOverrides(reg: Registry, h: seq<Binding>)
    requires DistinctKeys(h)
    ensures RegisterAll(reg, h).0 == reg + AsMap(h)
  {
    var r := RegisterAll(reg, h).0;
    var m := AsMap(h);
    forall k | k in r
      ensures k in reg + m && r[k] == (reg + m)[k]
    {
      if k in Keys(h) {
        var i :| 0 <= i < |h| && h[i].key == k;
        assert LastOccurrence(h, i);
      }
    }
  }

  lemma RegistrationsCons(h: seq<Binding>)
    requires h != []
    ensures Registrations(h) == [RegisteredHotkey(h[0].key, h[0].callback.Name())] + Registrations(h[1..])
  {
    var rest := Registrations(h[1..]);
    assert forall i :: 1 <= i < |h| ==> Registrations(h)[i] == rest[i - 1];
  }

  /** The first step of the loop writes one info record, naming the callback. */
  lemma NoticeInfos(reg: Registry, b: Binding, rest: seq<Event>)
    ensures Messages(RegisterNotice(reg, b) + rest, Info)
            == [RegisteredHotkey(b.key, b.callback.Name())] + Messages(rest, Info)
  {
    var warn := if b.key in reg then [Event(Warning, ReplacingHotkey(b.key))] else [];
    var info := [Event(Info, RegisteredHotkey(b.key, b.callback.Name()))];
    assert Messages(warn, Info) == [];
    assert Messages(info, Info) == [RegisteredHotkey(b.key, b.callback.Name())];
    MessagesAppend(warn, info, Info);
    MessagesAppend(warn + info, rest, Info);
  }

  /** One info record per incoming binding, in dictionary order, naming its callback. */
  lemma {:induction false} RegisterAllInfos(reg: Registry, h: seq<Binding>)
    ensures Messages(RegisterAll(reg, h).1, Info) == Registrations(h)
    decreases |h|
  {
    if h != [] {
      var b := h[0];
      var rest := RegisterAll(reg[b.key := b.callback], h[1..]).1;
      assert RegisterAll(reg, h).1 == RegisterNotice(reg, b) + rest;
      NoticeInfos(reg, b, rest);
      RegisterAllInfos(reg[b.key := b.callback], h[1..]);
      RegistrationsCons(h);
    }
  }

  /** Storing a key no later binding mentions does not change which later keys warn. */
  lemma {:induction false} ReplacedIgnores(reg: Registry, k: string, c: Callback, h: seq<Binding>)
    requires k !in Keys(h)
    ensures Replaced(reg[k := c], h) == Replaced(reg, h)
    decreases |h|
  {
    if h != [] {
      KeysCons(h);
      ReplacedIgnores(reg, k, c, h[1..]);
    }
  }

  /** For a dictionary, a warning is written for exactly the incoming keys that were
      already registered, in dictionary order. */
  lemma {:induction false} RegisterAllWarnings(reg: Registry, h: seq<Binding>)
    requires DistinctKeys(h)
    ensures Messages(RegisterAll(reg, h).1, Warning) == Replaced(reg, h)
    decreases |h|
  {
    if h != [] {
      var b := h[0];
      var warn := if b.key in reg then [Event(Warning, ReplacingHotkey(b.key))] else [];
      var info := [Event(Info, RegisteredHotkey(b.key, b.callback.Name()))];
      var rest := RegisterAll(reg[b.key := b.callback], h[1..]).1;
      assert RegisterAll(reg, h).1 == warn + info + rest;
      MessagesAppend(warn + info, rest, Warning);
      MessagesAppend(warn, info, Warning);
      assert DistinctKeys(h[1..]) by {
        forall i, j | 0 <= i < j < |h[1..]| ensures h[1..][i].key != h[1..][j].key {
          assert h[1..][i] == h[i + 1] && h[1..][j] == h[j + 1];
        }
      }
      RegisterAllWarnings(reg[b.key := b.callback], h[1..]);
      assert b.key !in Keys(h[1..]) by {
        forall j | 0 <= j < |h[1..]| ensures h[1..][j].key != b.key {
          assert h[1..][j] == h[j + 1];
        }
      }
      ReplacedIgnores(reg, b.key, b.callback, h[1..]);
    }
  }

  /** The warned keys, as a set: those incoming keys that were already registered. */
  lemma {:induction false} ReplacedExactly(reg: Registry, h: seq<Binding>, k: string)
    ensures ReplacingHotkey(k) in Replaced(reg, h) <==> k in reg && k in Keys(h)
    decreases |h|
  {
    if h != [] {
      KeysCons(h);
      ReplacedExactly(reg, h[1..], k);
    }
  }

  /** `get_hotkeys`: each registered chord mapped to its callback's name. */
  function Names(reg: Registry): (r: map<string, string>)
    ensures r.Keys == reg.Keys
    ensures forall k :: k in r ==> r[k] == reg[k].Name()
  {
    map k | k in reg :: reg[k].Name()
  }

  /** After registering a dictionary, the listing holds the old chords and the incoming
      ones; incoming chords list their new callback, the others keep their old name. */
  lemma NamesAfterRegister(reg: Registry, h: seq<Binding>)
    requires DistinctKeys(h)
    ensures Names(RegisterAll(reg, h).0).Keys == reg.Keys + Keys(h)
    ensures forall i :: 0 <= i < |h| ==>
              Names(RegisterAll(reg, h).0)[h[i].key] == h[i].callback.Name()
    ensures forall k :: k in reg && k !in Keys(h) ==>
              Names(RegisterAll(reg, h).0)[k] == Names(reg)[k]
  {
    RegisterAllOverrides(reg, h);
  }
}
