/**
 * The incremental engine of the `tablet-mode-keyboard` binary: it keeps a
 * running count of the keyboards libinput reports as added and removed, and
 * writes the tablet-mode switch of the virtual device only when that count
 * crosses between 0 and 1.
 *
 * libinput is abstracted as a sequence of events; the values written to the
 * switch are returned.
 */
module TabletModeKeyboard {
  import opened Wrappers

  /** A libinput device, as far as the keyboard test looks at it. */
  datatype Device = Device(hasKeyboardCapability: bool, name: string)

  datatype DeviceEventKind = Added | Removed | OtherDeviceEvent

  /** A libinput event: a device event, or any other kind of event. */
  datatype Event = DeviceEvent(kind: DeviceEventKind, device: Device) | OtherEvent

  /** Devices with the keyboard capability that are not external keyboards. */
  const NAME_BLACKLIST: seq<string> := [
    "Video Bus",
    "Power Button",
    "Legion-Controller 1-B0 Keyboard",
    "Ideapad extra buttons",
    "AT Translated Set 2 keyboard"
  ]

  /** A device counts as a keyboard: it has the keyboard capability and its
      name is not blacklisted. */
  predicate KeyboardDevice(d: Device)
    ensures KeyboardDevice(d) <==>
      d.hasKeyboardCapability && forall i | 0 <= i < |NAME_BLACKLIST| :: d.name != NAME_BLACKLIST[i]
  {
    d.hasKeyboardCapability && d.name !in NAME_BLACKLIST
  }

  /** The keyboard test, building the blacklist as a set first. */
  method IsKeyboard(device: Device) returns (isKeyboard: bool)
    ensures isKeyboard == KeyboardDevice(device)
  {
    var hasCap := device.hasKeyboardCapability;
    var name := device.name;
    var blacklist: set<string> := {};
    for i := 0 to |NAME_BLACKLIST|
      invariant forall s :: s in blacklist <==> s in NAME_BLACKLIST[..i]
    {
      assert NAME_BLACKLIST[..i + 1] == NAME_BLACKLIST[..i] + [NAME_BLACKLIST[i]];
      blacklist := blacklist + {NAME_BLACKLIST[i]};
    }
    assert NAME_BLACKLIST[..|NAME_BLACKLIST|] == NAME_BLACKLIST;
    isKeyboard := hasCap && name !in blacklist;
  }

  /** The change an event makes to the keyboard count. */
  function Delta(e: Event): (delta: int)
    ensures -1 <= delta <= 1
    ensures delta != 0 ==> e.DeviceEvent? && KeyboardDevice(e.device)
  {
    match e
    case DeviceEvent(kind, device) =>
      if KeyboardDevice(device) then
        match kind
        case Added => 1
        case Removed => -1
        case OtherDeviceEvent => 0
      else 0
    case OtherEvent => 0
  }

  /** The switch value written when the count moves from `n` to `next`:
      0 (tablet mode off) on 0 to 1, 1 (tablet mode on) on 1 to 0. */
  function Edge(n: int, next: int): (mode: Option<int>)
    ensures mode.Some? <==> (n == 0 && next == 1) || (n == 1 && next == 0)
    ensures mode.Some? ==> mode.value == (if next == 0 then 1 else 0)
  {
    if n == 0 && next == 1 then Some(0)
    else if n == 1 && next == 0 then Some(1)
    else None
  }

  /** The count after `events`, starting from `n0`; it is never clamped. */
  function Count(n0: int, events: seq<Event>): int {
    if events == [] then n0 else Count(n0, events[..|events| - 1]) + Delta(events[|events| - 1])
  }

  /** The switch values written over `events`, starting from count `n0`. */
  function Emissions(n0: int, events: seq<Event>): seq<int> {
    if events == [] then []
    else
      var prefix := events[..|events| - 1];
      var n := Count(n0, prefix);
      Emissions(n0, prefix) +
        match Edge(n, n + Delta(events[|events| - 1]))
        case Some(value) => [value]
        case None => []
  }

  /** Number of events that add (or remove) a keyboard. */
  function KeyboardEvents(events: seq<Event>, kind: DeviceEventKind): nat {
    if events == [] then 0
    else
      var e := events[|events| - 1];
      KeyboardEvents(events[..|events| - 1], kind) +
        if e.DeviceEvent? && e.kind == kind && KeyboardDevice(e.device) then 1 else 0
  }

  /** The event loop's state: the number of keyboards seen. */
  class TabletModeCounter {
    var nKeyboards: int

    constructor ()
      ensures nKeyboards == 0
    {
      nKeyboards := 0;
    }

    /** One libinput event: update the count and say what to write to the
        switch, if anything. */
    method Step(event: Event) returns (mode: Option<int>)
      modifies this
      ensures nKeyboards == old(nKeyboards) + Delta(event)
      ensures mode == Some(0) <==> old(nKeyboards) == 0 && nKeyboards == 1
      ensures mode == Some(1) <==> old(nKeyboards) == 1 && nKeyboards == 0
      ensures mode.Some? ==> mode == Some(0) || mode == Some(1)
    {
      var delta := 0;
      match event {
        case DeviceEvent(kind, device) =>
          var keyboard := IsKeyboard(device);
          if keyboard {
            match kind {
              case Added => delta := 1;
              case Removed => delta := -1;
              case OtherDeviceEvent =>
            }
          }
        case OtherEvent =>
      }
      var next := nKeyboards + delta;
      if nKeyboards == 0 && next == 1 {
        mode := Some(0);
      } else if nKeyboards == 1 && next == 0 {
        mode := Some(1);
      } else {
        mode := None;
      }
      nKeyboards := next;
    }
  }

  /** The main loop over a finite event stream: the values written to the
      tablet-mode switch and the final count. */
  method MainLoop(events: seq<Event>) returns (written: seq<int>, nKeyboards: int)
    ensures written == Emissions(0, events)
    ensures nKeyboards == Count(0, events)
  {
    var counter := new TabletModeCounter();
    written := [];
    for i := 0 to |events|
      invariant counter.nKeyboards == Count(0, events[..i])
      invariant written == Emissions(0, events[..i])
    {
      assert events[..i + 1][..i] == events[..i];
      var mode := counter.Step(events[i]);
      if mode.Some? {
        written := written + [mode.value];
      }
    }
    assert events[..|events|] == events;
    nKeyboards := counter.nKeyboards;
  }

  /** The count is the number of keyboards added minus the number removed. */
  lemma {:induction false} CountIsAddedMinusRemoved(n0: int, events: seq<Event>)
    ensures Count(n0, events) == n0 + KeyboardEvents(events, Added) - KeyboardEvents(events, Removed)
  {
    if events != [] {
      CountIsAddedMinusRemoved(n0, events[..|events| - 1]);
    }
  }

  /** A step that keeps the count on one side of the 0/1 boundary (1 to 2,
      2 to 1, 0 to -1, ...) writes nothing. */
  lemma NoEmissionWithinSide(n: int, e: Event)
    requires (n >= 1 && n + Delta(e) >= 1) || (n <= 0 && n + Delta(e) <= 0)
    ensures Edge(n, n + Delta(e)) == None
  {
  }

  /** Appending one event to a trace writes 0 exactly when it takes the
      count from 0 to 1, 1 exactly when it takes it from 1 to 0, and nothing
      otherwise. */
  lemma WritesExactlyAtCrossings(n0: int, events: seq<Event>, e: Event)
    ensures
      var n := Count(n0, events);
      Emissions(n0, events + [e]) ==
        if n == 0 && Delta(e) == 1 then Emissions(n0, events) + [0]
        else if n == 1 && Delta(e) == -1 then Emissions(n0, events) + [1]
        else Emissions(n0, events)
  {
    assert (events + [e])[..|events|] == events;
  }

  /** 1 when the count says some keyboard is present, 0 otherwise. */
  function Side(n: int): int {
    if n >= 1 then 1 else 0
  }

  /** Written values alternate, starting with 1 when the count starts at 1 or
      more and with 0 otherwise; the number written tells on which side of the
      boundary the count ends. */
  lemma {:induction false} EmissionsAlternate(n0: int, events: seq<Event>)
    ensures forall k | 0 <= k < |Emissions(n0, events)| :: Emissions(n0, events)[k] == (Side(n0) + k) % 2
    ensures Side(Count(n0, events)) == (Side(n0) + |Emissions(n0, events)|) % 2
  {
    if events != [] {
      var prefix := events[..|events| - 1];
      EmissionsAlternate(n0, prefix);
      var n := Count(n0, prefix);
      var next := n + Delta(events[|events| - 1]);
      assert Count(n0, events) == next;
      var before := Emissions(n0, prefix);
      match Edge(n, next)
      case Some(value) =>
        assert Emissions(n0, events) == before + [value];
      case None =>
        assert Emissions(n0, events) == before;
        assert Side(next) == Side(n);
    }
  }

  /** From start-up the written values are 0, 1, 0, 1, ..., and the last one
      says whether a keyboard is counted: 0 (tablet mode off) when the count
      is positive, 1 (tablet mode on) otherwise. */
  lemma FromStartup(events: seq<Event>)
    ensures forall k | 0 <= k < |Emissions(0, events)| :: Emissions(0, events)[k] == k % 2
    ensures Emissions(0, events) != [] ==>
      Emissions(0, events)[|Emissions(0, events)| - 1] == if Count(0, events) >= 1 then 0 else 1
    ensures Emissions(0, events) == [] ==> Count(0, events) <= 0
  {
    EmissionsAlternate(0, events);
    var written := Emissions(0, events);
    if written != [] {
      assert written[|written| - 1] == (|written| - 1) % 2;
    }
  }

  /** Two keyboards added and removed again: only the first addition and the
      last removal write the switch. */
  lemma TwoKeyboards(k: Device)
    requires KeyboardDevice(k)
    ensures Emissions(0, [DeviceEvent(Added, k), DeviceEvent(Added, k), DeviceEvent(Removed, k), DeviceEvent(Removed, k)]) == [0, 1]
  {
    var add, rem := DeviceEvent(Added, k), DeviceEvent(Removed, k);
    var events := [add, add, rem, rem];
    assert events[..3] == [add, add, rem] && events[..3][..2] == [add, add] && events[..2][..1] == [add];
    assert [add][..0] == [];
    assert Count(0, [add]) == 1 && Count(0, [add, add]) == 2 && Count(0, [add, add, rem]) == 1;
    assert Emissions(0, [add]) == [0];
    assert Emissions(0, [add, add]) == [0];
    assert Emissions(0, [add, add, rem]) == [0];
  }

  /** A removal seen at count 0 takes the count to -1, so a following
      addition writes nothing. */
  lemma RemovalIsNotClamped(k: Device)
    requires KeyboardDevice(k)
    ensures Count(0, [DeviceEvent(Removed, k)]) == -1
    ensures Emissions(0, [DeviceEvent(Removed, k), DeviceEvent(Added, k)]) == []
  {
    var add, rem := DeviceEvent(Added, k), DeviceEvent(Removed, k);
    assert [rem, add][..1] == [rem] && [rem][..0] == [];
    assert Emissions(0, [rem]) == [];
  }
}
