/**
 * The full-rescan engine of the `lgo1-trio` binary: the keyboard classifier
 * over an evdev device snapshot, the debounced reader that publishes the
 * classification as the `KeyboardStatus` D-Bus property, and the filter that
 * forwards the volume keys of the internal keyboard to the virtual device.
 *
 * Operating-system facilities are inputs: a device snapshot is a sequence of
 * `Device` values, a hotplug notification or an expired wait is a `Wake`, and
 * the events read from the internal keyboard come in batches. Emitted events
 * are returned.
 */
module Lgo1Trio {
  import Wrappers

  type u16 = x: int | 0 <= x < 0x1_0000
  type u32 = x: int | 0 <= x < 0x1_0000_0000
  type i32 = x: int | -0x8000_0000 <= x < 0x8000_0000

  // Bus types, event types and codes of the Linux input subsystem.
  const BUS_USB: u16 := 0x03
  const BUS_BLUETOOTH: u16 := 0x05
  const BUS_I8042: u16 := 0x11

  const EV_KEY: u16 := 0x01
  const EV_SW: u16 := 0x05

  const KEY_ESC: u16 := 1
  const KEY_BACKSPACE: u16 := 14
  const KEY_ENTER: u16 := 28
  const KEY_VOLUMEDOWN: u16 := 114
  const KEY_VOLUMEUP: u16 := 115

  const SW_TABLET_MODE: u16 := 0x01

  // ---------------------------------------------------------------------
  // Keyboard status and its encoding
  // ---------------------------------------------------------------------

  /** What the classifier reports, in decreasing precedence. */
  datatype KeyboardStatus =
    | CaseExternal  // the keyboard case is connected
    | AnyExternal   // some other external keyboard is connected
    | None          // no external keyboard is connected

  /** The discriminant published as the u32 D-Bus property. */
  function Encode(status: KeyboardStatus): (code: u32)
    ensures code <= 2
    ensures code == 0 <==> status == None
  {
    match status
    case CaseExternal => 2
    case AnyExternal => 1
    case None => 0
  }

  /** Distinct statuses are published as distinct numbers. */
  lemma EncodeInjective(s: KeyboardStatus, t: KeyboardStatus)
    ensures Encode(s) == Encode(t) <==> s == t
  {
  }

  // ---------------------------------------------------------------------
  // Classifier
  // ---------------------------------------------------------------------

  /** (bus type, vendor, product) of an input device. */
  type InputId = (u16, u16, u16)

  /** One evdev device of a snapshot; `supportedKeys` is absent when the
      device reports no key capability at all. */
  datatype Device = Device(bus: u16, vendor: u16, product: u16, supportedKeys: Wrappers.Option<set<u16>>)
  {
    function Id(): InputId { (bus, vendor, product) }
  }

  /** The Bluetooth keyboard case. */
  const CASE_ID: InputId := (BUS_BLUETOOTH, 0x04e8, 0x7021)

  /** A device looks like a keyboard when it supports all of these. */
  const TEST_KEYS: seq<u16> := [KEY_ENTER, KEY_BACKSPACE, KEY_ESC]

  /** The AT translated set 2 keyboard and the Legion controller keyboard. */
  const INTERNAL_BLACKLIST: set<InputId> := {(BUS_I8042, 0x1, 0x1), (BUS_USB, 0x17ef, 0x6184)}

  /** The keyboard case, which is never one of the blacklisted devices. */
  predicate IsCase(d: Device)
    ensures IsCase(d) <==> d.bus == BUS_BLUETOOTH && d.vendor == 0x04e8 && d.product == 0x7021
    ensures IsCase(d) ==> d.Id() !in INTERNAL_BLACKLIST
  {
    d.Id() == CASE_ID
  }

  /** A device looks like a keyboard when its key set includes all test keys. */
  predicate LooksLikeKeyboard(d: Device)
    ensures LooksLikeKeyboard(d) <==>
      d.supportedKeys.Some? && {KEY_ENTER, KEY_BACKSPACE, KEY_ESC} <= d.supportedKeys.value
  {
    assert TEST_KEYS[0] == KEY_ENTER && TEST_KEYS[1] == KEY_BACKSPACE && TEST_KEYS[2] == KEY_ESC;
    assert forall i | 0 <= i < |TEST_KEYS| :: TEST_KEYS[i] in {KEY_ENTER, KEY_BACKSPACE, KEY_ESC};
    d.supportedKeys.Some? && forall i | 0 <= i < |TEST_KEYS| :: TEST_KEYS[i] in d.supportedKeys.value
  }

  /** A keyboard other than the two built-in controllers. */
  predicate IsExternalKeyboard(d: Device)
    ensures IsExternalKeyboard(d) <==>
      LooksLikeKeyboard(d) &&
      !(d.bus == BUS_I8042 && d.vendor == 0x1 && d.product == 0x1) &&
      !(d.bus == BUS_USB && d.vendor == 0x17ef && d.product == 0x6184)
  {
    LooksLikeKeyboard(d) && d.Id() !in INTERNAL_BLACKLIST
  }

  /** The scan stops at a device that is the case or an external keyboard. */
  predicate Decides(d: Device) {
    IsCase(d) || IsExternalKeyboard(d)
  }

  /** No device before index `i` stops the scan. */
  predicate NoneDecidesBefore(devices: seq<Device>, i: nat)
    requires i <= |devices|
  {
    forall j | 0 <= j < i :: !Decides(devices[j])
  }

  /** The classification of a snapshot: the first deciding device wins. */
  function Classify(devices: seq<Device>): (status: KeyboardStatus)
    ensures status == None <==> NoneDecidesBefore(devices, |devices|)
  {
    if devices == [] then None
    else if IsCase(devices[0]) then CaseExternal
    else if IsExternalKeyboard(devices[0]) then AnyExternal
    else
      assert forall j | 1 <= j < |devices| :: devices[1..][j - 1] == devices[j];
      Classify(devices[1..])
  }

  /** The scan over the snapshot, returning at the first deciding device. */
  method KeyboardStatusOf(devices: seq<Device>) returns (status: KeyboardStatus)
    ensures status == Classify(devices)
  {
    for i := 0 to |devices|
      invariant Classify(devices[i..]) == Classify(devices)
    {
      var d := devices[i];
      assert devices[i..][0] == d && devices[i..][1..] == devices[i + 1..];
      var id := (d.bus, d.vendor, d.product);
      if id == CASE_ID {
        return CaseExternal;
      }
      var looksLikeKeyboard := LooksLikeKeyboard(d);
      var isBlacklisted := id in INTERNAL_BLACKLIST;
      if looksLikeKeyboard && !isBlacklisted {
        return AnyExternal;
      }
    }
    assert devices[|devices|..] == [];
    status := None;
  }

  /** The result is determined by the first deciding device. */
  lemma {:induction false} ClassifyFirstDecides(devices: seq<Device>, i: nat)
    requires i < |devices| && Decides(devices[i]) && NoneDecidesBefore(devices, i)
    ensures Classify(devices) == if IsCase(devices[i]) then CaseExternal else AnyExternal
  {
    if i > 0 {
      assert !Decides(devices[0]);
      assert forall j | 0 <= j < i - 1 :: devices[1..][j] == devices[j + 1];
      ClassifyFirstDecides(devices[1..], i - 1);
    }
  }

  /** Any snapshot that is not classified `None` has a first deciding device. */
  lemma {:induction false} FirstDecidingDevice(devices: seq<Device>) returns (i: nat)
    requires !NoneDecidesBefore(devices, |devices|)
    ensures i < |devices| && Decides(devices[i]) && NoneDecidesBefore(devices, i)
  {
    if Decides(devices[0]) {
      i := 0;
    } else {
      assert !NoneDecidesBefore(devices[1..], |devices| - 1) by {
        var j :| 0 <= j < |devices| && Decides(devices[j]);
        assert devices[1..][j - 1] == devices[j];
      }
      var k := FirstDecidingDevice(devices[1..]);
      i := k + 1;
      assert forall j | 1 <= j < i :: devices[j] == devices[1..][j - 1];
    }
  }

  /** The keyboard case wins when it comes before every external keyboard. */
  lemma {:induction false} CaseBeforeKeyboardsWins(devices: seq<Device>, i: nat)
    requires i < |devices| && IsCase(devices[i])
    requires forall j | 0 <= j < i :: !IsExternalKeyboard(devices[j])
    ensures Classify(devices) == CaseExternal
  {
    if i > 0 && !IsCase(devices[0]) {
      assert forall j | 0 <= j < i - 1 :: devices[1..][j] == devices[j + 1];
      CaseBeforeKeyboardsWins(devices[1..], i - 1);
    }
  }

  /** `CaseExternal` exactly when the case is the first deciding device. */
  lemma {:induction false} ClassifyCaseIff(devices: seq<Device>)
    ensures Classify(devices) == CaseExternal <==>
      exists i | 0 <= i < |devices| :: IsCase(devices[i]) && NoneDecidesBefore(devices, i)
  {
    if Classify(devices) == CaseExternal {
      var i := FirstDecidingDevice(devices);
      ClassifyFirstDecides(devices, i);
    }
    if exists i | 0 <= i < |devices| :: IsCase(devices[i]) && NoneDecidesBefore(devices, i) {
      var i :| 0 <= i < |devices| && IsCase(devices[i]) && NoneDecidesBefore(devices, i);
      ClassifyFirstDecides(devices, i);
    }
  }

  /** `AnyExternal` exactly when the first deciding device is a keyboard that
      is neither the case nor blacklisted. */
  lemma {:induction false} ClassifyAnyExternalIff(devices: seq<Device>)
    ensures Classify(devices) == AnyExternal <==>
      exists i | 0 <= i < |devices| ::
        !IsCase(devices[i]) && LooksLikeKeyboard(devices[i]) && devices[i].Id() !in INTERNAL_BLACKLIST &&
        NoneDecidesBefore(devices, i)
  {
    if Classify(devices) == AnyExternal {
      var i := FirstDecidingDevice(devices);
      ClassifyFirstDecides(devices, i);
    }
    if exists i | 0 <= i < |devices| ::
        !IsCase(devices[i]) && LooksLikeKeyboard(devices[i]) && devices[i].Id() !in INTERNAL_BLACKLIST &&
        NoneDecidesBefore(devices, i) {
      var i :| 0 <= i < |devices| &&
        !IsCase(devices[i]) && LooksLikeKeyboard(devices[i]) && devices[i].Id() !in INTERNAL_BLACKLIST &&
        NoneDecidesBefore(devices, i);
      ClassifyFirstDecides(devices, i);
    }
  }

  /** A device that neither is the case nor is an external keyboard can be
      removed from any position without changing the classification. */
  lemma {:induction false} NonDecidingDeviceIrrelevant(a: seq<Device>, d: Device, b: seq<Device>)
    requires !Decides(d)
    ensures Classify(a + [d] + b) == Classify(a + b)
  {
    if a == [] {
      assert a + [d] + b == [d] + b && ([d] + b)[1..] == b && a + b == b;
    } else {
      assert (a + [d] + b)[0] == a[0] && (a + b)[0] == a[0];
      assert (a + [d] + b)[1..] == a[1..] + [d] + b;
      assert (a + b)[1..] == a[1..] + b;
      NonDecidingDeviceIrrelevant(a[1..], d, b);
    }
  }

  /** A blacklisted device never changes the classification, whatever keys it
      reports. */
  lemma BlacklistedDeviceIrrelevant(a: seq<Device>, d: Device, b: seq<Device>)
    requires d.Id() in INTERNAL_BLACKLIST
    ensures Classify(a + [d] + b) == Classify(a + b)
  {
    NonDecidingDeviceIrrelevant(a, d, b);
  }

  /** The scan is order dependent: an external keyboard listed before the
      case hides it. */
  lemma OrderDecides()
    ensures
      var keyboardCase := Device(BUS_BLUETOOTH, 0x04e8, 0x7021, Wrappers.None);
      var keyboard := Device(BUS_USB, 0x1234, 0x5678, Wrappers.Some({KEY_ENTER, KEY_BACKSPACE, KEY_ESC}));
      Classify([keyboard, keyboardCase]) == AnyExternal && Classify([keyboardCase, keyboard]) == CaseExternal
  {
  }

  /** Single-device snapshots: the case without keys, the blacklisted AT
      keyboard, an unknown USB keyboard, and an empty snapshot. */
  lemma SingleDeviceScenarios()
    ensures Classify([Device(BUS_BLUETOOTH, 0x04e8, 0x7021, Wrappers.Some({}))]) == CaseExternal
    ensures Classify([Device(BUS_I8042, 0x1, 0x1, Wrappers.Some({KEY_ENTER, KEY_BACKSPACE, KEY_ESC}))]) == None
    ensures Classify([Device(BUS_USB, 0x1234, 0x5678, Wrappers.Some({KEY_ENTER, KEY_BACKSPACE, KEY_ESC}))]) == AnyExternal
    ensures Classify([]) == None
  {
    assert Device(BUS_I8042, 0x1, 0x1, Wrappers.Some({KEY_ENTER, KEY_BACKSPACE, KEY_ESC})).Id() in INTERNAL_BLACKLIST;
  }

  // ---------------------------------------------------------------------
  // Debounced reader
  // ---------------------------------------------------------------------

  /** What ends a wait of the reader: a hotplug signal arrives, 1000 ms pass
      without one, or 120 s pass without one. */
  datatype Wake = Signal | QuietElapsed | LongTimeout

  /** Idle: the 120 s wait; Settling: the drain loop waiting for 1000 ms of
      quiet. */
  datatype Phase = Idle | Settling

  /** A wake-up, with the snapshot that enumeration returns at that moment. */
  datatype Tick = Tick(wake: Wake, devices: seq<Device>)

  /** Whether a wake-up in phase `p` ends the waiting with a classification
      pass. */
  function Fires(p: Phase, w: Wake): (fires: bool)
    ensures fires ==> w != Signal
    ensures w == LongTimeout ==> fires
    ensures w == QuietElapsed ==> (fires <==> p == Settling)
  {
    match p
    case Idle => w == LongTimeout
    case Settling => w != Signal
  }

  /** A signal always leads to (or keeps) the drain loop; any pass, or a
      wake-up that the 120 s wait ignores, leaves the reader idle. */
  function NextPhase(w: Wake): (next: Phase)
    ensures w == Signal ==> next == Settling
    ensures next == Idle <==> Fires(Settling, w)
  {
    if w == Signal then Settling else Idle
  }

  function FinalPhase(p: Phase, ticks: seq<Tick>): Phase {
    if ticks == [] then p else NextPhase(ticks[|ticks| - 1].wake)
  }

  /** Number of classification passes over a trace started in phase `p`. */
  function PassCount(p: Phase, ticks: seq<Tick>): nat {
    if ticks == [] then 0
    else
      var prefix := ticks[..|ticks| - 1];
      PassCount(p, prefix) + if Fires(FinalPhase(p, prefix), ticks[|ticks| - 1].wake) then 1 else 0
  }

  /** The published status after a trace started in phase `p` with `pub`
      published: every pass overwrites it. */
  function Published(p: Phase, pub: u32, ticks: seq<Tick>): u32 {
    if ticks == [] then pub
    else
      var prefix := ticks[..|ticks| - 1];
      var last := ticks[|ticks| - 1];
      if Fires(FinalPhase(p, prefix), last.wake) then Encode(Classify(last.devices))
      else Published(p, pub, prefix)
  }

  /** Number of wake-ups that are not signals. */
  function TimeoutCount(ticks: seq<Tick>): nat {
    if ticks == [] then 0
    else TimeoutCount(ticks[..|ticks| - 1]) + if ticks[|ticks| - 1].wake == Signal then 0 else 1
  }

  predicate AllSignals(ticks: seq<Tick>) {
    forall i | 0 <= i < |ticks| :: ticks[i].wake == Signal
  }

  /** The reader loop and the D-Bus property it writes. */
  class KeyboardStatusReader {
    /** The published `KeyboardStatus` property. */
    var keyboardStatus: u32
    var phase: Phase

    /** The property starts as `None`, the reader in its long wait. */
    constructor ()
      ensures keyboardStatus == Encode(None) && phase == Idle
    {
      keyboardStatus := Encode(None);
      phase := Idle;
    }

    /** One wake-up of the reader. */
    method Step(tick: Tick) returns (reclassified: bool)
      modifies this
      ensures reclassified == Fires(old(phase), tick.wake)
      ensures phase == NextPhase(tick.wake)
      ensures keyboardStatus == if reclassified then Encode(Classify(tick.devices)) else old(keyboardStatus)
    {
      match phase {
        case Idle =>
          // A signal starts the drain loop; a timeout forces a recheck.
          reclassified := tick.wake == LongTimeout;
          if tick.wake == Signal {
            phase := Settling;
          }
        case Settling =>
          // Any wait that ends without a signal breaks out of the drain loop.
          reclassified := tick.wake != Signal;
          if reclassified {
            phase := Idle;
          }
      }
      if reclassified {
        var status := KeyboardStatusOf(tick.devices);
        keyboardStatus := Encode(status);
      }
    }

    /** The reader loop over a finite trace. */
    method Run(ticks: seq<Tick>) returns (passes: nat)
      modifies this
      ensures passes == PassCount(old(phase), ticks)
      ensures phase == FinalPhase(old(phase), ticks)
      ensures keyboardStatus == Published(old(phase), old(keyboardStatus), ticks)
    {
      passes := 0;
      for i := 0 to |ticks|
        invariant passes == PassCount(old(phase), ticks[..i])
        invariant phase == FinalPhase(old(phase), ticks[..i])
        invariant keyboardStatus == Published(old(phase), old(keyboardStatus), ticks[..i])
      {
        assert ticks[..i + 1][..i] == ticks[..i];
        var fired := Step(ticks[i]);
        if fired {
          passes := passes + 1;
        }
      }
      assert ticks[..|ticks|] == ticks;
    }
  }

  /** The property and the reader from process start, over a trace. */
  method MonitorFromStartup(ticks: seq<Tick>) returns (status: u32, passes: nat)
    ensures status == Published(Idle, 0, ticks)
    ensures passes == PassCount(Idle, ticks)
  {
    var reader := new KeyboardStatusReader();
    passes := reader.Run(ticks);
    status := reader.keyboardStatus;
  }

  /** Signals alone never cause a pass and leave the property alone. */
  lemma {:induction false} SignalsNeverPass(p: Phase, pub: u32, ticks: seq<Tick>)
    requires AllSignals(ticks)
    ensures PassCount(p, ticks) == 0
    ensures Published(p, pub, ticks) == pub
  {
    if ticks != [] {
      SignalsNeverPass(p, pub, ticks[..|ticks| - 1]);
    }
  }

  /** A burst of signals followed by a quiet period gives exactly one pass,
      on the snapshot taken when the quiet period ends. */
  lemma BurstGivesOnePass(p: Phase, pub: u32, burst: seq<Tick>, quiet: Tick)
    requires |burst| >= 1 && AllSignals(burst) && quiet.wake != Signal
    ensures PassCount(p, burst + [quiet]) == 1
    ensures Published(p, pub, burst + [quiet]) == Encode(Classify(quiet.devices))
    ensures FinalPhase(p, burst + [quiet]) == Idle
  {
    SignalsNeverPass(p, pub, burst);
    assert (burst + [quiet])[..|burst|] == burst;
  }

  /** The 120 s timeout always forces a pass, whatever came before. */
  lemma LongTimeoutForcesPass(p: Phase, pub: u32, ticks: seq<Tick>, t: Tick)
    requires t.wake == LongTimeout
    ensures PassCount(p, ticks + [t]) == PassCount(p, ticks) + 1
    ensures Published(p, pub, ticks + [t]) == Encode(Classify(t.devices))
  {
    assert (ticks + [t])[..|ticks|] == ticks;
  }

  /** In the long wait a 1000 ms quiet period changes nothing. */
  lemma QuietWhileIdleIgnored(p: Phase, pub: u32, ticks: seq<Tick>, t: Tick)
    requires FinalPhase(p, ticks) == Idle && t.wake == QuietElapsed
    ensures PassCount(p, ticks + [t]) == PassCount(p, ticks)
    ensures Published(p, pub, ticks + [t]) == Published(p, pub, ticks)
    ensures FinalPhase(p, ticks + [t]) == Idle
  {
    assert (ticks + [t])[..|ticks|] == ticks;
  }

  /** Every pass is triggered by a wait that ended without a signal. */
  lemma {:induction false} PassesNeedTimeouts(p: Phase, ticks: seq<Tick>)
    ensures PassCount(p, ticks) <= TimeoutCount(ticks)
  {
    if ticks != [] {
      PassesNeedTimeouts(p, ticks[..|ticks| - 1]);
    }
  }

  /** After at least one pass the property is determined by the trace alone:
      whatever it held before, it ends up with the same value. */
  lemma {:induction false} PassOverwrites(p: Phase, a: u32, b: u32, ticks: seq<Tick>)
    requires PassCount(p, ticks) > 0
    ensures Published(p, a, ticks) == Published(p, b, ticks)
  {
    var prefix := ticks[..|ticks| - 1];
    if !Fires(FinalPhase(p, prefix), ticks[|ticks| - 1].wake) {
      PassOverwrites(p, a, b, prefix);
    }
  }

  /** The published value is the initial one or the encoded classification
      of a snapshot taken at a wake-up that was not a signal. */
  lemma {:induction false} PublishedComesFromPass(p: Phase, pub: u32, ticks: seq<Tick>)
    ensures PassCount(p, ticks) == 0 ==> Published(p, pub, ticks) == pub
    ensures PassCount(p, ticks) > 0 ==>
      exists i | 0 <= i < |ticks| :: ticks[i].wake != Signal && Published(p, pub, ticks) == Encode(Classify(ticks[i].devices))
  {
    if ticks != [] {
      var prefix := ticks[..|ticks| - 1];
      PublishedComesFromPass(p, pub, prefix);
      if !Fires(FinalPhase(p, prefix), ticks[|ticks| - 1].wake) && PassCount(p, ticks) > 0 {
        var i :| 0 <= i < |prefix| && prefix[i].wake != Signal && Published(p, pub, prefix) == Encode(Classify(prefix[i].devices));
        assert ticks[i] == prefix[i];
      }
    }
  }

  // ---------------------------------------------------------------------
  // Forwarding of the volume keys
  // ---------------------------------------------------------------------

  /** An evdev input event. */
  datatype InputEvent = InputEvent(eventType: u16, code: u16, value: i32)

  const FORWARD_KEYS: seq<u16> := [KEY_VOLUMEDOWN, KEY_VOLUMEUP]

  /** The virtual device reports tablet mode on as soon as it exists. */
  const TABLET_MODE_ON: InputEvent := InputEvent(EV_SW, SW_TABLET_MODE, 1)

  /** Forwarding looks at the code alone, not at the event type. */
  predicate IsForwardCode(code: u16)
    ensures IsForwardCode(code) <==> code == KEY_VOLUMEDOWN || code == KEY_VOLUMEUP
  {
    code in FORWARD_KEYS
  }

  /** The events written to the virtual device for the events read from the
      internal keyboard, in order. */
  function Forwarded(events: seq<InputEvent>): (out: seq<InputEvent>)
    ensures |out| <= |events|
    ensures forall k | 0 <= k < |out| :: out[k].eventType == EV_KEY && IsForwardCode(out[k].code)
  {
    if events == [] then []
    else
      var last := events[|events| - 1];
      Forwarded(events[..|events| - 1]) + (if IsForwardCode(last.code) then [InputEvent(EV_KEY, last.code, last.value)] else [])
  }

  /** All events read, batch after batch. */
  function Flatten(batches: seq<seq<InputEvent>>): seq<InputEvent> {
    if batches == [] then [] else Flatten(batches[..|batches| - 1]) + batches[|batches| - 1]
  }

  /** One read from the internal keyboard: each event whose code is a volume
      key is re-emitted as a key event with the same code and value. */
  method ForwardBatch(batch: seq<InputEvent>) returns (emitted: seq<InputEvent>)
    ensures emitted == Forwarded(batch)
  {
    emitted := [];
    for i := 0 to |batch|
      invariant emitted == Forwarded(batch[..i])
    {
      var event := batch[i];
      assert batch[..i + 1][..i] == batch[..i];
      if event.code in FORWARD_KEYS {
        emitted := emitted + [InputEvent(EV_KEY, event.code, event.value)];
      }
    }
    assert batch[..|batch|] == batch;
  }

  /** The virtual-device loop over a finite number of reads. */
  method RunVirtualDevice(batches: seq<seq<InputEvent>>) returns (emitted: seq<InputEvent>)
    ensures emitted == [TABLET_MODE_ON] + Forwarded(Flatten(batches))
  {
    emitted := [TABLET_MODE_ON];
    for b := 0 to |batches|
      invariant emitted == [TABLET_MODE_ON] + Forwarded(Flatten(batches[..b]))
    {
      var out := ForwardBatch(batches[b]);
      assert batches[..b + 1][..b] == batches[..b];
      ForwardedAppend(Flatten(batches[..b]), batches[b]);
      emitted := emitted + out;
    }
    assert batches[..|batches|] == batches;
  }

  /** Forwarding a concatenation forwards each part. */
  lemma {:induction false} ForwardedAppend(a: seq<InputEvent>, b: seq<InputEvent>)
    ensures Forwarded(a + b) == Forwarded(a) + Forwarded(b)
  {
    if b == [] {
      assert a + b == a;
    } else {
      var b' := b[..|b| - 1];
      var last := b[|b| - 1];
      var tail := if IsForwardCode(last.code) then [InputEvent(EV_KEY, last.code, last.value)] else [];
      assert (a + b)[..|a + b| - 1] == a + b' && (a + b)[|a + b| - 1] == last;
      assert Forwarded(b) == Forwarded(b') + tail;
      assert Forwarded(a + b) == Forwarded(a + b') + tail;
      ForwardedAppend(a, b');
    }
  }

  /** A single event is forwarded, as a key event with its code and value,
      exactly when its code is a volume key. */
  lemma ForwardedSingle(e: InputEvent)
    ensures Forwarded([e]) == if e.code in {KEY_VOLUMEDOWN, KEY_VOLUMEUP} then [InputEvent(EV_KEY, e.code, e.value)] else []
  {
    assert [e][..0] == [];
  }

  /** Volume-key events of type EV_KEY pass through unchanged. */
  lemma {:induction false} ForwardedKeepsVolumeKeys(events: seq<InputEvent>)
    requires forall k | 0 <= k < |events| :: events[k].eventType == EV_KEY && IsForwardCode(events[k].code)
    ensures Forwarded(events) == events
  {
    if events != [] {
      ForwardedKeepsVolumeKeys(events[..|events| - 1]);
      assert events[..|events| - 1] + [events[|events| - 1]] == events;
    }
  }

  /** Forwarding twice is forwarding once. */
  lemma ForwardedIdempotent(events: seq<InputEvent>)
    ensures Forwarded(Forwarded(events)) == Forwarded(events)
  {
    ForwardedKeepsVolumeKeys(Forwarded(events));
  }

  /** Events with other codes are dropped. */
  lemma {:induction false} ForwardedDropsOthers(events: seq<InputEvent>)
    requires forall k | 0 <= k < |events| :: !IsForwardCode(events[k].code)
    ensures Forwarded(events) == []
  {
    if events != [] {
      ForwardedDropsOthers(events[..|events| - 1]);
    }
  }
}
