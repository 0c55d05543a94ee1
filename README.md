# tablet-mode-keyboard: presence detection, modelled in Dafny

The repository holds two small programs that decide whether an external
keyboard is attached to a detachable laptop (a Lenovo Legion Go).

- `lgo1-trio` (`src/bin/lgo1-trio.rs`) rescans every evdev device after a
  hotplug burst has settled and classifies the snapshot as *keyboard case
  attached* (2), *some other external keyboard attached* (1) or *none* (0).
  It publishes that number as the `KeyboardStatus` D-Bus property. A second
  loop forwards the volume keys of the internal keyboard to a virtual input
  device, which also reports tablet mode on when it is created.
- `tablet-mode-keyboard` (`src/main.rs`) follows libinput's device-added and
  device-removed events. It keeps a running count of keyboards and writes the
  `SW_TABLET_MODE` switch of a virtual device only when that count crosses
  between 0 and 1.

The model has three modules:

- `Wrappers` (`wrappers.dfy`) holds the `Option` type.
- `Lgo1Trio` (`lgo1_trio.dfy`) holds the classifier, the debounced reader
  and the forwarding loop.
  - `Classify` is the recursive specification of the classifier.
    `KeyboardStatusOf` is the scan as the source writes it.
  - `KeyboardStatusReader` is a class that holds the published property
    and the reader's phase. `Idle` is the 120 s wait. `Settling` is the
    drain loop that waits for 1000 ms without a signal.
  - The reader is driven by `Tick`s. A `Tick` is a wake-up (`Signal`,
    `QuietElapsed` or `LongTimeout`) together with the device snapshot that
    enumeration would return at that moment.
  - `PassCount`, `FinalPhase` and `Published` give the reader's behaviour
    over a trace.
  - `Forwarded` gives the events the virtual device receives.
- `TabletModeKeyboard` (`tablet_mode_keyboard.dfy`) holds the keyboard test,
  the counter class `TabletModeCounter` and its main loop. `Count` and
  `Emissions` are the counter's specification over event traces.

Every OS facility is an input or an output:

- device snapshots, hotplug wake-ups, key events read from the internal
  keyboard and libinput events are parameters;
- the published property and the values written to the virtual devices are
  fields or returned sequences.

Constants are those of the Linux input subsystem:

- `BUS_USB` 0x03, `BUS_BLUETOOTH` 0x05, `BUS_I8042` 0x11;
- `KEY_ESC` 1, `KEY_BACKSPACE` 14, `KEY_ENTER` 28, `KEY_VOLUMEDOWN` 114,
  `KEY_VOLUMEUP` 115;
- `EV_KEY` 1, `EV_SW` 5, `SW_TABLET_MODE` 1.

## Behaviour of the code worth knowing

- The classifier returns `AnyExternal` at the first qualifying keyboard, so
  the result depends on device order (`OrderDecides`).
- Every reader pass writes the published value, whether or not it changed
  (src/bin/lgo1-trio.rs:139).
- The keyboard count is not clamped at 0 (`RemovalIsNotClamped`).
- The switch value is the `i32` written to `SW_TABLET_MODE`: 0 (tablet mode
  off) on 0→1 and 1 (tablet mode on) on 1→0.
- Forwarding tests only the event code, not the event type. Every forwarded
  event is emitted as an `EV_KEY` event.

## Model

| member | source | states |
|---|---|---|
| `Lgo1Trio.Encode` | src/bin/lgo1-trio.rs:11-18 | the published number is at most 2, and it is 0 exactly for `None` |
| `Lgo1Trio.EncodeInjective` | src/bin/lgo1-trio.rs:11-18 | distinct statuses are published as distinct numbers |
| `Lgo1Trio.IsCase` | src/bin/lgo1-trio.rs:157 | a device is the case iff its triple is (Bluetooth, 0x04e8, 0x7021); the case triple is never blacklisted |
| `Lgo1Trio.LooksLikeKeyboard` | src/bin/lgo1-trio.rs:161-164 | a device looks like a keyboard iff it reports a key set that includes Enter, Backspace and Esc |
| `Lgo1Trio.IsExternalKeyboard` | src/bin/lgo1-trio.rs:165-166 | a device is an external keyboard iff it looks like a keyboard and is neither (I8042, 0x1, 0x1) nor (USB, 0x17ef, 0x6184) |
| `Lgo1Trio.Classify` | src/bin/lgo1-trio.rs:143-171 | the result is `None` exactly when no device is the case triple or a non-blacklisted device with all test keys |
| `Lgo1Trio.KeyboardStatusOf` | src/bin/lgo1-trio.rs:154-170 | the scan with early returns computes `Classify` of the snapshot |
| `Lgo1Trio.ClassifyFirstDecides` | src/bin/lgo1-trio.rs:154-169 | the first device that is the case or an external keyboard determines the result: `CaseExternal` if it is the case, `AnyExternal` otherwise |
| `Lgo1Trio.FirstDecidingDevice` | src/bin/lgo1-trio.rs:154-170 | if some device is the case or an external keyboard, there is a first such device |
| `Lgo1Trio.CaseBeforeKeyboardsWins` | src/bin/lgo1-trio.rs:154-158 | the case triple (Bluetooth, 0x04e8, 0x7021) listed before every external keyboard gives `CaseExternal` |
| `Lgo1Trio.ClassifyCaseIff` | src/bin/lgo1-trio.rs:154-159 | `CaseExternal` iff some device is the case and no earlier device is the case or an external keyboard |
| `Lgo1Trio.ClassifyAnyExternalIff` | src/bin/lgo1-trio.rs:161-168 | `AnyExternal` iff some device that is not the case has all test keys, is not blacklisted, and no earlier device is the case or an external keyboard |
| `Lgo1Trio.NonDecidingDeviceIrrelevant` | src/bin/lgo1-trio.rs:154-169 | inserting a device that is neither the case nor an external keyboard anywhere leaves the result unchanged |
| `Lgo1Trio.BlacklistedDeviceIrrelevant` | src/bin/lgo1-trio.rs:145-166 | a device with triple (I8042, 0x1, 0x1) or (USB, 0x17ef, 0x6184) never changes the result, whatever keys it has |
| `Lgo1Trio.OrderDecides` | src/bin/lgo1-trio.rs:154-168 | a USB keyboard listed before the case gives `AnyExternal`; the case listed first gives `CaseExternal` |
| `Lgo1Trio.SingleDeviceScenarios` | src/bin/lgo1-trio.rs:143-170 | the case with no keys gives `CaseExternal`; the blacklisted AT keyboard gives `None`; an unknown USB keyboard gives `AnyExternal`; an empty snapshot gives `None` |
| `Lgo1Trio.Fires` | src/bin/lgo1-trio.rs:122-133 | a signal never ends the waiting; the 120 s timeout always does; a 1000 ms quiet period does only in the drain loop |
| `Lgo1Trio.NextPhase` | src/bin/lgo1-trio.rs:122-133 | a signal always leads into the drain loop, and the reader returns to the long wait exactly on the wake-ups that end the drain loop |
| `Lgo1Trio.KeyboardStatusReader.constructor` | src/bin/lgo1-trio.rs:70-72 | the property starts at `None` (0), and the reader starts in the long wait |
| `Lgo1Trio.KeyboardStatusReader.Step` | src/bin/lgo1-trio.rs:120-139 | one wake-up: in the long wait only the timeout reclassifies and a signal starts the drain loop; in the drain loop any wake-up other than a signal reclassifies; a pass writes the encoded classification of the current snapshot, otherwise the property is unchanged |
| `Lgo1Trio.KeyboardStatusReader.Run` | src/bin/lgo1-trio.rs:118-141 | over a trace, the number of passes, the final phase and the property are those of `PassCount`, `FinalPhase` and `Published` |
| `Lgo1Trio.MonitorFromStartup` | src/bin/lgo1-trio.rs:118-141 | from start-up (property 0, long wait) the reader publishes `Published(Idle, 0, ticks)` after `PassCount(Idle, ticks)` passes |
| `Lgo1Trio.SignalsNeverPass` | src/bin/lgo1-trio.rs:127-131 | signals alone never cause a pass and never change the property |
| `Lgo1Trio.BurstGivesOnePass` | src/bin/lgo1-trio.rs:122-139 | a burst of one or more signals followed by a quiet period gives exactly one pass, on the snapshot taken when the quiet ends, and the reader is back in the long wait |
| `Lgo1Trio.LongTimeoutForcesPass` | src/bin/lgo1-trio.rs:122-123 | the 120 s timeout always adds one pass and publishes the current snapshot's classification |
| `Lgo1Trio.QuietWhileIdleIgnored` | src/bin/lgo1-trio.rs:122-123 | in the long wait a 1000 ms quiet period changes nothing |
| `Lgo1Trio.PassesNeedTimeouts` | src/bin/lgo1-trio.rs:120-139 | there are never more passes than wake-ups that were not signals |
| `Lgo1Trio.PassOverwrites` | src/bin/lgo1-trio.rs:136-139 | after at least one pass the property is the same whatever value it held before: the last pass's classification replaces it |
| `Lgo1Trio.PublishedComesFromPass` | src/bin/lgo1-trio.rs:136-139 | without a pass the property keeps its value; otherwise it is the encoded classification of a snapshot taken at a non-signal wake-up |
| `Lgo1Trio.IsForwardCode` | src/bin/lgo1-trio.rs:221 | a code is forwarded iff it is `KEY_VOLUMEDOWN` or `KEY_VOLUMEUP` |
| `Lgo1Trio.Forwarded` | src/bin/lgo1-trio.rs:194-195 | every forwarded event is an `EV_KEY` event for `KEY_VOLUMEDOWN` or `KEY_VOLUMEUP`, and there are no more of them than events read |
| `Lgo1Trio.ForwardBatch` | src/bin/lgo1-trio.rs:219-228 | the events emitted for one read are `Forwarded` of the events read |
| `Lgo1Trio.RunVirtualDevice` | src/bin/lgo1-trio.rs:212-229 | the virtual device first receives tablet mode on (switch value 1), then the forwarded events of all reads, in order |
| `Lgo1Trio.ForwardedAppend` | src/bin/lgo1-trio.rs:218-229 | forwarding preserves order: forwarding a concatenation concatenates the forwarded parts |
| `Lgo1Trio.ForwardedSingle` | src/bin/lgo1-trio.rs:219-227 | one event is forwarded, as a key event with its code and value unchanged, exactly when its code is a volume key |
| `Lgo1Trio.ForwardedKeepsVolumeKeys` | src/bin/lgo1-trio.rs:219-227 | a stream of volume-key `EV_KEY` events is forwarded unchanged |
| `Lgo1Trio.ForwardedIdempotent` | src/bin/lgo1-trio.rs:219-227 | forwarding the forwarded events changes nothing |
| `Lgo1Trio.ForwardedDropsOthers` | src/bin/lgo1-trio.rs:219-227 | events whose code is not a volume key are never forwarded |
| `TabletModeKeyboard.KeyboardDevice` | src/main.rs:90 | a device is a keyboard iff it has the keyboard capability and its name differs from each of the five blacklisted names |
| `TabletModeKeyboard.IsKeyboard` | src/main.rs:74-91 | true iff the device has the keyboard capability and its name is none of the five blacklisted names |
| `TabletModeKeyboard.Delta` | src/main.rs:38-48 | the count changes by -1, 0 or +1, and only for device events of keyboards |
| `TabletModeKeyboard.Edge` | src/main.rs:50-54 | a value is written iff the count goes 0→1 or 1→0, and it is 1 (tablet mode on) exactly when the new count is 0 |
| `TabletModeKeyboard.TabletModeCounter.constructor` | src/main.rs:34 | the count starts at 0 |
| `TabletModeKeyboard.TabletModeCounter.Step` | src/main.rs:38-59 | the count moves by the event's delta; 0 is written exactly on 0→1, 1 exactly on 1→0, and nothing else is ever written |
| `TabletModeKeyboard.MainLoop` | src/main.rs:34-60 | from start-up, the values written are `Emissions(0, events)` and the final count is `Count(0, events)` |
| `TabletModeKeyboard.CountIsAddedMinusRemoved` | src/main.rs:49-59 | the count is the start value plus keyboard additions minus keyboard removals, with no clamping |
| `TabletModeKeyboard.WritesExactlyAtCrossings` | src/main.rs:49-56 | one more event writes 0 exactly when the count goes 0→1, writes 1 exactly when it goes 1→0, and writes nothing otherwise |
| `TabletModeKeyboard.NoEmissionWithinSide` | src/main.rs:50-54 | a step that stays at or above 1 (1→2, 2→1) or at or below 0 writes nothing |
| `TabletModeKeyboard.EmissionsAlternate` | src/main.rs:49-59 | from any start the written values alternate, the first being 1 if the count starts positive and 0 otherwise; the parity of their number tells on which side of 0/1 the count ends |
| `TabletModeKeyboard.FromStartup` | src/main.rs:34-59 | from start-up the written values are 0, 1, 0, …; the last written value is 0 if the final count is positive and 1 otherwise; nothing written means the count ends at 0 or below |
| `TabletModeKeyboard.TwoKeyboards` | src/main.rs:38-59 | keyboard added, added, removed, removed writes exactly [0, 1] |
| `TabletModeKeyboard.RemovalIsNotClamped` | src/main.rs:49-59 | a keyboard removal at count 0 takes the count to -1, so a following addition writes nothing |

## Left out

- udev monitoring with `ppoll` (src/bin/lgo1-trio.rs:77-116) is OS I/O. Its notifications appear as `Signal` wake-ups.
- The zero-capacity channel with `try_send` is left out. A notification sent while the reader is busy classifying is lost; the model delivers every `Signal` it is given. The `_` arms at src/bin/lgo1-trio.rs:124 and 130 also catch a closed channel: if the udev thread ends, the drain loop spins forever and nothing is published again, which the model sees as an endless stream of `Signal`s (`SignalsNeverPass`).
- Threads, `Arc<Mutex<…>>` and `spawn_loop` with its 10 s restart are left out. `read_keyboard_status` never returns; the model covers its one run.
- Timeouts are abstract wake-ups, not durations. A `LongTimeout` during the drain loop is read as a quiet period, because 120 s of silence includes 1000 ms of silence.
- The D-Bus registration and message loop are a foreign library and IPC. Only the published `u32` cell is modelled.
- `evdev::enumerate` is an input: each `Tick` carries the snapshot. The search for the internal keyboard (src/bin/lgo1-trio.rs:197-203) is not modelled, and neither is its "could not find internal keyboard" error.
- Building the uinput devices, and the I/O errors of `fetch_events`, `emit` and device creation, are foreign device I/O. Emitted events are return values.
- The `LibinputInterface` open/close flag handling and `Libinput` dispatch (src/main.rs:10-33, src/main.rs:35-36) are OS plumbing. libinput events are a parameter.
- `TabletModeKeyboard.Count`: `n_keyboards` is a Rust `i32`. Its overflow after 2^31 unmatched keyboard events is not modelled.
- Logging (`println!`, `eprintln!`) is left out.
