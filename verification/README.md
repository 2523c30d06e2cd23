# CST816S touch-controller driver, modelled in Dafny

This project models the logic of the CST816S driver (`CST816S.cpp`). The
CST816S is a capacitive touch controller that reports gestures and touch
coordinates to a host microcontroller over a two-wire (I²C) bus. The model
has four parts:

- **Status packet decoding** (`read_touch`). The 6 bytes read from register
  0x01 become a touch record: gesture code, number of points, a 2-bit event,
  and 12-bit x and y. The model pairs it with an encoder and proves the
  round trips and the bit layout (`packet.dfy`, module `TouchPacket`).
- **The pending-event handoff** (`handleISR`, `available`,
  `attachUserInterrupt`). The driver is an immutable `State`. The interrupt
  handler is one atomic transition that sets the flag and invokes the
  attached callback. `available()` reads, decodes and clears the flag only
  when the flag is set (`driver.dfy`, module `Driver`). Over whole runs of
  interrupts, polls and attachments, a poll answers true exactly once per
  burst of interrupts (`handoff.dfy`, module `Handoff`).
- **Configuration writes** (`set_motion_mask`, `set_irq_control`,
  `enable_double_click`, `enable_double_click_interrupt_only`,
  `enable_auto_sleep`, `disable_auto_sleep`, `set_auto_sleep_time`, `sleep`).
  Each one appends write records to the bus log; `sleep` first appends a
  reset pulse. What they leave in the chip's registers is checked against
  an independent table of register effects (`config.dfy`, module `Config`).
- **Gesture names** (`gesture`). This is a total lookup from a byte to a
  display string (`gestures.dfy`, module `Gestures`).

The chip link is a log (`bus.dfy`, module `Bus`). Each entry is a bus
transaction `Read(reg, bytes)` or `Write(reg, payload)`, or a `Reset` pulse
on the reset line, which `begin` and `sleep` send and which returns every
register to its power-on value. `LastWrite` gives the value last written to
a register since the last reset (None for the power-on value), and it has
its own quantified specification. Bytes read from the chip are parameters of
the operations that read them, so they can be anything.

## Model

| member | source | states |
|---|---|---|
| TouchPacket.Decode | CST816S.cpp:58-62 | byte 0 is the gesture and byte 1 the point count, unchanged; the event is the top two bits of byte 2, so it is below 4; x and y are below 4096 |
| TouchPacket.Coordinate | CST816S.cpp:61-62 | `((hi & 0xF) << 8) + lo` is below 4096, equals the bitwise-or form, and gives back both the low nibble of `hi` and all of `lo` |
| TouchPacket.Encode | CST816S.cpp:58-62 | the canonical packet for an in-range record: 6 bytes with the unread bits zero, gesture and points in bytes 0 and 1 |
| TouchPacket.ReadBits | CST816S.cpp:60-62 | the bits that decoding reads; a canonical packet is its own read bits |
| TouchPacket.DecodeEncode | CST816S.cpp:58-62 | round trip: for any gesture, points, event < 4 and x, y < 4096, encoding then decoding returns every field |
| TouchPacket.EncodeDecode | CST816S.cpp:58-62 | round trip: decoding then encoding returns the packet with bits 4-5 of byte 2 and the high nibble of byte 4 cleared |
| TouchPacket.DecodeSeesOnlyReadBits | CST816S.cpp:60-62 | two packets decode alike if and only if they agree on every bit that is read; the unread bits have no effect |
| TouchPacket.DecodeExample | CST816S.cpp:58-62 | 02 01 C3 FF 41 10 decodes to gesture 2, one point, event 3, x 0x3FF, y 0x110 |
| Gestures.GestureName | CST816S.cpp:251-283 | total over all bytes; the result is "UNKNOWN" exactly when the byte is none of the eight codes, and otherwise one of the eight names |
| Gestures.KnownCodeNames | CST816S.cpp:255-278 | with distinct codes, each of the eight codes maps to its own name |
| Gestures.NameIdentifiesCode | CST816S.cpp:251-283 | with distinct codes, two bytes with the same known name are the same byte |
| Bus.LastWrite | CST816S.cpp:322-333 | the value of a register is the payload last written to it since the last reset: None (the power-on value) exactly when every write to it is followed by a reset, otherwise a write to it with no later write to it and no later reset |
| Bus.WriteUpdatesRegister | CST816S.cpp:322-333 | a write sets its own register to its payload and leaves all others alone |
| Bus.ReadKeepsRegister | CST816S.cpp:296-308 | a read leaves every register as it was |
| Bus.ResetRestoresDefaults | CST816S.cpp:198-203 | after a reset pulse every register is at its power-on value |
| Driver.Init | CST816S.cpp:42-48 | a fresh driver has no pending event, no callback, no bus traffic and no invocations |
| Driver.Perform | CST816S.cpp:296-333 | one transaction or reset is one log entry: nothing else changes; a write changes only its own register, a reset returns every register to its power-on value, a read changes none |
| Driver.Begin | CST816S.cpp:198-207 | bring-up pulses reset, then reads 1 byte of register 0x15 and 3 bytes of 0xA7, in that order, and stores them; every register is at its power-on value afterwards; flag, callback and touch data are untouched |
| Driver.AttachUserInterrupt | CST816S.cpp:216-219 | the new callback replaces the old one (an empty one detaches), and nothing else changes |
| Driver.HandleIsr | CST816S.cpp:68-76 | the flag is set; the attached callback is invoked exactly once, or none when detached; no bus traffic, nothing else changes |
| Driver.ReadTouch | CST816S.cpp:53-62 | exactly one 6-byte read of register 0x01, whose decode becomes the touch data |
| Driver.Available | CST816S.cpp:224-233 | answers the flag; with the flag clear, the state and bus log are unchanged; with it set, exactly one read of register 0x01 is appended, its decode becomes the data and the flag is cleared; afterwards the flag is always clear |
| Driver.IsrTimes | CST816S.cpp:68-76 | k interrupts in a row: the flag is set when k > 0, the attached callback, if any, is appended k times to the invocation log after the earlier entries, and nothing else changes |
| Driver.AvailableInterrupted | CST816S.cpp:224-233 | `available()` as written, preempted by k interrupts after `read_touch()` returns and before the flag clear: it answers the old flag and, when that was set, reads register 0x01 once, decodes the packet into the data and leaves the flag clear, although the attached callback, if any, was appended k more times to the invocation log; nothing else changes |
| Driver.AvailableClearFirst | CST816S.cpp:224-233 | `available()` with the flag cleared before the read: it answers the old flag; when that was set it reads register 0x01 once and decodes the packet into the data; the flag afterwards is set exactly when an interrupt arrived after the clear; the attached callback, if any, is appended once per interrupt; nothing else changes |
| Driver.InterruptDuringReadIsLost | CST816S.cpp:226-230 | as written, one interrupt that arrives after `read_touch()` returns and before the flag is cleared, in a successful poll, is lost: the next poll answers false and reads nothing |
| Driver.ClearFirstKeepsInterrupt | CST816S.cpp:226-230 | with the flag cleared first, an interrupt that arrives after the clear stays pending: the next poll answers true and decodes the new packet |
| Driver.UninterruptedPollsAgree | CST816S.cpp:224-233 | without preemption both orders equal `Available`, so whole-step runs are the same under either |
| Driver.Gesture | CST816S.cpp:251-283 | the name of the last decoded gesture; "UNKNOWN" exactly when it is none of the codes |
| Driver.SetMotionMask | CST816S.cpp:103-106 | the mask goes verbatim, as one byte, to register 0xEC, and nothing else changes |
| Driver.SetIrqControl | CST816S.cpp:130-133 | the mask goes verbatim, as one byte, to register 0xFA, and nothing else changes |
| Driver.EnableDoubleClick | CST816S.cpp:82-86 | the same state as `SetMotionMask(s, 0x01)` |
| Driver.EnableDoubleClickInterruptOnly | CST816S.cpp:139-146 | the bus trace is a write of 0x01 to 0xEC followed by a write of 0x10 to 0xFA, and nothing else changes |
| Driver.DisableAutoSleep | CST816S.cpp:152-156 | a single write of 0xFE to register 0xFE |
| Driver.EnableAutoSleep | CST816S.cpp:161-165 | a single write of 0x00 to register 0xFE |
| Driver.ClampSleepTime | CST816S.cpp:173-180 | the result lies in [1, 255]; in-range inputs pass through unchanged; the result is the point of [1, 255] nearest the input |
| Driver.SetAutoSleepTime | CST816S.cpp:171-184 | exactly one byte goes to register 0xF9: the input when it is in [1, 255], 1 below that range, 255 above it |
| Driver.Sleep | CST816S.cpp:238-246 | a reset pulse, then a single write of 0x03 to register 0xA5; afterwards 0xA5 holds 0x03 and every other register is at its power-on value |
| Driver.ClampIdempotent | CST816S.cpp:173-180 | clamping twice is clamping once |
| Driver.ClampMonotonic | CST816S.cpp:173-180 | a larger request never gives a shorter timeout |
| Driver.ClampExamples | CST816S.cpp:173-180 | 0 gives 1, 300 gives 255, 40 gives 40 |
| Driver.GestureAfterPoll | CST816S.cpp:251-283 | after a successful poll, gesture() names byte 0 of the packet just read |
| Driver.LastAttachedCallbackFires | CST816S.cpp:216-219 | after two attachments, an interrupt invokes only the second callback, or nothing when the second detached |
| Driver.PollTwice | CST816S.cpp:224-233 | a second poll with no interrupt in between answers false and changes nothing |
| Config.Configure | CST816S.cpp:82-246 | each configuration call appends one or two log entries, each a single-byte write or a reset, and changes nothing else |
| Config.ConfigureEffect | CST816S.cpp:82-246 | each configuration call leaves, in every register, the value the register-effect table gives: the value it sets, the power-on value after `sleep`'s reset, or the earlier value |
| Config.AutoSleepSwitches | CST816S.cpp:152-165 | whatever came before, enable_auto_sleep leaves 0x00 in register 0xFE (auto sleep on) and disable_auto_sleep leaves the non-zero byte 0xFE there (auto sleep off) |
| Config.ConfigureAllEffect | CST816S.cpp:82-246 | after any sequence of configuration calls, each register holds what the last call that sets or resets it leaves there, or its earlier value when no call does |
| Config.MotionMaskLastWins | CST816S.cpp:103-106 | setting the motion mask twice leaves the registers as setting it once to the second value |
| Config.SleepForgetsConfiguration | CST816S.cpp:238-246 | after any configuration calls followed by `sleep`, every register but 0xA5 is at its power-on value |
| Handoff.Run | CST816S.cpp:224-233 | a run gives one answer per poll and never changes the identification bytes |
| Handoff.RunBusTraffic | CST816S.cpp:224-233 | during a run of interrupts, polls and attachments, the only bus traffic is one 6-byte read of register 0x01 per true answer |
| Handoff.FlagIsPending | CST816S.cpp:68-76 | after any run, the flag is set if and only if some interrupt has not yet been followed by a poll, or the flag started set and nothing has polled |
| Handoff.PollAnswer | CST816S.cpp:224-233 | a poll answers true, and reads the bus, if and only if an interrupt arrived since the previous poll |
| Handoff.PollAfterInterrupt | CST816S.cpp:68-76 | a poll right after an interrupt answers true |
| Handoff.PollAfterPoll | CST816S.cpp:229-232 | a poll right after a poll answers false |
| Handoff.FirstPollAfterInterrupts | CST816S.cpp:224-233 | after any history, the first poll after one or more interrupts answers true |
| Handoff.ExactlyOnce | CST816S.cpp:224-233 | after any history, n >= 1 interrupts and then m >= 1 polls give one true answer followed by m - 1 false ones |
| Handoff.CallbackOnlyByAttach | CST816S.cpp:216-219 | interrupts and polls never change the attached callback |
| Handoff.AttachedCallbackFires | CST816S.cpp:73-75 | after an attachment, with any interrupts and polls in between, the next interrupt invokes exactly that callback, or nothing when it detached |

## Left out

- The I²C transport inside `i2c_read`/`i2c_write` is not modelled. Each call is one log entry. The callers discard the status code, so the model has none.
- Bus.LastWrite: a write whose transfer fails leaves its register unchanged in the chip, but the model assumes every transfer succeeds. Its value is therefore the last value written, not a reading of the chip.
- The device address `CST816S_ADDRESS` is not modelled. It is defined in `CST816S.h`, which is not part of this model, and every transaction uses the same address.
- The constructor's pin numbers are not modelled. Nor are the pin modes, the `digitalWrite` and `delay` calls, or the pulse timing. Each reset pulse in `begin` and `sleep` is one `Reset` log entry.
- `attachInterrupt` registration in `begin` is not modelled. In a `Handoff` run the interrupt handler is an atomic step that the environment takes between whole operations.
- Handoff.FlagIsPending: polls in a run are atomic. An interrupt that arrives between `read_touch()` (CST816S.cpp:228) and the flag clear (CST816S.cpp:229) is lost in the code, and a run cannot show it. `Driver.AvailableInterrupted` models that window (see Findings).
- Handoff.PollAnswer: states the answer for atomic polls only, for the same reason.
- Handoff.ExactlyOnce: holds for atomic polls only; with preemption inside a poll an event can be reported zero times (`Driver.InterruptDuringReadIsLost`).
- Driver.AvailableInterrupted: the interrupts arrive after `read_touch()` returns. An interrupt during the I²C transfer itself is not modelled, because whether its touch is in the bytes being read depends on the chip's timing.
- The numeric gesture codes come from `CST816S.h`, which is not part of this model. They are a parameter: eight bytes, assumed pairwise distinct where a lemma needs it.
- The initial values of the flag, the callback and the touch record come from `CST816S.h`. `Driver.Init` assumes a zero-initialised object.
- A failed status read leaves the local buffer uninitialised, which is undefined behaviour. The model treats the bytes read as an arbitrary 6-byte input instead.
- What a user callback does is not modelled, since it is user code. An invocation appends the callback's id to the `invoked` log.
- `set_auto_sleep_time` takes a C `int`. The model takes an unbounded integer. The clamp covers every integer, so the 32-bit width changes nothing.
- The chip's meaning of the event field (down, up, contact) is not modelled. The driver does not interpret it.
- The return type of `gesture()` is Arduino `String`. The model returns a Dafny `string`.

## Findings

| source | as written | input that shows it | evidently intended | confidence | as-written member | corrected member |
|---|---|---|---|---|---|---|
| CST816S.cpp:226-230 | `available()` calls `read_touch()` and then clears `_event_available` | the flag is set; a poll starts; one interrupt preempts it after `read_touch()` returns and before the flag is cleared; the next poll answers false | every interrupt is reported by some poll, so the flag is cleared before the read | medium, not executed | Driver.InterruptDuringReadIsLost | Driver.ClearFirstKeepsInterrupt |

`Driver.Available`, and with it every `Handoff` run, is the unpreempted poll,
where both orders agree (`Driver.UninterruptedPollsAgree`).
