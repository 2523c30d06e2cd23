/** The CST816S driver object as an immutable state and its operations as
    state transitions. Every bus transaction and reset pulse an operation
    performs is appended to `busLog`; bytes read from the chip are
    parameters. */
module Driver {
  import opened Bus
  import opened TouchPacket
  import opened Gestures
  import opened Optional

  /** Identifies a user callback; calling it appends its id to `invoked`. */
  type CallbackId = nat

  /** A status packet as read from the bus: always six bytes. */
  type Packet = b: seq<bv8> | |b| == 6 witness [0, 0, 0, 0, 0, 0]

  /** The driver's state: the pending-event flag, the attached user
      callback, the last decoded touch, the identification bytes, the bus
      transactions and reset pulses so far and the callbacks invoked so
      far. */
  datatype State = State(
    eventAvailable: bool,
    callback: Option<CallbackId>,
    data: TouchData,
    version: bv8,
    versionInfo: seq<bv8>,
    busLog: seq<Txn>,
    invoked: seq<CallbackId>)

  /** A zero-initialised driver object: no event pending, no callback, no
      traffic yet. */
  function Init(): (s: State)
    ensures !s.eventAvailable && s.callback == None
    ensures s.busLog == [] && s.invoked == []
    ensures |s.versionInfo| == 3
  {
    State(false, None, TouchData(0, 0, 0, 0, 0), 0, [0, 0, 0], [], [])
  }

  /** The state after `s` performs log entry `t` and nothing else. */
  function Perform(s: State, t: Txn): (r: State)
    ensures r.busLog == s.busLog + [t]
    ensures r.(busLog := s.busLog) == s
    ensures forall reg :: LastWrite(r.busLog, reg)
                        == if Writes(t, reg) then Some(t.payload)
                           else if t.Reset? then None
                           else LastWrite(s.busLog, reg)
  {
    match t
    case Write(reg, p) => WriteUpdatesRegister(s.busLog, reg, p); s.(busLog := s.busLog + [t])
    case Read(reg, b) => ReadKeepsRegister(s.busLog, reg, b); s.(busLog := s.busLog + [t])
    case Reset => ResetRestoresDefaults(s.busLog); s.(busLog := s.busLog + [t])
  }

  // ---------------------------------------------------------------------
  // Bring-up, interrupt handoff and polling
  // ---------------------------------------------------------------------

  /** begin(): a reset pulse, then one read of the firmware version and
      one read of the three version-info bytes. `version` and `info` are
      whatever the bus delivers. Every register is left at its power-on
      value. */
  function Begin(s: State, version: bv8, info: seq<bv8>): (r: State)
    requires |info| == 3
    ensures r.busLog == s.busLog + [Reset, Read(VersionReg, [version]), Read(VersionInfoReg, info)]
    ensures r.version == version && r.versionInfo == info
    ensures r.(busLog := s.busLog, version := s.version, versionInfo := s.versionInfo) == s
    ensures forall reg :: LastWrite(r.busLog, reg) == None
  {
    Perform(Perform(Perform(s, Reset), Read(VersionReg, [version])), Read(VersionInfoReg, info))
      .(version := version, versionInfo := info)
  }

  /** attachUserInterrupt(): the new callback replaces the old one; `None`
      models an empty function object, which detaches. */
  function AttachUserInterrupt(s: State, cb: Option<CallbackId>): (r: State)
    ensures r.callback == cb
    ensures r.(callback := s.callback) == s
  {
    s.(callback := cb)
  }

  /** handleISR(), one atomic step: the pending flag is set and the attached
      callback, if any, is invoked once. No bus traffic. */
  function HandleIsr(s: State): (r: State)
    ensures r.eventAvailable
    ensures s.callback.None? ==> r.invoked == s.invoked
    ensures s.callback.Some? ==> r.invoked == s.invoked + [s.callback.value]
    ensures r.(eventAvailable := s.eventAvailable, invoked := s.invoked) == s
  {
    var flagged := s.(eventAvailable := true);
    match s.callback
    case None => flagged
    case Some(cb) => flagged.(invoked := s.invoked + [cb])
  }

  /** read_touch(): one 6-byte read of the status register, decoded into
      the touch record. */
  function ReadTouch(s: State, p: Packet): (r: State)
    ensures r.busLog == s.busLog + [Read(StatusReg, p)]
    ensures r.data == Decode(p)
    ensures r.(busLog := s.busLog, data := s.data) == s
  {
    Perform(s, Read(StatusReg, p)).(data := Decode(p))
  }

  /** The answer of available() and the state after it. */
  datatype Polled = Polled(touched: bool, state: State)

  /** available(): when an event is pending, read and decode the status
      packet `p`, clear the flag and answer true; otherwise answer false and
      change nothing. */
  function Available(s: State, p: Packet): (r: Polled)
    ensures r.touched == s.eventAvailable
    ensures !r.state.eventAvailable
    ensures !s.eventAvailable ==> r.state == s
    ensures s.eventAvailable ==> r.state.busLog == s.busLog + [Read(StatusReg, p)]
    ensures s.eventAvailable ==> r.state.data == Decode(p)
    ensures r.state.(eventAvailable := s.eventAvailable, busLog := s.busLog, data := s.data) == s
  {
    if s.eventAvailable then
      Polled(true, ReadTouch(s, p).(eventAvailable := false))
    else
      Polled(false, s)
  }

  /** `k` interrupts in a row, each handled by handleISR(). */
  function IsrTimes(s: State, k: nat): (r: State)
    ensures k == 0 ==> r == s
    ensures k > 0 ==> r.eventAvailable
    ensures r.(eventAvailable := s.eventAvailable, invoked := s.invoked) == s
    ensures r.invoked == s.invoked
                         + (if s.callback.Some? then seq(k, _ => s.callback.value) else [])
    decreases k
  {
    if k == 0 then s else HandleIsr(IsrTimes(s, k - 1))
  }

  /** available() as written, with `k` interrupts preempting it after
      read_touch() returns and before the flag is cleared (none can matter
      when the flag was clear: then they arrive after the test). The flag
      they set is cleared, so their event is never reported. */
  function AvailableInterrupted(s: State, p: Packet, k: nat): (r: Polled)
    ensures r.touched == s.eventAvailable
    ensures s.eventAvailable ==> !r.state.eventAvailable
    ensures !s.eventAvailable ==> r.state == IsrTimes(s, k)
    ensures s.eventAvailable ==>
              r.state.busLog == s.busLog + [Read(StatusReg, p)] && r.state.data == Decode(p)
    ensures r.state.(eventAvailable := s.eventAvailable, busLog := s.busLog,
                     data := s.data, invoked := s.invoked) == s
    ensures r.state.invoked == s.invoked
                               + (if s.callback.Some? then seq(k, _ => s.callback.value) else [])
  {
    if s.eventAvailable then
      Polled(true, IsrTimes(ReadTouch(s, p), k).(eventAvailable := false))
    else
      Polled(false, IsrTimes(s, k))
  }

  /** available() with the flag cleared before read_touch(), and `k`
      interrupts preempting it after the flag is cleared: the flag
      afterwards says exactly whether an interrupt arrived during the call,
      so no event is lost. */
  function AvailableClearFirst(s: State, p: Packet, k: nat): (r: Polled)
    ensures r.touched == s.eventAvailable
    ensures r.state.eventAvailable <==> k > 0
    ensures r.state.busLog == s.busLog + (if s.eventAvailable then [Read(StatusReg, p)] else [])
    ensures s.eventAvailable ==> r.state.data == Decode(p)
    ensures r.state.(eventAvailable := s.eventAvailable, busLog := s.busLog,
                     data := s.data, invoked := s.invoked) == s
    ensures r.state.invoked == s.invoked
                               + (if s.callback.Some? then seq(k, _ => s.callback.value) else [])
  {
    if s.eventAvailable then
      Polled(true, IsrTimes(ReadTouch(s.(eventAvailable := false), p), k))
    else
      Polled(false, IsrTimes(s, k))
  }

  /** gesture(): the display name of the last decoded gesture code. */
  function Gesture(s: State, codes: GestureCodes): (name: string)
    ensures name == Unknown <==> s.data.gestureID !in Codes(codes)
  {
    GestureName(codes, s.data.gestureID)
  }

  // ---------------------------------------------------------------------
  // Configuration: one single-byte register write each
  // ---------------------------------------------------------------------

  /** `r` is `s` after exactly one write of the single byte `value` to
      register `reg`, and no other change. */
  predicate WroteByte(s: State, r: State, reg: bv8, value: bv8) {
    r.busLog == s.busLog + [Write(reg, [value])] && r.(busLog := s.busLog) == s
  }

  /** set_motion_mask(): the mask goes verbatim to the motion mask register. */
  function SetMotionMask(s: State, mask: bv8): (r: State)
    ensures WroteByte(s, r, MotionMaskReg, mask)
  {
    Perform(s, Write(0xEC, [mask]))
  }

  /** set_irq_control(): the mask goes verbatim to the IRQ control register. */
  function SetIrqControl(s: State, mask: bv8): (r: State)
    ensures WroteByte(s, r, IrqControlReg, mask)
  {
    Perform(s, Write(0xFA, [mask]))
  }

  /** enable_double_click(): enables double-tap detection only. */
  function EnableDoubleClick(s: State): (r: State)
    ensures r == SetMotionMask(s, 0x01)
  {
    Perform(s, Write(0xEC, [0x01]))
  }

  /** enable_double_click_interrupt_only(): double-tap detection only, and
      an interrupt on motion events only. */
  function EnableDoubleClickInterruptOnly(s: State): (r: State)
    ensures r.busLog == s.busLog + [Write(MotionMaskReg, [0x01]), Write(IrqControlReg, [0x10])]
    ensures r.(busLog := s.busLog) == s
  {
    SetIrqControl(SetMotionMask(s, 0x01), 0x10)
  }

  /** disable_auto_sleep(): a non-zero value to the auto-sleep register. */
  function DisableAutoSleep(s: State): (r: State)
    ensures WroteByte(s, r, AutoSleepReg, 0xFE)
  {
    Perform(s, Write(0xFE, [0xFE]))
  }

  /** enable_auto_sleep(): zero to the auto-sleep register. */
  function EnableAutoSleep(s: State): (r: State)
    ensures WroteByte(s, r, AutoSleepReg, 0x00)
  {
    Perform(s, Write(0xFE, [0x00]))
  }

  /** The auto-sleep timeout actually written for a requested number of
      seconds: the nearest value in [1, 255]. */
  function ClampSleepTime(seconds: int): (t: int)
    ensures 1 <= t <= 255
    ensures 1 <= seconds <= 255 ==> t == seconds
    ensures forall v :: 1 <= v <= 255 ==> Dist(t, seconds) <= Dist(v, seconds)
  {
    if seconds < 1 then 1
    else if seconds > 255 then 255
    else seconds
  }

  /** Distance between two integers. */
  function Dist(a: int, b: int): nat {
    if a < b then b - a else a - b
  }

  /** set_auto_sleep_time(): the clamped timeout, as one byte, to the
      auto-sleep time register. */
  function SetAutoSleepTime(s: State, seconds: int): (r: State)
    ensures WroteByte(s, r, AutoSleepTimeReg, ClampSleepTime(seconds) as bv8)
    ensures 1 <= seconds <= 255 ==> WroteByte(s, r, AutoSleepTimeReg, seconds as bv8)
    ensures seconds < 1 ==> WroteByte(s, r, AutoSleepTimeReg, 0x01)
    ensures seconds > 255 ==> WroteByte(s, r, AutoSleepTimeReg, 0xFF)
  {
    var t := ClampSleepTime(seconds);
    Perform(s, Write(0xF9, [t as bv8]))
  }

  /** sleep(): a reset pulse, then 0x03 to the standby register. The reset
      undoes every earlier configuration write. */
  function Sleep(s: State): (r: State)
    ensures r.busLog == s.busLog + [Reset, Write(StandbyReg, [0x03])]
    ensures r.(busLog := s.busLog) == s
    ensures forall reg :: LastWrite(r.busLog, reg) == if reg == StandbyReg then Some([0x03]) else None
  {
    Perform(Perform(s, Reset), Write(0xA5, [0x03]))
  }

  // ---------------------------------------------------------------------
  // Properties of single operations
  // ---------------------------------------------------------------------

  /** The clamp is idempotent: clamping a clamped value changes nothing. */
  lemma ClampIdempotent(seconds: int)
    ensures ClampSleepTime(ClampSleepTime(seconds)) == ClampSleepTime(seconds)
  {
  }

  /** The clamp is monotonic. */
  lemma ClampMonotonic(a: int, b: int)
    requires a <= b
    ensures ClampSleepTime(a) <= ClampSleepTime(b)
  {
  }

  /** Three sample inputs: 0 gives 1, 300 gives 255, 40
      gives 40. */
  lemma ClampExamples()
    ensures ClampSleepTime(0) == 1 && ClampSleepTime(300) == 255 && ClampSleepTime(40) == 40
  {
  }

  /** After a successful poll, gesture() names the code in byte 0 of the
      packet that was read. */
  lemma GestureAfterPoll(s: State, p: Packet, codes: GestureCodes)
    requires s.eventAvailable
    ensures Gesture(Available(s, p).state, codes) == GestureName(codes, p[0])
  {
  }

  /** Attaching twice keeps only the second callback: the next interrupt
      invokes it alone, or nothing when the second attach detached. */
  lemma LastAttachedCallbackFires(s: State, first: Option<CallbackId>, second: Option<CallbackId>)
    ensures HandleIsr(AttachUserInterrupt(AttachUserInterrupt(s, first), second)).invoked
         == s.invoked + (if second.Some? then [second.value] else [])
  {
  }

  /** A second poll without an interrupt in between answers false and does
      no bus traffic. */
  lemma PollTwice(s: State, p: Packet, q: Packet)
    ensures var first := Available(s, p);
            var second := Available(first.state, q);
            !second.touched && second.state == first.state
  {
  }

  /** The lost interrupt, as written: one interrupt that arrives after
      read_touch() returns and before the flag is cleared, in a successful
      poll, sets the flag, which available() then clears; so the next poll
      answers false and reads nothing. */
  lemma InterruptDuringReadIsLost(s: State, p: Packet, q: Packet)
    requires s.eventAvailable
    ensures var first := AvailableInterrupted(s, p, 1);
            var next := Available(first.state, q);
            first.touched && !next.touched && next.state.busLog == first.state.busLog
  {
  }

  /** With the flag cleared first, an interrupt that arrives after the clear
      stays pending: the next poll answers true and reads the new packet. */
  lemma ClearFirstKeepsInterrupt(s: State, p: Packet, k: nat, q: Packet)
    requires k > 0
    ensures var first := AvailableClearFirst(s, p, k);
            var next := Available(first.state, q);
            next.touched && next.state.data == Decode(q)
  {
  }

  /** Without preemption the two orders agree with each other and with
      `Available`, so runs of whole steps are the same under both. */
  lemma UninterruptedPollsAgree(s: State, p: Packet)
    ensures AvailableClearFirst(s, p, 0) == Available(s, p)
    ensures AvailableInterrupted(s, p, 0) == Available(s, p)
  {
  }
}
