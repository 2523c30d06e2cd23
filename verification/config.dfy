/** The configuration operations of the driver seen from the chip's side:
    what each one leaves in the chip's registers, stated as a table
    independent of the operations' definitions. Register values are those
    last written since the last reset (see `Bus.LastWrite`). */
module Config {
  import opened Optional
  import opened Bus
  import opened Driver

  /** One call of a configuration operation. */
  datatype ConfigOp =
    | MotionMask(mask: bv8)
    | IrqControl(mask: bv8)
    | DoubleClick
    | DoubleClickInterruptOnly
    | AutoSleepOff
    | AutoSleepOn
    | AutoSleepTime(seconds: int)
    | Standby

  /** Performs one configuration operation: one or two log entries, each a
      single-byte register write or a reset pulse, and no other change. */
  function Configure(s: State, op: ConfigOp): (r: State)
    ensures r.(busLog := s.busLog) == s
    ensures |s.busLog| < |r.busLog| <= |s.busLog| + 2 && r.busLog[..|s.busLog|] == s.busLog
    ensures forall k :: |s.busLog| <= k < |r.busLog| ==>
              (r.busLog[k].Write? && |r.busLog[k].payload| == 1) || r.busLog[k].Reset?
  {
    match op
    case MotionMask(m) => SetMotionMask(s, m)
    case IrqControl(m) => SetIrqControl(s, m)
    case DoubleClick => EnableDoubleClick(s)
    case DoubleClickInterruptOnly => EnableDoubleClickInterruptOnly(s)
    case AutoSleepOff => DisableAutoSleep(s)
    case AutoSleepOn => EnableAutoSleep(s)
    case AutoSleepTime(t) => SetAutoSleepTime(s, t)
    case Standby => Sleep(s)
  }

  /** What an operation does to one register: leaves it alone, sets it to
      `value`, or returns it to its power-on value. */
  datatype RegEffect = Keep | Set(value: seq<bv8>) | Default

  /** The effect of each operation on register `reg`, as the driver's
      writes and reset pulses define it. Standby resets the chip before it
      writes, so it returns every register but the standby register to its
      power-on value. */
  function EffectOn(op: ConfigOp, reg: bv8): RegEffect {
    match op
    case MotionMask(m) => if reg == 0xEC then Set([m]) else Keep
    case IrqControl(m) => if reg == 0xFA then Set([m]) else Keep
    case DoubleClick => if reg == 0xEC then Set([0x01]) else Keep
    case DoubleClickInterruptOnly =>
      if reg == 0xEC then Set([0x01]) else if reg == 0xFA then Set([0x10]) else Keep
    case AutoSleepOff => if reg == 0xFE then Set([0xFE]) else Keep
    case AutoSleepOn => if reg == 0xFE then Set([0x00]) else Keep
    case AutoSleepTime(t) => if reg == 0xF9 then Set([ClampSleepTime(t) as bv8]) else Keep
    case Standby => if reg == 0xA5 then Set([0x03]) else Default
  }

  /** The register value after effect `e`, given the value `prev` before;
      None stands for the power-on value. */
  function Apply(e: RegEffect, prev: Option<seq<bv8>>): Option<seq<bv8>> {
    match e
    case Keep => prev
    case Set(v) => Some(v)
    case Default => None
  }

  /** Effect `first` followed by effect `second`. */
  function Then(first: RegEffect, second: RegEffect): RegEffect {
    if second.Keep? then first else second
  }

  /** Every configuration operation leaves in each register exactly the
      value that the effect table gives it. */
  lemma ConfigureEffect(s: State, op: ConfigOp, reg: bv8)
    ensures LastWrite(Configure(s, op).busLog, reg) == Apply(EffectOn(op, reg), LastWrite(s.busLog, reg))
  {
  }

  /** Auto sleep is known to be on: the auto-sleep register was last set to
      zero since the last reset. */
  predicate AutoSleepEnabled(log: seq<Txn>) {
    LastWrite(log, AutoSleepReg) == Some([0x00])
  }

  /** enable_auto_sleep() turns auto sleep on and disable_auto_sleep() turns
      it off by writing the non-zero byte 0xFE, whatever was configured
      before. */
  lemma AutoSleepSwitches(s: State)
    ensures AutoSleepEnabled(EnableAutoSleep(s).busLog)
    ensures !AutoSleepEnabled(DisableAutoSleep(s).busLog)
    ensures LastWrite(DisableAutoSleep(s).busLog, AutoSleepReg) == Some([0xFE])
  {
  }

  /** Performs configuration operations in order. */
  function ConfigureAll(s: State, ops: seq<ConfigOp>): (r: State)
    ensures r.(busLog := s.busLog) == s
    decreases |ops|
  {
    if |ops| == 0 then s
    else Configure(ConfigureAll(s, ops[..|ops| - 1]), ops[|ops| - 1])
  }

  /** The combined effect of `ops` on `reg`: that of the last operation
      that does something to it; Keep when none does. */
  function LastEffect(ops: seq<ConfigOp>, reg: bv8): RegEffect
    decreases |ops|
  {
    if |ops| == 0 then Keep
    else Then(LastEffect(ops[..|ops| - 1], reg), EffectOn(ops[|ops| - 1], reg))
  }

  /** After any sequence of configuration operations, each register holds
      the value set by the last operation that sets or resets it, or what
      it held before when none does. */
  lemma {:induction false} ConfigureAllEffect(s: State, ops: seq<ConfigOp>, reg: bv8)
    ensures LastWrite(ConfigureAll(s, ops).busLog, reg) == Apply(LastEffect(ops, reg), LastWrite(s.busLog, reg))
    decreases |ops|
  {
    if |ops| > 0 {
      var init := ops[..|ops| - 1];
      ConfigureAllEffect(s, init, reg);
      ConfigureEffect(ConfigureAll(s, init), ops[|ops| - 1], reg);
    }
  }

  /** Last write wins: setting the motion mask twice leaves every register
      as setting it once to the second value. */
  lemma MotionMaskLastWins(s: State, a: bv8, b: bv8, reg: bv8)
    ensures LastWrite(SetMotionMask(SetMotionMask(s, a), b).busLog, reg)
         == LastWrite(SetMotionMask(s, b).busLog, reg)
  {
  }

  /** sleep() forgets the configuration: after any configuration calls
      followed by sleep(), every register but the standby register is back
      at its power-on value. */
  lemma SleepForgetsConfiguration(s: State, ops: seq<ConfigOp>, reg: bv8)
    requires reg != StandbyReg
    ensures LastWrite(ConfigureAll(s, ops + [Standby]).busLog, reg) == None
  {
    assert (ops + [Standby])[..|ops|] == ops;
  }
}
