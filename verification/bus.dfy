/** The link between the host and the CST816S, seen as a log of register
    transactions on the two-wire bus and pulses on the reset line, and the
    register values that such a log leaves behind in the chip. */
module Bus {
  import opened Optional

  /** Register addresses of the CST816S register map. */
  const StatusReg: bv8 := 0x01
  const VersionReg: bv8 := 0x15
  const VersionInfoReg: bv8 := 0xA7
  const MotionMaskReg: bv8 := 0xEC
  const IrqControlReg: bv8 := 0xFA
  const AutoSleepTimeReg: bv8 := 0xF9
  const AutoSleepReg: bv8 := 0xFE
  const StandbyReg: bv8 := 0xA5

  /** One log entry. A bus transaction writes the register address first,
      then either reads back `bytes` or writes `payload` after it. A pulse
      on the reset line is not bus traffic; it returns every register to
      its power-on value. */
  datatype Txn =
    | Read(reg: bv8, bytes: seq<bv8>)
    | Write(reg: bv8, payload: seq<bv8>)
    | Reset

  /** Entry `t` writes register `reg`. */
  predicate Writes(t: Txn, reg: bv8) {
    t.Write? && t.reg == reg
  }

  /** Some entry after position `k` of `log` is a reset. */
  predicate ResetAfter(log: seq<Txn>, k: int) {
    exists j :: 0 <= j < |log| && k < j && log[j].Reset?
  }

  /** The payload last written to `reg` in `log` since the last reset;
      None when there is none, that is, when the register is at its
      power-on value. Reads do not change registers. */
  function LastWrite(log: seq<Txn>, reg: bv8): (v: Option<seq<bv8>>)
    ensures v.None? <==> forall k :: 0 <= k < |log| && Writes(log[k], reg) ==> ResetAfter(log, k)
    ensures v.Some? ==> exists k :: 0 <= k < |log| && log[k] == Write(reg, v.value)
                          && forall j :: k < j < |log| ==> !Writes(log[j], reg) && !log[j].Reset?
    decreases |log|
  {
    if |log| == 0 then None
    else
      var last := log[|log| - 1];
      if last.Reset? then None
      else if Writes(last, reg) then Some(last.payload)
      else LastWrite(log[..|log| - 1], reg)
  }

  /** A write is visible at once: its register now holds its payload, and
      every other register keeps what it held. */
  lemma WriteUpdatesRegister(log: seq<Txn>, r: bv8, p: seq<bv8>)
    ensures forall reg :: LastWrite(log + [Write(r, p)], reg) == if reg == r then Some(p) else LastWrite(log, reg)
  {
  }

  /** A read leaves every register as it was. */
  lemma ReadKeepsRegister(log: seq<Txn>, r: bv8, b: seq<bv8>)
    ensures forall reg :: LastWrite(log + [Read(r, b)], reg) == LastWrite(log, reg)
  {
  }

  /** A reset returns every register to its power-on value. */
  lemma ResetRestoresDefaults(log: seq<Txn>)
    ensures forall reg :: LastWrite(log + [Reset], reg) == None
  {
  }
}
