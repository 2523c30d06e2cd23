/** Runs of the driver: interrupts, polls of available() and callback
    attachments in any order. The pending-event flag hands each burst of
    interrupts to exactly one poll. */
module Handoff {
  import opened Optional
  import opened Bus
  import opened Driver

  /** One thing that can happen to the driver: an interrupt edge, a call of
      available() that would read packet `p` if it reads, or a call of
      attachUserInterrupt(). */
  datatype Step =
    | Interrupt
    | Poll(p: Packet)
    | Attach(cb: Option<CallbackId>)

  /** The state after a run and the answers of its polls, in order. */
  datatype Trace = Trace(state: State, answers: seq<bool>)

  /** The number of polls among `steps`. */
  function PollCount(steps: seq<Step>): nat
    decreases |steps|
  {
    if |steps| == 0 then 0
    else PollCount(steps[..|steps| - 1]) + (if steps[|steps| - 1].Poll? then 1 else 0)
  }

  /** The number of true answers. */
  function TrueCount(answers: seq<bool>): nat
    decreases |answers|
  {
    if |answers| == 0 then 0
    else TrueCount(answers[..|answers| - 1]) + (if answers[|answers| - 1] then 1 else 0)
  }

  /** Runs `steps` from `s`. One answer per poll; the identification
      bytes never change. */
  function Run(s: State, steps: seq<Step>): (t: Trace)
    ensures |t.answers| == PollCount(steps)
    ensures t.state.version == s.version && t.state.versionInfo == s.versionInfo
    decreases |steps|
  {
    if |steps| == 0 then Trace(s, [])
    else
      var prev := Run(s, steps[..|steps| - 1]);
      match steps[|steps| - 1]
      case Interrupt => Trace(HandleIsr(prev.state), prev.answers)
      case Poll(p) =>
        var polled := Available(prev.state, p);
        Trace(polled.state, prev.answers + [polled.touched])
      case Attach(cb) => Trace(AttachUserInterrupt(prev.state, cb), prev.answers)
  }

  /** In any run the bus carries nothing but one 6-byte status read per
      true answer, appended to what was there before. */
  lemma {:induction false} RunBusTraffic(s: State, steps: seq<Step>)
    ensures var t := Run(s, steps);
            && |t.state.busLog| == |s.busLog| + TrueCount(t.answers)
            && t.state.busLog[..|s.busLog|] == s.busLog
            && forall k :: |s.busLog| <= k < |t.state.busLog| ==>
                 t.state.busLog[k].Read? && t.state.busLog[k].reg == StatusReg && |t.state.busLog[k].bytes| == 6
    decreases |steps|
  {
    if |steps| > 0 {
      RunBusTraffic(s, steps[..|steps| - 1]);
    }
  }

  /** Reference definition of the flag: an event is pending after `steps`
      exactly when some interrupt has not been followed by any poll, or the
      flag was set to begin with and nothing has polled it yet. */
  ghost predicate Pending(initially: bool, steps: seq<Step>) {
    || (exists i :: 0 <= i < |steps| && steps[i].Interrupt? && NoPollAfter(steps, i))
    || (initially && NoPollAfter(steps, -1))
  }

  /** No step after position `i` is a poll. */
  ghost predicate NoPollAfter(steps: seq<Step>, i: int) {
    forall j :: 0 <= j < |steps| && i < j ==> !steps[j].Poll?
  }

  /** The driver's flag is exactly the reference definition, after any run. */
  lemma {:induction false} FlagIsPending(s: State, steps: seq<Step>)
    ensures Run(s, steps).state.eventAvailable <==> Pending(s.eventAvailable, steps)
    decreases |steps|
  {
    if |steps| > 0 {
      var n := |steps| - 1;
      var init := steps[..n];
      FlagIsPending(s, init);
      assert forall j :: 0 <= j < n ==> init[j] == steps[j];
      match steps[n]
      case Interrupt =>
        assert steps[n].Interrupt? && NoPollAfter(steps, n);
      case Poll(p) =>
        assert !NoPollAfter(steps, -1) by { assert steps[n].Poll?; }
        forall i | 0 <= i < |steps| && steps[i].Interrupt?
          ensures !NoPollAfter(steps, i)
        {
          assert steps[n].Poll?;
        }
      case Attach(cb) =>
        assert Pending(s.eventAvailable, steps) <==> Pending(s.eventAvailable, init) by {
          assert NoPollAfter(steps, -1) <==> NoPollAfter(init, -1);
          forall i | -1 <= i < n
            ensures NoPollAfter(steps, i) <==> NoPollAfter(init, i)
          {
          }
        }
    }
  }

  /** A poll answers true exactly when an interrupt has arrived since the
      previous poll (or, before any poll, when the flag was set to begin
      with); it reads the bus only then. */
  lemma PollAnswer(s: State, steps: seq<Step>, p: Packet)
    ensures Run(s, steps + [Poll(p)]).answers == Run(s, steps).answers + [Pending(s.eventAvailable, steps)]
    ensures Run(s, steps + [Poll(p)]).state.busLog
         == Run(s, steps).state.busLog + (if Pending(s.eventAvailable, steps) then [Read(StatusReg, p)] else [])
  {
    assert (steps + [Poll(p)])[..|steps|] == steps;
    FlagIsPending(s, steps);
  }

  /** `n` interrupts in a row. */
  function Interrupts(n: nat): (steps: seq<Step>)
    ensures |steps| == n && forall i :: 0 <= i < n ==> steps[i] == Interrupt
  {
    seq(n, _ => Interrupt)
  }

  /** `m` polls in a row. */
  function Polls(m: nat, p: Packet): (steps: seq<Step>)
    ensures |steps| == m && forall i :: 0 <= i < m ==> steps[i] == Poll(p)
  {
    seq(m, _ => Poll(p))
  }

  /** Exactly once: after any history, any number n >= 1 of interrupts
      followed by m >= 1 polls yields one true answer and then m - 1 false
      ones. */
  lemma {:induction false} ExactlyOnce(s: State, history: seq<Step>, n: nat, m: nat, p: Packet)
    requires n >= 1 && m >= 1
    ensures Run(s, history + Interrupts(n) + Polls(m, p)).answers
         == Run(s, history).answers + [true] + Falses(m - 1)
    decreases m
  {
    var prefix := history + Interrupts(n);
    if m == 1 {
      FirstPollAfterInterrupts(s, history, n, p);
      assert prefix + Polls(1, p) == prefix + [Poll(p)];
    } else {
      ExactlyOnce(s, history, n, m - 1, p);
      var before := prefix + Polls(m - 2, p);
      assert prefix + Polls(m - 1, p) == before + [Poll(p)];
      assert prefix + Polls(m, p) == before + [Poll(p)] + [Poll(p)];
      PollAfterPoll(s, before, p, p);
    }
  }

  /** `k` false answers. */
  function Falses(k: nat): (a: seq<bool>)
    ensures |a| == k && forall i :: 0 <= i < k ==> !a[i]
    decreases k
  {
    if k == 0 then [] else Falses(k - 1) + [false]
  }

  /** The first poll after n >= 1 interrupts answers true. */
  lemma FirstPollAfterInterrupts(s: State, history: seq<Step>, n: nat, p: Packet)
    requires n >= 1
    ensures Run(s, history + Interrupts(n) + [Poll(p)]).answers == Run(s, history).answers + [true]
  {
    PollAfterInterrupt(s, history + Interrupts(n - 1), p);
    assert history + Interrupts(n - 1) + [Interrupt] == history + Interrupts(n);
    PrefixAnswers(s, history, Interrupts(n));
  }

  /** A poll right after an interrupt answers true. */
  lemma PollAfterInterrupt(s: State, steps: seq<Step>, p: Packet)
    ensures Run(s, steps + [Interrupt] + [Poll(p)]).answers == Run(s, steps + [Interrupt]).answers + [true]
  {
  }

  /** A poll right after a poll answers false. */
  lemma PollAfterPoll(s: State, steps: seq<Step>, q: Packet, p: Packet)
    ensures Run(s, steps + [Poll(q)] + [Poll(p)]).answers == Run(s, steps + [Poll(q)]).answers + [false]
  {
  }

  /** Steps with no poll leave the answers as they were. */
  lemma {:induction false} PrefixAnswers(s: State, history: seq<Step>, rest: seq<Step>)
    requires forall i :: 0 <= i < |rest| ==> !rest[i].Poll?
    ensures Run(s, history + rest).answers == Run(s, history).answers
    decreases |rest|
  {
    if |rest| > 0 {
      var shorter := rest[..|rest| - 1];
      PrefixAnswers(s, history, shorter);
      var all := history + rest;
      assert all[..|all| - 1] == history + shorter;
      assert all[|all| - 1] == rest[|rest| - 1];
    } else {
      assert history + rest == history;
    }
  }

  /** Interrupts and polls never change the attached callback. */
  lemma {:induction false} CallbackOnlyByAttach(s: State, steps: seq<Step>)
    requires forall i :: 0 <= i < |steps| ==> !steps[i].Attach?
    ensures Run(s, steps).state.callback == s.callback
    decreases |steps|
  {
    if |steps| > 0 {
      CallbackOnlyByAttach(s, steps[..|steps| - 1]);
    }
  }

  /** The interrupt handler invokes only the most recently attached
      callback: after an attach, each further interrupt (with polls in
      between) appends that callback's id to the invocation log, or nothing
      when the attach detached. */
  lemma AttachedCallbackFires(s: State, history: seq<Step>, cb: Option<CallbackId>, between: seq<Step>)
    requires forall i :: 0 <= i < |between| ==> !between[i].Attach?
    ensures var before := Run(s, history + [Attach(cb)] + between).state;
            var after := Run(s, history + [Attach(cb)] + between + [Interrupt]).state;
            after.invoked == before.invoked + (if cb.Some? then [cb.value] else [])
  {
    var prefix := history + [Attach(cb)];
    var mid := prefix + between;
    assert (mid + [Interrupt])[..|mid|] == mid;
    RunSplit(s, prefix, between);
    assert prefix[..|prefix| - 1] == history;
    CallbackOnlyByAttach(Run(s, prefix).state, between);
  }

  /** Running `a + b` is running `b` from where `a` left the state. */
  lemma {:induction false} RunSplit(s: State, a: seq<Step>, b: seq<Step>)
    ensures Run(s, a + b).state == Run(Run(s, a).state, b).state
    decreases |b|
  {
    if |b| == 0 {
      assert a + b == a;
    } else {
      RunSplit(s, a, b[..|b| - 1]);
      assert (a + b)[..|a + b| - 1] == a + b[..|b| - 1];
      assert (a + b)[|a + b| - 1] == b[|b| - 1];
    }
  }
}
