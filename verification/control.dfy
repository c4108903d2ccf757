/**
 The robot's command-side state machine: the actuator plus the time of the
 last received datagram, driven by two events, a datagram arriving and one
 iteration of the watchdog loop. Times are integer milliseconds read from a
 clock the caller supplies; nothing assumes that clock is monotonic.
 */
module Control {
  import opened Motors
  import opened Commands

  /** The dead-man's switch interval, in milliseconds. */
  const WatchdogTimeout: int := 500

  /** Actuator state and the last time any datagram arrived. */
  datatype Robot = Robot(motors: Actuator, lastCmd: int)

  /** Power-on: motors idle, the last-command clock at zero. */
  const Boot := Robot(Idle, 0)

  /** A received datagram: text, or bytes that are not valid UTF-8. */
  datatype Datagram = Decoded(text: string) | Undecodable

  datatype Event = Received(data: Datagram, at: int) | Tick(at: int)

  /** The state after an event and the hardware writes it issued. */
  datatype Outcome = Outcome(next: Robot, writes: seq<Write>)

  /** What a classified command does to the actuator. */
  function Dispatch(a: Actuator, c: Command): (e: Effect)
    ensures c.Ignore? ==> e == Effect(a, [])
    ensures c.Halt? ==> e == StopMotors(a)
    ensures c.Move? ==> e == ExecuteMove(a, c.vector, c.duty)
    ensures c.Move? ==>
              && e.next.duty == c.duty
              && (forall ch: Channel :: Drives(e.next.pins, ch, c.vector[ch]))
              && PairsExclusive(e.next.pins)
  {
    match c
    case Halt => StopMotors(a)
    case Move(v, d) => ExecuteMove(a, v, d)
    case Ignore => Effect(a, [])
  }

  /** datagram_received: the clock is reset first, whatever the datagram
      holds; then the command, if any, is applied. */
  function OnDatagram(r: Robot, data: Datagram, now: int): (o: Outcome)
    ensures o.next.lastCmd == now
    ensures data.Undecodable? ==> o.next.motors == r.motors && o.writes == []
    ensures data.Decoded? && Classify(data.text) == Ignore ==> o.next.motors == r.motors && o.writes == []
    ensures data.Decoded? && Classify(data.text) == Halt ==> o.next.motors.duty == 0
    ensures data.Decoded? && Classify(data.text).Move? ==>
              && o.next.motors.duty == Classify(data.text).duty
              && forall ch: Channel :: Drives(o.next.motors.pins, ch, Classify(data.text).vector[ch])
    ensures data.Decoded? ==> o.next.motors == Dispatch(r.motors, Classify(data.text)).next
    ensures data.Decoded? ==> o.writes == Dispatch(r.motors, Classify(data.text)).writes
  {
    var reset := r.(lastCmd := now);
    match data
    case Undecodable => Outcome(reset, [])
    case Decoded(text) =>
      var e := Dispatch(r.motors, Classify(text));
      Outcome(reset.(motors := e.next), e.writes)
  }

  /** One iteration of the watchdog loop: stop only when the motors are
      powered and strictly more than the timeout has passed. */
  function WatchdogTick(r: Robot, now: int): (o: Outcome)
    ensures o.next.lastCmd == r.lastCmd
    ensures r.motors.duty > 0 && now - r.lastCmd > WatchdogTimeout ==>
              o.next.motors == Idle && o.writes == [SetDuty(0)] + OffWrites(0)
    ensures !(r.motors.duty > 0 && now - r.lastCmd > WatchdogTimeout) ==> o == Outcome(r, [])
  {
    if r.motors.duty > 0 && now - r.lastCmd > WatchdogTimeout then
      var e := StopMotors(r.motors);
      Outcome(r.(motors := e.next), e.writes)
    else Outcome(r, [])
  }

  function Step(r: Robot, ev: Event): Outcome {
    match ev
    case Received(data, at) => OnDatagram(r, data, at)
    case Tick(at) => WatchdogTick(r, at)
  }

  function Run(r: Robot, evs: seq<Event>): Robot
    decreases |evs|
  {
    if evs == [] then r else Run(Step(r, evs[0]).next, evs[1..])
  }

  /** What every reachable state satisfies: the actuator is safe and its
      duty is one of the levels the command path uses. */
  predicate Inv(r: Robot) {
    Safe(r.motors) && r.motors.duty in {0, SpeedRotation, SpeedNormal}
  }

  lemma BootInv()
    ensures Inv(Boot)
  {
  }

  lemma StepInv(r: Robot, ev: Event)
    requires Inv(r)
    ensures Inv(Step(r, ev).next)
  {
    match ev
    case Received(Decoded(text), at) =>
      var c := Classify(text);
      if c.Move? {
        ExecuteMoveSafe(r.motors, c.vector, c.duty);
      } else if c.Halt? {
        StopMotorsSafe(r.motors);
      }
    case Received(Undecodable, at) =>
    case Tick(at) =>
      StopMotorsSafe(r.motors);
  }

  /** Starting from a good state, any sequence of datagrams and ticks keeps
      every pair exclusive, and keeps all pins off whenever duty is zero. */
  lemma {:induction false} RunInv(r: Robot, evs: seq<Event>)
    requires Inv(r)
    ensures Inv(Run(r, evs))
    decreases |evs|
  {
    if evs != [] {
      StepInv(r, evs[0]);
      RunInv(Step(r, evs[0]).next, evs[1..]);
    }
  }

  lemma ReachableInv(evs: seq<Event>)
    ensures Inv(Run(Boot, evs))
  {
    BootInv();
    RunInv(Boot, evs);
  }

  /** Watchdog ticks at the given times, with no datagram in between. */
  function Silence(r: Robot, times: seq<int>): Robot
    decreases |times|
  {
    if times == [] then r else Silence(WatchdogTick(r, times[0]).next, times[1..])
  }

  /** How many of those ticks issued any hardware write. */
  function Stops(r: Robot, times: seq<int>): nat
    decreases |times|
  {
    if times == [] then 0
    else
      var o := WatchdogTick(r, times[0]);
      (if o.writes == [] then 0 else 1) + Stops(o.next, times[1..])
  }

  function Ticks(times: seq<int>): (evs: seq<Event>)
    ensures |evs| == |times|
    ensures forall k :: 0 <= k < |times| ==> evs[k] == Tick(times[k])
  {
    seq(|times|, k requires 0 <= k < |times| => Tick(times[k]))
  }

  /** `Silence` is the state machine run on tick events only. */
  lemma {:induction false} SilenceIsRun(r: Robot, times: seq<int>)
    ensures Silence(r, times) == Run(r, Ticks(times))
    decreases |times|
  {
    if times != [] {
      assert Ticks(times)[1..] == Ticks(times[1..]);
      SilenceIsRun(WatchdogTick(r, times[0]).next, times[1..]);
    }
  }

  /** Once the motors are stopped, ticks do nothing at all. */
  lemma {:induction false} QuietWhenStopped(r: Robot, times: seq<int>)
    requires r.motors.duty == 0
    ensures Silence(r, times) == r && Stops(r, times) == 0
    decreases |times|
  {
    if times != [] {
      QuietWhenStopped(r, times[1..]);
    }
  }

  /** A silent period issues at most one emergency stop, however many ticks
      it lasts. */
  lemma {:induction false} StopsAtMostOnce(r: Robot, times: seq<int>)
    ensures Stops(r, times) <= 1
    decreases |times|
  {
    if times != [] {
      var o := WatchdogTick(r, times[0]);
      if o.writes == [] {
        StopsAtMostOnce(o.next, times[1..]);
      } else {
        QuietWhenStopped(o.next, times[1..]);
      }
    }
  }

  /** Powered motors and some tick strictly later than the timeout. */
  ghost predicate Overdue(r: Robot, times: seq<int>) {
    r.motors.duty > 0 && exists k :: 0 <= k < |times| && times[k] - r.lastCmd > WatchdogTimeout
  }

  /** The dead-man's switch over a silent period: powered motors end idle,
      after exactly one emergency stop, if and only if some tick came
      strictly later than the timeout; otherwise nothing changes and no
      hardware call is made. Ticks never touch the clock. */
  lemma {:induction false} SilenceOutcome(r: Robot, times: seq<int>)
    ensures Silence(r, times).lastCmd == r.lastCmd
    ensures Stops(r, times) == if Overdue(r, times) then 1 else 0
    ensures Overdue(r, times) ==> Silence(r, times).motors == Idle
    ensures !Overdue(r, times) ==> Silence(r, times) == r
    decreases |times|
  {
    if times != [] {
      var o := WatchdogTick(r, times[0]);
      if o.writes != [] {
        QuietWhenStopped(o.next, times[1..]);
      } else {
        assert o.next == r;
        SilenceOutcome(r, times[1..]);
        if exists k :: 0 <= k < |times| && times[k] - r.lastCmd > WatchdogTimeout {
          var k :| 0 <= k < |times| && times[k] - r.lastCmd > WatchdogTimeout;
          if r.motors.duty > 0 {
            assert k != 0;
            assert times[1..][k - 1] == times[k];
          }
        } else {
          assert forall k :: 0 <= k < |times| - 1 ==> times[1..][k] == times[k + 1];
        }
      }
    }
  }

  /** Any datagram, even one that is not a command, restarts the timeout:
      a tick no later than the timeout after it changes nothing. */
  lemma DatagramDefersWatchdog(r: Robot, data: Datagram, t: int, now: int)
    requires now - t <= WatchdogTimeout
    ensures var r1 := OnDatagram(r, data, t).next;
            WatchdogTick(r1, now) == Outcome(r1, [])
  {
  }

  /** A command that is not understood changes nothing but the clock. */
  lemma IgnoredOnlyResetsClock(r: Robot, text: string, now: int)
    requires Classify(text) == Ignore
    ensures OnDatagram(r, Decoded(text), now) == Outcome(r.(lastCmd := now), [])
  {
  }

  /** A message holding stop stops the motors from any safe state, whatever
      else it holds, and is a no-op on the hardware when already stopped. */
  lemma StopMessageHalts(r: Robot, text: string, now: int)
    requires Safe(r.motors) && StopToken in Parts(text)
    ensures OnDatagram(r, Decoded(text), now).next.motors == Idle
    ensures r.motors.duty == 0 <==> OnDatagram(r, Decoded(text), now).writes == []
  {
    StopMotorsSafe(r.motors);
  }

  /** Forward, then silence: a tick 600 ms later finds the motors powered
      and stops them. */
  lemma ForwardThenSilence()
    ensures var r1 := OnDatagram(Boot, Decoded("napred"), 1000).next;
            r1.motors.duty == SpeedNormal && WatchdogTick(r1, 1600).next.motors == Idle
  {
    ClassifySingle("napred");
    var c := Classify("napred");
    assert c.Move? && c.duty == SpeedNormal;
    var r1 := OnDatagram(Boot, Decoded("napred"), 1000).next;
    assert r1.motors.duty == SpeedNormal && r1.lastCmd == 1000;
  }
}
