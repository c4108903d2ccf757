/**
 The drivetrain as the command path sees it: one PWM enable line shared by
 all motors (its duty level, in integer percent) and eight digital driver
 inputs, arranged as four (in1, in2) pairs, one pair per motor channel.
 Every hardware call is recorded in a write log, so that which writes an
 operation issues can be stated next to what state it leaves behind.
 */
module Motors {

  /** Per-channel direction as the movement tables hold it:
      1 forward, -1 reverse, anything else neutral. */
  type Vector = v: seq<int> | |v| == 4 witness [0, 0, 0, 0]

  type Channel = c: int | 0 <= c < 4

  type PinIndex = i: int | 0 <= i < 8

  type Pins = p: seq<bool> | |p| == 8 witness [false, false, false, false, false, false, false, false]

  const AllOff: Pins := [false, false, false, false, false, false, false, false]

  /** The enable line's duty level and the eight driver inputs. */
  datatype Actuator = Actuator(duty: nat, pins: Pins)

  /** Power-on state: the PWM device and every digital output start low. */
  const Idle := Actuator(0, AllOff)

  /** One hardware call: assigning the enable line's value, or switching one
      driver input on or off. */
  datatype Write = SetDuty(level: nat) | SetPin(index: PinIndex, on: bool)

  /** The state an operation leaves and the writes it issued, in order. */
  datatype Effect = Effect(next: Actuator, writes: seq<Write>)

  function Perform(a: Actuator, w: Write): Actuator {
    match w
    case SetDuty(level) => a.(duty := level)
    case SetPin(i, on) => a.(pins := a.pins[i := on])
  }

  /** The state reached by issuing `ws` in order. */
  function PerformAll(a: Actuator, ws: seq<Write>): Actuator
    decreases |ws|
  {
    if ws == [] then a else PerformAll(Perform(a, ws[0]), ws[1..])
  }

  lemma {:induction false} PerformAllAppend(a: Actuator, xs: seq<Write>, ys: seq<Write>)
    ensures PerformAll(a, xs + ys) == PerformAll(PerformAll(a, xs), ys)
    decreases |xs|
  {
    if xs == [] {
      assert xs + ys == ys;
    } else {
      assert (xs + ys)[1..] == xs[1..] + ys;
      PerformAllAppend(Perform(a, xs[0]), xs[1..], ys);
    }
  }

  lemma PerformAllTwo(a: Actuator, w0: Write, w1: Write)
    ensures PerformAll(a, [w0]) == Perform(a, w0)
    ensures PerformAll(a, [w0, w1]) == Perform(Perform(a, w0), w1)
  {
    assert [w0][1..] == [];
    assert [w0, w1][1..] == [w1];
    assert PerformAll(Perform(a, w0), [w1]) == Perform(Perform(a, w0), w1);
  }

  function In1(p: Pins, ch: Channel): bool {
    p[2 * ch]
  }

  function In2(p: Pins, ch: Channel): bool {
    p[2 * ch + 1]
  }

  /** The pair of channel `ch` is driven for direction `state`: in1 high
      exactly for forward, in2 high exactly for reverse. */
  predicate Drives(p: Pins, ch: Channel, state: int) {
    In1(p, ch) == (state == 1) && In2(p, ch) == (state == -1)
  }

  /** No pair has both of its inputs high. */
  predicate PairsExclusive(p: Pins) {
    forall ch: Channel :: !(In1(p, ch) && In2(p, ch))
  }

  /** set_motor_state: the two writes for one channel, in1 first. */
  function SetMotorState(ch: Channel, state: int): (ws: seq<Write>)
    ensures |ws| == 2
    ensures ws[0] == SetPin(2 * ch, state == 1)
    ensures ws[1] == SetPin(2 * ch + 1, state == -1)
    ensures !(ws[0].on && ws[1].on)
  {
    if state == 1 then [SetPin(2 * ch, true), SetPin(2 * ch + 1, false)]
    else if state == -1 then [SetPin(2 * ch, false), SetPin(2 * ch + 1, true)]
    else [SetPin(2 * ch, false), SetPin(2 * ch + 1, false)]
  }

  /** The loop of execute_move from channel `from` on. */
  function ChannelWrites(v: Vector, from: nat): (ws: seq<Write>)
    requires from <= 4
    ensures |ws| == 2 * (4 - from)
    ensures forall k :: 0 <= k < |ws| ==> ws[k].SetPin? && ws[k].index == 2 * from + k
    decreases 4 - from
  {
    if from == 4 then [] else SetMotorState(from, v[from]) + ChannelWrites(v, from + 1)
  }

  /** Issuing the channel writes from `from` on drives those channels as `v`
      says and touches neither the duty level nor the earlier pins. */
  lemma {:induction false} ChannelWritesDrive(a: Actuator, v: Vector, from: nat)
    requires from <= 4
    ensures PerformAll(a, ChannelWrites(v, from)).duty == a.duty
    ensures forall j: PinIndex :: j < 2 * from ==> PerformAll(a, ChannelWrites(v, from)).pins[j] == a.pins[j]
    ensures forall ch: Channel :: from <= ch ==> Drives(PerformAll(a, ChannelWrites(v, from)).pins, ch, v[ch])
    decreases 4 - from
  {
    if from < 4 {
      var head := SetMotorState(from, v[from]);
      var rest := ChannelWrites(v, from + 1);
      PerformAllAppend(a, head, rest);
      PerformAllTwo(a, head[0], head[1]);
      assert head == [head[0], head[1]];
      var b := PerformAll(a, head);
      assert b.duty == a.duty;
      assert forall j: PinIndex :: j < 2 * from ==> b.pins[j] == a.pins[j];
      assert Drives(b.pins, from, v[from]);
      ChannelWritesDrive(b, v, from + 1);
      var c := PerformAll(b, rest);
      assert c.pins[2 * from] == b.pins[2 * from] && c.pins[2 * from + 1] == b.pins[2 * from + 1];
      assert Drives(c.pins, from, v[from]);
    }
  }

  /** The loop of stop_motors from pin `from` on. */
  function OffWrites(from: nat): (ws: seq<Write>)
    requires from <= 8
    ensures |ws| == 8 - from
    ensures forall k :: 0 <= k < |ws| ==> ws[k] == SetPin(from + k, false)
    decreases 8 - from
  {
    if from == 8 then [] else [SetPin(from, false)] + OffWrites(from + 1)
  }

  lemma {:induction false} OffWritesClear(a: Actuator, from: nat)
    requires from <= 8
    ensures PerformAll(a, OffWrites(from)).duty == a.duty
    ensures forall j: PinIndex :: j < from ==> PerformAll(a, OffWrites(from)).pins[j] == a.pins[j]
    ensures forall j: PinIndex :: from <= j ==> !PerformAll(a, OffWrites(from)).pins[j]
    decreases 8 - from
  {
    if from < 8 {
      OffWritesClear(Perform(a, SetPin(from, false)), from + 1);
    }
  }

  /** stop_motors: only when the enable line is not already at zero, zero it
      and switch every driver input off; otherwise no hardware call at all. */
  function StopMotors(a: Actuator): (e: Effect)
    ensures a.duty != 0 ==> e.next == Idle && e.writes == [SetDuty(0)] + OffWrites(0)
    ensures a.duty == 0 ==> e.next == a && e.writes == []
    ensures e.next == PerformAll(a, e.writes)
  {
    if a.duty != 0 then
      var ws := [SetDuty(0)] + OffWrites(0);
      var b := a.(duty := 0);
      OffWritesClear(b, 0);
      assert PerformAll(b, OffWrites(0)).pins == AllOff;
      assert ws[1..] == OffWrites(0);
      assert PerformAll(a, ws) == PerformAll(b, OffWrites(0));
      Effect(PerformAll(b, OffWrites(0)), ws)
    else Effect(a, [])
  }

  /** The writes of execute_move: the duty level only if it changes, then
      every channel. */
  function MoveWrites(a: Actuator, v: Vector, d: nat): (ws: seq<Write>)
    ensures SetDuty(d) in ws <==> a.duty != d
    ensures |ws| == if a.duty != d then 9 else 8
    ensures forall k :: 0 <= k < |ws| && ws[k].SetDuty? ==> k == 0 && ws[k] == SetDuty(d)
    ensures forall k :: |ws| - 8 <= k < |ws| ==> ws[k].SetPin? && ws[k].index == k - (|ws| - 8)
  {
    var dutyWrites := if a.duty != d then [SetDuty(d)] else [];
    assert forall k :: 0 <= k < |ChannelWrites(v, 0)| ==> ChannelWrites(v, 0)[k] != SetDuty(d);
    dutyWrites + ChannelWrites(v, 0)
  }

  lemma MoveWritesDrive(a: Actuator, v: Vector, d: nat)
    ensures PerformAll(a, MoveWrites(a, v, d)).duty == d
    ensures forall ch: Channel :: Drives(PerformAll(a, MoveWrites(a, v, d)).pins, ch, v[ch])
  {
    var dutyWrites := if a.duty != d then [SetDuty(d)] else [];
    assert MoveWrites(a, v, d) == dutyWrites + ChannelWrites(v, 0);
    var b := PerformAll(a, dutyWrites);
    assert b.duty == d by {
      if a.duty != d { PerformAllTwo(a, SetDuty(d), SetDuty(d)); }
    }
    PerformAllAppend(a, dutyWrites, ChannelWrites(v, 0));
    ChannelWritesDrive(b, v, 0);
  }

  /** execute_move: the enable line is written only when the requested level
      differs from the present one; all four pairs are written every time. */
  function ExecuteMove(a: Actuator, v: Vector, d: nat): (e: Effect)
    ensures e.next.duty == d
    ensures forall ch: Channel :: Drives(e.next.pins, ch, v[ch])
    ensures PairsExclusive(e.next.pins)
    ensures SetDuty(d) in e.writes <==> a.duty != d
    ensures |e.writes| == if a.duty != d then 9 else 8
    ensures forall k :: 0 <= k < |e.writes| && e.writes[k].SetDuty? ==> k == 0 && e.writes[k] == SetDuty(d)
    ensures forall k :: |e.writes| - 8 <= k < |e.writes| ==>
              e.writes[k].SetPin? && e.writes[k].index == k - (|e.writes| - 8)
    ensures e.next == PerformAll(a, e.writes)
  {
    var ws := MoveWrites(a, v, d);
    MoveWritesDrive(a, v, d);
    Effect(PerformAll(a, ws), ws)
  }

  /** Motors may be energised only while the enable line is up, and no pair
      is ever driven both ways. */
  predicate Safe(a: Actuator) {
    PairsExclusive(a.pins) && (a.duty == 0 ==> a.pins == AllOff)
  }

  lemma IdleIsSafe()
    ensures Safe(Idle)
  {
  }

  /** The pins a vector drives are fully determined by it. */
  lemma DrivenPinsDetermined(p: Pins, q: Pins, v: Vector)
    requires forall ch: Channel :: Drives(p, ch, v[ch])
    requires forall ch: Channel :: Drives(q, ch, v[ch])
    ensures p == q
  {
    forall j: PinIndex ensures p[j] == q[j] {
      var ch: Channel := j / 2;
      assert Drives(p, ch, v[ch]) && Drives(q, ch, v[ch]);
    }
  }

  /** Stopping twice is stopping once: the second call leaves the state as
      it is and issues no hardware call. */
  lemma StopMotorsIdempotent(a: Actuator)
    ensures StopMotors(StopMotors(a).next) == Effect(StopMotors(a).next, [])
  {
  }

  /** Stopping keeps the actuator safe, and stopping a safe actuator always
      ends in the power-on state. */
  lemma StopMotorsSafe(a: Actuator)
    ensures Safe(a) ==> Safe(StopMotors(a).next)
    ensures Safe(a) ==> StopMotors(a).next == Idle
  {
  }

  /** Whatever state execute_move starts from, it leaves the same one: no
      earlier channel state survives a move. */
  lemma ExecuteMoveOverwrites(a: Actuator, b: Actuator, v: Vector, d: nat)
    ensures ExecuteMove(a, v, d).next == ExecuteMove(b, v, d).next
  {
    DrivenPinsDetermined(ExecuteMove(a, v, d).next.pins, ExecuteMove(b, v, d).next.pins, v);
  }

  /** Repeating a move changes nothing and does not rewrite the enable line. */
  lemma ExecuteMoveIdempotent(a: Actuator, v: Vector, d: nat)
    ensures ExecuteMove(ExecuteMove(a, v, d).next, v, d).next == ExecuteMove(a, v, d).next
    ensures SetDuty(d) !in ExecuteMove(ExecuteMove(a, v, d).next, v, d).writes
  {
    ExecuteMoveOverwrites(ExecuteMove(a, v, d).next, a, v, d);
  }

  /** Pins that follow a vector are all off exactly when the vector
      energises no channel. */
  lemma DrivenPinsOff(p: Pins, v: Vector)
    requires forall ch: Channel :: Drives(p, ch, v[ch])
    ensures p == AllOff <==> forall ch: Channel :: v[ch] != 1 && v[ch] != -1
  {
    if forall ch: Channel :: v[ch] != 1 && v[ch] != -1 {
      forall j: PinIndex ensures !p[j] {
        var ch: Channel := j / 2;
        assert Drives(p, ch, v[ch]);
      }
      assert p == AllOff;
    }
    if p == AllOff {
      forall ch: Channel ensures v[ch] != 1 && v[ch] != -1 {
        assert Drives(p, ch, v[ch]);
        assert !In1(p, ch) && !In2(p, ch);
      }
    }
  }

  /** A move at a non-zero level always leaves the actuator safe; at level
      zero with an energised pair it would not. */
  lemma ExecuteMoveSafe(a: Actuator, v: Vector, d: nat)
    ensures Safe(ExecuteMove(a, v, d).next) <==> (d != 0 || forall ch: Channel :: v[ch] != 1 && v[ch] != -1)
  {
    var next := ExecuteMove(a, v, d).next;
    assert next.duty == d && PairsExclusive(next.pins);
    DrivenPinsOff(next.pins, v);
  }
}
