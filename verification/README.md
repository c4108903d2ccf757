# Robot UDP motor control: a Dafny model

This project models the command-to-actuator safety path of a Raspberry Pi
robot server (`server.py`). The robot listens for plain-text UDP datagrams
(Serbian tokens `napred`, `nazad`, `levo`, `desno`, `rot_levo`, `rot_desno`,
`stop`, joined with `+`). It turns each datagram into a stop, a move, or
nothing. A move is a direction vector for four motor channels plus a PWM
duty level. A watchdog loop stops the motors when no datagram has arrived for
more than 500 ms.

The model is functional. The actuator is an immutable record: the duty level
of the shared enable line, in integer percent, and eight driver inputs
arranged as four (in1, in2) pairs. Each operation returns the new state
together with the log of hardware writes it issued. This lets the contracts
state both what state is left behind and which I/O calls were made or
skipped.

Modules, one file each:

- `Text` (`text.dfy`): Python's `str.strip()`, `str.lower()` and
  `str.split('+')` on `seq<char>`. `Strip` is checked against an
  independent description of its result, which is shown to be unique;
  `Lower` is stated character by character, with idempotence and its
  commuting with `Strip`; `Split` has round-trip lemmas with `Join` in both
  directions.
- `Motors` (`motors.dfy`): `set_motor_state`, `stop_motors` and
  `execute_move` over the actuator record and its write log.
- `Commands` (`commands.dfy`): the `MOVEMENTS` / `DIAGONALS` /
  `ROTATION_CMDS` tables, the two speeds, and the priority chain of
  `datagram_received`.
- `Control` (`control.dfy`): the robot state `(actuator, last command
  time)`, the two events (datagram received, watchdog tick), and runs of
  events.

Modelling choices:

- Duty levels are integer percent: `SPEED_NORMAL` 0.3 is 30 and
  `SPEED_ROTATION` 0.15 is 15.
- Times are integer milliseconds and the timeout is 500.
- The clock reading is a parameter of each event. `time.time()` is a wall
  clock, so no lemma assumes the readings increase.
- A datagram is either decoded text or `Undecodable`. `Undecodable` stands
  for bytes on which `data.decode('utf-8')` raises. In the source that
  exception is caught after the clock reset, so it changes nothing else.

Two properties of `server.py` worth knowing:

- Every datagram resets the watchdog clock before it is parsed, including
  unknown commands and undecodable bytes (server.py:88-89). So a stream of
  garbage datagrams keeps powered motors running. `Control.OnDatagram` and
  `Control.DatagramDefersWatchdog` state this.
- The last-command clock is `time.time()`, a wall clock, not a monotonic
  clock.

## Model

| member | source | states |
|---|---|---|
| Text.Strip | server.py:92 | the result is `s` with its whitespace margins cut: `s[i..j]` where everything before `i` and from `j` on is Python whitespace and neither end of the rest is |
| Text.StripUnique | server.py:92 | at most one string meets that description, so the strip is uniquely determined |
| Text.StripPadded | server.py:92 | adding whitespace at either end of a message does not change its strip |
| Text.StripBare | server.py:92 | a string with no whitespace at either end is its own strip |
| Text.Lower | server.py:92 | lower-casing keeps the length, leaves no ASCII capital, shifts each capital by 32 and keeps every other character |
| Text.LowerIdempotent | server.py:92 | lower-casing twice is lower-casing once |
| Text.StripLowerCommute | server.py:92 | stripping and lower-casing can be done in either order |
| Text.Split | server.py:93 | splitting on `+` always yields at least one part, and no part contains `+` |
| Text.JoinSplit | server.py:93 | joining the parts with `+` gives back the message |
| Text.SplitJoin | server.py:93 | splitting a `+`-join of `+`-free parts gives back exactly those parts |
| Motors.SetMotorState | server.py:56-59 | a channel gets two writes, in1 then in2; in1 is on exactly for state 1, in2 exactly for state -1, and never both |
| Motors.ChannelWrites | server.py:69-70 | the move loop writes pins 2·from .. 7 once each, in ascending order |
| Motors.ChannelWritesDrive | server.py:69-70 | after the loop every channel is driven as the vector says; the duty and earlier pins are untouched |
| Motors.OffWrites | server.py:64 | the stop loop switches pins from .. 7 off, in order |
| Motors.StopMotors | server.py:61-64 | with duty non-zero, the result is duty 0 and all pins off, written as duty first then all eight pins; with duty zero, no write at all and nothing changes; the state is what issuing the write log produces |
| Motors.StopMotorsIdempotent | server.py:61-64 | a second stop changes nothing and issues no write |
| Motors.StopMotorsSafe | server.py:61-64 | stopping keeps the actuator safe, and stopping a safe actuator always ends all-off at duty 0 |
| Motors.MoveWrites | server.py:66-70 | the enable line is in the write log iff the requested level differs from the current one, and then only as the first write and at the requested level; the last 8 writes are always pins 0..7 in order |
| Motors.MoveWritesDrive | server.py:66-70 | issuing those writes leaves the requested duty and every channel driven as the vector says |
| Motors.ExecuteMove | server.py:66-70 | afterwards duty equals the requested level and every pair is driven as the vector says with no pair both on; the duty is written iff it changed, and only first; the last 8 writes are pins 0..7 in order; the state is what issuing the write log produces |
| Motors.ExecuteMoveOverwrites | server.py:66-70 | the state after a move does not depend on the state before it: nothing stale survives |
| Motors.ExecuteMoveIdempotent | server.py:66-70 | repeating a move leaves the same state and does not rewrite the duty |
| Motors.ExecuteMoveSafe | server.py:66-70 | a move leaves the actuator safe iff its duty is non-zero or its vector energises no pin |
| Motors.DrivenPinsOff | server.py:56-59 | pins that follow a vector are all off exactly when the vector energises no channel |
| Motors.IdleIsSafe | server.py:23-24 | the power-on state (every output low) is safe |
| Commands.Parts | server.py:92-93 | a message always has at least one part and none of its parts contains `+` |
| Commands.SpeedFor | server.py:100 | a single token runs at 15 exactly when it is `rot_levo` or `rot_desno`, and at 30 otherwise |
| Commands.Resolve | server.py:94-103 | the result is a stop iff `stop` is among the parts; a move has duty 15 or 30, a non-zero vector and one or two parts; the duty is 15 iff the single part is a rotation |
| Commands.Classify | server.py:92-103 | a message halts iff `stop` is among its stripped, lower-cased `+`-parts; a move has duty 15 or 30, a non-zero vector and one or two parts |
| Commands.ClassifyMoves | server.py:92-103 | a message moves iff its stripped, lower-cased `+`-parts are one non-stop table key or two distinct parts forming a diagonal key, with the table's vector and speed |
| Commands.ResolveMoves | server.py:96-103 | the parts give a move iff they are one table key other than `stop`, or two distinct parts whose set is a diagonal key (both shapes stated without reference to the result); the first gives that key's vector at its speed, the second the diagonal's vector at normal speed |
| Commands.ResolveRejectsLong | server.py:96-103 | three or more parts never give a move |
| Commands.ResolveOrderFree | server.py:94-103 | the result depends only on the number of parts and the set of distinct parts, not on their order |
| Commands.DiagonalTokensKnown | server.py:37-42 | every diagonal token is also a single-token command |
| Commands.DiagonalAxes | server.py:37-42 | each diagonal key holds exactly one of `napred`/`nazad` and exactly one of `levo`/`desno` |
| Commands.ResolveUnknownToken | server.py:96-103 | without `stop`, one part outside the vocabulary makes the message a no-op |
| Commands.DiagonalTokens | server.py:37-42 | the two tokens of a diagonal key are distinct |
| Commands.ResolveDiagonal | server.py:102-103 | a diagonal pair resolves to its vector at normal speed in either order |
| Commands.ClassifySingle | server.py:98-101 | a lone table token gives its vector, at duty 15 exactly for `rot_levo`/`rot_desno` and 30 otherwise; `stop` alone halts |
| Commands.ClassifyDiagonal | server.py:102-103 | `a+b` and `b+a` give the same diagonal vector at normal speed |
| Commands.ClassifyStopWins | server.py:96-97 | a message halts iff `stop` is one of its parts, whatever else it holds |
| Commands.ClassifyCaseInsensitive | server.py:92 | lower-casing a message first does not change its classification |
| Commands.ClassifyIgnoresMargins | server.py:92 | whitespace around the whole message does not change its classification |
| Commands.NormalizePlain | server.py:92 | a `+`-list of lower-case tokens passes strip and lower unchanged |
| Commands.PartsOfPlain | server.py:92-93 | the parts of a `+`-join of plain tokens are those tokens |
| Commands.RejectsThreeTokens | server.py:96-103 | `napred+nazad+levo` is a no-op |
| Commands.RejectsRepeatedToken | server.py:102 | `napred+napred` has two parts but one distinct token, so it is a no-op |
| Commands.RejectsOppositePair | server.py:102 | `napred+nazad` is not a diagonal, so it is a no-op |
| Commands.RejectsUnknownWord | server.py:98 | an unknown word is a no-op |
| Commands.RejectsInnerBlank | server.py:92-93 | a blank before the `+` stays inside the first part, so `a +b` is a no-op for plain tokens unless `b` is `stop` |
| Control.Dispatch | server.py:96-103 | no-op leaves the actuator as it is with no write; halt is the stop routine; a move is the move routine, leaving the requested duty, every channel driven as the vector says and exclusive pairs |
| Control.OnDatagram | server.py:87-105 | the clock becomes the arrival time for every datagram; undecodable or unknown messages change nothing else and write nothing; a decoded message leaves exactly the state and issues exactly the writes of dispatching its command (stop routine for a halt, move routine for a move); a move leaves its duty and drives its vector |
| Control.WatchdogTick | server.py:76-78 | a tick stops the motors iff duty > 0 and strictly more than 500 ms have passed, ending all-off with the stop routine's writes (duty 0, then pins 0..7 off); otherwise nothing changes and nothing is written; the clock is never touched |
| Control.StepInv | server.py:56-103 | each event keeps the actuator safe and its duty in {0, 15, 30} |
| Control.RunInv | server.py:56-103 | any run of events from a good state stays good: no pair ever both on, and duty 0 means all pins off |
| Control.ReachableInv | server.py:23-24 | every state reachable from power-on is good |
| Control.SilenceIsRun | server.py:73-79 | a silent period is the state machine run on tick events only |
| Control.QuietWhenStopped | server.py:76-78 | with duty 0, any number of ticks changes nothing and writes nothing |
| Control.StopsAtMostOnce | server.py:73-79 | a silent period issues at most one emergency stop |
| Control.SilenceOutcome | server.py:73-79 | with motors powered, a silent period ends all-off after exactly one stop iff some tick is more than 500 ms after the last datagram; otherwise nothing changes |
| Control.DatagramDefersWatchdog | server.py:88-89 | after any datagram, even an undecodable one, a tick within 500 ms changes nothing |
| Control.IgnoredOnlyResetsClock | server.py:88-103 | a message that is not a command changes only the clock |
| Control.StopMessageHalts | server.py:96-97 | a message holding `stop` leaves a safe actuator all-off, with hardware writes iff it was powered |
| Control.ForwardThenSilence | server.py:73-101 | `napred` at 1000 ms sets duty 30, and a tick at 1600 ms stops the motors |

## Left out

- Camera producer, frame event and shared video track (server.py:107-142). This is concurrency and image I/O, not the command path.
- WebRTC signalling, the peer-connection set and its shutdown hook (server.py:144-171). These are thin wrappers over external libraries.
- Signal handling, shutdown, `main`, socket binding and CORS (server.py:173-236). This is process plumbing.
- The GPIO pin map, PWM frequency and device construction (server.py:19-24). Pins are logical indices 0..7; only the devices' initial low state is kept, as `Motors.Idle`.
- Floating-point duty values. They are replaced by integer percent. The model assumes the enable line reads back exactly the level last written, so the `!=` comparison in `execute_move` behaves like integer comparison.
- Logging calls and the watchdog's 100 ms sleep. A tick is one loop iteration at a caller-supplied time; the tick period is not modelled.
- Hardware exceptions. A failing pin write would be caught by the `except` of `datagram_received` partway through a command. Writes are assumed to succeed.
- UTF-8 decoding itself. A datagram is either already-decoded text or `Undecodable`.
- Text.Lower: folds only the ASCII capitals `A`-`Z`, while Python's `str.lower()` folds all of Unicode. No non-ASCII character lower-cases to a character that appears in a table key, so classification is unaffected.
