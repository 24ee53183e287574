# Dashboard motion detector: the display power-state controller

This project models the controller in `dashboard-motion-detect.c`. A passive
infrared sensor raises an interrupt on every rising edge, and the interrupt
callback `motion_detected` wakes the screen at once. The main loop runs once a
second and counts idle seconds in `idle_counter`. On the first iteration that
finds the counter at `IDLE_THRESHOLD` (900) with the screen on, it starts the
screen-off script and clears `screen_on`. Every motion also writes one row,
with a timestamp and the screen flag, to an SQLite table.

The project has three modules:

- `Policy` (`policy.dfy`) is the policy on values. A `State` is the pair of
  globals, both kept as `int` as in the C code. `OnMotion` and `OnTick` give one
  event's `Effect`: the next state, the actuations issued (`TurnOn`/`TurnOff`,
  meaning a screen script was started) and the log rows written (each row's
  `is_screen_on` flag). `Run` handles a sequence of events one after another.
  The lemmas cover the invariants, the alternation of actuations, the idle
  period, and the scenarios below.
- `Detector` (`detector.dfy`) is the program as written. Class `MotionDetector`
  holds the two globals as mutable fields, with one method per C function on
  them. Two ghost sequences record the actuations and the log rows. Each
  method is proved against the `Policy` function for its event, and the object
  invariant `Valid()` is kept throughout.
- `InsertQuery` (`query.dfy`) is the text of the INSERT statement and the size
  of its buffer. The parser `ParseQuery`, the inverse of `Format`, shows that the text can be
  read back (a round trip in both directions).

`IDLE_THRESHOLD` is 900, fifteen minutes of one-second ticks. The screen goes
off one tick later than that count suggests. A wake leaves the counter at 0,
ticks 1 to 900 only count up, and the 901st tick switches the screen off.
`WakeToSleep` and `SleepThenWakeScenario` state this. Once the counter has
saturated, no second OFF is issued before the next motion, because
`screen_on` is then 0. `IdlePeriod` proves it.

## Model

| member | source | states |
|---|---|---|
| `Policy.Initial` | dashboard-motion-detect.c:132-133 | the start-up state has the screen on and the counter at 0, and it satisfies the invariant |
| `Policy.OnMotion` | dashboard-motion-detect.c:169-182 | after a motion the counter is 0 whatever its prior value, and the screen is on; exactly one row is written, and its flag is true iff the screen was on before the call's own actuation; a lit screen gets no actuation; a dark screen gets exactly one ON |
| `Policy.OnTick` | dashboard-motion-detect.c:204-209 | below the threshold: counter + 1, screen unchanged, no actuation; at the threshold with the screen on: exactly one OFF, screen 0, counter stays at the threshold; otherwise nothing changes; never a row or an ON; the invariant is preserved |
| `Policy.Step` | dashboard-motion-detect.c:188 | an event goes to `motion_detected` (registered as the interrupt callback) or to the loop body (lines 202-209); only a motion writes a row, exactly one; at most one actuation; the invariant is preserved |
| `Policy.Run` | dashboard-motion-detect.c:202-210 | a valid state stays valid over any event sequence; there is exactly one row per motion event and no more actuations than events |
| `Policy.RunAppend` | dashboard-motion-detect.c:202-210 | handling `a` and then `b` equals handling `a + b`; the actuations and rows concatenate |
| `Policy.StepConsistent` | dashboard-motion-detect.c:169-209 | one motion or tick keeps the actuation history alternating and keeps `screen_on` equal to the effect of the last actuation |
| `Policy.RunConsistent` | dashboard-motion-detect.c:169-209 | the same holds over any sequence of events |
| `Policy.FromStartUp` | dashboard-motion-detect.c:132-210 | from the initial state and its one ON, every reachable state satisfies the bounds, the 0/1 flag and "off implies counter at threshold"; the whole history alternates ON, OFF, ON, ... |
| `Policy.OffsSeparatedByOn` | dashboard-motion-detect.c:204-209 | in an alternating history, any two OFF actuations have an ON between them |
| `Policy.IdlePeriod` | dashboard-motion-detect.c:202-210 | n ticks from a valid state: the counter becomes min(c + n, 900); a lit screen gets exactly one OFF, only when c + n > 900; otherwise no actuation; no rows are written |
| `Policy.WakeToSleep` | dashboard-motion-detect.c:202-210 | from a wake (on, 0), n ticks issue an OFF iff n > 900, and then leave (off, 900); otherwise they leave (on, n) |
| `Policy.MotionWakes` | dashboard-motion-detect.c:169-182 | whatever came before, a motion followed by n ticks leaves the counter at min(n, 900); the screen is on unless n > 900 |
| `Policy.SleepThenWakeScenario` | dashboard-motion-detect.c:185-210 | start-up, more than 900 ticks, a motion, then m ≤ 900 ticks: the state is (on, m), the actuations are OFF then ON, and the single row records the screen as off |
| `Policy.DoubleMotionScenario` | dashboard-motion-detect.c:169-182 | two motions while the screen is on give two rows showing "on", no actuation, and a counter of 0 |
| `Detector.MotionDetector.constructor` | dashboard-motion-detect.c:194 | the globals start at their initial values (lines 132-133); the one ON issued at start is the whole history; no rows yet; `Valid()` holds |
| `Detector.MotionDetector.TurnScreenOn` | dashboard-motion-detect.c:142-149 | appends one ON to the actuation history and changes nothing else |
| `Detector.MotionDetector.TurnScreenOff` | dashboard-motion-detect.c:151-159 | appends one OFF to the actuation history and changes nothing else |
| `Detector.MotionDetector.LogMotion` | dashboard-motion-detect.c:161-167 | appends one row whose flag is `screen_on == 1` and changes nothing else |
| `Detector.MotionDetector.MotionDetected` | dashboard-motion-detect.c:169-182 | the fields, the actuation history and the log become exactly what `OnMotion` says; `Valid()` is preserved |
| `Detector.MotionDetector.Tick` | dashboard-motion-detect.c:203-209 | the fields and the actuation history become exactly what `OnTick` says; the log is unchanged; `Valid()` is preserved |
| `Detector.MotionDetector.HandleEvent` | dashboard-motion-detect.c:188-209 | one event goes to the interrupt callback or to the loop body, with the effect `Step` gives |
| `Detector.MotionDetector.RunEvents` | dashboard-motion-detect.c:202-210 | iterating over interleaved events leaves the fields, history and log exactly as `Run` says; `Valid()` holds throughout |
| `InsertQuery.Digit` | dashboard-motion-detect.c:117 | the `%d` of `is_screen_on ? 1 : 0` is the single character '1' iff the screen is on, and '0' otherwise |
| `InsertQuery.Format` | dashboard-motion-detect.c:117 | the formatted query starts with `DB_INSERT_START`, ends with ')' and is 4 characters longer than prefix plus timestamp |
| `InsertQuery.BufferLength` | dashboard-motion-detect.c:109 | `len` is the prefix length plus the timestamp length plus 5, always more than 5 |
| `InsertQuery.Snprintf` | dashboard-motion-detect.c:117 | at most size − 1 characters survive, always a prefix of the full text; the text is kept whole exactly when it fits |
| `InsertQuery.BuildQuery` | dashboard-motion-detect.c:109-117 | the text `snprintf` writes into the `len`-byte buffer is the whole formatted query, one byte shorter than the buffer |
| `InsertQuery.BufferExact` | dashboard-motion-detect.c:109-117 | `strlen(DB_INSERT_START) + strlen(buf) + 5` is the query length plus the terminator, so `snprintf` writes the whole query; this holds for every timestamp, including the 19-character ones produced |
| `InsertQuery.ParseFormat` | dashboard-motion-detect.c:117 | the timestamp and the flag can be read back from the query text |
| `InsertQuery.FormatParse` | dashboard-motion-detect.c:117 | any text that parses is exactly the query for what it parses to |
| `InsertQuery.FormatInjective` | dashboard-motion-detect.c:117 | different (timestamp, flag) pairs give different query texts |

## Left out

- `create_motion_table` (lines 43-79), table creation and the exit code 1 when it fails (lines 197-199): this is SQLite I/O. The model starts with the database ready.
- The SQLite calls in `insert_motion_table` (open, exec, close) and their error paths: a log row is modelled as a ghost append of its `is_screen_on` flag. `InsertQuery` models the query text that would be executed.
- `LogMotion`: the ghost `log` lists the rows `log_motion` attempts, not the rows stored in the table. A row is appended even when `insert_motion_table` returns early (lines 85-88, 92-114) or the exec fails (lines 121-122).
- `time`, `localtime` and `strftime` (lines 91-107) and their failure paths: wall-clock time and libc formatting. The timestamp is an arbitrary string parameter of `InsertQuery`. `BufferExact` holds for any length, including 19.
- The `malloc` failure path and the `stderr` diagnostics: memory allocation and console output.
- `fork`/`execl` in `turn_screen_on`/`turn_screen_off` and the `SIGCHLD` handler that reaps children (lines 135-159): process management and signals. An actuation is a ghost event, recorded whether or not the script starts, matching the program's optimistic update of `screen_on`.
- wiringPi setup, ISR registration and `delay(1000)` (lines 186-188, 203): hardware and timing. One tick is one loop iteration.
- Concurrency between the interrupt callback and the main loop on the `volatile` globals: each event is atomic, and a run is one sequential interleaving of events.
- `FromStartUp`: its "off implies counter at threshold" holds only for sequential interleavings. `wiringPiISR` runs `motion_detected` on its own thread. A motion between the test at line 206 and `screen_on = 0` at line 208 leaves the state (0, 0): screen off, counter 0. `Policy.Valid` excludes that state, and the screen then stays dark until the next rising edge. The model does not capture this race.
- The endless `for (;;)`: `RunEvents` models any finite prefix of it, as a finite sequence of events.
- The 32-bit width of the C `int` globals is not modelled. The invariant keeps `idle_counter` in [0, 900] and `screen_on` in {0, 1}, so neither can overflow.
