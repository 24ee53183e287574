/** The power-state policy of the dashboard motion detector, on values.
    A state is the pair of globals `screen_on` and `idle_counter`; each event
    (a motion interrupt or one iteration of the main loop) yields an Effect:
    the next state, the actuations it issued and the log rows it wrote. */
module Policy {

  /** Number of one-second ticks of inactivity after which the screen goes off. */
  const IdleThreshold: int := 900

  /** An actuation: the external screen-on or screen-off script being started. */
  datatype Actuation = TurnOn | TurnOff

  /** The two globals, both C `int`s: `screen_on` (1 means on) and `idle_counter`. */
  datatype State = State(screenOn: int, idleCounter: int)

  /** The two things that drive the controller: the rising-edge interrupt and a loop iteration. */
  datatype Event = MotionEvent | TickEvent

  /** What one event, or a run of events, does: the resulting state, the
      actuations issued in order, and the `is_screen_on` flag of each log row written. */
  datatype Effect = Effect(next: State, actuations: seq<Actuation>, rows: seq<bool>)

  /** The invariant of every reachable state: `screen_on` is a bit, the counter
      stays within [0, IdleThreshold], and the screen is only off once the counter saturated. */
  predicate Valid(s: State) {
    && (s.screenOn == 0 || s.screenOn == 1)
    && 0 <= s.idleCounter <= IdleThreshold
    && (s.screenOn == 0 ==> s.idleCounter == IdleThreshold)
  }

  /** The state at start-up: the static initialisers of the two globals. */
  function Initial(): (s: State)
    ensures Valid(s) && s.screenOn == 1 && s.idleCounter == 0
  {
    State(1, 0)
  }

  /** The `screen_on` value an actuation leaves behind. */
  function PowerAfter(a: Actuation): int {
    if a == TurnOn then 1 else 0
  }

  /** `motion_detected`: reset the counter, log the current screen state, and
      turn the screen on only if it was off. */
  function OnMotion(s: State): (e: Effect)
    ensures e.next.idleCounter == 0
    ensures e.next.screenOn == 1
    ensures |e.rows| == 1 && (e.rows[0] <==> s.screenOn == 1)
    ensures s.screenOn == 1 ==> e.actuations == []
    ensures s.screenOn != 1 ==> e.actuations == [TurnOn]
    ensures Valid(e.next)
  {
    var cleared := State(s.screenOn, 0);
    var row := cleared.screenOn == 1;
    if cleared.screenOn == 1 then Effect(cleared, [], [row])
    else Effect(State(1, cleared.idleCounter), [TurnOn], [row])
  }

  /** One iteration of the main loop after its one-second delay: count up while
      below the threshold; at the threshold, switch a lit screen off once. */
  function OnTick(s: State): (e: Effect)
    ensures e.rows == []
    ensures |e.actuations| <= 1 && TurnOn !in e.actuations
    ensures s.idleCounter < IdleThreshold ==>
              e.next == State(s.screenOn, s.idleCounter + 1) && e.actuations == []
    ensures s.idleCounter == IdleThreshold && s.screenOn == 1 ==>
              e.next == State(0, IdleThreshold) && e.actuations == [TurnOff]
    ensures s.idleCounter >= IdleThreshold && !(s.idleCounter == IdleThreshold && s.screenOn == 1) ==>
              e.next == s && e.actuations == []
    ensures Valid(s) ==> Valid(e.next)
  {
    if s.idleCounter < IdleThreshold then
      Effect(State(s.screenOn, s.idleCounter + 1), [], [])
    else if s.idleCounter == IdleThreshold && s.screenOn == 1 then
      Effect(State(0, s.idleCounter), [TurnOff], [])
    else
      Effect(s, [], [])
  }

  /** An event goes to the interrupt callback or to the loop body. Only a motion
      writes a row, each event issues at most one actuation, and the invariant is kept. */
  function Step(s: State, ev: Event): (e: Effect)
    ensures |e.rows| == (if ev == MotionEvent then 1 else 0)
    ensures |e.actuations| <= 1
    ensures Valid(s) ==> Valid(e.next)
  {
    match ev
    case MotionEvent => OnMotion(s)
    case TickEvent => OnTick(s)
  }

  function MotionCount(evs: seq<Event>): nat {
    if evs == [] then 0
    else (if evs[0] == MotionEvent then 1 else 0) + MotionCount(evs[1..])
  }

  /** Events handled one after the other, each atomically, from state `s`. */
  function Run(s: State, evs: seq<Event>): (e: Effect)
    ensures Valid(s) ==> Valid(e.next)
    ensures |e.rows| == MotionCount(evs)
    ensures |e.actuations| <= |evs|
    decreases |evs|
  {
    if evs == [] then Effect(s, [], [])
    else
      var first := Step(s, evs[0]);
      var rest := Run(first.next, evs[1..]);
      Effect(rest.next, first.actuations + rest.actuations, first.rows + rest.rows)
  }

  /** Running `a` then `b` is running `a + b`. */
  lemma {:induction false} RunAppend(s: State, a: seq<Event>, b: seq<Event>)
    ensures var ea := Run(s, a); var eb := Run(ea.next, b);
            Run(s, a + b) == Effect(eb.next, ea.actuations + eb.actuations, ea.rows + eb.rows)
    decreases |a|
  {
    if a == [] {
      assert a + b == b;
    } else {
      assert (a + b)[0] == a[0];
      assert (a + b)[1..] == a[1..] + b;
      RunAppend(Step(s, a[0]).next, a[1..], b);
      var first := Step(s, a[0]);
      var ra := Run(first.next, a[1..]);
      var rb := Run(ra.next, b);
      assert first.actuations + (ra.actuations + rb.actuations)
          == (first.actuations + ra.actuations) + rb.actuations;
      assert first.rows + (ra.rows + rb.rows) == (first.rows + ra.rows) + rb.rows;
    }
  }

  /** Concatenation regroups. */
  lemma ConcatAssoc<T>(a: seq<T>, b: seq<T>, c: seq<T>)
    ensures a + b + c == a + (b + c)
  {
  }

  /** A run of the events from index `i` on is the `i`-th event followed by the rest. */
  lemma RunFrom(s: State, evs: seq<Event>, i: nat)
    requires i < |evs|
    ensures var step := Step(s, evs[i]); var later := Run(step.next, evs[i + 1..]);
            Run(s, evs[i..]) == Effect(later.next, step.actuations + later.actuations, step.rows + later.rows)
  {
  }

  /** The actuation history alternates ON, OFF, ON, ... starting with the ON
      issued at start-up: no OFF is ever issued twice without an ON between. */
  ghost predicate Alternating(acts: seq<Actuation>) {
    && |acts| > 0
    && acts[0] == TurnOn
    && forall i :: 0 < i < |acts| ==> acts[i - 1] != acts[i]
  }

  /** `screen_on` reflects the last actuation issued. */
  ghost predicate Consistent(s: State, acts: seq<Actuation>) {
    Alternating(acts) && PowerAfter(acts[|acts| - 1]) == s.screenOn
  }

  /** One event keeps the history alternating and in step with `screen_on`. */
  lemma StepConsistent(s: State, acts: seq<Actuation>, ev: Event)
    requires Valid(s) && Consistent(s, acts)
    ensures Consistent(Step(s, ev).next, acts + Step(s, ev).actuations)
  {
  }

  /** Any run of events from a valid, consistent state keeps the history consistent. */
  lemma {:induction false} RunConsistent(s: State, acts: seq<Actuation>, evs: seq<Event>)
    requires Valid(s) && Consistent(s, acts)
    ensures Consistent(Run(s, evs).next, acts + Run(s, evs).actuations)
    decreases |evs|
  {
    if evs == [] {
      assert acts + [] == acts;
    } else {
      var first := Step(s, evs[0]);
      StepConsistent(s, acts, evs[0]);
      RunConsistent(first.next, acts + first.actuations, evs[1..]);
      var rest := Run(first.next, evs[1..]);
      assert acts + first.actuations + rest.actuations == acts + (first.actuations + rest.actuations);
    }
  }

  /** From start-up (the initial state and its one ON actuation) the invariants
      hold after any sequence of events, and the history stays alternating. */
  lemma FromStartUp(evs: seq<Event>)
    ensures Valid(Run(Initial(), evs).next)
    ensures Consistent(Run(Initial(), evs).next, [TurnOn] + Run(Initial(), evs).actuations)
  {
    RunConsistent(Initial(), [TurnOn], evs);
  }

  /** Between two OFF actuations in a consistent history there is an ON. */
  lemma OffsSeparatedByOn(acts: seq<Actuation>, i: int, j: int)
    requires Alternating(acts)
    requires 0 <= i < j < |acts| && acts[i] == TurnOff && acts[j] == TurnOff
    ensures exists k :: i < k < j && acts[k] == TurnOn
  {
    assert acts[i] != acts[i + 1];
    assert i + 1 != j;
    assert acts[i + 1] == TurnOn;
  }

  /** `n` iterations of the main loop with no motion in between. */
  function Ticks(n: nat): (evs: seq<Event>)
    ensures |evs| == n && MotionEvent !in evs
  {
    if n == 0 then [] else [TickEvent] + Ticks(n - 1)
  }

  function Min(a: int, b: int): int {
    if a <= b then a else b
  }

  /** An idle period of `n` ticks from a valid state: the counter climbs by one per
      tick and saturates at the threshold; a lit screen is switched off exactly once,
      on the first tick that finds the counter at the threshold, and never again. */
  lemma {:induction false} IdlePeriod(s: State, n: nat)
    requires Valid(s)
    ensures var e := Run(s, Ticks(n));
            var sleeps := s.screenOn == 1 && s.idleCounter + n > IdleThreshold;
            && e.next == State(if sleeps then 0 else s.screenOn, Min(s.idleCounter + n, IdleThreshold))
            && e.actuations == (if sleeps then [TurnOff] else [])
            && e.rows == []
    decreases n
  {
    if n > 0 {
      var t := OnTick(s);
      assert Ticks(n)[0] == TickEvent && Ticks(n)[1..] == Ticks(n - 1);
      IdlePeriod(t.next, n - 1);
      var rest := Run(t.next, Ticks(n - 1));
      assert Run(s, Ticks(n)).actuations == t.actuations + rest.actuations;
    }
  }

  /** From a fresh wake (screen on, counter 0) the screen goes off after the
      901st tick: 900 ticks count up to the threshold and the next one acts. */
  lemma WakeToSleep(n: nat)
    ensures Run(State(1, 0), Ticks(n)).actuations == (if n > IdleThreshold then [TurnOff] else [])
    ensures Run(State(1, 0), Ticks(n)).next
         == (if n > IdleThreshold then State(0, IdleThreshold) else State(1, n))
    ensures Run(State(1, 0), Ticks(n)).rows == []
  {
    IdlePeriod(State(1, 0), n);
  }

  /** Motion wakes the screen at once whatever happened before, and ends any idle period. */
  lemma {:induction false} MotionWakes(s: State, a: seq<Event>, n: nat)
    requires Valid(s)
    ensures var e := Run(s, a + [MotionEvent] + Ticks(n));
            e.next == State(if n > IdleThreshold then 0 else 1, Min(n, IdleThreshold))
  {
    var ea := Run(s, a);
    RunAppend(s, a, [MotionEvent]);
    RunAppend(s, a + [MotionEvent], Ticks(n));
    var em := Run(ea.next, [MotionEvent]);
    assert em.next == State(1, 0) by {
      assert [MotionEvent][1..] == [];
    }
    WakeToSleep(n);
  }

  /** Start-up, an idle period long enough to switch the screen off (901 ticks or
      more), a motion, then `m` more ticks short of a second timeout. */
  lemma {:induction false} SleepThenWakeScenario(n: nat, m: nat)
    requires n > IdleThreshold && m <= IdleThreshold
    ensures var e := Run(Initial(), Ticks(n) + [MotionEvent] + Ticks(m));
            && e.next == State(1, m)
            && e.actuations == [TurnOff, TurnOn]
            && e.rows == [false]
  {
    var e1 := Run(Initial(), Ticks(n));
    WakeToSleep(n);
    RunAppend(Initial(), Ticks(n), [MotionEvent]);
    var e2 := Run(e1.next, [MotionEvent]);
    assert e2 == Effect(State(1, 0), [TurnOn], [false]) by {
      assert [MotionEvent][1..] == [];
    }
    RunAppend(Initial(), Ticks(n) + [MotionEvent], Ticks(m));
    IdlePeriod(State(1, 0), m);
    assert e1.rows + e2.rows + [] == [false];
  }

  /** Two motions in quick succession while the screen is on: two rows, no actuation. */
  lemma DoubleMotionScenario(c: int)
    requires 0 <= c <= IdleThreshold
    ensures var e := Run(State(1, c), [MotionEvent, MotionEvent]);
            e.next == State(1, 0) && e.actuations == [] && e.rows == [true, true]
  {
  }
}
