/** The controller as the program runs it: the two globals as mutable fields,
    one method per C function that touches them. Starting the screen scripts and
    writing log rows are recorded in two ghost histories. */
module Detector {
  import opened Policy

  class MotionDetector {
    /** `screen_on`: 1 while the screen is meant to be on. */
    var screenOn: int
    /** `idle_counter`: loop iterations since the last motion, saturating at the threshold. */
    var idleCounter: int
    /** Every screen script started so far, in order. */
    ghost var actuations: seq<Actuation>
    /** The `is_screen_on` flag of every motion row written so far, in order. */
    ghost var log: seq<bool>

    function Current(): State
      reads this
    {
      State(screenOn, idleCounter)
    }

    /** The state invariants hold and `screen_on` matches the last script started. */
    ghost predicate Valid()
      reads this
    {
      Policy.Valid(Current()) && Consistent(Current(), actuations)
    }

    /** Start-up: the globals' initial values, then the screen is turned on once. */
    constructor ()
      ensures Valid()
      ensures Current() == Initial()
      ensures actuations == [TurnOn] && log == []
    {
      screenOn := 1;
      idleCounter := 0;
      actuations := [];
      log := [];
      new;
      TurnScreenOn();
    }

    /** `turn_screen_on`: start the screen-on script without waiting for it. */
    method TurnScreenOn()
      modifies this`actuations
      ensures actuations == old(actuations) + [TurnOn]
    {
      actuations := actuations + [TurnOn];
    }

    /** `turn_screen_off`: start the screen-off script without waiting for it. */
    method TurnScreenOff()
      modifies this`actuations
      ensures actuations == old(actuations) + [TurnOff]
    {
      actuations := actuations + [TurnOff];
    }

    /** `log_motion`: write one row recording whether `screen_on` is 1 right now. */
    method LogMotion()
      modifies this`log
      ensures log == old(log) + [screenOn == 1]
    {
      if screenOn == 1 {
        log := log + [true];
      } else {
        log := log + [false];
      }
    }

    /** `motion_detected`, the interrupt callback. */
    method MotionDetected()
      requires Valid()
      modifies this
      ensures Valid()
      ensures Current() == OnMotion(old(Current())).next
      ensures actuations == old(actuations) + OnMotion(old(Current())).actuations
      ensures log == old(log) + OnMotion(old(Current())).rows
    {
      StepConsistent(Current(), actuations, MotionEvent);
      idleCounter := 0;
      LogMotion();
      if screenOn == 1 {
        return;
      }
      TurnScreenOn();
      screenOn := 1;
    }

    /** The body of the main loop after its one-second delay. */
    method Tick()
      requires Valid()
      modifies this
      ensures Valid()
      ensures Current() == OnTick(old(Current())).next
      ensures actuations == old(actuations) + OnTick(old(Current())).actuations
      ensures log == old(log)
    {
      StepConsistent(Current(), actuations, TickEvent);
      if idleCounter < IdleThreshold {
        idleCounter := idleCounter + 1;
      } else if idleCounter == IdleThreshold && screenOn == 1 {
        TurnScreenOff();
        screenOn := 0;
      }
    }

    /** One event, delivered either to the interrupt callback or to the loop body. */
    method HandleEvent(ev: Event)
      requires Valid()
      modifies this
      ensures Valid()
      ensures Current() == Step(old(Current()), ev).next
      ensures actuations == old(actuations) + Step(old(Current()), ev).actuations
      ensures log == old(log) + Step(old(Current()), ev).rows
    {
      match ev
      case MotionEvent => MotionDetected();
      case TickEvent => Tick();
    }

    /** The main loop with its interrupts: each event is handled atomically, in
        the order given, as a motion callback or as one loop iteration. */
    method RunEvents(events: seq<Event>)
      requires Valid()
      modifies this
      ensures Valid()
      ensures Current() == Run(old(Current()), events).next
      ensures actuations == old(actuations) + Run(old(Current()), events).actuations
      ensures log == old(log) + Run(old(Current()), events).rows
    {
      ghost var whole := Run(Current(), events);
      ghost var a0, l0 := actuations, log;
      var i := 0;
      while i < |events|
        invariant 0 <= i <= |events|
        invariant Valid()
        invariant whole.next == Run(Current(), events[i..]).next
        invariant a0 + whole.actuations == actuations + Run(Current(), events[i..]).actuations
        invariant l0 + whole.rows == log + Run(Current(), events[i..]).rows
      {
        ghost var rest := Run(Current(), events[i..]);
        ghost var step := Step(Current(), events[i]);
        ghost var later := Run(step.next, events[i + 1..]);
        RunFrom(Current(), events, i);
        ghost var acts, rows := actuations, log;
        HandleEvent(events[i]);
        ConcatAssoc(acts, step.actuations, later.actuations);
        ConcatAssoc(rows, step.rows, later.rows);
        i := i + 1;
      }
      assert events[i..] == [];
    }
  }
}
