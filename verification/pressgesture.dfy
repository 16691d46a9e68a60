/**
 * The press gesture of the graph editor (`gestures/PressGesture.ts`):
 * recognises a press, a long press and a multi-press from the pointers the
 * editor view hands it.
 *
 * Pointers are told apart by identity; the clock (`performance.now()`) and
 * the distance a pointer moved are inputs, and the long-press timer is a flag
 * with its firing an event of its own. What the gesture triggers is returned
 * as a list of signals.
 */
module PressGesture {
  import opened Wrappers

  /** `S_IDLE` .. `S_COMPLEX_GESTURE`. */
  datatype Phase = Idle | Pending | MovedTooFar | LongPress | Complex

  /** A slot being triggered. */
  datatype Signal = Press | LongPressed | MultiPress

  /** `PressGestureOptions`; a missing or `null` option is `None`. */
  datatype Options = Options(longPressDelay: Option<int>, maxPressDistance: Option<int>, multiPressDelay: Option<int>)

  /** Whether `stop` forgets the primary pointer. */
  datatype Build = AsWritten | Corrected

  datatype Gesture = Gesture(
    longPressDelay: int,
    maxPressDistance: int,
    multiPressDelay: int,
    multiPressTime: int,
    multiPressCount: int,
    phase: Phase,
    primary: Option<nat>,
    timer: bool)

  /** What an event leaves and what it triggered. */
  datatype Step = Step(g: Gesture, out: seq<Signal>)

  function OrElse(o: Option<int>, d: int): int {
    if o.Some? then o.value else d
  }

  /** `createPressGesture`: every option falls back to its default; idle, no pointer, no timer. */
  function Create(options: Option<Options>): (g: Gesture)
    ensures options.None? ==> g.longPressDelay == 800 && g.maxPressDistance == 10 && g.multiPressDelay == 400
    ensures options.Some? && options.value.longPressDelay.Some? ==> g.longPressDelay == options.value.longPressDelay.value
    ensures options.Some? && options.value.maxPressDistance.Some? ==> g.maxPressDistance == options.value.maxPressDistance.value
    ensures options.Some? && options.value.multiPressDelay.Some? ==> g.multiPressDelay == options.value.multiPressDelay.value
    ensures options.Some? && options.value.longPressDelay.None? ==> g.longPressDelay == 800
    ensures options.Some? && options.value.maxPressDistance.None? ==> g.maxPressDistance == 10
    ensures options.Some? && options.value.multiPressDelay.None? ==> g.multiPressDelay == 400
    ensures g.phase == Idle && g.primary.None? && !g.timer && g.multiPressTime == 0 && g.multiPressCount == 0
  {
    var o := if options.Some? then options.value else Options(None, None, None);
    Gesture(OrElse(o.longPressDelay, 800), OrElse(o.maxPressDistance, 10), OrElse(o.multiPressDelay, 400),
            0, 0, Idle, None, false)
  }

  /** `setState`: cancels a pending long-press timer and moves to `phase`. */
  function SetState(g: Gesture, phase: Phase): (r: Gesture)
    ensures !r.timer && r.phase == phase
    ensures r.(timer := g.timer, phase := g.phase) == g
  {
    g.(timer := false, phase := phase)
  }

  /**
   * `checkMultiPress`: a gap longer than the delay restarts the count; within
   * the delay a release counts and the second one in a row (or later) is a
   * multi-press. The time of this event is remembered either way.
   */
  function CheckMultiPress(g: Gesture, now: int, isUp: bool): (r: Step)
    ensures r.g.multiPressTime == now
    ensures now - g.multiPressTime > g.multiPressDelay ==> r.g.multiPressCount == 0 && r.out == []
    ensures now - g.multiPressTime <= g.multiPressDelay && !isUp ==> r.g == g.(multiPressTime := now) && r.out == []
    ensures now - g.multiPressTime <= g.multiPressDelay && isUp ==>
      r.g.multiPressCount == g.multiPressCount + 1 && (r.out == [MultiPress] <==> g.multiPressCount + 1 >= 2)
    ensures r.out == [] || r.out == [MultiPress]
    ensures r.g.(multiPressTime := g.multiPressTime, multiPressCount := g.multiPressCount) == g
  {
    if now - g.multiPressTime > g.multiPressDelay then
      Step(g.(multiPressCount := 0, multiPressTime := now), [])
    else if isUp then
      var count := g.multiPressCount + 1;
      Step(g.(multiPressCount := count, multiPressTime := now), if count >= 2 then [MultiPress] else [])
    else
      Step(g.(multiPressTime := now), [])
  }

  /**
   * `start`: with a primary pointer already held the gesture becomes complex
   * and the pointer is refused; otherwise the pointer becomes primary, the
   * long-press timer is armed and the press is timed.
   */
  function Start(g: Gesture, current: nat, now: int): (r: (Step, bool))
    ensures g.primary.Some? ==> !r.1 && r.0.g == SetState(g, Complex) && r.0.out == []
    ensures g.primary.None? ==> r.1 && r.0.g.phase == Pending && r.0.g.primary == Some(current) && r.0.g.timer
    ensures g.primary.None? ==> r.0.out == [] && r.0.g.multiPressTime == now
  {
    if g.primary.Some? then (Step(SetState(g, Complex), []), false)
    else
      var armed := g.(primary := Some(current), phase := Pending, timer := true);
      (CheckMultiPress(armed, now, false), true)
  }

  /** The long-press timer fires: the gesture becomes a long press. */
  function Fire(g: Gesture): (r: Step)
    ensures g.timer ==> r.g == SetState(g, LongPress) && r.out == [LongPressed]
    ensures !g.timer ==> r == Step(g, [])
  {
    if g.timer then Step(SetState(g, LongPress), [LongPressed]) else Step(g, [])
  }

  /** `move`: only the primary pointer counts, and moving it too far ends the press. */
  function Move(g: Gesture, current: nat, distance: int): (r: Gesture)
    ensures g.primary != Some(current) || distance <= g.maxPressDistance ==> r == g
    ensures g.primary == Some(current) && distance > g.maxPressDistance ==> r == SetState(g, MovedTooFar)
  {
    if g.primary != Some(current) then g
    else if distance > g.maxPressDistance then SetState(g, MovedTooFar)
    else g
  }

  /**
   * `stop`: only the primary pointer counts; a release while still pending
   * is a press (and maybe a multi-press), and the gesture goes idle. As
   * written the primary pointer is kept; corrected, it is forgotten.
   */
  function Stop(build: Build, g: Gesture, current: nat, now: int): (r: Step)
    ensures g.primary != Some(current) ==> r == Step(g, [])
    ensures g.primary == Some(current) ==> r.g.phase == Idle && !r.g.timer
    ensures g.primary == Some(current) ==> (|r.out| > 0 && r.out[0] == Press <==> g.phase == Pending)
    ensures g.primary == Some(current) && g.phase != Pending ==> r.out == []
    ensures g.primary == Some(current) ==> r.g.primary == (if build.AsWritten? then g.primary else None)
  {
    if g.primary != Some(current) then Step(g, [])
    else
      var s := if g.phase == Pending then var m := CheckMultiPress(g, now, true); Step(m.g, [Press] + m.out)
               else Step(g, []);
      var idle := SetState(s.g, Idle);
      Step(if build.AsWritten? then idle else idle.(primary := None), s.out)
  }

  /** What the editor view can ask of the gesture. */
  datatype Event = StartEv(pointer: nat, now: int) | MoveEv(pointer: nat, distance: int)
                 | StopEv(pointer: nat, now: int) | FireEv

  function Handle(build: Build, g: Gesture, e: Event): (r: Step)
  {
    match e
    case StartEv(p, now) => Start(g, p, now).0
    case MoveEv(p, d) => Step(Move(g, p, d), [])
    case StopEv(p, now) => Stop(build, g, p, now)
    case FireEv => Fire(g)
  }

  /** Runs a sequence of events and collects what they trigger. */
  function Run(build: Build, g: Gesture, es: seq<Event>): (r: Step)
    decreases |es|
  {
    if es == [] then Step(g, [])
    else
      var s := Handle(build, g, es[0]);
      var rest := Run(build, s.g, es[1..]);
      Step(rest.g, s.out + rest.out)
  }

  /** The long-press timer only runs while a press is pending under a primary pointer. */
  predicate TimerInv(g: Gesture) {
    g.timer ==> g.phase == Pending && g.primary.Some?
  }

  lemma HandleTimer(build: Build, g: Gesture, e: Event)
    requires TimerInv(g)
    ensures TimerInv(Handle(build, g, e).g)
  {
  }

  /**
   * As written, a gesture counts at most one release: `primary` is never
   * cleared, so once held no later pointer starts, and a pending phase
   * always comes with a zero count.
   */
  predicate CountInv(g: Gesture) {
    && 0 <= g.multiPressCount <= 1
    && (g.multiPressCount == 1 ==> g.primary.Some? && g.phase != Pending)
  }

  lemma HandleCount(g: Gesture, e: Event)
    requires CountInv(g)
    ensures CountInv(Handle(AsWritten, g, e).g)
    ensures MultiPress !in Handle(AsWritten, g, e).out
  {
  }

  /** As written, no sequence of events ever triggers a multi-press. */
  lemma {:induction false} NeverMultiPress(g: Gesture, es: seq<Event>)
    requires CountInv(g)
    ensures MultiPress !in Run(AsWritten, g, es).out
    decreases |es|
  {
    if es != [] {
      HandleCount(g, es[0]);
      NeverMultiPress(Handle(AsWritten, g, es[0]).g, es[1..]);
    }
  }

  /** Two quick presses with two pointers, 100 ms apart. */
  const DoublePress: seq<Event> := [StartEv(1, 1000), StopEv(1, 1100), StartEv(2, 1200), StopEv(2, 1300)]

  /**
   * As written the second pointer is refused and only one press is seen;
   * corrected, both presses and the multi-press are triggered.
   */
  lemma DoublePressOutcome()
    ensures Run(AsWritten, Create(None), DoublePress).out == [Press]
    ensures Start(Stop(AsWritten, Start(Create(None), 1, 1000).0.g, 1, 1100).g, 2, 1200).1 == false
    ensures Run(Corrected, Create(None), DoublePress).out == [Press, Press, MultiPress]
  {
    var g0 := Create(None);
    NeverMultiPress(g0, DoublePress);
    assert DoublePress[1..] == [StopEv(1, 1100), StartEv(2, 1200), StopEv(2, 1300)];
    assert DoublePress[1..][1..] == [StartEv(2, 1200), StopEv(2, 1300)];
    assert DoublePress[1..][1..][1..] == [StopEv(2, 1300)];
    assert DoublePress[1..][1..][1..][1..] == [];
  }

  /** Corrected, every release of the primary pointer leaves the gesture ready for the next one. */
  lemma StopReady(g: Gesture, current: nat, now: int, next: nat, later: int)
    requires g.primary == Some(current)
    ensures Start(Stop(Corrected, g, current, now).g, next, later).1
    ensures Start(Stop(Corrected, g, current, now).g, next, later).0.g.phase == Pending
  {
  }
}
