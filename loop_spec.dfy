/** The fixed-timestep loop driver as values: its state, the calls it makes to
    the four lifecycle hooks, and one function per operation giving the state
    afterwards. The class in module Driver is proved against these functions. */
module LoopSpec {

  /** Fixed steps one tick may run before it stops draining and reports panic. */
  const MaxUpdateSteps: nat := 240
  /** Weight of the smoothed frame rate: the carried-over estimate is scaled by 1 - FpsAlpha. */
  const FpsAlpha: real := 0.9
  /** Milliseconds a frame-rate window lasts before the estimate is recomputed. */
  const FpsUpdateInterval: real := 1000.0
  const DefaultSimulationTimestep: real := 1000.0 / 60.0
  const DefaultFps: real := 60.0

  datatype Option<T> = None | Some(value: T)

  /** A lifecycle callback, known only by its identity; Noop is the default one. */
  datatype Hook = Noop | Registered(id: nat)

  datatype Hooks = Hooks(begin: Hook, update: Hook, draw: Hook, end: Hook)

  /** A number divided by the timestep; NonFinite stands for the Infinity or NaN
      that a division by a zero timestep yields. */
  datatype Quotient = Finite(value: real) | NonFinite

  /** One call of a lifecycle hook, with its arguments. */
  datatype Event =
    | Begin(hook: Hook, timestamp: real, frameDelta: real)
    | Update(hook: Hook, timestep: real)
    | Draw(hook: Hook, interpolation: Quotient)
    | End(hook: Hook, fps: real, panic: bool)

  /** The host callback currently scheduled: none, the priming frame of start, or a tick. */
  datatype Pending = Idle | PrimingFrame | AnimationFrame

  datatype LoopState = LoopState(
    simulationTimestep: real,
    frameDelta: real,
    lastFrameTime: real,
    fps: real,
    lastFpsUpdate: real,
    framesSinceLastFpsUpdate: nat,
    numberOfUpdateSteps: nat,
    minFrameDelay: real,
    running: bool,
    started: bool,
    panic: bool,
    pending: Pending,
    hooks: Hooks)

  /** The state after an operation and the hook calls it made, in order. */
  datatype Outcome = Outcome(post: LoopState, events: seq<Event>)

  /** What holds between two operations: no panic is left over, no time is owed
      backwards, the rate cap is not negative and the estimate is not negative. */
  predicate Sound(s: LoopState)
  {
    && !s.panic
    && s.frameDelta >= 0.0
    && s.minFrameDelay >= 0.0
    && s.fps >= 0.0
    && s.numberOfUpdateSteps <= MaxUpdateSteps
  }

  /** The state a new loop starts in. */
  function Initial(): (s: LoopState)
    ensures Sound(s) && !s.running && !s.started && s.pending == Idle
    ensures s.simulationTimestep > 0.0
  {
    LoopState(DefaultSimulationTimestep, 0.0, 0.0, DefaultFps, 0.0, 0, 0, 0.0,
              false, false, false, Idle, Hooks(Noop, Noop, Noop, Noop))
  }

  /** x / y as the host computes it, with division by zero made explicit. */
  function Divide(x: real, y: real): (q: Quotient)
    ensures q.Finite? <==> y != 0.0
    ensures q.Finite? ==> q.value * y == x
  {
    if y == 0.0 then NonFinite else Finite(x / y)
  }

  // ---------------------------------------------------------------------------
  // Configuration

  /** The minimum spacing between accepted frames for a frame-rate cap;
      None is the call without an argument, whose cap is +Infinity. */
  function MinFrameDelayFor(cap: Option<real>): (delay: real)
    requires cap != Some(0.0)
    ensures cap.None? ==> delay == 0.0
    ensures cap.Some? ==> delay * cap.value == 1000.0
    ensures cap.Some? && cap.value > 0.0 ==> delay > 0.0
  {
    match cap
    case None => 0.0
    case Some(f) => 1000.0 / f
  }

  /** The cap a spacing corresponds to; None stands for the +Infinity of an uncapped loop. */
  function MaxAllowedFps(minFrameDelay: real): (r: Option<real>)
    ensures r.None? <==> minFrameDelay == 0.0
    ensures r.Some? ==> r.value * minFrameDelay == 1000.0
  {
    if minFrameDelay == 0.0 then None else Some(1000.0 / minFrameDelay)
  }

  lemma MaxAllowedFpsRoundTrip(cap: Option<real>)
    requires cap != Some(0.0)
    ensures MaxAllowedFps(MinFrameDelayFor(cap)) == cap
  {
    match cap
    case None =>
    case Some(f) =>
      var d := 1000.0 / f;
      assert d * f == 1000.0;
      assert d != 0.0;
      assert 1000.0 / d == f by {
        assert (1000.0 / d) * d == 1000.0;
        assert f * d == 1000.0;
      }
  }

  function SetMaxAllowedFps(s: LoopState, cap: Option<real>): (r: LoopState)
    ensures cap == Some(0.0) ==> r == Stop(s)
    ensures cap != Some(0.0) ==> r == s.(minFrameDelay := r.minFrameDelay)
    ensures cap != Some(0.0) ==> MaxAllowedFps(r.minFrameDelay) == cap
    ensures cap.Some? && cap.value > 0.0 ==> r.minFrameDelay > 0.0
  {
    if cap == Some(0.0) then Stop(s)
    else
      MaxAllowedFpsRoundTrip(cap);
      s.(minFrameDelay := MinFrameDelayFor(cap))
  }

  function ResetFrameDelta(s: LoopState): (r: LoopState)
    ensures r.frameDelta == 0.0
    ensures r.(frameDelta := s.frameDelta) == s
  {
    s.(frameDelta := 0.0)
  }

  // ---------------------------------------------------------------------------
  // Lifecycle

  function Start(s: LoopState): (r: LoopState)
    ensures r.started
    ensures s.started ==> r == s
    ensures !s.started ==> r.pending == PrimingFrame
    ensures r.(started := s.started, pending := s.pending) == s
  {
    if s.started then s else s.(started := true, pending := PrimingFrame)
  }

  function Stop(s: LoopState): (r: LoopState)
    ensures !r.running && !r.started && r.pending == Idle
    ensures r.(running := s.running, started := s.started, pending := s.pending) == s
  {
    s.(running := false, started := false, pending := Idle)
  }

  /** The one-shot callback that start schedules: draws once at interpolation 1,
      opens a fresh frame-rate window at its timestamp and schedules the first tick. */
  function PrimeFrame(s: LoopState, timestamp: real): (r: Outcome)
    ensures r.events == [Draw(s.hooks.draw, Finite(1.0))]
    ensures r.post.running && r.post.pending == AnimationFrame
    ensures r.post.lastFrameTime == timestamp && r.post.lastFpsUpdate == timestamp
    ensures r.post.framesSinceLastFpsUpdate == 0
    ensures r.post.frameDelta == s.frameDelta && r.post.fps == s.fps
    ensures r.post.numberOfUpdateSteps == s.numberOfUpdateSteps
    ensures SameSettings(s, r.post) && r.post.started == s.started && r.post.panic == s.panic
  {
    Outcome(s.(running := true, lastFrameTime := timestamp, lastFpsUpdate := timestamp,
               framesSinceLastFpsUpdate := 0, pending := AnimationFrame),
            [Draw(s.hooks.draw, Finite(1.0))])
  }

  /** The fields no tick and no priming frame writes. */
  predicate SameSettings(s: LoopState, r: LoopState)
  {
    && r.simulationTimestep == s.simulationTimestep
    && r.minFrameDelay == s.minFrameDelay
    && r.hooks == s.hooks
  }

  // ---------------------------------------------------------------------------
  // One tick

  /** The time `n` fixed steps of length `step` take, as repeated addition. */
  function Multiple(n: nat, step: real): real
  {
    if n == 0 then 0.0 else Multiple(n - 1, step) + step
  }

  lemma {:induction false} MultipleIsProduct(n: nat, step: real)
    ensures Multiple(n, step) == n as real * step
  {
    if n > 0 {
      MultipleIsProduct(n - 1, step);
      assert n as real * step == (n - 1) as real * step + step;
    }
  }

  /** The result of draining owed time in fixed steps. */
  datatype Drained = Drained(remaining: real, steps: nat, panic: bool)

  /** The drain loop from the point where `taken` steps have run and `delta`
      is still owed: a step runs while a whole step is owed, and the loop
      gives up with panic as soon as MaxUpdateSteps steps have run. */
  function Drain(delta: real, step: real, taken: nat): (r: Drained)
    requires taken < MaxUpdateSteps
    ensures taken <= r.steps <= MaxUpdateSteps
    ensures r.panic <==> r.steps == MaxUpdateSteps
    decreases MaxUpdateSteps - taken
  {
    if delta < step then Drained(delta, taken, false)
    else if taken + 1 >= MaxUpdateSteps then Drained(delta - step, taken + 1, true)
    else Drain(delta - step, step, taken + 1)
  }

  /** `n` calls of the update hook with the fixed timestep. */
  function Updates(h: Hook, timestep: real, n: nat): (r: seq<Event>)
    ensures |r| == n
    ensures forall i :: 0 <= i < n ==> r[i] == Update(h, timestep)
  {
    if n == 0 then [] else Updates(h, timestep, n - 1) + [Update(h, timestep)]
  }

  /** The bookkeeping of the frame-rate estimate. */
  datatype FpsWindow = FpsWindow(fps: real, lastFpsUpdate: real, frames: nat)

  /** The estimate when a window of `elapsed` milliseconds with `frames`
      frames closes: the window's rate plus the previous estimate scaled by
      1 - FpsAlpha. The window's rate is not scaled by FpsAlpha. */
  function EstimateFps(frames: nat, elapsed: real, previous: real): (fps: real)
    requires elapsed > 0.0
    ensures previous >= 0.0 ==> fps >= 0.0
  {
    var rate := frames as real * 1000.0 / elapsed;
    assert rate >= 0.0 by {
      assert frames as real * 1000.0 >= 0.0;
    }
    rate + (1.0 - FpsAlpha) * previous
  }

  /** Counts a frame at `timestamp` into the window, first closing the window
      (recomputing the estimate and restarting the count) when it has lasted
      more than FpsUpdateInterval. */
  function AdvanceFpsWindow(w: FpsWindow, timestamp: real): (r: FpsWindow)
    ensures r.frames >= 1
    ensures timestamp > w.lastFpsUpdate + FpsUpdateInterval ==>
      && r.lastFpsUpdate == timestamp && r.frames == 1
      && r.fps == EstimateFps(w.frames, timestamp - w.lastFpsUpdate, w.fps)
    ensures timestamp <= w.lastFpsUpdate + FpsUpdateInterval ==>
      r == w.(frames := w.frames + 1)
    ensures r.lastFpsUpdate >= w.lastFpsUpdate
    ensures w.fps >= 0.0 ==> r.fps >= 0.0
  {
    if timestamp > w.lastFpsUpdate + FpsUpdateInterval then
      FpsWindow(EstimateFps(w.frames, timestamp - w.lastFpsUpdate, w.fps), timestamp, 1)
    else
      w.(frames := w.frames + 1)
  }

  /** A tick at `timestamp` is accepted unless it comes before the rate cap allows. */
  predicate Accepts(s: LoopState, timestamp: real)
    ensures s.minFrameDelay == 0.0 ==> (Accepts(s, timestamp) <==> timestamp >= s.lastFrameTime)
    ensures Accepts(s, timestamp) && s.minFrameDelay >= 0.0 ==> timestamp >= s.lastFrameTime
  {
    timestamp >= s.lastFrameTime + s.minFrameDelay
  }

  /** One tick: re-arm; drop the frame if the rate cap says so; otherwise
      accumulate the elapsed time, call begin, advance the frame-rate window,
      drain whole steps (each an update call), call draw with the fraction of
      a step left over and end with the estimate and the panic flag, and
      clear the flag. */
  function Animate(s: LoopState, timestamp: real): (r: Outcome)
    ensures r.post.pending == AnimationFrame
    ensures !s.panic || Accepts(s, timestamp) ==> !r.post.panic
    ensures SameSettings(s, r.post) && r.post.running == s.running && r.post.started == s.started
    ensures !Accepts(s, timestamp) ==> r == Outcome(s.(pending := AnimationFrame), [])
    ensures Accepts(s, timestamp) ==>
      && r.post.lastFrameTime == timestamp
      && r.post.numberOfUpdateSteps <= MaxUpdateSteps
      && |r.events| == r.post.numberOfUpdateSteps + 3
  {
    if !Accepts(s, timestamp) then
      Outcome(s.(pending := AnimationFrame), [])
    else
      AcceptFrame(s, timestamp)
  }

  /** The part of a tick that runs once the rate cap lets the frame through:
      the elapsed time is owed to the simulation, the frame is counted in the
      rate window, the owed time is drained in fixed steps, and the hooks are
      called. */
  function AcceptFrame(s: LoopState, timestamp: real): (r: Outcome)
    ensures r.post.pending == AnimationFrame && !r.post.panic
    ensures SameSettings(s, r.post) && r.post.running == s.running && r.post.started == s.started
    ensures r.post.lastFrameTime == timestamp
    ensures r.post.numberOfUpdateSteps <= MaxUpdateSteps
    ensures |r.events| == r.post.numberOfUpdateSteps + 3
    ensures r.events[0] == Begin(s.hooks.begin, timestamp, s.frameDelta + (timestamp - s.lastFrameTime))
    ensures r.events[|r.events| - 1] == End(s.hooks.end, r.post.fps, s.panic || r.post.numberOfUpdateSteps == MaxUpdateSteps)
  {
    var owed := s.frameDelta + (timestamp - s.lastFrameTime);
    var w := AdvanceFpsWindow(FpsWindow(s.fps, s.lastFpsUpdate, s.framesSinceLastFpsUpdate), timestamp);
    var d := Drain(owed, s.simulationTimestep, 0);
    var post := s.(frameDelta := d.remaining, lastFrameTime := timestamp,
                   fps := w.fps, lastFpsUpdate := w.lastFpsUpdate,
                   framesSinceLastFpsUpdate := w.frames, numberOfUpdateSteps := d.steps,
                   panic := false, pending := AnimationFrame);
    Outcome(post, FrameCalls(s.hooks, timestamp, owed, s.simulationTimestep, d, w.fps, s.panic || d.panic))
  }

  /** The hook calls of an accepted tick, in the order the tick makes them:
      begin, one update per step drained, draw, end. */
  function FrameCalls(hooks: Hooks, timestamp: real, owed: real, step: real,
                      d: Drained, fps: real, panic: bool): (es: seq<Event>)
    ensures |es| == d.steps + 3
    ensures es[0] == Begin(hooks.begin, timestamp, owed)
    ensures forall i :: 1 <= i <= d.steps ==> es[i] == Update(hooks.update, step)
    ensures es[d.steps + 1] == Draw(hooks.draw, Divide(d.remaining, step))
    ensures es[d.steps + 2] == End(hooks.end, fps, panic)
  {
    [Begin(hooks.begin, timestamp, owed)]
    + Updates(hooks.update, step, d.steps)
    + [Draw(hooks.draw, Divide(d.remaining, step)), End(hooks.end, fps, panic)]
  }

  // ---------------------------------------------------------------------------
  // Sequences of calls

  /** A call of the public interface, or a callback fired by the host. */
  datatype Call =
    | StartCall
    | StopCall
    | PrimeFrameCall(timestamp: real)
    | AnimateCall(timestamp: real)
    | ResetFrameDeltaCall
    | SetSimulationTimestepCall(timestep: real)
    | SetMaxAllowedFpsCall(cap: Option<real>)
    | SetBeginCall(hook: Hook)
    | SetUpdateCall(hook: Hook)
    | SetDrawCall(hook: Hook)
    | SetEndCall(hook: Hook)

  function Apply(s: LoopState, c: Call): Outcome
  {
    match c
    case StartCall => Outcome(Start(s), [])
    case StopCall => Outcome(Stop(s), [])
    case PrimeFrameCall(t) => PrimeFrame(s, t)
    case AnimateCall(t) => Animate(s, t)
    case ResetFrameDeltaCall => Outcome(ResetFrameDelta(s), [])
    case SetSimulationTimestepCall(x) => Outcome(s.(simulationTimestep := x), [])
    case SetMaxAllowedFpsCall(cap) => Outcome(SetMaxAllowedFps(s, cap), [])
    case SetBeginCall(h) => Outcome(s.(hooks := s.hooks.(begin := h)), [])
    case SetUpdateCall(h) => Outcome(s.(hooks := s.hooks.(update := h)), [])
    case SetDrawCall(h) => Outcome(s.(hooks := s.hooks.(draw := h)), [])
    case SetEndCall(h) => Outcome(s.(hooks := s.hooks.(end := h)), [])
  }

  /** The calls in order, with all their hook calls. */
  function Run(s: LoopState, calls: seq<Call>): Outcome
    decreases |calls|
  {
    if calls == [] then Outcome(s, [])
    else
      var first := Apply(s, calls[0]);
      var rest := Run(first.post, calls[1..]);
      Outcome(rest.post, first.events + rest.events)
  }

  /** The number of ticks among the calls. */
  function Ticks(calls: seq<Call>): nat
  {
    if calls == [] then 0 else (if calls[0].AnimateCall? then 1 else 0) + Ticks(calls[1..])
  }

  /** The number of update-hook calls among the events. */
  function UpdateCalls(events: seq<Event>): nat
  {
    if events == [] then 0
    else UpdateCalls(events[..|events| - 1]) + (if events[|events| - 1].Update? then 1 else 0)
  }

  /** A call that keeps the rate cap non-negative. */
  predicate SaneCall(c: Call)
  {
    c.SetMaxAllowedFpsCall? && c.cap.Some? ==> c.cap.value >= 0.0
  }
}
