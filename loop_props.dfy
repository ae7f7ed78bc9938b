/** What a tick and a run of calls guarantee, over all inputs: the drain loop
    runs the whole steps owed up to the panic cap, the interpolation handed to
    draw is the fraction of a step left over, panic is reported to end for
    exactly the tick that hit the cap, and the invariants of the loop survive
    any sequence of calls. */
module LoopProps {
  import opened LoopSpec

  // ---------------------------------------------------------------------------
  // The drain loop

  /** What the drain loop leaves, for any step: the time still owed is what was
      owed less the steps run; without panic less than a step is left; no step
      runs exactly when less than a step is owed; and once a step has run the
      time left is not negative. */
  lemma {:induction false} DrainRemainder(delta: real, step: real, taken: nat)
    requires taken < MaxUpdateSteps
    ensures var d := Drain(delta, step, taken);
      && d.remaining == delta - Multiple(d.steps - taken, step)
      && (d.steps == taken <==> delta < step)
      && (!d.panic ==> d.remaining < step)
      && (d.steps > taken ==> d.remaining >= 0.0)
    decreases MaxUpdateSteps - taken
  {
    if delta >= step && taken + 1 < MaxUpdateSteps {
      DrainRemainder(delta - step, step, taken + 1);
    }
  }

  /** With a positive step and nothing owed backwards, the drain runs
      floor(delta / step) steps, capped at MaxUpdateSteps, and panics exactly
      when MaxUpdateSteps whole steps or more are owed. Multiple(n, step) is
      n * step (MultipleIsProduct). */
  lemma DrainCount(delta: real, step: real)
    requires step > 0.0 && delta >= 0.0
    ensures var d := Drain(delta, step, 0);
      && d.remaining == delta - Multiple(d.steps, step)
      && Multiple(d.steps, step) <= delta
      && (!d.panic ==> delta < Multiple(d.steps + 1, step))
      && (d.panic <==> delta >= Multiple(MaxUpdateSteps, step))
  {
    var d := Drain(delta, step, 0);
    DrainRemainder(delta, step, 0);
    var n := d.steps;
    assert n - 0 == n;
    if !d.panic {
      MultipleMonotonic(n + 1, MaxUpdateSteps, step);
    }
  }

  lemma {:induction false} MultipleMonotonic(k: nat, m: nat, step: real)
    requires k <= m && step >= 0.0
    ensures Multiple(k, step) <= Multiple(m, step)
    decreases m
  {
    if k < m {
      MultipleMonotonic(k, m - 1, step);
    }
  }

  /** Owing exactly MaxUpdateSteps steps is a panic, although nothing is left owed. */
  lemma ExactlyMaxStepsPanic(step: real)
    requires step > 0.0
    ensures Drain(MaxUpdateSteps as real * step, step, 0) == Drained(0.0, MaxUpdateSteps, true)
  {
    MultipleIsProduct(MaxUpdateSteps, step);
    MultipleMonotonic(0, MaxUpdateSteps, step);
    DrainCount(MaxUpdateSteps as real * step, step);
  }

  // ---------------------------------------------------------------------------
  // One tick

  /** An accepted tick: the elapsed time is added to what was owed and handed to
      begin, the tick's timestamp becomes the last frame time, the owed time is
      drained in whole steps with one update call each, and panic is cleared.
      With a non-negative rate cap the last frame time does not go backwards and
      the owed time only grows before the drain. */
  lemma AcceptedTick(s: LoopState, timestamp: real)
    requires Accepts(s, timestamp)
    ensures var r := Animate(s, timestamp);
      var owed := s.frameDelta + (timestamp - s.lastFrameTime);
      var n := r.post.numberOfUpdateSteps;
      && r.events[0] == Begin(s.hooks.begin, timestamp, owed)
      && r.events[1..n + 1] == Updates(s.hooks.update, s.simulationTimestep, n)
      && r.post.lastFrameTime == timestamp
      && r.post.frameDelta == owed - Multiple(n, s.simulationTimestep)
      && (n < MaxUpdateSteps ==> r.post.frameDelta < s.simulationTimestep)
      && (owed >= 0.0 ==> r.post.frameDelta >= 0.0)
      && (s.minFrameDelay >= 0.0 ==> r.post.lastFrameTime >= s.lastFrameTime && owed >= s.frameDelta)
      && !r.post.panic
  {
    var owed := s.frameDelta + (timestamp - s.lastFrameTime);
    var d := Drain(owed, s.simulationTimestep, 0);
    DrainRemainder(owed, s.simulationTimestep, 0);
    var es := Animate(s, timestamp).events;
    assert es == [Begin(s.hooks.begin, timestamp, owed)]
      + Updates(s.hooks.update, s.simulationTimestep, d.steps)
      + [Draw(s.hooks.draw, Divide(d.remaining, s.simulationTimestep)),
         End(s.hooks.end, Animate(s, timestamp).post.fps, s.panic || d.panic)];
    assert es[1..d.steps + 1] == Updates(s.hooks.update, s.simulationTimestep, d.steps);
  }

  /** A tick the rate cap lets through, with a positive step and nothing owed
      backwards: it runs floor(owed / step) updates (at most MaxUpdateSteps),
      draws with the fraction of a step left over, which lies in [0, 1) unless
      the tick panicked, and reports panic to end exactly when MaxUpdateSteps
      or more whole steps were owed. */
  lemma TickDrawsFraction(s: LoopState, timestamp: real)
    requires Accepts(s, timestamp) && !s.panic
    requires s.simulationTimestep > 0.0 && s.frameDelta >= 0.0 && s.minFrameDelay >= 0.0
    ensures var r := Animate(s, timestamp);
      var step := s.simulationTimestep;
      var owed := s.frameDelta + (timestamp - s.lastFrameTime);
      var n := r.post.numberOfUpdateSteps;
      var x := r.post.frameDelta / step;
      && Multiple(n, step) <= owed
      && (n < MaxUpdateSteps ==> owed < Multiple(n + 1, step))
      && r.events[n + 1] == Draw(s.hooks.draw, Finite(x))
      && 0.0 <= x
      && (n < MaxUpdateSteps ==> x < 1.0)
      && r.events[n + 2] == End(s.hooks.end, r.post.fps, owed >= Multiple(MaxUpdateSteps, step))
  {
    var step := s.simulationTimestep;
    var owed := s.frameDelta + (timestamp - s.lastFrameTime);
    var d := Drain(owed, step, 0);
    DrainCount(owed, step);
    FractionOfStep(d.remaining, step);
  }

  /** What is left of a step, as a fraction of the step. */
  lemma FractionOfStep(remaining: real, step: real)
    requires step > 0.0 && remaining >= 0.0
    ensures 0.0 <= remaining / step
    ensures remaining < step ==> remaining / step < 1.0
  {
    var q := remaining / step;
    assert q * step == remaining;
    if q >= 1.0 {
      assert q * step >= 1.0 * step;
    }
  }

  /** The frame-rate window of a tick: once more than FpsUpdateInterval has
      passed since the window opened, the estimate becomes the rate of the frames
      counted in the window plus (1 - FpsAlpha) of the old estimate, the window
      reopens at the tick's timestamp and holds this frame; otherwise the frame
      is added to the window and the estimate is kept. */
  lemma TickCountsFrame(s: LoopState, timestamp: real)
    requires Accepts(s, timestamp)
    ensures var p := Animate(s, timestamp).post;
      && (timestamp > s.lastFpsUpdate + FpsUpdateInterval ==>
            && p.fps == s.framesSinceLastFpsUpdate as real * 1000.0 / (timestamp - s.lastFpsUpdate)
                        + (1.0 - FpsAlpha) * s.fps
            && p.lastFpsUpdate == timestamp
            && p.framesSinceLastFpsUpdate == 1)
      && (timestamp <= s.lastFpsUpdate + FpsUpdateInterval ==>
            && p.fps == s.fps
            && p.lastFpsUpdate == s.lastFpsUpdate
            && p.framesSinceLastFpsUpdate == s.framesSinceLastFpsUpdate + 1)
  {
  }

  /** Windows at a steady frame rate `rate`: the estimate's only fixed point
      is rate / FpsAlpha, and each window shrinks the distance to it by the
      factor 1 - FpsAlpha, so the estimate settles there. The new sample is
      not weighted by FpsAlpha, so it settles above the true rate, and from
      the true rate it rises. */
  lemma FpsFixedPoint(frames: nat, elapsed: real, rate: real, previous: real)
    requires elapsed > 0.0 && frames as real * 1000.0 / elapsed == rate
    ensures EstimateFps(frames, elapsed, previous) == previous <==> previous == rate / FpsAlpha
    ensures EstimateFps(frames, elapsed, previous) - rate / FpsAlpha
      == (1.0 - FpsAlpha) * (previous - rate / FpsAlpha)
    ensures rate > 0.0 ==> EstimateFps(frames, elapsed, rate) > rate
  {
  }

  /** A steady frame rate held for k windows from an estimate `previous`:
      the distance to rate / FpsAlpha shrinks by (1 - FpsAlpha)^k. */
  function SteadyEstimate(k: nat, frames: nat, elapsed: real, previous: real): real
    requires elapsed > 0.0
  {
    if k == 0 then previous else EstimateFps(frames, elapsed, SteadyEstimate(k - 1, frames, elapsed, previous))
  }

  function Power(x: real, k: nat): real
  {
    if k == 0 then 1.0 else x * Power(x, k - 1)
  }

  lemma {:induction false} FpsSettles(k: nat, frames: nat, elapsed: real, rate: real, previous: real)
    requires elapsed > 0.0 && frames as real * 1000.0 / elapsed == rate
    ensures SteadyEstimate(k, frames, elapsed, previous) - rate / FpsAlpha
      == Power(1.0 - FpsAlpha, k) * (previous - rate / FpsAlpha)
  {
    if k > 0 {
      FpsSettles(k - 1, frames, elapsed, rate, previous);
      FpsFixedPoint(frames, elapsed, rate, SteadyEstimate(k - 1, frames, elapsed, previous));
    }
  }

  // ---------------------------------------------------------------------------
  // A worked tick

  /** Steps of 16 ms and a tick 50 ms after the last frame with nothing owed:
      three updates, 2 ms left over, and a draw at 0.125. */
  lemma FiftyMillisecondsOfSixteenMillisecondSteps(s: LoopState)
    requires s.simulationTimestep == 16.0 && s.minFrameDelay == 0.0
    requires s.frameDelta == 0.0 && s.lastFrameTime == 0.0
    ensures var r := Animate(s, 50.0);
      && r.post.numberOfUpdateSteps == 3
      && r.post.frameDelta == 2.0
      && r.events == [Begin(s.hooks.begin, 50.0, 50.0),
                      Update(s.hooks.update, 16.0), Update(s.hooks.update, 16.0), Update(s.hooks.update, 16.0),
                      Draw(s.hooks.draw, Finite(0.125)),
                      End(s.hooks.end, r.post.fps, s.panic)]
  {
  }

  // ---------------------------------------------------------------------------
  // Runs of calls

  /** Counting update calls distributes over concatenation. */
  lemma {:induction false} UpdateCallsAppend(a: seq<Event>, b: seq<Event>)
    ensures UpdateCalls(a + b) == UpdateCalls(a) + UpdateCalls(b)
    decreases |b|
  {
    if b != [] {
      var b' := b[..|b| - 1];
      assert (a + b)[..|a + b| - 1] == a + b';
      UpdateCallsAppend(a, b');
    } else {
      assert a + b == a;
    }
  }

  lemma {:induction false} UpdateCallsOfUpdates(h: Hook, timestep: real, n: nat)
    ensures UpdateCalls(Updates(h, timestep, n)) == n
  {
    if n > 0 {
      var u := Updates(h, timestep, n);
      assert u[..n - 1] == Updates(h, timestep, n - 1);
      UpdateCallsOfUpdates(h, timestep, n - 1);
    }
  }

  /** An accepted frame calls update exactly once per step drained. */
  lemma FrameCallsUpdates(hooks: Hooks, timestamp: real, owed: real, step: real,
                          d: Drained, fps: real, panic: bool)
    ensures UpdateCalls(FrameCalls(hooks, timestamp, owed, step, d, fps, panic)) == d.steps
  {
    var head := [Begin(hooks.begin, timestamp, owed)];
    var ups := Updates(hooks.update, step, d.steps);
    var tail := [Draw(hooks.draw, Divide(d.remaining, step)), End(hooks.end, fps, panic)];
    assert FrameCalls(hooks, timestamp, owed, step, d, fps, panic) == head + ups + tail;
    UpdateCallsAppend(head + ups, tail);
    UpdateCallsAppend(head, ups);
    UpdateCallsOfUpdates(hooks.update, step, d.steps);
    assert UpdateCalls(head) == 0 by {
      assert head[..0] == [];
    }
    assert UpdateCalls(tail) == 0 by {
      assert tail[..1][..0] == [];
      assert tail[..1] == [tail[0]];
    }
  }

  /** A tick keeps the invariants and calls update once per step it runs,
      so at most MaxUpdateSteps times. */
  lemma TickKeepsSound(s: LoopState, timestamp: real)
    requires Sound(s)
    ensures Sound(Animate(s, timestamp).post)
    ensures Accepts(s, timestamp) ==>
      UpdateCalls(Animate(s, timestamp).events) == Animate(s, timestamp).post.numberOfUpdateSteps
    ensures UpdateCalls(Animate(s, timestamp).events) <= MaxUpdateSteps
  {
    if Accepts(s, timestamp) {
      AcceptedTick(s, timestamp);
      var owed := s.frameDelta + (timestamp - s.lastFrameTime);
      var w := AdvanceFpsWindow(FpsWindow(s.fps, s.lastFpsUpdate, s.framesSinceLastFpsUpdate), timestamp);
      var d := Drain(owed, s.simulationTimestep, 0);
      FrameCallsUpdates(s.hooks, timestamp, owed, s.simulationTimestep, d, w.fps, s.panic || d.panic);
    }
  }

  /** One call keeps the invariants and makes at most MaxUpdateSteps update
      calls, and none unless it is a tick. */
  lemma ApplyKeepsSound(s: LoopState, c: Call)
    requires Sound(s) && SaneCall(c)
    ensures Sound(Apply(s, c).post)
    ensures UpdateCalls(Apply(s, c).events) <= (if c.AnimateCall? then MaxUpdateSteps else 0)
  {
    match c
    case AnimateCall(t) =>
      TickKeepsSound(s, t);
    case PrimeFrameCall(t) =>
      assert PrimeFrame(s, t).events[..0] == [];
    case _ =>
  }

  /** Any sequence of calls keeps the invariants, so panic is never left set
      between calls and frameDelta never goes negative, and makes at most
      MaxUpdateSteps update calls per tick. */
  lemma {:induction false} RunKeepsSound(s: LoopState, calls: seq<Call>)
    requires Sound(s)
    requires forall i :: 0 <= i < |calls| ==> SaneCall(calls[i])
    ensures Sound(Run(s, calls).post)
    ensures UpdateCalls(Run(s, calls).events) <= MaxUpdateSteps * Ticks(calls)
    decreases |calls|
  {
    if calls != [] {
      var first := Apply(s, calls[0]);
      ApplyKeepsSound(s, calls[0]);
      RunKeepsSound(first.post, calls[1..]);
      UpdateCallsAppend(first.events, Run(first.post, calls[1..]).events);
    }
  }

  /** The i-th call of a run, made from the state the calls before it leave,
      makes at most MaxUpdateSteps update calls, and none unless it is a tick. */
  lemma RunCallBound(s: LoopState, calls: seq<Call>, i: nat)
    requires Sound(s)
    requires forall j :: 0 <= j < |calls| ==> SaneCall(calls[j])
    requires i < |calls|
    ensures Sound(Run(s, calls[..i]).post)
    ensures UpdateCalls(Apply(Run(s, calls[..i]).post, calls[i]).events)
      <= (if calls[i].AnimateCall? then MaxUpdateSteps else 0)
  {
    assert forall j :: 0 <= j < i ==> calls[..i][j] == calls[j];
    RunKeepsSound(s, calls[..i]);
    ApplyKeepsSound(Run(s, calls[..i]).post, calls[i]);
  }
}
