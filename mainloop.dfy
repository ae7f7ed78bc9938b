/** The loop driver as the object the application holds: the fields it
    updates in place, and one method per public operation or host callback.
    Every method is proved to leave the state that the matching function of
    LoopSpec gives, and to append exactly that function's hook calls to the
    ghost trace. */
module Driver {
  import opened LoopSpec

  class Mainloop {
    var simulationTimestep: real
    var frameDelta: real
    var lastFrameTime: real
    var fps: real
    var lastFpsUpdate: real
    var framesSinceLastFpsUpdate: nat
    var numberOfUpdateSteps: nat
    var minFrameDelay: real
    var running: bool
    var started: bool
    var panic: bool
    /** The host callback scheduled now; stands for the request handle. */
    var pending: Pending
    var begin: Hook
    var update: Hook
    var draw: Hook
    var end: Hook
    /** Every hook call made so far, oldest first. */
    ghost var trace: seq<Event>

    /** The fields as a value of LoopSpec. */
    function Snapshot(): LoopState
      reads this
    {
      LoopState(simulationTimestep, frameDelta, lastFrameTime, fps, lastFpsUpdate,
                framesSinceLastFpsUpdate, numberOfUpdateSteps, minFrameDelay,
                running, started, panic, pending, Hooks(begin, update, draw, end))
    }

    constructor ()
      ensures Snapshot() == Initial() && trace == []
    {
      simulationTimestep := DefaultSimulationTimestep;
      frameDelta := 0.0;
      lastFrameTime := 0.0;
      fps := DefaultFps;
      lastFpsUpdate := 0.0;
      framesSinceLastFpsUpdate := 0;
      numberOfUpdateSteps := 0;
      minFrameDelay := 0.0;
      running := false;
      started := false;
      panic := false;
      pending := Idle;
      begin, update, draw, end := Noop, Noop, Noop, Noop;
      trace := [];
    }

    method GetSimulationTimestep() returns (step: real)
      ensures step == Snapshot().simulationTimestep
    {
      step := simulationTimestep;
    }

    method SetSimulationTimestep(simulationStep: real)
      modifies this
      ensures Snapshot() == old(Snapshot()).(simulationTimestep := simulationStep)
      ensures trace == old(trace)
    {
      simulationTimestep := simulationStep;
    }

    method GetFPS() returns (estimate: real)
      ensures estimate == Snapshot().fps
    {
      estimate := fps;
    }

    /** The cap in frames per second; None when uncapped (the host's +Infinity). */
    method GetMaxAllowedFPS() returns (cap: Option<real>)
      ensures cap == LoopSpec.MaxAllowedFps(minFrameDelay)
    {
      if minFrameDelay == 0.0 {
        cap := None;
      } else {
        cap := Some(1000.0 / minFrameDelay);
      }
    }

    /** None is the call without an argument, which removes the cap. */
    method SetMaxAllowedFPS(cap: Option<real>)
      modifies this
      ensures Snapshot() == LoopSpec.SetMaxAllowedFps(old(Snapshot()), cap)
      ensures trace == old(trace)
    {
      if cap == Some(0.0) {
        Stop();
      } else {
        match cap
        case None => minFrameDelay := 0.0;
        case Some(f) => minFrameDelay := 1000.0 / f;
      }
    }

    method ResetFrameDelta() returns (previousFrameDelta: real)
      modifies this
      ensures previousFrameDelta == old(frameDelta)
      ensures Snapshot() == LoopSpec.ResetFrameDelta(old(Snapshot()))
      ensures trace == old(trace)
    {
      previousFrameDelta := frameDelta;
      frameDelta := 0.0;
    }

    method SetBegin(callback: Hook)
      modifies this
      ensures Snapshot() == old(Snapshot()).(hooks := old(Snapshot()).hooks.(begin := callback))
      ensures trace == old(trace)
    {
      begin := callback;
    }

    method SetUpdate(callback: Hook)
      modifies this
      ensures Snapshot() == old(Snapshot()).(hooks := old(Snapshot()).hooks.(update := callback))
      ensures trace == old(trace)
    {
      update := callback;
    }

    method SetDraw(callback: Hook)
      modifies this
      ensures Snapshot() == old(Snapshot()).(hooks := old(Snapshot()).hooks.(draw := callback))
      ensures trace == old(trace)
    {
      draw := callback;
    }

    method SetEnd(callback: Hook)
      modifies this
      ensures Snapshot() == old(Snapshot()).(hooks := old(Snapshot()).hooks.(end := callback))
      ensures trace == old(trace)
    {
      end := callback;
    }

    /** Schedules the priming frame unless the loop is already started. */
    method Start()
      modifies this
      ensures Snapshot() == LoopSpec.Start(old(Snapshot()))
      ensures trace == old(trace)
    {
      if !started {
        started := true;
        pending := PrimingFrame;
      }
    }

    /** The callback that Start schedules, fired by the host with its timestamp. */
    method PrimeFrame(timestamp: real)
      modifies this
      ensures Snapshot() == LoopSpec.PrimeFrame(old(Snapshot()), timestamp).post
      ensures trace == old(trace) + LoopSpec.PrimeFrame(old(Snapshot()), timestamp).events
    {
      Prime(timestamp);
    }

    /** Draws once with a whole step's interpolation, marks the loop running,
        makes `timestamp` the last frame, opens an empty frame-rate window
        there and schedules the first tick. */
    method Prime(timestamp: real)
      modifies this`trace, this`running, this`lastFrameTime, this`lastFpsUpdate,
               this`framesSinceLastFpsUpdate, this`pending
      ensures trace == old(trace) + [Draw(draw, Finite(1.0))]
      ensures running && pending == AnimationFrame
      ensures lastFrameTime == timestamp && lastFpsUpdate == timestamp && framesSinceLastFpsUpdate == 0
    {
      trace := trace + [Draw(draw, Finite(1.0))];
      running := true;
      lastFrameTime := timestamp;
      lastFpsUpdate := timestamp;
      framesSinceLastFpsUpdate := 0;
      pending := AnimationFrame;
    }

    /** Clears both flags and cancels whatever callback is scheduled. */
    method Stop()
      modifies this
      ensures Snapshot() == LoopSpec.Stop(old(Snapshot()))
      ensures trace == old(trace)
    {
      running := false;
      started := false;
      pending := Idle;
    }

    method IsRunning() returns (r: bool)
      ensures r == Snapshot().running
    {
      r := running;
    }

    /** One tick, fired by the host with its timestamp. */
    method Animate(timestamp: real)
      modifies this
      ensures Snapshot() == LoopSpec.Animate(old(Snapshot()), timestamp).post
      ensures trace == old(trace) + LoopSpec.Animate(old(Snapshot()), timestamp).events
    {
      ghost var s0 := Snapshot();
      Rearm();

      if timestamp < lastFrameTime + minFrameDelay {
        return;
      }

      Tick(timestamp, s0);
    }

    /** A tick the rate cap lets through; `s0` is the state the tick started
        from, before it re-armed the callback. */
    method Tick(timestamp: real, ghost s0: LoopState)
      requires Snapshot() == s0.(pending := AnimationFrame) && Accepts(s0, timestamp)
      modifies this`frameDelta, this`lastFrameTime, this`fps, this`lastFpsUpdate,
               this`framesSinceLastFpsUpdate, this`numberOfUpdateSteps, this`panic, this`trace
      ensures Snapshot() == LoopSpec.Animate(s0, timestamp).post
      ensures trace == old(trace) + LoopSpec.Animate(s0, timestamp).events
    {
      AcceptFrame(timestamp, s0);
      AcceptedSnapshot(s0, timestamp, Snapshot());
    }

    /** Schedules the next tick. */
    method Rearm()
      modifies this`pending
      ensures pending == AnimationFrame
    {
      pending := AnimationFrame;
    }

    /** The work of an accepted frame, field by field: the fields it writes
        end as LoopSpec.AcceptFrame says, and its hook calls are appended. */
    method AcceptFrame(timestamp: real, ghost s0: LoopState)
      requires Snapshot() == s0.(pending := AnimationFrame) && Accepts(s0, timestamp)
      modifies this`frameDelta, this`lastFrameTime, this`fps, this`lastFpsUpdate,
               this`framesSinceLastFpsUpdate, this`numberOfUpdateSteps, this`panic, this`trace
      ensures FrameFields(Snapshot()) == FrameFields(LoopSpec.AcceptFrame(s0, timestamp).post)
      ensures trace == old(trace) + LoopSpec.AcceptFrame(s0, timestamp).events
    {
      ghost var owed := s0.frameDelta + (timestamp - s0.lastFrameTime);
      BeginFrame(timestamp);
      ghost var begun := trace;
      ghost var w := FpsWindow(fps, lastFpsUpdate, framesSinceLastFpsUpdate);

      ghost var d := FinishFrame(owed, s0.simulationTimestep, s0.hooks);
      AcceptedFrameTrace(s0, timestamp, w, d, old(trace), begun, trace);
    }

    /** The start of an accepted frame: the elapsed time is owed, begin is
        called, and the frame is counted in the frame-rate window. */
    method BeginFrame(timestamp: real)
      modifies this`frameDelta, this`lastFrameTime, this`trace,
               this`fps, this`lastFpsUpdate, this`framesSinceLastFpsUpdate
      ensures frameDelta == old(frameDelta) + (timestamp - old(lastFrameTime))
      ensures lastFrameTime == timestamp
      ensures trace == old(trace) + [Begin(begin, timestamp, frameDelta)]
      ensures FpsWindow(fps, lastFpsUpdate, framesSinceLastFpsUpdate)
        == AdvanceFpsWindow(FpsWindow(old(fps), old(lastFpsUpdate), old(framesSinceLastFpsUpdate)), timestamp)
    {
      AccumulateFrameDelta(timestamp);
      CountFrame(timestamp);
    }

    /** The rest of an accepted frame once `owed` is owed: drain it in fixed
        steps, draw, end, and clear the panic flag. */
    method FinishFrame(ghost owed: real, ghost step: real, ghost hooks: Hooks) returns (ghost d: Drained)
      requires owed == frameDelta && step == simulationTimestep
      requires hooks == Hooks(begin, update, draw, end)
      modifies this`frameDelta, this`numberOfUpdateSteps, this`panic, this`trace
      ensures d == Drain(owed, step, 0)
      ensures frameDelta == d.remaining && numberOfUpdateSteps == d.steps && !panic
      ensures trace == old(trace) + Updates(hooks.update, step, d.steps)
                         + [Draw(hooks.draw, Divide(d.remaining, step)), End(hooks.end, fps, old(panic) || d.panic)]
    {
      DrainFrameDelta(owed, step, hooks.update);
      d := Drained(frameDelta, numberOfUpdateSteps, numberOfUpdateSteps == MaxUpdateSteps);
      Present();
    }

    /** Adds the time elapsed since the last accepted frame to what is owed to
        the simulation, and reports the frame to the begin hook. */
    method AccumulateFrameDelta(timestamp: real)
      modifies this`frameDelta, this`lastFrameTime, this`trace
      ensures frameDelta == old(frameDelta) + (timestamp - old(lastFrameTime))
      ensures lastFrameTime == timestamp
      ensures trace == old(trace) + [Begin(begin, timestamp, frameDelta)]
    {
      frameDelta := frameDelta + (timestamp - lastFrameTime);
      lastFrameTime := timestamp;
      trace := trace + [Begin(begin, timestamp, frameDelta)];
    }

    /** Renders with the fraction of a step left over, reports the end of the
        frame with the panic flag, and clears the flag. */
    method Present()
      modifies this`trace, this`panic
      ensures trace == old(trace) + [Draw(draw, Divide(frameDelta, simulationTimestep)), End(end, fps, old(panic))]
      ensures !panic
    {
      trace := trace + [Draw(draw, Divide(frameDelta, simulationTimestep))];
      trace := trace + [End(end, fps, panic)];
      panic := false;
    }

    /** The frame-rate window of a tick: closes the window and recomputes the
        estimate when it has lasted long enough, then counts the frame. */
    method CountFrame(timestamp: real)
      modifies this`fps, this`lastFpsUpdate, this`framesSinceLastFpsUpdate
      ensures FpsWindow(fps, lastFpsUpdate, framesSinceLastFpsUpdate)
        == AdvanceFpsWindow(FpsWindow(old(fps), old(lastFpsUpdate), old(framesSinceLastFpsUpdate)), timestamp)
    {
      if timestamp > lastFpsUpdate + FpsUpdateInterval {
        fps := EstimateFps(framesSinceLastFpsUpdate, timestamp - lastFpsUpdate, fps);
        lastFpsUpdate := timestamp;
        framesSinceLastFpsUpdate := 0;
      }

      framesSinceLastFpsUpdate := framesSinceLastFpsUpdate + 1;
    }

    /** The drain loop of a tick: runs fixed steps, one update call each,
        while a whole step is owed, and gives up with panic after
        MaxUpdateSteps of them. */
    method DrainFrameDelta(ghost owed: real, ghost step: real, ghost hook: Hook)
      requires owed == frameDelta && step == simulationTimestep && hook == update
      modifies this`frameDelta, this`numberOfUpdateSteps, this`panic, this`trace
      ensures Drain(owed, step, 0) == Drained(frameDelta, numberOfUpdateSteps, numberOfUpdateSteps == MaxUpdateSteps)
      ensures panic == (old(panic) || numberOfUpdateSteps == MaxUpdateSteps)
      ensures trace == old(trace) + Updates(hook, step, numberOfUpdateSteps)
    {
      numberOfUpdateSteps := 0;

      while frameDelta >= simulationTimestep
        invariant numberOfUpdateSteps < MaxUpdateSteps
        invariant Drain(frameDelta, step, numberOfUpdateSteps) == Drain(owed, step, 0)
        invariant trace == old(trace) + Updates(hook, step, numberOfUpdateSteps)
        invariant panic == old(panic)
        decreases MaxUpdateSteps - numberOfUpdateSteps
      {
        ghost var taken := numberOfUpdateSteps;
        ghost var delta := frameDelta;
        RunUpdate();
        UpdatesGrow(old(trace), hook, step, taken);

        if numberOfUpdateSteps >= MaxUpdateSteps {
          DrainGivesUp(delta, step, taken);
          panic := true;
          break;
        }
        DrainStep(delta, step, taken);
      }
      if numberOfUpdateSteps < MaxUpdateSteps {
        DrainStops(frameDelta, step, numberOfUpdateSteps);
      }
    }

    /** One fixed step: the update hook is called with the timestep, which
        is then no longer owed. */
    method RunUpdate()
      modifies this`frameDelta, this`numberOfUpdateSteps, this`trace
      ensures frameDelta == old(frameDelta) - simulationTimestep
      ensures numberOfUpdateSteps == old(numberOfUpdateSteps) + 1
      ensures trace == old(trace) + [Update(update, simulationTimestep)]
    {
      trace := trace + [Update(update, simulationTimestep)];
      frameDelta := frameDelta - simulationTimestep;
      numberOfUpdateSteps := numberOfUpdateSteps + 1;
    }
  }

  /** The state and the trace an accepted tick leaves, from the pieces the
      method computes one after another. */
  lemma AcceptedFrameTrace(s: LoopState, timestamp: real, w: FpsWindow, d: Drained,
                           before: seq<Event>, begun: seq<Event>, after: seq<Event>)
    requires w == AdvanceFpsWindow(FpsWindow(s.fps, s.lastFpsUpdate, s.framesSinceLastFpsUpdate), timestamp)
    requires d == Drain(s.frameDelta + (timestamp - s.lastFrameTime), s.simulationTimestep, 0)
    requires begun == before + [Begin(s.hooks.begin, timestamp, s.frameDelta + (timestamp - s.lastFrameTime))]
    requires after == begun + Updates(s.hooks.update, s.simulationTimestep, d.steps)
                      + [Draw(s.hooks.draw, Divide(d.remaining, s.simulationTimestep)),
                         End(s.hooks.end, w.fps, s.panic || d.panic)]
    ensures after == before + LoopSpec.AcceptFrame(s, timestamp).events
    ensures LoopSpec.AcceptFrame(s, timestamp).post
      == s.(frameDelta := d.remaining, lastFrameTime := timestamp,
            fps := w.fps, lastFpsUpdate := w.lastFpsUpdate,
            framesSinceLastFpsUpdate := w.frames, numberOfUpdateSteps := d.steps,
            panic := false, pending := AnimationFrame)
  {
  }

  /** The fields an accepted frame writes, besides the scheduled callback. */
  function FrameFields(s: LoopState): (real, real, real, real, nat, nat, bool)
  {
    (s.frameDelta, s.lastFrameTime, s.fps, s.lastFpsUpdate,
     s.framesSinceLastFpsUpdate, s.numberOfUpdateSteps, s.panic)
  }

  /** The state an accepted tick leaves, from its fields one by one. */
  lemma AcceptedSnapshot(s: LoopState, timestamp: real, post: LoopState)
    requires Accepts(s, timestamp)
    requires FrameFields(post) == FrameFields(LoopSpec.AcceptFrame(s, timestamp).post)
    requires post == s.(frameDelta := post.frameDelta, lastFrameTime := post.lastFrameTime,
                        fps := post.fps, lastFpsUpdate := post.lastFpsUpdate,
                        framesSinceLastFpsUpdate := post.framesSinceLastFpsUpdate,
                        numberOfUpdateSteps := post.numberOfUpdateSteps,
                        panic := post.panic, pending := AnimationFrame)
    ensures post == LoopSpec.Animate(s, timestamp).post
  {
  }

  /** A step runs while a whole step is owed and the limit is not reached. */
  lemma DrainStep(delta: real, step: real, taken: nat)
    requires delta >= step && taken + 1 < MaxUpdateSteps
    ensures Drain(delta, step, taken) == Drain(delta - step, step, taken + 1)
  {
  }

  /** The step that reaches MaxUpdateSteps ends the drain with panic. */
  lemma DrainGivesUp(delta: real, step: real, taken: nat)
    requires delta >= step && taken + 1 == MaxUpdateSteps
    ensures Drain(delta, step, taken) == Drained(delta - step, MaxUpdateSteps, true)
  {
  }

  /** The drain ends without panic once less than a step is owed. */
  lemma DrainStops(delta: real, step: real, taken: nat)
    requires delta < step && taken < MaxUpdateSteps
    ensures Drain(delta, step, taken) == Drained(delta, taken, false)
  {
  }

  /** One more update call extends the calls made so far. */
  lemma UpdatesGrow(before: seq<Event>, h: Hook, timestep: real, n: nat)
    ensures before + Updates(h, timestep, n) + [Update(h, timestep)] == before + Updates(h, timestep, n + 1)
  {
  }

}
