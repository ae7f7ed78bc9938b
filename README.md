# Mainloop: a fixed-timestep game loop, modelled in Dafny

`Mainloop` (src/Mainloop.ts) drives a game from the host's animation-frame
callback. Each tick it re-arms itself. It drops frames that come before the
frame-rate cap allows. Otherwise it adds the elapsed time to an accumulator
(`frameDelta`), calls `begin`, and updates a windowed frame-rate estimate.
Then it drains the accumulator in fixed `simulationTimestep` steps, calling
`update` once per step. After 240 steps it gives up and reports `panic`.
Finally it calls `draw` with the fraction of a step left over and `end` with
the estimate and the panic flag, then clears the flag. `start` schedules a
priming frame that draws once and opens the loop. `stop` cancels whatever is
scheduled. `setMaxAllowedFPS(0)` means stop.

The project has three layers:

- `loop_spec.dfy`, module `LoopSpec`, has the state as a value (`LoopState`)
  and one function per operation. Each function gives the state afterwards
  and the hook calls made, in order (`Outcome`). It also has `Call`, `Apply`
  and `Run`, which state properties of any sequence of calls.
- `mainloop.dfy`, module `Driver`, has the class `Mainloop`. Its fields are
  the source's fields, and it has one method per public operation or host
  callback. Every method that changes state is proved to leave the fields
  (`Snapshot()`) as the matching `LoopSpec` function says. It is also proved
  to append exactly that function's hook calls to a ghost `trace`. The drain
  loop is a `while` loop over the fields, with its invariants.
- `loop_props.dfy`, module `LoopProps`, holds the lemmas about the
  functions:
  - the closed form of the drain loop;
  - the interpolation handed to `draw` lies in [0, 1);
  - `panic` is reported for exactly the tick that hit the cap;
  - the frame-rate window;
  - a worked tick;
  - the invariants (no panic left over, no negative `frameDelta`, at most 240
    update calls per tick) hold for every sequence of calls.

`raf_fallback.dfy`, module `RafFallback`, models the timer-based scheduler
used when the host has no `requestAnimationFrame`. It is a class holding the
variables the closure captures, and it proves that frames it hands out are at
least one step apart.

Modelling choices:

- Time is exact `real` milliseconds.
- A hook is known only by its identity (`Hook`). Its calls are recorded as
  `Event`s with their arguments.
- The host's scheduled callback is the field `pending`, one of `Idle`,
  `PrimingFrame` or `AnimationFrame`, which stands for the request handle.
- The uncapped `getMaxAllowedFPS()` returns `None` where the source returns
  `+Infinity`.
- `setMaxAllowedFPS()` without an argument is `SetMaxAllowedFPS(None)`.
- `draw`'s argument is a `Quotient`, and a zero timestep yields `NonFinite`.
- `fpsAlpha` (0.9) and `fpsUpdateInterval` (1000) are never written by the
  class, so they are module constants.

## Model

| member | source | states |
|---|---|---|
| LoopSpec.Initial | src/Mainloop.ts:4-25 | the field initialisers give a sound, stopped, unstarted loop with nothing scheduled and a positive step |
| LoopSpec.MinFrameDelayFor | src/Mainloop.ts:48-52 | without an argument (+Infinity) the spacing is 0; for a cap f it is the spacing with spacing * f = 1000, positive for a positive cap |
| LoopSpec.Accepts | src/Mainloop.ts:111-113 | an uncapped loop accepts exactly the ticks not earlier than the last frame; with a non-negative cap an accepted tick is never earlier than the last frame |
| LoopSpec.Divide | src/Mainloop.ts:144 | the quotient is finite exactly when the divisor is not zero, and then it times the divisor gives the dividend |
| LoopSpec.MaxAllowedFps | src/Mainloop.ts:44-46 | the cap is absent (+Infinity) exactly when the spacing is 0, and otherwise cap * spacing = 1000 |
| LoopSpec.MaxAllowedFpsRoundTrip | src/Mainloop.ts:44-54 | reading the cap back after setting any cap other than 0 gives that cap, including the uncapped default |
| LoopSpec.SetMaxAllowedFps | src/Mainloop.ts:48-54 | a cap of 0 is exactly stop; any other cap changes only minFrameDelay, reads back as the cap, and is positive for a positive cap |
| LoopSpec.ResetFrameDelta | src/Mainloop.ts:56-62 | frameDelta becomes 0 and nothing else changes |
| LoopSpec.Start | src/Mainloop.ts:80-96 | the loop is started afterwards; starting a started loop changes nothing; otherwise the priming frame is scheduled and nothing else changes |
| LoopSpec.Stop | src/Mainloop.ts:98-102 | running and started are cleared, nothing is scheduled, and nothing else changes |
| LoopSpec.PrimeFrame | src/Mainloop.ts:84-94 | the priming frame calls draw(1) and nothing else, sets running, makes its timestamp the last frame and the start of an empty frame-rate window, schedules a tick, and keeps the accumulator, the step count, the estimate, the settings and the flags |
| LoopSpec.Drain | src/Mainloop.ts:129-142 | the drain loop runs between 0 and 240 steps, and panics exactly when it ran 240 |
| LoopSpec.Updates | src/Mainloop.ts:131-133 | n steps make n calls, each of them update(simulationTimestep) |
| LoopSpec.EstimateFps | src/Mainloop.ts:121-122 | the recomputed estimate is not negative when the previous one was not |
| LoopSpec.AdvanceFpsWindow | src/Mainloop.ts:120-128 | after a window of more than 1000 ms the estimate is recomputed and the window restarts at the tick with one frame; otherwise only the frame count grows by one |
| LoopSpec.Animate | src/Mainloop.ts:108-149 | a tick always re-arms and keeps the settings and lifecycle flags; a tick the cap drops changes nothing else and calls no hook; an accepted tick sets lastFrameTime to its timestamp, runs at most 240 steps, makes steps + 3 hook calls and clears panic |
| LoopSpec.AcceptFrame | src/Mainloop.ts:115-148 | an accepted frame re-arms, clears panic, keeps the settings and lifecycle flags, makes its timestamp the last frame, runs at most 240 steps, makes steps + 3 calls, the first begin(timestamp, owed time) and the last end(fps, panic of the tick, set exactly when 240 steps ran) |
| LoopSpec.FrameCalls | src/Mainloop.ts:118-146 | an accepted tick calls begin(timestamp, frameDelta), then update once per step, then draw with the leftover fraction, then end(fps, panic) |
| LoopProps.DrainRemainder | src/Mainloop.ts:129-142 | from any point of the loop, what is left is what was owed less the steps run; no step runs exactly when less than a step is owed; without panic less than a step is left; after a step nothing negative is left |
| LoopProps.DrainCount | src/Mainloop.ts:129-142 | with a positive step and a non-negative accumulator, the loop runs floor(owed / step) steps capped at 240, and panics exactly when 240 or more whole steps are owed |
| LoopProps.ExactlyMaxStepsPanic | src/Mainloop.ts:131-142 | owing exactly 240 steps runs 240 steps and panics, although nothing is left owed |
| LoopProps.AcceptedTick | src/Mainloop.ts:111-148 | an accepted tick adds the elapsed time to frameDelta and hands it to begin, makes its timestamp the last frame, makes one update call per step, leaves frameDelta reduced by steps * step (under a step without panic, not negative if the sum was not), and clears panic; with a non-negative cap lastFrameTime never decreases |
| LoopProps.TickDrawsFraction | src/Mainloop.ts:129-146 | with a positive step, no panic and nothing owed backwards, draw gets frameDelta / step, which lies in [0, 1) unless the tick panicked, and end gets panic exactly when 240 or more whole steps were owed |
| LoopProps.TickCountsFrame | src/Mainloop.ts:120-128 | when the window has lasted more than 1000 ms the estimate becomes frames * 1000 / elapsed + (1 - 0.9) * fps and the window reopens at the tick with one frame; otherwise the estimate is kept and the count grows by one |
| LoopProps.FpsFixedPoint | src/Mainloop.ts:121-122 | at a steady rate the estimate's only fixed point is rate / 0.9, one window shrinks the distance to it by the factor 1 - 0.9, and from the true rate the estimate rises above it |
| LoopProps.FpsSettles | src/Mainloop.ts:121-122 | after k windows at a steady rate the distance to rate / 0.9 is (1 - 0.9)^k times the starting distance, so the estimate settles at rate / 0.9 |
| LoopProps.FiftyMillisecondsOfSixteenMillisecondSteps | src/Mainloop.ts:115-146 | with steps of 16 ms and 50 ms elapsed, the tick makes three updates, leaves 2 ms, and draws at 0.125 |
| LoopProps.FrameCallsUpdates | src/Mainloop.ts:131-146 | an accepted tick calls update exactly once per step drained |
| LoopProps.TickKeepsSound | src/Mainloop.ts:108-149 | a tick from a sound state leaves a sound state (no panic, frameDelta and the cap not negative) and calls update at most 240 times; an accepted tick calls it exactly as often as numberOfUpdateSteps says |
| LoopProps.ApplyKeepsSound | src/Mainloop.ts:48-149 | any one public call or host callback keeps the state sound, and only a tick calls update |
| LoopProps.RunKeepsSound | src/Mainloop.ts:48-149 | any sequence of calls keeps the state sound, so panic is false between ticks, and the whole run makes at most 240 times as many update calls as it has ticks |
| LoopProps.RunCallBound | src/Mainloop.ts:48-149 | in any sequence of calls, each call is made from a sound state and makes at most 240 update calls, and none unless it is a tick |
| Driver.Mainloop.constructor | src/Mainloop.ts:4-30 | a new loop holds the initial state and has made no hook call |
| Driver.Mainloop.GetSimulationTimestep | src/Mainloop.ts:32-34 | returns the step |
| Driver.Mainloop.SetSimulationTimestep | src/Mainloop.ts:36-38 | changes only the step |
| Driver.Mainloop.GetFPS | src/Mainloop.ts:40-42 | returns the estimate |
| Driver.Mainloop.GetMaxAllowedFPS | src/Mainloop.ts:44-46 | returns LoopSpec.MaxAllowedFps of the spacing: None exactly when uncapped, otherwise the cap whose product with minFrameDelay is 1000 |
| Driver.Mainloop.SetMaxAllowedFPS | src/Mainloop.ts:48-54 | leaves the state LoopSpec.SetMaxAllowedFps gives, and calls no hook |
| Driver.Mainloop.ResetFrameDelta | src/Mainloop.ts:56-62 | returns the old frameDelta and leaves the state LoopSpec.ResetFrameDelta gives |
| Driver.Mainloop.SetBegin | src/Mainloop.ts:64-66 | replaces only the begin hook |
| Driver.Mainloop.SetUpdate | src/Mainloop.ts:68-70 | replaces only the update hook |
| Driver.Mainloop.SetDraw | src/Mainloop.ts:72-74 | replaces only the draw hook |
| Driver.Mainloop.SetEnd | src/Mainloop.ts:76-78 | replaces only the end hook |
| Driver.Mainloop.Start | src/Mainloop.ts:80-96 | leaves the state LoopSpec.Start gives, and calls no hook |
| Driver.Mainloop.PrimeFrame | src/Mainloop.ts:84-94 | leaves the state LoopSpec.PrimeFrame gives and appends its one draw call to the trace |
| Driver.Mainloop.Prime | src/Mainloop.ts:85-93 | the priming frame's writes: draw(1) is called, running is set, lastFrameTime and lastFpsUpdate become the timestamp, the window count is 0 and a tick is scheduled |
| Driver.Mainloop.Stop | src/Mainloop.ts:98-102 | leaves the state LoopSpec.Stop gives, and calls no hook |
| Driver.Mainloop.IsRunning | src/Mainloop.ts:104-106 | returns the running flag |
| Driver.Mainloop.Animate | src/Mainloop.ts:108-149 | leaves the state LoopSpec.Animate gives and appends exactly its hook calls to the trace |
| Driver.Mainloop.Tick | src/Mainloop.ts:115-148 | a tick the cap lets through, started from s0, ends in LoopSpec.Animate's state and calls |
| Driver.Mainloop.AcceptFrame | src/Mainloop.ts:115-148 | the fields an accepted frame writes end as LoopSpec.AcceptFrame gives, and its calls are appended to the trace |
| Driver.Mainloop.BeginFrame | src/Mainloop.ts:115-128 | the elapsed time is added to frameDelta, the timestamp becomes the last frame, begin is called with the new frameDelta, and the frame-rate window advances as LoopSpec.AdvanceFpsWindow says |
| Driver.Mainloop.AccumulateFrameDelta | src/Mainloop.ts:115-118 | frameDelta grows by timestamp - lastFrameTime, lastFrameTime becomes the timestamp, and begin is called with them |
| Driver.Mainloop.CountFrame | src/Mainloop.ts:120-128 | the frame-rate fields advance as LoopSpec.AdvanceFpsWindow says |
| Driver.Mainloop.FinishFrame | src/Mainloop.ts:129-148 | frameDelta and numberOfUpdateSteps end as LoopSpec.Drain says, panic is cleared, and the trace gains the updates, draw with the leftover fraction and end with the panic of the tick |
| Driver.Mainloop.DrainFrameDelta | src/Mainloop.ts:129-142 | the while loop ends in the state LoopSpec.Drain gives, sets panic exactly when 240 steps ran, and calls update once per step |
| Driver.Mainloop.RunUpdate | src/Mainloop.ts:132-135 | one step calls update(simulationTimestep), takes one step off frameDelta and counts it |
| Driver.Mainloop.Present | src/Mainloop.ts:144-148 | draw is called with frameDelta / simulationTimestep, end with fps and the panic flag, and the flag is cleared |
| Driver.Mainloop.Rearm | src/Mainloop.ts:109 | the next tick is scheduled |
| RafFallback.FallbackDelay | src/Mainloop.ts:159 | the timeout is max(0, simulationTimestep - (now - lastTimestamp)): not negative, at least the part of a step still to wait, and one of the two |
| RafFallback.FireTimePacing | src/Mainloop.ts:159-164 | a timer fires at the later of now and one step after the previous due time |
| RafFallback.TimeoutScheduler.constructor | src/Mainloop.ts:152-154 | the captured variables start as the clock reading, null and null |
| RafFallback.TimeoutScheduler.Request | src/Mainloop.ts:156-165 | a request records now and the timeout, moves lastTimestamp to now + timeout, and sets a timer with that delay and due time, at least one step after the previous due time and not in the past |
| RafFallback.SuccessiveRequestsSpaced | src/Mainloop.ts:156-161 | two requests in a row fall due at least one step apart, whatever the clock reads |

## Left out

- Host scheduling is not modelled: `requestAnimationFrame`, `cancelAnimationFrame`, `setTimeout`, `clearTimeout` and `Date.now` (src/Mainloop.ts:28-29, 151-165) are asynchronous host I/O. Scheduling is the field `pending`, and timestamps and clock readings are method arguments. The constructor's choice between the host primitive and the fallback is not modelled either.
- The bodies of the four hooks are caller-owned code. Only the order and the arguments of their calls are recorded, in a ghost trace. Re-entrant calls from a hook back into the loop, such as `resetFrameDelta` called from `update`, are not modelled.
- Floating point is not modelled: reals are exact, so IEEE rounding, NaN and overflow are absent. A division by a zero timestep is the explicit `NonFinite` quotient.
- `getMaxAllowedFPS` returns `None` where the source returns `+Infinity` (src/Mainloop.ts:44-46). `setMaxAllowedFPS()` with its `+Infinity` default is `SetMaxAllowedFPS(None)`, which sets `minFrameDelay` to 0.
- A negative cap passed to `setMaxAllowedFPS` is taken at its real value, and an explicit `Infinity` is `SetMaxAllowedFPS(None)`. `LoopProps.ApplyKeepsSound`, `LoopProps.RunKeepsSound` and `LoopProps.RunCallBound` assume non-negative caps (`SaneCall`).
- The `this` binding of the detached `this.animate` reference (src/Mainloop.ts:93, 109) is not modelled: `Animate` is an ordinary method.
- Exceptions thrown by hooks are not modelled. The source catches none, so a throwing hook ends the tick early. A throwing `draw` or `end` skips the reset at src/Mainloop.ts:148, so `panic` stays set into the next tick: "panic is false between ticks" holds only when no hook throws.
- The request handle `requestAnimationFrameId` is not modelled beyond `pending`.
- RafFallback.TimeoutScheduler.Request: the closure's callback reads the shared `now` and `timeout` when its timer fires (src/Mainloop.ts:162-164). The model hands each timer the due time of its own request, which agrees with the source as long as a timer fires before the next request.
