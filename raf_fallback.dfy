/** The timer-based scheduler the loop falls back on when the host has no
    animation-frame primitive: each request waits long enough to keep frames
    one simulation step apart, and hands the callback the time it was due. */
module RafFallback {
  import opened LoopSpec

  /** The delay of a request made at `now` when the previous frame was due at
      `last`: what is left of one step since then, and no delay once a whole
      step has passed. */
  function FallbackDelay(step: real, now: real, last: real): (timeout: real)
    ensures timeout >= 0.0
    ensures timeout >= step - (now - last)
    ensures timeout == 0.0 || timeout == step - (now - last)
  {
    if step - (now - last) > 0.0 then step - (now - last) else 0.0
  }

  /** A request fires at the later of now and one step after the previous
      frame was due, so frames handed out by the scheduler are at least one
      step apart and never in the past. */
  lemma FireTimePacing(step: real, now: real, last: real)
    ensures var fireAt := now + FallbackDelay(step, now, last);
      && fireAt >= now
      && fireAt >= last + step
      && (fireAt == now || fireAt == last + step)
  {
  }

  /** A timer the scheduler has set: its delay, and the timestamp its callback
      is handed when it fires. */
  datatype Timer = Timer(delay: real, timestamp: real)

  /** The state the fallback closure captures: when the previous frame was
      due, and the clock reading and delay of the latest request (None before
      the first one). */
  class TimeoutScheduler {
    var lastTimestamp: real
    var now: Option<real>
    var timeout: Option<real>

    /** Created with the host clock reading at creation. */
    constructor (clock: real)
      ensures lastTimestamp == clock && now == None && timeout == None
    {
      lastTimestamp := clock;
      now := None;
      timeout := None;
    }

    /** A request, made when the host clock reads `clock` and the loop's step
        is `simulationTimestep`: the frame is due after the delay, and that due
        time becomes the previous frame for the next request. */
    method Request(simulationTimestep: real, clock: real) returns (timer: Timer)
      modifies this
      ensures now == Some(clock)
      ensures timeout == Some(FallbackDelay(simulationTimestep, clock, old(lastTimestamp)))
      ensures lastTimestamp == clock + timeout.value
      ensures timer == Timer(timeout.value, lastTimestamp)
      ensures lastTimestamp >= old(lastTimestamp) + simulationTimestep && lastTimestamp >= clock
    {
      now := Some(clock);
      var delay := FallbackDelay(simulationTimestep, clock, lastTimestamp);
      FireTimePacing(simulationTimestep, clock, lastTimestamp);
      timeout := Some(delay);
      lastTimestamp := clock + delay;
      timer := Timer(delay, clock + delay);
    }
  }

  /** Two requests in a row: the second frame is due at least one step after
      the first, whatever the clock reads. */
  lemma SuccessiveRequestsSpaced(step: real, first: real, second: real, last: real)
    ensures var due1 := first + FallbackDelay(step, first, last);
      var due2 := second + FallbackDelay(step, second, due1);
      due2 >= due1 + step && due2 >= second
  {
  }
}
