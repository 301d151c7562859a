/**
 * The fixed-step main loop `runFixedStepLoop` (src/core/loop.js, copied verbatim in
 * src/core/utils.js) and its older variant in lib/utils.js.
 *
 * The browser is made explicit: `requestAnimationFrame` hands out a fresh request id that
 * joins `pending`, `cancelAnimationFrame` removes one, and the browser may call `Frame` for
 * any pending id. The `update` and `render` callbacks are recorded in the trace `calls`.
 * Times are milliseconds, as `performance.now()` and the frame timestamp give them.
 */
module FixedStepLoop {

  import opened Geometry

  /** One call the loop makes to its callbacks. */
  datatype Call = Update(dtSec: real) | Render

  /** `k` calls of `update(dt)`. */
  function Updates(k: nat, dt: real): (r: seq<Call>)
    ensures |r| == k && forall i :: 0 <= i < k ==> r[i] == Update(dt)
  {
    seq(k, _ => Update(dt))
  }

  /** `k` is the floor of `y` when `y` lies in `[k, k + 1)`. */
  lemma FloorIs(y: real, k: int)
    requires k as real <= y < k as real + 1.0
    ensures y.Floor == k
  {
  }

  /** `y` is the quotient `x / step` when `y * step == x`. */
  lemma QuotientIs(x: real, step: real, y: real)
    requires step != 0.0 && y * step == x
    ensures x / step == y
  {
    assert (y * step) / step == y;
  }

  /** A value `k * step + rest` with `0 <= rest < step` has `k` as the floor of its quotient. */
  lemma QuotientFloor(x: real, step: real, k: int, rest: real)
    requires 0.0 < step && 0.0 <= rest < step && x == k as real * step + rest
    ensures (x / step).Floor == k
  {
    var d := rest / step;
    QuotientIs(rest, step, rest / step);
    if d < 0.0 {
      MulStrict(d, 0.0, step);
    }
    if d >= 1.0 {
      MulMonotone(1.0, d, step);
    }
    assert (k as real + d) * step == x;
    QuotientIs(x, step, k as real + d);
    FloorIs(x / step, k);
  }

  /** Subtracting one step lowers the quotient's floor by one. */
  lemma FloorDown(x: real, step: real)
    requires 0.0 < step <= x
    ensures 1 <= (x / step).Floor
    ensures ((x - step) / step).Floor == (x / step).Floor - 1
  {
    var a := x / step;
    QuotientIs(x, step, a);
    assert (a - 1.0) * step == x - step;
    QuotientIs(x - step, step, a - 1.0);
    if a < 1.0 {
      MulStrict(a, 1.0, step);
    }
    FloorIs(a - 1.0, a.Floor - 1);
  }

  /**
   * What the `while (acc >= stepMs) acc -= stepMs` drain does to an accumulator `x`: the
   * number of steps it runs and the accumulator it leaves.
   */
  function Drained(x: real, step: real): (nat, real)
    requires 0.0 < step
    decreases (x / step).Floor
  {
    if x < step then (0, x)
    else
      FloorDown(x, step);
      var (k, rest) := Drained(x - step, step);
      (k + 1, rest)
  }

  /**
   * The drain removes whole steps only: `x == k * step + rest`; nothing runs below one
   * step; and from a non-negative accumulator it runs exactly `floor(x / step)` steps and
   * leaves `0 <= rest < step`.
   */
  lemma {:induction false} DrainedSpec(x: real, step: real)
    requires 0.0 < step
    ensures var (k, rest) := Drained(x, step);
      x == k as real * step + rest &&
      (x < step ==> k == 0 && rest == x) &&
      (0.0 <= x ==> 0.0 <= rest < step && k == (x / step).Floor)
    decreases (x / step).Floor
  {
    if x >= step {
      FloorDown(x, step);
      DrainedSpec(x - step, step);
      var (k, rest) := Drained(x - step, step);
      StepMore(k, step);
      QuotientFloor(x, step, k + 1, rest);
    } else if 0.0 <= x {
      QuotientFloor(x, step, 0, x);
    }
  }

  /**
   * The drain loop of `frame` (src/core/loop.js:34-39): subtract `step` while the
   * accumulator is at least `step`, counting the steps.
   */
  method Drain(x: real, step: real) returns (k: nat, rest: real)
    requires 0.0 < step
    ensures (k, rest) == Drained(x, step)
  {
    k, rest := 0, x;
    while rest >= step
      invariant Drained(rest, step).0 + k == Drained(x, step).0
      invariant Drained(rest, step).1 == Drained(x, step).1
      decreases (rest / step).Floor
    {
      FloorDown(rest, step);
      rest, k := rest - step, k + 1;
    }
  }

  /**
   * What one `frame(now)` does to the callbacks and the accumulator, given the accumulator
   * and the elapsed time: in fixed mode the drained steps as updates of `stepMs / 1000`
   * seconds, in variable mode one update of `delta / 1000`; then one render.
   */
  function FrameEffect(stepMs: real, acc: real, delta: real): (seq<Call>, real)
  {
    if stepMs > 0.0 then
      var (k, rest) := Drained(acc + delta, stepMs);
      (Updates(k, stepMs / 1000.0) + [Render], rest)
    else
      ([Update(delta / 1000.0), Render], acc)
  }

  /**
   * A frame's effect: exactly one render, and it comes last; in fixed mode the updates are
   * `floor((acc + delta) / stepMs)` steps of `stepMs / 1000` seconds each, together covering
   * the time the accumulator gives up, and the accumulator ends in `[0, stepMs)` when it
   * starts non-negative; in variable mode a single update covers the whole elapsed time.
   */
  lemma FrameEffectSpec(stepMs: real, acc: real, delta: real)
    ensures var (calls, acc') := FrameEffect(stepMs, acc, delta);
      |calls| >= 1 && calls[|calls| - 1] == Render &&
      (forall i :: 0 <= i < |calls| - 1 ==> calls[i].Update?) &&
      (stepMs > 0.0 ==>
        (forall i :: 0 <= i < |calls| - 1 ==> calls[i].dtSec == stepMs / 1000.0) &&
        acc + delta == (|calls| - 1) as real * stepMs + acc' &&
        (0.0 <= acc + delta ==> 0.0 <= acc' < stepMs && |calls| - 1 == ((acc + delta) / stepMs).Floor) &&
        (acc + delta < stepMs ==> calls == [Render] && acc' == acc + delta)) &&
      (stepMs <= 0.0 ==> calls == [Update(delta / 1000.0), Render] && acc' == acc)
  {
    if stepMs > 0.0 {
      DrainedSpec(acc + delta, stepMs);
    }
  }

  /**
   * The loop of src/core/loop.js and src/core/utils.js: the closure variables `raf`, `acc`,
   * `last` and `listening`, plus the browser state the loop drives (`pending` frame
   * requests, `listeners` registered for `visibilitychange`) and the callback trace.
   */
  class Loop {
    const stepMs: real
    var raf: nat
    var acc: real
    var last: real
    var listening: bool
    var listeners: nat
    var pending: set<nat>
    var nextId: nat
    var calls: seq<Call>

    /** The listener is registered exactly when `listening` says so, and only once. */
    ghost predicate Valid()
      reads this
    {
      listeners == (if listening then 1 else 0) &&
      (forall id :: id in pending ==> id < nextId)
    }

    /** `runFixedStepLoop(stepMs, update, render)`: build the closure and call `start()`. */
    constructor(stepMs: real, now: real)
      ensures Valid()
      ensures this.stepMs == stepMs && listening && listeners == 1
      ensures acc == 0.0 && last == now && pending == {raf} && calls == []
    {
      this.stepMs := stepMs;
      raf, acc, last := 0, 0.0, 0.0;
      listening, listeners := false, 0;
      pending, nextId, calls := {}, 0, [];
      new;
      Start(now);
    }

    /** `requestAnimationFrame(frame)`: a fresh id joins the pending requests. */
    method Request()
      modifies this
      requires Valid()
      ensures Valid()
      ensures raf == old(nextId) && pending == old(pending) + {raf} && nextId == raf + 1
      ensures acc == old(acc) && last == old(last) && calls == old(calls)
      ensures listening == old(listening) && listeners == old(listeners)
    {
      raf := nextId;
      pending := pending + {raf};
      nextId := nextId + 1;
    }

    /**
     * `frame(now)`, called by the browser for the pending request `id`: request the next
     * frame, advance `last`, run the updates the elapsed time calls for, then render.
     */
    method Frame(id: nat, now: real)
      modifies this
      requires Valid() && id in pending
      ensures Valid()
      ensures pending == old(pending) - {id} + {raf} && raf == old(nextId)
      ensures last == now
      ensures (calls, acc) ==
        var (c, a) := FrameEffect(stepMs, old(acc), now - old(last)); (old(calls) + c, a)
      ensures listening == old(listening) && listeners == old(listeners)
    {
      pending := pending - {id};
      Request();
      var delta := now - last;
      last := now;
      var effect: seq<Call>;
      if stepMs > 0.0 {
        var k, rest := Drain(acc + delta, stepMs);
        effect := Updates(k, stepMs / 1000.0) + [Render];
        acc := rest;
      } else {
        effect := [Update(delta / 1000.0), Render];
      }
      calls := calls + effect;
    }

    /** `loopStart()`: restart timing from `now` with an empty accumulator and request a frame. */
    method LoopStart(now: real)
      modifies this
      requires Valid()
      ensures Valid()
      ensures last == now && acc == 0.0
      ensures raf == old(nextId) && pending == old(pending) + {raf} && nextId == raf + 1
      ensures listening == old(listening) && listeners == old(listeners) && calls == old(calls)
    {
      last := now;
      acc := 0.0;
      Request();
    }

    /** `loopStop()`: cancel the most recent frame request. */
    method LoopStop()
      modifies this`pending
      requires Valid()
      ensures Valid()
      ensures pending == old(pending) - {raf}
    {
      pending := pending - {raf};
    }

    /** `start()`: register the visibility listener unless already registered, then `loopStart`. */
    method Start(now: real)
      modifies this
      requires Valid()
      ensures Valid()
      ensures listening && listeners == 1
      ensures last == now && acc == 0.0
      ensures raf == old(nextId) && pending == old(pending) + {raf}
      ensures calls == old(calls)
    {
      if !listening {
        listeners := listeners + 1;
        listening := true;
      }
      LoopStart(now);
    }

    /** `stop()`: unregister the listener if registered, and cancel the latest frame request. */
    method Stop()
      modifies this`listening, this`listeners, this`pending
      requires Valid()
      ensures Valid()
      ensures !listening && listeners == 0
      ensures pending == old(pending) - {raf}
    {
      if listening {
        listeners := listeners - 1;
        listening := false;
      }
      LoopStop();
    }

    /** `dispose()` is `stop()`. */
    method Dispose()
      modifies this`listening, this`listeners, this`pending
      requires Valid()
      ensures Valid()
      ensures !listening && listeners == 0
      ensures pending == old(pending) - {raf}
    {
      Stop();
    }

    /**
     * The `visibilitychange` handler, which runs only while `start` has it registered: stop
     * the frames when hidden, restart them otherwise.
     */
    method OnVisibilityChange(hidden: bool, now: real)
      modifies this
      requires Valid() && listening
      ensures Valid()
      ensures hidden ==>
        pending == old(pending) - {old(raf)} && raf == old(raf) && acc == old(acc) &&
        last == old(last) && nextId == old(nextId)
      ensures !hidden ==>
        pending == old(pending) + {raf} && raf == old(nextId) && nextId == raf + 1 &&
        acc == 0.0 && last == now
      ensures listening == old(listening) && listeners == old(listeners) && calls == old(calls)
    {
      if hidden {
        LoopStop();
      } else {
        LoopStart(now);
      }
    }
  }

  /**
   * The older loop of lib/utils.js: the same frame, but `start` is unguarded and the
   * `visibilitychange` listener registered by each call is never removed, so `stop()` only
   * cancels the latest frame and a later "visible" event restarts the loop.
   */
  class LegacyLoop {
    const stepMs: real
    var raf: nat
    var acc: real
    var last: real
    var listeners: nat
    var pending: set<nat>
    var nextId: nat
    var calls: seq<Call>

    ghost predicate Valid()
      reads this
    {
      listeners == 1 && (forall id :: id in pending ==> id < nextId)
    }

    /** `runFixedStepLoop(...)`: register the listener for good, then `start()`. */
    constructor(stepMs: real, now: real)
      ensures Valid()
      ensures this.stepMs == stepMs && listeners == 1
      ensures acc == 0.0 && last == now && pending == {raf} && calls == []
    {
      this.stepMs := stepMs;
      listeners := 1;
      raf, acc, last := 0, 0.0, 0.0;
      pending, nextId, calls := {}, 0, [];
      new;
      Start(now);
    }

    /** `frame(now)`: the same drain, update and render as `Loop.Frame`. */
    method Frame(id: nat, now: real)
      modifies this
      requires Valid() && id in pending
      ensures Valid()
      ensures pending == old(pending) - {id} + {raf} && raf == old(nextId)
      ensures last == now
      ensures (calls, acc) ==
        var (c, a) := FrameEffect(stepMs, old(acc), now - old(last)); (old(calls) + c, a)
    {
      pending := pending - {id};
      raf := nextId;
      pending := pending + {raf};
      nextId := nextId + 1;
      var delta := now - last;
      last := now;
      var effect: seq<Call>;
      if stepMs > 0.0 {
        var k, rest := Drain(acc + delta, stepMs);
        effect := Updates(k, stepMs / 1000.0) + [Render];
        acc := rest;
      } else {
        effect := [Update(delta / 1000.0), Render];
      }
      calls := calls + effect;
    }

    /** `start()`: always resets the timing and requests one more frame. */
    method Start(now: real)
      modifies this`raf, this`acc, this`last, this`pending, this`nextId
      requires Valid()
      ensures Valid()
      ensures last == now && acc == 0.0
      ensures raf == old(nextId) && pending == old(pending) + {raf} && nextId == raf + 1
    {
      last := now;
      acc := 0.0;
      raf := nextId;
      pending := pending + {raf};
      nextId := nextId + 1;
    }

    /** `stop()`: cancel the latest frame request; the listener stays. */
    method Stop()
      modifies this`pending
      requires Valid()
      ensures Valid()
      ensures pending == old(pending) - {raf}
    {
      pending := pending - {raf};
    }

    /** The listener: `stop()` when hidden, `start()` otherwise, even after an explicit `stop()`. */
    method OnVisibilityChange(hidden: bool, now: real)
      modifies this`raf, this`acc, this`last, this`pending, this`nextId
      requires Valid()
      ensures Valid()
      ensures hidden ==>
        pending == old(pending) - {old(raf)} && raf == old(raf) && acc == old(acc) &&
        last == old(last) && nextId == old(nextId)
      ensures !hidden ==>
        pending == old(pending) + {raf} && raf == old(nextId) && nextId == raf + 1 &&
        acc == 0.0 && last == now
    {
      if hidden {
        Stop();
      } else {
        Start(now);
      }
    }
  }
}
