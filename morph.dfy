/**
 * The morphing point cloud of lib/morph.js: the points move from one of three target
 * shapes to the next over three seconds, then the next phase starts. `update` advances the
 * phase and writes the interpolated points into the `positions` buffer.
 *
 * The shapes are generated from `Math.random` and trigonometry; here they are given. The
 * buffer holds one `Vec3` per point rather than three floats.
 */
module Morph {
  import opened Geometry

  /** The number of shapes, `forms.length`. */
  const Forms: int := 3

  /** `DURATION`, in milliseconds. */
  const Duration: real := 3000.0

  /** `THREE.MathUtils.lerp(x, y, t)`: `(1 - t) * x + t * y`. */
  function Lerp(x: real, y: real, t: real): (r: real)
    ensures t == 0.0 ==> r == x
    ensures t == 1.0 ==> r == y
    ensures x == y ==> r == x
  {
    (1.0 - t) * x + t * y
  }

  /** The three coordinates interpolated one by one. */
  function LerpPoint(a: Vec3, b: Vec3, t: real): (r: Vec3)
    ensures t == 0.0 ==> r == a
    ensures t == 1.0 ==> r == b
  {
    Vec3(Lerp(a.x, b.x, t), Lerp(a.y, b.y, t), Lerp(a.z, b.z, t))
  }

  /** Between 0 and 1 each coordinate stays between those of the two ends. */
  lemma LerpBetween(x: real, y: real, t: real)
    requires 0.0 <= t <= 1.0
    ensures Min(x, y) <= Lerp(x, y, t) <= Max(x, y)
  {
    if x <= y {
      var d := y - x;
      assert Lerp(x, y, t) == x + t * d;
      MulMonotone(0.0, t, d);
      MulMonotone(t, 1.0, d);
      assert 0.0 <= t * d <= d;
    } else {
      var d := x - y;
      var u := 1.0 - t;
      assert 0.0 <= u <= 1.0;
      assert Lerp(x, y, t) == y + u * d;
      MulMonotone(0.0, u, d);
      MulMonotone(u, 1.0, d);
      assert 0.0 <= u * d <= d;
    }
  }

  /** The phase after `current`: the shape that follows it, wrapping after the last. */
  function Following(f: int): (r: int)
    requires 0 <= f < Forms
    ensures 0 <= r < Forms && r != f
  {
    (f + 1) % Forms
  }

  /** Three phase changes bring both shape indices back to where they were. */
  lemma FollowingCycle(f: int)
    requires 0 <= f < Forms
    ensures Following(Following(Following(f))) == f
    ensures Following(f) != Following(Following(f))
  {
  }

  /** `update`'s `k = Math.min(t, 1)`. */
  function Weight(t: real): (k: real)
    ensures k <= 1.0 && (t >= 1.0 <==> k == 1.0)
  {
    Min(t, 1.0)
  }

  class Morpher {
    /** The target shapes, each with one point per buffer slot. */
    const forms: seq<seq<Vec3>>
    const count: nat
    /** The `position` attribute's buffer. */
    const positions: array<Vec3>
    /** The shape moved from, the shape moved to, and the start of the phase. */
    var current: int
    var next: int
    var start: real

    /** There are three shapes of `count` points, and `next` is the shape that follows `current`. */
    ghost predicate Valid()
      reads this
    {
      |forms| == Forms && (forall f :: 0 <= f < Forms ==> |forms[f]| == count) &&
      positions.Length == count &&
      0 <= current < Forms && next == Following(current)
    }

    /** The points interpolated at `k` between the current shape and the next. */
    ghost predicate Shows(k: real)
      requires Valid()
      reads this, positions
    {
      forall i :: 0 <= i < count ==> positions[i] == LerpPoint(forms[current][i], forms[next][i], k)
    }

    /** `createMorphPoints`: a zeroed buffer, the tetrahedron first, the cube next. */
    constructor (forms: seq<seq<Vec3>>, count: nat, now: real)
      requires |forms| == Forms && forall f :: 0 <= f < Forms ==> |forms[f]| == count
      ensures Valid() && fresh(positions)
      ensures this.forms == forms && this.count == count
      ensures current == 0 && next == 1 && start == now
      ensures forall i :: 0 <= i < count ==> positions[i] == Vec3(0.0, 0.0, 0.0)
    {
      this.forms, this.count := forms, count;
      positions := new Vec3[count](_ => Vec3(0.0, 0.0, 0.0));
      current, next, start := 0, 1, now;
    }

    /** The interpolation loop: every slot is set to the lerp at `k` of its two target points. */
    method Write(k: real)
      requires Valid()
      modifies positions
      ensures Shows(k)
    {
      for i := 0 to count
        invariant forall j :: 0 <= j < i ==>
          positions[j] == LerpPoint(forms[current][j], forms[next][j], k)
      {
        positions[i] := LerpPoint(forms[current][i], forms[next][i], k);
      }
    }

    /**
     * `update(time)`: once the phase has run its duration, one phase change (however late
     * the frame); then the points are written at `k = min(t, 1)` with `t` from before the
     * change.
     */
    method Update(time: real)
      requires Valid()
      modifies this, positions
      ensures Valid()
      ensures var t := (time - old(start)) / Duration;
        (t >= 1.0 ==> current == old(next) && next == Following(old(next)) && start == time) &&
        (t < 1.0 ==> current == old(current) && next == old(next) && start == old(start)) &&
        Shows(Weight(t))
      ensures (time - old(start)) / Duration >= 1.0 ==>
        forall i :: 0 <= i < count ==> positions[i] == forms[next][i]
    {
      var t := (time - start) / Duration;
      if t >= 1.0 {
        start := time;
        current := next;
        next := (next + 1) % Forms;
      }
      Write(Weight(t));
    }

    /**
     * The update as evidently intended: the new phase starts from where its shape is, so
     * on the frame that changes phase the weight is 0 and the points show the shape the
     * previous phase was moving to.
     */
    method UpdateCorrected(time: real)
      requires Valid()
      modifies this, positions
      ensures Valid()
      ensures var t := (time - old(start)) / Duration;
        (t >= 1.0 ==>
          current == old(next) && next == Following(old(next)) && start == time && Shows(0.0)) &&
        (t < 1.0 ==>
          current == old(current) && next == old(next) && start == old(start) && Shows(Weight(t)))
      ensures (time - old(start)) / Duration >= 1.0 ==>
        forall i :: 0 <= i < count ==> positions[i] == forms[old(next)][i]
    {
      var t := (time - start) / Duration;
      if t >= 1.0 {
        start := time;
        current := next;
        next := (next + 1) % Forms;
        t := (time - start) / Duration;
      }
      Write(Weight(t));
    }
  }

  /**
   * As written, the frame that changes phase shows the shape after the one just reached:
   * going from the cube (1) towards the sphere (2), the late frame sets `current` to 2 and
   * `next` to 0, and writes the tetrahedron with weight 1, for one frame between the sphere
   * the points had reached and the sphere they start from next.
   */
  lemma FlashOnPhaseChange(a: Vec3, b: Vec3, t: real)
    requires t >= 1.0 && a != b
    ensures LerpPoint(a, b, Weight(t)) == b && LerpPoint(a, b, Weight(t)) != a
    ensures LerpPoint(a, b, 0.0) == a
  {
  }
}
