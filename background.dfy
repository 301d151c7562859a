/**
 * What the two wire-frame backgrounds share: the ball-count bounds, the shape toggle and
 * the clamped orbit radius of the inner instanced cubes. The scene graph, materials and the
 * trigonometric orbit positions stay outside the model; each instance is represented by the
 * clamped orbit radius last written for it.
 */
module BackgroundShared {
  import opened Geometry

  /** `INST_MAX`: the capacity of the instanced mesh. */
  const InstMax: nat := 120

  /** The instance count both modules start with. */
  const InitialInstCount: nat := 24

  /** `Math.min(INST_MAX, instCount + 1)`. */
  function IncCount(n: nat): nat { if n + 1 <= InstMax then n + 1 else InstMax }

  /** `Math.max(0, instCount - 1)`. */
  function DecCount(n: nat): nat { if n == 0 then 0 else n - 1 }

  /**
   * Both stay within `[0, InstMax]`, each undoes the other away from the bounds, and at the
   * bounds they saturate.
   */
  lemma CountBounds(n: nat)
    requires n <= InstMax
    ensures IncCount(n) <= InstMax && DecCount(n) <= InstMax
    ensures n < InstMax ==> IncCount(n) == n + 1 && DecCount(IncCount(n)) == n
    ensures 0 < n ==> DecCount(n) == n - 1 && IncCount(DecCount(n)) == n
    ensures IncCount(InstMax) == InstMax && DecCount(0) == 0
  {
  }

  /** `switchToSphereMode`: `'ico'` becomes `'ring'` and anything else becomes `'ico'`. */
  function Toggle(shape: string): (r: string)
    ensures r == "ico" || r == "ring"
    ensures r == "ico" <==> shape != "ico"
  {
    if shape == "ico" then "ring" else "ico"
  }

  /** Toggling twice returns to a shape the toggle can produce. */
  lemma ToggleTwice(shape: string)
    requires shape == "ico" || shape == "ring"
    ensures Toggle(Toggle(shape)) == shape
  {
  }

  /** `limitR`: the outer bound of the orbit radius, 0.8 inside the icosahedron, 0.65 otherwise. */
  function LimitRadius(shape: string): (r: real)
    ensures 0.65 <= r <= 0.8
    ensures r == 0.8 <==> shape == "ico"
  {
    if shape == "ico" then 0.8 else 0.65
  }

  /** The orbit parameters drawn once per instance; only those of the radius are modelled. */
  datatype Seed = Seed(r0: real, rr: real)

  /** `r = s.r0 + sin(elapsed * 0.8 + i) * s.rr`, with `sin` a parameter. */
  function RawRadius(s: Seed, elapsed: real, i: nat, sin: real -> real): real
  {
    s.r0 + sin(elapsed * 0.8 + i as real) * s.rr
  }

  /** `cr = Math.min(limitR, Math.max(0.4, r))`. */
  function ClampRadius(limitR: real, r: real): real
  {
    Min(limitR, Max(0.4, r))
  }

  /** The clamped radius lies in `[0.4, limitR]` and is `r` itself when `r` already does. */
  lemma ClampRadiusSpec(limitR: real, r: real)
    requires 0.4 <= limitR
    ensures 0.4 <= ClampRadius(limitR, r) <= limitR
    ensures 0.4 <= r <= limitR ==> ClampRadius(limitR, r) == r
    ensures r < 0.4 ==> ClampRadius(limitR, r) == 0.4
    ensures limitR < r ==> ClampRadius(limitR, r) == limitR
  {
  }

  /** Every recorded orbit radius lies in `[0.4, 0.8]`, the widest of the two limits. */
  ghost predicate OrbitInRange(orbit: map<nat, real>)
  {
    forall i :: i in orbit ==> 0.4 <= orbit[i] <= 0.8
  }

  /**
   * The per-instance loop of the inner update: for each of the first `count` instances,
   * record the clamped orbit radius; the other entries are kept.
   */
  method WriteOrbit(orbit: map<nat, real>, count: nat, limitR: real, elapsed: real,
                    seeds: seq<Seed>, sin: real -> real) returns (r: map<nat, real>)
    requires count <= |seeds|
    ensures forall i: nat :: i in r <==> i in orbit || i < count
    ensures forall i: nat :: i < count ==> r[i] == ClampRadius(limitR, RawRadius(seeds[i], elapsed, i, sin))
    ensures forall i :: i in orbit && count <= i ==> r[i] == orbit[i]
  {
    r := orbit;
    for i := 0 to count
      invariant forall j: nat :: j in r <==> j in orbit || j < i
      invariant forall j: nat :: j < i ==> r[j] == ClampRadius(limitR, RawRadius(seeds[j], elapsed, j, sin))
      invariant forall j :: j in orbit && i <= j ==> r[j] == orbit[j]
    {
      r := r[i := ClampRadius(limitR, RawRadius(seeds[i], elapsed, i, sin))];
    }
  }

  /** Writing orbits with a limit of at most 0.8 keeps every recorded radius in range. */
  lemma WriteOrbitInRange(orbit: map<nat, real>, r: map<nat, real>, count: nat, limitR: real,
                          elapsed: real, seeds: seq<Seed>, sin: real -> real)
    requires OrbitInRange(orbit) && 0.4 <= limitR <= 0.8 && count <= |seeds|
    requires forall i: nat :: i in r <==> i in orbit || i < count
    requires forall i: nat :: i < count ==> r[i] == ClampRadius(limitR, RawRadius(seeds[i], elapsed, i, sin))
    requires forall i :: i in orbit && count <= i ==> r[i] == orbit[i]
    ensures OrbitInRange(r)
  {
    forall i | i in r
      ensures 0.4 <= r[i] <= 0.8
    {
      if i < count {
        ClampRadiusSpec(limitR, RawRadius(seeds[i], elapsed, i, sin));
      }
    }
  }

  /** `x` advanced by `d` `k` times over, as the subsystem loops add one increment per step. */
  function AddTimes(x: real, d: real, k: nat): real
  {
    if k == 0 then x else AddTimes(x, d, k - 1) + d
  }

  /** `k` increments of `d` add `k * d`. */
  lemma {:induction false} AddTimesSpec(x: real, d: real, k: nat)
    ensures AddTimes(x, d, k) == x + k as real * d
  {
    if k > 0 {
      AddTimesSpec(x, d, k - 1);
      StepMore(k - 1, d);
    }
  }
}

/**
 * The background controller of src/features/background/controller.js: the module-level
 * state (`instCount`, `currentShape`, the three rates and accumulators, `elapsed`) as the
 * fields of one object, and its exported API (`start`, `increaseBalls`, `decreaseBalls`,
 * `switchToSphereMode`, `setBackgroundFPS`) plus the `init` and `update` callbacks it hands to
 * the application, as methods.
 */
module BackgroundController {
  import opened Geometry
  import opened Wrappers
  import opened FixedStepLoop
  import opened BackgroundShared

  /** The rates `setBackgroundFPS` receives; `None` stands for a value that is not a number. */
  datatype FpsRates = FpsRates(poly: Option<real>, inner: Option<real>, grid: Option<real>)

  /** A subsystem's step: `1 / fps` for a positive rate, otherwise the frame's `dt`. */
  function StepOf(fps: real, dt: real): (r: real)
    requires 0.0 < dt
    ensures 0.0 < r
    ensures fps > 0.0 ==> r * fps == 1.0
  {
    if fps > 0.0 then 1.0 / fps else dt
  }

  /**
   * One subsystem's accumulator update: when the subsystem exists and its rate is not 0,
   * add `dt` and drain whole steps; otherwise nothing happens. Gives the steps taken and the
   * new accumulator.
   */
  function Advance(on: bool, fps: real, acc: real, dt: real): (nat, real)
    requires 0.0 < dt
  {
    if on && fps != 0.0 then Drained(acc + dt, StepOf(fps, dt)) else (0, acc)
  }

  /**
   * A running subsystem leaves its accumulator in `[0, step)` and has advanced by exactly the
   * whole steps the added time allows; a stopped one is untouched.
   */
  lemma AdvanceSpec(on: bool, fps: real, acc: real, dt: real)
    requires 0.0 < dt && 0.0 <= acc
    ensures var (k, rest) := Advance(on, fps, acc, dt);
      (on && fps != 0.0 ==>
        0.0 <= rest < StepOf(fps, dt) &&
        acc + dt == k as real * StepOf(fps, dt) + rest &&
        k == ((acc + dt) / StepOf(fps, dt)).Floor) &&
      (!(on && fps != 0.0) ==> k == 0 && rest == acc)
  {
    if on && fps != 0.0 {
      DrainedSpec(acc + dt, StepOf(fps, dt));
    }
  }

  class Controller {
    var prefersReduced: bool
    var hasScene: bool
    var hasGrid: bool
    var hasPoly: bool
    var hasInst: bool
    /** The shape the current wire-frame group was built from. */
    var polyShape: string
    var currentShape: string
    var instCount: nat
    /** `inst.count`, the number of instances drawn. */
    var meshCount: nat
    var seeds: seq<Seed>
    var orbit: map<nat, real>
    var orbitNeedsUpdate: bool
    var elapsed: real
    var polyFps: real
    var gridFps: real
    var innerFps: real
    var accPoly: real
    var accGrid: real
    var accInner: real
    var polyRotX: real
    var polyRotY: real
    var gridRotY: real

    /**
     * The count stays within `[0, INST_MAX]` and is mirrored into the mesh, every seed
     * exists, the accumulators are non-negative and every recorded orbit radius is in range.
     */
    ghost predicate Valid()
      reads this
    {
      instCount <= InstMax &&
      (hasInst ==> meshCount == instCount && |seeds| == InstMax) &&
      (currentShape == "ico" || currentShape == "ring") &&
      0.0 <= accPoly && 0.0 <= accGrid && 0.0 <= accInner &&
      OrbitInRange(orbit)
    }

    /** The module's initial state: 24 instances, `'ico'`, rates 20/24/15, nothing built. */
    constructor()
      ensures Valid()
      ensures instCount == InitialInstCount && currentShape == "ico"
      ensures polyFps == 20.0 && gridFps == 24.0 && innerFps == 15.0
      ensures accPoly == 0.0 && accGrid == 0.0 && accInner == 0.0 && elapsed == 0.0
      ensures !hasScene && !hasGrid && !hasPoly && !hasInst && orbit == map[]
    {
      prefersReduced := false;
      hasScene, hasGrid, hasPoly, hasInst := false, false, false, false;
      polyShape, currentShape := "ico", "ico";
      instCount, meshCount, seeds := InitialInstCount, 0, [];
      orbit, orbitNeedsUpdate, elapsed := map[], false, 0.0;
      polyFps, gridFps, innerFps := 20.0, 24.0, 15.0;
      accPoly, accGrid, accInner := 0.0, 0.0, 0.0;
      polyRotX, polyRotY, gridRotY := 0.0, 0.0, 0.0;
    }

    /**
     * `start`: without a canvas nothing happens; otherwise apply the given rates, if any, and
     * record the reduced-motion preference. Creating the application is outside the model;
     * it calls `Init` and then `Update` once per step.
     */
    method Start(hasCanvas: bool, fps: Option<FpsRates>, reduced: bool)
      modifies this`prefersReduced, this`polyFps, this`innerFps, this`gridFps
      modifies this`accPoly, this`accGrid, this`accInner
      requires Valid()
      ensures Valid()
      ensures !hasCanvas ==> unchanged(this)
      ensures !hasCanvas ==>
        prefersReduced == old(prefersReduced) && polyFps == old(polyFps) &&
        gridFps == old(gridFps) && innerFps == old(innerFps) && accPoly == old(accPoly) &&
        accGrid == old(accGrid) && accInner == old(accInner)
      ensures hasCanvas ==> prefersReduced == reduced
      ensures hasCanvas && fps.Some? ==>
        accPoly == 0.0 && accGrid == 0.0 && accInner == 0.0 &&
        polyFps == fps.value.poly.GetOr(old(polyFps)) &&
        innerFps == fps.value.inner.GetOr(old(innerFps)) &&
        gridFps == fps.value.grid.GetOr(old(gridFps))
      ensures hasCanvas && fps.None? ==>
        polyFps == old(polyFps) && gridFps == old(gridFps) &&
        innerFps == old(innerFps) && accPoly == old(accPoly) && accGrid == old(accGrid) &&
        accInner == old(accInner)
      ensures instCount == old(instCount) && currentShape == old(currentShape) && hasInst == old(hasInst)
    {
      if !hasCanvas {
        return;
      }
      if fps.Some? {
        SetBackgroundFps(fps.value);
      }
      prefersReduced := reduced;
    }

    /** `ensureInnerObjects`: create the instanced mesh and its seeds once. */
    method EnsureInnerObjects(draws: seq<Seed>)
      modifies this`hasInst, this`meshCount, this`seeds
      requires Valid() && |draws| == InstMax
      ensures Valid() && hasInst
      ensures old(hasInst) ==> meshCount == old(meshCount) && seeds == old(seeds)
      ensures !old(hasInst) ==> meshCount == instCount && seeds == draws
    {
      if hasInst {
        return;
      }
      hasInst := true;
      meshCount := instCount;
      seeds := draws;
    }

    /** `makeWirePoly(shape)`: rebuild the wire-frame group for `shape`, keeping the instances. */
    method MakeWirePoly(shape: string, draws: seq<Seed>)
      modifies this`hasPoly, this`polyShape, this`polyRotX, this`polyRotY
      modifies this`hasInst, this`meshCount, this`seeds
      requires Valid() && |draws| == InstMax
      ensures Valid() && hasPoly && polyShape == shape && hasInst
      ensures polyRotX == 0.0 && polyRotY == 0.0
      ensures old(hasInst) ==> meshCount == old(meshCount) && seeds == old(seeds)
      ensures !old(hasInst) ==> meshCount == instCount && seeds == draws
    {
      hasPoly := true;
      polyShape := shape;
      polyRotX, polyRotY := 0.0, 0.0;
      EnsureInnerObjects(draws);
    }

    /** The `init` callback: the scene exists, the grid is added, the group is built. */
    method Init(draws: seq<Seed>)
      modifies this`hasScene, this`hasGrid, this`gridRotY, this`hasPoly, this`polyShape
      modifies this`polyRotX, this`polyRotY, this`hasInst, this`meshCount, this`seeds
      requires Valid() && |draws| == InstMax
      ensures Valid() && hasScene && hasGrid && hasPoly && hasInst
      ensures gridRotY == 0.0 && polyRotX == 0.0 && polyRotY == 0.0
      ensures polyShape == currentShape && currentShape == old(currentShape)
      ensures instCount == old(instCount) && meshCount == instCount
      ensures seeds == if old(hasInst) then old(seeds) else draws
    {
      hasScene := true;
      hasGrid, gridRotY := true, 0.0;
      MakeWirePoly(currentShape, draws);
    }

    /**
     * The `update(dt)` callback. Under reduced motion nothing changes. Otherwise each
     * subsystem whose object exists and whose rate is not 0 drains its accumulator in
     * whole steps, turning by `rate * step` per step; the inner orbits advance `elapsed` by
     * one step per step and are rewritten when at least one step was taken. `dt` is the
     * application's fixed step, which is positive.
     */
    method Update(dt: real, sin: real -> real)
      modifies this`accPoly, this`polyRotX, this`polyRotY, this`accGrid, this`gridRotY
      modifies this`accInner, this`elapsed, this`orbit, this`orbitNeedsUpdate
      requires Valid() && 0.0 < dt
      ensures Valid()
      ensures prefersReduced ==> unchanged(this)
      ensures !prefersReduced ==>
        var (kp, ap) := Advance(hasPoly, polyFps, old(accPoly), dt);
        var (kg, ag) := Advance(hasGrid, gridFps, old(accGrid), dt);
        var (ki, ai) := Advance(hasInst, innerFps, old(accInner), dt);
        accPoly == ap && accGrid == ag && accInner == ai &&
        polyRotY == AddTimes(old(polyRotY), 0.18 * StepOf(polyFps, dt), kp) &&
        polyRotX == AddTimes(old(polyRotX), 0.05 * StepOf(polyFps, dt), kp) &&
        gridRotY == AddTimes(old(gridRotY), 0.015 * StepOf(gridFps, dt), kg) &&
        elapsed == AddTimes(old(elapsed), StepOf(innerFps, dt), ki) &&
        (ki == 0 ==> orbit == old(orbit) && orbitNeedsUpdate == old(orbitNeedsUpdate)) &&
        (ki > 0 ==>
          orbitNeedsUpdate &&
          (forall i: nat :: i in orbit <==> i in old(orbit) || i < meshCount) &&
          forall i: nat :: i < meshCount ==>
            orbit[i] == ClampRadius(LimitRadius(currentShape), RawRadius(seeds[i], elapsed, i, sin)))
      ensures hasPoly && polyFps != 0.0 && !prefersReduced ==> accPoly < StepOf(polyFps, dt)
      ensures hasGrid && gridFps != 0.0 && !prefersReduced ==> accGrid < StepOf(gridFps, dt)
      ensures hasInst && innerFps != 0.0 && !prefersReduced ==> accInner < StepOf(innerFps, dt)
      ensures instCount == old(instCount) && meshCount == old(meshCount) && seeds == old(seeds)
      ensures currentShape == old(currentShape) && hasInst == old(hasInst)
    {
      if prefersReduced {
        return;
      }
      UpdatePoly(dt);
      UpdateGrid(dt);
      UpdateInner(dt, sin);
    }

    /** The wire-frame group's part of `update`: 0.18 rad/s about y and 0.05 rad/s about x. */
    method UpdatePoly(dt: real)
      modifies this`accPoly, this`polyRotX, this`polyRotY
      requires 0.0 < dt && 0.0 <= accPoly
      ensures var (k, a) := Advance(hasPoly, polyFps, old(accPoly), dt);
        accPoly == a &&
        polyRotY == AddTimes(old(polyRotY), 0.18 * StepOf(polyFps, dt), k) &&
        polyRotX == AddTimes(old(polyRotX), 0.05 * StepOf(polyFps, dt), k)
      ensures 0.0 <= accPoly
      ensures hasPoly && polyFps != 0.0 ==> accPoly < StepOf(polyFps, dt)
    {
      AdvanceSpec(hasPoly, polyFps, accPoly, dt);
      if hasPoly && polyFps != 0.0 {
        var step := StepOf(polyFps, dt);
        var k, rest := Drain(accPoly + dt, step);
        polyRotY := AddTimes(polyRotY, 0.18 * step, k);
        polyRotX := AddTimes(polyRotX, 0.05 * step, k);
        accPoly := rest;
      }
    }

    /** The grid's part of `update`: 0.015 rad/s about y. */
    method UpdateGrid(dt: real)
      modifies this`accGrid, this`gridRotY
      requires 0.0 < dt && 0.0 <= accGrid
      ensures var (k, a) := Advance(hasGrid, gridFps, old(accGrid), dt);
        accGrid == a && gridRotY == AddTimes(old(gridRotY), 0.015 * StepOf(gridFps, dt), k)
      ensures 0.0 <= accGrid
      ensures hasGrid && gridFps != 0.0 ==> accGrid < StepOf(gridFps, dt)
    {
      AdvanceSpec(hasGrid, gridFps, accGrid, dt);
      if hasGrid && gridFps != 0.0 {
        var step := StepOf(gridFps, dt);
        var k, rest := Drain(accGrid + dt, step);
        gridRotY := AddTimes(gridRotY, 0.015 * step, k);
        accGrid := rest;
      }
    }

    /**
     * The inner cubes' part of `update`: `elapsed` advances one step per drained step, and
     * the drawn instances' orbits are rewritten only when at least one step was taken.
     */
    method UpdateInner(dt: real, sin: real -> real)
      modifies this`accInner, this`elapsed, this`orbit, this`orbitNeedsUpdate
      requires 0.0 < dt && Valid()
      ensures Valid()
      ensures var (k, a) := Advance(hasInst, innerFps, old(accInner), dt);
        accInner == a &&
        elapsed == AddTimes(old(elapsed), StepOf(innerFps, dt), k) &&
        (k == 0 ==> orbit == old(orbit) && orbitNeedsUpdate == old(orbitNeedsUpdate)) &&
        (k > 0 ==>
          orbitNeedsUpdate &&
          (forall i: nat :: i in orbit <==> i in old(orbit) || i < meshCount) &&
          forall i: nat :: i < meshCount ==>
            orbit[i] == ClampRadius(LimitRadius(currentShape), RawRadius(seeds[i], elapsed, i, sin)))
      ensures hasInst && innerFps != 0.0 ==> accInner < StepOf(innerFps, dt)
    {
      AdvanceSpec(hasInst, innerFps, accInner, dt);
      if hasInst && innerFps != 0.0 {
        var step := StepOf(innerFps, dt);
        var k, rest := Drain(accInner + dt, step);
        elapsed := AddTimes(elapsed, step, k);
        accInner := rest;
        if k > 0 {
          RefreshOrbit(sin);
        }
      }
    }

    /** Rewrite the orbit of every drawn instance for the current `elapsed` and shape. */
    method RefreshOrbit(sin: real -> real)
      modifies this`orbit, this`orbitNeedsUpdate
      requires Valid() && hasInst
      ensures Valid() && orbitNeedsUpdate
      ensures forall i: nat :: i in orbit <==> i in old(orbit) || i < meshCount
      ensures forall i: nat :: i < meshCount ==>
        orbit[i] == ClampRadius(LimitRadius(currentShape), RawRadius(seeds[i], elapsed, i, sin))
    {
      var limitR := LimitRadius(currentShape);
      var written := WriteOrbit(orbit, meshCount, limitR, elapsed, seeds, sin);
      WriteOrbitInRange(orbit, written, meshCount, limitR, elapsed, seeds, sin);
      orbit := written;
      orbitNeedsUpdate := true;
    }

    /** `increaseBalls`: one more instance, at most `INST_MAX`; nothing before the mesh exists. */
    method IncreaseBalls()
      modifies this`instCount, this`meshCount
      requires Valid()
      ensures Valid()
      ensures !hasInst ==> instCount == old(instCount) && meshCount == old(meshCount)
      ensures hasInst ==> instCount == IncCount(old(instCount)) && meshCount == instCount
    {
      if !hasInst {
        return;
      }
      CountBounds(instCount);
      instCount := IncCount(instCount);
      meshCount := instCount;
    }

    /** `decreaseBalls`: one instance fewer, at least 0; nothing before the mesh exists. */
    method DecreaseBalls()
      modifies this`instCount, this`meshCount
      requires Valid()
      ensures Valid()
      ensures !hasInst ==> instCount == old(instCount) && meshCount == old(meshCount)
      ensures hasInst ==> instCount == DecCount(old(instCount)) && meshCount == instCount
    {
      if !hasInst {
        return;
      }
      CountBounds(instCount);
      instCount := DecCount(instCount);
      meshCount := instCount;
    }

    /**
     * `switchToSphereMode`: toggle the shape and rebuild the group. Before `Init` there is no
     * scene: the new group is created, adding it to the scene throws, and the instances are
     * not created; `ok` is false then.
     */
    method SwitchToSphereMode(draws: seq<Seed>) returns (ok: bool)
      modifies this`currentShape, this`hasPoly, this`polyShape, this`polyRotX, this`polyRotY
      modifies this`hasInst, this`meshCount, this`seeds
      requires Valid() && |draws| == InstMax
      ensures Valid()
      ensures currentShape == Toggle(old(currentShape))
      ensures ok == old(hasScene)
      ensures hasPoly && polyShape == currentShape && polyRotX == 0.0 && polyRotY == 0.0
      ensures ok ==> hasInst
      ensures !ok ==> hasInst == old(hasInst) && meshCount == old(meshCount) && seeds == old(seeds)
      ensures instCount == old(instCount)
    {
      currentShape := Toggle(currentShape);
      if !hasScene {
        hasPoly, polyShape := true, currentShape;
        polyRotX, polyRotY := 0.0, 0.0;
        return false;
      }
      MakeWirePoly(currentShape, draws);
      return true;
    }

    /**
     * `setBackgroundFPS`: replace the rates given as numbers, keep the others, and reset all
     * three accumulators. Only a rate of exactly 0 stops a subsystem.
     */
    method SetBackgroundFps(rates: FpsRates)
      modifies this`polyFps, this`innerFps, this`gridFps, this`accPoly, this`accGrid, this`accInner
      requires Valid()
      ensures Valid()
      ensures polyFps == rates.poly.GetOr(old(polyFps))
      ensures innerFps == rates.inner.GetOr(old(innerFps))
      ensures gridFps == rates.grid.GetOr(old(gridFps))
      ensures accPoly == 0.0 && accGrid == 0.0 && accInner == 0.0
    {
      if rates.poly.Some? {
        polyFps := rates.poly.value;
      }
      if rates.inner.Some? {
        innerFps := rates.inner.value;
      }
      if rates.grid.Some? {
        gridFps := rates.grid.value;
      }
      accPoly, accGrid, accInner := 0.0, 0.0, 0.0;
    }
  }
}

/**
 * The stand-alone background script src/entry/background.js: the same scene, updated by
 * `dt` on every step with no accumulators, and the same ball-count and shape API.
 */
module BackgroundEntry {
  import opened Geometry
  import opened BackgroundShared

  class Scene {
    const prefersReduced: bool
    var hasScene: bool
    var hasGrid: bool
    var hasPoly: bool
    var hasInst: bool
    var polyShape: string
    var currentShape: string
    var instCount: nat
    var meshCount: nat
    var seeds: seq<Seed>
    var orbit: map<nat, real>
    var orbitNeedsUpdate: bool
    var elapsed: real
    var polyRotX: real
    var polyRotY: real
    var gridRotY: real

    ghost predicate Valid()
      reads this
    {
      instCount <= InstMax &&
      (hasInst ==> meshCount == instCount && |seeds| == InstMax) &&
      (currentShape == "ico" || currentShape == "ring") &&
      OrbitInRange(orbit)
    }

    /** The script's module state, with the reduced-motion preference read once at load. */
    constructor(reduced: bool)
      ensures Valid()
      ensures prefersReduced == reduced && instCount == InitialInstCount && currentShape == "ico"
      ensures elapsed == 0.0 && !hasScene && !hasGrid && !hasPoly && !hasInst && orbit == map[]
    {
      prefersReduced := reduced;
      hasScene, hasGrid, hasPoly, hasInst := false, false, false, false;
      polyShape, currentShape := "ico", "ico";
      instCount, meshCount, seeds := InitialInstCount, 0, [];
      orbit, orbitNeedsUpdate, elapsed := map[], false, 0.0;
      polyRotX, polyRotY, gridRotY := 0.0, 0.0, 0.0;
    }

    /** `makeWirePoly(shape)` with `ensureInnerObjects`: rebuild the group, create the instances once. */
    method MakeWirePoly(shape: string, draws: seq<Seed>)
      modifies this`hasPoly, this`polyShape, this`polyRotX, this`polyRotY
      modifies this`hasInst, this`meshCount, this`seeds
      requires Valid() && |draws| == InstMax
      ensures Valid() && hasPoly && polyShape == shape && hasInst
      ensures polyRotX == 0.0 && polyRotY == 0.0
      ensures old(hasInst) ==> meshCount == old(meshCount) && seeds == old(seeds)
      ensures !old(hasInst) ==> meshCount == instCount && seeds == draws
    {
      hasPoly := true;
      polyShape := shape;
      polyRotX, polyRotY := 0.0, 0.0;
      if !hasInst {
        hasInst := true;
        meshCount := instCount;
        seeds := draws;
      }
    }

    /** The `init` callback. */
    method Init(draws: seq<Seed>)
      modifies this`hasScene, this`hasGrid, this`gridRotY, this`hasPoly, this`polyShape
      modifies this`polyRotX, this`polyRotY, this`hasInst, this`meshCount, this`seeds
      requires Valid() && |draws| == InstMax
      ensures Valid() && hasScene && hasGrid && hasPoly && hasInst
      ensures gridRotY == 0.0 && polyRotX == 0.0 && polyRotY == 0.0
      ensures polyShape == currentShape && currentShape == old(currentShape)
      ensures instCount == old(instCount) && meshCount == instCount
      ensures seeds == if old(hasInst) then old(seeds) else draws
    {
      hasScene := true;
      hasGrid, gridRotY := true, 0.0;
      MakeWirePoly(currentShape, draws);
    }

    /**
     * The `update(dt)` callback: nothing under reduced motion; otherwise the rotations turn by
     * `rate * dt`, `elapsed` grows by exactly `dt` once the instances exist, and every drawn
     * instance gets its clamped orbit radius.
     */
    method Update(dt: real, sin: real -> real)
      modifies this`polyRotX, this`polyRotY, this`gridRotY
      modifies this`elapsed, this`orbit, this`orbitNeedsUpdate
      requires Valid()
      ensures Valid()
      ensures prefersReduced ==> unchanged(this)
      ensures !prefersReduced ==>
        polyRotY == (if hasPoly then old(polyRotY) + 0.18 * dt else old(polyRotY)) &&
        polyRotX == (if hasPoly then old(polyRotX) + 0.05 * dt else old(polyRotX)) &&
        gridRotY == (if hasGrid then old(gridRotY) + 0.015 * dt else old(gridRotY)) &&
        elapsed == (if hasInst then old(elapsed) + dt else old(elapsed)) &&
        (!hasInst ==> orbit == old(orbit) && orbitNeedsUpdate == old(orbitNeedsUpdate)) &&
        (hasInst ==>
          orbitNeedsUpdate &&
          (forall i: nat :: i in orbit <==> i in old(orbit) || i < meshCount) &&
          forall i: nat :: i < meshCount ==>
            orbit[i] == ClampRadius(LimitRadius(currentShape), RawRadius(seeds[i], elapsed, i, sin)))
      ensures instCount == old(instCount) && meshCount == old(meshCount) && seeds == old(seeds)
      ensures currentShape == old(currentShape) && hasInst == old(hasInst)
    {
      if prefersReduced {
        return;
      }
      if hasPoly {
        polyRotY := polyRotY + 0.18 * dt;
        polyRotX := polyRotX + 0.05 * dt;
      }
      if hasGrid {
        gridRotY := gridRotY + 0.015 * dt;
      }
      if hasInst {
        elapsed := elapsed + dt;
        var limitR := LimitRadius(currentShape);
        var written := WriteOrbit(orbit, meshCount, limitR, elapsed, seeds, sin);
        WriteOrbitInRange(orbit, written, meshCount, limitR, elapsed, seeds, sin);
        orbit := written;
        orbitNeedsUpdate := true;
      }
    }

    /** `increaseBalls`. */
    method IncreaseBalls()
      modifies this`instCount, this`meshCount
      requires Valid()
      ensures Valid()
      ensures !hasInst ==> instCount == old(instCount) && meshCount == old(meshCount)
      ensures hasInst ==> instCount == IncCount(old(instCount)) && meshCount == instCount
    {
      if !hasInst {
        return;
      }
      CountBounds(instCount);
      instCount := IncCount(instCount);
      meshCount := instCount;
    }

    /** `decreaseBalls`. */
    method DecreaseBalls()
      modifies this`instCount, this`meshCount
      requires Valid()
      ensures Valid()
      ensures !hasInst ==> instCount == old(instCount) && meshCount == old(meshCount)
      ensures hasInst ==> instCount == DecCount(old(instCount)) && meshCount == instCount
    {
      if !hasInst {
        return;
      }
      CountBounds(instCount);
      instCount := DecCount(instCount);
      meshCount := instCount;
    }

    /** `switchToSphereMode`: as in the controller, before `Init` the rebuild throws (`ok` false). */
    method SwitchToSphereMode(draws: seq<Seed>) returns (ok: bool)
      modifies this`currentShape, this`hasPoly, this`polyShape, this`polyRotX, this`polyRotY
      modifies this`hasInst, this`meshCount, this`seeds
      requires Valid() && |draws| == InstMax
      ensures Valid()
      ensures currentShape == Toggle(old(currentShape))
      ensures ok == old(hasScene)
      ensures hasPoly && polyShape == currentShape && polyRotX == 0.0 && polyRotY == 0.0
      ensures ok ==> hasInst
      ensures !ok ==> hasInst == old(hasInst) && meshCount == old(meshCount) && seeds == old(seeds)
      ensures instCount == old(instCount)
    {
      currentShape := Toggle(currentShape);
      if !hasScene {
        hasPoly, polyShape := true, currentShape;
        polyRotX, polyRotY := 0.0, 0.0;
        return false;
      }
      MakeWirePoly(currentShape, draws);
      return true;
    }
  }
}
