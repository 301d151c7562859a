/**
 * Specification of the bounded-particle simulation (`BackgroundPhysics` in
 * src/features/background/physics.js and its copy `BgPhysics` in src/core/bg-physics.js).
 *
 * The state of the simulation is a pair of buffers with one position and one velocity per
 * slot. The functions below say, as values, what each in-place operation of the class
 * `Particles` (module Physics) does to those buffers; the lemmas say what the source
 * promises about them.
 */
module PhysicsSpec {
  import opened Geometry
  import opened Wrappers

  /** The position and velocity buffers, one entry per slot (`pos[i*3 .. i*3+2]` in the source). */
  datatype State = State(pos: seq<Vec3>, vel: seq<Vec3>)

  /** Both buffers have the same length and cover the first `n` slots. */
  predicate Shaped(s: State, n: nat)
  {
    |s.pos| == |s.vel| && n <= |s.pos|
  }

  /** The constants fixed at construction: `half = bounds / 2`, the particle `radius` and the `speed` scale. */
  datatype Params = Params(half: real, radius: real, speed: real)
  {
    /** `half - radius`: how far a centre may go on each axis of the cube. */
    function CubeLimit(): real { half - radius }

    /** `sphereRadius - radius`, where the source sets `sphereRadius = half`. */
    function SphereLimit(): real { half - radius }

    /** The particle fits into the container: `0 <= radius <= half`. */
    predicate WellFormed() { 0.0 <= radius <= half }
  }

  /** `_reflect` takes its cube branch exactly when the mode string is `'cube'`. */
  predicate ReflectsAsCube(mode: string) { mode == "cube" }

  /** `_placeRandom` applies its in-sphere test exactly when the mode string is `'sphere'`. */
  predicate PlacesInSphere(mode: string) { mode == "sphere" }

  /** `setMode`: any argument other than `'sphere'` selects `'cube'`. */
  function NormalizeMode(name: string): (m: string)
    ensures m == "sphere" || m == "cube"
    ensures m == "sphere" <==> name == "sphere"
  {
    if name == "sphere" then "sphere" else "cube"
  }

  // ---------------------------------------------------------------------------------------
  // Random placement (`_placeRandom`)
  // ---------------------------------------------------------------------------------------

  /** Three successive `Math.random()` results. */
  datatype Draw3 = Draw3(u: real, v: real, w: real)

  /** What `Math.random()` guarantees of each draw: it lies in [0, 1). */
  predicate IsDraw(d: Draw3)
  {
    0.0 <= d.u < 1.0 && 0.0 <= d.v < 1.0 && 0.0 <= d.w < 1.0
  }

  predicate IsStream(rng: seq<Draw3>)
  {
    forall k :: 0 <= k < |rng| ==> IsDraw(rng[k])
  }

  /** The source's `rand(min, max) = min + Math.random() * (max - min)`. */
  function Rand(min: real, max: real, u: real): real
  {
    min + u * (max - min)
  }

  /** Three draws turned into a vector with every component in [min, max]. */
  function RandVec(min: real, max: real, d: Draw3): (r: Vec3)
    requires IsDraw(d) && min <= max
    ensures forall a :: 0 <= a < 3 ==> min <= r.At(a) <= max
  {
    RandInRange(min, max, d.u);
    RandInRange(min, max, d.v);
    RandInRange(min, max, d.w);
    Vec3(Rand(min, max, d.u), Rand(min, max, d.v), Rand(min, max, d.w))
  }

  lemma RandInRange(min: real, max: real, u: real)
    requires min <= max && 0.0 <= u < 1.0
    ensures min <= Rand(min, max, u) <= max
  {
    var w := max - min;
    MulMonotone(0.0, u, w);
    MulMonotone(u, 1.0, w);
    assert 0.0 * w == 0.0 && 1.0 * w == w;
    assert Rand(min, max, u) == min + u * w;
  }

  /**
   * The acceptance test of one candidate `p` for slot `i`: inside the sphere of radius
   * `limit` when `sphere` holds, and at squared distance at least `(2r)^2` from every
   * slot below `i`.
   */
  predicate Accepts(ps: seq<Vec3>, i: nat, p: Vec3, sphere: bool, limit: real, r: real)
    requires i <= |ps|
  {
    (sphere ==> NormSq(p) <= limit * limit) &&
    forall j :: 0 <= j < i ==> DistSq(p, ps[j]) >= (2.0 * r) * (2.0 * r)
  }

  /** An accepted position and its velocity, and how many draws of the stream were used. */
  datatype Placement = Placement(p: Vec3, v: Vec3, used: nat)

  function AddUsed(o: Option<Placement>, k: nat): Option<Placement>
  {
    match o
    case None => None
    case Some(pl) => Some(pl.(used := pl.used + k))
  }

  /**
   * The rejection loop of `_placeRandom`, run on the stream `rng` of random draws: every
   * iteration draws one candidate in the box [-limit, limit]^3; the first accepted one is
   * kept and the next draw gives its velocity in [-1, 1]^3. `None` means the stream ran
   * out before a candidate was accepted (the source would keep sampling).
   */
  function Sample(ps: seq<Vec3>, i: nat, rng: seq<Draw3>, sphere: bool, limit: real, r: real): (res: Option<Placement>)
    requires i <= |ps| && IsStream(rng) && 0.0 <= limit
    ensures res.Some? ==> Accepts(ps, i, res.value.p, sphere, limit, r)
    ensures res.Some? ==> 2 <= res.value.used <= |rng|
    ensures res.Some? ==> forall a :: 0 <= a < 3 ==> -limit <= res.value.p.At(a) <= limit
    ensures res.Some? ==> forall a :: 0 <= a < 3 ==> -1.0 <= res.value.v.At(a) <= 1.0
    decreases |rng|
  {
    if |rng| == 0 then None
    else
      var p := RandVec(-limit, limit, rng[0]);
      if Accepts(ps, i, p, sphere, limit, r) then
        if |rng| < 2 then None else Some(Placement(p, RandVec(-1.0, 1.0, rng[1]), 2))
      else
        AddUsed(Sample(ps, i, rng[1..], sphere, limit, r), 1)
  }

  lemma AddUsedTwice(o: Option<Placement>, a: nat, b: nat)
    ensures AddUsed(AddUsed(o, a), b) == AddUsed(o, a + b)
  {
  }

  /** One iteration of the rejection loop, drawing candidate `rng[k]`. */
  lemma SampleStep(ps: seq<Vec3>, i: nat, rng: seq<Draw3>, k: nat, sphere: bool, limit: real, r: real)
    requires i <= |ps| && IsStream(rng) && 0.0 <= limit && k < |rng|
    ensures var p := RandVec(-limit, limit, rng[k]);
      (Accepts(ps, i, p, sphere, limit, r) ==>
        Sample(ps, i, rng[k..], sphere, limit, r) ==
          if k + 1 == |rng| then None else Some(Placement(p, RandVec(-1.0, 1.0, rng[k + 1]), 2))) &&
      (!Accepts(ps, i, p, sphere, limit, r) ==>
        Sample(ps, i, rng[k..], sphere, limit, r) == AddUsed(Sample(ps, i, rng[k + 1..], sphere, limit, r), 1))
  {
    assert rng[k..][1..] == rng[k + 1..];
  }

  /** A rejected candidate moves the loop on by one draw. */
  lemma SampleAdvance(ps: seq<Vec3>, i: nat, rng: seq<Draw3>, k: nat, sphere: bool, limit: real, r: real)
    requires i <= |ps| && IsStream(rng) && 0.0 <= limit && k < |rng|
    requires Sample(ps, i, rng, sphere, limit, r) == AddUsed(Sample(ps, i, rng[k..], sphere, limit, r), k)
    ensures !Accepts(ps, i, RandVec(-limit, limit, rng[k]), sphere, limit, r) ==>
      Sample(ps, i, rng, sphere, limit, r) == AddUsed(Sample(ps, i, rng[k + 1..], sphere, limit, r), k + 1)
  {
    SampleStep(ps, i, rng, k, sphere, limit, r);
    AddUsedTwice(Sample(ps, i, rng[k + 1..], sphere, limit, r), 1, k);
  }

  /** No two of the first `n` slots are closer than `2r`. */
  ghost predicate NonOverlapping(ps: seq<Vec3>, n: nat, r: real)
    requires n <= |ps|
  {
    forall a, b :: 0 <= a < b < n ==> DistSq(ps[b], ps[a]) >= (2.0 * r) * (2.0 * r)
  }

  /**
   * `_init`: place slots `i .. n-1` one after the other from the stream. Returns the buffers
   * and how many slots were placed (placement stops at the first slot whose stream ran out).
   */
  function Populate(s: State, i: nat, n: nat, rng: seq<Draw3>, sphere: bool, limit: real, r: real): (res: (State, nat))
    requires Shaped(s, n) && i <= n && IsStream(rng) && 0.0 <= limit
    ensures Shaped(res.0, n) && |res.0.pos| == |s.pos| && i <= res.1 <= n
    decreases n - i
  {
    if i == n then (s, i)
    else
      match Sample(s.pos, i, rng, sphere, limit, r)
      case None => (s, i)
      case Some(pl) =>
        Populate(State(s.pos[i := pl.p], s.vel[i := pl.v]), i + 1, n, rng[pl.used..], sphere, limit, r)
  }

  lemma {:induction false} PopulateNonOverlapping(s: State, i: nat, n: nat, rng: seq<Draw3>, sphere: bool, limit: real, r: real)
    requires Shaped(s, n) && i <= n && IsStream(rng) && 0.0 <= limit
    requires NonOverlapping(s.pos, i, r)
    ensures NonOverlapping(Populate(s, i, n, rng, sphere, limit, r).0.pos, Populate(s, i, n, rng, sphere, limit, r).1, r)
    decreases n - i
  {
    if i < n {
      match Sample(s.pos, i, rng, sphere, limit, r)
      case None =>
      case Some(pl) =>
        var s' := State(s.pos[i := pl.p], s.vel[i := pl.v]);
        PlacementKeepsNonOverlapping(s.pos, i, pl.p, sphere, limit, r);
        PopulateNonOverlapping(s', i + 1, n, rng[pl.used..], sphere, limit, r);
    }
  }

  /** Writing an accepted candidate into slot `i` extends a non-overlapping prefix by one slot. */
  lemma PlacementKeepsNonOverlapping(ps: seq<Vec3>, i: nat, p: Vec3, sphere: bool, limit: real, r: real)
    requires i < |ps| && NonOverlapping(ps, i, r) && Accepts(ps, i, p, sphere, limit, r)
    ensures NonOverlapping(ps[i := p], i + 1, r)
  {
    var qs := ps[i := p];
    forall a, b | 0 <= a < b < i + 1
      ensures DistSq(qs[b], qs[a]) >= (2.0 * r) * (2.0 * r)
    {
      if b == i {
        assert qs[b] == p && qs[a] == ps[a];
      }
    }
  }

  // ---------------------------------------------------------------------------------------
  // Wall reflection (`_reflect`)
  // ---------------------------------------------------------------------------------------

  /**
   * One axis of the cube branch: beyond `+limit` the centre is put back on `+limit` and the
   * velocity made `-|v|`; beyond `-limit` it is put on `-limit` with velocity `+|v|`.
   */
  function ReflectAxis(p: real, v: real, limit: real): (real, real)
  {
    if p > limit then (limit, -Abs(v))
    else if p < -limit then (-limit, Abs(v))
    else (p, v)
  }

  /** The cube branch, axis by axis from `axis` to 2, as the source's `for (axis ...)` loop. */
  function ReflectAxes(p: Vec3, v: Vec3, limit: real, axis: nat): (Vec3, Vec3)
    requires axis <= 3
    decreases 3 - axis
  {
    if axis == 3 then (p, v)
    else
      var (pa, va) := ReflectAxis(p.At(axis), v.At(axis), limit);
      ReflectAxes(p.With(axis, pa), v.With(axis, va), limit, axis + 1)
  }

  function ReflectCube(p: Vec3, v: Vec3, limit: real): (Vec3, Vec3)
  {
    ReflectAxes(p, v, limit, 0)
  }

  /**
   * The sphere branch: when the distance `r` from the centre exceeds `limit`, the centre is
   * moved to `n * limit` with `n = p / r`, and the velocity reflected to `v - 2 (v . n) n`.
   */
  function ReflectSphere(p: Vec3, v: Vec3, limit: real, sqrt: real -> real): (Vec3, Vec3)
    requires 0.0 <= limit
  {
    var r := sqrt(NormSq(p));
    if r > limit then
      var n := p.Div(r);
      var vn := v.Dot(n);
      (n.Scale(limit), v.Sub(n.Scale(2.0 * vn)))
    else
      (p, v)
  }

  function Reflect(mode: string, prm: Params, p: Vec3, v: Vec3, sqrt: real -> real): (Vec3, Vec3)
    requires prm.WellFormed()
  {
    if ReflectsAsCube(mode) then ReflectCube(p, v, prm.CubeLimit())
    else ReflectSphere(p, v, prm.SphereLimit(), sqrt)
  }

  /** Each axis of the cube reflection is the one-axis rule applied to that axis alone. */
  lemma ReflectCubeAxis(p: Vec3, v: Vec3, limit: real, a: nat)
    requires a < 3
    ensures ReflectCube(p, v, limit).0.At(a) == ReflectAxis(p.At(a), v.At(a), limit).0
    ensures ReflectCube(p, v, limit).1.At(a) == ReflectAxis(p.At(a), v.At(a), limit).1
  {
    var (p0, v0) := ReflectAxis(p.At(0), v.At(0), limit);
    var p1 := p.With(0, p0);
    var w1 := v.With(0, v0);
    var (q1, u1) := ReflectAxis(p1.At(1), w1.At(1), limit);
    var p2 := p1.With(1, q1);
    var w2 := w1.With(1, u1);
    var (q2, u2) := ReflectAxis(p2.At(2), w2.At(2), limit);
    assert ReflectCube(p, v, limit) == (p2.With(2, q2), w2.With(2, u2));
  }

  /**
   * The cube reflection, axis by axis: afterwards the coordinate lies in [-limit, limit];
   * one clamped to `+limit` moves with `-|v|`, one clamped to `-limit` with `+|v|` (so the
   * speed along the axis is kept), and an axis already in range is untouched.
   */
  lemma ReflectCubeSpec(p: Vec3, v: Vec3, limit: real, a: nat)
    requires a < 3 && 0.0 <= limit
    ensures -limit <= ReflectCube(p, v, limit).0.At(a) <= limit
    ensures p.At(a) > limit ==> ReflectCube(p, v, limit).0.At(a) == limit && ReflectCube(p, v, limit).1.At(a) == -Abs(v.At(a))
    ensures p.At(a) < -limit ==> ReflectCube(p, v, limit).0.At(a) == -limit && ReflectCube(p, v, limit).1.At(a) == Abs(v.At(a))
    ensures -limit <= p.At(a) <= limit ==> ReflectCube(p, v, limit).0.At(a) == p.At(a) && ReflectCube(p, v, limit).1.At(a) == v.At(a)
    ensures Abs(ReflectCube(p, v, limit).1.At(a)) == Abs(v.At(a))
  {
    ReflectCubeAxis(p, v, limit, a);
  }

  /**
   * The sphere reflection: outside the sphere the new centre lies on it (squared norm
   * `limit^2`) and is the old one scaled by `limit / r`; the velocity keeps its speed and
   * its normal component is negated. Inside (or on) the sphere nothing changes.
   */
  lemma ReflectSphereSpec(p: Vec3, v: Vec3, limit: real, sqrt: real -> real)
    requires 0.0 <= limit && IsSqrt(sqrt)
    ensures NormSq(ReflectSphere(p, v, limit, sqrt).0) <= limit * limit
    ensures var r := sqrt(NormSq(p));
      r > limit ==>
        NormSq(ReflectSphere(p, v, limit, sqrt).0) == limit * limit &&
        ReflectSphere(p, v, limit, sqrt).0 == p.Div(r).Scale(limit) &&
        NormSq(ReflectSphere(p, v, limit, sqrt).1) == NormSq(v) &&
        ReflectSphere(p, v, limit, sqrt).1.Dot(p.Div(r)) == -v.Dot(p.Div(r))
    ensures sqrt(NormSq(p)) <= limit ==> ReflectSphere(p, v, limit, sqrt) == (p, v)
  {
    NormSqNonNegative(p);
    var r := sqrt(NormSq(p));
    assert 0.0 <= r && r * r == NormSq(p);
    if r > limit {
      var n := p.Div(r);
      UnitNormal(p, r);
      ScaledUnitLength(n, limit);
      SpecularReflection(v, n);
    } else {
      assert r * r <= limit * limit by {
        assert r * r <= r * limit <= limit * limit;
      }
    }
  }

  /** After `Reflect`, the centre lies in the container: the cube, or the ball of radius `limit`. */
  lemma ReflectContains(mode: string, prm: Params, p: Vec3, v: Vec3, sqrt: real -> real)
    requires prm.WellFormed() && IsSqrt(sqrt)
    ensures Contained(mode, prm, Reflect(mode, prm, p, v, sqrt).0)
  {
    var q := Reflect(mode, prm, p, v, sqrt).0;
    if ReflectsAsCube(mode) {
      forall a | 0 <= a < 3 ensures -prm.CubeLimit() <= q.At(a) <= prm.CubeLimit() {
        ReflectCubeSpec(p, v, prm.CubeLimit(), a);
      }
    } else {
      ReflectSphereSpec(p, v, prm.SphereLimit(), sqrt);
    }
  }

  /**
   * The containment the reflection restores: every axis in [-limit, limit] when `_reflect`
   * treats the mode as a cube, the squared norm at most `limit^2` otherwise.
   */
  ghost predicate Contained(mode: string, prm: Params, p: Vec3)
  {
    if ReflectsAsCube(mode) then forall a :: 0 <= a < 3 ==> -prm.CubeLimit() <= p.At(a) <= prm.CubeLimit()
    else NormSq(p) <= prm.SphereLimit() * prm.SphereLimit()
  }

  // ---------------------------------------------------------------------------------------
  // Integration (`step`, first loop)
  // ---------------------------------------------------------------------------------------

  /** One particle's move: `pos += vel * dtScaled`, then the wall reflection. */
  function MoveParticle(mode: string, prm: Params, dts: real, p: Vec3, v: Vec3, sqrt: real -> real): (Vec3, Vec3)
    requires prm.WellFormed()
  {
    Reflect(mode, prm, p.Add(v.Scale(dts)), v, sqrt)
  }

  function MoveAt(s: State, i: nat, mode: string, prm: Params, dts: real, sqrt: real -> real): (r: State)
    requires Shaped(s, i + 1) && prm.WellFormed()
    ensures |r.pos| == |s.pos| && |r.vel| == |s.vel|
  {
    var (p, v) := MoveParticle(mode, prm, dts, s.pos[i], s.vel[i], sqrt);
    State(s.pos[i := p], s.vel[i := v])
  }

  /** The first loop of `step`, from slot `i` up to `n - 1`. */
  function MoveFrom(s: State, i: nat, n: nat, mode: string, prm: Params, dts: real, sqrt: real -> real): (r: State)
    requires Shaped(s, n) && i <= n && prm.WellFormed()
    ensures |r.pos| == |s.pos| && |r.vel| == |s.vel|
    decreases n - i
  {
    if i == n then s else MoveFrom(MoveAt(s, i, mode, prm, dts, sqrt), i + 1, n, mode, prm, dts, sqrt)
  }

  /**
   * The first loop of `step` treats every particle on its own: slots `i .. n-1` end as
   * `MoveParticle` of their own old position and velocity, and every other slot is untouched.
   */
  lemma {:induction false} MoveFromSlots(s: State, i: nat, n: nat, mode: string, prm: Params, dts: real, sqrt: real -> real)
    requires Shaped(s, n) && i <= n && prm.WellFormed()
    ensures var r := MoveFrom(s, i, n, mode, prm, dts, sqrt);
      forall k :: 0 <= k < |s.pos| ==>
        (r.pos[k], r.vel[k]) == if i <= k < n then MoveParticle(mode, prm, dts, s.pos[k], s.vel[k], sqrt) else (s.pos[k], s.vel[k])
    decreases n - i
  {
    if i < n {
      var s' := MoveAt(s, i, mode, prm, dts, sqrt);
      MoveFromSlots(s', i + 1, n, mode, prm, dts, sqrt);
    }
  }

  // ---------------------------------------------------------------------------------------
  // Pairwise collisions (`_collide`)
  // ---------------------------------------------------------------------------------------

  /** Pairs closer than this squared distance are treated as coincident and skipped. */
  const CoincidentSq: real := 1e-9

  /** Extra separation added to each half-overlap push. */
  const PushSlack: real := 1e-4

  /** Does the pair with difference `d` (from the cached centre of `i` to `j`) collide? */
  predicate Colliding(d: Vec3, radius: real)
  {
    NormSq(d) < (2.0 * radius) * (2.0 * radius) && NormSq(d) > CoincidentSq
  }

  /**
   * The body of the inner loop of `_collide` for the pair (i, j), where `c` is the centre of
   * `i` cached at the start of the outer iteration: when the pair overlaps (and is not
   * coincident), both are pushed apart along the unit normal `n` by half the overlap plus
   * `1e-4`, and the normal components of their velocities are exchanged.
   */
  function CollidePair(s: State, i: nat, j: nat, c: Vec3, radius: real, sqrt: real -> real): (r: State)
    requires |s.pos| == |s.vel| && i < |s.pos| && j < |s.pos| && i != j && PositiveOnPositive(sqrt)
    ensures |r.pos| == |s.pos| && |r.vel| == |s.vel|
  {
    var d := s.pos[j].Sub(c);
    var d2 := NormSq(d);
    if Colliding(d, radius) then
      var dist := sqrt(d2);
      var n := d.Div(dist);
      var push := (2.0 * radius - dist) * 0.5 + PushSlack;
      var vin := s.vel[i].Dot(n);
      var vjn := s.vel[j].Dot(n);
      State(
        s.pos[i := s.pos[i].Sub(n.Scale(push))][j := s.pos[j].Add(n.Scale(push))],
        s.vel[i := s.vel[i].Sub(n.Scale(vin)).Add(n.Scale(vjn))][j := s.vel[j].Sub(n.Scale(vjn)).Add(n.Scale(vin))])
    else
      s
  }

  /** The inner loop of `_collide`: pairs (i, j) .. (i, n-1) with `i`'s cached centre `c`. */
  function CollideRow(s: State, i: nat, j: nat, c: Vec3, n: nat, radius: real, sqrt: real -> real): (r: State)
    requires Shaped(s, n) && i < j <= n && PositiveOnPositive(sqrt)
    ensures |r.pos| == |s.pos| && |r.vel| == |s.vel|
    decreases n - j
  {
    if j == n then s else CollideRow(CollidePair(s, i, j, c, radius, sqrt), i, j + 1, c, n, radius, sqrt)
  }

  /** The outer loop of `_collide`, from row `i` to row `n - 1`. */
  function CollideFrom(s: State, i: nat, n: nat, radius: real, sqrt: real -> real): (r: State)
    requires Shaped(s, n) && i <= n && PositiveOnPositive(sqrt)
    ensures |r.pos| == |s.pos| && |r.vel| == |s.vel|
    decreases n - i
  {
    if i == n then s else CollideFrom(CollideRow(s, i, i + 1, s.pos[i], n, radius, sqrt), i + 1, n, radius, sqrt)
  }

  /** `_collide`. */
  function Collide(s: State, n: nat, radius: real, sqrt: real -> real): State
    requires Shaped(s, n) && PositiveOnPositive(sqrt)
  {
    CollideFrom(s, 0, n, radius, sqrt)
  }

  /**
   * One resolved pair keeps the sum of the two positions and the sum of the two velocities,
   * and leaves every other slot alone; a pair that does not overlap, or is coincident, is
   * left entirely unchanged.
   */
  lemma CollidePairConserves(s: State, i: nat, j: nat, c: Vec3, radius: real, sqrt: real -> real)
    requires |s.pos| == |s.vel| && i < |s.pos| && j < |s.pos| && i != j && PositiveOnPositive(sqrt)
    ensures var r := CollidePair(s, i, j, c, radius, sqrt);
      r.pos[i].Add(r.pos[j]) == s.pos[i].Add(s.pos[j]) &&
      r.vel[i].Add(r.vel[j]) == s.vel[i].Add(s.vel[j]) &&
      (forall k :: 0 <= k < |s.pos| && k != i && k != j ==> r.pos[k] == s.pos[k] && r.vel[k] == s.vel[k]) &&
      (!Colliding(s.pos[j].Sub(c), radius) ==> r == s)
  {
  }

  /**
   * The velocity exchange of a resolved pair is an equal-mass elastic collision: with the
   * unit normal `n`, the new normal components are the old ones swapped and the total
   * kinetic energy (sum of squared speeds) is unchanged.
   */
  lemma CollidePairElastic(s: State, i: nat, j: nat, c: Vec3, radius: real, sqrt: real -> real)
    requires |s.pos| == |s.vel| && i < |s.pos| && j < |s.pos| && i != j && IsSqrt(sqrt)
    requires Colliding(s.pos[j].Sub(c), radius)
    ensures var d := s.pos[j].Sub(c);
      var n := d.Div(sqrt(NormSq(d)));
      var r := CollidePair(s, i, j, c, radius, sqrt);
      NormSq(n) == 1.0 &&
      r.vel[i].Dot(n) == s.vel[j].Dot(n) && r.vel[j].Dot(n) == s.vel[i].Dot(n) &&
      NormSq(r.vel[i]) + NormSq(r.vel[j]) == NormSq(s.vel[i]) + NormSq(s.vel[j])
  {
    var d := s.pos[j].Sub(c);
    var dist := sqrt(NormSq(d));
    var n := d.Div(dist);
    UnitNormal(d, dist);
    var vi, vj := s.vel[i], s.vel[j];
    var vin, vjn := vi.Dot(n), vj.Dot(n);
    var wi := vi.Sub(n.Scale(vin)).Add(n.Scale(vjn));
    var wj := vj.Sub(n.Scale(vjn)).Add(n.Scale(vin));
    ExchangeNormal(vi, n, vin, vjn);
    ExchangeNormal(vj, n, vjn, vin);
  }

  /** Replacing the normal component `a` of `v` by `b` along a unit `n`. */
  lemma ExchangeNormal(v: Vec3, n: Vec3, a: real, b: real)
    requires NormSq(n) == 1.0 && a == v.Dot(n)
    ensures v.Sub(n.Scale(a)).Add(n.Scale(b)).Dot(n) == b
    ensures NormSq(v.Sub(n.Scale(a)).Add(n.Scale(b))) == NormSq(v) - a * a + b * b
  {
    var t := v.Sub(n.Scale(a));
    assert t.Dot(n) == a - a * NormSq(n);
    assert NormSq(t) == NormSq(v) - 2.0 * a * a + a * a * NormSq(n);
    var w := t.Add(n.Scale(b));
    assert NormSq(w) == NormSq(t) + 2.0 * b * t.Dot(n) + b * b * NormSq(n);
  }

  /**
   * When `i` has not moved since its centre was cached, a resolved pair ends exactly
   * `2 radius + 2e-4` apart, so at least `2 radius`.
   */
  lemma CollidePairSeparates(s: State, i: nat, j: nat, c: Vec3, radius: real, sqrt: real -> real)
    requires |s.pos| == |s.vel| && i < |s.pos| && j < |s.pos| && i != j && IsSqrt(sqrt)
    requires Colliding(s.pos[j].Sub(c), radius) && s.pos[i] == c && 0.0 <= radius
    ensures var r := CollidePair(s, i, j, c, radius, sqrt);
      DistSq(r.pos[j], r.pos[i]) == (2.0 * radius + 2.0 * PushSlack) * (2.0 * radius + 2.0 * PushSlack) &&
      DistSq(r.pos[j], r.pos[i]) >= (2.0 * radius) * (2.0 * radius)
  {
    var d := s.pos[j].Sub(c);
    var dist := sqrt(NormSq(d));
    NormSqNonNegative(d);
    var n := d.Div(dist);
    UnitNormal(d, dist);
    var push := (2.0 * radius - dist) * 0.5 + PushSlack;
    var r := CollidePair(s, i, j, c, radius, sqrt);
    assert d == n.Scale(dist);
    assert r.pos[j].Sub(r.pos[i]) == n.Scale(2.0 * radius + 2.0 * PushSlack);
    ScaledUnitLength(n, 2.0 * radius + 2.0 * PushSlack);
  }

  /** Sum of the first `n` vectors of `vs`. */
  function SumTo(vs: seq<Vec3>, n: nat): Vec3
    requires n <= |vs|
  {
    if n == 0 then Zero else SumTo(vs, n - 1).Add(vs[n - 1])
  }

  lemma {:induction false} SumUpdate(vs: seq<Vec3>, i: nat, a: Vec3, n: nat)
    requires i < n <= |vs|
    ensures SumTo(vs[i := a], n) == SumTo(vs, n).Sub(vs[i]).Add(a)
  {
    if n - 1 != i {
      SumUpdate(vs, i, a, n - 1);
    } else {
      SumUnchanged(vs, vs[i := a], n - 1);
    }
  }

  lemma {:induction false} SumUnchanged(vs: seq<Vec3>, ws: seq<Vec3>, n: nat)
    requires n <= |vs| && n <= |ws| && forall k :: 0 <= k < n ==> vs[k] == ws[k]
    ensures SumTo(vs, n) == SumTo(ws, n)
  {
    if n > 0 {
      SumUnchanged(vs, ws, n - 1);
    }
  }

  /** Changing two slots below `n` in a way that keeps their sum keeps the total. */
  lemma SumPairUpdate(vs: seq<Vec3>, ws: seq<Vec3>, i: nat, j: nat, n: nat)
    requires i < n && j < n && i != j && n <= |vs| && |ws| == |vs|
    requires ws == vs[i := ws[i]][j := ws[j]]
    requires ws[i].Add(ws[j]) == vs[i].Add(vs[j])
    ensures SumTo(ws, n) == SumTo(vs, n)
  {
    var us := vs[i := ws[i]];
    SumUpdate(vs, i, ws[i], n);
    SumUpdate(us, j, ws[j], n);
  }

  /** Total momentum and centroid: one pair keeps the sums over the active slots. */
  lemma CollidePairKeepsTotals(s: State, i: nat, j: nat, c: Vec3, n: nat, radius: real, sqrt: real -> real)
    requires Shaped(s, n) && i < n && j < n && i != j && PositiveOnPositive(sqrt)
    ensures SumTo(CollidePair(s, i, j, c, radius, sqrt).pos, n) == SumTo(s.pos, n)
    ensures SumTo(CollidePair(s, i, j, c, radius, sqrt).vel, n) == SumTo(s.vel, n)
  {
    var r := CollidePair(s, i, j, c, radius, sqrt);
    CollidePairConserves(s, i, j, c, radius, sqrt);
    if r != s {
      assert r.pos == s.pos[i := r.pos[i]][j := r.pos[j]];
      assert r.vel == s.vel[i := r.vel[i]][j := r.vel[j]];
      SumPairUpdate(s.pos, r.pos, i, j, n);
      SumPairUpdate(s.vel, r.vel, i, j, n);
    }
  }

  lemma {:induction false} CollideRowKeepsTotals(s: State, i: nat, j: nat, c: Vec3, n: nat, radius: real, sqrt: real -> real)
    requires Shaped(s, n) && i < j <= n && PositiveOnPositive(sqrt)
    ensures var r := CollideRow(s, i, j, c, n, radius, sqrt);
      SumTo(r.pos, n) == SumTo(s.pos, n) && SumTo(r.vel, n) == SumTo(s.vel, n) &&
      forall k :: n <= k < |s.pos| ==> r.pos[k] == s.pos[k] && r.vel[k] == s.vel[k]
    decreases n - j
  {
    if j < n {
      CollidePairKeepsTotals(s, i, j, c, n, radius, sqrt);
      CollidePairConserves(s, i, j, c, radius, sqrt);
      CollideRowKeepsTotals(CollidePair(s, i, j, c, radius, sqrt), i, j + 1, c, n, radius, sqrt);
    }
  }

  /**
   * The whole collision pass keeps the sum of the active positions (the centroid) and the
   * sum of the active velocities (the total momentum), and never touches a slot at or
   * above `n`.
   */
  lemma {:induction false} CollideKeepsTotals(s: State, i: nat, n: nat, radius: real, sqrt: real -> real)
    requires Shaped(s, n) && i <= n && PositiveOnPositive(sqrt)
    ensures var r := CollideFrom(s, i, n, radius, sqrt);
      SumTo(r.pos, n) == SumTo(s.pos, n) && SumTo(r.vel, n) == SumTo(s.vel, n) &&
      forall k :: n <= k < |s.pos| ==> r.pos[k] == s.pos[k] && r.vel[k] == s.vel[k]
    decreases n - i
  {
    if i < n {
      var s' := CollideRow(s, i, i + 1, s.pos[i], n, radius, sqrt);
      CollideRowKeepsTotals(s, i, i + 1, s.pos[i], n, radius, sqrt);
      CollideKeepsTotals(s', i + 1, n, radius, sqrt);
    }
  }

  // ---------------------------------------------------------------------------------------
  // `step` and `setMode`
  // ---------------------------------------------------------------------------------------

  /**
   * `step(dt)`: move and reflect every active particle, then one collision pass; `dts` is
   * the source's `dtScaled = dt * speed`.
   */
  function Step(s: State, n: nat, mode: string, prm: Params, dts: real, sqrt: real -> real): State
    requires Shaped(s, n) && prm.WellFormed() && PositiveOnPositive(sqrt)
  {
    Collide(MoveFrom(s, 0, n, mode, prm, dts, sqrt), n, prm.radius, sqrt)
  }

  /** After the first loop of `step`, every active particle is inside the container. */
  lemma MoveContains(s: State, n: nat, mode: string, prm: Params, dts: real, sqrt: real -> real)
    requires Shaped(s, n) && prm.WellFormed() && IsSqrt(sqrt)
    ensures forall k :: 0 <= k < n ==> Contained(mode, prm, MoveFrom(s, 0, n, mode, prm, dts, sqrt).pos[k])
  {
    var m := MoveFrom(s, 0, n, mode, prm, dts, sqrt);
    MoveFromSlots(s, 0, n, mode, prm, dts, sqrt);
    forall k | 0 <= k < n ensures Contained(mode, prm, m.pos[k]) {
      assert m.pos[k] == MoveParticle(mode, prm, dts, s.pos[k], s.vel[k], sqrt).0;
      ReflectContains(mode, prm, s.pos[k].Add(s.vel[k].Scale(dts)), s.vel[k], sqrt);
    }
  }

  /**
   * What `step` promises: after its first loop every active particle is inside the
   * container (the collision pass that follows may push it out again), the collision pass
   * keeps the totals of that intermediate state, and no slot at or above `n` changes.
   */
  lemma StepSpec(s: State, n: nat, mode: string, prm: Params, dts: real, sqrt: real -> real)
    requires Shaped(s, n) && prm.WellFormed() && IsSqrt(sqrt)
    ensures var m := MoveFrom(s, 0, n, mode, prm, dts, sqrt);
      var r := Step(s, n, mode, prm, dts, sqrt);
      (forall k :: 0 <= k < n ==> Contained(mode, prm, m.pos[k])) &&
      SumTo(r.pos, n) == SumTo(m.pos, n) && SumTo(r.vel, n) == SumTo(m.vel, n) &&
      |r.pos| == |s.pos| && |r.vel| == |s.vel| &&
      (forall k :: n <= k < |s.pos| ==> r.pos[k] == s.pos[k] && r.vel[k] == s.vel[k])
  {
    var m := MoveFrom(s, 0, n, mode, prm, dts, sqrt);
    MoveContains(s, n, mode, prm, dts, sqrt);
    MoveFromSlots(s, 0, n, mode, prm, dts, sqrt);
    CollideKeepsTotals(m, 0, n, prm.radius, sqrt);
  }

  /** `setMode`'s cube branch: `Math.max(-limit, Math.min(limit, x))` on every axis. */
  function ClampToCube(p: Vec3, limit: real): Vec3
  {
    Vec3(Max(-limit, Min(limit, p.x)), Max(-limit, Min(limit, p.y)), Max(-limit, Min(limit, p.z)))
  }

  /**
   * `setMode`'s sphere branch: `r = Math.hypot(x, y, z) || 1`, `scale = Math.min(1, limit / r)`,
   * and the position is multiplied by `scale`.
   */
  function ScaleIntoSphere(p: Vec3, limit: real, sqrt: real -> real): Vec3
  {
    var h := sqrt(NormSq(p));
    var r := if h == 0.0 then 1.0 else h;
    p.Scale(Min(1.0, limit / r))
  }

  /** What `setMode` does to one active position once the (normalised) mode is `mode`. */
  function Remap(mode: string, prm: Params, p: Vec3, sqrt: real -> real): Vec3
  {
    if mode == "cube" then ClampToCube(p, prm.CubeLimit()) else ScaleIntoSphere(p, prm.SphereLimit(), sqrt)
  }

  /**
   * The cube branch of `setMode`: afterwards every axis lies in [-limit, limit], a centre
   * already inside the cube is unchanged, and applying it twice is applying it once.
   */
  lemma ClampToCubeSpec(p: Vec3, limit: real)
    requires 0.0 <= limit
    ensures forall a :: 0 <= a < 3 ==> -limit <= ClampToCube(p, limit).At(a) <= limit
    ensures (forall a :: 0 <= a < 3 ==> -limit <= p.At(a) <= limit) ==> ClampToCube(p, limit) == p
    ensures ClampToCube(ClampToCube(p, limit), limit) == ClampToCube(p, limit)
  {
    if forall a :: 0 <= a < 3 ==> -limit <= p.At(a) <= limit {
      assert p.At(0) == p.x && p.At(1) == p.y && p.At(2) == p.z;
    }
  }

  /**
   * The sphere branch of `setMode`: afterwards the centre is within `limit` of the origin, a
   * centre already within `limit` is unchanged, and applying it twice is applying it once.
   */
  lemma ScaleIntoSphereSpec(p: Vec3, limit: real, sqrt: real -> real)
    requires 0.0 <= limit && IsSqrt(sqrt)
    ensures NormSq(ScaleIntoSphere(p, limit, sqrt)) <= limit * limit
    ensures NormSq(p) <= limit * limit ==> ScaleIntoSphere(p, limit, sqrt) == p
    ensures ScaleIntoSphere(ScaleIntoSphere(p, limit, sqrt), limit, sqrt) == ScaleIntoSphere(p, limit, sqrt)
  {
    NormSqNonNegative(p);
    var h := sqrt(NormSq(p));
    SquareMonotone(h, limit);
    var q := ScaleIntoSphere(p, limit, sqrt);
    if h <= limit {
      ScaleInside(p, limit, sqrt);
    } else {
      ScaleOutside(p, limit, sqrt);
      SqrtOfSquare(sqrt, limit);
      ScaleInside(q, limit, sqrt);
    }
  }

  /** A centre no further than `limit` from the origin is left where it is. */
  lemma ScaleInside(p: Vec3, limit: real, sqrt: real -> real)
    requires IsSqrt(sqrt) && sqrt(NormSq(p)) <= limit
    ensures ScaleIntoSphere(p, limit, sqrt) == p
  {
    NormSqNonNegative(p);
    var h := sqrt(NormSq(p));
    if h == 0.0 {
      ZeroNorm(p);
    } else {
      var k := limit / h;
      assert k * h == limit;
      assert 1.0 <= k by {
        if k < 1.0 {
          MulStrict(k, 1.0, h);
          assert false;
        }
      }
    }
  }

  /** A centre further than `limit` is scaled by `limit / r` onto the sphere of radius `limit`. */
  lemma ScaleOutside(p: Vec3, limit: real, sqrt: real -> real)
    requires IsSqrt(sqrt) && 0.0 <= limit && sqrt(NormSq(p)) > limit
    ensures NormSq(ScaleIntoSphere(p, limit, sqrt)) == limit * limit
  {
    NormSqNonNegative(p);
    var h := sqrt(NormSq(p));
    var k := limit / h;
    assert k * h == limit;
    assert k < 1.0 by {
      if k >= 1.0 {
        MulMonotone(1.0, k, h);
      }
    }
    assert ScaleIntoSphere(p, limit, sqrt) == p.Scale(k);
    NormSqScale(p, k);
    assert k * k * (h * h) == (k * h) * (k * h);
  }

  /**
   * `setMode` leaves every active position in its new container, keeps positions already
   * inside it, and is idempotent.
   */
  lemma RemapSpec(mode: string, prm: Params, p: Vec3, sqrt: real -> real)
    requires (mode == "cube" || mode == "sphere") && prm.WellFormed() && IsSqrt(sqrt)
    ensures Contained(mode, prm, Remap(mode, prm, p, sqrt))
    ensures Contained(mode, prm, p) ==> Remap(mode, prm, p, sqrt) == p
    ensures Remap(mode, prm, Remap(mode, prm, p, sqrt), sqrt) == Remap(mode, prm, p, sqrt)
  {
    if mode == "cube" {
      assert ReflectsAsCube(mode);
      ClampToCubeSpec(p, prm.CubeLimit());
    } else {
      assert !ReflectsAsCube(mode) && Remap(mode, prm, p, sqrt) == ScaleIntoSphere(p, prm.SphereLimit(), sqrt);
      ScaleIntoSphereSpec(p, prm.SphereLimit(), sqrt);
    }
  }

  /** `setMode`'s loop: every active position remapped, the others kept. */
  function RemapAll(ps: seq<Vec3>, n: nat, mode: string, prm: Params, sqrt: real -> real): seq<Vec3>
    requires n <= |ps|
  {
    seq(|ps|, k requires 0 <= k < |ps| => if k < n then Remap(mode, prm, ps[k], sqrt) else ps[k])
  }

  /** One more iteration of `setMode`'s loop remaps one more slot. */
  lemma RemapAllStep(ps: seq<Vec3>, i: nat, mode: string, prm: Params, sqrt: real -> real)
    requires i < |ps|
    ensures RemapAll(ps, i + 1, mode, prm, sqrt) == RemapAll(ps, i, mode, prm, sqrt)[i := Remap(mode, prm, ps[i], sqrt)]
  {
  }

  /**
   * `setMode` over the whole buffer: every active position ends in the new container, a
   * buffer whose active positions are already inside is unchanged, a second `setMode` with
   * the same mode changes nothing, and inactive slots are never touched.
   */
  lemma SetModeSpec(ps: seq<Vec3>, n: nat, mode: string, prm: Params, sqrt: real -> real)
    requires n <= |ps| && (mode == "cube" || mode == "sphere") && prm.WellFormed() && IsSqrt(sqrt)
    ensures var qs := RemapAll(ps, n, mode, prm, sqrt);
      |qs| == |ps| &&
      (forall k :: 0 <= k < n ==> Contained(mode, prm, qs[k])) &&
      (forall k :: n <= k < |ps| ==> qs[k] == ps[k]) &&
      ((forall k :: 0 <= k < n ==> Contained(mode, prm, ps[k])) ==> qs == ps) &&
      RemapAll(qs, n, mode, prm, sqrt) == qs
  {
    var qs := RemapAll(ps, n, mode, prm, sqrt);
    forall k | 0 <= k < n
      ensures Contained(mode, prm, qs[k])
      ensures Contained(mode, prm, ps[k]) ==> qs[k] == ps[k]
      ensures Remap(mode, prm, qs[k], sqrt) == qs[k]
    {
      RemapSpec(mode, prm, ps[k], sqrt);
    }
    if forall k :: 0 <= k < n ==> Contained(mode, prm, ps[k]) {
      assert qs == ps;
    }
    assert RemapAll(qs, n, mode, prm, sqrt) == qs;
  }
}
