/**
 * The particle simulation of the site background, as the class `BackgroundPhysics`
 * (src/features/background/physics.js) and its older copy `BgPhysics`
 * (src/core/bg-physics.js, the same class without `setMode` and `attachMesh`).
 *
 * The source keeps positions and velocities in two flat `Float32Array`s of length
 * `maxCount * 3`; here each is an array of `Vec3`, slot `i` standing for the three floats
 * at `i * 3`. Every method is proved against the value-level function of PhysicsSpec that
 * says what it does to the buffers.
 */
module Physics {
  import opened Geometry
  import opened Wrappers
  import opened PhysicsSpec

  /** The `y` rotation `sync` adds to its scratch object before writing each instance. */
  const DummySpin: real := 0.00005

  /**
   * The instanced mesh the simulation draws into: how many instances are shown, the
   * matrix written for each instance (kept as the position and `y` rotation it encodes) and
   * the `needsUpdate` flag of its instance buffer.
   */
  class Mesh {
    var count: nat
    var matrices: map<nat, (Vec3, real)>
    var needsUpdate: bool

    constructor (count: nat)
      ensures this.count == count && matrices == map[] && !needsUpdate
    {
      this.count := count;
      matrices := map[];
      needsUpdate := false;
    }
  }

  class Particles {
    var mesh: Mesh
    const maxCount: nat
    var count: nat
    const bounds: real
    const radius: real
    const speed: real
    const half: real
    /** The raw mode string: placement tests `== "sphere"`, reflection tests `== "cube"`. */
    var mode: string
    const sphereRadius: real
    const pos: array<Vec3>
    const vel: array<Vec3>
    /** The accumulated `rotation.y` of the scratch object `sync` builds matrices with. */
    var dummyRotationY: real

    ghost predicate Valid()
      reads this
    {
      pos.Length == maxCount && vel.Length == maxCount && pos != vel &&
      count <= maxCount &&
      0.0 <= radius && 2.0 * radius <= bounds &&
      half == bounds / 2.0 && sphereRadius == half
    }

    function Prm(): Params
      reads this
    {
      Params(half, radius, speed)
    }

    function Snapshot(): State
      reads this, pos, vel
    {
      State(pos[..], vel[..])
    }

    /**
     * `new BackgroundPhysics(THREE, mesh, cfg)`: `maxCount` defaults to `count`, `mode` to
     * `'cube'`, `half = bounds / 2 = sphereRadius`; then `_init` places the `count` balls
     * one after the other from the random stream `rng`.
     */
    constructor (mesh: Mesh, count: nat, maxCount: Option<nat>, bounds: real, radius: real, speed: real,
                 mode: Option<string>, rng: seq<Draw3>)
      requires count <= maxCount.GetOr(count)
      requires 0.0 <= radius && 2.0 * radius <= bounds
      requires IsStream(rng)
      ensures Valid() && fresh(pos) && fresh(vel)
      ensures this.mesh == mesh && this.maxCount == maxCount.GetOr(count)
      ensures this.bounds == bounds && this.radius == radius && this.speed == speed
      ensures this.half == bounds / 2.0 && this.sphereRadius == bounds / 2.0
      ensures this.mode == mode.GetOr("cube") && dummyRotationY == 0.0
      ensures var zeros := seq(this.maxCount, _ => Zero);
        (Snapshot(), this.count) ==
          Populate(State(zeros, zeros), 0, count, rng, PlacesInSphere(this.mode), this.half - radius, radius)
      ensures NonOverlapping(pos[..], this.count, radius)
    {
      this.mesh := mesh;
      var mc := maxCount.GetOr(count);
      this.maxCount := mc;
      this.count := 0;
      this.bounds := bounds;
      this.radius := radius;
      this.speed := speed;
      this.half := bounds / 2.0;
      this.mode := mode.GetOr("cube");
      this.sphereRadius := bounds / 2.0;
      this.pos := new Vec3[mc](_ => Zero);
      this.vel := new Vec3[mc](_ => Zero);
      this.dummyRotationY := 0.0;
      new;
      assert pos[..] == seq(mc, _ => Zero) && vel[..] == seq(mc, _ => Zero);
      Init(count, rng);
    }

    /**
     * `_init`: place slots `0 .. n-1` in order. A placement that runs out of random draws
     * ends the loop; `count` becomes the number of slots placed.
     */
    method Init(n: nat, rng: seq<Draw3>)
      requires Valid() && count == 0 && n <= maxCount && IsStream(rng)
      modifies this`count, pos, vel
      ensures Valid()
      ensures (Snapshot(), count) ==
        Populate(old(Snapshot()), 0, n, rng, PlacesInSphere(mode), half - radius, radius)
      ensures NonOverlapping(pos[..], count, radius)
    {
      var i := 0;
      var rest := rng;
      while i < n
        invariant 0 <= i <= n && count == 0 && IsStream(rest)
        invariant Populate(Snapshot(), i, n, rest, PlacesInSphere(mode), half - radius, radius) ==
          Populate(old(Snapshot()), 0, n, rng, PlacesInSphere(mode), half - radius, radius)
        invariant NonOverlapping(pos[..], i, radius)
      {
        ghost var before := Snapshot();
        var placed, used := PlaceRandom(i, rest);
        if !placed {
          break;
        }
        PlacementKeepsNonOverlapping(before.pos, i, pos[i], PlacesInSphere(mode), half - radius, radius);
        rest := rest[used..];
        i := i + 1;
      }
      count := i;
    }

    /**
     * `_placeRandom(i)`: draw candidates in the box until one passes the in-sphere test (in
     * sphere mode) and the overlap test against slots `0 .. i-1`, store it in slot `i`, and
     * draw its velocity in [-1, 1]^3. Returns whether the stream sufficed and how many draws
     * were used.
     */
    method PlaceRandom(i: nat, rng: seq<Draw3>) returns (placed: bool, used: nat)
      requires Valid() && i < maxCount && IsStream(rng)
      modifies pos, vel
      ensures var res := Sample(old(pos[..]), i, rng, PlacesInSphere(mode), half - radius, radius);
        placed == res.Some? &&
        (placed ==> used == res.value.used &&
                    pos[..] == old(pos[..])[i := res.value.p] && vel[..] == old(vel[..])[i := res.value.v]) &&
        (!placed ==> used == |rng| && pos[..] == old(pos[..]) && vel[..] == old(vel[..]))
    {
      var r := radius;
      var limit := half - r;
      var sphere := mode == "sphere";
      ghost var ps := pos[..];
      placed := false;
      used := 0;
      var p := Zero;
      while !placed && used < |rng|
        invariant used <= |rng| && pos[..] == ps && vel[..] == old(vel[..])
        invariant !placed ==>
          Sample(ps, i, rng, sphere, limit, r) == AddUsed(Sample(ps, i, rng[used..], sphere, limit, r), used)
        invariant placed ==>
          1 <= used && p == RandVec(-limit, limit, rng[used - 1]) &&
          Sample(ps, i, rng, sphere, limit, r) == AddUsed(Sample(ps, i, rng[used - 1..], sphere, limit, r), used - 1) &&
          Accepts(ps, i, p, sphere, limit, r)
        decreases |rng| - used
      {
        p := RandVec(-limit, limit, rng[used]);
        SampleAdvance(ps, i, rng, used, sphere, limit, r);
        placed := Acceptable(i, p, sphere, limit);
        used := used + 1;
      }
      if placed {
        SampleStep(ps, i, rng, used - 1, sphere, limit, r);
      }
      if placed && used < |rng| {
        pos[i] := p;
        vel[i] := RandVec(-1.0, 1.0, rng[used]);
        used := used + 1;
      } else {
        placed := false;
        used := |rng|;
      }
    }

    /** The acceptance test of one candidate: the in-sphere test in sphere mode, then the overlap test. */
    method Acceptable(i: nat, p: Vec3, sphere: bool, limit: real) returns (ok: bool)
      requires Valid() && i <= maxCount
      ensures ok == Accepts(pos[..], i, p, sphere, limit, radius)
    {
      if sphere && NormSq(p) > limit * limit {
        return false;
      }
      ok := ClearOfBelow(i, p);
    }

    /**
     * The overlap test of `_placeRandom`: `placed = true`, then `false` (and stop) at the
     * first slot below `i` closer to `p` than `2 radius`.
     */
    method ClearOfBelow(i: nat, p: Vec3) returns (placed: bool)
      requires Valid() && i <= maxCount
      ensures placed <==> forall j :: 0 <= j < i ==> DistSq(p, pos[j]) >= (2.0 * radius) * (2.0 * radius)
    {
      var r := radius;
      placed := true;
      var j := 0;
      while j < i
        invariant 0 <= j <= i
        invariant forall m :: 0 <= m < j ==> DistSq(p, pos[m]) >= (2.0 * r) * (2.0 * r)
      {
        if DistSq(p, pos[j]) < (2.0 * r) * (2.0 * r) {
          placed := false;
          break;
        }
        j := j + 1;
      }
    }

    /**
     * `addBall`: at capacity nothing happens; otherwise slot `count` is placed at random and
     * `count` grows by one. A non-overlapping population stays non-overlapping.
     */
    method AddBall(rng: seq<Draw3>) returns (used: nat)
      requires Valid() && IsStream(rng)
      modifies this`count, pos, vel
      ensures Valid()
      ensures old(count) >= maxCount ==>
        count == old(count) && used == 0 && pos[..] == old(pos[..]) && vel[..] == old(vel[..])
      ensures old(count) < maxCount ==>
        match Sample(old(pos[..]), old(count), rng, PlacesInSphere(mode), half - radius, radius)
        case None => count == old(count) && pos[..] == old(pos[..]) && vel[..] == old(vel[..])
        case Some(pl) =>
          count == old(count) + 1 && used == pl.used &&
          pos[..] == old(pos[..])[old(count) := pl.p] && vel[..] == old(vel[..])[old(count) := pl.v]
      ensures NonOverlapping(old(pos[..]), old(count), radius) ==> NonOverlapping(pos[..], count, radius)
    {
      used := 0;
      if count >= maxCount {
        return;
      }
      ghost var before := pos[..];
      var placed;
      placed, used := PlaceRandom(count, rng);
      if placed {
        if NonOverlapping(before, count, radius) {
          PlacementKeepsNonOverlapping(before, count, pos[count], PlacesInSphere(mode), half - radius, radius);
        }
        count := count + 1;
      }
    }

    /** `removeBall`: one fewer active ball, never below zero; the buffers are kept. */
    method RemoveBall()
      requires Valid()
      modifies this`count
      ensures Valid()
      ensures count == if old(count) == 0 then 0 else old(count) - 1
    {
      if count <= 0 {
        return;
      }
      count := count - 1;
    }

    /** `_reflect(i3)`: the wall reflection of slot `i`, and nothing else. */
    method Reflect(i: nat, sqrt: real -> real)
      requires Valid() && i < maxCount
      modifies pos, vel
      ensures var (p, v) := PhysicsSpec.Reflect(mode, Prm(), old(pos[i]), old(vel[i]), sqrt);
        pos[..] == old(pos[..])[i := p] && vel[..] == old(vel[..])[i := v]
    {
      if mode == "cube" {
        var limit := half - radius;
        var axis := 0;
        while axis < 3
          invariant 0 <= axis <= 3
          invariant ReflectAxes(pos[i], vel[i], limit, axis) == ReflectCube(old(pos[i]), old(vel[i]), limit)
          invariant pos[..] == old(pos[..])[i := pos[i]] && vel[..] == old(vel[..])[i := vel[i]]
        {
          var p := pos[i].At(axis);
          var v := vel[i].At(axis);
          if p > limit {
            pos[i] := pos[i].With(axis, limit);
            vel[i] := vel[i].With(axis, -Abs(v));
          } else if p < -limit {
            pos[i] := pos[i].With(axis, -limit);
            vel[i] := vel[i].With(axis, Abs(v));
          } else {
            WithAt(pos[i], axis);
            WithAt(vel[i], axis);
          }
          axis := axis + 1;
        }
      } else {
        var limit := sphereRadius - radius;
        var p := pos[i];
        var r := sqrt(NormSq(p));
        if r > limit {
          var n := p.Div(r);
          pos[i] := n.Scale(limit);
          var vn := vel[i].Dot(n);
          vel[i] := vel[i].Sub(n.Scale(2.0 * vn));
        }
      }
    }

    /** `_collide`: the pairwise pass over the active slots. */
    method Collide(sqrt: real -> real)
      requires Valid() && PositiveOnPositive(sqrt)
      modifies pos, vel
      ensures Snapshot() == PhysicsSpec.Collide(old(Snapshot()), count, radius, sqrt)
    {
      var r2 := (2.0 * radius) * (2.0 * radius);
      var i := 0;
      while i < count
        invariant 0 <= i <= count
        invariant CollideFrom(Snapshot(), i, count, radius, sqrt) == CollideFrom(old(Snapshot()), 0, count, radius, sqrt)
      {
        var c := pos[i];
        ghost var rowStart := Snapshot();
        var j := i + 1;
        while j < count
          invariant i + 1 <= j <= count
          invariant CollideRow(Snapshot(), i, j, c, count, radius, sqrt) == CollideRow(rowStart, i, i + 1, c, count, radius, sqrt)
        {
          CollidePairInPlace(i, j, c, r2, sqrt);
          j := j + 1;
        }
        i := i + 1;
      }
    }

    /**
     * The body of `_collide`'s inner loop for the pair (i, j), where `c` is the centre of `i`
     * cached when its row began and `r2 = (2 radius)^2`.
     */
    method CollidePairInPlace(i: nat, j: nat, c: Vec3, r2: real, sqrt: real -> real)
      requires Valid() && i < count && j < count && i != j && PositiveOnPositive(sqrt)
      requires r2 == (2.0 * radius) * (2.0 * radius)
      modifies pos, vel
      ensures Snapshot() == CollidePair(old(Snapshot()), i, j, c, radius, sqrt)
    {
      var d := pos[j].Sub(c);
      var d2 := NormSq(d);
      if d2 < r2 && d2 > 1e-9 {
        var dist := sqrt(d2);
        var n := d.Div(dist);
        var push := (2.0 * radius - dist) * 0.5 + 1e-4;
        pos[i] := pos[i].Sub(n.Scale(push));
        pos[j] := pos[j].Add(n.Scale(push));
        var vin := vel[i].Dot(n);
        var vjn := vel[j].Dot(n);
        vel[i] := vel[i].Sub(n.Scale(vin)).Add(n.Scale(vjn));
        vel[j] := vel[j].Sub(n.Scale(vjn)).Add(n.Scale(vin));
      }
    }

    /** `step(dt)`: integrate and reflect each active particle, then one collision pass. */
    method Step(dt: real, sqrt: real -> real)
      requires Valid() && PositiveOnPositive(sqrt)
      modifies pos, vel
      ensures Snapshot() == PhysicsSpec.Step(old(Snapshot()), count, mode, Prm(), dt * speed, sqrt)
    {
      var dts := dt * speed;
      var i := 0;
      while i < count
        invariant 0 <= i <= count
        invariant MoveFrom(Snapshot(), i, count, mode, Prm(), dts, sqrt) == MoveFrom(old(Snapshot()), 0, count, mode, Prm(), dts, sqrt)
      {
        ghost var s := Snapshot();
        pos[i] := pos[i].Add(vel[i].Scale(dts));
        Reflect(i, sqrt);
        assert Snapshot() == MoveAt(s, i, mode, Prm(), dts, sqrt);
        i := i + 1;
      }
      ghost var moved := Snapshot();
      Collide(sqrt);
    }

    /**
     * `setMode(name)`: the mode becomes `'sphere'` or `'cube'`, and every active position is
     * clamped into the cube or scaled into the sphere; velocities are kept.
     */
    method SetMode(name: string, sqrt: real -> real)
      requires Valid()
      modifies this`mode, pos
      ensures Valid() && mode == NormalizeMode(name)
      ensures pos[..] == RemapAll(old(pos[..]), count, mode, Prm(), sqrt)
    {
      mode := NormalizeMode(name);
      var i := 0;
      while i < count
        invariant 0 <= i <= count && mode == NormalizeMode(name)
        invariant pos[..] == RemapAll(old(pos[..]), i, mode, Prm(), sqrt)
      {
        assert pos[i] == old(pos[i]);
        RemapSlot(i, sqrt);
        RemapAllStep(old(pos[..]), i, mode, Prm(), sqrt);
        i := i + 1;
      }
    }

    /** The body of `setMode`'s loop for slot `i`, once the mode is set. */
    method RemapSlot(i: nat, sqrt: real -> real)
      requires Valid() && i < maxCount
      modifies pos
      ensures pos[..] == old(pos[..])[i := Remap(mode, Prm(), old(pos[i]), sqrt)]
    {
      var p := pos[i];
      if mode == "cube" {
        var limit := half - radius;
        pos[i] := Vec3(Max(-limit, Min(limit, p.x)), Max(-limit, Min(limit, p.y)), Max(-limit, Min(limit, p.z)));
      } else {
        var limit := sphereRadius - radius;
        var h := sqrt(NormSq(p));
        var r := if h == 0.0 then 1.0 else h;
        var scale := Min(1.0, limit / r);
        pos[i] := Vec3(p.x * scale, p.y * scale, p.z * scale);
        assert limit == Prm().SphereLimit();
        assert pos[i] == p.Scale(scale) == ScaleIntoSphere(p, Prm().SphereLimit(), sqrt);
      }
    }

    /**
     * `sync`: for each active slot the scratch object's `y` rotation grows by `DummySpin`
     * and the instance matrix of that slot is written from its position; then the mesh shows
     * `count` instances and its instance buffer is flagged for upload.
     */
    method Sync()
      requires Valid()
      modifies mesh, this`dummyRotationY
      ensures dummyRotationY == old(dummyRotationY) + count as real * DummySpin
      ensures mesh.count == count && mesh.needsUpdate
      ensures forall k: nat :: k in mesh.matrices <==> k in old(mesh.matrices) || k < count
      ensures forall k :: 0 <= k < count ==>
        k in mesh.matrices && mesh.matrices[k] == (pos[k], old(dummyRotationY) + (k + 1) as real * DummySpin)
      ensures forall k :: count <= k && k in old(mesh.matrices) ==>
        k in mesh.matrices && mesh.matrices[k] == old(mesh.matrices[k])
    {
      var i := 0;
      while i < count
        invariant 0 <= i <= count
        invariant dummyRotationY == old(dummyRotationY) + i as real * DummySpin
        invariant forall k: nat :: k in mesh.matrices <==> k in old(mesh.matrices) || k < i
        invariant forall k :: 0 <= k < i ==>
          k in mesh.matrices && mesh.matrices[k] == (pos[k], old(dummyRotationY) + (k + 1) as real * DummySpin)
        invariant forall k :: i <= k && k in old(mesh.matrices) ==>
          k in mesh.matrices && mesh.matrices[k] == old(mesh.matrices[k])
      {
        dummyRotationY := dummyRotationY + DummySpin;
        mesh.matrices := mesh.matrices[i := (pos[i], dummyRotationY)];
        i := i + 1;
      }
      mesh.count := count;
      mesh.needsUpdate := true;
    }

    /** `attachMesh(mesh)`: draw into `m` from now on, showing `count` instances. */
    method AttachMesh(m: Mesh)
      requires Valid()
      modifies this`mesh, m`count
      ensures Valid() && mesh == m && m.count == count
    {
      mesh := m;
      mesh.count := count;
    }
  }
}
