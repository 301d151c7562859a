/**
 * The avatar explosion of src/features/avatar/explode.js: `explode` hides the avatar and
 * puts in its place up to a hundred small pieces, one at each of a sample of the mesh's
 * vertices, each with its own velocity; `tick` moves the pieces; `restore` brings the
 * avatar back. The closure variables are the fields of `Explosion`.
 *
 * `Math.random` draws are given as a sequence of numbers in [0, 1). The mesh is given by its
 * vertices after subdivision; the direction of each piece (`normalize().multiplyScalar(0.5)`,
 * with a random direction for a vertex at the origin) is a function parameter.
 */
module AvatarExplosion {
  import opened Geometry

  /** `TARGET_PIECES`. */
  const TargetPieces: int := 100

  /** No element occurs twice. */
  ghost predicate Distinct(s: seq<nat>)
  {
    forall a, b :: 0 <= a < b < |s| ==> s[a] != s[b]
  }

  /** Every draw is a value `Math.random` can return. */
  ghost predicate Draws(draws: seq<real>)
  {
    forall j :: 0 <= j < |draws| ==> 0.0 <= draws[j] < 1.0
  }

  /** `[...Array(n).keys()]`. */
  function Range(n: nat): (r: seq<nat>)
    ensures |r| == n && Distinct(r) && forall j :: 0 <= j < n ==> r[j] == j
    ensures forall x :: x in r ==> x < n
  {
    seq(n, j requires 0 <= j => j)
  }

  /** `Math.floor(draw * n)`: a position in a pool of `n` indices. */
  function Pick(draw: real, n: nat): real
  {
    draw * n as real
  }

  /** For a draw in [0, 1) and a non-empty pool, the pick is a position in the pool. */
  lemma PickInRange(draw: real, n: nat)
    requires 0.0 <= draw < 1.0 && n > 0
    ensures 0 <= Pick(draw, n).Floor < n
  {
    MulMonotone(0.0, draw, n as real);
    MulStrict(draw, 1.0, n as real);
  }

  /** `pool.splice(k, 1)`, as the pool it leaves. */
  function RemoveAt(pool: seq<nat>, k: nat): (r: seq<nat>)
    requires k < |pool|
    ensures |r| == |pool| - 1
    ensures forall j :: 0 <= j < k ==> r[j] == pool[j]
    ensures forall j :: k <= j < |r| ==> r[j] == pool[j + 1]
  {
    pool[..k] + pool[k + 1..]
  }

  /** Removing one element of a pool without repeats leaves a pool without repeats and without it. */
  lemma RemoveAtDistinct(pool: seq<nat>, k: nat)
    requires k < |pool| && Distinct(pool)
    ensures Distinct(RemoveAt(pool, k)) && pool[k] !in RemoveAt(pool, k)
    ensures forall x :: x in RemoveAt(pool, k) ==> x in pool
  {
    var r := RemoveAt(pool, k);
    forall x | x in r
      ensures x in pool && x != pool[k]
    {
      var j :| 0 <= j < |r| && r[j] == x;
      if j < k {
        assert pool[j] == x;
      } else {
        assert pool[j + 1] == x;
      }
    }
    forall a, b | 0 <= a < b < |r|
      ensures r[a] != r[b]
    {
      var pa := if a < k then a else a + 1;
      var pb := if b < k then b else b + 1;
      assert r[a] == pool[pa] && r[b] == pool[pb] && pa < pb;
    }
  }

  /** The indices the selection loop takes: one per draw, each removed from the pool once taken. */
  function Sample(pool: seq<nat>, draws: seq<real>): seq<nat>
    requires Draws(draws)
    decreases |draws|
  {
    if draws == [] || pool == [] then []
    else
      var k := Pick(draws[0], |pool|).Floor;
      PickInRange(draws[0], |pool|);
      [pool[k]] + Sample(RemoveAt(pool, k), draws[1..])
  }

  /** A sample has one element per draw while the pool lasts, all from the pool, none repeated. */
  lemma {:induction false} SampleDistinct(pool: seq<nat>, draws: seq<real>)
    requires Draws(draws) && Distinct(pool)
    ensures |Sample(pool, draws)| == (if |draws| < |pool| then |draws| else |pool|)
    ensures Distinct(Sample(pool, draws))
    ensures forall x :: x in Sample(pool, draws) ==> x in pool
  {
    if draws != [] && pool != [] {
      var k := Pick(draws[0], |pool|).Floor;
      PickInRange(draws[0], |pool|);
      var rest := RemoveAt(pool, k);
      RemoveAtDistinct(pool, k);
      SampleDistinct(rest, draws[1..]);
      var s := Sample(pool, draws);
      assert s == [pool[k]] + Sample(rest, draws[1..]);
      forall a, b | 0 <= a < b < |s|
        ensures s[a] != s[b]
      {
        assert s[b] == Sample(rest, draws[1..])[b - 1];
        assert s[b] in Sample(rest, draws[1..]);
        if a > 0 {
          assert s[a] == Sample(rest, draws[1..])[a - 1];
        }
      }
    }
  }

  /** The drawing loop: each draw picks a position in what is left of the pool and splices it out. */
  method SpliceSample(pool: seq<nat>, want: seq<real>) returns (chosen: seq<nat>)
    requires Draws(want) && Distinct(pool) && |want| <= |pool|
    ensures chosen == Sample(pool, want)
  {
    chosen := [];
    var indices := pool;
    for i := 0 to |want|
      invariant |indices| == |pool| - i && Distinct(indices)
      invariant chosen + Sample(indices, want[i..]) == Sample(pool, want)
    {
      var idx := Pick(want[i], |indices|).Floor;
      PickInRange(want[i], |indices|);
      assert want[i..][0] == want[i] && want[i..][1..] == want[i + 1..];
      var vi := indices[idx];
      RemoveAtDistinct(indices, idx);
      indices := RemoveAt(indices, idx);
      chosen := chosen + [vi];
    }
    assert want[|want|..] == [];
  }

  /**
   * The vertex indices `explode` uses: a hundred drawn without replacement from all of them
   * when there are more than a hundred, else every index in order.
   */
  ghost function Chosen(count: nat, draws: seq<real>): (r: seq<nat>)
    requires Draws(draws) && (count > TargetPieces ==> |draws| >= TargetPieces)
    ensures |r| == (if count > TargetPieces then TargetPieces else count)
    ensures Distinct(r) && forall j :: 0 <= j < |r| ==> r[j] < count
  {
    if count > TargetPieces then
      SampleDistinct(Range(count), draws[..TargetPieces]);
      var r := Sample(Range(count), draws[..TargetPieces]);
      assert forall j :: 0 <= j < |r| ==> r[j] in Range(count);
      r
    else Range(count)
  }

  /**
   * The index selection of `collectVertices`: with more than a hundred vertices, a hundred
   * are drawn without replacement by splicing each drawn index out of the pool; otherwise
   * all of them, in order.
   */
  method SelectVertices(count: nat, draws: seq<real>) returns (chosen: seq<nat>)
    requires Draws(draws) && (count > TargetPieces ==> |draws| >= TargetPieces)
    ensures count > TargetPieces ==> chosen == Sample(Range(count), draws[..TargetPieces])
    ensures count <= TargetPieces ==> chosen == Range(count)
    ensures |chosen| == (if count > TargetPieces then TargetPieces else count)
    ensures Distinct(chosen) && forall j :: 0 <= j < |chosen| ==> chosen[j] < count
    ensures chosen == Chosen(count, draws)
  {
    if count > TargetPieces {
      var want := draws[..TargetPieces];
      chosen := SpliceSample(Range(count), want);
      SampleDistinct(Range(count), want);
      forall j | 0 <= j < |chosen|
        ensures chosen[j] < count
      {
        assert chosen[j] in Range(count);
      }
    } else {
      chosen := [];
      for i := 0 to count
        invariant chosen == Range(i)
      {
        chosen := chosen + [i];
      }
    }
  }

  /** The pieces after `tick(dt)`: each moved by its velocity times `dt`. */
  function Moved(pieces: seq<Vec3>, velocity: seq<Vec3>, dt: real): (r: seq<Vec3>)
    requires |velocity| == |pieces|
    ensures |r| == |pieces|
  {
    seq(|pieces|, i requires 0 <= i < |pieces| => pieces[i].Add(velocity[i].Scale(dt)))
  }

  /** A tick of length 0 leaves every piece where it is; two ticks add up to one of their total length. */
  lemma MovedAdds(pieces: seq<Vec3>, velocity: seq<Vec3>, dt1: real, dt2: real)
    requires |velocity| == |pieces|
    ensures Moved(pieces, velocity, 0.0) == pieces
    ensures Moved(Moved(pieces, velocity, dt1), velocity, dt2) == Moved(pieces, velocity, dt1 + dt2)
  {
    var m := Moved(Moved(pieces, velocity, dt1), velocity, dt2);
    forall i | 0 <= i < |pieces|
      ensures m[i] == Moved(pieces, velocity, dt1 + dt2)[i]
    {
      var v := velocity[i];
      assert v.x * dt1 + v.x * dt2 == v.x * (dt1 + dt2);
      assert v.y * dt1 + v.y * dt2 == v.y * (dt1 + dt2);
      assert v.z * dt1 + v.z * dt2 == v.z * (dt1 + dt2);
    }
  }

  /**
   * The `forEach` of `explode`: a piece at each selected vertex, and one velocity pushed per
   * piece, so that the two lists have the same length.
   */
  method BuildPieces(vertices: seq<Vec3>, chosen: seq<nat>, heading: Vec3 -> Vec3)
    returns (placed: seq<Vec3>, pushed: seq<Vec3>)
    requires forall j :: 0 <= j < |chosen| ==> chosen[j] < |vertices|
    ensures |placed| == |pushed| == |chosen|
    ensures forall j :: 0 <= j < |chosen| ==> placed[j] == vertices[chosen[j]]
    ensures forall j :: 0 <= j < |chosen| ==> pushed[j] == heading(placed[j])
  {
    placed, pushed := [], [];
    for i := 0 to |chosen|
      invariant |placed| == |pushed| == i
      invariant forall j :: 0 <= j < i ==> placed[j] == vertices[chosen[j]]
      invariant forall j :: 0 <= j < i ==> pushed[j] == heading(placed[j])
    {
      placed := placed + [vertices[chosen[i]]];
      pushed := pushed + [heading(vertices[chosen[i]])];
    }
  }

  class Explosion {
    /** The avatar's position, which the group copies. */
    const avatarPosition: Vec3
    var avatarRotation: Vec3
    var avatarVisible: bool
    /** `isExploded`. */
    var exploded: bool
    /** Whether `explodeGroup` exists and is in the scene, its pose, and its pieces' positions. */
    var hasGroup: bool
    var groupPosition: Vec3
    var groupRotation: Vec3
    var pieces: seq<Vec3>
    /** `pieceVelocity`. */
    var velocity: seq<Vec3>

    /** While exploded the group stands in for the hidden avatar, with one velocity per piece. */
    ghost predicate Valid()
      reads this
    {
      (exploded <==> hasGroup) &&
      (exploded ==> !avatarVisible) &&
      (!exploded ==> pieces == [] && velocity == []) &&
      |velocity| == |pieces| <= TargetPieces
    }

    /** `createAvatarExplosion`: not exploded, no group, no velocities. */
    constructor (position: Vec3, rotation: Vec3, visible: bool)
      ensures Valid() && !exploded && !hasGroup && pieces == [] && velocity == []
      ensures avatarPosition == position && avatarRotation == rotation && avatarVisible == visible
    {
      avatarPosition, avatarRotation, avatarVisible := position, rotation, visible;
      exploded, hasGroup := false, false;
      groupPosition, groupRotation := position, rotation;
      pieces, velocity := [], [];
    }

    /**
     * `explode`: ignored while exploded; otherwise a group at the avatar's pose with one
     * piece at each selected vertex and one velocity pushed per piece, and the avatar hidden.
     */
    method Explode(vertices: seq<Vec3>, draws: seq<real>, heading: Vec3 -> Vec3)
      requires Valid()
      requires Draws(draws) && (|vertices| > TargetPieces ==> |draws| >= TargetPieces)
      modifies this
      ensures Valid()
      ensures old(exploded) ==> unchanged(this)
      ensures !old(exploded) ==>
        exploded && hasGroup && !avatarVisible &&
        groupPosition == avatarPosition && groupRotation == avatarRotation &&
        avatarRotation == old(avatarRotation) &&
        |pieces| == (if |vertices| > TargetPieces then TargetPieces else |vertices|) &&
        (|vertices| <= TargetPieces ==> pieces == vertices) &&
        (forall i :: 0 <= i < |pieces| ==> pieces[i] in vertices) &&
        (forall i :: 0 <= i < |pieces| ==> velocity[i] == heading(pieces[i])) &&
        var chosen := Chosen(|vertices|, draws);
        |chosen| == |pieces| && forall i :: 0 <= i < |pieces| ==> pieces[i] == vertices[chosen[i]]
    {
      if exploded {
        return;
      }
      exploded := true;
      hasGroup := true;
      groupPosition, groupRotation := avatarPosition, avatarRotation;
      var chosen := SelectVertices(|vertices|, draws);
      pieces, velocity := BuildPieces(vertices, chosen, heading);
      avatarVisible := false;
    }

    /** `restore`: ignored unless exploded; otherwise the avatar back, upright and visible, and the group gone. */
    method Restore()
      requires Valid()
      modifies this
      ensures Valid()
      ensures !old(exploded) ==> unchanged(this)
      ensures old(exploded) ==>
        !exploded && !hasGroup && avatarVisible && avatarRotation == Vec3(0.0, 0.0, 0.0) &&
        pieces == [] && velocity == []
    {
      if !exploded {
        return;
      }
      avatarRotation := Vec3(0.0, 0.0, 0.0);
      avatarVisible := true;
      hasGroup := false;
      pieces := [];
      velocity := [];
      exploded := false;
    }

    /** `tick(dt)`: while exploded, each piece moves by its own velocity times `dt`. */
    method Tick(dt: real)
      requires Valid()
      modifies this`pieces
      ensures Valid()
      ensures exploded ==> pieces == Moved(old(pieces), velocity, dt)
      ensures !exploded ==> pieces == old(pieces)
    {
      if !(exploded && hasGroup) {
        return;
      }
      for i := 0 to |pieces|
        invariant |pieces| == |old(pieces)|
        invariant forall j :: 0 <= j < i ==> pieces[j] == old(pieces)[j].Add(velocity[j].Scale(dt))
        invariant forall j :: i <= j < |pieces| ==> pieces[j] == old(pieces)[j]
      {
        pieces := pieces[i := pieces[i].Add(velocity[i].Scale(dt))];
      }
    }
  }
}
