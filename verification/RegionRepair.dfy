/** Cutting invalid configurations out of a convex region.

    A sample of the region that violates the constraints is walked towards the centre of the
    region's largest inscribed ellipsoid until it becomes valid; the half-space through that point,
    moved inwards by a margin, is then added to the region. Solvers and collision queries are
    functions of an environment. Points are exact. */
module RegionRepair {
  import opened RealArithmetic
  import opened Vectors
  import opened Wrappers

  datatype HalfSpace = HalfSpace(a: Vector, b: real)

  type Region = seq<HalfSpace>

  datatype Ellipsoid = Ellipsoid(a: Matrix, center: Vector)

  datatype ValidConfigMethod = Optimize | Edge

  datatype Error = CenterInvalid | RegionEmpty

  /** What the planner asks of its libraries and options. */
  datatype Environment = Environment(
    n: nat,
    valid: Vector -> bool,
    norm: Vector -> real,
    inscribed: Region -> Ellipsoid,
    closestValid: Vector -> Option<Vector>,
    linearized: Vector -> Region,
    isEmpty: Region -> bool,
    margin: real,
    validConfigMethod: ValidConfigMethod,
    viaEllipsoid: bool)

  const STEP := 0.001

  predicate Fits(region: Region, n: nat) {
    forall i :: 0 <= i < |region| ==> |region[i].a| == n
  }

  ghost predicate Sensible(env: Environment) {
    && (forall v :: IsNorm(env.norm(v), v))
    && (forall r :: PositiveDefinite(env.inscribed(r).a, env.n) && |env.inscribed(r).center| == env.n)
    && (forall q :: env.closestValid(q).Some? && |q| == env.n ==> |env.closestValid(q).value| == env.n)
    && (forall q :: Fits(env.linearized(q), env.n))
  }

  predicate InHalfSpace(h: HalfSpace, q: Vector)
    requires |h.a| == |q|
  {
    Dot(h.a, q) <= h.b
  }

  predicate PointInSet(region: Region, q: Vector)
    requires Fits(region, |q|)
  {
    forall i :: 0 <= i < |region| ==> InHalfSpace(region[i], q)
  }

  ghost predicate Subset(r: Region, s: Region, n: nat)
    requires Fits(r, n) && Fits(s, n)
  {
    forall q: Vector :: |q| == n && PointInSet(r, q) ==> PointInSet(s, q)
  }

  lemma MoreHalfSpaces(r: Region, s: Region, n: nat)
    requires Fits(r, n) && Fits(s, n)
    ensures Fits(r + s, n) && Subset(r + s, r, n)
    ensures forall q: Vector :: |q| == n ==> (PointInSet(r + s, q) <==> PointInSet(r, q) && PointInSet(s, q))
  {
    forall q: Vector | |q| == n ensures PointInSet(r + s, q) <==> PointInSet(r, q) && PointInSet(s, q) {
      assert forall i :: 0 <= i < |r| ==> (r + s)[i] == r[i];
      assert forall i :: 0 <= i < |s| ==> (r + s)[|r| + i] == s[i];
    }
  }

  // ---------- The edge walk ----------

  /** The proportion of the segment covered by i steps. */
  function Proportion(i: nat, distance: real): real
    requires distance > 0.0
  {
    (i as real) * STEP / distance
  }

  /** The i-th configuration that the walk examines. */
  ghost function Examined(q: Vector, c: Vector, i: nat, distance: real): Vector
    requires |q| == |c| && distance > 0.0
  {
    Along(q, c, Proportion(i, distance))
  }

  /** The walk's answer is the first valid one of the configurations it examines before the end. */
  ghost predicate FirstValid(env: Environment, q: Vector, c: Vector, distance: real, i: nat)
    requires |q| == |c| && distance > 0.0
  {
    && (i as real) * STEP < distance
    && env.valid(Examined(q, c, i, distance))
    && forall k: nat :: k < i ==> !env.valid(Examined(q, c, k, distance))
  }

  /** No configuration that the walk may examine is valid. */
  ghost predicate Blind(env: Environment, q: Vector, c: Vector, distance: real)
    requires |q| == |c|
  {
    if distance < STEP then !env.valid(q)
    else forall k: nat :: (k as real) * STEP < distance ==> !env.valid(Examined(q, c, k, distance))
  }

  /** The first valid configuration of a walk that meets one. */
  lemma {:induction false} LeastValid(env: Environment, q: Vector, c: Vector, distance: real, k: nat) returns (i: nat)
    requires |q| == |c| && distance > 0.0
    requires (k as real) * STEP < distance && env.valid(Examined(q, c, k, distance))
    ensures FirstValid(env, q, c, distance, i)
    decreases k
  {
    i := k;
    if j: nat :| j < k && env.valid(Examined(q, c, j, distance)) {
      i := LeastValid(env, q, c, distance, j);
    }
  }

  lemma WalkMeetsFirst(env: Environment, q: Vector, c: Vector, distance: real)
    requires |q| == |c| && distance >= STEP && !Blind(env, q, c, distance)
    ensures exists i: nat :: FirstValid(env, q, c, distance, i)
  {
    var k: nat :| (k as real) * STEP < distance && env.valid(Examined(q, c, k, distance));
    var i := LeastValid(env, q, c, distance, k);
  }

  /** What the walk from q towards c finds: the first valid configuration that it examines. */
  ghost function Walk(env: Environment, q: Vector, c: Vector): (r: Option<Vector>)
    requires |q| == |c|
    ensures r.Some? ==> |r.value| == |q| && env.valid(r.value)
    ensures r == None <==> Blind(env, q, c, env.norm(Sub(c, q)))
  {
    var distance := env.norm(Sub(c, q));
    if distance < STEP then
      if env.valid(q) then Some(q) else None
    else if Blind(env, q, c, distance) then None
    else
      WalkMeetsFirst(env, q, c, distance);
      var i: nat :| FirstValid(env, q, c, distance, i);
      Some(Examined(q, c, i, distance))
  }

  /** A walk that starts at a valid configuration stays there. */
  lemma WalkOfValid(env: Environment, q: Vector, c: Vector)
    requires |q| == |c| && env.valid(q)
    ensures Walk(env, q, c) == Some(q)
  {
    var distance := env.norm(Sub(c, q));
    if distance >= STEP {
      WalkStart(q, c, distance);
      assert FirstValid(env, q, c, distance, 0);
    }
  }

  lemma QuotientBounds(x: real, d: real)
    requires d > 0.0 && x >= 0.0
    ensures x / d >= 0.0
    ensures x > 0.0 ==> x / d > 0.0
    ensures x < d ==> x / d < 1.0
    ensures Times(x / d, d) == x
  {
    assert x / d >= 1.0 ==> Times(x / d, d) >= d;
  }

  lemma WalkStart(q: Vector, c: Vector, distance: real)
    requires |q| == |c| && distance > 0.0
    ensures Examined(q, c, 0, distance) == q
  {
    assert Proportion(0, distance) == 0.0;
    forall k | 0 <= k < |q| ensures Examined(q, c, 0, distance)[k] == q[k] {
      assert Times(0.0, c[k] - q[k]) == 0.0;
    }
  }

  /** One step further along the direction. */
  lemma NextExamined(q: Vector, c: Vector, i: nat, distance: real, direction: Vector)
    requires |q| == |c| == |direction| && distance > 0.0
    requires direction == Scale(1.0 / distance, Sub(c, q))
    ensures Add(Examined(q, c, i, distance), Scale(STEP, direction)) == Examined(q, c, i + 1, distance)
  {
    forall k | 0 <= k < |q|
      ensures Add(Examined(q, c, i, distance), Scale(STEP, direction))[k] == Examined(q, c, i + 1, distance)[k]
    {
    }
  }

  /** After i steps the walk is i * STEP away from its start. */
  lemma ExaminedDistance(env: Environment, q: Vector, c: Vector, i: nat, distance: real)
    requires Sensible(env) && |q| == |c| && distance > 0.0 && distance == env.norm(Sub(c, q))
    ensures env.norm(Sub(Examined(q, c, i, distance), q)) == (i as real) * STEP
  {
    var t := Proportion(i, distance);
    QuotientBounds((i as real) * STEP, distance);
    AlongDistance(env, q, c, t);
  }

  lemma AlongDistance(env: Environment, q: Vector, c: Vector, t: real)
    requires Sensible(env) && |q| == |c| && t >= 0.0
    ensures env.norm(Sub(Along(q, c, t), q)) == Times(t, env.norm(Sub(c, q)))
  {
    var distance := env.norm(Sub(c, q));
    AlongFromEnds(q, c, t);
    NormScale(distance, Sub(c, q), t);
    NormUnique(env.norm(Sub(Along(q, c, t), q)), Times(t, distance), Scale(t, Sub(c, q)));
  }

  /** The point that divides the way from q to c by u is i thousandths away from q, and not yet at c. */
  ghost predicate AtStep(env: Environment, q: Vector, c: Vector, i: nat, u: real)
    requires |q| == |c|
  {
    0.0 <= u < 1.0 && env.norm(Sub(Along(q, c, u), q)) == 0.001 * (i as real)
  }

  /** The walk by distances: over at least one step it finds the valid point nearest to q among those
      that are a whole number of thousandths away from q on the way to c, and nothing exactly when none
      of them is valid. */
  lemma WalkByDistance(env: Environment, q: Vector, c: Vector)
    requires Sensible(env) && |q| == |c|
    ensures env.norm(Sub(c, q)) < 0.001 ==> Walk(env, q, c) == if env.valid(q) then Some(q) else None
    ensures env.norm(Sub(c, q)) >= 0.001 ==>
              (Walk(env, q, c) == None <==> forall i, u :: AtStep(env, q, c, i, u) ==> !env.valid(Along(q, c, u)))
    ensures env.norm(Sub(c, q)) >= 0.001 && Walk(env, q, c).Some? ==>
              exists i, u ::
                && AtStep(env, q, c, i, u) && Walk(env, q, c).value == Along(q, c, u)
                && forall j, v :: j < i && AtStep(env, q, c, j, v) ==> !env.valid(Along(q, c, v))
  {
    var distance := env.norm(Sub(c, q));
    if distance < 0.001 {
    } else if Walk(env, q, c).Some? {
      WalkMeetsFirst(env, q, c, distance);
      var i: nat :| FirstValid(env, q, c, distance, i) && Walk(env, q, c).value == Examined(q, c, i, distance);
      AtStepIff(env, q, c, i, Proportion(i, distance));
      assert AtStep(env, q, c, i, Proportion(i, distance));
      forall j: nat, v: real | j < i && AtStep(env, q, c, j, v) ensures !env.valid(Along(q, c, v)) {
        AtStepIff(env, q, c, j, v);
        assert Along(q, c, v) == Examined(q, c, j, distance);
      }
    } else {
      forall j: nat, v: real | AtStep(env, q, c, j, v) ensures !env.valid(Along(q, c, v)) {
        AtStepIff(env, q, c, j, v);
        assert Along(q, c, v) == Examined(q, c, j, distance);
      }
    }
  }

  lemma AtStepIff(env: Environment, q: Vector, c: Vector, i: nat, u: real)
    requires Sensible(env) && |q| == |c| && env.norm(Sub(c, q)) > 0.0
    ensures AtStep(env, q, c, i, u) <==>
              (i as real) * STEP < env.norm(Sub(c, q)) && u == Proportion(i, env.norm(Sub(c, q)))
  {
    var distance := env.norm(Sub(c, q));
    ProportionIff((i as real) * STEP, distance, u);
    if u >= 0.0 { AlongDistance(env, q, c, u); }
  }

  lemma ProportionIff(x: real, d: real, u: real)
    requires d > 0.0 && x >= 0.0
    ensures 0.0 <= u < 1.0 && Times(u, d) == x <==> x < d && u == x / d
  {
    QuotientBounds(x, d);
    if Times(u, d) == x {
      assert Times(u - x / d, d) == Times(u, d) - Times(x / d, d);
      NoZeroDivisors(u - x / d, d);
      if u < 1.0 { LargerProduct(u, 1.0, d); }
      assert Times(1.0, d) == d;
    }
  }

  method CalcClosestSatisfyingConfigurationOnEdge(env: Environment, q: Vector, qValid: Vector)
    returns (r: Result<Option<Vector>, Error>)
    requires Sensible(env) && |q| == |qValid| == env.n
    ensures r == if env.valid(qValid) then Ok(Walk(env, q, qValid)) else Err(CenterInvalid)
  {
    if !env.valid(qValid) {
      return Err(CenterInvalid);
    }
    var distance := env.norm(Sub(qValid, q));
    if distance < STEP {
      return Ok(if env.valid(q) then Some(q) else None);
    }
    var direction := Scale(1.0 / distance, Sub(qValid, q));
    var qCandidate := q;
    ghost var i: nat := 0;
    ghost var bound: nat := (distance / STEP).Floor + 1;
    WalkStart(q, qValid, distance);
    ExaminedDistance(env, q, qValid, 0, distance);
    while env.norm(Sub(qCandidate, q)) < distance
      invariant |qCandidate| == env.n && qCandidate == Examined(q, qValid, i, distance)
      invariant env.norm(Sub(qCandidate, q)) == (i as real) * STEP
      invariant forall k: nat :: k < i ==> !env.valid(Examined(q, qValid, k, distance))
      decreases bound - i
    {
      if env.valid(qCandidate) {
        return Ok(Some(qCandidate));
      }
      NextExamined(q, qValid, i, distance, direction);
      qCandidate := Add(qCandidate, Scale(STEP, direction));
      i := i + 1;
      ExaminedDistance(env, q, qValid, i, distance);
    }
    return Ok(None);
  }

  // ---------- The cut ----------

  /** The half-space added for the configuration found, as the program computes it. */
  function Cut(env: Environment, e: Ellipsoid, found: Vector): HalfSpace
    requires IsMatrix(e.a, |found|) && |e.center| == |found|
  {
    var normal := Apply(e.a, Sub(found, e.center));
    var length := env.norm(normal);
    var offset := Dot(Apply(e.a, found), Sub(found, e.center));
    if length == 0.0 then HalfSpace(normal, offset - env.margin)
    else HalfSpace(Scale(1.0 / length, normal), offset / length - env.margin)
  }

  lemma FormPositive(a: Matrix, n: nat, q: Vector, c: Vector)
    requires PositiveDefinite(a, n) && |q| == |c| == n && q != c
    ensures Dot(Apply(a, Sub(q, c)), Sub(q, c)) > 0.0
  {
    var i :| 0 <= i < n && q[i] != c[i];
    assert Sub(q, c)[i] != 0.0;
  }

  lemma SelfAdjoint(a: Matrix, n: nat, u: Vector, v: Vector)
    requires PositiveDefinite(a, n) && |u| == |v| == n
    ensures Dot(Apply(a, u), v) == Dot(Apply(a, v), u)
  {
    DotSym(u, Apply(a, v));
  }

  /** The normal of a cut at a point strictly between q and the centre makes an acute angle with
      the way from the centre to q. */
  lemma CutNormal(e: Ellipsoid, n: nat, q: Vector, t: real)
    requires |q| == |e.center| == n && IsMatrix(e.a, n) && 0.0 < t < 1.0
    requires Dot(Apply(e.a, Sub(q, e.center)), Sub(q, e.center)) > 0.0
    ensures Dot(Apply(e.a, Sub(Along(q, e.center, t), e.center)), Sub(q, e.center)) > 0.0
  {
    var w := Sub(q, e.center);
    AlongFromEnds(q, e.center, t);
    ApplyScale(e.a, 1.0 - t, w);
    DotScale(1.0 - t, Apply(e.a, w), w);
    PositiveProduct(1.0 - t, Dot(Apply(e.a, w), w));
  }

  /** Heights over a plane through a point of the segment grow linearly along the segment. */
  lemma Heights(normal: Vector, q: Vector, c: Vector, t: real)
    requires |normal| == |q| == |c|
    ensures Dot(normal, q) == Dot(normal, Along(q, c, t)) + Times(t, Dot(normal, Sub(q, c)))
    ensures Dot(normal, c) == Dot(normal, Along(q, c, t)) - Times(1.0 - t, Dot(normal, Sub(q, c)))
  {
    AlongFromEnds(q, c, t);
    DotSub(q, Along(q, c, t), normal);
    DotSub(Along(q, c, t), c, normal);
    ScaledDot(normal, t, Sub(q, c));
    ScaledDot(normal, 1.0 - t, Sub(q, c));
  }

  /** How deep q lies outside the cut plane, and the centre inside it, before the margin. */
  ghost predicate CutBetween(env: Environment, e: Ellipsoid, q: Vector, found: Vector, outside: real, inside: real)
    requires |q| == |e.center| == |found| && IsMatrix(e.a, |q|)
  {
    var h := Cut(env, e, found);
    && outside > 0.0 && inside > 0.0
    && |h.a| == |q|
    && Dot(h.a, found) == h.b + env.margin
    && Dot(h.a, q) == h.b + env.margin + outside
    && Dot(h.a, e.center) == h.b + env.margin - inside
  }

  /** The geometry of a cut at a point strictly between q and the centre. */
  lemma CutDepths(env: Environment, e: Ellipsoid, q: Vector, t: real)
    returns (outside: real, inside: real)
    requires |q| == |e.center| == env.n && PositiveDefinite(e.a, env.n)
    requires var normal := Apply(e.a, Sub(Along(q, e.center, t), e.center)); IsNorm(env.norm(normal), normal)
    requires 0.0 < t < 1.0 && q != e.center
    ensures CutBetween(env, e, q, Along(q, e.center, t), outside, inside)
  {
    var found := Along(q, e.center, t);
    var normal := TangentNormal(e, found);
    var slope := Dot(normal, Sub(q, e.center));
    BetweenIsNotEnd(q, e.center, t);
    FormPositive(e.a, env.n, q, e.center);
    CutNormal(e, env.n, q, t);
    var factor := CutIsNormalised(env, e, found);
    Heights(normal, q, e.center, t);
    outside, inside := Times(factor, Times(t, slope)), Times(factor, Times(1.0 - t, slope));
    PositiveProduct(t, slope);
    PositiveProduct(1.0 - t, slope);
    PositiveProduct(factor, Times(t, slope));
    PositiveProduct(factor, Times(1.0 - t, slope));
    ScaledHeight(factor, normal, found, q, Times(t, slope));
    ScaledHeight(factor, normal, found, e.center, -Times(1.0 - t, slope));
    assert Times(factor, -Times(1.0 - t, slope)) == -inside;
  }

  lemma ScaledHeight(factor: real, normal: Vector, found: Vector, x: Vector, height: real)
    requires |normal| == |found| == |x| && Dot(normal, x) == Dot(normal, found) + height
    ensures Dot(Scale(factor, normal), x) == Dot(Scale(factor, normal), found) + Times(factor, height)
  {
    DotScale(factor, normal, x);
    DotScale(factor, normal, found);
    Distribute(factor, Dot(normal, found), height);
  }

  lemma PositiveProduct(x: real, y: real)
    requires x > 0.0 && y > 0.0
    ensures Times(x, y) > 0.0
  {
  }

  lemma ScaledDot(normal: Vector, t: real, w: Vector)
    requires |normal| == |w|
    ensures Dot(normal, Scale(t, w)) == Times(t, Dot(normal, w))
  {
    DotSym(normal, Scale(t, w));
    DotScale(t, w, normal);
    DotSym(normal, w);
  }

  // ---------- What a cut does ----------

  /** A sample that the edge walk resolves is cut off when the margin is not negative. */
  lemma CutRemovesSample(env: Environment, e: Ellipsoid, q: Vector, t: real)
    requires |q| == |e.center| == env.n && PositiveDefinite(e.a, env.n)
    requires var normal := Apply(e.a, Sub(Along(q, e.center, t), e.center)); IsNorm(env.norm(normal), normal)
    requires 0.0 < t < 1.0 && q != e.center
    ensures var h := Cut(env, e, Along(q, e.center, t)); |h.a| == env.n && (env.margin >= 0.0 ==> !InHalfSpace(h, q))
  {
    var outside, inside := CutDepths(env, e, q, t);
  }

  /** The normal of the plane through the configuration found that touches the scaled ellipsoid there. */
  function TangentNormal(e: Ellipsoid, found: Vector): (r: Vector)
    requires IsMatrix(e.a, |found|) && |e.center| == |found|
    ensures |r| == |found|
  {
    Apply(e.a, Sub(found, e.center))
  }

  ghost predicate Cuttable(env: Environment, e: Ellipsoid, found: Vector) {
    && |found| == |e.center| == env.n && PositiveDefinite(e.a, env.n) && found != e.center
    && IsNorm(env.norm(TangentNormal(e, found)), TangentNormal(e, found))
  }

  /** The added half-space has a unit normal, the tangent normal divided by its length, and its bounding
      plane is the margin away from the configuration found. */
  lemma CutIsNormalised(env: Environment, e: Ellipsoid, found: Vector) returns (factor: real)
    requires Cuttable(env, e, found)
    ensures var h := Cut(env, e, found);
            && |h.a| == env.n && Dot(h.a, h.a) == 1.0
            && factor > 0.0 && h.a == Scale(factor, Apply(e.a, Sub(found, e.center)))
            && Dot(h.a, found) == h.b + env.margin
  {
    var w := Sub(found, e.center);
    var normal := TangentNormal(e, found);
    var length := env.norm(normal);
    FormPositive(e.a, env.n, found, e.center);
    NormPositive(length, normal, w);
    SelfAdjoint(e.a, env.n, found, w);
    factor := 1.0 / length;
    DotScale(factor, normal, found);
    UnitLength(length, normal);
    var offset := Dot(Apply(e.a, found), w);
    assert Times(factor, offset) == offset / length;
  }

  lemma UnitLength(length: real, normal: Vector)
    requires length > 0.0 && IsNorm(length, normal)
    ensures Dot(Scale(1.0 / length, normal), Scale(1.0 / length, normal)) == 1.0
  {
    var f := 1.0 / length;
    DotScale(f, normal, Scale(f, normal));
    ScaledDot(normal, f, normal);
    assert Times(f, length) == 1.0;
    Associate(f, length, length);
    Associate(f, f, Times(length, length));
    assert Times(f, Times(f, Times(length, length))) == Times(f, Times(Times(f, length), length));
    assert Times(1.0, length) == length;
  }

  /** The tangent plane and the distances from it, with the unit normal. */
  lemma SamePlane(normal: Vector, factor: real, p: Vector, x: Vector, d: real)
    requires |normal| == |p| == |x| && factor > 0.0
    ensures IsDistance(d, Scale(factor, normal), p, x) <==> IsDistance(d, normal, p, x)
    ensures Dot(Scale(factor, normal), Sub(x, p)) <= 0.0 <==> Dot(normal, Sub(x, p)) <= 0.0
  {
    var unit := Scale(factor, normal);
    forall y: Vector ensures OnPlane(unit, p, y) <==> OnPlane(normal, p, y) {
      if |y| == |p| { SamePoints(normal, factor, p, y); }
    }
    SameDistance(unit, normal, p, x, d);
    DotScale(factor, normal, Sub(x, p));
    SignOfProduct(factor, Dot(normal, Sub(x, p)));
  }

  lemma SamePoints(normal: Vector, factor: real, p: Vector, y: Vector)
    requires |normal| == |p| == |y| && factor > 0.0
    ensures OnPlane(Scale(factor, normal), p, y) <==> OnPlane(normal, p, y)
  {
    DotScale(factor, normal, Sub(y, p));
    NoZeroDivisors(factor, Dot(normal, Sub(y, p)));
  }

  lemma SameDistance(unit: Vector, normal: Vector, p: Vector, x: Vector, d: real)
    requires |unit| == |normal| && forall y: Vector :: OnPlane(unit, p, y) <==> OnPlane(normal, p, y)
    ensures IsDistance(d, unit, p, x) <==> IsDistance(d, normal, p, x)
  {
  }

  lemma SignOfProduct(x: real, y: real)
    requires x > 0.0
    ensures Times(x, y) <= 0.0 <==> y <= 0.0
  {
    if y > 0.0 { PositiveProduct(x, y); }
    if y < 0.0 {
      PositiveProduct(x, -y);
      assert Times(x, -y) == -Times(x, y);
    }
  }

  /** The part of the region that a cut leaves: what is at least the margin away from the tangent plane on
      the centre's side, and with a negative margin what is close enough beyond it. */
  ghost predicate Leaves(env: Environment, e: Ellipsoid, found: Vector, x: Vector, d: real)
    requires Cuttable(env, e, found) && |x| == env.n
  {
    if Dot(TangentNormal(e, found), Sub(x, found)) <= 0.0 then d >= env.margin else d <= -env.margin
  }

  /** What a cut leaves, by distance: a point on the centre's side of the tangent plane is kept exactly
      when it is at least the margin away from it, and a point beyond exactly when it is at most minus
      the margin away. */
  lemma CutIffDistance(env: Environment, e: Ellipsoid, found: Vector, x: Vector, d: real)
    requires Cuttable(env, e, found) && IsDistance(d, TangentNormal(e, found), found, x)
    ensures |Cut(env, e, found).a| == |x|
    ensures InHalfSpace(Cut(env, e, found), x) <==> Leaves(env, e, found, x, d)
  {
    var h := Cut(env, e, found);
    var factor := CutIsNormalised(env, e, found);
    SamePlane(TangentNormal(e, found), factor, found, x, d);
    DistanceIsHeight(d, h.a, found, x);
    DotSub(x, found, h.a);
  }

  /** Every point has a distance from the tangent plane. */
  lemma TangentDistance(env: Environment, e: Ellipsoid, found: Vector, x: Vector) returns (d: real)
    requires Cuttable(env, e, found) && |x| == env.n
    ensures IsDistance(d, TangentNormal(e, found), found, x)
  {
    var h := Cut(env, e, found);
    var factor := CutIsNormalised(env, e, found);
    var s := Dot(h.a, Sub(x, found));
    d := if s >= 0.0 then s else -s;
    DistanceIsHeight(d, h.a, found, x);
    SamePlane(TangentNormal(e, found), factor, found, x, d);
  }

  /** The centre survives exactly when the margin is at most its distance from the tangent plane through
      the configuration found. */
  lemma CentreSurvivesIff(env: Environment, e: Ellipsoid, found: Vector, d: real)
    requires Cuttable(env, e, found) && IsDistance(d, TangentNormal(e, found), found, e.center)
    ensures |Cut(env, e, found).a| == |e.center|
    ensures InHalfSpace(Cut(env, e, found), e.center) <==> env.margin <= d
  {
    CutIffDistance(env, e, found, e.center, d);
    FormPositive(e.a, env.n, found, e.center);
    DotSub(e.center, found, TangentNormal(e, found));
    DotSub(found, e.center, TangentNormal(e, found));
  }

  lemma InscribedIn(env: Environment, region: Region)
    requires Sensible(env)
    ensures PositiveDefinite(env.inscribed(region).a, env.n) && |env.inscribed(region).center| == env.n
  {
  }

  /** The walk from an invalid configuration ends strictly between it and the centre. */
  lemma WalkEndsBetween(env: Environment, q: Vector, c: Vector, distance: real, i: nat)
    requires |q| == |c| && distance > 0.0 && !env.valid(q) && FirstValid(env, q, c, distance, i)
    ensures 0.0 < Proportion(i, distance) < 1.0
  {
    if i == 0 { WalkStart(q, c, distance); }
  }

  // ---------- Repairing with one configuration ----------

  datatype Repair = Repair(region: Region, repaired: bool)

  /** The walk from q to the centre of the region's ellipsoid meets nothing valid. */
  ghost predicate Unrepairable(env: Environment, region: Region, q: Vector)
    requires |q| == |env.inscribed(region).center|
  {
    var c := env.inscribed(region).center;
    Blind(env, q, c, env.norm(Sub(c, q)))
  }

  /** The configuration through which a sample is to be cut off. */
  ghost function Found(env: Environment, region: Region, q: Vector): (r: Result<Option<Vector>, Error>)
    requires Sensible(env) && |q| == env.n
    ensures r.Ok? && r.value.Some? ==> |r.value.value| == env.n
  {
    match env.validConfigMethod
    case Optimize => Ok(env.closestValid(q))
    case Edge =>
      InscribedIn(env, region);
      var c := env.inscribed(region).center;
      if env.valid(c) then Ok(Walk(env, q, c)) else Err(CenterInvalid)
  }

  /** With the optimising method the library's closest valid configuration, with the edge method what the
      walk to the centre finds. */
  ghost predicate IsFound(env: Environment, region: Region, q: Vector, found: Vector) {
    && (env.validConfigMethod == Optimize ==> env.closestValid(q) == Some(found))
    && (env.validConfigMethod == Edge ==>
          |env.inscribed(region).center| == |q| && Walk(env, q, env.inscribed(region).center) == Some(found))
  }

  /** The half-spaces that are added for it. */
  ghost function Added(env: Environment, region: Region, found: Vector): (r: Region)
    requires Sensible(env) && |found| == env.n
    ensures Fits(r, env.n)
  {
    InscribedIn(env, region);
    assert |Cut(env, env.inscribed(region), found).a| == |found|;
    if env.viaEllipsoid then [Cut(env, env.inscribed(region), found)] else env.linearized(found)
  }

  method FindCut(env: Environment, region: Region, q: Vector) returns (r: Result<Option<Region>, Error>)
    requires Sensible(env) && |q| == env.n
    ensures r == match Found(env, region, q)
                 case Err(e) => Err(e)
                 case Ok(None) => Ok(None)
                 case Ok(Some(found)) => Ok(Some(Added(env, region, found)))
  {
    InscribedIn(env, region);
    var e := env.inscribed(region);
    var found: Option<Vector>;
    match env.validConfigMethod {
      case Optimize =>
        found := env.closestValid(q);
      case Edge =>
        var walked := CalcClosestSatisfyingConfigurationOnEdge(env, q, e.center);
        if walked.Err? {
          return Err(walked.error);
        }
        found := walked.value;
    }
    if found == None {
      return Ok(None);
    }
    if !env.viaEllipsoid {
      return Ok(Some(env.linearized(found.value)));
    }
    return Ok(Some([Cut(env, e, found.value)]));
  }

  /** What one repair does. */
  ghost function Outcome(env: Environment, region: Region, q: Vector): Result<Repair, Error>
    requires Sensible(env) && Fits(region, env.n) && |q| == env.n
  {
    if !PointInSet(region, q) || env.valid(q) then Ok(Repair(region, false))
    else
      match Found(env, region, q)
      case Err(e) => Err(e)
      case Ok(None) => Ok(Repair(region, false))
      case Ok(Some(found)) =>
        var repaired := region + Added(env, region, found);
        if env.isEmpty(repaired) then Err(RegionEmpty) else Ok(Repair(repaired, true))
  }

  /** Repairs with the edge method, through the ellipsoid, with a margin that is not negative. */
  ghost predicate CutsForGood(env: Environment) {
    env.viaEllipsoid && env.validConfigMethod == Edge && env.margin >= 0.0
  }

  /** One repair. It throws exactly when an invalid sample of the region finds the centre invalid, or
      when what is left is empty. */
  method RepairRegionWithConfig(env: Environment, region: Region, q: Vector) returns (r: Result<Repair, Error>)
    requires Sensible(env) && Fits(region, env.n) && |q| == env.n
    ensures r == Outcome(env, region, q)
    ensures r == Err(CenterInvalid) <==>
              && PointInSet(region, q) && !env.valid(q)
              && env.validConfigMethod == Edge && !env.valid(env.inscribed(region).center)
    ensures r == Err(RegionEmpty) <==>
              && PointInSet(region, q) && !env.valid(q)
              && Found(env, region, q).Ok? && Found(env, region, q).value.Some?
              && env.isEmpty(region + Added(env, region, Found(env, region, q).value.value))
    ensures r.Ok? ==> Fits(r.value.region, env.n) && Subset(r.value.region, region, env.n)
    ensures r.Ok? && !r.value.repaired ==> r.value.region == region
    ensures r.Ok? && r.value.repaired ==> PointInSet(region, q) && !env.valid(q) && !env.isEmpty(r.value.region)
    ensures r.Ok? && r.value.repaired && CutsForGood(env) ==> !PointInSet(r.value.region, q)
    ensures r.Ok? && !r.value.repaired && env.validConfigMethod == Edge && PointInSet(region, q) && !env.valid(q)
            ==> |env.inscribed(region).center| == env.n && Unrepairable(env, region, q)
    ensures env.validConfigMethod == Optimize && env.closestValid(q) == None ==> r == Ok(Repair(region, false))
  {
    RepairShrinks(env, region, q);
    if !PointInSet(region, q) {
      return Ok(Repair(region, false));
    }
    if env.valid(q) {
      return Ok(Repair(region, false));
    }
    var cut := FindCut(env, region, q);
    if cut.Err? {
      return Err(cut.error);
    }
    if cut.value == None {
      return Ok(Repair(region, false));
    }
    var repairedRegion := region + cut.value.value;
    if env.isEmpty(repairedRegion) {
      return Err(RegionEmpty);
    }
    return Ok(Repair(repairedRegion, true));
  }

  /** Where a repair cuts, whatever the methods: at the configuration that the method finds. The region's
      half-spaces stay, and one is added, or the linearised constraints without the ellipsoid. */
  lemma RepairFinds(env: Environment, region: Region, q: Vector, found: Vector)
    requires Sensible(env) && Fits(region, env.n) && |q| == env.n
    requires PointInSet(region, q) && !env.valid(q) && IsFound(env, region, q, found)
    requires env.validConfigMethod == Edge ==> env.valid(env.inscribed(region).center)
    ensures Found(env, region, q) == Ok(Some(found)) && |found| == env.n
    ensures var o := Outcome(env, region, q);
            && (o.Err? ==> o.error == RegionEmpty)
            && (o.Ok? ==> o.value.repaired && region <= o.value.region)
            && (o.Ok? && !env.viaEllipsoid ==> o.value.region == region + env.linearized(found))
            && (o.Ok? && env.viaEllipsoid ==> |o.value.region| == |region| + 1)
  {
    InscribedIn(env, region);
  }

  /** A repair gives a subset, and a sample that triggers one is outside of it. */
  lemma RepairShrinks(env: Environment, region: Region, q: Vector)
    requires Sensible(env) && Fits(region, env.n) && |q| == env.n
    ensures var o := Outcome(env, region, q);
            o.Ok? ==>
              && Fits(o.value.region, env.n) && Subset(o.value.region, region, env.n)
              && (o.value.repaired && CutsForGood(env) ==> !PointInSet(o.value.region, q))
  {
    var o := Outcome(env, region, q);
    if o.Ok? && o.value.repaired {
      var found := Found(env, region, q).value.value;
      MoreHalfSpaces(region, Added(env, region, found), env.n);
      if CutsForGood(env) {
        EdgeIsCuttable(env, region, q);
        assert !InHalfSpace(Added(env, region, found)[0], q);
      }
    }
  }

  /** What an edge repair finds lies strictly between the sample and the centre. */
  lemma FoundBetween(env: Environment, region: Region, q: Vector) returns (t: real)
    requires Sensible(env) && |q| == env.n && !env.valid(q) && env.validConfigMethod == Edge
    requires Found(env, region, q).Ok? && Found(env, region, q).value.Some?
    ensures |env.inscribed(region).center| == env.n && q != env.inscribed(region).center
    ensures 0.0 < t < 1.0 && Found(env, region, q).value.value == Along(q, env.inscribed(region).center, t)
  {
    InscribedIn(env, region);
    var e := env.inscribed(region);
    var distance := env.norm(Sub(e.center, q));
    WalkMeetsFirst(env, q, e.center, distance);
    var i: nat :| FirstValid(env, q, e.center, distance, i);
    WalkEndsBetween(env, q, e.center, distance, i);
    t := Proportion(i, distance);
  }

  /** An edge repair can always be cut, and with a margin that is not negative loses its sample. */
  lemma EdgeIsCuttable(env: Environment, region: Region, q: Vector)
    requires Sensible(env) && |q| == env.n && !env.valid(q) && env.validConfigMethod == Edge
    requires Found(env, region, q).Ok? && Found(env, region, q).value.Some?
    ensures Cuttable(env, env.inscribed(region), Found(env, region, q).value.value)
    ensures env.margin >= 0.0 ==> !InHalfSpace(Cut(env, env.inscribed(region), Found(env, region, q).value.value), q)
  {
    InscribedIn(env, region);
    var e := env.inscribed(region);
    var t := FoundBetween(env, region, q);
    BetweenIsNotEnd(q, e.center, t);
    CutRemovesSample(env, e, q, t);
  }

  lemma BetweenIsNotEnd(q: Vector, c: Vector, t: real)
    requires |q| == |c| && q != c && 0.0 < t < 1.0
    ensures Along(q, c, t) != c
  {
    var i :| 0 <= i < |q| && q[i] != c[i];
    assert Along(q, c, t)[i] - c[i] == Times(1.0 - t, q[i] - c[i]);
    NoZeroDivisors(1.0 - t, q[i] - c[i]);
  }

  /** The sample of an edge repair is beyond the tangent plane, so that it is further outside the added
      half-space than the margin, by its distance from that plane. */
  lemma EdgeCutDepths(env: Environment, region: Region, q: Vector)
    requires Sensible(env) && |q| == env.n && !env.valid(q) && env.validConfigMethod == Edge
    requires Found(env, region, q).Ok? && Found(env, region, q).value.Some?
    ensures var e, found := env.inscribed(region), Found(env, region, q).value.value;
            && Cuttable(env, e, found) && |Cut(env, e, found).a| == env.n
            && forall d :: IsDistance(d, TangentNormal(e, found), found, q) ==>
                 d > 0.0 && Dot(Cut(env, e, found).a, q) - Cut(env, e, found).b == env.margin + d
  {
    var e, found := env.inscribed(region), Found(env, region, q).value.value;
    EdgeIsCuttable(env, region, q);
    var t := FoundBetween(env, region, q);
    var outside, inside := CutDepths(env, e, q, t);
    var h := Cut(env, e, found);
    var factor := CutIsNormalised(env, e, found);
    DotSub(q, found, h.a);
    forall d | IsDistance(d, TangentNormal(e, found), found, q)
      ensures d > 0.0 && Dot(h.a, q) - h.b == env.margin + d
    {
      SamePlane(TangentNormal(e, found), factor, found, q, d);
      DistanceIsHeight(d, h.a, found, q);
    }
  }

  lemma CuttableUnlessCentre(env: Environment, region: Region, found: Vector)
    requires Sensible(env) && |found| == env.n && found != env.inscribed(region).center
    ensures Cuttable(env, env.inscribed(region), found)
  {
    InscribedIn(env, region);
    var e := env.inscribed(region);
    assert IsNorm(env.norm(TangentNormal(e, found)), TangentNormal(e, found));
  }

  lemma RepairAdds(env: Environment, region: Region, q: Vector, found: Vector, after: Region, x: Vector)
    requires Sensible(env) && Fits(region, env.n) && |q| == |x| == env.n
    requires Found(env, region, q) == Ok(Some(found)) && Outcome(env, region, q) == Ok(Repair(after, true))
    ensures |found| == env.n && Fits(after, env.n)
    ensures PointInSet(after, x) <==> PointInSet(region, x) && PointInSet(Added(env, region, found), x)
  {
    MoreHalfSpaces(region, Added(env, region, found), env.n);
  }

  lemma AddedIffDistance(env: Environment, region: Region, found: Vector, x: Vector)
    requires Sensible(env) && |found| == |x| == env.n && env.viaEllipsoid
    requires Cuttable(env, env.inscribed(region), found)
    ensures var e := env.inscribed(region);
            && (exists d :: IsDistance(d, TangentNormal(e, found), found, x))
            && forall d :: IsDistance(d, TangentNormal(e, found), found, x) ==>
                 (PointInSet(Added(env, region, found), x) <==> Leaves(env, e, found, x, d))
  {
    var e := env.inscribed(region);
    var added := Added(env, region, found);
    var distance := TangentDistance(env, e, found, x);
    forall d | IsDistance(d, TangentNormal(e, found), found, x)
      ensures PointInSet(added, x) <==> Leaves(env, e, found, x, d)
    {
      CutIffDistance(env, e, found, x, d);
      assert PointInSet(added, x) <==> InHalfSpace(added[0], x);
    }
  }

  /** What any repair through the ellipsoid leaves of the region, by the distance from the tangent plane
      through the configuration found. */
  lemma RepairIffDistance(env: Environment, region: Region, q: Vector, found: Vector, after: Region, x: Vector)
    requires Sensible(env) && Fits(region, env.n) && |q| == |x| == env.n && env.viaEllipsoid
    requires Found(env, region, q) == Ok(Some(found)) && Outcome(env, region, q) == Ok(Repair(after, true))
    requires found != env.inscribed(region).center
    ensures var e := env.inscribed(region);
            && Cuttable(env, e, found) && Fits(after, env.n)
            && (exists d :: IsDistance(d, TangentNormal(e, found), found, x))
            && forall d :: IsDistance(d, TangentNormal(e, found), found, x) ==>
                 (PointInSet(after, x) <==> PointInSet(region, x) && Leaves(env, e, found, x, d))
  {
    CuttableUnlessCentre(env, region, found);
    RepairAdds(env, region, q, found, after, x);
    AddedIffDistance(env, region, found, x);
  }

  /** After an edge repair through the ellipsoid the old centre is still inside exactly when it was
      and the margin is at most its distance from the tangent plane through the configuration found. */
  lemma CentreKeptIff(env: Environment, region: Region, q: Vector)
    requires Sensible(env) && Fits(region, env.n) && |q| == env.n
    requires env.validConfigMethod == Edge && env.viaEllipsoid
    requires Outcome(env, region, q).Ok? && Outcome(env, region, q).value.repaired
    ensures var e, found := env.inscribed(region), Found(env, region, q).value.value;
            && Cuttable(env, e, found) && Fits(Outcome(env, region, q).value.region, env.n)
            && forall d :: IsDistance(d, TangentNormal(e, found), found, e.center) ==>
                 (PointInSet(Outcome(env, region, q).value.region, e.center) <==>
                    PointInSet(region, e.center) && env.margin <= d)
  {
    EdgeIsCuttable(env, region, q);
    var e, found := env.inscribed(region), Found(env, region, q).value.value;
    var added := Added(env, region, found);
    MoreHalfSpaces(region, added, env.n);
    forall d | IsDistance(d, TangentNormal(e, found), found, e.center)
      ensures PointInSet(added, e.center) <==> env.margin <= d
    {
      CentreSurvivesIff(env, e, found, d);
      assert PointInSet(added, e.center) <==> InHalfSpace(added[0], e.center);
    }
  }

  // ---------- Repairing with many configurations ----------

  /** The regions of a repair loop: each follows from the one before by one repair. */
  ghost predicate IsLoop(env: Environment, all: seq<Vector>, regions: seq<Region>) {
    && Sensible(env) && (forall q :: q in all ==> |q| == env.n)
    && 0 < |regions| <= |all| + 1
    && (forall i :: 0 <= i < |regions| ==> Fits(regions[i], env.n))
    && (forall i :: 0 <= i < |regions| - 1 ==> FollowsFrom(env, all[i], regions[i], regions[i + 1]))
  }

  ghost predicate FollowsFrom(env: Environment, q: Vector, before: Region, after: Region) {
    && Sensible(env) && |q| == env.n && Fits(before, env.n)
    && Outcome(env, before, q).Ok? && Outcome(env, before, q).value.region == after
  }

  /** The i-th configuration triggered a repair. */
  ghost predicate Triggered(env: Environment, all: seq<Vector>, regions: seq<Region>, i: nat)
    requires IsLoop(env, all, regions) && i < |regions| - 1
  {
    assert FollowsFrom(env, all[i], regions[i], regions[i + 1]);
    Outcome(env, regions[i], all[i]).value.repaired
  }

  lemma LoopStep(env: Environment, all: seq<Vector>, regions: seq<Region>, i: nat)
    requires IsLoop(env, all, regions) && i < |regions| - 1
    ensures Subset(regions[i + 1], regions[i], env.n)
  {
    assert FollowsFrom(env, all[i], regions[i], regions[i + 1]);
    RepairShrinks(env, regions[i], all[i]);
  }

  ghost predicate Descending(regions: seq<Region>, n: nat) {
    && (forall i :: 0 <= i < |regions| ==> Fits(regions[i], n))
    && (forall i :: 0 <= i < |regions| - 1 ==> Subset(regions[i + 1], regions[i], n))
  }

  lemma {:induction false} InEarlier(regions: seq<Region>, n: nat, i: nat, m: nat, q: Vector)
    requires Descending(regions, n) && i <= m < |regions| && |q| == n && PointInSet(regions[m], q)
    ensures PointInSet(regions[i], q)
    decreases m
  {
    if i < m {
      StepDown(regions, n, m - 1, q);
      InEarlier(regions, n, i, m - 1, q);
    }
  }

  lemma StepDown(regions: seq<Region>, n: nat, i: nat, q: Vector)
    requires Descending(regions, n) && i + 1 < |regions| && |q| == n && PointInSet(regions[i + 1], q)
    ensures PointInSet(regions[i], q)
  {
    assert Subset(regions[i + 1], regions[i], n);
  }

  /** Every region of the loop is a subset of the one before, and so of every earlier one. */
  lemma LoopShrinks(env: Environment, all: seq<Vector>, regions: seq<Region>)
    requires IsLoop(env, all, regions)
    ensures Descending(regions, env.n)
    ensures forall i, m :: 0 <= i <= m < |regions| ==> Subset(regions[m], regions[i], env.n)
  {
    forall i | 0 <= i < |regions| - 1 ensures Subset(regions[i + 1], regions[i], env.n) {
      LoopStep(env, all, regions, i);
    }
    forall i, m | 0 <= i <= m < |regions| ensures Subset(regions[m], regions[i], env.n) {
      forall q: Vector | |q| == env.n && PointInSet(regions[m], q) ensures PointInSet(regions[i], q) {
        InEarlier(regions, env.n, i, m, q);
      }
    }
  }

  /** A configuration that triggers a repair is outside every region that follows; one that does not
      leaves the region as it is, because it is outside, or valid, or walks past nothing valid. */
  lemma TriggeredIsCutForGood(env: Environment, all: seq<Vector>, regions: seq<Region>, i: nat)
    requires IsLoop(env, all, regions) && i < |regions| - 1
    ensures |all[i]| == env.n
    ensures Triggered(env, all, regions, i) && CutsForGood(env)
            ==> forall m :: i < m < |regions| ==> !PointInSet(regions[m], all[i])
    ensures !Triggered(env, all, regions, i) ==> regions[i + 1] == regions[i]
    ensures !Triggered(env, all, regions, i) && env.validConfigMethod == Edge
            ==> || !PointInSet(regions[i], all[i]) || env.valid(all[i])
                || (|env.inscribed(regions[i]).center| == env.n && Unrepairable(env, regions[i], all[i]))
  {
    assert FollowsFrom(env, all[i], regions[i], regions[i + 1]);
    InscribedIn(env, regions[i]);
    RepairShrinks(env, regions[i], all[i]);
    if Triggered(env, all, regions, i) && CutsForGood(env) {
      forall m | i < m < |regions| ensures !PointInSet(regions[m], all[i]) {
        LoopShrinks(env, all, regions);
        assert Subset(regions[m], regions[i + 1], env.n);
      }
    }
  }

  /** What an invalid configuration of the final region has shown at its turn. */
  ghost predicate Excused(env: Environment, region: Region, q: Vector) {
    |q| == |env.inscribed(region).center| && Unrepairable(env, region, q)
  }

  /** Repairs with given and then sampled configurations. The ghost result is the loop's list of
      regions. The loop runs through all configurations unless one repair throws, and reports a repair
      exactly when some configuration triggered one. With edge cuts and a margin that is not negative,
      an invalid configuration is in the final region only if it walked past nothing valid at its turn. */
  method RepairRegionViaSampling(env: Environment, region: Region, repairConfigurations: seq<Vector>,
      samples: seq<Vector>)
    returns (r: Result<Repair, Error>, ghost regions: seq<Region>)
    requires Sensible(env) && Fits(region, env.n)
    requires forall q :: q in repairConfigurations + samples ==> |q| == env.n
    ensures env.viaEllipsoid && !env.valid(env.inscribed(region).center) ==> r == Err(CenterInvalid)
    ensures (env.viaEllipsoid ==> env.valid(env.inscribed(region).center)) ==>
              RepairedAll(env, region, repairConfigurations + samples, r, regions)
    ensures r.Ok? ==> Fits(r.value.region, env.n) && Subset(r.value.region, region, env.n)
    ensures r.Ok? && !r.value.repaired ==> r.value.region == region
    ensures r.Ok? && CutsForGood(env) ==>
              var all := repairConfigurations + samples;
              forall i :: 0 <= i < |all| && |all[i]| == env.n && PointInSet(r.value.region, all[i])
                          ==> i < |regions| && (env.valid(all[i]) || Excused(env, regions[i], all[i]))
  {
    InscribedIn(env, region);
    regions := [region];
    if env.viaEllipsoid {
      if !env.valid(env.inscribed(region).center) {
        return Err(CenterInvalid), regions;
      }
    }
    r, regions := RepairAll(env, region, repairConfigurations + samples);
  }

  /** The loop ends in r: with its last region, or with what the next repair throws. */
  ghost predicate RepairedAll(env: Environment, region: Region, all: seq<Vector>,
      r: Result<Repair, Error>, regions: seq<Region>) {
    && IsLoop(env, all, regions) && regions[0] == region
    && match r
       case Ok(repair) =>
         && |regions| == |all| + 1 && repair.region == regions[|all|]
         && (repair.repaired <==> exists i :: 0 <= i < |all| && Triggered(env, all, regions, i))
       case Err(e) =>
         && |regions| <= |all|
         && Throws(env, regions[|regions| - 1], all[|regions| - 1], e)
  }

  ghost predicate Throws(env: Environment, region: Region, q: Vector, e: Error) {
    Sensible(env) && Fits(region, env.n) && |q| == env.n && Outcome(env, region, q) == Err(e)
  }

  method RepairAll(env: Environment, region: Region, all: seq<Vector>)
    returns (r: Result<Repair, Error>, ghost regions: seq<Region>)
    requires Sensible(env) && Fits(region, env.n)
    requires forall q :: q in all ==> |q| == env.n
    ensures RepairedAll(env, region, all, r, regions)
    ensures r.Ok? ==> Fits(r.value.region, env.n) && Subset(r.value.region, region, env.n)
    ensures r.Ok? && !r.value.repaired ==> r.value.region == region
    ensures r.Ok? && CutsForGood(env) ==>
              forall i :: 0 <= i < |all| && |all[i]| == env.n && PointInSet(r.value.region, all[i])
                          ==> i < |regions| && (env.valid(all[i]) || Excused(env, regions[i], all[i]))
  {
    regions := [region];
    var current := Repair(region, false);
    for k := 0 to |all|
      invariant |regions| == k + 1 && regions[0] == region && Progress(env, all, regions, current)
    {
      assert all[k] in all;
      var candidate := RepairRegionWithConfig(env, current.region, all[k]);
      if candidate.Err? {
        return Err(candidate.error), regions;
      }
      ProgressGrows(env, all, regions, current, candidate.value);
      regions := regions + [candidate.value.region];
      current := Repair(candidate.value.region, current.repaired || candidate.value.repaired);
    }
    LoopResult(env, all, regions, current);
    r := Ok(current);
  }

  /** The loop has reached its last region so far. */
  ghost predicate Progress(env: Environment, all: seq<Vector>, regions: seq<Region>, current: Repair) {
    && IsLoop(env, all, regions) && current.region == regions[|regions| - 1]
    && (current.repaired <==> exists i :: 0 <= i < |regions| - 1 && Triggered(env, all, regions, i))
  }

  lemma ProgressGrows(env: Environment, all: seq<Vector>, regions: seq<Region>, current: Repair, next: Repair)
    requires Progress(env, all, regions, current) && |regions| <= |all| && |all[|regions| - 1]| == env.n
    requires Outcome(env, current.region, all[|regions| - 1]) == Ok(next)
    ensures Progress(env, all, regions + [next.region], Repair(next.region, current.repaired || next.repaired))
  {
    LoopGrows(env, all, regions, next.region);
    var grown := regions + [next.region];
    if current.repaired {
      var i :| 0 <= i < |regions| - 1 && Triggered(env, all, regions, i);
      assert Triggered(env, all, grown, i);
    }
    if next.repaired { assert Triggered(env, all, grown, |regions| - 1); }
  }

  /** One more region of the loop. */
  lemma LoopGrows(env: Environment, all: seq<Vector>, before: seq<Region>, next: Region)
    requires IsLoop(env, all, before) && |before| <= |all|
    requires FollowsFrom(env, all[|before| - 1], before[|before| - 1], next)
    ensures IsLoop(env, all, before + [next])
    ensures forall i ::
              0 <= i < |before| - 1 ==> (Triggered(env, all, before + [next], i) <==> Triggered(env, all, before, i))
    ensures Triggered(env, all, before + [next], |before| - 1) <==>
              Outcome(env, before[|before| - 1], all[|before| - 1]).value.repaired
  {
    var regions := before + [next];
    RepairShrinks(env, before[|before| - 1], all[|before| - 1]);
    forall i | 0 <= i < |regions| - 1 ensures FollowsFrom(env, all[i], regions[i], regions[i + 1]) {
      if i < |before| - 1 { assert FollowsFrom(env, all[i], before[i], before[i + 1]); }
    }
  }

  /** What a completed loop leaves. */
  lemma LoopResult(env: Environment, all: seq<Vector>, regions: seq<Region>, current: Repair)
    requires Progress(env, all, regions, current) && |regions| == |all| + 1
    ensures Fits(current.region, env.n) && Fits(regions[0], env.n) && Subset(current.region, regions[0], env.n)
    ensures !current.repaired ==> current.region == regions[0]
    ensures CutsForGood(env) ==>
              forall i :: 0 <= i < |all| && |all[i]| == env.n && PointInSet(current.region, all[i])
                          ==> env.valid(all[i]) || Excused(env, regions[i], all[i])
  {
    LoopShrinks(env, all, regions);
    if !current.repaired {
      UntouchedLoop(env, all, regions, |all|);
    }
    if CutsForGood(env) {
      forall i | 0 <= i < |all| && |all[i]| == env.n && PointInSet(current.region, all[i])
        ensures env.valid(all[i]) || Excused(env, regions[i], all[i])
      {
        TriggeredIsCutForGood(env, all, regions, i);
        assert Subset(regions[|all|], regions[i], env.n);
      }
    }
  }

  lemma {:induction false} UntouchedLoop(env: Environment, all: seq<Vector>, regions: seq<Region>, m: nat)
    requires IsLoop(env, all, regions) && m < |regions|
    requires forall i :: 0 <= i < |regions| - 1 ==> !Triggered(env, all, regions, i)
    ensures regions[m] == regions[0]
    decreases m
  {
    if m > 0 {
      UntouchedLoop(env, all, regions, m - 1);
      TriggeredIsCutForGood(env, all, regions, m - 1);
    }
  }
}
