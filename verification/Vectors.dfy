/** The little linear algebra that region repair needs: vectors of reals, inner products, and
    self-adjoint matrices. */
module Vectors {
  import opened RealArithmetic

  type Vector = seq<real>
  type Matrix = seq<Vector>

  function Dot(u: Vector, v: Vector): real
    requires |u| == |v|
  {
    if u == [] then 0.0 else Times(u[0], v[0]) + Dot(u[1..], v[1..])
  }

  function Add(u: Vector, v: Vector): (r: Vector)
    requires |u| == |v|
    ensures |r| == |u|
  {
    seq(|u|, i requires 0 <= i < |u| => u[i] + v[i])
  }

  function Scale(s: real, u: Vector): (r: Vector)
    ensures |r| == |u|
  {
    seq(|u|, i requires 0 <= i < |u| => Times(s, u[i]))
  }

  function Sub(u: Vector, v: Vector): (r: Vector)
    requires |u| == |v|
    ensures |r| == |u|
  {
    seq(|u|, i requires 0 <= i < |u| => u[i] - v[i])
  }

  /** The point that divides the segment from q to c in the given proportion. */
  function Along(q: Vector, c: Vector, t: real): (r: Vector)
    requires |q| == |c|
    ensures |r| == |q|
  {
    Add(q, Scale(t, Sub(c, q)))
  }

  lemma {:induction false} DotSym(u: Vector, v: Vector)
    requires |u| == |v|
    ensures Dot(u, v) == Dot(v, u)
  {
    if u != [] { DotSym(u[1..], v[1..]); }
  }

  lemma {:induction false} DotScale(s: real, u: Vector, v: Vector)
    requires |u| == |v|
    ensures Dot(Scale(s, u), v) == Times(s, Dot(u, v))
  {
    if u != [] {
      DotScale(s, u[1..], v[1..]);
      assert Scale(s, u)[1..] == Scale(s, u[1..]);
      assert Times(Times(s, u[0]), v[0]) == Times(s, Times(u[0], v[0]));
      Distribute(s, Times(u[0], v[0]), Dot(u[1..], v[1..]));
    }
  }

  lemma {:induction false} DotSub(u: Vector, v: Vector, w: Vector)
    requires |u| == |v| == |w|
    ensures Dot(w, Sub(u, v)) == Dot(w, u) - Dot(w, v)
  {
    if u != [] {
      DotSub(u[1..], v[1..], w[1..]);
      assert Sub(u, v)[1..] == Sub(u[1..], v[1..]);
      Distribute(w[0], u[0], v[0]);
    }
  }

  lemma {:induction false} DotSelf(u: Vector)
    ensures Dot(u, u) >= 0.0
    ensures Dot(u, u) == 0.0 ==> forall i :: 0 <= i < |u| ==> u[i] == 0.0
  {
    if u != [] {
      DotSelf(u[1..]);
      Square(u[0]);
      if Dot(u, u) == 0.0 {
        forall i | 0 <= i < |u| ensures u[i] == 0.0 {
          if i > 0 { assert u[i] == u[1..][i - 1]; }
        }
      }
    }
  }

  lemma Square(x: real)
    ensures Times(x, x) >= 0.0
    ensures Times(x, x) == 0.0 ==> x == 0.0
  {
    if x * x == 0.0 { NoZeroDivisors(x, x); }
  }

  lemma {:induction false} DotZero(u: Vector, v: Vector)
    requires |u| == |v| && forall i :: 0 <= i < |u| ==> u[i] == 0.0
    ensures Dot(u, v) == 0.0
  {
    if u != [] { DotZero(u[1..], v[1..]); }
  }

  // ---------- Norms ----------

  /** n is the length of v. */
  ghost predicate IsNorm(n: real, v: Vector) {
    n >= 0.0 && Times(n, n) == Dot(v, v)
  }

  lemma NormUnique(m: real, n: real, v: Vector)
    requires IsNorm(m, v) && IsNorm(n, v)
    ensures m == n
  {
    assert Times(m, m) - Times(n, n) == (m - n) * (m + n);
    NoZeroDivisors(m - n, m + n);
  }

  lemma NormScale(n: real, v: Vector, s: real)
    requires IsNorm(n, v) && s >= 0.0
    ensures IsNorm(Times(s, n), Scale(s, v))
  {
    DotScale(s, v, Scale(s, v));
    DotSym(v, Scale(s, v));
    DotScale(s, v, v);
    assert Times(Times(s, n), Times(s, n)) == Times(s, Times(s, Times(n, n)));
  }

  /** A vector with a nonzero inner product has positive length. */
  lemma NormPositive(n: real, u: Vector, v: Vector)
    requires |u| == |v| && IsNorm(n, u) && Dot(u, v) != 0.0
    ensures n > 0.0
  {
    DotSelf(u);
    if n == 0.0 { DotZero(u, v); }
  }

  // ---------- Planes ----------

  /** y lies in the plane through p with the given normal. */
  ghost predicate OnPlane(normal: Vector, p: Vector, y: Vector) {
    |normal| == |p| == |y| && Dot(normal, Sub(y, p)) == 0.0
  }

  function SquaredDistance(x: Vector, y: Vector): real
    requires |x| == |y|
  {
    Dot(Sub(x, y), Sub(x, y))
  }

  /** d is the Euclidean distance of x from that plane: that of its nearest point. */
  ghost predicate IsDistance(d: real, normal: Vector, p: Vector, x: Vector) {
    && |normal| == |p| == |x| && d >= 0.0
    && (forall y :: OnPlane(normal, p, y) ==> SquaredDistance(x, y) >= Times(d, d))
    && (exists y :: OnPlane(normal, p, y) && SquaredDistance(x, y) == Times(d, d))
  }

  /** The distance from a plane with a unit normal is the height over it, up to its sign. */
  lemma DistanceIsHeight(d: real, normal: Vector, p: Vector, x: Vector)
    requires |normal| == |p| == |x| && Dot(normal, normal) == 1.0
    ensures IsDistance(d, normal, p, x) <==>
              d == if Dot(normal, Sub(x, p)) >= 0.0 then Dot(normal, Sub(x, p)) else -Dot(normal, Sub(x, p))
  {
    var s := Dot(normal, Sub(x, p));
    var height := if s >= 0.0 then s else -s;
    assert Times(height, height) == Times(s, s);
    var foot := Sub(x, Scale(s, normal));
    FootOfPerpendicular(normal, p, x, s);
    forall y | OnPlane(normal, p, y) ensures SquaredDistance(x, y) >= Times(height, height) {
      HeightIsLeast(normal, p, x, y);
    }
    if IsDistance(d, normal, p, x) {
      var y :| OnPlane(normal, p, y) && SquaredDistance(x, y) == Times(d, d);
      assert Times(d, d) == Times(height, height);
      SameSquare(d, height);
    }
  }

  lemma SameSquare(x: real, y: real)
    requires x >= 0.0 && y >= 0.0 && Times(x, x) == Times(y, y)
    ensures x == y
  {
    assert Times(x - y, x + y) == Times(x, x) - Times(y, y);
    NoZeroDivisors(x - y, x + y);
  }

  lemma FootOfPerpendicular(normal: Vector, p: Vector, x: Vector, s: real)
    requires |normal| == |p| == |x| && Dot(normal, normal) == 1.0 && s == Dot(normal, Sub(x, p))
    ensures OnPlane(normal, p, Sub(x, Scale(s, normal)))
    ensures SquaredDistance(x, Sub(x, Scale(s, normal))) == Times(s, s)
  {
    var step := Scale(s, normal);
    var foot := Sub(x, step);
    assert Sub(foot, p) == Sub(Sub(x, p), step);
    DotSub(Sub(x, p), step, normal);
    DotSym(normal, step);
    DotScale(s, normal, normal);
    assert Sub(x, foot) == step;
    DotScale(s, normal, step);
    assert Times(s, 1.0) == s;
  }

  /** The Cauchy-Schwarz inequality for a unit vector, at the difference of x and a point of the plane. */
  lemma HeightIsLeast(normal: Vector, p: Vector, x: Vector, y: Vector)
    requires |normal| == |p| == |x| && Dot(normal, normal) == 1.0 && OnPlane(normal, p, y)
    ensures SquaredDistance(x, y) >= Times(Dot(normal, Sub(x, p)), Dot(normal, Sub(x, p)))
  {
    var v := Sub(x, y);
    assert v == Sub(Sub(x, p), Sub(y, p));
    DotSub(Sub(x, p), Sub(y, p), normal);
    UnitCauchySchwarz(normal, v);
  }

  lemma UnitCauchySchwarz(normal: Vector, v: Vector)
    requires |normal| == |v| && Dot(normal, normal) == 1.0
    ensures Dot(v, v) >= Times(Dot(normal, v), Dot(normal, v))
  {
    var s := Dot(normal, v);
    var step := Scale(s, normal);
    var rest := Sub(v, step);
    DotSelf(rest);
    DotSub(v, step, rest);
    DotSym(rest, v);
    DotSym(rest, step);
    DotSub(v, step, v);
    DotSub(v, step, step);
    DotScale(s, normal, v);
    DotScale(s, normal, step);
    DotSym(v, step);
    DotSym(normal, step);
    DotScale(s, normal, normal);
    assert Times(s, 1.0) == s;
  }

  // ---------- Matrices ----------

  predicate IsMatrix(a: Matrix, n: nat) {
    |a| == n && forall i :: 0 <= i < n ==> |a[i]| == n
  }

  function Apply(a: Matrix, u: Vector): (r: Vector)
    requires IsMatrix(a, |u|)
    ensures |r| == |u|
  {
    seq(|u|, i requires 0 <= i < |u| => Dot(a[i], u))
  }

  lemma ApplyScale(a: Matrix, s: real, u: Vector)
    requires IsMatrix(a, |u|)
    ensures Apply(a, Scale(s, u)) == Scale(s, Apply(a, u))
  {
    forall i | 0 <= i < |u| ensures Apply(a, Scale(s, u))[i] == Scale(s, Apply(a, u))[i] {
      DotSym(a[i], Scale(s, u));
      DotScale(s, u, a[i]);
      DotSym(a[i], u);
    }
  }

  /** Symmetric and positive definite, stated through the inner product. */
  ghost predicate PositiveDefinite(a: Matrix, n: nat) {
    && IsMatrix(a, n)
    && (forall u: Vector, v: Vector {:trigger Dot(Apply(a, u), v)} ::
          |u| == |v| == n ==> Dot(Apply(a, u), v) == Dot(u, Apply(a, v)))
    && (forall u: Vector {:trigger Dot(Apply(a, u), u)} ::
          |u| == n && (exists i :: 0 <= i < n && u[i] != 0.0) ==> Dot(Apply(a, u), u) > 0.0)
  }

  // ---------- Points of a segment ----------

  lemma AlongFromEnds(q: Vector, c: Vector, t: real)
    requires |q| == |c|
    ensures Sub(Along(q, c, t), c) == Scale(1.0 - t, Sub(q, c))
    ensures Sub(q, Along(q, c, t)) == Scale(t, Sub(q, c))
    ensures Sub(Along(q, c, t), q) == Scale(t, Sub(c, q))
  {
    forall i | 0 <= i < |q|
      ensures Sub(Along(q, c, t), c)[i] == Scale(1.0 - t, Sub(q, c))[i]
      ensures Sub(q, Along(q, c, t))[i] == Scale(t, Sub(q, c))[i]
    {
    }
  }
}
