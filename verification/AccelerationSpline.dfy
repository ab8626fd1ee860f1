/** The back-and-forth spline that realises a maximal Cartesian acceleration, for one joint.

    Two quadratic segments speed the joint up and stop it; their time reversal brings it back; the
    cycle is then appended to itself by shifting a copy. Times and coefficients are reals. */
module AccelerationSpline {
  import opened RealArithmetic

  /** A quadratic in the time since start, valid up to end. */
  datatype Piece = Piece(start: real, end: real, c0: real, c1: real, c2: real)

  type Spline = seq<Piece>

  /** The value and the rate at local time u. */
  function ValueAt(p: Piece, u: real): real {
    p.c0 + Times(p.c1, u) + Times(p.c2, Times(u, u))
  }

  function RateAt(p: Piece, u: real): real {
    p.c1 + 2.0 * Times(p.c2, u)
  }

  function Span(p: Piece): real {
    p.end - p.start
  }

  // ---------- Operations on splines ----------

  function ShiftPiece(p: Piece, d: real): Piece {
    p.(start := p.start + d, end := p.end + d)
  }

  /** p run backwards: from -end to -start. */
  function ReversePiece(p: Piece): Piece {
    Piece(-p.end, -p.start, ValueAt(p, Span(p)), -RateAt(p, Span(p)), p.c2)
  }

  lemma ReversePieceRunsBackwards(p: Piece, u: real)
    ensures ValueAt(ReversePiece(p), u) == ValueAt(p, Span(p) - u)
    ensures RateAt(ReversePiece(p), u) == -RateAt(p, Span(p) - u)
  {
    var s, c1, c2 := Span(p), p.c1, p.c2;
    Distribute(c1, s, u);
    Distribute(c2, s, u);
    SquareOfDifference(s, u);
    Distribute(c2, Times(s, s), 2.0 * Times(s, u));
    Distribute(c2, Times(s, s) - 2.0 * Times(s, u), Times(u, u));
    Doubled(c2, Times(s, u));
    Associate(c2, s, u);
    Doubled(u, Times(c2, s));
    Commuted(u, Times(c2, s));
    Commuted(u, c1);
    Commuted(u, RateAt(p, s));
    Distribute(u, c1, 2.0 * Times(c2, s));
    Negated(RateAt(p, s), u);
  }

  lemma SquareOfDifference(s: real, u: real)
    ensures Times(s - u, s - u) == Times(s, s) - 2.0 * Times(s, u) + Times(u, u)
  {
  }

  lemma Doubled(c: real, x: real)
    ensures Times(c, 2.0 * x) == 2.0 * Times(c, x)
  {
  }

  lemma Negated(x: real, u: real)
    ensures Times(-x, u) == -Times(x, u) && Times(x, -u) == -Times(x, u)
  {
  }

  method ShiftRight(s: Spline, d: real) returns (r: Spline)
    ensures |r| == |s| && forall k :: 0 <= k < |s| ==> r[k] == ShiftPiece(s[k], d)
  {
    r := seq(|s|, k requires 0 <= k < |s| => ShiftPiece(s[k], d));
  }

  method ReverseTime(s: Spline) returns (r: Spline)
    ensures |r| == |s| && forall k :: 0 <= k < |s| ==> r[k] == ReversePiece(s[|s| - 1 - k])
  {
    r := seq(|s|, k requires 0 <= k < |s| => ReversePiece(s[|s| - 1 - k]));
  }

  // ---------- Specification: the cycle ----------

  /** The k-th piece of the motion: out with acceleration a, out with -a, back with -a, back with a. */
  ghost function CyclePiece(q0: real, a: real, tau: real, k: nat): Piece {
    var start := Times(k as real, tau);
    var v := Times(a, tau);
    var half := Times(0.5 * a, Times(tau, tau));
    match k % 4
    case 0 => Piece(start, start + tau, q0, 0.0, 0.5 * a)
    case 1 => Piece(start, start + tau, q0 + half, v, -0.5 * a)
    case 2 => Piece(start, start + tau, q0 + 2.0 * half, 0.0, -0.5 * a)
    case _ => Piece(start, start + tau, q0 + half, -v, 0.5 * a)
  }

  ghost predicate Cycles(s: Spline, q0: real, a: real, tau: real, pieces: nat) {
    |s| == pieces && forall k :: 0 <= k < |s| ==> s[k] == CyclePiece(q0, a, tau, k)
  }

  /** Where the joint is farthest from its start. */
  function Peak(q0: real, a: real, tau: real): real {
    q0 + Times(a, Times(tau, tau))
  }

  // ---------- Building the spline ----------

  /** The reversed halves, shifted by four periods, are the second half of the cycle. */
  lemma ReversedHalf(q0: real, a: real, tau: real)
    ensures ShiftPiece(ReversePiece(CyclePiece(q0, a, tau, 1)), 4.0 * tau) == CyclePiece(q0, a, tau, 2)
    ensures ShiftPiece(ReversePiece(CyclePiece(q0, a, tau, 0)), 4.0 * tau) == CyclePiece(q0, a, tau, 3)
  {
    assert Times(-0.5 * a, Times(tau, tau)) == -Times(0.5 * a, Times(tau, tau));
    assert Times(Times(a, tau), tau) == 2.0 * Times(0.5 * a, Times(tau, tau)) by {
      assert (a * tau) * tau == a * (tau * tau);
      assert 2.0 * ((0.5 * a) * (tau * tau)) == a * (tau * tau);
    }
    assert 2.0 * Times(-0.5 * a, tau) == -Times(a, tau);
    assert 2.0 * Times(0.5 * a, tau) == Times(a, tau);
    assert Times(0.0, tau) == 0.0;
  }

  method BuildCycle(q0: real, a: real, tau: real) returns (fullTraj: Spline)
    ensures Cycles(fullTraj, q0, a, tau, 4)
  {
    var half1 := [Piece(0.0, tau, q0, 0.0, 0.5 * a),
                  Piece(tau, 2.0 * tau, q0 + Times(0.5 * a, Times(tau, tau)), Times(a, tau), -0.5 * a)];
    assert half1[0] == CyclePiece(q0, a, tau, 0) && half1[1] == CyclePiece(q0, a, tau, 1);
    var half2 := ReverseTime(half1);
    half2 := ShiftRight(half2, 4.0 * tau);
    ReversedHalf(q0, a, tau);
    fullTraj := half1 + half2;
  }

  /** s lists the first pieces of the given succession. */
  ghost predicate Lists(s: Spline, piece: nat -> Piece, first: nat, count: nat) {
    |s| == count && forall k :: 0 <= k < count ==> s[k] == piece(first + k)
  }

  /** Four places on, the succession has the same piece moved by d. */
  ghost predicate RepeatsAt(piece: nat -> Piece, d: real, k: nat) {
    ShiftPiece(piece(k), d) == piece(k + 4)
  }

  /** Appends a copy of the cycle, shifted once more each time. */
  method RepeatCycle(cycle: Spline, d: real, n: nat, ghost piece: nat -> Piece) returns (fullTraj: Spline)
    requires n > 0 && Lists(cycle, piece, 0, 4)
    requires forall k :: RepeatsAt(piece, d, k)
    ensures Lists(fullTraj, piece, 0, 4 * n)
  {
    fullTraj := cycle;
    var copy := cycle;
    var i := 1;
    while i < n
      invariant 1 <= i <= n
      invariant Lists(fullTraj, piece, 0, 4 * i) && Lists(copy, piece, 4 * (i - 1), 4)
    {
      copy := ShiftRight(copy, d);
      assert Lists(copy, piece, 4 * i, 4) by {
        forall k: nat | k < 4 ensures copy[k] == piece(4 * i + k) {
          assert RepeatsAt(piece, d, 4 * (i - 1) + k);
        }
      }
      fullTraj := fullTraj + copy;
      i := i + 1;
    }
  }

  /** Builds the spline for a number of cycles; fewer than one still gives one. */
  method BuildSpline(q0: real, a: real, tau: real, numCycles: int) returns (fullTraj: Spline)
    requires tau > 0.0
    ensures Cycles(fullTraj, q0, a, tau, 4 * if numCycles < 1 then 1 else numCycles)
  {
    fullTraj := BuildCycle(q0, a, tau);
    if numCycles > 1 {
      ghost var piece := (k: nat) => CyclePiece(q0, a, tau, k);
      var d := 4.0 * tau;
      forall k: nat ensures RepeatsAt(piece, d, k) {
      }
      fullTraj := RepeatCycle(fullTraj, d, numCycles, piece);
    }
  }

  // ---------- Properties of the motion ----------

  /** Position and velocity agree where pieces meet, at any number of cycles. */
  lemma ContinuousAtBreaks(q0: real, a: real, tau: real, k: nat)
    ensures var p, n := CyclePiece(q0, a, tau, k), CyclePiece(q0, a, tau, k + 1);
            && p.end == n.start
            && ValueAt(p, Span(p)) == ValueAt(n, 0.0)
            && RateAt(p, Span(p)) == RateAt(n, 0.0)
  {
    var half := Times(0.5 * a, Times(tau, tau));
    assert Times(-0.5 * a, Times(tau, tau)) == -half;
    assert Times(Times(a, tau), tau) == 2.0 * half by {
      assert (a * tau) * tau == a * (tau * tau);
      assert 2.0 * ((0.5 * a) * (tau * tau)) == a * (tau * tau);
    }
    assert Times(-Times(a, tau), tau) == -Times(Times(a, tau), tau);
    assert 2.0 * Times(-0.5 * a, tau) == -Times(a, tau);
    assert 2.0 * Times(0.5 * a, tau) == Times(a, tau);
    assert forall x :: Times(x, 0.0) == 0.0;
    assert Times(0.0, tau) == 0.0;
    var r := k % 4;
    assert (k + 1) % 4 == if r == 3 then 0 else r + 1;
  }

  /** Each piece lasts one period, in which the acceleration is constant: a, -a, -a and a in turn. Within
      it the position changes by the mean of the velocities at its ends. */
  lemma ConstantAcceleration(q0: real, a: real, tau: real, k: nat, u: real)
    ensures var p := CyclePiece(q0, a, tau, k);
            && p.start == Times(k as real, tau) && Span(p) == tau
            && RateAt(p, u) - RateAt(p, 0.0) == Times(if k % 4 == 0 || k % 4 == 3 then a else -a, u)
            && ValueAt(p, u) - ValueAt(p, 0.0) == Times((RateAt(p, 0.0) + RateAt(p, u)) / 2.0, u)
  {
    var p := CyclePiece(q0, a, tau, k);
    TimesZero(p.c1);
    TimesZero(p.c2);
    TimesZero(0.0);
    Halves(a, u);
    Negated(a, u);
    Associate(p.c2, u, u);
    Distribute(u, p.c1, Times(p.c2, u));
    Commuted(u, p.c1);
    Commuted(u, Times(p.c2, u));
    Commuted(u, p.c1 + Times(p.c2, u));
    assert (RateAt(p, 0.0) + RateAt(p, u)) / 2.0 == p.c1 + Times(p.c2, u);
  }

  /** The joint rests at its start whenever a cycle begins. */
  lemma RestsBetweenCycles(q0: real, a: real, tau: real, i: nat)
    ensures var p := CyclePiece(q0, a, tau, 4 * i);
            p.start == Times((4 * i) as real, tau) && ValueAt(p, 0.0) == q0 && RateAt(p, 0.0) == 0.0
  {
    assert (4 * i) % 4 == 0;
    assert Times(0.5 * a, Times(0.0, 0.0)) == 0.0;
  }

  /** The displacement of the motion per unit of acceleration. */
  ghost function Progress(tau: real, k: nat, u: real): real {
    match k % 4
    case 0 => 0.5 * Times(u, u)
    case 1 => 0.5 * Times(tau, tau) + Times(tau, u) - 0.5 * Times(u, u)
    case 2 => Times(tau, tau) - 0.5 * Times(u, u)
    case _ => 0.5 * Times(tau, tau) - Times(tau, u) + 0.5 * Times(u, u)
  }

  ghost function Speed(tau: real, k: nat, u: real): real {
    match k % 4
    case 0 => u
    case 1 => tau - u
    case 2 => -u
    case _ => u - tau
  }

  lemma MotionFromProgress(q0: real, a: real, tau: real, k: nat, u: real)
    ensures ValueAt(CyclePiece(q0, a, tau, k), u) == q0 + Times(a, Progress(tau, k, u))
    ensures RateAt(CyclePiece(q0, a, tau, k), u) == Times(a, Speed(tau, k, u))
  {
    ValueFromProgress(q0, a, tau, k, u);
    RateFromSpeed(q0, a, tau, k, u);
  }

  lemma ValueFromProgress(q0: real, a: real, tau: real, k: nat, u: real)
    ensures ValueAt(CyclePiece(q0, a, tau, k), u) == q0 + Times(a, Progress(tau, k, u))
  {
    var x, y, z := Times(u, u), Times(tau, tau), Times(tau, u);
    Halves(a, x);
    Halves(a, y);
    Distribute(a, 0.5 * y + z, 0.5 * x);
    Distribute(a, 0.5 * y - z, -0.5 * x);
    Distribute(a, 0.5 * y, z);
    Distribute(a, y, 0.5 * x);
    Associate(a, tau, u);
    Negated(Times(a, tau), u);
    TimesZero(u);
  }

  lemma RateFromSpeed(q0: real, a: real, tau: real, k: nat, u: real)
    ensures RateAt(CyclePiece(q0, a, tau, k), u) == Times(a, Speed(tau, k, u))
  {
    Halves(a, u);
    Negated(a, u);
    Distribute(a, tau, u);
    Distribute(a, u, tau);
  }

  lemma Halves(a: real, x: real)
    ensures Times(0.5 * a, x) == Times(a, 0.5 * x) == 0.5 * Times(a, x)
    ensures Times(-0.5 * a, x) == Times(a, -0.5 * x) == -0.5 * Times(a, x)
  {
  }

  lemma ProgressBounds(tau: real, k: nat, u: real)
    requires 0.0 <= u <= tau
    ensures 0.0 <= Progress(tau, k, u) <= Times(tau, tau)
    ensures -tau <= Speed(tau, k, u) <= tau
  {
    ProductOrder(u, tau, u);
    ProductOrder(u, tau, tau);
    assert Times(u, tau) == Times(tau, u);
    var d := tau - u;
    assert Times(d, d) >= 0.0;
    assert Times(d, d) == Times(tau, tau) - 2.0 * Times(tau, u) + Times(u, u);
  }

  lemma ProductOrder(x: real, y: real, z: real)
    requires 0.0 <= x <= y && z >= 0.0
    ensures 0.0 <= Times(x, z) <= Times(y, z)
  {
    NonNegativeProduct(x, z);
    NonNegativeProduct(y - x, z);
    Distribute(z, x, y - x);
    Commuted(z, x);
    Commuted(z, y);
    Commuted(z, y - x);
  }

  predicate Between(x: real, y: real, z: real) {
    (x <= y <= z) || (z <= y <= x)
  }

  lemma ScaledBetween(q0: real, a: real, s: real, m: real)
    requires 0.0 <= s <= m
    ensures Between(q0, q0 + Times(a, s), q0 + Times(a, m))
  {
    if a >= 0.0 {
      ProductOrder(s, m, a);
    } else {
      ProductOrder(s, m, -a);
      assert Times(s, -a) == -Times(a, s) && Times(m, -a) == -Times(a, m);
    }
    assert Times(s, a) == Times(a, s) && Times(m, a) == Times(a, m);
  }

  /** Through every piece the joint stays between its start and the peak and is never faster than
      the velocity it has when the acceleration changes sign. */
  lemma MotionBounds(q0: real, a: real, tau: real, k: nat, u: real)
    requires 0.0 <= u <= tau
    ensures Between(q0, ValueAt(CyclePiece(q0, a, tau, k), u), Peak(q0, a, tau))
    ensures Between(-Times(a, tau), RateAt(CyclePiece(q0, a, tau, k), u), Times(a, tau))
  {
    MotionFromProgress(q0, a, tau, k, u);
    ProgressBounds(tau, k, u);
    ScaledBetween(q0, a, Progress(tau, k, u), Times(tau, tau));
    RateBetween(a, Speed(tau, k, u), tau);
  }

  lemma RateBetween(a: real, w: real, tau: real)
    requires -tau <= w <= tau
    ensures Between(-Times(a, tau), Times(a, w), Times(a, tau))
  {
    ScaledBetween(-Times(a, tau), a, w + tau, 2.0 * tau);
    assert Times(a, w + tau) == Times(a, w) + Times(a, tau);
    assert Times(a, 2.0 * tau) == 2.0 * Times(a, tau);
  }

  /** The spline lasts four periods a cycle, and it is cut at the multiples of a period. */
  lemma Duration(s: Spline, q0: real, a: real, tau: real, n: nat)
    requires n > 0 && Cycles(s, q0, a, tau, 4 * n)
    ensures s[0].start == 0.0 && s[|s| - 1].end == Times((4 * n) as real, tau)
  {
  }

  // ---------- The limit checks ----------

  /** What the program checks before it builds the spline. */
  predicate GuardPasses(q0: real, a: real, tau: real, velocityLimit: real, lower: real, upper: real) {
    && -velocityLimit <= Times(a, tau) <= velocityLimit
    && lower <= q0 + Times(0.5 * a, Times(tau, tau)) <= upper
  }

  ghost predicate WithinLimits(s: Spline, lower: real, upper: real) {
    forall k, u :: 0 <= k < |s| && 0.0 <= u <= Span(s[k]) ==> lower <= ValueAt(s[k], u) <= upper
  }

  ghost predicate WithinVelocity(s: Spline, limit: real) {
    forall k, u :: 0 <= k < |s| && 0.0 <= u <= Span(s[k]) ==> -limit <= RateAt(s[k], u) <= limit
  }

  /** The velocity check is exact. */
  lemma VelocityCheckIsExact(s: Spline, q0: real, a: real, tau: real, n: nat, limit: real)
    requires tau > 0.0 && n > 0 && Cycles(s, q0, a, tau, 4 * n)
    ensures WithinVelocity(s, limit) <==> -limit <= Times(a, tau) <= limit
  {
    if -limit <= Times(a, tau) <= limit {
      forall k, u | 0 <= k < |s| && 0.0 <= u <= Span(s[k]) ensures -limit <= RateAt(s[k], u) <= limit {
        MotionBounds(q0, a, tau, k, u);
      }
    } else {
      MotionFromProgress(q0, a, tau, 1, 0.0);
      MotionFromProgress(q0, a, tau, 3, 0.0);
      assert RateAt(s[1], 0.0) == Times(a, tau) && RateAt(s[3], 0.0) == Times(a, 0.0 - tau);
      assert Times(a, 0.0 - tau) == -Times(a, tau);
    }
  }

  /** The position check is not: the motion keeps the joint's limits exactly when both its start and
      its peak do, and the check looks half-way to the peak. */
  lemma WithinLimitsIff(s: Spline, q0: real, a: real, tau: real, n: nat, lower: real, upper: real)
    requires tau > 0.0 && n > 0 && Cycles(s, q0, a, tau, 4 * n)
    ensures WithinLimits(s, lower, upper) <==> lower <= q0 <= upper && lower <= Peak(q0, a, tau) <= upper
  {
    if WithinLimits(s, lower, upper) {
      RestsBetweenCycles(q0, a, tau, 0);
      assert lower <= ValueAt(s[0], 0.0) <= upper;
      assert lower <= ValueAt(s[2], 0.0) <= upper;
    }
    if lower <= q0 <= upper && lower <= Peak(q0, a, tau) <= upper {
      forall k, u | 0 <= k < |s| && 0.0 <= u <= Span(s[k]) ensures lower <= ValueAt(s[k], u) <= upper {
        MotionBounds(q0, a, tau, k, u);
      }
    }
  }

  /** A joint at 0 with limits -1 and 1, acceleration 2 and period 1 passes the check and reaches 2. */
  lemma GuardMissesPeak(s: Spline)
    requires Cycles(s, 0.0, 2.0, 1.0, 4)
    ensures GuardPasses(0.0, 2.0, 1.0, 2.0, -1.0, 1.0) && !WithinLimits(s, -1.0, 1.0)
  {
    WithinLimitsIff(s, 0.0, 2.0, 1.0, 1, -1.0, 1.0);
    assert Times(2.0, Times(1.0, 1.0)) == 2.0;
  }

  /** For a start within limits, passing the check keeps the motion within limits exactly when the
      peak is at most as far as the limit on its side. */
  lemma GuardSufficesIff(s: Spline, q0: real, a: real, tau: real, n: nat, velocityLimit: real, lower: real, upper: real)
    requires tau > 0.0 && n > 0 && Cycles(s, q0, a, tau, 4 * n) && lower <= q0 <= upper
    requires GuardPasses(q0, a, tau, velocityLimit, lower, upper)
    ensures WithinLimits(s, lower, upper) <==> if a >= 0.0 then Peak(q0, a, tau) <= upper else lower <= Peak(q0, a, tau)
    ensures WithinVelocity(s, velocityLimit)
  {
    WithinLimitsIff(s, q0, a, tau, n, lower, upper);
    VelocityCheckIsExact(s, q0, a, tau, n, velocityLimit);
  }
}
