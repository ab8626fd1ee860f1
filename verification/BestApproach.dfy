/** Following a trajectory until shortly before the arms would collide.

    The trajectory is sampled for collisions; if there is one, candidate times from the latest to the
    earliest are tried, each by holding the movable arms from that time on and sampling again. Slicing,
    retiming and the collision query are functions; times are reals. */
module BestApproach {
  import opened RealArithmetic
  import opened Wrappers

  type Name = string

  type Arm = nat

  /** Times are relative to the trajectory's offset; shape stands for its path and time scaling. */
  datatype Traj = Traj(start: real, end: real, shape: nat)

  type System = map<Name, Traj>

  datatype Error = BadStep | StartsLate | MissingTrajectory

  /** A model instance of an arm and its number of positions. */
  datatype Instance = Instance(name: Name, positions: nat)

  datatype Environment = Environment(
    collide: (System, real) -> bool,
    slice: (Traj, real) -> Traj,
    retime: (Arm, System) -> Option<System>,
    instances: Arm -> seq<Instance>)

  const TOLERANCE := 0.000001

  // ---------- Sampling ----------

  /** Some trajectory, or the initial instant, reaches time t. */
  ghost predicate InHorizon(sys: System, t: real) {
    t <= 0.0 || exists name :: name in sys && t <= sys[name].end
  }

  function SampleTime(k: nat, step: real): real {
    Times(k as real, step)
  }

  ghost predicate CollidesAt(env: Environment, sys: System, step: real, k: nat) {
    InHorizon(sys, SampleTime(k, step)) && env.collide(sys, SampleTime(k, step))
  }

  ghost predicate NoSampledCollision(env: Environment, sys: System, step: real) {
    forall k :: !CollidesAt(env, sys, step, k)
  }

  /** A whole number of steps from the start. */
  ghost predicate OnGrid(t: real, step: real)
    requires step > 0.0
  {
    t >= 0.0 && t == Times((t / step).Floor as real, step)
  }

  /** The samples are the times on the grid, in order. */
  lemma SampleIsOnGrid(k: nat, step: real)
    requires step > 0.0
    ensures OnGrid(SampleTime(k, step), step)
  {
    var t := SampleTime(k, step);
    NonNegativeProduct(k as real, step);
    assert Times(t / step, step) == t;
    if t / step < k as real { LargerProduct(t / step, k as real, step); }
    if t / step > k as real { LargerProduct(k as real, t / step, step); }
  }

  lemma GridIsSampled(t: real, step: real) returns (k: nat)
    requires step > 0.0 && OnGrid(t, step)
    ensures t == SampleTime(k, step)
  {
    assert Times(t / step, step) == t;
    assert t / step >= 0.0;
    k := (t / step).Floor;
  }

  lemma SamplesOrdered(k: nat, l: nat, step: real)
    requires step > 0.0
    ensures k < l <==> SampleTime(k, step) < SampleTime(l, step)
  {
    if k < l { LargerProduct(k as real, l as real, step); }
    if l < k { LargerProduct(l as real, k as real, step); }
  }

  /** No time on the grid that some trajectory reaches collides. */
  ghost predicate GridIsFree(env: Environment, sys: System, step: real)
    requires step > 0.0
  {
    forall t :: OnGrid(t, step) && (t == 0.0 || exists name :: name in sys && t <= sys[name].end) ==>
      !env.collide(sys, t)
  }

  lemma GridIsFreeIff(env: Environment, sys: System, step: real)
    requires step > 0.0
    ensures NoSampledCollision(env, sys, step) <==> GridIsFree(env, sys, step)
  {
    if NoSampledCollision(env, sys, step) {
      forall t | OnGrid(t, step) && (t == 0.0 || exists name :: name in sys && t <= sys[name].end)
        ensures !env.collide(sys, t)
      {
        var k := GridIsSampled(t, step);
        assert !CollidesAt(env, sys, step, k);
      }
    }
    if GridIsFree(env, sys, step) {
      forall k: nat ensures !CollidesAt(env, sys, step, k) {
        SampleIsOnGrid(k, step);
      }
    }
  }

  /** The first time on the grid at which the arms collide, while some trajectory lasts. */
  ghost predicate FirstOnGrid(env: Environment, sys: System, step: real, t: real)
    requires step > 0.0
  {
    && OnGrid(t, step) && (t == 0.0 || exists name :: name in sys && t <= sys[name].end)
    && env.collide(sys, t) && forall u :: OnGrid(u, step) && u < t ==> !env.collide(sys, u)
  }

  lemma FirstSampleIsFirst(env: Environment, sys: System, step: real, k: nat)
    requires step > 0.0 && CollidesAt(env, sys, step, k)
    requires forall l :: 0 <= l < k ==> !CollidesAt(env, sys, step, l)
    ensures FirstOnGrid(env, sys, step, SampleTime(k, step))
  {
    var t := SampleTime(k, step);
    SampleIsOnGrid(k, step);
    forall u | OnGrid(u, step) && u < t ensures !env.collide(sys, u) {
      var l := GridIsSampled(u, step);
      SamplesOrdered(l, k, step);
      assert !CollidesAt(env, sys, step, l);
    }
  }

  method FinalTime(sys: System) returns (final: real)
    ensures final >= 0.0
    ensures forall t :: InHorizon(sys, t) <==> t <= final
  {
    final := 0.0;
    var todo := sys.Keys;
    while todo != {}
      invariant todo <= sys.Keys && final >= 0.0
      invariant final == 0.0 || exists name :: name in sys && final == sys[name].end
      invariant forall name :: name in sys && name !in todo ==> sys[name].end <= final
      decreases |todo|
    {
      var name :| name in todo;
      if sys[name].end > final {
        final := sys[name].end;
      }
      todo := todo - {name};
    }
  }

  /** Only finitely many samples lie before a given time. */
  lemma SamplesBounded(k: nat, step: real, final: real)
    requires step > 0.0 && SampleTime(k, step) <= final
    ensures k <= (final / step).Floor
  {
    var q := final / step;
    assert Times(q, step) == final;
    if (k as real) > q { LargerProduct(q, k as real, step); }
  }

  lemma {:induction false} LaterSamples(env: Environment, sys: System, step: real, final: real, k: nat, l: nat)
    requires step > 0.0 && k <= l && SampleTime(k, step) > final
    requires forall t :: InHorizon(sys, t) <==> t <= final
    ensures !CollidesAt(env, sys, step, l)
  {
    if k < l { LargerProduct(k as real, l as real, step); }
  }

  /** The first sampled time at which the arms collide. */
  method TimeOfArmsCollision(env: Environment, sys: System, step: real) returns (r: Option<real>)
    requires step > 0.0
    ensures r.None? <==> GridIsFree(env, sys, step)
    ensures r.Some? ==> FirstOnGrid(env, sys, step, r.value)
  {
    var finalTime := FinalTime(sys);
    var t := 0.0;
    ghost var k: nat := 0;
    while t <= finalTime
      invariant t == SampleTime(k, step)
      invariant forall l :: 0 <= l < k ==> !CollidesAt(env, sys, step, l)
      decreases (finalTime / step).Floor + 1 - k
    {
      SamplesBounded(k, step, finalTime);
      if env.collide(sys, t) {
        FirstSampleIsFirst(env, sys, step, k);
        GridIsFreeIff(env, sys, step);
        return Some(t);
      }
      assert !CollidesAt(env, sys, step, k);
      t := t + step;
      k := k + 1;
    }
    forall l: nat ensures !CollidesAt(env, sys, step, l) {
      if l >= k { LaterSamples(env, sys, step, finalTime, k, l); }
    }
    GridIsFreeIff(env, sys, step);
    r := None;
  }

  ghost predicate SomeStartsLate(sys: System) {
    exists name :: name in sys && sys[name].start > TOLERANCE
  }

  method AnyStartsAfter(sys: System, t: real) returns (late: bool)
    ensures late <==> exists name :: name in sys && sys[name].start > t + TOLERANCE
  {
    var todo := sys.Keys;
    while todo != {}
      invariant todo <= sys.Keys
      invariant forall name :: name in sys && name !in todo ==> sys[name].start <= t + TOLERANCE
      decreases |todo|
    {
      var name :| name in todo;
      if sys[name].start > t + TOLERANCE {
        return true;
      }
      todo := todo - {name};
    }
    late := false;
  }

  /** The sampling loop of the best approach, which also demands at every sample that each trajectory
      has started. As the first sample is at time zero, the demand fails there or never. */
  method FindCollision(env: Environment, sys: System, step: real) returns (r: Result<Option<real>, Error>)
    requires step > 0.0
    ensures r.Err? <==> SomeStartsLate(sys)
    ensures r.Err? ==> r.error == StartsLate
    ensures r.Ok? ==> (r.value.None? <==> GridIsFree(env, sys, step))
    ensures r.Ok? && r.value.Some? ==> FirstOnGrid(env, sys, step, r.value.value)
  {
    var finalTime := FinalTime(sys);
    var t := 0.0;
    ghost var k: nat := 0;
    while t <= finalTime
      invariant t == SampleTime(k, step) >= 0.0
      invariant k > 0 ==> !SomeStartsLate(sys)
      invariant forall l :: 0 <= l < k ==> !CollidesAt(env, sys, step, l)
      decreases (finalTime / step).Floor + 1 - k
    {
      SamplesBounded(k, step, finalTime);
      var late := AnyStartsAfter(sys, t);
      if late {
        return Err(StartsLate);
      }
      if env.collide(sys, t) {
        FirstSampleIsFirst(env, sys, step, k);
        GridIsFreeIff(env, sys, step);
        return Ok(Some(t));
      }
      assert !CollidesAt(env, sys, step, k);
      t := t + step;
      k := k + 1;
    }
    forall l: nat ensures !CollidesAt(env, sys, step, l) {
      if l >= k { LaterSamples(env, sys, step, finalTime, k, l); }
    }
    GridIsFreeIff(env, sys, step);
    r := Ok(None);
  }

  // ---------- Candidate times ----------

  function CandidateAt(tMin: real, best: real, numSlices: int, i: nat): real
    requires numSlices >= 2
  {
    var alpha := (i as real) / ((numSlices - 1) as real);
    Times(tMin, alpha) + Times(best, 1.0 - alpha)
  }

  ghost predicate IsCandidates(c: seq<real>, tMin: real, best: real, numSlices: int) {
    if numSlices <= 1 then c == [best]
    else |c| == numSlices && forall i :: 0 <= i < numSlices ==> c[i] == CandidateAt(tMin, best, numSlices, i)
  }

  method Candidates(tMin: real, best: real, numSlices: int) returns (c: seq<real>)
    ensures IsCandidates(c, tMin, best, numSlices)
  {
    if numSlices <= 1 {
      return [best];
    }
    c := [];
    for i := 0 to numSlices
      invariant |c| == i && forall k :: 0 <= k < i ==> c[k] == CandidateAt(tMin, best, numSlices, k)
    {
      var alpha := (i as real) / ((numSlices - 1) as real);
      c := c + [Times(tMin, alpha) + Times(best, 1.0 - alpha)];
    }
  }

  lemma CandidateFromBest(tMin: real, best: real, numSlices: int, i: nat)
    requires numSlices >= 2 && i < numSlices
    ensures CandidateAt(tMin, best, numSlices, i) == best - Times(best - tMin, (i as real) / ((numSlices - 1) as real))
  {
    var alpha := (i as real) / ((numSlices - 1) as real);
    Spread(tMin, best, alpha);
  }

  lemma Spread(x: real, y: real, a: real)
    ensures Times(x, a) + Times(y, 1.0 - a) == y - Times(y - x, a)
  {
  }

  lemma Fractions(i: nat, j: nat, m: nat)
    requires i < j <= m
    ensures 0.0 <= (i as real) / (m as real) < (j as real) / (m as real) <= 1.0
  {
    var d := m as real;
    var x, y := (i as real) / d, (j as real) / d;
    assert Times(x, d) == i as real && Times(y, d) == j as real;
    if x < 0.0 { LargerProduct(x, 0.0, d); }
    if y <= x && y < x { LargerProduct(y, x, d); }
    if y > 1.0 { LargerProduct(1.0, y, d); }
  }

  lemma OrderedProducts(w: real, a: real, b: real)
    requires 0.0 <= a < b <= 1.0
    ensures w > 0.0 ==> 0.0 <= Times(w, a) < Times(w, b) <= w
    ensures w == 0.0 ==> Times(w, a) == Times(w, b) == 0.0
    ensures w < 0.0 ==> Times(w, b) < Times(w, a)
  {
    Commuted(w, a);
    Commuted(w, b);
    if w > 0.0 {
      LargerProduct(a, b, w);
      if a > 0.0 { LargerProduct(0.0, a, w); }
      if b < 1.0 { LargerProduct(b, 1.0, w); }
    }
    if w < 0.0 {
      LargerProduct(a, b, -w);
      assert Times(a, -w) == -Times(a, w) && Times(b, -w) == -Times(b, w);
    }
  }

  ghost predicate NonIncreasing(c: seq<real>) {
    forall i, j :: 0 <= i < j < |c| ==> c[j] <= c[i]
  }

  lemma CandidateEnds(tMin: real, best: real, numSlices: int)
    requires numSlices >= 2
    ensures CandidateAt(tMin, best, numSlices, 0) == best
    ensures CandidateAt(tMin, best, numSlices, numSlices - 1) == tMin
  {
    var d := (numSlices - 1) as real;
    assert 0.0 / d == 0.0 && d / d == 1.0;
    CandidateFromBest(tMin, best, numSlices, 0);
    CandidateFromBest(tMin, best, numSlices, numSlices - 1);
    assert Times(best - tMin, 0.0) == 0.0 && Times(best - tMin, 1.0) == best - tMin;
  }

  /** Of two or more candidates the first is the latest time and the last the earliest; they never
      increase, and stay between the two, exactly when the latest is not before the earliest. */
  lemma CandidatesNonIncreasingIff(c: seq<real>, tMin: real, best: real, numSlices: int)
    requires IsCandidates(c, tMin, best, numSlices)
    ensures numSlices >= 2 ==> c[0] == best && c[numSlices - 1] == tMin
    ensures NonIncreasing(c) <==> numSlices <= 1 || tMin <= best
    ensures numSlices >= 2 && tMin <= best ==> forall i :: 0 <= i < |c| ==> tMin <= c[i] <= best
  {
    if numSlices >= 2 {
      CandidateEnds(tMin, best, numSlices);
      if tMin <= best {
        forall i, j | 0 <= i < j < |c| ensures c[j] <= c[i] {
          CandidateFromBest(tMin, best, numSlices, i);
          CandidateFromBest(tMin, best, numSlices, j);
          Fractions(i, j, numSlices - 1);
          OrderedProducts(best - tMin, (i as real) / ((numSlices - 1) as real),
            (j as real) / ((numSlices - 1) as real));
        }
      } else {
        assert c[numSlices - 1] > c[0];
      }
    }
  }

  /** Neighbours are as far apart as the ends divided by the number of gaps. */
  ghost predicate EvenlySpaced(c: seq<real>) {
    forall i :: 0 <= i < |c| - 1 ==> SpacedAt(c, i)
  }

  ghost predicate SpacedAt(c: seq<real>, i: nat)
    requires i < |c| - 1
  {
    Times(c[i] - c[i + 1], (|c| - 1) as real) == c[0] - c[|c| - 1]
  }

  lemma CandidatesEvenlySpaced(c: seq<real>, tMin: real, best: real, numSlices: int)
    requires IsCandidates(c, tMin, best, numSlices)
    ensures EvenlySpaced(c) && c[0] == best && (numSlices >= 2 ==> c[|c| - 1] == tMin)
  {
    if numSlices >= 2 {
      CandidateEnds(tMin, best, numSlices);
      forall i | 0 <= i < |c| - 1 ensures SpacedAt(c, i) {
        CandidateFromBest(tMin, best, numSlices, i);
        CandidateFromBest(tMin, best, numSlices, i + 1);
        Gap(best - tMin, i, numSlices - 1);
      }
    }
  }

  lemma Gap(w: real, i: nat, m: nat)
    requires m > 0
    ensures Times(Times(w, ((i + 1) as real) / (m as real)) - Times(w, (i as real) / (m as real)), m as real) == w
  {
    var d := m as real;
    var x, y := (i as real) / d, ((i + 1) as real) / d;
    assert Times(x, d) == i as real && Times(y, d) == (i + 1) as real;
    Distribute(w, y, x);
    Associate(w, y - x, d);
    Commuted(y - x, d);
    Distribute(d, y, x);
    Commuted(d, x);
    Commuted(d, y);
    assert Times(w, 1.0) == w;
  }

  lemma SpacedDescends(c: seq<real>)
    requires EvenlySpaced(c) && |c| > 0 && c[|c| - 1] <= c[0]
    ensures NonIncreasing(c)
  {
    forall i, j | 0 <= i < j < |c| ensures c[j] <= c[i] {
      DescendsTo(c, i, j);
    }
  }

  lemma {:induction false} DescendsTo(c: seq<real>, i: nat, j: nat)
    requires EvenlySpaced(c) && |c| > 0 && c[|c| - 1] <= c[0] && i <= j < |c|
    ensures c[j] <= c[i]
    decreases j
  {
    if i < j {
      DescendsTo(c, i, j - 1);
      assert SpacedAt(c, j - 1);
      var w := c[j - 1] - c[j];
      if w < 0.0 {
        LargerProduct(w, 0.0, (|c| - 1) as real);
        TimesZero((|c| - 1) as real);
      }
    }
  }

  // ---------- Holding the movable arms ----------

  function Earlier(x: real, y: real): real {
    if x < y then x else y
  }

  /** The system and the arm's own trajectories after slicing the arm's first k instances. */
  ghost function SliceTo(env: Environment, sys: System, instances: seq<Instance>, t: real, k: nat)
      : Option<(System, System)>
    requires k <= |instances|
  {
    if k == 0 then Some((sys, map[]))
    else
      match SliceTo(env, sys, instances, t, k - 1)
      case None => None
      case Some((s, own)) =>
        var name := instances[k - 1].name;
        if instances[k - 1].positions == 0 then Some((s, own))
        else if name !in s then None
        else
          var traj := env.slice(s[name], Earlier(t, s[name].end));
          Some((s[name := traj], own[name := traj]))
  }

  /** One arm held from t on; when retiming fails the arm keeps its slices. */
  ghost function HoldArm(env: Environment, sys: System, arm: Arm, t: real): Option<System> {
    match SliceTo(env, sys, env.instances(arm), t, |env.instances(arm)|)
    case None => None
    case Some((s, own)) =>
      match env.retime(arm, own)
      case None => Some(s)
      case Some(retimed) => Some(s + retimed)
  }

  ghost function HoldArms(env: Environment, sys: System, arms: seq<Arm>, t: real, k: nat): Option<System>
    requires k <= |arms|
  {
    if k == 0 then Some(sys)
    else
      match HoldArms(env, sys, arms, t, k - 1)
      case None => None
      case Some(s) => HoldArm(env, s, arms[k - 1], t)
  }

  method SliceArm(env: Environment, sys: System, instances: seq<Instance>, t: real)
      returns (r: Option<(System, System)>)
    ensures r == SliceTo(env, sys, instances, t, |instances|)
  {
    var sliced, own: System := sys, map[];
    for k := 0 to |instances|
      invariant SliceTo(env, sys, instances, t, k) == Some((sliced, own))
    {
      var instance := instances[k];
      if instance.positions == 0 {
        continue;
      }
      if instance.name !in sliced {
        SliceFails(env, sys, instances, t, k + 1, |instances|);
        return None;
      }
      var maxSliceTime := Earlier(t, sliced[instance.name].end);
      sliced := sliced[instance.name := env.slice(sliced[instance.name], maxSliceTime)];
      own := own[instance.name := sliced[instance.name]];
    }
    r := Some((sliced, own));
  }

  lemma {:induction false} SliceFails(env: Environment, sys: System, instances: seq<Instance>, t: real, k: nat, m: nat)
    requires k <= m <= |instances| && SliceTo(env, sys, instances, t, k) == None
    ensures SliceTo(env, sys, instances, t, m) == None
    decreases m
  {
    if k < m { SliceFails(env, sys, instances, t, k, m - 1); }
  }

  lemma {:induction false} HoldFails(env: Environment, sys: System, arms: seq<Arm>, t: real, k: nat, m: nat)
    requires k <= m <= |arms| && HoldArms(env, sys, arms, t, k) == None
    ensures HoldArms(env, sys, arms, t, m) == None
    decreases m
  {
    if k < m { HoldFails(env, sys, arms, t, k, m - 1); }
  }

  method HoldFrom(env: Environment, sys: System, arms: seq<Arm>, t: real) returns (r: Option<System>)
    ensures r == HoldArms(env, sys, arms, t, |arms|)
  {
    var sliced := sys;
    for k := 0 to |arms|
      invariant HoldArms(env, sys, arms, t, k) == Some(sliced)
    {
      var slices := SliceArm(env, sliced, env.instances(arms[k]), t);
      if slices == None {
        HoldFails(env, sys, arms, t, k + 1, |arms|);
        return None;
      }
      sliced := slices.value.0;
      var retimed := env.retime(arms[k], slices.value.1);
      if retimed == None {
        continue;
      }
      sliced := sliced + retimed.value;
    }
    r := Some(sliced);
  }

  /** Retiming an arm returns trajectories for that arm's models only. */
  ghost predicate RetimesOwn(env: Environment) {
    forall arm, own :: env.retime(arm, own).Some? ==> env.retime(arm, own).value.Keys <= own.Keys
  }

  ghost predicate AmongNames(instances: seq<Instance>, name: Name) {
    exists i :: 0 <= i < |instances| && instances[i].name == name
  }

  ghost predicate BelongsTo(env: Environment, arms: seq<Arm>, name: Name) {
    exists k :: 0 <= k < |arms| && AmongNames(env.instances(arms[k]), name)
  }

  lemma {:induction false} SliceKeepsOthers(env: Environment, sys: System, instances: seq<Instance>, t: real, k: nat)
    requires k <= |instances| && SliceTo(env, sys, instances, t, k).Some?
    ensures var (s, own) := SliceTo(env, sys, instances, t, k).value;
            && s.Keys == sys.Keys && own.Keys <= s.Keys
            && (forall name :: name in own ==> AmongNames(instances, name))
            && (forall name :: name in sys && !AmongNames(instances, name) ==> s[name] == sys[name])
  {
    if k > 0 { SliceKeepsOthers(env, sys, instances, t, k - 1); }
  }

  /** Holding arms changes no other model's trajectory and adds or loses none. */
  lemma {:induction false} HoldKeepsOthers(env: Environment, sys: System, arms: seq<Arm>, t: real, k: nat)
    requires RetimesOwn(env) && k <= |arms| && HoldArms(env, sys, arms, t, k).Some?
    ensures HoldArms(env, sys, arms, t, k).value.Keys == sys.Keys
    ensures forall name ::
              name in sys && !BelongsTo(env, arms, name) ==> HoldArms(env, sys, arms, t, k).value[name] == sys[name]
  {
    if k > 0 {
      HoldKeepsOthers(env, sys, arms, t, k - 1);
      var s := HoldArms(env, sys, arms, t, k - 1).value;
      var instances := env.instances(arms[k - 1]);
      SliceKeepsOthers(env, s, instances, t, |instances|);
      assert forall name :: !BelongsTo(env, arms, name) ==> !AmongNames(instances, name);
    }
  }

  /** No two instances of the arms have the same name. */
  ghost predicate NamesDiffer(env: Environment, arms: seq<Arm>) {
    && (forall k :: 0 <= k < |arms| ==> Distinct(env.instances(arms[k])))
    && (forall k, l, name :: 0 <= k < l < |arms| && AmongNames(env.instances(arms[k]), name)
                             ==> !AmongNames(env.instances(arms[l]), name))
  }

  ghost predicate Distinct(instances: seq<Instance>) {
    forall i, j :: 0 <= i < j < |instances| ==> instances[i].name != instances[j].name
  }

  /** The plain slices of the instances' trajectories, up to the k-th instance. */
  ghost function Slices(env: Environment, sys: System, instances: seq<Instance>, t: real, k: nat): System
    requires k <= |instances|
  {
    if k == 0 then map[]
    else
      var own := Slices(env, sys, instances, t, k - 1);
      var name := instances[k - 1].name;
      if instances[k - 1].positions == 0 || name !in sys then own
      else own[name := env.slice(sys[name], Earlier(t, sys[name].end))]
  }

  ghost function ArmSlices(env: Environment, sys: System, arm: Arm, t: real): System {
    Slices(env, sys, env.instances(arm), t, |env.instances(arm)|)
  }

  /** What an arm that is held from t on contributes: its plain slices, or those retimed. */
  ghost function ArmPart(env: Environment, sys: System, arm: Arm, t: real): System {
    match env.retime(arm, ArmSlices(env, sys, arm, t))
    case None => ArmSlices(env, sys, arm, t)
    case Some(retimed) => ArmSlices(env, sys, arm, t) + retimed
  }

  /** Every instance with positions among the first k has a trajectory. */
  ghost predicate AllPresent(sys: System, instances: seq<Instance>, k: nat) {
    k <= |instances| && forall i :: 0 <= i < k && instances[i].positions > 0 ==> instances[i].name in sys
  }

  lemma {:induction false} SliceToExactly(env: Environment, sys: System, instances: seq<Instance>, t: real, k: nat)
    requires k <= |instances| && Distinct(instances)
    ensures SliceTo(env, sys, instances, t, k).Some? <==> AllPresent(sys, instances, k)
    ensures SliceTo(env, sys, instances, t, k).Some? ==>
              var own := Slices(env, sys, instances, t, k);
              SliceTo(env, sys, instances, t, k).value == (sys + own, own)
  {
    if k > 0 {
      SlicesNamed(env, sys, instances, t, k - 1);
      SliceToExactly(env, sys, instances, t, k - 1);
      var own := Slices(env, sys, instances, t, k - 1);
      var name := instances[k - 1].name;
      assert name !in own;
      if SliceTo(env, sys, instances, t, k - 1).Some? && name in sys {
        var traj := env.slice(sys[name], Earlier(t, sys[name].end));
        assert (sys + own)[name] == sys[name];
        assert (sys + own)[name := traj] == sys + own[name := traj];
      }
    } else {
      assert sys + map[] == sys;
    }
  }

  lemma {:induction false} SlicesNamed(env: Environment, sys: System, instances: seq<Instance>, t: real, k: nat)
    requires k <= |instances|
    ensures forall name :: name in Slices(env, sys, instances, t, k) ==>
              name in sys && exists i :: 0 <= i < k && instances[i].name == name
  {
    if k > 0 { SlicesNamed(env, sys, instances, t, k - 1); }
  }

  /** Slices depend on the instances' own trajectories only. */
  lemma {:induction false} SlicesAgree(env: Environment, sys: System, other: System, instances: seq<Instance>, t: real,
      k: nat)
    requires k <= |instances| && sys.Keys == other.Keys
    requires forall name :: name in sys && AmongNames(instances, name) ==> other[name] == sys[name]
    ensures Slices(env, other, instances, t, k) == Slices(env, sys, instances, t, k)
  {
    if k > 0 {
      SlicesAgree(env, sys, other, instances, t, k - 1);
      assert AmongNames(instances, instances[k - 1].name);
    }
  }

  lemma HoldArmExactly(env: Environment, sys: System, arm: Arm, t: real)
    requires RetimesOwn(env) && Distinct(env.instances(arm))
    ensures HoldArm(env, sys, arm, t).Some? <==> AllPresent(sys, env.instances(arm), |env.instances(arm)|)
    ensures HoldArm(env, sys, arm, t).Some? ==> HoldArm(env, sys, arm, t).value == sys + ArmPart(env, sys, arm, t)
    ensures forall name :: name in ArmPart(env, sys, arm, t) ==> name in sys && AmongNames(env.instances(arm), name)
  {
    SliceToExactly(env, sys, env.instances(arm), t, |env.instances(arm)|);
    SlicesNamed(env, sys, env.instances(arm), t, |env.instances(arm)|);
  }

  /** Each part has been put in, and all else is as it was. */
  ghost predicate Holds(sys: System, parts: seq<System>, held: System) {
    && held.Keys == sys.Keys
    && (forall l, name :: 0 <= l < |parts| && name in parts[l] ==> name in held && held[name] == parts[l][name])
    && (forall name :: name in sys && InNoPart(parts, name) ==> held[name] == sys[name])
  }

  ghost predicate InNoPart(parts: seq<System>, name: Name) {
    forall l :: 0 <= l < |parts| ==> name !in parts[l]
  }

  lemma OnePartMore(sys: System, parts: seq<System>, held: System, part: System)
    requires Holds(sys, parts, held) && part.Keys <= sys.Keys
    requires forall name :: name in part ==> InNoPart(parts, name)
    ensures Holds(sys, parts + [part], held + part)
  {
    var all := parts + [part];
    forall name | name in sys && InNoPart(all, name) ensures (held + part)[name] == sys[name] {
      assert name !in all[|parts|];
      assert forall l :: 0 <= l < |parts| ==> all[l] == parts[l];
    }
  }

  /** The parts of the first k arms. */
  ghost function Parts(env: Environment, sys: System, arms: seq<Arm>, t: real, k: nat): (parts: seq<System>)
    requires k <= |arms|
    ensures |parts| == k && forall l :: 0 <= l < k ==> parts[l] == ArmPart(env, sys, arms[l], t)
  {
    if k == 0 then [] else Parts(env, sys, arms, t, k - 1) + [ArmPart(env, sys, arms[k - 1], t)]
  }

  lemma OthersLackName(env: Environment, sys: System, arms: seq<Arm>, t: real, k: nat, name: Name)
    requires RetimesOwn(env) && NamesDiffer(env, arms) && k < |arms| && AmongNames(env.instances(arms[k]), name)
    ensures InNoPart(Parts(env, sys, arms, t, k), name)
  {
    forall l | 0 <= l < k ensures name !in Parts(env, sys, arms, t, k)[l] {
      HoldArmExactly(env, sys, arms[l], t);
    }
  }

  /** One arm more finds its own trajectories as they were. */
  lemma PartUnchanged(env: Environment, sys: System, arms: seq<Arm>, t: real, k: nat, held: System)
    requires RetimesOwn(env) && NamesDiffer(env, arms) && k < |arms| && Holds(sys, Parts(env, sys, arms, t, k), held)
    ensures ArmPart(env, held, arms[k], t) == ArmPart(env, sys, arms[k], t)
  {
    var instances := env.instances(arms[k]);
    forall name | name in sys && AmongNames(instances, name) ensures held[name] == sys[name] {
      OthersLackName(env, sys, arms, t, k, name);
    }
    SlicesAgree(env, sys, held, instances, t, |instances|);
  }

  /** Holding arms succeeds exactly when every moving instance has a trajectory. */
  lemma {:induction false} HoldSucceedsIff(env: Environment, sys: System, arms: seq<Arm>, t: real, k: nat)
    requires RetimesOwn(env) && NamesDiffer(env, arms) && k <= |arms|
    ensures HoldArms(env, sys, arms, t, k).Some? <==> forall l :: 0 <= l < k ==> ArmPresent(env, sys, arms[l])
    ensures HoldArms(env, sys, arms, t, k).Some? <==>
              forall l, name :: 0 <= l < k && MovesOne(env.instances(arms[l]), name) ==> name in sys
  {
    if k > 0 {
      HoldSucceedsIff(env, sys, arms, t, k - 1);
      if HoldArms(env, sys, arms, t, k - 1).Some? {
        var s := HoldArms(env, sys, arms, t, k - 1).value;
        HoldKeepsOthers(env, sys, arms, t, k - 1);
        HoldArmExactly(env, s, arms[k - 1], t);
      }
    }
    forall l | 0 <= l < k
      ensures ArmPresent(env, sys, arms[l]) <==> forall name :: MovesOne(env.instances(arms[l]), name) ==> name in sys
    {
      var instances := env.instances(arms[l]);
      forall i | 0 <= i < |instances| && instances[i].positions > 0 ensures MovesOne(instances, instances[i].name) {}
    }
  }

  /** What holding any list of arms does, in terms of the system before: each arm contributes its part,
      whatever the other arms' retiming does, and all else stays. */
  lemma {:induction false} HoldArmsExactly(env: Environment, sys: System, arms: seq<Arm>, t: real, k: nat)
    requires RetimesOwn(env) && NamesDiffer(env, arms) && k <= |arms| && HoldArms(env, sys, arms, t, k).Some?
    ensures Holds(sys, Parts(env, sys, arms, t, k), HoldArms(env, sys, arms, t, k).value)
  {
    if k > 0 {
      HoldArmsExactly(env, sys, arms, t, k - 1);
      HoldOneMore(env, sys, arms, t, k - 1, HoldArms(env, sys, arms, t, k - 1).value);
    }
  }

  ghost predicate ArmPresent(env: Environment, sys: System, arm: Arm) {
    AllPresent(sys, env.instances(arm), |env.instances(arm)|)
  }

  lemma HoldOneMore(env: Environment, sys: System, arms: seq<Arm>, t: real, k: nat, s: System)
    requires RetimesOwn(env) && NamesDiffer(env, arms) && k < |arms| && Holds(sys, Parts(env, sys, arms, t, k), s)
    ensures HoldArm(env, s, arms[k], t).Some? ==>
              Holds(sys, Parts(env, sys, arms, t, k + 1), HoldArm(env, s, arms[k], t).value)
  {
    HoldArmExactly(env, s, arms[k], t);
    PartUnchanged(env, sys, arms, t, k, s);
    PartIsApart(env, sys, arms, t, k);
    OnePartMore(sys, Parts(env, sys, arms, t, k), s, ArmPart(env, sys, arms[k], t));
  }

  /** Different arms contribute different names. */
  lemma PartIsApart(env: Environment, sys: System, arms: seq<Arm>, t: real, k: nat)
    requires RetimesOwn(env) && NamesDiffer(env, arms) && k < |arms|
    ensures ArmPart(env, sys, arms[k], t).Keys <= sys.Keys
    ensures forall name :: name in ArmPart(env, sys, arms[k], t) ==> InNoPart(Parts(env, sys, arms, t, k), name)
  {
    HoldArmExactly(env, sys, arms[k], t);
    forall name | name in ArmPart(env, sys, arms[k], t) ensures InNoPart(Parts(env, sys, arms, t, k), name) {
      OthersLackName(env, sys, arms, t, k, name);
    }
  }

  /** A failed retiming does not skip the candidate: wherever the arm stands in the list and whatever
      becomes of the other arms, its instances go forward with their plain slices; a successful one
      replaces exactly what it returns. */
  lemma RetimingFailureKeepsSlices(env: Environment, sys: System, arms: seq<Arm>, t: real, k: nat)
    returns (own: System)
    requires RetimesOwn(env) && NamesDiffer(env, arms) && k < |arms|
    requires HoldArms(env, sys, arms, t, |arms|).Some?
    ensures forall name :: name in own <==> name in sys && MovesOne(env.instances(arms[k]), name)
    ensures forall name :: name in own ==>
              own[name] == env.slice(sys[name], if t < sys[name].end then t else sys[name].end)
    ensures var held := HoldArms(env, sys, arms, t, |arms|).value;
            var retimed := env.retime(arms[k], own);
            forall i :: 0 <= i < |env.instances(arms[k])| && env.instances(arms[k])[i].positions > 0 ==>
              var name := env.instances(arms[k])[i].name;
              && name in held && name in own
              && held[name] == if retimed.Some? && name in retimed.value then retimed.value[name] else own[name]
  {
    HoldSucceedsIff(env, sys, arms, t, |arms|);
    HoldArmsExactly(env, sys, arms, t, |arms|);
    own := ArmSlices(env, sys, arms[k], t);
    var instances := env.instances(arms[k]);
    SlicesMoving(env, sys, instances, t, |instances|);
    forall name | name in own
      ensures own[name] == env.slice(sys[name], if t < sys[name].end then t else sys[name].end)
    {
      var i :| 0 <= i < |instances| && instances[i].positions > 0 && instances[i].name == name;
      SliceOf(env, sys, instances, t, |instances|, i);
    }
    forall i | 0 <= i < |instances| && instances[i].positions > 0 ensures instances[i].name in own {
      assert ArmPresent(env, sys, arms[k]);
      SliceOf(env, sys, instances, t, |instances|, i);
    }
  }

  /** Some instance of this name has positions. */
  ghost predicate MovesOne(instances: seq<Instance>, name: Name) {
    exists i :: 0 <= i < |instances| && instances[i].positions > 0 && instances[i].name == name
  }

  lemma {:induction false} SlicesMoving(env: Environment, sys: System, instances: seq<Instance>, t: real, k: nat)
    requires k <= |instances|
    ensures forall name :: name in Slices(env, sys, instances, t, k) <==>
              name in sys && exists i :: 0 <= i < k && instances[i].positions > 0 && instances[i].name == name
  {
    if k > 0 { SlicesMoving(env, sys, instances, t, k - 1); }
  }

  lemma {:induction false} SliceOf(env: Environment, sys: System, instances: seq<Instance>, t: real, k: nat, i: nat)
    requires Distinct(instances) && i < k <= |instances| && instances[i].positions > 0 && instances[i].name in sys
    ensures instances[i].name in Slices(env, sys, instances, t, k)
    ensures Slices(env, sys, instances, t, k)[instances[i].name] ==
            env.slice(sys[instances[i].name], Earlier(t, sys[instances[i].name].end))
    decreases k
  {
    if i < k - 1 { SliceOf(env, sys, instances, t, k - 1, i); }
  }

  // ---------- The best approach ----------

  datatype Query = Query(
    sys: System,
    arms: seq<Arm>,
    numSlices: int,
    step: real,
    minTime: Option<real>,
    maxTime: Option<real>,
    buffer: real)

  ghost predicate Passes(env: Environment, q: Query, t: real)
    requires q.step > 0.0
  {
    var held := HoldArms(env, q.sys, q.arms, t, |q.arms|);
    held.Some? && GridIsFree(env, held.value, q.step)
  }

  /** The times are tried in order; the first that passes is used. */
  ghost predicate FirstPassing(env: Environment, q: Query, c: seq<real>, i: nat)
    requires q.step > 0.0
  {
    i < |c| && Passes(env, q, c[i])
    && forall k :: 0 <= k < i ==> HoldArms(env, q.sys, q.arms, c[k], |q.arms|).Some? && !Passes(env, q, c[k])
  }

  ghost predicate AllCollide(env: Environment, q: Query, c: seq<real>)
    requires q.step > 0.0
  {
    forall k :: 0 <= k < |c| ==> HoldArms(env, q.sys, q.arms, c[k], |q.arms|).Some? && !Passes(env, q, c[k])
  }

  /** The candidates for a first collision at t: from the collision less the buffer, or the maximum
      time if that is earlier, to the minimum time or zero, at equal distances. */
  ghost predicate Spans(q: Query, t: real, c: seq<real>) {
    && |c| == (if q.numSlices <= 1 then 1 else q.numSlices)
    && c[0] <= t - q.buffer && (q.maxTime.Some? ==> c[0] <= q.maxTime.value)
    && (c[0] == t - q.buffer || q.maxTime == Some(c[0]))
    && (|c| > 1 ==> c[|c| - 1] == if q.minTime.Some? then q.minTime.value else 0.0)
    && EvenlySpaced(c)
  }

  ghost predicate ChosenFrom(env: Environment, q: Query, c: seq<real>, r: Result<Option<System>, Error>)
    requires q.step > 0.0
  {
    match r
    case Ok(Some(s)) => exists i: nat ::
                          FirstPassing(env, q, c, i) && HoldArms(env, q.sys, q.arms, c[i], |q.arms|) == Some(s)
    case Ok(None) => AllCollide(env, q, c)
    case Err(e) => e == MissingTrajectory && exists i ::
                                               0 <= i < |c| && HoldArms(env, q.sys, q.arms, c[i], |q.arms|).None?
  }

  method TryCandidates(env: Environment, q: Query, c: seq<real>) returns (r: Result<Option<System>, Error>)
    requires q.step > 0.0
    ensures ChosenFrom(env, q, c, r)
  {
    for i := 0 to |c|
      invariant forall k :: 0 <= k < i ==> HoldArms(env, q.sys, q.arms, c[k], |q.arms|).Some? && !Passes(env, q, c[k])
    {
      var held := HoldFrom(env, q.sys, q.arms, c[i]);
      if held == None {
        return Err(MissingTrajectory);
      }
      var collision := TimeOfArmsCollision(env, held.value, q.step);
      if collision == None {
        assert FirstPassing(env, q, c, i);
        return Ok(Some(held.value));
      }
    }
    r := Ok(None);
  }

  /** A trajectory without collision comes back unchanged. Otherwise the approach ends at the latest
      candidate that passes. Whatever comes back has no sampled collision with the same step. */
  method BestApproachTrajectory(env: Environment, q: Query) returns (r: Result<Option<System>, Error>)
    ensures r == Err(BadStep) <==> q.step <= 0.0
    ensures q.step > 0.0 ==> (r == Err(StartsLate) <==> SomeStartsLate(q.sys))
    ensures q.step > 0.0 && !SomeStartsLate(q.sys) && GridIsFree(env, q.sys, q.step) ==> r == Ok(Some(q.sys))
    ensures q.step > 0.0 && !SomeStartsLate(q.sys) ==>
              forall t :: FirstOnGrid(env, q.sys, q.step, t) ==>
                if q.minTime.Some? && t - q.buffer < q.minTime.value then r == Ok(None)
                else exists c :: Spans(q, t, c) && ChosenFrom(env, q, c, r)
    ensures r.Ok? && r.value.Some? ==> q.step > 0.0 && GridIsFree(env, r.value.value, q.step)
  {
    if q.step <= 0.0 {
      return Err(BadStep);
    }
    var found := FindCollision(env, q.sys, q.step);
    if found.Err? {
      return Err(found.error);
    }
    if found.value == None {
      return Ok(Some(q.sys));
    }
    var t := found.value.value;
    var best := t - q.buffer;
    if q.minTime.Some? && best < q.minTime.value {
      return Ok(None);
    }
    if q.maxTime.Some? && best > q.maxTime.value {
      best := q.maxTime.value;
    }
    var earliest := if q.minTime.Some? then q.minTime.value else 0.0;
    var c := Candidates(earliest, best, q.numSlices);
    CandidatesEvenlySpaced(c, earliest, best, q.numSlices);
    assert Spans(q, t, c);
    r := TryCandidates(env, q, c);
  }

  /** With a minimum time and a maximum not before it, the candidates run from the clamped best time
      down to the minimum, none after the collision less the buffer; so the time used is the latest
      candidate that passes. */
  lemma LatestIsUsed(env: Environment, q: Query, t: real, c: seq<real>, i: nat)
    requires q.minTime.Some? && t - q.buffer >= q.minTime.value
    requires q.maxTime.Some? ==> q.maxTime.value >= q.minTime.value
    requires q.step > 0.0 && Spans(q, t, c)
    requires FirstPassing(env, q, c, i)
    ensures q.minTime.value <= c[i] <= t - q.buffer
    ensures q.maxTime.Some? ==> c[i] <= q.maxTime.value
    ensures forall k :: 0 <= k < |c| && Passes(env, q, c[k]) ==> c[k] <= c[i]
  {
    SpacedDescends(c);
  }

  /** A candidate whose only retiming fails and that passes all the same: the answer is the slice. */
  lemma FailedRetimingStillPasses()
    ensures var env := Environment((sys: System, t: real) => exists name :: name in sys && sys[name].end > 1.0,
                                   (traj: Traj, t: real) => traj.(end := t),
                                   (arm: Arm, own: System) => None,
                                   (arm: Arm) => [Instance("arm", 1)]);
            var q := Query(map["arm" := Traj(0.0, 2.0, 0)], [0], 1, 1.0, None, None, 0.0);
            && FirstOnGrid(env, q.sys, q.step, 0.0)
            && FirstPassing(env, q, [0.0], 0)
            && HoldArms(env, q.sys, q.arms, 0.0, 1) == Some(map["arm" := Traj(0.0, 0.0, 0)])
  {
    var env := Environment((sys: System, t: real) => exists name :: name in sys && sys[name].end > 1.0,
                           (traj: Traj, t: real) => traj.(end := t),
                           (arm: Arm, own: System) => None,
                           (arm: Arm) => [Instance("arm", 1)]);
    var sys: System := map["arm" := Traj(0.0, 2.0, 0)];
    var held: System := map["arm" := Traj(0.0, 0.0, 0)];
    assert SampleTime(0, 1.0) == 0.0;
    assert "arm" in sys && sys["arm"].end > 1.0;
    assert SliceTo(env, sys, [Instance("arm", 1)], 0.0, 0) == Some((sys, map[]));
    var none: System := map[];
    assert sys["arm" := Traj(0.0, 0.0, 0)] == held && none["arm" := Traj(0.0, 0.0, 0)] == held;
    assert SliceTo(env, sys, [Instance("arm", 1)], 0.0, 1) == Some((held, held));
    assert HoldArms(env, sys, [0], 0.0, 0) == Some(sys);
    assert HoldArms(env, sys, [0], 0.0, 1) == Some(held);
  }

  /** Without a minimum time a collision before the buffer has passed makes the candidates rise, from
      a negative time to zero. */
  lemma CandidatesMayRise(c: seq<real>)
    requires IsCandidates(c, 0.0, -1.0, 2)
    ensures c[0] == -1.0 && c[1] == 0.0 && !NonIncreasing(c)
  {
    CandidatesNonIncreasingIff(c, 0.0, -1.0, 2);
  }
}
