/** Splitting the model instances of a plant into the environment and open kinematic chains, and
    the position masks of the arms built from the chains.

    The program visits instances in index order and looks every instance's parent up among those
    placed so far. The specification walks up the parents. */
module KinematicChains {
  import opened Wrappers

  type Instance = nat

  const WORLD: Instance := 0
  const DEFAULT: Instance := 1

  /** A joint of some instance, with the instance that its parent body belongs to. */
  datatype Joint = Joint(instance: Instance, parentInstance: Instance)

  /** What the algorithm reads of a plant: the joints in order, and each instance's positions. */
  datatype Plant = Plant(numInstances: nat, joints: seq<Joint>, numPositions: seq<nat>)

  datatype Error = NoParent(instance: Instance) | NotAttached(instance: Instance)

  predicate Valid(plant: Plant) {
    plant.numInstances >= 2 && |plant.numPositions| == plant.numInstances
  }

  // ---------- Parents ----------

  predicate LeavesInstance(j: Joint, i: Instance) {
    j.instance == i && j.parentInstance != i
  }

  function ParentFrom(joints: seq<Joint>, i: Instance): Option<Instance> {
    if joints == [] then None
    else if LeavesInstance(joints[0], i) then Some(joints[0].parentInstance)
    else ParentFrom(joints[1..], i)
  }

  function Parent(plant: Plant, i: Instance): Option<Instance> {
    ParentFrom(plant.joints, i)
  }

  lemma {:induction false} ParentFromOutward(joints: seq<Joint>, i: Instance)
    ensures ParentFrom(joints, i) == None <==> forall k :: 0 <= k < |joints| ==> !LeavesInstance(joints[k], i)
    ensures ParentFrom(joints, i).Some? ==> ParentFrom(joints, i).value != i
  {
    if joints != [] {
      ParentFromOutward(joints[1..], i);
      if ParentFrom(joints, i) == None {
        forall k | 0 <= k < |joints| ensures !LeavesInstance(joints[k], i) {
          if k > 0 { assert joints[k] == joints[1..][k - 1]; }
        }
      }
    }
  }

  method FindParentModelIndex(plant: Plant, i: Instance) returns (r: Result<Instance, Error>)
    ensures r == match Parent(plant, i) case Some(p) => Ok(p) case None => Err(NoParent(i))
    ensures r.Ok? ==>
              exists k :: 0 <= k < |plant.joints| && plant.joints[k] == Joint(i, r.value) && r.value != i
                && forall m :: 0 <= m < k && plant.joints[m].instance == i ==> plant.joints[m].parentInstance == i
    ensures r.Err? ==> forall m :: 0 <= m < |plant.joints| && plant.joints[m].instance == i ==>
                         plant.joints[m].parentInstance == i
  {
    assert plant.joints[0..] == plant.joints;
    for k := 0 to |plant.joints|
      invariant Parent(plant, i) == ParentFrom(plant.joints[k..], i)
      invariant forall m :: 0 <= m < k ==> !LeavesInstance(plant.joints[m], i)
    {
      assert plant.joints[k..][1..] == plant.joints[k + 1..];
      if LeavesInstance(plant.joints[k], i) {
        return Ok(plant.joints[k].parentInstance);
      }
    }
    r := Err(NoParent(i));
  }

  // ---------- Specification: environment and chains ----------

  /** Every instance up to i other than the first two has a parent with a smaller index. */
  ghost predicate Ordered(plant: Plant, i: nat) {
    forall k :: 2 <= k < i ==> Parent(plant, k).Some? && Parent(plant, k).value < k
  }

  /** i is the world, the default instance, or an immobile instance attached to the environment. */
  ghost predicate InEnvironment(plant: Plant, i: Instance)
    requires Valid(plant) && i < plant.numInstances && Ordered(plant, plant.numInstances)
    decreases i
  {
    i < 2 || (plant.numPositions[i] == 0 && InEnvironment(plant, Parent(plant, i).value))
  }

  /** The movable instance attached to the environment that carries i. */
  ghost function RootOf(plant: Plant, i: Instance): (root: Instance)
    requires Valid(plant) && i < plant.numInstances && Ordered(plant, plant.numInstances)
    requires !InEnvironment(plant, i)
    ensures 2 <= root <= i && !InEnvironment(plant, root) && plant.numPositions[root] > 0
    ensures InEnvironment(plant, Parent(plant, root).value)
    decreases i
  {
    if InEnvironment(plant, Parent(plant, i).value) then i else RootOf(plant, Parent(plant, i).value)
  }

  /** k steps up the parents. */
  ghost function Ancestor(plant: Plant, i: Instance, k: nat): (a: Instance)
    requires Valid(plant) && i < plant.numInstances && Ordered(plant, plant.numInstances)
    ensures a <= i
    decreases k
  {
    if k == 0 || i < 2 then i else Ancestor(plant, Parent(plant, i).value, k - 1)
  }

  ghost predicate Descends(plant: Plant, i: Instance, a: Instance)
    requires Valid(plant) && i < plant.numInstances && Ordered(plant, plant.numInstances)
  {
    exists k: nat :: Ancestor(plant, i, k) == a
  }

  /** An instance outside the environment descends from exactly one movable root attached to the
      environment, and everything below a root is outside the environment. */
  lemma {:induction false} DescendsFromRootIff(plant: Plant, i: Instance, root: Instance)
    requires Valid(plant) && i < plant.numInstances && root < plant.numInstances && Ordered(plant, plant.numInstances)
    requires root >= 2 && plant.numPositions[root] > 0 && InEnvironment(plant, Parent(plant, root).value)
    ensures Descends(plant, i, root) <==> !InEnvironment(plant, i) && RootOf(plant, i) == root
    decreases i
  {
    assert Ancestor(plant, i, 0) == i;
    if i >= 2 {
      var p := Parent(plant, i).value;
      DescendsFromRootIff(plant, p, root);
      if Descends(plant, p, root) {
        var k: nat :| Ancestor(plant, p, k) == root;
        assert Ancestor(plant, i, k + 1) == root;
      }
      if i != root && Descends(plant, i, root) {
        var k: nat :| Ancestor(plant, i, k) == root;
        assert Ancestor(plant, p, k - 1) == root;
      }
    }
  }

  // ---------- The grouping ----------

  datatype Grouping = Grouping(env: seq<Instance>, chains: seq<seq<Instance>>)

  ghost predicate Rising(s: seq<Instance>) {
    forall i, j :: 0 <= i < j < |s| ==> s[i] < s[j]
  }

  lemma RisingAppend(s: seq<Instance>, x: Instance)
    requires Rising(s) && forall i :: i in s ==> i < x
    ensures Rising(s + [x])
  {
    forall i, j | 0 <= i < j < |s + [x]| ensures (s + [x])[i] < (s + [x])[j] {
      assert s[i] in s;
    }
  }

  /** s starts with a root and lists, below n, everything that the root carries. */
  ghost predicate IsChain(plant: Plant, s: seq<Instance>, n: nat)
    requires Valid(plant) && Ordered(plant, plant.numInstances) && n <= plant.numInstances
  {
    && s != [] && Rising(s)
    && forall i: Instance :: i in s <==> i < n && !InEnvironment(plant, i) && RootOf(plant, i) == s[0]
  }

  /** The grouping of the instances below n. */
  ghost predicate Groups(plant: Plant, g: Grouping, n: nat)
    requires Valid(plant) && Ordered(plant, plant.numInstances) && 2 <= n <= plant.numInstances
  {
    && Rising(g.env)
    && (forall i: Instance :: i in g.env <==> i < n && InEnvironment(plant, i))
    && (forall c :: 0 <= c < |g.chains| ==> IsChain(plant, g.chains[c], n))
    && (forall i: Instance :: i < n && !InEnvironment(plant, i) ==> InSomeChain(g, i))
    && HeadsRise(g.chains)
  }

  ghost predicate HeadsRise(chains: seq<seq<Instance>>) {
    forall c, d :: 0 <= c < d < |chains| && chains[c] != [] && chains[d] != [] ==> chains[c][0] < chains[d][0]
  }

  /** An instance that joins another group leaves a chain a chain. */
  lemma KeepChain(plant: Plant, s: seq<Instance>, i: Instance)
    requires Valid(plant) && Ordered(plant, plant.numInstances) && 2 <= i < plant.numInstances && IsChain(plant, s, i)
    requires InEnvironment(plant, i) || RootOf(plant, i) != s[0]
    ensures IsChain(plant, s, i + 1)
  {
  }

  lemma ExtendChain(plant: Plant, s: seq<Instance>, i: Instance)
    requires Valid(plant) && Ordered(plant, plant.numInstances) && 2 <= i < plant.numInstances && IsChain(plant, s, i)
    requires !InEnvironment(plant, i) && RootOf(plant, i) == s[0]
    ensures IsChain(plant, s + [i], i + 1)
  {
    var t := s + [i];
    RisingAppend(s, i);
    assert t[0] == s[0];
    forall k: Instance ensures k in t <==> k < i + 1 && !InEnvironment(plant, k) && RootOf(plant, k) == s[0] {
      assert k in t <==> k in s || k == i;
    }
  }

  ghost predicate InSomeChain(g: Grouping, i: Instance) {
    exists c :: 0 <= c < |g.chains| && i in g.chains[c]
  }

  lemma ChainHead(plant: Plant, s: seq<Instance>, n: nat)
    requires Valid(plant) && Ordered(plant, plant.numInstances) && n <= plant.numInstances && IsChain(plant, s, n)
    ensures IsRoot(plant, s[0]) && s[0] < n && RootOf(plant, s[0]) == s[0]
  {
    assert s[0] in s;
  }

  /** A movable instance attached to the environment. */
  ghost predicate IsRoot(plant: Plant, root: Instance)
    requires Valid(plant) && Ordered(plant, plant.numInstances)
  {
    && 2 <= root < plant.numInstances && plant.numPositions[root] > 0
    && !InEnvironment(plant, root)
    && InEnvironment(plant, Parent(plant, root).value)
  }

  /** What the loop knows before it is clear that all parents come first. */
  ghost predicate Placed(plant: Plant, g: Grouping, n: nat) {
    && (forall i :: 0 <= i < n ==> i in g.env || exists c :: 0 <= c < |g.chains| && i in g.chains[c])
    && (forall i :: i in g.env ==> 0 <= i < n)
    && (forall c, i :: 0 <= c < |g.chains| && i in g.chains[c] ==> 0 <= i < n)
  }

  /** Appends model to the first chain that holds its parent. */
  method AddToChain(chains: seq<seq<Instance>>, parent: Instance, model: Instance)
    returns (r: seq<seq<Instance>>, added: bool, ghost at: nat)
    ensures added ==> at < |chains| && parent in chains[at] && r == chains[at := chains[at] + [model]]
    ensures !added ==> r == chains && forall c :: 0 <= c < |chains| ==> parent !in chains[c]
  {
    r, added, at := chains, false, 0;
    for c := 0 to |chains|
      invariant r == chains && !added
      invariant forall d :: 0 <= d < c ==> parent !in chains[d]
    {
      if parent in chains[c] {
        r := chains[c := chains[c] + [model]];
        return r, true, c;
      }
    }
  }

  /** Groups the instances. It succeeds exactly when every instance has a parent with a smaller
      index; then the environment and the chains are as specified. */
  method GroupKinematicChains(plant: Plant) returns (r: Result<Grouping, Error>)
    requires Valid(plant)
    ensures r.Ok? <==> Ordered(plant, plant.numInstances)
    ensures r.Ok? ==> Groups(plant, r.value, plant.numInstances)
    ensures r.Err? ==> 2 <= r.error.instance < plant.numInstances && Ordered(plant, r.error.instance)
                       && match r.error
                          case NoParent(i) => Parent(plant, i) == None
                          case NotAttached(i) => Parent(plant, i).Some? && Parent(plant, i).value > i
  {
    var env: seq<Instance> := [WORLD, DEFAULT];
    var chains: seq<seq<Instance>> := [];
    assert env[0] == WORLD && env[1] == DEFAULT;
    assert forall i: Instance :: i in env <==> i < 2;
    for i := 0 to plant.numInstances
      invariant Ordered(plant, i)
      invariant Placed(plant, Grouping(env, chains), if i < 2 then 2 else i)
      invariant Ordered(plant, plant.numInstances) ==> Groups(plant, Grouping(env, chains), if i < 2 then 2 else i)
    {
      if i == WORLD || i == DEFAULT {
        continue;
      }
      var parent := FindParentModelIndex(plant, i);
      if parent.Err? {
        return Err(parent.error);
      }
      ghost var g := Grouping(env, chains);
      if parent.value in env {
        if plant.numPositions[i] == 0 {
          env := env + [i];
        } else {
          chains := chains + [[i]];
        }
        if Ordered(plant, plant.numInstances) {
          if plant.numPositions[i] == 0 { JoinEnvironment(plant, g, i); } else { StartChain(plant, g, i); }
        }
        PlacedStep(plant, g, Grouping(env, chains), i);
      } else {
        var added;
        ghost var at;
        chains, added, at := AddToChain(chains, parent.value, i);
        if !added {
          return Err(NotAttached(i));
        }
        if Ordered(plant, plant.numInstances) { JoinChain(plant, g, i, at); }
        PlacedStep(plant, g, Grouping(env, chains), i);
      }
    }
    r := Ok(Grouping(env, chains));
  }

  lemma PlacedStep(plant: Plant, g: Grouping, h: Grouping, i: Instance)
    requires Placed(plant, g, i)
    requires (h == g.(env := g.env + [i])) || (h == g.(chains := g.chains + [[i]]))
             || (exists c :: 0 <= c < |g.chains| && h == g.(chains := g.chains[c := g.chains[c] + [i]]))
    ensures Placed(plant, h, i + 1)
  {
    forall k | 0 <= k < i + 1 ensures k in h.env || exists c :: 0 <= c < |h.chains| && k in h.chains[c] {
      if k == i {
        if h == g.(chains := g.chains + [[i]]) { assert i in h.chains[|g.chains|]; }
        if c :| 0 <= c < |g.chains| && h == g.(chains := g.chains[c := g.chains[c] + [i]]) { assert i in h.chains[c]; }
      } else if k !in g.env {
        var c :| 0 <= c < |g.chains| && k in g.chains[c];
        assert k in h.chains[c];
      }
    }
  }

  lemma JoinEnvironment(plant: Plant, g: Grouping, i: Instance)
    requires Valid(plant) && Ordered(plant, plant.numInstances) && 2 <= i < plant.numInstances
    requires Groups(plant, g, i) && Parent(plant, i).value in g.env && plant.numPositions[i] == 0
    ensures Groups(plant, g.(env := g.env + [i]), i + 1)
  {
    var h := g.(env := g.env + [i]);
    assert InEnvironment(plant, i);
    RisingAppend(g.env, i);
    forall c | 0 <= c < |h.chains| ensures IsChain(plant, h.chains[c], i + 1) {
      KeepChain(plant, g.chains[c], i);
    }
    forall k: Instance | k < i + 1 && !InEnvironment(plant, k) ensures InSomeChain(h, k) {
      assert InSomeChain(g, k);
    }
  }

  lemma StartChain(plant: Plant, g: Grouping, i: Instance)
    requires Valid(plant) && Ordered(plant, plant.numInstances) && 2 <= i < plant.numInstances
    requires Groups(plant, g, i) && Parent(plant, i).value in g.env && plant.numPositions[i] > 0
    ensures Groups(plant, g.(chains := g.chains + [[i]]), i + 1)
  {
    var h := g.(chains := g.chains + [[i]]);
    assert !InEnvironment(plant, i) && RootOf(plant, i) == i;
    forall c | 0 <= c < |h.chains| ensures IsChain(plant, h.chains[c], i + 1) && h.chains[c][0] <= i {
      if c < |g.chains| {
        ChainHead(plant, g.chains[c], i);
        KeepChain(plant, g.chains[c], i);
      }
    }
    assert HeadsRise(h.chains) by {
      forall c | 0 <= c < |g.chains| ensures g.chains[c] != [] && g.chains[c][0] < i {
        ChainHead(plant, g.chains[c], i);
      }
    }
    forall k: Instance | k < i + 1 && !InEnvironment(plant, k) ensures InSomeChain(h, k) {
      if k == i {
        assert i in h.chains[|g.chains|];
      } else {
        assert InSomeChain(g, k);
        var c :| 0 <= c < |g.chains| && k in g.chains[c];
        assert k in h.chains[c];
      }
    }
  }

  lemma JoinChain(plant: Plant, g: Grouping, i: Instance, at: nat)
    requires Valid(plant) && Ordered(plant, plant.numInstances) && 2 <= i < plant.numInstances
    requires Groups(plant, g, i) && at < |g.chains| && Parent(plant, i).value in g.chains[at]
    ensures Groups(plant, g.(chains := g.chains[at := g.chains[at] + [i]]), i + 1)
  {
    var h := g.(chains := g.chains[at := g.chains[at] + [i]]);
    assert IsChain(plant, g.chains[at], i);
    assert !InEnvironment(plant, i) && RootOf(plant, i) == g.chains[at][0];
    forall c | 0 <= c < |h.chains| ensures IsChain(plant, h.chains[c], i + 1) && h.chains[c][0] == g.chains[c][0] {
      assert IsChain(plant, g.chains[c], i);
      assert c != at ==> g.chains[c][0] != g.chains[at][0];
      JoinedChain(plant, g.chains[c], i);
    }
    forall k: Instance | k < i + 1 && !InEnvironment(plant, k) ensures InSomeChain(h, k) {
      if k == i {
        assert i in h.chains[at];
      } else {
        assert InSomeChain(g, k);
        var c :| 0 <= c < |g.chains| && k in g.chains[c];
        assert k in h.chains[c];
      }
    }
  }

  lemma JoinedChain(plant: Plant, s: seq<Instance>, i: Instance)
    requires Valid(plant) && Ordered(plant, plant.numInstances) && 2 <= i < plant.numInstances && IsChain(plant, s, i)
    requires !InEnvironment(plant, i)
    ensures IsChain(plant, if RootOf(plant, i) == s[0] then s + [i] else s, i + 1)
  {
    if RootOf(plant, i) == s[0] {
      ExtendChain(plant, s, i);
    } else {
      KeepChain(plant, s, i);
    }
  }

  /** The environment and the chains partition the instances, and a chain is one movable instance
      attached to the environment together with everything that descends from it. */
  lemma ChainsPartition(plant: Plant, g: Grouping)
    requires Valid(plant) && Ordered(plant, plant.numInstances) && Groups(plant, g, plant.numInstances)
    ensures forall i: Instance :: i < plant.numInstances ==> (i in g.env <==> !InSomeChain(g, i))
    ensures forall c, d, i :: 0 <= c < d < |g.chains| ==> !(i in g.chains[c] && i in g.chains[d])
    ensures forall c :: 0 <= c < |g.chains| ==> g.chains[c] != [] && IsRoot(plant, g.chains[c][0])
    ensures forall c, i :: 0 <= c < |g.chains| && 0 <= i < plant.numInstances && g.chains[c] != []
                           ==> (i in g.chains[c] <==> Descends(plant, i, g.chains[c][0]))
  {
    forall c | 0 <= c < |g.chains|
      ensures g.chains[c] != [] && IsRoot(plant, g.chains[c][0])
      ensures forall i :: 0 <= i < plant.numInstances ==> (i in g.chains[c] <==> Descends(plant, i, g.chains[c][0]))
    {
      assert IsChain(plant, g.chains[c], plant.numInstances);
      ChainHead(plant, g.chains[c], plant.numInstances);
      forall i | 0 <= i < plant.numInstances ensures i in g.chains[c] <==> Descends(plant, i, g.chains[c][0]) {
        DescendsFromRootIff(plant, i, g.chains[c][0]);
      }
    }
    forall c, d, i | 0 <= c < d < |g.chains| ensures !(i in g.chains[c] && i in g.chains[d]) {
      assert IsChain(plant, g.chains[c], plant.numInstances) && IsChain(plant, g.chains[d], plant.numInstances);
    }
    forall i: Instance | i < plant.numInstances ensures i in g.env <==> !InSomeChain(g, i) {
      if c :| 0 <= c < |g.chains| && i in g.chains[c] {
        assert IsChain(plant, g.chains[c], plant.numInstances);
      }
    }
  }

  // ---------- The arms' position masks ----------

  /** A position belongs to some chain of the grouping. */
  ghost predicate InArm(g: Grouping, c: nat, instanceOf: seq<Instance>, position: nat) {
    c < |g.chains| && position < |instanceOf| && instanceOf[position] in g.chains[c]
  }

  /** Each instance with a position has a positive count; the world has none. */
  ghost predicate PositionsMatch(plant: Plant, instanceOf: seq<Instance>) {
    && (forall p :: 0 <= p < |instanceOf| ==> instanceOf[p] < plant.numInstances && instanceOf[p] != WORLD)
    && (forall i ::
          0 <= i < |plant.numPositions|
          ==> (plant.numPositions[i] > 0 <==> exists p :: 0 <= p < |instanceOf| && instanceOf[p] == i))
  }

  /** The union of the masks of a chain's instances, computed instance by instance. */
  method DofMask(chain: seq<Instance>, instanceOf: seq<Instance>) returns (mask: seq<bool>)
    ensures |mask| == |instanceOf|
    ensures forall p :: 0 <= p < |mask| ==> (mask[p] <==> instanceOf[p] in chain)
  {
    mask := seq(|instanceOf|, _ => false);
    for k := 0 to |chain|
      invariant |mask| == |instanceOf|
      invariant forall p :: 0 <= p < |mask| ==> (mask[p] <==> instanceOf[p] in chain[..k])
    {
      var model := MakeFromModel(chain[k], instanceOf);
      mask := seq(|mask|, p requires 0 <= p < |mask| && |model| == |mask| => mask[p] || model[p]);
      assert chain[..k + 1] == chain[..k] + [chain[k]];
    }
    assert chain[..|chain|] == chain;
  }

  method MakeFromModel(model: Instance, instanceOf: seq<Instance>) returns (mask: seq<bool>)
    ensures |mask| == |instanceOf|
    ensures forall p :: 0 <= p < |mask| ==> (mask[p] <==> instanceOf[p] == model)
  {
    mask := seq(|instanceOf|, p requires 0 <= p < |instanceOf| => instanceOf[p] == model);
  }

  ghost predicate InAnArm(g: Grouping, instanceOf: seq<Instance>, position: nat) {
    exists c: nat :: InArm(g, c, instanceOf, position)
  }

  /** No position belongs to two arms, and the arms cover every position exactly when the default
      instance has none. */
  lemma ArmsCoverPositionsIff(plant: Plant, g: Grouping, instanceOf: seq<Instance>)
    requires Valid(plant) && Ordered(plant, plant.numInstances) && Groups(plant, g, plant.numInstances)
    requires PositionsMatch(plant, instanceOf)
    ensures forall c, d, p :: c != d ==> !(InArm(g, c, instanceOf, p) && InArm(g, d, instanceOf, p))
    ensures (forall p: nat :: p < |instanceOf| ==> InAnArm(g, instanceOf, p)) <==> plant.numPositions[DEFAULT] == 0
  {
    ChainsPartition(plant, g);
    if plant.numPositions[DEFAULT] == 0 {
      forall p: nat | p < |instanceOf| ensures InAnArm(g, instanceOf, p) {
        var i := instanceOf[p];
        assert plant.numPositions[i] > 0;
        assert !InEnvironment(plant, i);
        assert InSomeChain(g, i);
        var c: nat :| c < |g.chains| && i in g.chains[c];
        assert InArm(g, c, instanceOf, p);
      }
    } else {
      var p: nat :| p < |instanceOf| && instanceOf[p] == DEFAULT;
      assert InEnvironment(plant, DEFAULT);
      assert !InSomeChain(g, DEFAULT);
      assert !InAnArm(g, instanceOf, p);
    }
  }
}
