/** Marking the bodies that carry collision geometry downstream, and hashing only those.

    The program builds a map from body to kinematic information, walks every initially marked
    body's ancestors until it meets a mark, and feeds the hasher from the marked bodies in
    ascending body order. The specification is reachability along parents. */
module KinematicHash {
  import opened Wrappers

  type Body = nat
  type Item = int

  const WORLD: Body := 0

  /** A joint as the hash sees it: the transforms it contributes and its type name. */
  datatype Joint = Joint(parent: Body, child: Body, transforms: seq<Item>, typeName: Item)

  datatype KinematicInfo = KinematicInfo(
    parent: Body,
    jointTransforms: seq<Item>,
    jointType: Item,
    hasCollisionDownstream: bool)

  type Tree = map<Body, KinematicInfo>

  datatype BuildError = TwoJointsForOneChild

  // ---------- Specification: geometry downstream ----------

  /** The tree after the world node was entered: parents are bodies of the tree and below size. */
  predicate Closed(tree: Tree, size: nat) {
    && WORLD in tree && tree[WORLD].parent == WORLD && tree[WORLD].hasCollisionDownstream
    && (forall b :: b in tree ==> b < size)
    && (forall b {:trigger tree[b].parent} :: b in tree ==> tree[b].parent in tree)
  }

  /** The body k joints above b; the world is above itself. */
  ghost function Up(tree: Tree, size: nat, b: Body, k: nat): (a: Body)
    requires Closed(tree, size) && b in tree
    ensures a in tree
    decreases k
  {
    if k == 0 then b else Up(tree, size, tree[b].parent, k - 1)
  }

  /** b itself, or a body that b carries, is marked in the tree. */
  ghost predicate MarkedDownstream(tree: Tree, size: nat, b: Body)
    requires Closed(tree, size)
  {
    exists d, k: nat :: d in tree && d != WORLD && tree[d].hasCollisionDownstream && Up(tree, size, d, k) == b
  }

  lemma {:induction false} UpOnce(tree: Tree, size: nat, b: Body, k: nat)
    requires Closed(tree, size) && b in tree
    ensures Up(tree, size, b, k + 1) == tree[Up(tree, size, b, k)].parent
    decreases k
  {
    if k > 0 { UpOnce(tree, size, tree[b].parent, k - 1); }
  }

  lemma {:induction false} UpFromWorld(tree: Tree, size: nat, k: nat)
    requires Closed(tree, size)
    ensures Up(tree, size, WORLD, k) == WORLD
    decreases k
  {
    if k > 0 { UpFromWorld(tree, size, k - 1); }
  }

  ghost predicate SameJoint(x: KinematicInfo, y: KinematicInfo) {
    x.parent == y.parent && x.jointTransforms == y.jointTransforms && x.jointType == y.jointType
  }

  /** Two trees that differ at most in their marks. */
  ghost predicate SameShape(a: Tree, b: Tree) {
    && a.Keys == b.Keys
    && forall x {:trigger a[x]} {:trigger b[x]} :: x in a ==> SameJoint(a[x], b[x])
  }

  ghost predicate SameParents(a: Tree, b: Tree) {
    a.Keys == b.Keys && forall x {:trigger a[x].parent} {:trigger b[x].parent} :: x in a ==> a[x].parent == b[x].parent
  }

  lemma {:induction false} UpSameParents(a: Tree, b: Tree, size: nat, x: Body, k: nat)
    requires Closed(a, size) && Closed(b, size) && SameParents(a, b) && x in a
    ensures Up(a, size, x, k) == Up(b, size, x, k)
    decreases k
  {
    if k > 0 { UpSameParents(a, b, size, a[x].parent, k - 1); }
  }

  // ---------- Building the tree ----------

  /** The information that a joint contributes to its child. */
  function InfoOf(j: Joint, hasGeometry: set<Body>): KinematicInfo {
    KinematicInfo(j.parent, j.transforms, j.typeName, j.child in hasGeometry)
  }

  ghost predicate IsChild(joints: seq<Joint>, n: nat, b: Body) {
    exists m :: 0 <= m < n <= |joints| && joints[m].child == b
  }

  /** None of the first n joints has the same child as an earlier one. */
  ghost predicate OneJointPerChild(joints: seq<Joint>, n: nat) {
    forall k :: 0 <= k < n <= |joints| ==> !IsChild(joints, k, joints[k].child)
  }

  /** Every body is below size, and every joint's parent is the world or some joint's child. */
  ghost predicate ParentsAreBodies(joints: seq<Joint>, size: nat) {
    && size > 0
    && forall k :: 0 <= k < |joints| ==>
         joints[k].child < size && (joints[k].parent == WORLD || IsChild(joints, |joints|, joints[k].parent))
  }

  /** The tree holds each joint under its child, and the world. */
  ghost predicate Builds(joints: seq<Joint>, hasGeometry: set<Body>, tree: Tree) {
    && |joints| > 0
    && (forall b {:trigger IsChild(joints, |joints|, b)} :: b in tree <==> b == WORLD || IsChild(joints, |joints|, b))
    && (forall n :: 0 <= n < |joints| && joints[n].child != WORLD
                    ==> joints[n].child in tree && tree[joints[n].child] == InfoOf(joints[n], hasGeometry))
    && WORLD in tree && tree[WORLD] == KinematicInfo(WORLD, [], joints[0].typeName, true)
  }

  /** The joints determine the tree. */
  lemma BuildsOnce(joints: seq<Joint>, hasGeometry: set<Body>, tree: Tree, other: Tree)
    requires Builds(joints, hasGeometry, tree) && Builds(joints, hasGeometry, other)
    ensures tree == other
  {
    forall b | b in tree ensures b in other && tree[b] == other[b] {
      assert b == WORLD || IsChild(joints, |joints|, b);
    }
    forall b | b in other ensures b in tree {
      assert b == WORLD || IsChild(joints, |joints|, b);
    }
  }

  /** Demands that no two joints share a child; the world's own entry takes the first joint's type. */
  method BuildTree(joints: seq<Joint>, hasGeometry: set<Body>, ghost size: nat) returns (r: Result<Tree, BuildError>)
    requires |joints| > 0
    ensures r.Ok? <==> OneJointPerChild(joints, |joints|)
    ensures r.Ok? ==> Builds(joints, hasGeometry, r.value)
    ensures r.Ok? && ParentsAreBodies(joints, size) ==> Closed(r.value, size)
  {
    var tree: Tree := map[];
    for n := 0 to |joints|
      invariant OneJointPerChild(joints, n)
      invariant forall b :: b in tree <==> IsChild(joints, n, b)
      invariant forall m ::
                  0 <= m < n ==> joints[m].child in tree && tree[joints[m].child] == InfoOf(joints[m], hasGeometry)
    {
      var child := joints[n].child;
      if child in tree {
        return Err(TwoJointsForOneChild);
      }
      assert forall m :: 0 <= m < n ==> joints[m].child != child;
      tree := tree[child := InfoOf(joints[n], hasGeometry)];
    }
    tree := tree[WORLD := KinematicInfo(WORLD, [], joints[0].typeName, true)];
    r := Ok(tree);
    if ParentsAreBodies(joints, size) {
      BuiltTreeClosed(joints, hasGeometry, tree, size);
    }
  }

  lemma BuiltTreeClosed(joints: seq<Joint>, hasGeometry: set<Body>, tree: Tree, size: nat)
    requires ParentsAreBodies(joints, size) && Builds(joints, hasGeometry, tree)
    ensures Closed(tree, size)
  {
    forall b | b in tree ensures b < size && tree[b].parent in tree {
      if b != WORLD {
        assert IsChild(joints, |joints|, b);
        var m :| 0 <= m < |joints| && joints[m].child == b;
        assert tree[b] == InfoOf(joints[m], hasGeometry);
      }
    }
  }

  // ---------- Propagation ----------

  ghost predicate Marked(tree: Tree, b: Body) {
    b in tree && tree[b].hasCollisionDownstream
  }

  /** The marked body b has passed its mark on to its parent. */
  ghost predicate Settled(tree: Tree, b: Body) {
    b in tree && (tree[b].parent == WORLD || Marked(tree, tree[b].parent))
  }

  /** Every mark comes from an initial mark downstream. */
  ghost predicate MarksExplained(start: Tree, tree: Tree, size: nat)
    requires Closed(start, size)
  {
    forall b {:trigger Marked(tree, b)} :: b != WORLD && Marked(tree, b) ==> MarkedDownstream(start, size, b)
  }

  ghost predicate MarksKept(start: Tree, tree: Tree) {
    forall b :: Marked(start, b) ==> Marked(tree, b)
  }

  /** Whoever has not passed its mark on was marked from the start and is still to be visited, save
      for one body that is being seen to. */
  ghost predicate OthersSettled(start: Tree, tree: Tree, next: nat, last: Body) {
    forall b: Body {:trigger Settled(tree, b)} ::
      b != WORLD && b != last && Marked(tree, b) && !Settled(tree, b) ==> Marked(start, b) && b >= next
  }

  /** What holds between visits; the world counts as settled. */
  ghost predicate Propagating(start: Tree, tree: Tree, size: nat, next: nat)
    requires Closed(start, size)
  {
    && Closed(tree, size) && SameShape(start, tree) && MarksKept(start, tree)
    && OthersSettled(start, tree, next, WORLD) && MarksExplained(start, tree, size)
  }

  ghost function Unmarked(tree: Tree): set<Body> {
    set b | b in tree && !tree[b].hasCollisionDownstream
  }

  /** Inside the walk one further body, the last one marked, may be unsettled. */
  ghost predicate Climbing(start: Tree, tree: Tree, size: nat, next: nat, last: Body)
    requires Closed(start, size)
  {
    && Closed(tree, size) && SameShape(start, tree) && MarksKept(start, tree)
    && OthersSettled(start, tree, next + 1, last) && MarksExplained(start, tree, size)
    && last != WORLD && Marked(tree, last)
  }

  lemma DownstreamOfParent(tree: Tree, size: nat, b: Body)
    requires Closed(tree, size) && b in tree && MarkedDownstream(tree, size, b)
    ensures MarkedDownstream(tree, size, tree[b].parent)
  {
    var d, k: nat :| d in tree && d != WORLD && tree[d].hasCollisionDownstream && Up(tree, size, d, k) == b;
    UpOnce(tree, size, d, k);
    assert Up(tree, size, d, k + 1) == tree[b].parent;
  }

  /** The tree with body p marked. */
  function WithMark(tree: Tree, p: Body): Tree
    requires p in tree
  {
    tree[p := tree[p].(hasCollisionDownstream := true)]
  }

  lemma WithMarkMarks(tree: Tree, p: Body, b: Body)
    requires p in tree
    ensures Marked(WithMark(tree, p), b) <==> b == p || Marked(tree, b)
  {
  }

  lemma WithMarkClosed(tree: Tree, size: nat, p: Body)
    requires Closed(tree, size) && p in tree
    ensures Closed(WithMark(tree, p), size)
  {
    var r := WithMark(tree, p);
    forall b | b in r ensures r[b].parent in r {
      assert r[b].parent == tree[b].parent;
    }
  }

  lemma WithMarkShape(start: Tree, tree: Tree, p: Body)
    requires SameShape(start, tree) && p in tree
    ensures SameShape(start, WithMark(tree, p))
  {
    forall b | b in start ensures SameJoint(start[b], WithMark(tree, p)[b]) {
      assert SameJoint(start[b], tree[b]);
    }
  }

  lemma WithMarkShrinks(tree: Tree, p: Body)
    requires p in tree && !tree[p].hasCollisionDownstream
    ensures Unmarked(WithMark(tree, p)) < Unmarked(tree)
  {
    assert p in Unmarked(tree) && p !in Unmarked(WithMark(tree, p));
  }

  /** The parent of a marked body gets an explained mark. */
  lemma NewMarkExplained(start: Tree, tree: Tree, size: nat, last: Body)
    requires Closed(start, size) && SameShape(start, tree) && MarksExplained(start, tree, size)
    requires last != WORLD && Marked(tree, last) && tree[last].parent in tree
    ensures MarksExplained(start, WithMark(tree, tree[last].parent), size)
  {
    var p := tree[last].parent;
    assert SameJoint(start[last], tree[last]);
    DownstreamOfParent(start, size, last);
    forall b | b != WORLD && Marked(WithMark(tree, p), b) ensures MarkedDownstream(start, size, b) {
      WithMarkMarks(tree, p, b);
    }
  }

  /** It settles the body, and unsettles nobody. */
  lemma NewMarkSettles(start: Tree, tree: Tree, next: nat, last: Body)
    requires OthersSettled(start, tree, next, last) && last in tree && tree[last].parent in tree
    ensures OthersSettled(start, WithMark(tree, tree[last].parent), next, tree[last].parent)
  {
    var p := tree[last].parent;
    var r := WithMark(tree, p);
    forall b: Body | b != WORLD && b != p && Marked(r, b) && !Settled(r, b) ensures Marked(start, b) && b >= next {
      WithMarkMarks(tree, p, b);
      WithMarkMarks(tree, p, tree[b].parent);
      assert !Settled(tree, b) && b != last;
    }
  }

  lemma MarkParent(start: Tree, tree: Tree, size: nat, next: nat, last: Body)
    requires Closed(start, size) && Climbing(start, tree, size, next, last)
    requires tree[last].parent != WORLD && !tree[tree[last].parent].hasCollisionDownstream
    ensures Climbing(start, WithMark(tree, tree[last].parent), size, next, tree[last].parent)
    ensures Unmarked(WithMark(tree, tree[last].parent)) < Unmarked(tree)
  {
    var p := tree[last].parent;
    WithMarkClosed(tree, size, p);
    WithMarkShape(start, tree, p);
    WithMarkShrinks(tree, p);
    NewMarkExplained(start, tree, size, last);
    NewMarkSettles(start, tree, next + 1, last);
    forall b | Marked(start, b) ensures Marked(WithMark(tree, p), b) {
      WithMarkMarks(tree, p, b);
    }
  }

  /** The walk from a marked body upwards, ended by the world or by a body marked already. */
  method MarkAncestors(ghost start: Tree, input: Tree, size: nat, body: Body) returns (tree: Tree)
    requires Closed(start, size) && Propagating(start, input, size, body)
    requires body != WORLD && Marked(input, body)
    ensures Propagating(start, tree, size, body + 1)
  {
    tree := input;
    ghost var last := body;
    var parentIndex := tree[body].parent;
    while parentIndex != WORLD
      invariant Climbing(start, tree, size, body, last)
      invariant parentIndex == tree[last].parent
      decreases Unmarked(tree)
    {
      if tree[parentIndex].hasCollisionDownstream {
        break;
      }
      ghost var before := tree;
      tree := WithMark(tree, parentIndex);
      MarkParent(start, before, size, body, last);
      last := parentIndex;
      parentIndex := tree[parentIndex].parent;
    }
    assert Settled(tree, last);
  }

  lemma {:induction false} MarksReachUp(start: Tree, tree: Tree, size: nat, d: Body, k: nat)
    requires Closed(start, size) && Propagating(start, tree, size, size)
    requires d in start && d != WORLD && Marked(tree, d)
    ensures Marked(tree, Up(start, size, d, k))
    decreases k
  {
    if k > 0 {
      var p := start[d].parent;
      assert Settled(tree, d);
      if p == WORLD {
        UpFromWorld(start, size, k - 1);
      } else {
        MarksReachUp(start, tree, size, p, k - 1);
      }
    }
  }

  /** Every body other than the world is marked exactly when an initial mark lies at it or
      downstream of it; the two trees differ in nothing but marks. */
  ghost predicate FullyMarked(start: Tree, tree: Tree, size: nat)
    requires Closed(start, size)
  {
    && Closed(tree, size) && SameShape(start, tree)
    && forall b {:trigger Marked(tree, b)} ::
         b in tree && b != WORLD ==> (Marked(tree, b) <==> MarkedDownstream(start, size, b))
  }

  lemma PropagationStarts(start: Tree, size: nat)
    requires Closed(start, size)
    ensures Propagating(start, start, size, 0)
  {
    forall b | b != WORLD && Marked(start, b) ensures MarkedDownstream(start, size, b) {
      assert Up(start, size, b, 0) == b;
    }
  }

  lemma PropagationEnds(start: Tree, tree: Tree, size: nat)
    requires Closed(start, size) && Propagating(start, tree, size, size)
    ensures FullyMarked(start, tree, size)
  {
    forall b | b in tree && b != WORLD && MarkedDownstream(start, size, b) ensures Marked(tree, b) {
      var d, k: nat :| d in start && d != WORLD && start[d].hasCollisionDownstream && Up(start, size, d, k) == b;
      assert Marked(start, d);
      MarksReachUp(start, tree, size, d, k);
    }
  }

  /** A body that is unmarked or the world has nothing to pass on. */
  lemma NothingToPassOn(start: Tree, tree: Tree, size: nat, body: Body)
    requires Closed(start, size) && Propagating(start, tree, size, body)
    requires body == WORLD || !Marked(tree, body)
    ensures Propagating(start, tree, size, body + 1)
  {
  }

  method Propagate(start: Tree, size: nat) returns (tree: Tree)
    requires Closed(start, size)
    ensures FullyMarked(start, tree, size)
  {
    tree := start;
    PropagationStarts(start, size);
    for body := 0 to size
      invariant Propagating(start, tree, size, body)
    {
      if body in tree && body != WORLD && tree[body].hasCollisionDownstream {
        tree := MarkAncestors(start, tree, size, body);
      } else {
        NothingToPassOn(start, tree, size, body);
      }
    }
    PropagationEnds(start, tree, size);
  }

  // ---------- Feeding the hasher ----------

  /** The values that body b adds to the hash, given whether it is marked. */
  function FeedOf(info: KinematicInfo): seq<Item> {
    info.jointTransforms + [info.jointType]
  }

  /** What the hasher receives for one body, stated with the specification of the marks. */
  ghost function ItemsOf(start: Tree, size: nat, b: Body): seq<Item>
    requires Closed(start, size)
  {
    if b in start && (b == WORLD || MarkedDownstream(start, size, b)) then FeedOf(start[b]) else []
  }

  /** What it receives from bodies below n. */
  ghost function Feed(start: Tree, size: nat, n: nat): seq<Item>
    requires Closed(start, size)
  {
    if n == 0 then [] else Feed(start, size, n - 1) + ItemsOf(start, size, n - 1)
  }

  /** From one place to the other stands what the joint of body b contributes: transforms, then type. */
  ghost predicate IsBlock(joints: seq<Joint>, s: seq<Item>, from: nat, to: nat, b: Body) {
    && from <= to <= |s|
    && forall n :: 0 <= n < |joints| && joints[n].child == b ==>
         s[from..to] == joints[n].transforms + [joints[n].typeName]
  }

  /** The sequence is the type of the first joint, for the world, followed by one block for each of the
      bodies, in order. */
  ghost predicate IsBlocks(joints: seq<Joint>, s: seq<Item>, bodies: seq<Body>, ends: seq<nat>) {
    && |joints| > 0 && |s| > 0 && s[0] == joints[0].typeName
    && |ends| == |bodies| + 1 && ends[0] == 1 && ends[|bodies|] == |s|
    && forall k :: 0 <= k < |bodies| ==> IsBlock(joints, s, ends[k], ends[k + 1], bodies[k])
  }

  /** Some body with collision geometry is b or hangs from b, through joints of the list. */
  ghost predicate GeometryBelow(joints: seq<Joint>, hasGeometry: set<Body>, b: Body) {
    exists path: seq<Body> :: IsPath(joints, path, b) && path[|path| - 1] in hasGeometry
  }

  /** A path down from b that stays off the world; each body carries the next. */
  ghost predicate IsPath(joints: seq<Joint>, path: seq<Body>, b: Body) {
    && path != [] && path[0] == b && WORLD !in path
    && forall i :: 0 < i < |path| ==> IsJoint(joints, path[i - 1], path[i])
  }

  ghost predicate IsJoint(joints: seq<Joint>, parent: Body, child: Body) {
    exists n :: 0 <= n < |joints| && joints[n].parent == parent && joints[n].child == child
  }

  /** The bodies other than the world that joints move and that carry geometry, in ascending order. */
  ghost predicate AreCarriers(joints: seq<Joint>, hasGeometry: set<Body>, bodies: seq<Body>) {
    && (forall k, l :: 0 <= k < l < |bodies| ==> bodies[k] < bodies[l])
    && (forall b :: b in bodies <==>
          b != WORLD && IsChild(joints, |joints|, b) && GeometryBelow(joints, hasGeometry, b))
  }

  /** From the joints to the hasher: it fails exactly when two joints share a child. Otherwise it feeds
      the type of the first joint, for the world, and then, body by body in ascending order, the
      transforms and the type of the joint of every body that carries geometry. */
  method HashKinematics(joints: seq<Joint>, hasGeometry: set<Body>, size: nat)
    returns (r: Result<seq<Item>, BuildError>, ghost start: Tree, ghost bodies: seq<Body>, ghost ends: seq<nat>)
    requires |joints| > 0 && ParentsAreBodies(joints, size)
    ensures r.Ok? <==> OneJointPerChild(joints, |joints|)
    ensures r.Ok? ==> AreCarriers(joints, hasGeometry, bodies) && IsBlocks(joints, r.value, bodies, ends)
    ensures r.Ok? ==> Builds(joints, hasGeometry, start) && Closed(start, size) && r.value == Feed(start, size, size)
    ensures r.Ok? ==> forall b :: b in start && b != WORLD ==> (start[b].hasCollisionDownstream <==> b in hasGeometry)
  {
    bodies, ends := [], [];
    start := map[];
    var built := BuildTree(joints, hasGeometry, size);
    if built.Err? {
      return Err(built.error), start, bodies, ends;
    }
    start := built.value;
    forall b | b in start && b != WORLD ensures start[b].hasCollisionDownstream <==> b in hasGeometry {
      assert IsChild(joints, |joints|, b);
    }
    var fed := HashTree(built.value, size);
    bodies, ends := FeedBlocks(joints, hasGeometry, start, size, size);
    CarriersOf(joints, hasGeometry, start, size, bodies);
    return Ok(fed), start, bodies, ends;
  }

  /** The marked bodies below n, in ascending order. */
  ghost predicate MarkedBelow(start: Tree, size: nat, n: nat, bodies: seq<Body>)
    requires Closed(start, size)
  {
    && (forall k, l :: 0 <= k < l < |bodies| ==> bodies[k] < bodies[l])
    && (forall b :: b in bodies <==> b != WORLD && b < n && b in start && MarkedDownstream(start, size, b))
  }

  lemma MarkedBelowMore(start: Tree, size: nat, n: nat, bodies: seq<Body>)
    requires Closed(start, size) && MarkedBelow(start, size, n, bodies) && n != WORLD
    ensures MarkedBelow(start, size, n + 1,
                        if n in start && MarkedDownstream(start, size, n) then bodies + [n] else bodies)
  {
    assert forall k :: 0 <= k < |bodies| ==> bodies[k] in bodies;
  }

  /** The feed of the bodies below n, cut into blocks. */
  lemma {:induction false} FeedBlocks(joints: seq<Joint>, hasGeometry: set<Body>, start: Tree, size: nat, n: nat)
    returns (bodies: seq<Body>, ends: seq<nat>)
    requires Builds(joints, hasGeometry, start) && Closed(start, size) && n > 0
    ensures IsBlocks(joints, Feed(start, size, n), bodies, ends) && MarkedBelow(start, size, n, bodies)
    decreases n
  {
    if n == 1 {
      bodies, ends := [], [1];
      assert Feed(start, size, 0) == [];
      assert ItemsOf(start, size, WORLD) == [joints[0].typeName];
    } else {
      var b := n - 1;
      bodies, ends := FeedBlocks(joints, hasGeometry, start, size, b);
      MarkedBelowMore(start, size, b, bodies);
      bodies, ends := BodyMore(joints, hasGeometry, start, size, b, bodies, ends);
    }
  }

  lemma BodyMore(joints: seq<Joint>, hasGeometry: set<Body>, start: Tree, size: nat, b: Body, bodies: seq<Body>,
      ends: seq<nat>) returns (all: seq<Body>, more: seq<nat>)
    requires Builds(joints, hasGeometry, start) && Closed(start, size) && b != WORLD
    requires IsBlocks(joints, Feed(start, size, b), bodies, ends)
    ensures all == if b in start && MarkedDownstream(start, size, b) then bodies + [b] else bodies
    ensures IsBlocks(joints, Feed(start, size, b + 1), all, more)
  {
    all, more := bodies, ends;
    if b in start && MarkedDownstream(start, size, b) {
      ItemsOfJoint(joints, hasGeometry, start, size, b);
      all := bodies + [b];
      more := BlockMore(joints, Feed(start, size, b), bodies, ends, b, ItemsOf(start, size, b));
    } else {
      assert Feed(start, size, b + 1) == Feed(start, size, b);
    }
  }

  /** The items are what the joint of b contributes. */
  ghost predicate ItemsFit(joints: seq<Joint>, b: Body, items: seq<Item>) {
    forall n :: 0 <= n < |joints| && joints[n].child == b ==> items == joints[n].transforms + [joints[n].typeName]
  }

  lemma ItemsOfJoint(joints: seq<Joint>, hasGeometry: set<Body>, start: Tree, size: nat, b: Body)
    requires Builds(joints, hasGeometry, start) && Closed(start, size) && b != WORLD
    requires b in start && MarkedDownstream(start, size, b)
    ensures ItemsFit(joints, b, ItemsOf(start, size, b))
  {
  }

  lemma BlockMore(joints: seq<Joint>, s: seq<Item>, bodies: seq<Body>, ends: seq<nat>, b: Body, items: seq<Item>)
    returns (more: seq<nat>)
    requires IsBlocks(joints, s, bodies, ends) && ItemsFit(joints, b, items)
    ensures IsBlocks(joints, s + items, bodies + [b], more)
  {
    more := ends + [|s + items|];
    forall k | 0 <= k < |bodies| ensures IsBlock(joints, s + items, more[k], more[k + 1], bodies[k]) {
      assert IsBlock(joints, s, ends[k], ends[k + 1], bodies[k]);
      assert (s + items)[ends[k]..ends[k + 1]] == s[ends[k]..ends[k + 1]];
    }
    assert (s + items)[|s|..|s + items|] == items;
  }

  /** Carrying geometry, read off the tree. */
  lemma CarriersOf(joints: seq<Joint>, hasGeometry: set<Body>, start: Tree, size: nat, bodies: seq<Body>)
    requires Builds(joints, hasGeometry, start) && Closed(start, size)
    requires MarkedBelow(start, size, size, bodies)
    ensures AreCarriers(joints, hasGeometry, bodies)
  {
    forall b ensures b in bodies <==>
        b != WORLD && IsChild(joints, |joints|, b) && GeometryBelow(joints, hasGeometry, b) {
      if b != WORLD && b in start {
        CarrierIff(joints, hasGeometry, start, size, b);
      }
      assert b in start <==> b == WORLD || IsChild(joints, |joints|, b);
    }
  }

  lemma CarrierIff(joints: seq<Joint>, hasGeometry: set<Body>, start: Tree, size: nat, b: Body)
    requires Builds(joints, hasGeometry, start) && Closed(start, size) && b != WORLD && b in start
    ensures MarkedDownstream(start, size, b) <==> GeometryBelow(joints, hasGeometry, b)
  {
    if MarkedDownstream(start, size, b) {
      var d, k: nat :| d in start && d != WORLD && start[d].hasCollisionDownstream && Up(start, size, d, k) == b;
      var path := PathDown(joints, hasGeometry, start, size, b, d, k);
      GeometryMarks(joints, hasGeometry, start, d);
    }
    if path: seq<Body> :| IsPath(joints, path, b) && path[|path| - 1] in hasGeometry {
      PathUp(joints, hasGeometry, start, size, path, b);
      GeometryMarks(joints, hasGeometry, start, path[|path| - 1]);
    }
  }

  lemma GeometryMarks(joints: seq<Joint>, hasGeometry: set<Body>, start: Tree, d: Body)
    requires Builds(joints, hasGeometry, start) && d in start && d != WORLD
    ensures start[d].hasCollisionDownstream <==> d in hasGeometry
    ensures IsJoint(joints, start[d].parent, d)
    ensures forall p :: IsJoint(joints, p, d) ==> start[d].parent == p
  {
    assert IsChild(joints, |joints|, d);
  }

  /** Climbing from d to b, read as a path from b down to d. */
  lemma {:induction false} PathDown(joints: seq<Joint>, hasGeometry: set<Body>, start: Tree, size: nat, b: Body,
      d: Body, k: nat) returns (path: seq<Body>)
    requires Builds(joints, hasGeometry, start) && Closed(start, size) && b != WORLD && d != WORLD && d in start
    requires Up(start, size, d, k) == b
    ensures IsPath(joints, path, b) && path[|path| - 1] == d
    decreases k
  {
    if k == 0 {
      path := [d];
    } else {
      var p := start[d].parent;
      if p == WORLD { UpFromWorld(start, size, k - 1); }
      var above := PathDown(joints, hasGeometry, start, size, b, p, k - 1);
      GeometryMarks(joints, hasGeometry, start, d);
      path := above + [d];
    }
  }

  lemma {:induction false} PathUp(joints: seq<Joint>, hasGeometry: set<Body>, start: Tree, size: nat,
      path: seq<Body>, b: Body)
    requires Builds(joints, hasGeometry, start) && Closed(start, size) && b in start && IsPath(joints, path, b)
    ensures path[|path| - 1] in start && Up(start, size, path[|path| - 1], |path| - 1) == b
    decreases |path|
  {
    if |path| > 1 {
      var above, d := path[..|path| - 1], path[|path| - 1];
      PathUp(joints, hasGeometry, start, size, above, b);
      assert IsJoint(joints, path[|path| - 2], d);
      assert IsChild(joints, |joints|, d);
      GeometryMarks(joints, hasGeometry, start, d);
    }
  }

  method HashTree(start: Tree, size: nat) returns (fed: seq<Item>)
    requires Closed(start, size)
    ensures fed == Feed(start, size, size)
  {
    var tree := Propagate(start, size);
    fed := [];
    for b := 0 to size
      invariant fed == Feed(start, size, b)
    {
      FeedStep(start, tree, size, b);
      if b in tree && tree[b].hasCollisionDownstream {
        fed := fed + FeedOf(tree[b]);
      }
    }
  }

  lemma FeedStep(start: Tree, tree: Tree, size: nat, b: Body)
    requires Closed(start, size) && FullyMarked(start, tree, size)
    ensures Feed(start, size, b + 1) == Feed(start, size, b) + if Marked(tree, b) then FeedOf(tree[b]) else []
  {
  }

  // ---------- What the hash depends on ----------

  /** The same bodies and parents, and as many transforms; the values may differ. */
  ghost predicate SameLayout(joints: seq<Joint>, others: seq<Joint>) {
    && |joints| == |others|
    && forall n :: 0 <= n < |joints| ==>
         && joints[n].parent == others[n].parent && joints[n].child == others[n].child
         && |joints[n].transforms| == |others[n].transforms|
  }

  ghost predicate SameValues(j: Joint, k: Joint) {
    j.transforms == k.transforms && j.typeName == k.typeName
  }

  /** Between plants of the same layout the hasher receives the same sequence exactly when the joints of
      all bodies that carry geometry have the same transforms and types, and the first joints the same
      type. So no transform or type above geometry is lost. */
  lemma SameHashIff(joints: seq<Joint>, others: seq<Joint>, bodies: seq<Body>, s: seq<Item>, t: seq<Item>,
      ends: seq<nat>, otherEnds: seq<nat>)
    requires SameLayout(joints, others) && forall b :: b in bodies ==> IsChild(joints, |joints|, b)
    requires IsBlocks(joints, s, bodies, ends) && IsBlocks(others, t, bodies, otherEnds)
    ensures s == t <==>
              && joints[0].typeName == others[0].typeName
              && forall n :: 0 <= n < |joints| && joints[n].child in bodies ==> SameValues(joints[n], others[n])
  {
    SameEnds(joints, others, bodies, s, t, ends, otherEnds, |bodies|);
    forall n | 0 <= n < |joints| && joints[n].child in bodies && s == t ensures SameValues(joints[n], others[n]) {
      var k :| 0 <= k < |bodies| && bodies[k] == joints[n].child;
      assert IsBlock(joints, s, ends[k], ends[k + 1], bodies[k]);
      assert IsBlock(others, t, otherEnds[k], otherEnds[k + 1], bodies[k]);
      SameJointValues(joints[n], others[n]);
    }
    if joints[0].typeName == others[0].typeName
       && forall n :: 0 <= n < |joints| && joints[n].child in bodies ==> SameValues(joints[n], others[n]) {
      BlocksAgree(joints, others, bodies, s, t, ends, otherEnds, |bodies|);
      assert s[..|s|] == s && t[..|t|] == t;
    }
  }

  lemma SameJointValues(j: Joint, k: Joint)
    requires j.transforms + [j.typeName] == k.transforms + [k.typeName] && |j.transforms| == |k.transforms|
    ensures SameValues(j, k)
  {
    assert (j.transforms + [j.typeName])[..|j.transforms|] == j.transforms;
    assert (k.transforms + [k.typeName])[..|j.transforms|] == k.transforms;
    assert (j.transforms + [j.typeName])[|j.transforms|] == j.typeName;
    assert (k.transforms + [k.typeName])[|j.transforms|] == k.typeName;
  }

  lemma {:induction false} SameEnds(joints: seq<Joint>, others: seq<Joint>, bodies: seq<Body>, s: seq<Item>,
      t: seq<Item>, ends: seq<nat>, otherEnds: seq<nat>, k: nat)
    requires SameLayout(joints, others) && forall b :: b in bodies ==> IsChild(joints, |joints|, b)
    requires IsBlocks(joints, s, bodies, ends) && IsBlocks(others, t, bodies, otherEnds) && k <= |bodies|
    ensures ends[..k + 1] == otherEnds[..k + 1]
    decreases k
  {
    if k > 0 {
      SameEnds(joints, others, bodies, s, t, ends, otherEnds, k - 1);
      assert ends[k - 1] == ends[..k][k - 1] == otherEnds[..k][k - 1] == otherEnds[k - 1];
      var b := bodies[k - 1];
      assert IsBlock(joints, s, ends[k - 1], ends[k - 1 + 1], b);
      assert IsBlock(others, t, otherEnds[k - 1], otherEnds[k - 1 + 1], b);
      assert b in bodies && IsChild(joints, |joints|, b);
      var n :| 0 <= n < |joints| && joints[n].child == b;
      assert ends[..k + 1] == ends[..k] + [ends[k]] && otherEnds[..k + 1] == otherEnds[..k] + [otherEnds[k]];
    }
  }

  lemma {:induction false} BlocksAgree(joints: seq<Joint>, others: seq<Joint>, bodies: seq<Body>, s: seq<Item>,
      t: seq<Item>, ends: seq<nat>, otherEnds: seq<nat>, k: nat)
    requires SameLayout(joints, others) && forall b :: b in bodies ==> IsChild(joints, |joints|, b)
    requires IsBlocks(joints, s, bodies, ends) && IsBlocks(others, t, bodies, otherEnds) && k <= |bodies|
    requires ends == otherEnds && joints[0].typeName == others[0].typeName
    requires forall n :: 0 <= n < |joints| && joints[n].child in bodies ==> SameValues(joints[n], others[n])
    ensures ends[k] <= |s| && ends[k] <= |t| && s[..ends[k]] == t[..ends[k]]
    decreases k
  {
    if k > 0 {
      BlocksAgree(joints, others, bodies, s, t, ends, otherEnds, k - 1);
      var b, from, to := bodies[k - 1], ends[k - 1], ends[k];
      assert IsBlock(joints, s, ends[k - 1], ends[k - 1 + 1], b);
      assert IsBlock(others, t, otherEnds[k - 1], otherEnds[k - 1 + 1], b);
      assert b in bodies && IsChild(joints, |joints|, b);
      var n :| 0 <= n < |joints| && joints[n].child == b;
      assert SameValues(joints[n], others[n]);
      assert s[..to] == s[..from] + s[from..to] && t[..to] == t[..from] + t[from..to];
    }
  }

  // ---------- What the hash does not depend on ----------

  /** A set of bodies without collision geometry that holds whatever its members carry. */
  ghost predicate CollisionFreeSubtrees(tree: Tree, cut: set<Body>) {
    && WORLD !in cut
    && (forall b :: b in tree && b in cut ==> !tree[b].hasCollisionDownstream)
    && (forall b :: b in tree && tree[b].parent in cut ==> b in cut)
  }

  /** The tree without such a set. */
  ghost predicate IsRest(tree: Tree, cut: set<Body>, rest: Tree) {
    && CollisionFreeSubtrees(tree, cut)
    && (forall b :: b in rest <==> b in tree && b !in cut)
    && (forall b {:trigger rest[b]} :: b in rest ==> rest[b] == tree[b])
  }

  lemma RestClosed(tree: Tree, size: nat, cut: set<Body>, rest: Tree)
    requires Closed(tree, size) && IsRest(tree, cut, rest)
    ensures Closed(rest, size)
  {
    forall b | b in rest ensures rest[b].parent in rest {
      assert rest[b] == tree[b] && tree[b].parent in tree;
    }
  }

  /** Climbing from outside the cut never enters it. */
  lemma {:induction false} UpInRest(tree: Tree, size: nat, cut: set<Body>, rest: Tree, b: Body, k: nat)
    requires Closed(tree, size) && IsRest(tree, cut, rest) && Closed(rest, size) && b in rest
    ensures Up(rest, size, b, k) == Up(tree, size, b, k)
    decreases k
  {
    if k > 0 {
      assert rest[b] == tree[b];
      UpInRest(tree, size, cut, rest, tree[b].parent, k - 1);
    }
  }

  lemma DownstreamInRest(tree: Tree, size: nat, cut: set<Body>, rest: Tree, b: Body)
    requires Closed(tree, size) && IsRest(tree, cut, rest) && Closed(rest, size)
    ensures MarkedDownstream(tree, size, b) <==> MarkedDownstream(rest, size, b)
  {
    if MarkedDownstream(tree, size, b) {
      var d, k: nat :| d in tree && d != WORLD && tree[d].hasCollisionDownstream && Up(tree, size, d, k) == b;
      assert d in rest && rest[d] == tree[d];
      UpInRest(tree, size, cut, rest, d, k);
    }
    if MarkedDownstream(rest, size, b) {
      var d, k: nat :| d in rest && d != WORLD && rest[d].hasCollisionDownstream && Up(rest, size, d, k) == b;
      assert rest[d] == tree[d];
      UpInRest(tree, size, cut, rest, d, k);
    }
  }

  lemma DownstreamIsBody(tree: Tree, size: nat, b: Body)
    requires Closed(tree, size) && MarkedDownstream(tree, size, b)
    ensures b in tree
  {
  }

  lemma ItemsOfRest(tree: Tree, size: nat, cut: set<Body>, rest: Tree, b: Body)
    requires Closed(tree, size) && IsRest(tree, cut, rest) && Closed(rest, size)
    ensures ItemsOf(rest, size, b) == ItemsOf(tree, size, b)
  {
    DownstreamInRest(tree, size, cut, rest, b);
    if MarkedDownstream(rest, size, b) { DownstreamIsBody(rest, size, b); }
    assert b in rest ==> rest[b] == tree[b];
  }

  /** Cutting such subtrees out of a tree, and nothing else, leaves the fed sequence unchanged. */
  lemma {:induction false} FeedOfRest(tree: Tree, size: nat, cut: set<Body>, rest: Tree, n: nat)
    requires Closed(tree, size) && IsRest(tree, cut, rest) && Closed(rest, size)
    ensures Feed(rest, size, n) == Feed(tree, size, n)
  {
    if n > 0 {
      FeedOfRest(tree, size, cut, rest, n - 1);
      ItemsOfRest(tree, size, cut, rest, n - 1);
    }
  }

  /** Two trees that differ at most in the joint type of the world's entry. */
  ghost predicate SameButWorldType(a: Tree, b: Tree) {
    && a.Keys == b.Keys && WORLD in a
    && (forall x {:trigger a[x]} {:trigger b[x]} :: x in a && x != WORLD ==> a[x] == b[x])
    && a[WORLD] == KinematicInfo(WORLD, [], a[WORLD].jointType, true)
    && b[WORLD] == KinematicInfo(WORLD, [], b[WORLD].jointType, true)
  }

  lemma SameButWorldClosed(a: Tree, b: Tree, size: nat)
    requires Closed(a, size) && SameButWorldType(a, b)
    ensures Closed(b, size) && SameParents(a, b)
  {
    forall x | x in b ensures b[x].parent == a[x].parent && a[x].parent in b {
      assert x != WORLD ==> a[x] == b[x];
    }
  }

  lemma DownstreamSameMarks(a: Tree, b: Tree, size: nat, x: Body)
    requires Closed(a, size) && Closed(b, size) && SameButWorldType(a, b) && SameParents(a, b)
    requires MarkedDownstream(a, size, x)
    ensures MarkedDownstream(b, size, x)
  {
    var d, k: nat :| d in a && d != WORLD && a[d].hasCollisionDownstream && Up(a, size, d, k) == x;
    assert a[d] == b[d];
    UpSameParents(a, b, size, d, k);
  }

  lemma SameItems(a: Tree, b: Tree, size: nat, x: Body)
    requires Closed(a, size) && Closed(b, size) && SameButWorldType(a, b) && SameParents(a, b) && x != WORLD
    ensures ItemsOf(a, size, x) == ItemsOf(b, size, x)
  {
    if MarkedDownstream(a, size, x) { DownstreamSameMarks(a, b, size, x); }
    if MarkedDownstream(b, size, x) { DownstreamSameMarks(b, a, size, x); }
    assert x in a ==> a[x] == b[x];
  }

  /** The type of the world's entry is what the hasher receives first, and nothing else depends on it. */
  lemma {:induction false} WorldTypeComesFirst(a: Tree, b: Tree, size: nat, n: nat)
    requires Closed(a, size) && Closed(b, size) && SameButWorldType(a, b) && SameParents(a, b) && n > 0
    ensures Feed(a, size, n) != [] && Feed(b, size, n) != []
    ensures Feed(a, size, n)[0] == a[WORLD].jointType && Feed(b, size, n)[0] == b[WORLD].jointType
    ensures Feed(a, size, n)[1..] == Feed(b, size, n)[1..]
    decreases n
  {
    if n == 1 {
      assert Feed(a, size, 0) == [] && Feed(b, size, 0) == [];
      assert ItemsOf(a, size, WORLD) == [a[WORLD].jointType] && ItemsOf(b, size, WORLD) == [b[WORLD].jointType];
    } else {
      WorldTypeComesFirst(a, b, size, n - 1);
      SameItems(a, b, size, n - 1);
      TailOfSum(Feed(a, size, n - 1), Feed(b, size, n - 1), ItemsOf(a, size, n - 1));
    }
  }

  lemma TailOfSum(f: seq<Item>, g: seq<Item>, h: seq<Item>)
    requires f != [] && g != [] && f[1..] == g[1..]
    ensures (f + h)[0] == f[0] && (g + h)[0] == g[0] && (f + h)[1..] == (g + h)[1..]
  {
    assert (f + h)[1..] == f[1..] + h && (g + h)[1..] == g[1..] + h;
  }

  lemma FeedsEqualIff(a: Tree, b: Tree, size: nat)
    requires Closed(a, size) && Closed(b, size) && SameButWorldType(a, b) && SameParents(a, b)
    ensures Feed(a, size, size) == Feed(b, size, size) <==> a[WORLD].jointType == b[WORLD].jointType
  {
    WorldTypeComesFirst(a, b, size, size);
    var f, g := Feed(a, size, size), Feed(b, size, size);
    assert f == [f[0]] + f[1..] && g == [g[0]] + g[1..];
  }

  /** The joints whose child is not removed. */
  function Kept(joints: seq<Joint>, cut: set<Body>): seq<Joint> {
    if joints == [] then []
    else (if joints[0].child in cut then [] else [joints[0]]) + Kept(joints[1..], cut)
  }

  lemma {:induction false} KeptJoints(joints: seq<Joint>, cut: set<Body>)
    ensures forall j :: j in Kept(joints, cut) <==> j in joints && j.child !in cut
  {
    if joints != [] { KeptJoints(joints[1..], cut); }
  }

  /** The tree without the removed bodies, except for the joint type of the world's entry. */
  ghost predicate IsLeft(tree: Tree, cut: set<Body>, left: Tree) {
    && WORLD in left && WORLD in tree
    && (forall b :: b in left <==> b in tree && b !in cut)
    && (forall b {:trigger left[b]} :: b in left && b != WORLD ==> left[b] == tree[b])
    && left[WORLD] == KinematicInfo(WORLD, [], left[WORLD].jointType, true)
    && tree[WORLD] == KinematicInfo(WORLD, [], tree[WORLD].jointType, true)
  }

  /** Removing bodies from the list of joints cuts them out of the tree, and gives the world's entry
      the type of what is now the first joint. */
  lemma KeptTree(joints: seq<Joint>, hasGeometry: set<Body>, tree: Tree, cut: set<Body>, left: Tree)
    requires WORLD !in cut && Builds(joints, hasGeometry, tree) && Builds(Kept(joints, cut), hasGeometry, left)
    ensures IsLeft(tree, cut, left)
    ensures left[WORLD].jointType == Kept(joints, cut)[0].typeName && tree[WORLD].jointType == joints[0].typeName
  {
    var kept := Kept(joints, cut);
    KeptJoints(joints, cut);
    forall b | b in left && b != WORLD ensures b in tree && b !in cut && left[b] == tree[b] {
      assert IsChild(kept, |kept|, b);
      var m :| 0 <= m < |kept| && kept[m].child == b;
      var n :| 0 <= n < |joints| && joints[n] == kept[m];
    }
    forall b | b in tree && b !in cut && b != WORLD ensures b in left {
      assert IsChild(joints, |joints|, b);
      var n :| 0 <= n < |joints| && joints[n].child == b;
      var m :| 0 <= m < |kept| && kept[m] == joints[n];
      assert IsChild(kept, |kept|, b);
    }
  }

  lemma LeftIsRest(tree: Tree, cut: set<Body>, left: Tree, rest: Tree)
    requires CollisionFreeSubtrees(tree, cut) && IsLeft(tree, cut, left) && rest == left[WORLD := tree[WORLD]]
    ensures IsRest(tree, cut, rest)
  {
  }

  lemma RetypedIsRest(tree: Tree, cut: set<Body>, left: Tree, rest: Tree)
    requires IsLeft(tree, cut, left) && rest == left[WORLD := tree[WORLD]]
    ensures SameButWorldType(rest, left)
  {
  }

  lemma RetypedRest(rest: Tree, left: Tree, size: nat)
    requires Closed(rest, size) && SameButWorldType(rest, left)
    ensures Closed(left, size)
    ensures Feed(left, size, size) == Feed(rest, size, size) <==> left[WORLD].jointType == rest[WORLD].jointType
  {
    SameButWorldClosed(rest, left, size);
    FeedsEqualIff(rest, left, size);
  }

  lemma FeedOfLeft(tree: Tree, size: nat, cut: set<Body>, left: Tree)
    requires Closed(tree, size) && CollisionFreeSubtrees(tree, cut) && IsLeft(tree, cut, left)
    ensures Closed(left, size)
    ensures Feed(left, size, size) == Feed(tree, size, size) <==> left[WORLD].jointType == tree[WORLD].jointType
  {
    var rest := left[WORLD := tree[WORLD]];
    LeftIsRest(tree, cut, left, rest);
    RetypedIsRest(tree, cut, left, rest);
    RestClosed(tree, size, cut, rest);
    FeedOfRest(tree, size, cut, rest, size);
    RetypedRest(rest, left, size);
  }

  /** Removing subtrees without collision geometry from a plant leaves its kinematic hash unchanged
      exactly when the first joint that is left has the type of the joint that was the first. */
  lemma RemovalKeepsHashIff(joints: seq<Joint>, hasGeometry: set<Body>, tree: Tree, size: nat, cut: set<Body>,
      left: Tree)
    requires Builds(joints, hasGeometry, tree) && Closed(tree, size) && CollisionFreeSubtrees(tree, cut)
    requires Builds(Kept(joints, cut), hasGeometry, left)
    ensures Closed(left, size)
    ensures Feed(left, size, size) == Feed(tree, size, size) <==>
              Kept(joints, cut)[0].typeName == joints[0].typeName
  {
    KeptTree(joints, hasGeometry, tree, cut, left);
    FeedOfLeft(tree, size, cut, left);
  }

  /** A plant of two bodies on the world, of which only the second has geometry: removing the first
      changes the hash when their joints have different types. */
  method RemovingFirstJointChangesHash(first: Joint, second: Joint)
    returns (before: Result<seq<Item>, BuildError>, after: Result<seq<Item>, BuildError>)
    requires first == Joint(WORLD, 1, [], 7) && second == Joint(WORLD, 2, [], 9)
    ensures before.Ok? && after.Ok? && before.value != after.value
  {
    ghost var tree, left, bodies, ends;
    before, tree, bodies, ends := HashKinematics([first, second], {2}, 3);
    after, left, bodies, ends := HashKinematics([second], {2}, 3);
    TwoBodies(first, second, tree);
    RemovalKeepsHashIff([first, second], {2}, tree, 3, {1}, left);
  }

  lemma TwoBodies(first: Joint, second: Joint, tree: Tree)
    requires first.parent == second.parent == WORLD && first.child == 1 && second.child == 2
    requires Builds([first, second], {2}, tree)
    ensures CollisionFreeSubtrees(tree, {1})
    ensures Kept([first, second], {1}) == [second]
  {
    var joints := [first, second];
    assert joints[0].child in tree && joints[1].child in tree;
    assert joints[1..] == [second] && Kept([second], {1}) == [second];
    forall b | b in tree && b != WORLD ensures b == 1 || b == 2 {
      assert IsChild(joints, |joints|, b);
      var m :| 0 <= m < |joints| && joints[m].child == b;
    }
  }
}
