/** Bodies that joints connect by welds, and groups of bodies that make up a partition.

    Connection is reachability along welds. A weld closes a cycle when its bodies are connected
    already; the lemmas at the end say where that can happen. */
module WeldConnectivity {

  type Body = nat

  datatype Joint = Joint(parent: Body, child: Body, weld: bool)

  // ---------- Specification: connection by welds ----------

  ghost predicate Names(j: Joint, a: Body) {
    a == j.parent || a == j.child
  }

  ghost predicate Named(joints: seq<Joint>, a: Body) {
    exists k :: 0 <= k < |joints| && Names(joints[k], a)
  }

  ghost predicate Welds(j: Joint, a: Body, b: Body) {
    j.weld && Names(j, a) && Names(j, b)
  }

  ghost predicate Welded(joints: seq<Joint>, a: Body, b: Body) {
    exists k :: 0 <= k < |joints| && Welds(joints[k], a, b)
  }

  ghost predicate WeldPath(joints: seq<Joint>, p: seq<Body>, a: Body, b: Body) {
    && |p| > 0 && p[0] == a && p[|p| - 1] == b
    && forall k :: 0 <= k < |p| - 1 ==> Welded(joints, p[k], p[k + 1])
  }

  /** Some path of welds, possibly of length zero, leads from a to b. */
  ghost predicate Connected(joints: seq<Joint>, a: Body, b: Body) {
    exists p :: WeldPath(joints, p, a, b)
  }

  /** The k-th joint welds two bodies that earlier welds have already connected. */
  ghost predicate ClosesCycle(joints: seq<Joint>, k: nat) {
    k < |joints| && joints[k].weld && Connected(joints[..k], joints[k].parent, joints[k].child)
  }

  ghost predicate NoWeldClosesCycle(joints: seq<Joint>) {
    forall k :: !ClosesCycle(joints, k)
  }

  /** The m-th joint welds together two bodies that earlier joints name and that were not connected,
      one of them connected to b. */
  ghost predicate MergesOnto(joints: seq<Joint>, m: nat, b: Body) {
    && m < |joints| && joints[m].weld
    && Named(joints[..m], joints[m].parent) && Named(joints[..m], joints[m].child)
    && !Connected(joints[..m], joints[m].parent, joints[m].child)
    && (Connected(joints[..m], b, joints[m].parent) || Connected(joints[..m], b, joints[m].child))
  }

  /** After the k-th joint some weld joins its component to another one. */
  ghost predicate MergedLater(joints: seq<Joint>, k: nat) {
    k < |joints| && exists m :: k < m && MergesOnto(joints, m, joints[k].parent)
  }

  ghost predicate EveryCycleMergedLater(joints: seq<Joint>) {
    forall k :: ClosesCycle(joints, k) ==> MergedLater(joints, k)
  }

  lemma ConnectedRefl(joints: seq<Joint>, a: Body)
    ensures Connected(joints, a, a)
  {
    assert WeldPath(joints, [a], a, a);
  }

  lemma ConnectedStep(joints: seq<Joint>, a: Body, b: Body)
    requires Welded(joints, a, b)
    ensures Connected(joints, a, b)
  {
    assert WeldPath(joints, [a, b], a, b);
  }

  lemma ConnectedTrans(joints: seq<Joint>, a: Body, b: Body, c: Body)
    requires Connected(joints, a, b) && Connected(joints, b, c)
    ensures Connected(joints, a, c)
  {
    var p :| WeldPath(joints, p, a, b);
    var q :| WeldPath(joints, q, b, c);
    var r := p + q[1..];
    forall k | 0 <= k < |r| - 1 ensures Welded(joints, r[k], r[k + 1]) {
      if k >= |p| - 1 {
        assert r[k] == q[k - (|p| - 1)] && r[k + 1] == q[k + 1 - (|p| - 1)];
      }
    }
    assert WeldPath(joints, r, a, c);
  }

  lemma ConnectedSym(joints: seq<Joint>, a: Body, b: Body)
    requires Connected(joints, a, b)
    ensures Connected(joints, b, a)
  {
    var p :| WeldPath(joints, p, a, b);
    var r := seq(|p|, i requires 0 <= i < |p| => p[|p| - 1 - i]);
    forall k | 0 <= k < |r| - 1 ensures Welded(joints, r[k], r[k + 1]) {
      var m := |p| - 2 - k;
      assert Welded(joints, p[m], p[m + 1]);
    }
    assert WeldPath(joints, r, b, a);
  }

  lemma ConnectedMono(joints: seq<Joint>, j: Joint, a: Body, b: Body)
    requires Connected(joints, a, b)
    ensures Connected(joints + [j], a, b)
  {
    var p :| WeldPath(joints, p, a, b);
    forall k | 0 <= k < |p| - 1 ensures Welded(joints + [j], p[k], p[k + 1]) {
      var i :| 0 <= i < |joints| && Welds(joints[i], p[k], p[k + 1]);
      assert (joints + [j])[i] == joints[i];
    }
    assert WeldPath(joints + [j], p, a, b);
  }

  // ---------- Specification: partitions ----------

  type Groups = seq<seq<Body>>

  ghost predicate Disjoint(g: seq<Body>, h: seq<Body>) {
    forall a :: !(a in g && a in h)
  }

  ghost predicate AllDisjoint(groups: Groups) {
    forall i, j :: 0 <= i < j < |groups| ==> Disjoint(groups[i], groups[j])
  }

  ghost predicate NoDuplicates(g: seq<Body>) {
    forall i, j :: 0 <= i < j < |g| ==> g[i] != g[j]
  }

  ghost predicate AllDistinct(groups: Groups) {
    forall i :: 0 <= i < |groups| ==> NoDuplicates(groups[i])
  }

  ghost predicate SameGroup(groups: Groups, a: Body, b: Body) {
    exists i :: 0 <= i < |groups| && a in groups[i] && b in groups[i]
  }

  /** Everything in one group is connected, and everything in a group is a body of some joint. */
  ghost predicate Sound(groups: Groups, joints: seq<Joint>) {
    && (forall i, a, b :: 0 <= i < |groups| && a in groups[i] && b in groups[i] ==> Connected(joints, a, b))
    && (forall i, a :: 0 <= i < |groups| && a in groups[i] ==> Named(joints, a))
  }

  /** Every joint finds both its bodies in the groups, and a weld finds them in the same one. */
  ghost predicate Covers(groups: Groups, joints: seq<Joint>) {
    forall k :: 0 <= k < |joints| ==>
      && SameGroup(groups, joints[k].parent, joints[k].parent)
      && SameGroup(groups, joints[k].child, joints[k].child)
      && (joints[k].weld ==> SameGroup(groups, joints[k].parent, joints[k].child))
  }

  ghost predicate Partition(groups: Groups, joints: seq<Joint>) {
    AllDisjoint(groups) && Sound(groups, joints) && Covers(groups, joints)
  }

  lemma OneGroup(groups: Groups, a: Body, i: nat, j: nat)
    requires AllDisjoint(groups) && i < |groups| && j < |groups| && a in groups[i] && a in groups[j]
    ensures i == j
  {
  }

  /** A path of welds cannot leave a group. */
  lemma {:induction false} PathStaysInGroup(groups: Groups, joints: seq<Joint>, p: seq<Body>, a: Body, b: Body, i: nat)
    requires Partition(groups, joints) && i < |groups| && a in groups[i]
    requires WeldPath(joints, p, a, b)
    ensures b in groups[i]
    decreases |p|
  {
    if |p| > 1 {
      var c := p[1];
      assert Welded(joints, p[0], p[1]);
      var k :| 0 <= k < |joints| && Welds(joints[k], a, c);
      assert SameGroup(groups, joints[k].parent, joints[k].child);
      var m :| 0 <= m < |groups| && joints[k].parent in groups[m] && joints[k].child in groups[m];
      assert a in groups[m] && c in groups[m];
      OneGroup(groups, a, m, i);
      var q := p[1..];
      forall n | 0 <= n < |q| - 1 ensures Welded(joints, q[n], q[n + 1]) {
        assert q[n] == p[n + 1] && q[n + 1] == p[n + 2];
      }
      PathStaysInGroup(groups, joints, q, c, b, i);
    }
  }

  /** In a partition two bodies share a group exactly when both are bodies of the plant's joints
      and a path of welds connects them. */
  lemma SameGroupIffConnected(groups: Groups, joints: seq<Joint>, a: Body, b: Body)
    requires Partition(groups, joints)
    ensures SameGroup(groups, a, b) <==> Named(joints, a) && Connected(joints, a, b)
  {
    if Named(joints, a) && Connected(joints, a, b) {
      var k :| 0 <= k < |joints| && Names(joints[k], a);
      assert SameGroup(groups, a, a);
      var i :| 0 <= i < |groups| && a in groups[i] && a in groups[i];
      var p :| WeldPath(joints, p, a, b);
      PathStaysInGroup(groups, joints, p, a, b, i);
    }
  }

  /** A body that no joint names is connected to itself only. */
  lemma ConnectedIsNamed(joints: seq<Joint>, a: Body, b: Body)
    requires Connected(joints, a, b) && a != b
    ensures Named(joints, a) && Named(joints, b)
  {
    var p :| WeldPath(joints, p, a, b);
    assert Welded(joints, p[0], p[1]) && Welded(joints, p[|p| - 2], p[|p| - 2 + 1]);
    var k :| 0 <= k < |joints| && Welds(joints[k], p[0], p[1]);
    var l :| 0 <= l < |joints| && Welds(joints[l], p[|p| - 2], p[|p| - 1]);
    assert Names(joints[k], a) && Names(joints[l], b);
  }

  // ---------- Lists of joints in which no weld closes a cycle ----------

  /** Bodies that a weld joins have the same colour, so connected bodies have. */
  lemma {:induction false} ColoursAgree(joints: seq<Joint>, colour: Body -> Body, p: seq<Body>, a: Body, b: Body)
    requires WeldPath(joints, p, a, b)
    requires forall k :: 0 <= k < |joints| && joints[k].weld ==> colour(joints[k].parent) == colour(joints[k].child)
    ensures colour(a) == colour(b)
    decreases |p|
  {
    if |p| > 1 {
      assert Welded(joints, p[0], p[1]);
      var k :| 0 <= k < |joints| && Welds(joints[k], p[0], p[1]);
      var q := p[1..];
      forall n | 0 <= n < |q| - 1 ensures Welded(joints, q[n], q[n + 1]) {
        assert q[n] == p[n + 1] && q[n + 1] == p[n + 2];
      }
      ColoursAgree(joints, colour, q, p[1], b);
    }
  }

  /** No two joints share a child, and every child is deeper than its parent. */
  ghost predicate IsTree(joints: seq<Joint>, depth: Body -> nat) {
    && (forall k, l :: 0 <= k < l < |joints| ==> joints[k].child != joints[l].child)
    && (forall k :: 0 <= k < |joints| ==> depth(joints[k].parent) < depth(joints[k].child))
  }

  /** The body that carries a in the tree of joints. */
  ghost function RootOf(joints: seq<Joint>, depth: Body -> nat, a: Body): (root: Body)
    requires IsTree(joints, depth)
    ensures depth(root) <= depth(a)
    ensures root != a ==> exists k :: 0 <= k < |joints| && joints[k].child == a
    decreases depth(a)
  {
    if k :| 0 <= k < |joints| && joints[k].child == a then RootOf(joints, depth, joints[k].parent) else a
  }

  /** In a tree of joints no weld closes a cycle. */
  lemma TreeClosesNoCycle(joints: seq<Joint>, depth: Body -> nat)
    requires IsTree(joints, depth)
    ensures NoWeldClosesCycle(joints)
  {
    forall k: nat ensures !ClosesCycle(joints, k) {
      if ClosesCycle(joints, k) {
        var before, parent, child := joints[..k], joints[k].parent, joints[k].child;
        assert IsTree(before, depth);
        forall m | 0 <= m < |before| && before[m].weld
          ensures RootOf(before, depth, before[m].parent) == RootOf(before, depth, before[m].child)
        {
        }
        var p :| WeldPath(before, p, parent, child);
        ColoursAgree(before, a => RootOf(before, depth, a), p, parent, child);
        assert false;
      }
    }
  }

  /** A weld that closes a cycle and is never merged: the same two bodies welded twice. */
  lemma RepeatedWeld(a: Body, b: Body)
    requires a != b
    ensures var joints := [Joint(a, b, true), Joint(b, a, true)];
            ClosesCycle(joints, 1) && !EveryCycleMergedLater(joints)
  {
    var joints := [Joint(a, b, true), Joint(b, a, true)];
    assert Welds(joints[..1][0], b, a) && Welded(joints[..1], b, a);
    ConnectedStep(joints[..1], b, a);
    assert !MergedLater(joints, 1);
  }

  /** A weld that closes a cycle and is merged away: the pair welded twice is then welded to another. */
  lemma RepeatedWeldMerged()
    ensures var joints := [Joint(1, 2, true), Joint(2, 1, true), Joint(3, 4, true), Joint(2, 3, true)];
            ClosesCycle(joints, 1) && EveryCycleMergedLater(joints)
  {
    var joints := [Joint(1, 2, true), Joint(2, 1, true), Joint(3, 4, true), Joint(2, 3, true)];
    assert Welds(joints[..1][0], 2, 1) && Welded(joints[..1], 2, 1);
    ConnectedStep(joints[..1], 2, 1);
    var before := joints[..3];
    assert Names(before[1], 2) && Names(before[2], 3);
    ConnectedRefl(before, 2);
    if Connected(before, 2, 3) {
      var p :| WeldPath(before, p, 2, 3);
      ColoursAgree(before, (a: Body) => if a <= 2 then 1 else 3, p, 2, 3);
    }
    assert MergesOnto(joints, 3, joints[1].parent);
    forall k: nat | ClosesCycle(joints, k) ensures MergedLater(joints, k) {
      if k != 1 {
        ConnectedIsNamed(joints[..k], joints[k].parent, joints[k].child);
      }
    }
  }
}
