/** Partitioning the bodies of a plant into groups that are rigidly connected by welds.

    The program grows a vector of vectors in place: each joint appends to the first group it
    meets, and a merge loop then repairs the one overlap that the append may have caused.
    The specification is reachability along welds. */
module BodyPartition {

  import opened WeldConnectivity

  // ---------- Merging two groups: sort and drop repetitions ----------

  ghost predicate Ascending(s: seq<Body>) {
    forall i, j :: 0 <= i < j < |s| ==> s[i] < s[j]
  }

  lemma AscendingCons(x: Body, t: seq<Body>)
    requires Ascending(t) && forall a :: a in t ==> x < a
    ensures Ascending([x] + t)
  {
    var r := [x] + t;
    forall i, j | 0 <= i < j < |r| ensures r[i] < r[j] {
      assert r[j] == t[j - 1] && t[j - 1] in t;
    }
  }

  /** Inserts x into an ascending sequence unless it is there already. */
  function Insert(s: seq<Body>, x: Body): (r: seq<Body>)
    requires Ascending(s)
    ensures Ascending(r)
    ensures forall a :: a in r <==> a == x || a in s
  {
    if s == [] || x < s[0] then [x] + s
    else if x == s[0] then s
    else
      assert forall a :: a in s <==> a == s[0] || a in s[1..];
      assert forall a :: a in s[1..] ==> s[0] < a;
      var t := Insert(s[1..], x);
      AscendingCons(s[0], t);
      [s[0]] + t
  }

  /** The effect of std::sort followed by erasing what std::unique leaves over. */
  function SortUnique(s: seq<Body>): (r: seq<Body>)
    ensures Ascending(r)
    ensures forall a :: a in r <==> a in s
  {
    if s == [] then []
    else
      assert forall a :: a in s <==> a == s[0] || a in s[1..];
      Insert(SortUnique(s[1..]), s[0])
  }

  /** Group g absorbs group h, which is erased. */
  ghost function Merged(groups: Groups, g: nat, h: nat): (r: Groups)
    requires g < h < |groups|
    ensures |r| == |groups| - 1
  {
    groups[..h][g := SortUnique(groups[g] + groups[h])] + groups[h + 1..]
  }

  /** No two groups share a body, except possibly g and h. */
  ghost predicate OnlyOverlap(groups: Groups, g: nat, h: nat) {
    && (g < h < |groups| || g == h == 0)
    && forall i, j :: 0 <= i < j < |groups| && !(i == g && j == h) ==> Disjoint(groups[i], groups[j])
  }

  lemma MergedDisjoint(groups: Groups, g: nat, h: nat)
    requires g < h && OnlyOverlap(groups, g, h)
    ensures AllDisjoint(Merged(groups, g, h))
  {
    var r := Merged(groups, g, h);
    forall i, j | 0 <= i < j < |r| ensures Disjoint(r[i], r[j]) {
      var i0 := if i < h then i else i + 1;
      var j0 := if j < h then j else j + 1;
      assert Disjoint(groups[i0], groups[j0]);
      assert r[i] == if i == g then SortUnique(groups[g] + groups[h]) else groups[i0];
      assert r[j] == if j == g then SortUnique(groups[g] + groups[h]) else groups[j0];
      if i == g {
        assert j0 != h;
        assert if j0 < h then Disjoint(groups[j0], groups[h]) else Disjoint(groups[h], groups[j0]);
      } else if j == g {
        assert Disjoint(groups[i0], groups[h]);
      }
    }
  }

  /** Every group of r is one of the old groups or the union of g and h. */
  ghost predicate MergedOrSame(groups: Groups, g: nat, h: nat, r: Groups) {
    || (r == groups && AllDisjoint(groups))
    || (g < h < |groups| && r == Merged(groups, g, h) && !Disjoint(groups[g], groups[h]))
  }

  method HaveCommonBody(g: seq<Body>, h: seq<Body>) returns (common: bool)
    ensures common <==> !Disjoint(g, h)
  {
    common := false;
    for n := 0 to |g|
      invariant !common
      invariant forall m :: 0 <= m < n ==> g[m] !in h
    {
      if g[n] in h {
        return true;
      }
    }
  }

  /** The nested merge loop: `j` is stepped back after an erase. */
  method MergeOverlaps(input: Groups, ghost g: nat, ghost h: nat) returns (groups: Groups)
    requires OnlyOverlap(input, g, h)
    ensures AllDisjoint(groups) && MergedOrSame(input, g, h, groups)
  {
    groups := input;
    ghost var overlap := g < h && !Disjoint(input[g], input[h]);
    if g < h { MergedDisjoint(input, g, h); }
    var i := 0;
    while i < |groups|
      invariant 0 <= i
      invariant if groups == input then overlap ==> i <= g
                else overlap && groups == Merged(input, g, h)
      decreases |input| - i
    {
      var j := i + 1;
      while j < |groups|
        invariant 0 <= i < j
        invariant i < |groups| <= |input|
        invariant if groups == input then overlap ==> i < g || (i == g && j <= h)
                  else overlap && groups == Merged(input, g, h)
        decreases |groups| - j
      {
        var common := HaveCommonBody(groups[i], groups[j]);
        if common {
          assert groups == input && i == g && j == h;
          groups := groups[i := SortUnique(groups[i] + groups[j])];
          groups := groups[..j] + groups[j + 1..];
          assert groups == Merged(input, g, h);
          assert |groups| != |input|;
        } else {
          j := j + 1;
        }
      }
      i := i + 1;
    }
  }

  // ---------- One joint ----------

  /** What appending x to group i does to the partition. */
  ghost predicate Appended(groups: Groups, i: nat, x: Body, r: Groups) {
    i < |groups| && r == groups[i := groups[i] + [x]]
  }

  /** The partition of a prefix, read as a weaker statement about one joint more. */
  lemma ExtendSound(groups: Groups, joints: seq<Joint>, j: Joint)
    requires Sound(groups, joints)
    ensures Sound(groups, joints + [j])
  {
    forall i, a, b | 0 <= i < |groups| && a in groups[i] && b in groups[i] ensures Connected(joints + [j], a, b) {
      ConnectedMono(joints, j, a, b);
    }
    forall i, a | 0 <= i < |groups| && a in groups[i] ensures Named(joints + [j], a) {
      assert Named(joints, a);
      var k :| 0 <= k < |joints| && Names(joints[k], a);
      assert (joints + [j])[k] == joints[k];
    }
  }

  /** Extending a group by a body welded to one of its bodies keeps the groups connected. */
  lemma AppendSound(groups: Groups, joints: seq<Joint>, i: nat, y: Body, x: Body, r: Groups)
    requires Sound(groups, joints) && Appended(groups, i, x, r) && y in groups[i]
    requires Welded(joints, y, x) && Named(joints, x)
    ensures Sound(r, joints)
  {
    ConnectedStep(joints, y, x);
    forall m, a, b | 0 <= m < |r| && a in r[m] && b in r[m] ensures Connected(joints, a, b) {
      if m == i {
        assert a in groups[i] || a == x;
        assert b in groups[i] || b == x;
        ToAnchor(groups, joints, i, y, x, a);
        ToAnchor(groups, joints, i, y, x, b);
        ConnectedSym(joints, b, y);
        ConnectedTrans(joints, a, y, b);
      }
    }
  }

  lemma ToAnchor(groups: Groups, joints: seq<Joint>, i: nat, y: Body, x: Body, a: Body)
    requires Sound(groups, joints) && i < |groups| && y in groups[i]
    requires Connected(joints, y, x) && (a in groups[i] || a == x)
    ensures Connected(joints, a, y)
  {
    if a !in groups[i] { ConnectedSym(joints, y, x); }
  }

  /** Each old group lies inside some new one. */
  ghost predicate Coarser(groups: Groups, r: Groups) {
    forall a, b :: SameGroup(groups, a, b) ==> SameGroup(r, a, b)
  }

  lemma AppendCoarser(groups: Groups, i: nat, x: Body, r: Groups)
    requires Appended(groups, i, x, r)
    ensures Coarser(groups, r)
    ensures forall y :: y in groups[i] ==> SameGroup(r, y, x) && SameGroup(r, x, y)
  {
    forall a, b | SameGroup(groups, a, b) ensures SameGroup(r, a, b) {
      var m :| 0 <= m < |groups| && a in groups[m] && b in groups[m];
      assert a in r[m] && b in r[m];
    }
    assert x in r[i];
    forall y | y in groups[i] ensures SameGroup(r, y, x) && SameGroup(r, x, y) {
      assert y in r[i];
    }
  }

  lemma MergedCoarser(groups: Groups, g: nat, h: nat)
    requires g < h < |groups|
    ensures Coarser(groups, Merged(groups, g, h))
  {
    var r := Merged(groups, g, h);
    forall a, b | SameGroup(groups, a, b) ensures SameGroup(r, a, b) {
      var m :| 0 <= m < |groups| && a in groups[m] && b in groups[m];
      var m' := if m == h then g else if m < h then m else m - 1;
      assert r[m'] == if m' == g then SortUnique(groups[g] + groups[h]) else groups[m];
      assert a in r[m'] && b in r[m'];
    }
  }

  /** Merging two groups that share a body keeps the groups connected. */
  lemma MergedSound(groups: Groups, joints: seq<Joint>, g: nat, h: nat)
    requires g < h < |groups| && Sound(groups, joints) && !Disjoint(groups[g], groups[h])
    ensures Sound(Merged(groups, g, h), joints)
  {
    var r := Merged(groups, g, h);
    var c :| c in groups[g] && c in groups[h];
    forall m, a, b | 0 <= m < |r| && a in r[m] && b in r[m] ensures Connected(joints, a, b) {
      if m == g {
        assert a in groups[g] || a in groups[h];
        assert b in groups[g] || b in groups[h];
        assert Connected(joints, a, c) && Connected(joints, c, b);
        ConnectedTrans(joints, a, c, b);
      } else {
        assert r[m] == groups[if m < h then m else m + 1];
      }
    }
    forall m, a | 0 <= m < |r| && a in r[m] ensures Named(joints, a) {
      if m == g {
        assert a in groups[g] || a in groups[h];
      } else {
        assert r[m] == groups[if m < h then m else m + 1];
      }
    }
  }

  lemma MergeKeeps(groups: Groups, joints: seq<Joint>, g: nat, h: nat, r: Groups)
    requires MergedOrSame(groups, g, h, r)
    requires Sound(groups, joints) && Covers(groups, joints)
    ensures Sound(r, joints) && Covers(r, joints)
  {
    if r != groups {
      MergedSound(groups, joints, g, h);
      MergedCoarser(groups, g, h);
    }
  }

  /** A pair of groups that alone may overlap after x was appended to group i. */
  lemma AppendOverlap(groups: Groups, i: nat, x: Body, r: Groups) returns (g: nat, h: nat)
    requires AllDisjoint(groups) && Appended(groups, i, x, r)
    ensures OnlyOverlap(r, g, h)
  {
    g, h := 0, 0;
    if m :| 0 <= m < |groups| && m != i && x in groups[m] {
      g, h := if m < i then m else i, if m < i then i else m;
    }
    forall a, b | 0 <= a < b < |r| && !(a == g && b == h) ensures Disjoint(r[a], r[b]) {
      assert Disjoint(groups[a], groups[b]);
      if a == i || b == i {
        var m := if a == i then b else a;
        if x in groups[m] {
          OneGroup(groups, x, m, if g == i then h else g);
        }
      }
    }
  }

  /** None of the first n groups holds either body. */
  ghost predicate NoneHolds(groups: Groups, a: Body, b: Body, n: nat) {
    n <= |groups| && forall m :: 0 <= m < n ==> a !in groups[m] && b !in groups[m]
  }

  /** The first group that holds either body has received the other. */
  ghost predicate Joined(groups: Groups, parent: Body, child: Body, i: nat, r: Groups) {
    && i < |groups| && NoneHolds(groups, parent, child, i)
    && (if parent in groups[i] then Appended(groups, i, child, r)
        else child in groups[i] && Appended(groups, i, parent, r))
  }

  /** Puts the two bodies of a weld into one group; the first group that holds either decides. */
  method AddWeld(groups: Groups, parent: Body, child: Body) returns (r: Groups)
    ensures NoneHolds(groups, parent, child, |groups|) ==> r == groups + [[parent, child]]
    ensures !NoneHolds(groups, parent, child, |groups|) ==> exists i: nat :: Joined(groups, parent, child, i, r)
  {
    r := groups;
    var groupFound := false;
    for m := 0 to |groups|
      invariant r == groups && !groupFound
      invariant NoneHolds(groups, parent, child, m)
    {
      if parent in r[m] {
        r := r[m := r[m] + [child]];
        groupFound := true;
        assert Joined(groups, parent, child, m, r);
        break;
      } else if child in r[m] {
        r := r[m := r[m] + [parent]];
        groupFound := true;
        assert Joined(groups, parent, child, m, r);
        break;
      }
    }
    if !groupFound {
      r := r + [[parent, child]];
    }
  }

  /** The body has a group of its own unless it was in one. */
  ghost predicate AloneAdded(groups: Groups, body: Body, r: Groups) {
    r == if SameGroup(groups, body, body) then groups else groups + [[body]]
  }

  /** Gives a body of a movable joint a group of its own unless it already has one. */
  method AddAlone(groups: Groups, body: Body) returns (r: Groups)
    ensures AloneAdded(groups, body, r)
  {
    r := groups;
    for m := 0 to |groups|
      invariant forall n :: 0 <= n < m ==> body !in groups[n]
    {
      if body in groups[m] {
        return;
      }
    }
    r := r + [[body]];
  }

  lemma AddAloneKeeps(groups: Groups, joints: seq<Joint>, body: Body, r: Groups)
    requires AllDisjoint(groups) && Sound(groups, joints) && Named(joints, body)
    requires AloneAdded(groups, body, r)
    ensures AllDisjoint(r) && Sound(r, joints) && Coarser(groups, r) && SameGroup(r, body, body)
  {
    if r != groups {
      assert body in r[|groups|];
      ConnectedRefl(joints, body);
      forall a, b | SameGroup(groups, a, b) ensures SameGroup(r, a, b) {
        var m :| 0 <= m < |groups| && a in groups[m] && b in groups[m];
        assert r[m] == groups[m];
      }
    }
  }

  /** The two bodies of a weld are in group i, or in a new pair when i is no group. */
  ghost predicate WeldAdded(groups: Groups, j: Joint, i: nat, r: Groups) {
    if i < |groups| then Joined(groups, j.parent, j.child, i, r)
    else NoneHolds(groups, j.parent, j.child, |groups|) && r == groups + [[j.parent, j.child]]
  }

  /** The groups after a weld was entered and before the merge loop has run. */
  lemma WeldEntered(groups: Groups, joints: seq<Joint>, j: Joint, i: nat, r: Groups) returns (g: nat, h: nat)
    requires Partition(groups, joints) && j.weld
    requires WeldAdded(groups, j, i, r)
    ensures OnlyOverlap(r, g, h)
    ensures Sound(r, joints + [j]) && Covers(r, joints + [j])
  {
    if i < |groups| {
      g, h := WeldJoined(groups, joints, j, i, r);
    } else {
      g, h := 0, 0;
      WeldPair(groups, joints, j, r);
    }
  }

  lemma WeldJoined(groups: Groups, joints: seq<Joint>, j: Joint, i: nat, r: Groups) returns (g: nat, h: nat)
    requires Partition(groups, joints) && j.weld && Joined(groups, j.parent, j.child, i, r)
    ensures OnlyOverlap(r, g, h) && Sound(r, joints + [j]) && Covers(r, joints + [j])
  {
    var x := if j.parent in groups[i] then j.child else j.parent;
    var y := if j.parent in groups[i] then j.parent else j.child;
    g, h := AppendOverlap(groups, i, x, r);
    WeldAppended(groups, joints, j, i, x, y, r);
  }

  lemma NewWeld(joints: seq<Joint>, j: Joint)
    requires j.weld
    ensures Welded(joints + [j], j.parent, j.child) && Welded(joints + [j], j.child, j.parent)
    ensures Named(joints + [j], j.parent) && Named(joints + [j], j.child)
  {
    var all := joints + [j];
    assert all[|joints|] == j && Names(j, j.parent) && Names(j, j.child);
    assert Welds(all[|joints|], j.parent, j.child) && Welds(all[|joints|], j.child, j.parent);
  }

  lemma WeldAppended(groups: Groups, joints: seq<Joint>, j: Joint, i: nat, x: Body, y: Body, r: Groups)
    requires Sound(groups, joints) && Covers(groups, joints) && j.weld
    requires Appended(groups, i, x, r) && y in groups[i]
    requires (x == j.parent && y == j.child) || (x == j.child && y == j.parent)
    ensures Sound(r, joints + [j]) && Covers(r, joints)
    ensures SameGroup(r, j.parent, j.parent) && SameGroup(r, j.child, j.child) && SameGroup(r, j.parent, j.child)
  {
    NewWeld(joints, j);
    ExtendSound(groups, joints, j);
    AppendSound(groups, joints + [j], i, y, x, r);
    AppendCoarser(groups, i, x, r);
    assert x in r[i] && y in r[i];
  }

  lemma WeldPair(groups: Groups, joints: seq<Joint>, j: Joint, r: Groups)
    requires Partition(groups, joints) && j.weld
    requires forall m :: 0 <= m < |groups| ==> j.parent !in groups[m] && j.child !in groups[m]
    requires r == groups + [[j.parent, j.child]]
    ensures AllDisjoint(r) && Sound(r, joints + [j]) && Covers(r, joints)
    ensures SameGroup(r, j.parent, j.parent) && SameGroup(r, j.child, j.child) && SameGroup(r, j.parent, j.child)
  {
    NewWeld(joints, j);
    ExtendSound(groups, joints, j);
    NewPairSound(groups, joints + [j], j, r);
    forall a, b | SameGroup(groups, a, b) ensures SameGroup(r, a, b) {
      var m :| 0 <= m < |groups| && a in groups[m] && b in groups[m];
      assert r[m] == groups[m];
    }
    assert j.parent in r[|groups|] && j.child in r[|groups|];
  }

  lemma NewPairSound(groups: Groups, joints: seq<Joint>, j: Joint, r: Groups)
    requires Sound(groups, joints) && r == groups + [[j.parent, j.child]]
    requires Welded(joints, j.parent, j.child) && Welded(joints, j.child, j.parent)
    requires Named(joints, j.parent) && Named(joints, j.child)
    ensures Sound(r, joints)
  {
    ConnectedStep(joints, j.parent, j.child);
    ConnectedStep(joints, j.child, j.parent);
    ConnectedRefl(joints, j.parent);
    ConnectedRefl(joints, j.child);
  }

  // ---------- Counting bodies ----------

  function TotalSize(groups: Groups): nat {
    if groups == [] then 0 else |groups[0]| + TotalSize(groups[1..])
  }

  ghost function Bodies(g: seq<Body>): set<Body> {
    set a | a in g
  }

  ghost function AllBodies(groups: Groups): set<Body> {
    if groups == [] then {} else Bodies(groups[0]) + AllBodies(groups[1..])
  }

  ghost function NamedBodies(joints: seq<Joint>): set<Body> {
    (set j | j in joints :: j.parent) + (set j | j in joints :: j.child)
  }

  /** A group holds at least as many entries as bodies, and exactly as many when none repeats. */
  lemma {:induction false} GroupSize(g: seq<Body>)
    ensures |Bodies(g)| <= |g|
    ensures |Bodies(g)| == |g| <==> NoDuplicates(g)
  {
    if g != [] {
      GroupSize(g[1..]);
      assert g == [g[0]] + g[1..];
      assert Bodies(g) == Bodies(g[1..]) + {g[0]};
      DuplicatesFromFirst(g);
    }
  }

  lemma DuplicatesFromFirst(g: seq<Body>)
    requires g != []
    ensures NoDuplicates(g) <==> g[0] !in g[1..] && NoDuplicates(g[1..])
  {
    if g[0] !in g[1..] && NoDuplicates(g[1..]) {
      forall i, j | 0 <= i < j < |g| ensures g[i] != g[j] {
        assert g[j] == g[1..][j - 1];
        if i > 0 { assert g[i] == g[1..][i - 1]; }
      }
    }
  }

  lemma {:induction false} AllBodiesMembers(groups: Groups, a: Body)
    ensures a in AllBodies(groups) <==> SameGroup(groups, a, a)
  {
    if groups != [] {
      AllBodiesMembers(groups[1..], a);
      if a in AllBodies(groups[1..]) {
        var i :| 0 <= i < |groups[1..]| && a in groups[1..][i] && a in groups[1..][i];
        assert a in groups[i + 1];
      }
      if SameGroup(groups, a, a) {
        var i :| 0 <= i < |groups| && a in groups[i] && a in groups[i];
        if i > 0 { assert a in groups[1..][i - 1]; }
      }
    }
  }

  /** Of disjoint groups, the sizes add up to the number of bodies exactly when no group repeats one. */
  lemma {:induction false} TotalSizeCountsBodies(groups: Groups)
    requires AllDisjoint(groups)
    ensures |AllBodies(groups)| <= TotalSize(groups)
    ensures |AllBodies(groups)| == TotalSize(groups) <==> AllDistinct(groups)
  {
    if groups != [] {
      var rest := groups[1..];
      assert forall i :: 0 <= i < |rest| ==> rest[i] == groups[i + 1];
      TotalSizeCountsBodies(rest);
      GroupSize(groups[0]);
      forall a | a in Bodies(groups[0]) ensures a !in AllBodies(rest) {
        AllBodiesMembers(rest, a);
        assert forall i :: 0 < i < |groups| ==> Disjoint(groups[0], groups[i]);
      }
      assert Bodies(groups[0]) !! AllBodies(rest);
      assert AllDistinct(groups) <==> NoDuplicates(groups[0]) && AllDistinct(rest) by {
        if NoDuplicates(groups[0]) && AllDistinct(rest) {
          forall i | 0 <= i < |groups| ensures NoDuplicates(groups[i]) {
            if i > 0 { assert NoDuplicates(rest[i - 1]); }
          }
        }
      }
    }
  }

  lemma GroupsHoldNamedBodies(groups: Groups, joints: seq<Joint>)
    requires Partition(groups, joints)
    ensures AllBodies(groups) == NamedBodies(joints)
  {
    forall a ensures a in AllBodies(groups) <==> a in NamedBodies(joints) {
      AllBodiesMembers(groups, a);
      SameGroupIffConnected(groups, joints, a, a);
      ConnectedRefl(joints, a);
      if a in NamedBodies(joints) {
        var j :| j in joints && Names(j, a);
        var k :| 0 <= k < |joints| && joints[k] == j;
      }
    }
  }

  // ---------- Repeated bodies ----------

  /** Every weld that closed a cycle in this group was followed by a weld that merged the group. */
  ghost predicate Clean(joints: seq<Joint>, g: seq<Body>) {
    forall k: nat :: ClosesCycle(joints, k) && joints[k].parent in g ==> MergedLater(joints, k)
  }

  /** A group repeats a body exactly when it is not clean. */
  ghost predicate RepeatsExplained(groups: Groups, joints: seq<Joint>) {
    forall i :: 0 <= i < |groups| ==> (NoDuplicates(groups[i]) <==> Clean(joints, groups[i]))
  }

  /** What one joint more means for an earlier weld that closed a cycle. */
  lemma OneJointMore(joints: seq<Joint>, j: Joint, k: nat)
    requires k < |joints|
    ensures ClosesCycle(joints + [j], k) <==> ClosesCycle(joints, k)
    ensures MergedLater(joints + [j], k) <==>
              MergedLater(joints, k) || MergesOnto(joints + [j], |joints|, joints[k].parent)
  {
    var all := joints + [j];
    assert all[..k] == joints[..k];
    forall m: nat | m < |joints|
      ensures MergesOnto(all, m, joints[k].parent) <==> MergesOnto(joints, m, joints[k].parent) {
      assert all[..m] == joints[..m];
    }
    if MergedLater(joints, k) {
      var m: nat :| k < m && MergesOnto(joints, m, joints[k].parent);
      assert MergesOnto(all, m, all[k].parent);
    }
    if MergesOnto(all, |joints|, joints[k].parent) {
      assert MergesOnto(all, |joints|, all[k].parent);
    }
  }

  /** A group that the joint neither merges nor makes repeat a body stays as clean as it was. */
  lemma CleanUnchanged(joints: seq<Joint>, j: Joint, g: seq<Body>, r: seq<Body>)
    requires forall a :: Named(joints, a) ==> (a in g <==> a in r)
    requires forall a :: a in g ==> !MergesOnto(joints + [j], |joints|, a)
    requires ClosesCycle(joints + [j], |joints|) ==> j.parent !in r
    ensures Clean(joints + [j], r) <==> Clean(joints, g)
  {
    var all := joints + [j];
    forall k: nat | k < |joints|
      ensures ClosesCycle(all, k) && all[k].parent in r ==> (MergedLater(all, k) <==> MergedLater(joints, k))
      ensures ClosesCycle(all, k) <==> ClosesCycle(joints, k)
      ensures all[k] == joints[k] && (joints[k].parent in g <==> joints[k].parent in r)
    {
      OneJointMore(joints, j, k);
      assert Names(joints[k], joints[k].parent);
    }
    if Clean(joints, g) {
      forall k: nat | ClosesCycle(all, k) && all[k].parent in r ensures MergedLater(all, k) {
        assert k < |joints|;
        assert ClosesCycle(joints, k);
      }
    }
    if Clean(all, r) {
      forall k: nat | ClosesCycle(joints, k) && joints[k].parent in g ensures MergedLater(joints, k) {
        assert ClosesCycle(all, k);
      }
    }
  }

  /** A joint that merges this group's component makes it clean. */
  lemma CleanMerged(joints: seq<Joint>, j: Joint, r: seq<Body>)
    requires !ClosesCycle(joints + [j], |joints|)
    requires forall a :: Named(joints, a) && a in r ==> MergesOnto(joints + [j], |joints|, a)
    ensures Clean(joints + [j], r)
  {
    var all := joints + [j];
    forall k: nat | ClosesCycle(all, k) && all[k].parent in r ensures MergedLater(all, k) {
      assert Names(joints[k], joints[k].parent);
      OneJointMore(joints, j, k);
    }
  }

  /** The last joint closes a cycle in this group, which no later weld has merged. */
  lemma CleanNoMore(joints: seq<Joint>, j: Joint, r: seq<Body>)
    requires ClosesCycle(joints + [j], |joints|) && j.parent in r
    ensures !Clean(joints + [j], r)
  {
    assert (joints + [j])[|joints|] == j;
    assert !MergedLater(joints + [j], |joints|);
  }

  /** The last joint, read in the groups of those before it. */
  lemma LastJoint(groups: Groups, joints: seq<Joint>, j: Joint, b: Body)
    requires Partition(groups, joints) && j.weld
    ensures ClosesCycle(joints + [j], |joints|) <==> j.parent == j.child || SameGroup(groups, j.parent, j.child)
    ensures Named(joints, b) ==>
              (MergesOnto(joints + [j], |joints|, b) <==>
                 && SameGroup(groups, j.parent, j.parent) && SameGroup(groups, j.child, j.child)
                 && !SameGroup(groups, j.parent, j.child)
                 && (SameGroup(groups, b, j.parent) || SameGroup(groups, b, j.child)))
  {
    var all := joints + [j];
    assert all[..|joints|] == joints;
    ConnectedRefl(joints, j.parent);
    ConnectedRefl(joints, j.child);
    if Connected(joints, j.parent, j.child) && j.parent != j.child { ConnectedIsNamed(joints, j.parent, j.child); }
    SameGroupIffConnected(groups, joints, j.parent, j.parent);
    SameGroupIffConnected(groups, joints, j.child, j.child);
    SameGroupIffConnected(groups, joints, j.parent, j.child);
    SameGroupIffConnected(groups, joints, b, j.parent);
    SameGroupIffConnected(groups, joints, b, j.child);
  }

  /** A movable joint explains every repetition that was explained before. */
  lemma MovableRepeats(groups: Groups, joints: seq<Joint>, j: Joint, r: Groups)
    requires Partition(groups, joints) && RepeatsExplained(groups, joints) && !j.weld
    requires GrownAlone(groups, joints, r)
    ensures RepeatsExplained(r, joints + [j])
  {
    forall m | 0 <= m < |r| ensures NoDuplicates(r[m]) <==> Clean(joints + [j], r[m]) {
      if m < |groups| {
        CleanUnchanged(joints, j, groups[m], r[m]);
      } else {
        CleanUnchanged(joints, j, [], r[m]);
      }
    }
  }

  /** A weld between two bodies that no joint has named makes a pair. */
  lemma PairRepeats(groups: Groups, joints: seq<Joint>, j: Joint, r: Groups)
    requires Partition(groups, joints) && RepeatsExplained(groups, joints) && j.weld
    requires NoneHolds(groups, j.parent, j.child, |groups|) && r == groups + [[j.parent, j.child]]
    ensures RepeatsExplained(r, joints + [j])
  {
    forall b | Named(joints, b) ensures !MergesOnto(joints + [j], |joints|, b) && b != j.parent && b != j.child {
      LastJoint(groups, joints, j, b);
      SameGroupIffConnected(groups, joints, b, b);
      ConnectedRefl(joints, b);
    }
    LastJoint(groups, joints, j, j.parent);
    forall m | 0 <= m < |r| ensures NoDuplicates(r[m]) <==> Clean(joints + [j], r[m]) {
      if m < |groups| {
        assert forall a :: a in groups[m] ==> Named(joints, a);
        CleanUnchanged(joints, j, groups[m], r[m]);
      } else if j.parent == j.child {
        CleanNoMore(joints, j, r[m]);
        assert r[m][0] == r[m][1];
      } else {
        CleanUnchanged(joints, j, [], r[m]);
      }
    }
  }

  /** A weld that appends a body to a group and causes no overlap: the body is in the group already,
      and then it is repeated, or it is in no group. */
  lemma AppendRepeats(groups: Groups, joints: seq<Joint>, j: Joint, i: nat, x: Body, y: Body, r: Groups)
    requires Partition(groups, joints) && RepeatsExplained(groups, joints) && j.weld
    requires (x == j.parent && y == j.child) || (x == j.child && y == j.parent)
    requires Appended(groups, i, x, r) && y in groups[i] && AllDisjoint(r)
    ensures RepeatsExplained(r, joints + [j])
  {
    assert forall m :: 0 <= m < |groups| && x in groups[m] ==> m == i by {
      forall m | 0 <= m < |groups| && x in groups[m] ensures m == i {
        OneGroup(r, x, m, i);
      }
    }
    assert x in groups[i] ==> SameGroup(groups, j.parent, j.child);
    forall b | Named(joints, b) ensures !MergesOnto(joints + [j], |joints|, b) {
      LastJoint(groups, joints, j, b);
    }
    LastJoint(groups, joints, j, j.parent);
    SameGroupIffConnected(groups, joints, x, x);
    ConnectedRefl(joints, x);
    forall m | 0 <= m < |r| ensures NoDuplicates(r[m]) <==> Clean(joints + [j], r[m]) {
      assert forall a :: a in groups[m] ==> Named(joints, a);
      if m != i {
        if SameGroup(groups, j.parent, j.child) { OneSharedGroup(groups, j, i, x, y, m); }
        CleanUnchanged(joints, j, groups[m], r[m]);
      } else if x in groups[i] {
        CleanNoMore(joints, j, r[i]);
        RepeatedIsDuplicate(groups[i], x);
      } else {
        assert x != y;
        CleanUnchanged(joints, j, groups[i], r[i]);
        FreshIsNoDuplicate(groups[i], x);
      }
    }
  }

  lemma OneSharedGroup(groups: Groups, j: Joint, i: nat, x: Body, y: Body, m: nat)
    requires AllDisjoint(groups) && i < |groups| && m < |groups| && m != i && y in groups[i]
    requires (x == j.parent && y == j.child) || (x == j.child && y == j.parent)
    requires SameGroup(groups, j.parent, j.child)
    ensures j.parent !in groups[m]
  {
    var n :| 0 <= n < |groups| && j.parent in groups[n] && j.child in groups[n];
    OneGroup(groups, y, n, i);
    assert Disjoint(groups[if m < i then m else i], groups[if m < i then i else m]);
  }

  lemma RepeatedIsDuplicate(g: seq<Body>, x: Body)
    requires x in g
    ensures !NoDuplicates(g + [x])
  {
    var k :| 0 <= k < |g| && g[k] == x;
    assert (g + [x])[k] == (g + [x])[|g|];
  }

  lemma FreshIsNoDuplicate(g: seq<Body>, x: Body)
    requires x !in g
    ensures NoDuplicates(g + [x]) <==> NoDuplicates(g)
  {
    if NoDuplicates(g + [x]) {
      forall i, j | 0 <= i < j < |g| ensures g[i] != g[j] {
        assert (g + [x])[i] == g[i] && (g + [x])[j] == g[j];
      }
    }
  }

  /** The two bodies of a weld lie in two groups. */
  ghost predicate JoinsGroups(groups: Groups, j: Joint, i: nat, other: nat, x: Body, y: Body) {
    && ((x == j.parent && y == j.child) || (x == j.child && y == j.parent))
    && i < |groups| && other < |groups| && i != other && y in groups[i] && x in groups[other]
  }

  lemma JoinedIsClean(groups: Groups, joints: seq<Joint>, j: Joint, i: nat, other: nat, x: Body, y: Body, r: seq<Body>)
    requires Partition(groups, joints) && j.weld && JoinsGroups(groups, j, i, other, x, y)
    requires forall a :: a in r ==> a in groups[i] || a in groups[other]
    ensures Clean(joints + [j], r)
  {
    Apart(groups, i, x, y, other);
    LastJoint(groups, joints, j, j.parent);
    forall a | Named(joints, a) && a in r ensures MergesOnto(joints + [j], |joints|, a) {
      LastJoint(groups, joints, j, a);
      assert SameGroup(groups, a, y) || SameGroup(groups, a, x);
    }
    CleanMerged(joints, j, r);
  }

  lemma UntouchedIsAsClean(groups: Groups, joints: seq<Joint>, j: Joint, i: nat, other: nat, x: Body, y: Body, n: nat)
    requires Partition(groups, joints) && j.weld && JoinsGroups(groups, j, i, other, x, y)
    requires n < |groups| && n != i && n != other
    ensures Clean(joints + [j], groups[n]) <==> Clean(joints, groups[n])
  {
    Apart(groups, i, x, y, other);
    LastJoint(groups, joints, j, j.parent);
    forall a | a in groups[n] ensures !MergesOnto(joints + [j], |joints|, a) {
      LastJoint(groups, joints, j, a);
      if SameGroup(groups, a, y) { InOneGroup(groups, a, y, n, i); }
      if SameGroup(groups, a, x) { InOneGroup(groups, a, x, n, other); }
    }
    CleanUnchanged(joints, j, groups[n], groups[n]);
  }

  /** A group after the merge. */
  lemma MergedAt(groups: Groups, g: nat, h: nat, m: nat)
    requires g < h < |groups| && m < |groups| - 1
    ensures m == g ==> NoDuplicates(Merged(groups, g, h)[m])
    ensures m == g ==> forall a :: a in Merged(groups, g, h)[m] <==> a in groups[g] || a in groups[h]
    ensures m != g ==> Merged(groups, g, h)[m] == groups[if m < h then m else m + 1]
  {
    assert Merged(groups, g, h)[g] == SortUnique(groups[g] + groups[h]);
  }

  /** A weld that joins two groups: the merge drops every repetition of both, and no other group's
      repetitions are explained differently. */
  lemma MergeRepeats(groups: Groups, joints: seq<Joint>, j: Joint, i: nat, other: nat, x: Body, y: Body,
      entered: Groups, g: nat, h: nat, m: nat)
    requires Partition(groups, joints) && j.weld && JoinsGroups(groups, j, i, other, x, y)
    requires Appended(groups, i, x, entered) && g < h && ((g == i && h == other) || (g == other && h == i))
    requires m < |groups| - 1
    ensures m == g ==> NoDuplicates(Merged(entered, g, h)[m]) && Clean(joints + [j], Merged(entered, g, h)[m])
    ensures var n := if m < h then m else m + 1;
            m != g ==>
              && Merged(entered, g, h)[m] == groups[n]
              && (Clean(joints + [j], groups[n]) <==> Clean(joints, groups[n]))
  {
    MergedAt(entered, g, h, m);
    if m == g {
      JoinedIsClean(groups, joints, j, i, other, x, y, Merged(entered, g, h)[m]);
    } else {
      UntouchedIsAsClean(groups, joints, j, i, other, x, y, if m < h then m else m + 1);
    }
  }

  /** The group that already held x. */
  lemma OtherGroup(groups: Groups, i: nat, x: Body, entered: Groups, g: nat, h: nat) returns (other: nat)
    requires AllDisjoint(groups) && Appended(groups, i, x, entered)
    requires g < h < |entered| && !Disjoint(entered[g], entered[h])
    ensures other < |groups| && other != i && x in groups[other]
    ensures (g == i && h == other) || (g == other && h == i)
  {
    assert Disjoint(groups[g], groups[h]);
    other := if g == i then h else g;
  }

  lemma Apart(groups: Groups, i: nat, x: Body, y: Body, other: nat)
    requires AllDisjoint(groups) && i < |groups| && other < |groups| && i != other && y in groups[i]
             && x in groups[other]
    ensures x != y && !SameGroup(groups, x, y) && !SameGroup(groups, y, x)
    ensures SameGroup(groups, x, x) && SameGroup(groups, y, y)
  {
    if SameGroup(groups, x, y) || SameGroup(groups, y, x) {
      var n :| 0 <= n < |groups| && x in groups[n] && y in groups[n];
      OneGroup(groups, x, n, other);
      OneGroup(groups, y, n, i);
    }
    if x == y { OneGroup(groups, x, i, other); }
  }

  lemma InOneGroup(groups: Groups, a: Body, b: Body, n: nat, i: nat)
    requires AllDisjoint(groups) && n < |groups| && i < |groups| && a in groups[n] && b in groups[i]
             && SameGroup(groups, a, b)
    ensures n == i
  {
    var m :| 0 <= m < |groups| && a in groups[m] && b in groups[m];
    OneGroup(groups, a, m, n);
    OneGroup(groups, b, m, i);
  }

  /** A new pair overlaps no group, so nothing is merged. */
  lemma PairIsDisjoint(groups: Groups, j: Joint, entered: Groups, g: nat, h: nat)
    requires AllDisjoint(groups) && NoneHolds(groups, j.parent, j.child, |groups|)
    requires entered == groups + [[j.parent, j.child]] && g < h < |entered|
    ensures Disjoint(entered[g], entered[h])
  {
    if h < |groups| { assert Disjoint(groups[g], groups[h]); }
  }

  /** No group repeats a body exactly when every weld that closes a cycle is later followed by one
      that joins its component to another. */
  lemma DistinctIff(groups: Groups, joints: seq<Joint>)
    requires Partition(groups, joints) && RepeatsExplained(groups, joints)
    ensures AllDistinct(groups) <==> EveryCycleMergedLater(joints)
  {
    if AllDistinct(groups) {
      forall k: nat | ClosesCycle(joints, k) ensures MergedLater(joints, k) {
        assert SameGroup(groups, joints[k].parent, joints[k].parent);
        var i :| 0 <= i < |groups| && joints[k].parent in groups[i] && joints[k].parent in groups[i];
        assert Clean(joints, groups[i]);
      }
    }
    if EveryCycleMergedLater(joints) {
      forall i | 0 <= i < |groups| ensures NoDuplicates(groups[i]) {
        assert Clean(joints, groups[i]);
      }
    }
  }

  // ---------- The whole computation ----------

  /** One joint: its bodies enter the groups and the overlap that a weld may make is merged away. */
  method AddJoint(groups: Groups, ghost before: seq<Joint>, j: Joint) returns (r: Groups)
    requires Partition(groups, before) && RepeatsExplained(groups, before)
    ensures Partition(r, before + [j]) && RepeatsExplained(r, before + [j])
  {
    ghost var g, h, i: nat := 0, 0, |groups|;
    var entered;
    if j.weld {
      entered := AddWeld(groups, j.parent, j.child);
      if !NoneHolds(groups, j.parent, j.child, |groups|) {
        i :| Joined(groups, j.parent, j.child, i, entered);
      }
      g, h := WeldEntered(groups, before, j, i, entered);
    } else {
      entered := AddMovable(groups, before, j);
    }
    r := MergeOverlaps(entered, g, h);
    MergeKeeps(entered, before + [j], g, h, r);
    if j.weld && i < |groups| {
      ghost var x, y := j.child, j.parent;
      if j.parent !in groups[i] { x, y := j.parent, j.child; }
      if r == entered {
        AppendRepeats(groups, before, j, i, x, y, r);
      } else {
        ghost var other := OtherGroup(groups, i, x, entered, g, h);
        forall m | 0 <= m < |r| ensures NoDuplicates(r[m]) <==> Clean(before + [j], r[m]) {
          MergeRepeats(groups, before, j, i, other, x, y, entered, g, h, m);
        }
      }
    } else if j.weld {
      if r != entered { PairIsDisjoint(groups, j, entered, g, h); }
      PairRepeats(groups, before, j, r);
    }
  }

  method AddMovable(groups: Groups, ghost before: seq<Joint>, j: Joint) returns (r: Groups)
    requires Partition(groups, before) && RepeatsExplained(groups, before) && !j.weld
    ensures AllDisjoint(r) && Sound(r, before + [j]) && Covers(r, before + [j])
    ensures RepeatsExplained(r, before + [j])
  {
    r := AddBoth(groups, before, j);
    MovableRepeats(groups, before, j, r);
  }

  method AddBoth(groups: Groups, ghost before: seq<Joint>, j: Joint) returns (r: Groups)
    requires Partition(groups, before) && !j.weld
    ensures AllDisjoint(r) && Sound(r, before + [j]) && Covers(r, before + [j])
    ensures GrownAlone(groups, before, r)
  {
    var withParent := AddAlone(groups, j.parent);
    r := AddAlone(withParent, j.child);
    BothKept(groups, before, j, withParent, r);
    AloneGrows(groups, before, groups, j.parent, withParent);
    AloneGrows(groups, before, withParent, j.child, r);
  }

  lemma BothKept(groups: Groups, before: seq<Joint>, j: Joint, withParent: Groups, r: Groups)
    requires Partition(groups, before) && !j.weld
    requires AloneAdded(groups, j.parent, withParent) && AloneAdded(withParent, j.child, r)
    ensures AllDisjoint(r) && Sound(r, before + [j]) && Covers(r, before + [j])
  {
    var all := before + [j];
    ExtendSound(groups, before, j);
    assert all[|before|] == j && Names(j, j.parent) && Names(j, j.child);
    BothAlone(groups, all, j.parent, j.child, withParent, r);
    CoarserCovers(groups, r, before);
    CoversUnwelded(r, before, j);
  }

  lemma BothAlone(groups: Groups, joints: seq<Joint>, a: Body, b: Body, withA: Groups, r: Groups)
    requires AllDisjoint(groups) && Sound(groups, joints) && Named(joints, a) && Named(joints, b)
    requires AloneAdded(groups, a, withA) && AloneAdded(withA, b, r)
    ensures AllDisjoint(r) && Sound(r, joints) && Coarser(groups, r) && SameGroup(r, a, a) && SameGroup(r, b, b)
  {
    AddAloneKeeps(groups, joints, a, withA);
    AddAloneKeeps(withA, joints, b, r);
  }

  lemma CoarserCovers(groups: Groups, r: Groups, joints: seq<Joint>)
    requires Covers(groups, joints) && Coarser(groups, r)
    ensures Covers(r, joints)
  {
  }

  lemma CoversUnwelded(groups: Groups, joints: seq<Joint>, j: Joint)
    requires Covers(groups, joints) && !j.weld && SameGroup(groups, j.parent, j.parent)
    requires SameGroup(groups, j.child, j.child)
    ensures Covers(groups, joints + [j])
  {
  }

  /** Every further group is one body that no joint has named. */
  ghost predicate GrownAlone(groups: Groups, joints: seq<Joint>, r: Groups) {
    && groups <= r
    && forall m :: |groups| <= m < |r| ==> |r[m]| == 1 && !Named(joints, r[m][0])
  }

  lemma AloneGrows(groups: Groups, joints: seq<Joint>, before: Groups, body: Body, r: Groups)
    requires Partition(groups, joints) && GrownAlone(groups, joints, before)
    requires AloneAdded(before, body, r)
    ensures GrownAlone(groups, joints, r)
  {
    AloneIsUnnamed(groups, joints, body);
    if SameGroup(groups, body, body) {
      var m :| 0 <= m < |groups| && body in groups[m] && body in groups[m];
      assert body in before[m];
    }
  }

  lemma AloneIsUnnamed(groups: Groups, joints: seq<Joint>, body: Body)
    requires Partition(groups, joints)
    ensures SameGroup(groups, body, body) <==> Named(joints, body)
  {
    SameGroupIffConnected(groups, joints, body, body);
    ConnectedRefl(joints, body);
  }

  /** Groups the bodies. Some group repeats a body exactly when a weld has closed a cycle in a component
      that no later weld merged with another. */
  method PartitionMobileBodies(joints: seq<Joint>) returns (groups: Groups)
    ensures AllDisjoint(groups)
    ensures forall a, b :: SameGroup(groups, a, b) <==> Named(joints, a) && Connected(joints, a, b)
    ensures AllDistinct(groups) <==> EveryCycleMergedLater(joints)
    ensures TotalSize(groups) == |NamedBodies(joints)| <==> EveryCycleMergedLater(joints)
    ensures NoWeldClosesCycle(joints) ==> AllDistinct(groups)
  {
    groups := [];
    var n := 0;
    assert joints[..0] == [];
    while n < |joints|
      invariant 0 <= n <= |joints|
      invariant Partition(groups, joints[..n]) && RepeatsExplained(groups, joints[..n])
    {
      assert joints[..n + 1] == joints[..n] + [joints[n]];
      groups := AddJoint(groups, joints[..n], joints[n]);
      n := n + 1;
    }
    assert joints[..n] == joints;
    TotalSizeCountsBodies(groups);
    GroupsHoldNamedBodies(groups, joints);
    DistinctIff(groups, joints);
    forall a, b ensures SameGroup(groups, a, b) <==> Named(joints, a) && Connected(joints, a, b) {
      SameGroupIffConnected(groups, joints, a, b);
    }
  }
}
