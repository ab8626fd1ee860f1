/** The list of configuration-space regions and the index of their pairwise intersections.

    Each added region is intersected with the ones before it only; the index is rebuilt by re-adding
    every region when a stored list comes without one. Geometry is a set of functions, among them the
    library's computation of the intersections of one set with several. */
module RegionIndex {
  import opened Wrappers

  /** A polytope has a bounding box exactly when it is bounded. */
  datatype Polytope = Polytope(id: nat, bounded: bool)

  type Offset = seq<real>

  type Samples = seq<seq<real>>

  datatype Region = Region(body: Polytope, index: nat, name: string, hash: nat)

  datatype Intersection = Intersection(one: nat, two: nat, offset: Offset, samples: Samples)

  datatype Error = NoBoundingBox | NoIntersections | OutOfRange

  datatype Geometry = Geometry(
    overlap: (Polytope, Polytope) -> Option<Offset>,
    sample: (Polytope, Polytope, Offset) -> Samples,
    pairwise: (seq<Polytope>, Polytope) -> seq<(nat, Offset)>)

  /** Every overlapping earlier set is reported once, in any order, with its offset. */
  ghost predicate Reports(g: Geometry, sets: seq<Polytope>, last: Polytope, found: seq<(nat, Offset)>) {
    && (forall k :: 0 <= k < |found| ==> found[k].0 < |sets| && g.overlap(sets[found[k].0], last) == Some(found[k].1))
    && (forall i ::
          0 <= i < |sets| && g.overlap(sets[i], last).Some? ==> exists k :: 0 <= k < |found| && found[k].0 == i)
    && (forall k, l :: 0 <= k < l < |found| ==> found[k].0 != found[l].0)
  }

  ghost predicate PairwiseRight(g: Geometry) {
    forall sets, last :: Reports(g, sets, last, g.pairwise(sets, last))
  }

  function Bodies(regions: seq<Region>): (r: seq<Polytope>)
    ensures |r| == |regions|
  {
    seq(|regions|, i requires 0 <= i < |regions| => regions[i].body)
  }

  // ---------- What the index must be ----------

  ghost predicate Overlapping(g: Geometry, regions: seq<Region>, i: nat, j: nat) {
    i < j < |regions| && g.overlap(regions[i].body, regions[j].body).Some?
  }

  ghost function Between(g: Geometry, regions: seq<Region>, i: nat, j: nat): Intersection
    requires Overlapping(g, regions, i, j)
  {
    var offset := g.overlap(regions[i].body, regions[j].body).value;
    Intersection(i, j, offset, g.sample(regions[i].body, regions[j].body, offset))
  }

  ghost predicate Lists(found: seq<Intersection>, i: nat, j: nat) {
    exists k :: 0 <= k < |found| && found[k].one == i && found[k].two == j
  }

  /** The overlapping pairs with first index below the second, each once. */
  ghost predicate Indexed(g: Geometry, regions: seq<Region>, found: seq<Intersection>) {
    && (forall k :: 0 <= k < |found| ==>
          Overlapping(g, regions, found[k].one, found[k].two)
            && found[k] == Between(g, regions, found[k].one, found[k].two))
    && (forall i, j :: Overlapping(g, regions, i, j) ==> Lists(found, i, j))
    && (forall k, l :: 0 <= k < l < |found| ==> found[k].one != found[l].one || found[k].two != found[l].two)
  }

  /** The same computed at once, over all pairs. */
  ghost function Batch(g: Geometry, regions: seq<Region>): set<Intersection> {
    set i, j | 0 <= i < |regions| && i < j < |regions| && g.overlap(regions[i].body, regions[j].body).Some? ::
      Intersection(i, j, g.overlap(regions[i].body, regions[j].body).value,
                   g.sample(regions[i].body, regions[j].body, g.overlap(regions[i].body, regions[j].body).value))
  }

  lemma IndexIsBatch(g: Geometry, regions: seq<Region>, found: seq<Intersection>)
    requires Indexed(g, regions, found)
    ensures multiset(found) == multiset(Batch(g, regions))
  {
    forall x ensures x in found <==> x in Batch(g, regions) {
      if x in Batch(g, regions) {
        assert Overlapping(g, regions, x.one, x.two) && x == Between(g, regions, x.one, x.two);
        assert Lists(found, x.one, x.two);
      }
    }
    DistinctOnce(found, Batch(g, regions));
  }

  lemma {:induction false} DistinctOnce<T>(s: seq<T>, t: set<T>)
    requires forall k, l :: 0 <= k < l < |s| ==> s[k] != s[l]
    requires forall x :: x in s <==> x in t
    ensures multiset(s) == multiset(t)
  {
    if s == [] {
      assert t == {};
    } else {
      var last := s[|s| - 1];
      var init := s[..|s| - 1];
      assert s == init + [last];
      DistinctOnce(init, t - {last});
      assert t == (t - {last}) + {last};
      assert multiset(t) == multiset(t - {last}) + multiset{last};
    }
  }

  // ---------- Adding a region ----------

  /** The intersections of the next region with the ones so far, as the library reports them. */
  ghost function NewOnes(g: Geometry, regions: seq<Region>, body: Polytope, found: seq<(nat, Offset)>)
      : (r: seq<Intersection>)
    requires forall k :: 0 <= k < |found| ==> found[k].0 < |regions|
    ensures |r| == |found|
  {
    seq(|found|, k requires 0 <= k < |found| =>
      Intersection(found[k].0, |regions|, found[k].1, g.sample(regions[found[k].0].body, body, found[k].1)))
  }

  lemma AddedIndexed(g: Geometry, regions: seq<Region>, found: seq<Intersection>, r: Region,
      reported: seq<(nat, Offset)>)
    requires Indexed(g, regions, found) && Reports(g, Bodies(regions), r.body, reported)
    ensures Indexed(g, regions + [r], found + NewOnes(g, regions, r.body, reported))
  {
    var all, added := regions + [r], found + NewOnes(g, regions, r.body, reported);
    forall i: nat, j: nat | Overlapping(g, all, i, j) ensures Lists(added, i, j) {
      if j < |regions| {
        assert Overlapping(g, regions, i, j) && Lists(found, i, j);
        var k :| 0 <= k < |found| && found[k].one == i && found[k].two == j;
        assert added[k] == found[k];
      } else {
        assert Bodies(regions)[i] == all[i].body;
        var k :| 0 <= k < |reported| && reported[k].0 == i;
        assert added[|found| + k] == NewOnes(g, regions, r.body, reported)[k];
      }
    }
    forall k | 0 <= k < |added|
      ensures Overlapping(g, all, added[k].one, added[k].two) && added[k] == Between(g, all, added[k].one, added[k].two)
    {
      if k < |found| {
        assert added[k] == found[k];
        assert Overlapping(g, regions, found[k].one, found[k].two);
      } else {
        assert added[k] == NewOnes(g, regions, r.body, reported)[k - |found|];
        assert Bodies(regions)[added[k].one] == all[added[k].one].body;
      }
    }
  }

  ghost predicate AllBounded(regions: seq<Region>) {
    forall i :: 0 <= i < |regions| ==> regions[i].body.bounded
  }

  /** The regions carry their positions as indices. */
  ghost predicate Numbered(regions: seq<Region>) {
    forall i :: 0 <= i < |regions| ==> regions[i].index == i
  }

  ghost predicate Complete(g: Geometry, regions: seq<Region>, intersections: Option<seq<Intersection>>) {
    Numbered(regions) && match intersections case None => regions == [] case Some(found) => Indexed(g, regions, found)
  }

  ghost predicate SameRegions(a: seq<Region>, b: seq<Region>) {
    |a| == |b| && forall i ::
                    0 <= i < |a| ==> a[i].body == b[i].body && a[i].name == b[i].name && a[i].hash == b[i].hash
  }

  // ---------- The graph description ----------

  datatype Line = Node(region: nat) | Edge(intersection: nat)

  /** The region under which an intersection is printed; one of a region with itself has none. */
  function PrintedUnder(x: Intersection): Option<nat> {
    if x.one == x.two then None else Some(if x.one < x.two then x.one else x.two)
  }

  ghost function EdgesUnder(found: seq<Intersection>, i: nat, m: nat): seq<Line>
    requires m <= |found|
  {
    if m == 0 then []
    else EdgesUnder(found, i, m - 1) + if PrintedUnder(found[m - 1]) == Some(i) then [Edge(m - 1)] else []
  }

  ghost function Lines(found: seq<Intersection>, n: nat): seq<Line> {
    if n == 0 then [] else Lines(found, n - 1) + [Node(n - 1)] + EdgesUnder(found, n - 1, |found|)
  }

  predicate LineFits(regions: seq<Region>, found: seq<Intersection>, line: Line) {
    match line
    case Node(i) => i < |regions|
    case Edge(k) => k < |found| && found[k].one < |regions| && found[k].two < |regions|
  }

  function LineText(regions: seq<Region>, found: seq<Intersection>, line: Line): string
    requires LineFits(regions, found, line)
  {
    match line
    case Node(i) => regions[i].name + ";\n"
    case Edge(k) => regions[found[k].one].name + " -- " + regions[found[k].two].name + ";\n"
  }

  function Text(regions: seq<Region>, found: seq<Intersection>, lines: seq<Line>): string
    requires forall k :: 0 <= k < |lines| ==> LineFits(regions, found, lines[k])
  {
    if lines == [] then "graph G {\n"
    else Text(regions, found, lines[..|lines| - 1]) + LineText(regions, found, lines[|lines| - 1])
  }

  /** An intersection of two different regions of which one is among the first n. */
  predicate PrintedBefore(x: Intersection, n: nat) {
    x.one != x.two && (x.one < n || x.two < n)
  }

  /** How often a line is among the edge lines under a region. */
  ghost function EdgeCount(found: seq<Intersection>, i: nat, m: nat, line: Line): nat
    requires m <= |found|
  {
    if m == 0 then 0
    else EdgeCount(found, i, m - 1, line)
         + if PrintedUnder(found[m - 1]) == Some(i) && line == Edge(m - 1) then 1 else 0
  }

  ghost function LineCount(found: seq<Intersection>, n: nat, line: Line): nat {
    if n == 0 then 0
    else LineCount(found, n - 1, line) + (if line == Node(n - 1) then 1 else 0) + EdgeCount(found, n - 1, |found|, line)
  }

  lemma EdgesUnderNext(found: seq<Intersection>, i: nat, m: nat, first: seq<Line>)
    requires m < |found|
    ensures first + EdgesUnder(found, i, m + 1) ==
            if PrintedUnder(found[m]) == Some(i) then first + EdgesUnder(found, i, m) + [Edge(m)]
            else first + EdgesUnder(found, i, m)
  {
  }

  /** How often a line occurs. */
  ghost function Occurrences(lines: seq<Line>, line: Line): nat {
    |Positions(lines, line)|
  }

  ghost function Positions(lines: seq<Line>, line: Line): set<nat> {
    set p: nat | p < |lines| && lines[p] == line
  }

  lemma OccursNext(lines: seq<Line>, last: Line, line: Line)
    ensures Occurrences(lines + [last], line) == Occurrences(lines, line) + if last == line then 1 else 0
  {
    var next := lines + [last];
    assert Positions(next, line) == Positions(lines, line) + if last == line then {|lines|} else {};
  }

  lemma {:induction false} EdgeCountRight(found: seq<Intersection>, i: nat, m: nat, first: seq<Line>, line: Line)
    requires m <= |found|
    ensures Occurrences(first + EdgesUnder(found, i, m), line)
            == Occurrences(first, line) + EdgeCount(found, i, m, line)
  {
    if m > 0 {
      EdgeCountRight(found, i, m - 1, first, line);
      EdgesUnderNext(found, i, m - 1, first);
      OccursNext(first + EdgesUnder(found, i, m - 1), Edge(m - 1), line);
    } else {
      assert first + EdgesUnder(found, i, 0) == first;
    }
  }

  lemma {:induction false} LineCountRight(found: seq<Intersection>, n: nat, line: Line)
    ensures Occurrences(Lines(found, n), line) == LineCount(found, n, line)
  {
    if n > 0 {
      LineCountRight(found, n - 1, line);
      OccursNext(Lines(found, n - 1), Node(n - 1), line);
      EdgeCountRight(found, n - 1, |found|, Lines(found, n - 1) + [Node(n - 1)], line);
    } else {
      assert Positions([], line) == {};
    }
  }

  lemma {:induction false} EdgeCounted(found: seq<Intersection>, i: nat, m: nat, k: nat)
    requires m <= |found|
    ensures EdgeCount(found, i, m, Edge(k)) == if k < m && PrintedUnder(found[k]) == Some(i) then 1 else 0
    ensures EdgeCount(found, i, m, Node(k)) == 0
  {
    if m > 0 { EdgeCounted(found, i, m - 1, k); }
  }

  lemma {:induction false} LineCounted(found: seq<Intersection>, n: nat, k: nat)
    ensures LineCount(found, n, Node(k)) == if k < n then 1 else 0
    ensures LineCount(found, n, Edge(k)) == if k < |found| && PrintedBefore(found[k], n) then 1 else 0
  {
    if n > 0 {
      LineCounted(found, n - 1, k);
      EdgeCounted(found, n - 1, |found|, k);
    }
  }

  /** Every region is printed once, and so is every intersection of two different printed regions;
      no other intersection is. */
  lemma PrintedOnce(found: seq<Intersection>, n: nat, k: nat)
    ensures Occurrences(Lines(found, n), Node(k)) == if k < n then 1 else 0
    ensures Occurrences(Lines(found, n), Edge(k)) == if k < |found| && PrintedBefore(found[k], n) then 1 else 0
  {
    LineCountRight(found, n, Node(k));
    LineCountRight(found, n, Edge(k));
    LineCounted(found, n, k);
  }

  /** The region whose group of lines a line belongs to. */
  ghost function Home(found: seq<Intersection>, line: Line): Option<nat> {
    match line
    case Node(i) => Some(i)
    case Edge(k) => if k < |found| then PrintedUnder(found[k]) else None
  }

  /** A region's group comes before the next one's; in it the region itself comes before its
      intersections, which keep the order of the index. */
  ghost predicate Before(found: seq<Intersection>, a: Line, b: Line) {
    && Home(found, a).Some? && Home(found, b).Some?
    && (Home(found, a).value < Home(found, b).value
        || (Home(found, a) == Home(found, b) && b.Edge? && (a.Edge? ==> a.intersection < b.intersection)))
  }

  lemma {:induction false} EdgesInOrder(found: seq<Intersection>, i: nat, m: nat)
    requires m <= |found|
    ensures forall p :: 0 <= p < |EdgesUnder(found, i, m)| ==>
              var line := EdgesUnder(found, i, m)[p];
              line.Edge? && line.intersection < m && Home(found, line) == Some(i)
    ensures forall p, q :: 0 <= p < q < |EdgesUnder(found, i, m)| ==>
              Before(found, EdgesUnder(found, i, m)[p], EdgesUnder(found, i, m)[q])
  {
    if m > 0 { EdgesInOrder(found, i, m - 1); }
  }

  /** The lines come in order, group by group. */
  lemma {:induction false} LinesInOrder(found: seq<Intersection>, n: nat)
    ensures forall p :: 0 <= p < |Lines(found, n)| ==>
              Home(found, Lines(found, n)[p]).Some? && Home(found, Lines(found, n)[p]).value < n
    ensures forall p, q :: 0 <= p < q < |Lines(found, n)| ==>
              Before(found, Lines(found, n)[p], Lines(found, n)[q])
  {
    if n > 0 {
      LinesInOrder(found, n - 1);
      EdgesInOrder(found, n - 1, |found|);
      var group := [Node(n - 1)] + EdgesUnder(found, n - 1, |found|);
      assert Lines(found, n) == Lines(found, n - 1) + group;
      GroupsInOrder(found, Lines(found, n - 1), group, n - 1);
    }
  }

  lemma GroupsInOrder(found: seq<Intersection>, lines: seq<Line>, group: seq<Line>, i: nat)
    requires forall p :: 0 <= p < |lines| ==> Home(found, lines[p]).Some? && Home(found, lines[p]).value < i
    requires forall p, q :: 0 <= p < q < |lines| ==> Before(found, lines[p], lines[q])
    requires forall p :: 0 <= p < |group| ==> Home(found, group[p]) == Some(i) && (p > 0 ==> group[p].Edge?)
    requires group != [] && group[0].Node?
    requires forall p, q :: 0 < p < q < |group| ==> Before(found, group[p], group[q])
    ensures forall p :: 0 <= p < |lines + group| ==>
              Home(found, (lines + group)[p]).Some? && Home(found, (lines + group)[p]).value <= i
    ensures forall p, q :: 0 <= p < q < |lines + group| ==> Before(found, (lines + group)[p], (lines + group)[q])
  {
    var all := lines + group;
    forall p, q | 0 <= p < q < |all| ensures Before(found, all[p], all[q]) {
      if p >= |lines| { assert all[p] == group[p - |lines|] && all[q] == group[q - |lines|]; }
    }
  }

  /** The text opens the graph, and each line stands where the text of the lines before it ends: a
      region's name, or the names of the two regions that intersect. */
  lemma TextOfLines(regions: seq<Region>, found: seq<Intersection>, lines: seq<Line>, k: nat)
    requires k < |lines| && forall l :: 0 <= l < |lines| ==> LineFits(regions, found, lines[l])
    ensures Text(regions, found, []) == "graph G {\n" && lines[..|lines|] == lines
    ensures Text(regions, found, lines[..k + 1]) <= Text(regions, found, lines)
    ensures lines[k].Node? ==>
              Text(regions, found, lines[..k + 1]) ==
              Text(regions, found, lines[..k]) + (regions[lines[k].region].name + ";\n")
    ensures lines[k].Edge? ==>
              var x := found[lines[k].intersection];
              Text(regions, found, lines[..k + 1]) ==
              Text(regions, found, lines[..k]) + (regions[x.one].name + " -- " + regions[x.two].name + ";\n")
  {
    TextGrows(regions, found, lines, k + 1);
    assert lines[..k + 1][..k] == lines[..k];
  }

  lemma {:induction false} TextGrows(regions: seq<Region>, found: seq<Intersection>, lines: seq<Line>, k: nat)
    requires k <= |lines| && forall l :: 0 <= l < |lines| ==> LineFits(regions, found, lines[l])
    ensures Text(regions, found, lines[..k]) <= Text(regions, found, lines)
    decreases |lines|
  {
    if k < |lines| {
      var init := lines[..|lines| - 1];
      TextGrows(regions, found, init, k);
      assert init[..k] == lines[..k];
    } else {
      assert lines[..k] == lines;
    }
  }

  /** Of a complete index every intersection is printed exactly once. */
  lemma CompletePrintedOnce(g: Geometry, regions: seq<Region>, found: seq<Intersection>, k: nat)
    requires Indexed(g, regions, found) && k < |found|
    ensures Occurrences(Lines(found, |regions|), Edge(k)) == 1
  {
    PrintedOnce(found, |regions|, k);
  }

  /** An intersection that would be printed under a region names a region out of range. */
  ghost predicate Dangling(regions: seq<Region>, found: seq<Intersection>, k: nat) {
    k < |found| && PrintedUnder(found[k]).Some? && PrintedUnder(found[k]).value < |regions|
    && !(found[k].one < |regions| && found[k].two < |regions|)
  }

  // ---------- The adapter ----------

  class IrisRegionsAdapter {
    var regions: seq<Region>
    var intersections: Option<seq<Intersection>>

    constructor ()
      ensures regions == [] && intersections == None
    {
      regions, intersections := [], None;
    }

    /** Adds a region and its intersections with those before it. */
    method AddRegion(g: Geometry, body: Polytope, name: string, hash: nat) returns (error: Option<Error>)
      requires PairwiseRight(g)
      modifies this
      ensures error.None? <==> old(regions) == [] || (old(AllBounded(regions)) && body.bounded)
      ensures error.None?
              ==> regions == old(regions) + [Region(body, |old(regions)|, name, hash)] && intersections.Some?
      ensures error.None? && old(Complete(g, regions, intersections)) ==> Complete(g, regions, intersections)
    {
      if intersections == None {
        intersections := Some([]);
      }
      var sets := Bodies(regions);
      var boxed := AllBoxed();
      if !boxed {
        return Some(NoBoundingBox);
      }
      var index := |regions|;
      ghost var before, found := regions, intersections.value;
      regions := regions + [Region(body, index, name, hash)];
      if |regions| == 1 {
        return None;
      }
      if !body.bounded {
        return Some(NoBoundingBox);
      }
      var reported := g.pairwise(sets, body);
      assert Reports(g, sets, body, reported);
      AppendIntersections(g, before, body, reported);
      if Indexed(g, before, found) { AddedIndexed(g, before, found, regions[index], reported); }
      error := None;
    }

    method AllBoxed() returns (boxed: bool)
      ensures boxed <==> AllBounded(regions)
    {
      for i := 0 to |regions|
        invariant forall k :: 0 <= k < i ==> regions[k].body.bounded
      {
        if !regions[i].body.bounded {
          return false;
        }
      }
      boxed := true;
    }

    method AppendIntersections(g: Geometry, ghost before: seq<Region>, body: Polytope, reported: seq<(nat, Offset)>)
      requires intersections.Some? && regions != [] && before == regions[..|regions| - 1]
               && regions[|regions| - 1].body == body
      requires forall k :: 0 <= k < |reported| ==> reported[k].0 < |before|
      modifies this`intersections
      ensures intersections == Some(old(intersections).value + NewOnes(g, before, body, reported))
    {
      var index := |regions| - 1;
      ghost var added := NewOnes(g, before, body, reported);
      for i := 0 to |reported|
        invariant intersections.Some? && intersections.value == old(intersections).value + added[..i]
      {
        var (existing, offset) := reported[i];
        assert existing < index;
        var samples := g.sample(regions[existing].body, regions[index].body, offset);
        intersections := Some(intersections.value + [Intersection(existing, index, offset, samples)]);
      }
      assert added[..|reported|] == added;
    }

    /** What loading does after the stored fields have been read: a missing index is rebuilt by adding
        the regions again to an empty adapter. */
    method CompleteLoad(g: Geometry) returns (error: Option<Error>)
      requires PairwiseRight(g)
      modifies this
      ensures old(intersections).Some? || old(regions) == [] ==> unchanged(this) && error == None
      ensures old(intersections).None? && |old(regions)| > 0 ==>
                && (error.None? <==> |old(regions)| == 1 || old(AllBounded(regions)))
                && (error.None?
                    ==> SameRegions(regions, old(regions)) && intersections.Some?
                        && Complete(g, regions, intersections))
    {
      if intersections.Some? || regions == [] {
        return None;
      }
      var stored := regions;
      regions, intersections := [], None;
      for i := 0 to |stored|
        invariant SameRegions(regions, stored[..i])
        invariant Complete(g, regions, intersections) && (i > 0 ==> intersections.Some?)
        invariant i > 1 ==> AllBounded(stored[..i])
      {
        var region := stored[i];
        ghost var sofar := regions;
        var failed := AddRegion(g, region.body, region.name, region.hash);
        if failed.Some? {
          return failed;
        }
        assert stored[..i + 1] == stored[..i] + [region];
      }
      assert stored[..|stored|] == stored;
      error := None;
    }

    /** Prints the regions and their intersections as an undirected graph. Lines are collected first
        and turned into text at the end. */
    method CalcGraphVizString() returns (r: Result<string, Error>)
      ensures r == Err(NoIntersections) <==> intersections.None? && regions != []
      ensures r == Err(OutOfRange) <==> intersections.Some? && exists k :: Dangling(regions, intersections.value, k)
      ensures r.Ok? && intersections.None? ==> r.value == "graph G {\n" + "}\n"
      ensures r.Ok? && intersections.Some? ==>
                var lines := Lines(intersections.value, |regions|);
                && (forall k :: 0 <= k < |lines| ==> LineFits(regions, intersections.value, lines[k]))
                && r.value == Text(regions, intersections.value, lines) + "}\n"
    {
      if intersections == None {
        return if regions == [] then Ok("graph G {\n" + "}\n") else Err(NoIntersections);
      }
      var found := intersections.value;
      var lines: seq<Line> := [];
      for i := 0 to |regions|
        invariant lines == Lines(found, i)
        invariant forall k :: 0 <= k < |lines| ==> LineFits(regions, found, lines[k])
        invariant NoneDangles(regions, found, i)
      {
        lines := lines + [Node(i)];
        var edges := PrintEdges(regions, found, i);
        if edges.Err? {
          return Err(edges.error);
        }
        lines := lines + edges.value;
      }
      r := Ok(Text(regions, found, lines) + "}\n");
    }
  }

  /** No intersection printed under the first n regions dangles. */
  ghost predicate NoneDangles(regions: seq<Region>, found: seq<Intersection>, n: nat) {
    forall k: nat :: Dangling(regions, found, k) ==> PrintedUnder(found[k]).value >= n
  }

  /** The inner loop, for one region. */
  method PrintEdges(regions: seq<Region>, found: seq<Intersection>, i: nat) returns (r: Result<seq<Line>, Error>)
    requires i < |regions|
    ensures r.Err? ==> r.error == OutOfRange && exists k :: Dangling(regions, found, k)
    ensures r.Ok? ==> forall k: nat :: Dangling(regions, found, k) ==> PrintedUnder(found[k]) != Some(i)
    ensures r.Ok? ==> r.value == EdgesUnder(found, i, |found|)
    ensures r.Ok? ==> forall k :: 0 <= k < |r.value| ==> LineFits(regions, found, r.value[k])
  {
    var lines: seq<Line> := [];
    for m := 0 to |found|
      invariant lines == EdgesUnder(found, i, m)
      invariant forall k :: 0 <= k < |lines| ==> LineFits(regions, found, lines[k])
      invariant forall k: nat :: k < m && Dangling(regions, found, k) ==> PrintedUnder(found[k]) != Some(i)
    {
      var x := found[m];
      if (x.one == i && x.two > i) || (x.two == i && x.one > i) {
        if !(x.one < |regions| && x.two < |regions|) {
          assert Dangling(regions, found, m);
          return Err(OutOfRange);
        }
        lines := lines + [Edge(m)];
      }
    }
    r := Ok(lines);
  }
}
