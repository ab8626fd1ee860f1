/** Cliques of mutually visible configurations around a query vertex or edge.

    A subgraph of the uncovered vertices that see the query is handed to a maximum-clique solver
    together with the query itself, which is connected to all of them; the solver's answer is read
    back as columns of configurations. The solver is a function that returns a maximal clique. */
module CliqueGenerator {
  import opened Wrappers

  /** A sparse boolean matrix: the coordinates that have been inserted. */
  type Sparse = set<(nat, nat)>

  datatype Error = BadIndex | QueryNotInClique

  // ---------- Graphs ----------

  ghost predicate SimpleGraph(g: Sparse, n: nat) {
    && (forall i: nat, j: nat :: (i, j) in g ==> i < n && j < n && i != j)
    && (forall i: nat, j: nat :: (i, j) in g ==> (j, i) in g)
  }

  ghost predicate Clique(g: Sparse, members: seq<bool>) {
    forall i, j :: 0 <= i < |members| && 0 <= j < |members| && i != j && members[i] && members[j] ==> (i, j) in g
  }

  /** v sees every member of the clique. */
  ghost predicate SeesAll(g: Sparse, members: seq<bool>, v: nat) {
    forall i :: 0 <= i < |members| && i != v && members[i] ==> (i, v) in g
  }

  ghost predicate MaximalClique(g: Sparse, members: seq<bool>) {
    && Clique(g, members)
    && forall v :: 0 <= v < |members| && !members[v] ==> !SeesAll(g, members, v)
  }

  type Solver = (nat, Sparse) -> seq<bool>

  ghost predicate FindsMaximalCliques(solve: Solver) {
    forall n, g :: SimpleGraph(g, n) ==> |solve(n, g)| == n && MaximalClique(g, solve(n, g))
  }

  /** A vertex adjacent to all others lies in every maximal clique. */
  lemma DominatingVertexInClique(g: Sparse, members: seq<bool>, v: nat)
    requires v < |members| && MaximalClique(g, members)
    requires forall i :: 0 <= i < |members| && i != v ==> (i, v) in g
    ensures members[v]
  {
    assert SeesAll(g, members, v);
  }

  /** The adjacency of the configurations, one edge check per unordered pair. */
  method MakeAdjacencyMatrix<Config>(configurations: seq<Config>, checkEdge: (Config, Config) -> bool)
      returns (adjacency: Sparse)
    ensures SimpleGraph(adjacency, |configurations|)
    ensures forall i, j :: 0 <= i < j < |configurations| ==>
              ((i, j) in adjacency <==> checkEdge(configurations[i], configurations[j]))
  {
    adjacency := {};
    for i := 0 to |configurations|
      invariant SimpleGraph(adjacency, |configurations|)
      invariant forall k: nat, l: nat :: (k, l) in adjacency && k < l ==> k < i
      invariant forall k, l :: 0 <= k < i && k < l < |configurations| ==>
                  ((k, l) in adjacency <==> checkEdge(configurations[k], configurations[l]))
    {
      for j := i + 1 to |configurations|
        invariant SimpleGraph(adjacency, |configurations|)
        invariant forall k: nat, l: nat :: (k, l) in adjacency && k < l ==> k < i || (k == i && l < j)
        invariant forall k, l :: 0 <= k < l < |configurations| && (k < i || (k == i && l < j)) ==>
                    ((k, l) in adjacency <==> checkEdge(configurations[k], configurations[l]))
      {
        if checkEdge(configurations[i], configurations[j]) {
          adjacency := adjacency + {(i, j)};
          adjacency := adjacency + {(j, i)};
        }
      }
    }
  }

  ghost predicate Increasing(s: seq<nat>, n: nat) {
    && (forall i :: 0 <= i < |s| ==> s[i] < n)
    && (forall i, j :: 0 <= i < j < |s| ==> s[i] < s[j])
  }

  ghost predicate Covered<Config>(c: Config, sets: seq<Config -> bool>) {
    exists k :: 0 <= k < |sets| && sets[k](c)
  }

  method FindUncoveredVertices<Config>(vertices: seq<Config>, sets: seq<Config -> bool>) returns (uncovered: seq<nat>)
    ensures Increasing(uncovered, |vertices|)
    ensures forall i: nat :: i in uncovered <==> i < |vertices| && !Covered(vertices[i], sets)
  {
    uncovered := [];
    for i := 0 to |vertices|
      invariant Increasing(uncovered, i)
      invariant forall k: nat :: k in uncovered <==> k < i && !Covered(vertices[k], sets)
    {
      var isCovered := IsCovered(vertices[i], sets);
      if !isCovered {
        uncovered := uncovered + [i];
      }
    }
  }

  method IsCovered<Config>(c: Config, sets: seq<Config -> bool>) returns (isCovered: bool)
    ensures isCovered <==> Covered(c, sets)
  {
    isCovered := false;
    for k := 0 to |sets|
      invariant !isCovered && forall l :: 0 <= l < k ==> !sets[l](c)
    {
      if sets[k](c) {
        isCovered := true;
        break;
      }
    }
  }

  // ---------- The subgraph and its clique ----------

  /** Vertices 0..n stand for the visible vertices and the last ones for the query, which sees all. */
  ghost predicate InSubgraph(adjacency: Sparse, visible: seq<nat>, queries: nat, i: nat, j: nat) {
    var n := |visible|;
    && i < n + queries && j < n + queries && i != j
    && (i >= n || j >= n || (visible[if i < j then i else j], visible[if i < j then j else i]) in adjacency)
  }

  ghost function Subgraph(adjacency: Sparse, visible: seq<nat>, queries: nat): Sparse {
    set i, j | 0 <= i < |visible| + queries && 0 <= j < |visible| + queries
               && InSubgraph(adjacency, visible, queries, i, j) :: (i, j)
  }

  method MakeSubgraph(adjacency: Sparse, visible: seq<nat>, queries: nat) returns (subgraph: Sparse)
    requires queries == 1 || queries == 2
    ensures subgraph == Subgraph(adjacency, visible, queries)
  {
    var n := |visible|;
    subgraph := {};
    for i := 0 to n
      invariant forall k: nat, l: nat :: (k, l) in subgraph <==>
                  InSubgraph(adjacency, visible, queries, k, l) && (k < i || l < i) && (k < n || l < n)
    {
      subgraph := ConnectQueries(subgraph, i, n, queries);
      subgraph := ConnectLater(adjacency, visible, subgraph, i);
    }
    if queries == 2 {
      subgraph := subgraph + {(n, n + 1)};
      subgraph := subgraph + {(n + 1, n)};
    }
    forall p: (nat, nat) ensures p in subgraph <==> p in Subgraph(adjacency, visible, queries) {
      var (i, j) := p;
      assert (i, j) in subgraph <==> InSubgraph(adjacency, visible, queries, i, j);
    }
  }

  /** Connects the i-th vertex with the query's. */
  method ConnectQueries(before: Sparse, i: nat, n: nat, queries: nat) returns (subgraph: Sparse)
    ensures forall k: nat, l: nat :: (k, l) in subgraph <==>
              (k, l) in before || (k == i && n <= l < n + queries) || (l == i && n <= k < n + queries)
  {
    subgraph := before;
    for q := n to n + queries
      invariant forall k: nat, l: nat :: (k, l) in subgraph <==>
                  (k, l) in before || (k == i && n <= l < q) || (l == i && n <= k < q)
    {
      subgraph := subgraph + {(i, q)};
      subgraph := subgraph + {(q, i)};
    }
  }

  /** Connects the i-th visible vertex with the later ones that it sees. */
  method ConnectLater(adjacency: Sparse, visible: seq<nat>, before: Sparse, i: nat) returns (subgraph: Sparse)
    requires i < |visible|
    ensures forall k: nat, l: nat :: (k, l) in subgraph <==>
              || (k, l) in before
              || (k == i && i < l < |visible| && (visible[i], visible[l]) in adjacency)
              || (l == i && i < k < |visible| && (visible[i], visible[k]) in adjacency)
  {
    subgraph := before;
    for j := i + 1 to |visible|
      invariant forall k: nat, l: nat :: (k, l) in subgraph <==>
                  || (k, l) in before
                  || (k == i && i < l < j && (visible[i], visible[l]) in adjacency)
                  || (l == i && i < k < j && (visible[i], visible[k]) in adjacency)
    {
      if (visible[i], visible[j]) in adjacency {
        subgraph := subgraph + {(i, j)};
        subgraph := subgraph + {(j, i)};
      }
    }
  }

  function Count(members: seq<bool>): nat {
    if members == [] then 0 else Count(members[..|members| - 1]) + if members[|members| - 1] then 1 else 0
  }

  /** The visible vertices that the clique selects, in order. */
  function Selected(visible: seq<nat>, members: seq<bool>, n: nat): (s: seq<nat>)
    requires n <= |visible| && n <= |members|
    ensures |s| == Count(members[..n])
    ensures forall v :: v in s ==> v in visible
  {
    if n == 0 then []
    else
      assert members[..n][..n - 1] == members[..n - 1];
      Selected(visible, members, n - 1) + if members[n - 1] then [visible[n - 1]] else []
  }

  /** Every two selected vertices are adjacent, read in increasing order. */
  ghost predicate PairwiseAdjacent(adjacency: Sparse, chosen: seq<nat>) {
    forall a, b :: 0 <= a < b < |chosen| ==> (chosen[a], chosen[b]) in adjacency
  }

  /** A visible vertex that was not selected misses an edge to a selected one. */
  ghost predicate Extensible(adjacency: Sparse, chosen: seq<nat>, v: nat) {
    v !in chosen && forall w :: w in chosen ==> (if v < w then (v, w) else (w, v)) in adjacency
  }

  /** What the caller may rely on: the chosen vertices are visible, pairwise adjacent and in order,
      no further visible vertex could join them, and with the query they are numerous enough. */
  ghost predicate MaximalChoice(adjacency: Sparse, visible: seq<nat>, chosen: seq<nat>) {
    && (forall v :: v in chosen ==> v in visible)
    && (forall a, b :: 0 <= a < b < |chosen| ==> chosen[a] < chosen[b])
    && PairwiseAdjacent(adjacency, chosen)
    && (forall v :: v in visible ==> !Extensible(adjacency, chosen, v))
  }

  lemma {:induction false} SelectedIndex(visible: seq<nat>, members: seq<bool>, n: nat, a: nat) returns (i: nat)
    requires n <= |visible| && n <= |members| && a < |Selected(visible, members, n)|
    ensures i < n && members[i] && Selected(visible, members, n)[a] == visible[i]
    ensures a == Count(members[..i])
    decreases n
  {
    assert members[..n][..n - 1] == members[..n - 1];
    if a < |Selected(visible, members, n - 1)| {
      i := SelectedIndex(visible, members, n - 1, a);
    } else {
      i := n - 1;
    }
  }

  lemma {:induction false} SelectedContains(visible: seq<nat>, members: seq<bool>, n: nat, i: nat)
    requires i < n <= |visible| && n <= |members| && members[i]
    ensures visible[i] in Selected(visible, members, n)
    decreases n
  {
    if i < n - 1 { SelectedContains(visible, members, n - 1, i); }
  }

  lemma {:induction false} CountMono(members: seq<bool>, i: nat, j: nat)
    requires i <= j <= |members|
    ensures Count(members[..i]) <= Count(members[..j])
    decreases j
  {
    if i < j {
      assert members[..j][..j - 1] == members[..j - 1];
      CountMono(members, i, j - 1);
    }
  }

  lemma SelectionIsMaximal(adjacency: Sparse, visible: seq<nat>, queries: nat, members: seq<bool>, bound: nat)
    requires Increasing(visible, bound)
    requires |members| == |visible| + queries && MaximalClique(Subgraph(adjacency, visible, queries), members)
    ensures MaximalChoice(adjacency, visible, Selected(visible, members, |visible|))
  {
    var g := Subgraph(adjacency, visible, queries);
    var n := |visible|;
    var chosen := Selected(visible, members, n);
    forall a, b | 0 <= a < b < |chosen| ensures chosen[a] < chosen[b] && (chosen[a], chosen[b]) in adjacency {
      var i := SelectedIndex(visible, members, n, a);
      var j := SelectedIndex(visible, members, n, b);
      if j <= i { CountMono(members, j, i); }
      assert (i, j) in g;
    }
    forall v | v in visible ensures !Extensible(adjacency, chosen, v) {
      var k :| 0 <= k < n && visible[k] == v;
      if members[k] {
        SelectedContains(visible, members, n, k);
      } else if Extensible(adjacency, chosen, v) {
        forall i | 0 <= i < |members| && i != k && members[i] ensures (i, k) in g {
          if i < n {
            SelectedContains(visible, members, n, i);
            assert visible[i] in chosen;
            assert InSubgraph(adjacency, visible, queries, i, k);
          }
        }
        assert SeesAll(g, members, k);
      }
    }
  }

  lemma {:induction false} CountSplit(members: seq<bool>, n: nat)
    requires n <= |members| && forall i :: n <= i < |members| ==> members[i]
    ensures Count(members) == Count(members[..n]) + (|members| - n)
    decreases |members|
  {
    if n < |members| {
      var init := members[..|members| - 1];
      CountSplit(init, n);
      assert init[..n] == members[..n];
    } else {
      assert members[..n] == members;
    }
  }

  lemma QueriesInClique(adjacency: Sparse, visible: seq<nat>, queries: nat, members: seq<bool>)
    requires |members| == |visible| + queries && MaximalClique(Subgraph(adjacency, visible, queries), members)
    ensures forall i :: |visible| <= i < |members| ==> members[i]
  {
    var g := Subgraph(adjacency, visible, queries);
    forall i | |visible| <= i < |members| ensures members[i] {
      forall k | 0 <= k < |members| && k != i ensures (k, i) in g {
        assert InSubgraph(adjacency, visible, queries, k, i);
      }
      DominatingVertexInClique(g, members, i);
    }
  }

  /** Solves for the clique around the query and reads the chosen vertices back: those that the solver
      selects. The checks that the query's vertices are in the clique and that the columns fill the
      matrix cannot fail. */
  method CliqueAmongVisible(adjacency: Sparse, visible: seq<nat>, queries: nat, minimumDim: nat, solve: Solver,
      ghost bound: nat)
    returns (r: Result<Option<seq<nat>>, Error>, ghost chosen: seq<nat>)
    requires FindsMaximalCliques(solve) && Increasing(visible, bound) && (queries == 1 || queries == 2)
    ensures r == Ok(if |chosen| + queries >= minimumDim then Some(chosen) else None)
    ensures r.Ok? && (r.value.Some? ==> MaximalChoice(adjacency, visible, r.value.value))
    ensures MaximalChoice(adjacency, visible, chosen)
    ensures var members := solve(|visible| + queries, Subgraph(adjacency, visible, queries));
            && |members| == |visible| + queries
            && forall i :: 0 <= i < |visible| ==> (visible[i] in chosen <==> members[i])
  {
    var n := |visible|;
    var subgraph := MakeSubgraph(adjacency, visible, queries);
    var maxClique := solve(n + queries, subgraph);
    SolverAnswer(adjacency, visible, queries, solve);
    QueriesInClique(adjacency, visible, queries, maxClique);
    chosen := Selected(visible, maxClique, n);
    ColumnsFill(visible, queries, maxClique);
    SelectionIsMaximal(adjacency, visible, queries, maxClique, bound);
    SelectedIff(visible, maxClique, bound);
    if !maxClique[n] || !maxClique[n + queries - 1] {
      return Err(QueryNotInClique), chosen;
    }
    var m := Count(maxClique);
    if m < minimumDim {
      return Ok(None), chosen;
    }
    var columns := ReadColumns(visible, maxClique);
    assert |columns| == m - queries;
    r := Ok(Some(columns));
  }

  lemma SelectedIff(visible: seq<nat>, members: seq<bool>, bound: nat)
    requires Increasing(visible, bound) && |visible| <= |members|
    ensures forall i :: 0 <= i < |visible| ==> (visible[i] in Selected(visible, members, |visible|) <==> members[i])
  {
    forall i | 0 <= i < |visible| ensures visible[i] in Selected(visible, members, |visible|) <==> members[i] {
      if members[i] {
        SelectedContains(visible, members, |visible|, i);
      } else {
        SelectedLacks(visible, members, |visible|, i, bound);
      }
    }
  }

  lemma {:induction false} SelectedLacks(visible: seq<nat>, members: seq<bool>, n: nat, i: nat, bound: nat)
    requires Increasing(visible, bound) && n <= |visible| <= |members| && i < |visible| && !members[i]
    ensures visible[i] !in Selected(visible, members, n)
    decreases n
  {
    if n > 0 { SelectedLacks(visible, members, n - 1, i, bound); }
  }

  /** The columns that are read fill the matrix up to the query's own. */
  lemma ColumnsFill(visible: seq<nat>, queries: nat, members: seq<bool>)
    requires |members| == |visible| + queries && forall i :: |visible| <= i < |members| ==> members[i]
    ensures |Selected(visible, members, |visible|)| == Count(members) - queries
  {
    CountSplit(members, |visible|);
  }

  lemma SolverAnswer(adjacency: Sparse, visible: seq<nat>, queries: nat, solve: Solver)
    requires FindsMaximalCliques(solve)
    ensures var g := Subgraph(adjacency, visible, queries);
            var members := solve(|visible| + queries, g);
            |members| == |visible| + queries && MaximalClique(g, members)
  {
  }

  method ReadColumns(visible: seq<nat>, maxClique: seq<bool>) returns (columns: seq<nat>)
    requires |visible| <= |maxClique|
    ensures columns == Selected(visible, maxClique, |visible|)
  {
    columns := [];
    for i := 0 to |visible|
      invariant columns == Selected(visible, maxClique, i)
    {
      if maxClique[i] {
        columns := columns + [visible[i]];
      }
    }
  }

  // ---------- The four queries ----------

  lemma IncreasingAppend(visible: seq<nat>, s: seq<nat>, i: nat, bound: nat)
    requires Increasing(visible, bound) && Increasing(s, bound) && i < |s|
    requires forall v :: v in visible ==> v in s[..i]
    ensures Increasing(visible + [s[i]], bound)
  {
    forall k | 0 <= k < |visible| ensures visible[k] < s[i] {
      assert visible[k] in visible;
    }
  }

  /** Keeps the uncovered vertices that see the query. */
  method KeepVisible(uncovered: seq<nat>, sees: nat -> bool, ghost bound: nat) returns (visible: seq<nat>)
    requires Increasing(uncovered, bound)
    ensures Increasing(visible, bound)
    ensures forall v :: v in visible <==> v in uncovered && sees(v)
  {
    visible := [];
    for i := 0 to |uncovered|
      invariant Increasing(visible, bound)
      invariant forall v :: v in visible <==> v in uncovered[..i] && sees(v)
    {
      assert uncovered[..i + 1] == uncovered[..i] + [uncovered[i]];
      if sees(uncovered[i]) {
        IncreasingAppend(visible, uncovered, i, bound);
        visible := visible + [uncovered[i]];
      }
    }
    assert uncovered[..|uncovered|] == uncovered;
  }

  /** A clique around a vertex of the graph; the vertex itself is added by the caller. Among the
      uncovered vertices adjacent to it, of which there must be more than the dimension, the chosen ones
      form a maximal clique; nothing is returned exactly when there are too few of either. */
  method AroundVertex<Config>(vertices: seq<Config>, adjacency: Sparse, dim: nat, vertexIndex: int,
                              sets: seq<Config -> bool>, solve: Solver)
    returns (r: Result<Option<seq<nat>>, Error>, ghost visible: seq<nat>, ghost chosen: seq<nat>)
    requires FindsMaximalCliques(solve)
    ensures r.Err? <==> !(0 <= vertexIndex < |vertices|)
    ensures r.Ok? ==>
              Increasing(visible, |vertices|)
              && forall v: nat :: v in visible <==>
                   && v < |vertices| && !Covered(vertices[v], sets)
                   && v != vertexIndex && (vertexIndex, v) in adjacency
    ensures r.Ok? && |visible| > dim ==> MaximalChoice(adjacency, visible, chosen)
    ensures r.Ok? ==> r.value == if |visible| > dim && |chosen| >= dim then Some(chosen) else None
  {
    if !(0 <= vertexIndex < |vertices|) {
      return Err(BadIndex), [], [];
    }
    var uncovered := FindUncoveredVertices(vertices, sets);
    if uncovered == [] {
      return Ok(None), [], [];
    }
    var seen := KeepVisible(uncovered, (v: nat) => v != vertexIndex && (vertexIndex, v) in adjacency, |vertices|);
    if |seen| < dim + 1 {
      return Ok(None), seen, [];
    }
    visible := seen;
    r, chosen := CliqueAmongVisible(adjacency, seen, 1, dim + 1, solve, |vertices|);
  }

  /** A clique around a configuration that need not be a vertex. */
  method AroundConfig<Config>(vertices: seq<Config>, adjacency: Sparse, dim: nat, q: Config,
      checkEdge: (Config, Config) -> bool, sets: seq<Config -> bool>, solve: Solver)
    returns (r: Result<Option<seq<nat>>, Error>, ghost visible: seq<nat>, ghost chosen: seq<nat>)
    requires FindsMaximalCliques(solve)
    ensures r.Ok? && Increasing(visible, |vertices|)
    ensures forall v: nat :: v in visible <==>
              v < |vertices| && !Covered(vertices[v], sets) && checkEdge(q, vertices[v])
    ensures |visible| > dim ==> MaximalChoice(adjacency, visible, chosen)
    ensures r.value == if |visible| > dim && |chosen| >= dim then Some(chosen) else None
  {
    var uncovered := FindUncoveredVertices(vertices, sets);
    if uncovered == [] {
      return Ok(None), [], [];
    }
    var seen := KeepVisible(uncovered, (v: nat) => v < |vertices| && checkEdge(q, vertices[v]), |vertices|);
    if |seen| < dim + 1 {
      return Ok(None), seen, [];
    }
    visible := seen;
    r, chosen := CliqueAmongVisible(adjacency, seen, 1, dim + 1, solve, |vertices|);
  }

  ghost predicate SomeUncovered<Config>(vertices: seq<Config>, sets: seq<Config -> bool>) {
    exists v :: 0 <= v < |vertices| && !Covered(vertices[v], sets)
  }

  /** A clique around an edge of the graph, which counts for two of its vertices. */
  method AroundEdge<Config>(vertices: seq<Config>, adjacency: Sparse, dim: nat, v1: int, v2: int,
                            sets: seq<Config -> bool>, solve: Solver)
    returns (r: Result<Option<seq<nat>>, Error>, ghost visible: seq<nat>, ghost chosen: seq<nat>)
    requires FindsMaximalCliques(solve)
    ensures r.Err? <==> !(0 <= v1 < |vertices| && 0 <= v2 < |vertices| && v1 != v2)
    ensures r.Ok? && (v1, v2) in adjacency ==>
              Increasing(visible, |vertices|)
              && forall v: nat :: v in visible <==>
                   && v < |vertices| && !Covered(vertices[v], sets)
                   && v != v1 && v != v2 && (v1, v) in adjacency && (v2, v) in adjacency
    ensures r.Ok? && (v1, v2) in adjacency && SomeUncovered(vertices, sets) && |visible| + 2 > dim ==>
              MaximalChoice(adjacency, visible, chosen)
    ensures r.Ok? ==>
              r.value == if && (v1, v2) in adjacency && SomeUncovered(vertices, sets)
                            && |visible| + 2 > dim && |chosen| + 2 > dim
                         then Some(chosen) else None
  {
    if !(0 <= v1 < |vertices| && 0 <= v2 < |vertices| && v1 != v2) {
      return Err(BadIndex), [], [];
    }
    if (v1, v2) !in adjacency {
      return Ok(None), [], [];
    }
    var uncovered := FindUncoveredVertices(vertices, sets);
    if uncovered == [] {
      return Ok(None), [], [];
    }
    assert SomeUncovered(vertices, sets) by {
      assert uncovered[0] in uncovered;
    }
    var seen := KeepVisible(uncovered,
        (v: nat) => v != v1 && v != v2 && (v1, v) in adjacency && (v2, v) in adjacency, |vertices|);
    if |seen| + 2 < dim + 1 {
      return Ok(None), seen, [];
    }
    visible := seen;
    r, chosen := CliqueAmongVisible(adjacency, seen, 2, dim + 1, solve, |vertices|);
  }

  /** A clique around the edge between two configurations. */
  method AroundConfigEdge<Config>(vertices: seq<Config>, adjacency: Sparse, dim: nat, q1: Config, q2: Config,
                                  checkEdge: (Config, Config) -> bool, sets: seq<Config -> bool>, solve: Solver)
    returns (r: Result<Option<seq<nat>>, Error>, ghost visible: seq<nat>, ghost chosen: seq<nat>)
    requires FindsMaximalCliques(solve)
    ensures r.Ok?
    ensures checkEdge(q1, q2) ==>
              Increasing(visible, |vertices|)
              && forall v: nat :: v in visible <==>
                   && v < |vertices| && !Covered(vertices[v], sets)
                   && checkEdge(q1, vertices[v]) && checkEdge(q2, vertices[v])
    ensures checkEdge(q1, q2) && |visible| > dim ==> MaximalChoice(adjacency, visible, chosen)
    ensures r.value == if checkEdge(q1, q2) && |visible| > dim && |chosen| + 2 > dim then Some(chosen) else None
  {
    if !checkEdge(q1, q2) {
      return Ok(None), [], [];
    }
    var uncovered := FindUncoveredVertices(vertices, sets);
    if uncovered == [] {
      return Ok(None), [], [];
    }
    var seen := KeepVisible(uncovered,
        (v: nat) => v < |vertices| && checkEdge(q1, vertices[v]) && checkEdge(q2, vertices[v]), |vertices|);
    if |seen| + 1 <= dim + 1 {
      return Ok(None), seen, [];
    }
    visible := seen;
    r, chosen := CliqueAmongVisible(adjacency, seen, 2, dim + 1, solve, |vertices|);
  }
}
