/** The bundle of three collision overrides and the collision checker that mirrors them.

    The checker's padding matrix, filter matrix and added geometries change only in callbacks that run
    when an override is set or restored. Each geometry that is added gets an id of its own, and the
    constraints object tracks under which name; removal goes by the tracked names. An exception
    between the three sets unwinds the scopes in reverse order of construction, running the restoring
    callbacks of those already set. */
module CollisionScope {
  import opened Wrappers
  import opened Override

  type Padding = map<(nat, nat), real>
  type Filter = map<(nat, nat), int>

  datatype Shape = Shape(name: string, frame: string)

  datatype Failure = Blocked | Thrown

  type Geometries = map<nat, Shape>

  /** Where an exception strikes, if one does: building the list of shapes, adding the shape at an index,
      finding the id of the geometry that was added for it, editing a cloned matrix, or installing a matrix. */
  datatype Fault =
    | NoFault
    | BuildingShapes
    | AddingShape(index: nat)
    | TrackingShape(index: nat)
    | EditingPadding
    | InstallingPadding
    | EditingFilter
    | InstallingFilter

  /** Changes that a plan request makes to clones of the current values. */
  datatype Options = Options(shapes: seq<Shape>, editPadding: Padding -> Padding, editFilter: Filter -> Filter)

  /** Values that the planner had when it handed an item to the visualizer. */
  datatype Snapshot = Snapshot(padding: Padding, filter: Filter, shapes: seq<Shape>)

  /** Three scopes; the callbacks are registered unless no options were given. */
  datatype Bundle = Bundle(padding: Scope, filter: Scope, shapes: Scope, callbacks: bool)

  // ---------- Geometries ----------

  /** The geometries of the first n shapes of a list, whose ids start at first. */
  ghost function GeometriesOf(list: seq<Shape>, n: nat, first: nat): Geometries
    requires n <= |list|
  {
    if n == 0 then map[] else GeometriesOf(list, n - 1, first)[first + n - 1 := list[n - 1]]
  }

  /** The names under which they are tracked. */
  ghost function TrackedOf(list: seq<Shape>, n: nat, first: nat): map<nat, string>
    requires n <= |list|
  {
    if n == 0 then map[] else TrackedOf(list, n - 1, first)[first + n - 1 := list[n - 1].name]
  }

  lemma {:induction false} ListedIds(list: seq<Shape>, n: nat, first: nat)
    requires n <= |list|
    ensures forall id :: id in GeometriesOf(list, n, first) <==> first <= id < first + n
    ensures forall id :: id in GeometriesOf(list, n, first) ==> GeometriesOf(list, n, first)[id] == list[id - first]
    ensures forall id :: id in TrackedOf(list, n, first) <==> first <= id < first + n
    ensures forall id :: id in TrackedOf(list, n, first) ==> TrackedOf(list, n, first)[id] == list[id - first].name
  {
    if n > 0 { ListedIds(list, n - 1, first); }
  }

  ghost function NamesOf(list: seq<Shape>, n: nat): set<string>
    requires n <= |list|
  {
    set k | 0 <= k < n :: list[k].name
  }

  function Without(g: Geometries, names: set<string>): Geometries {
    map id | id in g && g[id].name !in names :: g[id]
  }

  /** How many shapes of a list are added, and how many of them tracked, before an exception. */
  function AddedCount(fault: Fault, n: nat): (r: nat)
    ensures r <= n
  {
    match fault
    case AddingShape(i) => if i < n then i else n
    case TrackingShape(i) => if i < n then i + 1 else n
    case _ => n
  }

  function TrackedCount(fault: Fault, n: nat): (r: nat)
    ensures r <= n
  {
    match fault
    case AddingShape(i) => if i < n then i else n
    case TrackingShape(i) => if i < n then i else n
    case _ => n
  }

  predicate FailsAddingShapes(fault: Fault, n: nat) {
    (fault.AddingShape? && fault.index < n) || (fault.TrackingShape? && fault.index < n)
  }

  /** What adding a list and then removing the tracked names leaves. */
  ghost function LeftBehind(g: Geometries, next: nat, list: seq<Shape>, fault: Fault): Geometries {
    var added := AddedCount(fault, |list|);
    Without(g + GeometriesOf(list, added, next), NamesOf(list, TrackedCount(fault, |list|)))
  }

  /** A checker without geometries has none again exactly when no geometry was added and not tracked,
      or an earlier tracked shape has the name of that one. */
  lemma LeftBehindIff(next: nat, list: seq<Shape>, fault: Fault)
    ensures LeftBehind(map[], next, list, fault) == map[] <==>
              (fault.TrackingShape? && fault.index < |list| ==> list[fault.index].name in NamesOf(list, fault.index))
  {
    var left := LeftBehind(map[], next, list, fault);
    ListedIds(list, AddedCount(fault, |list|), next);
    assert forall id :: id in left ==> fault.TrackingShape? && fault.index < |list| && id == next + fault.index;
    if fault.TrackingShape? && fault.index < |list| && list[fault.index].name !in NamesOf(list, fault.index) {
      assert next + fault.index in left;
    }
  }

  // ---------- What the checker must look like ----------

  datatype State = State(
    padding: Target<Padding>,
    filter: Target<Filter>,
    shapes: Target<seq<Shape>>,
    checkerPadding: Padding,
    checkerFilter: Filter,
    geometries: Geometries,
    tracked: map<nat, string>,
    nextGeometry: nat,
    nextToken: nat)

  function Free<T>(v: T): Target<T> {
    Target(0, false, Some(v), None, true)
  }

  function Owned<T>(v: T, token: nat): Target<T> {
    Target(token, false, Some(v), None, true)
  }

  function Overriding<T>(base: T, v: T, token: nat): Target<T> {
    Target(token, true, Some(v), Some(base), true)
  }

  /** The ids of geometries have been given out. */
  ghost predicate IdsIssued(g: Geometries, next: nat) {
    forall id :: id in g ==> id < next
  }

  /** No bundle is held: every override shows its base, and so does the checker, except that its
      filter may still be the one installed at construction, and that geometries that were added
      without being tracked may have stayed. */
  ghost predicate AtRest(s: State, p0: Padding, f0: Filter) {
    && s.padding == Free(p0) && s.filter == Free(f0) && s.shapes == Free([])
    && s.checkerPadding == p0 && s.tracked == map[] && IdsIssued(s.geometries, s.nextGeometry)
    && s.nextToken > 0
  }

  ghost predicate Holding(b: Bundle) {
    && b.padding.hasTarget && b.filter.hasTarget && b.shapes.hasTarget
    && b.padding.token != 0 && b.filter.token != 0 && b.shapes.token != 0
  }

  /** The geometries with the latest ids are those of the list, and they are the tracked ones. */
  ghost predicate Tracks(g: Geometries, tracked: map<nat, string>, next: nat, list: seq<Shape>) {
    && |list| <= next && IdsIssued(g, next)
    && tracked == TrackedOf(list, |list|, next - |list|)
    && forall id :: id in tracked ==> next - |list| <= id < next && id in g && g[id] == list[id - (next - |list|)]
  }

  /** A bundle with options is held: the checker shows exactly what the overrides hold. */
  ghost predicate Applied(s: State, b: Bundle, p0: Padding, f0: Filter, v: Snapshot) {
    && Holding(b) && b.callbacks
    && s.padding == Overriding(p0, v.padding, b.padding.token)
    && s.filter == Overriding(f0, v.filter, b.filter.token)
    && s.shapes == Overriding([], v.shapes, b.shapes.token)
    && s.checkerPadding == v.padding && s.checkerFilter == v.filter
    && Tracks(s.geometries, s.tracked, s.nextGeometry, v.shapes)
    && b.padding.token < s.nextToken
  }

  /** A bundle without options is held: ownership alone, the checker as at rest. */
  ghost predicate Reserved(s: State, b: Bundle, p0: Padding, f0: Filter) {
    && Holding(b) && !b.callbacks
    && s.padding == Owned(p0, b.padding.token)
    && s.filter == Owned(f0, b.filter.token)
    && s.shapes == Owned([], b.shapes.token)
    && s.checkerPadding == p0 && s.tracked == map[] && IdsIssued(s.geometries, s.nextGeometry)
    && b.padding.token < s.nextToken
  }

  /** At rest or under one bundle. */
  ghost predicate Consistent(s: State, held: Option<Bundle>, p0: Padding, f0: Filter) {
    match held
    case None => AtRest(s, p0, f0)
    case Some(b) => Reserved(s, b, p0, f0) || exists v :: Applied(s, b, p0, f0, v)
  }

  /** Another scope owns the padding override, so acquiring a bundle fails at its first scope. */
  ghost predicate PaddingTaken(s: State) {
    s.padding.owner != 0 && s.padding.owner < s.nextToken
  }

  lemma HeldIsTaken(s: State, b: Bundle, p0: Padding, f0: Filter)
    requires Consistent(s, Some(b), p0, f0)
    ensures PaddingTaken(s)
  {
  }

  /** Tokens may be spent without harm. */
  lemma KeepsConsistent(s: State, held: Option<Bundle>, p0: Padding, f0: Filter, nextToken: nat)
    requires Consistent(s, held, p0, f0) && nextToken >= s.nextToken
    ensures Consistent(s.(nextToken := nextToken), held, p0, f0)
  {
    if held.Some? && !Reserved(s, held.value, p0, f0) {
      var v :| Applied(s, held.value, p0, f0, v);
      assert Applied(s.(nextToken := nextToken), held.value, p0, f0, v);
    }
  }

  /** A bundle of which some overrides have been set. */
  ghost predicate PartlySet(s: State, b: Bundle, p0: Padding, f0: Filter) {
    && Holding(b) && s.nextToken > 0 && IdsIssued(s.geometries, s.nextGeometry)
    && s.padding == (if s.padding.overridden && s.padding.curr.Some?
                     then Overriding(p0, s.padding.curr.value, b.padding.token) else Owned(p0, b.padding.token))
    && s.filter == (if s.filter.overridden && s.filter.curr.Some?
                    then Overriding(f0, s.filter.curr.value, b.filter.token) else Owned(f0, b.filter.token))
    && s.shapes == (if s.shapes.overridden && s.shapes.curr.Some?
                    then Overriding([], s.shapes.curr.value, b.shapes.token) else Owned([], b.shapes.token))
    && (b.callbacks || !(s.padding.overridden || s.filter.overridden || s.shapes.overridden))
    && (!s.padding.overridden ==> s.checkerPadding == p0)
    && (!s.shapes.overridden ==> s.tracked == map[])
  }

  /** Of a list of shapes some have been added to the checker and some of these are tracked. */
  ghost predicate Grown(s: State, t: State, list: seq<Shape>, added: nat, tracked: nat) {
    && added <= |list| && tracked <= |list|
    && t.nextGeometry == s.nextGeometry + added && IdsIssued(t.geometries, t.nextGeometry)
    && t.geometries == s.geometries + GeometriesOf(list, added, s.nextGeometry)
    && t.tracked == TrackedOf(list, tracked, s.nextGeometry)
  }

  lemma NothingGrown(s: State, list: seq<Shape>)
    requires s.tracked == map[] && IdsIssued(s.geometries, s.nextGeometry)
    ensures Grown(s, s, list, 0, 0)
  {
  }

  /** One geometry more, tracked or not. */
  lemma GrownByOne(s: State, t: State, list: seq<Shape>, i: nat)
    requires i < |list| && Grown(s, t, list, i, i)
    ensures t.nextGeometry !in t.tracked
    ensures forall u: State ::
              && u.nextGeometry == t.nextGeometry + 1 && IdsIssued(u.geometries, u.nextGeometry)
              && u.geometries == t.geometries[t.nextGeometry := list[i]]
              ==> (u.tracked == t.tracked ==> Grown(s, u, list, i + 1, i))
                  && (u.tracked == t.tracked[t.nextGeometry := list[i].name] ==> Grown(s, u, list, i + 1, i + 1))
  {
    ListedIds(list, i, s.nextGeometry);
    assert (s.geometries + GeometriesOf(list, i, s.nextGeometry))[t.nextGeometry := list[i]]
        == s.geometries + GeometriesOf(list, i + 1, s.nextGeometry);
  }

  lemma GrownTracks(s: State, t: State, list: seq<Shape>)
    requires Grown(s, t, list, |list|, |list|)
    ensures Tracks(t.geometries, t.tracked, t.nextGeometry, list)
  {
    ListedIds(list, |list|, s.nextGeometry);
  }

  /** The derived view: the checker's padding is the override's current value, its tracked geometries
      are the current shape list, and its filter is the current one while options are applied. */
  ghost predicate ShowsOverrides(s: State, held: Option<Bundle>) {
    && s.padding.curr == Some(s.checkerPadding)
    && s.shapes.curr.Some? && Tracks(s.geometries, s.tracked, s.nextGeometry, s.shapes.curr.value)
    && (held.Some? && held.value.callbacks ==> s.filter.curr == Some(s.checkerFilter))
  }

  lemma CheckerShowsOverrides(s: State, held: Option<Bundle>, p0: Padding, f0: Filter)
    requires Consistent(s, held, p0, f0)
    ensures ShowsOverrides(s, held)
    ensures held.None? ==> s.checkerPadding == p0 && s.tracked == map[]
  {
  }

  /** Nothing was left behind: every geometry of the checker is tracked. */
  ghost predicate AllTracked(s: State) {
    s.geometries.Keys == s.tracked.Keys
  }

  // ---------- The constraints object ----------

  class RobotConstraints {
    var padding: Target<Padding>
    var filter: Target<Filter>
    var shapes: Target<seq<Shape>>
    var checkerPadding: Padding
    var checkerFilter: Filter
    var geometries: Geometries
    var tracked: map<nat, string>
    var nextGeometry: nat
    var nextToken: nat

    ghost function Abstract(): State
      reads this
    {
      State(padding, filter, shapes, checkerPadding, checkerFilter, geometries, tracked, nextGeometry, nextToken)
    }

    /** The filter override starts from the checker's nominal matrix although another filter has
        been installed; the padding override starts from the installed padding. */
    constructor (installedPadding: Padding, installedFilter: Filter, nominalFilter: Filter)
      ensures AtRest(Abstract(), installedPadding, nominalFilter)
      ensures checkerFilter == installedFilter && geometries == map[]
    {
      padding, filter, shapes := Free(installedPadding), Free(nominalFilter), Free([]);
      checkerPadding, checkerFilter := installedPadding, installedFilter;
      geometries, tracked, nextGeometry := map[], map[], 0;
      nextToken := 1;
    }

    // ---------- The callbacks for shapes ----------

    /** Adds the shapes in order. The id of a new geometry is found by comparing before and after; the
        demand that it is not tracked yet holds. */
    method AddCollisionShapes(list: seq<Shape>, fault: Fault) returns (ok: bool)
      requires tracked == map[] && IdsIssued(geometries, nextGeometry)
      modifies this`geometries, this`tracked, this`nextGeometry
      ensures ok <==> !FailsAddingShapes(fault, |list|)
      ensures Grown(old(Abstract()), Abstract(), list, AddedCount(fault, |list|), TrackedCount(fault, |list|))
    {
      NothingGrown(Abstract(), list);
      var i := 0;
      while i < |list|
        invariant 0 <= i <= TrackedCount(fault, |list|)
        invariant Grown(old(Abstract()), Abstract(), list, i, i)
      {
        if fault == AddingShape(i) {
          return false;
        }
        GrownByOne(old(Abstract()), Abstract(), list, i);
        ok := AddCollisionShape(list[i], fault == TrackingShape(i));
        if !ok {
          return;
        }
        i := i + 1;
      }
      return true;
    }

    method AddCollisionShape(shape: Shape, untracked: bool) returns (ok: bool)
      requires IdsIssued(geometries, nextGeometry) && nextGeometry !in tracked
      modifies this`geometries, this`tracked, this`nextGeometry
      ensures ok <==> !untracked
      ensures IdsIssued(geometries, nextGeometry) && nextGeometry == old(nextGeometry) + 1
      ensures geometries == old(geometries)[old(nextGeometry) := shape]
      ensures tracked == if ok then old(tracked)[old(nextGeometry) := shape.name] else old(tracked)
    {
      var before := geometries.Keys;
      AddToChecker(shape);
      if untracked {
        return false;
      }
      var id :| id in geometries && id !in before;
      assert id !in tracked;
      tracked := tracked[id := shape.name];
      return true;
    }

    method AddToChecker(shape: Shape)
      requires IdsIssued(geometries, nextGeometry)
      modifies this`geometries, this`nextGeometry
      ensures IdsIssued(geometries, nextGeometry) && nextGeometry == old(nextGeometry) + 1
      ensures old(nextGeometry) !in old(geometries) && geometries == old(geometries)[old(nextGeometry) := shape]
    {
      geometries := geometries[nextGeometry := shape];
      nextGeometry := nextGeometry + 1;
    }

    /** Removes, name by name, whatever geometry of the checker has a tracked name. */
    method RemoveAllAddedCollisionShapes()
      modifies this`geometries, this`tracked
      ensures geometries == Without(old(geometries), old(tracked).Values) && tracked == map[]
    {
      ghost var base := geometries;
      var todo := tracked.Keys;
      while todo != {}
        invariant todo <= tracked.Keys && tracked == old(tracked)
        invariant geometries == Without(base, set id | id in tracked && id !in todo :: tracked[id])
        decreases |todo|
      {
        var id :| id in todo;
        geometries := Without(geometries, {tracked[id]});
        todo := todo - {id};
      }
      assert tracked.Values == set id | id in tracked && id !in todo :: tracked[id];
      tracked := map[];
    }

    // ---------- Acquiring, setting, releasing ----------

    /** Acquires the three scopes in order; a scope that cannot be had releases those before it. */
    method AcquireScopes(ghost p0: Padding, ghost f0: Filter) returns (b: Option<Bundle>)
      modifies this`padding, this`filter, this`shapes, this`nextToken
      ensures nextToken >= old(nextToken)
      ensures old(AtRest(Abstract(), p0, f0)) ==> b.Some? && Reserved(Abstract(), b.value, p0, f0)
      ensures old(PaddingTaken(Abstract())) ==>
                b.None? && nextToken >= old(nextToken) && Abstract() == old(Abstract()).(nextToken := nextToken)
    {
      var a := AcquireOp(padding, UNUSED_SCOPE, nextToken);
      nextToken := a.nextToken;
      if a.error.Some? {
        return None;
      }
      padding := a.target;
      var f := AcquireOp(filter, UNUSED_SCOPE, nextToken);
      nextToken := f.nextToken;
      if f.error.Some? {
        padding := ReleaseOp(padding, a.scope, nextToken).target;
        return None;
      }
      filter := f.target;
      var s := AcquireOp(shapes, UNUSED_SCOPE, nextToken);
      nextToken := s.nextToken;
      if s.error.Some? {
        filter := ReleaseOp(filter, f.scope, nextToken).target;
        padding := ReleaseOp(padding, a.scope, nextToken).target;
        return None;
      }
      shapes := s.target;
      b := Some(Bundle(a.scope, f.scope, s.scope, false));
    }

    /** Destroys the scopes in reverse order. What was overridden is restored, and its callback installs
        the restored value; the callback for shapes removes what is tracked. */
    method ReleaseScopes(b: Bundle)
      modifies this
      ensures ReleasedAll(old(Abstract()), Abstract(), b)
    {
      var s := ReleaseOp(shapes, b.shapes, nextToken);
      shapes := s.target;
      if s.event == RestoreEvent && b.callbacks {
        RemoveAllAddedCollisionShapes();
      }
      var f := ReleaseOp(filter, b.filter, nextToken);
      filter := f.target;
      if f.event == RestoreEvent && b.callbacks && filter.curr.Some? {
        checkerFilter := filter.curr.value;
      }
      var p := ReleaseOp(padding, b.padding, nextToken);
      padding := p.target;
      if p.event == RestoreEvent && b.callbacks && padding.curr.Some? {
        checkerPadding := padding.curr.value;
      }
    }

    /** Sets the shape list; the callback adds each shape to the checker, and may throw part-way. */
    method SetShapes(b: Bundle, value: seq<Shape>, fault: Fault) returns (ok: bool)
      requires b.callbacks && Mutable(shapes, b.shapes.token) && b.shapes.hasTarget
      requires !shapes.overridden && shapes.curr.Some? && tracked == map[] && IdsIssued(geometries, nextGeometry)
      modifies this`shapes, this`geometries, this`tracked, this`nextGeometry
      ensures shapes == old(shapes).(overridden := true, curr := Some(value), last := old(shapes.curr))
      ensures ok <==> !FailsAddingShapes(fault, |value|)
      ensures Grown(old(Abstract()), Abstract(), value, AddedCount(fault, |value|), TrackedCount(fault, |value|))
      ensures ok ==> Tracks(geometries, tracked, nextGeometry, value)
    {
      shapes := SetOp(shapes, b.shapes, nextToken, value).target;
      ghost var afterSet := Abstract();
      ok := AddCollisionShapes(value, fault);
      if ok { GrownTracks(afterSet, Abstract(), value); }
    }

    /** Ends a bundle, by an exception or not: scopes already set are restored, the others released. */
    method Unwind(b: Bundle, ghost p0: Padding, ghost f0: Filter)
      requires PartlySet(Abstract(), b, p0, f0)
      modifies this
      ensures AtRest(Abstract(), p0, f0) && nextToken == old(nextToken) && nextGeometry == old(nextGeometry)
      ensures checkerFilter == if old(filter.overridden) then f0 else old(checkerFilter)
      ensures geometries == if old(shapes.overridden) then Without(old(geometries), old(tracked).Values)
              else old(geometries)
    {
      ReleaseScopes(b);
    }

    method SetPadding(b: Bundle, value: Padding, fault: Fault) returns (ok: bool)
      requires b.callbacks && Mutable(padding, b.padding.token) && b.padding.hasTarget
      requires !padding.overridden && padding.curr.Some?
      modifies this`padding, this`checkerPadding
      ensures padding == old(padding).(overridden := true, curr := Some(value), last := old(padding.curr))
      ensures ok <==> fault != InstallingPadding
      ensures checkerPadding == if ok then value else old(checkerPadding)
    {
      padding := SetOp(padding, b.padding, nextToken, value).target;
      if fault == InstallingPadding {
        return false;
      }
      checkerPadding := value;
      return true;
    }

    method SetFilter(b: Bundle, value: Filter, fault: Fault) returns (ok: bool)
      requires b.callbacks && Mutable(filter, b.filter.token) && b.filter.hasTarget
      requires !filter.overridden && filter.curr.Some?
      modifies this`filter, this`checkerFilter
      ensures filter == old(filter).(overridden := true, curr := Some(value), last := old(filter.curr))
      ensures ok <==> fault != InstallingFilter
      ensures checkerFilter == if ok then value else old(checkerFilter)
    {
      filter := SetOp(filter, b.filter, nextToken, value).target;
      if fault == InstallingFilter {
        return false;
      }
      checkerFilter := value;
      return true;
    }

    // ---------- The two ways to apply a bundle ----------

    /** Applies a request's options: shapes, then padding, then filter. While a bundle is held the
        request is blocked. Otherwise, on success the checker shows the edited values; after an
        exception everything is back at rest, except for a geometry that was added but not tracked.
        Whether the filter was reached decides if the checker keeps its filter. */
    method ApplyScopedCollisionOptions(options: Option<Options>, fault: Fault, ghost held: Option<Bundle>,
                                       ghost p0: Padding, ghost f0: Filter)
      returns (r: Result<Bundle, Failure>)
      requires Consistent(Abstract(), held, p0, f0)
      modifies this
      ensures nextToken >= old(nextToken)
      ensures r == Err(Blocked) <==> held.Some?
      ensures held.Some? ==> Abstract() == old(Abstract()).(nextToken := nextToken)
      ensures held.None? && options.None? ==>
                && r.Ok? && Reserved(Abstract(), r.value, p0, f0)
                && checkerFilter == old(checkerFilter) && geometries == old(geometries)
      ensures held.None? && options.Some? ==>
                (r.Ok? <==> fault == NoFault
                            || ((fault.AddingShape? || fault.TrackingShape?) && fault.index >= |options.value.shapes|))
      ensures held.None? && options.Some? && r.Ok? ==>
                && Applied(Abstract(), r.value, p0, f0,
                           Snapshot(options.value.editPadding(p0), options.value.editFilter(f0), options.value.shapes))
                && geometries == old(geometries)
                                 + GeometriesOf(options.value.shapes, |options.value.shapes|, old(nextGeometry))
                && nextGeometry == old(nextGeometry) + |options.value.shapes|
      ensures held.None? && r.Err? ==>
                && AtRest(Abstract(), p0, f0)
                && checkerFilter == (if fault == InstallingFilter then f0 else old(checkerFilter))
                && options.Some?
                && geometries == (if fault == BuildingShapes then old(geometries)
                                  else LeftBehind(old(geometries), old(nextGeometry), options.value.shapes, fault))
    {
      if held.Some? { HeldIsTaken(Abstract(), held.value, p0, f0); }
      var scopes := AcquireScopes(p0, f0);
      if scopes == None {
        return Err(Blocked);
      }
      var b := scopes.value;
      if options.None? {
        return Ok(b);
      }
      r := ApplyOptions(b, options.value, fault, p0, f0);
    }

    method ApplyOptions(acquired: Bundle, options: Options, fault: Fault, ghost p0: Padding, ghost f0: Filter)
      returns (r: Result<Bundle, Failure>)
      requires Reserved(Abstract(), acquired, p0, f0)
      modifies this
      ensures nextToken == old(nextToken) && r != Err(Blocked)
      ensures r.Ok? <==> fault == NoFault
                         || ((fault.AddingShape? || fault.TrackingShape?) && fault.index >= |options.shapes|)
      ensures r.Ok? ==>
                && Applied(Abstract(), r.value, p0, f0,
                           Snapshot(options.editPadding(p0), options.editFilter(f0), options.shapes))
                && geometries == old(geometries) + GeometriesOf(options.shapes, |options.shapes|, old(nextGeometry))
                && nextGeometry == old(nextGeometry) + |options.shapes|
      ensures r.Err? ==>
                && AtRest(Abstract(), p0, f0)
                && checkerFilter == (if fault == InstallingFilter then f0 else old(checkerFilter))
                && geometries == (if fault == BuildingShapes then old(geometries)
                                  else LeftBehind(old(geometries), old(nextGeometry), options.shapes, fault))
    {
      var b := acquired.(callbacks := true);
      if fault == BuildingShapes {
        Unwind(b, p0, f0);
        return Err(Thrown);
      }
      var collisionShapes := shapes.curr.value + options.shapes;
      assert collisionShapes == options.shapes;
      TrackedNames(options.shapes, TrackedCount(fault, |options.shapes|), nextGeometry);
      var ok := SetShapes(b, collisionShapes, fault);
      if !ok {
        Unwind(b, p0, f0);
        return Err(Thrown);
      }
      ok := ApplyMatrices(b, options, fault, p0, f0);
      r := if ok then Ok(b) else Err(Thrown);
    }

    /** The edits of the two matrices, once the shapes are set. */
    method ApplyMatrices(b: Bundle, options: Options, fault: Fault, ghost p0: Padding, ghost f0: Filter)
        returns (ok: bool)
      requires PartlySet(Abstract(), b, p0, f0)
      requires shapes.overridden && !padding.overridden && !filter.overridden
      modifies this
      ensures nextToken == old(nextToken)
      ensures ok <==> fault == NoFault || fault == BuildingShapes || fault.AddingShape? || fault.TrackingShape?
      ensures ok ==>
                && padding == Overriding(p0, options.editPadding(p0), b.padding.token)
                && checkerPadding == options.editPadding(p0)
                && filter == Overriding(f0, options.editFilter(f0), b.filter.token)
                && checkerFilter == options.editFilter(f0)
                && shapes == old(shapes) && geometries == old(geometries)
                && tracked == old(tracked) && nextGeometry == old(nextGeometry)
      ensures !ok ==>
                && AtRest(Abstract(), p0, f0)
                && checkerFilter == (if fault == InstallingFilter then f0 else old(checkerFilter))
                && geometries == Without(old(geometries), old(tracked).Values)
    {
      if fault == EditingPadding {
        Unwind(b, p0, f0);
        return false;
      }
      var paddingMatrix := options.editPadding(padding.curr.value);
      ok := SetPadding(b, paddingMatrix, fault);
      if !ok || fault == EditingFilter {
        Unwind(b, p0, f0);
        return false;
      }
      var filterMatrix := options.editFilter(filter.curr.value);
      ok := SetFilter(b, filterMatrix, fault);
      if !ok {
        Unwind(b, p0, f0);
      }
    }

    /** The visualizer's variant: padding, then filter, then shapes, all from a snapshot. */
    method ApplySnapshotScoped(snapshot: Option<Snapshot>, fault: Fault, ghost held: Option<Bundle>,
                               ghost p0: Padding, ghost f0: Filter)
      returns (r: Result<Bundle, Failure>)
      requires Consistent(Abstract(), held, p0, f0)
      modifies this
      ensures nextToken >= old(nextToken)
      ensures r == Err(Blocked) <==> held.Some?
      ensures held.Some? ==> Abstract() == old(Abstract()).(nextToken := nextToken)
      ensures held.None? && snapshot.None? ==>
                && r.Ok? && Reserved(Abstract(), r.value, p0, f0)
                && checkerFilter == old(checkerFilter) && geometries == old(geometries)
      ensures held.None? && snapshot.Some? ==>
                (r.Err? <==> fault == InstallingPadding || fault == InstallingFilter
                             || FailsAddingShapes(fault, |snapshot.value.shapes|))
      ensures held.None? && snapshot.Some? && r.Ok? ==>
                && Applied(Abstract(), r.value, p0, f0, snapshot.value)
                && geometries == old(geometries)
                                 + GeometriesOf(snapshot.value.shapes, |snapshot.value.shapes|, old(nextGeometry))
                && nextGeometry == old(nextGeometry) + |snapshot.value.shapes|
      ensures held.None? && r.Err? ==>
                && AtRest(Abstract(), p0, f0)
                && checkerFilter == (if fault == InstallingPadding then old(checkerFilter) else f0)
                && snapshot.Some?
                && geometries == (if FailsAddingShapes(fault, |snapshot.value.shapes|)
                                  then LeftBehind(old(geometries), old(nextGeometry), snapshot.value.shapes, fault)
                                  else old(geometries))
    {
      if held.Some? { HeldIsTaken(Abstract(), held.value, p0, f0); }
      var scopes := AcquireScopes(p0, f0);
      if scopes == None {
        return Err(Blocked);
      }
      var b := scopes.value;
      if snapshot.None? {
        return Ok(b);
      }
      r := ApplySnapshot(b, snapshot.value, fault, p0, f0);
    }

    method ApplySnapshot(acquired: Bundle, snapshot: Snapshot, fault: Fault, ghost p0: Padding, ghost f0: Filter)
      returns (r: Result<Bundle, Failure>)
      requires Reserved(Abstract(), acquired, p0, f0)
      modifies this
      ensures nextToken == old(nextToken) && r != Err(Blocked)
      ensures r.Err? <==> fault == InstallingPadding || fault == InstallingFilter
                          || FailsAddingShapes(fault, |snapshot.shapes|)
      ensures r.Ok? ==>
                && Applied(Abstract(), r.value, p0, f0, snapshot)
                && geometries == old(geometries) + GeometriesOf(snapshot.shapes, |snapshot.shapes|, old(nextGeometry))
                && nextGeometry == old(nextGeometry) + |snapshot.shapes|
      ensures r.Err? ==>
                && AtRest(Abstract(), p0, f0)
                && checkerFilter == (if fault == InstallingPadding then old(checkerFilter) else f0)
                && geometries == (if FailsAddingShapes(fault, |snapshot.shapes|)
                                  then LeftBehind(old(geometries), old(nextGeometry), snapshot.shapes, fault)
                                  else old(geometries))
    {
      var b := acquired.(callbacks := true);
      var ok := ApplySnapshotMatrices(b, snapshot, fault, p0, f0);
      if !ok {
        return Err(Thrown);
      }
      TrackedNames(snapshot.shapes, TrackedCount(fault, |snapshot.shapes|), nextGeometry);
      ok := SetShapes(b, snapshot.shapes, fault);
      if !ok {
        Unwind(b, p0, f0);
        return Err(Thrown);
      }
      return Ok(b);
    }

    /** The two matrices of a snapshot, before the shapes are set. */
    method ApplySnapshotMatrices(b: Bundle, snapshot: Snapshot, fault: Fault, ghost p0: Padding, ghost f0: Filter)
        returns (ok: bool)
      requires PartlySet(Abstract(), b, p0, f0) && b.callbacks
      requires !shapes.overridden && !padding.overridden && !filter.overridden
      modifies this
      ensures nextToken == old(nextToken) && geometries == old(geometries) && nextGeometry == old(nextGeometry)
      ensures ok <==> fault != InstallingPadding && fault != InstallingFilter
      ensures ok ==>
                && padding == Overriding(p0, snapshot.padding, b.padding.token) && checkerPadding == snapshot.padding
                && filter == Overriding(f0, snapshot.filter, b.filter.token) && checkerFilter == snapshot.filter
                && shapes == old(shapes) && tracked == old(tracked)
      ensures !ok ==>
                && AtRest(Abstract(), p0, f0)
                && checkerFilter == (if fault == InstallingPadding then old(checkerFilter) else f0)
    {
      ok := SetPadding(b, snapshot.padding, fault);
      if !ok {
        Unwind(b, p0, f0);
        return;
      }
      ok := SetFilter(b, snapshot.filter, fault);
      if !ok {
        Unwind(b, p0, f0);
      }
    }

    /** Releasing any held bundle puts overrides and checker back to base; the geometries that stay are
        those that have no name of the released shapes. The checker's filter is untouched when no
        options were applied and otherwise becomes the override's base. */
    method ReleaseBundle(b: Bundle, ghost p0: Padding, ghost f0: Filter)
      requires Consistent(Abstract(), Some(b), p0, f0)
      modifies this
      ensures AtRest(Abstract(), p0, f0) && nextToken == old(nextToken) && nextGeometry == old(nextGeometry)
      ensures checkerFilter == if b.callbacks then f0 else old(checkerFilter)
      ensures geometries == if b.callbacks then Without(old(geometries), old(tracked).Values) else old(geometries)
      ensures old(AllTracked(Abstract())) ==> geometries == map[]
    {
      HeldIsPartlySet(Abstract(), b, p0, f0);
      Unwind(b, p0, f0);
    }
  }

  /** The tracked names of a list are its shapes' names. */
  lemma TrackedNames(list: seq<Shape>, n: nat, first: nat)
    requires n <= |list|
    ensures TrackedOf(list, n, first).Values == NamesOf(list, n)
  {
    var t := TrackedOf(list, n, first);
    ListedIds(list, n, first);
    forall name ensures name in t.Values <==> name in NamesOf(list, n) {
      if name in NamesOf(list, n) {
        var k :| 0 <= k < n && list[k].name == name;
        assert t[first + k] == name;
      }
      if name in t.Values {
        var id :| id in t && t[id] == name;
        assert list[id - first].name == name;
      }
    }
  }

  /** A tracked geometry has a tracked name. */
  lemma TrackedAreNamed(s: State, list: seq<Shape>)
    requires Tracks(s.geometries, s.tracked, s.nextGeometry, list)
    ensures forall id :: id in s.tracked ==> id in s.geometries && s.geometries[id].name in s.tracked.Values
  {
    ListedIds(list, |list|, s.nextGeometry - |list|);
    forall id | id in s.tracked ensures id in s.geometries && s.geometries[id].name in s.tracked.Values {
      assert s.tracked[id] == s.geometries[id].name;
    }
  }

  lemma HeldIsPartlySet(s: State, b: Bundle, p0: Padding, f0: Filter)
    requires Consistent(s, Some(b), p0, f0)
    ensures PartlySet(s, b, p0, f0)
    ensures b.callbacks <==> s.filter.overridden
    ensures b.callbacks <==> s.shapes.overridden
    ensures AllTracked(s) ==> (if b.callbacks then Without(s.geometries, s.tracked.Values) else s.geometries) == map[]
  {
    if Reserved(s, b, p0, f0) {
      ReservedIsPartlySet(s, b, p0, f0);
    } else {
      var v :| Applied(s, b, p0, f0, v);
      AppliedIsPartlySet(s, b, p0, f0, v);
    }
  }

  lemma ReservedIsPartlySet(s: State, b: Bundle, p0: Padding, f0: Filter)
    requires Reserved(s, b, p0, f0)
    ensures PartlySet(s, b, p0, f0) && !s.filter.overridden && !s.shapes.overridden
    ensures AllTracked(s) ==> s.geometries == map[]
  {
  }

  lemma AppliedIsPartlySet(s: State, b: Bundle, p0: Padding, f0: Filter, v: Snapshot)
    requires Applied(s, b, p0, f0, v)
    ensures PartlySet(s, b, p0, f0) && s.filter.overridden && s.shapes.overridden
    ensures AllTracked(s) ==> Without(s.geometries, s.tracked.Values) == map[]
  {
    TrackedAreNamed(s, v.shapes);
  }

  /** The relation between the states around ReleaseScopes. */
  ghost predicate ReleasedAll(s: State, t: State, b: Bundle) {
    var sh := ReleaseOp(s.shapes, b.shapes, s.nextToken);
    var f := ReleaseOp(s.filter, b.filter, s.nextToken);
    var p := ReleaseOp(s.padding, b.padding, s.nextToken);
    && t.shapes == sh.target && t.filter == f.target && t.padding == p.target
    && t.nextToken == s.nextToken && t.nextGeometry == s.nextGeometry
    && (if sh.event == RestoreEvent && b.callbacks
        then t.geometries == Without(s.geometries, s.tracked.Values) && t.tracked == map[]
        else t.geometries == s.geometries && t.tracked == s.tracked)
    && t.checkerFilter == (if f.event == RestoreEvent && b.callbacks && f.target.curr.Some?
                           then f.target.curr.value else s.checkerFilter)
    && t.checkerPadding == (if p.event == RestoreEvent && b.callbacks && p.target.curr.Some?
                            then p.target.curr.value else s.checkerPadding)
  }

  // ---------- Whole runs ----------

  /** The calls that any number of users make, in any order. */
  datatype Step =
    | Request(options: Option<Options>, fault: Fault)
    | Display(snapshot: Option<Snapshot>, fault: Fault)
    | Finish

  /** A moment between two calls: the state, and the bundle that is held. */
  datatype Moment = Moment(state: State, held: Option<Bundle>)

  /** What any call does: a user who finds the bundle held changes nothing but the token counter, and
      otherwise gets it or leaves everything at rest; a release leaves everything at rest. */
  ghost predicate Moves(m: Moment, step: Step, n: Moment) {
    if m.held.Some? then
      if step.Finish? then n.held == None
      else n.held == m.held && n.state == m.state.(nextToken := n.state.nextToken)
    else if step.Finish? then n == m
    else
      && (n.held.None? ==> step.fault != NoFault)
      && (step.Request? && n.held.Some? && step.options.Some? ==>
            && n.held.value.callbacks && n.state.shapes.curr == Some(step.options.value.shapes)
            && m.state.padding.curr.Some? && m.state.filter.curr.Some?
            && n.state.padding.curr == Some(step.options.value.editPadding(m.state.padding.curr.value))
            && n.state.filter.curr == Some(step.options.value.editFilter(m.state.filter.curr.value)))
      && ((step.Request? && step.options.None?) || (step.Display? && step.snapshot.None?) ==>
            && n.held.Some? && !n.held.value.callbacks
            && n.state.padding.curr == m.state.padding.curr && n.state.filter.curr == m.state.filter.curr)
      && (step.Display? && n.held.Some? && step.snapshot.Some? ==>
            && n.held.value.callbacks && n.state.shapes.curr == Some(step.snapshot.value.shapes)
            && n.state.padding.curr == Some(step.snapshot.value.padding)
            && n.state.filter.curr == Some(step.snapshot.value.filter))
  }

  /** No call throws after it added a geometry and before it tracked it. */
  ghost predicate TracksAll(steps: seq<Step>) {
    forall i :: 0 <= i < |steps| && !steps[i].Finish? ==> !steps[i].fault.TrackingShape?
  }

  /** Over any interleaving of requests, displays and releases, any of which may throw anywhere, the
      checker shows the overrides at every moment. Unless a call throws between adding a geometry and
      tracking it, the checker's geometries are exactly the tracked ones, so none is left at rest. */
  method Serve(c: RobotConstraints, steps: seq<Step>, ghost p0: Padding, ghost f0: Filter)
    returns (held: Option<Bundle>, ghost moments: seq<Moment>)
    requires AtRest(c.Abstract(), p0, f0)
    modifies c
    ensures |moments| == |steps| + 1
    ensures moments[0] == Moment(old(c.Abstract()), None) && moments[|steps|] == Moment(c.Abstract(), held)
    ensures forall i :: 0 <= i < |moments| ==>
              && Consistent(moments[i].state, moments[i].held, p0, f0)
              && ShowsOverrides(moments[i].state, moments[i].held)
    ensures forall i :: 0 <= i < |steps| ==> Moves(moments[i], steps[i], moments[i + 1])
    ensures old(AllTracked(c.Abstract())) && TracksAll(steps) ==>
              forall i :: 0 <= i < |moments| ==>
                AllTracked(moments[i].state) && (moments[i].held.None? ==> moments[i].state.geometries == map[])
  {
    held := None;
    moments := [Moment(c.Abstract(), None)];
    CheckerShowsOverrides(c.Abstract(), None, p0, f0);
    for i := 0 to |steps|
      invariant |moments| == i + 1 && moments[i] == Moment(c.Abstract(), held)
      invariant moments[0] == Moment(old(c.Abstract()), None)
      invariant Consistent(c.Abstract(), held, p0, f0)
      invariant forall k :: 0 <= k < |moments| ==>
                  && Consistent(moments[k].state, moments[k].held, p0, f0)
                  && ShowsOverrides(moments[k].state, moments[k].held)
      invariant forall k :: 0 <= k < i ==> Moves(moments[k], steps[k], moments[k + 1])
      invariant old(AllTracked(c.Abstract())) && TracksAll(steps) ==>
                  forall k :: 0 <= k < |moments| ==> AllTracked(moments[k].state)
    {
      held := Take(c, steps[i], held, p0, f0);
      CheckerShowsOverrides(c.Abstract(), held, p0, f0);
      moments := moments + [Moment(c.Abstract(), held)];
    }
  }

  method Take(c: RobotConstraints, step: Step, before: Option<Bundle>, ghost p0: Padding, ghost f0: Filter)
    returns (held: Option<Bundle>)
    requires Consistent(c.Abstract(), before, p0, f0)
    modifies c
    ensures Consistent(c.Abstract(), held, p0, f0)
    ensures Moves(Moment(old(c.Abstract()), before), step, Moment(c.Abstract(), held))
    ensures old(AllTracked(c.Abstract())) && (step.Finish? || !step.fault.TrackingShape?) ==> AllTracked(c.Abstract())
  {
    ghost var s := c.Abstract();
    held := before;
    match step {
      case Finish =>
        if held.Some? {
          c.ReleaseBundle(held.value, p0, f0);
          held := None;
        }
      case Request(options, fault) =>
        var r := c.ApplyScopedCollisionOptions(options, fault, before, p0, f0);
        if before.None? && r.Ok? {
          held := Some(r.value);
          if options.Some? { AppliedAllTracked(s, c.Abstract(), options.value.shapes); }
        } else if before.None? {
          LeftAllTracked(s, options.value.shapes, fault);
        } else {
          KeepsConsistent(s, before, p0, f0, c.nextToken);
        }
      case Display(snapshot, fault) =>
        var r := c.ApplySnapshotScoped(snapshot, fault, before, p0, f0);
        if before.None? && r.Ok? {
          held := Some(r.value);
          if snapshot.Some? { AppliedAllTracked(s, c.Abstract(), snapshot.value.shapes); }
        } else if before.None? {
          LeftAllTracked(s, snapshot.value.shapes, fault);
        } else {
          KeepsConsistent(s, before, p0, f0, c.nextToken);
        }
    }
  }

  lemma AppliedAllTracked(s: State, t: State, list: seq<Shape>)
    requires s.tracked == map[] && Tracks(t.geometries, t.tracked, t.nextGeometry, list)
             && t.nextGeometry == s.nextGeometry + |list|
    requires t.geometries == s.geometries + GeometriesOf(list, |list|, s.nextGeometry)
    ensures AllTracked(s) ==> AllTracked(t)
  {
    ListedIds(list, |list|, s.nextGeometry);
    if AllTracked(s) {
      assert s.geometries == map[];
    }
  }

  lemma LeftAllTracked(s: State, list: seq<Shape>, fault: Fault)
    requires s.tracked == map[]
    ensures AllTracked(s) && !fault.TrackingShape? ==> LeftBehind(s.geometries, s.nextGeometry, list, fault) == map[]
  {
    if AllTracked(s) {
      assert s.geometries == map[];
      LeftBehindIff(s.nextGeometry, list, fault);
    }
  }

  // ---------- The visualizer ----------

  /** An event of the visualizer's loop: a click on an item, whose display may end with a reset, or
      a click on the identity button, which resets only when there is a default configuration. */
  datatype Event = Click(snapshot: Option<Snapshot>, needsReset: bool) | IdentityButton(hasDefault: bool)

  /** The snapshot that the checker must show after a sequence of events. */
  function Shown(events: seq<Event>): Option<Snapshot> {
    if events == [] then None
    else
      match events[|events| - 1]
      case Click(snapshot, needsReset) => if needsReset then None else snapshot
      case IdentityButton(hasDefault) => if hasDefault then None else Shown(events[..|events| - 1])
  }

  /** The bundle in hand and the checker fit what must be shown. */
  ghost predicate Displays(s: State, scope: Option<Bundle>, shown: Option<Snapshot>, p0: Padding, f0: Filter) {
    && Consistent(s, scope, p0, f0)
    && (shown.Some? ==> scope.Some? && Applied(s, scope.value, p0, f0, shown.value))
    && (shown.None? ==> s.checkerPadding == p0 && s.tracked == map[])
  }

  /** Over any sequence of visualizer events the reset-then-apply order never blocks, and between
      events the checker shows the last kept snapshot, or its base padding and no added geometry. */
  method RunVisualizer(c: RobotConstraints, events: seq<Event>, ghost p0: Padding, ghost f0: Filter)
    returns (displayScope: Option<Bundle>)
    requires AtRest(c.Abstract(), p0, f0)
    modifies c
    ensures Displays(c.Abstract(), displayScope, Shown(events), p0, f0)
    ensures old(AllTracked(c.Abstract())) ==> AllTracked(c.Abstract())
  {
    displayScope := None;
    for i := 0 to |events|
      invariant Displays(c.Abstract(), displayScope, Shown(events[..i]), p0, f0)
      invariant old(AllTracked(c.Abstract())) ==> AllTracked(c.Abstract())
    {
      assert events[..i + 1][..i] == events[..i];
      displayScope := Handle(c, events[i], displayScope, p0, f0);
    }
    assert events[..|events|] == events;
  }

  /** One pass of the loop with one event. */
  method Handle(c: RobotConstraints, event: Event, before: Option<Bundle>, ghost p0: Padding, ghost f0: Filter)
    returns (displayScope: Option<Bundle>)
    requires Consistent(c.Abstract(), before, p0, f0)
    modifies c
    ensures event == IdentityButton(false) ==> c.Abstract() == old(c.Abstract()) && displayScope == before
    ensures event == IdentityButton(true) ==> displayScope == None && Displays(c.Abstract(), None, None, p0, f0)
    ensures event.Click? ==>
              Displays(c.Abstract(), displayScope, if event.needsReset then None else event.snapshot, p0, f0)
    ensures old(AllTracked(c.Abstract())) ==> AllTracked(c.Abstract())
  {
    displayScope := before;
    if event == IdentityButton(false) {
      return;
    }
    displayScope := Take(c, Finish, displayScope, p0, f0);
    if event.Click? {
      ghost var s := c.Abstract();
      var r := c.ApplySnapshotScoped(event.snapshot, NoFault, None, p0, f0);
      displayScope := Some(r.value);
      if event.snapshot.Some? { AppliedAllTracked(s, c.Abstract(), event.snapshot.value.shapes); }
      if event.needsReset {
        displayScope := Take(c, Finish, displayScope, p0, f0);
      }
    }
  }

  /** Releasing an applied bundle restores the checker's filter exactly when the filter before was
      the override's base: one installed at construction is lost. */
  method FilterSurvivesIffNominal(installed: Filter, nominal: Filter, padding: Padding, options: Options)
    returns (filterBefore: Filter, filterAfter: Filter)
    ensures filterBefore == installed
    ensures filterAfter == filterBefore <==> installed == nominal
  {
    var c := new RobotConstraints(padding, installed, nominal);
    filterBefore := c.checkerFilter;
    var r := c.ApplyScopedCollisionOptions(Some(options), NoFault, None, padding, nominal);
    c.ReleaseBundle(r.value, padding, nominal);
    filterAfter := c.checkerFilter;
  }
}
