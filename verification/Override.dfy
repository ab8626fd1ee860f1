/** Values that a scope may override and that return to their original when the scope ends.

    An Overrideable has at most one owner, named by a token; a ScopedOverride acquires ownership,
    sets the value at most once, and restores it on release. Method calls are atomic steps.
    A call that would wait for ownership is a step taken once the target is free, or, when the
    second of waiting runs out, a step that throws. */
module Override {
  import opened Wrappers

  // ---------- The overrideable target ----------

  datatype Error = NotOwner | AlreadySet | AlreadyInitialized | Timeout | AlreadyManaging | NotManaging

  datatype Target<T> = Target(
    owner: nat,
    overridden: bool,
    curr: Option<T>,
    last: Option<T>,
    initialized: bool)

  predicate Mutable<T>(t: Target<T>, token: nat) {
    t.owner == 0 || t.owner == token
  }

  function Initialize<T>(t: Target<T>, v: T): Result<Target<T>, Error> {
    if t.initialized then Err(AlreadyInitialized) else Ok(t.(curr := Some(v), initialized := true))
  }

  function SetValue<T>(t: Target<T>, token: nat, v: T): Result<Target<T>, Error> {
    if !Mutable(t, token) then Err(NotOwner)
    else if t.overridden then Err(AlreadySet)
    else if t.curr.Some? then Ok(t.(last := t.curr, overridden := true, curr := Some(v)))
    else Ok(t.(curr := Some(v)))
  }

  function Restore<T>(t: Target<T>, token: nat): Result<Target<T>, Error> {
    if !Mutable(t, token) then Err(NotOwner)
    else if t.last.Some? then Ok(t.(curr := t.last, last := None, overridden := false))
    else Ok(t.(overridden := false))
  }

  function SetOwner<T>(t: Target<T>, token: nat): Result<Target<T>, Error> {
    if t.owner != 0 && t.owner != token then Err(Timeout) else Ok(t.(owner := token))
  }

  function ReleaseOwner<T>(t: Target<T>, token: nat): Result<Target<T>, Error> {
    if !Mutable(t, token) then Err(NotOwner) else Ok(t.(owner := 0))
  }

  // ---------- The scope ----------

  datatype Scope = Scope(hasTarget: bool, token: nat)

  const UNUSED_SCOPE := Scope(false, 0)

  /** Which callback the call runs. */
  datatype Event = NoEvent | SetEvent | RestoreEvent

  /** A scope and its target after a call, and what the call reports. */
  datatype Effect<T> = Effect(target: Target<T>, scope: Scope, nextToken: nat, event: Event, error: Option<Error>)

  /** The target pointer is stored before ownership is tried, and stays when that throws. */
  function AcquireOp<T>(t: Target<T>, sc: Scope, nextToken: nat): Effect<T> {
    if sc.hasTarget then Effect(t, sc, nextToken, NoEvent, Some(AlreadyManaging))
    else
      var token := if sc.token == 0 then nextToken else sc.token;
      var next := if sc.token == 0 then nextToken + 1 else nextToken;
      match SetOwner(t, token)
      case Ok(t') => Effect(t', Scope(true, token), next, NoEvent, None)
      case Err(e) => Effect(t, Scope(true, token), next, NoEvent, Some(e))
  }

  function SetOp<T>(t: Target<T>, sc: Scope, nextToken: nat, v: T): Effect<T> {
    if !sc.hasTarget then Effect(t, sc, nextToken, NoEvent, Some(NotManaging))
    else
      match SetValue(t, sc.token, v)
      case Ok(t') => Effect(t', sc, nextToken, SetEvent, None)
      case Err(e) => Effect(t, sc, nextToken, NoEvent, Some(e))
  }

  /** Restores only what was overridden, runs the callback, and only then gives up ownership. */
  function ReleaseOp<T>(t: Target<T>, sc: Scope, nextToken: nat): Effect<T> {
    if !sc.hasTarget then Effect(t, sc, nextToken, NoEvent, None)
    else
      var restored := if t.overridden then Restore(t, sc.token) else Ok(t);
      match restored
      case Err(e) => Effect(t, sc, nextToken, NoEvent, Some(e))
      case Ok(t1) =>
        var event := if t.overridden then RestoreEvent else NoEvent;
        match ReleaseOwner(t1, sc.token)
        case Ok(t2) => Effect(t2, sc.(hasTarget := false), nextToken, event, None)
        case Err(e) => Effect(t1, sc, nextToken, event, Some(e))
  }

  // ---------- Any number of scopes on one target ----------

  type Id = nat

  datatype System<T> = System(target: Target<T>, scopes: map<Id, Scope>, nextToken: nat)

  /** Construct and Destroy are the constructor with a target and the destructor; Default is the
      constructor without one. */
  datatype Step<T> =
    | Default(id: Id)
    | Construct(id: Id)
    | ConstructWith(id: Id, v: T)
    | Acquire(id: Id)
    | Set(id: Id, v: T)
    | Release(id: Id)
    | Destroy(id: Id)
    | MoveConstruct(from: Id, id: Id)
    | MoveAssign(from: Id, id: Id)
    | InitializeTarget(v: T)

  /** What the language requires of the caller: objects exist, no null dereference, and no exception
      out of a destructor. */
  predicate Enabled<T>(s: System<T>, step: Step<T>) {
    match step
    case Default(id) => id !in s.scopes
    case Construct(id) => id !in s.scopes
    case ConstructWith(id, _) => id !in s.scopes
    case Acquire(id) => id in s.scopes
    case Set(id, _) => id in s.scopes
    case Release(id) => id in s.scopes
    case Destroy(id) => id in s.scopes && ReleaseOp(s.target, s.scopes[id], s.nextToken).error.None?
    case MoveConstruct(from, id) => from in s.scopes && id !in s.scopes && s.scopes[from].hasTarget
    case MoveAssign(from, id) => from in s.scopes && id in s.scopes && (from == id || s.scopes[from].hasTarget)
    case InitializeTarget(_) => true
  }

  function Store<T>(s: System<T>, id: Id, e: Effect<T>): System<T> {
    System(e.target, s.scopes[id := e.scope], e.nextToken)
  }

  function Next<T>(s: System<T>, step: Step<T>): System<T>
    requires Enabled(s, step)
  {
    match step
    case Default(id) => s.(scopes := s.scopes[id := UNUSED_SCOPE])
    case Construct(id) =>
      var e := AcquireOp(s.target, UNUSED_SCOPE, s.nextToken);
      if e.error.None? then Store(s, id, e) else s.(target := e.target, nextToken := e.nextToken)
    case ConstructWith(id, v) =>
      var e := AcquireOp(s.target, UNUSED_SCOPE, s.nextToken);
      if e.error.Some? then s.(target := e.target, nextToken := e.nextToken)
      else
        var f := SetOp(e.target, e.scope, e.nextToken, v);
        if f.error.None? then Store(s, id, f) else s.(target := f.target, nextToken := f.nextToken)
    case Acquire(id) => Store(s, id, AcquireOp(s.target, s.scopes[id], s.nextToken))
    case Set(id, v) => Store(s, id, SetOp(s.target, s.scopes[id], s.nextToken, v))
    case Release(id) => Store(s, id, ReleaseOp(s.target, s.scopes[id], s.nextToken))
    case Destroy(id) =>
      var e := ReleaseOp(s.target, s.scopes[id], s.nextToken);
      System(e.target, s.scopes - {id}, e.nextToken)
    case MoveConstruct(from, id) =>
      var e := AcquireOp(s.target, Scope(false, s.scopes[from].token), s.nextToken);
      if e.error.Some? then s.(target := e.target, nextToken := e.nextToken)
      else Store(s, id, e).(scopes := s.scopes[id := e.scope][from := s.scopes[from].(hasTarget := false)])
    case MoveAssign(from, id) =>
      if from == id then s
      else
        var r := ReleaseOp(s.target, s.scopes[id], s.nextToken);
        if r.error.Some? then Store(s, id, r)
        else
          var e := AcquireOp(r.target, r.scope.(token := s.scopes[from].token), r.nextToken);
          if e.error.Some? then Store(s, id, e)
          else Store(s, id, e).(scopes := s.scopes[id := e.scope][from := s.scopes[from].(hasTarget := false)])
    case InitializeTarget(v) =>
      match Initialize(s.target, v)
      case Ok(t) => s.(target := t)
      case Err(_) => s
  }

  ghost predicate Initial<T>(s: System<T>, v: T) {
    s == System(Target(0, false, Some(v), None, true), map[], 1)
  }

  // ---------- Ownership is exclusive and overrides are temporary ----------

  ghost predicate Holds<T>(s: System<T>, id: Id) {
    id in s.scopes && s.scopes[id].hasTarget
  }

  /** The counter is ahead of every token in use, so a fresh token belongs to nobody. */
  ghost predicate TokensIssued<T>(s: System<T>) {
    s.target.owner < s.nextToken && forall id :: id in s.scopes ==> s.scopes[id].token < s.nextToken
  }

  /** The target is owned exactly when one scope manages it, by that scope's token. */
  ghost predicate Exclusive<T>(s: System<T>) {
    && TokensIssued(s)
    && (forall id :: Holds(s, id) ==> s.scopes[id].token == s.target.owner != 0)
    && (forall a, b :: Holds(s, a) && Holds(s, b) ==> a == b)
    && (s.target.owner != 0 ==> exists id :: Holds(s, id))
  }

  /** An unowned target shows its initial value and saves none; an overridden one is owned and
      saves the initial value. */
  ghost predicate Temporary<T>(s: System<T>, initial: T) {
    && s.target.initialized
    && (s.target.overridden ==> s.target.owner != 0 && s.target.last == Some(initial) && s.target.curr.Some?)
    && (!s.target.overridden ==> s.target.last.None? && s.target.curr == Some(initial))
  }

  ghost predicate Good<T>(s: System<T>, initial: T) {
    Exclusive(s) && Temporary(s, initial)
  }

  /** An explicit acquire is safe when the scope is already managing, so that it throws, or when
      nobody owns the target. Constructors are always safe. */
  predicate CleanStep<T>(s: System<T>, step: Step<T>)
    requires Enabled(s, step)
  {
    step.Acquire? ==> s.scopes[step.id].hasTarget || s.target.owner == 0
  }

  /** The single holder, if there is one. */
  lemma SoleHolder<T>(s: System<T>, id: Id)
    requires Exclusive(s) && Holds(s, id)
    ensures forall x :: Holds(s, x) <==> x == id
  {
  }

  lemma NobodyHolds<T>(s: System<T>)
    requires Exclusive(s) && s.target.owner == 0
    ensures forall x :: !Holds(s, x)
  {
  }

  lemma SameHolders<T>(s: System<T>, t: System<T>)
    requires Exclusive(s) && TokensIssued(t) && t.target.owner == s.target.owner
    requires forall x :: Holds(t, x) <==> Holds(s, x)
    requires forall x :: Holds(s, x) ==> Holds(t, x) && t.scopes[x].token == s.scopes[x].token
    ensures Exclusive(t)
  {
    if s.target.owner != 0 {
      var x :| Holds(s, x);
      assert Holds(t, x);
    }
  }

  lemma AcquireKeepsGood<T>(s: System<T>, t: System<T>, id: Id, initial: T)
    requires Good(s, initial) && Temporary(t, initial) && TokensIssued(t)
    requires s.target.owner == 0
    requires forall x :: x != id ==> (Holds(t, x) <==> Holds(s, x))
    requires Holds(t, id) && t.scopes[id].token == t.target.owner != 0
    ensures Good(t, initial)
  {
    NobodyHolds(s);
    assert forall x :: Holds(t, x) <==> x == id;
  }

  lemma ReleaseKeepsGood<T>(s: System<T>, t: System<T>, id: Id, initial: T)
    requires Good(s, initial) && id in s.scopes && TokensIssued(t)
    requires var e := ReleaseOp(s.target, s.scopes[id], s.nextToken);
             e.error.None? ==> t.target == e.target && t.nextToken == e.nextToken
    requires forall x :: Holds(t, x) ==> Holds(s, x) && x != id && t.scopes[x] == s.scopes[x]
    requires forall x :: Holds(s, x) && x != id ==> Holds(t, x)
    ensures Good(t, initial)
  {
    if Holds(s, id) {
      SoleHolder(s, id);
      assert forall x :: !Holds(t, x);
    } else {
      assert forall x :: Holds(t, x) <==> Holds(s, x);
      SameHolders(s, t);
    }
  }

  lemma MoveKeepsGood<T>(s: System<T>, t: System<T>, from: Id, id: Id, initial: T)
    requires Good(s, initial) && Holds(s, from) && id != from
    requires t.target == s.target && TokensIssued(t)
    requires from in t.scopes && id in t.scopes
    requires t.scopes[from] == Scope(false, s.scopes[from].token)
    requires t.scopes[id] == Scope(true, s.scopes[from].token)
    requires forall x :: x != from && x != id ==> (Holds(t, x) <==> Holds(s, x))
    ensures Good(t, initial)
  {
    SoleHolder(s, from);
    assert Holds(t, id);
    assert forall x :: Holds(t, x) <==> x == id;
  }

  lemma AcquiringKeepsGood<T>(s: System<T>, step: Step<T>, initial: T)
    requires Good(s, initial) && Enabled(s, step) && CleanStep(s, step)
    requires step.Construct? || step.ConstructWith? || step.Acquire?
    ensures Good(Next(s, step), initial)
  {
    var t := Next(s, step);
    if s.target.owner == 0 {
      NobodyHolds(s);
      AcquireKeepsGood(s, t, step.id, initial);
    } else {
      SameHolders(s, t);
    }
  }

  lemma MovingKeepsGood<T>(s: System<T>, step: Step<T>, initial: T)
    requires Good(s, initial) && Enabled(s, step) && (step.MoveConstruct? || step.MoveAssign?)
    ensures Good(Next(s, step), initial)
  {
    if step.MoveConstruct? || step.from != step.id {
      assert Holds(s, step.from);
      SoleHolder(s, step.from);
      assert !Holds(s, step.id);
      MoveKeepsGood(s, Next(s, step), step.from, step.id, initial);
    }
  }

  lemma CleanStepKeepsGood<T>(s: System<T>, step: Step<T>, initial: T)
    requires Good(s, initial) && Enabled(s, step) && CleanStep(s, step)
    ensures Good(Next(s, step), initial)
  {
    var t := Next(s, step);
    match step
    case Default(id) => SameHolders(s, t);
    case Construct(id) => AcquiringKeepsGood(s, step, initial);
    case ConstructWith(id, v) => AcquiringKeepsGood(s, step, initial);
    case Acquire(id) => AcquiringKeepsGood(s, step, initial);
    case Set(id, v) => SameHolders(s, t);
    case Release(id) => assert Holds(s, id) <==> s.scopes[id].hasTarget; ReleaseKeepsGood(s, t, id, initial);
    case Destroy(id) => ReleaseKeepsGood(s, t, id, initial);
    case MoveConstruct(from, id) => MovingKeepsGood(s, step, initial);
    case MoveAssign(from, id) => MovingKeepsGood(s, step, initial);
    case InitializeTarget(v) =>
  }

  /** Among the steps a caller can take, exactly the unsafe explicit acquires destroy the ownership
      invariant. */
  lemma GoodKeptIffClean<T>(s: System<T>, step: Step<T>, initial: T)
    requires Good(s, initial) && Enabled(s, step)
    ensures Good(Next(s, step), initial) <==> CleanStep(s, step)
  {
    if CleanStep(s, step) {
      CleanStepKeepsGood(s, step, initial);
    } else {
      var holder :| Holds(s, holder);
      assert Holds(Next(s, step), holder) && Holds(Next(s, step), step.id) && holder != step.id;
    }
  }

  // ---------- Whole runs ----------

  ghost predicate CleanRun<T>(s: System<T>, run: seq<Step<T>>)
    decreases |run|
  {
    run == [] || (Enabled(s, run[0]) && CleanStep(s, run[0]) && CleanRun(Next(s, run[0]), run[1..]))
  }

  ghost function After<T>(s: System<T>, run: seq<Step<T>>): System<T>
    requires CleanRun(s, run)
    decreases |run|
  {
    if run == [] then s else After(Next(s, run[0]), run[1..])
  }

  lemma {:induction false} GoodForever<T>(s: System<T>, run: seq<Step<T>>, initial: T)
    requires Good(s, initial) && CleanRun(s, run)
    ensures Good(After(s, run), initial)
    decreases |run|
  {
    if run != [] {
      CleanStepKeepsGood(s, run[0], initial);
      GoodForever(Next(s, run[0]), run[1..], initial);
    }
  }

  /** Over every interleaving of clean calls by any number of scopes: at most one scope holds the
      target, an overridden target is owned, and an unowned target shows the initial value. */
  lemma OverrideSafety<T>(s: System<T>, run: seq<Step<T>>, initial: T)
    requires Initial(s, initial) && CleanRun(s, run)
    ensures var t := After(s, run);
            && (forall a, b :: Holds(t, a) && Holds(t, b) ==> a == b)
            && (forall a :: Holds(t, a) ==> t.scopes[a].token == t.target.owner)
            && (t.target.overridden ==> t.target.owner != 0)
            && (t.target.owner == 0 ==> t.target.curr == Some(initial) && t.target.last.None?)
  {
    GoodForever(s, run, initial);
  }

  /** In a good state the holder's release and destructor cannot throw, and release leaves the
      target unowned with its initial value. */
  lemma ReleaseSucceeds<T>(s: System<T>, id: Id, initial: T)
    requires Good(s, initial) && id in s.scopes
    ensures ReleaseOp(s.target, s.scopes[id], s.nextToken).error.None?
    ensures Enabled(s, Destroy(id))
    ensures Holds(s, id) ==> Next(s, Release(id)).target == Target(0, false, Some(initial), None, true)
    ensures !Holds(s, id) ==> Next(s, Release(id)) == s
  {
    if !Holds(s, id) {
      assert s.scopes[id := s.scopes[id]] == s.scopes;
    }
  }

  /** A move hands the target over without touching its value and leaves the source idle. */
  lemma MoveHandsOver<T>(s: System<T>, from: Id, to: Id, initial: T)
    requires Good(s, initial) && Enabled(s, MoveConstruct(from, to))
    ensures Next(s, MoveConstruct(from, to)).target == s.target
    ensures Holds(Next(s, MoveConstruct(from, to)), to) && !Holds(Next(s, MoveConstruct(from, to)), from)
    ensures Next(s, MoveConstruct(from, to)).scopes[from].token == Next(s, MoveConstruct(from, to)).scopes[to].token
  {
    assert Holds(s, from);
  }

  // ---------- What the target shows ----------

  /** The step ends the scope that manages the target, or takes the target from it. */
  ghost predicate EndsHolder<T>(s: System<T>, step: Step<T>) {
    (step.Release? || step.Destroy?) && Holds(s, step.id)
  }

  /** The step sets a value as the scope that manages the target, or as one that is constructed while
      nobody does. */
  ghost predicate SetsFreely<T>(s: System<T>, step: Step<T>) {
    || (step.Set? && Holds(s, step.id))
    || (step.ConstructWith? && forall id :: !Holds(s, id))
  }

  /** What a step does to the value shown. An override stays until its scope is released or destroyed,
      however often anybody sets or initialises, and then gives way to the initial value; a value that
      is not overridden changes only when a scope that may sets it. */
  lemma ShownAfterStep<T>(s: System<T>, step: Step<T>, initial: T)
    requires Good(s, initial) && Enabled(s, step) && CleanStep(s, step)
    ensures var t := Next(s, step).target;
            if s.target.overridden then
              if EndsHolder(s, step) then t.curr == Some(initial) && !t.overridden
              else t.curr == s.target.curr && t.overridden
            else
              if SetsFreely(s, step) then t.curr == Some(step.v) && t.overridden
              else t.curr == s.target.curr && !t.overridden
  {
    if s.target.owner == 0 {
      NobodyHolds(s);
    } else {
      var holder :| Holds(s, holder);
      SoleHolder(s, holder);
      assert step.MoveConstruct? || (step.MoveAssign? && step.from != step.id) ==>
          Holds(s, step.from) && !Holds(s, step.id);
    }
  }

  /** Who manages the target after a step: nobody once its scope has ended, the scope it was moved to,
      a scope that acquires while nobody does, or the same as before. */
  lemma HolderAfterStep<T>(s: System<T>, step: Step<T>, initial: T)
    requires Good(s, initial) && Enabled(s, step) && CleanStep(s, step)
    ensures forall x ::
              Holds(Next(s, step), x) <==>
                if EndsHolder(s, step) then false
                else if step.MoveConstruct? || (step.MoveAssign? && step.from != step.id) then x == step.id
                else if (step.Construct? || step.ConstructWith? || step.Acquire?) && forall y :: !Holds(s, y)
                then x == step.id
                else Holds(s, x)
  {
    if s.target.owner == 0 {
      NobodyHolds(s);
    } else {
      var holder :| Holds(s, holder);
      SoleHolder(s, holder);
      assert step.MoveConstruct? || (step.MoveAssign? && step.from != step.id) ==>
          Holds(s, step.from) && !Holds(s, step.id);
    }
    var t := Next(s, step);
    assert forall x ::
        !step.InitializeTarget? && x != step.id && (step.MoveConstruct? || step.MoveAssign? ==> x != step.from) ==>
          (Holds(t, x) <==> Holds(s, x));
  }

  /** No step of the run ends the scope that manages the target at that moment. */
  ghost predicate HolderStays<T>(s: System<T>, run: seq<Step<T>>)
    requires CleanRun(s, run)
    decreases |run|
  {
    run == [] || (!EndsHolder(s, run[0]) && HolderStays(Next(s, run[0]), run[1..]))
  }

  /** So an override lasts through any run, whoever moves the scope or tries to set, as long as its
      scope is there; the next step that ends it brings the initial value back. */
  lemma {:induction false} OverrideLasts<T>(s: System<T>, run: seq<Step<T>>, initial: T)
    requires Good(s, initial) && s.target.overridden && CleanRun(s, run) && HolderStays(s, run)
    ensures After(s, run).target.overridden && After(s, run).target.curr == s.target.curr
    ensures forall step :: Enabled(After(s, run), step) && EndsHolder(After(s, run), step) ==>
              Next(After(s, run), step).target.curr == Some(initial)
    decreases |run|
  {
    if run == [] {
      forall step | Enabled(s, step) && EndsHolder(s, step) ensures Next(s, step).target.curr == Some(initial) {
        ShownAfterStep(s, step, initial);
      }
    } else {
      ShownAfterStep(s, run[0], initial);
      CleanStepKeepsGood(s, run[0], initial);
      OverrideLasts(Next(s, run[0]), run[1..], initial);
    }
  }

  /** A scope can set exactly when it has a target that it may change and that is not overridden; a set
      that is refused changes nothing. */
  lemma SetSucceedsIff<T>(s: System<T>, id: Id, v: T)
    requires id in s.scopes
    ensures var e := SetOp(s.target, s.scopes[id], s.nextToken, v);
            && (e.error == None <==>
                  && Holds(s, id) && !s.target.overridden
                  && (s.target.owner == 0 || s.target.owner == s.scopes[id].token))
            && (e.error.Some? ==> Next(s, Set(id, v)) == s && e.event == NoEvent)
            && (e.error == None ==> Next(s, Set(id, v)).target.curr == Some(v) && e.event == SetEvent)
  {
    if SetOp(s.target, s.scopes[id], s.nextToken, v).error.Some? {
      assert s.scopes[id := s.scopes[id]] == s.scopes;
    }
  }

  // ---------- What the unsafe acquires do ----------

  /** A moved-from scope keeps its token, so acquiring again makes it a second holder; its release
      then takes the override away from the scope that set it. */
  lemma MovedFromScopeReacquires(v: int, w: int)
    ensures var s0 := System(Target(0, false, Some(v), None, true), map[], 1);
            var s1 := Next(s0, Construct(0));
            var s2 := Next(s1, MoveConstruct(0, 1));
            var s3 := Next(s2, Acquire(0));
            var s4 := Next(s3, Set(1, w));
            && Holds(s3, 0) && Holds(s3, 1)
            && s4.target.curr == Some(w)
            && Enabled(s4, Release(0))
            && var s5 := Next(s4, Release(0));
               Holds(s5, 1) && s5.target.owner == 0 && s5.target.curr == Some(v)
  {
  }

  /** After an explicit acquire has timed out the scope still has its target: once the owner has
      left, it can override the value while nobody owns it. */
  lemma TimedOutScopeOverridesUnowned(v: int, w: int)
    ensures var s0 := System(Target(0, false, Some(v), None, true), map[], 1);
            var s1 := Next(s0, Construct(0));
            var s2 := Next(s1, Default(1));
            var s3 := Next(s2, Acquire(1));
            var s4 := Next(s3, Destroy(0));
            var s5 := Next(s4, Set(1, w));
            && AcquireOp(s2.target, s2.scopes[1], s2.nextToken).error == Some(Timeout)
            && s5.target.owner == 0 && s5.target.overridden && s5.target.curr == Some(w)
  {
  }

  /** Setting and releasing returns a free target to its old value exactly when it had one: a value
      set on an uninitialised target stays. */
  lemma SetIsTemporaryIffInitialized<T>(t: Target<T>, nextToken: nat, v: T)
    requires t.owner == 0 && !t.overridden && t.last.None? && nextToken > 0
    ensures var a := AcquireOp(t, UNUSED_SCOPE, nextToken);
            var b := SetOp(a.target, a.scope, a.nextToken, v);
            var c := ReleaseOp(b.target, b.scope, b.nextToken);
            && a.error.None? && b.error.None? && c.error.None?
            && (c.target == t <==> t.curr.Some?)
            && (c.event == RestoreEvent <==> t.curr.Some?)
  {
  }

  // ---------- The classes ----------

  class Overrideable<T> {
    var ownerToken: nat
    var overridden: bool
    var currValue: Option<T>
    var lastValue: Option<T>
    var initialized: bool

    ghost function Abstract(): Target<T>
      reads this
    {
      Target(ownerToken, overridden, currValue, lastValue, initialized)
    }

    constructor Of(value: T)
      ensures Abstract() == Target(0, false, Some(value), None, true)
    {
      ownerToken, overridden, currValue, lastValue, initialized := 0, false, Some(value), None, true;
    }

    constructor Empty()
      ensures Abstract() == Target(0, false, None, None, false)
    {
      ownerToken, overridden, currValue, lastValue, initialized := 0, false, None, None, false;
    }

    method Init(value: T) returns (error: Option<Error>)
      modifies this
      ensures match Initialize(old(Abstract()), value)
              case Ok(t) => Abstract() == t && error == None
              case Err(e) => Abstract() == old(Abstract()) && error == Some(e)
    {
      if initialized {
        return Some(AlreadyInitialized);
      }
      currValue := Some(value);
      initialized := true;
      return None;
    }

    method Assign(token: nat, value: T) returns (error: Option<Error>)
      modifies this
      ensures match SetValue(old(Abstract()), token, value)
              case Ok(t) => Abstract() == t && error == None
              case Err(e) => Abstract() == old(Abstract()) && error == Some(e)
    {
      if ownerToken != 0 && ownerToken != token {
        return Some(NotOwner);
      }
      if overridden {
        return Some(AlreadySet);
      }
      if currValue.Some? {
        lastValue := currValue;
        overridden := true;
      }
      currValue := Some(value);
      return None;
    }

    method Reinstate(token: nat) returns (error: Option<Error>)
      modifies this
      ensures match Restore(old(Abstract()), token)
              case Ok(t) => Abstract() == t && error == None
              case Err(e) => Abstract() == old(Abstract()) && error == Some(e)
    {
      if ownerToken != 0 && ownerToken != token {
        return Some(NotOwner);
      }
      if lastValue.Some? {
        currValue := lastValue;
        lastValue := None;
      }
      overridden := false;
      return None;
    }

    method TakeOwnership(token: nat) returns (error: Option<Error>)
      modifies this
      ensures match SetOwner(old(Abstract()), token)
              case Ok(t) => Abstract() == t && error == None
              case Err(e) => Abstract() == old(Abstract()) && error == Some(e)
    {
      if ownerToken != 0 {
        if ownerToken == token {
          return None;
        }
        return Some(Timeout);
      }
      ownerToken := token;
      return None;
    }

    method GiveUp(token: nat) returns (error: Option<Error>)
      modifies this
      ensures match ReleaseOwner(old(Abstract()), token)
              case Ok(t) => Abstract() == t && error == None
              case Err(e) => Abstract() == old(Abstract()) && error == Some(e)
    {
      if ownerToken != 0 && ownerToken != token {
        return Some(NotOwner);
      }
      if ownerToken == 0 {
        return None;
      }
      ownerToken := 0;
      return None;
    }
  }

  /** The process-wide counter behind generate_token. */
  class TokenCounter {
    var next: nat

    constructor ()
      ensures next == 1
    {
      next := 1;
    }
  }

  class ScopedOverride<T> {
    var target: Overrideable?<T>
    var token: nat

    ghost function Abstract(): Scope
      reads this
    {
      Scope(target != null, token)
    }

    constructor ()
      ensures Abstract() == UNUSED_SCOPE
    {
      target, token := null, 0;
    }

    method Acquire(newTarget: Overrideable<T>, counter: TokenCounter) returns (error: Option<Error>)
      modifies this, newTarget, counter
      ensures AcquireOp(old(newTarget.Abstract()), old(Abstract()), old(counter.next))
              == Effect(newTarget.Abstract(), Abstract(), counter.next, NoEvent, error)
      ensures target == if old(target) == null then newTarget else old(target)
    {
      if target != null {
        return Some(AlreadyManaging);
      }
      if token == 0 {
        token := counter.next;
        counter.next := counter.next + 1;
      }
      target := newTarget;
      error := target.TakeOwnership(token);
    }

    /** Runs the on_set callback exactly when event is SetEvent. */
    method Set(value: T, ghost nextToken: nat) returns (event: Event, error: Option<Error>)
      modifies target
      ensures old(target) == target && old(token) == token
      ensures target == null ==> event == NoEvent && error == Some(NotManaging)
      ensures target != null ==>
                SetOp(old(target.Abstract()), old(Abstract()), nextToken, value)
                == Effect(target.Abstract(), Abstract(), nextToken, event, error)
    {
      if target == null {
        return NoEvent, Some(NotManaging);
      }
      error := target.Assign(token, value);
      event := if error.None? then SetEvent else NoEvent;
    }

    /** Runs the on_restore callback exactly when event is RestoreEvent. */
    method Release(ghost nextToken: nat) returns (event: Event, error: Option<Error>)
      modifies this, target
      ensures target == null || target == old(target)
      ensures old(target) == null ==> Abstract() == old(Abstract()) && event == NoEvent && error == None
      ensures old(target) != null ==>
                ReleaseOp(old(target.Abstract()), old(Abstract()), nextToken)
                == Effect(old(target).Abstract(), Abstract(), nextToken, event, error)
    {
      event := NoEvent;
      if target == null {
        return NoEvent, None;
      }
      if target.overridden {
        error := target.Reinstate(token);
        if error.Some? {
          return;
        }
        event := RestoreEvent;
      }
      error := target.GiveUp(token);
      if error.Some? {
        return;
      }
      target := null;
    }

    /** The body of the move constructor, run on a scope that has just been default-constructed. */
    method MoveFrom(other: ScopedOverride<T>, counter: TokenCounter) returns (error: Option<Error>)
      requires other != this && other.target != null && target == null && token == 0
      modifies this, other, other.target, counter
      ensures var e := AcquireOp(old(other.target.Abstract()), Scope(false, old(other.token)), old(counter.next));
              && old(other.target).Abstract() == e.target && Abstract() == e.scope && counter.next == e.nextToken
              && error == e.error
              && other.Abstract() == if e.error.None? then Scope(false, old(other.token)) else old(other.Abstract())
      ensures target == old(other.target) && (other.target == null || other.target == old(other.target))
    {
      token := other.token;
      error := Acquire(other.target, counter);
      if error.Some? {
        return;
      }
      other.target := null;
    }

    /** Move assignment from a different scope: what this scope manages is released first. */
    method AssignFrom(other: ScopedOverride<T>, counter: TokenCounter) returns (error: Option<Error>)
      requires other != this && other.target != null && (target == null || target == other.target)
      modifies this, other, other.target, counter
      ensures target == null || target == old(other.target)
      ensures other.target == null || other.target == old(other.target)
      ensures var r := ReleaseOp(old(other.target.Abstract()), old(Abstract()), old(counter.next));
              if r.error.Some? then
                && old(other.target).Abstract() == r.target && Abstract() == r.scope && counter.next == r.nextToken
                && other.Abstract() == old(other.Abstract())
              else
                var e := AcquireOp(r.target, r.scope.(token := old(other.token)), r.nextToken);
                && old(other.target).Abstract() == e.target && Abstract() == e.scope && counter.next == e.nextToken
                && other.Abstract() == if e.error.None? then Scope(false, old(other.token)) else old(other.Abstract())
    {
      var event;
      event, error := Release(counter.next);
      if error.Some? {
        return;
      }
      token := other.token;
      error := Acquire(other.target, counter);
      if error.Some? {
        return;
      }
      other.target := null;
    }
  }
}
