/** Any number of scope objects on one overrideable object: every call takes the specified step, so
    the safety of runs holds of the objects. */
module OverrideObjects {
  import opened Override
  import opened Wrappers

  lemma MoveStep<T>(s: System<T>, from: Id, id: Id)
    requires Enabled(s, Step.MoveConstruct(from, id))
    ensures var left := Scope(false, s.scopes[from].token);
            var e := AcquireOp(s.target, left, s.nextToken);
            Next(s, Step.MoveConstruct(from, id))
            == System(e.target,
                      if e.error.None? then s.scopes[from := left][id := e.scope] else s.scopes,
                      e.nextToken)
  {
  }

  class Scopes<T> {
    const target: Overrideable<T>
    const counter: TokenCounter
    var scopes: map<Id, ScopedOverride<T>>

    ghost function Objects(): set<object>
      reads this
    {
      set id | id in scopes :: scopes[id]
    }

    /** Scopes are different objects, and manage the target or nothing. */
    ghost predicate Wired()
      reads this, Objects()
    {
      && (forall id, other :: id in scopes && other in scopes && id != other ==> scopes[id] != scopes[other])
      && (forall id :: id in scopes ==> scopes[id].target == null || scopes[id].target == target)
    }

    ghost function Tokens(): map<Id, Scope>
      reads this, Objects()
    {
      map id | id in scopes :: scopes[id].Abstract()
    }

    ghost function Abstract(): System<T>
      reads this, target, counter, Objects()
    {
      System(target.Abstract(), Tokens(), counter.next)
    }

    constructor (value: T)
      ensures Wired() && Abstract() == System(Target(0, false, Some(value), None, true), map[], 1)
      ensures fresh(target) && fresh(counter) && scopes == map[]
    {
      target := new Overrideable<T>.Of(value);
      counter := new TokenCounter();
      scopes := map[];
    }

    /** Keeps a freshly built scope under id. */
    method Register(id: Id, scope: ScopedOverride<T>)
      requires Wired() && id !in scopes && scope !in Objects() && (scope.target == null || scope.target == target)
      modifies this
      ensures Wired() && scopes == old(scopes)[id := scope] && Objects() == old(Objects()) + {scope}
      ensures Abstract() == old(Abstract()).(scopes := old(Tokens())[id := scope.Abstract()])
    {
      scopes := scopes[id := scope];
      assert scopes[id] == scope;
      forall other | other in old(scopes) ensures scopes[other] == old(scopes[other]) && scope != scopes[other] {
        assert old(scopes[other]) in old(Objects());
      }
      assert Tokens() == old(Tokens())[id := scope.Abstract()];
    }

    method Construct(id: Id) returns (error: Option<Error>)
      requires Wired() && Enabled(Abstract(), Step.Construct(id))
      modifies this, target, counter
      ensures Wired() && Abstract() == Next(old(Abstract()), Step.Construct(id))
      ensures fresh(Objects() - old(Objects()))
    {
      var scope := new ScopedOverride<T>();
      error := scope.Acquire(target, counter);
      assert Tokens() == old(Tokens());
      if error.None? {
        Register(id, scope);
      }
    }

    method Default(id: Id)
      requires Wired() && Enabled(Abstract(), Step.Default(id))
      modifies this
      ensures Wired() && Abstract() == Next(old(Abstract()), Step.Default(id))
      ensures fresh(Objects() - old(Objects()))
    {
      var scope := new ScopedOverride<T>();
      Register(id, scope);
    }

    method Acquire(id: Id) returns (error: Option<Error>)
      requires Wired() && Enabled(Abstract(), Step.Acquire(id))
      modifies target, counter, scopes[id]
      ensures Wired() && Abstract() == Next(old(Abstract()), Step.Acquire(id))
    {
      error := scopes[id].Acquire(target, counter);
    }

    method Set(id: Id, value: T) returns (error: Option<Error>)
      requires Wired() && Enabled(Abstract(), Step.Set(id, value))
      modifies target
      ensures Wired() && Abstract() == Next(old(Abstract()), Step.Set(id, value))
    {
      var event;
      event, error := scopes[id].Set(value, counter.next);
    }

    method Release(id: Id) returns (error: Option<Error>)
      requires Wired() && Enabled(Abstract(), Step.Release(id))
      modifies target, scopes[id]
      ensures Wired() && Abstract() == Next(old(Abstract()), Step.Release(id))
      ensures error == ReleaseOp(old(target.Abstract()), old(scopes[id].Abstract()), old(counter.next)).error
    {
      var event;
      event, error := scopes[id].Release(counter.next);
    }

    method Destroy(id: Id)
      requires Wired() && Enabled(Abstract(), Step.Destroy(id))
      modifies this, target, scopes[id]
      ensures Wired() && Abstract() == Next(old(Abstract()), Step.Destroy(id))
      ensures Objects() <= old(Objects())
    {
      var event, error := scopes[id].Release(counter.next);
      scopes := scopes - {id};
    }

    /** The move constructor's body, on a scope that is not listed yet. */
    method MoveInto(scope: ScopedOverride<T>, from: Id) returns (error: Option<Error>)
      requires Wired() && from in scopes && scopes[from].target != null
      requires scope !in Objects() && scope.target == null && scope.token == 0
      modifies scope, target, counter, scopes[from]
      ensures Wired() && scope.target == target
      ensures var e := AcquireOp(old(target.Abstract()), Scope(false, old(scopes[from].token)), old(counter.next));
              && target.Abstract() == e.target && scope.Abstract() == e.scope && counter.next == e.nextToken
              && error == e.error
              && Tokens() == if e.error.None? then old(Tokens())[from := Scope(false, old(scopes[from].token))]
                             else old(Tokens())
    {
      error := scope.MoveFrom(scopes[from], counter);
    }

    method MoveConstruct(from: Id, id: Id) returns (error: Option<Error>)
      requires Wired() && Enabled(Abstract(), Step.MoveConstruct(from, id))
      modifies this, target, counter, scopes[from]
      ensures Wired() && Abstract() == Next(old(Abstract()), Step.MoveConstruct(from, id))
      ensures fresh(Objects() - old(Objects()))
    {
      var scope := new ScopedOverride<T>();
      MoveStep(Abstract(), from, id);
      error := MoveInto(scope, from);
      if error.None? {
        Register(id, scope);
      }
    }

    method ConstructWith(id: Id, value: T) returns (error: Option<Error>)
      requires Wired() && Enabled(Abstract(), Step.ConstructWith(id, value))
      modifies this, target, counter
      ensures Wired() && Abstract() == Next(old(Abstract()), Step.ConstructWith(id, value))
      ensures fresh(Objects() - old(Objects()))
    {
      var scope := new ScopedOverride<T>();
      error := scope.Acquire(target, counter);
      assert Tokens() == old(Tokens());
      if error.Some? {
        return;
      }
      var event;
      event, error := scope.Set(value, counter.next);
      assert Tokens() == old(Tokens());
      if error.None? {
        Register(id, scope);
      }
    }

    method MoveAssign(from: Id, id: Id) returns (error: Option<Error>)
      requires Wired() && Enabled(Abstract(), Step.MoveAssign(from, id))
      modifies target, counter, scopes[from], scopes[id]
      ensures Wired() && Abstract() == Next(old(Abstract()), Step.MoveAssign(from, id))
    {
      if from == id {
        return None;
      }
      error := scopes[id].AssignFrom(scopes[from], counter);
    }

    method InitializeTarget(value: T) returns (error: Option<Error>)
      requires Wired()
      modifies target
      ensures Wired() && Abstract() == Next(old(Abstract()), Step.InitializeTarget(value))
    {
      error := target.Init(value);
    }

    /** One call of any kind. */
    method Perform(step: Step<T>)
      requires Wired() && Enabled(Abstract(), step)
      modifies this, target, counter, Objects()
      ensures Wired() && Abstract() == Next(old(Abstract()), step)
      ensures fresh(Objects() - old(Objects()))
    {
      var error;
      match step {
        case Default(id) => Default(id);
        case Construct(id) => error := Construct(id);
        case ConstructWith(id, v) => error := ConstructWith(id, v);
        case Acquire(id) => error := Acquire(id);
        case Set(id, v) => error := Set(id, v);
        case Release(id) => error := Release(id);
        case Destroy(id) => Destroy(id);
        case MoveConstruct(from, id) => error := MoveConstruct(from, id);
        case MoveAssign(from, id) => error := MoveAssign(from, id);
        case InitializeTarget(v) => error := InitializeTarget(v);
      }
    }

    /** Any run of clean calls on the objects: at most one scope object manages the target, by the
        owner's token; an overridden target is owned, and an unowned one has its initial value back. */
    method Run(run: seq<Step<T>>, ghost initial: T)
      requires Wired() && Initial(Abstract(), initial) && CleanRun(Abstract(), run)
      modifies this, target, counter, Objects()
      ensures Wired() && Abstract() == After(old(Abstract()), run)
      ensures forall a, b ::
                a in scopes && b in scopes && scopes[a].target != null && scopes[b].target != null ==> a == b
      ensures forall a :: a in scopes && scopes[a].target != null ==> scopes[a].token == target.ownerToken
      ensures target.overridden ==> target.ownerToken != 0
      ensures target.ownerToken == 0 ==> target.currValue == Some(initial) && target.lastValue == None
    {
      ghost var start := Abstract();
      var k := 0;
      while k < |run|
        invariant 0 <= k <= |run| && Wired() && fresh(Objects() - old(Objects()))
        invariant CleanRun(Abstract(), run[k..]) && After(start, run) == After(Abstract(), run[k..])
      {
        assert run[k..][0] == run[k] && run[k..][1..] == run[k + 1..];
        Perform(run[k]);
        k := k + 1;
      }
      OverrideSafety(start, run, initial);
      assert forall id :: Holds(Abstract(), id) <==> id in scopes && scopes[id].target != null;
      assert forall id :: id in scopes ==> Abstract().scopes[id].token == scopes[id].token;
    }
  }
}
