/** Resolving a sequence of anchors, each seeded by the configuration of the one before.

    Seeds are tried in order. A multi-arm conflict does not stop a seed: the whole chain is shifted
    afterwards by the step that deconflicts its first configuration. Anchor resolution and
    deconfliction are functions. */
module SequentialAnchors {
  import opened Vectors
  import opened Wrappers

  /** The answer for one anchor; a failure may be an unavoidable collision. */
  datatype Resolution =
    | Resolved(conf: Vector)
    | Conflicted(conf: Vector, fixedModels: set<nat>)
    | Failed(unavoidable: bool)

  datatype Error = UnavoidableCollision | DeconflictionFailed | AllSeedsFailed

  /** Resolution of the i-th anchor from a seed, and deconfliction of a chain. */
  datatype Problem = Problem(
    n: nat,
    anchors: nat,
    resolve: (nat, Vector) -> Resolution,
    deconflict: (seq<Vector>, set<nat>) -> Option<Vector>)

  ghost predicate Sensible(p: Problem) {
    && (forall i, q :: !p.resolve(i, q).Failed? ==> |p.resolve(i, q).conf| == p.n)
    && (forall c, f :: p.deconflict(c, f).Some? ==> |p.deconflict(c, f).value| == p.n)
  }

  // ---------- One seed ----------

  /** How far a seed gets: the configurations so far, the models to hold fixed, and how it ended. */
  datatype Attempt = Attempt(configs: seq<Vector>, fixedModels: set<nat>, conflicted: bool, ending: Ending)

  datatype Ending = Finished | Stopped | Collided

  predicate Complete(a: Attempt) {
    a.ending == Finished
  }

  function EndingOf(unavoidable: bool): Ending {
    if unavoidable then Collided else Stopped
  }

  /** The seed of the i-th anchor: the configuration before it, or the given seed. */
  function SeedOf(configs: seq<Vector>, seed: Vector): Vector {
    if configs == [] then seed else configs[|configs| - 1]
  }

  ghost function Extend(p: Problem, seed: Vector, a: Attempt): Attempt {
    if !Complete(a) then a
    else
      match p.resolve(|a.configs|, SeedOf(a.configs, seed))
      case Resolved(conf) => a.(configs := a.configs + [conf])
      case Conflicted(conf, models) =>
        a.(configs := a.configs + [conf], fixedModels := a.fixedModels + models, conflicted := true)
      case Failed(unavoidable) => a.(ending := EndingOf(unavoidable))
  }

  /** The attempt on the first k anchors. */
  ghost function Try(p: Problem, seed: Vector, k: nat): Attempt {
    if k == 0 then Attempt([], {}, false, Finished) else Extend(p, seed, Try(p, seed, k - 1))
  }

  ghost function TryAll(p: Problem, seed: Vector): Attempt {
    Try(p, seed, p.anchors)
  }

  /** What the i-th anchor answers on a chain: from the configuration before it, or from the seed. */
  ghost function Answer(p: Problem, seed: Vector, configs: seq<Vector>, i: nat): Resolution
    requires i <= |configs|
  {
    p.resolve(i, if i == 0 then seed else configs[i - 1])
  }

  ghost predicate Follows(p: Problem, seed: Vector, configs: seq<Vector>, i: nat)
    requires i < |configs|
  {
    !Answer(p, seed, configs, i).Failed? && configs[i] == Answer(p, seed, configs, i).conf
  }

  /** Each configuration of a chain answers its anchor from the configuration before it. */
  ghost predicate IsChain(p: Problem, seed: Vector, configs: seq<Vector>) {
    forall i :: 0 <= i < |configs| ==> Follows(p, seed, configs, i)
  }

  /** Some anchor of the chain is answered by a conflict. */
  ghost predicate MeetsConflict(p: Problem, seed: Vector, configs: seq<Vector>) {
    exists i :: 0 <= i < |configs| && Answer(p, seed, configs, i).Conflicted?
  }

  ghost predicate Fixes(p: Problem, seed: Vector, configs: seq<Vector>, i: nat, m: nat) {
    && i < |configs| && Answer(p, seed, configs, i).Conflicted?
    && m in Answer(p, seed, configs, i).fixedModels
  }

  /** The models to hold fixed are those of all conflicts of the chain. */
  ghost predicate AreFixed(p: Problem, seed: Vector, configs: seq<Vector>, models: set<nat>) {
    forall m :: m in models <==> exists i :: Fixes(p, seed, configs, i, m)
  }

  /** How far a seed gets with k anchors, said of the whole attempt at once. */
  ghost predicate IsAttempt(p: Problem, seed: Vector, k: nat, a: Attempt) {
    && |a.configs| <= k && IsChain(p, seed, a.configs)
    && (a.ending == Finished <==> |a.configs| == k)
    && (a.ending != Finished ==> Answer(p, seed, a.configs, |a.configs|) == Failed(a.ending == Collided))
    && AreFixed(p, seed, a.configs, a.fixedModels)
    && (a.conflicted <==> MeetsConflict(p, seed, a.configs))
  }

  lemma {:induction false} TryIsChain(p: Problem, seed: Vector, k: nat)
    ensures IsAttempt(p, seed, k, Try(p, seed, k))
  {
    if k > 0 {
      TryIsChain(p, seed, k - 1);
      ExtendChain(p, seed, k - 1, Try(p, seed, k - 1));
    }
  }

  lemma TryFits(p: Problem, seed: Vector, k: nat)
    requires Sensible(p)
    ensures IsAttempt(p, seed, k, Try(p, seed, k)) && Fit(Try(p, seed, k).configs, p.n)
  {
    TryIsChain(p, seed, k);
    var c := Try(p, seed, k).configs;
    forall i | 0 <= i < |c| ensures |c[i]| == p.n {
      assert Follows(p, seed, c, i);
    }
  }

  lemma ExtendChain(p: Problem, seed: Vector, k: nat, a: Attempt)
    requires IsAttempt(p, seed, k, a)
    ensures IsAttempt(p, seed, k + 1, Extend(p, seed, a))
  {
    if Complete(a) && !Answer(p, seed, a.configs, k).Failed? {
      LongerChain(p, seed, a.configs, a.fixedModels);
    }
  }

  lemma LongerChain(p: Problem, seed: Vector, c: seq<Vector>, models: set<nat>)
    requires IsChain(p, seed, c) && AreFixed(p, seed, c, models) && !Answer(p, seed, c, |c|).Failed?
    ensures var answer := Answer(p, seed, c, |c|);
            var b := c + [answer.conf];
            && IsChain(p, seed, b)
            && (MeetsConflict(p, seed, b) <==> MeetsConflict(p, seed, c) || answer.Conflicted?)
            && (answer.Conflicted? ==> AreFixed(p, seed, b, models + answer.fixedModels))
            && (!answer.Conflicted? ==> AreFixed(p, seed, b, models))
  {
    var answer := Answer(p, seed, c, |c|);
    var b := c + [answer.conf];
    forall i | 0 <= i <= |c| ensures Answer(p, seed, b, i) == Answer(p, seed, c, i) {
      assert i > 0 ==> b[i - 1] == c[i - 1];
    }
    forall i | 0 <= i < |b| ensures Follows(p, seed, b, i) {
      assert i < |c| ==> Follows(p, seed, c, i);
    }
    assert answer.Conflicted? ==> Answer(p, seed, b, |c|).Conflicted?;
    var all := if answer.Conflicted? then models + answer.fixedModels else models;
    forall m: nat ensures m in all <==> exists i :: Fixes(p, seed, b, i, m) {
      if i: nat :| Fixes(p, seed, c, i, m) { assert Fixes(p, seed, b, i, m); }
      if answer.Conflicted? && m in answer.fixedModels { assert Fixes(p, seed, b, |c|, m); }
      if i: nat :| Fixes(p, seed, b, i, m) { assert i < |c| ==> Fixes(p, seed, c, i, m); }
    }
  }

  /** Nothing else is an attempt: the answers determine it. */
  lemma AttemptIff(p: Problem, seed: Vector, k: nat, a: Attempt)
    ensures IsAttempt(p, seed, k, a) <==> a == Try(p, seed, k)
  {
    var b := Try(p, seed, k);
    TryIsChain(p, seed, k);
    if IsAttempt(p, seed, k, a) {
      forall i | 0 <= i < |a.configs| && i < |b.configs| ensures a.configs[i] == b.configs[i] {
        SameChain(p, seed, a.configs, b.configs, i);
      }
      SameAnswer(p, seed, a.configs, b.configs);
      SameAnswer(p, seed, b.configs, a.configs);
      assert a.configs == b.configs;
      assert a.fixedModels == b.fixedModels;
    }
  }

  /** Where one chain stops at a failure, the other cannot go on. */
  lemma SameAnswer(p: Problem, seed: Vector, c: seq<Vector>, d: seq<Vector>)
    requires IsChain(p, seed, d) && forall i :: 0 <= i < |c| && i < |d| ==> c[i] == d[i]
    ensures |c| < |d| ==> !Answer(p, seed, c, |c|).Failed?
    ensures |c| == |d| ==> Answer(p, seed, c, |c|) == Answer(p, seed, d, |d|)
  {
    if |c| < |d| { assert Follows(p, seed, d, |c|); }
  }

  lemma {:induction false} SameChain(p: Problem, seed: Vector, c: seq<Vector>, d: seq<Vector>, n: nat)
    requires IsChain(p, seed, c) && IsChain(p, seed, d) && n < |c| && n < |d|
    ensures c[n] == d[n]
  {
    if n > 0 { SameChain(p, seed, c, d, n - 1); }
    assert Follows(p, seed, c, n) && Follows(p, seed, d, n);
  }

  // ---------- All seeds ----------

  ghost function Shifted(configs: seq<Vector>, delta: Vector): (r: seq<Vector>)
    requires forall i :: 0 <= i < |configs| ==> |configs[i]| == |delta|
    ensures |r| == |configs|
  {
    seq(|configs|, i requires 0 <= i < |configs| => Add(configs[i], delta))
  }

  ghost predicate Fit(configs: seq<Vector>, n: nat) {
    forall i :: 0 <= i < |configs| ==> |configs[i]| == n
  }

  /** The longer of two lists; the first when they tie. */
  function Longer(best: seq<Vector>, configs: seq<Vector>): seq<Vector> {
    if |configs| > |best| then configs else best
  }

  /** A seed decides the search or leaves it with a best partial list. */
  datatype Verdict = Decided(result: Result<seq<Vector>, Error>) | Continue(best: seq<Vector>)

  ghost function AfterSeed(p: Problem, seed: Vector, partial: bool, best: seq<Vector>): Verdict
    requires Sensible(p)
  {
    var a := TryAll(p, seed);
    TryFits(p, seed, p.anchors);
    if a.ending == Collided && !partial then Decided(Err(UnavoidableCollision))
    else
      var best' := if !Complete(a) && partial then Longer(best, a.configs) else best;
      if !(Complete(a) || (|best'| > 0 && partial)) then Continue(best')
      else if !a.conflicted then Decided(Ok(a.configs))
      else
        match p.deconflict(a.configs, a.fixedModels)
        case Some(q) => Decided(Ok(Shifted(a.configs, Sub(q, a.configs[0]))))
        case None => if partial then Continue(Longer(best', a.configs)) else Decided(Err(DeconflictionFailed))
  }

  /** What happens from the k-th seed on, given the best partial list so far. */
  ghost function From(p: Problem, seeds: seq<Vector>, partial: bool, k: nat, best: seq<Vector>)
      : Result<seq<Vector>, Error>
    requires Sensible(p) && k <= |seeds|
    decreases |seeds| - k
  {
    if k == |seeds| then
      if partial && |best| > 0 then Ok(best) else Err(AllSeedsFailed)
    else
      match AfterSeed(p, seeds[k], partial, best)
      case Decided(r) => r
      case Continue(best') => From(p, seeds, partial, k + 1, best')
  }

  /** The inner loop over the anchors. */
  method TrySeed(p: Problem, seed: Vector) returns (a: Attempt)
    ensures a == TryAll(p, seed)
  {
    var configs: seq<Vector> := [];
    var conflictedFixedModels: set<nat> := {};
    var needsDeconfliction := false;
    for i := 0 to p.anchors
      invariant Try(p, seed, i) == Attempt(configs, conflictedFixedModels, needsDeconfliction, Finished)
      invariant |configs| == i
    {
      assert Complete(Try(p, seed, i));
      match p.resolve(i, if configs == [] then seed else configs[|configs| - 1]) {
        case Resolved(conf) =>
          configs := configs + [conf];
        case Conflicted(conf, models) =>
          conflictedFixedModels := conflictedFixedModels + models;
          needsDeconfliction := true;
          configs := configs + [conf];
        case Failed(unavoidable) =>
          ghost var failed := Try(p, seed, i + 1);
          FailureStays(p, seed, i + 1, p.anchors);
          return Attempt(configs, conflictedFixedModels, needsDeconfliction, EndingOf(unavoidable));
      }
    }
    a := Attempt(configs, conflictedFixedModels, needsDeconfliction, Finished);
  }

  lemma {:induction false} FailureStays(p: Problem, seed: Vector, i: nat, k: nat)
    requires i <= k && !Complete(Try(p, seed, i))
    ensures Try(p, seed, k) == Try(p, seed, i)
    decreases k
  {
    if i < k { FailureStays(p, seed, i, k - 1); }
  }

  method ShiftAll(configs: seq<Vector>, delta: Vector) returns (result: seq<Vector>)
    requires forall i :: 0 <= i < |configs| ==> |configs[i]| == |delta|
    ensures result == Shifted(configs, delta)
  {
    result := [];
    for i := 0 to |configs|
      invariant result == Shifted(configs, delta)[..i]
    {
      result := result + [Add(configs[i], delta)];
    }
  }

  /** The body of the loop over the seeds. */
  method UseSeed(p: Problem, seed: Vector, returnLongestIncomplete: bool, before: seq<Vector>) returns (v: Verdict)
    requires Sensible(p)
    ensures v == AfterSeed(p, seed, returnLongestIncomplete, before)
  {
    var best := before;
    var a := TrySeed(p, seed);
    TryFits(p, seed, p.anchors);
    if a.ending != Finished {
      if a.ending == Collided && !returnLongestIncomplete {
        return Decided(Err(UnavoidableCollision));
      }
      if returnLongestIncomplete && |a.configs| > |best| {
        best := a.configs;
      }
    }
    if a.ending == Finished || (|best| > 0 && returnLongestIncomplete) {
      if !a.conflicted {
        return Decided(Ok(a.configs));
      }
      var qOpt := p.deconflict(a.configs, a.fixedModels);
      if qOpt == None {
        if !returnLongestIncomplete {
          return Decided(Err(DeconflictionFailed));
        }
        if |a.configs| > |best| {
          best := a.configs;
        }
      } else {
        var result := ShiftAll(a.configs, Sub(qOpt.value, a.configs[0]));
        return Decided(Ok(result));
      }
    }
    v := Continue(best);
  }

  method SolveSequentialAnchors(p: Problem, qRef: Vector, cachedSeeds: seq<Vector>, onlyUseRefSeed: bool,
      havePoses: bool, returnLongestIncomplete: bool)
      returns (r: Result<seq<Vector>, Error>)
    requires Sensible(p)
    ensures r == if p.anchors == 0 then Ok([])
                 else From(p, if onlyUseRefSeed || !havePoses then [qRef] else cachedSeeds,
                           returnLongestIncomplete, 0, [])
  {
    if p.anchors == 0 {
      return Ok([]);
    }
    var seedVec := [qRef];
    if !onlyUseRefSeed && havePoses {
      seedVec := cachedSeeds;
    }
    var best: seq<Vector> := [];
    var k := 0;
    while k < |seedVec|
      invariant 0 <= k <= |seedVec|
      invariant From(p, seedVec, returnLongestIncomplete, 0, []) == From(p, seedVec, returnLongestIncomplete, k, best)
    {
      var verdict := UseSeed(p, seedVec[k], returnLongestIncomplete, best);
      if verdict.Decided? {
        return verdict.result;
      }
      best := verdict.best;
      k := k + 1;
    }
    if returnLongestIncomplete && |best| > 0 {
      return Ok(best);
    }
    r := Err(AllSeedsFailed);
  }

  // ---------- What an answer is ----------

  /** One step takes every configuration of a chain to that of the answer. */
  ghost predicate MovedAlike(chain: seq<Vector>, r: seq<Vector>) {
    && |r| == |chain|
    && forall i :: 0 <= i < |chain| ==> |r[i]| == |chain[i]| && MovedLikeFirst(chain, r, i)
  }

  ghost predicate MovedLikeFirst(chain: seq<Vector>, r: seq<Vector>, i: nat)
    requires i < |chain| == |r| && |r[i]| == |chain[i]|
  {
    forall j :: 0 <= j < |chain[i]| ==>
      j < |chain[0]| && j < |r[0]| && r[i][j] == chain[i][j] + (r[0][j] - chain[0][j])
  }

  ghost predicate Unresolvable(p: Problem, seed: Vector, a: Attempt) {
    MeetsConflict(p, seed, a.configs) && p.deconflict(a.configs, a.fixedModels) == None
  }

  /** What a seed's chain comes to: the chain itself or, if it meets a conflict, the chain moved so that
      its first configuration is where deconfliction wants it. */
  ghost predicate ComesTo(p: Problem, seed: Vector, a: Attempt, r: seq<Vector>) {
    if MeetsConflict(p, seed, a.configs) then
      r != [] && p.deconflict(a.configs, a.fixedModels) == Some(r[0]) && MovedAlike(a.configs, r)
    else r == a.configs
  }

  lemma ShiftedComesTo(p: Problem, seed: Vector, a: Attempt, q: Vector)
    requires Sensible(p) && IsAttempt(p, seed, p.anchors, a) && Fit(a.configs, p.n) && a.conflicted
    requires p.deconflict(a.configs, a.fixedModels) == Some(q)
    ensures ComesTo(p, seed, a, Shifted(a.configs, Sub(q, a.configs[0])))
  {
    var r := Shifted(a.configs, Sub(q, a.configs[0]));
    assert r[0] == q by {
      forall j | 0 <= j < p.n ensures r[0][j] == q[j] {}
    }
  }

  /** The attempts on all seeds. */
  ghost predicate AreAttempts(p: Problem, seeds: seq<Vector>, tries: seq<Attempt>) {
    |tries| == |seeds| && forall i :: 0 <= i < |seeds| ==> IsAttempt(p, seeds[i], p.anchors, tries[i])
  }

  lemma AttemptsOf(p: Problem, seeds: seq<Vector>) returns (tries: seq<Attempt>)
    ensures AreAttempts(p, seeds, tries) && forall i :: 0 <= i < |seeds| ==> tries[i] == TryAll(p, seeds[i])
  {
    tries := seq(|seeds|, i requires 0 <= i < |seeds| => TryAll(p, seeds[i]));
    forall i | 0 <= i < |seeds| ensures IsAttempt(p, seeds[i], p.anchors, tries[i]) {
      TryIsChain(p, seeds[i], p.anchors);
    }
  }

  // ---------- Strict mode ----------

  /** Seed k resolves every anchor. */
  ghost predicate ResolvesAll(p: Problem, seed: Vector) {
    Complete(TryAll(p, seed))
  }

  /** Before seed k no seed resolves every anchor, and none meets an unavoidable collision. */
  ghost predicate EarlierFail(p: Problem, seeds: seq<Vector>, k: nat) {
    k <= |seeds| && forall m :: 0 <= m < k ==> TryAll(p, seeds[m]).ending == Stopped
  }

  /** What strict mode makes of a complete seed. */
  ghost function Settle(p: Problem, seed: Vector): Result<seq<Vector>, Error>
    requires Sensible(p) && ResolvesAll(p, seed)
  {
    var a := TryAll(p, seed);
    TryFits(p, seed, p.anchors);
    if !a.conflicted then Ok(a.configs)
    else
      match p.deconflict(a.configs, a.fixedModels)
      case Some(q) => Ok(Shifted(a.configs, Sub(q, a.configs[0])))
      case None => Err(DeconflictionFailed)
  }

  /** The first seed that does not merely fail decides: an unavoidable collision ends the search even
      when a later seed would succeed, and a complete seed is settled, deconfliction included. */
  lemma {:induction false} StrictOutcome(p: Problem, seeds: seq<Vector>, k: nat, m: nat)
    requires Sensible(p) && m <= k && EarlierFail(p, seeds, k)
    requires k == |seeds| || TryAll(p, seeds[k]).ending != Stopped
    ensures From(p, seeds, false, m, []) ==
            if k == |seeds| then Err(AllSeedsFailed)
            else if TryAll(p, seeds[k]).ending == Collided then Err(UnavoidableCollision)
            else Settle(p, seeds[k])
    decreases k - m
  {
    if m < k { StrictOutcome(p, seeds, k, m + 1); }
  }

  lemma {:induction false} FirstDecider(p: Problem, seeds: seq<Vector>, m: nat) returns (k: nat)
    requires EarlierFail(p, seeds, m)
    ensures m <= k && EarlierFail(p, seeds, k)
    ensures k == |seeds| || TryAll(p, seeds[k]).ending != Stopped
    decreases |seeds| - m
  {
    if m == |seeds| || TryAll(p, seeds[m]).ending != Stopped {
      k := m;
    } else {
      k := FirstDecider(p, seeds, m + 1);
    }
  }

  /** Strict mode, said of the attempts alone. Seed k is the first that does not merely fail: it meets an
      unavoidable collision, cannot be deconflicted, or gives the answer. */
  ghost predicate IsStrictResult(p: Problem, seeds: seq<Vector>, tries: seq<Attempt>, k: nat,
      r: Result<seq<Vector>, Error>)
    requires |tries| == |seeds|
  {
    && k <= |seeds| && (forall i :: 0 <= i < k ==> tries[i].ending == Stopped)
    && if k == |seeds| then r == Err(AllSeedsFailed)
       else
         match tries[k].ending
         case Stopped => false
         case Collided => r == Err(UnavoidableCollision)
         case Finished =>
           if Unresolvable(p, seeds[k], tries[k]) then r == Err(DeconflictionFailed)
           else r.Ok? && ComesTo(p, seeds[k], tries[k], r.value)
  }

  lemma StrictResult(p: Problem, seeds: seq<Vector>) returns (tries: seq<Attempt>, k: nat)
    requires Sensible(p) && p.anchors > 0
    ensures AreAttempts(p, seeds, tries)
    ensures IsStrictResult(p, seeds, tries, k, From(p, seeds, false, 0, []))
  {
    tries := AttemptsOf(p, seeds);
    k := FirstDecider(p, seeds, 0);
    StrictOutcome(p, seeds, k, 0);
    if k < |seeds| && tries[k].ending == Finished && tries[k].conflicted {
      TryFits(p, seeds[k], p.anchors);
      var q := p.deconflict(tries[k].configs, tries[k].fixedModels);
      if q.Some? { ShiftedComesTo(p, seeds[k], tries[k], q.value); }
    }
  }

  /** A strict success has one configuration per anchor. It comes from the earliest seed that
      resolves every anchor. */
  lemma StrictSuccess(p: Problem, seeds: seq<Vector>, configs: seq<Vector>) returns (k: nat, a: Attempt)
    requires Sensible(p) && p.anchors > 0 && From(p, seeds, false, 0, []) == Ok(configs)
    ensures k < |seeds| && IsAttempt(p, seeds[k], p.anchors, a) && ComesTo(p, seeds[k], a, configs)
    ensures |a.configs| == p.anchors == |configs|
    ensures forall m, b :: 0 <= m < k && IsAttempt(p, seeds[m], p.anchors, b) ==> |b.configs| < p.anchors
  {
    var tries;
    tries, k := StrictResult(p, seeds);
    a := tries[k];
    forall m, b | 0 <= m < k && IsAttempt(p, seeds[m], p.anchors, b) ensures |b.configs| < p.anchors {
      AttemptIff(p, seeds[m], p.anchors, b);
      AttemptIff(p, seeds[m], p.anchors, tries[m]);
    }
  }

  /** Strict mode succeeds exactly when some seed resolves every anchor, no seed before it meets an
      unavoidable collision, and the earliest such seed needs no deconfliction or can be deconflicted. */
  lemma StrictSuccessIff(p: Problem, seeds: seq<Vector>)
    requires Sensible(p) && p.anchors > 0
    ensures From(p, seeds, false, 0, []).Ok? <==>
            exists k :: 0 <= k < |seeds| && EarlierFail(p, seeds, k) && ResolvesAll(p, seeds[k])
              && !Unresolvable(p, seeds[k], TryAll(p, seeds[k]))
  {
    var k := FirstDecider(p, seeds, 0);
    StrictOutcome(p, seeds, k, 0);
    if k < |seeds| { TryIsChain(p, seeds[k], p.anchors); }
    if m :| 0 <= m < |seeds| && EarlierFail(p, seeds, m) && ResolvesAll(p, seeds[m])
            && !Unresolvable(p, seeds[m], TryAll(p, seeds[m]))
    {
      assert m == k;
    }
  }

  // ---------- Partial mode ----------

  /** The configurations that a seed gets to. */
  ghost function ListOf(p: Problem, seed: Vector): seq<Vector> {
    TryAll(p, seed).configs
  }

  ghost predicate Stuck(p: Problem, seed: Vector) {
    ListOf(p, seed) == []
  }

  /** The seed meets a conflict that cannot be resolved. */
  ghost predicate Hopeless(p: Problem, seed: Vector) {
    TryAll(p, seed).conflicted && p.deconflict(ListOf(p, seed), TryAll(p, seed).fixedModels) == None
  }

  /** The first of the longest lists of the first k seeds. */
  ghost function Best(p: Problem, seeds: seq<Vector>, k: nat): seq<Vector>
    requires k <= |seeds|
  {
    if k == 0 then [] else Longer(Best(p, seeds, k - 1), ListOf(p, seeds[k - 1]))
  }

  ghost predicate PassedOver(p: Problem, seeds: seq<Vector>, k: nat) {
    k < |seeds| && (Hopeless(p, seeds[k]) || (Stuck(p, seeds[k]) && Best(p, seeds, k) == []))
  }

  /** Seed k is the first that is not passed over; if all are, k is their number. */
  ghost predicate Decides(p: Problem, seeds: seq<Vector>, k: nat) {
    && k <= |seeds| && (forall i :: 0 <= i < k ==> PassedOver(p, seeds, i))
    && (k < |seeds| ==> !PassedOver(p, seeds, k))
  }

  /** The list of the deciding seed, shifted when it had to be deconflicted. */
  ghost function Settled(p: Problem, seed: Vector): (r: seq<Vector>)
    requires Sensible(p) && !Hopeless(p, seed)
    ensures |r| == |ListOf(p, seed)|
  {
    var a := TryAll(p, seed);
    TryFits(p, seed, p.anchors);
    if !a.conflicted then a.configs
    else Shifted(a.configs, Sub(p.deconflict(a.configs, a.fixedModels).value, a.configs[0]))
  }

  /** A seed is passed over exactly when it meets a hopeless conflict, or resolves nothing while no
      earlier seed resolved anything; then its list is remembered if it is the longest yet. */
  lemma PassedOverIff(p: Problem, seed: Vector, best: seq<Vector>)
    requires Sensible(p) && p.anchors > 0
    ensures AfterSeed(p, seed, true, best) ==
            if Hopeless(p, seed) || (Stuck(p, seed) && best == []) then Continue(Longer(best, ListOf(p, seed)))
            else Decided(Ok(Settled(p, seed)))
  {
    TryIsChain(p, seed, p.anchors);
  }

  /** Partial mode in general: the first seed that is not passed over decides; if all are, the longest
      list is returned, unless it is empty. */
  lemma {:induction false} PartialOutcome(p: Problem, seeds: seq<Vector>, k: nat, m: nat)
    requires Sensible(p) && p.anchors > 0 && Decides(p, seeds, k) && m <= k
    ensures k < |seeds| ==> !Hopeless(p, seeds[k])
    ensures From(p, seeds, true, m, Best(p, seeds, m)) ==
            if k < |seeds| then Ok(Settled(p, seeds[k]))
            else if Best(p, seeds, k) == [] then Err(AllSeedsFailed) else Ok(Best(p, seeds, k))
    decreases k - m
  {
    if m < |seeds| { PassedOverIff(p, seeds[m], Best(p, seeds, m)); }
    if m < k {
      assert PassedOver(p, seeds, m);
      PartialOutcome(p, seeds, k, m + 1);
    }
  }

  lemma {:induction false} SomeDecides(p: Problem, seeds: seq<Vector>, m: nat) returns (k: nat)
    requires m <= |seeds| && forall i :: 0 <= i < m ==> PassedOver(p, seeds, i)
    ensures Decides(p, seeds, k)
    decreases |seeds| - m
  {
    if m < |seeds| && PassedOver(p, seeds, m) {
      k := SomeDecides(p, seeds, m + 1);
    } else {
      k := m;
    }
  }

  /** Partial mode, said of the attempts alone. A seed is passed over when it cannot be deconflicted, or
      when neither it nor any seed before it resolves anything. The first other seed, k, gives the answer;
      if there is none, the first of the longest lists is the answer, unless it is empty. */
  ghost predicate IsPartialResult(p: Problem, seeds: seq<Vector>, tries: seq<Attempt>, k: nat,
      r: Result<seq<Vector>, Error>)
    requires |tries| == |seeds|
  {
    && k <= |seeds| && (forall i :: 0 <= i < k ==> IsPassedOver(p, seeds, tries, i))
    && if k < |seeds| then
         !IsPassedOver(p, seeds, tries, k) && r.Ok? && ComesTo(p, seeds[k], tries[k], r.value)
       else if forall i :: 0 <= i < |seeds| ==> tries[i].configs == [] then r == Err(AllSeedsFailed)
       else exists j :: 0 <= j < |seeds| && r == Ok(tries[j].configs) && IsFirstLongest(tries, |seeds|, j)
  }

  ghost predicate IsPassedOver(p: Problem, seeds: seq<Vector>, tries: seq<Attempt>, i: nat)
    requires i < |tries| == |seeds|
  {
    || Unresolvable(p, seeds[i], tries[i])
    || forall m :: 0 <= m <= i ==> tries[m].configs == []
  }

  ghost predicate IsFirstLongest(tries: seq<Attempt>, n: nat, j: nat)
    requires n <= |tries|
  {
    && j < n && (forall i :: 0 <= i < j ==> |tries[i].configs| < |tries[j].configs|)
    && (forall i :: j <= i < n ==> |tries[i].configs| <= |tries[j].configs|)
  }

  lemma PartialResult(p: Problem, seeds: seq<Vector>) returns (tries: seq<Attempt>, k: nat)
    requires Sensible(p) && p.anchors > 0
    ensures AreAttempts(p, seeds, tries)
    ensures IsPartialResult(p, seeds, tries, k, From(p, seeds, true, 0, []))
  {
    tries := AttemptsOf(p, seeds);
    k := SomeDecides(p, seeds, 0);
    PartialOutcome(p, seeds, k, 0);
    forall i | 0 <= i < |seeds| ensures PassedOver(p, seeds, i) <==> IsPassedOver(p, seeds, tries, i) {
      BestIsLongest(p, seeds, i);
    }
    BestIsLongest(p, seeds, k);
    if k == |seeds| && Best(p, seeds, k) != [] {
      var j := FirstOfLongest(p, seeds, tries, k);
    }
    if k < |seeds| && tries[k].conflicted {
      TryFits(p, seeds[k], p.anchors);
      ShiftedComesTo(p, seeds[k], tries[k], p.deconflict(tries[k].configs, tries[k].fixedModels).value);
    }
  }

  lemma {:induction false} FirstOfLongest(p: Problem, seeds: seq<Vector>, tries: seq<Attempt>, k: nat) returns (j: nat)
    requires k <= |seeds| == |tries| && Best(p, seeds, k) != []
    requires forall i :: 0 <= i < |seeds| ==> tries[i] == TryAll(p, seeds[i])
    ensures IsFirstLongest(tries, k, j) && Best(p, seeds, k) == tries[j].configs
    decreases k
  {
    BestIsLongest(p, seeds, k - 1);
    if |tries[k - 1].configs| > |Best(p, seeds, k - 1)| {
      j := k - 1;
    } else {
      j := FirstOfLongest(p, seeds, tries, k - 1);
    }
  }

  lemma {:induction false} BestIsLongest(p: Problem, seeds: seq<Vector>, k: nat)
    requires k <= |seeds|
    ensures forall i :: 0 <= i < k ==> |ListOf(p, seeds[i])| <= |Best(p, seeds, k)|
    ensures Best(p, seeds, k) == [] <==> forall i :: 0 <= i < k ==> Stuck(p, seeds[i])
  {
    if k > 0 { BestIsLongest(p, seeds, k - 1); }
  }

  /** Some seeds resolve nothing, those from j to k meet hopeless conflicts, and seed k resolves nothing. */
  ghost predicate StuckAfterHopeless(p: Problem, seeds: seq<Vector>, j: nat, k: nat) {
    && j < k < |seeds| && Stuck(p, seeds[k])
    && (forall i :: 0 <= i < j ==> Stuck(p, seeds[i]))
    && (forall i :: j <= i < k ==> Hopeless(p, seeds[i]))
  }

  /** Partial mode succeeds with no configuration exactly when the first seed that resolves anything
      meets a hopeless conflict and the first seed after it that does not resolves nothing. */
  lemma PartialEmptyIff(p: Problem, seeds: seq<Vector>)
    requires Sensible(p) && p.anchors > 0
    ensures From(p, seeds, true, 0, []) == Ok([]) <==> exists j, k :: StuckAfterHopeless(p, seeds, j, k)
  {
    var d := SomeDecides(p, seeds, 0);
    PartialOutcome(p, seeds, d, 0);
    if From(p, seeds, true, 0, []) == Ok([]) {
      BestIsLongest(p, seeds, d);
      var j := FirstProductive(p, seeds, d);
      forall i | j <= i < d ensures Hopeless(p, seeds[i]) {
        assert PassedOver(p, seeds, i);
        BestIsLongest(p, seeds, i);
      }
      assert StuckAfterHopeless(p, seeds, j, d);
    }
    if j: nat, k: nat :| StuckAfterHopeless(p, seeds, j, k) {
      StuckDecides(p, seeds, j, k);
    }
  }

  lemma StuckDecides(p: Problem, seeds: seq<Vector>, j: nat, k: nat)
    requires Sensible(p) && StuckAfterHopeless(p, seeds, j, k)
    ensures Decides(p, seeds, k)
  {
    forall i | 0 <= i < k ensures PassedOver(p, seeds, i) {
      BestIsLongest(p, seeds, i);
    }
    BestIsLongest(p, seeds, k);
    TryIsChain(p, seeds[j], p.anchors);
    TryIsChain(p, seeds[k], p.anchors);
  }

  lemma {:induction false} FirstProductive(p: Problem, seeds: seq<Vector>, k: nat) returns (j: nat)
    requires k <= |seeds| && Best(p, seeds, k) != []
    ensures j < k && !Stuck(p, seeds[j]) && forall i :: 0 <= i < j ==> Stuck(p, seeds[i])
    decreases k
  {
    if Best(p, seeds, k - 1) != [] {
      j := FirstProductive(p, seeds, k - 1);
    } else {
      BestIsLongest(p, seeds, k - 1);
      j := k - 1;
    }
  }

  /** Seed i gets further than the deciding seed k: it comes later and is never tried, or it came
      earlier and was passed over because of a hopeless conflict. */
  ghost predicate Outdoes(p: Problem, seeds: seq<Vector>, i: nat, k: nat) {
    && i < |seeds| && k < |seeds| && |ListOf(p, seeds[i])| > |ListOf(p, seeds[k])|
    && (i > k || (i < k && Hopeless(p, seeds[i])))
  }

  /** Some seed's list is longer than a partial answer exactly when an earlier hopeless seed or a later
      seed gets further than the deciding one; never when that one resolves every anchor. */
  lemma PartialLongestIff(p: Problem, seeds: seq<Vector>, k: nat)
    requires Sensible(p) && p.anchors > 0 && Decides(p, seeds, k) && From(p, seeds, true, 0, []).Ok?
    ensures (exists i :: 0 <= i < |seeds| && |ListOf(p, seeds[i])| > |From(p, seeds, true, 0, []).value|) <==>
              exists i :: Outdoes(p, seeds, i, k)
    ensures k < |seeds| && ResolvesAll(p, seeds[k]) ==> forall i :: !Outdoes(p, seeds, i, k)
  {
    PartialOutcome(p, seeds, k, 0);
    BestIsLongest(p, seeds, k);
    forall i | 0 <= i < |seeds| ensures |ListOf(p, seeds[i])| <= p.anchors {
      TryIsChain(p, seeds[i], p.anchors);
    }
    if k < |seeds| { TryIsChain(p, seeds[k], p.anchors); }
    forall i | 0 <= i < |seeds| && k < |seeds| && |ListOf(p, seeds[i])| > |ListOf(p, seeds[k])|
      ensures Outdoes(p, seeds, i, k)
    {
      assert i < k ==> PassedOver(p, seeds, i);
    }
  }

  /** So the answer need not be the longest: with two anchors, a first seed that resolves one hides a
      second seed that resolves both. */
  lemma PartialIsNotLongest()
    ensures var p := Problem(1, 2,
                             (i: nat, q: Vector) =>
                               if i == 1 && q == [0.0] then Failed(false)
                               else Resolved(if |q| == 1 then q else [0.0]),
                             (c: seq<Vector>, f: set<nat>) => None);
            && Sensible(p)
            && From(p, [[0.0], [1.0]], true, 0, []) == Ok([[0.0]])
            && TryAll(p, [1.0]).configs == [[1.0], [1.0]]
  {
    var p := Problem(1, 2,
                     (i: nat, q: Vector) =>
                       if i == 1 && q == [0.0] then Failed(false) else Resolved(if |q| == 1 then q else [0.0]),
                     (c: seq<Vector>, f: set<nat>) => None);
    var x: Vector, y: Vector := [0.0], [1.0];
    assert Try(p, x, 0) == Attempt([], {}, false, Finished);
    assert Try(p, x, 1) == Attempt([x], {}, false, Finished);
    assert Try(p, x, 2) == Attempt([x], {}, false, Stopped);
    assert Try(p, y, 1) == Attempt([y], {}, false, Finished);
    assert Try(p, y, 2) == Attempt([y, y], {}, false, Finished);
    assert Decides(p, [x, y], 0);
    PartialOutcome(p, [x, y], 0, 0);
  }

  /** And it can be empty although something was resolved: when deconflicting an earlier seed fails,
      its list is remembered, and a later seed that resolves nothing is then returned as it is. */
  lemma PartialCanBeEmpty()
    ensures var p := Problem(1, 1, (i: nat, q: Vector) => if q == [0.0] then Conflicted([0.0], {}) else Failed(false),
                             (c: seq<Vector>, f: set<nat>) => None);
            && Sensible(p)
            && From(p, [[0.0], [1.0]], true, 0, []) == Ok([])
            && From(p, [[0.0]], true, 0, []) == Ok([[0.0]])
  {
    var p := Problem(1, 1, (i: nat, q: Vector) => if q == [0.0] then Conflicted([0.0], {}) else Failed(false),
                     (c: seq<Vector>, f: set<nat>) => None);
    var x: Vector, y: Vector := [0.0], [1.0];
    assert Try(p, x, 0) == Attempt([], {}, false, Finished);
    assert Try(p, x, 1) == Attempt([x], {}, true, Finished);
    assert Try(p, y, 0) == Attempt([], {}, false, Finished);
    assert Try(p, y, 1) == Attempt([], {}, false, Stopped);
    assert From(p, [x, y], true, 1, [x]) == Ok([]);
    assert From(p, [x], true, 1, [x]) == Ok([x]);
  }
}
