/** Merging a solved plan with trajectories that are already running, and labelling each resource.

    A new plan labels every resource by whether it was targeted and whether its path moves; the
    running trajectories then veto, replace or join it. The caller finally drops every resource
    whose label is not new or update. Planning, slicing and collision checks are functions. */
module PlanLabels {
  import opened Wrappers

  type Resource = string
  type Arm = nat

  datatype Label = Undefined | NewAndTargeted | NewNotTargeted | RunningNoUpdate | Update | Empty

  datatype Success = NoSuccess | Full | StoppedShort

  datatype Failure = NoFailure | AsyncCollision | AsyncActiveResource | General

  /** Drake demands that abort the process. */
  datatype Abort = ResourceWithoutArm | UpdateWithoutArm

  /** A trajectory: an identity, whether its path is constant, and whether it has ended by now. */
  datatype Trajectory = Trajectory(id: int, isConstant: bool, hasEnded: bool)

  type SystemTrajectory = map<Resource, Trajectory>

  datatype PlanResult = PlanResult(
    isSuccess: bool,
    success: Success,
    failure: Failure,
    trajectory: SystemTrajectory,
    labels: map<Resource, Label>)

  const FRESH_RESULT := PlanResult(false, NoSuccess, NoFailure, map[], map[])

  function GetLabel(r: PlanResult, resource: Resource): Label {
    if resource in r.labels then r.labels[resource] else Undefined
  }

  function SetSuccess(r: PlanResult, s: Success): PlanResult {
    r.(success := s, isSuccess := s != NoSuccess)
  }

  function SetFailure(r: PlanResult, f: Failure): PlanResult {
    r.(failure := f, isSuccess := f == NoFailure)
  }

  /** Arms of the model's resources, and the answers of the libraries. */
  datatype Environment = Environment(
    arms: map<Resource, Arm>,
    others: set<Resource>,
    slice: Trajectory -> Trajectory,
    collides: SystemTrajectory -> bool,
    bestApproach: (SystemTrajectory, set<Arm>) -> Option<SystemTrajectory>,
    numArms: nat,
    tooSlow: bool)

  predicate InModel(env: Environment, r: Resource) {
    r in env.arms || r in env.others
  }

  /** A plan problem with what its solver returned: a new plan and the arms it involves, or an update
      of a running trajectory and the one arm it moves. */
  datatype Problem =
    | NewPlan(plan: Option<SystemTrajectory>, activeArms: set<Arm>, allowPartial: bool)
    | UpdatePlan(plan: Option<SystemTrajectory>, arm: Option<Arm>)

  ghost predicate Sensible(env: Environment, problem: Problem) {
    && (problem.plan.Some? ==> forall r :: r in problem.plan.value ==> r in env.arms)
    && env.arms.Keys !! env.others
    && (forall t, a :: env.bestApproach(t, a).Some? ==> env.bestApproach(t, a).value.Keys == t.Keys)
  }

  // ---------- Specification ----------

  /** The running trajectories; absent and empty mean the same. */
  function Running(active: Option<SystemTrajectory>): SystemTrajectory {
    match active case None => map[] case Some(t) => t
  }

  function Targeted(env: Environment, problem: Problem, r: Resource): bool
    requires problem.NewPlan?
  {
    r in env.arms && env.arms[r] in problem.activeArms
  }

  /** The label that a new plan gives before the running trajectories are considered. */
  function NewLabel(env: Environment, problem: Problem, r: Resource, t: Trajectory): Label
    requires problem.NewPlan?
  {
    if Targeted(env, problem, r) then NewAndTargeted
    else if !t.isConstant then NewNotTargeted
    else Empty
  }

  /** The label of a planned resource in the end, unless the plan is rejected. */
  function FinalLabel(env: Environment, problem: Problem, running: SystemTrajectory, r: Resource, t: Trajectory)
      : Label {
    match problem
    case UpdatePlan(_, _) => Update
    case NewPlan(_, _, _) =>
      if r in running && !Targeted(env, problem, r) then RunningNoUpdate else NewLabel(env, problem, r, t)
  }

  /** The labels whose resources the caller returns. */
  predicate Returned(l: Label) {
    l == NewAndTargeted || l == NewNotTargeted || l == Update
  }

  /** What the caller returns of a successful plan. */
  ghost predicate Kept(env: Environment, problem: Problem, running: SystemTrajectory, r: Resource)
    requires problem.plan.Some?
  {
    && r in problem.plan.value
    && Returned(FinalLabel(env, problem, running, r, problem.plan.value[r]))
  }

  /** Some running resource is targeted by a new plan. */
  ghost predicate TargetsRunning(env: Environment, problem: Problem, running: SystemTrajectory) {
    problem.NewPlan? && problem.plan.Some?
    && exists r :: r in running && r in problem.plan.value && Targeted(env, problem, r)
  }

  /** Some running resource belongs to no arm, which the code demands not to be. */
  ghost predicate RunsWithoutArm(env: Environment, running: SystemTrajectory) {
    exists r :: r in running && r in env.others
  }

  /** An update without a single arm meets a running resource, which the code demands not to be. */
  ghost predicate UpdatesWithoutArm(env: Environment, problem: Problem, running: SystemTrajectory) {
    problem.UpdatePlan? && problem.arm == None && exists r :: r in running && InModel(env, r)
  }

  /** The trajectory of one resource in the merged system, while running ones are being merged in. */
  function MergedTrajectory(env: Environment, problem: Problem, plan: SystemTrajectory,
      running: SystemTrajectory, r: Resource)
      : Trajectory
    requires r in plan || r in running
  {
    if r !in plan then running[r]
    else if r !in running || problem.UpdatePlan? || running[r].hasEnded then plan[r]
    else env.slice(running[r])
  }

  /** The plan with the running trajectories of the model's resources merged in. */
  ghost function Merged(env: Environment, problem: Problem, plan: SystemTrajectory, running: SystemTrajectory)
      : SystemTrajectory {
    map r | r in plan.Keys + running.Keys && (r in plan || InModel(env, r)) ::
      MergedTrajectory(env, problem, plan, running, r)
  }

  /** The system that the collision check is about, spelled out. It holds the resources of the plan and
      the running ones of the model. A planned resource that is running goes on with the rest of its
      running trajectory, unless that has ended or the plan updates it; a running resource outside the
      plan goes on as it is. */
  ghost predicate Overlaid(env: Environment, problem: Problem, running: SystemTrajectory, m: SystemTrajectory)
    requires problem.plan.Some?
  {
    var plan := problem.plan.value;
    && (forall x :: x in m <==> x in plan || (x in running && (x in env.arms || x in env.others)))
    && (forall x :: x in plan && x in m && problem.NewPlan? && x in running && !running[x].hasEnded ==>
          m[x] == env.slice(running[x]))
    && (forall x :: x in plan && x in m && (problem.UpdatePlan? || x !in running || running[x].hasEnded) ==>
          m[x] == plan[x])
    && (forall x :: x !in plan && x in running && x in m ==> m[x] == running[x])
  }

  /** There is exactly one such system, the merged one. */
  lemma OverlaidIff(env: Environment, problem: Problem, running: SystemTrajectory, m: SystemTrajectory)
    requires problem.plan.Some?
    ensures Overlaid(env, problem, running, m) <==> m == Merged(env, problem, problem.plan.value, running)
  {
    var merged := Merged(env, problem, problem.plan.value, running);
    if Overlaid(env, problem, running, m) {
      forall x ensures x in m <==> x in merged {
      }
      forall x | x in m ensures m[x] == merged[x] {
      }
    }
  }

  /** Every running resource of the model outside the updated arm has a constant path. */
  ghost predicate OthersRest(env: Environment, arm: Arm, running: SystemTrajectory) {
    forall r :: r in running && InModel(env, r) ==> (r in env.arms && env.arms[r] == arm) || running[r].isConstant
  }

  // ---------- Labelling ----------

  method SetResourcesFromNewResult(env: Environment, problem: Problem, input: PlanResult) returns (result: PlanResult)
    requires problem.NewPlan?
    ensures result == input.(labels := result.labels)
    ensures forall r :: r in input.trajectory ==> GetLabel(result, r) == NewLabel(env, problem, r, input.trajectory[r])
    ensures forall r :: r !in input.trajectory ==> GetLabel(result, r) == GetLabel(input, r)
  {
    result := input;
    var todo := input.trajectory.Keys;
    while todo != {}
      invariant todo <= input.trajectory.Keys
      invariant result == input.(labels := result.labels)
      invariant forall r ::
                  r in input.trajectory.Keys - todo
                  ==> GetLabel(result, r) == NewLabel(env, problem, r, input.trajectory[r])
      invariant forall r :: r in todo || r !in input.trajectory ==> GetLabel(result, r) == GetLabel(input, r)
      decreases |todo|
    {
      var resource :| resource in todo;
      todo := todo - {resource};
      var kind := Empty;
      if Targeted(env, problem, resource) {
        kind := NewAndTargeted;
      } else if !input.trajectory[resource].isConstant {
        kind := NewNotTargeted;
      }
      result := result.(labels := result.labels[resource := kind]);
    }
  }

  method SetResourcesFromUpdatedResult(input: PlanResult) returns (result: PlanResult)
    ensures result == input.(labels := result.labels)
    ensures forall r :: r in input.trajectory ==> GetLabel(result, r) == Update
    ensures forall r :: r !in input.trajectory ==> GetLabel(result, r) == GetLabel(input, r)
  {
    result := input.(labels := input.labels + map r | r in input.trajectory :: Update);
  }

  // ---------- Merging the running trajectories ----------

  datatype Merge = Merge(result: PlanResult, system: SystemTrajectory, rejected: bool)

  /** The labels while the resources outside todo have been merged. */
  ghost predicate LabelsSoFar(env: Environment, problem: Problem, plan: SystemTrajectory, running: SystemTrajectory,
                              todo: set<Resource>, result: PlanResult) {
    forall r :: GetLabel(result, r) == LabelSoFar(env, problem, plan, running, todo, r)
  }

  ghost function LabelSoFar(env: Environment, problem: Problem, plan: SystemTrajectory, running: SystemTrajectory,
                            todo: set<Resource>, r: Resource): Label {
    if r !in plan then Undefined
    else FinalLabel(env, problem, if r in todo then map[] else running, r, plan[r])
  }

  /** The merged system while the resources in todo are still to come. */
  ghost predicate SystemSoFar(env: Environment, problem: Problem, plan: SystemTrajectory, running: SystemTrajectory,
                              todo: set<Resource>, system: SystemTrajectory) {
    && (forall x :: x in system <==> x in plan || (x in running.Keys - todo && InModel(env, x)))
    && (forall x :: x in system ==>
          system[x] == if x in todo then plan[x] else MergedTrajectory(env, problem, plan, running, x))
  }

  /** What a visited resource of the plan has shown. */
  ghost predicate NoVeto(env: Environment, problem: Problem, plan: SystemTrajectory, running: SystemTrajectory,
      todo: set<Resource>) {
    forall x :: x in running.Keys - todo ==>
      x !in env.others && (x in plan && problem.NewPlan? ==> !Targeted(env, problem, x))
  }

  /** One more resource: its label, and the system with or without its slice. */
  lemma MergeStep(env: Environment, problem: Problem, plan: SystemTrajectory, running: SystemTrajectory,
                  todo: set<Resource>, result: PlanResult, x: Resource)
    requires x in todo && todo <= running.Keys && LabelsSoFar(env, problem, plan, running, todo, result)
    ensures x !in plan || problem.UpdatePlan? ==> LabelsSoFar(env, problem, plan, running, todo - {x}, result)
    ensures x in plan && problem.NewPlan? && !Targeted(env, problem, x) ==>
              LabelsSoFar(env, problem, plan, running, todo - {x},
                result.(labels := result.labels[x := RunningNoUpdate]))
    ensures x in plan ==> (GetLabel(result, x) == Update <==> problem.UpdatePlan?)
    ensures x in plan ==> (GetLabel(result, x) == NewAndTargeted <==> problem.NewPlan? && Targeted(env, problem, x))
  {
    assert GetLabel(result, x) == LabelSoFar(env, problem, plan, running, todo, x);
    var labelled := result.(labels := result.labels[x := RunningNoUpdate]);
    forall r
      ensures r != x
              ==> GetLabel(labelled, r) == GetLabel(result, r)
                  == LabelSoFar(env, problem, plan, running, todo - {x}, r) {
      assert GetLabel(result, r) == LabelSoFar(env, problem, plan, running, todo, r);
    }
  }

  lemma SystemDone(env: Environment, problem: Problem, plan: SystemTrajectory, running: SystemTrajectory,
      system: SystemTrajectory)
    requires SystemSoFar(env, problem, plan, running, {}, system)
    ensures system == Merged(env, problem, plan, running)
  {
    var merged := Merged(env, problem, plan, running);
    assert forall x :: x in system <==> x in merged;
  }

  /** Merges the running trajectories into a labelled plan. The plan is rejected exactly when it
      targets a running resource; the order in which resources are visited does not matter. */
  method MergeRunning(env: Environment, problem: Problem, plan: SystemTrajectory, running: SystemTrajectory,
      input: PlanResult)
    returns (r: Result<Merge, Abort>)
    requires Sensible(env, problem) && problem.plan == Some(plan) && input.trajectory == plan
    requires LabelsSoFar(env, problem, plan, running, running.Keys, input)
    ensures r.Err? ==> r.error == ResourceWithoutArm && RunsWithoutArm(env, running)
    ensures r.Ok? ==> (r.value.rejected <==> TargetsRunning(env, problem, running))
    ensures r.Ok? && RunsWithoutArm(env, running) ==> r.value.rejected
    ensures r.Ok? && r.value.rejected ==>
              && r.value.result
                 == SetFailure(input, AsyncActiveResource).(trajectory := map[], labels := r.value.result.labels)
    ensures r.Ok? && !r.value.rejected ==>
              && r.value.result == input.(labels := r.value.result.labels)
              && LabelsSoFar(env, problem, plan, running, {}, r.value.result)
              && r.value.system == Merged(env, problem, plan, running)
  {
    var result, system := input, plan;
    var todo := running.Keys;
    while todo != {}
      invariant todo <= running.Keys
      invariant result == input.(labels := result.labels)
      invariant LabelsSoFar(env, problem, plan, running, todo, result)
      invariant NoVeto(env, problem, plan, running, todo)
      invariant SystemSoFar(env, problem, plan, running, todo, system)
      decreases |todo|
    {
      var resource :| resource in todo;
      MergeStep(env, problem, plan, running, todo, result, resource);
      if resource in env.others {
        return Err(ResourceWithoutArm);
      }
      todo := todo - {resource};
      if resource !in env.arms {
        continue;
      }
      if resource !in system {
        system := system[resource := running[resource]];
        continue;
      }
      var kind := GetLabel(result, resource);
      if kind == NewAndTargeted {
        result := SetFailure(result, AsyncActiveResource).(trajectory := map[]);
        return Ok(Merge(result, system, true));
      }
      if kind != Update {
        result := result.(labels := result.labels[resource := RunningNoUpdate]);
        if !running[resource].hasEnded {
          system := system[resource := env.slice(running[resource])];
        }
      }
    }
    SystemDone(env, problem, plan, running, system);
    r := Ok(Merge(result, system, false));
  }

  /** The test that lets an update skip the collision check. */
  method OthersAreConstant(env: Environment, arm: Option<Arm>, running: SystemTrajectory)
      returns (r: Result<bool, Abort>)
    ensures r.Err? <==> arm == None && exists x :: x in running && InModel(env, x)
    ensures r.Err? ==> r.error == UpdateWithoutArm
    ensures r.Ok? && arm.Some? ==> (r.value <==> OthersRest(env, arm.value, running))
    ensures r.Ok? && arm == None ==> r.value
  {
    var constant := true;
    var todo := running.Keys;
    while todo != {}
      invariant todo <= running.Keys && constant
      invariant forall x :: x in running.Keys - todo && InModel(env, x) ==>
                  arm.Some? && ((x in env.arms && env.arms[x] == arm.value) || running[x].isConstant)
      decreases |todo|
    {
      var resource :| resource in todo;
      todo := todo - {resource};
      if !InModel(env, resource) {
        continue;
      }
      if arm == None {
        return Err(UpdateWithoutArm);
      }
      if resource in env.arms && env.arms[resource] == arm.value {
        continue;
      }
      if !running[resource].isConstant {
        return Ok(false);
      }
    }
    r := Ok(true);
  }

  method MovableArms(env: Environment, running: SystemTrajectory) returns (movable: set<Arm>)
    ensures movable == IdleArms(env, running)
  {
    movable := {};
    for a := 0 to env.numArms
      invariant movable == set b | 0 <= b < a && !ArmRuns(env, running, b)
    {
      if !ArmRuns(env, running, a) {
        movable := movable + {a};
      }
    }
  }

  predicate ArmRuns(env: Environment, running: SystemTrajectory, a: Arm) {
    exists r :: r in running && r in env.arms && env.arms[r] == a
  }

  // ---------- The two entry points ----------

  /** The plan is not checked against the running trajectories: there are none, or an update moves the
      only arm that may move. */
  ghost predicate Unchecked(env: Environment, problem: Problem, running: SystemTrajectory) {
    || running == map[]
    || (problem.UpdatePlan? && problem.arm.Some? && OthersRest(env, problem.arm.value, running))
    || (problem.UpdatePlan? && problem.arm == None)
  }

  /** The plan is not checked, or the merged system is free of collisions and in time. */
  ghost predicate Passes(env: Environment, problem: Problem, plan: SystemTrajectory, running: SystemTrajectory) {
    || Unchecked(env, problem, running)
    || (!env.collides(Merged(env, problem, plan, running)) && !env.tooSlow)
  }

  /** Or it collides but may stop short. */
  ghost predicate StopsShort(env: Environment, problem: Problem, plan: SystemTrajectory, running: SystemTrajectory) {
    && problem.NewPlan? && problem.allowPartial
    && env.collides(Merged(env, problem, plan, running))
    && BestApproach(env, problem, plan, running).Some?
  }

  ghost predicate Succeeds(env: Environment, problem: Problem, running: SystemTrajectory) {
    && problem.plan.Some?
    && !TargetsRunning(env, problem, running)
    && (Passes(env, problem, problem.plan.value, running) || StopsShort(env, problem, problem.plan.value, running))
  }

  /** The arms of which no resource is running. */
  ghost function IdleArms(env: Environment, running: SystemTrajectory): set<Arm> {
    set a | 0 <= a < env.numArms && !ArmRuns(env, running, a)
  }

  ghost function BestApproach(env: Environment, problem: Problem, plan: SystemTrajectory, running: SystemTrajectory)
      : Option<SystemTrajectory> {
    env.bestApproach(Merged(env, problem, plan, running), IdleArms(env, running))
  }

  /** The whole system's trajectory of a success. */
  ghost function Solution(env: Environment, problem: Problem, running: SystemTrajectory): SystemTrajectory
    requires Succeeds(env, problem, running)
  {
    var plan := problem.plan.value;
    if Unchecked(env, problem, running) then plan
    else if Passes(env, problem, plan, running) then Merged(env, problem, plan, running)
    else BestApproach(env, problem, plan, running).value
  }

  /** Which success it is: whole unless it had to stop short. */
  ghost function SuccessKind(env: Environment, problem: Problem, running: SystemTrajectory): Success
    requires problem.plan.Some?
  {
    if Passes(env, problem, problem.plan.value, running) then Full else StoppedShort
  }

  /** Which failure it is: no plan, a plan for a running resource, a collision, or too slow. */
  ghost function FailureKind(env: Environment, problem: Problem, running: SystemTrajectory): Failure {
    if problem.plan == None then General
    else if TargetsRunning(env, problem, running) then AsyncActiveResource
    else if env.collides(Merged(env, problem, problem.plan.value, running)) then AsyncCollision
    else General
  }

  /** A plan has to be checked when something is running and, if it is an update, some resource of the
      model outside the updated arm is moving. */
  ghost predicate MustCheck(env: Environment, problem: Problem, running: SystemTrajectory) {
    && running != map[]
    && (problem.UpdatePlan? ==>
          exists x :: x in running && !running[x].isConstant
                   && (x in env.others || (x in env.arms && problem.arm != Some(env.arms[x]))))
  }

  /** What the answer says about the system that is to be checked. */
  ghost predicate Verdict(env: Environment, problem: Problem, m: SystemTrajectory, r: PlanResult) {
    && (r.success == Full ==> !env.collides(m) && !env.tooSlow)
    && (r.success == StoppedShort ==> env.collides(m) && problem.NewPlan? && problem.allowPartial)
    && (r.failure == AsyncCollision ==> env.collides(m))
    && (r.failure == General ==> !env.collides(m) && env.tooSlow)
  }

  /** The checked system decides: the outcome, and the trajectory of a success. */
  lemma OverlayDecides(env: Environment, problem: Problem, running: SystemTrajectory, m: SystemTrajectory)
    requires problem.plan.Some? && Overlaid(env, problem, running, m)
    requires !Unchecked(env, problem, running) && !TargetsRunning(env, problem, running)
    ensures SuccessKind(env, problem, running) == Full <==> !env.collides(m) && !env.tooSlow
    ensures FailureKind(env, problem, running) == AsyncCollision <==> env.collides(m)
    ensures Succeeds(env, problem, running) <==>
              || (!env.collides(m) && !env.tooSlow)
              || (env.collides(m) && problem.NewPlan? && problem.allowPartial
                  && env.bestApproach(m, IdleArms(env, running)).Some?)
    ensures Succeeds(env, problem, running) ==>
              Solution(env, problem, running) ==
              if env.collides(m) then env.bestApproach(m, IdleArms(env, running)).value else m
  {
    OverlaidIff(env, problem, running, m);
  }

  /** When a demand may abort the call, and when it must: the order in which running resources are
      visited decides only if a new plan targets one running resource and another has no arm. */
  ghost predicate MayAbort(env: Environment, problem: Problem, running: SystemTrajectory, e: Abort) {
    && problem.plan.Some?
    && match e
       case ResourceWithoutArm => RunsWithoutArm(env, running)
       case UpdateWithoutArm => UpdatesWithoutArm(env, problem, running) && !RunsWithoutArm(env, running)
  }

  ghost predicate MustAbort(env: Environment, problem: Problem, running: SystemTrajectory) {
    && problem.plan.Some? && !TargetsRunning(env, problem, running)
    && (RunsWithoutArm(env, running) || UpdatesWithoutArm(env, problem, running))
  }

  /** The statuses are consistent, and a failure carries no trajectory. */
  ghost predicate Consistent(r: PlanResult) {
    && (r.isSuccess ==> r.failure == NoFailure && r.success != NoSuccess)
    && (!r.isSuccess ==> r.success == NoSuccess && r.failure != NoFailure && r.trajectory == map[])
  }

  /** What solving and merging comes to: whether it succeeds and how, with which trajectory and labels, or
      why it fails. */
  ghost predicate Solved(env: Environment, problem: Problem, running: SystemTrajectory, r: PlanResult) {
    && Consistent(r) && (r.isSuccess <==> Succeeds(env, problem, running))
    && (r.isSuccess ==>
          && r.success == SuccessKind(env, problem, running)
          && r.trajectory == Solution(env, problem, running)
          && LabelsSoFar(env, problem, problem.plan.value, running, {}, r))
    && (!r.isSuccess ==> r.failure == FailureKind(env, problem, running))
  }

  /** What the caller gets. On success the returned resources are exactly those of the plan that are
      updated, of a targeted arm, or moving without already running; each has its trajectory in the
      solution, and in a whole success that of the plan. A new plan's resources are labelled by whether
      their arm was targeted; one that was running is an update. */
  ghost predicate Answered(env: Environment, problem: Problem, running: SystemTrajectory, r: PlanResult) {
    && Consistent(r) && (r.isSuccess <==> Succeeds(env, problem, running))
    && (r.isSuccess ==>
          && r.success == SuccessKind(env, problem, running)
          && (forall x :: x in r.trajectory <==> x in problem.plan.value && Due(env, problem, running, x))
          && (forall x :: x in r.trajectory ==> AnsweredFor(env, problem, running, r, x)))
    && (!r.isSuccess ==> r.failure == FailureKind(env, problem, running))
  }

  ghost predicate Due(env: Environment, problem: Problem, running: SystemTrajectory, x: Resource)
    requires problem.plan.Some? && x in problem.plan.value
  {
    || problem.UpdatePlan?
    || (x in env.arms && env.arms[x] in problem.activeArms)
    || (!problem.plan.value[x].isConstant && x !in running)
  }

  ghost predicate AnsweredFor(env: Environment, problem: Problem, running: SystemTrajectory, r: PlanResult,
      x: Resource)
    requires Succeeds(env, problem, running) && x in r.trajectory
  {
    && x in problem.plan.value && x in env.arms
    && GetLabel(r, x) == (if problem.UpdatePlan? then Update
                          else if env.arms[x] in problem.activeArms then NewAndTargeted else NewNotTargeted)
    && (x in running ==> problem.UpdatePlan?)
    && x in Solution(env, problem, running) && r.trajectory[x] == Solution(env, problem, running)[x]
    && (r.success == Full ==> r.trajectory[x] == problem.plan.value[x])
  }

  lemma KeptIsAnswered(env: Environment, problem: Problem, running: SystemTrajectory, r: PlanResult,
      systraj: SystemTrajectory)
    requires Sensible(env, problem) && Solved(env, problem, running, r) && r.isSuccess
    requires systraj == map x | x in r.trajectory && Returned(GetLabel(r, x)) :: r.trajectory[x]
    ensures Answered(env, problem, running, r.(trajectory := systraj))
  {
    var kept := r.(trajectory := systraj);
    forall x ensures x in systraj <==> x in problem.plan.value && Due(env, problem, running, x) {
      assert GetLabel(r, x) == LabelSoFar(env, problem, problem.plan.value, running, {}, x);
      SolutionHolds(env, problem, running, x);
    }
    forall x | x in systraj ensures AnsweredFor(env, problem, running, kept, x) {
      assert GetLabel(kept, x) == GetLabel(r, x) == LabelSoFar(env, problem, problem.plan.value, running, {}, x);
      SolutionHolds(env, problem, running, x);
    }
  }

  /** A planned resource is in the solution; one that was not running, or is updated, as planned. */
  lemma SolutionHolds(env: Environment, problem: Problem, running: SystemTrajectory, x: Resource)
    requires Sensible(env, problem) && Succeeds(env, problem, running)
    ensures x in problem.plan.value ==>
              && x in Solution(env, problem, running)
              && (SuccessKind(env, problem, running) == Full && (x !in running || problem.UpdatePlan?) ==>
                    Solution(env, problem, running)[x] == problem.plan.value[x])
  {
  }

  /** The end of solving: checks a merged plan and gives the verdict. */
  method CheckMerged(env: Environment, problem: Problem, running: SystemTrajectory, input: PlanResult,
      system: SystemTrajectory)
    returns (r: Result<PlanResult, Abort>)
    requires problem.plan.Some? && running != map[]
    requires !TargetsRunning(env, problem, running) && !RunsWithoutArm(env, running)
    requires system == Merged(env, problem, problem.plan.value, running)
    requires input == FRESH_RESULT.(trajectory := problem.plan.value, labels := input.labels)
    requires LabelsSoFar(env, problem, problem.plan.value, running, {}, input)
    ensures r.Err? ==> MayAbort(env, problem, running, r.error)
    ensures MustAbort(env, problem, running) ==> r.Err?
    ensures r.Ok? ==> Solved(env, problem, running, r.value)
  {
    var result := input;
    var movable := MovableArms(env, running);
    if problem.UpdatePlan? {
      var rest := OthersAreConstant(env, problem.arm, running);
      if rest.Err? {
        return Err(rest.error);
      }
      if rest.value {
        return Ok(SetSuccess(result, Full));
      }
    }
    if env.collides(system) {
      if problem.NewPlan? && problem.allowPartial {
        var best := env.bestApproach(system, movable);
        if best.Some? {
          return Ok(SetSuccess(result.(trajectory := best.value), StoppedShort));
        }
      }
      return Ok(SetFailure(result, AsyncCollision).(trajectory := map[]));
    }
    if env.tooSlow {
      return Ok(SetFailure(result, General).(trajectory := map[]));
    }
    return Ok(SetSuccess(result.(trajectory := system), Full));
  }

  /** Solves and merges. Every outcome is determined, save for which of two reasons stops a plan that
      targets a running resource while another running resource has no arm. */
  method SolvePlanImpl(env: Environment, problem: Problem, active: Option<SystemTrajectory>)
      returns (r: Result<PlanResult, Abort>)
    requires Sensible(env, problem)
    ensures r.Err? ==> MayAbort(env, problem, Running(active), r.error)
    ensures MustAbort(env, problem, Running(active)) ==> r.Err?
    ensures r.Ok? ==> Solved(env, problem, Running(active), r.value)
  {
    var result := FRESH_RESULT;
    if problem.plan == None {
      return Ok(SetFailure(result, General));
    }
    var system := problem.plan.value;
    result := result.(trajectory := system);
    if problem.UpdatePlan? {
      result := SetResourcesFromUpdatedResult(result);
    } else {
      result := SetResourcesFromNewResult(env, problem, result);
    }
    var running := Running(active);
    if running == map[] {
      return Ok(SetSuccess(result.(trajectory := system), Full));
    }
    var merge := MergeRunning(env, problem, system, running, result);
    if merge.Err? {
      return Err(merge.error);
    }
    result, system := merge.value.result, merge.value.system;
    if merge.value.rejected {
      return Ok(result);
    }
    r := CheckMerged(env, problem, running, result, system);
  }

  /** Solves and keeps only new and updated resources. A new plan for a running resource fails and is
      empty, unless the call aborts. What is said of any other plan that has to be checked is decided by
      the one system that overlays the running trajectories; a plan that has not succeeds. */
  method SolvePlan(env: Environment, problem: Problem, active: Option<SystemTrajectory>)
      returns (r: Result<PlanResult, Abort>)
    requires Sensible(env, problem)
    ensures r.Err? ==> MayAbort(env, problem, Running(active), r.error)
    ensures MustAbort(env, problem, Running(active)) ==> r.Err?
    ensures r.Ok? ==> Answered(env, problem, Running(active), r.value)
    ensures r.Ok? && problem.plan.Some? && MustCheck(env, problem, Running(active)) ==>
              forall m :: Overlaid(env, problem, Running(active), m) ==> Verdict(env, problem, m, r.value)
    ensures r.Ok? && problem.plan.Some? && !MustCheck(env, problem, Running(active)) ==> r.value.success == Full
    ensures r.Ok? && problem.NewPlan? && problem.plan.Some? ==>
              (r.value.failure == AsyncActiveResource <==>
               exists x :: x in Running(active) && x in problem.plan.value && x in env.arms
                           && env.arms[x] in problem.activeArms)
  {
    r := SolvePlanImpl(env, problem, active);
    if r.Err? {
      return;
    }
    var systraj := KeepReturned(r.value);
    if r.value.isSuccess { KeptIsAnswered(env, problem, Running(active), r.value, systraj); }
    if problem.plan.Some? { SolvedVerdict(env, problem, Running(active), r.value); }
    r := Ok(r.value.(trajectory := systraj));
  }

  lemma SolvedVerdict(env: Environment, problem: Problem, running: SystemTrajectory, r: PlanResult)
    requires problem.plan.Some? && Solved(env, problem, running, r) && !MustAbort(env, problem, running)
    ensures MustCheck(env, problem, running) ==>
              forall m :: Overlaid(env, problem, running, m) ==> Verdict(env, problem, m, r)
    ensures !MustCheck(env, problem, running) ==> r.success == Full
  {
    if MustCheck(env, problem, running) && !TargetsRunning(env, problem, running) {
      forall m | Overlaid(env, problem, running, m) ensures Verdict(env, problem, m, r) {
        OverlayDecides(env, problem, running, m);
      }
    }
  }

  /** Erases the resources whose label is neither new nor update. */
  method KeepReturned(result: PlanResult) returns (systraj: SystemTrajectory)
    ensures systraj == map x | x in result.trajectory && Returned(GetLabel(result, x)) :: result.trajectory[x]
  {
    systraj := result.trajectory;
    var resources := systraj.Keys;
    while resources != {}
      invariant resources <= result.trajectory.Keys
      invariant systraj == map x | x in result.trajectory && (x in resources || Returned(GetLabel(result, x))) ::
                             result.trajectory[x]
      decreases |resources|
    {
      var resource :| resource in resources;
      resources := resources - {resource};
      var kind := GetLabel(result, resource);
      if kind != NewAndTargeted && kind != NewNotTargeted && kind != Update {
        systraj := systraj - {resource};
      }
    }
  }

  /** A successful answer may be empty: exactly when no planned resource is updated, targeted, or
      moving without already running. */
  lemma SuccessIsEmptyIff(env: Environment, problem: Problem, running: SystemTrajectory)
    requires problem.plan.Some? && !TargetsRunning(env, problem, running)
    ensures (forall x :: !Kept(env, problem, running, x)) <==>
              forall x :: x in problem.plan.value ==>
                && problem.NewPlan?
                && !Targeted(env, problem, x)
                && (problem.plan.value[x].isConstant || x in running)
  {
    forall x | x in problem.plan.value
      ensures Kept(env, problem, running, x) <==>
              !(problem.NewPlan? && !Targeted(env, problem, x) && (problem.plan.value[x].isConstant || x in running))
    {
    }
  }
}
