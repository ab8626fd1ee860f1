# Verified models of the planning service

This project models the algorithms and protocols that the planning service builds around its
geometry, optimisation and communication libraries, and proves properties of the models with Dafny.
`dafny verify dfyconfig.toml` checks all of it. Numbers that the program keeps as doubles are reals,
and the libraries' answers are functions or data with stated contracts.

Each file is one module:

- `WeldConnectivity` (specification), `BodyPartition`, `KinematicHash`, `KinematicChains`: graph
  algorithms on the robot tree. Groups of welded bodies are connected components; marks in the
  kinematic hash are reachability of collision geometry; arms are everything that hangs from a
  movable root.
- `StreamerSlot`, `Override`, `OverrideObjects`, `CollisionScope`: ownership protocols. One streamer
  slot shared by any number of handlers; token-owned overrides, as transitions and as objects; the
  three collision overrides with the checker that mirrors them, through interleaved requests,
  exceptions and visualizer events.
- `VisualizerQueue`: the bounded queue of the visualizer with its labels and buttons.
- `HolonomicMapping` (specification) and `HolonomicObject` (the object): removing and restoring
  mimicking joints, for the plant and per model instance, and setting idle instances to a reference.
- `RegionRepair`, `CliqueGenerator`, `RegionIndex`: regions of free configurations. Half-space cuts
  from an edge walk, cliques of mutually visible configurations, and the incremental intersection index.
- `SequentialAnchors`, `PlanLabels`, `BestApproach`, `AccelerationSpline`: planner control logic.
  Seeded anchor resolution, merging with running trajectories, stopping short of a collision, and the
  closed-form back-and-forth motion.
- `RealArithmetic`, `Vectors`, `Wrappers`: products of reals, inner products, options and results.

Code that changes things step by step is a class or a method with loops, tied by its contract to a
specification function or predicate; the lemmas speak about the specification. Protocols are state
machines over steps, and the classes' methods are shown to take exactly those steps.

Where the code departs from its comments, or from what one would expect, the model follows the code:

- The comment on `PartitionMobileBodies` promises groups of bodies. A weld that closes a cycle repeats
  a body in its group (robot_model.cc:89-98), until a later weld merges the group with another, which
  removes repeats (robot_model.cc:147-157): no group repeats a body exactly when
  every weld that closes a cycle is later followed by such a merge. A plant whose joints form a tree
  has no such weld (`TreeClosesNoCycle`); that no two joints share a child, which is what the kinematic
  hash demands, is not enough (`RepeatedWeld`).
- The kinematic hash is meant to see only what carries collision geometry. The world's entry is hashed
  with the type of the first joint (robot_model.cc:875-881, 902-912), so removing a collision-free
  subtree changes the hash when that changes the type of the first joint (`RemovalKeepsHashIff`).
- A scope that was moved from keeps its token, and an explicit acquire stores its target before it can
  throw (override.h:251-255, 308-309). Two lemmas give the runs that break exclusive ownership, and
  `GoodKeptIffClean` says exactly which calls do.
- A value set on a target that was never initialised is permanent (override.h:107-111).
- The filter override starts from the nominal matrix after another filter was installed
  (robot_constraints.cc:251-252 and 1330), so the first release loses the installed one.
- When the id of a geometry just added is not found, the exception leaves the geometry in the checker
  without tracking it (robot_constraints.cc:1915-1919), so unwinding does not remove it unless an
  earlier tracked shape has its name (`LeftBehindIff`).
- A forced takeover may evict a handler that nobody cancelled, which happens exactly when no handler
  arrived while the evicted one held the slot (`EvictedIsCancelledIff`); and every handler clears the
  slot when it ends, whoever holds it (viz_service.cc:174-186, 210-211).
- Lift reads mimicked values in ascending index order, so a mimic with a smaller index than the mimic
  it follows reads zero (holonomic_mapping.cc:188-191); `LiftSatisfiesCouplerIff` and
  `CouplerAlwaysHoldsIff` say exactly when its coupler holds all the same. LiftInstance tests the
  mimicked index rather than the mimic, so it writes out of range exactly when a mimicked position lies
  inside an instance with mimics of its own and the mimic outside (holonomic_mapping.cc:297-302).
- Grouping model instances fails for a plant whose parents do not precede their children.
- A failed retiming is logged as skipping the candidate, but only the arm is skipped
  (solve_generalized_multimodal.cc:281-287): its plain slices go forward, wherever it stands among the
  arms (`RetimingFailureKeepsSlices`), and the candidate may pass. Without a minimum time candidates
  can rise.
- The option named for the longest incomplete solution returns the list of the first seed that is not
  passed over (`PassedOverIff`), which need not be the longest and can be empty
  (solve_generalized_multimodal.cc:863-875); `PartialLongestIff` and `PartialEmptyIff` say exactly when.
- A successful plan may return no trajectory at all, when every planned resource is empty or already
  running (draco_planner.cc:276-303).
- The joint-limit check of the acceleration spline looks half-way to the peak
  (solve_max_cartesian_acceleration.cc:98).
- With a capacity of zero the visualizer's queue would go on popping when empty
  (draco_visualizer.h:92-98); `Add` reports this as an error.

## Model

| member | source | states |
|---|---|---|
| `BodyPartition.PartitionMobileBodies` | planning_service/motion/robot_model.cc:76-183 | For any joint list the groups are pairwise disjoint; two bodies share a group exactly when some joint names them and a path of welds connects them; no group repeats a body, and the sizes add up to the number of named bodies, exactly when every weld that closes a cycle is followed by one that merges its component with another |
| `BodyPartition.DistinctIff` | planning_service/motion/robot_model.cc:89-98 | In the groups that the joint loop keeps, no body is repeated exactly when every cycle-closing weld has been merged away since |
| `WeldConnectivity.RepeatedWeld` | planning_service/motion/robot_model.cc:89-98 | Two bodies welded twice: a cycle that is never merged, so the condition fails |
| `WeldConnectivity.RepeatedWeldMerged` | planning_service/motion/robot_model.cc:147-157 | The same two bodies, welded to another group afterwards: the condition holds |
| `WeldConnectivity.TreeClosesNoCycle` | planning_service/motion/robot_model.cc:840-881 | When no two joints share a child, which the hash demands, and every child is deeper than its parent, no weld closes a cycle |
| `BodyPartition.AddJoint` | planning_service/motion/robot_model.cc:80-160 | After every joint, the groups are the weld-connected components of the bodies named so far, and a group repeats a body exactly where a weld closed a cycle that nothing has merged since |
| `BodyPartition.MergeOverlaps` | planning_service/motion/robot_model.cc:132-159 | Of groups with at most one overlapping pair, the nested loops with the erase and the index step back merge exactly that pair |
| `BodyPartition.MergedDisjoint` | planning_service/motion/robot_model.cc:147-157 | Merging the one overlapping pair makes all groups disjoint again |
| `BodyPartition.AddWeld` | planning_service/motion/robot_model.cc:85-106 | The first group that holds either body of the weld receives the other; a new pair is made only when no group holds either |
| `BodyPartition.AppendOverlap` | planning_service/motion/robot_model.cc:89-98 | One append makes at most one overlapping pair |
| `WeldConnectivity.SameGroupIffConnected` | planning_service/motion/robot_model.cc:71-75 | Membership in one group is reachability along welds, both ways |
| `BodyPartition.SortUnique` | planning_service/motion/robot_model.cc:150-153 | Sorting and erasing duplicates keeps the members, in strictly ascending order |
| `BodyPartition.TotalSizeCountsBodies` | planning_service/motion/robot_model.cc:165-170 | Sizes of disjoint groups add up to the number of bodies exactly when no group repeats one |
| `BodyPartition.GroupsHoldNamedBodies` | planning_service/motion/robot_model.cc:80-160 | The groups hold exactly the bodies that some joint names |
| `KinematicHash.BuildTree` | planning_service/motion/robot_model.cc:840-881 | The demand that no two joints share a child holds exactly when the tree is built; then it holds each joint under its child, and the world marked |
| `KinematicHash.MarkAncestors` | planning_service/motion/robot_model.cc:890-898 | The inner walk ends although it may stop at a mark, and passes the mark of the visited body on: afterwards every unsettled marked body is one that was marked at the start and is still to be visited |
| `KinematicHash.Propagate` | planning_service/motion/robot_model.cc:882-899 | At the end a non-world body is marked exactly when its subtree holds collision geometry, despite the early break |
| `KinematicHash.HashKinematics` | planning_service/motion/robot_model.cc:833-912 | From a list of joints: it fails exactly when two joints share a child; otherwise the hasher receives the world with the type of the first joint and then, in ascending body order, one block for each body with geometry downstream in the tree of those joints, namely the transforms of its joint followed by the joint's type |
| `KinematicHash.SameHashIff` | planning_service/motion/robot_model.cc:900-912 | Between plants of the same layout the hasher receives the same sequence exactly when the joints of all bodies that carry geometry have the same transforms and types, and the first joints the same type |
| `KinematicHash.BuildsOnce` | planning_service/motion/robot_model.cc:840-881 | The joints determine the tree |
| `KinematicHash.RemovalKeepsHashIff` | planning_service/motion/robot_model.cc:833-912 | Removing from a plant's joints any subtrees without collision geometry leaves what the hasher receives unchanged exactly when the first joint that is left has the type of the joint that was first, because the world's entry takes that type |
| `KinematicHash.RemovingFirstJointChangesHash` | planning_service/motion/robot_model.cc:875-912 | Removing the first of two bodies on the world, which has no geometry, changes what the hasher receives when the joint types differ |
| `KinematicHash.FeedOfRest` | planning_service/motion/robot_model.cc:900-912 | Cutting such subtrees out of the tree, with the world's entry kept, changes nothing that the hasher receives |
| `StreamerSlot.SlotNeverDangles` | planning_service/comms/viz_service.cc:157-221 | In every run of any number of handlers, forced takeovers included, the slot is free or names a handler that has not exited |
| `StreamerSlot.NameEmptyIffFree` | planning_service/comms/viz_service.cc:174-186 | In every run with non-empty peers the name is empty exactly when the context is null |
| `StreamerSlot.NameEmptyIff` | planning_service/comms/viz_service.cc:174-186 | In every run, whatever the peers, the name is empty exactly when the slot is free or its holder's peer is empty |
| `StreamerSlot.UnnamedPeerHidesItsSlot` | planning_service/comms/viz_service.cc:185-186 | An empty peer breaks that equivalence in one step |
| `StreamerSlot.OneStreamerWithoutForcedTakeover` | planning_service/comms/viz_service.cc:157-221 | Without forced takeovers at most one handler streams, and the slot holds its context and its name |
| `StreamerSlot.OrphansBoundedByForcedTakeovers` | planning_service/comms/viz_service.cc:174-183 | With forced takeovers, the handlers that stream without holding the slot are at most as many as the forced takeovers so far |
| `StreamerSlot.ExclusiveKeptUnlessForced` | planning_service/comms/viz_service.cc:174-186 | From a state where the slot names the only streamer, a step keeps that exactly when it is not a forced takeover; a forced one leaves two streamers |
| `StreamerSlot.EvictedIsCancelledIff` | planning_service/comms/viz_service.cc:165-186 | In every run in which a wait runs out, the slot has a streaming holder, which is evicted; it has been cancelled exactly when some handler arrived while it held the slot |
| `StreamerSlot.CancelledIff` | planning_service/comms/viz_service.cc:165-168 | Over every run a handler is cancelled exactly when it was already or some handler arrived while it held the slot |
| `StreamerSlot.FoundAtArrivalIsCancelled` | planning_service/comms/viz_service.cc:165-186 | The handler that the waiter itself found in the slot is cancelled when it is the one evicted |
| `StreamerSlot.ForcedTakeoverOfUncancelledHandler` | planning_service/comms/viz_service.cc:167-186 | A run in which the handler taken over by force was never cancelled, because it took the slot after the last arrival |
| `StreamerSlot.RunInvariant` | planning_service/comms/viz_service.cc:157-221 | Every step of every run keeps the slot live and adds at most one orphan, only when it takes a held slot |
| `StreamerSlot.SlotAfterRun` | planning_service/comms/viz_service.cc:157-221 | After any run the slot is free exactly at the start and right after an exit, whoever exited; otherwise it belongs to the handler whose taking is later than every other taking and every exit |
| `StreamerSlot.NameAfterRun` | planning_service/comms/viz_service.cc:174-186 | After any run a free slot has no name, and a held one the peer from which its holder arrived |
| `StreamerSlot.PhaseAfterRun` | planning_service/comms/viz_service.cc:157-221 | After any run a handler streams exactly when it took the slot at some step and has not exited since, and waits exactly when it arrived without taking the slot and its wait has not ended since |
| `StreamerSlot.VisualizerService.Enter` | planning_service/comms/viz_service.cc:158-186 | The first critical section up to the wait is the arrival step |
| `StreamerSlot.VisualizerService.Resume` | planning_service/comms/viz_service.cc:174-186 | The section after the wait is a wake-up when the name is empty and a forced takeover otherwise |
| `StreamerSlot.VisualizerService.Leave` | planning_service/comms/viz_service.cc:208-221 | The exit section frees the slot, name and context, whoever holds it |
| `Override.OverrideSafety` | planning_service/common/override.h:103-126 | Over every interleaving of constructions, acquires, sets, moves, releases and destructions in which no explicit acquire finds another owner: at most one scope holds the target, an overridden target is owned, and an unowned one shows the initial value with nothing saved |
| `Override.GoodKeptIffClean` | planning_service/common/override.h:158-310 | A single step keeps that invariant exactly when it is not an explicit acquire by an idle scope of an owned target |
| `Override.CleanStepKeepsGood` | planning_service/common/override.h:246-310 | Each kind of step keeps exclusive ownership and temporary overrides |
| `Override.GoodForever` | planning_service/common/override.h:226-372 | The invariant holds after every clean run |
| `Override.ReleaseSucceeds` | planning_service/common/override.h:280-293 | Releasing and destroying cannot throw, and the holder leaves the target unowned with its initial value |
| `Override.MoveHandsOver` | planning_service/common/override.h:246-256 | A move leaves the target untouched, makes the new scope its holder and the old one idle, with the same token |
| `Override.HolderAfterStep` | planning_service/common/override.h:158-310 | Who manages the target after any clean step: nobody once its scope has been released or destroyed, the scope it was moved to, a scope that acquires while nobody does, or the same as before |
| `Override.ShownAfterStep` | planning_service/common/override.h:103-126 | What any clean step does to the value shown: an override stays unless its scope is released or destroyed, and then gives way to the initial value; a value that is not overridden changes only when the managing scope sets it |
| `Override.OverrideLasts` | planning_service/common/override.h:103-126 | An override lasts through any clean run in which its scope is not released or destroyed, whoever moves the scope or tries to set; the step that ends it brings the initial value back |
| `Override.SetSucceedsIff` | planning_service/common/override.h:103-112 | In any state a scope can set exactly when it has a target that it may change and that is not overridden; a second set is refused, and a refused set changes nothing |
| `Override.MovedFromScopeReacquires` | planning_service/common/override.h:251-255 | A moved-from scope keeps its token: it can become a second holder, and its release then ends the first holder's override |
| `Override.TimedOutScopeOverridesUnowned` | planning_service/common/override.h:300-310 | After an explicit acquire has thrown, the scope can override a target that nobody owns |
| `Override.SetIsTemporaryIffInitialized` | planning_service/common/override.h:103-126 | Acquire, set and release return the target to what it was exactly when it had a value; a value set on an uninitialised target stays |
| `Override.Overrideable.Of` | planning_service/common/override.h:158-200 | A target with a value is initialised, unowned and not overridden |
| `Override.Overrideable.Init` | planning_service/common/override.h:75-84 | Initialising works once |
| `Override.Overrideable.Assign` | planning_service/common/override.h:103-112 | Setting is the specified transition, or throws and changes nothing |
| `Override.Overrideable.Reinstate` | planning_service/common/override.h:118-126 | Restoring is the specified transition, or throws and changes nothing |
| `Override.Overrideable.TakeOwnership` | planning_service/common/override.h:158-189 | Owning is the specified transition, or throws and changes nothing |
| `Override.Overrideable.GiveUp` | planning_service/common/override.h:192-200 | Giving up ownership is the specified transition |
| `Override.ScopedOverride.Acquire` | planning_service/common/override.h:300-310 | Acquiring spends at most one token, and stores the target even when ownership times out |
| `Override.ScopedOverride.Set` | planning_service/common/override.h:365-372 | Setting runs the set callback exactly when it does not throw |
| `Override.ScopedOverride.Release` | planning_service/common/override.h:280-293 | Releasing restores and runs the restore callback exactly when the target is overridden, and then gives it up |
| `Override.ScopedOverride.MoveFrom` | planning_service/common/override.h:246-272 | Moving acquires with the other scope's token and clears the other's target |
| `Override.ScopedOverride.AssignFrom` | planning_service/common/override.h:258-272 | Move assignment from another scope releases first, and then acquires with the other scope's token and clears the other's target; a failure on the way leaves what was done |
| `OverrideObjects.Scopes.Perform` | planning_service/common/override.h:226-372 | Any call on any of the scope objects that share one target and one token counter takes the specified step |
| `OverrideObjects.Scopes.Run` | planning_service/common/override.h:226-372 | After any run of clean calls on scope objects, at most one object manages the target, with the owner's token; an overridden target is owned, and an unowned one has its initial value with nothing saved |
| `CollisionScope.Serve` | planning_service/motion/robot_constraints.cc:1857-1926 | Over any interleaving of requests, displays and releases by any number of users, each possibly throwing while the list of shapes is built, while a shape is added or tracked, or while a matrix is edited or installed, at every moment the checker shows what the overrides hold; a user who finds the bundle held changes nothing, and every release leaves all at rest. Unless a call throws between adding a geometry and tracking it, the checker's geometries are exactly the tracked ones at every moment, and none is left at rest |
| `CollisionScope.Take` | planning_service/draco/draco.cc:51-145 | One call of such a run, from any state between calls |
| `CollisionScope.CheckerShowsOverrides` | planning_service/motion/robot_constraints.cc:1857-1926 | Between calls the checker's padding is the override's current value, the tracked geometries are those of the current shape list, in the checker, and the filter is the current one while options are applied |
| `CollisionScope.LeftBehindIff` | planning_service/motion/robot_constraints.cc:1857-1919 | A checker without geometries has none again after a failed call exactly when no geometry was added without being tracked, or an earlier tracked shape has its name |
| `CollisionScope.RobotConstraints.AddCollisionShapes` | planning_service/motion/robot_constraints.cc:1869-1926 | The geometries added are those of the list, or of its part before the exception, under new ids, and each is tracked but one whose id is not found; the demand that an id is not tracked yet holds |
| `CollisionScope.RobotConstraints.RemoveAllAddedCollisionShapes` | planning_service/motion/robot_constraints.cc:1857-1867 | Exactly the geometries whose name is tracked are removed, and nothing is tracked any more |
| `CollisionScope.RobotConstraints.constructor` | planning_service/motion/robot_constraints.cc:248-253 | The filter override starts from the nominal matrix, the padding override from the installed one |
| `CollisionScope.RobotConstraints.AcquireScopes` | planning_service/draco/draco.cc:54-59 | At rest all three scopes are acquired; while another bundle is held none is, and nothing changes but the token counter |
| `CollisionScope.RobotConstraints.SetShapes` | planning_service/motion/robot_constraints.cc:1869-1926 | The override holds the list, whose geometries have been added and tracked as far as the exception allows |
| `CollisionScope.RobotConstraints.SetPadding` | planning_service/draco/draco.cc:68-128 | Setting the padding installs it in the checker unless installing throws |
| `CollisionScope.RobotConstraints.SetFilter` | planning_service/draco/draco.cc:71-140 | Setting the filter installs it in the checker unless installing throws |
| `CollisionScope.RobotConstraints.ReleaseScopes` | planning_service/common/override.h:275-293 | Destroying the scopes restores in reverse order what was overridden and runs the callbacks for it only; for shapes, exactly the tracked names are removed |
| `CollisionScope.RobotConstraints.Unwind` | planning_service/common/override.h:275-293 | Whichever of the three overrides have been set, destroying the scopes leaves all at rest |
| `CollisionScope.RobotConstraints.ApplyScopedCollisionOptions` | planning_service/draco/draco.cc:51-145 | From any state between calls: blocked exactly when a bundle is held, changing nothing; otherwise the checker shows the edited values, or, exactly when something throws, all is at rest but for a geometry that was added and not tracked; without options nothing but ownership changes |
| `CollisionScope.RobotConstraints.ApplySnapshotScoped` | planning_service/draco/visualizer/draco_visualizer.cc:19-49 | The visualizer's variant, with the same outcomes for a snapshot |
| `CollisionScope.RobotConstraints.ReleaseBundle` | planning_service/common/override.h:275-293 | Releasing any held bundle leaves all at rest; the geometries with tracked names are gone |
| `CollisionScope.RunVisualizer` | planning_service/draco/visualizer/draco_visualizer.cc:464-531 | Over any sequence of events reset-then-apply never blocks, and between events the checker shows the last kept snapshot or its base |
| `CollisionScope.Handle` | planning_service/draco/visualizer/draco_visualizer.cc:464-531 | One event: the identity button without a default configuration keeps the display, with one it resets, a click shows its snapshot |
| `CollisionScope.FilterSurvivesIffNominal` | planning_service/motion/robot_constraints.cc:251-252 | Applying and releasing options restores the checker's filter exactly when the installed filter was the nominal one |
| `HolonomicMapping.IndexBijection` | planning_service/motion/holonomic_mapping.cc:81-89 | The two index maps are inverse, order-preserving bijections between free positions and an initial range |
| `HolonomicMapping.RankCountsFree` | planning_service/motion/holonomic_mapping.cc:50-52 | The reduced dimension is the full one less the number of mimics |
| `HolonomicMapping.ReduceAfterLift` | planning_service/motion/holonomic_mapping.cc:145-193 | Reduce undoes Lift on every reduced vector, however the couplers are ordered |
| `HolonomicMapping.LiftSatisfiesCouplerIff` | planning_service/motion/holonomic_mapping.cc:188-191 | A lifted vector satisfies a coupler exactly when the mimicked position is free or smaller than its mimic, the ratio is zero, or the slope of the mimicked chain times the reduced value at its source, plus its constant, is zero |
| `HolonomicMapping.CouplerAlwaysHoldsIff` | planning_service/motion/holonomic_mapping.cc:188-191 | Every lifted vector satisfies a coupler exactly when the mimicked position is free or smaller, the ratio is zero, or slope and constant of the mimicked chain are both zero |
| `HolonomicMapping.LiftedIsAffine` | planning_service/motion/holonomic_mapping.cc:177-193 | Each lifted position is the affine function of one reduced value that the couplers of its chain determine |
| `HolonomicMapping.LiftSatisfiesCouplers` | planning_service/motion/holonomic_mapping.cc:177-193 | With well-ordered chains a lifted vector satisfies every coupler |
| `HolonomicMapping.ChainViolated` | planning_service/motion/holonomic_mapping.cc:188-191 | A position that mimics a larger one, which mimics a free position, violates its coupler unless a ratio or the free value is zero, when the second offset is zero |
| `HolonomicMapping.BadlyOrderedChain` | planning_service/motion/holonomic_mapping.cc:188-191 | A concrete chain against the index order is a valid mapping that lifts a vector to one that violates a coupler |
| `HolonomicMapping.LiftAfterReduceIff` | planning_service/motion/holonomic_mapping.cc:145-193 | Lift undoes Reduce exactly on the vectors in which each mimic follows the mimicked value, or zero where that is written later; with well-ordered chains, exactly on those that satisfy the couplers |
| `HolonomicMapping.LiftCommutesWithSlice` | planning_service/motion/holonomic_mapping.cc:275-306 | Slicing a lifted vector equals lifting the slice, for an instance that no coupler crosses |
| `HolonomicMapping.ReduceCommutesWithSlice` | planning_service/motion/holonomic_mapping.cc:254-273 | Slicing a reduced vector agrees with reducing the slice, for any couplers |
| `HolonomicMapping.IsolatedBlockHasFreePosition` | planning_service/motion/holonomic_mapping.cc:121-122 | The demand that an instance keeps a free position holds for well-ordered couplers inside it |
| `HolonomicMapping.IdleToRefLifted` | planning_service/motion/robot_model.cc:659-680 | Active instances keep their configuration and idle ones get the reference's |
| `HolonomicMapping.IdleToRefIdempotent` | planning_service/motion/robot_model.cc:659-680 | Doing it twice changes nothing more |
| `HolonomicObject.ReadCouplers` | planning_service/motion/holonomic_mapping.cc:60-80 | Reading succeeds exactly when no position mimics twice, and records each coupler |
| `HolonomicObject.HolonomicMap.Build` | planning_service/motion/holonomic_mapping.cc:48-143 | It fails only for a position that mimics twice or an instance without a free position; otherwise both index maps, globally and per instance, are right |
| `HolonomicObject.HolonomicMap.FillIndexMaps` | planning_service/motion/holonomic_mapping.cc:81-89 | One pass fills both maps, and the demand on the final counter holds |
| `HolonomicObject.HolonomicMap.BuildInstance` | planning_service/motion/holonomic_mapping.cc:91-125 | The instance's maps are right, or it has no free position |
| `HolonomicObject.HolonomicMap.Reduce` | planning_service/motion/holonomic_mapping.cc:145-156 | The reduction of the vector, or an error exactly for the wrong size |
| `HolonomicObject.HolonomicMap.Lift` | planning_service/motion/holonomic_mapping.cc:177-193 | The lift of the vector, or an error exactly for the wrong size |
| `HolonomicObject.HolonomicMap.LiftedIndex` | planning_service/motion/holonomic_mapping.cc:214-220 | The free position of that rank, or an error exactly when out of range |
| `HolonomicObject.HolonomicMap.ReducedIndex` | planning_service/motion/holonomic_mapping.cc:222-234 | The rank of a free position, or an error exactly for other positions |
| `HolonomicObject.HolonomicMap.ReduceInstance` | planning_service/motion/holonomic_mapping.cc:254-273 | The instance's part of the reduction of any full vector that holds the instance's positions, or an error exactly for an unknown instance or a wrong size; without couplers the argument unchecked |
| `HolonomicObject.HolonomicMap.LiftInstance` | planning_service/motion/holonomic_mapping.cc:275-306 | The instance's lift, or an error for an unknown instance or a wrong size; it writes out of range exactly when some mimicked position lies inside the instance and its mimic outside; without couplers the argument unchecked |
| `HolonomicObject.LiftInstanceWritesOutside` | planning_service/motion/holonomic_mapping.cc:297-302 | A mapping of two instances that is built without error and on which lifting the first instance writes out of range |
| `HolonomicObject.SetIdleModelsConfigToRef` | planning_service/motion/robot_model.cc:659-680 | In place of idle instances' free positions stands the reference, elsewhere the input |
| `RegionRepair.CalcClosestSatisfyingConfigurationOnEdge` | planning_service/motion/robot_constraints.cc:1104-1146 | The walk ends; it returns the first valid configuration among those it examines, or none exactly when all are invalid, and fails exactly when its end is invalid |
| `RegionRepair.WalkOfValid` | planning_service/motion/robot_constraints.cc:1113-1141 | From a valid configuration the walk returns that one |
| `RegionRepair.WalkEndsBetween` | planning_service/motion/robot_constraints.cc:1130-1141 | What the walk finds lies strictly between its two ends |
| `RegionRepair.WalkByDistance` | planning_service/motion/robot_constraints.cc:1113-1141 | Over at least one step the walk finds the valid point nearest to the sample among those a whole number of thousandths away from it on the way to the end, and nothing exactly when none of them is valid; over less it looks at the sample only |
| `RegionRepair.CutDepths` | planning_service/motion/iris/iris_builder.cc:778-787 | The plane through the configuration found lies strictly between the sample and the centre, for a positive definite ellipsoid matrix |
| `RegionRepair.CutIsNormalised` | planning_service/motion/iris/iris_builder.cc:778-787 | The added half-space has a unit normal, a positive multiple of the ellipsoid matrix applied to the vector from the centre, and its bounding plane is the margin away from the configuration found |
| `RegionRepair.CutIffDistance` | planning_service/motion/iris/iris_builder.cc:778-787 | A point on the centre's side of the tangent plane is kept exactly when it is at least the margin away from that plane, and a point beyond exactly when it is at most minus the margin away |
| `Vectors.DistanceIsHeight` | planning_service/motion/iris/iris_builder.cc:783-785 | The least Euclidean distance to the points of a plane with a unit normal is the height over it, up to its sign |
| `RegionRepair.CutRemovesSample` | planning_service/motion/iris/iris_builder.cc:778-795 | With a margin that is not negative the sample is strictly outside the added half-space |
| `RegionRepair.CentreSurvivesIff` | planning_service/motion/iris/iris_builder.cc:778-795 | The centre survives exactly when the margin is at most its Euclidean distance from the tangent plane through the configuration found |
| `RegionRepair.EdgeCutDepths` | planning_service/motion/iris/iris_builder.cc:744-801 | The sample of any edge repair is outside the added half-space by the margin and its Euclidean distance from the tangent plane, which is positive |
| `RegionRepair.FindCut` | planning_service/motion/iris/iris_builder.cc:744-801 | What is added is the half-space through the configuration found, or the linearised constraints; nothing exactly when nothing is found, an error exactly for an invalid centre |
| `RegionRepair.RepairRegionWithConfig` | planning_service/motion/iris/iris_builder.cc:728-813 | An invalid sample inside is cut off by what was found for it; the repair throws exactly when the centre is invalid for the edge method or what is left is empty. The result is a subset, unchanged unless repaired; with the edge method, a repaired one excludes the sample when the margin is not negative, and an invalid sample inside stays only when its walk met nothing valid |
| `RegionRepair.CentreKeptIff` | planning_service/motion/iris/iris_builder.cc:778-813 | After an edge repair the centre is inside exactly when it was and the margin is at most its Euclidean distance from the tangent plane |
| `RegionRepair.RepairFinds` | planning_service/motion/iris/iris_builder.cc:744-813 | An invalid sample of the region is cut at what the method finds: the closest valid configuration, or the end of the walk to the centre. The old half-spaces stay; one is added through the ellipsoid, and the linearised constraints otherwise; only an empty result throws |
| `RegionRepair.RepairIffDistance` | planning_service/motion/iris/iris_builder.cc:778-813 | What any repair through the ellipsoid leaves: of the region, exactly the points that the margin and their Euclidean distance from the tangent plane allow |
| `RegionRepair.RepairRegionViaSampling` | planning_service/motion/iris/iris_builder.cc:815-875 | It throws at once exactly when the ellipsoid is asked for and its centre is invalid; otherwise the result is the last region of the loop, or what the first throwing repair throws, and a repair is reported exactly when one was triggered. With edge cuts and a margin that is not negative, an invalid configuration is in the final region only when its walk met nothing valid at its turn |
| `RegionRepair.RepairAll` | planning_service/motion/iris/iris_builder.cc:856-867 | The loop visits every configuration in order, each region following from the one before by one repair, unless one throws |
| `RegionRepair.LoopShrinks` | planning_service/motion/iris/iris_builder.cc:856-867 | Every region of the loop is a subset of every earlier one |
| `RegionRepair.TriggeredIsCutForGood` | planning_service/motion/iris/iris_builder.cc:856-867 | A configuration that triggers a repair is outside all later regions; one that does not leaves the region as it is, being outside, valid, or blind to anything valid |
| `KinematicChains.FindParentModelIndex` | planning_service/motion/robot_model.cc:185-199 | The parent instance of the first joint that leaves the model, or an error exactly when no joint leaves it |
| `KinematicChains.GroupKinematicChains` | planning_service/motion/robot_model.cc:201-260 | It succeeds exactly when every instance has a parent with a smaller index, and then environment and chains are as specified; the error names the first instance that breaks this |
| `KinematicChains.ChainsPartition` | planning_service/motion/robot_model.cc:203-260 | Environment and chains partition the instances; each chain is one movable root attached to the environment and everything that descends from it |
| `KinematicChains.DescendsFromRootIff` | planning_service/motion/robot_model.cc:218-252 | An instance descends from a root exactly when climbing from it leaves the chain at that root |
| `KinematicChains.DofMask` | planning_service/motion/robot_model.cc:329-333 | The union of the instances' masks selects exactly the positions of the chain's instances |
| `KinematicChains.ArmsCoverPositionsIff` | planning_service/motion/robot_model.cc:329-335 | Arm masks are disjoint, and cover every position exactly when the default instance has none |
| `CliqueGenerator.MakeAdjacencyMatrix` | planning_service/motion/iris/clique_generator.cc:7-41 | A symmetric matrix without loops whose entries are exactly the pairs that pass the edge check |
| `CliqueGenerator.FindUncoveredVertices` | planning_service/motion/iris/clique_generator.cc:43-60 | Exactly the vertices outside every set, in ascending order |
| `CliqueGenerator.MakeSubgraph` | planning_service/motion/iris/clique_generator.cc:134-155 | The subgraph of the visible vertices in which the query sees everything |
| `CliqueGenerator.DominatingVertexInClique` | planning_service/motion/iris/clique_generator.cc:160-163 | A vertex adjacent to all others lies in every maximal clique |
| `CliqueGenerator.QueriesInClique` | planning_service/motion/iris/clique_generator.cc:160-163 | So the demands that the last vertices are in the clique never fail |
| `CliqueGenerator.SelectionIsMaximal` | planning_service/motion/iris/clique_generator.cc:173-186 | The clique read back is pairwise adjacent in the original graph, in order, and no visible vertex could join it |
| `CliqueGenerator.CliqueAmongVisible` | planning_service/motion/iris/clique_generator.cc:134-188 | With a solver that returns maximal cliques, neither the membership nor the column-count demand fails; the vertices read back are those that the solver selects, a maximal clique, and nothing is returned exactly when they and the query are too few |
| `CliqueGenerator.AroundVertex` | planning_service/motion/iris/clique_generator.cc:89-196 | Around a vertex: of the uncovered vertices adjacent to it, a maximal clique; nothing exactly when there are at most as many of these as the dimension, or the clique with the vertex is too small |
| `CliqueGenerator.AroundConfig` | planning_service/motion/iris/clique_generator.cc:198-282 | The same around a configuration that need not be a vertex, among the uncovered vertices to which the edge from it is free |
| `CliqueGenerator.AroundEdge` | planning_service/motion/iris/clique_generator.cc:284-425 | The same around an edge of the graph; nothing exactly when its vertices are not adjacent, no vertex is uncovered, or too few are seen or chosen |
| `CliqueGenerator.AroundConfigEdge` | planning_service/motion/iris/clique_generator.cc:427-526 | The same around the edge between two configurations; nothing exactly when the edge is not free, or too few are seen or chosen |
| `RegionIndex.IrisRegionsAdapter.AddRegion` | planning_service/motion/iris/iris_adapter.cc:36-84 | The region gets its position as index, and a complete index stays complete; it fails exactly when there are regions already and one of them, or the new one, has no bounding box |
| `RegionIndex.IndexIsBatch` | planning_service/motion/iris/iris_adapter.cc:62-82 | A complete index lists the same intersections, each once, as a computation over all pairs |
| `RegionIndex.AddedIndexed` | planning_service/motion/iris/iris_adapter.cc:62-82 | Intersecting the new region with the earlier ones keeps the index complete, in whatever order they are reported |
| `RegionIndex.IrisRegionsAdapter.CompleteLoad` | planning_service/motion/iris/iris_adapter.h:214-239 | Rebuilding keeps order, bodies, names and hashes of the regions and yields a complete index; otherwise nothing changes |
| `RegionIndex.IrisRegionsAdapter.CalcGraphVizString` | planning_service/motion/iris/iris_adapter.cc:97-112 | The text of the specified lines; it fails exactly without an index or for an intersection that names a missing region |
| `RegionIndex.PrintedOnce` | planning_service/motion/iris/iris_adapter.cc:99-109 | Every region is printed once, every intersection of two different printed regions once, and no other |
| `RegionIndex.LinesInOrder` | planning_service/motion/iris/iris_adapter.cc:97-112 | The lines come region by region: a region before the intersections printed under it, these in the order of the index, and all before the next region |
| `RegionIndex.TextOfLines` | planning_service/motion/iris/iris_adapter.cc:97-112 | Each line stands where the text of the lines before it ends: a region's name, or the names of the two regions that intersect |
| `RegionIndex.CompletePrintedOnce` | planning_service/motion/iris/iris_adapter.cc:97-112 | Of a complete index every intersection is printed exactly once |
| `BestApproach.TimeOfArmsCollision` | planning_service/draco/planner/solve_generalized_multimodal.cc:10-45 | The real-valued sampling loop ends; it returns the first whole number of steps at which the arms collide while some trajectory lasts, and nothing exactly when there is none |
| `BestApproach.FindCollision` | planning_service/draco/planner/solve_generalized_multimodal.cc:113-145 | The same, and the demand that trajectories have started fails exactly when one starts late, so at time zero or never |
| `BestApproach.Candidates` | planning_service/draco/planner/solve_generalized_multimodal.cc:175-186 | The candidate times, as the program computes them |
| `BestApproach.CandidatesNonIncreasingIff` | planning_service/draco/planner/solve_generalized_multimodal.cc:175-186 | The candidates include both ends, and they never increase and stay between them exactly when the latest is not before the earliest |
| `BestApproach.CandidatesEvenlySpaced` | planning_service/draco/planner/solve_generalized_multimodal.cc:175-186 | Neighbouring candidates are as far apart as the ends divided by the number of gaps |
| `BestApproach.BestApproachTrajectory` | planning_service/draco/planner/solve_generalized_multimodal.cc:78-344 | Whatever is returned has no sampled collision with the same step; a trajectory without collision comes back unchanged; nothing is returned when the collision less the buffer is before the minimum time; otherwise the first of the candidates that passes, which run at equal distances from the collision less the buffer, or the maximum time, to the minimum time or zero |
| `BestApproach.TryCandidates` | planning_service/draco/planner/solve_generalized_multimodal.cc:188-344 | The first candidate that passes decides; nothing is returned exactly when all collide |
| `BestApproach.LatestIsUsed` | planning_service/draco/planner/solve_generalized_multimodal.cc:147-186 | With a minimum time and a maximum not before it, the time used is the latest candidate that passes, within the limits and before the collision less the buffer |
| `BestApproach.CandidatesMayRise` | planning_service/draco/planner/solve_generalized_multimodal.cc:173-186 | Without a minimum time an early collision makes the candidates rise |
| `BestApproach.HoldKeepsOthers` | planning_service/draco/planner/solve_generalized_multimodal.cc:63-65 | Holding the movable arms changes no other model's trajectory and adds or loses none |
| `BestApproach.RetimingFailureKeepsSlices` | planning_service/draco/planner/solve_generalized_multimodal.cc:281-300 | For any arm list and any arm in it: its moving instances are sliced at the given time or at their own end if that is earlier; when retiming these slices fails the candidate is not skipped, and they go forward; when it succeeds, what it returns replaces them |
| `BestApproach.HoldArmsExactly` | planning_service/draco/planner/solve_generalized_multimodal.cc:188-315 | Each arm contributes its slices or what retiming made of them, whatever becomes of the other arms, and every other trajectory stays |
| `BestApproach.HoldSucceedsIff` | planning_service/draco/planner/solve_generalized_multimodal.cc:188-315 | Holding arms succeeds exactly when every moving instance has a trajectory, so failed retiming plays no part |
| `BestApproach.FailedRetimingStillPasses` | planning_service/draco/planner/solve_generalized_multimodal.cc:281-287 | A query whose only retiming fails and whose candidate passes all the same |
| `SequentialAnchors.TryIsChain` | planning_service/draco/planner/solve_generalized_multimodal.cc:796-862 | A seed's configurations form a chain, each the answer from the one before, ended by the first failure; the models held fixed are those of all conflicts of the chain, and it counts as conflicted exactly when there is one |
| `SequentialAnchors.AttemptIff` | planning_service/draco/planner/solve_generalized_multimodal.cc:796-862 | Nothing else has this property |
| `SequentialAnchors.TrySeed` | planning_service/draco/planner/solve_generalized_multimodal.cc:791-862 | The loop over the anchors computes the attempt |
| `SequentialAnchors.SolveSequentialAnchors` | planning_service/draco/planner/solve_generalized_multimodal.cc:745-924 | The loop over the seeds decides as specified, in both modes |
| `SequentialAnchors.StrictOutcome` | planning_service/draco/planner/solve_generalized_multimodal.cc:784-910 | In strict mode the first seed that does not merely fail decides, for success or failure |
| `SequentialAnchors.StrictResult` | planning_service/draco/planner/solve_generalized_multimodal.cc:784-924 | The whole of strict mode, said of the seeds' attempts alone: the first seed that does not merely fail meets an unavoidable collision, cannot be deconflicted, or gives its chain, moved if it met a conflict; without such a seed all seeds have failed |
| `SequentialAnchors.StrictSuccess` | planning_service/draco/planner/solve_generalized_multimodal.cc:863-909 | A success in strict mode has one configuration per anchor, from the earliest seed resolving all of them: its chain if that meets no conflict, or the chain moved as a whole so that the first configuration is where deconfliction with the models of all its conflicts wants it |
| `SequentialAnchors.StrictSuccessIff` | planning_service/draco/planner/solve_generalized_multimodal.cc:784-924 | Strict mode succeeds exactly when some seed resolves every anchor, no earlier one meets an unavoidable collision, and deconfliction, when needed, works |
| `SequentialAnchors.PassedOverIff` | planning_service/draco/planner/solve_generalized_multimodal.cc:863-910 | In partial mode a seed is passed over exactly when it meets a hopeless conflict, or resolves nothing while no earlier one did; then the longest list so far is remembered |
| `SequentialAnchors.PartialOutcome` | planning_service/draco/planner/solve_generalized_multimodal.cc:784-924 | Partial mode for any seeds: the first that is not passed over decides with its list, and if there is none, the first longest list is returned, or the failure of all seeds when it is empty |
| `SequentialAnchors.PartialResult` | planning_service/draco/planner/solve_generalized_multimodal.cc:784-924 | The whole of partial mode, said of the attempts alone: the first seed that can be deconflicted, or meets no conflict, and that or an earlier seed resolves something, gives its chain, moved if it met a conflict; without such a seed the first of the longest lists is returned, or all seeds have failed |
| `SequentialAnchors.PartialEmptyIff` | planning_service/draco/planner/solve_generalized_multimodal.cc:863-875 | Partial mode succeeds with no configuration exactly when the first seed that resolves anything meets a hopeless conflict and the first later one that does not resolves nothing |
| `SequentialAnchors.PartialLongestIff` | planning_service/draco/planner/solve_generalized_multimodal.cc:863-924 | Some seed's list is longer than a partial answer exactly when an earlier seed with a hopeless conflict, or a later seed that is never tried, gets further than the deciding one; never when that one resolves every anchor |
| `SequentialAnchors.PartialIsNotLongest` | planning_service/draco/planner/solve_generalized_multimodal.cc:863-875 | A problem on which partial mode does not return the longest partial list |
| `SequentialAnchors.PartialCanBeEmpty` | planning_service/draco/planner/solve_generalized_multimodal.cc:863-875 | A problem on which partial mode succeeds with no configuration |
| `PlanLabels.SetResourcesFromNewResult` | planning_service/draco/planner/solve_plan_impl.cc:226-274 | Each planned resource gets the label that its arm and path call for, and no other label changes |
| `PlanLabels.SetResourcesFromUpdatedResult` | planning_service/draco/planner/solve_plan_impl.cc:278-296 | Each planned resource is labelled update, and no other label changes |
| `PlanLabels.MergeRunning` | planning_service/draco/planner/solve_plan_impl.cc:523-623 | Rejected exactly when a new plan targets a running resource; otherwise labels and merged system are as specified, whatever the order of the running resources |
| `PlanLabels.OthersAreConstant` | planning_service/draco/planner/solve_plan_impl.cc:631-669 | The test that skips the collision check holds exactly when every running resource of the model outside the updated arm rests |
| `PlanLabels.MovableArms` | planning_service/draco/planner/solve_plan_impl.cc:624-630 | Exactly the arms of which no resource is running |
| `PlanLabels.SolvePlanImpl` | planning_service/draco/planner/solve_plan_impl.cc:517-749 | It succeeds, whole or stopped short, exactly under the specified conditions, with the plan, the merged system or the best approach as trajectory; each failure status has its exact condition; and it aborts on a running resource without an arm, or on an update without an arm, and always does so unless a new plan targets a running resource |
| `PlanLabels.OverlaidIff` | planning_service/draco/planner/solve_plan_impl.cc:523-623 | Exactly one system holds the plan, the running resources of the model outside it as they are, and for a new plan's resources that are running and have not ended the rest of their running trajectory: the merged one |
| `PlanLabels.OverlayDecides` | planning_service/draco/planner/solve_plan_impl.cc:624-749 | When a plan has to be checked, that system decides the outcome: it is the trajectory of a whole success, and the best approach to it that of one that stops short |
| `PlanLabels.CheckMerged` | planning_service/draco/planner/solve_plan_impl.cc:624-749 | The checks after merging: skipped for an update when all else rests, then collisions, the best approach, and the time |
| `PlanLabels.SolvePlan` | planning_service/draco/planner/draco_planner.cc:201-304 | With the same statuses and aborts. What is said of a plan that has to be checked is decided by the system that overlays the running trajectories: a whole success only if it does not collide and is in time, a collision failure only if it collides; a plan that has not to be checked succeeds. A success returns exactly the planned resources that are updated, of a targeted arm, or moving without already running, labelled accordingly, each with its trajectory in the solution; a new plan fails for an active resource exactly when a planned running resource is of a targeted arm |
| `PlanLabels.SuccessIsEmptyIff` | planning_service/draco/planner/draco_planner.cc:276-303 | A success returns nothing exactly when no planned resource is updated, targeted, or moving without already running |
| `VisualizerQueue.LabelsDistinct` | planning_service/draco/visualizer/draco_visualizer.h:100-101 | Labels with different counters differ, whatever their texts |
| `VisualizerQueue.ValueOfDecimal` | planning_service/draco/visualizer/draco_visualizer.h:100-101 | A decimal numeral determines its number |
| `VisualizerQueue.DracoVisualizer.constructor` | planning_service/draco/visualizer/draco_visualizer.h:135 | The invariant holds at the start, whatever the capacity |
| `VisualizerQueue.DracoVisualizer.Add` | planning_service/draco/visualizer/draco_visualizer.h:79-113 | The queue never exceeds the capacity and keeps the most recent entries; every entry added is pending, dropped or drained; an empty queue is popped exactly when the capacity is zero |
| `VisualizerQueue.DracoVisualizer.DrainAndEvict` | planning_service/draco/visualizer/draco_visualizer.cc:421-443 | One pass drains all pending entries and keeps the most recent ones; the demand that an evicted label has a button holds |
| `VisualizerQueue.DracoVisualizer.LabelsAreRecent` | planning_service/draco/visualizer/draco_visualizer.cc:403-443 | The map's keys are the listed labels, which are distinct, each with a button |
| `VisualizerQueue.DracoVisualizer.LabelsOfLatest` | planning_service/draco/visualizer/draco_visualizer.cc:403-443 | The listed labels are those of the entries drained last, in order: the counter, a colon and the caller's text, each standing for its entry's item |
| `VisualizerQueue.DracoVisualizer.Play` | planning_service/draco/visualizer/draco_visualizer.cc:484-526 | While an item plays no label button is visible, afterwards all of them are again; the demand that each exists holds |
| `AccelerationSpline.BuildSpline` | planning_service/draco/planner/solve_max_cartesian_acceleration.cc:123-162 | For every cycle count the pieces are those of the back-and-forth motion, cycle after cycle |
| `AccelerationSpline.ReversePieceRunsBackwards` | planning_service/draco/planner/solve_max_cartesian_acceleration.cc:146-148 | Reversing time runs a piece backwards, with the opposite velocity |
| `AccelerationSpline.ReversedHalf` | planning_service/draco/planner/solve_max_cartesian_acceleration.cc:146-149 | The reversed and shifted half continues the motion where the first half ends |
| `AccelerationSpline.ContinuousAtBreaks` | planning_service/draco/planner/solve_max_cartesian_acceleration.cc:142-162 | Position and velocity agree at every break |
| `AccelerationSpline.ConstantAcceleration` | planning_service/draco/planner/solve_max_cartesian_acceleration.cc:123-149 | Each piece lasts one period of constant acceleration: a, -a, -a and a in turn |
| `AccelerationSpline.RestsBetweenCycles` | planning_service/draco/planner/solve_max_cartesian_acceleration.cc:153-162 | At each multiple of four periods the joint rests at its start |
| `AccelerationSpline.Duration` | planning_service/draco/planner/solve_max_cartesian_acceleration.cc:150-162 | The spline lasts exactly four periods per cycle |
| `AccelerationSpline.MotionBounds` | planning_service/draco/planner/solve_max_cartesian_acceleration.cc:91-98 | Throughout, the joint stays between its start and the peak, and its velocity between the extremes |
| `AccelerationSpline.VelocityCheckIsExact` | planning_service/draco/planner/solve_max_cartesian_acceleration.cc:97-107 | The velocity check passes exactly when the motion keeps the velocity limit |
| `AccelerationSpline.WithinLimitsIff` | planning_service/draco/planner/solve_max_cartesian_acceleration.cc:98-122 | The motion keeps the joint limits exactly when its start and its peak do |
| `AccelerationSpline.GuardMissesPeak` | planning_service/draco/planner/solve_max_cartesian_acceleration.cc:98-122 | A motion that passes the position check and leaves the limits |
| `AccelerationSpline.GuardSufficesIff` | planning_service/draco/planner/solve_max_cartesian_acceleration.cc:98-122 | Passing the check is enough exactly when the peak is within the limit on its side |

## Left out

- Threads: every critical section and every override call is one atomic step; waiting with a timeout is
  a step that happens or throws. The token counter does not wrap around.
- Callbacks are not stored closures: a bundle of scopes carries a flag that says whether its callbacks
  were registered, and the calls dispatch on it. Moving a bundle's scopes into the returned object is
  covered by `Override.MoveHandsOver` rather than repeated in `CollisionScope`.
- A move from a scope without a target dereferences null, and a destructor must not throw; such steps
  are not enabled in `Override`.
- The list of paddings is an arbitrary edit of the cloned matrix: the code sorts a copy and applies the
  unsorted list (draco.cc:100-123), so no precedence of link-level paddings is claimed.
- Removing collision-free subtrees keeps body indices in `KinematicHash`; renumbering is not modelled.
- The contiguity check of an instance's position mask is replaced by blocks of positions.
- LiftAutoDiff, and the mappings of piecewise polynomials that are not implemented in the program.
- `RegionRepair.RepairRegionWithConfig`: promises that the sample is cut off for the edge method only;
  with the optimising method nothing ties the point found to the segment, so no cut is promised.
- `RegionRepair.RepairIffDistance`: excludes a configuration found that is the ellipsoid's centre itself, for
  which the program divides zero by zero (iris_builder.cc:783-785) and the model leaves the offset as it is.
- The Euclidean norm is a function with the contract of a norm, and positive definiteness is stated
  through the inner product. Samples are given, not drawn; that drawing them ends is not claimed.
- `CliqueGenerator.AroundVertex`: returns the chosen vertices rather than the ellipsoid around their
  columns; the same holds for the other three queries, whose last columns are the query itself.
- `BestApproach.RetimingFailureKeepsSlices`: is stated for arms whose instances have different names
  and a retiming that returns trajectories of the arm it was given, as the program's names and
  conversions make them.
- Slicing and retiming of trajectories, solving for plans, resolving and deconflicting anchors: functions.
- FindActiveArmIndex, PrependTrajectoryWithConstant, latency estimation, and the wall-clock test other
  than as a flag (solve_plan_impl.cc).
- SetIdleArmsConfigToRef, ToGeneralizedPosition and ToSystemConf: conversions by name of the same kind
  as the instance blocks already treated.
- CheckSatisfied, CheckSatisfiedEdge and GetVertexIndexFromConfiguration: a conjunction of checks, a
  sampled conjunction and a running minimum, which would only add easy members.
- The joints of the acceleration spline move independently, so one joint is modelled; the uniform
  timing that goes with the path is not.
- The poses, frames and drawing of added shapes: a geometry is its name and frame under an id. The
  geometries that the checker has of its own are not listed.
- The visualizer's drawing, sliders, frame axes and colours, and exceptions thrown while displaying.
- Rounding of floating-point numbers, remote procedure calls, serialisation formats, files and logging.
