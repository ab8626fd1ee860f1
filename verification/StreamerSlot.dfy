/** The one-slot takeover protocol of the configuration stream.

    A handler takes the slot when it is free; otherwise it cancels the incumbent and waits, with
    the mutex released, until the name is cleared or five seconds have passed, after which it
    takes the slot by force. Every handler clears the slot when its read loop ends, whoever holds
    it then. Each critical section is one step; any number of handlers interleave. */
module StreamerSlot {
  import opened Wrappers

  type Handler = nat

  datatype Phase = Waiting | Streaming | Gone

  /** The two fields of the slot, and the history the properties speak about. */
  datatype State = State(
    name: string,
    ctx: Option<Handler>,
    phase: map<Handler, Phase>,
    peer: map<Handler, string>,
    cancelled: set<Handler>,
    takeovers: nat)

  const INITIAL := State("", None, map[], map[], {}, 0)

  datatype Step =
    | Arrive(h: Handler, peer: string)
    | Wake(h: Handler)
    | Timeout(h: Handler)
    | Exit(h: Handler)

  predicate InPhase(s: State, h: Handler, p: Phase) {
    h in s.phase && s.phase[h] == p
  }

  predicate Enabled(s: State, step: Step) {
    match step
    case Arrive(h, _) => h !in s.phase && h !in s.peer
    case Wake(h) => InPhase(s, h, Waiting) && h in s.peer && s.name == ""
    case Timeout(h) => InPhase(s, h, Waiting) && h in s.peer && s.name != ""
    case Exit(h) => InPhase(s, h, Streaming)
  }

  /** The handler stores its own peer and context, whatever was there before. */
  function Take(s: State, h: Handler, peer: string): State {
    s.(name := peer,
       ctx := Some(h),
       phase := s.phase[h := Streaming],
       takeovers := if s.ctx.None? then s.takeovers else s.takeovers + 1)
  }

  function Next(s: State, step: Step): State
    requires Enabled(s, step)
  {
    match step
    case Arrive(h, peer) =>
      var t := s.(peer := s.peer[h := peer]);
      if s.ctx.None? then Take(t, h, peer)
      else t.(phase := t.phase[h := Waiting], cancelled := t.cancelled + {s.ctx.value})
    case Wake(h) => Take(s, h, s.peer[h])
    case Timeout(h) => Take(s, h, s.peer[h])
    case Exit(h) => s.(name := "", ctx := None, phase := s.phase[h := Gone])
  }

  // ---------- Runs ----------

  ghost predicate ValidRun(s: State, run: seq<Step>)
    decreases |run|
  {
    run == [] || (Enabled(s, run[0]) && ValidRun(Next(s, run[0]), run[1..]))
  }

  ghost function After(s: State, run: seq<Step>): State
    requires ValidRun(s, run)
    decreases |run|
  {
    if run == [] then s else After(Next(s, run[0]), run[1..])
  }

  /** No handler of the run connects from an empty peer name. */
  ghost predicate PeersNamed(run: seq<Step>) {
    forall k :: 0 <= k < |run| && run[k].Arrive? ==> run[k].peer != ""
  }

  ghost predicate NoForcedTakeover(run: seq<Step>) {
    forall k :: 0 <= k < |run| ==> !run[k].Timeout?
  }

  function ForcedTakeovers(run: seq<Step>): nat {
    if run == [] then 0 else (if run[0].Timeout? then 1 else 0) + ForcedTakeovers(run[1..])
  }

  // ---------- Invariants ----------

  ghost function StreamingHandlers(s: State): set<Handler> {
    set h | h in s.phase && s.phase[h] == Streaming
  }

  ghost function Holder(s: State): set<Handler> {
    if s.ctx.None? then {} else {s.ctx.value}
  }

  /** The slot names a handler that streams and has not exited; TryCancel reaches a live context. */
  ghost predicate SlotIsLive(s: State) {
    && (s.ctx.Some? ==> InPhase(s, s.ctx.value, Streaming) && s.ctx.value in s.peer && s.name == s.peer[s.ctx.value])
    && (s.ctx.None? ==> s.name == "")
    && s.phase.Keys == s.peer.Keys
    && s.cancelled <= s.phase.Keys
    && (forall h :: h in s.cancelled ==> !InPhase(s, h, Waiting))
  }

  ghost predicate PeersKnown(s: State) {
    forall h :: h in s.peer ==> s.peer[h] != ""
  }

  /** Handlers that still stream although the slot does not name them. */
  ghost function Orphans(s: State): set<Handler> {
    StreamingHandlers(s) - Holder(s)
  }

  ghost predicate Exclusive(s: State) {
    Orphans(s) == {}
  }

  lemma LiveStep(s: State, step: Step)
    requires SlotIsLive(s) && Enabled(s, step)
    ensures SlotIsLive(Next(s, step))
    ensures PeersKnown(s) && (step.Arrive? ==> step.peer != "") ==> PeersKnown(Next(s, step))
  {
  }

  lemma ExitOrphans(s: State, h: Handler)
    requires SlotIsLive(s) && Enabled(s, Exit(h))
    ensures |Orphans(Next(s, Exit(h)))| <= |Orphans(s)|
  {
    var t := Next(s, Exit(h));
    assert StreamingHandlers(t) == StreamingHandlers(s) - {h};
    if h in Holder(s) {
      assert Orphans(t) == Orphans(s);
    } else {
      assert h in Orphans(s);
      assert Orphans(t) == (Orphans(s) - {h}) + Holder(s);
      UnionSize(Orphans(s) - {h}, Holder(s));
    }
  }

  lemma UnionSize(a: set<Handler>, b: set<Handler>)
    ensures |a + b| <= |a| + |b|
  {
    assert |a + b| == |a| + |b| - |a * b|;
  }

  lemma TakeOrphans(s: State, h: Handler, peer: string)
    requires !InPhase(s, h, Streaming) && Holder(s) <= StreamingHandlers(s)
    ensures Orphans(Take(s, h, peer)) == Orphans(s) + Holder(s)
  {
    var t := Take(s, h, peer);
    assert StreamingHandlers(t) == StreamingHandlers(s) + {h};
  }

  /** A step leaves at most one more orphan, and only when it takes a slot that is held. */
  lemma OrphansStep(s: State, step: Step)
    requires SlotIsLive(s) && Enabled(s, step)
    ensures |Orphans(Next(s, step))| + s.takeovers <= |Orphans(s)| + Next(s, step).takeovers
  {
    match step
    case Exit(h) => ExitOrphans(s, h);
    case Wake(h) => TakeOrphans(s, h, s.peer[h]); UnionSize(Orphans(s), Holder(s));
    case Timeout(h) => TakeOrphans(s, h, s.peer[h]); UnionSize(Orphans(s), Holder(s));
    case Arrive(h, peer) => ArriveOrphans(s, h, peer);
  }

  lemma ArriveOrphans(s: State, h: Handler, peer: string)
    requires SlotIsLive(s) && Enabled(s, Arrive(h, peer))
    ensures Orphans(Next(s, Arrive(h, peer))) == Orphans(s) && Next(s, Arrive(h, peer)).takeovers == s.takeovers
  {
    if s.ctx.None? {
      TakeOrphans(s.(peer := s.peer[h := peer]), h, peer);
    } else {
      assert StreamingHandlers(Next(s, Arrive(h, peer))) == StreamingHandlers(s);
    }
  }

  /** With named peers a held slot is taken only by a timed-out waiter. */
  lemma TakeoverStep(s: State, step: Step)
    requires SlotIsLive(s) && PeersKnown(s) && Enabled(s, step)
    ensures Next(s, step).takeovers == s.takeovers + if step.Timeout? then 1 else 0
  {
  }

  /** From a state where the slot names every streaming handler, a step keeps that exactly when it
      is not a forced takeover; a forced takeover leaves the incumbent streaming unnamed. */
  lemma ExclusiveKeptUnlessForced(s: State, step: Step)
    requires SlotIsLive(s) && PeersKnown(s) && Exclusive(s) && Enabled(s, step)
    ensures Exclusive(Next(s, step)) <==> !step.Timeout?
    ensures step.Timeout? ==> StreamingHandlers(Next(s, step)) == {s.ctx.value, step.h} && s.ctx.value != step.h
  {
    OrphansStep(s, step);
    TakeoverStep(s, step);
    if step.Timeout? {
      assert s.ctx.value in Orphans(Next(s, step));
      assert StreamingHandlers(s) == {s.ctx.value};
      assert StreamingHandlers(Next(s, step)) == StreamingHandlers(s) + {step.h};
    }
  }

  // ---------- Safety over whole runs ----------

  lemma {:induction false} RunInvariant(s: State, run: seq<Step>)
    requires SlotIsLive(s) && ValidRun(s, run)
    ensures SlotIsLive(After(s, run))
    ensures |Orphans(After(s, run))| + s.takeovers <= |Orphans(s)| + After(s, run).takeovers
    ensures PeersKnown(s) && PeersNamed(run)
            ==> PeersKnown(After(s, run)) && After(s, run).takeovers == s.takeovers + ForcedTakeovers(run)
    decreases |run|
  {
    if run != [] {
      LiveStep(s, run[0]);
      OrphansStep(s, run[0]);
      if PeersKnown(s) && PeersNamed(run) {
        TakeoverStep(s, run[0]);
        assert forall k :: 0 <= k < |run[1..]| ==> run[1..][k] == run[k + 1];
      }
      RunInvariant(Next(s, run[0]), run[1..]);
    }
  }

  lemma InitiallyEmpty()
    ensures SlotIsLive(INITIAL) && PeersKnown(INITIAL) && Orphans(INITIAL) == {} && INITIAL.takeovers == 0
  {
  }

  /** In every run, forced takeovers included, the slot is free or belongs to a handler that has not
      exited, so the context that an arriving handler cancels is valid. */
  lemma SlotNeverDangles(run: seq<Step>)
    requires ValidRun(INITIAL, run)
    ensures var s := After(INITIAL, run);
            s.ctx.Some? ==> InPhase(s, s.ctx.value, Streaming)
  {
    InitiallyEmpty();
    RunInvariant(INITIAL, run);
  }

  /** In every run the name is empty exactly when the slot is free or its holder's peer has no name. */
  lemma NameEmptyIff(run: seq<Step>)
    requires ValidRun(INITIAL, run)
    ensures var s := After(INITIAL, run);
            s.name == "" <==> s.ctx.None? || (s.ctx.value in s.peer && s.peer[s.ctx.value] == "")
  {
    InitiallyEmpty();
    RunInvariant(INITIAL, run);
  }

  /** The name is empty exactly when the slot is free, in every run whose peers have names. */
  lemma NameEmptyIffFree(run: seq<Step>)
    requires ValidRun(INITIAL, run) && PeersNamed(run)
    ensures After(INITIAL, run).name == "" <==> After(INITIAL, run).ctx == None
  {
    InitiallyEmpty();
    RunInvariant(INITIAL, run);
  }

  /** An unnamed peer breaks that equivalence at once. */
  lemma UnnamedPeerHidesItsSlot(h: Handler)
    ensures ValidRun(INITIAL, [Arrive(h, "")])
    ensures After(INITIAL, [Arrive(h, "")]).name == "" && After(INITIAL, [Arrive(h, "")]).ctx == Some(h)
  {
    var s := Next(INITIAL, Arrive(h, ""));
    assert ValidRun(s, []) && After(s, []) == s;
  }

  /** In every run the handlers that stream without holding the slot are at most as many as the
      forced takeovers so far. */
  lemma OrphansBoundedByForcedTakeovers(run: seq<Step>)
    requires ValidRun(INITIAL, run) && PeersNamed(run)
    ensures |Orphans(After(INITIAL, run))| <= ForcedTakeovers(run)
    ensures |StreamingHandlers(After(INITIAL, run))| <= ForcedTakeovers(run) + 1
  {
    InitiallyEmpty();
    RunInvariant(INITIAL, run);
    var s := After(INITIAL, run);
    assert StreamingHandlers(s) == Orphans(s) + Holder(s);
    assert Orphans(s) !! Holder(s);
  }

  lemma {:induction false} NoneForced(run: seq<Step>)
    requires NoForcedTakeover(run)
    ensures ForcedTakeovers(run) == 0
    decreases |run|
  {
    if run != [] {
      assert forall k :: 0 <= k < |run[1..]| ==> run[1..][k] == run[k + 1];
      NoneForced(run[1..]);
    }
  }

  /** Without forced takeovers at most one handler streams, and the slot holds its context and name. */
  lemma OneStreamerWithoutForcedTakeover(run: seq<Step>)
    requires ValidRun(INITIAL, run) && PeersNamed(run) && NoForcedTakeover(run)
    ensures var s := After(INITIAL, run);
            forall h :: InPhase(s, h, Streaming) ==> s.ctx == Some(h) && h in s.peer && s.name == s.peer[h]
  {
    InitiallyEmpty();
    NoneForced(run);
    OrphansBoundedByForcedTakeovers(run);
    RunInvariant(INITIAL, run);
    var s := After(INITIAL, run);
    forall h: Handler | InPhase(s, h, Streaming) ensures s.ctx == Some(h) {
      assert h in StreamingHandlers(s);
      assert h !in Orphans(s);
    }
  }

  /** A waiter that times out may evict a handler nobody has cancelled: 1 and 2 both wait for 0; 0
      exits, 1 takes the slot, and the wait of 2 runs out. Handler 1 goes on streaming unnamed. */
  lemma ForcedTakeoverOfUncancelledHandler()
    ensures var run := [Arrive(0, "a"), Arrive(1, "b"), Arrive(2, "c"), Exit(0), Wake(1), Timeout(2)];
            && ValidRun(INITIAL, run)
            && var s := After(INITIAL, run);
               InPhase(s, 1, Streaming) && 1 !in s.cancelled && s.ctx == Some(2)
  {
    var run := [Arrive(0, "a"), Arrive(1, "b"), Arrive(2, "c"), Exit(0), Wake(1), Timeout(2)];
    var s1 := Next(INITIAL, run[0]);
    var s2 := Next(s1, run[1]);
    var s3 := Next(s2, run[2]);
    var s4 := Next(s3, run[3]);
    var s5 := Next(s4, run[4]);
    var s6 := Next(s5, run[5]);
    var r5 := [Timeout(2)];
    var r4 := [Wake(1)] + r5;
    var r3 := [Exit(0)] + r4;
    var r2 := [Arrive(2, "c")] + r3;
    var r1 := [Arrive(1, "b")] + r2;
    assert run == [Arrive(0, "a")] + r1;
    assert ValidRun(s5, r5) && After(s5, r5) == s6 by {
      assert r5[1..] == [];
      assert ValidRun(s6, []) && After(s6, []) == s6;
    }
    assert r4[1..] == r5 && ValidRun(s4, r4) && After(s4, r4) == s6;
    assert r3[1..] == r4 && ValidRun(s3, r3) && After(s3, r3) == s6;
    assert r2[1..] == r3 && ValidRun(s2, r2) && After(s2, r2) == s6;
    assert r1[1..] == r2 && ValidRun(s1, r1) && After(s1, r1) == s6;
    assert run[1..] == r1 && ValidRun(INITIAL, run) && After(INITIAL, run) == s6;
  }

  /** The state after the first k steps of a run. */
  ghost function StateAt(s: State, run: seq<Step>, k: nat): State
    requires ValidRun(s, run) && k <= |run|
    decreases k
  {
    if k == 0 then s else StateAt(Next(s, run[0]), run[1..], k - 1)
  }

  lemma {:induction false} StateAtEnd(s: State, run: seq<Step>)
    requires ValidRun(s, run)
    ensures StateAt(s, run, |run|) == After(s, run)
    decreases |run|
  {
    if run != [] { StateAtEnd(Next(s, run[0]), run[1..]); }
  }

  /** The k-th step of the run is the arrival of a handler while h holds the slot. */
  ghost predicate ArrivesUnder(s: State, run: seq<Step>, k: nat, h: Handler)
    requires ValidRun(s, run)
  {
    k < |run| && run[k].Arrive? && StateAt(s, run, k).ctx == Some(h)
  }

  /** A handler is cancelled only by an arrival while it holds the slot. */
  lemma {:induction false} CancelledIff(s: State, run: seq<Step>, h: Handler)
    requires ValidRun(s, run)
    ensures h in After(s, run).cancelled <==> h in s.cancelled || exists k :: ArrivesUnder(s, run, k, h)
    decreases |run|
  {
    if run != [] {
      var rest, next := run[1..], Next(s, run[0]);
      CancelledIff(next, rest, h);
      assert h in next.cancelled <==> h in s.cancelled || ArrivesUnder(s, run, 0, h);
      forall k: nat | 0 < k ensures ArrivesUnder(s, run, k, h) <==> ArrivesUnder(next, rest, k - 1, h) {
      }
      if h !in next.cancelled && h in After(next, rest).cancelled {
        var k: nat :| ArrivesUnder(next, rest, k, h);
        assert ArrivesUnder(s, run, k + 1, h);
      }
    }
  }

  /** Whenever a wait runs out, the slot has a holder, which is evicted; it has been cancelled exactly
      when some handler arrived while it held the slot. */
  lemma EvictedIsCancelledIff(run: seq<Step>, waiter: Handler)
    requires ValidRun(INITIAL, run) && Enabled(After(INITIAL, run), Timeout(waiter))
    ensures var s := After(INITIAL, run);
            && s.ctx.Some? && s.ctx.value != waiter && InPhase(s, s.ctx.value, Streaming)
            && Next(s, Timeout(waiter)).ctx == Some(waiter)
            && (s.ctx.value in s.cancelled <==> exists k :: ArrivesUnder(INITIAL, run, k, s.ctx.value))
  {
    InitiallyEmpty();
    RunInvariant(INITIAL, run);
    CancelledIff(INITIAL, run, After(INITIAL, run).ctx.value);
  }

  /** In particular the handler that the waiter itself found in the slot has been cancelled when it is
      the one evicted. */
  lemma FoundAtArrivalIsCancelled(run: seq<Step>, waiter: Handler, k: nat)
    requires ValidRun(INITIAL, run) && Enabled(After(INITIAL, run), Timeout(waiter))
    requires k < |run| && run[k].Arrive? && run[k].h == waiter
    requires StateAt(INITIAL, run, k).ctx == After(INITIAL, run).ctx
    ensures After(INITIAL, run).ctx.Some? && After(INITIAL, run).ctx.value in After(INITIAL, run).cancelled
  {
    EvictedIsCancelledIff(run, waiter);
    assert ArrivesUnder(INITIAL, run, k, After(INITIAL, run).ctx.value);
  }

  // ---------- What a run amounts to ----------

  /** The k-th step takes the slot: the end of any wait does, and an arrival at the start or right
      after an exit. */
  ghost predicate Takes(run: seq<Step>, k: nat) {
    k < |run| && !run[k].Exit? && (run[k].Arrive? ==> k == 0 || run[k - 1].Exit?)
  }

  /** Since step k nobody has taken the slot and nobody has exited. */
  ghost predicate Undisturbed(run: seq<Step>, k: nat) {
    forall j :: k < j < |run| ==> !Takes(run, j) && !run[j].Exit?
  }

  /** h took the slot at step k, and it is later than every other taking and every exit. */
  ghost predicate TakesLast(run: seq<Step>, k: nat, h: Handler) {
    Takes(run, k) && run[k].h == h && Undisturbed(run, k)
  }

  /** h took the slot at step k and has not exited since. */
  ghost predicate TakesAndStays(run: seq<Step>, k: nat, h: Handler) {
    Takes(run, k) && run[k].h == h && forall j :: k < j < |run| ==> run[j] != Exit(h)
  }

  /** h arrived at step k without taking the slot, and its wait has not ended since. */
  ghost predicate StillWaits(run: seq<Step>, k: nat, h: Handler) {
    && k < |run| && run[k].Arrive? && run[k].h == h && !Takes(run, k)
    && forall j :: k < j < |run| ==> run[j] != Wake(h) && run[j] != Timeout(h)
  }

  lemma {:induction false} AfterLast(s: State, run: seq<Step>)
    requires ValidRun(s, run) && run != []
    ensures var before, last := run[..|run| - 1], run[|run| - 1];
            ValidRun(s, before) && Enabled(After(s, before), last) && After(s, run) == Next(After(s, before), last)
    decreases |run|
  {
    var before := run[..|run| - 1];
    if |run| == 1 {
      assert run[1..] == [] && before == [];
      assert ValidRun(Next(s, run[0]), []);
    } else {
      AfterLast(Next(s, run[0]), run[1..]);
      assert before[1..] == run[1..][..|run[1..]| - 1] && before[0] == run[0];
    }
  }

  /** After any run the slot is free exactly at the start and right after an exit, whoever exited;
      otherwise it belongs to the handler whose taking is later than every other taking and every
      exit. */
  lemma {:induction false} SlotAfterRun(run: seq<Step>, h: Handler)
    requires ValidRun(INITIAL, run)
    ensures var s := After(INITIAL, run);
            && (s.ctx.None? <==> run == [] || run[|run| - 1].Exit?)
            && (s.ctx == Some(h) <==> exists k :: TakesLast(run, k, h))
    decreases |run|
  {
    if run != [] {
      var n := |run| - 1;
      var before := run[..n];
      AfterLast(INITIAL, run);
      SlotAfterRun(before, h);
      PrefixTakes(run);
      if Takes(run, n) {
        assert run[n].h == h ==> TakesLast(run, n, h);
      } else if !run[n].Exit? {
        forall k: nat ensures TakesLast(run, k, h) <==> TakesLast(before, k, h) {
          if k < n { StillUndisturbed(run, before, k); }
        }
      }
    }
  }

  lemma {:induction false} PeersAfterRun(run: seq<Step>, h: Handler)
    requires ValidRun(INITIAL, run)
    ensures h in After(INITIAL, run).peer ==> Arrive(h, After(INITIAL, run).peer[h]) in run
    decreases |run|
  {
    if run != [] {
      AfterLast(INITIAL, run);
      PeersAfterRun(run[..|run| - 1], h);
      assert run == run[..|run| - 1] + [run[|run| - 1]];
    }
  }

  /** After any run a free slot has no name, and a held one the peer from which its holder arrived. */
  lemma NameAfterRun(run: seq<Step>)
    requires ValidRun(INITIAL, run)
    ensures var s := After(INITIAL, run);
            if s.ctx.None? then s.name == "" else Arrive(s.ctx.value, s.name) in run
  {
    InitiallyEmpty();
    RunInvariant(INITIAL, run);
    var s := After(INITIAL, run);
    if s.ctx.Some? { PeersAfterRun(run, s.ctx.value); }
  }

  /** The takings of a run without its last step. */
  lemma PrefixTakes(run: seq<Step>)
    requires run != []
    ensures forall k: nat :: k < |run| - 1 ==> (Takes(run[..|run| - 1], k) <==> Takes(run, k))
  {
  }

  lemma StillUndisturbed(run: seq<Step>, before: seq<Step>, k: nat)
    requires run != [] && before == run[..|run| - 1] && k < |before|
    ensures Undisturbed(run, k) <==> Undisturbed(before, k) && !Takes(run, |before|) && !run[|before|].Exit?
  {
    PrefixTakes(run);
    forall j: nat | j < |before| ensures Takes(before, j) <==> Takes(run, j) {
    }
  }

  lemma StillStays(run: seq<Step>, before: seq<Step>, k: nat, h: Handler)
    requires run != [] && before == run[..|run| - 1] && k < |before|
    ensures TakesAndStays(run, k, h) <==> TakesAndStays(before, k, h) && run[|before|] != Exit(h)
  {
    PrefixTakes(run);
    assert forall j :: 0 <= j < |before| ==> before[j] == run[j];
  }

  lemma WaitsOn(run: seq<Step>, before: seq<Step>, k: nat, h: Handler)
    requires run != [] && before == run[..|run| - 1] && k < |before|
    ensures StillWaits(run, k, h) <==>
              StillWaits(before, k, h) && run[|before|] != Wake(h) && run[|before|] != Timeout(h)
  {
    PrefixTakes(run);
    assert forall j :: 0 <= j < |before| ==> before[j] == run[j];
  }

  /** What each handler is doing after any run. */
  lemma {:induction false} PhaseAfterRun(run: seq<Step>, h: Handler)
    requires ValidRun(INITIAL, run)
    ensures var s := After(INITIAL, run);
            && (h in s.phase <==> exists k :: 0 <= k < |run| && run[k].Arrive? && run[k].h == h)
            && (InPhase(s, h, Streaming) <==> exists k :: TakesAndStays(run, k, h))
            && (InPhase(s, h, Waiting) <==> exists k :: StillWaits(run, k, h))
    decreases |run|
  {
    if run != [] {
      var n := |run| - 1;
      var before := run[..n];
      AfterLast(INITIAL, run);
      PhaseAfterRun(before, h);
      SlotAfterRun(before, h);
      StreamingAfterLast(run, before, h);
      WaitingAfterLast(run, before, h);
    }
  }

  lemma StreamingAfterLast(run: seq<Step>, before: seq<Step>, h: Handler)
    requires run != [] && before == run[..|run| - 1]
    ensures (exists k :: TakesAndStays(run, k, h)) <==>
              || (Takes(run, |before|) && run[|before|].h == h)
              || ((exists k :: TakesAndStays(before, k, h)) && run[|before|] != Exit(h))
  {
    var n := |before|;
    if k: nat :| TakesAndStays(before, k, h) { StillStays(run, before, k, h); }
    if k: nat :| TakesAndStays(run, k, h) && k < n { StillStays(run, before, k, h); }
    if Takes(run, n) && run[n].h == h { assert TakesAndStays(run, n, h); }
  }

  lemma WaitingAfterLast(run: seq<Step>, before: seq<Step>, h: Handler)
    requires run != [] && before == run[..|run| - 1]
    ensures var last := run[|before|];
            (exists k :: StillWaits(run, k, h)) <==>
              || (last.Arrive? && last.h == h && !Takes(run, |before|))
              || ((exists k :: StillWaits(before, k, h)) && last != Wake(h) && last != Timeout(h))
  {
    var n := |before|;
    if k: nat :| StillWaits(before, k, h) { WaitsOn(run, before, k, h); }
    if k: nat :| StillWaits(run, k, h) && k < n { WaitsOn(run, before, k, h); }
    if run[n].Arrive? && run[n].h == h && !Takes(run, n) { assert StillWaits(run, n, h); }
  }

  // ---------- The service object ----------

  /** The service's two fields; what the handlers do between critical sections is ghost history. */
  class VisualizerService {
    var activeStreamer: string
    var activeStreamerCtx: Option<Handler>
    ghost var phase: map<Handler, Phase>
    ghost var peers: map<Handler, string>
    ghost var cancelled: set<Handler>
    ghost var takeovers: nat

    ghost function Abstract(): State
      reads this
    {
      State(activeStreamer, activeStreamerCtx, phase, peers, cancelled, takeovers)
    }

    constructor ()
      ensures Abstract() == INITIAL
    {
      activeStreamer := "";
      activeStreamerCtx := None;
      phase, peers, cancelled, takeovers := map[], map[], {}, 0;
    }

    /** The first critical section up to the wait; false asks the handler to wait. */
    method Enter(h: Handler, peer: string) returns (taken: bool)
      requires Enabled(Abstract(), Arrive(h, peer))
      modifies this
      ensures Abstract() == Next(old(Abstract()), Arrive(h, peer))
      ensures taken <==> InPhase(Abstract(), h, Streaming)
      ensures taken <==> old(activeStreamerCtx).None?
      ensures activeStreamerCtx == if taken then Some(h) else old(activeStreamerCtx)
      ensures activeStreamer == if taken then peer else old(activeStreamer)
      ensures !taken ==> cancelled == old(cancelled) + {old(activeStreamerCtx).value}
    {
      peers := peers[h := peer];
      if activeStreamerCtx.Some? {
        var ctxToCancel := activeStreamerCtx.value;
        cancelled := cancelled + {ctxToCancel};
        phase := phase[h := Waiting];
        return false;
      }
      activeStreamer := peer;
      activeStreamerCtx := Some(h);
      phase := phase[h := Streaming];
      return true;
    }

    /** The rest of the first critical section, after the wait: the predicate is tested once more. */
    method Resume(h: Handler, peer: string)
      requires InPhase(Abstract(), h, Waiting) && h in peers && peers[h] == peer
      requires SlotIsLive(Abstract())
      modifies this
      ensures Abstract() == Next(old(Abstract()), if old(activeStreamer) == "" then Wake(h) else Timeout(h))
      ensures activeStreamer == peer && activeStreamerCtx == Some(h)
    {
      takeovers := if activeStreamerCtx.None? then takeovers else takeovers + 1;
      if activeStreamer != "" {
        activeStreamer := "";
        activeStreamerCtx := None;
      }
      activeStreamer := peer;
      activeStreamerCtx := Some(h);
      phase := phase[h := Streaming];
    }

    /** The last critical section; the slot is cleared whoever holds it. */
    method Leave(h: Handler)
      requires InPhase(Abstract(), h, Streaming)
      modifies this
      ensures Abstract() == Next(old(Abstract()), Exit(h))
      ensures activeStreamer == "" && activeStreamerCtx == None
    {
      activeStreamer := "";
      activeStreamerCtx := None;
      phase := phase[h := Gone];
    }
  }
}
