/** The mapping object: index maps filled with counters in loops, and vectors written by index.
    Its methods are proved against the specification of HolonomicMapping. */
module HolonomicObject {
  import opened Wrappers
  import opened HolonomicMapping

  type Instance = nat

  datatype Error = DuplicateMimic | NothingFree | WrongSize | UnknownInstance | OutOfRange | MimickingIndex

  // ---------- What the index maps hold ----------

  ghost predicate ToMinimal(h: Mapping, fullToMinimal: map<nat, nat>, k: nat) {
    forall i {:trigger i in fullToMinimal} ::
      && (i in fullToMinimal <==> 0 <= i < k && i !in h.mimics)
      && (i in fullToMinimal ==> fullToMinimal[i] == Rank(h, i))
  }

  ghost predicate ToFull(h: Mapping, minimalToFull: map<nat, nat>, k: nat) {
    forall j {:trigger j in minimalToFull} ::
      && (j in minimalToFull <==> 0 <= j < Rank(h, k))
      && (j in minimalToFull ==> minimalToFull[j] == Free(h, k)[j])
  }

  /** The maps of one instance, relative to the instance's first position. */
  datatype InstanceMaps = InstanceMaps(fullToMinimal: map<nat, nat>, minimalToFull: map<nat, nat>, isIdentity: bool)

  ghost predicate BlockToMinimal(h: Mapping, b: Block, toMin: map<nat, nat>, c: nat) {
    forall k {:trigger k in toMin} ::
      && (k in toMin <==> 0 <= k < c && FreeIn(h, b, k))
      && (k in toMin ==> toMin[k] == RelRank(h, b, k))
  }

  ghost predicate BlockToFull(h: Mapping, b: Block, toFull: map<nat, nat>, c: nat) {
    && |toFull| == RelRank(h, b, c)
    && forall j {:trigger j in toFull} ::
         && (j in toFull <==> 0 <= j < RelRank(h, b, c))
         && (j in toFull ==> toFull[j] < c && FreeIn(h, b, toFull[j]) && RelRank(h, b, toFull[j]) == j)
  }

  ghost predicate InstanceRight(h: Mapping, b: Block, maps: InstanceMaps) {
    && BlockToMinimal(h, b, maps.fullToMinimal, b.count)
    && BlockToFull(h, b, maps.minimalToFull, b.count)
    && (maps.isIdentity <==> BlockRank(h, b) == b.count)
    && BlockRank(h, b) > 0
  }

  lemma RelRankStep(h: Mapping, b: Block, k: nat)
    ensures RelRank(h, b, k + 1) == if FreeIn(h, b, k) then RelRank(h, b, k) + 1 else RelRank(h, b, k)
  {
    assert b.start + (k + 1) == b.start + k + 1;
  }

  lemma BlockToMinimalStep(h: Mapping, b: Block, toMin: map<nat, nat>, k: nat)
    requires BlockToMinimal(h, b, toMin, k)
    ensures !FreeIn(h, b, k) ==> BlockToMinimal(h, b, toMin, k + 1)
    ensures FreeIn(h, b, k) ==> BlockToMinimal(h, b, toMin[k := RelRank(h, b, k)], k + 1)
  {
  }

  lemma BlockToFullStep(h: Mapping, b: Block, toFull: map<nat, nat>, k: nat, c: nat)
    requires BlockToFull(h, b, toFull, k) && c == RelRank(h, b, k)
    ensures !FreeIn(h, b, k) ==> BlockToFull(h, b, toFull, k + 1)
    ensures FreeIn(h, b, k) ==> BlockToFull(h, b, toFull[c := k], k + 1)
  {
    RelRankStep(h, b, k);
    assert c !in toFull;
    assert |toFull[c := k]| == |toFull| + 1;
  }

  // ---------- Reading the couplers ----------

  ghost predicate ReadUpTo(couplers: seq<Coupler>, mimics: map<nat, Mimic>, k: nat) {
    && k <= |couplers| && |mimics| == k
    && (forall i :: 0 <= i < k ==>
          && couplers[i].position0 in mimics
          && mimics[couplers[i].position0] == Mimic(couplers[i].position1, couplers[i].ratio, couplers[i].offset))
    && (forall f :: f in mimics ==> exists i :: 0 <= i < k && couplers[i].position0 == f)
  }

  ghost predicate MimicsTwice(couplers: seq<Coupler>) {
    exists i, j :: 0 <= i < j < |couplers| && couplers[i].position0 == couplers[j].position0
  }

  method ReadCouplers(couplers: seq<Coupler>) returns (r: Result<map<nat, Mimic>, Error>)
    ensures r.Ok? <==> !MimicsTwice(couplers)
    ensures r.Ok? ==> ReadUpTo(couplers, r.value, |couplers|)
    ensures r.Err? ==> r.error == DuplicateMimic
  {
    var mimics: map<nat, Mimic> := map[];
    for i := 0 to |couplers|
      invariant ReadUpTo(couplers, mimics, i)
      invariant forall k, l :: 0 <= k < l < i ==> couplers[k].position0 != couplers[l].position0
    {
      var c := couplers[i];
      if c.position0 in mimics {
        return Err(DuplicateMimic);
      }
      ReadStep(couplers, mimics, i);
      mimics := mimics[c.position0 := Mimic(c.position1, c.ratio, c.offset)];
    }
    r := Ok(mimics);
  }

  lemma ReadStep(couplers: seq<Coupler>, mimics: map<nat, Mimic>, k: nat)
    requires ReadUpTo(couplers, mimics, k) && k < |couplers| && couplers[k].position0 !in mimics
    ensures var c := couplers[k];
            ReadUpTo(couplers, mimics[c.position0 := Mimic(c.position1, c.ratio, c.offset)], k + 1)
    ensures forall i :: 0 <= i < k ==> couplers[i].position0 != couplers[k].position0
  {
    var next := mimics[couplers[k].position0 := Mimic(couplers[k].position1, couplers[k].ratio, couplers[k].offset)];
    assert |next| == |mimics| + 1;
    forall f | f in next ensures exists i :: 0 <= i < k + 1 && couplers[i].position0 == f {
      if f in mimics {
        var i :| 0 <= i < k && couplers[i].position0 == f;
      }
    }
  }

  lemma ReadIsValid(n: nat, couplers: seq<Coupler>, mimics: map<nat, Mimic>)
    requires ReadUpTo(couplers, mimics, |couplers|)
    requires forall i :: 0 <= i < |couplers| ==> couplers[i].position0 < n && couplers[i].position1 < n
    ensures HolonomicMapping.Valid(Mapping(n, mimics))
    ensures Rank(Mapping(n, mimics), n) + |couplers| == n
  {
    var h := Mapping(n, mimics);
    RankCountsFree(h, n);
    assert MimicsBelow(h, n) == mimics.Keys;
  }

  /** The instances with an index below k that have a block have right maps. */
  ghost predicate BuiltBelow(h: Mapping, blocks: map<Instance, Block>, instances: map<Instance, InstanceMaps>, k: nat) {
    forall i :: i in blocks && i < k ==> i in instances && InstanceRight(h, blocks[i], instances[i])
  }

  lemma BuiltMore(h: Mapping, blocks: map<Instance, Block>, instances: map<Instance, InstanceMaps>, k: nat,
      maps: InstanceMaps)
    requires BuiltBelow(h, blocks, instances, k) && k in blocks && InstanceRight(h, blocks[k], maps)
    ensures BuiltBelow(h, blocks, instances[k := maps], k + 1)
  {
  }

  class HolonomicMap {
    const n: nat
    var m: int
    var isIdentity: bool
    var fullToMinimal: map<nat, nat>
    var minimalToFull: map<nat, nat>
    var mimickingJoints: map<nat, Mimic>
    var blocks: map<Instance, Block>
    var instances: map<Instance, InstanceMaps>

    ghost function Abstract(): Mapping
      reads this
    {
      Mapping(n, mimickingJoints)
    }

    ghost predicate MapsRight()
      reads this
    {
      && ToMinimal(Abstract(), fullToMinimal, n)
      && ToFull(Abstract(), minimalToFull, n)
      && forall inst :: inst in blocks ==> inst in instances && InstanceRight(Abstract(), blocks[inst], instances[inst])
    }

    ghost predicate Valid()
      reads this
    {
      && HolonomicMapping.Valid(Abstract())
      && m == Rank(Abstract(), n)
      && (isIdentity <==> n == m)
      && (isIdentity ==> mimickingJoints == map[])
      && (forall inst :: inst in blocks ==> Fits(Abstract(), blocks[inst]))
      && (!isIdentity ==> MapsRight())
    }

    constructor (dim: nat, instanceBlocks: map<Instance, Block>)
      ensures n == dim && blocks == instanceBlocks && mimickingJoints == map[]
    {
      n, m, isIdentity := dim, dim, true;
      fullToMinimal, minimalToFull, mimickingJoints := map[], map[], map[];
      blocks, instances := instanceBlocks, map[];
    }

    /** Fills the object from the plant's couplers. It fails exactly when a position mimics twice or
        an instance is left without a free position; so the demand that the counter ends at m holds. */
    method Build(couplers: seq<Coupler>, numInstances: nat) returns (error: Option<Error>)
      requires mimickingJoints == map[]
      requires forall i :: 0 <= i < |couplers| ==> couplers[i].position0 < n && couplers[i].position1 < n
      requires forall inst :: inst in blocks ==> inst < numInstances && blocks[inst].start + blocks[inst].count <= n
      modifies this
      ensures blocks == old(blocks)
      ensures error == None ==> Valid() && ReadUpTo(couplers, mimickingJoints, |couplers|)
      ensures error == Some(DuplicateMimic) <==> MimicsTwice(couplers)
      ensures error == Some(NothingFree) ==>
                && ReadUpTo(couplers, mimickingJoints, |couplers|)
                && exists inst :: inst in blocks && BlockRank(Abstract(), blocks[inst]) == 0
      ensures error == None || error == Some(DuplicateMimic) || error == Some(NothingFree)
    {
      m := n - |couplers|;
      isIdentity := n == m;
      if isIdentity {
        ReadIsValid(n, couplers, mimickingJoints);
        return None;
      }
      var read := ReadCouplers(couplers);
      if read.Err? {
        return Some(read.error);
      }
      mimickingJoints := read.value;
      ReadIsValid(n, couplers, mimickingJoints);
      FillIndexMaps();
      var built := BuildInstances(numInstances);
      error := if built then None else Some(NothingFree);
    }

    method BuildInstances(numInstances: nat) returns (built: bool)
      requires forall inst :: inst in blocks ==> inst < numInstances
      modifies this`instances
      ensures built ==> forall inst ::
                          inst in blocks
                          ==> inst in instances && InstanceRight(Abstract(), blocks[inst], instances[inst])
      ensures !built ==> exists inst :: inst in blocks && BlockRank(Abstract(), blocks[inst]) == 0
    {
      instances := map[];
      for inst := 0 to numInstances
        invariant BuiltBelow(Abstract(), blocks, instances, inst)
      {
        if inst in blocks {
          var maps := BuildInstance(blocks[inst]);
          if maps == None {
            assert BlockRank(Abstract(), blocks[inst]) == 0;
            return false;
          }
          BuiltMore(Abstract(), blocks, instances, inst, maps.value);
          instances := instances[inst := maps.value];
        }
      }
      built := true;
    }

    /** Fills both index maps in one pass; the counter ends at m. */
    method FillIndexMaps()
      requires m == Rank(Abstract(), n)
      modifies this`fullToMinimal, this`minimalToFull
      ensures ToMinimal(Abstract(), fullToMinimal, n) && ToFull(Abstract(), minimalToFull, n)
    {
      ghost var h := Abstract();
      fullToMinimal, minimalToFull := map[], map[];
      var j := 0;
      for i := 0 to n
        invariant j == Rank(h, i)
        invariant ToMinimal(h, fullToMinimal, i) && ToFull(h, minimalToFull, i)
      {
        if i !in mimickingJoints {
          fullToMinimal := fullToMinimal[i := j];
          minimalToFull := minimalToFull[j := i];
          j := j + 1;
        }
      }
      assert j == m;
    }

    method BuildInstance(b: Block) returns (maps: Option<InstanceMaps>)
      ensures maps == None <==> BlockRank(Abstract(), b) == 0
      ensures maps.Some? ==> InstanceRight(Abstract(), b, maps.value)
    {
      ghost var h := Abstract();
      var toMin: map<nat, nat>, toFull: map<nat, nat> := map[], map[];
      var j := 0;
      for k := 0 to b.count
        invariant j == RelRank(h, b, k)
        invariant BlockToMinimal(h, b, toMin, k) && BlockToFull(h, b, toFull, k)
      {
        RelRankStep(h, b, k);
        BlockToMinimalStep(h, b, toMin, k);
        BlockToFullStep(h, b, toFull, k, j);
        if b.start + k !in mimickingJoints {
          toMin := toMin[k := j];
          toFull := toFull[j := k];
          j := j + 1;
        }
      }
      maps := if j > 0 then Some(InstanceMaps(toMin, toFull, b.count == j)) else None;
    }

    method Reduce(fullVector: Vector) returns (r: Result<Vector, Error>)
      requires Valid()
      ensures isIdentity ==> r == Ok(fullVector)
      ensures !isIdentity && |fullVector| != n ==> r == Err(WrongSize)
      ensures |fullVector| == n ==> r == Ok(Reduced(Abstract(), fullVector))
    {
      ghost var h := Abstract();
      if isIdentity {
        if |fullVector| == n {
          IdentityReduce(h, fullVector);
        }
        return Ok(fullVector);
      }
      if |fullVector| != n {
        return Err(WrongSize);
      }
      var reduced: Vector := seq(m, _ => 0.0);
      for i := 0 to n
        invariant |reduced| == m && Rank(h, i) <= m
        invariant forall j :: 0 <= j < Rank(h, i) ==> reduced[j] == Reduced(h, fullVector)[j]
      {
        RankMono(h, i + 1, n);
        if i in fullToMinimal {
          ReducedAt(h, fullVector, i);
          reduced := reduced[fullToMinimal[i] := fullVector[i]];
        }
      }
      assert reduced == Reduced(h, fullVector);
      r := Ok(reduced);
    }

    method Lift(reducedVector: Vector) returns (r: Result<Vector, Error>)
      requires Valid()
      ensures isIdentity ==> r == Ok(reducedVector)
      ensures !isIdentity && |reducedVector| != m ==> r == Err(WrongSize)
      ensures |reducedVector| == m ==> r == Ok(Lifted(Abstract(), reducedVector))
    {
      ghost var h := Abstract();
      if isIdentity {
        if |reducedVector| == m {
          IdentityLift(h, reducedVector, n);
        }
        return Ok(reducedVector);
      }
      if |reducedVector| != m {
        return Err(WrongSize);
      }
      var full: Vector := seq(n, _ => 0.0);
      for i := 0 to n
        invariant |full| == n
        invariant forall k :: 0 <= k < n ==> full[k] == if k < i then Filled(h, reducedVector)[k] else 0.0
      {
        if i in fullToMinimal {
          FreeAtRank(h, i, n);
          full := full[i := reducedVector[fullToMinimal[i]]];
        }
      }
      assert full == LiftedTo(h, reducedVector, 0);
      for f := 0 to n
        invariant full == LiftedTo(h, reducedVector, f)
      {
        if f in mimickingJoints {
          var c := mimickingJoints[f];
          full := full[f := Follow(c, full[c.mimicked])];
        }
      }
      r := Ok(full);
    }

    method LiftedIndex(reducedIndex: nat) returns (r: Result<nat, Error>)
      requires Valid()
      ensures isIdentity ==> r == Ok(reducedIndex)
      ensures !isIdentity ==> (r.Ok? <==> reducedIndex < m)
      ensures r.Ok? && !isIdentity
              ==> r.value < n && r.value !in mimickingJoints && Rank(Abstract(), r.value) == reducedIndex
    {
      if isIdentity {
        return Ok(reducedIndex);
      }
      if reducedIndex >= m {
        return Err(OutOfRange);
      }
      RankOfFree(Abstract(), reducedIndex, n);
      r := Ok(minimalToFull[reducedIndex]);
    }

    method ReducedIndex(fullIndex: nat) returns (r: Result<nat, Error>)
      requires Valid()
      ensures isIdentity ==> r == Ok(fullIndex)
      ensures !isIdentity ==> (r.Ok? <==> fullIndex < n && fullIndex !in mimickingJoints)
      ensures r.Ok? && !isIdentity ==> r.value < Rank(Abstract(), n) && Free(Abstract(), n)[r.value] == fullIndex
    {
      if isIdentity {
        return Ok(fullIndex);
      }
      if fullIndex >= n {
        return Err(OutOfRange);
      }
      if fullIndex in mimickingJoints {
        return Err(MimickingIndex);
      }
      FreeAtRank(Abstract(), fullIndex, n);
      r := Ok(fullToMinimal[fullIndex]);
    }

    /** Reducing an instance gives the instance's part of the reduction of any full vector that
        holds the instance's positions. Without couplers the argument comes back unchecked. */
    method ReduceInstance(inst: Instance, full: Vector, ghost whole: Vector) returns (r: Result<Vector, Error>)
      requires Valid() && |whole| == n
      requires inst in blocks && |full| == blocks[inst].count ==> full == Slice(blocks[inst], whole)
      ensures isIdentity ==> r == Ok(full)
      ensures !isIdentity ==> (r.Ok? <==> inst in blocks && |full| == blocks[inst].count)
      ensures inst in blocks && |full| == blocks[inst].count ==>
                r == Ok(ReducedSlice(Abstract(), blocks[inst], Reduced(Abstract(), whole)))
    {
      if isIdentity {
        if inst in blocks && |full| == blocks[inst].count {
          IdentityBlocks(Abstract(), blocks[inst]);
          IdentityBlockReduce(Abstract(), blocks[inst], whole);
        }
        return Ok(full);
      }
      if inst !in blocks {
        return Err(UnknownInstance);
      }
      ghost var h := Abstract();
      var b, maps := blocks[inst], instances[inst];
      if |full| != b.count {
        return Err(WrongSize);
      }
      ghost var wanted := ReducedSlice(h, b, Reduced(h, whole));
      if maps.isIdentity {
        IdentityBlockReduce(h, b, whole);
        return Ok(full);
      }
      var minimal := PickFree(b, maps, full, whole);
      r := Ok(minimal);
    }

    /** A free position of the instance goes where the reduction has it. */
    lemma PickStep(h: Mapping, b: Block, maps: InstanceMaps, whole: Vector, k: nat)
      requires Fits(h, b) && BlockToMinimal(h, b, maps.fullToMinimal, b.count) && |whole| == h.n && k < b.count
      ensures k !in maps.fullToMinimal ==> RelRank(h, b, k + 1) == RelRank(h, b, k)
      ensures k in maps.fullToMinimal ==>
                && RelRank(h, b, k + 1) == RelRank(h, b, k) + 1
                && maps.fullToMinimal[k] == RelRank(h, b, k) < BlockRank(h, b)
                && ReducedSlice(h, b, Reduced(h, whole))[RelRank(h, b, k)] == Slice(b, whole)[k]
    {
      RelRankStep(h, b, k);
      if k in maps.fullToMinimal { ReduceCommutesWithSlice(h, b, whole, k); }
    }

    method PickFree(b: Block, maps: InstanceMaps, full: Vector, ghost whole: Vector) returns (minimal: Vector)
      requires Fits(Abstract(), b) && InstanceRight(Abstract(), b, maps)
      requires |whole| == n && full == Slice(b, whole)
      ensures minimal == ReducedSlice(Abstract(), b, Reduced(Abstract(), whole))
    {
      ghost var h := Abstract();
      ghost var wanted := ReducedSlice(h, b, Reduced(h, whole));
      minimal := seq(|maps.minimalToFull|, _ => 0.0);
      for k := 0 to b.count
        invariant |minimal| == |wanted|
        invariant forall j :: 0 <= j < RelRank(h, b, k) && j < |minimal| ==> minimal[j] == wanted[j]
      {
        PickStep(h, b, maps, whole, k);
        if k in maps.fullToMinimal {
          minimal := minimal[maps.fullToMinimal[k] := full[k]];
        }
      }
    }

    /** Lifting an instance. It writes outside the instance's vector exactly when some coupler's
        mimicked position lies inside and its mimic outside, unless none of the instance's own positions
        mimics. Without couplers the argument comes back unchecked. */
    method LiftInstance(inst: Instance, reduced: Vector) returns (r: Result<Vector, Error>)
      requires Valid()
      ensures isIdentity ==> r == Ok(reduced)
      ensures !isIdentity && r.Ok? ==> inst in blocks && |reduced| == BlockRank(Abstract(), blocks[inst])
      ensures inst in blocks && |reduced| == BlockRank(Abstract(), blocks[inst])
              && MimicsStayInside(Abstract(), blocks[inst])
              ==> r == Ok(LiftedBlockTo(Abstract(), blocks[inst], reduced, n))
      ensures r == Err(OutOfRange) <==>
                && !isIdentity && inst in blocks && |reduced| == BlockRank(Abstract(), blocks[inst])
                && !instances[inst].isIdentity && !MimicsStayInside(Abstract(), blocks[inst])
      ensures !isIdentity && inst in blocks && |reduced| == BlockRank(Abstract(), blocks[inst])
              && instances[inst].isIdentity
              ==> r == Ok(reduced)
    {
      if isIdentity {
        if inst in blocks && |reduced| == BlockRank(Abstract(), blocks[inst]) {
          IdentityBlocks(Abstract(), blocks[inst]);
          IdentityBlockLift(Abstract(), blocks[inst], reduced, n);
        }
        return Ok(reduced);
      }
      if inst !in blocks {
        return Err(UnknownInstance);
      }
      ghost var h := Abstract();
      var b, maps := blocks[inst], instances[inst];
      if |reduced| != |maps.minimalToFull| {
        return Err(WrongSize);
      }
      if maps.isIdentity {
        if MimicsStayInside(h, b) {
          IdentityBlockLift(h, b, reduced, n);
        }
        return Ok(reduced);
      }
      var filled := FillBlock(b, maps, reduced);
      r := FollowMimics(b, filled, reduced);
    }

    /** The loop over the couplers, in ascending order of the mimic. */
    method FollowMimics(b: Block, filled: Vector, ghost reduced: Vector) returns (r: Result<Vector, Error>)
      requires HolonomicMapping.Valid(Abstract()) && Fits(Abstract(), b) && |reduced| == BlockRank(Abstract(), b)
      requires filled == FilledBlock(Abstract(), b, reduced)
      ensures r == if MimicsStayInside(Abstract(), b) then Ok(LiftedBlockTo(Abstract(), b, reduced, n))
              else Err(OutOfRange)
    {
      ghost var h := Abstract();
      var lifted := filled;
      for f := 0 to n
        invariant |lifted| == b.count
        invariant forall g :: 0 <= g < f && g in h.mimics && Inside(b, h.mimics[g].mimicked) ==> Inside(b, g)
        invariant MimicsStayInside(h, b) ==> lifted == LiftedBlockTo(h, b, reduced, f)
      {
        if f in mimickingJoints && Inside(b, mimickingJoints[f].mimicked) {
          var c := mimickingJoints[f];
          if !Inside(b, f) {
            return Err(OutOfRange);
          }
          lifted := lifted[f - b.start := Follow(c, lifted[c.mimicked - b.start])];
        }
      }
      r := Ok(lifted);
    }

    method FillBlock(b: Block, maps: InstanceMaps, reduced: Vector) returns (lifted: Vector)
      requires HolonomicMapping.Valid(Abstract()) && Fits(Abstract(), b) && InstanceRight(Abstract(), b, maps)
      requires |reduced| == BlockRank(Abstract(), b)
      ensures lifted == FilledBlock(Abstract(), b, reduced)
    {
      ghost var h := Abstract();
      lifted := seq(b.count, _ => 0.0);
      for j := 0 to |reduced|
        invariant |lifted| == b.count
        invariant forall k :: 0 <= k < b.count ==>
                    lifted[k] == if RelRank(h, b, k) < j then FilledBlock(h, b, reduced)[k] else 0.0
      {
        var i := maps.minimalToFull[j];
        forall k | 0 <= k < b.count && RelRank(h, b, k) == j && k != i ensures !FreeIn(h, b, k) {
          if FreeIn(h, b, k) { SameRelRank(h, b, k, i); }
        }
        lifted := lifted[i := reduced[j]];
      }
      forall k | 0 <= k < b.count ensures lifted[k] == FilledBlock(h, b, reduced)[k] {
        if FreeIn(h, b, k) { BlockIndex(h, b, k); }
      }
    }
  }

  lemma SameRelRank(h: Mapping, b: Block, k: nat, i: nat)
    requires FreeIn(h, b, k) && FreeIn(h, b, i) && RelRank(h, b, k) == RelRank(h, b, i)
    ensures k == i
  {
    FreeAtRank(h, b.start + k, b.start + k + i + 1);
    FreeAtRank(h, b.start + i, b.start + k + i + 1);
  }

  lemma {:induction false} IdentityFree(h: Mapping, k: nat)
    requires h.mimics == map[]
    ensures Rank(h, k) == k && forall i :: 0 <= i < k ==> Free(h, k)[i] == i
  {
    if k > 0 { IdentityFree(h, k - 1); }
  }

  lemma IdentityReduce(h: Mapping, q: Vector)
    requires h.mimics == map[] && |q| == h.n
    ensures Reduced(h, q) == q
  {
    IdentityFree(h, h.n);
    assert Reduced(h, q) == q;
  }

  lemma {:induction false} IdentityLift(h: Mapping, x: Vector, k: nat)
    requires HolonomicMapping.Valid(h) && h.mimics == map[] && |x| == Rank(h, h.n) && k <= h.n
    ensures LiftedTo(h, x, k) == x
    decreases k
  {
    if k > 0 {
      IdentityLift(h, x, k - 1);
    } else {
      IdentityFree(h, h.n);
      forall i | 0 <= i < h.n ensures Filled(h, x)[i] == x[i] { IdentityFree(h, i); }
      assert Filled(h, x) == x;
    }
  }

  /** A block with as many free positions as positions holds no mimic. */
  lemma IdentityBlock(h: Mapping, b: Block, k: nat)
    requires BlockRank(h, b) == b.count && k < b.count
    ensures FreeIn(h, b, k) && RelRank(h, b, k) == k
  {
    RankGap(h, b.start, b.start + k);
    RankGap(h, b.start + k + 1, b.start + b.count);
  }

  /** Without mimics every block is free. */
  lemma IdentityBlocks(h: Mapping, b: Block)
    requires h.mimics == map[]
    ensures BlockRank(h, b) == b.count
  {
    IdentityFree(h, b.start);
    IdentityFree(h, b.start + b.count);
  }

  lemma IdentityBlockReduce(h: Mapping, b: Block, whole: Vector)
    requires Fits(h, b) && |whole| == h.n && BlockRank(h, b) == b.count
    ensures Slice(b, whole) == ReducedSlice(h, b, Reduced(h, whole))
  {
    forall k | 0 <= k < b.count ensures Slice(b, whole)[k] == ReducedSlice(h, b, Reduced(h, whole))[k] {
      IdentityBlock(h, b, k);
      ReduceCommutesWithSlice(h, b, whole, k);
    }
  }

  lemma {:induction false} IdentityBlockLift(h: Mapping, b: Block, x: Vector, k: nat)
    requires HolonomicMapping.Valid(h) && Fits(h, b) && MimicsStayInside(h, b) && k <= h.n
    requires |x| == BlockRank(h, b) == b.count
    ensures LiftedBlockTo(h, b, x, k) == x
    decreases k
  {
    if k > 0 {
      IdentityBlockLift(h, b, x, k - 1);
      if k - 1 in h.mimics && Inside(b, h.mimics[k - 1].mimicked) {
        IdentityBlock(h, b, k - 1 - b.start);
        assert false;
      }
    } else {
      forall i | 0 <= i < b.count ensures FilledBlock(h, b, x)[i] == x[i] { IdentityBlock(h, b, i); }
      assert FilledBlock(h, b, x) == x;
    }
  }

  /** A plant of two instances in which a position of the second mimics one of the first: lifting the
      first instance writes out of range. */
  method LiftInstanceWritesOutside(couplers: seq<Coupler>, blocks: map<Instance, Block>, free: real)
    returns (built: Option<Error>, r: Result<Vector, Error>)
    requires |couplers| == 2 && couplers[0].position0 == 1 && couplers[1].position0 == 2
    requires couplers[0].position1 == couplers[1].position1 == 0
    requires blocks == map[0 := Block(0, 2), 1 := Block(2, 2)]
    ensures built == None && r == Err(OutOfRange)
  {
    var hm := new HolonomicMap(4, blocks);
    built := hm.Build(couplers, 2);
    TwoMimicsOfOne(couplers, hm.Abstract(), blocks);
    r := hm.LiftInstance(0, [free]);
  }

  lemma TwoMimicsOfOne(couplers: seq<Coupler>, h: Mapping, blocks: map<Instance, Block>)
    requires |couplers| == 2 && couplers[0].position0 == 1 && couplers[1].position0 == 2 && couplers[1].position1 == 0
    requires blocks == map[0 := Block(0, 2), 1 := Block(2, 2)]
    ensures !MimicsTwice(couplers)
    ensures ReadUpTo(couplers, h.mimics, 2) ==>
              && (forall inst :: inst in blocks ==> BlockRank(h, blocks[inst]) == 1) && Rank(h, 4) == 2
              && !MimicsStayInside(h, blocks[0])
  {
    if ReadUpTo(couplers, h.mimics, 2) {
      assert couplers[0].position0 in h.mimics && couplers[1].position0 in h.mimics;
      assert 1 in h.mimics && 2 in h.mimics && 0 !in h.mimics && 3 !in h.mimics;
      assert Rank(h, 0) == 0;
      assert Rank(h, 1) == 1;
      assert Rank(h, 2) == 1;
      assert Rank(h, 3) == 1;
      assert Rank(h, 4) == 2;
      assert Inside(Block(0, 2), h.mimics[2].mimicked) && !Inside(Block(0, 2), 2);
    }
  }

  // ---------- Idle instances ----------

  ghost predicate Owns(blocks: map<Instance, Block>, inst: Instance, i: nat) {
    inst in blocks && Inside(blocks[inst], i)
  }

  /** Position i belongs to an idle instance with an index below k. */
  ghost predicate IdleBelow(blocks: map<Instance, Block>, active: set<Instance>, k: nat, i: nat) {
    exists inst: Instance :: inst < k && inst !in active && Owns(blocks, inst, i)
  }

  ghost function IdlePositions(blocks: map<Instance, Block>, active: set<Instance>, numInstances: nat): iset<nat> {
    iset i: nat | IdleBelow(blocks, active, numInstances, i)
  }

  /** Every position belongs to some instance. */
  ghost predicate Covered(blocks: map<Instance, Block>, i: nat) {
    exists inst :: Owns(blocks, inst, i)
  }

  /** Replaces the idle instances' positions by the reference's; an empty active set means that all
      are idle. The reduced result is q at active and the reference at idle free positions. */
  method SetIdleModelsConfigToRef(hm: HolonomicMap, q: Vector, ref: Vector, active: set<Instance>, numInstances: nat)
    returns (r: Vector)
    requires hm.Valid() && |q| == |ref| == hm.m
    requires forall inst :: inst in hm.blocks ==> inst < numInstances
    requires forall i {:trigger Covered(hm.blocks, i)} :: 0 <= i < hm.n ==> Covered(hm.blocks, i)
    ensures r == IdleToRef(hm.Abstract(), IdlePositions(hm.blocks, active, numInstances), q, ref)
  {
    ghost var h := hm.Abstract();
    var start := q;
    if active == {} {
      start := ref;
    }
    var lift1 := hm.Lift(start);
    var lift2 := hm.Lift(ref);
    var lifted := SetIdleBlocks(hm.blocks, active, numInstances, lift1.value, lift2.value);
    var reduced := hm.Reduce(lifted);
    r := reduced.value;
    ghost var idle := IdlePositions(hm.blocks, active, numInstances);
    forall j | 0 <= j < |r| ensures r[j] == IdleToRef(h, idle, q, ref)[j] {
      RankOfFree(h, j, hm.n);
      var i := Free(h, hm.n)[j];
      LiftedFree(h, start, i);
      LiftedFree(h, ref, i);
      if active == {} {
        assert Covered(hm.blocks, i);
        var owner :| Owns(hm.blocks, owner, i);
        assert i in idle;
      }
    }
  }

  /** Overwrites the blocks of the idle instances with the reference's. */
  method SetIdleBlocks(blocks: map<Instance, Block>, active: set<Instance>, numInstances: nat, from: Vector,
      refLifted: Vector)
    returns (lifted: Vector)
    requires |from| == |refLifted|
    requires forall inst :: inst in blocks ==> blocks[inst].start + blocks[inst].count <= |from|
    ensures |lifted| == |from|
    ensures forall i :: 0 <= i < |from| ==>
              lifted[i] == if IdleBelow(blocks, active, numInstances, i) then refLifted[i] else from[i]
  {
    lifted := from;
    for inst := 0 to numInstances
      invariant |lifted| == |from|
      invariant forall i :: 0 <= i < |from| ==>
                  lifted[i] == if IdleBelow(blocks, active, inst, i) then refLifted[i] else from[i]
    {
      ghost var before := lifted;
      if inst in blocks && inst !in active {
        lifted := SetBlock(blocks[inst], refLifted, lifted);
      }
      forall i | 0 <= i < |from|
        ensures lifted[i] == if IdleBelow(blocks, active, inst + 1, i) then refLifted[i] else from[i]
      {
        assert lifted[i] == if inst !in active && Owns(blocks, inst, i) then refLifted[i] else before[i];
      }
    }
  }

  /** Copies one instance's positions from one full vector into another. */
  method SetBlock(b: Block, from: Vector, to: Vector) returns (r: Vector)
    requires |from| == |to| && b.start + b.count <= |to|
    ensures |r| == |to|
    ensures forall i :: 0 <= i < |to| ==> r[i] == if Inside(b, i) then from[i] else to[i]
  {
    r := to[..b.start] + from[b.start..b.start + b.count] + to[b.start + b.count..];
  }
}
