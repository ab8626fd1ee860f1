/** Eliminating mimicking joints from a configuration and putting them back.

    Reduce drops every mimicking position; Lift restores them from the positions they mimic, in
    ascending index order. Both exist for the whole plant and for one model instance. */
module HolonomicMapping {
  import opened RealArithmetic

  type Vector = seq<real>

  /** What a mimicking position follows: value = ratio * mimicked + offset. */
  datatype Mimic = Mimic(mimicked: nat, ratio: real, offset: real)

  function Follow(c: Mimic, y: real): real {
    Times(c.ratio, y) + c.offset
  }

  datatype Coupler = Coupler(position0: nat, position1: nat, ratio: real, offset: real)

  /** n positions, some of which mimic others. */
  datatype Mapping = Mapping(n: nat, mimics: map<nat, Mimic>)

  ghost predicate Valid(h: Mapping) {
    forall f :: f in h.mimics ==> f < h.n && h.mimics[f].mimicked < h.n
  }

  // ---------- Specification: the free positions ----------

  /** The positions below k that mimic nothing, in ascending order. */
  function Free(h: Mapping, k: nat): seq<nat> {
    if k == 0 then [] else Free(h, k - 1) + if k - 1 in h.mimics then [] else [k - 1]
  }

  /** The reduced index of a free position, and of the first free position at or above any other. */
  function Rank(h: Mapping, i: nat): nat {
    |Free(h, i)|
  }

  lemma {:induction false} FreePrefix(h: Mapping, i: nat, k: nat)
    requires i <= k
    ensures Free(h, i) <= Free(h, k)
    decreases k
  {
    if i < k { FreePrefix(h, i, k - 1); }
  }

  /** Full to reduced and back. */
  lemma FreeAtRank(h: Mapping, i: nat, k: nat)
    requires i < k && i !in h.mimics
    ensures Rank(h, i) < Rank(h, k) && Free(h, k)[Rank(h, i)] == i
  {
    FreePrefix(h, i + 1, k);
    assert Free(h, i + 1)[Rank(h, i)] == i;
  }

  /** Reduced to full and back. */
  lemma {:induction false} RankOfFree(h: Mapping, j: nat, k: nat)
    requires j < Rank(h, k)
    ensures Free(h, k)[j] < k && Free(h, k)[j] !in h.mimics && Rank(h, Free(h, k)[j]) == j
    decreases k
  {
    if j < Rank(h, k - 1) {
      RankOfFree(h, j, k - 1);
    }
  }

  lemma RankMono(h: Mapping, i: nat, k: nat)
    requires i <= k
    ensures Rank(h, i) <= Rank(h, k)
  {
    FreePrefix(h, i, k);
  }

  /** Between two positions the free positions are at most as many as the positions. */
  lemma {:induction false} RankGap(h: Mapping, i: nat, k: nat)
    requires i <= k
    ensures Rank(h, k) - Rank(h, i) <= k - i
    decreases k
  {
    if i < k { RankGap(h, i, k - 1); }
  }

  /** Full and reduced indices correspond one to one, in order. */
  lemma IndexBijection(h: Mapping)
    ensures forall i :: 0 <= i < h.n && i !in h.mimics ==> Rank(h, i) < Rank(h, h.n) && Free(h, h.n)[Rank(h, i)] == i
    ensures forall j :: 0 <= j < Rank(h, h.n) ==>
              Free(h, h.n)[j] < h.n && Free(h, h.n)[j] !in h.mimics && Rank(h, Free(h, h.n)[j]) == j
    ensures forall i, j :: 0 <= i < j < Rank(h, h.n) ==> Free(h, h.n)[i] < Free(h, h.n)[j]
  {
    forall i | 0 <= i < h.n && i !in h.mimics ensures Rank(h, i) < Rank(h, h.n) && Free(h, h.n)[Rank(h, i)] == i {
      FreeAtRank(h, i, h.n);
    }
    forall j | 0 <= j < Rank(h, h.n)
      ensures Free(h, h.n)[j] < h.n && Free(h, h.n)[j] !in h.mimics && Rank(h, Free(h, h.n)[j]) == j
    {
      RankOfFree(h, j, h.n);
    }
    forall i, j | 0 <= i < j < Rank(h, h.n) ensures Free(h, h.n)[i] < Free(h, h.n)[j] {
      RankOfFree(h, i, h.n);
      RankOfFree(h, j, h.n);
      if Free(h, h.n)[i] >= Free(h, h.n)[j] { RankMono(h, Free(h, h.n)[j], Free(h, h.n)[i]); }
    }
  }

  ghost function MimicsBelow(h: Mapping, k: nat): set<nat> {
    set f | f in h.mimics && f < k
  }

  lemma {:induction false} RankCountsFree(h: Mapping, k: nat)
    ensures Rank(h, k) + |MimicsBelow(h, k)| == k
    decreases k
  {
    if k > 0 {
      RankCountsFree(h, k - 1);
      if k - 1 in h.mimics {
        assert MimicsBelow(h, k) == MimicsBelow(h, k - 1) + {k - 1};
      } else {
        assert MimicsBelow(h, k) == MimicsBelow(h, k - 1);
      }
    }
  }

  // ---------- Specification: reducing and lifting ----------

  ghost function Reduced(h: Mapping, q: Vector): (x: Vector)
    requires |q| == h.n
    ensures |x| == Rank(h, h.n)
  {
    seq(Rank(h, h.n), j requires 0 <= j < Rank(h, h.n) => (RankOfFree(h, j, h.n); q[Free(h, h.n)[j]]))
  }

  /** The free positions hold the reduced values and the others zero. */
  ghost function Filled(h: Mapping, x: Vector): (v: Vector)
    requires |x| == Rank(h, h.n)
    ensures |v| == h.n
  {
    seq(h.n, i requires 0 <= i < h.n => if i in h.mimics then 0.0 else (FreeAtRank(h, i, h.n); x[Rank(h, i)]))
  }

  /** The vector once the mimicking positions below k have been written. */
  ghost function LiftedTo(h: Mapping, x: Vector, k: nat): (v: Vector)
    requires Valid(h) && |x| == Rank(h, h.n) && k <= h.n
    ensures |v| == h.n
    decreases k
  {
    if k == 0 then Filled(h, x)
    else
      var v := LiftedTo(h, x, k - 1);
      if k - 1 !in h.mimics then v
      else
        var c := h.mimics[k - 1];
        v[k - 1 := Follow(c, v[c.mimicked])]
  }

  ghost function Lifted(h: Mapping, x: Vector): (v: Vector)
    requires Valid(h) && |x| == Rank(h, h.n)
    ensures |v| == h.n
  {
    LiftedTo(h, x, h.n)
  }

  /** Each mimicked position is free or is written before its mimic. */
  ghost predicate WellOrdered(h: Mapping) {
    forall f {:trigger SeenFinal(h, f)} :: f in h.mimics ==> SeenFinal(h, f)
  }

  /** The mimicked position of f is free or is written before f. */
  ghost predicate SeenFinal(h: Mapping, f: nat)
    requires f in h.mimics
  {
    h.mimics[f].mimicked !in h.mimics || h.mimics[f].mimicked < f
  }

  ghost predicate SatisfiesCoupler(h: Mapping, q: Vector, f: nat)
    requires Valid(h) && |q| == h.n && f in h.mimics
  {
    q[f] == Follow(h.mimics[f], q[h.mimics[f].mimicked])
  }

  ghost predicate SatisfiesCouplers(h: Mapping, q: Vector)
    requires Valid(h) && |q| == h.n
  {
    forall f :: f in h.mimics ==> SatisfiesCoupler(h, q, f)
  }

  /** A position keeps its filled value until its own turn and its final value afterwards. */
  lemma {:induction false} LiftedAt(h: Mapping, x: Vector, i: nat, k: nat)
    requires Valid(h) && |x| == Rank(h, h.n) && i < h.n && k <= h.n
    ensures k <= i || i !in h.mimics ==> LiftedTo(h, x, k)[i] == Filled(h, x)[i]
    ensures k > i ==> LiftedTo(h, x, k)[i] == LiftedTo(h, x, i + 1)[i]
    decreases k
  {
    if k > 0 { LiftedAt(h, x, i, k - 1); }
  }

  /** What a mimicking position is given, in terms of the final vector. */
  lemma LiftedMimic(h: Mapping, x: Vector, f: nat)
    requires Valid(h) && |x| == Rank(h, h.n) && f in h.mimics
    ensures var c := h.mimics[f];
            var read := if c.mimicked !in h.mimics || c.mimicked < f then Lifted(h, x)[c.mimicked] else 0.0;
            Lifted(h, x)[f] == Follow(c, read)
  {
    var g := h.mimics[f].mimicked;
    LiftedAt(h, x, f, h.n);
    LiftedAt(h, x, g, f);
    LiftedAt(h, x, g, h.n);
  }

  lemma LiftedFree(h: Mapping, x: Vector, i: nat)
    requires Valid(h) && |x| == Rank(h, h.n) && i < h.n && i !in h.mimics
    ensures Rank(h, i) < |x| && Lifted(h, x)[i] == x[Rank(h, i)]
  {
    FreeAtRank(h, i, h.n);
    LiftedAt(h, x, i, h.n);
  }

  // ---------- Round trips ----------

  /** Reduce undoes Lift for every reduced vector, however the couplers are ordered. */
  lemma ReduceAfterLift(h: Mapping, x: Vector)
    requires Valid(h) && |x| == Rank(h, h.n)
    ensures Reduced(h, Lifted(h, x)) == x
  {
    forall j | 0 <= j < |x| ensures Reduced(h, Lifted(h, x))[j] == x[j] {
      RankOfFree(h, j, h.n);
      LiftedFree(h, x, Free(h, h.n)[j]);
    }
  }

  /** A lifted position is an affine function of one reduced value: its slope, its constant, and the
      free position that the chain of mimicked positions ends at, if it is read in order. */
  ghost function Slope(h: Mapping, i: nat): real
    decreases i in h.mimics, i
  {
    if i !in h.mimics then 1.0
    else if SeenFinal(h, i) then Times(h.mimics[i].ratio, Slope(h, h.mimics[i].mimicked))
    else 0.0
  }

  ghost function Constant(h: Mapping, i: nat): real
    decreases i in h.mimics, i
  {
    if i !in h.mimics then 0.0
    else if SeenFinal(h, i) then Follow(h.mimics[i], Constant(h, h.mimics[i].mimicked))
    else h.mimics[i].offset
  }

  ghost function Source(h: Mapping, i: nat): (r: nat)
    requires Valid(h) && i < h.n
    ensures r < h.n
    ensures r in h.mimics ==> Slope(h, i) == 0.0
    decreases i in h.mimics, i
  {
    if i !in h.mimics then i
    else if SeenFinal(h, i) then (TimesZero(h.mimics[i].ratio); Source(h, h.mimics[i].mimicked))
    else i
  }

  ghost function SourceValue(h: Mapping, x: Vector, i: nat): real
    requires Valid(h) && |x| == Rank(h, h.n) && i < h.n
  {
    if Source(h, i) in h.mimics then 0.0 else (FreeAtRank(h, Source(h, i), h.n); x[Rank(h, Source(h, i))])
  }

  lemma {:induction false} LiftedIsAffine(h: Mapping, x: Vector, i: nat)
    requires Valid(h) && |x| == Rank(h, h.n) && i < h.n
    ensures Lifted(h, x)[i] == Times(Slope(h, i), SourceValue(h, x, i)) + Constant(h, i)
    decreases i in h.mimics, i
  {
    TimesZero(SourceValue(h, x, i));
    if i in h.mimics {
      LiftedMimic(h, x, i);
      var c := h.mimics[i];
      TimesZero(c.ratio);
      if SeenFinal(h, i) {
        LiftedIsAffine(h, x, c.mimicked);
        Distribute(c.ratio, Times(Slope(h, c.mimicked), SourceValue(h, x, i)), Constant(h, c.mimicked));
        Associate(c.ratio, Slope(h, c.mimicked), SourceValue(h, x, i));
      }
    } else {
      LiftedFree(h, x, i);
    }
  }

  /** A lifted vector satisfies a coupler exactly when the mimicked position was final when it was
      read, or when the value that was missed contributes nothing. */
  lemma LiftSatisfiesCouplerIff(h: Mapping, x: Vector, f: nat)
    requires Valid(h) && |x| == Rank(h, h.n) && f in h.mimics
    ensures var c := h.mimics[f];
            SatisfiesCoupler(h, Lifted(h, x), f) <==>
              || SeenFinal(h, f) || c.ratio == 0.0
              || Times(Slope(h, c.mimicked), SourceValue(h, x, c.mimicked)) + Constant(h, c.mimicked) == 0.0
  {
    LiftedMimic(h, x, f);
    LiftedIsAffine(h, x, h.mimics[f].mimicked);
    NoZeroDivisors(h.mimics[f].ratio, Lifted(h, x)[h.mimics[f].mimicked]);
    TimesZero(h.mimics[f].ratio);
  }

  /** Every lifted vector satisfies a coupler exactly when its mimicked position is free or smaller, its
      ratio is zero, or the mimicked position is lifted to zero always. */
  lemma CouplerAlwaysHoldsIff(h: Mapping, f: nat)
    requires Valid(h) && f in h.mimics
    ensures var c := h.mimics[f];
            (forall x: Vector :: |x| == Rank(h, h.n) ==> SatisfiesCoupler(h, Lifted(h, x), f)) <==>
              || SeenFinal(h, f) || c.ratio == 0.0
              || (Slope(h, c.mimicked) == 0.0 && Constant(h, c.mimicked) == 0.0)
  {
    var c := h.mimics[f];
    var g := c.mimicked;
    if SeenFinal(h, f) || c.ratio == 0.0 || (Slope(h, g) == 0.0 && Constant(h, g) == 0.0) {
      forall x: Vector | |x| == Rank(h, h.n) ensures SatisfiesCoupler(h, Lifted(h, x), f) {
        LiftSatisfiesCouplerIff(h, x, f);
        TimesZero(SourceValue(h, x, g));
      }
    } else {
      var zero := seq(Rank(h, h.n), _ => 0.0);
      var one := seq(Rank(h, h.n), _ => 1.0);
      LiftSatisfiesCouplerIff(h, zero, f);
      LiftSatisfiesCouplerIff(h, one, f);
      TimesZero(Slope(h, g));
      if Source(h, g) !in h.mimics {
        FreeAtRank(h, Source(h, g), h.n);
        assert SourceValue(h, zero, g) == 0.0 && SourceValue(h, one, g) == 1.0;
        assert Times(Slope(h, g), 1.0) == Slope(h, g);
      }
      assert !SatisfiesCoupler(h, Lifted(h, zero), f) || !SatisfiesCoupler(h, Lifted(h, one), f);
    }
  }

  lemma LiftSatisfiesCouplers(h: Mapping, x: Vector)
    requires Valid(h) && WellOrdered(h) && |x| == Rank(h, h.n)
    ensures SatisfiesCouplers(h, Lifted(h, x))
  {
    forall f | f in h.mimics ensures SatisfiesCoupler(h, Lifted(h, x), f) {
      LiftSatisfiesCouplerIff(h, x, f);
    }
  }

  /** Three positions of which the first mimics the second and the second the third. */
  ghost predicate ChainAgainstOrder(h: Mapping) {
    && h.n == 3 && h.mimics.Keys == {0, 1}
    && h.mimics[0] == Mimic(1, 2.0, 0.0) && h.mimics[1] == Mimic(2, 3.0, 0.0)
  }

  lemma ChainShape(h: Mapping)
    requires ChainAgainstOrder(h)
    ensures Valid(h) && !WellOrdered(h) && Rank(h, 2) == 0 && Rank(h, h.n) == 1
  {
    OneFreeOfThree(h);
    assert !SeenFinal(h, 0);
  }

  /** A chain written against the index order is valid and is lifted wrongly. */
  lemma BadlyOrderedChain(h: Mapping, x: Vector)
    requires ChainAgainstOrder(h) && x == [1.0]
    ensures Valid(h) && Rank(h, h.n) == 1 && !SatisfiesCoupler(h, Lifted(h, x), 0)
  {
    ChainShape(h);
    ChainViolated(h, x, 0, 1, 2);
  }

  lemma OneFreeOfThree(h: Mapping)
    requires 0 in h.mimics && 1 in h.mimics && 2 !in h.mimics
    ensures Rank(h, 2) == 0 && Rank(h, 3) == 1
  {
    assert Free(h, 0) == [];
    assert Free(h, 1) == [];
    assert Free(h, 2) == [];
    assert Free(h, 3) == [2];
  }

  /** The chain of a position that mimics a free one. */
  lemma DirectMimic(h: Mapping, g: nat)
    requires Valid(h) && g in h.mimics && h.mimics[g].mimicked !in h.mimics
    ensures Slope(h, g) == h.mimics[g].ratio && Constant(h, g) == h.mimics[g].offset
    ensures Source(h, g) == h.mimics[g].mimicked
  {
    var free := h.mimics[g].mimicked;
    assert SeenFinal(h, g);
    assert Slope(h, free) == 1.0 && Times(h.mimics[g].ratio, 1.0) == h.mimics[g].ratio;
    assert Constant(h, free) == 0.0;
    TimesZero(h.mimics[g].ratio);
    assert Source(h, free) == free;
  }

  /** Position f mimics g, a larger index, which mimics a free position whose value is not zero. */
  lemma ChainViolated(h: Mapping, x: Vector, f: nat, g: nat, free: nat)
    requires Valid(h) && |x| == Rank(h, h.n) && f in h.mimics && g in h.mimics && f < g
    requires h.mimics[f].mimicked == g && h.mimics[g].mimicked == free && free !in h.mimics
    requires h.mimics[f].ratio != 0.0 && h.mimics[g].ratio != 0.0 && h.mimics[g].offset == 0.0
    requires Rank(h, free) < |x| && x[Rank(h, free)] != 0.0
    ensures !SatisfiesCoupler(h, Lifted(h, x), f)
  {
    LiftSatisfiesCouplerIff(h, x, f);
    TimesZero(h.mimics[g].ratio);
    DirectMimic(h, g);
    NoZeroDivisors(Slope(h, g), x[Rank(h, free)]);
  }

  /** Position f has the value that Lift would give it: it follows the mimicked position, or zero if
      that is written later. */
  ghost predicate FollowsAsRead(h: Mapping, q: Vector, f: nat)
    requires Valid(h) && |q| == h.n && f in h.mimics
  {
    q[f] == Follow(h.mimics[f], if SeenFinal(h, f) then q[h.mimics[f].mimicked] else 0.0)
  }

  /** Lift undoes Reduce exactly on the vectors whose mimics have the values that Lift reads off, in
      any order of the couplers; with ordered chains, on those that satisfy the couplers. */
  lemma LiftAfterReduceIff(h: Mapping, q: Vector)
    requires Valid(h) && |q| == h.n
    ensures Lifted(h, Reduced(h, q)) == q <==> forall f :: f in h.mimics ==> FollowsAsRead(h, q, f)
    ensures WellOrdered(h) ==> (Lifted(h, Reduced(h, q)) == q <==> SatisfiesCouplers(h, q))
  {
    if Lifted(h, Reduced(h, q)) == q {
      forall f | f in h.mimics ensures FollowsAsRead(h, q, f) {
        LiftedMimic(h, Reduced(h, q), f);
      }
    }
    if forall f :: f in h.mimics ==> FollowsAsRead(h, q, f) {
      forall i | 0 <= i < h.n ensures Lifted(h, Reduced(h, q))[i] == q[i] {
        LiftRestores(h, q, i);
      }
    }
    if WellOrdered(h) { OrderedFollows(h, q); }
  }

  lemma OrderedFollows(h: Mapping, q: Vector)
    requires Valid(h) && WellOrdered(h) && |q| == h.n
    ensures SatisfiesCouplers(h, q) <==> forall f :: f in h.mimics ==> FollowsAsRead(h, q, f)
  {
    forall f | f in h.mimics ensures FollowsAsRead(h, q, f) <==> SatisfiesCoupler(h, q, f) {
      assert SeenFinal(h, f);
    }
  }

  lemma {:induction false} LiftRestores(h: Mapping, q: Vector, i: nat)
    requires Valid(h) && |q| == h.n && i < h.n && forall f :: f in h.mimics ==> FollowsAsRead(h, q, f)
    ensures Lifted(h, Reduced(h, q))[i] == q[i]
    decreases i in h.mimics, i
  {
    var x := Reduced(h, q);
    if i in h.mimics {
      assert FollowsAsRead(h, q, i);
      LiftedMimic(h, x, i);
      if SeenFinal(h, i) { LiftRestores(h, q, h.mimics[i].mimicked); }
    } else {
      LiftedFree(h, x, i);
      FreeAtRank(h, i, h.n);
    }
  }

  // ---------- One model instance ----------

  /** The contiguous positions of a model instance. */
  datatype Block = Block(start: nat, count: nat)

  predicate Inside(b: Block, i: int) {
    b.start <= i < b.start + b.count
  }

  ghost predicate Fits(h: Mapping, b: Block) {
    b.start + b.count <= h.n
  }

  /** The block's k-th position mimics nothing. */
  predicate FreeIn(h: Mapping, b: Block, k: nat) {
    b.start + k !in h.mimics
  }

  /** The reduced index of the block's k-th position within the block. */
  function RelRank(h: Mapping, b: Block, k: nat): (r: nat) {
    RankMono(h, b.start, b.start + k);
    Rank(h, b.start + k) - Rank(h, b.start)
  }

  /** The number of free positions of the block. */
  function BlockRank(h: Mapping, b: Block): (r: nat) {
    RelRank(h, b, b.count)
  }

  /** The positions of a full vector that belong to the block. */
  ghost function Slice(b: Block, q: Vector): Vector
    requires b.start + b.count <= |q|
  {
    q[b.start..b.start + b.count]
  }

  /** The part of a reduced vector that belongs to the block. */
  ghost function ReducedSlice(h: Mapping, b: Block, x: Vector): (r: Vector)
    requires Fits(h, b) && |x| == Rank(h, h.n)
    ensures |r| == BlockRank(h, b)
  {
    RankMono(h, b.start, b.start + b.count);
    RankMono(h, b.start + b.count, h.n);
    x[Rank(h, b.start)..Rank(h, b.start + b.count)]
  }

  /** A coupler whose mimicked position lies in the block has its mimic there too. */
  ghost predicate MimicsStayInside(h: Mapping, b: Block) {
    forall f :: f in h.mimics && Inside(b, h.mimics[f].mimicked) ==> Inside(b, f)
  }

  /** Couplers neither enter nor leave the block. */
  ghost predicate Isolated(h: Mapping, b: Block) {
    forall f :: f in h.mimics ==> (Inside(b, h.mimics[f].mimicked) <==> Inside(b, f))
  }

  lemma BlockIndex(h: Mapping, b: Block, k: nat)
    requires k < b.count && FreeIn(h, b, k)
    ensures RelRank(h, b, k) < BlockRank(h, b)
  {
    FreeAtRank(h, b.start + k, b.start + b.count);
  }

  ghost function FilledBlock(h: Mapping, b: Block, x: Vector): (v: Vector)
    requires Fits(h, b) && |x| == BlockRank(h, b)
    ensures |v| == b.count
  {
    seq(b.count, k requires 0 <= k < b.count =>
      if !FreeIn(h, b, k) then 0.0
      else (BlockIndex(h, b, k); x[RelRank(h, b, k)]))
  }

  /** The instance's vector once the couplers of mimics below k have been applied. */
  ghost function LiftedBlockTo(h: Mapping, b: Block, x: Vector, k: nat): (v: Vector)
    requires Valid(h) && Fits(h, b) && MimicsStayInside(h, b) && |x| == BlockRank(h, b) && k <= h.n
    ensures |v| == b.count
    decreases k
  {
    if k == 0 then FilledBlock(h, b, x)
    else
      var v := LiftedBlockTo(h, b, x, k - 1);
      if k - 1 in h.mimics && Inside(b, h.mimics[k - 1].mimicked) then
        var c := h.mimics[k - 1];
        v[k - 1 - b.start := Follow(c, v[c.mimicked - b.start])]
      else v
  }

  lemma SliceAt(h: Mapping, b: Block, x: Vector, m: nat)
    requires Fits(h, b) && |x| == Rank(h, h.n) && m < BlockRank(h, b)
    ensures Rank(h, b.start) + m < |x| && ReducedSlice(h, b, x)[m] == x[Rank(h, b.start) + m]
  {
    RankMono(h, b.start, b.start + b.count);
    RankMono(h, b.start + b.count, h.n);
  }

  lemma ReducedAt(h: Mapping, q: Vector, i: nat)
    requires |q| == h.n && i < h.n && i !in h.mimics
    ensures Rank(h, i) < Rank(h, h.n) && Reduced(h, q)[Rank(h, i)] == q[i]
  {
    FreeAtRank(h, i, h.n);
  }

  lemma FilledSlice(h: Mapping, b: Block, x: Vector)
    requires Fits(h, b) && |x| == Rank(h, h.n)
    ensures Slice(b, Filled(h, x)) == FilledBlock(h, b, ReducedSlice(h, b, x))
  {
    forall k | 0 <= k < b.count
      ensures Slice(b, Filled(h, x))[k] == FilledBlock(h, b, ReducedSlice(h, b, x))[k]
    {
      if FreeIn(h, b, k) {
        BlockIndex(h, b, k);
        FreeAtRank(h, b.start + k, h.n);
        SliceAt(h, b, x, RelRank(h, b, k));
      }
    }
  }

  /** Lifting the whole vector and lifting one isolated instance agree on the instance. */
  lemma {:induction false} LiftCommutesWithSlice(h: Mapping, b: Block, x: Vector, k: nat)
    requires Valid(h) && Fits(h, b) && Isolated(h, b) && |x| == Rank(h, h.n) && k <= h.n
    ensures Slice(b, LiftedTo(h, x, k)) == LiftedBlockTo(h, b, ReducedSlice(h, b, x), k)
    decreases k
  {
    if k == 0 {
      FilledSlice(h, b, x);
    } else {
      LiftCommutesWithSlice(h, b, x, k - 1);
      var v := LiftedTo(h, x, k - 1);
      var w := LiftedBlockTo(h, b, ReducedSlice(h, b, x), k - 1);
      if k - 1 in h.mimics && Inside(b, k - 1) {
        var c := h.mimics[k - 1];
        assert v[c.mimicked] == Slice(b, v)[c.mimicked - b.start] == w[c.mimicked - b.start];
        var y := Follow(c, v[c.mimicked]);
        assert Slice(b, v[k - 1 := y]) == Slice(b, v)[k - 1 - b.start := y];
      } else if k - 1 in h.mimics {
        var c := h.mimics[k - 1];
        var y := Follow(c, v[c.mimicked]);
        assert Slice(b, v[k - 1 := y]) == Slice(b, v);
      }
    }
  }

  /** Reducing the whole vector and reducing one instance agree on the instance, for any couplers. */
  lemma ReduceCommutesWithSlice(h: Mapping, b: Block, q: Vector, k: nat)
    requires Fits(h, b) && |q| == h.n && k < b.count && FreeIn(h, b, k)
    ensures RelRank(h, b, k) < BlockRank(h, b)
    ensures ReducedSlice(h, b, Reduced(h, q))[RelRank(h, b, k)] == Slice(b, q)[k]
  {
    BlockIndex(h, b, k);
    ReducedAt(h, q, b.start + k);
    SliceAt(h, b, Reduced(h, q), RelRank(h, b, k));
  }

  /** An isolated instance with ordered couplers has a free position: its first. */
  lemma IsolatedBlockHasFreePosition(h: Mapping, b: Block)
    requires Valid(h) && WellOrdered(h) && Isolated(h, b) && Fits(h, b) && b.count > 0
    ensures BlockRank(h, b) > 0
  {
    if b.start + 0 in h.mimics {
      var free := ChaseMimic(h, b, b.start);
      BlockIndex(h, b, free - b.start);
    } else {
      BlockIndex(h, b, 0);
    }
  }

  /** Following mimics downwards ends at a free position of the same block. */
  lemma {:induction false} ChaseMimic(h: Mapping, b: Block, f: nat) returns (free: nat)
    requires Valid(h) && WellOrdered(h) && Isolated(h, b) && Inside(b, f) && f in h.mimics
    ensures Inside(b, free) && free !in h.mimics
    decreases f
  {
    var g := h.mimics[f].mimicked;
    assert Inside(b, g) && SeenFinal(h, f);
    if g in h.mimics {
      free := ChaseMimic(h, b, g);
    } else {
      free := g;
    }
  }

  // ---------- Setting idle instances to a reference ----------

  /** The reduced configuration whose idle positions come from the reference. */
  ghost function IdleToRef(h: Mapping, idle: iset<nat>, q: Vector, ref: Vector): (r: Vector)
    requires |q| == |ref| == Rank(h, h.n)
    ensures |r| == |q|
  {
    seq(|q|, j requires 0 <= j < |q| => if Free(h, h.n)[j] in idle then ref[j] else q[j])
  }

  /** The full vectors agree with the reference on idle isolated blocks and with q on active ones. */
  lemma IdleToRefLifted(h: Mapping, idle: iset<nat>, q: Vector, ref: Vector, b: Block)
    requires Valid(h) && Fits(h, b) && Isolated(h, b) && |q| == |ref| == Rank(h, h.n)
    requires (forall i: nat :: Inside(b, i) ==> i in idle) || (forall i: nat :: Inside(b, i) ==> i !in idle)
    ensures (forall i: nat :: Inside(b, i) ==> i in idle) ==>
              Slice(b, Lifted(h, IdleToRef(h, idle, q, ref))) == Slice(b, Lifted(h, ref))
    ensures (forall i: nat :: Inside(b, i) ==> i !in idle) ==>
              Slice(b, Lifted(h, IdleToRef(h, idle, q, ref))) == Slice(b, Lifted(h, q))
  {
    var r := IdleToRef(h, idle, q, ref);
    LiftCommutesWithSlice(h, b, r, h.n);
    LiftCommutesWithSlice(h, b, q, h.n);
    LiftCommutesWithSlice(h, b, ref, h.n);
    RankMono(h, b.start, b.start + b.count);
    RankMono(h, b.start + b.count, h.n);
    forall j | Rank(h, b.start) <= j < Rank(h, b.start + b.count) ensures Inside(b, Free(h, h.n)[j]) {
      FreeInsideBlock(h, b, j);
    }
    if forall i: nat :: Inside(b, i) ==> i in idle {
      assert ReducedSlice(h, b, r) == ReducedSlice(h, b, ref);
    }
    if forall i: nat :: Inside(b, i) ==> i !in idle {
      assert ReducedSlice(h, b, r) == ReducedSlice(h, b, q);
    }
  }

  lemma FreeInsideBlock(h: Mapping, b: Block, j: nat)
    requires Fits(h, b) && Rank(h, b.start) <= j < Rank(h, b.start + b.count) && j < Rank(h, h.n)
    ensures Inside(b, Free(h, h.n)[j])
  {
    RankOfFree(h, j, h.n);
    var i := Free(h, h.n)[j];
    if i < b.start {
      FreeAtRank(h, i, b.start);
    }
    if i >= b.start + b.count {
      RankMono(h, b.start + b.count, i);
    }
  }

  /** Doing it twice changes nothing more. */
  lemma IdleToRefIdempotent(h: Mapping, idle: iset<nat>, q: Vector, ref: Vector)
    requires |q| == |ref| == Rank(h, h.n)
    ensures IdleToRef(h, idle, IdleToRef(h, idle, q, ref), ref) == IdleToRef(h, idle, q, ref)
  {
  }
}
