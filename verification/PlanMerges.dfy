/**
 The merge policy (`plan_merges`, src/store/merge.rs): which segments to
 rewrite alone for their tombstones, which to pool by size.  Fractions and
 logarithms are exact here; the source computes them in floating point.
 */
module PlanMerges {
  import opened Documents
  import opened Segments
  import opened Bytes

  datatype Policy = Policy(tierSize: nat, maxMerge: nat, maxBytes: nat, threshold: real)

  /** Bytes on disk of a segment's files. */
  type Size = Segment -> nat

  const MIB := 1048576.0

  // ----- Deletion-driven rewrites -----

  function DeletedFraction(s: Segment): real {
    if |s.docs| == 0 then 0.0 else |s.deleted| as real / |s.docs| as real
  }

  predicate OverDeleted(s: Segment, size: Size, pol: Policy) {
    |s.docs| > 0 && DeletedFraction(s) > pol.threshold && size(s) <= pol.maxBytes
  }

  function Rewrites(segs: seq<Segment>, size: Size, pol: Policy): seq<nat> {
    if segs == [] then []
    else
      var n := |segs| - 1;
      Rewrites(segs[..n], size, pol) + (if OverDeleted(segs[n], size, pol) then [segs[n].id] else [])
  }

  function Singletons(ids: seq<nat>): (groups: seq<seq<nat>>)
    ensures |groups| == |ids| && forall k | 0 <= k < |ids| :: groups[k] == [ids[k]]
  {
    seq(|ids|, k requires 0 <= k < |ids| => [ids[k]])
  }

  // ----- Size tiers -----

  /** `floor(log2(x))`. */
  function Log2(x: real): nat
    requires x >= 1.0
    decreases x.Floor
  {
    if x < 2.0 then 0 else 1 + Log2(x / 2.0)
  }

  lemma {:induction false} Log2Is(x: real, t: nat)
    requires x >= 1.0
    ensures Log2(x) == t <==> Pow2(t) as real <= x < Pow2(t + 1) as real
    decreases x.Floor
  {
    assert Pow2(t + 1) == 2 * Pow2(t);
    PowPositive(t);
    if x >= 2.0 && t > 0 {
      Log2Is(x / 2.0, t - 1);
    }
  }

  lemma {:induction false} PowPositive(n: nat)
    ensures Pow2(n) >= 1 && (n > 0 ==> Pow2(n) >= 2)
  {
    if n > 0 {
      PowPositive(n - 1);
    }
  }

  /** Live bytes, floored at one mebibyte so that small segments pool together. */
  function LiveBytes(s: Segment, size: Size): (x: real)
    ensures x >= MIB
  {
    var fraction := if |s.docs| == 0 then 0.0 else (|s.docs| - |s.deleted|) as real / |s.docs| as real;
    var x := size(s) as real * fraction;
    if x < MIB then MIB else x
  }

  function Tier(s: Segment, size: Size): nat {
    Log2(LiveBytes(s, size))
  }

  /** Left over after the rewrites, and not too large. */
  predicate Poolable(s: Segment, used: set<nat>, size: Size, pol: Policy) {
    s.id !in used && size(s) <= pol.maxBytes
  }

  function InTier(segs: seq<Segment>, used: set<nat>, t: nat, size: Size, pol: Policy): seq<nat> {
    if segs == [] then []
    else
      var n := |segs| - 1;
      InTier(segs[..n], used, t, size, pol)
      + (if Poolable(segs[n], used, size, pol) && Tier(segs[n], size) == t then [segs[n].id] else [])
  }

  /** One past the highest tier. */
  function TopTier(segs: seq<Segment>, used: set<nat>, size: Size, pol: Policy): nat {
    if segs == [] then 0
    else
      var n := |segs| - 1;
      var before := TopTier(segs[..n], used, size, pol);
      if Poolable(segs[n], used, size, pol) && Tier(segs[n], size) >= before then Tier(segs[n], size) + 1 else before
  }

  function Insert(sorted: seq<nat>, id: nat): seq<nat> {
    if sorted == [] || sorted[0] >= id then [id] + sorted else [sorted[0]] + Insert(sorted[1..], id)
  }

  function Sorted(ids: seq<nat>): seq<nat> {
    if ids == [] then [] else Insert(Sorted(ids[1..]), ids[0])
  }

  /** Runs of `n`, the last one only if it has two or more. */
  function Chunks(ids: seq<nat>, n: nat): seq<seq<nat>>
    requires n >= 2
    decreases |ids|
  {
    if |ids| <= n then (if |ids| >= 2 then [ids] else []) else [ids[..n]] + Chunks(ids[n..], n)
  }

  function ChunkSize(pol: Policy): nat {
    if pol.maxMerge < 2 then 2 else pol.maxMerge
  }

  function PlanTier(ids: seq<nat>, pol: Policy): seq<seq<nat>> {
    if |ids| < pol.tierSize then [] else Chunks(Sorted(ids), ChunkSize(pol))
  }

  function PlanTiers(segs: seq<Segment>, used: set<nat>, n: nat, size: Size, pol: Policy): seq<seq<nat>> {
    if n == 0 then [] else PlanTiers(segs, used, n - 1, size, pol) + PlanTier(InTier(segs, used, n - 1, size, pol), pol)
  }

  function Used(ids: seq<nat>): set<nat> {
    set id | id in ids
  }

  function Plan(segs: seq<Segment>, size: Size, pol: Policy): seq<seq<nat>> {
    var rewrites := Rewrites(segs, size, pol);
    Singletons(rewrites) + PlanTiers(segs, Used(rewrites), TopTier(segs, Used(rewrites), size, pol), size, pol)
  }

  // ----- The planner -----

  method SortIds(ids: seq<nat>) returns (sorted: seq<nat>)
    ensures sorted == Sorted(ids)
  {
    sorted := [];
    var k: nat := |ids|;
    assert ids[k..] == [];
    while k > 0
      invariant k <= |ids| && sorted == Sorted(ids[k..])
    {
      k := k - 1;
      assert ids[k..][1..] == ids[k + 1..];
      sorted := Insert(sorted, ids[k]);
    }
    assert ids[0..] == ids;
  }

  method CutChunks(ids: seq<nat>, n: nat) returns (groups: seq<seq<nat>>)
    requires n >= 2
    ensures groups == Chunks(ids, n)
  {
    groups := [];
    var at := 0;
    assert ids[0..] == ids;
    while at < |ids|
      invariant at <= |ids| && groups + Chunks(ids[at..], n) == Chunks(ids, n)
    {
      var end := if |ids| - at < n then |ids| else at + n;
      var chunk := ids[at..end];
      ChunkStep(ids[at..], n);
      assert end == at + n ==> ids[at..][..n] == chunk && ids[at..][n..] == ids[end..];
      assert end < at + n ==> ids[at..] == chunk && ids[end..] == [];
      ghost var before := groups;
      if |chunk| >= 2 {
        groups := groups + [chunk];
      }
      assert before + Chunks(ids[at..], n) == groups + Chunks(ids[end..], n);
      at := end;
    }
  }

  lemma {:induction false} ChunkStep(ids: seq<nat>, n: nat)
    requires n >= 2 && ids != []
    ensures |ids| >= n ==> Chunks(ids, n) == [ids[..n]] + Chunks(ids[n..], n)
  {
    if |ids| == n {
      assert ids[..n] == ids && ids[n..] == [];
    }
  }

  /** `tiers` holds the non-empty tiers of `segs`, all below `top`. */
  ghost predicate Grouped(tiers: map<nat, seq<nat>>, top: nat, segs: seq<Segment>, used: set<nat>, size: Size, pol: Policy) {
    && top == TopTier(segs, used, size, pol)
    && forall t: nat :: InTier(segs, used, t, size, pol) == if t in tiers then tiers[t] else []
  }

  lemma {:induction false} GroupedMore(tiers: map<nat, seq<nat>>, top: nat, segs: seq<Segment>, k: nat, used: set<nat>, size: Size, pol: Policy)
    requires k < |segs| && Grouped(tiers, top, segs[..k], used, size, pol)
    ensures var t := Tier(segs[k], size);
      if Poolable(segs[k], used, size, pol)
      then Grouped(tiers[t := (if t in tiers then tiers[t] else []) + [segs[k].id]], if t >= top then t + 1 else top, segs[..k + 1], used, size, pol)
      else Grouped(tiers, top, segs[..k + 1], used, size, pol)
  {
    hide Tier, Poolable;
    assert segs[..k + 1][..k] == segs[..k];
    assert forall t: nat :: InTier(segs[..k], used, t, size, pol) + [] == InTier(segs[..k], used, t, size, pol);
  }

  method PlanRewrites(segs: seq<Segment>, size: Size, pol: Policy) returns (groups: seq<seq<nat>>, used: set<nat>)
    ensures groups == Singletons(Rewrites(segs, size, pol)) && used == Used(Rewrites(segs, size, pol))
  {
    hide OverDeleted;
    groups, used := [], {};
    for k := 0 to |segs|
      invariant groups == Singletons(Rewrites(segs[..k], size, pol))
      invariant used == Used(Rewrites(segs[..k], size, pol))
    {
      assert segs[..k + 1][..k] == segs[..k];
      if OverDeleted(segs[k], size, pol) {
        groups := groups + [[segs[k].id]];
        used := used + {segs[k].id};
      }
    }
    assert segs[..|segs|] == segs;
  }

  method PoolTiers(segs: seq<Segment>, used: set<nat>, size: Size, pol: Policy) returns (tiers: map<nat, seq<nat>>, top: nat)
    ensures Grouped(tiers, top, segs, used, size, pol)
  {
    hide Tier, Poolable;
    tiers, top := map[], 0;
    for k := 0 to |segs|
      invariant Grouped(tiers, top, segs[..k], used, size, pol)
    {
      GroupedMore(tiers, top, segs, k, used, size, pol);
      hide Grouped;
      if Poolable(segs[k], used, size, pol) {
        var t := Tier(segs[k], size);
        tiers, top := tiers[t := (if t in tiers then tiers[t] else []) + [segs[k].id]], if t >= top then t + 1 else top;
      }
    }
    assert segs[..|segs|] == segs;
  }

  method PlanAll(segs: seq<Segment>, size: Size, pol: Policy) returns (groups: seq<seq<nat>>)
    ensures groups == Plan(segs, size, pol)
  {
    hide InTier, TopTier, Rewrites, Sorted, Chunks;
    var used;
    groups, used := PlanRewrites(segs, size, pol);
    var tiers, top := PoolTiers(segs, used, size, pol);
    ghost var singles := groups;
    for t: nat := 0 to top
      invariant groups == singles + PlanTiers(segs, used, t, size, pol)
    {
      EmptyTier(pol);
      assert InTier(segs, used, t, size, pol) == if t in tiers then tiers[t] else [];
      if t in tiers && |tiers[t]| >= pol.tierSize {
        var sorted := SortIds(tiers[t]);
        var chunks := CutChunks(sorted, ChunkSize(pol));
        groups := groups + chunks;
      }
    }
  }

  lemma {:induction false} EmptyTier(pol: Policy)
    ensures PlanTier([], pol) == []
  {
    assert Sorted([]) == [];
  }
}
