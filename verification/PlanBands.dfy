/**
 A merge plan in the policy's own terms (src/store/merge.rs): shares of dead
 documents, live bytes, powers of two.
 */
module PlanBands {
  import Bytes
  import opened Documents
  import opened Segments
  import opened PlanMerges
  import opened PlanMeaning

  // ----- Live bytes -----

  /** The locals of documents that are not tombstoned. */
  function Alive(s: Segment): set<nat> {
    set l | 0 <= l < |s.docs| && l !in s.deleted
  }

  function Below(n: nat): (ls: set<nat>)
    ensures |ls| == n && forall l: nat :: l in ls <==> l < n
  {
    if n == 0 then {} else Below(n - 1) + {n - 1}
  }

  lemma {:induction false} AliveCount(s: Segment)
    requires ValidSegment(s)
    ensures |Alive(s)| == |s.docs| - |s.deleted|
  {
    assert Below(|s.docs|) == Alive(s) + s.deleted;
  }

  /** Bytes on disk times the share of documents not tombstoned, and at least a mebibyte. */
  ghost function Weight(s: Segment, size: Size): real {
    var live := if |s.docs| == 0 then 0.0 else size(s) as real * (|Alive(s)| as real / |s.docs| as real);
    if live < 1048576.0 then 1048576.0 else live
  }

  /** It lies from `2^t` up to `2^(t+1)`. */
  ghost predicate InBand(s: Segment, size: Size, t: nat) {
    Bytes.Pow2(t) as real <= Weight(s, size) < Bytes.Pow2(t + 1) as real
  }

  lemma {:induction false} WeightIs(s: Segment, size: Size)
    requires ValidSegment(s)
    ensures LiveBytes(s, size) == Weight(s, size)
  {
    AliveCount(s);
    hide Alive;
  }

  lemma {:induction false} TierIsBand(s: Segment, size: Size, t: nat)
    requires ValidSegment(s)
    ensures InBand(s, size, t) <==> Tier(s, size) == t
  {
    hide LiveBytes, Weight;
    WeightIs(s, size);
    Log2Is(LiveBytes(s, size), t);
  }

  /** Every segment has one band. */
  lemma {:induction false} OneBand(s: Segment, size: Size) returns (t: nat)
    requires ValidSegment(s)
    ensures InBand(s, size, t) && forall u | InBand(s, size, u) :: u == t
  {
    hide InBand, Tier;
    t := Tier(s, size);
    TierIsBand(s, size, t);
    forall u | InBand(s, size, u)
      ensures u == t
    {
      TierIsBand(s, size, u);
    }
  }

  ghost predicate SameBand(s: Segment, o: Segment, size: Size) {
    exists t: nat :: InBand(s, size, t) && InBand(o, size, t)
  }

  lemma {:induction false} SameTier(s: Segment, o: Segment, size: Size)
    requires ValidSegment(s) && ValidSegment(o)
    ensures SameBand(s, o, size) <==> Tier(s, size) == Tier(o, size)
  {
    hide InBand, Tier;
    TierIsBand(s, size, Tier(s, size));
    TierIsBand(o, size, Tier(s, size));
    if SameBand(s, o, size) {
      var t: nat :| InBand(s, size, t) && InBand(o, size, t);
      TierIsBand(s, size, t);
      TierIsBand(o, size, t);
    }
  }

  // ----- Who is planned -----

  /** More of it is tombstoned than the threshold, and it is not too large. */
  ghost predicate TooDead(s: Segment, size: Size, pol: Policy) {
    |s.docs| > 0 && |s.deleted| as real > pol.threshold * |s.docs| as real && size(s) <= pol.maxBytes
  }

  lemma {:induction false} DeadIsOver(s: Segment, size: Size, pol: Policy)
    ensures OverDeleted(s, size, pol) <==> TooDead(s, size, pol)
  {
    if |s.docs| > 0 {
      Quotient(|s.deleted| as real, |s.docs| as real, pol.threshold);
    }
  }

  lemma {:induction false} Quotient(a: real, b: real, q: real)
    requires b > 0.0
    ensures a / b > q <==> a > q * b
  {
    var r := a / b;
    assert a == r * b;
    if r > q {
      assert (r - q) * b > 0.0;
    } else {
      assert (q - r) * b >= 0.0;
    }
  }

  ghost predicate Pooled(s: Segment, size: Size, pol: Policy) {
    !TooDead(s, size, pol) && size(s) <= pol.maxBytes
  }

  /** The ids of the pooled segments in the band of `s`. */
  ghost function Mates(segs: seq<Segment>, s: Segment, size: Size, pol: Policy): set<nat> {
    set i | 0 <= i < |segs| && Pooled(segs[i], size, pol) && SameBand(s, segs[i], size) :: segs[i].id
  }

  lemma {:induction false} CountNoDups(ids: seq<nat>)
    requires NoDups(ids)
    ensures |Used(ids)| == |ids|
  {
    if ids == [] {
      assert Used(ids) == {};
    } else {
      var front, last := ids[..|ids| - 1], ids[|ids| - 1];
      CountNoDups(front);
      assert ids == front + [last] && Used(ids) == Used(front) + {last};
      assert last !in front;
    }
  }

  ghost predicate AllValid(segs: seq<Segment>) {
    forall i | 0 <= i < |segs| :: ValidSegment(segs[i])
  }

  lemma {:induction false} PoolableIs(segs: seq<Segment>, size: Size, pol: Policy, i: nat)
    requires DistinctIds(segs) && i < |segs|
    ensures Poolable(segs[i], Used(Rewrites(segs, size, pol)), size, pol) <==> Pooled(segs[i], size, pol)
  {
    hide OverDeleted, TooDead, Rewrites, DistinctIds;
    RewrittenIff(segs, size, pol, i);
    DeadIsOver(segs[i], size, pol);
  }

  lemma {:induction false} MatesAre(segs: seq<Segment>, s: Segment, size: Size, pol: Policy)
    requires DistinctIds(segs) && AllValid(segs) && ValidSegment(s)
    ensures forall id :: id in TierMates(segs, s, size, pol) <==> id in Mates(segs, s, size, pol)
    ensures |TierMates(segs, s, size, pol)| == |Mates(segs, s, size, pol)|
  {
    hide Tier, Poolable, Pooled, SameBand, Rewrites, InTier, NoDups, DistinctIds, ValidSegment;
    var used, t := Used(Rewrites(segs, size, pol)), Tier(s, size);
    InTierAre(segs, used, t, size, pol);
    forall i | 0 <= i < |segs|
      ensures Poolable(segs[i], used, size, pol) <==> Pooled(segs[i], size, pol)
      ensures SameBand(s, segs[i], size) <==> Tier(segs[i], size) == t
    {
      PoolableIs(segs, size, pol, i);
      SameTier(s, segs[i], size);
    }
    var ids := TierMates(segs, s, size, pol);
    forall id
      ensures id in ids <==> id in Mates(segs, s, size, pol)
    {
      assert id in ids <==> Pools(segs, used, t, size, pol, id);
    }
    CountNoDups(ids);
    assert Used(ids) == Mates(segs, s, size, pol);
  }

  /**
   A segment is planned exactly when too much of it is dead, or it is among
   enough pooled segments of its band and is not the odd one out: the highest id
   of a number that leaves one over.
   */
  lemma {:induction false} PlannedExactly(segs: seq<Segment>, size: Size, pol: Policy, i: nat)
    requires DistinctIds(segs) && AllValid(segs) && i < |segs|
    ensures var s, mates := segs[i], Mates(segs, segs[i], size, pol);
      s.id in Flat(Plan(segs, size, pol))
      <==> TooDead(s, size, pol)
           || (size(s) <= pol.maxBytes && |mates| >= pol.tierSize
               && !(|mates| % (if pol.maxMerge < 2 then 2 else pol.maxMerge) == 1 && forall o | o in mates :: o <= s.id))
  {
    PlannedIff(segs, size, pol, i);
    DeadIsOver(segs[i], size, pol);
    assert ValidSegment(segs[i]);
    MatesAre(segs, segs[i], size, pol);
    hide OverDeleted, TooDead, Plan, Flat, TierMates, Mates, DistinctIds, ValidSegment;
  }

  /** A plan's groups: one that is too dead alone, or pooled segments of one band. */
  ghost predicate GroupMeans(segs: seq<Segment>, size: Size, pol: Policy, g: seq<nat>) {
    || (|g| == 1 && exists i :: 0 <= i < |segs| && segs[i].id == g[0] && TooDead(segs[i], size, pol))
    || (2 <= |g| <= (if pol.maxMerge < 2 then 2 else pol.maxMerge) && exists t: nat :: AllInBand(segs, size, pol, g, t))
  }

  ghost predicate AllInBand(segs: seq<Segment>, size: Size, pol: Policy, g: seq<nat>, t: nat) {
    forall id | id in g :: BandMember(segs, size, pol, id, t)
  }

  ghost predicate BandMember(segs: seq<Segment>, size: Size, pol: Policy, id: nat, t: nat) {
    exists i :: 0 <= i < |segs| && segs[i].id == id && Pooled(segs[i], size, pol) && InBand(segs[i], size, t)
  }

  lemma {:induction false} PlanMeans(segs: seq<Segment>, size: Size, pol: Policy, g: seq<nat>)
    requires DistinctIds(segs) && AllValid(segs) && g in Plan(segs, size, pol)
    ensures GroupMeans(segs, size, pol, g)
  {
    PlanGroups(segs, size, pol);
    hide Plan, OverDeleted, TooDead, FromTier, AllInBand, DistinctIds, AllValid;
    assert GroupFits(segs, size, pol, g);
    if |g| == 1 {
      assert g[0] in g;
      var i :| 0 <= i < |segs| && segs[i].id == g[0] && size(segs[i]) <= pol.maxBytes && OverDeleted(segs[i], size, pol);
      DeadIsOver(segs[i], size, pol);
    } else {
      var t: nat :| FromTier(segs, size, pol, g, t);
      TierBand(segs, size, pol, g, t);
    }
  }

  lemma {:induction false} TierBand(segs: seq<Segment>, size: Size, pol: Policy, g: seq<nat>, t: nat)
    requires DistinctIds(segs) && AllValid(segs) && FromTier(segs, size, pol, g, t)
    ensures AllInBand(segs, size, pol, g, t)
  {
    hide Tier, Poolable, Pooled, InBand, Rewrites, DistinctIds, ValidSegment;
    var used := Used(Rewrites(segs, size, pol));
    forall id | id in g
      ensures BandMember(segs, size, pol, id, t)
    {
      assert Pools(segs, used, t, size, pol, id);
      var i :| 0 <= i < |segs| && segs[i].id == id && Poolable(segs[i], used, size, pol) && Tier(segs[i], size) == t;
      PoolableIs(segs, size, pol, i);
      TierIsBand(segs[i], size, t);
    }
  }

  // ----- What a band says -----

  /** Of two untouched segments of a mebibyte or more pooled together, neither is twice the other. */
  lemma {:induction false} PooledWithinTwofold(segs: seq<Segment>, size: Size, pol: Policy, g: seq<nat>, i: nat, j: nat)
    requires DistinctIds(segs) && AllValid(segs) && g in Plan(segs, size, pol) && |g| >= 2
    requires i < |segs| && j < |segs| && segs[i].id in g && segs[j].id in g
    requires segs[i].deleted == segs[j].deleted == {} && segs[i].docs != [] && segs[j].docs != []
    requires size(segs[i]) >= 1048576 && size(segs[j]) >= 1048576
    ensures size(segs[i]) < 2 * size(segs[j])
  {
    hide Plan, InBand, Pooled;
    PlanMeans(segs, size, pol, g);
    var t: nat :| AllInBand(segs, size, pol, g, t);
    assert BandMember(segs, size, pol, segs[i].id, t) && BandMember(segs, size, pol, segs[j].id, t);
    WholeBand(segs[i], size, t);
    WholeBand(segs[j], size, t);
    assert Bytes.Pow2(t + 1) == 2 * Bytes.Pow2(t);
  }

  /** An untouched segment's band is that of its bytes. */
  lemma {:induction false} WholeBand(s: Segment, size: Size, t: nat)
    requires s.deleted == {} && s.docs != [] && size(s) >= 1048576
    ensures InBand(s, size, t) <==> Bytes.Pow2(t) <= size(s) < Bytes.Pow2(t + 1)
  {
    AllAlive(s);
    hide Alive, Bytes.Pow2;
    Unit(|s.docs| as real, size(s) as real);
  }

  lemma {:induction false} AllAlive(s: Segment)
    requires s.deleted == {}
    ensures |Alive(s)| == |s.docs|
  {
    assert Alive(s) == Below(|s.docs|);
  }

  lemma {:induction false} Unit(n: real, x: real)
    requires n > 0.0
    ensures n / n == 1.0 && x * (n / n) == x
  {
  }

  /** With more tombstones in no more bytes, a segment is in no higher band. */
  lemma {:induction false} TombstonesLower(s: Segment, after: Segment, size: Size, t: nat, u: nat)
    requires after.docs == s.docs && s.deleted <= after.deleted && size(after) <= size(s)
    requires InBand(s, size, t) && InBand(after, size, u)
    ensures u <= t
  {
    hide Weight;
    LessWeight(s, after, size);
    if u > t {
      PowersGrow(t + 1, u);
    }
  }

  lemma {:induction false} LessWeight(s: Segment, after: Segment, size: Size)
    requires after.docs == s.docs && s.deleted <= after.deleted && size(after) <= size(s)
    ensures Weight(after, size) <= Weight(s, size)
  {
    assert Alive(after) <= Alive(s);
    Fewer(Alive(after), Alive(s));
    hide Alive;
    if |s.docs| > 0 {
      var n, x, y := |s.docs| as real, |Alive(after)| as real, |Alive(s)| as real;
      Divided(x, y, n);
      Shrinks(size(after) as real, size(s) as real, x / n, y / n);
    }
  }

  lemma {:induction false} Divided(x: real, y: real, n: real)
    requires 0.0 <= x <= y && n > 0.0
    ensures 0.0 <= x / n <= y / n
  {
    var p, q := x / n, y / n;
    assert x == p * n && y == q * n;
    if q < p {
      Times(q, p, n);
    }
    if p < 0.0 {
      Times(p, 0.0, n);
    }
  }

  lemma {:induction false} Times(p: real, q: real, n: real)
    requires p < q && n > 0.0
    ensures p * n < q * n
  {
    assert (q - p) * n > 0.0;
  }

  lemma {:induction false} Fewer(a: set<nat>, b: set<nat>)
    requires a <= b
    ensures |a| <= |b|
  {
    assert b == a + (b - a);
  }

  lemma {:induction false} Shrinks(a: real, b: real, p: real, q: real)
    requires 0.0 <= a <= b && 0.0 <= p <= q
    ensures a * p <= b * q
  {
    assert a * p <= b * p;
    assert b * p <= b * q;
  }

  lemma {:induction false} PowersGrow(a: nat, b: nat)
    requires a <= b
    ensures Bytes.Pow2(a) <= Bytes.Pow2(b)
  {
    if a < b {
      PowersGrow(a, b - 1);
    }
  }
}
