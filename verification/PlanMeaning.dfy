/**
 What a merge plan covers: groups share no segment, and exactly which segments
 are planned (src/store/merge.rs).
 */
module PlanMeaning {
  import Bytes
  import opened Documents
  import opened Segments
  import opened PlanMerges

  ghost predicate NoDups(ids: seq<nat>) {
    forall i, j | 0 <= i < j < |ids| :: ids[i] != ids[j]
  }

  function Flat(groups: seq<seq<nat>>): seq<nat> {
    if groups == [] then [] else groups[0] + Flat(groups[1..])
  }

  lemma {:induction false} FlatConcat(a: seq<seq<nat>>, b: seq<seq<nat>>)
    ensures Flat(a + b) == Flat(a) + Flat(b)
  {
    if a == [] {
      assert a + b == b;
    } else {
      assert (a + b)[1..] == a[1..] + b;
      FlatConcat(a[1..], b);
    }
  }

  lemma {:induction false} FlatHas(groups: seq<seq<nat>>, k: nat)
    requires k < |groups|
    ensures forall id | id in groups[k] :: id in Flat(groups)
    ensures NoDups(Flat(groups)) ==> NoDups(groups[k])
    decreases |groups|
  {
    var rest := Flat(groups[1..]);
    if k > 0 {
      FlatHas(groups[1..], k - 1);
      assert groups[1..][k - 1] == groups[k];
      assert NoDups(groups[0] + rest) ==> NoDups(rest) by { TailNoDups(groups[0], rest); }
    } else {
      HeadNoDups(groups[0], rest);
    }
  }

  lemma {:induction false} HeadNoDups(a: seq<nat>, b: seq<nat>)
    ensures NoDups(a + b) ==> NoDups(a)
  {
    if NoDups(a + b) {
      forall i, j | 0 <= i < j < |a|
        ensures a[i] != a[j]
      {
        assert (a + b)[i] == a[i] && (a + b)[j] == a[j];
      }
    }
  }

  lemma {:induction false} TailNoDups(a: seq<nat>, b: seq<nat>)
    ensures NoDups(a + b) ==> NoDups(b)
  {
    if NoDups(a + b) {
      forall i, j | 0 <= i < j < |b|
        ensures b[i] != b[j]
      {
        assert (a + b)[|a| + i] == b[i] && (a + b)[|a| + j] == b[j];
      }
    }
  }

  lemma {:induction false} NoDupsApart(a: seq<nat>, b: seq<nat>, id: nat)
    requires NoDups(a + b) && id in a
    ensures id !in b
  {
    var i: nat :| i < |a| && a[i] == id;
    forall j: nat | j < |b|
      ensures b[j] != id
    {
      assert (a + b)[i] == a[i] && (a + b)[|a| + j] == b[j];
    }
  }

  lemma {:induction false} FlatApart(groups: seq<seq<nat>>, j: nat, k: nat, id: nat)
    requires NoDups(Flat(groups)) && j < k < |groups| && id in groups[j]
    ensures id !in groups[k]
    decreases |groups|
  {
    var rest := Flat(groups[1..]);
    TailNoDups(groups[0], rest);
    if j > 0 {
      FlatApart(groups[1..], j - 1, k - 1, id);
    } else {
      NoDupsApart(groups[0], rest, id);
      FlatHas(groups[1..], k - 1);
      assert groups[1..][k - 1] == groups[k];
    }
  }

  lemma {:induction false} JoinNoDups(a: seq<nat>, b: seq<nat>)
    requires NoDups(a) && NoDups(b) && forall id | id in a :: id !in b
    ensures NoDups(a + b)
  {
    forall i, j | 0 <= i < j < |a + b|
      ensures (a + b)[i] != (a + b)[j]
    {
      if i < |a| && j >= |a| {
        assert (a + b)[i] in a && (a + b)[j] in b;
      }
    }
  }

  lemma {:induction false} FlatSingletons(ids: seq<nat>)
    ensures Flat(Singletons(ids)) == ids
  {
    if ids != [] {
      assert Singletons(ids)[1..] == Singletons(ids[1..]);
      FlatSingletons(ids[1..]);
    }
  }

  // ----- Sorting and cutting -----

  lemma {:induction false} InsertHolds(sorted: seq<nat>, id: nat)
    ensures multiset(Insert(sorted, id)) == multiset(sorted) + multiset{id}
  {
    if sorted != [] && sorted[0] < id {
      InsertHolds(sorted[1..], id);
      assert sorted == [sorted[0]] + sorted[1..];
    }
  }

  lemma {:induction false} InsertHas(sorted: seq<nat>, id: nat, j: nat)
    requires multiset(Insert(sorted, id)) == multiset(sorted) + multiset{id} && j < |Insert(sorted, id)|
    ensures Insert(sorted, id)[j] in sorted || Insert(sorted, id)[j] == id
  {
    hide Insert;
    assert Insert(sorted, id)[j] in multiset(Insert(sorted, id));
  }

  lemma {:induction false} InsertIs(sorted: seq<nat>, id: nat)
    requires forall i, j | 0 <= i < j < |sorted| :: sorted[i] <= sorted[j]
    ensures multiset(Insert(sorted, id)) == multiset(sorted) + multiset{id}
    ensures forall i, j | 0 <= i < j < |Insert(sorted, id)| :: Insert(sorted, id)[i] <= Insert(sorted, id)[j]
  {
    InsertHolds(sorted, id);
    if sorted != [] && sorted[0] < id {
      var rest := Insert(sorted[1..], id);
      InsertIs(sorted[1..], id);
      forall j | 0 <= j < |rest|
        ensures sorted[0] <= rest[j]
      {
        InsertHas(sorted[1..], id, j);
      }
    }
  }

  lemma {:induction false} SortedIs(ids: seq<nat>)
    ensures multiset(Sorted(ids)) == multiset(ids)
    ensures forall i, j | 0 <= i < j < |Sorted(ids)| :: Sorted(ids)[i] <= Sorted(ids)[j]
  {
    if ids != [] {
      SortedIs(ids[1..]);
      InsertIs(Sorted(ids[1..]), ids[0]);
      assert ids == [ids[0]] + ids[1..];
    }
  }

  lemma {:induction false} PermutedNoDups(a: seq<nat>, b: seq<nat>)
    requires multiset(a) == multiset(b) && NoDups(a)
    ensures NoDups(b) && |a| == |b| && forall id :: id in a <==> id in b
  {
    assert |a| == |multiset(a)| && |b| == |multiset(b)|;
    forall i, j | 0 <= i < j < |b|
      ensures b[i] != b[j]
    {
      if b[i] == b[j] {
        TwiceCounts(b, i, j);
        OnceCounts(a, b[i]);
      }
    }
    forall id
      ensures id in a <==> id in b
    {
      assert id in a <==> id in multiset(a);
      assert id in b <==> id in multiset(b);
    }
  }

  lemma {:induction false} TwiceCounts(s: seq<nat>, i: nat, j: nat)
    requires i < j < |s| && s[i] == s[j]
    ensures multiset(s)[s[i]] >= 2
  {
    assert s == s[..j] + [s[j]] + s[j + 1..];
    assert s[..j][i] == s[i] && s[i] in multiset(s[..j]);
  }

  lemma {:induction false} OnceCounts(s: seq<nat>, id: nat)
    requires NoDups(s)
    ensures multiset(s)[id] <= 1
  {
    if s != [] {
      var n := |s| - 1;
      assert s == s[..n] + [s[n]];
      OnceCounts(s[..n], id);
      if s[n] == id {
        assert forall i | 0 <= i < n :: s[..n][i] != id;
        assert id !in s[..n];
      }
    }
  }

  /** Cutting loses nothing but a last run of one. */
  lemma {:induction false} ChunksFlat(ids: seq<nat>, n: nat)
    requires n >= 2
    ensures Flat(Chunks(ids, n)) == if |ids| % n == 1 then ids[..|ids| - 1] else ids
    ensures forall g | g in Chunks(ids, n) :: 2 <= |g| <= n
    decreases |ids|
  {
    if |ids| <= n {
      SmallMod(|ids|, n);
      hide *;
      LastChunk(ids, n);
    } else {
      ChunksFlat(ids[n..], n);
      DropN(|ids| - n, n);
      FlatConcat([ids[..n]], Chunks(ids[n..], n));
      hide Chunks, Flat;
      CutAt(ids, n);
    }
  }

  lemma {:induction false} CutAt(ids: seq<nat>, n: nat)
    requires 2 <= n < |ids|
    ensures Chunks(ids, n) == [ids[..n]] + Chunks(ids[n..], n) && Flat([ids[..n]]) == ids[..n]
    ensures ids[..n] + ids[n..] == ids && ids[..n] + ids[n..][..|ids| - n - 1] == ids[..|ids| - 1]
  {
    assert [ids[..n]][1..] == [];
  }

  lemma {:induction false} LastChunk(ids: seq<nat>, n: nat)
    requires 2 <= n && |ids| <= n
    ensures Flat(Chunks(ids, n)) == if |ids| == 1 then ids[..|ids| - 1] else ids
    ensures forall g | g in Chunks(ids, n) :: 2 <= |g| <= n
  {
    assert [ids][1..] == [];
    assert Flat([ids]) == ids + Flat([]);
  }

  lemma {:induction false} SmallMod(a: nat, n: nat)
    requires 2 <= n && a <= n
    ensures a % n == 1 <==> a == 1
  {
    if a == n {
      DivUnique(a, n, 1, 0);
    } else {
      DivUnique(a, n, 0, a);
    }
  }

  lemma {:induction false} DropN(a: nat, n: nat)
    requires n >= 2
    ensures (a + n) % n == a % n
  {
    DivUnique(a + n, n, a / n + 1, a % n);
  }

  lemma {:induction false} MulGap(n: nat, p: nat, q: nat)
    requires p < q
    ensures n * q >= n * p + n
  {
    var gap := q - p - 1;
    Bytes.Distribute(n, p, 1 + gap);
    Bytes.Distribute(n, 1, gap);
    assert n * gap >= 0;
  }

  lemma {:induction false} DivUnique(a: nat, n: nat, q: nat, r: nat)
    requires n >= 2 && r < n && a == n * q + r
    ensures a % n == r
  {
    var p := a / n;
    assert a == n * p + a % n;
    if p < q {
      MulGap(n, p, q);
    } else if p > q {
      MulGap(n, q, p);
    }
  }

  // ----- Who is planned -----

  lemma {:induction false} RewritesAre(segs: seq<Segment>, size: Size, pol: Policy)
    requires DistinctIds(segs)
    ensures NoDups(Rewrites(segs, size, pol))
    ensures forall id {:trigger id in Rewrites(segs, size, pol)} :: id in Rewrites(segs, size, pol) <==> exists i :: 0 <= i < |segs| && segs[i].id == id && OverDeleted(segs[i], size, pol)
  {
    hide OverDeleted;
    if segs != [] {
      var n := |segs| - 1;
      RewritesAre(segs[..n], size, pol);
      JoinNoDups(Rewrites(segs[..n], size, pol), if OverDeleted(segs[n], size, pol) then [segs[n].id] else []);
      forall id | id in Rewrites(segs, size, pol)
        ensures exists i :: 0 <= i < |segs| && segs[i].id == id && OverDeleted(segs[i], size, pol)
      {
        if id in Rewrites(segs[..n], size, pol) {
          var i :| 0 <= i < n && segs[..n][i].id == id && OverDeleted(segs[..n][i], size, pol);
          assert segs[i].id == id;
        } else {
          assert segs[n].id == id;
        }
      }
      forall i | 0 <= i < |segs| && OverDeleted(segs[i], size, pol)
        ensures segs[i].id in Rewrites(segs, size, pol)
      {
        if i < n {
          assert segs[..n][i] == segs[i];
        }
      }
    }
  }

  ghost predicate Pools(segs: seq<Segment>, used: set<nat>, t: nat, size: Size, pol: Policy, id: nat) {
    exists i :: 0 <= i < |segs| && segs[i].id == id && Poolable(segs[i], used, size, pol) && Tier(segs[i], size) == t
  }

  lemma {:induction false} InTierAre(segs: seq<Segment>, used: set<nat>, t: nat, size: Size, pol: Policy)
    requires DistinctIds(segs)
    ensures NoDups(InTier(segs, used, t, size, pol))
    ensures forall id {:trigger Pools(segs, used, t, size, pol, id)} {:trigger id in InTier(segs, used, t, size, pol)} ::
              id in InTier(segs, used, t, size, pol) <==> Pools(segs, used, t, size, pol, id)
  {
    hide Tier, Poolable;
    if segs != [] {
      var n := |segs| - 1;
      InTierAre(segs[..n], used, t, size, pol);
      JoinNoDups(InTier(segs[..n], used, t, size, pol),
                 if Poolable(segs[n], used, size, pol) && Tier(segs[n], size) == t then [segs[n].id] else []);
      forall id
        ensures id in InTier(segs, used, t, size, pol) <==> Pools(segs, used, t, size, pol, id)
      {
        if Pools(segs[..n], used, t, size, pol, id) {
          var i :| 0 <= i < n && segs[..n][i].id == id && Poolable(segs[..n][i], used, size, pol) && Tier(segs[..n][i], size) == t;
          assert segs[i] == segs[..n][i];
        }
        if i :| 0 <= i < |segs| && segs[i].id == id && Poolable(segs[i], used, size, pol) && Tier(segs[i], size) == t {
          if i < n {
            assert segs[..n][i] == segs[i];
          }
        }
      }
    }
  }

  lemma {:induction false} BelowTop(segs: seq<Segment>, used: set<nat>, size: Size, pol: Policy)
    ensures forall i | 0 <= i < |segs| && Poolable(segs[i], used, size, pol) :: Tier(segs[i], size) < TopTier(segs, used, size, pol)
  {
    hide Tier, Poolable;
    if segs != [] {
      var n := |segs| - 1;
      BelowTop(segs[..n], used, size, pol);
      forall i | 0 <= i < |segs| && Poolable(segs[i], used, size, pol)
        ensures Tier(segs[i], size) < TopTier(segs, used, size, pol)
      {
        if i < n {
          assert segs[..n][i] == segs[i];
        }
      }
    }
  }

  /** The last by id of a tier that does not divide into runs. */
  ghost predicate LeftOver(ids: seq<nat>, pol: Policy, id: nat) {
    |ids| % ChunkSize(pol) == 1 && forall other | other in ids :: other <= id
  }

  ghost predicate Taken(ids: seq<nat>, pol: Policy, id: nat) {
    id in ids && |ids| >= pol.tierSize && !LeftOver(ids, pol, id)
  }

  /** One tier's groups: no segment twice, and all but the leftover. */
  lemma {:induction false} PlanTierIs(ids: seq<nat>, pol: Policy)
    requires NoDups(ids)
    ensures NoDups(Flat(PlanTier(ids, pol)))
    ensures forall id {:trigger Taken(ids, pol, id)} {:trigger id in Flat(PlanTier(ids, pol))} :: id in Flat(PlanTier(ids, pol)) <==> Taken(ids, pol, id)
    ensures forall g | g in PlanTier(ids, pol) :: 2 <= |g| <= ChunkSize(pol)
    ensures PlanTier(ids, pol) == [] <==> |ids| < 2 || |ids| < pol.tierSize
  {
    hide Sorted, Chunks, NoDups, Flat;
    var s, n := Sorted(ids), ChunkSize(pol);
    SortedIs(ids);
    PermutedNoDups(ids, s);
    ChunksFlat(s, n);
    CutNoDups(s, n);
    ChunksEmpty(s, n);
    assert Flat([]) == [] && NoDups(Flat([])) by { NoneFlat(); }
    forall id
      ensures id in Flat(Chunks(s, n)) <==> id in ids && !LeftOver(ids, pol, id)
    {
      SortedCut(ids, s, n, id);
    }
  }

  lemma {:induction false} NoneFlat()
    ensures Flat([]) == [] && NoDups(Flat([]))
  {
  }

  lemma {:induction false} CutNoDups(s: seq<nat>, n: nat)
    requires n >= 2 && NoDups(s)
    ensures NoDups(if |s| % n == 1 then s[..|s| - 1] else s)
  {
  }

  lemma {:induction false} SortedCut(ids: seq<nat>, s: seq<nat>, n: nat, id: nat)
    requires n >= 2 && NoDups(s) && |ids| == |s| && (forall x :: x in ids <==> x in s)
    requires forall i, j | 0 <= i < j < |s| :: s[i] <= s[j]
    ensures id in (if |s| % n == 1 then s[..|s| - 1] else s) <==> id in ids && !(|ids| % n == 1 && forall other | other in ids :: other <= id)
  {
    if |s| % n == 1 {
      var last := s[|s| - 1];
      assert last in ids;
      forall other | other in ids
        ensures other <= last
      {
        var i: nat :| i < |s| && s[i] == other;
      }
      if id in s && id != last {
        assert !(last <= id);
      }
    }
  }

  lemma {:induction false} ChunksEmpty(ids: seq<nat>, n: nat)
    requires n >= 2
    ensures Chunks(ids, n) == [] <==> |ids| < 2
  {
  }

  ghost predicate TakenBelow(segs: seq<Segment>, used: set<nat>, n: nat, size: Size, pol: Policy, id: nat) {
    exists t: nat :: t < n && Taken(InTier(segs, used, t, size, pol), pol, id)
  }

  lemma {:induction false} OneTier(segs: seq<Segment>, used: set<nat>, t: nat, u: nat, size: Size, pol: Policy, id: nat)
    requires DistinctIds(segs) && Pools(segs, used, t, size, pol, id) && Pools(segs, used, u, size, pol, id)
    ensures t == u
  {
    hide Tier, Poolable;
    var i :| 0 <= i < |segs| && segs[i].id == id && Poolable(segs[i], used, size, pol) && Tier(segs[i], size) == t;
    var j :| 0 <= j < |segs| && segs[j].id == id && Poolable(segs[j], used, size, pol) && Tier(segs[j], size) == u;
    assert i == j;
  }

  lemma {:induction false} PlanTiersAre(segs: seq<Segment>, used: set<nat>, n: nat, size: Size, pol: Policy)
    requires DistinctIds(segs)
    ensures NoDups(Flat(PlanTiers(segs, used, n, size, pol)))
    ensures forall id {:trigger TakenBelow(segs, used, n, size, pol, id)} {:trigger id in Flat(PlanTiers(segs, used, n, size, pol))} ::
              id in Flat(PlanTiers(segs, used, n, size, pol)) <==> TakenBelow(segs, used, n, size, pol, id)
    ensures forall g | g in PlanTiers(segs, used, n, size, pol) :: 2 <= |g| <= ChunkSize(pol)
  {
    if n == 0 {
      NoneFlat();
    } else {
      var m: nat := n - 1;
      var ids := InTier(segs, used, m, size, pol);
      var a, b := PlanTiers(segs, used, m, size, pol), PlanTier(ids, pol);
      assert PlanTiers(segs, used, n, size, pol) == a + b;
      PlanTiersAre(segs, used, m, size, pol);
      InTierAre(segs, used, m, size, pol);
      PlanTierIs(ids, pol);
      hide Taken, InTier, PlanTier, PlanTiers, Pools, TakenBelow, NoDups, Flat, DistinctIds;
      FlatConcat(a, b);
      forall id
        ensures id in Flat(a) ==> id !in Flat(b)
        ensures TakenBelow(segs, used, n, size, pol, id) <==> id in Flat(a) || id in Flat(b)
      {
        assert id in Flat(a) <==> TakenBelow(segs, used, m, size, pol, id);
        assert id in Flat(b) <==> Taken(ids, pol, id);
        TakenNext(segs, used, m, size, pol, id);
      }
      JoinNoDups(Flat(a), Flat(b));
    }
  }

  lemma {:induction false} TakenNext(segs: seq<Segment>, used: set<nat>, m: nat, size: Size, pol: Policy, id: nat)
    requires DistinctIds(segs)
    ensures TakenBelow(segs, used, m + 1, size, pol, id)
            <==> TakenBelow(segs, used, m, size, pol, id) || Taken(InTier(segs, used, m, size, pol), pol, id)
    ensures !(TakenBelow(segs, used, m, size, pol, id) && Taken(InTier(segs, used, m, size, pol), pol, id))
  {
    hide Taken, InTier, Pools, DistinctIds;
    if TakenBelow(segs, used, m, size, pol, id) && Taken(InTier(segs, used, m, size, pol), pol, id) {
      var t: nat :| t < m && Taken(InTier(segs, used, t, size, pol), pol, id);
      TakenPools(segs, used, t, size, pol, id);
      TakenPools(segs, used, m, size, pol, id);
      OneTier(segs, used, t, m, size, pol, id);
    }
  }

  lemma {:induction false} TakenPools(segs: seq<Segment>, used: set<nat>, t: nat, size: Size, pol: Policy, id: nat)
    requires DistinctIds(segs) && Taken(InTier(segs, used, t, size, pol), pol, id)
    ensures Pools(segs, used, t, size, pol, id)
  {
    InTierAre(segs, used, t, size, pol);
  }

  // ----- The whole plan -----

  /** The segments pooled with `s`, by id. */
  function TierMates(segs: seq<Segment>, s: Segment, size: Size, pol: Policy): seq<nat> {
    InTier(segs, Used(Rewrites(segs, size, pol)), Tier(s, size), size, pol)
  }

  /** Rewritten alone for its tombstones, or pooled in a tier with enough segments and not its odd one out. */
  ghost predicate Planned(segs: seq<Segment>, s: Segment, size: Size, pol: Policy) {
    || OverDeleted(s, size, pol)
    || (size(s) <= pol.maxBytes && |TierMates(segs, s, size, pol)| >= pol.tierSize && !LeftOver(TierMates(segs, s, size, pol), pol, s.id))
  }

  ghost predicate IdOf(segs: seq<Segment>, size: Size, pol: Policy, id: nat, alone: bool) {
    exists i :: 0 <= i < |segs| && segs[i].id == id && size(segs[i]) <= pol.maxBytes && OverDeleted(segs[i], size, pol) == alone
  }

  lemma {:induction false} RewrittenIff(segs: seq<Segment>, size: Size, pol: Policy, i: nat)
    requires DistinctIds(segs) && i < |segs|
    ensures segs[i].id in Used(Rewrites(segs, size, pol)) <==> OverDeleted(segs[i], size, pol)
  {
    RewritesAre(segs, size, pol);
    hide OverDeleted, Rewrites;
    if segs[i].id in Rewrites(segs, size, pol) {
      var j :| 0 <= j < |segs| && segs[j].id == segs[i].id && OverDeleted(segs[j], size, pol);
      assert i == j;
    }
  }

  /** No segment is planned twice. */
  lemma {:induction false} PlannedOnce(segs: seq<Segment>, size: Size, pol: Policy)
    requires DistinctIds(segs)
    ensures NoDups(Flat(Plan(segs, size, pol)))
  {
    var rewrites := Rewrites(segs, size, pol);
    var used := Used(rewrites);
    var top := TopTier(segs, used, size, pol);
    var tiers := PlanTiers(segs, used, top, size, pol);
    RewritesAre(segs, size, pol);
    PlanTiersAre(segs, used, top, size, pol);
    FlatSingletons(rewrites);
    FlatConcat(Singletons(rewrites), tiers);
    hide Rewrites, PlanTiers, TopTier, OverDeleted, Flat, NoDups;
    forall id | id in Flat(tiers)
      ensures id !in rewrites
    {
      PooledOnly(segs, top, size, pol, id);
    }
    JoinNoDups(rewrites, Flat(tiers));
  }

  ghost predicate GroupFits(segs: seq<Segment>, size: Size, pol: Policy, g: seq<nat>) {
    && 1 <= |g| <= ChunkSize(pol) && (forall id | id in g :: IdOf(segs, size, pol, id, |g| == 1))
    && (|g| > 1 ==> exists t :: FromTier(segs, size, pol, g, t))
  }

  /** All of `g` is pooled in tier `t`. */
  ghost predicate FromTier(segs: seq<Segment>, size: Size, pol: Policy, g: seq<nat>, t: nat) {
    forall id | id in g :: Pools(segs, Used(Rewrites(segs, size, pol)), t, size, pol, id)
  }

  /**
   No group is too long, no member over the size cap, exactly the rewrites stand
   alone, and whatever is pooled together is of one tier.
   */
  lemma {:induction false} PlanGroups(segs: seq<Segment>, size: Size, pol: Policy)
    requires DistinctIds(segs)
    ensures forall g | g in Plan(segs, size, pol) :: GroupFits(segs, size, pol, g)
  {
    var rewrites := Rewrites(segs, size, pol);
    var top := TopTier(segs, Used(rewrites), size, pol);
    var tiers := PlanTiers(segs, Used(rewrites), top, size, pol);
    hide Rewrites, PlanTiers, TopTier, OverDeleted, NoDups, Flat, IdOf;
    forall g | g in Plan(segs, size, pol)
      ensures GroupFits(segs, size, pol, g)
    {
      if g in tiers {
        PoolFits(segs, top, size, pol, g);
      } else {
        var k: nat :| k < |rewrites| && g == [rewrites[k]];
        AloneOnly(segs, size, pol, rewrites[k]);
      }
    }
  }

  lemma {:induction false} PoolFits(segs: seq<Segment>, n: nat, size: Size, pol: Policy, g: seq<nat>)
    requires DistinctIds(segs) && g in PlanTiers(segs, Used(Rewrites(segs, size, pol)), n, size, pol)
    ensures GroupFits(segs, size, pol, g)
  {
    var used := Used(Rewrites(segs, size, pol));
    var tiers := PlanTiers(segs, used, n, size, pol);
    PlanTiersAre(segs, used, n, size, pol);
    var t := GroupTier(segs, n, size, pol, g);
    hide Rewrites, PlanTiers, NoDups, Flat, IdOf, FromTier;
    var k: nat :| k < |tiers| && tiers[k] == g;
    FlatHas(tiers, k);
    forall id | id in g
      ensures IdOf(segs, size, pol, id, false)
    {
      PooledOnly(segs, n, size, pol, id);
    }
  }

  lemma {:induction false} GroupTier(segs: seq<Segment>, n: nat, size: Size, pol: Policy, g: seq<nat>) returns (t: nat)
    requires DistinctIds(segs) && g in PlanTiers(segs, Used(Rewrites(segs, size, pol)), n, size, pol)
    ensures FromTier(segs, size, pol, g, t)
  {
    hide Rewrites, InTier, PlanTier, Pools, DistinctIds;
    var used := Used(Rewrites(segs, size, pol));
    var groups := PlanTier(InTier(segs, used, n - 1, size, pol), pol);
    if g in groups {
      t := n - 1;
      InTierAre(segs, used, t, size, pol);
      PlanTierIs(InTier(segs, used, t, size, pol), pol);
      var k: nat :| k < |groups| && groups[k] == g;
      FlatHas(groups, k);
    } else {
      t := GroupTier(segs, n - 1, size, pol, g);
    }
  }

  lemma {:induction false} AloneOnly(segs: seq<Segment>, size: Size, pol: Policy, id: nat)
    requires DistinctIds(segs) && id in Rewrites(segs, size, pol)
    ensures IdOf(segs, size, pol, id, true)
  {
    RewritesAre(segs, size, pol);
    var i :| 0 <= i < |segs| && segs[i].id == id && OverDeleted(segs[i], size, pol);
  }

  lemma {:induction false} PooledOnly(segs: seq<Segment>, n: nat, size: Size, pol: Policy, id: nat)
    requires DistinctIds(segs) && TakenBelow(segs, Used(Rewrites(segs, size, pol)), n, size, pol, id)
    ensures id !in Rewrites(segs, size, pol) && IdOf(segs, size, pol, id, false)
  {
    hide OverDeleted, Rewrites, InTier, Taken, Tier;
    var used := Used(Rewrites(segs, size, pol));
    var t: nat :| t < n && Taken(InTier(segs, used, t, size, pol), pol, id);
    TakenPools(segs, used, t, size, pol, id);
    var i :| 0 <= i < |segs| && segs[i].id == id && Poolable(segs[i], used, size, pol) && Tier(segs[i], size) == t;
    RewrittenIff(segs, size, pol, i);
  }

  /** Exactly which segments a plan covers. */
  lemma {:induction false} PlannedIff(segs: seq<Segment>, size: Size, pol: Policy, i: nat)
    requires DistinctIds(segs) && i < |segs|
    ensures segs[i].id in Flat(Plan(segs, size, pol)) <==> Planned(segs, segs[i], size, pol)
  {
    var rewrites := Rewrites(segs, size, pol);
    var used := Used(rewrites);
    var top := TopTier(segs, used, size, pol);
    var id, t := segs[i].id, Tier(segs[i], size);
    PlanTiersAre(segs, used, top, size, pol);
    FlatSingletons(rewrites);
    FlatConcat(Singletons(rewrites), PlanTiers(segs, used, top, size, pol));
    RewrittenIff(segs, size, pol, i);
    BelowTop(segs, used, size, pol);
    InTierAre(segs, used, t, size, pol);
    hide Rewrites, PlanTiers, TopTier, InTier, Tier, OverDeleted, Flat, NoDups, LeftOver;
    if !OverDeleted(segs[i], size, pol) {
      if Poolable(segs[i], used, size, pol) {
        assert Pools(segs, used, t, size, pol, id);
      }
      if TakenBelow(segs, used, top, size, pol, id) {
        TakenHere(segs, top, size, pol, i);
      }
    }
  }

  lemma {:induction false} TakenHere(segs: seq<Segment>, n: nat, size: Size, pol: Policy, i: nat)
    requires DistinctIds(segs) && i < |segs|
    requires TakenBelow(segs, Used(Rewrites(segs, size, pol)), n, size, pol, segs[i].id)
    ensures Poolable(segs[i], Used(Rewrites(segs, size, pol)), size, pol)
    ensures Taken(TierMates(segs, segs[i], size, pol), pol, segs[i].id)
  {
    hide Rewrites, InTier, Taken, Tier, OverDeleted;
    var used, id := Used(Rewrites(segs, size, pol)), segs[i].id;
    var t: nat :| t < n && Taken(InTier(segs, used, t, size, pol), pol, id);
    TakenPools(segs, used, t, size, pol, id);
    var j :| 0 <= j < |segs| && segs[j].id == id && Poolable(segs[j], used, size, pol) && Tier(segs[j], size) == t;
    assert i == j;
  }

  lemma {:induction false} RewritesEmptyIff(segs: seq<Segment>, size: Size, pol: Policy)
    requires DistinctIds(segs)
    ensures Rewrites(segs, size, pol) == [] <==> NoneOverDeleted(segs, size, pol)
  {
    var rewrites := Rewrites(segs, size, pol);
    RewritesAre(segs, size, pol);
    hide OverDeleted, Rewrites, DistinctIds;
    if i :| 0 <= i < |segs| && OverDeleted(segs[i], size, pol) {
      assert segs[i].id in rewrites;
    }
    if rewrites != [] {
      assert rewrites[0] in rewrites;
    }
  }

  ghost predicate NoneOverDeleted(segs: seq<Segment>, size: Size, pol: Policy) {
    forall i | 0 <= i < |segs| :: !OverDeleted(segs[i], size, pol)
  }

  ghost predicate NoTierFull(segs: seq<Segment>, size: Size, pol: Policy) {
    forall t: nat :: |InTier(segs, {}, t, size, pol)| < if pol.tierSize < 2 then 2 else pol.tierSize
  }

  lemma {:induction false} NoTierFullIff(segs: seq<Segment>, size: Size, pol: Policy)
    requires DistinctIds(segs)
    ensures NoTierFull(segs, size, pol) <==> PlanTiers(segs, {}, TopTier(segs, {}, size, pol), size, pol) == []
  {
    hide TopTier, PlanTiers, DistinctIds;
    var top := TopTier(segs, {}, size, pol);
    TiersEmptyIff(segs, top, size, pol);
    AboveTop(segs, size, pol);
    if PlanTiers(segs, {}, top, size, pol) == [] {
      forall t: nat
        ensures |InTier(segs, {}, t, size, pol)| < if pol.tierSize < 2 then 2 else pol.tierSize
      {
        if t >= top {
          assert InTier(segs, {}, t, size, pol) == [];
        }
      }
    }
  }

  /** Nothing to do exactly when no segment is over-deleted and every tier is too small. */
  lemma {:induction false} PlanEmptyIff(segs: seq<Segment>, size: Size, pol: Policy)
    requires DistinctIds(segs)
    ensures Plan(segs, size, pol) == [] <==> NoneOverDeleted(segs, size, pol) && NoTierFull(segs, size, pol)
  {
    var rewrites := Rewrites(segs, size, pol);
    RewritesEmptyIff(segs, size, pol);
    NoTierFullIff(segs, size, pol);
    hide OverDeleted, Rewrites, TopTier, PlanTiers, DistinctIds, NoTierFull, NoneOverDeleted;
    if rewrites == [] {
      assert Used(rewrites) == {} && Singletons(rewrites) == [];
    }
  }

  lemma {:induction false} TiersEmptyIff(segs: seq<Segment>, n: nat, size: Size, pol: Policy)
    requires DistinctIds(segs)
    ensures PlanTiers(segs, {}, n, size, pol) == []
            <==> forall t: nat | t < n :: |InTier(segs, {}, t, size, pol)| < if pol.tierSize < 2 then 2 else pol.tierSize
  {
    hide InTier, PlanTier;
    if n > 0 {
      TiersEmptyIff(segs, n - 1, size, pol);
      InTierAre(segs, {}, n - 1, size, pol);
      PlanTierIs(InTier(segs, {}, n - 1, size, pol), pol);
    }
  }

  lemma {:induction false} AboveTop(segs: seq<Segment>, size: Size, pol: Policy)
    ensures forall t: nat | t >= TopTier(segs, {}, size, pol) :: InTier(segs, {}, t, size, pol) == []
  {
    hide Tier, Poolable;
    if segs != [] {
      AboveTop(segs[..|segs| - 1], size, pol);
    }
  }
}
