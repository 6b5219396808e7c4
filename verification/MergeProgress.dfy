/**
 Planning, preparing and committing in one go (`merge_index`), and why repeating
 it comes to rest (src/store/merge.rs).
 */
module MergeProgress {
  import opened Wrappers
  import opened Documents
  import opened Segments
  import opened PlanMerges
  import opened PlanMeaning
  import opened MergePrepare
  import opened MergeCommit
  import opened MergeMeaning
  import opened MergeRuns
  import Postings

  /** `groups` are the planned segments as `ix` holds them. */
  ghost predicate GroupsOf(ix: Index, plan: seq<seq<nat>>, groups: seq<seq<Segment>>) {
    |groups| == |plan| && forall k | 0 <= k < |plan| :: IdsOf(groups[k]) == plan[k] && forall s | s in groups[k] :: s in ix.segments
  }

  /** One planning pass over `a`, committed as `b` with nothing landing in between. */
  ghost predicate Pass(a: Index, b: Index, size: Size, pol: Policy, groups: seq<seq<Segment>>, prepared: seq<PreparedMerge>) {
    var plan := Plan(a.segments, size, pol);
    && plan != [] && GroupsOf(a, plan, groups) && |prepared| == |groups|
    && (forall k | 0 <= k < |groups| :: PreparedFrom(prepared[k], a, groups[k]))
    && b == Committed(a, prepared)
  }

  // ----- Any plan can be committed -----

  lemma {:induction false} PlanHasSegment(segs: seq<Segment>, size: Size, pol: Policy, k: nat, id: nat)
    requires DistinctIds(segs) && k < |Plan(segs, size, pol)| && id in Plan(segs, size, pol)[k]
    ensures HasSegment(segs, id)
  {
    PlanGroups(segs, size, pol);
    hide Plan;
    assert GroupFits(segs, size, pol, Plan(segs, size, pol)[k]);
    assert IdOf(segs, size, pol, id, |Plan(segs, size, pol)[k]| == 1);
  }

  /** What a plan names exists, and its groups are disjoint: it is a batch `CommitMerges` accepts. */
  lemma {:induction false} PlanIsBatch(a: Index, size: Size, pol: Policy, groups: seq<seq<Segment>>, prepared: seq<PreparedMerge>)
    requires WellFormed(a) && Plan(a.segments, size, pol) != [] && GroupsOf(a, Plan(a.segments, size, pol), groups)
    requires |prepared| == |groups| && forall k | 0 <= k < |groups| :: PreparedFrom(prepared[k], a, groups[k])
    ensures Batch(prepared, a, groups, a)
  {
    var plan := Plan(a.segments, size, pol);
    PlannedOnce(a.segments, size, pol);
    hide Plan, PreparedFrom, Current, NoDups, WellFormed;
    forall k | 0 <= k < |prepared|
      ensures Current(prepared[k], a, groups[k], a) && prepared[k].sourceIds == plan[k] && AllPresent(a.segments, prepared[k].sourceIds)
    {
      FreshIsCurrent(prepared[k], a, groups[k]);
      SourcesOf(prepared[k], a, groups[k]);
      PlannedPresent(a, size, pol, k);
    }
    forall j, k, id | 0 <= j < k < |prepared| && id in prepared[j].sourceIds
      ensures id !in prepared[k].sourceIds
    {
      FlatApart(plan, j, k, id);
    }
  }

  lemma {:induction false} SourcesOf(p: PreparedMerge, a: Index, group: seq<Segment>)
    requires PreparedFrom(p, a, group)
    ensures p.sourceIds == IdsOf(group)
  {
  }

  lemma {:induction false} PlannedPresent(a: Index, size: Size, pol: Policy, k: nat)
    requires WellFormed(a) && k < |Plan(a.segments, size, pol)|
    ensures AllPresent(a.segments, Plan(a.segments, size, pol)[k])
  {
    hide Plan, HasSegment;
    var ids := Plan(a.segments, size, pol)[k];
    forall j | 0 <= j < |ids|
      ensures HasSegment(a.segments, ids[j])
    {
      PlanHasSegment(a.segments, size, pol, k, ids[j]);
    }
  }

  // ----- The weight a pass takes away -----

  /** Segments plus tombstones. */
  function Weight(segs: seq<Segment>): nat {
    if segs == [] then 0 else Weight(segs[..|segs| - 1]) + 1 + |segs[|segs| - 1].deleted|
  }

  function WeightOf(segs: seq<Segment>, ids: set<nat>): nat {
    if segs == [] then 0
    else
      var n := |segs| - 1;
      WeightOf(segs[..n], ids) + (if segs[n].id in ids then 1 + |segs[n].deleted| else 0)
  }

  lemma {:induction false} RetainedWeight(segs: seq<Segment>, ids: set<nat>)
    ensures Weight(Retained(segs, ids)) + WeightOf(segs, ids) == Weight(segs)
  {
    if segs != [] {
      var n := |segs| - 1;
      RetainedWeight(segs[..n], ids);
      var kept := Retained(segs[..n], ids);
      assert (kept + [segs[n]])[..|kept|] == kept;
      assert kept + [] == kept;
    }
  }

  lemma {:induction false} WeightSplit(segs: seq<Segment>, a: set<nat>, b: set<nat>)
    requires a !! b
    ensures WeightOf(segs, a + b) == WeightOf(segs, a) + WeightOf(segs, b)
  {
    if segs != [] {
      WeightSplit(segs[..|segs| - 1], a, b);
    }
  }

  lemma {:induction false} WeightOne(segs: seq<Segment>, ids: set<nat>, i: nat)
    requires i < |segs| && segs[i].id in ids
    ensures WeightOf(segs, ids) >= 1 + |segs[i].deleted|
  {
    var n := |segs| - 1;
    if i < n {
      WeightOne(segs[..n], ids, i);
    }
  }

  lemma {:induction false} WeightTwo(segs: seq<Segment>, ids: set<nat>, i: nat, j: nat)
    requires i < j < |segs| && segs[i].id in ids && segs[j].id in ids
    ensures WeightOf(segs, ids) >= 2
  {
    var n := |segs| - 1;
    if j < n {
      WeightTwo(segs[..n], ids, i, j);
    } else {
      WeightOne(segs[..n], ids, i);
    }
  }

  /** Each group weighs at least two: two segments, or one with a tombstone. */
  lemma {:induction false} GroupWeight(segs: seq<Segment>, size: Size, pol: Policy, k: nat)
    requires DistinctIds(segs) && pol.threshold >= 0.0 && k < |Plan(segs, size, pol)|
    ensures WeightOf(segs, Used(Plan(segs, size, pol)[k])) >= 2
  {
    PlanGroups(segs, size, pol);
    PlannedOnce(segs, size, pol);
    FlatHas(Plan(segs, size, pol), k);
    hide Plan;
    var g := Plan(segs, size, pol)[k];
    assert GroupFits(segs, size, pol, g);
    assert g[0] in g;
    assert IdOf(segs, size, pol, g[0], |g| == 1);
    hide GroupFits, OverDeleted;
    var i :| 0 <= i < |segs| && segs[i].id == g[0] && OverDeleted(segs[i], size, pol) == (|g| == 1);
    if |g| == 1 {
      OverDeletedHasOne(segs[i], size, pol);
      WeightOne(segs, Used(g), i);
    } else {
      assert GroupFits(segs, size, pol, g);
      SecondMember(segs, size, pol, g, i);
    }
  }

  lemma {:induction false} SecondMember(segs: seq<Segment>, size: Size, pol: Policy, g: seq<nat>, i: nat)
    requires GroupFits(segs, size, pol, g) && NoDups(g) && |g| >= 2 && i < |segs| && segs[i].id == g[0]
    ensures WeightOf(segs, Used(g)) >= 2
  {
    assert g[1] in g;
    assert IdOf(segs, size, pol, g[1], false);
    var j: nat :| j < |segs| && segs[j].id == g[1];
    assert g[0] != g[1];
    if i < j {
      WeightTwo(segs, Used(g), i, j);
    } else {
      WeightTwo(segs, Used(g), j, i);
    }
  }

  lemma {:induction false} OverDeletedHasOne(s: Segment, size: Size, pol: Policy)
    requires OverDeleted(s, size, pol) && pol.threshold >= 0.0
    ensures |s.deleted| >= 1
  {
    NoneOf(|s.docs|);
  }

  lemma {:induction false} NoneOf(n: nat)
    requires n > 0
    ensures 0 as real / n as real == 0.0
  {
  }

  lemma {:induction false} MergedWeight(segs: seq<Segment>, plan: seq<seq<nat>>, prepared: seq<PreparedMerge>)
    requires |plan| == |prepared| && NoDups(Flat(plan))
    requires forall k | 0 <= k < |plan| :: prepared[k].sourceIds == plan[k] && WeightOf(segs, Used(plan[k])) >= 2
    ensures WeightOf(segs, MergedIds(prepared)) >= 2 * |prepared|
  {
    if prepared != [] {
      var n := |prepared| - 1;
      var before, last := MergedIds(prepared[..n]), Used(plan[n]);
      assert prepared == prepared[..n] + [prepared[n]] && plan == plan[..n] + [plan[n]];
      FlatConcat(plan[..n], [plan[n]]);
      HeadNoDups(Flat(plan[..n]), Flat([plan[n]]));
      MergedWeight(segs, plan[..n], prepared[..n]);
      hide WeightOf, NoDups, Flat;
      MergedIdsMore(prepared, n);
      assert prepared[..n + 1] == prepared;
      assert MergedIds(prepared) == before + last;
      forall id | id in before
        ensures id !in last
      {
        var k :| 0 <= k < n && id in prepared[..n][k].sourceIds;
        FlatApart(plan, k, n, id);
      }
      WeightSplit(segs, before, last);
    }
  }

  // ----- A pass adds one tombstone-free segment for each group -----

  lemma {:induction false} NothingCarried(p: PreparedMerge, a: Index, group: seq<Segment>, ids: seq<nat>)
    requires WellFormed(a) && PreparedFrom(p, a, group) && forall id | id in ids :: id in p.sourceIds
    ensures Carry(p, a.segments, ids) == {}
  {
    if ids != [] {
      var n := |ids| - 1;
      NothingCarried(p, a, group, ids[..n]);
      assert ids[n] in ids;
      var i: nat :| i < |p.sourceIds| && p.sourceIds[i] == ids[n];
      assert group[i] in group;
      var j: nat :| j < |a.segments| && a.segments[j] == group[i];
      FindSegmentIs(a.segments, j);
    }
  }

  lemma {:induction false} NewWeight(prepared: seq<PreparedMerge>, a: Index, groups: seq<seq<Segment>>, firstId: nat, base: DocId)
    requires WellFormed(a) && |groups| == |prepared| && forall k | 0 <= k < |groups| :: PreparedFrom(prepared[k], a, groups[k])
    ensures Weight(NewSegments(prepared, a.segments, firstId, base)) == |prepared|
  {
    hide WellFormed, PreparedFrom;
    if prepared != [] {
      var n := |prepared| - 1;
      NewWeight(prepared[..n], a, groups[..n], firstId, base);
      NothingCarried(prepared[n], a, groups[n], prepared[n].sourceIds);
      var front := NewSegments(prepared[..n], a.segments, firstId, base);
      assert (front + [MergedSegment(prepared[n], a.segments, firstId + n, base + DocCount(prepared[..n]))])[..|front|] == front;
    }
  }

  lemma {:induction false} WeightConcat(a: seq<Segment>, b: seq<Segment>)
    ensures Weight(a + b) == Weight(a) + Weight(b)
  {
    if b == [] {
      assert a + b == a;
    } else {
      assert (a + b)[..|a + b| - 1] == a + b[..|b| - 1];
      WeightConcat(a, b[..|b| - 1]);
    }
  }

  /** A pass keeps the index well formed and takes segments and tombstones away. */
  lemma {:induction false} PassShrinks(a: Index, b: Index, size: Size, pol: Policy, groups: seq<seq<Segment>>, prepared: seq<PreparedMerge>)
    requires WellFormed(a) && pol.threshold >= 0.0 && Pass(a, b, size, pol, groups, prepared)
    ensures WellFormed(b) && Weight(b.segments) < Weight(a.segments)
  {
    var plan := Plan(a.segments, size, pol);
    PlanIsBatch(a, size, pol, groups, prepared);
    MergeWellFormed(prepared, a, groups, a);
    PlannedOnce(a.segments, size, pol);
    assert DistinctIds(a.segments);
    hide WellFormed, Plan, DistinctIds, Batch, NoDups;
    forall k | 0 <= k < |plan|
      ensures prepared[k].sourceIds == plan[k] && WeightOf(a.segments, Used(plan[k])) >= 2
    {
      SourcesOf(prepared[k], a, groups[k]);
      GroupWeight(a.segments, size, pol, k);
    }
    MergedWeight(a.segments, plan, prepared);
    RetainedWeight(a.segments, MergedIds(prepared));
    NewWeight(prepared, a, groups, a.nextSegmentId, IdBound(a.segments));
    WeightConcat(Retained(a.segments, MergedIds(prepared)), NewSegments(prepared, a.segments, a.nextSegmentId, IdBound(a.segments)));
  }

  ghost predicate Passes(a: Index, b: Index, size: Size, pol: Policy) {
    exists groups, prepared :: Pass(a, b, size, pol, groups, prepared)
  }

  /** Pass after pass: never more of them than there were segments and tombstones. */
  lemma {:induction false} PassesBounded(chain: seq<Index>, size: Size, pol: Policy)
    requires chain != [] && WellFormed(chain[0]) && pol.threshold >= 0.0
    requires forall k | 0 <= k < |chain| - 1 :: Passes(chain[k], chain[k + 1], size, pol)
    ensures |chain| <= Weight(chain[0].segments) + 1
  {
    if |chain| > 1 {
      assert Passes(chain[0], chain[1], size, pol);
      var groups, prepared :| Pass(chain[0], chain[1], size, pol, groups, prepared);
      PassShrinks(chain[0], chain[1], size, pol, groups, prepared);
      var rest := chain[1..];
      forall k | 0 <= k < |rest| - 1
        ensures Passes(rest[k], rest[k + 1], size, pol)
      {
        assert Passes(chain[k + 1], chain[k + 1 + 1], size, pol);
      }
      PassesBounded(rest, size, pol);
    }
  }

  // ----- merge_index -----

  method FindGroup(ix: Index, ids: seq<nat>) returns (group: seq<Segment>)
    requires WellFormed(ix) && AllPresent(ix.segments, ids)
    ensures IdsOf(group) == ids && forall s | s in group :: s in ix.segments
  {
    group := [];
    for k := 0 to |ids|
      invariant |group| == k && (forall j | 0 <= j < k :: group[j].id == ids[j] && group[j] in ix.segments)
    {
      assert HasSegment(ix.segments, ids[k]);
      FindSegmentFinds(ix.segments, ids[k]);
      group := group + [FindSegment(ix.segments, ids[k]).value];
    }
  }

  /** What one call leaves: the same index when nothing is planned, otherwise that of one pass. */
  ghost predicate MergeOutcome(a: Index, b: Index, size: Size, pol: Policy) {
    if Plan(a.segments, size, pol) == [] then b == a else Passes(a, b, size, pol)
  }

  /** Each call takes segments and tombstones away, or finds nothing to do. */
  lemma {:induction false} RestReached(chain: seq<Index>, size: Size, pol: Policy)
    requires chain != [] && WellFormed(chain[0]) && AllDocsValid(chain[0]) && pol.threshold >= 0.0
    requires forall k | 0 <= k < |chain| - 1 :: MergeOutcome(chain[k], chain[k + 1], size, pol)
    requires |chain| > Weight(chain[0].segments)
    ensures Plan(chain[|chain| - 1].segments, size, pol) == []
  {
    hide WellFormed, AllDocsValid, Plan, Passes, MergeOutcome;
    if |chain| == 1 {
      NothingPlanned(chain[0], size, pol);
    } else {
      var rest := chain[1..];
      forall k | 0 <= k < |rest| - 1
        ensures MergeOutcome(rest[k], rest[k + 1], size, pol)
      {
        assert MergeOutcome(chain[k + 1], chain[k + 1 + 1], size, pol);
      }
      assert MergeOutcome(chain[0], chain[1], size, pol);
      OutcomeKeeps(chain[0], chain[1], size, pol);
      if Plan(chain[0].segments, size, pol) == [] {
        AtRest(chain, size, pol);
      } else {
        RestReached(rest, size, pol);
      }
    }
  }

  lemma {:induction false} AtRest(chain: seq<Index>, size: Size, pol: Policy)
    requires chain != [] && Plan(chain[0].segments, size, pol) == []
    requires forall k | 0 <= k < |chain| - 1 :: MergeOutcome(chain[k], chain[k + 1], size, pol)
    ensures chain[|chain| - 1] == chain[0]
  {
    hide Plan, Passes;
    if |chain| > 1 {
      var front := chain[..|chain| - 1];
      forall k | 0 <= k < |front| - 1
        ensures MergeOutcome(front[k], front[k + 1], size, pol)
      {
        assert MergeOutcome(chain[k], chain[k + 1], size, pol);
      }
      AtRest(front, size, pol);
      assert MergeOutcome(chain[|chain| - 2], chain[|chain| - 2 + 1], size, pol);
    }
  }

  lemma {:induction false} NothingPlanned(ix: Index, size: Size, pol: Policy)
    requires Weight(ix.segments) < 1
    ensures Plan(ix.segments, size, pol) == []
  {
    assert ix.segments == [];
    PlanEmptyIff(ix.segments, size, pol);
  }

  lemma {:induction false} OutcomeKeeps(a: Index, b: Index, size: Size, pol: Policy)
    requires WellFormed(a) && AllDocsValid(a) && pol.threshold >= 0.0 && MergeOutcome(a, b, size, pol)
    ensures WellFormed(b) && AllDocsValid(b) && (Plan(a.segments, size, pol) != [] ==> Weight(b.segments) < Weight(a.segments))
  {
    hide WellFormed, AllDocsValid, Plan, Passes;
    if Plan(a.segments, size, pol) != [] {
      PassKeeps(a, b, size, pol);
    }
  }

  /** The unchanged index when nothing is planned, otherwise one pass. */
  method MergeIndex(prev: Index, size: Size, pol: Policy) returns (r: Result<Index, MergeError>)
    requires WellFormed(prev) && AllDocsValid(prev)
    ensures r.Success?
    ensures MergeOutcome(prev, r.value, size, pol)
  {
    hide Plan, PreparedFrom, NoDups, Flat, Committed;
    var plan := PlanAll(prev.segments, size, pol);
    if plan == [] {
      return Success(prev);
    }
    PlannedOnce(prev.segments, size, pol);
    var prepared: seq<PreparedMerge> := [];
    ghost var groups: seq<seq<Segment>> := [];
    for k := 0 to |plan|
      invariant |groups| == |prepared| == k
      invariant forall j | 0 <= j < k :: IdsOf(groups[j]) == plan[j] && forall s | s in groups[j] :: s in prev.segments
      invariant forall j | 0 <= j < k :: PreparedFrom(prepared[j], prev, groups[j])
    {
      PlannedPresent(prev, size, pol, k);
      var group := FindGroup(prev, plan[k]);
      FlatHas(plan, k);
      GroupDistinct(group, plan[k]);
      var p := PrepareMerge(prev, group);
      prepared, groups := prepared + [p], groups + [group];
    }
    PlanIsBatch(prev, size, pol, groups, prepared);
    MergeWellFormed(prepared, prev, groups, prev);
    assert ByBase(Committed(prev, prepared).segments);
    r := CommitMerges(prev, prepared);
    assert Pass(prev, r.value, size, pol, groups, prepared);
  }

  lemma {:induction false} PassKeeps(a: Index, b: Index, size: Size, pol: Policy)
    requires WellFormed(a) && AllDocsValid(a) && pol.threshold >= 0.0 && Passes(a, b, size, pol)
    ensures WellFormed(b) && AllDocsValid(b) && Weight(b.segments) < Weight(a.segments)
  {
    var groups, prepared :| Pass(a, b, size, pol, groups, prepared);
    PassShrinks(a, b, size, pol, groups, prepared);
    PassDocsValid(a, b, size, pol, groups, prepared);
  }

  lemma {:induction false} PassDocsValid(a: Index, b: Index, size: Size, pol: Policy, groups: seq<seq<Segment>>, prepared: seq<PreparedMerge>)
    requires WellFormed(a) && AllDocsValid(a) && Pass(a, b, size, pol, groups, prepared)
    ensures AllDocsValid(b)
  {
    PlanIsBatch(a, size, pol, groups, prepared);
    hide WellFormed, Plan;
    forall s | s in b.segments
      ensures Postings.ValidDocs(s.docs)
    {
      CommittedSegments(a, prepared, s);
      if k: nat :| k < |prepared| && s == MergedAs(a, prepared, k) {
        MergeRuns.MergedValid(a.overlay, groups[k]);
      }
    }
  }

  lemma {:induction false} GroupDistinct(group: seq<Segment>, ids: seq<nat>)
    requires IdsOf(group) == ids && NoDups(ids)
    ensures DistinctIds(group)
  {
    assert forall i | 0 <= i < |group| :: ids[i] == group[i].id;
  }
}
