/**
 Runs of one root's store: updates land while a merge prepared from an old
 snapshot is in flight, and the merge commits later (src/daemon/actor.rs,
 src/store/merge.rs).
 */
module MergeRuns {
  import opened Wrappers
  import opened Documents
  import opened Postings
  import opened Build
  import opened Segments
  import opened Reconcile
  import opened Convergence
  import opened Update
  import opened MergePrepare
  import opened MergeCommit
  import opened MergeMeaning

  /** A merge between its snapshot and its commit. */
  datatype InFlight = InFlight(snapshot: Index, groups: seq<seq<Segment>>, prepared: seq<PreparedMerge>)

  datatype State = State(index: Index, merging: Option<InFlight>)

  datatype Event =
    | Reconciled(changes: seq<Change>, built: seq<BuiltSegment>)
    | MergeStarted(flight: InFlight)
    | MergeFinished
    | Rebuilt(index: Index)

  ghost predicate AllDocsValid(ix: Index) {
    forall s | s in ix.segments :: ValidDocs(s.docs)
  }

  ghost predicate Startable(m: InFlight, ix: Index) {
    && m.snapshot == ix && |m.groups| == |m.prepared| && DisjointSources(m.prepared)
    && forall k | 0 <= k < |m.prepared| :: PreparedFrom(m.prepared[k], ix, m.groups[k])
  }

  ghost predicate Committable(m: InFlight, ix: Index) {
    m.prepared != [] && forall k | 0 <= k < |m.prepared| :: AllPresent(ix.segments, m.prepared[k].sourceIds)
  }

  /** A full rebuild by another writer: fresh segment ids, no overlay, ids from zero. */
  ghost predicate Rebuilds(before: Index, after: Index) {
    && WellFormed(after) && AllDocsValid(after) && after.overlay == map[]
    && before.nextSegmentId <= after.nextSegmentId
    && forall s | s in after.segments :: s.id >= before.nextSegmentId
  }

  ghost predicate Step(a: State, e: Event, b: State) {
    match e
    case Reconciled(changes, built) =>
      && PatchesBelow(changes, IdBound(a.index.segments)) && ValidDocs(DocsFor(Added(changes)))
      && Updates(a.index, b.index, changes, built) && b.merging == a.merging
    case MergeStarted(m) =>
      a.merging.None? && Startable(m, a.index) && b == State(a.index, Some(m))
    case MergeFinished =>
      && a.merging.Some? && b.merging.None?
      && b.index == if Committable(a.merging.value, a.index) then Committed(a.index, a.merging.value.prepared) else a.index
    case Rebuilt(index) =>
      Rebuilds(a.index, index) && b == State(index, a.merging)
  }

  ghost predicate Run(states: seq<State>, events: seq<Event>) {
    && |states| == |events| + 1
    && forall k | 0 <= k < |events| :: Step(states[k], events[k], states[k + 1])
  }

  // ----- The invariant -----

  ghost predicate FlightCurrent(m: InFlight, ix: Index) {
    && |m.groups| == |m.prepared| && DisjointSources(m.prepared)
    && (forall k | 0 <= k < |m.prepared| :: Current(m.prepared[k], m.snapshot, m.groups[k], ix))
    && (forall k | 0 <= k < |m.groups| :: PatchesPersist(m.snapshot, m.groups[k], ix))
  }

  ghost predicate Inv(s: State) {
    && WellFormed(s.index) && AllDocsValid(s.index)
    && (s.merging.Some? ==> FlightCurrent(s.merging.value, s.index))
  }

  /** Tombstoning makes a descendant. */
  lemma {:induction false} BuriedDescends(before: Segment, s: Segment, locals: set<nat>)
    requires Descends(before, s)
    ensures Descends(before, Buried(s, locals))
  {
  }

  /** A segment of the updated index is new, or an old one with more tombstones. */
  lemma {:induction false} SegmentSource(a: Index, b: Index, changes: seq<Change>, built: seq<BuiltSegment>, s: Segment)
    requires Updates(a, b, changes, built) && s in b.segments
    ensures s.id >= a.nextSegmentId || exists t :: t in a.segments && s == Buried(t, LocalsOf(t, Deleted(changes)))
  {
    AppendedOrder(built, DocsFor(Added(changes)), IdBound(a.segments), a.nextSegmentId);
    hide Tiles, AsSegments, Ordered, DistinctIds, Patched, IdBound, Buried, LocalsOf;
    var j :| 0 <= j < |b.segments| && b.segments[j] == s;
    if j < |a.segments| {
      assert s == Buried(a.segments[j], LocalsOf(a.segments[j], Deleted(changes)));
      assert a.segments[j] in a.segments;
    }
  }

  lemma {:induction false} UpdateKeepsCurrent(p: PreparedMerge, snapshot: Index, group: seq<Segment>, a: Index, b: Index,
                                              changes: seq<Change>, built: seq<BuiltSegment>)
    requires Current(p, snapshot, group, a) && Updates(a, b, changes, built)
    ensures Current(p, snapshot, group, b)
  {
    hide Tiles, AsSegments, Tombstoned, Patched, IdBound, LocalsOf, PreparedFrom;
    forall i, s | 0 <= i < |group| && s in b.segments && s.id == group[i].id
      ensures Descends(group[i], s)
    {
      SegmentSource(a, b, changes, built, s);
      var t :| t in a.segments && s == Buried(t, LocalsOf(t, Deleted(changes)));
      BuriedDescends(group[i], t, LocalsOf(t, Deleted(changes)));
    }
  }

  lemma {:induction false} PatchedGrows(overlay: map<DocId, Meta>, changes: seq<Change>)
    ensures overlay.Keys <= Patched(overlay, changes).Keys
  {
    if changes != [] {
      PatchedGrows(overlay, changes[..|changes| - 1]);
    }
  }

  lemma {:induction false} UpdateKeepsPatches(p: PreparedMerge, snapshot: Index, group: seq<Segment>, a: Index, b: Index,
                                              changes: seq<Change>, built: seq<BuiltSegment>)
    requires Current(p, snapshot, group, a) && PatchesPersist(snapshot, group, a) && Updates(a, b, changes, built)
    ensures PatchesPersist(snapshot, group, b)
  {
    PatchedGrows(a.overlay, changes);
    hide Tiles, AsSegments, Tombstoned, Patched, IdBound, LocalsOf, PreparedFrom, Descends;
    forall i, s, l: nat | 0 <= i < |group| && LivesIn(b, s, l) && s.id == group[i].id && s.base + l in snapshot.overlay
      ensures s.base + l in b.overlay
    {
      SegmentSource(a, b, changes, built, s);
      var t :| t in a.segments && s == Buried(t, LocalsOf(t, Deleted(changes)));
      BuriedLocal(t, l, Deleted(changes));
      assert LivesIn(a, t, l);
    }
  }

  lemma {:induction false} RebuildKeepsCurrent(p: PreparedMerge, snapshot: Index, group: seq<Segment>, a: Index, b: Index)
    requires Current(p, snapshot, group, a) && Rebuilds(a, b)
    ensures Current(p, snapshot, group, b) && PatchesPersist(snapshot, group, b)
  {
  }

  lemma {:induction false} FreshIsCurrent(p: PreparedMerge, ix: Index, group: seq<Segment>)
    requires WellFormed(ix) && PreparedFrom(p, ix, group)
    ensures Current(p, ix, group, ix)
  {
    forall i | 0 <= i < |group|
      ensures group[i].id < ix.nextSegmentId
    {
      assert group[i] in group;
      var j :| 0 <= j < |ix.segments| && ix.segments[j] == group[i];
    }
    forall i, s | 0 <= i < |group| && s in ix.segments && s.id == group[i].id
      ensures Descends(group[i], s)
    {
      assert group[i] in group;
      SameSegment(ix, group[i], s);
    }
  }

  // ----- Documents stay encodable -----

  lemma {:induction false} SurvivorsValid(overlay: map<DocId, Meta>, s: Segment, n: nat)
    requires n <= |s.docs| && ValidDocs(s.docs)
    ensures ValidDocs(SurvivorDocs(overlay, s, n))
  {
    if n > 0 {
      SurvivorsValid(overlay, s, n - 1);
    }
  }

  lemma {:induction false} MergedValid(overlay: map<DocId, Meta>, segs: seq<Segment>)
    requires forall s | s in segs :: ValidDocs(s.docs)
    ensures ValidDocs(MergedDocs(overlay, segs))
  {
    if segs != [] {
      MergedValid(overlay, segs[..|segs| - 1]);
      SurvivorsValid(overlay, segs[|segs| - 1], |segs[|segs| - 1].docs|);
    }
  }

  lemma {:induction false} AppendedValid(built: seq<BuiltSegment>, docs: seq<Doc>)
    requires ValidDocs(docs)
    ensures forall s | s in AsSegments(built, docs) :: ValidDocs(s.docs)
  {
    if built != [] {
      var last := built[|built| - 1];
      var n := if |last.rows| <= |docs| then |docs| - |last.rows| else 0;
      AppendedValid(built[..|built| - 1], docs[..n]);
    }
  }

  lemma {:induction false} UpdateDocsValid(a: Index, b: Index, changes: seq<Change>, built: seq<BuiltSegment>)
    requires AllDocsValid(a) && Updates(a, b, changes, built) && ValidDocs(DocsFor(Added(changes)))
    ensures AllDocsValid(b)
  {
    AppendedValid(built, DocsFor(Added(changes)));
    var olds := Tombstoned(a.segments, Deleted(changes));
    forall s | s in b.segments
      ensures ValidDocs(s.docs)
    {
      if s in olds {
        var i :| 0 <= i < |olds| && olds[i] == s;
        assert olds[i].docs == a.segments[i].docs;
      }
    }
  }

  lemma {:induction false} CommitDocsValid(m: InFlight, ix: Index)
    requires AllDocsValid(ix) && FlightCurrent(m, ix)
    ensures AllDocsValid(Committed(ix, m.prepared))
  {
    forall s | s in Committed(ix, m.prepared).segments
      ensures ValidDocs(s.docs)
    {
      CommittedSegments(ix, m.prepared, s);
      if k: nat :| k < |m.prepared| && s == MergedAs(ix, m.prepared, k) {
        assert Current(m.prepared[k], m.snapshot, m.groups[k], ix);
        MergedValid(m.snapshot.overlay, m.groups[k]);
      }
    }
  }

  // ----- Steps and runs -----

  lemma {:induction false} StepKeepsInv(a: State, e: Event, b: State)
    requires Inv(a) && Step(a, e, b)
    ensures Inv(b)
  {
    match e {
      case Reconciled(changes, built) =>
        UpdateWellFormed(a.index, b.index, changes, built);
        UpdateDocsValid(a.index, b.index, changes, built);
        if b.merging.Some? {
          var m := b.merging.value;
          forall k | 0 <= k < |m.prepared|
            ensures Current(m.prepared[k], m.snapshot, m.groups[k], b.index) && PatchesPersist(m.snapshot, m.groups[k], b.index)
          {
            UpdateKeepsPatches(m.prepared[k], m.snapshot, m.groups[k], a.index, b.index, changes, built);
            UpdateKeepsCurrent(m.prepared[k], m.snapshot, m.groups[k], a.index, b.index, changes, built);
          }
        }
      case MergeStarted(m) =>
        forall k | 0 <= k < |m.prepared|
          ensures Current(m.prepared[k], m.snapshot, m.groups[k], b.index)
        {
          FreshIsCurrent(m.prepared[k], a.index, m.groups[k]);
        }
      case MergeFinished =>
        var m := a.merging.value;
        if Committable(m, a.index) {
          MergeWellFormed(m.prepared, m.snapshot, m.groups, a.index);
          CommitDocsValid(m, a.index);
        }
      case Rebuilt(index) =>
        if b.merging.Some? {
          var m := b.merging.value;
          forall k | 0 <= k < |m.prepared|
            ensures Current(m.prepared[k], m.snapshot, m.groups[k], b.index) && PatchesPersist(m.snapshot, m.groups[k], b.index)
          {
            RebuildKeepsCurrent(m.prepared[k], m.snapshot, m.groups[k], a.index, b.index);
          }
        }
    }
  }

  lemma {:induction false} RunKeepsInv(states: seq<State>, events: seq<Event>, k: nat)
    requires Run(states, events) && Inv(states[0]) && k < |states|
    ensures Inv(states[k])
  {
    if k > 0 {
      RunKeepsInv(states, events, k - 1);
      StepKeepsInv(states[k - 1], events[k - 1], states[k]);
    }
  }

  /**
   In every run, whenever a merge commits, however many updates landed since its
   snapshot, the index holds exactly the documents live just before, contents
   and postings included, under one id each; a merge whose sources are gone
   changes nothing.
   */
  lemma {:induction false} MergesPreserveInEveryRun(states: seq<State>, events: seq<Event>, k: nat)
    requires Run(states, events) && Inv(states[0]) && k < |events| && events[k].MergeFinished?
    ensures states[k].merging.Some?
    ensures var a, b := states[k], states[k + 1];
      if Committable(a.merging.value, a.index)
      then Renumbers(id => Forward(a.index, a.merging.value.prepared, id), Live(a.index), Live(b.index))
      else b.index == a.index
  {
    RunKeepsInv(states, events, k);
    var a := states[k];
    assert Step(a, events[k], states[k + 1]);
    if Committable(a.merging.value, a.index) {
      MergePreserves(a.merging.value.prepared, a.merging.value.snapshot, a.merging.value.groups, a.index);
    }
  }

  /** A merge in flight across a full rebuild finds none of its sources. */
  lemma {:induction false} RebuildDefeatsMerge(a: State, index: Index, b: State)
    requires Inv(a) && Step(a, Rebuilt(index), b) && a.merging.Some?
    requires exists k :: 0 <= k < |a.merging.value.prepared| && a.merging.value.prepared[k].sourceIds != []
    ensures !Committable(b.merging.value, b.index)
  {
    var m := a.merging.value;
    var k :| 0 <= k < |m.prepared| && m.prepared[k].sourceIds != [];
    assert Current(m.prepared[k], m.snapshot, m.groups[k], a.index);
    var id := m.prepared[k].sourceIds[0];
    assert id == m.groups[k][0].id < a.index.nextSegmentId;
    assert !HasSegment(b.index.segments, id);
  }

  /**
   In every run, a document merged while an update was landing keeps its path and
   metadata exactly when no differing patch was committed after the snapshot.
   */
  lemma {:induction false} MetadataInEveryRun(states: seq<State>, events: seq<Event>, k: nat, s: Segment, l: nat)
    requires Run(states, events) && Inv(states[0]) && k < |events| && events[k].MergeFinished?
    requires states[k].merging.Some? && Committable(states[k].merging.value, states[k].index) && LivesIn(states[k].index, s, l)
    ensures var a, b, m := states[k].index, states[k + 1].index, states[k].merging.value; var id := s.base + l;
      && id in Live(a) && Forward(a, m.prepared, id) in Live(b)
      && (Live(b)[Forward(a, m.prepared, id)] == Live(a)[id] <==> s.id !in MergedIds(m.prepared) || !PatchedSince(m.snapshot, a, s, l))
  {
    RunKeepsInv(states, events, k);
    assert Step(states[k], events[k], states[k + 1]);
    var m := states[k].merging.value;
    MetadataKeptIff(m.prepared, m.snapshot, m.groups, states[k].index, s, l);
  }

  // ----- Ids are never reused -----

  ghost predicate NoRebuild(events: seq<Event>) {
    forall k | 0 <= k < |events| :: !events[k].Rebuilt?
  }

  /** The id bound never falls, and an id that is dead below it stays dead. */
  ghost predicate OnlyNewIds(a: Index, b: Index) {
    && IdBound(a.segments) <= IdBound(b.segments)
    && forall id | id in Live(b) && id < IdBound(a.segments) :: id in Live(a)
  }

  lemma {:induction false} MergeOnlyNewIds(m: InFlight, ix: Index)
    requires WellFormed(ix) && FlightCurrent(m, ix) && Committable(m, ix)
    ensures OnlyNewIds(ix, Committed(ix, m.prepared))
  {
    MergeWellFormed(m.prepared, m.snapshot, m.groups, ix);
    CommittedBound(ix, m.prepared);
    LiveTabulates(ix);
    LiveTabulates(Committed(ix, m.prepared));
    OldIdsStay(ix, m.prepared, Live(ix), Live(Committed(ix, m.prepared)));
  }

  lemma {:induction false} OldIdsStay(ix: Index, prepared: seq<PreparedMerge>, a: map<DocId, Doc>, b: map<DocId, Doc>)
    requires Tabulates(ix, a) && Tabulates(Committed(ix, prepared), b)
    ensures forall id | id in b && id < IdBound(ix.segments) :: id in a
  {
    forall id | id in b && id < IdBound(ix.segments)
      ensures id in a
    {
      var s, l := PlaceOf(Committed(ix, prepared), b, id);
      CommittedSegments(ix, prepared, s);
      PlaceIn(ix, a, s, l);
    }
  }

  lemma {:induction false} StepOnlyNewIds(a: State, e: Event, b: State)
    requires Inv(a) && Step(a, e, b) && !e.Rebuilt?
    ensures OnlyNewIds(a.index, b.index)
  {
    match e {
      case Reconciled(changes, built) =>
        UpdateWellFormed(a.index, b.index, changes, built);
        UpdateApplies(a.index, b.index, changes, built);
      case MergeStarted(m) =>
        LiveBelowBound(a.index);
      case MergeFinished =>
        if Committable(a.merging.value, a.index) {
          MergeOnlyNewIds(a.merging.value, a.index);
        } else {
          LiveBelowBound(a.index);
        }
    }
  }

  lemma {:induction false} LiveBelowBound(ix: Index)
    ensures forall id | id in Live(ix) :: id < IdBound(ix.segments)
  {
  }

  /**
   Over any run of updates and merges, a dead id below the bound never comes
   back to life, so an overlay patch left behind for a document merged away can
   never apply to a later document.
   */
  lemma {:induction false} DeadStaysDead(states: seq<State>, events: seq<Event>, j: nat, k: nat, id: DocId)
    requires Run(states, events) && Inv(states[0]) && NoRebuild(events) && j <= k < |states|
    requires id < IdBound(states[j].index.segments) && id !in Live(states[j].index)
    ensures id < IdBound(states[k].index.segments) && id !in Live(states[k].index)
    decreases k - j
  {
    if j < k {
      RunKeepsInv(states, events, j);
      StepOnlyNewIds(states[j], events[j], states[j + 1]);
      DeadStaysDead(states, events, j + 1, k, id);
    }
  }
}
