/**
 What the program may commit over an index: an update from a reconcile plan, a
 prepared merge, a full build (src/store/update.rs, src/store/merge.rs,
 src/store/writer.rs); and which overlays an update can write.
 */
module Writers {
  import opened Wrappers
  import opened Documents
  import opened Postings
  import opened Build
  import opened Segments
  import opened Reconcile
  import opened Convergence
  import opened Update
  import opened MergePrepare
  import opened MergeCommit
  import opened MergeMeaning
  import MergeRuns
  import PlanMerges
  import CommittedManifests
  import opened History

  // ----- What may be written over an index -----

  /** `b` is what a non-empty plan for some crawl makes of `a`. */
  ghost predicate PlansUpdate(a: Index, b: Index, prev: StateIndex, crawl: seq<CrawledFile>, changes: seq<Change>, built: seq<BuiltSegment>) {
    && Records(prev, Live(a)) && DistinctCrawl(crawl) && IsPlan(prev, crawl, changes) && changes != []
    && Updates(a, b, changes, built) && ValidDocs(DocsFor(Added(changes)))
  }

  ghost predicate ByUpdate(a: Index, b: Index) {
    exists prev, crawl, changes, built :: PlansUpdate(a, b, prev, crawl, changes, built)
  }

  /** The planner makes this group, under some policy and file sizes. */
  ghost predicate PlannedGroup(snapshot: Index, group: seq<Segment>) {
    exists size, policy :: IdsOf(group) in PlanMerges.Plan(snapshot.segments, size, policy)
  }

  /** `b` commits, over the last of `history`, groups planned and prepared over the `j`th. */
  ghost predicate MergesInto(history: seq<Index>, b: Index, prepared: seq<PreparedMerge>, j: nat, groups: seq<seq<Segment>>) {
    && j < |history| && (forall k | 0 <= k < |groups| :: PlannedGroup(history[j], groups[k]))
    && Batch(prepared, history[j], groups, history[|history| - 1]) && b == Committed(history[|history| - 1], prepared)
  }

  ghost predicate ByMerge(history: seq<Index>, b: Index) {
    exists prepared, j: nat, groups :: MergesInto(history, b, prepared, j, groups)
  }

  /** `b` is what a build of some crawl commits. */
  ghost predicate BuildsInto(b: Index, files: seq<CrawledFile>, built: seq<BuiltSegment>, firstId: nat, generation: nat) {
    && DistinctCrawl(files) && ValidDocs(DocsFor(files)) && Tiles(built, DocsFor(files), 0, firstId)
    && b == CommittedManifests.BuiltIndex(built, DocsFor(files), firstId, generation)
  }

  ghost predicate ByBuild(b: Index, firstId: nat, generation: nat) {
    exists files, built :: BuildsInto(b, files, built, firstId, generation)
  }

  /** What is written over the last of `history`: a rebuild goes on with its segment ids and generation. */
  ghost predicate Writes(history: seq<Index>, b: Index)
    requires history != []
  {
    var a := history[|history| - 1];
    ByUpdate(a, b) || ByMerge(history, b) || ByBuild(b, a.nextSegmentId, a.generation + 1)
  }

  /** What a build commits where there is no index. */
  ghost predicate FirstBuild(b: Index) {
    ByBuild(b, 0, 1)
  }

  /** Commits of the program, one after another. */
  ghost predicate Written(history: seq<Index>) {
    && (history != [] ==> FirstBuild(history[0]))
    && forall k | 0 < k < |history| :: Writes(history[..k], history[k])
  }

  lemma {:induction false} BuildRebuilds(a: Index, b: Index)
    requires ByBuild(b, a.nextSegmentId, a.generation + 1)
    ensures MergeRuns.Rebuilds(a, b)
  {
    hide MergeRuns.Rebuilds, Tiles, CommittedManifests.BuiltIndex, ValidDocs, DocsFor;
    var files, built :| BuildsInto(b, files, built, a.nextSegmentId, a.generation + 1);
    CommittedManifests.BuildRebuilds(a, built, DocsFor(files), a.generation + 1);
  }

  lemma {:induction false} FirstWell(b: Index)
    requires FirstBuild(b)
    ensures WellFormed(b) && b.overlay == map[]
  {
    hide ByBuild;
    BuildRebuilds(Index([], map[], 0, 0, 0), b);
  }

  lemma {:induction false} LiveBelow(ix: Index)
    ensures forall id | id in Live(ix) :: id < IdBound(ix.segments)
  {
  }

  lemma {:induction false} PlanPatches(a: Index, b: Index, prev: StateIndex, crawl: seq<CrawledFile>, changes: seq<Change>, built: seq<BuiltSegment>)
    requires PlansUpdate(a, b, prev, crawl, changes, built)
    ensures PatchesBelow(changes, IdBound(a.segments))
  {
    hide Records, IsPlan, DistinctCrawl, Updates, IdBound, PatchesBelow, Live;
    LiveBelow(a);
    PlanPatchesBelow(prev, Live(a), crawl, changes, IdBound(a.segments));
  }

  lemma {:induction false} WritesExtends(history: seq<Index>, b: Index)
    requires history != [] && WellFormed(history[|history| - 1]) && Writes(history, b)
    ensures Extends(history[|history| - 1], b)
  {
    hide WellFormed, Extends, PlansUpdate, Batch, ByBuild, Committed, PlannedGroup;
    var a := history[|history| - 1];
    if ByUpdate(a, b) {
      var prev, crawl, changes, built :| PlansUpdate(a, b, prev, crawl, changes, built);
      PlanPatches(a, b, prev, crawl, changes, built);
      PlanUpdates(a, b, prev, crawl, changes, built);
      UpdateExtends(a, b, changes, built);
    } else if ByMerge(history, b) {
      var prepared, j: nat, groups :| MergesInto(history, b, prepared, j, groups);
      MergeExtends(prepared, history[j], groups, a);
    } else {
      BuildRebuilds(a, b);
      RebuildExtends(a, b);
    }
  }

  lemma {:induction false} PlanUpdates(a: Index, b: Index, prev: StateIndex, crawl: seq<CrawledFile>, changes: seq<Change>, built: seq<BuiltSegment>)
    requires PlansUpdate(a, b, prev, crawl, changes, built)
    ensures Updates(a, b, changes, built)
  {
  }

  lemma {:induction false} WrittenWell(history: seq<Index>, k: nat)
    requires Written(history) && k < |history|
    ensures WellFormed(history[k])
    decreases k
  {
    hide WellFormed, Writes, FirstBuild;
    if k > 0 {
      WrittenWell(history, k - 1);
      assert history[..k][k - 1] == history[k - 1];
      WritesExtends(history[..k], history[k]);
      ExtendsWell(history[k - 1], history[k]);
    } else {
      FirstWell(history[0]);
    }
  }

  lemma {:induction false} ExtendsWell(a: Index, b: Index)
    requires Extends(a, b)
    ensures WellFormed(b)
  {
  }

  lemma {:induction false} WrittenChain(history: seq<Index>)
    requires Written(history)
    ensures Chain(history)
  {
    hide WellFormed, Writes, Extends;
    forall k | 0 <= k < |history|
      ensures WellFormed(history[k]) && (k > 0 ==> Extends(history[k - 1], history[k]))
    {
      WrittenWell(history, k);
      if k > 0 {
        WrittenWell(history, k - 1);
        assert history[..k][k - 1] == history[k - 1];
        WritesExtends(history[..k], history[k]);
      }
    }
  }

  // ----- Which documents a plan can patch -----

  /** A later live document stands at the same path. */
  ghost predicate Shadowed(live: map<DocId, Doc>, id: DocId)
    requires id in live
  {
    exists o :: o in live && o > id && live[o].meta.path == live[id].meta.path
  }

  /** Touched in place, content confirmed; or found again by its inode. */
  ghost predicate Patchable(live: map<DocId, Doc>, id: DocId) {
    id in live && (live[id].meta.inode != 0 || (live[id].record.status.WasRead() && !Shadowed(live, id)))
  }

  ghost predicate CanPatch(live: map<DocId, Doc>) {
    exists id :: Patchable(live, id)
  }

  /** Whatever a verdict is about is recorded at its path; a document it keeps with new metadata is patchable. */
  lemma {:induction false} JudgedPatchable(prev: StateIndex, live: map<DocId, Doc>, consumed: set<Path>, f: CrawledFile)
    requires Records(prev, live)
    ensures var v := Decide(prev, consumed, f);
      && (!v.Fresh? ==> v.id in live && !Shadowed(live, v.id))
      && (v.Touched? ==> live[v.id].record.status.WasRead())
      && (v.Moved? ==> f.meta.inode != 0 && CanPatch(live))
  {
    hide Records, Shadowed, CanPatch, LastAt;
    if f.meta.path in prev.byPath {
      RecordedLast(prev, live, f.meta.path);
    } else if f.meta.inode in prev.byInode {
      InodePatchable(prev, live, f.meta.inode);
      if prev.byInode[f.meta.inode] in prev.byPath {
        RecordedLast(prev, live, prev.byInode[f.meta.inode]);
      }
    }
  }

  lemma {:induction false} RecordedLast(prev: StateIndex, live: map<DocId, Doc>, p: Path)
    requires Records(prev, live) && p in prev.byPath
    ensures var s := prev.byPath[p];
      s.docId in live && live[s.docId].meta.path == p && !Shadowed(live, s.docId) && s == StateFor(s.docId, live[s.docId])
  {
    assert LastAt(live, p, prev.byPath[p].docId);
  }

  lemma {:induction false} InodePatchable(prev: StateIndex, live: map<DocId, Doc>, inode: nat)
    requires Records(prev, live) && inode in prev.byInode
    ensures inode != 0 && CanPatch(live)
  {
    var id :| LastWith(live, inode, id) && prev.byInode[inode] == live[id].meta.path;
    assert Patchable(live, id);
  }

  /** A patch of a plan, and a deletion of one, as they may be over `live`. */
  ghost predicate FairChange(live: map<DocId, Doc>, c: Change) {
    match c
    case Patch(id, m) => id in live && !Shadowed(live, id) && CanPatch(live) && (m.inode != 0 || live[id].record.status.WasRead())
    case Delete(id) => id in live && !Shadowed(live, id)
    case Reindex(_) => true
  }

  lemma {:induction false} PlanFair(prev: StateIndex, live: map<DocId, Doc>, crawl: seq<CrawledFile>, changes: seq<Change>)
    requires Records(prev, live) && IsPlan(prev, crawl, changes)
    ensures forall k | 0 <= k < |changes| :: FairChange(live, changes[k])
  {
    hide Records, FairChange, Judges, Enumerates;
    var verdicts: seq<Verdict>, order: seq<Path> :| PlanFrom(prev, crawl, changes, verdicts, order);
    CrawlFair(prev, live, crawl, verdicts);
    assert forall p | p in order :: p in prev.byPath by { OrderKnown(prev, crawl, verdicts, order); }
    DeletionsFair(prev, live, order);
    var crawled := CrawlChanges(verdicts, crawl);
    forall k | 0 <= k < |changes|
      ensures FairChange(live, changes[k])
    {
      if k < |crawled| {
        assert changes[k] == crawled[k];
      } else {
        assert changes[k] == DeletionsFor(prev, order)[k - |crawled|];
      }
    }
  }

  lemma {:induction false} OrderKnown(prev: StateIndex, crawl: seq<CrawledFile>, verdicts: seq<Verdict>, order: seq<Path>)
    requires Enumerates(order, Leftover(prev, crawl, verdicts))
    ensures forall p | p in order :: p in prev.byPath
  {
  }

  lemma {:induction false} CrawlFair(prev: StateIndex, live: map<DocId, Doc>, crawl: seq<CrawledFile>, verdicts: seq<Verdict>)
    requires Records(prev, live) && Judges(prev, crawl, verdicts)
    ensures forall k | 0 <= k < |CrawlChanges(verdicts, crawl)| :: FairChange(live, CrawlChanges(verdicts, crawl)[k])
  {
    if verdicts != [] {
      hide Records, FairChange, Decide;
      var n := |verdicts| - 1;
      CrawlFair(prev, live, crawl, verdicts[..n]);
      VerdictFair(prev, live, Sources(verdicts[..n]), crawl[n]);
    }
  }

  lemma {:induction false} VerdictFair(prev: StateIndex, live: map<DocId, Doc>, consumed: set<Path>, f: CrawledFile)
    requires Records(prev, live)
    ensures forall k | 0 <= k < |ChangesFor(Decide(prev, consumed, f), f)| :: FairChange(live, ChangesFor(Decide(prev, consumed, f), f)[k])
  {
    hide Records, Decide, CanPatch, Shadowed;
    JudgedPatchable(prev, live, consumed, f);
    var v := Decide(prev, consumed, f);
    if v.Touched? {
      TouchedPatchable(live, v.id);
    }
  }

  lemma {:induction false} TouchedPatchable(live: map<DocId, Doc>, id: DocId)
    requires id in live && live[id].record.status.WasRead() && !Shadowed(live, id)
    ensures CanPatch(live)
  {
    assert Patchable(live, id);
  }

  lemma {:induction false} DeletionsFair(prev: StateIndex, live: map<DocId, Doc>, order: seq<Path>)
    requires Records(prev, live) && forall p | p in order :: p in prev.byPath
    ensures forall k | 0 <= k < |DeletionsFor(prev, order)| :: FairChange(live, DeletionsFor(prev, order)[k])
  {
    if order != [] {
      DeletionsFair(prev, live, order[..|order| - 1]);
      var p := order[|order| - 1];
      assert LastAt(live, p, prev.byPath[p].docId);
    }
  }

  // ----- What overlays hold -----

  /** A live document in the overlay was read, or its patch recorded an inode. */
  ghost predicate PatchSound(ix: Index) {
    forall id | id in Live(ix) && id in ix.overlay :: ix.overlay[id].inode != 0 || Live(ix)[id].record.status.WasRead()
  }

  /** The overlay is what live documents show. */
  lemma {:induction false} OverlayShows(ix: Index)
    requires WellFormed(ix)
    ensures forall id | id in Live(ix) && id in ix.overlay :: Live(ix)[id].meta == ix.overlay[id]
  {
    LiveTabulates(ix);
    forall id | id in Live(ix) && id in ix.overlay
      ensures Live(ix)[id].meta == ix.overlay[id]
    {
      var s, l := PlaceOf(ix, Live(ix), id);
    }
  }

  lemma {:induction false} PatchedFrom(overlay: map<DocId, Meta>, changes: seq<Change>, id: DocId, live: map<DocId, Doc>)
    requires id in Patched(overlay, changes) && id in live && forall k | 0 <= k < |changes| :: FairChange(live, changes[k])
    ensures (id in overlay && Patched(overlay, changes)[id] == overlay[id])
            || Patched(overlay, changes)[id].inode != 0 || live[id].record.status.WasRead()
  {
    if changes != [] {
      hide CanPatch, Shadowed;
      var n := |changes| - 1;
      assert FairChange(live, changes[n]);
      if !(changes[n].Patch? && changes[n].id == id) {
        PatchedFrom(overlay, changes[..n], id, live);
      }
    }
  }

  lemma {:induction false} UpdateSound(a: Index, b: Index)
    requires WellFormed(a) && PatchSound(a) && ByUpdate(a, b)
    ensures PatchSound(b)
  {
    hide WellFormed, Live, Records, IsPlan, FairChange, Patched, Applied;
    var prev, crawl, changes, built :| PlansUpdate(a, b, prev, crawl, changes, built);
    PlanPatches(a, b, prev, crawl, changes, built);
    PlanFair(prev, Live(a), crawl, changes);
    UpdateApplies(a, b, changes, built);
    UpdateOverlay(a, b, changes, built);
    forall id | id in Live(b) && id in b.overlay
      ensures b.overlay[id].inode != 0 || Live(b)[id].record.status.WasRead()
    {
      AppliedOld(Live(a), changes, IdBound(a.segments), id);
      PatchedFrom(a.overlay, changes, id, Live(a));
    }
  }

  lemma {:induction false} UpdateOverlay(a: Index, b: Index, changes: seq<Change>, built: seq<BuiltSegment>)
    requires WellFormed(a) && Updates(a, b, changes, built) && PatchesBelow(changes, IdBound(a.segments))
    ensures forall id | id in b.overlay :: id < IdBound(a.segments) && id in Patched(a.overlay, changes) && b.overlay[id] == Patched(a.overlay, changes)[id]
  {
    PatchedKeys(a.overlay, changes, IdBound(a.segments));
  }

  lemma {:induction false} AppliedOld(live: map<DocId, Doc>, changes: seq<Change>, base: DocId, id: DocId)
    requires id in Applied(live, changes, base) && id < base
    ensures id in live && Applied(live, changes, base)[id].record == live[id].record
  {
  }

  lemma {:induction false} MergeSound(history: seq<Index>, b: Index)
    requires ByMerge(history, b) && WellFormed(history[|history| - 1]) && PatchSound(history[|history| - 1])
    ensures PatchSound(b)
  {
    hide Batch, WellFormed, Live, PlannedGroup, Committed;
    var prepared, j: nat, groups :| MergesInto(history, b, prepared, j, groups);
    var a := history[|history| - 1];
    MergeWellFormed(prepared, history[j], groups, a);
    LiveTabulates(a);
    LiveTabulates(b);
    CommittedOverlay(a, prepared);
    forall id | id in Live(b) && id in b.overlay
      ensures b.overlay[id].inode != 0 || Live(b)[id].record.status.WasRead()
    {
      MergedOld(a, prepared, id, Live(a), Live(b));
    }
  }

  lemma {:induction false} CommittedOverlay(a: Index, prepared: seq<PreparedMerge>)
    ensures Committed(a, prepared).overlay == a.overlay && Committed(a, prepared).stateGen == a.stateGen
  {
  }

  /** A live document in the overlay was not merged. */
  lemma {:induction false} MergedOld(a: Index, prepared: seq<PreparedMerge>, id: DocId, live: map<DocId, Doc>, after: map<DocId, Doc>)
    requires WellFormed(a) && Tabulates(a, live) && Tabulates(Committed(a, prepared), after) && id in after && id in a.overlay
    ensures id in live && live[id].record == after[id].record
  {
    var s, l := PlaceOf(Committed(a, prepared), after, id);
    CommittedSegments(a, prepared, s);
    assert id < IdBound(a.segments);
    PlaceIn(a, live, s, l);
  }

  lemma {:induction false} WrittenSound(history: seq<Index>, k: nat)
    requires Written(history) && k < |history|
    ensures PatchSound(history[k])
    decreases k
  {
    hide WellFormed, ByUpdate, ByMerge, PatchSound, FirstBuild, ByBuild;
    if k == 0 {
      FirstWell(history[0]);
      NoOverlay(history[0]);
    } else {
      WrittenWell(history, k - 1);
      WrittenSound(history, k - 1);
      var before := history[..k];
      assert before[|before| - 1] == history[k - 1] && Writes(before, history[k]);
      if ByUpdate(history[k - 1], history[k]) {
        UpdateSound(history[k - 1], history[k]);
      } else if ByMerge(before, history[k]) {
        MergeSound(before, history[k]);
      } else {
        BuildRebuilds(history[k - 1], history[k]);
        NoOverlay(history[k]);
      }
    }
  }

  lemma {:induction false} NoOverlay(ix: Index)
    requires ix.overlay == map[]
    ensures PatchSound(ix)
  {
  }

  // ----- An update with nothing to patch -----

  /** With nothing patchable, an update leaves the overlay as it is. */
  lemma {:induction false} NothingPatched(a: Index, b: Index)
    requires WellFormed(a) && PatchSound(a) && ByUpdate(a, b) && !CanPatch(Live(a))
    ensures b.overlay == a.overlay
  {
    hide WellFormed, Live, Records, IsPlan, CanPatch, Shadowed, Patched, Deleted;
    var prev, crawl, changes, built :| PlansUpdate(a, b, prev, crawl, changes, built);
    PlanFair(prev, Live(a), crawl, changes);
    PatchedNone(a.overlay, changes);
    OverlayShows(a);
    forall id | id in a.overlay
      ensures id !in Deleted(changes)
    {
      if id in Deleted(changes) {
        DeletedFair(Live(a), changes, id);
        if id in Live(a) {
          OverlaidPatchable(a, id);
        }
      }
    }
    assert a.overlay - Deleted(changes) == a.overlay;
  }

  lemma {:induction false} PatchedNone(overlay: map<DocId, Meta>, changes: seq<Change>)
    requires forall k | 0 <= k < |changes| :: !changes[k].Patch?
    ensures Patched(overlay, changes) == overlay
  {
    if changes != [] {
      PatchedNone(overlay, changes[..|changes| - 1]);
    }
  }

  lemma {:induction false} DeletedFair(live: map<DocId, Doc>, changes: seq<Change>, id: DocId)
    requires (forall k | 0 <= k < |changes| :: FairChange(live, changes[k])) && id in Deleted(changes)
    ensures id in live && !Shadowed(live, id)
  {
    hide CanPatch, Shadowed;
    var k :| 0 <= k < |changes| && changes[k].Delete? && changes[k].id == id;
    assert FairChange(live, changes[k]);
  }

  /**
   A live document with another after it at its path is out of reach: every
   update leaves it live as it is.
   */
  lemma {:induction false} ShadowedStays(a: Index, b: Index, id: DocId)
    requires WellFormed(a) && ByUpdate(a, b) && id in Live(a) && Shadowed(Live(a), id)
    ensures id in Live(b) && Live(b)[id] == Live(a)[id]
  {
    hide WellFormed, Live, Records, IsPlan, CanPatch, Shadowed, Deleted, Applied;
    var prev, crawl, changes, built :| PlansUpdate(a, b, prev, crawl, changes, built);
    PlanPatches(a, b, prev, crawl, changes, built);
    PlanFair(prev, Live(a), crawl, changes);
    UpdateApplies(a, b, changes, built);
    if id in Deleted(changes) {
      DeletedFair(Live(a), changes, id);
      assert false;
    }
    ShadowedUnpatched(Live(a), changes, id);
    LiveBelow(a);
    AppliedSame(Live(a), changes, IdBound(a.segments), id);
  }

  lemma {:induction false} ShadowedUnpatched(live: map<DocId, Doc>, changes: seq<Change>, id: DocId)
    requires (forall k | 0 <= k < |changes| :: FairChange(live, changes[k])) && id in live && Shadowed(live, id)
    ensures MetaAfter(changes, id, live[id].meta) == live[id].meta
  {
    if changes != [] {
      hide CanPatch, Shadowed;
      assert FairChange(live, changes[|changes| - 1]);
      ShadowedUnpatched(live, changes[..|changes| - 1], id);
    }
  }

  lemma {:induction false} AppliedSame(live: map<DocId, Doc>, changes: seq<Change>, base: DocId, id: DocId)
    requires id in live && id < base && id !in Deleted(changes) && MetaAfter(changes, id, live[id].meta) == live[id].meta
    ensures id in Applied(live, changes, base) && Applied(live, changes, base)[id] == live[id]
  {
    hide MetaAfter, Deleted;
  }

  lemma {:induction false} OverlaidPatchable(ix: Index, id: DocId)
    requires PatchSound(ix) && id in Live(ix) && id in ix.overlay && Live(ix)[id].meta == ix.overlay[id] && !Shadowed(Live(ix), id)
    ensures CanPatch(Live(ix))
  {
    hide Live;
    assert Patchable(Live(ix), id);
  }

  // ----- An update that patches -----

  lemma {:induction false} MaxExists(ids: set<nat>) returns (m: nat)
    requires ids != {}
    ensures m in ids && forall o | o in ids :: o <= m
    decreases |ids|
  {
    var id :| id in ids;
    var rest := ids - {id};
    assert forall o | o in ids :: o == id || o in rest;
    m := id;
    if rest != {} {
      var most := MaxExists(rest);
      m := if most < id then id else most;
    }
  }

  ghost predicate HasPath(live: map<DocId, Doc>, p: Path) {
    exists id :: id in live && live[id].meta.path == p
  }

  ghost predicate HasInode(live: map<DocId, Doc>, inode: nat) {
    exists id :: id in live && live[id].meta.inode == inode
  }

  lemma {:induction false} LastAtExists(live: map<DocId, Doc>, p: Path)
    requires HasPath(live, p)
    ensures exists id :: LastAt(live, p, id)
  {
    var same := set id | id in live && live[id].meta.path == p;
    var some :| some in live && live[some].meta.path == p;
    assert some in same;
    var m := MaxExists(same);
    assert forall o | o in live && live[o].meta.path == p :: o in same;
    assert LastAt(live, p, m);
  }

  lemma {:induction false} LastWithExists(live: map<DocId, Doc>, inode: nat)
    requires HasInode(live, inode)
    ensures exists id :: LastWith(live, inode, id)
  {
    var same := set id | id in live && live[id].meta.inode == inode;
    var some :| some in live && live[some].meta.inode == inode;
    assert some in same;
    var m := MaxExists(same);
    assert forall o | o in live && live[o].meta.inode == inode :: o in same;
    assert LastWith(live, inode, m);
  }

  ghost function LastAtPath(live: map<DocId, Doc>, p: Path): (id: DocId)
    requires HasPath(live, p)
    ensures LastAt(live, p, id)
  {
    LastAtExists(live, p);
    var id :| LastAt(live, p, id);
    id
  }

  ghost function LastWithInode(live: map<DocId, Doc>, inode: nat): (id: DocId)
    requires HasInode(live, inode)
    ensures LastWith(live, inode, id)
  {
    LastWithExists(live, inode);
    var id :| LastWith(live, inode, id);
    id
  }

  /** Whatever is live has its record. */
  lemma {:induction false} StateExists(live: map<DocId, Doc>) returns (prev: StateIndex)
    ensures Records(prev, live)
  {
    var paths := set id | id in live :: live[id].meta.path;
    var inodes := set id | id in live && live[id].meta.inode != 0 :: live[id].meta.inode;
    assert forall p | p in paths :: HasPath(live, p);
    assert forall i | i in inodes :: HasInode(live, i);
    prev := StateIndex(map p | p in paths :: StateFor(LastAtPath(live, p), Of(live, LastAtPath(live, p))),
                       map i | i in inodes :: Of(live, LastWithInode(live, i)).meta.path);
    forall p | p in prev.byPath
      ensures var s := prev.byPath[p]; LastAt(live, p, s.docId) && s == StateFor(s.docId, live[s.docId])
    {
      LastIn(live, p, LastAtPath(live, p));
    }
    forall i | i in prev.byInode
      ensures i != 0 && exists id {:trigger LastWith(live, i, id)} :: LastWith(live, i, id) && prev.byInode[i] == live[id].meta.path
    {
      var id := LastWithInode(live, i);
      WithIn(live, i, id);
      assert LastWith(live, i, id) && prev.byInode[i] == live[id].meta.path;
    }
  }

  /** The document under `id`, which is live. */
  ghost function Of(live: map<DocId, Doc>, id: DocId): Doc {
    if id in live then live[id] else Doc(Meta("", 0, 0, 0), Record(Binary, 0, 0, map[]))
  }

  lemma {:induction false} LastIn(live: map<DocId, Doc>, p: Path, id: DocId)
    requires LastAt(live, p, id)
    ensures id in live && live[id].meta.path == p
  {
  }

  lemma {:induction false} WithIn(live: map<DocId, Doc>, inode: nat, id: DocId)
    requires LastWith(live, inode, id)
    ensures id in live && live[id].meta.inode == inode
  {
  }

  lemma {:induction false} OrderExists(paths: set<Path>) returns (order: seq<Path>)
    ensures Enumerates(order, paths)
    decreases |paths|
  {
    if paths == {} {
      order := [];
    } else {
      var p :| p in paths;
      var rest := OrderExists(paths - {p});
      order := rest + [p];
    }
  }

  /** `order` visits every known path but the file's own and the one it moved from. */
  ghost predicate Left(prev: StateIndex, f: CrawledFile, v: Verdict, order: seq<Path>) {
    forall p :: p in order <==> p in prev.byPath && p != f.meta.path && !(v.Consumes() && p == v.from)
  }

  /** The plan for a tree of one file: what is decided about it, and the end of everything else. */
  lemma {:induction false} PlanForOne(prev: StateIndex, f: CrawledFile) returns (changes: seq<Change>, order: seq<Path>)
    ensures IsPlan(prev, [f], changes) && DistinctCrawl([f])
    ensures Left(prev, f, Decide(prev, {}, f), order) && forall i, j | 0 <= i < j < |order| :: order[i] != order[j]
    ensures changes == ChangesFor(Decide(prev, {}, f), f) + DeletionsFor(prev, order)
  {
    hide Decide;
    var v := Decide(prev, {}, f);
    NothingJudged(prev, [f]);
    JudgesMore(prev, [f], [], v);
    assert [] + [v] == [v] && [f][..1] == [f];
    PathsMore([f], 0);
    order := OrderExists(Leftover(prev, [f], [v]));
    changes := ChangesFor(v, f) + DeletionsFor(prev, order);
    assert PlanFrom(prev, [f], changes, [v], order);
  }

  /** Some index is committed for any plan. */
  lemma {:induction false} UpdateExists(a: Index, changes: seq<Change>) returns (b: Index, built: seq<BuiltSegment>)
    ensures Updates(a, b, changes, built)
  {
    var docs := DocsFor(Added(changes));
    built := OneTile(docs, IdBound(a.segments), a.nextSegmentId);
    var overlay := Patched(a.overlay, changes) - Deleted(changes);
    b := Index(Tombstoned(a.segments, Deleted(changes)) + AsSegments(built, docs), overlay, a.nextSegmentId + |built|,
               if overlay == map[] then 0 else a.stateGen + 1, a.generation + 1);
  }

  lemma {:induction false} OneTile(docs: seq<Doc>, base: DocId, firstId: nat) returns (built: seq<BuiltSegment>)
    ensures Tiles(built, docs, base, firstId)
  {
    if docs == [] {
      built := [];
    } else {
      TermMapIs(docs);
      built := [BuiltSegment(firstId, base, RowsOf(docs), TermMap(docs))];
      assert docs[0..] == docs && docs[..0] == [] && built[..0] == [];
    }
  }

  lemma {:induction false} FreshPath(paths: set<Path>) returns (p: Path)
    ensures p !in paths && forall q | q in paths :: |q| < |p|
    decreases |paths|
  {
    if paths == {} {
      p := "x";
    } else {
      var q :| q in paths;
      var r := FreshPath(paths - {q});
      p := r + q;
      assert |p| >= |r| && |p| >= |q|;
      p := p + "x";
    }
  }

  /** A file whose plan patches a patchable document with metadata other than `m`. */
  lemma {:induction false} PatchingFile(prev: StateIndex, live: map<DocId, Doc>, avoid: map<DocId, Meta>) returns (f: CrawledFile, id: DocId)
    requires Records(prev, live) && CanPatch(live)
    ensures Decide(prev, {}, f).Touched? || Decide(prev, {}, f).Moved?
    ensures Decide(prev, {}, f).id == id && (id in avoid ==> avoid[id] != f.meta)
  {
    var d :| Patchable(live, d);
    if live[d].meta.inode != 0 {
      f, id := MovingFile(prev, live, d, avoid);
    } else {
      f, id := TouchingFile(prev, live, d, avoid);
    }
  }

  lemma {:induction false} MovingFile(prev: StateIndex, live: map<DocId, Doc>, d: DocId, avoid: map<DocId, Meta>) returns (f: CrawledFile, id: DocId)
    requires Records(prev, live) && d in live && live[d].meta.inode != 0
    ensures Decide(prev, {}, f).Moved? && Decide(prev, {}, f).id == id && (id in avoid ==> avoid[id] != f.meta)
  {
    var inode := live[d].meta.inode;
    var last :| LastWith(live, inode, last) && prev.byInode[inode] == live[last].meta.path;
    var prior := prev.byPath[prev.byInode[inode]];
    id := prior.docId;
    var p := FreshPath(prev.byPath.Keys + if id in avoid then {avoid[id].path} else {});
    f := CrawledFile(Meta(p, inode, prior.mtime, prior.size), BinaryFile, Unreadable);
  }

  lemma {:induction false} TouchingFile(prev: StateIndex, live: map<DocId, Doc>, d: DocId, avoid: map<DocId, Meta>) returns (f: CrawledFile, id: DocId)
    requires Records(prev, live) && d in live && live[d].record.status.WasRead() && !Shadowed(live, d)
    ensures Decide(prev, {}, f).Touched? && Decide(prev, {}, f).id == id && (id in avoid ==> avoid[id] != f.meta)
  {
    id := d;
    var m := live[d].meta;
    assert LastAt(live, m.path, prev.byPath[m.path].docId);
    assert prev.byPath[m.path].docId == d;
    var time := if d in avoid && avoid[d].mtime == m.mtime + 1 then m.mtime + 2 else m.mtime + 1;
    f := CrawledFile(m.(mtime := time), TextFile, Bytes(live[d].record.hash, None));
  }

  lemma {:induction false} DeletionsPatch(prev: StateIndex, order: seq<Path>, overlay: map<DocId, Meta>, first: Change)
    requires forall p | p in order :: p in prev.byPath
    ensures Patched(overlay, [first] + DeletionsFor(prev, order)) == if first.Patch? then overlay[first.id := first.meta] else overlay
  {
    if order == [] {
      assert [first] + DeletionsFor(prev, order) == [first] && [first][..0] == [];
      assert Patched(overlay, []) == overlay;
    } else {
      var front := DeletionsFor(prev, order[..|order| - 1]);
      var all := [first] + DeletionsFor(prev, order);
      assert all[..|all| - 1] == [first] + front;
      DeletionsPatch(prev, order[..|order| - 1], overlay, first);
    }
  }

  /** The plan for one file indexes that file or none. */
  lemma {:induction false} AddedValid(prev: StateIndex, f: CrawledFile, order: seq<Path>, changes: seq<Change>)
    requires (forall p | p in order :: p in prev.byPath) && changes == ChangesFor(Decide(prev, {}, f), f) + DeletionsFor(prev, order)
    requires Decide(prev, {}, f).Indexes() ==> ValidDoc(DocOf(f))
    ensures ValidDocs(DocsFor(Added(changes)))
  {
    hide Decide, ValidDoc, ValidDocs, DocOf, ChangesFor, DocsFor;
    var v := Decide(prev, {}, f);
    AddedConcat(ChangesFor(v, f), DeletionsFor(prev, order));
    DeletionsOnlyDelete(prev, order, 0, f.meta);
    OneAdded(v, f);
    IndexedValid(v, f);
    assert Added(changes) == if v.Indexes() then [f] else [];
  }

  lemma {:induction false} IndexedValid(v: Verdict, f: CrawledFile)
    requires v.Indexes() ==> ValidDoc(DocOf(f))
    ensures ValidDocs(DocsFor(if v.Indexes() then [f] else []))
  {
    hide DocOf, ValidDoc;
  }

  lemma {:induction false} OneAdded(v: Verdict, f: CrawledFile)
    ensures Added(ChangesFor(v, f)) == if v.Indexes() then [f] else []
  {
    var cs := ChangesFor(v, f);
    AddedAlone(Reindex(f));
    if cs != [] {
      AddedAlone(cs[0]);
      assert |cs| == 1 ==> cs == [cs[0]];
    }
    if |cs| == 2 {
      assert cs == [cs[0]] + [cs[1]];
      AddedConcat([cs[0]], [cs[1]]);
    }
  }

  lemma {:induction false} AddedAlone(c: Change)
    ensures Added([c]) == if c.Reindex? then [c.file] else []
  {
    assert [c][..0] == [];
  }

  /** Where something can be patched, some update writes an overlay that is not `avoid`. */
  lemma {:induction false} PatchingUpdate(a: Index, avoid: map<DocId, Meta>) returns (b: Index)
    requires CanPatch(Live(a))
    ensures ByUpdate(a, b) && b.stateGen == a.stateGen + 1 && b.overlay != avoid
  {
    hide Records, CanPatch, IsPlan, Live, Decide, DistinctCrawl, Updates;
    var prev := StateExists(Live(a));
    var f, id := PatchingFile(prev, Live(a), avoid);
    var changes, order := PlanForOne(prev, f);
    var built;
    b, built := UpdateExists(a, changes);
    assert changes != [];
    AddedValid(prev, f, order, changes);
    assert PlansUpdate(a, b, prev, [f], changes, built);
    PatchLands(a, b, prev, Live(a), f, id, order, changes, built);
  }

  lemma {:induction false} PatchLands(a: Index, b: Index, prev: StateIndex, live: map<DocId, Doc>, f: CrawledFile, id: DocId, order: seq<Path>,
                                      changes: seq<Change>, built: seq<BuiltSegment>)
    requires Records(prev, live) && Updates(a, b, changes, built)
    requires var v := Decide(prev, {}, f); (v.Touched? || v.Moved?) && v.id == id
    requires Left(prev, f, Decide(prev, {}, f), order)
    requires changes == ChangesFor(Decide(prev, {}, f), f) + DeletionsFor(prev, order)
    ensures b.stateGen == a.stateGen + 1 && id in b.overlay && b.overlay[id] == f.meta
  {
    hide Records, Decide, Patched, Tiles, Tombstoned, AsSegments, IdBound;
    DeletionsPatch(prev, order, a.overlay, Patch(id, f.meta));
    assert id !in Deleted(changes) by {
      var own := OwnPath(prev, f);
      OthersDeleted(prev, live, own, order);
      PatchedStays(prev, id, f.meta, order);
    }
    assert id in b.overlay;
  }

  /** The path that the file's document was recorded at. */
  lemma {:induction false} OwnPath(prev: StateIndex, f: CrawledFile) returns (own: Path)
    requires var v := Decide(prev, {}, f); v.Touched? || v.Moved?
    ensures var v := Decide(prev, {}, f);
      own in prev.byPath && prev.byPath[own].docId == v.id && (own == f.meta.path || (v.Consumes() && own == v.from))
  {
    var v := Decide(prev, {}, f);
    own := if v.Moved? then v.from else f.meta.path;
  }

  /** Documents recorded at other paths are others. */
  lemma {:induction false} OthersDeleted(prev: StateIndex, live: map<DocId, Doc>, own: Path, order: seq<Path>)
    requires Records(prev, live) && own in prev.byPath && own !in order && forall p | p in order :: p in prev.byPath
    ensures forall p | p in order :: prev.byPath[p].docId != prev.byPath[own].docId
  {
    hide Records, Shadowed;
    RecordedLast(prev, live, own);
    forall p | p in order
      ensures prev.byPath[p].docId != prev.byPath[own].docId
    {
      RecordedLast(prev, live, p);
    }
  }

  lemma {:induction false} PatchedStays(prev: StateIndex, id: DocId, m: Meta, order: seq<Path>)
    requires forall p | p in order :: p in prev.byPath && prev.byPath[p].docId != id
    ensures id !in Deleted([Patch(id, m)] + DeletionsFor(prev, order))
  {
    hide Deleted;
    DeletedConcat([Patch(id, m)], DeletionsFor(prev, order));
    DeletionsOnlyDelete(prev, order, id, m);
    PatchDeletesNone(id, m);
  }

  lemma {:induction false} PatchDeletesNone(id: DocId, m: Meta)
    ensures Deleted([Patch(id, m)]) == {}
  {
  }

  /** Where nothing can be patched, an update that indexes a file writes the overlay again. */
  lemma {:induction false} IndexingUpdate(a: Index) returns (b: Index)
    requires WellFormed(a) && PatchSound(a) && !CanPatch(Live(a)) && a.overlay != map[]
    ensures ByUpdate(a, b) && b.stateGen == a.stateGen + 1 && b.overlay == a.overlay
  {
    hide Records, CanPatch, IsPlan, Live, DistinctCrawl, WellFormed, PatchSound;
    var prev := StateExists(Live(a));
    var p := FreshPath(prev.byPath.Keys);
    var f := CrawledFile(Meta(p, 0, 0, 0), BinaryFile, Unreadable);
    assert Decide(prev, {}, f) == Fresh;
    var changes, order := PlanForOne(prev, f);
    var built;
    b, built := UpdateExists(a, changes);
    assert changes[0] == Reindex(f);
    AddedValid(prev, f, order, changes);
    assert PlansUpdate(a, b, prev, [f], changes, built);
    NothingPatched(a, b);
  }

  // ----- Three commits -----

  /** A tree that has become one new file: everything else is deleted. */
  lemma {:induction false} ReplacingUpdate(a: Index, g: CrawledFile) returns (b: Index)
    requires WellFormed(a) && DistinctPaths(Live(a)) && !HasPath(Live(a), g.meta.path) && g.meta.inode == 0 && ValidDoc(DocOf(g))
    ensures ByUpdate(a, b) && Live(b) == map[IdBound(a.segments) := DocOf(g)]
    ensures a.overlay.Keys <= Live(a).Keys ==> b.overlay == map[] && b.stateGen == 0
  {
    hide Records, IsPlan, Live, DistinctCrawl, WellFormed, DistinctPaths, Decide, DocOf, Updates, IdBound, HasPath;
    var prev := StateExists(Live(a));
    UnknownFresh(prev, Live(a), g);
    var changes, order := PlanForOne(prev, g);
    var built;
    b, built := UpdateExists(a, changes);
    assert changes[0] == Reindex(g);
    AddedValid(prev, g, order, changes);
    assert PlansUpdate(a, b, prev, [g], changes, built);
    ReplacedIs(prev, Live(a), g, order, changes);
    PlanPatches(a, b, prev, [g], changes, built);
    UpdateApplies(a, b, changes, built);
    LiveBelow(a);
    ReplacedLive(Live(a), changes, IdBound(a.segments), g);
    OverlayGone(a, b, changes, built);
  }

  lemma {:induction false} UnknownFresh(prev: StateIndex, live: map<DocId, Doc>, g: CrawledFile)
    requires Records(prev, live) && !HasPath(live, g.meta.path) && g.meta.inode == 0
    ensures Decide(prev, {}, g) == Fresh && g.meta.path !in prev.byPath
  {
    KnownPaths(prev, live);
  }

  lemma {:induction false} KnownPaths(prev: StateIndex, live: map<DocId, Doc>)
    requires Records(prev, live)
    ensures forall p | p in prev.byPath :: HasPath(live, p)
  {
    forall p | p in prev.byPath
      ensures HasPath(live, p)
    {
      assert LastAt(live, p, prev.byPath[p].docId);
    }
  }

  lemma {:induction false} ReplacedIs(prev: StateIndex, live: map<DocId, Doc>, g: CrawledFile, order: seq<Path>, changes: seq<Change>)
    requires Records(prev, live) && DistinctPaths(live) && Left(prev, g, Fresh, order) && g.meta.path !in prev.byPath
    requires changes == [Reindex(g)] + DeletionsFor(prev, order)
    ensures Deleted(changes) == live.Keys && Added(changes) == [g] && forall k | 0 <= k < |changes| :: !changes[k].Patch?
  {
    hide Records, DistinctPaths, Deleted, Added;
    AddedConcat([Reindex(g)], DeletionsFor(prev, order));
    OneReindex(g);
    DeletionsPatchNothing(prev, order);
    DeletionsOnlyDelete(prev, order, 0, g.meta);
    assert [g] + [] == [g];
    AllDeleted(prev, live, g, order);
  }

  lemma {:induction false} AllDeleted(prev: StateIndex, live: map<DocId, Doc>, g: CrawledFile, order: seq<Path>)
    requires Records(prev, live) && DistinctPaths(live) && Left(prev, g, Fresh, order) && g.meta.path !in prev.byPath
    ensures Deleted([Reindex(g)] + DeletionsFor(prev, order)) == live.Keys
  {
    OrderIsAll(prev, live, g, order);
    hide Records, DistinctPaths, Deleted, Left;
    DeletedConcat([Reindex(g)], DeletionsFor(prev, order));
    OneReindex(g);
    forall id: DocId
      ensures id in Deleted([Reindex(g)] + DeletionsFor(prev, order)) <==> id in live
    {
      DeletionsOnlyDelete(prev, order, id, g.meta);
      assert id in live ==> prev.byPath[live[id].meta.path].docId == id;
    }
  }

  lemma {:induction false} OrderIsAll(prev: StateIndex, live: map<DocId, Doc>, g: CrawledFile, order: seq<Path>)
    requires Records(prev, live) && DistinctPaths(live) && Left(prev, g, Fresh, order) && g.meta.path !in prev.byPath
    ensures forall p | p in order :: p in prev.byPath && prev.byPath[p].docId in live
    ensures forall id | id in live :: live[id].meta.path in order && live[id].meta.path in prev.byPath && prev.byPath[live[id].meta.path].docId == id
  {
    RecordsDescribe(prev, live);
  }

  lemma {:induction false} OneReindex(g: CrawledFile)
    ensures Deleted([Reindex(g)]) == {} && Added([Reindex(g)]) == [g]
  {
    assert [Reindex(g)][..0] == [];
  }

  lemma {:induction false} ReplacedLive(live: map<DocId, Doc>, changes: seq<Change>, base: DocId, g: CrawledFile)
    requires Deleted(changes) == live.Keys && Added(changes) == [g]
    ensures Applied(live, changes, base) == map[base := DocOf(g)]
  {
    hide Deleted, Added, DocOf;
  }

  lemma {:induction false} OverlayGone(a: Index, b: Index, changes: seq<Change>, built: seq<BuiltSegment>)
    requires Updates(a, b, changes, built) && Deleted(changes) == Live(a).Keys && forall k | 0 <= k < |changes| :: !changes[k].Patch?
    ensures a.overlay.Keys <= Live(a).Keys ==> b.overlay == map[] && b.stateGen == 0
  {
    hide Tiles, Live;
    PatchedNone(a.overlay, changes);
  }

  /** Touching the one file of a tree. */
  lemma {:induction false} TouchingUpdate(a: Index, d: Doc, m: Meta) returns (b: Index)
    requires WellFormed(a) && a.overlay == map[] && Live(a) == map[0 := d] && d.record.status.WasRead() && m == d.meta.(mtime := d.meta.mtime + 1)
    ensures ByUpdate(a, b) && Live(b) == map[0 := Doc(m, d.record)] && b.overlay == map[0 := m] && b.stateGen == a.stateGen + 1
  {
    hide Records, IsPlan, Live, DistinctCrawl, WellFormed, Updates, Decide, Applied, IdBound, Left;
    var live: map<DocId, Doc> := map[0 := d];
    var prev := StateExists(live);
    var f := CrawledFile(m, TextFile, Bytes(d.record.hash, None));
    OnlyTouched(prev, live, d, f);
    var changes, order := PlanForOne(prev, f);
    OnlyPatch(prev, live, f, order, changes);
    var built;
    b, built := UpdateExists(a, changes);
    AddedValid(prev, f, order, changes);
    assert PlansUpdate(a, b, prev, [f], changes, built);
    PlanPatches(a, b, prev, [f], changes, built);
    UpdateApplies(a, b, changes, built);
    LiveBelow(a);
    assert 0 in Live(a);
    OnePatchApplied(live, m, IdBound(a.segments));
    OnePatchOverlay(a, b, changes, built, m);
  }

  lemma {:induction false} OnlyTouched(prev: StateIndex, live: map<DocId, Doc>, d: Doc, f: CrawledFile)
    requires Records(prev, live) && live == map[0 := d] && d.record.status.WasRead()
    requires f == CrawledFile(d.meta.(mtime := d.meta.mtime + 1), TextFile, Bytes(d.record.hash, None))
    ensures Decide(prev, {}, f) == Touched(0) && forall p | p in prev.byPath :: p == f.meta.path
  {
    assert 0 in live;
    forall p | p in prev.byPath
      ensures p == f.meta.path && prev.byPath[p] == StateFor(0, d)
    {
      assert LastAt(live, p, prev.byPath[p].docId);
    }
  }

  lemma {:induction false} OnlyPatch(prev: StateIndex, live: map<DocId, Doc>, f: CrawledFile, order: seq<Path>, changes: seq<Change>)
    requires Decide(prev, {}, f) == Touched(0) && (forall p | p in prev.byPath :: p == f.meta.path) && Left(prev, f, Touched(0), order)
    requires changes == ChangesFor(Touched(0), f) + DeletionsFor(prev, order)
    ensures changes == [Patch(0, f.meta)]
  {
    hide Decide;
    FirstIn(order);
  }

  lemma {:induction false} FirstIn(order: seq<Path>)
    ensures order != [] ==> exists p :: p in order
  {
    if order != [] {
      assert order[0] in order;
    }
  }

  lemma {:induction false} OnePatchApplied(live: map<DocId, Doc>, m: Meta, base: DocId)
    requires live.Keys == {0}
    ensures Applied(live, [Patch(0, m)], base) == map[0 := Doc(m, live[0].record)]
  {
    var changes := [Patch(0, m)];
    assert changes[..0] == [] && Added(changes) == [];
    PatchDeletesNone(0, m);
    assert MetaAfter(changes, 0, live[0].meta) == m;
  }

  lemma {:induction false} OnePatchOverlay(a: Index, b: Index, changes: seq<Change>, built: seq<BuiltSegment>, m: Meta)
    requires Updates(a, b, changes, built) && changes == [Patch(0, m)] && a.overlay == map[]
    ensures b.overlay == map[0 := m] && b.stateGen == a.stateGen + 1
  {
    hide Tiles;
    assert changes[..0] == [];
    PatchDeletesNone(0, m);
    assert Patched(a.overlay, changes) == Patched(a.overlay, [])[0 := m];
    assert 0 in b.overlay;
  }

  lemma {:induction false} OneBuilt(f: CrawledFile)
    requires ValidDoc(DocOf(f))
    ensures var a := Index([Segment(0, 0, [DocOf(f)], {}, 0)], map[], 1, 0, 1);
      FirstBuild(a) && Live(a) == map[0 := DocOf(f)] && IdBound(a.segments) == 1
  {
    var a := Index([Segment(0, 0, [DocOf(f)], {}, 0)], map[], 1, 0, 1);
    OneBuilds(f, a);
    OneLive(a, DocOf(f));
  }

  lemma {:induction false} OneBuilds(f: CrawledFile, a: Index)
    requires ValidDoc(DocOf(f)) && a == Index([Segment(0, 0, [DocOf(f)], {}, 0)], map[], 1, 0, 1)
    ensures FirstBuild(a)
  {
    hide DocOf;
    var docs := DocsFor([f]);
    TermMapIs(docs);
    var built := [BuiltSegment(0, 0, RowsOf(docs), TermMap(docs))];
    assert docs == [DocOf(f)] && docs[0..] == docs && docs[..0] == [] && built[..0] == [];
    assert Tiles(built, docs, 0, 0);
    assert AsSegments(built, docs) == a.segments;
    assert BuildsInto(a, [f], built, 0, 1);
  }

  lemma {:induction false} OneLive(a: Index, d: Doc)
    requires a == Index([Segment(0, 0, [d], {}, 0)], map[], 1, 0, 1)
    ensures Live(a) == map[0 := d] && IdBound(a.segments) == 1
  {
    assert a.segments[..0] == [];
    LiveTabulates(a);
    hide Live;
    assert LivesIn(a, a.segments[0], 0);
    forall id | id in Live(a)
      ensures id == 0
    {
      var s, l := PlaceOf(a, Live(a), id);
    }
  }

  /**
   Three commits of the program: a tree of one file is indexed, the file is
   touched, and another file takes its place.  The overlay is gone, and the next
   patch writes its generation again.
   */
  lemma {:induction false} ThreeCommits(f: CrawledFile, g: CrawledFile) returns (history: seq<Index>)
    requires f.kind == g.kind == TextFile && ValidDoc(DocOf(f)) && ValidDoc(DocOf(g)) && g.meta.path != f.meta.path && g.meta.inode == 0
    ensures Written(history) && |history| == 3 && history[1].stateGen == 1 && history[2].stateGen == 0
    ensures history[1].overlay != map[] && history[2].overlay == map[] && CanPatch(Live(history[2]))
  {
    hide FirstBuild, Live, ByUpdate, WellFormed, CanPatch, ValidDoc;
    var d := DocOf(f);
    var m := d.meta.(mtime := d.meta.mtime + 1);
    var i0 := Index([Segment(0, 0, [d], {}, 0)], map[], 1, 0, 1);
    OneBuilt(f);
    FirstWell(i0);
    var a := TouchingUpdate(i0, d, m);
    WritesExtends([i0], a);
    ExtendsWell(i0, a);
    NoSuchPath(Live(a), Doc(m, d.record), g.meta.path);
    var b := ReplacingUpdate(a, g);
    assert 0 in a.overlay;
    ReadPatchable(Live(b), IdBound(a.segments), g);
    history := [i0, a, b];
    assert history[..1] == [i0] && history[..2] == [i0, a];
  }

  lemma {:induction false} NoSuchPath(live: map<DocId, Doc>, d: Doc, p: Path)
    requires live == map[0 := d] && d.meta.path != p
    ensures !HasPath(live, p) && DistinctPaths(live)
  {
  }

  lemma {:induction false} ReadPatchable(live: map<DocId, Doc>, id: DocId, g: CrawledFile)
    requires live == map[id := DocOf(g)] && g.kind == TextFile
    ensures CanPatch(live)
  {
    assert id in live && Patchable(live, id);
  }
}
