/**
 Short runs, step by step, in which what does not always hold fails: a patch
 lost to a merge, a path live twice, and a merge whose sorted manifest may not
 decode.  Every update is made from a plan, and every merge takes what the
 default policy plans.
 */
module RunExamples {
  import opened Wrappers
  import opened Documents
  import opened Postings
  import opened Segments
  import opened Build
  import opened Reconcile
  import opened Convergence
  import opened Update
  import opened PlanMerges
  import opened PlanMeaning
  import opened MergePrepare
  import opened MergeCommit
  import opened MergeMeaning
  import opened MergeRuns
  import opened Writers
  import opened CommittedManifests
  import ManifestFile

  // ----- What is planned -----

  /** The policy's defaults: tiers of four, ten to a merge, 512 MiB, a third tombstoned. */
  const DEFAULT_POLICY := Policy(4, 10, 536870912, 0.3)

  ghost predicate Small(size: Size) {
    forall s: Segment :: size(s) <= DEFAULT_POLICY.maxBytes
  }

  /** With fewer than four segments nothing is pooled. */
  lemma {:induction false} FewPoolNone(segs: seq<Segment>, used: set<nat>, n: nat, size: Size)
    requires |segs| < 4
    ensures PlanTiers(segs, used, n, size, DEFAULT_POLICY) == []
  {
    hide InTier, Chunks;
    if n > 0 {
      FewPoolNone(segs, used, n - 1, size);
      TierLength(segs, used, n - 1, size);
    }
  }

  lemma {:induction false} TierLength(segs: seq<Segment>, used: set<nat>, t: nat, size: Size)
    ensures |InTier(segs, used, t, size, DEFAULT_POLICY)| <= |segs|
  {
    if segs != [] {
      TierLength(segs[..|segs| - 1], used, t, size);
    }
  }

  lemma {:induction false} PlanIs(segs: seq<Segment>, size: Size, id: nat)
    requires |segs| < 4 && Rewrites(segs, size, DEFAULT_POLICY) == [id]
    ensures PlanMerges.Plan(segs, size, DEFAULT_POLICY) == [[id]]
  {
    FewPoolNone(segs, Used([id]), TopTier(segs, Used([id]), size, DEFAULT_POLICY), size);
    assert Singletons([id]) == [[id]];
  }

  /** A segment with half of it tombstoned, or all. */
  ghost predicate Worn(s: Segment) {
    |s.docs| > 0 && 2 * |s.deleted| >= |s.docs|
  }

  lemma {:induction false} WornOver(s: Segment, size: Size)
    requires Small(size)
    ensures Worn(s) ==> OverDeleted(s, size, DEFAULT_POLICY)
    ensures s.deleted == {} ==> !OverDeleted(s, size, DEFAULT_POLICY)
  {
    if Worn(s) {
      HalfAtLeast(|s.deleted|, |s.docs|);
    }
  }

  lemma {:induction false} HalfAtLeast(a: nat, b: nat)
    requires b > 0 && 2 * a >= b
    ensures a as real / b as real >= 0.5
  {
    assert a as real >= 0.5 * b as real;
  }

  lemma {:induction false} RewritesMore(segs: seq<Segment>, s: Segment, size: Size)
    requires Small(size) && (Worn(s) || s.deleted == {})
    ensures Rewrites(segs + [s], size, DEFAULT_POLICY) == Rewrites(segs, size, DEFAULT_POLICY) + if Worn(s) && s.deleted != {} then [s.id] else []
  {
    assert (segs + [s])[..|segs|] == segs;
    WornOver(s, size);
    assert s.deleted == {} ==> !Worn(s);
  }

  // ----- One-document merges -----

  /** A binary file's document: nothing of it is indexed. */
  predicate Plain(d: Doc) {
    d.record.terms == map[]
  }

  lemma {:induction false} PlainDoc(d: Doc)
    requires Plain(d)
    ensures ValidDoc(d) && ValidDocs([d]) && ValidDocs([]) && Represents(map[], [d], 0) && Represents(map[], [], 0)
  {
    assert [d][..0] == [];
  }

  /** The merge that rewrites a segment whose first document alone is live. */
  function KeptMerge(s: Segment, d: Doc): PreparedMerge {
    PreparedMerge([s.id], map[s.id := s.delGen], map[(s.id, 0) := 0], [d], map[])
  }

  lemma {:induction false} KeptPrepared(ix: Index, s: Segment, d: Doc, e: Doc)
    requires s in ix.segments && s.docs == [d, e] && Plain(d) && Plain(e) && s.deleted == {1} && s.base !in ix.overlay
    ensures PreparedFrom(KeptMerge(s, d), ix, [s])
  {
    PlainDoc(d);
    PlainDoc(e);
    assert [s][..0] == [];
    assert SurvivorDocs(ix.overlay, s, 0) == [] && SurvivorDocs(ix.overlay, s, 1) == [d] && SurvivorDocs(ix.overlay, s, 2) == [d];
    assert MergedDocs(ix.overlay, [s]) == MergedDocs(ix.overlay, []) + SurvivorDocs(ix.overlay, s, 2);
    assert NewId([s], 0, 0) == 0;
    assert Numbered(KeptMerge(s, d).oldToNew, [s], (s.id, 0)) by { assert Kept([s][0], 0); }
  }

  /** The merge of a segment whose one document is tombstoned. */
  function EmptyMerge(s: Segment): PreparedMerge {
    PreparedMerge([s.id], map[s.id := s.delGen], map[], [], map[])
  }

  lemma {:induction false} EmptyPrepared(ix: Index, s: Segment, d: Doc)
    requires s in ix.segments && s.docs == [d] && Plain(d) && s.deleted == {0}
    ensures PreparedFrom(EmptyMerge(s), ix, [s])
  {
    PlainDoc(d);
    assert [s][..0] == [];
    assert SurvivorDocs(ix.overlay, s, 0) == [] && !Kept(s, 0) && SurvivorDocs(ix.overlay, s, 1) == [];
    assert MergedDocs(ix.overlay, [s]) == MergedDocs(ix.overlay, []) + SurvivorDocs(ix.overlay, s, 1);
  }

  /** What is committed when nothing was deleted from the one source since. */
  lemma {:induction false} CommittedOne(ix: Index, s: Segment, p: PreparedMerge)
    requires WellFormed(ix) && s in ix.segments && p.sourceIds == [s.id] && s.id in p.snapshotDelGen && p.snapshotDelGen[s.id] == s.delGen
    ensures Committed(ix, [p]) == ix.(segments := Retained(ix.segments, {s.id}) + [Segment(ix.nextSegmentId, IdBound(ix.segments), p.docs, {}, 0)],
                                      nextSegmentId := ix.nextSegmentId + 1, generation := ix.generation + 1)
  {
    var i :| 0 <= i < |ix.segments| && ix.segments[i] == s;
    FindSegmentIs(ix.segments, i);
    assert p.sourceIds[..0] == [];
    assert Carry(p, ix.segments, p.sourceIds) == Carry(p, ix.segments, []) + CarriedFrom(p, ix.segments, s.id);
    assert [p][..0] == [];
    assert NewSegments([p], ix.segments, ix.nextSegmentId, IdBound(ix.segments))
        == NewSegments([], ix.segments, ix.nextSegmentId, IdBound(ix.segments)) + [MergedSegment(p, ix.segments, ix.nextSegmentId, IdBound(ix.segments))];
    assert s.id in MergedIds([p]) by {
      assert s.id in [p][0].sourceIds;
    }
    assert MergedIds([p]) == {s.id};
  }

  // ----- Steps -----

  function Flight(ix: Index, s: Segment, p: PreparedMerge): InFlight {
    InFlight(ix, [[s]], [p])
  }

  lemma {:induction false} StartStep(ix: Index, s: Segment, p: PreparedMerge)
    requires PreparedFrom(p, ix, [s])
    ensures Step(State(ix, None), MergeStarted(Flight(ix, s, p)), State(ix, Some(Flight(ix, s, p))))
  {
    hide PreparedFrom;
  }

  lemma {:induction false} FinishStep(ix: Index, m: InFlight, s: Segment, p: PreparedMerge)
    requires m.prepared == [p] && p.sourceIds == [s.id] && HasSegment(ix.segments, s.id)
    ensures Committable(m, ix) && Step(State(ix, Some(m)), MergeFinished, State(Committed(ix, [p]), None))
  {
    hide Committed;
  }

  lemma {:induction false} QuietInv(ix: Index)
    requires WellFormed(ix) && AllDocsValid(ix)
    ensures Inv(State(ix, None))
  {
    hide WellFormed, AllDocsValid;
  }

  /** The changes are those of a plan for some crawl. */
  ghost predicate Planned(ix: Index, changes: seq<Change>) {
    exists prev, crawl :: Records(prev, Live(ix)) && DistinctCrawl(crawl) && IsPlan(prev, crawl, changes)
  }

  lemma {:induction false} PlannedBy(ix: Index, prev: StateIndex, crawl: seq<CrawledFile>, changes: seq<Change>)
    requires Records(prev, Live(ix)) && DistinctCrawl(crawl) && IsPlan(prev, crawl, changes)
    ensures Planned(ix, changes)
  {
  }

  // ----- A patch lost to a merge -----

  /** One live document and one tombstone: half worn. */
  function Half(d: Doc, e: Doc): Segment {
    Segment(0, 0, [d, e], {1}, 1)
  }

  function BeforePatch(d: Doc, e: Doc): Index {
    Index([Half(d, e)], map[], 1, 0, 1)
  }

  function AfterPatch(d: Doc, e: Doc, m: Meta): Index {
    Index([Half(d, e)], map[0 := m], 1, 1, 2)
  }

  /** The file was touched, or renamed with its inode. */
  ghost predicate Patches(d: Doc, m: Meta) {
    m != d.meta && if m.path == d.meta.path then d.record.status.WasRead() else m.inode == d.meta.inode != 0 && m.mtime == d.meta.mtime && m.size == d.meta.size
  }

  lemma {:induction false} HalfIs(d: Doc, e: Doc, m: Meta, size: Size)
    requires Plain(d) && Plain(e) && Small(size)
    ensures WellFormed(BeforePatch(d, e)) && AllDocsValid(BeforePatch(d, e)) && WellFormed(AfterPatch(d, e, m)) && IdBound([Half(d, e)]) == 2
    ensures Retained([Half(d, e)], {0}) == [] && PlanMerges.Plan([Half(d, e)], size, DEFAULT_POLICY) == [[0]]
    ensures Tombstoned([Half(d, e)], {}) == [Half(d, e)]
  {
    hide PlanMerges.Plan, WellFormed, Small;
    PlainDoc(d);
    PlainDoc(e);
    HalfWell(d, e, m);
    OnePlanned(Half(d, e), size);
    HalfSegment(Half(d, e));
  }

  lemma {:induction false} HalfWell(d: Doc, e: Doc, m: Meta)
    ensures WellFormed(BeforePatch(d, e)) && WellFormed(AfterPatch(d, e, m))
  {
    HalfSegment(Half(d, e));
    assert 0 in AfterPatch(d, e, m).overlay;
  }

  lemma {:induction false} HalfSegment(s: Segment)
    requires s.id == 0 && s.base == 0 && |s.docs| == 2
    ensures IdBound([s]) == 2 && Retained([s], {0}) == [] && Tombstoned([s], {}) == [s]
  {
    assert [s][..0] == [];
    assert LocalsOf(s, {}) == {};
  }

  lemma {:induction false} OnePlanned(s: Segment, size: Size)
    requires Small(size) && Worn(s) && s.deleted != {}
    ensures PlanMerges.Plan([s], size, DEFAULT_POLICY) == [[s.id]]
  {
    RewritesMore([], s, size);
    assert [] + [s] == [s];
    PlanIs([s], size, s.id);
  }

  /** What is live where only local 0 of the one segment is. */
  lemma {:induction false} LiveOne(ix: Index, s: Segment, d: Doc)
    requires WellFormed(ix) && ix.segments == [s] && |s.docs| > 0 && (forall l | 0 < l < |s.docs| :: l in s.deleted) && 0 !in s.deleted
    requires WithPatch(ix.overlay, s.base, s.docs[0]) == d
    ensures Live(ix) == map[s.base := d]
  {
    hide Live;
    LiveTabulates(ix);
    PlaceIn(ix, Live(ix), s, 0);
    forall id | id in Live(ix)
      ensures id == s.base
    {
      var t, l := PlaceOf(ix, Live(ix), id);
    }
  }

  lemma {:induction false} OnePatched(overlay: map<DocId, Meta>, id: DocId, m: Meta)
    ensures Added([Patch(id, m)]) == [] && Deleted([Patch(id, m)]) == {} && Patched(overlay, [Patch(id, m)]) == overlay[id := m]
    ensures DocsFor([]) == []
  {
    var changes := [Patch(id, m)];
    assert changes[..0] == [] && changes[0].Patch?;
    assert Added(changes) == Added([]) + [];
    assert Patched(overlay, changes) == Patched(overlay, [])[id := m];
  }

  lemma {:induction false} PatchStep(d: Doc, e: Doc, m: Meta, flight: Option<InFlight>, size: Size)
    requires Plain(d) && Plain(e) && Small(size)
    ensures Step(State(BeforePatch(d, e), flight), Reconciled([Patch(0, m)], []), State(AfterPatch(d, e, m), flight))
  {
    var a := BeforePatch(d, e);
    var patched: map<DocId, Meta> := map[0 := m];
    OnePatched(a.overlay, 0, m);
    HalfIs(d, e, m, size);
    assert 0 in patched && patched - {} == patched;
    hide Half, Tombstoned, IdBound, WellFormed, AllDocsValid;
  }

  /** A tree of that one file gives that one patch. */
  lemma {:induction false} PatchPlanned(d: Doc, e: Doc, m: Meta)
    requires WellFormed(BeforePatch(d, e)) && Patches(d, m)
    ensures Planned(BeforePatch(d, e), [Patch(0, m)])
  {
    hide Live, WellFormed, Records, IsPlan;
    var live: map<DocId, Doc> := map[0 := d];
    LiveOne(BeforePatch(d, e), Half(d, e), d);
    var prev := StateExists(live);
    var f := CrawledFile(m, TextFile, Bytes(d.record.hash, None));
    OnlyPatched(prev, live, d, f);
    var changes, order := PlanForOne(prev, f);
    OrderEmpty(prev, d, f, order);
    PatchAlone(prev, d, f, order, changes);
    PlannedBy(BeforePatch(d, e), prev, [f], changes);
  }

  lemma {:induction false} PatchAlone(prev: StateIndex, d: Doc, f: CrawledFile, order: seq<Path>, changes: seq<Change>)
    requires Decide(prev, {}, f) == if f.meta.path == d.meta.path then Touched(0) else Moved(0, d.meta.path)
    requires order == [] && changes == ChangesFor(Decide(prev, {}, f), f) + DeletionsFor(prev, order)
    ensures changes == [Patch(0, f.meta)]
  {
    hide Decide;
  }

  lemma {:induction false} OnlyPatched(prev: StateIndex, live: map<DocId, Doc>, d: Doc, f: CrawledFile)
    requires Records(prev, live) && live == map[0 := d] && Patches(d, f.meta) && f == CrawledFile(f.meta, TextFile, Bytes(d.record.hash, None))
    ensures Decide(prev, {}, f) == if f.meta.path == d.meta.path then Touched(0) else Moved(0, d.meta.path)
    ensures forall p | p in prev.byPath :: p == d.meta.path
  {
    OnlyRecord(prev, live, d);
  }

  lemma {:induction false} OnlyRecord(prev: StateIndex, live: map<DocId, Doc>, d: Doc)
    requires Records(prev, live) && live == map[0 := d]
    ensures prev.byPath == map[d.meta.path := StateFor(0, d)]
    ensures forall i :: i in prev.byInode <==> i != 0 && i == d.meta.inode
    ensures forall i | i in prev.byInode :: prev.byInode[i] == d.meta.path
  {
    assert 0 in live;
    forall p | p in prev.byPath
      ensures p == d.meta.path && prev.byPath[p] == StateFor(0, d)
    {
      assert LastAt(live, p, prev.byPath[p].docId);
    }
    forall i | i in prev.byInode
      ensures i != 0 && i == d.meta.inode && prev.byInode[i] == d.meta.path
    {
      var id :| LastWith(live, i, id) && prev.byInode[i] == live[id].meta.path;
    }
  }

  lemma {:induction false} OrderEmpty(prev: StateIndex, d: Doc, f: CrawledFile, order: seq<Path>)
    requires Left(prev, f, Decide(prev, {}, f), order) && forall p | p in prev.byPath :: p == d.meta.path
    requires Decide(prev, {}, f) == if f.meta.path == d.meta.path then Touched(0) else Moved(0, d.meta.path)
    ensures order == []
  {
    hide Decide;
    FirstIn(order);
  }

  /** The merge planned before the patch, committed after it. */
  lemma {:induction false} MergeAround(d: Doc, e: Doc, m: Meta, size: Size)
    requires Plain(d) && Plain(e) && Small(size)
    ensures var a, s := BeforePatch(d, e), Half(d, e); var flight := Flight(a, s, KeptMerge(s, d));
      Step(State(a, None), MergeStarted(flight), State(a, Some(flight))) && Inv(State(a, None))
    ensures HasSegment(AfterPatch(d, e, m).segments, 0)
  {
    var a, s := BeforePatch(d, e), Half(d, e);
    HalfIs(d, e, m, size);
    assert a.segments[0] == s && AfterPatch(d, e, m).segments[0].id == 0;
    KeptPrepared(a, s, d, e);
    StartStep(a, s, KeptMerge(s, d));
    QuietInv(a);
  }

  /**
   A run that loses a patch: a worn segment is being rewritten, as planned, when
   the file in it is touched or renamed.  The new metadata is live before the
   merge commits and nowhere after it.
   */
  lemma {:induction false} LostPatchInRun(d: Doc, e: Doc, m: Meta, size: Size) returns (states: seq<State>, events: seq<Event>)
    requires Plain(d) && Plain(e) && Patches(d, m) && Small(size)
    ensures MergeRuns.Run(states, events) && Inv(states[0]) && |states| == 4
    ensures PlanMerges.Plan(states[0].index.segments, size, DEFAULT_POLICY) == [[0]]
    ensures events[0].MergeStarted? && |events[0].flight.groups| == 1 && IdsOf(events[0].flight.groups[0]) == [0]
    ensures events[1] == Reconciled([Patch(0, m)], []) && Planned(states[1].index, [Patch(0, m)]) && events[2] == MergeFinished
    ensures 0 in Live(states[2].index) && Live(states[2].index)[0].meta == m
    ensures Live(states[3].index) != map[] && forall id | id in Live(states[3].index) :: Live(states[3].index)[id].meta != m
  {
    hide Step, Inv, Live, WellFormed, Planned, AllDocsValid, Small, PlanMerges.Plan;
    var a, b, s := BeforePatch(d, e), AfterPatch(d, e, m), Half(d, e);
    var flight := Flight(a, s, KeptMerge(s, d));
    HalfIs(d, e, m, size);
    MergeAround(d, e, m, size);
    PatchStep(d, e, m, Some(flight), size);
    PatchPlanned(d, e, m);
    var c := Index([Segment(1, 2, [d], {}, 0)], map[0 := m], 2, 1, 3);
    CommitStep(b, c, flight, d, e, m);
    LiveOne(b, s, Doc(m, d.record));
    MergedOne(c, d);
    assert 2 in Live(c);
    states := [State(a, None), State(a, Some(flight)), State(b, Some(flight)), State(c, None)];
    events := [MergeStarted(flight), Reconciled([Patch(0, m)], []), MergeFinished];
  }

  lemma {:induction false} CommitStep(b: Index, c: Index, flight: InFlight, d: Doc, e: Doc, m: Meta)
    requires b == AfterPatch(d, e, m) && WellFormed(b) && IdBound(b.segments) == 2 && Retained(b.segments, {0}) == []
    requires c == Index([Segment(1, 2, [d], {}, 0)], map[0 := m], 2, 1, 3) && flight.prepared == [KeptMerge(Half(d, e), d)]
    ensures Step(State(b, Some(flight)), MergeFinished, State(c, None))
  {
    hide Step, WellFormed, Committed, IdBound, Retained;
    var s := Half(d, e);
    assert b.segments[0] == s;
    CommittedOne(b, s, KeptMerge(s, d));
    FinishStep(b, flight, s, KeptMerge(s, d));
    assert Committed(b, [KeptMerge(s, d)]) == c;
  }

  lemma {:induction false} MergedOne(c: Index, d: Doc)
    requires c.segments == [Segment(1, 2, [d], {}, 0)] && c.nextSegmentId == 2 && c.stateGen == 1 && c.overlay.Keys == {0}
    ensures Live(c) == map[2 := d]
  {
    assert c.segments[..0] == [];
    assert 0 in c.overlay;
    LiveOne(c, c.segments[0], d);
  }

  // ----- A path live twice -----

  /** Another file comes up at the old path while the merge is still in flight. */
  function AfterAppend(d: Doc, e: Doc, m: Meta, f: CrawledFile): Index {
    Index([Half(d, e), Segment(1, 2, [DocOf(f)], {}, 0)], map[0 := m], 2, 2, 3)
  }

  function BuiltAt(id: nat, base: DocId, f: CrawledFile): BuiltSegment {
    BuiltSegment(id, base, RowsOf([DocOf(f)]), map[])
  }

  lemma {:induction false} OneAdded(f: CrawledFile, overlay: map<DocId, Meta>)
    ensures Added([Reindex(f)]) == [f] && Deleted([Reindex(f)]) == {} && Patched(overlay, [Reindex(f)]) == overlay
    ensures DocsFor([f]) == [DocOf(f)]
  {
    assert [Reindex(f)][..0] == [];
  }

  lemma {:induction false} BinaryPlain(f: CrawledFile)
    requires f.kind == BinaryFile
    ensures Plain(DocOf(f))
  {
  }

  lemma {:induction false} OneTile(id: nat, base: DocId, f: CrawledFile)
    requires f.kind == BinaryFile
    ensures Tiles([BuiltAt(id, base, f)], [DocOf(f)], base, id)
    ensures AsSegments([BuiltAt(id, base, f)], [DocOf(f)]) == [Segment(id, base, [DocOf(f)], {}, 0)]
  {
    var docs := [DocOf(f)];
    BinaryPlain(f);
    PlainDoc(DocOf(f));
    assert docs[..0] == [] && docs[0..] == docs && [BuiltAt(id, base, f)][..0] == [];
  }

  lemma {:induction false} AppendStep(d: Doc, e: Doc, m: Meta, f: CrawledFile, flight: Option<InFlight>, size: Size)
    requires Plain(d) && Plain(e) && Small(size) && f.kind == BinaryFile
    ensures Step(State(AfterPatch(d, e, m), flight), Reconciled([Reindex(f)], [BuiltAt(1, 2, f)]), State(AfterAppend(d, e, m, f), flight))
  {
    var a := AfterPatch(d, e, m);
    HalfIs(d, e, m, size);
    OneAdded(f, a.overlay);
    OneTile(1, 2, f);
    BinaryPlain(f);
    PlainDoc(DocOf(f));
    assert 0 in a.overlay && a.overlay - {} == a.overlay;
    hide Tiles, AsSegments, BuiltAt, DocsFor, Added, Deleted, Patched, DocOf, IdBound, Tombstoned, Half;
  }

  /** The renamed file is where it was found; the other is new. */
  lemma {:induction false} AppendPlanned(d: Doc, e: Doc, m: Meta, f: CrawledFile)
    requires WellFormed(AfterPatch(d, e, m)) && m.path != d.meta.path && f.meta.path == d.meta.path && f.meta.inode == 0
    ensures Planned(AfterPatch(d, e, m), [Reindex(f)])
  {
    hide Live, WellFormed, Records, IsPlan;
    var now := Doc(m, d.record);
    var live: map<DocId, Doc> := map[0 := now];
    LiveOne(AfterPatch(d, e, m), Half(d, e), now);
    var prev := StateExists(live);
    OnlyRecord(prev, live, now);
    var moved := CrawledFile(m, BinaryFile, Unreadable);
    TwoJudged(prev, now, moved, f);
    PlannedBy(AfterPatch(d, e, m), prev, [moved, f], [Reindex(f)]);
  }

  lemma {:induction false} TwoJudged(prev: StateIndex, now: Doc, moved: CrawledFile, f: CrawledFile)
    requires prev.byPath == map[now.meta.path := StateFor(0, now)] && moved.meta == now.meta && f.meta.path != now.meta.path && f.meta.inode == 0
    ensures DistinctCrawl([moved, f]) && IsPlan(prev, [moved, f], [Reindex(f)])
  {
    var crawl := [moved, f];
    var v, w := Unchanged(0), Fresh;
    NothingJudged(prev, crawl);
    JudgesMore(prev, crawl, [], v);
    JudgesMore(prev, crawl, [v], w);
    assert [] + [v] == [v] && [v] + [w] == [v, w];
    assert now.meta.path in PathsOf(crawl) by { assert crawl[0].meta.path == now.meta.path; }
    assert Leftover(prev, crawl, [v, w]) == {};
    assert Enumerates([], {});
    assert PlanFrom(prev, crawl, [Reindex(f)], [v, w], []);
  }

  /**
   A run that leaves a path live twice: the patch lost is a rename, and another
   file stands at the old path by the time the merge commits.
   */
  lemma {:induction false} PathTwiceInRun(d: Doc, e: Doc, m: Meta, f: CrawledFile, size: Size) returns (states: seq<State>, events: seq<Event>)
    requires Plain(d) && Plain(e) && Patches(d, m) && m.path != d.meta.path && Small(size)
    requires f.kind == BinaryFile && f.meta.path == d.meta.path && f.meta.inode == 0
    ensures MergeRuns.Run(states, events) && Inv(states[0]) && |states| == 5
    ensures PlanMerges.Plan(states[0].index.segments, size, DEFAULT_POLICY) == [[0]]
    ensures events[0].MergeStarted? && |events[0].flight.groups| == 1 && IdsOf(events[0].flight.groups[0]) == [0]
    ensures events[1] == Reconciled([Patch(0, m)], []) && Planned(states[1].index, [Patch(0, m)])
    ensures events[2] == Reconciled([Reindex(f)], [BuiltAt(1, 2, f)]) && Planned(states[2].index, [Reindex(f)]) && events[3] == MergeFinished
    ensures DistinctPaths(Live(states[3].index)) && Live(states[4].index) == map[2 := DocOf(f), 3 := d] && !DistinctPaths(Live(states[4].index))
  {
    hide Step, Inv, Live, WellFormed, Planned, AllDocsValid, Small, PlanMerges.Plan, DocOf, DistinctPaths;
    var a, s := BeforePatch(d, e), Half(d, e);
    var flight := Flight(a, s, KeptMerge(s, d));
    HalfIs(d, e, m, size);
    MergeAround(d, e, m, size);
    PatchStep(d, e, m, Some(flight), size);
    PatchPlanned(d, e, m);
    AppendStep(d, e, m, f, Some(flight), size);
    AppendPlanned(d, e, m, f);
    var c := Index([Segment(1, 2, [DocOf(f)], {}, 0), Segment(2, 3, [d], {}, 0)], map[0 := m], 3, 2, 4);
    TwiceLive(d, e, m, f, flight, c);
    states := [State(a, None), State(a, Some(flight)), State(AfterPatch(d, e, m), Some(flight)), State(AfterAppend(d, e, m, f), Some(flight)), State(c, None)];
    events := [MergeStarted(flight), Reconciled([Patch(0, m)], []), Reconciled([Reindex(f)], [BuiltAt(1, 2, f)]), MergeFinished];
  }

  lemma {:induction false} TwiceLive(d: Doc, e: Doc, m: Meta, f: CrawledFile, flight: InFlight, c: Index)
    requires m.path != d.meta.path && f.meta.path == d.meta.path && flight.prepared == [KeptMerge(Half(d, e), d)]
    requires c == Index([Segment(1, 2, [DocOf(f)], {}, 0), Segment(2, 3, [d], {}, 0)], map[0 := m], 3, 2, 4)
    ensures Step(State(AfterAppend(d, e, m, f), Some(flight)), MergeFinished, State(c, None))
    ensures DistinctPaths(Live(AfterAppend(d, e, m, f)))
    ensures Live(c) == map[2 := DocOf(f), 3 := d] && !DistinctPaths(Live(c))
  {
    hide Step, Live, DocOf, WellFormed, DistinctPaths;
    var b := AfterAppend(d, e, m, f);
    AppendedWell(d, e, m, f);
    TwiceCommitted(b, c, flight, d, e, m, f);
    LiveTwo(b, Half(d, e), b.segments[1], Doc(m, d.record), DocOf(f));
    OnceAt(d, m, f);
    TwiceWell(c, DocOf(f), d, m);
    LiveTwo(c, c.segments[0], c.segments[1], DocOf(f), d);
    TwiceAt(f, d);
  }

  lemma {:induction false} AppendedWell(d: Doc, e: Doc, m: Meta, f: CrawledFile)
    ensures WellFormed(AfterAppend(d, e, m, f))
    ensures var b := AfterAppend(d, e, m, f); IdBound(b.segments) == 3 && Retained(b.segments, {0}) == [b.segments[1]]
  {
    hide DocOf;
    var b := AfterAppend(d, e, m, f);
    var x, y := Half(d, e), b.segments[1];
    TwoBound(x, y);
    assert [x, y][..1] == [x] && [x][..0] == [];
    assert Retained([x], {0}) == [];
    assert 0 in b.overlay;
  }

  lemma {:induction false} TwiceWell(c: Index, g: Doc, d: Doc, m: Meta)
    requires c == Index([Segment(1, 2, [g], {}, 0), Segment(2, 3, [d], {}, 0)], map[0 := m], 3, 2, 4)
    ensures WellFormed(c)
  {
    TwoBound(c.segments[0], c.segments[1]);
    assert 0 in c.overlay;
  }

  lemma {:induction false} TwiceCommitted(b: Index, c: Index, flight: InFlight, d: Doc, e: Doc, m: Meta, f: CrawledFile)
    requires b == AfterAppend(d, e, m, f) && WellFormed(b) && IdBound(b.segments) == 3 && Retained(b.segments, {0}) == [b.segments[1]]
    requires flight.prepared == [KeptMerge(Half(d, e), d)]
    requires c == Index([Segment(1, 2, [DocOf(f)], {}, 0), Segment(2, 3, [d], {}, 0)], map[0 := m], 3, 2, 4)
    ensures Step(State(b, Some(flight)), MergeFinished, State(c, None))
  {
    hide Step, WellFormed, Committed, IdBound, Retained, DocOf;
    var x := Half(d, e);
    assert b.segments[0] == x;
    CommittedOne(b, x, KeptMerge(x, d));
    FinishStep(b, flight, x, KeptMerge(x, d));
    assert Committed(b, [KeptMerge(x, d)]) == c;
  }

  lemma {:induction false} OnceAt(d: Doc, m: Meta, f: CrawledFile)
    requires f.meta.path != m.path
    ensures var live: map<DocId, Doc> := map[0 := Doc(m, d.record), 2 := DocOf(f)]; DistinctPaths(live)
  {
  }

  lemma {:induction false} TwiceAt(f: CrawledFile, d: Doc)
    requires f.meta.path == d.meta.path
    ensures var live: map<DocId, Doc> := map[2 := DocOf(f), 3 := d]; !DistinctPaths(live)
  {
    var live: map<DocId, Doc> := map[2 := DocOf(f), 3 := d];
    assert 2 in live && 3 in live && live[2].meta.path == live[3].meta.path;
  }

  lemma {:induction false} LiveTwo(ix: Index, x: Segment, y: Segment, d: Doc, g: Doc)
    requires WellFormed(ix) && ix.segments == [x, y] && 0 < |x.docs| && |y.docs| == 1 && y.deleted == {}
    requires (forall l | 0 < l < |x.docs| :: l in x.deleted) && 0 !in x.deleted && x.base < y.base
    requires WithPatch(ix.overlay, x.base, x.docs[0]) == d && WithPatch(ix.overlay, y.base, y.docs[0]) == g
    ensures Live(ix) == map[x.base := d, y.base := g]
  {
    hide Live, WithPatch, WellFormed;
    LiveTabulates(ix);
    assert ix.segments[0] == x && ix.segments[1] == y;
    PlaceIn(ix, Live(ix), x, 0);
    PlaceIn(ix, Live(ix), y, 0);
    forall id | id in Live(ix)
      ensures id == x.base || id == y.base
    {
      var t, l := PlaceOf(ix, Live(ix), id);
    }
  }

  // ----- A merge that sorts a tie -----

  lemma {:induction false} TwoBound(x: Segment, y: Segment)
    requires x.End() <= y.base && x.id != y.id
    ensures IdBound([x, y]) == y.End() && Retained([x, y], {y.id}) == [x] && IdBound([x]) == x.End()
  {
    assert [x, y][..1] == [x] && [x][..0] == [];
    assert IdBound([x]) == x.End();
    assert IdBound([x, y]) == if IdBound([x]) > y.End() then IdBound([x]) else y.End();
    assert Retained([x], {y.id}) == [x];
  }

  lemma {:induction false} ThreeBound(x: Segment, y: Segment, z: Segment)
    requires x.End() <= y.base && y.End() <= z.base && x.id != y.id && x.id != z.id
    ensures IdBound([x, y, z]) == z.End() && Retained([x, y, z], {x.id}) == [y, z]
  {
    TwoBound(x, y);
    assert [x, y, z][..2] == [x, y] && [x, y][..1] == [x] && [x][..0] == [];
    assert Retained([x], {x.id}) == [] && Retained([x, y], {x.id}) == [y];
  }

  /** A tree of one file becomes another file: the old document is tombstoned. */
  function Replaced(f: CrawledFile): seq<Change> {
    [Reindex(f), Delete(0)]
  }

  lemma {:induction false} ReplacedAre(f: CrawledFile)
    ensures Added(Replaced(f)) == [f] && Deleted(Replaced(f)) == {0} && Patched(map[], Replaced(f)) == map[] && DocsFor([f]) == [DocOf(f)]
  {
    var changes := Replaced(f);
    assert changes[..1] == [Reindex(f)] && [Reindex(f)][..0] == [];
    assert Added([Reindex(f)]) == [f] && Patched(map[], [Reindex(f)]) == map[];
    assert changes[1].id == 0;
  }

  lemma {:induction false} ReplacedPlanned(ix: Index, d: Doc, f: CrawledFile)
    requires Live(ix) == map[0 := d] && f.meta.path != d.meta.path && f.meta.inode == 0
    ensures Planned(ix, Replaced(f))
  {
    hide Live, Records, IsPlan;
    var live: map<DocId, Doc> := map[0 := d];
    var prev := StateExists(live);
    OnlyRecord(prev, live, d);
    OneReplaced(prev, d, f);
    PlannedBy(ix, prev, [f], Replaced(f));
  }

  lemma {:induction false} OneReplaced(prev: StateIndex, d: Doc, f: CrawledFile)
    requires prev.byPath == map[d.meta.path := StateFor(0, d)] && f.meta.path != d.meta.path && f.meta.inode == 0
    ensures DistinctCrawl([f]) && IsPlan(prev, [f], Replaced(f))
  {
    hide IsPlan, DistinctCrawl;
    assert Decide(prev, {}, f) == Fresh;
    var changes, order := PlanForOne(prev, f);
    assert changes == [Reindex(f)] + DeletionsFor(prev, order);
    OneLeft(d.meta.path, order);
    OneDeleted(prev, d, order);
    assert changes == Replaced(f);
  }

  lemma {:induction false} OneDeleted(prev: StateIndex, d: Doc, order: seq<Path>)
    requires prev.byPath == map[d.meta.path := StateFor(0, d)] && order == [d.meta.path]
    ensures DeletionsFor(prev, order) == [Delete(0)]
  {
    assert order[..0] == [];
  }

  lemma {:induction false} FirstTwo(order: seq<Path>)
    requires forall i, j | 0 <= i < j < |order| :: order[i] != order[j]
    ensures |order| > 1 ==> order[0] != order[1]
  {
  }

  lemma {:induction false} OneLeft(p: Path, order: seq<Path>)
    requires (forall q :: q in order <==> q == p) && forall i, j | 0 <= i < j < |order| :: order[i] != order[j]
    ensures order == [p]
  {
    forall k | 0 <= k < |order|
      ensures order[k] == p
    {
      assert order[k] in order;
    }
    assert p in order;
    FirstTwo(order);
  }

  lemma {:induction false} ReplaceStep(a: Index, b: Index, d: Doc, f: CrawledFile)
    requires f.kind == BinaryFile && a == Index([Segment(0, 0, [d], {}, 0), Segment(2, 2, [], {}, 0)], map[], 3, 0, 2)
    requires b == Index([Segment(0, 0, [d], {0}, 1), Segment(2, 2, [], {}, 0), Segment(3, 2, [DocOf(f)], {}, 0)], map[], 4, 0, 3)
    ensures Step(State(a, None), Reconciled(Replaced(f), [BuiltAt(3, 2, f)]), State(b, None))
  {
    ReplacedAre(f);
    OneTile(3, 2, f);
    TwoBound(a.segments[0], a.segments[1]);
    BinaryPlain(f);
    PlainDoc(DocOf(f));
    BothBuried(a.segments[0], a.segments[1]);
    hide Tiles, AsSegments, BuiltAt, DocsFor, Added, Deleted, Patched, DocOf, IdBound, Tombstoned;
  }

  lemma {:induction false} BothBuried(x: Segment, y: Segment)
    requires x.base == 0 && |x.docs| == 1 && x.deleted == {} && x.delGen == 0 && y.docs == [] && y.deleted == {}
    ensures Tombstoned([x, y], {0}) == [x.(deleted := {0}, delGen := 1), y]
  {
    assert 0 in LocalsOf(x, {0}) && LocalsOf(x, {0}) == {0} && LocalsOf(y, {0}) == {};
    assert {} + {0} == {0};
  }

  /** Sorted by base, and nothing a decoder accepts, whatever the files' facts. */
  ghost predicate Undecodable(ix: Index, p: seq<Segment>) {
    && multiset(p) == multiset(ix.segments) && ByBase(p)
    && forall time: ManifestFile.i64, facts: Segment -> FileFacts, overlay: OverlayFacts ::
         !ManifestFile.Sound(ManifestOf(ix.(segments := p), time, facts, overlay))
  }

  lemma {:induction false} SwappedUndecodable(ix: Index, p: seq<Segment>)
    requires multiset(p) == multiset(ix.segments) && ByBase(p) && !Ordered(p)
    ensures Undecodable(ix, p)
  {
    hide ManifestFile.Sound, Ordered, ManifestOf;
    forall time: ManifestFile.i64, facts: Segment -> FileFacts, overlay: OverlayFacts
      ensures !ManifestFile.Sound(ManifestOf(ix.(segments := p), time, facts, overlay))
    {
      if ManifestFile.Sound(ManifestOf(ix.(segments := p), time, facts, overlay)) {
        SoundIsOrdered(ix.(segments := p), time, facts, overlay);
      }
    }
  }

  /**
   A run whose last merge may commit a manifest that does not decode.  A segment
   with nothing live is merged away, as planned; another file then takes the
   place of the only one, indexed under the same base; and the merge planned for
   the old file's segment sorts the two entries, in either order.
   */
  lemma {:induction false} TieInRun(d: Doc, f: CrawledFile, size: Size) returns (states: seq<State>, events: seq<Event>, p: seq<Segment>)
    requires Plain(d) && f.kind == BinaryFile && f.meta.path != d.meta.path && f.meta.inode == 0 && Small(size)
    ensures MergeRuns.Run(states, events) && Inv(states[0]) && |states| == 6
    ensures PlanMerges.Plan(states[0].index.segments, size, DEFAULT_POLICY) == [[1]] && PlanMerges.Plan(states[3].index.segments, size, DEFAULT_POLICY) == [[0]]
    ensures events[0].MergeStarted? && events[3].MergeStarted? && events[1] == events[4] == MergeFinished
    ensures |events[0].flight.groups| == |events[3].flight.groups| == 1
    ensures IdsOf(events[0].flight.groups[0]) == [1] && IdsOf(events[3].flight.groups[0]) == [0]
    ensures events[2] == Reconciled(Replaced(f), [BuiltAt(3, 2, f)]) && Planned(states[2].index, Replaced(f))
    ensures states[4].merging.Some? && Committable(states[4].merging.value, states[4].index)
    ensures !AnySortOrdered(states[5].index.segments) && Undecodable(states[5].index, p)
  {
    hide Step, Inv, Undecodable, AnySortOrdered, Planned, Small, PlanMerges.Plan, Live;
    var x, y, z := Segment(0, 0, [d], {}, 0), Segment(1, 1, [d], {0}, 1), Segment(0, 0, [d], {0}, 1);
    var e, g, h := Segment(2, 2, [], {}, 0), Segment(3, 2, [DocOf(f)], {}, 0), Segment(4, 3, [], {}, 0);
    var i0 := Index([x, y], map[], 2, 0, 1);
    var i1 := Index([x, e], map[], 3, 0, 2);
    var i2 := Index([z, e, g], map[], 4, 0, 3);
    var i3 := Index([e, g, h], map[], 5, 0, 4);
    FirstMerge(i0, i1, d, size);
    ReplaceStep(i1, i2, d, f);
    LiveBeside(i1, x, e, d);
    ReplacedPlanned(i1, d, f);
    SecondMerge(i2, i3, d, f, size);
    var m, n := Flight(i0, y, EmptyMerge(y)), Flight(i2, z, EmptyMerge(z));
    states := [State(i0, None), State(i0, Some(m)), State(i1, None), State(i2, None), State(i2, Some(n)), State(i3, None)];
    events := [MergeStarted(m), MergeFinished, Reconciled(Replaced(f), [BuiltAt(3, 2, f)]), MergeStarted(n), MergeFinished];
    p := TiedEntries(i3, f);
  }

  lemma {:induction false} LiveBeside(ix: Index, x: Segment, e: Segment, d: Doc)
    requires ix == Index([x, e], map[], 3, 0, 2) && x == Segment(0, 0, [d], {}, 0) && e == Segment(2, 2, [], {}, 0)
    ensures Live(ix) == map[0 := d]
  {
    hide Live, WellFormed;
    BesideWell(ix, x, e);
    LiveTabulates(ix);
    assert ix.segments[0] == x;
    PlaceIn(ix, Live(ix), x, 0);
    forall id | id in Live(ix)
      ensures id == 0
    {
      var t, l := PlaceOf(ix, Live(ix), id);
    }
  }

  lemma {:induction false} BesideWell(ix: Index, x: Segment, e: Segment)
    requires ix.segments == [x, e] && ix.overlay == map[] && ix.nextSegmentId == 3 && ix.stateGen == 0
    requires x.id == x.base == 0 && |x.docs| == 1 && x.deleted == {} && x.delGen == 0 && e == Segment(2, 2, [], {}, 0)
    ensures WellFormed(ix)
  {
    TwoBound(x, e);
  }

  lemma {:induction false} FirstMerge(a: Index, b: Index, d: Doc, size: Size)
    requires Plain(d) && a == Index([Segment(0, 0, [d], {}, 0), Segment(1, 1, [d], {0}, 1)], map[], 2, 0, 1) && Small(size)
    requires b == Index([Segment(0, 0, [d], {}, 0), Segment(2, 2, [], {}, 0)], map[], 3, 0, 2)
    ensures Inv(State(a, None)) && PlanMerges.Plan(a.segments, size, DEFAULT_POLICY) == [[1]]
    ensures var y := a.segments[1]; var m := Flight(a, y, EmptyMerge(y));
      && Step(State(a, None), MergeStarted(m), State(a, Some(m)))
      && Step(State(a, Some(m)), MergeFinished, State(b, None))
  {
    hide Step, Inv, PreparedFrom, Committed, PlanMerges.Plan;
    var y := a.segments[1];
    TwoBound(a.segments[0], y);
    PlainDoc(d);
    QuietInv(a);
    EmptyPrepared(a, y, d);
    StartStep(a, y, EmptyMerge(y));
    CommittedOne(a, y, EmptyMerge(y));
    FinishStep(a, Flight(a, y, EmptyMerge(y)), y, EmptyMerge(y));
    assert Committed(a, [EmptyMerge(y)]) == b;
    FirstPlan(a.segments[0], y, size);
  }

  lemma {:induction false} FirstPlan(x: Segment, y: Segment, size: Size)
    requires Small(size) && x.deleted == {} && |y.docs| == 1 && y.deleted == {0}
    ensures PlanMerges.Plan([x, y], size, DEFAULT_POLICY) == [[y.id]]
  {
    RewritesMore([], x, size);
    RewritesMore([x], y, size);
    assert [] + [x] == [x] && [x] + [y] == [x, y];
    PlanIs([x, y], size, y.id);
  }

  lemma {:induction false} SecondMerge(a: Index, b: Index, d: Doc, f: CrawledFile, size: Size)
    requires Plain(d) && Small(size)
    requires a == Index([Segment(0, 0, [d], {0}, 1), Segment(2, 2, [], {}, 0), Segment(3, 2, [DocOf(f)], {}, 0)], map[], 4, 0, 3)
    requires b == Index([Segment(2, 2, [], {}, 0), Segment(3, 2, [DocOf(f)], {}, 0), Segment(4, 3, [], {}, 0)], map[], 5, 0, 4)
    ensures PlanMerges.Plan(a.segments, size, DEFAULT_POLICY) == [[0]]
    ensures var x := a.segments[0]; var m := Flight(a, x, EmptyMerge(x));
      && Step(State(a, None), MergeStarted(m), State(a, Some(m)))
      && Committable(m, a) && Step(State(a, Some(m)), MergeFinished, State(b, None))
  {
    hide Step, Inv, PreparedFrom, Committed, DocOf, PlanMerges.Plan;
    var x := a.segments[0];
    ThreeBound(x, a.segments[1], a.segments[2]);
    EmptyPrepared(a, x, d);
    StartStep(a, x, EmptyMerge(x));
    CommittedOne(a, x, EmptyMerge(x));
    FinishStep(a, Flight(a, x, EmptyMerge(x)), x, EmptyMerge(x));
    assert Committed(a, [EmptyMerge(x)]) == b;
    SecondPlan(x, a.segments[1], a.segments[2], size);
  }

  lemma {:induction false} SecondPlan(x: Segment, y: Segment, z: Segment, size: Size)
    requires Small(size) && |x.docs| == 1 && x.deleted == {0} && y.deleted == z.deleted == {}
    ensures PlanMerges.Plan([x, y, z], size, DEFAULT_POLICY) == [[x.id]]
  {
    RewritesMore([], x, size);
    RewritesMore([x], y, size);
    RewritesMore([x, y], z, size);
    assert [] + [x] == [x] && [x] + [y] == [x, y] && [x, y] + [z] == [x, y, z];
    PlanIs([x, y, z], size, x.id);
  }

  lemma {:induction false} TiedEntries(ix: Index, f: CrawledFile) returns (p: seq<Segment>)
    requires ix == Index([Segment(2, 2, [], {}, 0), Segment(3, 2, [DocOf(f)], {}, 0), Segment(4, 3, [], {}, 0)], map[], 5, 0, 4)
    ensures !AnySortOrdered(ix.segments) && Undecodable(ix, p)
  {
    hide Undecodable, DocOf;
    p := SwapTied(ix.segments, 0, 1);
    SwappedUndecodable(ix, p);
  }
}
