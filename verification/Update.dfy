/**
 The incremental update (src/store/update.rs): a plan becomes appended
 segments, a new tombstone generation per touched segment, and a merged overlay.
 */
module Update {
  import opened Wrappers
  import opened Documents
  import opened Postings
  import opened Build
  import opened Segments
  import opened Reconcile
  import opened Convergence

  // ----- Appended segments -----

  /** The segments of a build, over the documents it was given. */
  function AsSegments(built: seq<BuiltSegment>, docs: seq<Doc>): seq<Segment> {
    if built == [] then []
    else
      var last := built[|built| - 1];
      var n := if |last.rows| <= |docs| then |docs| - |last.rows| else 0;
      AsSegments(built[..|built| - 1], docs[..n]) + [Segment(last.id, last.base, docs[n..], {}, 0)]
  }

  ghost predicate Within(s: Segment, low: nat, high: nat, firstId: nat, nextId: nat) {
    low <= s.base && s.End() <= high && firstId <= s.id < nextId && s.deleted == {} && s.delGen == 0
  }

  ghost predicate Carries(segments: seq<Segment>, id: DocId, d: Doc) {
    exists i: nat, l: nat :: i < |segments| && l < |segments[i].docs| && segments[i].base + l == id && segments[i].docs[l] == d
  }

  lemma {:induction false} AppendedOrder(built: seq<BuiltSegment>, docs: seq<Doc>, base: DocId, firstId: nat)
    requires Tiles(built, docs, base, firstId)
    ensures |AsSegments(built, docs)| == |built|
    ensures Ordered(AsSegments(built, docs)) && DistinctIds(AsSegments(built, docs))
    ensures AllWithin(AsSegments(built, docs), base, base + |docs|, firstId, firstId + |built|)
  {
    if built != [] {
      var last := built[|built| - 1];
      var front, before := LastTile(built, docs, base, firstId);
      hide Tiles, AsSegments, Ordered, DistinctIds, AllWithin;
      AppendedOrder(built[..|built| - 1], front, base, firstId);
      AppendOne(before, Segment(last.id, last.base, docs[|front|..], {}, 0), base, firstId);
    }
  }

  ghost predicate AllWithin(segments: seq<Segment>, low: nat, high: nat, firstId: nat, nextId: nat) {
    forall i | 0 <= i < |segments| :: Within(segments[i], low, high, firstId, nextId)
  }

  lemma {:induction false} AppendOne(before: seq<Segment>, s: Segment, base: DocId, firstId: nat)
    requires Ordered(before) && DistinctIds(before) && base <= s.base
    requires AllWithin(before, base, s.base, firstId, firstId + |before|)
    requires s.id == firstId + |before| && s.deleted == {} && s.delGen == 0
    ensures Ordered(before + [s]) && DistinctIds(before + [s])
    ensures AllWithin(before + [s], base, s.End(), firstId, firstId + |before| + 1)
  {
  }

  lemma {:induction false} AppendedCarry(built: seq<BuiltSegment>, docs: seq<Doc>, base: DocId, firstId: nat, k: nat)
    requires Tiles(built, docs, base, firstId) && k < |docs|
    ensures Carries(AsSegments(built, docs), base + k, docs[k])
  {
    var last := built[|built| - 1];
    var n := |docs| - |last.rows|;
    var before, segments := AsSegments(built[..|built| - 1], docs[..n]), AsSegments(built, docs);
    if k < n {
      AppendedCarry(built[..|built| - 1], docs[..n], base, firstId, k);
      var i: nat, l: nat :| i < |before| && l < |before[i].docs| && before[i].base + l == base + k && before[i].docs[l] == docs[k];
      assert segments[i].docs[l] == docs[k];
    } else {
      assert segments[|before|].docs[k - n] == docs[k];
    }
  }

  // ----- Tombstones -----

  function LocalsOf(s: Segment, ids: set<DocId>): set<nat> {
    set id | id in ids && s.base <= id < s.End() :: id - s.base
  }

  /** A new deletion generation only if some local is newly deleted. */
  function Buried(s: Segment, locals: set<nat>): Segment {
    if locals <= s.deleted then s else s.(deleted := s.deleted + locals, delGen := s.delGen + 1)
  }

  function Tombstoned(segments: seq<Segment>, ids: set<DocId>): seq<Segment> {
    seq(|segments|, i requires 0 <= i < |segments| => Buried(segments[i], LocalsOf(segments[i], ids)))
  }

  function IdsIn(ids: seq<DocId>): set<DocId> {
    set id | id in ids
  }

  function Group(bySegment: map<nat, set<nat>>, i: nat): set<nat> {
    if i in bySegment then bySegment[i] else {}
  }

  /** Deleted ids as locals per segment index; ids in gaps are ignored. */
  method GroupBySegment(segments: seq<Segment>, deletes: seq<DocId>) returns (bySegment: map<nat, set<nat>>)
    requires Ordered(segments)
    ensures forall i | 0 <= i < |segments| :: Group(bySegment, i) == LocalsOf(segments[i], IdsIn(deletes))
  {
    bySegment := map[];
    for k := 0 to |deletes|
      invariant forall i | 0 <= i < |segments| :: Group(bySegment, i) == LocalsOf(segments[i], IdsIn(deletes[..k]))
    {
      assert IdsIn(deletes[..k + 1]) == IdsIn(deletes[..k]) + {deletes[k]};
      ghost var was := bySegment;
      match Locate(segments, deletes[k]) {
        case None =>
        case Some((i, l)) =>
          bySegment := bySegment[i := Group(bySegment, i) + {l}];
      }
      forall j | 0 <= j < |segments|
        ensures Group(bySegment, j) == LocalsOf(segments[j], IdsIn(deletes[..k + 1]))
      {
        assert Group(was, j) == LocalsOf(segments[j], IdsIn(deletes[..k]));
        OneMore(segments, IdsIn(deletes[..k]), deletes[k], j);
      }
    }
    assert deletes[..|deletes|] == deletes;
  }

  lemma {:induction false} OneMore(segments: seq<Segment>, ids: set<DocId>, id: DocId, j: nat)
    requires Ordered(segments) && j < |segments|
    ensures LocalsOf(segments[j], ids + {id})
         == LocalsOf(segments[j], ids)
            + (match Locate(segments, id) case Some((i, l)) => (if i == j then {l} else {}) case None => {})
  {
    match Locate(segments, id) {
      case None => NotLocated(segments, id, j);
      case Some((i, l)) => LocatedOnce(segments, id, i, l, j);
    }
  }

  method Tombstone(segments: seq<Segment>, deletes: seq<DocId>) returns (buried: seq<Segment>)
    requires Ordered(segments)
    ensures buried == Tombstoned(segments, IdsIn(deletes))
  {
    var bySegment := GroupBySegment(segments, deletes);
    buried := [];
    for i := 0 to |segments|
      invariant buried == Tombstoned(segments, IdsIn(deletes))[..i]
    {
      assert Group(bySegment, i) == LocalsOf(segments[i], IdsIn(deletes));
      buried := buried + [if i in bySegment then Buried(segments[i], bySegment[i]) else segments[i]];
    }
  }

  lemma {:induction false} NotLocated(segments: seq<Segment>, id: DocId, i: nat)
    requires Ordered(segments) && Locate(segments, id).None? && i < |segments|
    ensures !(segments[i].base <= id < segments[i].End())
  {
    if segments[i].base <= id < segments[i].End() {
      LocateIff(segments, id, i, id - segments[i].base);
    }
  }

  lemma {:induction false} LocatedOnce(segments: seq<Segment>, id: DocId, i: nat, l: nat, j: nat)
    requires Ordered(segments) && Locate(segments, id) == Some((i, l)) && j < |segments|
    ensures segments[j].base <= id < segments[j].End() <==> j == i
  {
    FirstEndingAfterEnds(segments, 0, id);
    if segments[j].base <= id < segments[j].End() {
      LocateIff(segments, id, j, id - segments[j].base);
    }
  }

  // ----- The overlay -----

  /** New patches over the previous ones; the last for a document wins. */
  function Patched(overlay: map<DocId, Meta>, changes: seq<Change>): map<DocId, Meta> {
    if changes == [] then overlay
    else
      var before, last := Patched(overlay, changes[..|changes| - 1]), changes[|changes| - 1];
      if last.Patch? then before[last.id := last.meta] else before
  }

  lemma {:induction false} PatchedMeta(overlay: map<DocId, Meta>, changes: seq<Change>, id: DocId, d: Doc)
    ensures WithPatch(Patched(overlay, changes), id, d)
         == Doc(MetaAfter(changes, id, WithPatch(overlay, id, d).meta), d.record)
  {
    if changes != [] {
      PatchedMeta(overlay, changes[..|changes| - 1], id, d);
    }
  }

  lemma {:induction false} PatchedKeys(overlay: map<DocId, Meta>, changes: seq<Change>, bound: nat)
    requires forall id | id in overlay :: id < bound
    requires PatchesBelow(changes, bound)
    ensures forall id | id in Patched(overlay, changes) :: id < bound
  {
    if changes != [] {
      PatchedKeys(overlay, changes[..|changes| - 1], bound);
    }
  }

  ghost predicate PatchesBelow(changes: seq<Change>, bound: nat) {
    forall k | 0 <= k < |changes| && changes[k].Patch? :: changes[k].id < bound
  }

  // ----- The whole update -----

  /** `next` is what the update commits for this plan. */
  ghost predicate Updates(prev: Index, next: Index, changes: seq<Change>, built: seq<BuiltSegment>) {
    var docs := DocsFor(Added(changes));
    && Tiles(built, docs, IdBound(prev.segments), prev.nextSegmentId)
    && next.segments == Tombstoned(prev.segments, Deleted(changes)) + AsSegments(built, docs)
    && next.overlay == Patched(prev.overlay, changes) - Deleted(changes)
    && next.nextSegmentId == prev.nextSegmentId + |built|
    && next.stateGen == (if next.overlay == map[] then 0 else prev.stateGen + 1)
    && next.generation == prev.generation + 1
  }

  method UpdateIndex(prev: Index, changes: seq<Change>, cfg: BuildConfig, overBytes: map<Term, PostingList> -> bool)
    returns (next: Index, ghost built: seq<BuiltSegment>)
    requires WellFormed(prev)
    ensures Updates(prev, next, changes, built)
  {
    hide Deleted, Added, Patched, InsertAll, Tombstoned, DocsFor, AsSegments, Tiles, Ordered;
    SplitNone(prev.overlay, changes);
    var deletes: seq<DocId> := [];
    var patches: seq<(DocId, Meta)> := [];
    var toIndex: seq<CrawledFile> := [];
    for k := 0 to |changes|
      invariant IdsIn(deletes) == Deleted(changes[..k])
      invariant toIndex == Added(changes[..k])
      invariant InsertAll(prev.overlay, patches) == Patched(prev.overlay, changes[..k])
    {
      var c := changes[k];
      SplitStep(prev.overlay, changes, k);
      match c {
        case Delete(id) => deletes := deletes + [id];
        case Patch(id, meta) =>
          InsertOne(prev.overlay, patches, id, meta);
          patches := patches + [(id, meta)];
        case Reindex(f) => toIndex := toIndex + [f];
      }
    }
    assert changes[..|changes|] == changes;

    var base := IdBound(prev.segments);
    var segments := Tombstone(prev.segments, deletes);
    var nextId := prev.nextSegmentId;
    built := [];
    if toIndex != [] {
      var appended;
      appended, nextId := BuildSegments(toIndex, base, cfg, overBytes, nextId);
      built := appended;
      segments := segments + AsSegments(appended, DocsFor(toIndex));
    }

    var merged := prev.overlay;
    for k := 0 to |patches|
      invariant merged == InsertAll(prev.overlay, patches[..k])
    {
      assert patches[..k + 1] == patches[..k] + [patches[k]];
      InsertOne(prev.overlay, patches[..k], patches[k].0, patches[k].1);
      merged := merged[patches[k].0 := patches[k].1];
    }
    assert patches[..|patches|] == patches;
    ghost var all := merged;
    for k := 0 to |deletes|
      invariant merged == all - IdsIn(deletes[..k])
    {
      assert IdsIn(deletes[..k + 1]) == IdsIn(deletes[..k]) + {deletes[k]};
      merged := merged - {deletes[k]};
    }
    assert deletes[..|deletes|] == deletes;
    next := Index(segments, merged, nextId, if merged == map[] then 0 else prev.stateGen + 1, prev.generation + 1);
    if toIndex == [] {
      NothingBuilt(base, prev.nextSegmentId);
      assert segments + [] == segments;
    }
  }

  lemma {:induction false} SplitNone(overlay: map<DocId, Meta>, changes: seq<Change>)
    ensures Deleted(changes[..0]) == {} && Added(changes[..0]) == [] && Patched(overlay, changes[..0]) == overlay && InsertAll(overlay, []) == overlay
  {
  }

  lemma {:induction false} NothingBuilt(base: DocId, firstId: nat)
    ensures DocsFor([]) == [] && AsSegments([], []) == [] && Tiles([], [], base, firstId)
  {
  }

  /** What one more change adds to the three work lists. */
  lemma {:induction false} SplitStep(overlay: map<DocId, Meta>, changes: seq<Change>, k: nat)
    requires k < |changes|
    ensures Deleted(changes[..k + 1]) == Deleted(changes[..k]) + (if changes[k].Delete? then {changes[k].id} else {})
    ensures Added(changes[..k + 1]) == Added(changes[..k]) + (if changes[k].Reindex? then [changes[k].file] else [])
    ensures Patched(overlay, changes[..k + 1])
         == if changes[k].Patch? then Patched(overlay, changes[..k])[changes[k].id := changes[k].meta] else Patched(overlay, changes[..k])
  {
    assert changes[..k + 1][..k] == changes[..k] && changes[..k + 1] == changes[..k] + [changes[k]];
    DeletedConcat(changes[..k], [changes[k]]);
    DeletedOne(changes[k]);
  }

  lemma {:induction false} InsertOne(overlay: map<DocId, Meta>, patches: seq<(DocId, Meta)>, id: DocId, meta: Meta)
    ensures InsertAll(overlay, patches + [(id, meta)]) == InsertAll(overlay, patches)[id := meta]
  {
    assert (patches + [(id, meta)])[..|patches|] == patches;
  }

  function InsertAll(overlay: map<DocId, Meta>, patches: seq<(DocId, Meta)>): map<DocId, Meta> {
    if patches == [] then overlay
    else
      var n := |patches| - 1;
      InsertAll(overlay, patches[..n])[patches[n].0 := patches[n].1]
  }

  lemma {:induction false} TombstonedBound(segments: seq<Segment>, ids: set<DocId>)
    ensures IdBound(Tombstoned(segments, ids)) == IdBound(segments)
  {
    if segments != [] {
      var n := |segments| - 1;
      TombstonedBound(segments[..n], ids);
      var after := Tombstoned(segments, ids);
      assert after[n] == Buried(segments[n], LocalsOf(segments[n], ids));
      assert after[n].End() == segments[n].End();
      hide Buried, LocalsOf;
      assert after[..n] == Tombstoned(segments[..n], ids);
    }
  }

  lemma {:induction false} AppendedBound(built: seq<BuiltSegment>, docs: seq<Doc>, base: DocId, firstId: nat)
    requires Tiles(built, docs, base, firstId)
    ensures IdBound(AsSegments(built, docs)) == if docs == [] then 0 else base + |docs|
  {
    if built != [] {
      var front, before := LastTile(built, docs, base, firstId);
      hide Tiles, AsSegments, IdBound;
      AppendedBound(built[..|built| - 1], front, base, firstId);
      IdBoundSnoc(before, Segment(built[|built| - 1].id, built[|built| - 1].base, docs[|front|..], {}, 0));
    }
  }

  /** The last built segment apart from the others. */
  lemma {:induction false} LastTile(built: seq<BuiltSegment>, docs: seq<Doc>, base: DocId, firstId: nat)
    returns (front: seq<Doc>, before: seq<Segment>)
    requires built != [] && Tiles(built, docs, base, firstId)
    ensures |front| < |docs| && front == docs[..|front|] && Tiles(built[..|built| - 1], front, base, firstId) && built[|built| - 1].base == base + |front|
    ensures built[|built| - 1].id == firstId + |built| - 1
    ensures before == AsSegments(built[..|built| - 1], front)
    ensures AsSegments(built, docs) == before + [Segment(built[|built| - 1].id, built[|built| - 1].base, docs[|front|..], {}, 0)]
  {
    hide Build.Holds;
    front := docs[..|docs| - |built[|built| - 1].rows|];
    before := AsSegments(built[..|built| - 1], front);
  }

  lemma {:induction false} IdBoundSnoc(before: seq<Segment>, s: Segment)
    ensures IdBound(before + [s]) == if IdBound(before) > s.End() then IdBound(before) else s.End()
  {
    assert (before + [s])[..|before|] == before;
  }

  lemma {:induction false} IdBoundConcat(a: seq<Segment>, b: seq<Segment>)
    ensures IdBound(a + b) == if IdBound(a) > IdBound(b) then IdBound(a) else IdBound(b)
  {
    if b == [] {
      assert a + b == a;
    } else {
      assert (a + b)[..|a + b| - 1] == a + b[..|b| - 1];
      IdBoundConcat(a, b[..|b| - 1]);
    }
  }

  /** The parts of an update that decide which documents are live. */
  ghost predicate Appends(prev: Index, next: Index, changes: seq<Change>, news: seq<Segment>) {
    && next.segments == Tombstoned(prev.segments, Deleted(changes)) + news
    && next.overlay == Patched(prev.overlay, changes) - Deleted(changes)
  }

  lemma {:induction false} JoinOrdered(olds: seq<Segment>, ids: set<DocId>, news: seq<Segment>, high: nat, firstId: nat, nextId: nat)
    requires Ordered(olds) && Ordered(news) && AllWithin(news, IdBound(olds), high, firstId, nextId)
    ensures Ordered(Tombstoned(olds, ids) + news)
  {
    IdBoundAbove(olds);
    var t := Tombstoned(olds, ids);
    forall i, j | 0 <= i < j < |t + news|
      ensures (t + news)[i].End() <= (t + news)[j].base
    {
      if i < |olds| {
        assert t[i].End() == olds[i].End();
        if j < |olds| { assert t[j].base == olds[j].base; }
      }
    }
  }

  lemma {:induction false} JoinDistinct(olds: seq<Segment>, ids: set<DocId>, news: seq<Segment>, low: nat, high: nat, firstId: nat, nextId: nat)
    requires DistinctIds(olds) && DistinctIds(news) && AllWithin(news, low, high, firstId, nextId) && firstId <= nextId
    requires forall i | 0 <= i < |olds| :: ValidSegment(olds[i]) && olds[i].id < firstId
    ensures DistinctIds(Tombstoned(olds, ids) + news)
    ensures forall s | s in Tombstoned(olds, ids) + news :: ValidSegment(s) && s.id < nextId
  {
    var t := Tombstoned(olds, ids);
    forall i | 0 <= i < |olds|
      ensures t[i].id == olds[i].id && ValidSegment(t[i])
    {
      BuriedValid(olds[i], LocalsOf(olds[i], ids));
    }
    forall i, j | 0 <= i < j < |t + news|
      ensures (t + news)[i].id != (t + news)[j].id
    {
      if i < |olds| && j < |olds| {
        assert t[i].id == olds[i].id && t[j].id == olds[j].id;
      } else if i < |olds| {
        assert t[i].id == olds[i].id && Within(news[j - |olds|], low, high, firstId, nextId);
      }
    }
    forall s | s in t + news
      ensures ValidSegment(s) && s.id < nextId
    {
      if s in t {
        var i :| 0 <= i < |t| && t[i] == s;
        assert t[i].id == olds[i].id;
      } else {
        var i :| 0 <= i < |news| && news[i] == s;
        assert Within(news[i], low, high, firstId, nextId);
      }
    }
  }

  lemma {:induction false} BuriedValid(s: Segment, locals: set<nat>)
    requires ValidSegment(s) && forall l | l in locals :: l < |s.docs|
    ensures ValidSegment(Buried(s, locals))
  {
  }

  /** An update keeps the index well formed and ids issued only upward. */
  lemma {:induction false} UpdateWellFormed(prev: Index, next: Index, changes: seq<Change>, built: seq<BuiltSegment>)
    requires WellFormed(prev) && Updates(prev, next, changes, built) && PatchesBelow(changes, IdBound(prev.segments))
    ensures WellFormed(next) && IdBound(next.segments) == IdBound(prev.segments) + |Added(changes)|
  {
    var docs := DocsFor(Added(changes));
    var base := IdBound(prev.segments);
    var news := AsSegments(built, docs);
    AppendedOrder(built, docs, base, prev.nextSegmentId);
    JoinOrdered(prev.segments, Deleted(changes), news, base + |docs|, prev.nextSegmentId, next.nextSegmentId);
    JoinDistinct(prev.segments, Deleted(changes), news, base, base + |docs|, prev.nextSegmentId, next.nextSegmentId);
    assert forall i | 0 <= i < |next.segments| :: next.segments[i] in next.segments;
    TombstonedBound(prev.segments, Deleted(changes));
    AppendedBound(built, docs, base, prev.nextSegmentId);
    IdBoundConcat(Tombstoned(prev.segments, Deleted(changes)), news);
    PatchedKeys(prev.overlay, changes, base);
  }

  /** A surviving document of the last commit keeps its place, with the plan's metadata. */
  lemma {:induction false} OldLocal(prev: Index, next: Index, changes: seq<Change>, news: seq<Segment>, i: nat, l: nat)
    requires Appends(prev, next, changes, news) && LiveIn(prev, i, l) && prev.segments[i].base + l !in Deleted(changes)
    ensures LiveIn(next, i, l) && next.segments[i].base == prev.segments[i].base
    ensures var id, d := prev.segments[i].base + l, prev.segments[i].docs[l];
      WithPatch(next.overlay, id, next.segments[i].docs[l])
      == Doc(MetaAfter(changes, id, WithPatch(prev.overlay, id, d).meta), d.record)
  {
    BuriedAt(prev, next, changes, news, i);
    BuriedLocal(prev.segments[i], l, Deleted(changes));
    PatchedMeta(prev.overlay, changes, prev.segments[i].base + l, prev.segments[i].docs[l]);
  }

  lemma {:induction false} BuriedAt(prev: Index, next: Index, changes: seq<Change>, news: seq<Segment>, i: nat)
    requires Appends(prev, next, changes, news) && i < |prev.segments|
    ensures i < |next.segments|
    ensures next.segments[i].base == prev.segments[i].base && next.segments[i].docs == prev.segments[i].docs
    ensures next.segments[i].deleted == prev.segments[i].deleted + LocalsOf(prev.segments[i], Deleted(changes))
  {
    assert next.segments[i] == Buried(prev.segments[i], LocalsOf(prev.segments[i], Deleted(changes)));
  }

  /** A local of the new index is an undeleted old local, or belongs to an appended segment. */
  lemma {:induction false} NothingElse(prev: Index, next: Index, changes: seq<Change>, news: seq<Segment>, i: nat, l: nat)
    requires Appends(prev, next, changes, news) && LiveIn(next, i, l)
    ensures if i < |prev.segments|
            then LiveIn(prev, i, l) && next.segments[i].base == prev.segments[i].base && prev.segments[i].base + l !in Deleted(changes)
            else next.segments[i] == news[i - |prev.segments|]
  {
    if i < |prev.segments| {
      BuriedAt(prev, next, changes, news, i);
      BuriedLocal(prev.segments[i], l, Deleted(changes));
    }
  }

  lemma {:induction false} BuriedLocal(s: Segment, l: nat, ids: set<DocId>)
    requires l < |s.docs|
    ensures l in LocalsOf(s, ids) <==> s.base + l in ids
  {
    if s.base + l in ids {
      assert (s.base + l) - s.base in LocalsOf(s, ids);
    }
  }

  /** Appended segments carry `docs` from id `base` on, and nothing else. */
  ghost predicate CarriesAll(news: seq<Segment>, base: DocId, docs: seq<Doc>) {
    && (forall k {:trigger CarriedAt(news, base, docs, k)} | 0 <= k < |docs| :: CarriedAt(news, base, docs, k))
    && (forall i: nat, l: nat | i < |news| && l < |news[i].docs| :: Carried(news[i], l, base, docs))
    && (forall i | 0 <= i < |news| :: news[i].deleted == {})
  }

  ghost predicate CarriedAt(news: seq<Segment>, base: DocId, docs: seq<Doc>, k: nat)
    requires k < |docs|
  {
    Carries(news, base + k, docs[k])
  }

  ghost predicate Carried(s: Segment, l: nat, base: DocId, docs: seq<Doc>)
    requires l < |s.docs|
  {
    base <= s.base + l < base + |docs| && s.docs[l] == docs[s.base + l - base]
  }

  lemma {:induction false} AppendedCarries(built: seq<BuiltSegment>, docs: seq<Doc>, base: DocId, firstId: nat)
    requires Tiles(built, docs, base, firstId)
    ensures CarriesAll(AsSegments(built, docs), base, docs)
  {
    var news := AsSegments(built, docs);
    forall k | 0 <= k < |docs|
      ensures CarriedAt(news, base, docs, k)
    {
      AppendedCarry(built, docs, base, firstId, k);
    }
    AppendedOrder(built, docs, base, firstId);
    forall i: nat, l: nat | i < |news| && l < |news[i].docs|
      ensures Carried(news[i], l, base, docs)
    {
      AppendedCarried(built, docs, base, firstId, i, l);
    }
    assert forall i | 0 <= i < |news| :: Within(news[i], base, base + |docs|, firstId, firstId + |built|);
  }

  lemma {:induction false} AppendedCarried(built: seq<BuiltSegment>, docs: seq<Doc>, base: DocId, firstId: nat, i: nat, l: nat)
    requires Tiles(built, docs, base, firstId)
    requires i < |AsSegments(built, docs)| && l < |AsSegments(built, docs)[i].docs|
    ensures Carried(AsSegments(built, docs)[i], l, base, docs)
  {
    var last := built[|built| - 1];
    var n := |docs| - |last.rows|;
    var before := AsSegments(built[..|built| - 1], docs[..n]);
    if i < |before| {
      AppendedCarried(built[..|built| - 1], docs[..n], base, firstId, i, l);
      assert AsSegments(built, docs)[i] == before[i];
    }
  }

  /** The update's effect on the live documents, place by place. */
  lemma {:induction false} PlacesApplied(prev: Index, next: Index, changes: seq<Change>, news: seq<Segment>, live: map<DocId, Doc>)
    requires Appends(prev, next, changes, news) && Places(prev, live)
    requires CarriesAll(news, IdBound(prev.segments), DocsFor(Added(changes)))
    requires forall id | id in Patched(prev.overlay, changes) :: id < IdBound(prev.segments)
    requires forall id | id in live :: id < IdBound(prev.segments)
    ensures Places(next, Applied(live, changes, IdBound(prev.segments)))
  {
    var after := Applied(live, changes, IdBound(prev.segments));
    forall i: nat, l: nat | LiveIn(next, i, l)
      ensures var id := next.segments[i].base + l; id in after && after[id] == WithPatch(next.overlay, id, next.segments[i].docs[l])
    {
      PlaceFilled(prev, next, changes, news, live, i, l);
    }
    forall id {:trigger LiveId(next, id)} | id in after
      ensures LiveId(next, id)
    {
      IdPlaced(prev, next, changes, news, live, id);
    }
  }

  lemma {:induction false} PlaceFilled(prev: Index, next: Index, changes: seq<Change>, news: seq<Segment>, live: map<DocId, Doc>, i: nat, l: nat)
    requires Appends(prev, next, changes, news) && Places(prev, live) && LiveIn(next, i, l)
    requires CarriesAll(news, IdBound(prev.segments), DocsFor(Added(changes)))
    requires forall id | id in Patched(prev.overlay, changes) :: id < IdBound(prev.segments)
    requires forall id | id in live :: id < IdBound(prev.segments)
    ensures var id, after := next.segments[i].base + l, Applied(live, changes, IdBound(prev.segments));
      id in after && after[id] == WithPatch(next.overlay, id, next.segments[i].docs[l])
  {
    var base := IdBound(prev.segments);
    NothingElse(prev, next, changes, news, i, l);
    if i < |prev.segments| {
      OldLocal(prev, next, changes, news, i, l);
    } else {
      var s := news[i - |prev.segments|];
      assert Carried(s, l, base, DocsFor(Added(changes)));
      assert AddedDoc(Added(changes), base, s.base + l) == s.docs[l];
    }
  }

  lemma {:induction false} IdPlaced(prev: Index, next: Index, changes: seq<Change>, news: seq<Segment>, live: map<DocId, Doc>, id: DocId)
    requires Appends(prev, next, changes, news) && Places(prev, live)
    requires CarriesAll(news, IdBound(prev.segments), DocsFor(Added(changes)))
    requires forall id | id in live :: id < IdBound(prev.segments)
    requires id in Applied(live, changes, IdBound(prev.segments))
    ensures LiveId(next, id)
  {
    var base := IdBound(prev.segments);
    if base <= id {
      var docs := DocsFor(Added(changes));
      assert CarriedAt(news, base, docs, id - base);
      var i: nat, l: nat :| i < |news| && l < |news[i].docs| && news[i].base + l == id && news[i].docs[l] == docs[id - base];
      assert next.segments[|prev.segments| + i] == news[i];
      assert LiveIn(next, |prev.segments| + i, l);
    } else {
      assert LiveId(prev, id);
      var i: nat, l: nat :| LiveIn(prev, i, l) && id == prev.segments[i].base + l;
      OldLocal(prev, next, changes, news, i, l);
    }
  }

  /**
   Through tombstones, appended segments and the overlay, the update leaves
   exactly the documents the plan calls for.
   */
  lemma {:induction false} UpdateApplies(prev: Index, next: Index, changes: seq<Change>, built: seq<BuiltSegment>)
    requires WellFormed(prev) && Updates(prev, next, changes, built) && PatchesBelow(changes, IdBound(prev.segments))
    ensures Live(next) == Applied(Live(prev), changes, IdBound(prev.segments))
  {
    UpdateWellFormed(prev, next, changes, built);
    PatchedKeys(prev.overlay, changes, IdBound(prev.segments));
    AppendedCarries(built, DocsFor(Added(changes)), IdBound(prev.segments), prev.nextSegmentId);
    LiveIsPlaces(prev);
    LiveIsPlaces(next);
    PlacesApplied(prev, next, changes, AsSegments(built, DocsFor(Added(changes))), Live(prev));
    PlacesUnique(next, Live(next), Applied(Live(prev), changes, IdBound(prev.segments)));
  }

  // ----- Crawl to commit -----

  ghost predicate Genuine(docs: seq<(DocId, Doc)>, live: map<DocId, Doc>) {
    forall k | 0 <= k < |docs| :: docs[k].0 in live && live[docs[k].0] == docs[k].1
  }

  /** Strictly ascending ids, all from `low` up to `high`. */
  ghost predicate Rising(docs: seq<(DocId, Doc)>, low: nat, high: nat) {
    && (forall k | 0 <= k < |docs| :: low <= docs[k].0 < high)
    && forall j, k | 0 <= j < k < |docs| :: docs[j].0 < docs[k].0
  }

  method SegmentDocs(ix: Index, i: nat, ghost live: map<DocId, Doc>) returns (docs: seq<(DocId, Doc)>)
    requires Places(ix, live) && i < |ix.segments|
    ensures Genuine(docs, live) && Rising(docs, ix.segments[i].base, ix.segments[i].End())
    ensures forall l: nat | LiveIn(ix, i, l) :: Listed(docs, ix.segments[i].base + l)
  {
    var s := ix.segments[i];
    docs := [];
    for l := 0 to |s.docs|
      invariant Genuine(docs, live) && Rising(docs, s.base, s.base + l)
      invariant forall m: nat | m < l && m !in s.deleted :: Listed(docs, s.base + m)
    {
      if l !in s.deleted {
        ghost var was := docs;
        assert LiveIn(ix, i, l);
        docs := docs + [(s.base + l, WithPatch(ix.overlay, s.base + l, s.docs[l]))];
        assert docs[|was|].0 == s.base + l;
        forall m: nat | m < l && m !in s.deleted
          ensures Listed(docs, s.base + m)
        {
          StillListed(was, docs, s.base + m);
        }
      }
    }
  }

  /** Live documents in ascending id order, overlay applied. */
  method Docs(ix: Index, ghost live: map<DocId, Doc>) returns (docs: seq<(DocId, Doc)>)
    requires Places(ix, live) && Ordered(ix.segments)
    ensures Lists(docs, live) && Rising(docs, 0, IdBound(ix.segments))
  {
    docs := [];
    IdBoundAbove(ix.segments);
    for i := 0 to |ix.segments|
      invariant Genuine(docs, live) && Rising(docs, 0, if i == 0 then 0 else ix.segments[i - 1].End())
      invariant forall j: nat, l: nat | j < i && LiveIn(ix, j, l) :: Listed(docs, ix.segments[j].base + l)
    {
      var more := SegmentDocs(ix, i, live);
      forall j: nat, l: nat | j < i + 1 && LiveIn(ix, j, l)
        ensures Listed(docs + more, ix.segments[j].base + l)
      {
        ListedEither(docs, more, ix.segments[j].base + l);
      }
      assert i > 0 ==> ix.segments[i - 1].End() <= ix.segments[i].base;
      RisingConcat(docs, more, if i == 0 then 0 else ix.segments[i - 1].End(), ix.segments[i].base, ix.segments[i].End());
      docs := docs + more;
    }
    forall id | id in live
      ensures Listed(docs, id)
    {
      assert LiveId(ix, id);
    }
  }

  lemma {:induction false} RisingConcat(a: seq<(DocId, Doc)>, b: seq<(DocId, Doc)>, middle: nat, low: nat, high: nat)
    requires Rising(a, 0, middle) && Rising(b, low, high) && middle <= low <= high
    ensures Rising(a + b, 0, high)
  {
  }

  lemma {:induction false} ListedEither(a: seq<(DocId, Doc)>, b: seq<(DocId, Doc)>, id: DocId)
    requires Listed(a, id) || Listed(b, id)
    ensures Listed(a + b, id)
  {
    if Listed(a, id) {
      StillListed(a, a + b, id);
    } else {
      var k :| 0 <= k < |b| && b[k].0 == id;
      assert (a + b)[|a| + k].0 == id;
    }
  }

  ghost predicate Listed(docs: seq<(DocId, Doc)>, id: DocId) {
    exists k :: 0 <= k < |docs| && docs[k].0 == id
  }

  lemma {:induction false} StillListed(was: seq<(DocId, Doc)>, now: seq<(DocId, Doc)>, id: DocId)
    requires was <= now && Listed(was, id)
    ensures Listed(now, id)
  {
    var k :| 0 <= k < |was| && was[k].0 == id;
    assert now[k].0 == id;
  }

  /** Reconcile only patches documents that are live, hence below the id bound. */
  lemma {:induction false} PlanPatchesBelow(prev: StateIndex, live: map<DocId, Doc>, crawl: seq<CrawledFile>, changes: seq<Change>, base: nat)
    requires Records(prev, live) && IsPlan(prev, crawl, changes) && forall id | id in live :: id < base
    ensures PatchesBelow(changes, base)
  {
    var verdicts: seq<Verdict>, order: seq<Path> :| PlanFrom(prev, crawl, changes, verdicts, order);
    CrawlPatchesBelow(prev, live, crawl, verdicts, base);
    DeletionsPatchNothing(prev, order);
    var crawled, rest := CrawlChanges(verdicts, crawl), DeletionsFor(prev, order);
    forall k | 0 <= k < |changes| && changes[k].Patch?
      ensures changes[k].id < base
    {
      assert k < |crawled| ==> changes[k] == crawled[k];
    }
  }

  lemma {:induction false} CrawlPatchesBelow(prev: StateIndex, live: map<DocId, Doc>, crawl: seq<CrawledFile>, verdicts: seq<Verdict>, base: nat)
    requires Records(prev, live) && Judges(prev, crawl, verdicts) && forall id | id in live :: id < base
    ensures PatchesBelow(CrawlChanges(verdicts, crawl), base)
  {
    if verdicts != [] {
      var n := |verdicts| - 1;
      CrawlPatchesBelow(prev, live, crawl, verdicts[..n], base);
      JudgedLive(prev, live, Sources(verdicts[..n]), crawl[n]);
    }
  }

  /** Whatever is decided is about a recorded document. */
  lemma {:induction false} JudgedLive(prev: StateIndex, live: map<DocId, Doc>, consumed: set<Path>, f: CrawledFile)
    requires Records(prev, live)
    ensures var v := Decide(prev, consumed, f); !v.Fresh? ==> v.id in live
  {
    forall p | p in prev.byPath
      ensures prev.byPath[p].docId in live
    {
      assert LastAt(live, p, prev.byPath[p].docId);
    }
    hide Records, LastAt, StateFor;
  }

  lemma {:induction false} DeletionsPatchNothing(prev: StateIndex, order: seq<Path>)
    requires forall p | p in order :: p in prev.byPath
    ensures forall k | 0 <= k < |DeletionsFor(prev, order)| :: DeletionsFor(prev, order)[k].Delete?
  {
    if order != [] {
      DeletionsPatchNothing(prev, order[..|order| - 1]);
    }
  }

  /** One update from crawl to committed index, whatever is live; nothing to do commits nothing. */
  method UpdateFromCrawl(prev: Index, crawl: seq<CrawledFile>, cfg: BuildConfig, overBytes: map<Term, PostingList> -> bool)
    returns (next: Index, ghost state: StateIndex, ghost changes: seq<Change>)
    requires WellFormed(prev)
    ensures Records(state, Live(prev)) && IsPlan(state, crawl, changes)
    ensures DistinctPaths(Live(prev)) ==> Describes(state, Live(prev))
    ensures if changes == [] then next == prev else next.generation == prev.generation + 1
    ensures WellFormed(next)
    ensures Live(next) == Applied(Live(prev), changes, IdBound(prev.segments))
    ensures IdBound(next.segments) >= IdBound(prev.segments)
  {
    LiveIsPlaces(prev);
    var docs := Docs(prev, Live(prev));
    var index := FromDocs(docs, Live(prev));
    var plan := Plan(index, crawl);
    state, changes := index, plan;
    if plan == [] {
      EmptyPlanApplies(Live(prev), IdBound(prev.segments));
      return prev, state, changes;
    }
    ghost var built;
    next, built := UpdateIndex(prev, plan, cfg, overBytes);
    PlanPatchesBelow(state, Live(prev), crawl, changes, IdBound(prev.segments));
    UpdateWellFormed(prev, next, changes, built);
    UpdateApplies(prev, next, changes, built);
  }

  lemma {:induction false} EmptyPlanApplies(live: map<DocId, Doc>, base: DocId)
    ensures Applied(live, [], base) == live
  {
    assert Deleted([]) == {};
    assert forall id, meta :: MetaAfter([], id, meta) == meta;
  }

  /**
   The committed index reflects the crawled tree exactly when no rename was
   contested, and where every file could be read that is to mirror it; in every
   case nothing foreign and no duplicate path is live.
   */
  lemma {:induction false} UpdateMirrorsIff(prev: Index, next: Index, state: StateIndex, crawl: seq<CrawledFile>, changes: seq<Change>)
    requires WellFormed(prev) && DistinctPaths(Live(prev)) && Describes(state, Live(prev)) && IsPlan(state, crawl, changes)
    requires DistinctCrawl(crawl) && Trusted(Live(prev), crawl)
    requires Live(next) == Applied(Live(prev), changes, IdBound(prev.segments))
    ensures Reflects(Live(next), state, Live(prev), crawl) <==> NoContestedRename(state, crawl)
    ensures ReadsSucceed(crawl) ==> (Mirrors(Live(next), crawl) <==> NoContestedRename(state, crawl))
    ensures DistinctPaths(Live(next)) && forall id | id in Live(next) :: Standing(state, Live(prev), crawl, Live(next)[id])
  {
    hide WellFormed, DistinctPaths, Describes, IsPlan, Trusted, Reflects, Mirrors, Standing, Applied, NoContestedRename;
    var base := IdBound(prev.segments);
    assert Run(state, Live(prev), crawl, changes, base);
    if ReadsSucceed(crawl) {
      ReflectsMirrors(Live(next), state, Live(prev), crawl);
    }
    ConvergesIff(state, Live(prev), crawl, changes, base);
    NothingForeign(state, Live(prev), crawl, changes, base);
  }
}
