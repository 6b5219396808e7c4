/**
 What a merge commit does to the live documents: every one of them survives
 with its content under exactly one id, and nothing else appears, however many
 deletions landed between the snapshot and the commit.
 */
module MergeMeaning {
  import opened Wrappers
  import opened Documents
  import opened Postings
  import opened Segments
  import opened MergePrepare
  import opened MergeCommit

  // ----- A snapshot segment and what has become of it -----

  /** `now` is `before` with possibly more tombstones, told apart by its generation. */
  ghost predicate Descends(before: Segment, now: Segment) {
    && now.id == before.id && now.base == before.base && now.docs == before.docs
    && before.deleted <= now.deleted && before.delGen <= now.delGen
    && (now.delGen == before.delGen ==> now.deleted == before.deleted)
  }

  /** Every source still present in `cur` descends from its snapshot. */
  ghost predicate Current(p: PreparedMerge, snapshot: Index, group: seq<Segment>, cur: Index) {
    && PreparedFrom(p, snapshot, group)
    && (forall i, s | 0 <= i < |group| && s in cur.segments && s.id == group[i].id :: Descends(group[i], s))
    && (forall i | 0 <= i < |group| :: group[i].id < cur.nextSegmentId)
  }

  ghost predicate DisjointSources(prepared: seq<PreparedMerge>) {
    forall j, k, id | 0 <= j < k < |prepared| && id in prepared[j].sourceIds :: id !in prepared[k].sourceIds
  }

  /** A batch of prepared merges ready to commit against `cur`. */
  ghost predicate Batch(prepared: seq<PreparedMerge>, snapshot: Index, groups: seq<seq<Segment>>, cur: Index) {
    && |prepared| == |groups| && prepared != [] && DisjointSources(prepared)
    && (forall k | 0 <= k < |prepared| :: Current(prepared[k], snapshot, groups[k], cur))
    && (forall k | 0 <= k < |prepared| :: AllPresent(cur.segments, prepared[k].sourceIds))
  }

  // ----- Carry-forward is exact -----

  lemma {:induction false} PresentSource(p: PreparedMerge, snapshot: Index, group: seq<Segment>, cur: Index, i: nat) returns (s: Segment)
    requires WellFormed(cur) && Current(p, snapshot, group, cur) && AllPresent(cur.segments, p.sourceIds) && i < |group|
    ensures s in cur.segments && Descends(group[i], s) && FindSegment(cur.segments, group[i].id) == Some(s)
  {
    assert p.sourceIds[i] == group[i].id;
    assert HasSegment(cur.segments, p.sourceIds[i]);
    var j :| 0 <= j < |cur.segments| && cur.segments[j].id == group[i].id;
    s := cur.segments[j];
    FindSegmentIs(cur.segments, j);
  }

  lemma {:induction false} CarryHas(p: PreparedMerge, segments: seq<Segment>, ids: seq<nat>, n: nat)
    ensures n in Carry(p, segments, ids) <==> exists k :: 0 <= k < |ids| && n in CarriedFrom(p, segments, ids[k])
  {
    if ids != [] {
      CarryHas(p, segments, ids[..|ids| - 1], n);
    }
  }

  /**
   A survivor is tombstoned in the merged segment exactly if it is tombstoned in
   its source now.
   */
  lemma {:induction false} CarryExact(p: PreparedMerge, snapshot: Index, group: seq<Segment>, cur: Index, i: nat, l: nat, s: Segment)
    requires WellFormed(cur) && Current(p, snapshot, group, cur) && AllPresent(cur.segments, p.sourceIds)
    requires i < |group| && Kept(group[i], l) && s in cur.segments && s.id == group[i].id
    ensures NewId(group, i, l) in Carry(p, cur.segments, p.sourceIds) <==> l in s.deleted
  {
    var found := PresentSource(p, snapshot, group, cur, i);
    SameSegment(cur, found, s);
    CarryHas(p, cur.segments, p.sourceIds, NewId(group, i, l));
    if l in s.deleted {
      var key := (group[i].id, l);
      assert key in p.oldToNew && p.oldToNew[key] == NewId(group, i, l);
      assert p.oldToNew[key] in CarriedFrom(p, cur.segments, p.sourceIds[i]);
    }
    if k :| 0 <= k < |p.sourceIds| && NewId(group, i, l) in CarriedFrom(p, cur.segments, p.sourceIds[k]) {
      var current := FindSegment(cur.segments, p.sourceIds[k]).value;
      var key :| key in p.oldToNew && key.0 == p.sourceIds[k] && key.1 in current.deleted && p.oldToNew[key] == NewId(group, i, l);
      assert Numbered(p.oldToNew, group, key);
      var j: nat :| j < |group| && key.0 == group[j].id && Kept(group[j], key.1) && p.oldToNew[key] == NewId(group, j, key.1);
      NewIdInjective(group, i, l, j, key.1);
    }
  }

  lemma {:induction false} SameSegment(cur: Index, a: Segment, b: Segment)
    requires WellFormed(cur) && a in cur.segments && b in cur.segments && a.id == b.id
    ensures a == b
  {
    var i :| 0 <= i < |cur.segments| && cur.segments[i] == a;
    var j :| 0 <= j < |cur.segments| && cur.segments[j] == b;
    if i != j {
      assert cur.segments[i].id != cur.segments[j].id;
    }
  }

  /** Carried tombstones are locals of the merged segment. */
  lemma {:induction false} CarryInRange(p: PreparedMerge, snapshot: Index, group: seq<Segment>, segments: seq<Segment>)
    requires PreparedFrom(p, snapshot, group)
    ensures forall n | n in Carry(p, segments, p.sourceIds) :: n < |p.docs|
  {
    forall n | n in Carry(p, segments, p.sourceIds)
      ensures n < |p.docs|
    {
      CarryHas(p, segments, p.sourceIds, n);
      var k :| 0 <= k < |p.sourceIds| && n in CarriedFrom(p, segments, p.sourceIds[k]);
      var key :| key in p.oldToNew && p.oldToNew[key] == n;
      assert Numbered(p.oldToNew, group, key);
      var j: nat :| j < |group| && key.0 == group[j].id && Kept(group[j], key.1) && p.oldToNew[key] == NewId(group, j, key.1);
      MergedAt(snapshot.overlay, group, j, key.1);
    }
  }

  // ----- The committed index is well formed -----

  lemma {:induction false} RetainedAre(segments: seq<Segment>, ids: set<nat>)
    ensures forall s :: s in Retained(segments, ids) <==> s in segments && s.id !in ids
  {
    if segments != [] {
      var n := |segments| - 1;
      RetainedAre(segments[..n], ids);
      assert segments == segments[..n] + [segments[n]];
    }
  }

  lemma {:induction false} FrontKeeps(segments: seq<Segment>, n: nat)
    requires n <= |segments|
    ensures Ordered(segments) ==> Ordered(segments[..n])
    ensures DistinctIds(segments) ==> DistinctIds(segments[..n])
  {
  }

  lemma {:induction false} RetainedOrdered(segments: seq<Segment>, ids: set<nat>)
    requires Ordered(segments)
    ensures Ordered(Retained(segments, ids))
  {
    if segments != [] {
      var n := |segments| - 1;
      var front, kept := segments[..n], Retained(segments[..n], ids);
      assert segments == front + [segments[n]];
      FrontKeeps(segments, n);
      RetainedOrdered(front, ids);
      RetainedAre(front, ids);
      if segments[n].id in ids {
        assert kept + [] == kept;
      } else {
        OrderedMore(kept, front, segments[n]);
      }
    }
  }

  lemma {:induction false} RetainedDistinct(segments: seq<Segment>, ids: set<nat>)
    requires DistinctIds(segments)
    ensures DistinctIds(Retained(segments, ids))
  {
    if segments != [] {
      var n := |segments| - 1;
      var front, kept := segments[..n], Retained(segments[..n], ids);
      assert segments == front + [segments[n]];
      FrontKeeps(segments, n);
      RetainedDistinct(front, ids);
      RetainedAre(front, ids);
      if segments[n].id in ids {
        assert kept + [] == kept;
      } else {
        DistinctMore(kept, front, segments[n]);
      }
    }
  }

  lemma {:induction false} RetainedFrom(segments: seq<Segment>, ids: set<nat>)
    ensures forall s :: s in Retained(segments, ids) <==> s in segments && s.id !in ids
    ensures Ordered(segments) ==> Ordered(Retained(segments, ids))
    ensures DistinctIds(segments) ==> DistinctIds(Retained(segments, ids))
  {
    hide Ordered, DistinctIds, Retained;
    RetainedAre(segments, ids);
    if Ordered(segments) {
      RetainedOrdered(segments, ids);
    }
    if DistinctIds(segments) {
      RetainedDistinct(segments, ids);
    }
  }

  lemma {:induction false} OrderedMore(kept: seq<Segment>, front: seq<Segment>, s: Segment)
    requires Ordered(front + [s]) && Ordered(kept) && forall t | t in kept :: t in front
    ensures Ordered(kept + [s])
  {
    forall k | 0 <= k < |kept|
      ensures kept[k].End() <= s.base
    {
      assert kept[k] in kept;
      var j :| 0 <= j < |front| && front[j] == kept[k];
      assert (front + [s])[j].End() <= (front + [s])[|front|].base;
    }
  }

  lemma {:induction false} DistinctMore(kept: seq<Segment>, front: seq<Segment>, s: Segment)
    requires DistinctIds(front + [s]) && DistinctIds(kept) && forall t | t in kept :: t in front
    ensures DistinctIds(kept + [s])
  {
    forall k | 0 <= k < |kept|
      ensures kept[k].id != s.id
    {
      assert kept[k] in kept;
      var j :| 0 <= j < |front| && front[j] == kept[k];
      assert (front + [s])[j].id != (front + [s])[|front|].id;
    }
  }

  lemma {:induction false} NewAt(prepared: seq<PreparedMerge>, segments: seq<Segment>, firstId: nat, base: DocId, k: nat)
    requires k < |prepared|
    ensures |NewSegments(prepared, segments, firstId, base)| == |prepared|
    ensures NewSegments(prepared, segments, firstId, base)[k]
         == MergedSegment(prepared[k], segments, firstId + k, base + DocCount(prepared[..k]))
  {
    var n := |prepared| - 1;
    if n > 0 {
      NewAt(prepared[..n], segments, firstId, base, if k < n then k else 0);
    }
    if k < n {
      assert prepared[..n][..k] == prepared[..k];
    }
  }

  lemma {:induction false} DocCountMonotone(prepared: seq<PreparedMerge>, j: nat, k: nat)
    requires j < k <= |prepared|
    ensures DocCount(prepared[..j]) + |prepared[j].docs| <= DocCount(prepared[..k])
  {
    assert prepared[..k][..k - 1] == prepared[..k - 1];
    if j < k - 1 {
      DocCountMonotone(prepared, j, k - 1);
    }
  }

  lemma {:induction false} NewOrdered(prepared: seq<PreparedMerge>, segments: seq<Segment>, firstId: nat, base: DocId)
    ensures Ordered(NewSegments(prepared, segments, firstId, base)) && DistinctIds(NewSegments(prepared, segments, firstId, base))
    ensures |NewSegments(prepared, segments, firstId, base)| == |prepared|
  {
    var news := NewSegments(prepared, segments, firstId, base);
    if prepared != [] {
      NewAt(prepared, segments, firstId, base, 0);
    }
    forall j, k | 0 <= j < k < |news|
      ensures news[j].End() <= news[k].base && news[j].id != news[k].id
    {
      NewAt(prepared, segments, firstId, base, j);
      NewAt(prepared, segments, firstId, base, k);
      DocCountMonotone(prepared, j, k);
    }
  }

  lemma {:induction false} NewBound(prepared: seq<PreparedMerge>, segments: seq<Segment>, firstId: nat, base: DocId)
    requires prepared != []
    ensures IdBound(NewSegments(prepared, segments, firstId, base)) == base + DocCount(prepared)
  {
    var n := |prepared| - 1;
    var news := NewSegments(prepared, segments, firstId, base);
    assert news[..|news| - 1] == NewSegments(prepared[..n], segments, firstId, base);
    if n > 0 {
      NewBound(prepared[..n], segments, firstId, base);
    }
  }

  lemma {:induction false} BoundOfConcat(a: seq<Segment>, b: seq<Segment>)
    ensures IdBound(a + b) == if IdBound(a) > IdBound(b) then IdBound(a) else IdBound(b)
  {
    if b == [] {
      assert a + b == a;
    } else {
      assert (a + b)[..|a + b| - 1] == a + b[..|b| - 1];
      BoundOfConcat(a, b[..|b| - 1]);
    }
  }

  lemma {:induction false} RetainedBound(segments: seq<Segment>, ids: set<nat>)
    ensures IdBound(Retained(segments, ids)) <= IdBound(segments)
  {
    if segments != [] {
      var n := |segments| - 1;
      RetainedBound(segments[..n], ids);
      BoundOfConcat(Retained(segments[..n], ids), [segments[n]]);
      assert [segments[n]][..0] == [];
      assert Retained(segments[..n], ids) + [] == Retained(segments[..n], ids);
    }
  }

  /** Ids are only issued upward: the bound grows by exactly the merged documents. */
  lemma {:induction false} CommittedBound(cur: Index, prepared: seq<PreparedMerge>)
    requires prepared != []
    ensures IdBound(Committed(cur, prepared).segments) == IdBound(cur.segments) + DocCount(prepared)
  {
    RetainedBound(cur.segments, MergedIds(prepared));
    NewBound(prepared, cur.segments, cur.nextSegmentId, IdBound(cur.segments));
    BoundOfConcat(Retained(cur.segments, MergedIds(prepared)), NewSegments(prepared, cur.segments, cur.nextSegmentId, IdBound(cur.segments)));
  }

  ghost predicate AllValid(segments: seq<Segment>, nextId: nat) {
    forall s | s in segments :: ValidSegment(s) && s.id < nextId
  }

  lemma {:induction false} NewValid(prepared: seq<PreparedMerge>, snapshot: Index, groups: seq<seq<Segment>>, cur: Index)
    requires Batch(prepared, snapshot, groups, cur)
    ensures AllValid(NewSegments(prepared, cur.segments, cur.nextSegmentId, IdBound(cur.segments)), cur.nextSegmentId + |prepared|)
  {
    var news := NewSegments(prepared, cur.segments, cur.nextSegmentId, IdBound(cur.segments));
    NewOrdered(prepared, cur.segments, cur.nextSegmentId, IdBound(cur.segments));
    hide Ordered, DistinctIds, NewSegments, MergedSegment, ValidSegment, Current, AllPresent, DisjointSources;
    forall s | s in news
      ensures ValidSegment(s) && s.id < cur.nextSegmentId + |prepared|
    {
      var k :| 0 <= k < |news| && news[k] == s;
      NewAt(prepared, cur.segments, cur.nextSegmentId, IdBound(cur.segments), k);
      assert Current(prepared[k], snapshot, groups[k], cur);
      MergedValid(prepared[k], snapshot, groups[k], cur, cur.nextSegmentId + k, IdBound(cur.segments) + DocCount(prepared[..k]));
    }
  }

  lemma {:induction false} MergedValid(p: PreparedMerge, snapshot: Index, group: seq<Segment>, cur: Index, id: nat, base: DocId)
    requires Current(p, snapshot, group, cur)
    ensures ValidSegment(MergedSegment(p, cur.segments, id, base)) && MergedSegment(p, cur.segments, id, base).id == id
  {
    CarryInRange(p, snapshot, group, cur.segments);
  }

  lemma {:induction false} JoinSegments(a: seq<Segment>, b: seq<Segment>, bound: nat, firstId: nat, nextId: nat)
    requires Ordered(a) && Ordered(b) && DistinctIds(a) && DistinctIds(b) && AllValid(a, firstId) && AllValid(b, nextId) && firstId <= nextId
    requires forall s | s in a :: s.End() <= bound
    requires forall s | s in b :: s.base >= bound && s.id >= firstId
    ensures Ordered(a + b) && DistinctIds(a + b) && AllValid(a + b, nextId)
  {
    assert forall i | 0 <= i < |a| :: a[i] in a;
    assert forall i | 0 <= i < |b| :: b[i] in b;
  }

  /** A merge commit keeps the index well formed, and its entries come out sorted. */
  lemma {:induction false} MergeWellFormed(prepared: seq<PreparedMerge>, snapshot: Index, groups: seq<seq<Segment>>, cur: Index)
    requires WellFormed(cur) && Batch(prepared, snapshot, groups, cur)
    ensures WellFormed(Committed(cur, prepared)) && ByBase(Committed(cur, prepared).segments)
  {
    var kept := Retained(cur.segments, MergedIds(prepared));
    var news := NewSegments(prepared, cur.segments, cur.nextSegmentId, IdBound(cur.segments));
    KeptPart(cur, MergedIds(prepared));
    NewOrdered(prepared, cur.segments, cur.nextSegmentId, IdBound(cur.segments));
    NewValid(prepared, snapshot, groups, cur);
    NewAbove(prepared, cur);
    JoinSegments(kept, news, IdBound(cur.segments), cur.nextSegmentId, cur.nextSegmentId + |prepared|);
    CommittedBound(cur, prepared);
    WellFormedFrom(cur, Committed(cur, prepared));
  }

  lemma {:induction false} KeptPart(cur: Index, ids: set<nat>)
    requires WellFormed(cur)
    ensures Ordered(Retained(cur.segments, ids)) && DistinctIds(Retained(cur.segments, ids))
    ensures AllValid(Retained(cur.segments, ids), cur.nextSegmentId)
    ensures forall s | s in Retained(cur.segments, ids) :: s.End() <= IdBound(cur.segments)
  {
    RetainedFrom(cur.segments, ids);
    IdBoundAbove(cur.segments);
    forall s | s in Retained(cur.segments, ids)
      ensures ValidSegment(s) && s.id < cur.nextSegmentId && s.End() <= IdBound(cur.segments)
    {
      var i :| 0 <= i < |cur.segments| && cur.segments[i] == s;
    }
  }

  lemma {:induction false} NewAbove(prepared: seq<PreparedMerge>, cur: Index)
    ensures forall s | s in NewSegments(prepared, cur.segments, cur.nextSegmentId, IdBound(cur.segments)) ::
              s.base >= IdBound(cur.segments) && s.id >= cur.nextSegmentId
  {
    var news := NewSegments(prepared, cur.segments, cur.nextSegmentId, IdBound(cur.segments));
    NewOrdered(prepared, cur.segments, cur.nextSegmentId, IdBound(cur.segments));
    forall s | s in news
      ensures s.base >= IdBound(cur.segments) && s.id >= cur.nextSegmentId
    {
      var k :| 0 <= k < |news| && news[k] == s;
      NewAt(prepared, cur.segments, cur.nextSegmentId, IdBound(cur.segments), k);
    }
  }

  lemma {:induction false} WellFormedFrom(cur: Index, next: Index)
    requires WellFormed(cur) && next.overlay == cur.overlay && next.stateGen == cur.stateGen
    requires Ordered(next.segments) && DistinctIds(next.segments) && AllValid(next.segments, next.nextSegmentId)
    requires IdBound(next.segments) >= IdBound(cur.segments)
    ensures WellFormed(next) && ByBase(next.segments)
  {
    assert forall i | 0 <= i < |next.segments| :: next.segments[i] in next.segments;
    assert forall i, j | 0 <= i < j < |next.segments| :: next.segments[i].base <= next.segments[i].End() <= next.segments[j].base;
  }

  // ----- Where each live document goes -----

  function GroupOf(prepared: seq<PreparedMerge>, id: nat): Option<nat> {
    if prepared == [] then None
    else if id in prepared[|prepared| - 1].sourceIds then Some(|prepared| - 1)
    else GroupOf(prepared[..|prepared| - 1], id)
  }

  lemma {:induction false} GroupOfIs(prepared: seq<PreparedMerge>, id: nat)
    ensures match GroupOf(prepared, id)
            case Some(k) => k < |prepared| && id in prepared[k].sourceIds && id in MergedIds(prepared)
            case None => id !in MergedIds(prepared)
  {
    if prepared != [] {
      GroupOfIs(prepared[..|prepared| - 1], id);
      MergedIdsMore(prepared, |prepared| - 1);
      assert prepared[..|prepared| - 1 + 1] == prepared;
    }
  }

  /** The id a document has after the commit: its own, or a fresh one in the merged segment. */
  function Forward(cur: Index, prepared: seq<PreparedMerge>, id: DocId): DocId {
    match Locate(cur.segments, id)
    case None => id
    case Some((i, l)) => ForwardPlace(cur, prepared, cur.segments[i], l)
  }

  function ForwardPlace(cur: Index, prepared: seq<PreparedMerge>, s: Segment, l: nat): DocId {
    match GroupOf(prepared, s.id)
    case None => s.base + l
    case Some(k) =>
      GroupOfIs(prepared, s.id);
      IdBound(cur.segments) + DocCount(prepared[..k])
      + (if (s.id, l) in prepared[k].oldToNew then prepared[k].oldToNew[(s.id, l)] else 0)
  }

  lemma {:induction false} ForwardAt(cur: Index, prepared: seq<PreparedMerge>, s: Segment, l: nat)
    requires WellFormed(cur) && s in cur.segments && l < |s.docs|
    ensures Forward(cur, prepared, s.base + l) == ForwardPlace(cur, prepared, s, l)
  {
    var i :| 0 <= i < |cur.segments| && cur.segments[i] == s;
    LocateIff(cur.segments, s.base + l, i, l);
  }

  /** A live document of `ix`, by its segment. */
  ghost predicate LivesIn(ix: Index, s: Segment, l: nat) {
    s in ix.segments && Kept(s, l)
  }

  ghost predicate LivesSomewhere(ix: Index, id: DocId) {
    exists s, l: nat :: LivesIn(ix, s, l) && id == s.base + l
  }

  /** `live` is the live documents of `ix`, place by place. */
  ghost predicate Tabulates(ix: Index, live: map<DocId, Doc>) {
    && (forall s, l: nat | LivesIn(ix, s, l) :: s.base + l in live && live[s.base + l] == WithPatch(ix.overlay, s.base + l, s.docs[l]))
    && (forall id {:trigger LivesSomewhere(ix, id)} | id in live :: LivesSomewhere(ix, id))
  }

  lemma {:induction false} LiveTabulates(ix: Index)
    requires WellFormed(ix)
    ensures Tabulates(ix, Live(ix))
  {
    LiveIsPlaces(ix);
    PlacesTabulate(ix, Live(ix));
  }

  lemma {:induction false} PlacesTabulate(ix: Index, live: map<DocId, Doc>)
    requires Places(ix, live)
    ensures Tabulates(ix, live)
  {
    forall id {:trigger LivesSomewhere(ix, id)} | id in live
      ensures LivesSomewhere(ix, id)
    {
      assert LiveId(ix, id);
      var i: nat, l: nat :| LiveIn(ix, i, l) && id == ix.segments[i].base + l;
      assert LivesIn(ix, ix.segments[i], l);
    }
    forall s, l: nat | LivesIn(ix, s, l)
      ensures s.base + l in live && live[s.base + l] == WithPatch(ix.overlay, s.base + l, s.docs[l])
    {
      var i :| 0 <= i < |ix.segments| && ix.segments[i] == s;
      assert LiveIn(ix, i, l);
    }
  }

  lemma {:induction false} PlaceOf(ix: Index, live: map<DocId, Doc>, id: DocId) returns (s: Segment, l: nat)
    requires Tabulates(ix, live) && id in live
    ensures LivesIn(ix, s, l) && id == s.base + l && live[id] == WithPatch(ix.overlay, id, s.docs[l])
  {
    assert LivesSomewhere(ix, id);
    s, l :| LivesIn(ix, s, l) && id == s.base + l;
  }

  lemma {:induction false} PlaceIn(ix: Index, live: map<DocId, Doc>, s: Segment, l: nat)
    requires Tabulates(ix, live) && LivesIn(ix, s, l)
    ensures s.base + l in live && live[s.base + l] == WithPatch(ix.overlay, s.base + l, s.docs[l])
  {
  }

  // ----- Places forward and back -----

  lemma {:induction false} SourceIndex(p: PreparedMerge, snapshot: Index, group: seq<Segment>, cur: Index, s: Segment) returns (i: nat)
    requires Current(p, snapshot, group, cur) && s in cur.segments && s.id in p.sourceIds
    ensures i < |group| && group[i].id == s.id && Descends(group[i], s)
  {
    i :| 0 <= i < |p.sourceIds| && p.sourceIds[i] == s.id;
  }

  /** A live document of a source has a number, is not carried dead, and keeps its snapshot document. */
  lemma {:induction false} SurvivorForwards(p: PreparedMerge, snapshot: Index, group: seq<Segment>, cur: Index, s: Segment, l: nat)
    requires WellFormed(cur) && Current(p, snapshot, group, cur) && AllPresent(cur.segments, p.sourceIds)
    requires LivesIn(cur, s, l) && s.id in p.sourceIds
    ensures (s.id, l) in p.oldToNew && Kept(MergedSegment(p, cur.segments, 0, 0), p.oldToNew[(s.id, l)])
    ensures p.docs[p.oldToNew[(s.id, l)]] == WithPatch(snapshot.overlay, s.base + l, s.docs[l])
  {
    hide WellFormed, Current, AllPresent, PreparedFrom, Carry, NewId, WithPatch;
    var i := SourceIndex(p, snapshot, group, cur, s);
    assert Kept(group[i], l) && l !in s.deleted;
    CurrentPrepared(p, snapshot, group, cur);
    SurvivorPlaced(p, snapshot, group, i, l);
    CarryExact(p, snapshot, group, cur, i, l, s);
  }

  lemma {:induction false} CurrentPrepared(p: PreparedMerge, snapshot: Index, group: seq<Segment>, cur: Index)
    requires Current(p, snapshot, group, cur)
    ensures PreparedFrom(p, snapshot, group)
  {
  }

  lemma {:induction false} SurvivorPlaced(p: PreparedMerge, snapshot: Index, group: seq<Segment>, i: nat, l: nat)
    requires PreparedFrom(p, snapshot, group) && i < |group| && Kept(group[i], l)
    ensures (group[i].id, l) in p.oldToNew && p.oldToNew[(group[i].id, l)] == NewId(group, i, l) < |p.docs|
    ensures p.docs[NewId(group, i, l)] == WithPatch(snapshot.overlay, group[i].base + l, group[i].docs[l])
  {
    MergedAt(snapshot.overlay, group, i, l);
  }

  lemma {:induction false} SurvivorOrigin(p: PreparedMerge, snapshot: Index, group: seq<Segment>, cur: Index, n: nat)
    returns (s: Segment, l: nat)
    requires WellFormed(cur) && Current(p, snapshot, group, cur) && AllPresent(cur.segments, p.sourceIds)
    requires Kept(MergedSegment(p, cur.segments, 0, 0), n)
    ensures LivesIn(cur, s, l) && s.id in p.sourceIds
    ensures (s.id, l) in p.oldToNew && p.oldToNew[(s.id, l)] == n
  {
    MergedDocsLength(snapshot.overlay, group);
    var i, m := OriginOf(group, n);
    s := PresentSource(p, snapshot, group, cur, i);
    l := m;
    SurvivorPlaced(p, snapshot, group, i, l);
    CarryExact(p, snapshot, group, cur, i, l, s);
    assert p.sourceIds[i] == s.id;
  }

  /** The merged segment of group `k` in the committed index. */
  function MergedAs(cur: Index, prepared: seq<PreparedMerge>, k: nat): Segment
    requires k < |prepared|
  {
    MergedSegment(prepared[k], cur.segments, cur.nextSegmentId + k, IdBound(cur.segments) + DocCount(prepared[..k]))
  }

  lemma {:induction false} CommittedSegments(cur: Index, prepared: seq<PreparedMerge>, t: Segment)
    ensures t in Committed(cur, prepared).segments
            <==> (t in cur.segments && t.id !in MergedIds(prepared)) || exists k: nat :: k < |prepared| && t == MergedAs(cur, prepared, k)
  {
    RetainedFrom(cur.segments, MergedIds(prepared));
    var news := NewSegments(prepared, cur.segments, cur.nextSegmentId, IdBound(cur.segments));
    NewOrdered(prepared, cur.segments, cur.nextSegmentId, IdBound(cur.segments));
    forall k: nat | k < |prepared|
      ensures news[k] == MergedAs(cur, prepared, k)
    {
      NewAt(prepared, cur.segments, cur.nextSegmentId, IdBound(cur.segments), k);
    }
    if t in news {
      var k :| 0 <= k < |news| && news[k] == t;
      assert t == MergedAs(cur, prepared, k);
    }
    if k: nat :| k < |prepared| && t == MergedAs(cur, prepared, k) {
      assert news[k] in news;
    }
  }

  /** The place in the new index that a live place forwards to. */
  lemma {:induction false} PlaceForwards(prepared: seq<PreparedMerge>, snapshot: Index, groups: seq<seq<Segment>>, cur: Index, s: Segment, l: nat)
    returns (t: Segment, n: nat)
    requires WellFormed(cur) && Batch(prepared, snapshot, groups, cur) && LivesIn(cur, s, l)
    ensures LivesIn(Committed(cur, prepared), t, n) && t.base + n == ForwardPlace(cur, prepared, s, l)
    ensures t.docs[n].record == s.docs[l].record
    ensures if s.id in MergedIds(prepared)
            then t.docs[n] == WithPatch(snapshot.overlay, s.base + l, s.docs[l]) && t.base >= IdBound(cur.segments)
            else t == s && n == l
  {
    GroupOfIs(prepared, s.id);
    match GroupOf(prepared, s.id) {
      case None =>
        t, n := s, l;
        CommittedSegments(cur, prepared, t);
      case Some(k) =>
        SurvivorForwards(prepared[k], snapshot, groups[k], cur, s, l);
        t, n := MergedAs(cur, prepared, k), prepared[k].oldToNew[(s.id, l)];
        CommittedSegments(cur, prepared, t);
    }
  }

  /** Conversely, a live place of the new index comes from a live place of the old one. */
  lemma {:induction false} PlaceOrigin(prepared: seq<PreparedMerge>, snapshot: Index, groups: seq<seq<Segment>>, cur: Index, t: Segment, n: nat)
    returns (s: Segment, l: nat)
    requires WellFormed(cur) && Batch(prepared, snapshot, groups, cur) && LivesIn(Committed(cur, prepared), t, n)
    ensures LivesIn(cur, s, l) && ForwardPlace(cur, prepared, s, l) == t.base + n
  {
    CommittedSegments(cur, prepared, t);
    if t in cur.segments && t.id !in MergedIds(prepared) {
      s, l := t, n;
      GroupOfIs(prepared, s.id);
    } else {
      var k: nat :| k < |prepared| && t == MergedAs(cur, prepared, k);
      s, l := SurvivorOrigin(prepared[k], snapshot, groups[k], cur, n);
      GroupUnique(prepared, s.id, k);
    }
  }

  lemma {:induction false} GroupUnique(prepared: seq<PreparedMerge>, id: nat, k: nat)
    requires DisjointSources(prepared) && k < |prepared| && id in prepared[k].sourceIds
    ensures GroupOf(prepared, id) == Some(k)
  {
    GroupOfIs(prepared, id);
    assert id in MergedIds(prepared);
  }

  /** No two live places forward to one id. */
  lemma {:induction false} PlacesStayApart(prepared: seq<PreparedMerge>, snapshot: Index, groups: seq<seq<Segment>>, cur: Index,
                                           s: Segment, l: nat, s': Segment, l': nat)
    requires WellFormed(cur) && Batch(prepared, snapshot, groups, cur) && LivesIn(cur, s, l) && LivesIn(cur, s', l')
    requires ForwardPlace(cur, prepared, s, l) == ForwardPlace(cur, prepared, s', l')
    ensures s.base + l == s'.base + l'
  {
    GroupOfIs(prepared, s.id);
    GroupOfIs(prepared, s'.id);
    match (GroupOf(prepared, s.id), GroupOf(prepared, s'.id)) {
      case (None, None) =>
      case (None, Some(_)) => OldBelow(cur, s, l);
      case (Some(_), None) => OldBelow(cur, s', l');
      case (Some(g), Some(g')) =>
        SurvivorForwards(prepared[g], snapshot, groups[g], cur, s, l);
        SurvivorForwards(prepared[g'], snapshot, groups[g'], cur, s', l');
        SameGroup(cur, prepared, g, prepared[g].oldToNew[(s.id, l)], g', prepared[g'].oldToNew[(s'.id, l')]);
        NumbersApart(prepared[g], snapshot, groups[g], (s.id, l), (s'.id, l'));
        SameSegment(cur, s, s');
    }
  }

  lemma {:induction false} OldBelow(cur: Index, s: Segment, l: nat)
    requires LivesIn(cur, s, l)
    ensures s.base + l < IdBound(cur.segments)
  {
    IdBoundAbove(cur.segments);
    var i :| 0 <= i < |cur.segments| && cur.segments[i] == s;
  }

  lemma {:induction false} SameGroup(cur: Index, prepared: seq<PreparedMerge>, g: nat, n: nat, g': nat, n': nat)
    requires g < |prepared| && g' < |prepared| && n < |prepared[g].docs| && n' < |prepared[g'].docs|
    requires DocCount(prepared[..g]) + n == DocCount(prepared[..g']) + n'
    ensures g == g' && n == n'
  {
    if g < g' {
      DocCountMonotone(prepared, g, g');
    } else if g' < g {
      DocCountMonotone(prepared, g', g);
    }
  }

  lemma {:induction false} NumbersApart(p: PreparedMerge, snapshot: Index, group: seq<Segment>, a: Source, b: Source)
    requires PreparedFrom(p, snapshot, group) && a in p.oldToNew && b in p.oldToNew && p.oldToNew[a] == p.oldToNew[b]
    ensures a == b
  {
    assert Numbered(p.oldToNew, group, a) && Numbered(p.oldToNew, group, b);
    var i: nat :| i < |group| && a.0 == group[i].id && Kept(group[i], a.1) && p.oldToNew[a] == NewId(group, i, a.1);
    var j: nat :| j < |group| && b.0 == group[j].id && Kept(group[j], b.1) && p.oldToNew[b] == NewId(group, j, b.1);
    NewIdInjective(group, i, a.1, j, b.1);
  }

  // ----- The theorem -----

  /** `f` carries the live documents of `a` one-to-one onto those of `b`, contents included. */
  ghost predicate Renumbers(f: DocId -> DocId, a: map<DocId, Doc>, b: map<DocId, Doc>) {
    && (forall id {:trigger Keeps(f, a, b, id)} | id in a :: Keeps(f, a, b, id))
    && (forall x, y | x in a && y in a && f(x) == f(y) :: x == y)
    && (forall n {:trigger Hit(f, a, n)} | n in b :: Hit(f, a, n))
  }

  ghost predicate Keeps(f: DocId -> DocId, a: map<DocId, Doc>, b: map<DocId, Doc>, id: DocId)
    requires id in a
  {
    f(id) in b && b[f(id)].record == a[id].record
  }

  ghost predicate Hit(f: DocId -> DocId, a: map<DocId, Doc>, n: DocId) {
    exists id :: id in a && f(id) == n
  }

  ghost predicate FollowsPlaces(f: DocId -> DocId, cur: Index, prepared: seq<PreparedMerge>) {
    forall s, l: nat | LivesIn(cur, s, l) :: f(s.base + l) == ForwardPlace(cur, prepared, s, l)
  }

  lemma {:induction false} KeepsAt(cur: Index, next: Index, f: DocId -> DocId, a: map<DocId, Doc>, b: map<DocId, Doc>,
                                   s: Segment, l: nat, t: Segment, n: nat)
    requires Tabulates(cur, a) && Tabulates(next, b) && LivesIn(cur, s, l) && LivesIn(next, t, n)
    requires f(s.base + l) == t.base + n && t.docs[n].record == s.docs[l].record
    ensures s.base + l in a && Keeps(f, a, b, s.base + l)
  {
    PlaceIn(cur, a, s, l);
    PlaceIn(next, b, t, n);
  }

  lemma {:induction false} KeepsOne(prepared: seq<PreparedMerge>, snapshot: Index, groups: seq<seq<Segment>>, cur: Index,
                                    f: DocId -> DocId, a: map<DocId, Doc>, b: map<DocId, Doc>, id: DocId)
    requires WellFormed(cur) && Batch(prepared, snapshot, groups, cur) && FollowsPlaces(f, cur, prepared)
    requires Tabulates(cur, a) && Tabulates(Committed(cur, prepared), b) && id in a
    ensures Keeps(f, a, b, id)
  {
    hide Batch, WellFormed, Committed, Tabulates, Keeps;
    var s, l := PlaceOf(cur, a, id);
    var t, n := PlaceForwards(prepared, snapshot, groups, cur, s, l);
    KeepsAt(cur, Committed(cur, prepared), f, a, b, s, l, t, n);
  }

  lemma {:induction false} HitsOne(prepared: seq<PreparedMerge>, snapshot: Index, groups: seq<seq<Segment>>, cur: Index,
                                   f: DocId -> DocId, a: map<DocId, Doc>, b: map<DocId, Doc>, n: DocId)
    requires WellFormed(cur) && Batch(prepared, snapshot, groups, cur) && FollowsPlaces(f, cur, prepared)
    requires Tabulates(cur, a) && Tabulates(Committed(cur, prepared), b) && n in b
    ensures Hit(f, a, n)
  {
    hide Batch, WellFormed, Committed, Tabulates;
    var t, m := PlaceOf(Committed(cur, prepared), b, n);
    var s, l := PlaceOrigin(prepared, snapshot, groups, cur, t, m);
    PlaceIn(cur, a, s, l);
    assert f(s.base + l) == n;
  }

  lemma {:induction false} ApartOne(prepared: seq<PreparedMerge>, snapshot: Index, groups: seq<seq<Segment>>, cur: Index,
                                    f: DocId -> DocId, a: map<DocId, Doc>, x: DocId, y: DocId)
    requires WellFormed(cur) && Batch(prepared, snapshot, groups, cur) && FollowsPlaces(f, cur, prepared)
    requires Tabulates(cur, a) && x in a && y in a && f(x) == f(y)
    ensures x == y
  {
    hide Batch, WellFormed, Tabulates;
    var s, l := PlaceOf(cur, a, x);
    var s', l' := PlaceOf(cur, a, y);
    assert f(x) == ForwardPlace(cur, prepared, s, l) && f(y) == ForwardPlace(cur, prepared, s', l');
    PlacesStayApart(prepared, snapshot, groups, cur, s, l, s', l');
  }

  /**
   The committed index holds exactly the documents live just before the commit,
   each with its content and postings, under one id each.
   */
  lemma {:induction false} MergePreserves(prepared: seq<PreparedMerge>, snapshot: Index, groups: seq<seq<Segment>>, cur: Index)
    requires WellFormed(cur) && Batch(prepared, snapshot, groups, cur)
    ensures Renumbers(id => Forward(cur, prepared, id), Live(cur), Live(Committed(cur, prepared)))
  {
    var f := (id: DocId) => Forward(cur, prepared, id);
    MergeWellFormed(prepared, snapshot, groups, cur);
    LiveTabulates(cur);
    LiveTabulates(Committed(cur, prepared));
    ForwardFollows(cur, prepared, f);
    MergePreservesBy(prepared, snapshot, groups, cur, f, Live(cur), Live(Committed(cur, prepared)));
  }

  lemma {:induction false} ForwardFollows(cur: Index, prepared: seq<PreparedMerge>, f: DocId -> DocId)
    requires WellFormed(cur) && forall id :: f(id) == Forward(cur, prepared, id)
    ensures FollowsPlaces(f, cur, prepared)
  {
    forall s, l: nat | LivesIn(cur, s, l)
      ensures f(s.base + l) == ForwardPlace(cur, prepared, s, l)
    {
      ForwardAt(cur, prepared, s, l);
    }
  }

  lemma {:induction false} MergePreservesBy(prepared: seq<PreparedMerge>, snapshot: Index, groups: seq<seq<Segment>>, cur: Index,
                                            f: DocId -> DocId, a: map<DocId, Doc>, b: map<DocId, Doc>)
    requires WellFormed(cur) && Batch(prepared, snapshot, groups, cur) && FollowsPlaces(f, cur, prepared)
    requires Tabulates(cur, a) && Tabulates(Committed(cur, prepared), b)
    ensures Renumbers(f, a, b)
  {
    forall id {:trigger Keeps(f, a, b, id)} | id in a
      ensures Keeps(f, a, b, id)
    {
      KeepsOne(prepared, snapshot, groups, cur, f, a, b, id);
    }
    forall x, y | x in a && y in a && f(x) == f(y)
      ensures x == y
    {
      ApartOne(prepared, snapshot, groups, cur, f, a, x, y);
    }
    forall n {:trigger Hit(f, a, n)} | n in b
      ensures Hit(f, a, n)
    {
      HitsOne(prepared, snapshot, groups, cur, f, a, b, n);
    }
  }

  // ----- Metadata -----

  /** Patches of the snapshot on documents still live in a source are still in the overlay. */
  ghost predicate PatchesPersist(snapshot: Index, group: seq<Segment>, cur: Index) {
    forall i, s, l: nat | 0 <= i < |group| && LivesIn(cur, s, l) && s.id == group[i].id && s.base + l in snapshot.overlay ::
      s.base + l in cur.overlay
  }

  /** A patch for this document landed after the snapshot and differs from what the snapshot showed. */
  predicate PatchedSince(snapshot: Index, cur: Index, s: Segment, l: nat)
    requires l < |s.docs|
  {
    s.base + l in cur.overlay && cur.overlay[s.base + l] != WithPatch(snapshot.overlay, s.base + l, s.docs[l]).meta
  }

  /**
   Only deletions are carried forward: a merged document keeps its current path
   and metadata exactly when no differing patch landed on it since the snapshot.
   */
  lemma {:induction false} MetadataKeptIff(prepared: seq<PreparedMerge>, snapshot: Index, groups: seq<seq<Segment>>, cur: Index,
                                           s: Segment, l: nat)
    requires WellFormed(cur) && Batch(prepared, snapshot, groups, cur) && LivesIn(cur, s, l)
    requires forall k | 0 <= k < |groups| :: PatchesPersist(snapshot, groups[k], cur)
    ensures s.base + l in Live(cur) && Forward(cur, prepared, s.base + l) in Live(Committed(cur, prepared))
    ensures Live(Committed(cur, prepared))[Forward(cur, prepared, s.base + l)] == Live(cur)[s.base + l]
            <==> s.id !in MergedIds(prepared) || !PatchedSince(snapshot, cur, s, l)
  {
    MergeWellFormed(prepared, snapshot, groups, cur);
    LiveTabulates(cur);
    LiveTabulates(Committed(cur, prepared));
    ForwardAt(cur, prepared, s, l);
    if s.id in MergedIds(prepared) {
      SourcePersists(prepared, snapshot, groups, cur, s, l);
    }
    MetadataBy(prepared, snapshot, groups, cur, s, l, Forward(cur, prepared, s.base + l), Live(cur), Live(Committed(cur, prepared)));
  }

  lemma {:induction false} MetadataBy(prepared: seq<PreparedMerge>, snapshot: Index, groups: seq<seq<Segment>>, cur: Index,
                                      s: Segment, l: nat, id: DocId, a: map<DocId, Doc>, b: map<DocId, Doc>)
    requires WellFormed(cur) && Batch(prepared, snapshot, groups, cur) && LivesIn(cur, s, l)
    requires id == ForwardPlace(cur, prepared, s, l)
    requires s.id in MergedIds(prepared) && s.base + l in snapshot.overlay ==> s.base + l in cur.overlay
    requires Tabulates(cur, a) && Tabulates(Committed(cur, prepared), b)
    ensures s.base + l in a && id in b
    ensures b[id] == a[s.base + l] <==> s.id !in MergedIds(prepared) || !PatchedSince(snapshot, cur, s, l)
  {
    var t, n := PlaceForwards(prepared, snapshot, groups, cur, s, l);
    assert t.base + n == id;
    MetadataAt(snapshot, cur, Committed(cur, prepared), s, l, t, n, id, a, b, s.id in MergedIds(prepared));
  }

  lemma {:induction false} MetadataAt(snapshot: Index, cur: Index, next: Index, s: Segment, l: nat, t: Segment, n: nat,
                                      id: DocId, a: map<DocId, Doc>, b: map<DocId, Doc>, merged: bool)
    requires id == t.base + n
    requires WellFormed(cur) && next.overlay == cur.overlay && LivesIn(cur, s, l) && LivesIn(next, t, n)
    requires Tabulates(cur, a) && Tabulates(next, b)
    requires if merged
             then t.docs[n] == WithPatch(snapshot.overlay, s.base + l, s.docs[l]) && t.base >= IdBound(cur.segments)
                  && (s.base + l in snapshot.overlay ==> s.base + l in cur.overlay)
             else t == s && n == l
    ensures s.base + l in a && id in b
    ensures b[id] == a[s.base + l] <==> !merged || !PatchedSince(snapshot, cur, s, l)
  {
    PlaceIn(cur, a, s, l);
    PlaceIn(next, b, t, n);
    if merged {
      MergedMeta(snapshot, cur, s, l, t, n);
    }
  }

  lemma {:induction false} SourcePersists(prepared: seq<PreparedMerge>, snapshot: Index, groups: seq<seq<Segment>>, cur: Index, s: Segment, l: nat)
    requires Batch(prepared, snapshot, groups, cur) && LivesIn(cur, s, l) && s.id in MergedIds(prepared)
    requires forall k | 0 <= k < |groups| :: PatchesPersist(snapshot, groups[k], cur)
    ensures s.base + l in snapshot.overlay ==> s.base + l in cur.overlay
  {
    var k, id :| 0 <= k < |prepared| && id in prepared[k].sourceIds && id == s.id;
    assert Current(prepared[k], snapshot, groups[k], cur);
    var i := SourceIndex(prepared[k], snapshot, groups[k], cur, s);
    assert PatchesPersist(snapshot, groups[k], cur);
  }

  lemma {:induction false} MergedMeta(snapshot: Index, cur: Index, s: Segment, l: nat, t: Segment, n: nat)
    requires WellFormed(cur) && l < |s.docs| && n < |t.docs|
    requires t.docs[n] == WithPatch(snapshot.overlay, s.base + l, s.docs[l]) && t.base >= IdBound(cur.segments)
    requires s.base + l in snapshot.overlay ==> s.base + l in cur.overlay
    ensures WithPatch(cur.overlay, t.base + n, t.docs[n]) == WithPatch(cur.overlay, s.base + l, s.docs[l])
            <==> !PatchedSince(snapshot, cur, s, l)
  {
    assert t.base + n !in cur.overlay;
  }
}
