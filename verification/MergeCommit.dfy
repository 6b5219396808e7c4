/**
 Committing a merge (src/store/merge.rs): under the lock, deletions that landed
 since the snapshot are carried forward, ids are allocated, sources retired.
 */
module MergeCommit {
  import opened Wrappers
  import opened Documents
  import opened Postings
  import opened Segments
  import opened MergePrepare

  datatype MergeError = SourceMissing(id: nat)

  // ----- Carry-forward -----

  function FindSegment(segments: seq<Segment>, id: nat): Option<Segment> {
    if segments == [] then None
    else if segments[0].id == id then Some(segments[0]) else FindSegment(segments[1..], id)
  }

  lemma {:induction false} FindSegmentIs(segments: seq<Segment>, i: nat)
    requires DistinctIds(segments) && i < |segments|
    ensures FindSegment(segments, segments[i].id) == Some(segments[i])
  {
    if i > 0 {
      assert segments[0].id != segments[i].id;
      assert segments[1..][i - 1] == segments[i];
      FindSegmentIs(segments[1..], i - 1);
    }
  }

  lemma {:induction false} FindSegmentFinds(segments: seq<Segment>, id: nat)
    ensures match FindSegment(segments, id)
            case Some(s) => s in segments && s.id == id
            case None => forall i | 0 <= i < |segments| :: segments[i].id != id
  {
    if segments != [] && segments[0].id != id {
      FindSegmentFinds(segments[1..], id);
      assert segments == [segments[0]] + segments[1..];
    }
  }

  /** Carried over from source `id`: survivors deleted there since, under their new ids. */
  function CarriedFrom(p: PreparedMerge, segments: seq<Segment>, id: nat): set<nat> {
    match FindSegment(segments, id)
    case None => {}
    case Some(s) =>
      if id in p.snapshotDelGen && s.delGen == p.snapshotDelGen[id] then {}
      else set key | key in p.oldToNew && key.0 == id && key.1 in s.deleted :: p.oldToNew[key]
  }

  function Carry(p: PreparedMerge, segments: seq<Segment>, ids: seq<nat>): set<nat> {
    if ids == [] then {}
    else Carry(p, segments, ids[..|ids| - 1]) + CarriedFrom(p, segments, ids[|ids| - 1])
  }

  function MergedSegment(p: PreparedMerge, segments: seq<Segment>, id: nat, base: DocId): Segment {
    var carry := Carry(p, segments, p.sourceIds);
    Segment(id, base, p.docs, carry, if carry == {} then 0 else 1)
  }

  /** Allocate the id, compute the carry-forward bitmap, name the new segment. */
  method FinishOne(p: PreparedMerge, segments: seq<Segment>, id: nat, base: DocId) returns (s: Segment)
    ensures s == MergedSegment(p, segments, id, base)
    ensures s.id == id && s.base == base && s.docs == p.docs && s.delGen == if s.deleted == {} then 0 else 1
  {
    var carry: set<nat> := {};
    for k := 0 to |p.sourceIds|
      invariant carry == Carry(p, segments, p.sourceIds[..k])
    {
      assert p.sourceIds[..k + 1][..k] == p.sourceIds[..k];
      var current := FindSegment(segments, p.sourceIds[k]);
      if current.Some? && !(p.sourceIds[k] in p.snapshotDelGen && current.value.delGen == p.snapshotDelGen[p.sourceIds[k]]) {
        var keys := p.oldToNew.Keys;
        ghost var done: set<Source> := {};
        while keys != {}
          invariant keys <= p.oldToNew.Keys && done == p.oldToNew.Keys - keys
          invariant carry == Carry(p, segments, p.sourceIds[..k])
                    + set key | key in done && key.0 == p.sourceIds[k] && key.1 in current.value.deleted :: p.oldToNew[key]
          decreases keys
        {
          var key :| key in keys;
          if key.0 == p.sourceIds[k] && key.1 in current.value.deleted {
            carry := carry + {p.oldToNew[key]};
          }
          keys, done := keys - {key}, done + {key};
        }
        assert done == p.oldToNew.Keys;
      }
    }
    assert p.sourceIds[..|p.sourceIds|] == p.sourceIds;
    s := Segment(id, base, p.docs, carry, if carry == {} then 0 else 1);
  }

  // ----- The commit -----

  /** New segments follow each other from `base`, ids from `firstId`. */
  function NewSegments(prepared: seq<PreparedMerge>, segments: seq<Segment>, firstId: nat, base: DocId): seq<Segment> {
    if prepared == [] then []
    else
      var n := |prepared| - 1;
      NewSegments(prepared[..n], segments, firstId, base)
      + [MergedSegment(prepared[n], segments, firstId + n, base + DocCount(prepared[..n]))]
  }

  function DocCount(prepared: seq<PreparedMerge>): nat {
    if prepared == [] then 0 else DocCount(prepared[..|prepared| - 1]) + |prepared[|prepared| - 1].docs|
  }

  function MergedIds(prepared: seq<PreparedMerge>): set<nat> {
    set k, id | 0 <= k < |prepared| && id in prepared[k].sourceIds :: id
  }

  function Retained(segments: seq<Segment>, ids: set<nat>): seq<Segment> {
    if segments == [] then []
    else
      var n := |segments| - 1;
      Retained(segments[..n], ids) + (if segments[n].id in ids then [] else [segments[n]])
  }

  predicate HasSegment(segments: seq<Segment>, id: nat) {
    exists i :: 0 <= i < |segments| && segments[i].id == id
  }

  predicate AllPresent(segments: seq<Segment>, ids: seq<nat>) {
    forall k | 0 <= k < |ids| :: HasSegment(segments, ids[k])
  }

  function Committed(cur: Index, prepared: seq<PreparedMerge>): Index {
    cur.(segments := Retained(cur.segments, MergedIds(prepared))
                     + NewSegments(prepared, cur.segments, cur.nextSegmentId, IdBound(cur.segments)),
         nextSegmentId := cur.nextSegmentId + |prepared|,
         generation := cur.generation + 1)
  }

  method CommitMerges(cur: Index, prepared: seq<PreparedMerge>) returns (r: Result<Index, MergeError>)
    requires prepared != []
    ensures r.Success? <==> forall k | 0 <= k < |prepared| :: AllPresent(cur.segments, prepared[k].sourceIds)
    ensures r.Success? && ByBase(Committed(cur, prepared).segments) ==> r.value == Committed(cur, prepared)
  {
    hide NewSegments, DocCount, MergedIds, MergedSegment;
    NothingMerged(cur);
    var newEntries: seq<Segment> := [];
    var nextId := cur.nextSegmentId;
    var nextBase := IdBound(cur.segments);
    var mergedIds: set<nat> := {};
    for k := 0 to |prepared|
      invariant forall j | 0 <= j < k :: AllPresent(cur.segments, prepared[j].sourceIds)
      invariant newEntries == NewSegments(prepared[..k], cur.segments, cur.nextSegmentId, IdBound(cur.segments))
      invariant nextId == cur.nextSegmentId + k && nextBase == IdBound(cur.segments) + DocCount(prepared[..k])
      invariant mergedIds == MergedIds(prepared[..k])
    {
      var p := prepared[k];
      for j := 0 to |p.sourceIds|
        invariant forall m | 0 <= m < j :: HasSegment(cur.segments, p.sourceIds[m])
      {
        if !HasSegment(cur.segments, p.sourceIds[j]) {
          assert !AllPresent(cur.segments, prepared[k].sourceIds);
          return Failure(SourceMissing(p.sourceIds[j]));
        }
      }
      OneMore(prepared, cur, k);
      var entry := FinishOne(p, cur.segments, nextId, nextBase);
      newEntries := newEntries + [entry];
      nextId, nextBase := nextId + 1, nextBase + |entry.docs|;
      MergedIdsMore(prepared, k);
      mergedIds := mergedIds + (set id | id in p.sourceIds);
    }
    assert prepared[..|prepared|] == prepared;
    var kept := Retain(cur.segments, mergedIds);
    var segments := SortByBase(kept + newEntries);
    r := Success(cur.(segments := segments, nextSegmentId := nextId, generation := cur.generation + 1));
  }

  lemma {:induction false} NothingMerged(cur: Index)
    ensures NewSegments([], cur.segments, cur.nextSegmentId, IdBound(cur.segments)) == [] && DocCount([]) == 0 && MergedIds([]) == {}
  {
  }

  lemma {:induction false} OneMore(prepared: seq<PreparedMerge>, cur: Index, k: nat)
    requires k < |prepared|
    ensures NewSegments(prepared[..k + 1], cur.segments, cur.nextSegmentId, IdBound(cur.segments))
         == NewSegments(prepared[..k], cur.segments, cur.nextSegmentId, IdBound(cur.segments))
            + [MergedSegment(prepared[k], cur.segments, cur.nextSegmentId + k, IdBound(cur.segments) + DocCount(prepared[..k]))]
    ensures DocCount(prepared[..k + 1]) == DocCount(prepared[..k]) + |prepared[k].docs|
    ensures MergedSegment(prepared[k], cur.segments, cur.nextSegmentId + k, IdBound(cur.segments) + DocCount(prepared[..k])).docs == prepared[k].docs
  {
    assert prepared[..k + 1][..k] == prepared[..k];
  }

  lemma {:induction false} MergedIdsMore(prepared: seq<PreparedMerge>, k: nat)
    requires k < |prepared|
    ensures MergedIds(prepared[..k + 1]) == MergedIds(prepared[..k]) + (set id | id in prepared[k].sourceIds)
  {
    var a, b := prepared[..k], prepared[..k + 1];
    forall id | id in MergedIds(a)
      ensures id in MergedIds(b)
    {
      var j :| 0 <= j < |a| && id in a[j].sourceIds;
      assert b[j] == a[j];
    }
    assert b[k] == prepared[k];
  }

  method Retain(segments: seq<Segment>, ids: set<nat>) returns (kept: seq<Segment>)
    ensures kept == Retained(segments, ids)
  {
    kept := [];
    for k := 0 to |segments|
      invariant kept == Retained(segments[..k], ids)
    {
      assert segments[..k + 1][..k] == segments[..k];
      if segments[k].id !in ids {
        kept := kept + [segments[k]];
      }
    }
    assert segments[..|segments|] == segments;
  }

  // ----- Sorting by base -----

  ghost predicate ByBase(segments: seq<Segment>) {
    forall i, j | 0 <= i < j < |segments| :: segments[i].base <= segments[j].base
  }

  /** Where a stable sort puts the next segment: after every base not greater. */
  method InsertionPoint(sorted: seq<Segment>, base: DocId) returns (i: nat)
    requires ByBase(sorted)
    ensures i <= |sorted|
    ensures forall j | 0 <= j < i :: sorted[j].base <= base
    ensures forall j | i <= j < |sorted| :: sorted[j].base > base
  {
    i := |sorted|;
    while i > 0 && sorted[i - 1].base > base
      invariant i <= |sorted|
      invariant forall j | i <= j < |sorted| :: sorted[j].base > base
    {
      i := i - 1;
    }
  }

  function Inserted(sorted: seq<Segment>, i: nat, s: Segment): seq<Segment>
    requires i <= |sorted|
  {
    sorted[..i] + [s] + sorted[i..]
  }

  lemma {:induction false} InsertedKeeps(sorted: seq<Segment>, i: nat, s: Segment)
    requires i <= |sorted| && ByBase(sorted)
    requires forall j | 0 <= j < i :: sorted[j].base <= s.base
    requires forall j | i <= j < |sorted| :: sorted[j].base > s.base
    ensures ByBase(Inserted(sorted, i, s))
  {
  }

  lemma {:induction false} InsertedContents(sorted: seq<Segment>, i: nat, s: Segment)
    requires i <= |sorted|
    ensures multiset(Inserted(sorted, i, s)) == multiset(sorted) + multiset{s}
  {
    assert sorted == sorted[..i] + sorted[i..];
  }

  method InsertByBase(sorted: seq<Segment>, s: Segment) returns (more: seq<Segment>)
    requires ByBase(sorted)
    ensures ByBase(more) && multiset(more) == multiset(sorted) + multiset{s}
    ensures NoneAbove(sorted, s.base) ==> more == sorted + [s]
  {
    var i := InsertionPoint(sorted, s.base);
    InsertedKeeps(sorted, i, s);
    InsertedContents(sorted, i, s);
    more := Inserted(sorted, i, s);
  }

  ghost predicate NoneAbove(segments: seq<Segment>, base: DocId) {
    forall j | 0 <= j < |segments| :: segments[j].base <= base
  }

  /** A stable sort; input already in order comes back as it is. */
  method SortByBase(segments: seq<Segment>) returns (sorted: seq<Segment>)
    ensures ByBase(sorted) && multiset(sorted) == multiset(segments)
    ensures ByBase(segments) ==> sorted == segments
  {
    sorted := [];
    for k := 0 to |segments|
      invariant ByBase(sorted) && multiset(sorted) == multiset(segments[..k])
      invariant ByBase(segments) ==> sorted == segments[..k]
    {
      assert segments[..k + 1] == segments[..k] + [segments[k]];
      sorted := InsertByBase(sorted, segments[k]);
    }
    assert segments[..|segments|] == segments;
  }
}
