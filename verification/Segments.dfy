/**
 The committed index seen through its manifest: segments owning disjoint
 ascending id ranges, tombstones, and the overlay (src/store/reader.rs).
 */
module Segments {
  import opened Wrappers
  import opened Documents
  import opened Postings

  /** One segment: immutable documents, and the tombstones of deletion generation `delGen`. */
  datatype Segment = Segment(id: nat, base: DocId, docs: seq<Doc>, deleted: set<nat>, delGen: nat) {
    function End(): nat { base + |docs| }
  }

  datatype Index = Index(
    segments: seq<Segment>,
    overlay: map<DocId, Meta>,
    nextSegmentId: nat,
    stateGen: nat,
    generation: nat)

  // ----- Well-formed indexes -----

  ghost predicate Ordered(segments: seq<Segment>) {
    forall i, j | 0 <= i < j < |segments| :: segments[i].End() <= segments[j].base
  }

  ghost predicate ValidSegment(s: Segment) {
    && (forall l | l in s.deleted :: l < |s.docs|)
    && (s.delGen == 0 <==> s.deleted == {})
  }

  ghost predicate DistinctIds(segments: seq<Segment>) {
    forall i, j | 0 <= i < j < |segments| :: segments[i].id != segments[j].id
  }

  ghost predicate WellFormed(ix: Index) {
    && Ordered(ix.segments) && DistinctIds(ix.segments)
    && (forall i | 0 <= i < |ix.segments| :: ValidSegment(ix.segments[i]) && ix.segments[i].id < ix.nextSegmentId)
    && (forall id | id in ix.overlay :: id < IdBound(ix.segments))
    && (ix.stateGen == 0 <==> ix.overlay == map[])
  }

  /** One past the highest id of any segment. */
  function IdBound(segments: seq<Segment>): nat {
    if segments == [] then 0
    else
      var before, last := IdBound(segments[..|segments| - 1]), segments[|segments| - 1].End();
      if before > last then before else last
  }

  lemma {:induction false} IdBoundAbove(segments: seq<Segment>)
    ensures forall i | 0 <= i < |segments| :: segments[i].End() <= IdBound(segments)
  {
    if segments != [] {
      IdBoundAbove(segments[..|segments| - 1]);
    }
  }

  // ----- Locating -----

  /** First segment from `from` on whose range ends after `id`. */
  function FirstEndingAfter(segments: seq<Segment>, from: nat, id: DocId): (i: nat)
    requires from <= |segments|
    ensures from <= i <= |segments|
    decreases |segments| - from
  {
    if from == |segments| || segments[from].End() > id then from else FirstEndingAfter(segments, from + 1, id)
  }

  /** Segment holding `id` and the local id in it; none for gaps. */
  function Locate(segments: seq<Segment>, id: DocId): Option<(nat, nat)> {
    var i := FirstEndingAfter(segments, 0, id);
    if i < |segments| && segments[i].base <= id then Some((i, id - segments[i].base)) else None
  }

  lemma {:induction false} FirstEndingAfterIs(segments: seq<Segment>, from: nat, id: DocId, i: nat)
    requires Ordered(segments) && from <= i < |segments| && segments[i].base <= id < segments[i].End()
    ensures FirstEndingAfter(segments, from, id) == i
    decreases i - from
  {
    if from < i {
      FirstEndingAfterIs(segments, from + 1, id, i);
    }
  }

  lemma {:induction false} FirstEndingAfterEnds(segments: seq<Segment>, from: nat, id: DocId)
    requires from <= |segments|
    ensures var i := FirstEndingAfter(segments, from, id); i < |segments| ==> segments[i].End() > id
    decreases |segments| - from
  {
    if from < |segments| && segments[from].End() <= id {
      FirstEndingAfterEnds(segments, from + 1, id);
    }
  }

  /** Over ordered segments, locating finds the one segment that owns the id. */
  lemma {:induction false} LocateIff(segments: seq<Segment>, id: DocId, i: nat, l: nat)
    requires Ordered(segments)
    ensures Locate(segments, id) == Some((i, l))
            <==> i < |segments| && l < |segments[i].docs| && id == segments[i].base + l
  {
    FirstEndingAfterEnds(segments, 0, id);
    if i < |segments| && l < |segments[i].docs| && id == segments[i].base + l {
      FirstEndingAfterIs(segments, 0, id, i);
    }
  }

  // ----- Live documents -----

  function WithPatch(overlay: map<DocId, Meta>, id: DocId, d: Doc): Doc {
    if id in overlay then Doc(overlay[id], d.record) else d
  }

  /** The document under a global id, overlay applied; none for gaps and tombstones. */
  function DocAt(ix: Index, id: DocId): Option<Doc> {
    match Locate(ix.segments, id)
    case None => None
    case Some((i, l)) =>
      FirstEndingAfterEnds(ix.segments, 0, id);
      if l in ix.segments[i].deleted then None else Some(WithPatch(ix.overlay, id, ix.segments[i].docs[l]))
  }

  /** Every live document. */
  function Live(ix: Index): map<DocId, Doc> {
    map id: DocId | id < IdBound(ix.segments) && DocAt(ix, id).Some? :: DocAt(ix, id).value
  }

  ghost predicate LiveIn(ix: Index, i: nat, l: nat) {
    i < |ix.segments| && l < |ix.segments[i].docs| && l !in ix.segments[i].deleted
  }

  ghost predicate LiveId(ix: Index, id: DocId) {
    exists i: nat, l: nat :: LiveIn(ix, i, l) && id == ix.segments[i].base + l
  }

  /** `live` maps exactly the ids of non-deleted locals, each to its patched document. */
  ghost predicate Places(ix: Index, live: map<DocId, Doc>) {
    && (forall i: nat, l: nat | LiveIn(ix, i, l) ::
          var id := ix.segments[i].base + l; id in live && live[id] == WithPatch(ix.overlay, id, ix.segments[i].docs[l]))
    && (forall id {:trigger LiveId(ix, id)} | id in live :: LiveId(ix, id))
  }

  /** The ids live through the reader are exactly the non-deleted locals of the segments that own them. */
  lemma {:induction false} LiveIsPlaces(ix: Index)
    requires WellFormed(ix)
    ensures Places(ix, Live(ix))
  {
    hide WellFormed, Live, LiveId;
    forall id {:trigger LiveId(ix, id)} | id in Live(ix)
      ensures LiveId(ix, id)
    {
      LiveHasPlace(ix, id);
    }
    forall i: nat, l: nat | LiveIn(ix, i, l)
      ensures var id := ix.segments[i].base + l; id in Live(ix) && Live(ix)[id] == WithPatch(ix.overlay, id, ix.segments[i].docs[l])
    {
      PlaceIsLive(ix, i, l);
    }
  }

  lemma {:induction false} LiveHasPlace(ix: Index, id: DocId)
    requires WellFormed(ix) && id in Live(ix)
    ensures LiveId(ix, id)
  {
    var (i, l) := Locate(ix.segments, id).value;
    LocateIff(ix.segments, id, i, l);
    assert LiveIn(ix, i, l);
  }

  lemma {:induction false} PlaceIsLive(ix: Index, i: nat, l: nat)
    requires WellFormed(ix) && LiveIn(ix, i, l)
    ensures var id := ix.segments[i].base + l; id in Live(ix) && Live(ix)[id] == WithPatch(ix.overlay, id, ix.segments[i].docs[l])
  {
    IdBoundAbove(ix.segments);
    LocateIff(ix.segments, ix.segments[i].base + l, i, l);
  }

  lemma {:induction false} PlacesUnique(ix: Index, a: map<DocId, Doc>, b: map<DocId, Doc>)
    requires Places(ix, a) && Places(ix, b)
    ensures a == b
  {
    forall id | id in a
      ensures id in b && a[id] == b[id]
    {
      assert LiveId(ix, id);
    }
    forall id | id in b
      ensures id in a
    {
      assert LiveId(ix, id);
    }
  }
}
