/**
 Every manifest a build, an update or a merge commits passes the decoder's
 checks; and where an unstable sort of its entries would not
 (src/format/manifest.rs, src/store/writer.rs, src/store/merge.rs).
 */
module CommittedManifests {
  import opened Wrappers
  import opened Documents
  import opened Postings
  import opened Segments
  import Files
  import opened Build
  import opened Reconcile
  import opened Convergence
  import opened Update
  import opened MergePrepare
  import opened MergeCommit
  import opened MergeRuns
  import opened Bytes
  import opened Fields
  import opened ManifestFile

  /** Lengths, checksums and counts of a segment's files. */
  datatype FileFacts = FileFacts(idxCrc: nat, docCrc: nat, delCrc: nat, idxLen: nat, docLen: nat, delLen: nat, tokens: nat, postings: nat, terms: nat)

  datatype OverlayFacts = OverlayFacts(crc: nat, len: nat)

  /** A segment's entry: no deletions file, no length for one. */
  function EntryFor(s: Segment, f: FileFacts): SegmentEntry {
    SegmentEntry(s.id, s.delGen, s.base, |s.docs|, |s.deleted|, f.idxCrc, f.docCrc, if s.delGen == 0 then 0 else f.delCrc,
                 f.idxLen, f.docLen, if s.delGen == 0 then 0 else f.delLen, f.tokens, f.postings, f.terms)
  }

  function EntriesFor(segments: seq<Segment>, facts: Segment -> FileFacts): (e: seq<SegmentEntry>)
    ensures |e| == |segments|
  {
    seq(|segments|, k requires 0 <= k < |segments| => EntryFor(segments[k], facts(segments[k])))
  }

  function ManifestOf(ix: Index, time: i64, facts: Segment -> FileFacts, overlay: OverlayFacts): Manifest {
    Manifest(ix.generation, ix.nextSegmentId, time, ix.stateGen, if ix.stateGen == 0 then 0 else overlay.crc,
             if ix.stateGen == 0 then 0 else overlay.len, EntriesFor(ix.segments, facts))
  }

  /** A deletions or overlay file that exists is not empty. */
  ghost predicate SealedFiles(ix: Index, facts: Segment -> FileFacts, overlay: OverlayFacts) {
    overlay.len > 0 && forall s | s in ix.segments :: facts(s).delLen > 0
  }

  lemma {:induction false} SubsetSize(a: set<nat>, n: nat)
    requires forall x | x in a :: x < n
    ensures |a| <= n
  {
    if n == 0 {
      assert a == {};
    } else {
      SubsetSize(a - {n - 1}, n - 1);
      assert a <= (a - {n - 1}) + {n - 1};
      if n - 1 !in a {
        assert a - {n - 1} == a;
      }
    }
  }

  /** The manifest of a well-formed index within the id space passes every check. */
  lemma {:induction false} WellFormedIsSound(ix: Index, time: i64, facts: Segment -> FileFacts, overlay: OverlayFacts)
    requires WellFormed(ix) && IdBound(ix.segments) <= U32 && SealedFiles(ix, facts, overlay)
    ensures Sound(ManifestOf(ix, time, facts, overlay))
  {
    IdBoundAbove(ix.segments);
    var m := ManifestOf(ix, time, facts, overlay);
    forall k | 0 <= k < |m.segments|
      ensures EntrySound(m.segments[k], m.nextSegmentId)
    {
      var s := ix.segments[k];
      assert ValidSegment(s) && s in ix.segments && s.End() <= U32;
      SubsetSize(s.deleted, |s.docs|);
    }
    forall k: nat | 0 < k < |m.segments|
      ensures Follows(m.segments[k - 1], m.segments[k])
    {
      assert ix.segments[k - 1].End() <= ix.segments[k].base && ix.segments[k - 1].id != ix.segments[k].id;
    }
  }

  /** `n` is a file that entry `e` names. */
  ghost predicate NamedBy(e: SegmentEntry, n: Files.FileName) {
    n == Files.FileName.Idx(e.segmentId) || n == Files.FileName.DocTable(e.segmentId) || (e.delGen != 0 && n == Files.FileName.Del(e.segmentId, e.delGen))
  }

  /** The entry's checksums, lengths and counts are those of the segment's files; none for a deletions file that is not there. */
  predicate Vouched(e: SegmentEntry, s: Segment, f: FileFacts) {
    && e.idxCrc == f.idxCrc && e.docCrc == f.docCrc && e.idxLen == f.idxLen && e.docLen == f.docLen
    && e.numTokens == f.tokens && e.numPostings == f.postings && e.numTerms == f.terms
    && (s.delGen == 0 ==> e.delCrc == 0 && e.delLen == 0) && (s.delGen != 0 ==> e.delCrc == f.delCrc && e.delLen == f.delLen)
  }

  /** The manifest written for an index names exactly the files its readers open, with the ranges and counts of its segments. */
  lemma {:induction false} ManifestNames(ix: Index, time: i64, facts: Segment -> FileFacts, overlay: OverlayFacts, n: Files.FileName)
    requires WellFormed(ix)
    ensures var m := ManifestOf(ix, time, facts, overlay);
      && (n in Files.Referenced(ix) <==> (exists e :: e in m.segments && NamedBy(e, n)) || (m.stateGen != 0 && n == Files.FileName.Overlay(m.stateGen)))
      && m.generation == ix.generation && m.nextSegmentId == ix.nextSegmentId && |m.segments| == |ix.segments|
      && forall k | 0 <= k < |ix.segments| ::
           var e, s := m.segments[k], ix.segments[k];
           e.baseDoc == s.base && e.numDocs == |s.docs| && e.numDeleted == |s.deleted| && Vouched(e, s, facts(s))
    ensures var m := ManifestOf(ix, time, facts, overlay);
      m.stateCrc == (if ix.stateGen == 0 then 0 else overlay.crc) && m.stateLen == if ix.stateGen == 0 then 0 else overlay.len
  {
    var m := ManifestOf(ix, time, facts, overlay);
    hide Files.Referenced, Files.OwnedBy, WellFormed;
    Files.NamesIff(ix, n);
    forall k | 0 <= k < |ix.segments|
      ensures NamedBy(m.segments[k], n) <==> Files.OwnedBy(ix.segments[k], n)
    {
      OwnerNames(ix.segments[k], facts(ix.segments[k]), n);
    }
    hide NamedBy;
    if i :| 0 <= i < |ix.segments| && Files.OwnedBy(ix.segments[i], n) {
      assert m.segments[i] in m.segments;
    }
    if e :| e in m.segments && NamedBy(e, n) {
      var i :| 0 <= i < |m.segments| && m.segments[i] == e;
    }
  }

  lemma {:induction false} OwnerNames(s: Segment, f: FileFacts, n: Files.FileName)
    ensures NamedBy(EntryFor(s, f), n) <==> Files.OwnedBy(s, n)
  {
  }

  /** The index a full build commits. */
  function BuiltIndex(built: seq<BuiltSegment>, docs: seq<Doc>, firstId: nat, generation: nat): Index {
    Index(AsSegments(built, docs), map[], firstId + |built|, 0, generation)
  }

  /** A build that continues the segment ids of the index it replaces. */
  lemma {:induction false} BuildRebuilds(before: Index, built: seq<BuiltSegment>, docs: seq<Doc>, generation: nat)
    requires Tiles(built, docs, 0, before.nextSegmentId) && ValidDocs(docs)
    ensures Rebuilds(before, BuiltIndex(built, docs, before.nextSegmentId, generation))
  {
    AppendedOrder(built, docs, 0, before.nextSegmentId);
    AppendedValid(built, docs);
    hide Tiles, AsSegments;
  }

  /**
   In every run of builds, updates and merges, every committed manifest passes
   the decoder's checks as long as document ids fit in 32 bits.
   */
  lemma {:induction false} SoundInEveryRun(states: seq<State>, events: seq<Event>, k: nat, time: i64, facts: Segment -> FileFacts, overlay: OverlayFacts)
    requires MergeRuns.Run(states, events) && Inv(states[0]) && k < |states|
    requires IdBound(states[k].index.segments) <= U32 && SealedFiles(states[k].index, facts, overlay)
    ensures Sound(ManifestOf(states[k].index, time, facts, overlay))
  {
    RunKeepsInv(states, events, k);
    WellFormedIsSound(states[k].index, time, facts, overlay);
  }

  // ----- Sorting entries by base -----

  ghost predicate AnySortOrdered(segments: seq<Segment>) {
    forall p: seq<Segment> {:trigger ByBase(p)} | multiset(p) == multiset(segments) && ByBase(p) :: Ordered(p)
  }

  /** Segments that start together hold no documents. */
  ghost predicate TiesEmpty(segments: seq<Segment>) {
    forall i, j | 0 <= i < j < |segments| && segments[i].base == segments[j].base :: segments[j].docs == []
  }

  /**
   Sorting entries by base, with ties in any order, keeps the ranges ascending
   exactly when ties are between empty segments.  The source's sort is unstable.
   */
  lemma {:induction false} AnySortOrderedIff(segments: seq<Segment>)
    requires Ordered(segments) && DistinctIds(segments)
    ensures AnySortOrdered(segments) <==> TiesEmpty(segments)
  {
    if TiesEmpty(segments) {
      forall p: seq<Segment> {:trigger ByBase(p)} | multiset(p) == multiset(segments) && ByBase(p)
        ensures Ordered(p)
      {
        SortedOrdered(segments, p);
      }
    } else {
      var i, j :| 0 <= i < j < |segments| && segments[i].base == segments[j].base && segments[j].docs != [];
      var p := SwapTied(segments, i, j);
      assert ByBase(p) && !Ordered(p);
    }
  }

  lemma {:induction false} SortedOrdered(segments: seq<Segment>, p: seq<Segment>)
    requires Ordered(segments) && DistinctIds(segments) && TiesEmpty(segments)
    requires multiset(p) == multiset(segments) && ByBase(p)
    ensures Ordered(p)
  {
    forall i, j | 0 <= i < j < |p|
      ensures p[i].End() <= p[j].base
    {
      assert p[i] in multiset(p) && p[j] in multiset(p);
      var a: nat :| a < |segments| && segments[a] == p[i];
      var b: nat :| b < |segments| && segments[b] == p[j];
      if a == b {
        NotTwice(segments, p, i, j);
      } else if b < a {
        assert segments[b].End() <= segments[a].base;
      }
    }
  }

  lemma {:induction false} NotTwice(segments: seq<Segment>, p: seq<Segment>, i: nat, j: nat)
    requires DistinctIds(segments) && multiset(p) == multiset(segments) && i < j < |p|
    ensures p[i] != p[j]
  {
    if p[i] == p[j] {
      Twice(p, i, j);
      Once(segments, p[i]);
    }
  }

  lemma {:induction false} Twice(p: seq<Segment>, i: nat, j: nat)
    requires i < j < |p| && p[i] == p[j]
    ensures multiset(p)[p[i]] >= 2
  {
    assert p == p[..j] + [p[j]] + p[j + 1..];
    assert p[..j][i] == p[i] && p[i] in multiset(p[..j]);
  }

  lemma {:induction false} Once(segments: seq<Segment>, s: Segment)
    requires DistinctIds(segments)
    ensures multiset(segments)[s] <= 1
  {
    if segments != [] {
      var n := |segments| - 1;
      assert segments == segments[..n] + [segments[n]];
      Once(segments[..n], s);
      if segments[n] == s {
        assert forall i | 0 <= i < n :: segments[..n][i].id != s.id;
        assert s !in segments[..n];
      }
    }
  }

  /** Two tied segments the other way round: still sorted by base, no longer ordered. */
  lemma {:induction false} SwapTied(segments: seq<Segment>, i: nat, j: nat) returns (p: seq<Segment>)
    requires Ordered(segments) && i < j < |segments| && segments[i].base == segments[j].base && segments[j].docs != []
    ensures multiset(p) == multiset(segments) && ByBase(p) && !Ordered(p)
  {
    p := segments[i := segments[j]][j := segments[i]];
    forall a, b | 0 <= a < b < |p|
      ensures p[a].base <= p[b].base
    {
      assert p[a].base == segments[a].base && p[b].base == segments[b].base;
      assert segments[a].End() <= segments[b].base;
    }
    assert p[i].End() > p[j].base;
  }

  /** What decodes has its ranges ascending. */
  lemma {:induction false} SoundIsOrdered(ix: Index, time: i64, facts: Segment -> FileFacts, overlay: OverlayFacts)
    requires Sound(ManifestOf(ix, time, facts, overlay))
    ensures Ordered(ix.segments)
  {
    forall i, j | 0 <= i < j < |ix.segments|
      ensures ix.segments[i].End() <= ix.segments[j].base
    {
      EntriesAscend(ix, time, facts, overlay, i, j);
    }
  }

  lemma {:induction false} EntriesAscend(ix: Index, time: i64, facts: Segment -> FileFacts, overlay: OverlayFacts, i: nat, j: nat)
    requires Sound(ManifestOf(ix, time, facts, overlay)) && i < j < |ix.segments|
    ensures ix.segments[i].End() <= ix.segments[j].base
    decreases j
  {
    var m := ManifestOf(ix, time, facts, overlay);
    assert Follows(m.segments[j - 1], m.segments[j]);
    if i < j - 1 {
      EntriesAscend(ix, time, facts, overlay, i, j - 1);
    }
  }
}
