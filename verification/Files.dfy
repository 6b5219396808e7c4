/**
 The files of `.ripindex/`: their names, what a manifest vouches for, and what
 a sweep may remove (src/store/mod.rs).

 A checksum stands for the contents it covers, so a manifest is the committed
 index itself: it fixes the contents of every file it names.
 */
module Files {
  import opened Wrappers
  import opened Documents
  import opened Segments

  /** File names; `Tmp(f)` is `f.tmp`, and `Staged` files live in `staging/`. */
  datatype FileName =
    | Manifest
    | Lock
    | Idx(id: nat)
    | DocTable(id: nat)
    | Del(id: nat, gen: nat)
    | Overlay(gen: nat)
    | Tmp(of: FileName)
    | Staged(tag: nat)

  /** Contents.  `Torn` is anything no decoder accepts: empty, cut short, or lost. */
  datatype Data =
    | Torn
    | Header(index: Index)
    | IdxData(postings: seq<map<Term, seq<Position>>>)
    | DocData(rows: seq<Doc>)
    | DelData(deleted: set<nat>)
    | OverlayData(patches: map<DocId, Meta>)

  type Directory = map<FileName, Data>

  function TermsOfDocs(docs: seq<Doc>): seq<map<Term, seq<Position>>> {
    seq(|docs|, i requires 0 <= i < |docs| => docs[i].record.terms)
  }

  /** The files of one segment, with the contents its entry vouches for. */
  function SegmentFiles(s: Segment): Directory {
    map[Idx(s.id) := IdxData(TermsOfDocs(s.docs)), DocTable(s.id) := DocData(s.docs)]
    + if s.delGen > 0 then map[Del(s.id, s.delGen) := DelData(s.deleted)] else map[]
  }

  function AllSegmentFiles(segments: seq<Segment>): Directory {
    if segments == [] then map[]
    else AllSegmentFiles(segments[..|segments| - 1]) + SegmentFiles(segments[|segments| - 1])
  }

  /** Every file a manifest references, itself not included. */
  function Referenced(ix: Index): Directory {
    AllSegmentFiles(ix.segments) + if ix.stateGen > 0 then map[Overlay(ix.stateGen) := OverlayData(ix.overlay)] else map[]
  }

  predicate IsCleanable(n: FileName) {
    n.Idx? || n.DocTable? || n.Del? || n.Overlay? || n.Tmp?
  }

  /** The directory's own entries: staged files are one level down. */
  predicate IsListed(n: FileName) {
    !n.Staged?
  }

  // ----- What is referenced -----

  ghost predicate OwnedBy(s: Segment, n: FileName) {
    n == Idx(s.id) || n == DocTable(s.id) || (s.delGen > 0 && n == Del(s.id, s.delGen))
  }

  lemma {:induction false} SegmentFilesOf(segments: seq<Segment>, n: FileName)
    requires DistinctIds(segments)
    ensures n in AllSegmentFiles(segments) ==> exists i :: 0 <= i < |segments| && OwnedBy(segments[i], n)
    ensures forall i | 0 <= i < |segments| && OwnedBy(segments[i], n) ::
              n in AllSegmentFiles(segments) && AllSegmentFiles(segments)[n] == SegmentFiles(segments[i])[n]
  {
    if segments != [] {
      var m := |segments| - 1;
      SegmentFilesOf(segments[..m], n);
      OwnedIs(segments[m], n);
      hide SegmentFiles, OwnedBy;
      if n in AllSegmentFiles(segments[..m]) {
        var i :| 0 <= i < m && OwnedBy(segments[..m][i], n);
        assert OwnedBy(segments[i], n);
      }
      forall i | 0 <= i < |segments| && OwnedBy(segments[i], n)
        ensures n in AllSegmentFiles(segments) && AllSegmentFiles(segments)[n] == SegmentFiles(segments[i])[n]
      {
        if i < m {
          assert segments[..m][i] == segments[i] && segments[i].id != segments[m].id;
          OwnedIs(segments[i], n);
        }
      }
    }
  }

  lemma {:induction false} OwnedIs(s: Segment, n: FileName)
    ensures n in SegmentFiles(s) <==> OwnedBy(s, n)
    ensures OwnedBy(s, n) ==> (n.Idx? || n.DocTable? || n.Del?) && n.id == s.id
  {
  }

  /** A manifest vouches for a file exactly as the segment owning it, or the overlay, says. */
  lemma {:induction false} ReferencedIff(ix: Index, n: FileName, d: Data)
    requires WellFormed(ix)
    ensures n in Referenced(ix) && Referenced(ix)[n] == d
            <==> (exists i :: 0 <= i < |ix.segments| && OwnedBy(ix.segments[i], n) && d == SegmentFiles(ix.segments[i])[n])
                 || (ix.stateGen > 0 && n == Overlay(ix.stateGen) && d == OverlayData(ix.overlay))
  {
    SegmentFilesOf(ix.segments, n);
  }

  lemma {:induction false} NamesIff(ix: Index, n: FileName)
    requires WellFormed(ix)
    ensures n in Referenced(ix)
            <==> (exists i :: 0 <= i < |ix.segments| && OwnedBy(ix.segments[i], n)) || (ix.stateGen > 0 && n == Overlay(ix.stateGen))
  {
    SegmentFilesOf(ix.segments, n);
    hide OwnedBy;
  }

  /** What a segment's entry vouches for: its postings document by document, its doc table, and the tombstones it has, if any. */
  ghost predicate Vouches(s: Segment, n: FileName, d: Data) {
    match n
    case Idx(id) => id == s.id && d.IdxData? && |d.postings| == |s.docs| && forall k | 0 <= k < |s.docs| :: d.postings[k] == s.docs[k].record.terms
    case DocTable(id) => id == s.id && d == DocData(s.docs)
    case Del(id, gen) => id == s.id && gen == s.delGen > 0 && d == DelData(s.deleted)
    case _ => false
  }

  /** Spelled out. */
  lemma {:induction false} VouchedIff(ix: Index, n: FileName, d: Data)
    requires WellFormed(ix)
    ensures n in Referenced(ix) && Referenced(ix)[n] == d
            <==> (exists s :: s in ix.segments && Vouches(s, n, d)) || (n.Overlay? && n.gen == ix.stateGen > 0 && d == OverlayData(ix.overlay))
  {
    hide Vouches, OwnedBy, SegmentFiles, Referenced, WellFormed;
    ReferencedIff(ix, n, d);
    forall i | 0 <= i < |ix.segments|
      ensures OwnedBy(ix.segments[i], n) ==> n in SegmentFiles(ix.segments[i])
      ensures OwnedBy(ix.segments[i], n) && d == SegmentFiles(ix.segments[i])[n] ==> Vouches(ix.segments[i], n, d)
    {
      OwnedVouches(ix.segments[i], n, d);
    }
    if s :| s in ix.segments && Vouches(s, n, d) {
      OwnedVouches(s, n, d);
      var i :| 0 <= i < |ix.segments| && ix.segments[i] == s;
    }
  }

  lemma {:induction false} OwnedVouches(s: Segment, n: FileName, d: Data)
    ensures OwnedBy(s, n) ==> n in SegmentFiles(s)
    ensures OwnedBy(s, n) && d == SegmentFiles(s)[n] <==> Vouches(s, n, d)
  {
    if n.Idx? && d.IdxData? && Vouches(s, n, d) {
      assert d.postings == TermsOfDocs(s.docs);
    }
  }

  lemma {:induction false} SegmentFileNames(segments: seq<Segment>, n: FileName)
    requires n in AllSegmentFiles(segments)
    ensures n.Idx? || n.DocTable? || n.Del?
  {
    if n in AllSegmentFiles(segments[..|segments| - 1]) {
      SegmentFileNames(segments[..|segments| - 1], n);
    }
  }

  /** Only cleanable, listed names are ever referenced, and never a temporary. */
  lemma {:induction false} ReferencedNames(ix: Index)
    ensures forall n | n in Referenced(ix) :: n.Idx? || n.DocTable? || n.Del? || n.Overlay?
  {
    forall n | n in AllSegmentFiles(ix.segments)
      ensures n.Idx? || n.DocTable? || n.Del?
    {
      SegmentFileNames(ix.segments, n);
    }
  }

  // ----- Opening a directory at rest -----

  /** Every referenced file is there with the contents the manifest vouches for. */
  ghost predicate Holds(dir: Directory, ix: Index) {
    forall n | n in Referenced(ix) :: n in dir && dir[n] == Referenced(ix)[n]
  }

  /** The directory's manifest commits `ix`, and everything it names is whole. */
  ghost predicate Commits(dir: Directory, ix: Option<Index>) {
    match ix
    case None => Manifest !in dir
    case Some(i) => Manifest in dir && dir[Manifest] == Header(i) && Holds(dir, i)
  }

  datatype Opened = Absent | Opened(index: Index) | Vanished(name: FileName) | Corrupt(name: FileName)

  /** Files in the order `open_once` reads them: each segment's, then the overlay. */
  function FilesInOrder(segments: seq<Segment>): seq<FileName> {
    if segments == [] then []
    else
      var s := segments[|segments| - 1];
      FilesInOrder(segments[..|segments| - 1]) + [Idx(s.id), DocTable(s.id)] + if s.delGen > 0 then [Del(s.id, s.delGen)] else []
  }

  lemma {:induction false} FilesInOrderAre(segments: seq<Segment>)
    ensures forall n :: n in FilesInOrder(segments) <==> n in AllSegmentFiles(segments)
  {
    if segments != [] {
      FilesInOrderAre(segments[..|segments| - 1]);
    }
  }

  function NamesToOpen(ix: Index): seq<FileName> {
    FilesInOrder(ix.segments) + if ix.stateGen > 0 then [Overlay(ix.stateGen)] else []
  }

  lemma {:induction false} NamesToOpenAre(ix: Index)
    ensures forall n :: n in NamesToOpen(ix) <==> n in Referenced(ix)
  {
    FilesInOrderAre(ix.segments);
  }

  /** Open each named file and check it against the manifest; first problem wins. */
  method OpenOnce(dir: Directory) returns (r: Opened)
    ensures r.Absent? <==> Manifest !in dir || !dir[Manifest].Header?
    ensures r.Opened? <==> Manifest in dir && dir[Manifest].Header? && Holds(dir, dir[Manifest].index)
    ensures r.Opened? ==> r.index == dir[Manifest].index
    ensures r.Vanished? ==> r.name in Referenced(dir[Manifest].index) && r.name !in dir
    ensures r.Corrupt? ==> r.name in Referenced(dir[Manifest].index) && r.name in dir && dir[r.name] != Referenced(dir[Manifest].index)[r.name]
  {
    if Manifest !in dir || !dir[Manifest].Header? {
      return Absent;
    }
    var ix := dir[Manifest].index;
    var names := NamesToOpen(ix);
    NamesToOpenAre(ix);
    for k := 0 to |names|
      invariant forall j | 0 <= j < k :: names[j] in dir && dir[names[j]] == Referenced(ix)[names[j]]
    {
      assert names[k] in names;
      if names[k] !in dir {
        return Vanished(names[k]);
      } else if dir[names[k]] != Referenced(ix)[names[k]] {
        return Corrupt(names[k]);
      }
    }
    forall n | n in Referenced(ix)
      ensures n in dir && dir[n] == Referenced(ix)[n]
    {
      assert n in names;
    }
    r := Opened(ix);
  }

  /** Remove every listed, cleanable file that `ix` does not name. */
  function Swept(dir: Directory, ix: Index): Directory {
    map n | n in dir && !(IsListed(n) && IsCleanable(n) && n !in Referenced(ix)) :: dir[n]
  }

  /**
   Gone is exactly what is a segment's file, a doc table, a deletions file, an
   overlay or a temporary and is not named by the index read.
   */
  ghost predicate SweptOnly(dir: Directory, after: Directory, ix: Index) {
    && after.Keys <= dir.Keys && (forall n | n in after :: after[n] == dir[n])
    && forall n | n in dir :: n !in after <==> (n.Idx? || n.DocTable? || n.Del? || n.Overlay? || n.Tmp?) && n !in Referenced(ix)
  }

  method Sweep(dir: Directory, ix: Index) returns (after: Directory)
    ensures after == Swept(dir, ix) && SweptOnly(dir, after, ix)
    ensures forall n | n in dir && (n == Lock || n == Manifest || n.Staged?) :: n in after
    ensures forall n | n in after :: !n.Tmp?
  {
    ReferencedNames(ix);
    after := dir;
    var todo := dir.Keys;
    while todo != {}
      invariant todo <= dir.Keys
      invariant after == map n | n in dir && (n in todo || !(IsListed(n) && IsCleanable(n) && n !in Referenced(ix))) :: dir[n]
      decreases todo
    {
      var n :| n in todo;
      if IsListed(n) && IsCleanable(n) && n !in Referenced(ix) {
        after := after - {n};
      }
      todo := todo - {n};
    }
  }

  /** A sweep under the current manifest loses nothing it names, nor the manifest, nor anything staged. */
  lemma {:induction false} SweepKeeps(dir: Directory, ix: Index)
    requires Commits(dir, Some(ix))
    ensures Commits(Swept(dir, ix), Some(ix))
    ensures forall tag | Staged(tag) in dir :: Staged(tag) in Swept(dir, ix) && Swept(dir, ix)[Staged(tag)] == dir[Staged(tag)]
    ensures forall n | n in Swept(dir, ix) && IsListed(n) && IsCleanable(n) :: n in Referenced(ix)
    ensures SweptOnly(dir, Swept(dir, ix), ix)
  {
  }
}
