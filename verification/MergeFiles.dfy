/**
 A merge on files: draining the sources' dictionaries (`TermIter` over each
 `.idx`), rewriting their postings, and writing the result back
 (src/store/merge.rs, src/format/idx.rs).  Terms too long for a dictionary are
 lost when a segment is written and play no part after.
 */
module MergeFiles {
  import opened Wrappers
  import opened Documents
  import opened Postings
  import opened Segments
  import opened Bytes
  import opened DiskPostings
  import opened TermDict
  import opened TermLookup
  import opened TermRead
  import opened TermFile
  import opened Query
  import opened SegmentFile
  import TermScan
  import MergePrepare
  import MergeRuns

  // ----- Draining a dictionary -----

  /** Every term of the segment is UTF-8. */
  ghost predicate Utf8Terms(s: Segment, utf8: bytes -> bool) {
    forall t | ListIn(s, t) != [] :: utf8(t)
  }

  /** `dict` holds exactly the first `n` entries of `ts`. */
  ghost predicate HoldsUpto(dict: map<Term, PostingList>, ts: seq<DictTerm>, n: nat)
    requires n <= |ts|
  {
    && (forall k | 0 <= k < n :: ts[k].term in dict && dict[ts[k].term] == ts[k].list)
    && (forall t | t in dict :: exists k :: 0 <= k < n && ts[k].term == t)
  }

  lemma {:induction false} HoldsMore(dict: map<Term, PostingList>, ts: seq<DictTerm>, n: nat)
    requires Sorted(ts) && n < |ts| && HoldsUpto(dict, ts, n)
    ensures HoldsUpto(dict[ts[n].term := ts[n].list], ts, n + 1)
  {
    forall k | 0 <= k < n
      ensures ts[k].term != ts[n].term
    {
      assert Less(ts[k].term, ts[n].term);
      LessTotal(ts[n].term, ts[n].term);
    }
  }

  lemma {:induction false} EntryAt(v: IdxView, ts: seq<DictTerm>, k: nat)
    requires k < |ts| && AllEntries(v) == FoundIn(v, ts, 0, |ts|)
    ensures |AllEntries(v)| == |ts| && AllEntries(v)[k].term == ts[k].term
  {
    hide AllEntries;
    assert AllEntries(v)[k] == FoundIn(v, ts, 0, |ts|)[k - 0];
  }

  /** Drain the iterator over a written file, walking each list it yields. */
  method Drain(v: IdxView, utf8: bytes -> bool, ghost ts: seq<DictTerm>) returns (r: Result<map<Term, PostingList>, FormatError>)
    requires Tiles(v.toc, v.bodyEnd) && Laid(v, ts) && Sorted(ts) && AllValid(ts)
    ensures r.Success? <==> AllUtf8(ts, utf8)
    ensures r.Success? ==> HoldsUpto(r.value, ts, |ts|)
  {
    hide Tiles, Laid, Sorted, AllValid, Readable, AllEntries, FoundIn, PostingsOf, EndOf, Encoded, Spelt, HoldsUpto, TermScan.TermIter.At;
    LaidReadable(v, ts);
    ListsFit(v, ts);
    var it := new TermScan.TermIter(v);
    var dict: map<Term, PostingList> := map[];
    ghost var k := 0;
    HoldsNone(ts);
    while true
      invariant fresh(it) && (it.scan == null || fresh(it.scan)) && it.view == v
      invariant k <= |ts| && it.At(k) && HoldsUpto(dict, ts, k)
      invariant forall j | 0 <= j < k :: utf8(ts[j].term)
      decreases |ts| - k
    {
      if k < |ts| {
        EntryAt(v, ts, k);
      }
      var next := it.TryNext(utf8, k);
      if next.Failure? { return Failure(next.error); }
      if next.value.None? { return Success(dict); }
      var (t, list) := next.value.value;
      var postings := Collect(list.data);
      HoldsMore(dict, ts, k);
      dict, k := dict[t := postings], k + 1;
    }
  }

  lemma {:induction false} HoldsNone(ts: seq<DictTerm>)
    ensures HoldsUpto(map[], ts, 0)
  {
  }

  // ----- Long terms left out -----

  function Trim(d: Doc): Doc {
    d.(record := d.record.(terms := map t | t in d.record.terms && |t| <= MAX_TERM_BYTES :: d.record.terms[t]))
  }

  function TrimAll(docs: seq<Doc>): seq<Doc> {
    seq(|docs|, i requires 0 <= i < |docs| => Trim(docs[i]))
  }

  function TrimSegment(s: Segment): Segment {
    s.(docs := TrimAll(s.docs))
  }

  function TrimSegments(segs: seq<Segment>): seq<Segment> {
    seq(|segs|, i requires 0 <= i < |segs| => TrimSegment(segs[i]))
  }

  lemma {:induction false} TrimmedList(docs: seq<Doc>, base: DocId, t: Term)
    ensures ListOf(TrimAll(docs), base, t) == if |t| <= MAX_TERM_BYTES then ListOf(docs, base, t) else []
  {
    if docs != [] {
      var n := |docs| - 1;
      TrimmedList(docs[..n], base, t);
      assert TrimAll(docs)[..n] == TrimAll(docs[..n]);
    }
  }

  lemma {:induction false} TrimValid(docs: seq<Doc>)
    requires ValidDocs(docs)
    ensures ValidDocs(TrimAll(docs))
  {
    forall i | 0 <= i < |docs|
      ensures ValidDoc(Trim(docs[i]))
    {
      assert ValidDoc(docs[i]);
    }
  }

  lemma {:induction false} TrimKeepsBelow(s: Segment, n: nat)
    ensures MergePrepare.KeptBelow(TrimSegment(s), n) == MergePrepare.KeptBelow(s, n)
  {
    if n > 0 {
      TrimKeepsBelow(s, n - 1);
    }
  }

  lemma {:induction false} TrimSurvivors(segs: seq<Segment>)
    ensures MergePrepare.Survivors(TrimSegments(segs)) == MergePrepare.Survivors(segs)
  {
    if segs != [] {
      var n := |segs| - 1;
      TrimSurvivors(segs[..n]);
      TrimKeepsBelow(segs[n], |segs[n].docs|);
      assert TrimSegments(segs)[..n] == TrimSegments(segs[..n]);
    }
  }

  lemma {:induction false} TrimNewId(segs: seq<Segment>, i: nat, l: nat)
    requires i < |segs|
    ensures MergePrepare.NewId(TrimSegments(segs), i, l) == MergePrepare.NewId(segs, i, l)
  {
    TrimSurvivors(segs[..i]);
    TrimKeepsBelow(segs[i], l);
    assert TrimSegments(segs)[..i] == TrimSegments(segs[..i]);
  }

  lemma {:induction false} TrimNumbers(oldToNew: map<MergePrepare.Source, nat>, segs: seq<Segment>)
    requires MergePrepare.Numbers(oldToNew, segs)
    ensures MergePrepare.Numbers(oldToNew, TrimSegments(segs))
  {
    hide MergePrepare.NewId;
    var trimmed := TrimSegments(segs);
    forall i: nat, l: nat | i < |trimmed| && MergePrepare.Kept(trimmed[i], l)
      ensures (trimmed[i].id, l) in oldToNew && oldToNew[(trimmed[i].id, l)] == MergePrepare.NewId(trimmed, i, l)
    {
      TrimNewId(segs, i, l);
      assert MergePrepare.Kept(segs[i], l);
    }
    forall key {:trigger MergePrepare.Numbered(oldToNew, trimmed, key)} | key in oldToNew
      ensures MergePrepare.Numbered(oldToNew, trimmed, key)
    {
      assert MergePrepare.Numbered(oldToNew, segs, key);
      var i: nat :| i < |segs| && key.0 == segs[i].id && MergePrepare.Kept(segs[i], key.1) && oldToNew[key] == MergePrepare.NewId(segs, i, key.1);
      TrimNewId(segs, i, key.1);
      assert MergePrepare.Kept(trimmed[i], key.1);
    }
  }

  lemma {:induction false} TrimSurvivorDocs(overlay: map<DocId, Meta>, s: Segment, n: nat)
    requires n <= |s.docs|
    ensures MergePrepare.SurvivorDocs(overlay, TrimSegment(s), n) == TrimAll(MergePrepare.SurvivorDocs(overlay, s, n))
  {
    if n > 0 {
      TrimSurvivorDocs(overlay, s, n - 1);
      assert Trim(WithPatch(overlay, s.base + n - 1, s.docs[n - 1])) == WithPatch(overlay, s.base + n - 1, Trim(s.docs[n - 1]));
      TrimConcat(MergePrepare.SurvivorDocs(overlay, s, n - 1), if MergePrepare.Kept(s, n - 1) then [WithPatch(overlay, s.base + n - 1, s.docs[n - 1])] else []);
    }
  }

  lemma {:induction false} TrimConcat(a: seq<Doc>, b: seq<Doc>)
    ensures TrimAll(a + b) == TrimAll(a) + TrimAll(b)
  {
  }

  lemma {:induction false} TrimMerged(overlay: map<DocId, Meta>, segs: seq<Segment>)
    ensures MergePrepare.MergedDocs(overlay, TrimSegments(segs)) == TrimAll(MergePrepare.MergedDocs(overlay, segs))
  {
    if segs != [] {
      var n := |segs| - 1;
      TrimMerged(overlay, segs[..n]);
      TrimSurvivorDocs(overlay, segs[n], |segs[n].docs|);
      assert TrimSegments(segs)[..n] == TrimSegments(segs[..n]);
      TrimConcat(MergePrepare.MergedDocs(overlay, segs[..n]), MergePrepare.SurvivorDocs(overlay, segs[n], |segs[n].docs|));
    }
  }

  /** A drained dictionary is the term map of the documents without their long terms. */
  lemma {:induction false} DrainedIs(dict: map<Term, PostingList>, ts: seq<DictTerm>, s: Segment)
    requires DictionaryOf(ts, s) && HoldsUpto(dict, ts, |ts|)
    ensures Represents(dict, TrimAll(s.docs), 0)
  {
    hide ListOf, Sorted;
    forall t
      ensures Postings.Lookup(dict, t) == ListOf(TrimAll(s.docs), 0, t) && (t in dict ==> dict[t] != [])
    {
      TrimmedList(s.docs, 0, t);
      assert ListOf(TrimAll(s.docs), 0, t) == ListIn(s, t);
      SpeltAnswer(ts, s, t);
      if t in dict {
        var k :| 0 <= k < |ts| && ts[k].term == t;
      } else {
        assert forall k | 0 <= k < |ts| :: ts[k].term != t;
      }
    }
  }

  /** What is written of the term map of trimmed documents spells the segment. */
  lemma {:induction false} TrimmedIsDictionary(terms: map<Term, PostingList>, s: Segment, list: seq<DictTerm>)
    requires Represents(terms, TrimAll(s.docs), 0) && Lists(terms, list)
    ensures DictionaryOf(Kept(list), s)
  {
    KeptIsDictionary(terms, TrimSegment(s), list);
    hide ListOf, Sorted, Kept;
    forall t
      ensures ListIn(TrimSegment(s), t) == ListIn(s, t)
    {
      TrimmedList(s.docs, 0, t);
    }
  }

  // ----- The merge -----

  /** Drain one source: an error exactly when one of its terms is not UTF-8. */
  method DrainFile(file: bytes, s: Segment, ghost crc: bytes -> nat, utf8: bytes -> bool) returns (r: Result<map<Term, PostingList>, FormatError>)
    requires FileOf(file, s, crc) && ValidDocs(s.docs)
    ensures r.Success? <==> Utf8Terms(s, utf8)
    ensures r.Success? ==> Represents(r.value, TrimAll(s.docs), 0)
  {
    hide FileOf, DictionaryOf, ParseView, Laid, Sorted, AllValid, HoldsUpto, Represents, AllUtf8, Utf8Terms, Tiles;
    ghost var ts := FileReads(file, s, crc);
    DictionarySorted(ts, s);
    SpeltUtf8(ts, s, utf8);
    var v := ParseView(file).value;
    r := Drain(v, utf8, ts);
    if r.Success? {
      DrainedIs(r.value, ts, s);
    }
  }

  lemma {:induction false} SpeltUtf8(ts: seq<DictTerm>, s: Segment, utf8: bytes -> bool)
    requires DictionaryOf(ts, s)
    ensures AllUtf8(ts, utf8) <==> Utf8Terms(s, utf8)
  {
    hide ListIn, Sorted;
    if AllUtf8(ts, utf8) {
      forall t | ListIn(s, t) != []
        ensures utf8(t)
      {
        assert DictTerm(t, ListIn(s, t)) in ts;
      }
    }
    forall k | 0 <= k < |ts|
      ensures ListIn(s, ts[k].term) != []
    {
      assert ts[k] in ts;
    }
  }

  /**
   From the files of a group to the file of the merged segment: the survivors'
   postings under their new ids, as the merge of what the sources held.
   */
  method MergeSegmentFiles(snapshot: Index, segs: seq<Segment>, files: seq<bytes>, id: nat, base: DocId, crc: bytes -> nat, utf8: bytes -> bool)
    returns (r: Result<bytes, FormatError>)
    requires WellFormed(snapshot) && MergePrepare.SnapshotSegments(snapshot, segs)
    requires |files| == |segs| && forall i | 0 <= i < |segs| :: FileOf(files[i], segs[i], crc)
    requires Fitting(Segment(id, base, MergePrepare.MergedDocs(snapshot.overlay, segs), {}, 0), crc)
    ensures r.Success? <==> forall i | 0 <= i < |segs| :: Utf8Terms(segs[i], utf8)
    ensures r.Success? ==> FileOf(r.value, Segment(id, base, MergePrepare.MergedDocs(snapshot.overlay, segs), {}, 0), crc)
  {
    hide FileOf, Represents, Utf8Terms, WellFormed, ValidDocs, TrimAll, MergePrepare.MergedDocs, MergePrepare.Numbers, Fitting, DistinctIds;
    var dicts: seq<map<Term, PostingList>> := [];
    for i := 0 to |segs|
      invariant |dicts| == i && forall j | 0 <= j < i :: Represents(dicts[j], TrimAll(segs[j].docs), 0) && Utf8Terms(segs[j], utf8)
    {
      assert segs[i] in segs;
      var drained := DrainFile(files[i], segs[i], crc, utf8);
      if drained.Failure? { return Failure(drained.error); }
      dicts := dicts + [drained.value];
    }
    var oldToNew, docs := MergePrepare.Renumber(snapshot, segs);
    TrimNumbers(oldToNew, segs);
    TrimReady(segs, dicts);
    var terms := MergePrepare.RewritePostings(snapshot.overlay, TrimSegments(segs), dicts, oldToNew);
    TrimMerged(snapshot.overlay, segs);
    MergedDocsValid(snapshot, segs);
    var file := WriteMerged(terms, Segment(id, base, docs, {}, 0), crc);
    r := Success(file);
  }

  lemma {:induction false} TrimReady(segs: seq<Segment>, dicts: seq<map<Term, PostingList>>)
    requires DistinctIds(segs) && |dicts| == |segs| && forall i | 0 <= i < |segs| :: Represents(dicts[i], TrimAll(segs[i].docs), 0)
    requires forall s | s in segs :: ValidDocs(s.docs)
    ensures DistinctIds(TrimSegments(segs)) && forall i | 0 <= i < |segs| :: Represents(dicts[i], TrimSegments(segs)[i].docs, 0)
    ensures forall s | s in TrimSegments(segs) :: ValidDocs(s.docs)
  {
    hide Represents, ValidDocs, TrimAll;
    forall i | 0 <= i < |segs|
      ensures ValidDocs(TrimSegments(segs)[i].docs)
    {
      assert segs[i] in segs;
      TrimValid(segs[i].docs);
    }
  }

  lemma {:induction false} MergedDocsValid(snapshot: Index, segs: seq<Segment>)
    requires MergePrepare.SnapshotSegments(snapshot, segs)
    ensures ValidDocs(MergePrepare.MergedDocs(snapshot.overlay, segs))
  {
    MergeRuns.MergedValid(snapshot.overlay, segs);
  }

  /** Sort the rewritten terms and write them. */
  method WriteMerged(terms: map<Term, PostingList>, s: Segment, crc: bytes -> nat) returns (file: bytes)
    requires Represents(terms, TrimAll(s.docs), 0) && ValidDocs(s.docs) && Fitting(s, crc)
    ensures FileOf(file, s, crc)
  {
    hide Represents, ValidDocs, DictionaryOf, File, Body, Kept, FitsFile, AllValid, Lists, TrimAll;
    var list := SortTerms(terms);
    TrimmedIsDictionary(terms, s, list);
    SpeltValid(Kept(list), s);
    var written := Write(list, crc);
    file := written.value.0;
  }
}
