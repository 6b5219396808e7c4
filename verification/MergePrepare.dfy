/**
 Preparing a merge (src/store/merge.rs): the unlocked phase that reads a
 snapshot, renumbers the survivors of one group and rewrites their postings.
 */
module MergePrepare {
  import opened Wrappers
  import opened Documents
  import opened Postings
  import opened Segments

  /** Identity of a document inside a source segment: (segment id, local id). */
  type Source = (nat, nat)

  datatype PreparedMerge = PreparedMerge(
    sourceIds: seq<nat>,
    snapshotDelGen: map<nat, nat>,
    oldToNew: map<Source, nat>,
    docs: seq<Doc>,
    terms: map<Term, PostingList>)

  // ----- Survivors and their numbering -----

  predicate Kept(s: Segment, l: nat) {
    l < |s.docs| && l !in s.deleted
  }

  /** Survivors of `s` among its first `n` locals. */
  function KeptBelow(s: Segment, n: nat): nat {
    if n == 0 then 0 else KeptBelow(s, n - 1) + (if Kept(s, n - 1) then 1 else 0)
  }

  /** Survivors of the whole list: where the next segment's numbering starts. */
  function Survivors(segs: seq<Segment>): nat {
    if segs == [] then 0
    else
      var last := segs[|segs| - 1];
      Survivors(segs[..|segs| - 1]) + KeptBelow(last, |last.docs|)
  }

  /** The merged segment's local id for local `l` of source `i`. */
  function NewId(segs: seq<Segment>, i: nat, l: nat): nat
    requires i < |segs|
  {
    Survivors(segs[..i]) + KeptBelow(segs[i], l)
  }

  function SurvivorDocs(overlay: map<DocId, Meta>, s: Segment, n: nat): seq<Doc>
    requires n <= |s.docs|
  {
    if n == 0 then []
    else
      SurvivorDocs(overlay, s, n - 1)
      + (if Kept(s, n - 1) then [WithPatch(overlay, s.base + n - 1, s.docs[n - 1])] else [])
  }

  /** The merged doc table: every survivor, overlay folded in, in (segment, local) order. */
  function MergedDocs(overlay: map<DocId, Meta>, segs: seq<Segment>): seq<Doc> {
    if segs == [] then []
    else
      var last := segs[|segs| - 1];
      MergedDocs(overlay, segs[..|segs| - 1]) + SurvivorDocs(overlay, last, |last.docs|)
  }

  ghost predicate Numbered(oldToNew: map<Source, nat>, segs: seq<Segment>, key: Source) {
    key in oldToNew && exists i: nat :: i < |segs| && key.0 == segs[i].id && Kept(segs[i], key.1) && oldToNew[key] == NewId(segs, i, key.1)
  }

  /** `oldToNew` numbers exactly the survivors, in order. */
  ghost predicate Numbers(oldToNew: map<Source, nat>, segs: seq<Segment>) {
    && (forall i: nat, l: nat | i < |segs| && Kept(segs[i], l) ::
          (segs[i].id, l) in oldToNew && oldToNew[(segs[i].id, l)] == NewId(segs, i, l))
    && (forall key {:trigger Numbered(oldToNew, segs, key)} | key in oldToNew :: Numbered(oldToNew, segs, key))
  }

  lemma {:induction false} SurvivorDocsLength(overlay: map<DocId, Meta>, s: Segment, n: nat)
    requires n <= |s.docs|
    ensures |SurvivorDocs(overlay, s, n)| == KeptBelow(s, n)
  {
    if n > 0 {
      SurvivorDocsLength(overlay, s, n - 1);
    }
  }

  lemma {:induction false} MergedDocsLength(overlay: map<DocId, Meta>, segs: seq<Segment>)
    ensures |MergedDocs(overlay, segs)| == Survivors(segs)
  {
    if segs != [] {
      MergedDocsLength(overlay, segs[..|segs| - 1]);
      SurvivorDocsLength(overlay, segs[|segs| - 1], |segs[|segs| - 1].docs|);
    }
  }

  lemma {:induction false} SurvivorAt(overlay: map<DocId, Meta>, s: Segment, n: nat, l: nat)
    requires n <= |s.docs| && l < n && Kept(s, l)
    ensures KeptBelow(s, l) < KeptBelow(s, n) == |SurvivorDocs(overlay, s, n)|
    ensures SurvivorDocs(overlay, s, n)[KeptBelow(s, l)] == WithPatch(overlay, s.base + l, s.docs[l])
  {
    SurvivorDocsLength(overlay, s, n);
    SurvivorDocsLength(overlay, s, n - 1);
    if l < n - 1 {
      SurvivorAt(overlay, s, n - 1, l);
    }
  }

  /** The merged table holds each survivor under its number. */
  lemma {:induction false} MergedAt(overlay: map<DocId, Meta>, segs: seq<Segment>, i: nat, l: nat)
    requires i < |segs| && Kept(segs[i], l)
    ensures NewId(segs, i, l) < |MergedDocs(overlay, segs)|
    ensures MergedDocs(overlay, segs)[NewId(segs, i, l)] == WithPatch(overlay, segs[i].base + l, segs[i].docs[l])
  {
    var n := |segs| - 1;
    MergedDocsLength(overlay, segs[..n]);
    if i < n {
      assert segs[..n][..i] == segs[..i];
      MergedAt(overlay, segs[..n], i, l);
    } else {
      SurvivorAt(overlay, segs[n], |segs[n].docs|, l);
    }
  }

  lemma {:induction false} KeptAt(s: Segment, n: nat, k: nat) returns (l: nat)
    requires n <= |s.docs| && k < KeptBelow(s, n)
    ensures l < n && Kept(s, l) && KeptBelow(s, l) == k
  {
    if k < KeptBelow(s, n - 1) {
      l := KeptAt(s, n - 1, k);
    } else {
      l := n - 1;
    }
  }

  /** Every number was given to some survivor. */
  lemma {:induction false} OriginOf(segs: seq<Segment>, k: nat) returns (i: nat, l: nat)
    requires k < Survivors(segs)
    ensures i < |segs| && Kept(segs[i], l) && NewId(segs, i, l) == k
  {
    var n := |segs| - 1;
    if k < Survivors(segs[..n]) {
      i, l := OriginOf(segs[..n], k);
      assert segs[..n][..i] == segs[..i];
    } else {
      i := n;
      l := KeptAt(segs[n], |segs[n].docs|, k - Survivors(segs[..n]));
    }
  }

  /** ... and to one only. */
  lemma {:induction false} NewIdInjective(segs: seq<Segment>, i: nat, l: nat, j: nat, m: nat)
    requires i < |segs| && Kept(segs[i], l) && j < |segs| && Kept(segs[j], m)
    requires NewId(segs, i, l) == NewId(segs, j, m)
    ensures i == j && l == m
  {
    if i < j {
      NewIdInSegment(segs, i, j, l);
    } else if j < i {
      NewIdInSegment(segs, j, i, m);
    } else if l < m {
      KeptMonotone(segs[i], l, m);
    } else if m < l {
      KeptMonotone(segs[i], m, l);
    }
  }

  lemma {:induction false} KeptMonotone(s: Segment, l: nat, m: nat)
    requires l < m && Kept(s, l)
    ensures KeptBelow(s, l) < KeptBelow(s, m)
  {
    if l < m - 1 {
      KeptMonotone(s, l, m - 1);
    }
  }

  lemma {:induction false} NewIdInSegment(segs: seq<Segment>, i: nat, j: nat, l: nat)
    requires i < j <= |segs| && Kept(segs[i], l)
    ensures NewId(segs, i, l) < Survivors(segs[..j])
  {
    assert segs[..j][..j - 1] == segs[..j - 1];
    if i < j - 1 {
      NewIdInSegment(segs, i, j - 1, l);
    } else {
      KeptMonotone(segs[i], l, |segs[i].docs|);
    }
  }

  // ----- Rewriting postings -----

  /** Keep the survivors' postings, under their new ids. */
  function Rewritten(list: PostingList, s: Segment, start: nat): PostingList {
    if list == [] then []
    else
      var n := |list| - 1;
      Rewritten(list[..n], s, start)
      + (if Kept(s, list[n].doc) then [Posting(start + KeptBelow(s, list[n].doc), list[n].positions)] else [])
  }

  /** Rewriting a source's list gives exactly the list its survivors call for. */
  lemma {:induction false} RewriteMeaning(overlay: map<DocId, Meta>, s: Segment, n: nat, start: nat, t: Term)
    requires n <= |s.docs|
    ensures Rewritten(ListOf(s.docs[..n], 0, t), s, start) == ListOf(SurvivorDocs(overlay, s, n), start, t)
  {
    if n > 0 {
      SurvivorStep(overlay, s, n);
      hide Rewritten, ListOf, SurvivorDocs, WithPatch, Entry;
      RewriteMeaning(overlay, s, n - 1, start, t);
      SurvivorDocsLength(overlay, s, n - 1);
      ListStep(s.docs, n, t);
      RewriteStep(s, n - 1, ListOf(s.docs[..n - 1], 0, t), SurvivorDocs(overlay, s, n - 1), start, t,
                  WithPatch(overlay, s.base + n - 1, s.docs[n - 1]));
    }
  }

  lemma {:induction false} SurvivorStep(overlay: map<DocId, Meta>, s: Segment, n: nat)
    requires 0 < n <= |s.docs|
    ensures SurvivorDocs(overlay, s, n)
         == SurvivorDocs(overlay, s, n - 1) + (if Kept(s, n - 1) then [WithPatch(overlay, s.base + n - 1, s.docs[n - 1])] else [])
    ensures WithPatch(overlay, s.base + n - 1, s.docs[n - 1]).record == s.docs[n - 1].record
  {
  }

  lemma {:induction false} ListStep(docs: seq<Doc>, n: nat, t: Term)
    requires 0 < n <= |docs|
    ensures ListOf(docs[..n], 0, t) == ListOf(docs[..n - 1], 0, t) + Entry(docs[n - 1], n - 1, t)
  {
    assert docs[..n] == docs[..n - 1] + [docs[n - 1]];
    AppendEntry(docs[..n - 1], docs[n - 1], 0, t);
  }

  /** One more local: its entry is rewritten exactly if it survives. */
  lemma {:induction false} RewriteStep(s: Segment, l: nat, list: PostingList, before: seq<Doc>, start: nat, t: Term, d: Doc)
    requires l < |s.docs| && |before| == KeptBelow(s, l) && d.record == s.docs[l].record
    requires Rewritten(list, s, start) == ListOf(before, start, t)
    ensures Rewritten(list + Entry(s.docs[l], l, t), s, start) == ListOf(before + (if Kept(s, l) then [d] else []), start, t)
  {
    RewriteOneMore(list, Entry(s.docs[l], l, t), s, start);
    if Kept(s, l) {
      AppendEntry(before, d, start, t);
    } else {
      assert before + [] == before;
    }
  }

  lemma {:induction false} AppendEntry(docs: seq<Doc>, d: Doc, base: nat, t: Term)
    ensures ListOf(docs + [d], base, t) == ListOf(docs, base, t) + Entry(d, base + |docs|, t)
  {
    assert (docs + [d])[..|docs|] == docs;
  }

  lemma {:induction false} RewriteOneMore(list: PostingList, entry: PostingList, s: Segment, start: nat)
    requires |entry| <= 1
    ensures entry != [] && Kept(s, entry[0].doc) ==>
      Rewritten(list + entry, s, start)
      == Rewritten(list, s, start) + [Posting(start + KeptBelow(s, entry[0].doc), entry[0].positions)]
    ensures !(entry != [] && Kept(s, entry[0].doc)) ==> Rewritten(list + entry, s, start) == Rewritten(list, s, start)
  {
    if entry == [] {
      assert list + entry == list;
    } else {
      assert (list + entry)[..|list|] == list;
    }
  }

  function AllTerms(docs: seq<Doc>): set<Term> {
    set i, t | 0 <= i < |docs| && t in docs[i].record.terms :: t
  }

  /** The term map of a segment's documents. */
  function TermMap(docs: seq<Doc>): map<Term, PostingList> {
    map t | t in AllTerms(docs) && ListOf(docs, 0, t) != [] :: ListOf(docs, 0, t)
  }

  lemma {:induction false} TermMapIs(docs: seq<Doc>)
    ensures Represents(TermMap(docs), docs, 0)
  {
    forall t
      ensures Lookup(TermMap(docs), t) == ListOf(docs, 0, t)
    {
      if t !in AllTerms(docs) {
        NoTermNoList(docs, 0, t);
      }
    }
  }

  lemma {:induction false} NoTermNoList(docs: seq<Doc>, base: DocId, t: Term)
    requires t !in AllTerms(docs)
    ensures ListOf(docs, base, t) == []
  {
    if docs != [] {
      assert forall i | 0 <= i < |docs| - 1 :: docs[..|docs| - 1][i] == docs[i];
      NoTermNoList(docs[..|docs| - 1], base, t);
    }
  }

  // ----- The unlocked phase -----

  ghost predicate SnapshotSegments(snapshot: Index, segs: seq<Segment>) {
    && DistinctIds(segs) && (forall s | s in segs :: s in snapshot.segments && ValidDocs(s.docs))
  }

  /** `p` is a faithful preparation of `segs` as `snapshot` held them. */
  ghost predicate PreparedFrom(p: PreparedMerge, snapshot: Index, segs: seq<Segment>) {
    && p.sourceIds == IdsOf(segs)
    && SnapshotSegments(snapshot, segs)
    && (forall i | 0 <= i < |segs| :: segs[i].id in p.snapshotDelGen && p.snapshotDelGen[segs[i].id] == segs[i].delGen)
    && Numbers(p.oldToNew, segs)
    && p.docs == MergedDocs(snapshot.overlay, segs)
    && Represents(p.terms, p.docs, 0)
  }

  function IdsOf(segs: seq<Segment>): seq<nat> {
    seq(|segs|, i requires 0 <= i < |segs| => segs[i].id)
  }

  /** The dictionaries of the sources. */
  function DictsOf(segs: seq<Segment>): seq<map<Term, PostingList>> {
    seq(|segs|, i requires 0 <= i < |segs| => TermMap(segs[i].docs))
  }

  lemma {:induction false} DictsAre(segs: seq<Segment>)
    ensures |DictsOf(segs)| == |segs| && forall i | 0 <= i < |segs| :: Represents(DictsOf(segs)[i], segs[i].docs, 0)
  {
    hide TermMap, Represents;
    forall i | 0 <= i < |segs|
      ensures Represents(DictsOf(segs)[i], segs[i].docs, 0)
    {
      TermMapIs(segs[i].docs);
    }
  }

  method PrepareMerge(snapshot: Index, segs: seq<Segment>) returns (p: PreparedMerge)
    requires WellFormed(snapshot) && SnapshotSegments(snapshot, segs)
    ensures PreparedFrom(p, snapshot, segs)
  {
    var delGens: map<nat, nat> := map[];
    for i := 0 to |segs|
      invariant forall j | 0 <= j < i :: segs[j].id in delGens && delGens[segs[j].id] == segs[j].delGen
    {
      delGens := delGens[segs[i].id := segs[i].delGen];
    }
    var oldToNew, docs := Renumber(snapshot, segs);
    DictsAre(segs);
    var terms := RewritePostings(snapshot.overlay, segs, DictsOf(segs), oldToNew);
    p := PreparedMerge(IdsOf(segs), delGens, oldToNew, docs, terms);
  }

  /** First pass: survivors in (segment, local) order get local ids from 0. */
  method Renumber(snapshot: Index, segs: seq<Segment>) returns (oldToNew: map<Source, nat>, docs: seq<Doc>)
    requires WellFormed(snapshot) && SnapshotSegments(snapshot, segs)
    ensures Numbers(oldToNew, segs) && docs == MergedDocs(snapshot.overlay, segs)
  {
    oldToNew, docs := map[], [];
    for i := 0 to |segs|
      invariant NumbersUpto(oldToNew, segs, i, 0)
      invariant docs == MergedDocs(snapshot.overlay, segs[..i])
    {
      assert segs[i] in segs;
      oldToNew, docs := RenumberSegment(snapshot, segs, i, oldToNew, docs);
      assert segs[..i + 1][..i] == segs[..i];
    }
    assert segs[..|segs|] == segs;
    NumbersDone(oldToNew, segs);
  }

  method RenumberSegment(snapshot: Index, segs: seq<Segment>, i: nat, before: map<Source, nat>, found: seq<Doc>)
    returns (oldToNew: map<Source, nat>, docs: seq<Doc>)
    requires WellFormed(snapshot) && DistinctIds(segs) && i < |segs| && segs[i] in snapshot.segments
    requires NumbersUpto(before, segs, i, 0) && found == MergedDocs(snapshot.overlay, segs[..i])
    ensures NumbersUpto(oldToNew, segs, i + 1, 0)
    ensures docs == found + SurvivorDocs(snapshot.overlay, segs[i], |segs[i].docs|)
  {
    oldToNew, docs := before, found;
    var s := segs[i];
    MergedDocsLength(snapshot.overlay, segs[..i]);
    for l := 0 to |s.docs|
      invariant NumbersUpto(oldToNew, segs, i, l)
      invariant docs == found + SurvivorDocs(snapshot.overlay, s, l)
    {
      SurvivorDocsLength(snapshot.overlay, s, l);
      if l !in s.deleted {
        SnapshotDoc(snapshot, s, l);
        var global := DocAt(snapshot, s.base + l);
        if global.Some? {
          NumberNext(oldToNew, segs, i, l);
          oldToNew := oldToNew[(s.id, l) := |docs|];
          docs := docs + [global.value];
        }
      } else {
        NumberSkip(oldToNew, segs, i, l);
      }
    }
    NumberSegmentDone(oldToNew, segs, i);
  }

  /** A survivor of the snapshot is what the reader returns for its global id. */
  lemma {:induction false} SnapshotDoc(snapshot: Index, s: Segment, l: nat)
    requires WellFormed(snapshot) && s in snapshot.segments && Kept(s, l)
    ensures DocAt(snapshot, s.base + l) == Some(WithPatch(snapshot.overlay, s.base + l, s.docs[l]))
  {
    var i :| 0 <= i < |snapshot.segments| && snapshot.segments[i] == s;
    LocateIff(snapshot.segments, s.base + l, i, l);
  }

  /** Numbered so far: whole sources before `i`, and the first `n` locals of source `i`. */
  predicate Passed(segs: seq<Segment>, i: nat, n: nat, j: nat, l: nat) {
    j < |segs| && Kept(segs[j], l) && (j < i || (j == i && l < n))
  }

  ghost predicate NumberedUpto(oldToNew: map<Source, nat>, segs: seq<Segment>, i: nat, n: nat, key: Source) {
    exists j: nat :: Passed(segs, i, n, j, key.1) && key.0 == segs[j].id
  }

  ghost predicate NumbersUpto(oldToNew: map<Source, nat>, segs: seq<Segment>, i: nat, n: nat) {
    && (forall j: nat, l: nat | Passed(segs, i, n, j, l) ::
          (segs[j].id, l) in oldToNew && oldToNew[(segs[j].id, l)] == NewId(segs, j, l))
    && (forall key {:trigger NumberedUpto(oldToNew, segs, i, n, key)} | key in oldToNew :: NumberedUpto(oldToNew, segs, i, n, key))
  }

  lemma {:induction false} NumberNext(oldToNew: map<Source, nat>, segs: seq<Segment>, i: nat, l: nat)
    requires NumbersUpto(oldToNew, segs, i, l) && DistinctIds(segs) && i < |segs| && Kept(segs[i], l)
    ensures NumbersUpto(oldToNew[(segs[i].id, l) := NewId(segs, i, l)], segs, i, l + 1)
  {
    var now := oldToNew[(segs[i].id, l) := NewId(segs, i, l)];
    forall key {:trigger NumberedUpto(now, segs, i, l + 1, key)} | key in now
      ensures NumberedUpto(now, segs, i, l + 1, key)
    {
      if key == (segs[i].id, l) {
        assert Passed(segs, i, l + 1, i, key.1);
      } else {
        assert NumberedUpto(oldToNew, segs, i, l, key);
        var j: nat :| Passed(segs, i, l, j, key.1) && key.0 == segs[j].id;
        assert Passed(segs, i, l + 1, j, key.1);
      }
    }
    forall j: nat, m: nat | Passed(segs, i, l + 1, j, m)
      ensures (segs[j].id, m) in now && now[(segs[j].id, m)] == NewId(segs, j, m)
    {
      assert Passed(segs, i, l, j, m) || (j == i && m == l);
    }
  }

  lemma {:induction false} NumbersWiden(oldToNew: map<Source, nat>, segs: seq<Segment>, i: nat, n: nat, i': nat, n': nat)
    requires NumbersUpto(oldToNew, segs, i, n)
    requires forall j: nat, l: nat :: Passed(segs, i, n, j, l) <==> Passed(segs, i', n', j, l)
    ensures NumbersUpto(oldToNew, segs, i', n')
  {
    forall key {:trigger NumberedUpto(oldToNew, segs, i', n', key)} | key in oldToNew
      ensures NumberedUpto(oldToNew, segs, i', n', key)
    {
      assert NumberedUpto(oldToNew, segs, i, n, key);
    }
  }

  lemma {:induction false} NumberSkip(oldToNew: map<Source, nat>, segs: seq<Segment>, i: nat, l: nat)
    requires NumbersUpto(oldToNew, segs, i, l) && i < |segs| && !Kept(segs[i], l)
    ensures NumbersUpto(oldToNew, segs, i, l + 1)
  {
    NumbersWiden(oldToNew, segs, i, l, i, l + 1);
  }

  lemma {:induction false} NumberSegmentDone(oldToNew: map<Source, nat>, segs: seq<Segment>, i: nat)
    requires i < |segs| && NumbersUpto(oldToNew, segs, i, |segs[i].docs|)
    ensures NumbersUpto(oldToNew, segs, i + 1, 0)
  {
    NumbersWiden(oldToNew, segs, i, |segs[i].docs|, i + 1, 0);
  }

  lemma {:induction false} NumbersDone(oldToNew: map<Source, nat>, segs: seq<Segment>)
    requires NumbersUpto(oldToNew, segs, |segs|, 0)
    ensures Numbers(oldToNew, segs)
  {
    forall i: nat, l: nat | i < |segs| && Kept(segs[i], l)
      ensures (segs[i].id, l) in oldToNew && oldToNew[(segs[i].id, l)] == NewId(segs, i, l)
    {
      assert Passed(segs, |segs|, 0, i, l);
    }
    forall key {:trigger Numbered(oldToNew, segs, key)} | key in oldToNew
      ensures Numbered(oldToNew, segs, key)
    {
      assert NumberedUpto(oldToNew, segs, |segs|, 0, key);
      var j: nat :| Passed(segs, |segs|, 0, j, key.1) && key.0 == segs[j].id;
    }
  }

  // ----- Second pass: postings -----

  ghost predicate DocsBelow(list: PostingList, bound: nat) {
    forall k | 0 <= k < |list| :: list[k].doc < bound
  }

  lemma {:induction false} RewrittenBelow(list: PostingList, s: Segment, start: nat, l: nat)
    requires DocsBelow(list, l)
    ensures DocsBelow(Rewritten(list, s, start), start + KeptBelow(s, l))
  {
    if list != [] {
      var n := |list| - 1;
      RewrittenBelow(list[..n], s, start, l);
      if Kept(s, list[n].doc) {
        KeptMonotone(s, list[n].doc, l);
      }
    }
  }

  /** Push every position of one posting. */
  method PushPosting(store: TermStore, t: Term, doc: DocId, positions: seq<Position>)
    requires positions != [] && Ascending(positions) && DocsBelow(Lookup(store.terms, t), doc)
    modifies store
    ensures store.terms == old(store.terms)[t := Lookup(old(store.terms), t) + [Posting(doc, positions)]]
  {
    for k := 0 to |positions|
      invariant k == 0 ==> store.terms == old(store.terms)
      invariant k > 0 ==> store.terms == old(store.terms)[t := Lookup(old(store.terms), t) + [Posting(doc, positions[..k])]]
    {
      assert positions[..k + 1] == positions[..k] + [positions[k]];
      ghost var was := Lookup(old(store.terms), t);
      if k == 0 {
        assert positions[..1] == [positions[0]];
      } else {
        ghost var list := Lookup(store.terms, t);
        assert list[|list| - 1 := Posting(doc, positions[..k + 1])] == was + [Posting(doc, positions[..k + 1])];
        assert positions[k - 1] < positions[k];
      }
      store.Push(t, doc, positions[k]);
      assert Lookup(store.terms, t) == was + [Posting(doc, positions[..k + 1])];
    }
    assert positions[..|positions|] == positions;
  }

  ghost predicate NoneEmpty(terms: map<Term, PostingList>) {
    forall t | t in terms :: terms[t] != []
  }

  /** Only `t` changed, by `added` at its end. */
  ghost predicate Appended(was: map<Term, PostingList>, now: map<Term, PostingList>, t: Term, added: PostingList) {
    && Lookup(now, t) == Lookup(was, t) + added
    && (forall u | u != t :: Lookup(now, u) == Lookup(was, u))
    && NoneEmpty(now)
  }

  /** All postings of one term of one source. */
  method RewriteTerm(store: TermStore, t: Term, list: PostingList, s: Segment, ghost start: nat, oldToNew: map<Source, nat>)
    requires ValidList(list) && DocsBelow(list, |s.docs|) && DocsBelow(Lookup(store.terms, t), start)
    requires SegmentNumbered(oldToNew, s, start) && NoneEmpty(store.terms)
    modifies store
    ensures Appended(old(store.terms), store.terms, t, Rewritten(list, s, start))
  {
    for k := 0 to |list|
      invariant Appended(old(store.terms), store.terms, t, Rewritten(list[..k], s, start))
    {
      ghost var mid := store.terms;
      RoomForNext(old(store.terms), mid, t, list, k, s, start);
      assert Kept(s, list[k].doc) <==> (s.id, list[k].doc) in oldToNew;
      RewritePosting(store, t, list[k], s, start, oldToNew);
      TermStep(old(store.terms), mid, store.terms, t, list, k, s, start);
    }
    assert list[..|list|] == list;
  }

  method RewritePosting(store: TermStore, t: Term, p: Posting, s: Segment, ghost start: nat, oldToNew: map<Source, nat>)
    requires p.positions != [] && Ascending(p.positions)
    requires (s.id, p.doc) in oldToNew <==> Kept(s, p.doc)
    requires Kept(s, p.doc) ==> oldToNew[(s.id, p.doc)] == start + KeptBelow(s, p.doc)
    requires DocsBelow(Lookup(store.terms, t), start + KeptBelow(s, p.doc))
    modifies store
    ensures store.terms == if Kept(s, p.doc)
                           then old(store.terms)[t := Lookup(old(store.terms), t) + [Posting(start + KeptBelow(s, p.doc), p.positions)]]
                           else old(store.terms)
  {
    if (s.id, p.doc) in oldToNew {
      PushPosting(store, t, oldToNew[(s.id, p.doc)], p.positions);
    }
  }

  lemma {:induction false} TermStep(was: map<Term, PostingList>, mid: map<Term, PostingList>, now: map<Term, PostingList>,
                                    t: Term, list: PostingList, k: nat, s: Segment, start: nat)
    requires k < |list| && Appended(was, mid, t, Rewritten(list[..k], s, start))
    requires now == if Kept(s, list[k].doc)
                    then mid[t := Lookup(mid, t) + [Posting(start + KeptBelow(s, list[k].doc), list[k].positions)]]
                    else mid
    ensures Appended(was, now, t, Rewritten(list[..k + 1], s, start))
  {
    assert list[..k + 1] == list[..k] + [list[k]];
    RewriteOneMore(list[..k], [list[k]], s, start);
    if Kept(s, list[k].doc) {
      AppendedMore(was, mid, now, t, Rewritten(list[..k], s, start), Posting(start + KeptBelow(s, list[k].doc), list[k].positions));
    }
  }

  lemma {:induction false} RoomForNext(was: map<Term, PostingList>, now: map<Term, PostingList>, t: Term, list: PostingList, k: nat, s: Segment, start: nat)
    requires k < |list| && ValidList(list) && DocsBelow(Lookup(was, t), start)
    requires Appended(was, now, t, Rewritten(list[..k], s, start))
    ensures DocsBelow(Lookup(now, t), start + KeptBelow(s, list[k].doc))
  {
    RewrittenBelow(list[..k], s, start, list[k].doc);
    DocsBelowConcat(Lookup(was, t), Rewritten(list[..k], s, start), start + KeptBelow(s, list[k].doc));
  }

  lemma {:induction false} DocsBelowConcat(a: PostingList, b: PostingList, bound: nat)
    requires DocsBelow(a, bound) && DocsBelow(b, bound)
    ensures DocsBelow(a + b, bound)
  {
  }

  lemma {:induction false} AppendedMore(was: map<Term, PostingList>, mid: map<Term, PostingList>, now: map<Term, PostingList>, t: Term,
                                        added: PostingList, p: Posting)
    requires Appended(was, mid, t, added) && now == mid[t := Lookup(mid, t) + [p]]
    ensures Appended(was, now, t, added + [p])
  {
    assert Lookup(was, t) + added + [p] == Lookup(was, t) + (added + [p]);
  }

  /** Source `s` is numbered from `start`: its survivors, and nothing else. */
  ghost predicate SegmentNumbered(oldToNew: map<Source, nat>, s: Segment, start: nat) {
    forall l: nat | l < |s.docs| ::
      ((s.id, l) in oldToNew <==> Kept(s, l)) && (Kept(s, l) ==> oldToNew[(s.id, l)] == start + KeptBelow(s, l))
  }

  /** `dicts[i]` is what draining the dictionary of `segs[i]` gives. */
  method RewritePostings(ghost overlay: map<DocId, Meta>, segs: seq<Segment>, dicts: seq<map<Term, PostingList>>, oldToNew: map<Source, nat>)
    returns (terms: map<Term, PostingList>)
    requires DistinctIds(segs) && (forall s | s in segs :: ValidDocs(s.docs)) && Numbers(oldToNew, segs)
    requires |dicts| == |segs| && forall i | 0 <= i < |segs| :: Represents(dicts[i], segs[i].docs, 0)
    ensures Represents(terms, MergedDocs(overlay, segs), 0)
  {
    var store := new TermStore();
    for i := 0 to |segs|
      invariant fresh(store) && Represents(store.terms, MergedDocs(overlay, segs[..i]), 0)
    {
      assert segs[i] in segs;
      RewriteSegment(store, overlay, segs, dicts[i], i, oldToNew);
    }
    assert segs[..|segs|] == segs;
    terms := store.terms;
  }

  method RewriteSegment(store: TermStore, ghost overlay: map<DocId, Meta>, segs: seq<Segment>, dict: map<Term, PostingList>, i: nat, oldToNew: map<Source, nat>)
    requires i < |segs| && DistinctIds(segs) && ValidDocs(segs[i].docs) && Numbers(oldToNew, segs)
    requires Represents(store.terms, MergedDocs(overlay, segs[..i]), 0) && Represents(dict, segs[i].docs, 0)
    modifies store
    ensures Represents(store.terms, MergedDocs(overlay, segs[..i + 1]), 0)
  {
    ghost var was := store.terms;
    ghost var start := Survivors(segs[..i]);
    var pending := dict.Keys;
    SourceNumbered(segs, i, oldToNew);
    SegmentStart(was, segs[i], dict, start);
    while pending != {}
      invariant pending <= dict.Keys
      invariant SegmentRewritten(was, store.terms, segs[i], start, pending)
      decreases pending
    {
      var t :| t in pending;
      var list := dict[t];
      assert list == Lookup(dict, t);
      ReadyForTerm(overlay, segs, i, was, t);
      ghost var mid := store.terms;
      assert Lookup(mid, t) == Lookup(was, t) + [];
      RewriteTerm(store, t, list, segs[i], start, oldToNew);
      TermDone(was, mid, store.terms, segs[i], start, pending, t);
      pending := pending - {t};
    }
    SegmentDone(overlay, segs, i, was, store.terms);
  }

  /** Every term but the pending ones has the segment's rewritten postings appended. */
  ghost predicate SegmentRewritten(was: map<Term, PostingList>, now: map<Term, PostingList>, s: Segment, start: nat, pending: set<Term>) {
    && (forall t :: Lookup(now, t) == Lookup(was, t) + (if t in pending then [] else Rewritten(ListOf(s.docs, 0, t), s, start)))
    && NoneEmpty(now)
  }

  lemma {:induction false} SegmentStart(was: map<Term, PostingList>, s: Segment, dict: map<Term, PostingList>, start: nat)
    requires NoneEmpty(was) && Represents(dict, s.docs, 0)
    ensures SegmentRewritten(was, was, s, start, dict.Keys)
  {
    forall t
      ensures Lookup(was, t) == Lookup(was, t) + (if t in dict.Keys then [] else Rewritten(ListOf(s.docs, 0, t), s, start))
    {
      assert Lookup(dict, t) == ListOf(s.docs, 0, t);
    }
  }

  lemma {:induction false} TermDone(was: map<Term, PostingList>, mid: map<Term, PostingList>, now: map<Term, PostingList>,
                                    s: Segment, start: nat, pending: set<Term>, t: Term)
    requires SegmentRewritten(was, mid, s, start, pending) && t in pending
    requires Appended(mid, now, t, Rewritten(ListOf(s.docs, 0, t), s, start))
    ensures SegmentRewritten(was, now, s, start, pending - {t})
  {
    hide Rewritten, ListOf, Lookup;
    assert Lookup(mid, t) == Lookup(was, t) + [];
    forall u
      ensures Lookup(now, u) == Lookup(was, u) + (if u in pending - {t} then [] else Rewritten(ListOf(s.docs, 0, u), s, start))
    {
    }
  }

  lemma {:induction false} SourceNumbered(segs: seq<Segment>, i: nat, oldToNew: map<Source, nat>)
    requires i < |segs| && DistinctIds(segs) && Numbers(oldToNew, segs)
    ensures SegmentNumbered(oldToNew, segs[i], Survivors(segs[..i]))
  {
    forall l: nat | l < |segs[i].docs| && (segs[i].id, l) in oldToNew
      ensures Kept(segs[i], l)
    {
      assert Numbered(oldToNew, segs, (segs[i].id, l));
    }
  }

  lemma {:induction false} ReadyForTerm(overlay: map<DocId, Meta>, segs: seq<Segment>, i: nat, was: map<Term, PostingList>, t: Term)
    requires i < |segs| && ValidDocs(segs[i].docs)
    requires Represents(was, MergedDocs(overlay, segs[..i]), 0)
    ensures ValidList(ListOf(segs[i].docs, 0, t)) && DocsBelow(ListOf(segs[i].docs, 0, t), |segs[i].docs|)
    ensures DocsBelow(Lookup(was, t), Survivors(segs[..i]))
  {
    ListOfValid(segs[i].docs, 0, t);
    ListBelow(segs[i].docs, t);
    MergedDocsLength(overlay, segs[..i]);
    ListBelow(MergedDocs(overlay, segs[..i]), t);
  }

  lemma {:induction false} ListBelow(docs: seq<Doc>, t: Term)
    ensures DocsBelow(ListOf(docs, 0, t), |docs|)
  {
    ListOfMeaning(docs, 0, t);
    var list := ListOf(docs, 0, t);
    forall k | 0 <= k < |list|
      ensures list[k].doc < |docs|
    {
      assert list[k] in list;
    }
  }

  lemma {:induction false} SegmentDone(overlay: map<DocId, Meta>, segs: seq<Segment>, i: nat, was: map<Term, PostingList>, now: map<Term, PostingList>)
    requires i < |segs| && Represents(was, MergedDocs(overlay, segs[..i]), 0)
    requires SegmentRewritten(was, now, segs[i], Survivors(segs[..i]), {})
    ensures Represents(now, MergedDocs(overlay, segs[..i + 1]), 0)
  {
    forall t
      ensures Lookup(now, t) == ListOf(MergedDocs(overlay, segs[..i + 1]), 0, t)
    {
      assert Lookup(now, t) == Lookup(was, t) + Rewritten(ListOf(segs[i].docs, 0, t), segs[i], Survivors(segs[..i]));
      MergedList(overlay, segs, i, t);
    }
  }

  lemma {:induction false} MergedList(overlay: map<DocId, Meta>, segs: seq<Segment>, i: nat, t: Term)
    requires i < |segs|
    ensures ListOf(MergedDocs(overlay, segs[..i + 1]), 0, t)
         == ListOf(MergedDocs(overlay, segs[..i]), 0, t) + Rewritten(ListOf(segs[i].docs, 0, t), segs[i], Survivors(segs[..i]))
  {
    var s, front := segs[i], MergedDocs(overlay, segs[..i]);
    assert segs[..i + 1][..i] == segs[..i];
    assert MergedDocs(overlay, segs[..i + 1]) == front + SurvivorDocs(overlay, s, |s.docs|);
    hide Rewritten, ListOf, SurvivorDocs, MergedDocs;
    MergedDocsLength(overlay, segs[..i]);
    assert s.docs[..|s.docs|] == s.docs;
    RewriteMeaning(overlay, s, |s.docs|, |front|, t);
    ListOfConcat(front, SurvivorDocs(overlay, s, |s.docs|), 0, t);
  }
}
