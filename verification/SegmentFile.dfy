/**
 From a segment's term map to bytes and back: what a segment's `.idx` serves for
 a term is what the query engine takes its dictionary to hold
 (`flush_segment` and `prepare_merge` write, `IdxView::lookup` and `DiskCursor` read).
 */
module SegmentFile {
  import opened Wrappers
  import opened Documents
  import opened Postings
  import opened Segments
  import opened Bytes
  import opened DiskPostings
  import opened TermDict
  import opened TermLookup
  import opened TermRead
  import opened TermFile
  import opened Query
  import TermScan

  // ----- Terms in byte order -----

  /** `list` holds exactly the entries of `terms`. */
  ghost predicate Lists(terms: map<Term, PostingList>, list: seq<DictTerm>) {
    && Sorted(list) && (forall e | e in list :: e.term in terms && e.list == terms[e.term])
    && (forall t | t in terms :: DictTerm(t, terms[t]) in list)
  }

  method Place(sorted: seq<DictTerm>, e: DictTerm) returns (i: nat)
    requires Sorted(sorted) && forall k | 0 <= k < |sorted| :: sorted[k].term != e.term
    ensures i <= |sorted|
    ensures forall k | 0 <= k < i :: Less(sorted[k].term, e.term)
    ensures forall k | i <= k < |sorted| :: Less(e.term, sorted[k].term)
  {
    i := |sorted|;
    while i > 0 && Less(e.term, sorted[i - 1].term)
      invariant i <= |sorted|
      invariant forall k | i <= k < |sorted| :: Less(e.term, sorted[k].term)
    {
      i := i - 1;
    }
    if i > 0 {
      LessTotal(e.term, sorted[i - 1].term);
      forall k | 0 <= k < i - 1
        ensures Less(sorted[k].term, e.term)
      {
        LessTrans(sorted[k].term, sorted[i - 1].term, e.term);
      }
    }
  }

  lemma {:induction false} PlacedSorted(sorted: seq<DictTerm>, e: DictTerm, i: nat)
    requires Sorted(sorted) && i <= |sorted|
    requires forall k | 0 <= k < i :: Less(sorted[k].term, e.term)
    requires forall k | i <= k < |sorted| :: Less(e.term, sorted[k].term)
    ensures Sorted(sorted[..i] + [e] + sorted[i..])
    ensures forall x :: x in sorted[..i] + [e] + sorted[i..] <==> x in sorted || x == e
  {
    hide Less;
    assert sorted == sorted[..i] + sorted[i..];
  }

  method SortTerms(terms: map<Term, PostingList>) returns (list: seq<DictTerm>)
    ensures Lists(terms, list)
  {
    list := [];
    var left := terms.Keys;
    while left != {}
      invariant left <= terms.Keys && Sorted(list)
      invariant forall e | e in list :: e.term in terms && e.term !in left && e.list == terms[e.term]
      invariant forall t | t in terms && t !in left :: DictTerm(t, terms[t]) in list
      decreases left
    {
      var t :| t in left;
      var e := DictTerm(t, terms[t]);
      assert forall k | 0 <= k < |list| :: list[k] in list;
      var i := Place(list, e);
      PlacedSorted(list, e, i);
      list, left := list[..i] + [e] + list[i..], left - {t};
    }
  }

  // ----- Files of segments -----

  /** `ts` holds exactly the lists that queries take `s` to have, in order. */
  ghost predicate DictionaryOf(ts: seq<DictTerm>, s: Segment) {
    Sorted(ts) && forall e :: e in ts <==> ListIn(s, e.term) != [] && e.list == ListIn(s, e.term)
  }

  ghost predicate FileOf(file: bytes, s: Segment, crc: bytes -> nat) {
    exists ts :: DictionaryOf(ts, s) && FitsFile(ts) && crc(Body(ts)) < U32 && file == File(ts, crc)
  }

  /** Whatever spells the segment fits a file. */
  ghost predicate Fitting(s: Segment, crc: bytes -> nat) {
    forall ts {:trigger DictionaryOf(ts, s)} | DictionaryOf(ts, s) :: FitsFile(ts) && crc(Body(ts)) < U32
  }

  lemma {:induction false} EntryIs(terms: map<Term, PostingList>, s: Segment, list: seq<DictTerm>, t: Term)
    requires Represents(terms, s.docs, 0) && Lists(terms, list)
    ensures (exists e :: e in list && e.term == t && |t| <= MAX_TERM_BYTES) <==> ListIn(s, t) != []
    ensures ListIn(s, t) != [] ==> DictTerm(t, ListIn(s, t)) in list
  {
    hide Sorted, ListOf;
    assert Postings.Lookup(terms, t) == ListOf(s.docs, 0, t);
  }

  /** What writing a segment's term map keeps of it. */
  lemma {:induction false} KeptIsDictionary(terms: map<Term, PostingList>, s: Segment, list: seq<DictTerm>)
    requires Represents(terms, s.docs, 0) && Lists(terms, list)
    ensures DictionaryOf(Kept(list), s)
  {
    KeptSorted(list);
    forall e
      ensures e in Kept(list) <==> ListIn(s, e.term) != [] && e.list == ListIn(s, e.term)
    {
      KeptIff(list, e);
      EntryIs(terms, s, list, e.term);
    }
  }

  /** Writing a segment's term map gives a file of the segment. */
  method FlushFile(terms: map<Term, PostingList>, s: Segment, crc: bytes -> nat) returns (file: bytes)
    requires Represents(terms, s.docs, 0) && ValidDocs(s.docs) && Fitting(s, crc)
    ensures FileOf(file, s, crc)
  {
    hide Represents, ValidDocs, DictionaryOf, File, Body, Kept, FitsFile, AllValid, Lists;
    var list := SortTerms(terms);
    KeptIsDictionary(terms, s, list);
    SpeltValid(Kept(list), s);
    var written := Write(list, crc);
    file := written.value.0;
  }

  lemma {:induction false} SpeltValid(ts: seq<DictTerm>, s: Segment)
    requires DictionaryOf(ts, s) && ValidDocs(s.docs)
    ensures AllValid(ts)
  {
    hide ListOf, Sorted;
    forall i | 0 <= i < |ts|
      ensures ValidList(ts[i].list)
    {
      assert ts[i] in ts;
      ListOfValid(s.docs, 0, ts[i].term);
    }
  }

  /** What is read of a segment's file is its dictionary. */
  lemma {:induction false} FileReads(file: bytes, s: Segment, crc: bytes -> nat) returns (ts: seq<DictTerm>)
    requires FileOf(file, s, crc) && ValidDocs(s.docs)
    ensures ParseView(file).Success? && Laid(ParseView(file).value, ts) && DictionaryOf(ts, s) && AllValid(ts)
  {
    hide DictionaryOf, FitsFile, File, Body, ParseView, Laid;
    ts :| DictionaryOf(ts, s) && FitsFile(ts) && crc(Body(ts)) < U32 && file == File(ts, crc);
    FileOpens(ts, crc);
    SpeltValid(ts, s);
  }

  lemma {:induction false} DictionarySorted(ts: seq<DictTerm>, s: Segment)
    requires DictionaryOf(ts, s)
    ensures Sorted(ts)
  {
  }

  // ----- Looking a term up -----

  /** Any file of a segment gives, for any term, the bytes of the list that queries take it to have. */
  method LookupFile(file: bytes, s: Segment, ghost crc: bytes -> nat, t: Term) returns (found: Option<ListRef>)
    requires FileOf(file, s, crc) && ValidDocs(s.docs)
    ensures found.Some? <==> ListIn(s, t) != []
    ensures found.Some? ==> Spelt(found.value.data, ListIn(s, t)) && found.value.docFreq == |ListIn(s, t)|
  {
    hide DictionaryOf, ParseView, Laid, Readable, TermScan.Answers, AllEntries, Encoded, FileOf, ListIn, Sorted, AllValid, Spelt, Tiles, FoundIn, PostingsOf, EndOf;
    ghost var ts := FileReads(file, s, crc);
    var v := ParseView(file).value;
    DictionarySorted(ts, s);
    LaidReadable(v, ts);
    ListsFit(v, ts);
    var r := TermScan.Lookup(v, t);
    found := r.value;
    AnswersAre(v, ts, t, found);
    SpeltAnswer(ts, s, t);
    if found.Some? {
      ghost var j :| 0 <= j < |ts| && ts[j].term == t && found.value == ListRef(Encoded(ts[j].list), |ts[j].list|);
      assert Spelt(Encoded(ts[j].list), ts[j].list);
    }
  }

  lemma {:induction false} SpeltAnswer(ts: seq<DictTerm>, s: Segment, t: Term)
    requires DictionaryOf(ts, s)
    ensures forall j | 0 <= j < |ts| && ts[j].term == t :: ts[j].list == ListIn(s, t) != []
    ensures (forall j | 0 <= j < |ts| :: ts[j].term != t) ==> ListIn(s, t) == []
  {
    hide ListIn;
    forall j | 0 <= j < |ts|
      ensures ListIn(s, ts[j].term) != [] && ts[j].list == ListIn(s, ts[j].term)
    {
      assert ts[j] in ts;
    }
    if ListIn(s, t) != [] {
      assert DictTerm(t, ListIn(s, t)) in ts;
    }
  }

  /**
   Write a segment's term map, look a term up in the bytes, walk the cursor it
   gives: the result is the term's list as queries understand it.
   */
  method ServeTerm(s: Segment, terms: map<Term, PostingList>, crc: bytes -> nat, t: Term) returns (served: Option<PostingList>)
    requires Represents(terms, s.docs, 0) && ValidDocs(s.docs) && Fitting(s, crc)
    ensures served == if ListIn(s, t) == [] then None else Some(ListIn(s, t))
  {
    hide Represents, ValidDocs, Fitting, FileOf, ListIn, Spelt;
    var file := FlushFile(terms, s, crc);
    var found := LookupFile(file, s, crc, t);
    if found.None? { return None; }
    var collected := Collect(found.value.data);
    served := Some(collected);
  }
}
