/**
 Evaluating a query tree over a segment and over the index
 (src/query/exec.rs): term scans, the phrase leapfrog, and the combination of
 hit lists, each proved against the tree's meaning.
 */
module Exec {
  import opened Wrappers
  import opened Documents
  import opened Postings
  import opened Segments
  import opened Hits
  import opened Query
  import opened Bytes
  import opened DiskPostings
  import opened TermRead

  // ----- Answers found so far -----

  /** The part of `a` below `bound`. */
  function Below(a: Scores, bound: nat): Scores {
    map d | d in a && d < bound :: a[d]
  }

  lemma {:induction false} BelowGap(a: Scores, lo: nat, hi: nat)
    requires lo <= hi && forall d | d in a :: !(lo <= d < hi)
    ensures Below(a, lo) == Below(a, hi)
  {
  }

  lemma {:induction false} BelowNext(a: Scores, d: DocId)
    ensures Below(a, d + 1) == if d in a then Below(a, d)[d := a[d]] else Below(a, d)
  {
  }

  lemma {:induction false} BelowAll(a: Scores, bound: nat)
    requires forall d | d in a :: d < bound
    ensures Below(a, bound) == a
  {
  }

  ghost predicate Listed(list: PostingList, d: DocId) {
    exists k :: 0 <= k < |list| && list[k].doc == d
  }

  /** Every answer is a document of `list`. */
  ghost predicate Within(a: Scores, list: PostingList) {
    forall d {:trigger Listed(list, d)} | d in a :: Listed(list, d)
  }

  /** A cursor that has passed everything below `lo` and stands at or past `hi` has skipped no answer. */
  lemma {:induction false} NothingSkipped(a: Scores, list: PostingList, i: nat, lo: nat, hi: nat)
    requires Within(a, list) && DocsAscend(list) && i <= |list| && lo <= hi
    requires forall k | 0 <= k < i :: list[k].doc < lo
    requires i < |list| ==> list[i].doc >= hi
    ensures Below(a, lo) == Below(a, hi)
  {
    forall d | d in a
      ensures !(lo <= d < hi)
    {
      assert Listed(list, d);
      var k :| 0 <= k < |list| && list[k].doc == d;
    }
    BelowGap(a, lo, hi);
  }

  // ----- Cursors over the lists of an `.idx` -----

  /** The cursor walks `list`, standing where its index says. */
  ghost predicate Stands(c: DiskCursor, list: PostingList)
    reads c
  {
    && c.Inside() && c.At(list, c.Index(list)) && c.Index(list) <= |list| && c.Doc() == DocAtIndex(list, c.Index(list))
  }

  method OpenList(ref: ListRef, ghost list: PostingList) returns (c: DiskCursor)
    requires Spelt(ref.data, list)
    ensures fresh(c) && Stands(c, list) && c.Index(list) == 0
  {
    hide DiskCursor.At, DiskCursor.Inside, DiskCursor.Index, ValidList, Fits;
    c := new DiskCursor(ref.data);
    c.AtIndex(list, 0);
  }

  method StepCursor(c: DiskCursor, ghost list: PostingList)
    requires Stands(c, list)
    modifies c
    ensures Stands(c, list) && c.Index(list) == if old(c.Index(list)) < |list| then old(c.Index(list)) + 1 else old(c.Index(list))
  {
    hide DiskCursor.At, DiskCursor.Inside, DiskCursor.Index, ValidList;
    ghost var i := c.Index(list);
    var _ := c.Advance();
    c.AtIndex(list, if i < |list| then i + 1 else i);
  }

  method SeekCursor(c: DiskCursor, ghost list: PostingList, target: DocId) returns (d: Option<DocId>)
    requires Stands(c, list)
    modifies c
    ensures Stands(c, list) && c.Index(list) == SeekIndex(list, old(c.Index(list)), target) && d == c.Doc()
  {
    hide DiskCursor.At, DiskCursor.Inside, DiskCursor.Index, ValidList;
    ghost var i := c.Index(list);
    d := c.Seek(target);
    c.AtIndex(list, SeekIndex(list, i, target));
  }

  method ReadPositions(c: DiskCursor, ghost list: PostingList) returns (ps: seq<Position>)
    requires Stands(c, list) && c.Index(list) < |list|
    modifies c
    ensures Stands(c, list) && c.Index(list) == old(c.Index(list))
    ensures ps == list[c.Index(list)].positions && Ascending(ps) && Wide(ps)
  {
    EntryWide(c, list);
    hide DiskCursor.At, DiskCursor.Inside, DiskCursor.Index, ValidList, Ascending, Wide;
    ghost var i := c.Index(list);
    ps := c.Positions();
    c.AtIndex(list, i);
  }

  lemma {:induction false} EntryWide(c: DiskCursor, list: PostingList)
    requires Stands(c, list) && c.Index(list) < |list|
    ensures Ascending(list[c.Index(list)].positions) && Wide(list[c.Index(list)].positions)
    ensures c.TermFreq() == |list[c.Index(list)].positions|
  {
  }

  // ----- Terms -----

  lemma {:induction false} TermAnswers(s: Segment, t: Term, sc: Scoring, st: Stats)
    requires ValidDocs(s.docs)
    ensures Within(Answer(s, TermNode(t), sc, st), ListIn(s, t))
    ensures forall d | d in Answer(s, TermNode(t), sc, st) :: d < |s.docs|
    ensures forall k | 0 <= k < |ListIn(s, t)| ::
              var p := ListIn(s, t)[k];
              && p.doc < |s.docs| && (p.doc in Answer(s, TermNode(t), sc, st) <==> Searchable(s, p.doc))
              && (p.doc in Answer(s, TermNode(t), sc, st) ==>
                    Answer(s, TermNode(t), sc, st)[p.doc] == sc.score(Idf(t, sc, st), |p.positions|, s.docs[p.doc].record.len, st.avgLen))
  {
    ListInIs(s, t);
    var a, list := Answer(s, TermNode(t), sc, st), ListIn(s, t);
    forall d {:trigger Listed(list, d)} | d in a
      ensures Listed(list, d)
    {
      assert PositionsIn(s.docs[d].record, t) != [];
    }
  }

  /** Where an ascending walk of `list` stands: everything below its current document is answered. */
  ghost predicate Scanned(a: Scores, list: PostingList, k: nat, out: seq<Hit>, bound: nat) {
    && k <= |list| && Ascends(out)
    && ScoresOf(out) == Below(a, if k < |list| then list[k].doc else bound)
    && (out != [] && k < |list| ==> out[|out| - 1].doc < list[k].doc)
  }

  lemma {:induction false} ScanStart(a: Scores, list: PostingList, bound: nat)
    requires Within(a, list) && DocsAscend(list)
    ensures Scanned(a, list, 0, [], bound)
  {
    NothingSkipped(a, list, 0, 0, if 0 < |list| then list[0].doc else bound);
    assert Below(a, 0) == map[];
  }

  lemma {:induction false} ScanStep(a: Scores, list: PostingList, k: nat, out: seq<Hit>, more: seq<Hit>, bound: nat)
    requires Within(a, list) && DocsAscend(list) && Scanned(a, list, k, out, bound) && k < |list| && list[k].doc < bound
    requires if list[k].doc in a then more == out + [Hit(list[k].doc, a[list[k].doc])] else more == out
    ensures Scanned(a, list, k + 1, more, bound)
  {
    var d := list[k].doc;
    BelowNext(a, d);
    if d in a {
      ScoresSnoc(out, Hit(d, a[d]));
      AscendsSnoc(out, Hit(d, a[d]));
    }
    NothingSkipped(a, list, k + 1, d + 1, if k + 1 < |list| then list[k + 1].doc else bound);
  }

  /** Walk one term's postings and score each document that has a length. */
  method EvalTerm(s: Segment, lists: map<Term, ListRef>, t: Term, sc: Scoring, st: Stats) returns (out: seq<Hit>)
    requires ValidDocs(s.docs) && LooksUp(lists, s, t)
    ensures Ascends(out) && ScoresOf(out) == Answer(s, TermNode(t), sc, st)
  {
    hide Answer, ListIn, Within, Scanned, ValidList, Ascends, Spelt, Stands, DiskCursor.Index, DiskCursor.Inside, DiskCursor.At;
    TermAnswers(s, t, sc, st);
    ListInIs(s, t);
    ghost var a, list := Answer(s, TermNode(t), sc, st), ListIn(s, t);
    if t !in lists {
      NoListNoAnswer(a);
      return [];
    }
    var idf := Idf(t, sc, st);
    var cur := OpenList(lists[t], list);
    out := [];
    ValidAscends(list);
    ScanStart(a, list, |s.docs|);
    StandsAt(cur, list);
    while cur.Doc().Some?
      invariant fresh(cur) && Stands(cur, list) && cur.Index(list) <= |list| && cur.Doc() == DocAtIndex(list, cur.Index(list))
      invariant Scanned(a, list, cur.Index(list), out, |s.docs|)
      decreases |list| - cur.Index(list)
    {
      ghost var before := out;
      var doc := cur.Doc().value;
      EntryWide(cur, list);
      if Searchable(s, doc) {
        out := out + [Hit(doc, sc.score(idf, cur.TermFreq(), s.docs[doc].record.len, st.avgLen))];
      }
      ScanStep(a, list, cur.Index(list), before, out, |s.docs|);
      StepCursor(cur, list);
      StandsAt(cur, list);
    }
    ScanEnd(a, list, out, |s.docs|);
  }

  lemma {:induction false} StandsAt(c: DiskCursor, list: PostingList)
    requires Stands(c, list)
    ensures c.Index(list) <= |list| && c.Doc() == DocAtIndex(list, c.Index(list))
  {
  }

  lemma {:induction false} ValidAscends(list: PostingList)
    requires ValidList(list)
    ensures DocsAscend(list)
  {
  }

  lemma {:induction false} NoListNoAnswer(a: Scores)
    requires Within(a, [])
    ensures Ascends([]) && ScoresOf([]) == a
  {
    forall d
      ensures d !in a
    {
      NotListed(d);
    }
  }

  lemma {:induction false} NotListed(d: DocId)
    ensures !Listed([], d)
  {
  }

  lemma {:induction false} ScanEnd(a: Scores, list: PostingList, out: seq<Hit>, bound: nat)
    requires Scanned(a, list, |list|, out, bound) && forall d | d in a :: d < bound
    ensures Ascends(out) && ScoresOf(out) == a
  {
    BelowAll(a, bound);
  }

  /** The dictionary lookup made for `t`: absent exactly if its list is empty, and else its bytes. */
  ghost predicate LooksUp(lists: map<Term, ListRef>, s: Segment, t: Term) {
    && (t in lists <==> ListIn(s, t) != [])
    && (t in lists ==> Spelt(lists[t].data, ListIn(s, t)) && lists[t].docFreq == |ListIn(s, t)|)
  }

  // ----- Phrases -----

  /** Every document that has the phrase has each of its terms. */
  lemma {:induction false} PhraseAnswers(s: Segment, ts: seq<Term>, sc: Scoring, st: Stats)
    requires ValidDocs(s.docs) && |ts| >= 2
    ensures forall i | 0 <= i < |ts| :: Within(Answer(s, PhraseNode(ts), sc, st), ListIn(s, ts[i]))
    ensures forall d | d in Answer(s, PhraseNode(ts), sc, st) :: d < |s.docs|
  {
    var a := Answer(s, PhraseNode(ts), sc, st);
    forall i | 0 <= i < |ts|
      ensures Within(a, ListIn(s, ts[i]))
    {
      forall d {:trigger Listed(ListIn(s, ts[i]), d)} | d in a
        ensures Listed(ListIn(s, ts[i]), d)
      {
        var p :| p in Starts(s.docs[d].record, ts);
        assert p + i in PositionsIn(s.docs[d].record, ts[i]);
        ListInIs(s, ts[i]);
      }
    }
  }

  /** The positions of each phrase term in one document. */
  function PhrasePositions(r: Record, ts: seq<Term>): seq<seq<Position>> {
    seq(|ts|, i requires 0 <= i < |ts| => PositionsIn(r, ts[i]))
  }

  method BinarySearch(ps: seq<Position>, p: Position) returns (found: bool)
    requires Ascending(ps)
    ensures found <==> p in ps
  {
    var lo, hi := 0, |ps|;
    while lo < hi
      invariant 0 <= lo <= hi <= |ps|
      invariant forall i | 0 <= i < lo :: ps[i] < p
      invariant forall i | hi <= i < |ps| :: ps[i] > p
    {
      var mid := lo + (hi - lo) / 2;
      if ps[mid] == p {
        return true;
      } else if ps[mid] < p {
        lo := mid + 1;
      } else {
        hi := mid;
      }
    }
    found := false;
  }

  /** Positions of 32 bits. */
  ghost predicate Wide(ps: seq<Position>) {
    forall p | p in ps :: p < U32
  }

  /** `p` starts an occurrence: the k-th list holds `p + k`. */
  predicate LinesUp(lists: seq<seq<Position>>, p: Position) {
    forall k | 0 <= k < |lists| :: p + k in lists[k]
  }

  /** Whether the k-th list holds `p + k`, for all but the first; a sum past 32 bits is no position. */
  method Follows(lists: seq<seq<Position>>, p: Position) returns (all: bool)
    requires lists != [] && forall k | 0 <= k < |lists| :: Ascending(lists[k]) && Wide(lists[k])
    ensures all <==> forall k | 1 <= k < |lists| :: p + k in lists[k]
  {
    hide Ascending, Wide;
    all := true;
    var k := 1;
    while k < |lists| && all
      invariant 1 <= k <= |lists|
      invariant all <==> forall j | 1 <= j < k :: p + j in lists[j]
    {
      if p + k < U32 {
        all := BinarySearch(lists[k], p + k);
      } else {
        NotWide(lists[k], p + k);
        all := false;
      }
      k := k + 1;
    }
  }

  lemma {:induction false} NotWide(ps: seq<Position>, p: Position)
    requires Wide(ps) && p >= U32
    ensures p !in ps
  {
  }

  /** Which of these positions start the phrase. */
  ghost function StartsIn(lists: seq<seq<Position>>, ps: seq<Position>): set<Position> {
    set p | p in ps && LinesUp(lists, p)
  }

  lemma {:induction false} StartsAre(lists: seq<seq<Position>>, ps: seq<Position>)
    ensures StartsIn(lists, ps) == set p | p in ps && LinesUp(lists, p)
  {
  }

  lemma {:induction false} StartsNone(lists: seq<seq<Position>>)
    requires lists != []
    ensures StartsIn(lists, lists[0][..0]) == {}
  {
  }

  lemma {:induction false} StartsMore(lists: seq<seq<Position>>, i: nat)
    requires lists != [] && i < |lists[0]| && Ascending(lists[0])
    ensures |StartsIn(lists, lists[0][..i + 1])| == |StartsIn(lists, lists[0][..i])| + if LinesUp(lists, lists[0][i]) then 1 else 0
  {
    var p, before, after := lists[0][i], StartsIn(lists, lists[0][..i]), StartsIn(lists, lists[0][..i + 1]);
    NotBefore(lists[0], i);
    assert lists[0][..i + 1] == lists[0][..i] + [p];
    hide LinesUp, Ascending;
    assert after == if LinesUp(lists, p) then before + {p} else before;
  }

  /** How many positions of the first term start the phrase. */
  method PhraseMatches(lists: seq<seq<Position>>) returns (tf: nat)
    requires forall k | 0 <= k < |lists| :: Ascending(lists[k]) && Wide(lists[k])
    ensures lists == [] ==> tf == 0
    ensures lists != [] ==> tf == |set p | p in lists[0] && LinesUp(lists, p)|
  {
    if lists == [] {
      return 0;
    }
    hide Ascending, Wide, LinesUp, StartsIn;
    tf := 0;
    StartsNone(lists);
    for i := 0 to |lists[0]|
      invariant tf == |StartsIn(lists, lists[0][..i])|
    {
      StartsMore(lists, i);
      LinesUpIs(lists, lists[0][i]);
      var all := Follows(lists, lists[0][i]);
      if all {
        tf := tf + 1;
      }
    }
    assert StartsIn(lists, lists[0]) == set p | p in lists[0] && LinesUp(lists, p) by { StartsAre(lists, lists[0]); }
    assert lists[0][..|lists[0]|] == lists[0];
  }

  lemma {:induction false} LinesUpIs(lists: seq<seq<Position>>, p: Position)
    requires lists != []
    ensures LinesUp(lists, p) <==> p in lists[0] && forall k | 1 <= k < |lists| :: p + k in lists[k]
  {
    if p in lists[0] && forall k | 1 <= k < |lists| :: p + k in lists[k] {
      forall k | 0 <= k < |lists|
        ensures p + k in lists[k]
      {
      }
    }
    if LinesUp(lists, p) {
      assert p + 0 in lists[0];
    }
  }

  lemma {:induction false} NotBefore(ps: seq<Position>, i: nat)
    requires Ascending(ps) && i < |ps|
    ensures ps[i] !in ps[..i]
  {
  }

  /** Lining up is starting the phrase. */
  lemma {:induction false} StartsLineUp(r: Record, ts: seq<Term>)
    requires ts != []
    ensures (set p | p in PhrasePositions(r, ts)[0] && LinesUp(PhrasePositions(r, ts), p)) == Starts(r, ts)
  {
    var lists := PhrasePositions(r, ts);
    forall p | p in lists[0]
      ensures LinesUp(lists, p) <==> StartsAt(r, ts, p)
    {
      if LinesUp(lists, p) {
        forall i | 0 <= i < |ts|
          ensures p + i in PositionsIn(r, ts[i])
        {
          assert p + i in lists[i];
        }
      }
    }
  }

  /** One cursor per phrase term, each over that term's list. */
  ghost predicate Cursors(cursors: seq<DiskCursor>, s: Segment, ts: seq<Term>)
    reads cursors
  {
    && |cursors| == |ts|
    && (forall i, j | 0 <= i < j < |cursors| :: cursors[i] != cursors[j])
    && forall i | 0 <= i < |cursors| :: Stands(cursors[i], ListIn(s, ts[i]))
  }

  /** The list has nothing at or after `target` before its `n`-th posting. */
  ghost predicate Passed(list: PostingList, n: nat, target: nat) {
    forall k | 0 <= k < n && k < |list| :: list[k].doc < target
  }

  /** No cursor has passed a document at or after `target`. */
  ghost predicate Behind(cursors: seq<DiskCursor>, s: Segment, ts: seq<Term>, target: nat)
    requires |cursors| == |ts|
    reads cursors
  {
    forall i | 0 <= i < |cursors| :: Passed(ListIn(s, ts[i]), cursors[i].Index(ListIn(s, ts[i])), target)
  }

  /** Everything the phrase answers below `target` is in `out`. */
  ghost predicate Found(a: Scores, out: seq<Hit>, target: nat) {
    Ascends(out) && ScoresOf(out) == Below(a, target) && (out != [] ==> out[|out| - 1].doc < target)
  }

  /** Seek one cursor; the others stay where they are. */
  method SeekOne(cursors: seq<DiskCursor>, s: Segment, ts: seq<Term>, i: nat, target: DocId, ghost low: nat) returns (d: Option<DocId>)
    requires Cursors(cursors, s, ts) && i < |cursors| && Behind(cursors, s, ts, low) && low <= target
    modifies cursors[i]
    ensures Cursors(cursors, s, ts) && Behind(cursors, s, ts, target)
    ensures d == cursors[i].Doc() && (d.Some? ==> d.value >= target)
    ensures cursors[i].Index(ListIn(s, ts[i])) >= old(cursors[i].Index(ListIn(s, ts[i])))
    ensures old(cursors[i].Doc()).Some? && old(cursors[i].Doc()).value < target ==>
              cursors[i].Index(ListIn(s, ts[i])) > old(cursors[i].Index(ListIn(s, ts[i])))
  {
    hide ListIn, ValidList, Stands, DiskCursor.Index, DiskCursor.Inside, DiskCursor.At, Passed;
    ghost var list := ListIn(s, ts[i]);
    StandsAt(cursors[i], list);
    ghost var before := cursors[i].Index(list);
    d := SeekCursor(cursors[i], list, target);
    StandsAt(cursors[i], list);
    PassedBySeek(list, before, low, target);
    forall j | 0 <= j < |cursors| && j != i
      ensures Passed(ListIn(s, ts[j]), cursors[j].Index(ListIn(s, ts[j])), target)
    {
      PassedMore(ListIn(s, ts[j]), cursors[j].Index(ListIn(s, ts[j])), low, target);
    }
  }

  lemma {:induction false} PassedBySeek(list: PostingList, n: nat, low: nat, target: DocId)
    requires n <= |list| && Passed(list, n, low) && low <= target
    ensures var i := SeekIndex(list, n, target);
      Passed(list, i, target) && (i < |list| ==> list[i].doc >= target) && (n < |list| && list[n].doc < target ==> i > n)
  {
    SeekLands(list, n, target);
  }

  lemma {:induction false} BehindMore(cursors: seq<DiskCursor>, s: Segment, ts: seq<Term>, low: nat, target: nat)
    requires |cursors| == |ts| && Behind(cursors, s, ts, low) && low <= target
    ensures Behind(cursors, s, ts, target)
  {
    hide ListIn, DiskCursor.Index;
  }

  lemma {:induction false} BehindStart(cursors: seq<DiskCursor>, s: Segment, ts: seq<Term>, target: nat)
    requires |cursors| == |ts| && forall i | 0 <= i < |cursors| :: cursors[i].Index(ListIn(s, ts[i])) == 0
    ensures Behind(cursors, s, ts, target)
  {
    hide ListIn, DiskCursor.Index;
  }

  lemma {:induction false} PassedMore(list: PostingList, n: nat, low: nat, target: nat)
    requires Passed(list, n, low) && low <= target
    ensures Passed(list, n, target)
  {
  }

  /** Every cursor's list covers the answers. */
  ghost predicate AllWithin(a: Scores, s: Segment, ts: seq<Term>) {
    forall i | 0 <= i < |ts| :: Within(a, ListIn(s, ts[i])) && DocsAscend(ListIn(s, ts[i]))
  }

  /**
   Bring every cursor to the first document common to all from where cursor 0
   stands; whenever one overshoots, start over from its document.
   */
  method Align(cursors: seq<DiskCursor>, s: Segment, ts: seq<Term>, ghost a: Scores) returns (found: Option<DocId>)
    requires Cursors(cursors, s, ts) && cursors != [] && cursors[0].Doc().Some?
    requires Behind(cursors, s, ts, cursors[0].Doc().value) && AllWithin(a, s, ts) && forall d | d in a :: d < |s.docs|
    modifies cursors
    ensures Cursors(cursors, s, ts) && cursors[0].Index(ListIn(s, ts[0])) >= old(cursors[0].Index(ListIn(s, ts[0])))
    ensures found.None? ==> Below(a, old(cursors[0].Doc()).value) == a
    ensures found.Some? ==> Behind(cursors, s, ts, found.value) && (forall i | 0 <= i < |cursors| :: cursors[i].Doc() == found)
    ensures found.Some? ==> Below(a, old(cursors[0].Doc()).value) == Below(a, found.value)
    ensures found.Some? ==> found.value >= old(cursors[0].Doc()).value
  {
    hide ValidList, ListIn, Within, Below, Stands, Passed, DiskCursor.Index, DiskCursor.Inside, DiskCursor.At;
    var target := cursors[0].Doc().value;
    ghost var start := target;
    var i := 1;
    StandsAt(cursors[0], ListIn(s, ts[0]));
    while i < |cursors|
      invariant 1 <= i <= |cursors| && Cursors(cursors, s, ts) && Behind(cursors, s, ts, target)
      invariant cursors[0].Doc() == Some(target) && (forall j | 1 <= j < i :: cursors[j].Doc() == Some(target))
      invariant Below(a, start) == Below(a, target) && start <= target
      invariant old(cursors[0].Index(ListIn(s, ts[0]))) <= cursors[0].Index(ListIn(s, ts[0])) <= |ListIn(s, ts[0])|
      decreases |ListIn(s, ts[0])| - cursors[0].Index(ListIn(s, ts[0])), |cursors| - i
    {
      assert AllWithin(a, s, ts);
      var d := SeekOne(cursors, s, ts, i, target, target);
      StandsAt(cursors[i], ListIn(s, ts[i]));
      if d.None? {
        Exhausted(a, ListIn(s, ts[i]), cursors[i].Index(ListIn(s, ts[i])), target, |s.docs|);
        return None;
      }
      if d.value == target {
        i := i + 1;
      } else {
        SkippedNone(a, ListIn(s, ts[i]), cursors[i].Index(ListIn(s, ts[i])), target, d.value);
        var d0 := SeekOne(cursors, s, ts, 0, d.value, target);
        StandsAt(cursors[0], ListIn(s, ts[0]));
        if d0.None? {
          Exhausted(a, ListIn(s, ts[0]), cursors[0].Index(ListIn(s, ts[0])), d.value, |s.docs|);
          return None;
        }
        SkippedNone(a, ListIn(s, ts[0]), cursors[0].Index(ListIn(s, ts[0])), d.value, d0.value);
        BehindMore(cursors, s, ts, d.value, d0.value);
        target := d0.value;
        i := 1;
      }
    }
    found := Some(target);
  }

  lemma {:induction false} SkippedNone(a: Scores, list: PostingList, i: nat, lo: nat, hi: nat)
    requires Within(a, list) && DocsAscend(list) && i < |list| && lo <= hi && Passed(list, i, lo) && list[i].doc == hi
    ensures Below(a, lo) == Below(a, hi)
  {
    NothingSkipped(a, list, i, lo, hi);
  }

  lemma {:induction false} Exhausted(a: Scores, list: PostingList, i: nat, lo: nat, bound: nat)
    requires Within(a, list) && DocsAscend(list) && i == |list| && Passed(list, i, lo) && forall d | d in a :: d < bound
    ensures Below(a, lo) == a
  {
    NothingSkipped(a, list, |list|, lo, if lo < bound then bound else lo);
    BelowAll(a, if lo < bound then bound else lo);
  }

  method GatherPositions(cursors: seq<DiskCursor>, s: Segment, ts: seq<Term>, target: DocId) returns (positions: seq<seq<Position>>)
    requires ValidDocs(s.docs) && Cursors(cursors, s, ts) && target < |s.docs|
    requires forall i | 0 <= i < |cursors| :: cursors[i].Doc() == Some(target)
    modifies cursors
    ensures Cursors(cursors, s, ts) && SamePlaces(cursors, s, ts)
    ensures positions == PhrasePositions(s.docs[target].record, ts)
    ensures forall k | 0 <= k < |positions| :: Ascending(positions[k]) && Wide(positions[k])
  {
    hide ValidDocs, ListIn, PositionsIn, Ascending, Wide, Stands, DiskCursor.Index, DiskCursor.Inside, DiskCursor.At;
    positions := [];
    for i := 0 to |cursors|
      invariant |positions| == i && Cursors(cursors, s, ts) && SamePlaces(cursors, s, ts)
      invariant forall j | i <= j < |cursors| :: cursors[j].Doc() == Some(target)
      invariant forall k | 0 <= k < i :: positions[k] == PositionsIn(s.docs[target].record, ts[k]) && Ascending(positions[k]) && Wide(positions[k])
    {
      ListInIs(s, ts[i]);
      StandsAt(cursors[i], ListIn(s, ts[i]));
      var ps := ReadPositions(cursors[i], ListIn(s, ts[i]));
      positions := positions + [ps];
    }
  }

  /** No cursor has moved. */
  twostate predicate SamePlaces(cursors: seq<DiskCursor>, s: Segment, ts: seq<Term>)
    requires |cursors| == |ts|
    reads cursors
  {
    forall i | 0 <= i < |cursors| :: cursors[i].Index(ListIn(s, ts[i])) == old(cursors[i].Index(ListIn(s, ts[i])))
  }

  /** Where cursor 0 stands, or past every document. */
  function Frontier(cursor: DiskCursor, bound: nat): nat
    reads cursor
  {
    if cursor.Doc().Some? then cursor.Doc().value else bound
  }

  lemma {:induction false} SinglePhrase(s: Segment, t: Term, sc: Scoring, st: Stats)
    ensures Answer(s, PhraseNode([t]), sc, st) == Answer(s, TermNode(t), sc, st)
  {
    assert forall r: Record :: Matches(r, PhraseNode([t])) == Matches(r, TermNode(t)) && Score(r, PhraseNode([t]), sc, st) == Score(r, TermNode(t), sc, st);
  }

  lemma {:induction false} NoPhrase(s: Segment, sc: Scoring, st: Stats)
    ensures Answer(s, PhraseNode([]), sc, st) == map[]
  {
    assert forall r: Record :: !Matches(r, PhraseNode([]));
  }

  lemma {:induction false} PhraseScore(s: Segment, ts: seq<Term>, sc: Scoring, st: Stats, d: DocId, tf: nat)
    requires |ts| >= 2 && d < |s.docs| && tf == |Starts(s.docs[d].record, ts)|
    ensures var a := Answer(s, PhraseNode(ts), sc, st);
      && (d in a <==> Searchable(s, d) && tf > 0)
      && (d in a ==> a[d] == sc.score(IdfSum(ts, sc, st), tf, s.docs[d].record.len, st.avgLen))
  {
  }

  lemma {:induction false} FoundNext(a: Scores, list: PostingList, i: nat, out: seq<Hit>, more: seq<Hit>, target: DocId, next: nat)
    requires Within(a, list) && DocsAscend(list) && 0 < i <= |list| && list[i - 1].doc == target && Found(a, out, target)
    requires if target in a then more == out + [Hit(target, a[target])] else more == out
    requires target < next && (i < |list| ==> list[i].doc == next)
    ensures Found(a, more, next)
  {
    BelowNext(a, target);
    if target in a {
      ScoresSnoc(out, Hit(target, a[target]));
      AscendsSnoc(out, Hit(target, a[target]));
    }
    NothingSkipped(a, list, i, target + 1, next);
  }

  /**
   The leapfrog: align all cursors, count the phrase's starts in the common
   document, step cursor 0.
   */
  method EvalPhrase(s: Segment, lists: map<Term, ListRef>, ts: seq<Term>, sc: Scoring, st: Stats) returns (out: seq<Hit>)
    requires ValidDocs(s.docs) && forall t | t in ts :: LooksUp(lists, s, t)
    ensures Ascends(out) && ScoresOf(out) == Answer(s, PhraseNode(ts), sc, st)
  {
    hide Answer, ListIn, ValidDocs, ValidList, Ascends, Within, Below, Starts, ScoresOf, Spelt, Stands, DiskCursor.Index, DiskCursor.Inside, DiskCursor.At;
    if |ts| == 0 {
      NoPhrase(s, sc, st);
      NoneAscends();
      NoneScored([]);
      return [];
    }
    if |ts| == 1 {
      SinglePhrase(s, ts[0], sc, st);
      assert ts == [ts[0]];
      out := EvalTerm(s, lists, ts[0], sc, st);
      return;
    }
    ghost var a := Answer(s, PhraseNode(ts), sc, st);
    PhraseAnswers(s, ts, sc, st);
    var cursors, missing := OpenCursors(s, lists, ts);
    if missing {
      ghost var i :| 0 <= i < |ts| && ListIn(s, ts[i]) == [];
      NoListNoAnswer(a);
      return [];
    }
    var idf := SumIdfs(ts, sc, st);
    out := EvalAligned(s, ts, cursors, idf, sc, st);
  }

  method OpenCursors(s: Segment, lists: map<Term, ListRef>, ts: seq<Term>) returns (cursors: seq<DiskCursor>, missing: bool)
    requires forall t | t in ts :: LooksUp(lists, s, t)
    ensures missing ==> exists i :: 0 <= i < |ts| && ListIn(s, ts[i]) == []
    ensures !missing ==> Cursors(cursors, s, ts) && fresh(cursors) && forall i | 0 <= i < |cursors| :: cursors[i].Index(ListIn(s, ts[i])) == 0
  {
    hide ListIn, Spelt, Stands, DiskCursor.Index, DiskCursor.Inside, DiskCursor.At;
    cursors, missing := [], false;
    for i := 0 to |ts|
      invariant |cursors| == i && fresh(cursors)
      invariant forall j, k | 0 <= j < k < i :: cursors[j] != cursors[k]
      invariant forall j | 0 <= j < i :: Stands(cursors[j], ListIn(s, ts[j])) && cursors[j].Index(ListIn(s, ts[j])) == 0
    {
      assert ts[i] in ts && LooksUp(lists, s, ts[i]);
      if ts[i] !in lists {
        missing := true;
        return;
      }
      var cur := OpenList(lists[ts[i]], ListIn(s, ts[i]));
      cursors := cursors + [cur];
    }
  }

  method SumIdfs(ts: seq<Term>, sc: Scoring, st: Stats) returns (idf: real)
    ensures idf == IdfSum(ts, sc, st)
  {
    idf := 0.0;
    for k := 0 to |ts|
      invariant idf == IdfSum(ts[..k], sc, st)
    {
      assert ts[..k + 1][..k] == ts[..k];
      idf := idf + Idf(ts[k], sc, st);
    }
    assert ts[..|ts|] == ts;
  }

  /** All cursors stand on `target`: count the phrase there and push a hit if it occurs. */
  method ScoreTarget(s: Segment, ts: seq<Term>, cursors: seq<DiskCursor>, target: DocId, idf: real, out: seq<Hit>, sc: Scoring, st: Stats)
    returns (more: seq<Hit>)
    requires ValidDocs(s.docs) && |ts| >= 2 && idf == IdfSum(ts, sc, st) && Cursors(cursors, s, ts) && target < |s.docs|
    requires forall i | 0 <= i < |cursors| :: cursors[i].Doc() == Some(target)
    modifies cursors
    ensures Cursors(cursors, s, ts) && SamePlaces(cursors, s, ts)
    ensures var a := Answer(s, PhraseNode(ts), sc, st);
      more == if target in a then out + [Hit(target, a[target])] else out
  {
    hide Answer, ListIn, ValidDocs, ValidList, Ascending, Starts, PositionsIn, Stands, DiskCursor.Index, DiskCursor.Inside, DiskCursor.At;
    more := out;
    PhraseScore(s, ts, sc, st, target, |Starts(s.docs[target].record, ts)|);
    if Searchable(s, target) {
      var positions := GatherPositions(cursors, s, ts, target);
      var tf := PhraseMatches(positions);
      StartsLineUp(s.docs[target].record, ts);
      if tf > 0 {
        more := out + [Hit(target, sc.score(idf, tf, s.docs[target].record.len, st.avgLen))];
      }
    }
  }

  /** Step cursor 0 past the common document. */
  method StepFirst(s: Segment, ts: seq<Term>, cursors: seq<DiskCursor>, target: DocId)
    requires ValidDocs(s.docs) && Cursors(cursors, s, ts) && cursors != [] && Behind(cursors, s, ts, target) && cursors[0].Doc() == Some(target)
    modifies cursors[0]
    ensures Cursors(cursors, s, ts) && cursors[0].Index(ListIn(s, ts[0])) == old(cursors[0].Index(ListIn(s, ts[0]))) + 1 <= |ListIn(s, ts[0])|
    ensures Behind(cursors, s, ts, Frontier(cursors[0], |s.docs|)) && target < Frontier(cursors[0], |s.docs|)
    ensures ListIn(s, ts[0])[cursors[0].Index(ListIn(s, ts[0])) - 1].doc == target
    ensures cursors[0].Index(ListIn(s, ts[0])) < |ListIn(s, ts[0])| ==>
              ListIn(s, ts[0])[cursors[0].Index(ListIn(s, ts[0]))].doc == Frontier(cursors[0], |s.docs|)
  {
    hide ListIn, ValidDocs, Passed, Stands, DiskCursor.Index, DiskCursor.Inside, DiskCursor.At;
    ghost var list := ListIn(s, ts[0]);
    StandsAt(cursors[0], list);
    ghost var i := cursors[0].Index(list);
    FrontierGrows(s, ts[0], i);
    StepCursor(cursors[0], list);
    StandsAt(cursors[0], list);
    ghost var next := Frontier(cursors[0], |s.docs|);
    PassedStep(list, i, target, next);
    forall j | 0 < j < |cursors|
      ensures Passed(ListIn(s, ts[j]), cursors[j].Index(ListIn(s, ts[j])), next)
    {
      PassedMore(ListIn(s, ts[j]), cursors[j].Index(ListIn(s, ts[j])), target, next);
    }
  }

  lemma {:induction false} PassedStep(list: PostingList, i: nat, target: nat, next: nat)
    requires Passed(list, i, target) && i < |list| && list[i].doc == target < next
    ensures Passed(list, i + 1, next)
  {
  }

  method EvalAligned(s: Segment, ts: seq<Term>, cursors: seq<DiskCursor>, idf: real, sc: Scoring, st: Stats) returns (out: seq<Hit>)
    requires ValidDocs(s.docs) && |ts| >= 2 && idf == IdfSum(ts, sc, st) && Cursors(cursors, s, ts)
    requires forall i | 0 <= i < |cursors| :: cursors[i].Index(ListIn(s, ts[i])) == 0
    modifies cursors
    ensures Ascends(out) && ScoresOf(out) == Answer(s, PhraseNode(ts), sc, st)
  {
    hide Answer, ListIn, ValidDocs, ValidList, Ascends, Within, Below, ScoresOf, Found, Stands, Behind, AllWithin, IdfSum, DiskCursor.Index, DiskCursor.Inside, DiskCursor.At;
    ghost var a, list := Answer(s, PhraseNode(ts), sc, st), ListIn(s, ts[0]);
    PhraseAnswers(s, ts, sc, st);
    ListsFit(a, s, ts);
    out := [];
    StandsAt(cursors[0], list);
    WithinFirst(a, s, ts);
    FoundStart(a, list, Frontier(cursors[0], |s.docs|));
    BehindStart(cursors, s, ts, Frontier(cursors[0], |s.docs|));
    while cursors[0].Doc().Some?
      invariant Cursors(cursors, s, ts) && cursors[0].Index(list) <= |list|
      invariant Found(a, out, Frontier(cursors[0], |s.docs|)) && Behind(cursors, s, ts, Frontier(cursors[0], |s.docs|))
      decreases |list| - cursors[0].Index(list)
    {
      ghost var start := cursors[0].Doc().value;
      var target := Align(cursors, s, ts, a);
      if target.None? {
        FoundAll(a, out, start);
        return;
      }
      FoundOn(a, out, start, target.value);
      ghost var before := out;
      StandsAt(cursors[0], list);
      InList(s, ts[0], cursors[0].Index(list));
      out := ScoreCommon(s, ts, cursors, target.value, idf, out, sc, st);
      FoundNext(a, list, cursors[0].Index(list), before, out, target.value, Frontier(cursors[0], |s.docs|));
    }
    FoundAll(a, out, |s.docs|);
  }

  /** Score the common document, then step past it. */
  method ScoreCommon(s: Segment, ts: seq<Term>, cursors: seq<DiskCursor>, target: DocId, idf: real, out: seq<Hit>, sc: Scoring, st: Stats)
    returns (more: seq<Hit>)
    requires ValidDocs(s.docs) && |ts| >= 2 && idf == IdfSum(ts, sc, st) && Cursors(cursors, s, ts) && target < |s.docs|
    requires Behind(cursors, s, ts, target) && forall i | 0 <= i < |cursors| :: cursors[i].Doc() == Some(target)
    modifies cursors
    ensures Cursors(cursors, s, ts) && cursors[0].Index(ListIn(s, ts[0])) == old(cursors[0].Index(ListIn(s, ts[0]))) + 1 <= |ListIn(s, ts[0])|
    ensures Behind(cursors, s, ts, Frontier(cursors[0], |s.docs|)) && target < Frontier(cursors[0], |s.docs|)
    ensures ListIn(s, ts[0])[cursors[0].Index(ListIn(s, ts[0])) - 1].doc == target
    ensures cursors[0].Index(ListIn(s, ts[0])) < |ListIn(s, ts[0])| ==>
              ListIn(s, ts[0])[cursors[0].Index(ListIn(s, ts[0]))].doc == Frontier(cursors[0], |s.docs|)
    ensures var a := Answer(s, PhraseNode(ts), sc, st);
      more == if target in a then out + [Hit(target, a[target])] else out
  {
    hide Answer, ListIn, ValidDocs, Passed, Stands, DiskCursor.Index, DiskCursor.Inside, DiskCursor.At;
    StandsAt(cursors[0], ListIn(s, ts[0]));
    more := ScoreTarget(s, ts, cursors, target, idf, out, sc, st);
    StandsAt(cursors[0], ListIn(s, ts[0]));
    StepFirst(s, ts, cursors, target);
  }

  lemma {:induction false} WithinFirst(a: Scores, s: Segment, ts: seq<Term>)
    requires ts != [] && AllWithin(a, s, ts)
    ensures Within(a, ListIn(s, ts[0])) && DocsAscend(ListIn(s, ts[0]))
  {
    hide Within, ListIn;
  }

  lemma {:induction false} ListsFit(a: Scores, s: Segment, ts: seq<Term>)
    requires ValidDocs(s.docs) && forall i | 0 <= i < |ts| :: Within(a, ListIn(s, ts[i]))
    ensures AllWithin(a, s, ts)
  {
    hide Within, ListIn, ValidDocs;
    forall i | 0 <= i < |ts|
      ensures DocsAscend(ListIn(s, ts[i]))
    {
      ListInIs(s, ts[i]);
    }
  }

  lemma {:induction false} InList(s: Segment, t: Term, i: nat)
    requires ValidDocs(s.docs) && i < |ListIn(s, t)|
    ensures ListIn(s, t)[i].doc < |s.docs|
  {
    ListInIs(s, t);
  }

  lemma {:induction false} FrontierGrows(s: Segment, t: Term, i: nat)
    requires ValidDocs(s.docs) && i < |ListIn(s, t)|
    ensures ListIn(s, t)[i].doc < if i + 1 < |ListIn(s, t)| then ListIn(s, t)[i + 1].doc else |s.docs|
  {
    ListInIs(s, t);
  }

  lemma {:induction false} FoundStart(a: Scores, list: PostingList, first: nat)
    requires Within(a, list) && DocsAscend(list) && (list != [] ==> list[0].doc == first)
    ensures Found(a, [], first)
  {
    NothingSkipped(a, list, 0, 0, first);
    assert Below(a, 0) == map[];
  }

  lemma {:induction false} FoundOn(a: Scores, out: seq<Hit>, lo: nat, hi: nat)
    requires Found(a, out, lo) && lo <= hi && Below(a, lo) == Below(a, hi)
    ensures Found(a, out, hi)
  {
  }

  lemma {:induction false} FoundAll(a: Scores, out: seq<Hit>, lo: nat)
    requires Found(a, out, lo) && (Below(a, lo) == a || forall d | d in a :: d < lo)
    ensures Ascends(out) && ScoresOf(out) == a
  {
    if forall d | d in a :: d < lo {
      BelowAll(a, lo);
    }
  }
}
