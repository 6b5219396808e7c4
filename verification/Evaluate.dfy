/**
 Evaluating a query over the index, segment after segment, and what merging or
 cutting the index differently does to its answers (src/query/exec.rs).
 */
module Evaluate {
  import opened Wrappers
  import opened Documents
  import opened Postings
  import opened Segments
  import opened Hits
  import opened Query
  import opened Ranking
  import opened Exec
  import opened ExecTree
  import opened Bytes
  import opened DiskPostings
  import opened TermRead
  import opened SegmentFile

  // ----- Terms and statistics -----

  method AddTerm(terms: seq<Term>, t: Term) returns (more: seq<Term>)
    ensures (set u | u in more) == (set u | u in terms) + {t}
    ensures Distinct(terms) ==> Distinct(more)
  {
    more := if t in terms then terms else terms + [t];
  }

  ghost predicate Distinct(terms: seq<Term>) {
    forall i, j | 0 <= i < j < |terms| :: terms[i] != terms[j]
  }

  /** Every distinct term the query names, positive or negated. */
  method QueryTerms(q: Node, found: seq<Term>) returns (terms: seq<Term>)
    requires Distinct(found)
    ensures Distinct(terms) && (set t | t in terms) == (set t | t in found) + TermsIn(q)
    decreases q
  {
    hide Distinct;
    match q {
      case TermNode(t) => terms := AddTerm(found, t);
      case PhraseNode(ts) =>
        terms := found;
        for k := 0 to |ts|
          invariant Distinct(terms) && (set t | t in terms) == (set t | t in found) + (set t | t in ts[..k])
        {
          assert ts[..k + 1] == ts[..k] + [ts[k]];
          terms := AddTerm(terms, ts[k]);
        }
        assert ts[..|ts|] == ts;
      case AndNode(must, mustNot) =>
        terms := found;
        for k := 0 to |must|
          invariant Distinct(terms) && (set t | t in terms) == (set t | t in found) + TermsUpto(must, k)
        {
          terms := QueryTerms(must[k], terms);
        }
        for k := 0 to |mustNot|
          invariant Distinct(terms)
          invariant (set t | t in terms) == (set t | t in found) + TermsUpto(must, |must|) + TermsUpto(mustNot, k)
        {
          terms := QueryTerms(mustNot[k], terms);
        }
      case OrNode(children) =>
        terms := found;
        for k := 0 to |children|
          invariant Distinct(terms) && (set t | t in terms) == (set t | t in found) + TermsUpto(children, k)
        {
          terms := QueryTerms(children[k], terms);
        }
    }
  }

  /** One pass over the segments. */
  method RecomputeStats(segments: seq<Segment>) returns (n: nat, avgLen: real)
    ensures n == LiveIndexed(segments) && avgLen == AvgLen(segments)
  {
    n := 0;
    var total, len := 0, 0;
    for k := 0 to |segments|
      invariant n == LiveIndexed(segments[..k]) && total == AllIndexed(segments[..k]) && len == AllLen(segments[..k])
    {
      var s := segments[k];
      assert segments[..k + 1][..k] == segments[..k];
      var indexed, deleted := NumIndexed(s.docs), |s.deleted|;
      n := n + if indexed < deleted then 0 else indexed - deleted;
      total := total + indexed;
      len := len + TotalLen(s.docs);
    }
    assert segments[..|segments|] == segments;
    avgLen := if total == 0 then 0.0 else len as real / total as real;
  }

  method LookupAll(s: Segment, file: bytes, ghost crc: bytes -> nat, terms: seq<Term>) returns (lists: map<Term, ListRef>)
    requires FileOf(file, s, crc) && ValidDocs(s.docs)
    ensures forall t | t in terms :: LooksUp(lists, s, t)
    ensures forall t | t in lists :: t in terms
  {
    hide ListIn, FileOf, Spelt;
    lists := map[];
    for k := 0 to |terms|
      invariant forall t | t in terms[..k] :: LooksUp(lists, s, t)
      invariant forall t | t in lists :: t in terms[..k]
    {
      assert terms[..k + 1] == terms[..k] + [terms[k]];
      var found := LookupFile(file, s, crc, terms[k]);
      if found.Some? {
        lists := lists[terms[k] := found.value];
      }
    }
    assert terms[..|terms|] == terms;
  }

  /** One lookup per segment and term, reused for the frequencies. */
  ghost predicate LookedUp(lookups: seq<map<Term, ListRef>>, segments: seq<Segment>, q: Node) {
    |lookups| == |segments| && forall k | 0 <= k < |segments| :: LooksUpAll(lookups[k], segments[k], q)
  }

  method SumFreqs(lookups: seq<map<Term, ListRef>>, segments: seq<Segment>, q: Node, t: Term) returns (df: nat)
    requires LookedUp(lookups, segments, q) && t in TermsIn(q)
    ensures df == DocFreq(segments, t)
  {
    hide ListIn;
    df := 0;
    for k := 0 to |segments|
      invariant df == DocFreq(segments[..k], t)
    {
      assert segments[..k + 1][..k] == segments[..k];
      assert LooksUpAll(lookups[k], segments[k], q) && LooksUp(lookups[k], segments[k], t);
      if t in lookups[k] {
        df := df + lookups[k][t].docFreq;
      }
    }
    assert segments[..|segments|] == segments;
  }

  // ----- Concatenating the segments' answers -----

  function ShiftKeys(ids: set<DocId>, base: DocId): set<DocId> {
    set d | d in ids :: d + base
  }

  lemma {:induction false} ShiftKeysAre(ids: set<DocId>, base: DocId, id: DocId)
    ensures id in ShiftKeys(ids, base) <==> id >= base && id - base in ids
  {
    if id >= base && id - base in ids {
      var d: DocId := id - base;
      assert d in ids && d + base == id;
    }
  }

  function Shift(a: Scores, base: DocId): Scores {
    map id | id in ShiftKeys(a.Keys, base) :: ShiftKeysAre(a.Keys, base, id); a[id - base]
  }

  function Upto(ix: Index, q: Node, sc: Scoring, st: Stats, n: nat): Scores
    requires n <= |ix.segments|
  {
    if n == 0 then map[] else Upto(ix, q, sc, st, n - 1) + Shift(Answer(ix.segments[n - 1], q, sc, st), ix.segments[n - 1].base)
  }

  function Offset(h: seq<Hit>, base: DocId): seq<Hit> {
    seq(|h|, k requires 0 <= k < |h| => Hit(h[k].doc + base, h[k].score))
  }

  lemma {:induction false} OffsetShifts(h: seq<Hit>, base: DocId)
    ensures ScoresOf(Offset(h, base)) == Shift(ScoresOf(h), base)
  {
    hide Shift, ScoresOf, Offset;
    if h == [] {
      OffsetNone(base);
    } else {
      var front, last := h[..|h| - 1], h[|h| - 1];
      OffsetShifts(front, base);
      OffsetSnoc(h, base);
      assert h == front + [last];
      OffsetStep(front, last, base);
    }
  }

  lemma {:induction false} OffsetNone(base: DocId)
    ensures ScoresOf(Offset([], base)) == Shift(ScoresOf([]), base)
  {
    assert Offset([], base) == [];
    ShiftNone(base);
  }

  lemma {:induction false} OffsetStep(front: seq<Hit>, last: Hit, base: DocId)
    requires ScoresOf(Offset(front, base)) == Shift(ScoresOf(front), base)
    ensures ScoresOf(Offset(front, base) + [Hit(last.doc + base, last.score)]) == Shift(ScoresOf(front + [last]), base)
  {
    hide Shift, ScoresOf, Offset;
    ScoresSnoc(front, last);
    ScoresSnoc(Offset(front, base), Hit(last.doc + base, last.score));
    ShiftPut(ScoresOf(front), last.doc, last.score, base);
  }

  lemma {:induction false} OffsetSnoc(h: seq<Hit>, base: DocId)
    requires h != []
    ensures Offset(h, base) == Offset(h[..|h| - 1], base) + [Hit(h[|h| - 1].doc + base, h[|h| - 1].score)]
  {
  }

  lemma {:induction false} OffsetAscends(h: seq<Hit>, base: DocId)
    requires Ascends(h)
    ensures Ascends(Offset(h, base))
  {
  }

  lemma {:induction false} ShiftNone(base: DocId)
    ensures Shift(map[], base) == map[]
  {
    var none: Scores := map[];
    forall id: DocId
      ensures id !in Shift(none, base)
    {
      ShiftIs(none, base, id);
    }
  }

  lemma {:induction false} ShiftPut(a: Scores, d: DocId, score: real, base: DocId)
    ensures Shift(a[d := score], base) == Shift(a, base)[d + base := score]
  {
    hide Shift, ShiftKeys;
    var b := a[d := score];
    var x, y := Shift(b, base), Shift(a, base)[d + base := score];
    forall id: DocId
      ensures id in x <==> id in y
      ensures id in x ==> x[id] == y[id]
    {
      ShiftIs(b, base, id);
      ShiftIs(a, base, id);
    }
  }

  lemma {:induction false} ShiftIs(a: Scores, base: DocId, id: DocId)
    ensures id in Shift(a, base) <==> id >= base && id - base in a
    ensures id in Shift(a, base) ==> Shift(a, base)[id] == a[id - base]
  {
    ShiftKeysAre(a.Keys, base, id);
  }

  /** A global id is answered exactly in the segment that owns it. */
  lemma {:induction false} UptoIs(ix: Index, q: Node, sc: Scoring, st: Stats, n: nat, id: DocId)
    requires WellFormed(ix) && n <= |ix.segments|
    ensures id in Upto(ix, q, sc, st, n) <==>
              exists i :: 0 <= i < n && id >= ix.segments[i].base && id - ix.segments[i].base in Answer(ix.segments[i], q, sc, st)
    ensures forall i | 0 <= i < n && id >= ix.segments[i].base && id - ix.segments[i].base in Answer(ix.segments[i], q, sc, st) ::
              id in Upto(ix, q, sc, st, n) && Upto(ix, q, sc, st, n)[id] == Answer(ix.segments[i], q, sc, st)[id - ix.segments[i].base]
  {
    hide Answer, Shift;
    if n > 0 {
      UptoIs(ix, q, sc, st, n - 1, id);
      ShiftIs(Answer(ix.segments[n - 1], q, sc, st), ix.segments[n - 1].base, id);
      forall i | 0 <= i < n - 1 && id >= ix.segments[i].base && id - ix.segments[i].base in Answer(ix.segments[i], q, sc, st)
        ensures id < ix.segments[n - 1].base
      {
        AnswerKeys(ix.segments[i], q, sc, st, id - ix.segments[i].base);
        assert ix.segments[i].End() <= ix.segments[n - 1].base;
      }
    }
  }

  /** Together, the segments answer exactly the live documents that match. */
  lemma {:induction false} UptoAllIs(ix: Index, q: Node, sc: Scoring, st: Stats)
    requires WellFormed(ix)
    ensures Upto(ix, q, sc, st, |ix.segments|) == IndexAnswer(ix, q, sc, st)
  {
    LiveIsPlaces(ix);
    UptoPlaces(ix, q, sc, st, Live(ix));
  }

  lemma {:induction false} UptoPlaces(ix: Index, q: Node, sc: Scoring, st: Stats, live: map<DocId, Doc>)
    requires WellFormed(ix) && Places(ix, live)
    ensures Upto(ix, q, sc, st, |ix.segments|) == AnswerOver(live, q, sc, st)
  {
    hide Upto, Answer, WellFormed, Score, Matches, AnswerOver, Places;
    var all := Upto(ix, q, sc, st, |ix.segments|);
    forall id: DocId
      ensures id in all <==> id in AnswerOver(live, q, sc, st)
      ensures id in all ==> all[id] == AnswerOver(live, q, sc, st)[id]
    {
      UptoIs(ix, q, sc, st, |ix.segments|, id);
      if id in all {
        var i :| 0 <= i < |ix.segments| && id >= ix.segments[i].base && id - ix.segments[i].base in Answer(ix.segments[i], q, sc, st);
        PlaceAnswers(ix, q, sc, st, live, i, id - ix.segments[i].base);
      }
      if id in AnswerOver(live, q, sc, st) {
        var i, l := OwnerOf(ix, q, sc, st, live, id);
        PlaceAnswers(ix, q, sc, st, live, i, l);
      }
    }
  }

  lemma {:induction false} PlaceAnswers(ix: Index, q: Node, sc: Scoring, st: Stats, live: map<DocId, Doc>, i: nat, l: nat)
    requires Places(ix, live) && i < |ix.segments|
    ensures l in Answer(ix.segments[i], q, sc, st) ==>
              ix.segments[i].base + l in AnswerOver(live, q, sc, st)
              && AnswerOver(live, q, sc, st)[ix.segments[i].base + l] == Answer(ix.segments[i], q, sc, st)[l]
    ensures LiveIn(ix, i, l) && ix.segments[i].base + l in AnswerOver(live, q, sc, st) ==> l in Answer(ix.segments[i], q, sc, st)
  {
    if LiveIn(ix, i, l) {
      assert ix.segments[i].base + l in live;
    }
  }

  lemma {:induction false} OwnerOf(ix: Index, q: Node, sc: Scoring, st: Stats, live: map<DocId, Doc>, id: DocId) returns (i: nat, l: nat)
    requires Places(ix, live) && id in AnswerOver(live, q, sc, st)
    ensures LiveIn(ix, i, l) && id == ix.segments[i].base + l
  {
    assert LiveId(ix, id);
    i, l :| LiveIn(ix, i, l) && id == ix.segments[i].base + l;
  }

  // ----- The whole query -----

  /**
   The hits for a query, from the bytes of the segments' `.idx` files: strictly
   ascending, without duplicates, exactly the live indexed documents that
   satisfy the tree, each with its score.
   */
  method Evaluate(ix: Index, files: seq<bytes>, ghost crc: bytes -> nat, q: Node, sc: Scoring) returns (out: seq<Hit>)
    requires WellFormed(ix) && forall s | s in ix.segments :: ValidDocs(s.docs)
    requires |files| == |ix.segments| && forall k | 0 <= k < |files| :: FileOf(files[k], ix.segments[k], crc)
    ensures Ascends(out) && ScoresOf(out) == IndexAnswer(ix, q, sc, StatsFor(ix.segments, q))
    ensures forall h | h in out :: h.doc in Live(ix) && Ranked(ix.segments, Live(ix)[h.doc].record, q, sc, h.score)
    ensures forall id :: Listed(out, id) <==> id in Live(ix) && Live(ix)[id].record.status.Indexed? && Selected(Live(ix)[id].record, q)
  {
    hide LiveIndexed, AvgLen, WellFormed, ValidDocs, Answer, Ascends, ScoresOf, IndexAnswer, LooksUpAll, DocFreq, Distinct, FileOf, Upto, TermsIn;
    assert Distinct([]) by { NoneDistinct(); }
    var terms := QueryTerms(q, []);
    var lookups := LookupSegments(ix.segments, files, crc, terms, q);
    var df := Frequencies(lookups, ix.segments, terms, q);
    var n, avgLen := RecomputeStats(ix.segments);
    var st := Stats(n, avgLen, df);
    assert st == StatsFor(ix.segments, q);
    out := EvalSegments(ix, lookups, q, sc, st);
    UptoAllIs(ix, q, sc, st);
    HitsRanked(ix, q, sc, out);
    HitsSelected(ix, q, sc, out);
  }

  ghost predicate Listed(out: seq<Hit>, id: DocId) {
    exists h :: h in out && h.doc == id
  }

  /** The hits are the indexed live documents that the query asks for. */
  lemma {:induction false} HitsSelected(ix: Index, q: Node, sc: Scoring, out: seq<Hit>)
    requires Ascends(out) && ScoresOf(out) == IndexAnswer(ix, q, sc, StatsFor(ix.segments, q))
    ensures forall id :: Listed(out, id) <==> id in Live(ix) && Live(ix)[id].record.status.Indexed? && Selected(Live(ix)[id].record, q)
  {
    hide Live, Matches, Selected, Score, LiveIndexed, AvgLen, DocFreq, ScoresOf, Ascends, Listed;
    forall id
      ensures Listed(out, id) <==> id in Live(ix) && Live(ix)[id].record.status.Indexed? && Selected(Live(ix)[id].record, q)
    {
      HitListed(out, id);
      if id in Live(ix) {
        SelectedIff(Live(ix)[id].record, q);
      }
    }
  }

  lemma {:induction false} HitListed(out: seq<Hit>, id: DocId)
    requires Ascends(out)
    ensures Listed(out, id) <==> id in ScoresOf(out)
  {
    ScoresAre(out);
    hide ScoresOf, Ascends;
    if h :| h in out && h.doc == id {
      var i :| 0 <= i < |out| && out[i] == h;
    }
  }

  /** Every hit's score is made of what the doc tables and the document say. */
  lemma {:induction false} HitsRanked(ix: Index, q: Node, sc: Scoring, out: seq<Hit>)
    requires Ascends(out) && ScoresOf(out) == IndexAnswer(ix, q, sc, StatsFor(ix.segments, q))
    ensures forall h | h in out :: h.doc in Live(ix) && Ranked(ix.segments, Live(ix)[h.doc].record, q, sc, h.score)
  {
    hide Ranked, Live, Matches, Score, Ascends, ScoresOf, LiveIndexed, AvgLen, DocFreq;
    forall h | h in out
      ensures h.doc in Live(ix) && Ranked(ix.segments, Live(ix)[h.doc].record, q, sc, h.score)
    {
      HitScored(out, h);
      ScoreRanked(ix.segments, Live(ix)[h.doc].record, q, sc, StatsFor(ix.segments, q));
    }
  }

  lemma {:induction false} HitScored(out: seq<Hit>, h: Hit)
    requires Ascends(out) && h in out
    ensures h.doc in ScoresOf(out) && ScoresOf(out)[h.doc] == h.score
  {
    ScoresAre(out);
    hide ScoresOf, Ascends;
    var i :| 0 <= i < |out| && out[i] == h;
  }

  method LookupSegments(segments: seq<Segment>, files: seq<bytes>, ghost crc: bytes -> nat, terms: seq<Term>, ghost q: Node)
    returns (lookups: seq<map<Term, ListRef>>)
    requires (set t | t in terms) == TermsIn(q) && forall s | s in segments :: ValidDocs(s.docs)
    requires |files| == |segments| && forall k | 0 <= k < |files| :: FileOf(files[k], segments[k], crc)
    ensures LookedUp(lookups, segments, q)
  {
    hide ValidDocs, LooksUpAll, FileOf, TermsIn, LooksUp;
    lookups := [];
    for k := 0 to |segments|
      invariant |lookups| == k && forall j | 0 <= j < k :: LooksUpAll(lookups[j], segments[j], q)
    {
      assert segments[k] in segments;
      var lists := LookupAll(segments[k], files[k], crc, terms);
      LooksAll(lists, segments[k], terms, q);
      lookups := lookups + [lists];
    }
  }

  method Frequencies(lookups: seq<map<Term, ListRef>>, segments: seq<Segment>, terms: seq<Term>, q: Node) returns (df: map<Term, nat>)
    requires LookedUp(lookups, segments, q) && (set t | t in terms) == TermsIn(q)
    ensures df == map t | t in TermsIn(q) :: DocFreq(segments, t)
  {
    hide LookedUp, TermsIn, DocFreq;
    df := map[];
    for k := 0 to |terms|
      invariant df == map t | t in terms[..k] :: DocFreq(segments, t)
    {
      assert terms[..k + 1] == terms[..k] + [terms[k]] && terms[k] in (set t | t in terms);
      var f := SumFreqs(lookups, segments, q, terms[k]);
      df := df[terms[k] := f];
    }
    assert terms[..|terms|] == terms;
    assert forall t :: t in terms <==> t in (set u | u in terms);
  }

  lemma {:induction false} NoneDistinct()
    ensures Distinct([])
  {
  }

  lemma {:induction false} LooksAll(lists: map<Term, ListRef>, s: Segment, terms: seq<Term>, q: Node)
    requires (forall t | t in terms :: LooksUp(lists, s, t)) && (set t | t in terms) == TermsIn(q)
    ensures LooksUpAll(lists, s, q)
  {
    hide LooksUp;
    forall t | t in TermsIn(q)
      ensures LooksUp(lists, s, t)
    {
      assert t in (set u | u in terms);
    }
  }

  method EvalSegments(ix: Index, lookups: seq<map<Term, ListRef>>, q: Node, sc: Scoring, st: Stats) returns (out: seq<Hit>)
    requires WellFormed(ix) && (forall s | s in ix.segments :: ValidDocs(s.docs)) && LookedUp(lookups, ix.segments, q)
    ensures Ascends(out) && ScoresOf(out) == Upto(ix, q, sc, st, |ix.segments|)
  {
    hide WellFormed, ValidDocs, Answer, Ascends, ScoresOf, LooksUpAll, Shift;
    out := [];
    NoneAscends();
    NoneScored([]);
    for k := 0 to |ix.segments|
      invariant Ascends(out) && ScoresOf(out) == Upto(ix, q, sc, st, k) && EndsBefore(out, ix.segments, k)
    {
      assert ix.segments[k] in ix.segments;
      var hits := EvalNode(ix.segments[k], lookups[k], q, sc, st);
      OffsetShifts(hits, ix.segments[k].base);
      OffsetAscends(hits, ix.segments[k].base);
      HitsInside(ix.segments[k], q, sc, st, hits);
      Append(ix, out, hits, k);
      ScoresConcat(out, Offset(hits, ix.segments[k].base));
      out := out + Offset(hits, ix.segments[k].base);
    }
  }

  /** All hits so far belong to earlier segments. */
  ghost predicate EndsBefore(out: seq<Hit>, segments: seq<Segment>, k: nat) {
    k <= |segments| && forall x | 0 <= x < |out| :: k > 0 && out[x].doc < segments[k - 1].End()
  }

  lemma {:induction false} HitsInside(s: Segment, q: Node, sc: Scoring, st: Stats, hits: seq<Hit>)
    requires Ascends(hits) && ScoresOf(hits) == Answer(s, q, sc, st)
    ensures forall x | 0 <= x < |hits| :: hits[x].doc < |s.docs|
  {
    ScoresAre(hits);
    forall x | 0 <= x < |hits|
      ensures hits[x].doc < |s.docs|
    {
      AnswerKeys(s, q, sc, st, hits[x].doc);
    }
  }

  lemma {:induction false} Append(ix: Index, out: seq<Hit>, hits: seq<Hit>, k: nat)
    requires WellFormed(ix) && k < |ix.segments| && Ascends(out) && EndsBefore(out, ix.segments, k)
    requires Ascends(Offset(hits, ix.segments[k].base)) && forall x | 0 <= x < |hits| :: hits[x].doc < |ix.segments[k].docs|
    ensures Ascends(out + Offset(hits, ix.segments[k].base)) && EndsBefore(out + Offset(hits, ix.segments[k].base), ix.segments, k + 1)
  {
    assert k > 0 ==> ix.segments[k - 1].End() <= ix.segments[k].base;
  }
}
