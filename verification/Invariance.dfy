/**
 Queries do not see how the index is stored: a merge renumbers their answers
 and changes nothing else, and a fresh build answers alike however it is cut
 into shards and segments.
 */
module Invariance {
  import opened Wrappers
  import opened Documents
  import opened Postings
  import opened Segments
  import opened Build
  import opened Update
  import opened MergePrepare
  import opened MergeCommit
  import opened MergeMeaning
  import opened Hits
  import opened Query
  import opened Ranking
  import TermDict

  // ----- Merging -----

  /** The ids that satisfy `q`. */
  function MatchesOf(live: map<DocId, Doc>, q: Node): set<DocId> {
    set id | id in live && Satisfies(live[id], q)
  }

  function Image(f: DocId -> DocId, ids: set<DocId>): set<DocId> {
    set id | id in ids :: f(id)
  }

  lemma {:induction false} RenumberedMatches(f: DocId -> DocId, a: map<DocId, Doc>, b: map<DocId, Doc>, q: Node)
    requires Renumbers(f, a, b)
    ensures MatchesOf(b, q) == Image(f, MatchesOf(a, q))
    ensures |MatchesOf(b, q)| == |MatchesOf(a, q)|
  {
    forall id | id in MatchesOf(a, q)
      ensures f(id) in MatchesOf(b, q)
    {
      assert Keeps(f, a, b, id);
    }
    forall n | n in MatchesOf(b, q)
      ensures n in Image(f, MatchesOf(a, q))
    {
      assert MergeMeaning.Hit(f, a, n);
      var id :| id in a && f(id) == n;
      assert Keeps(f, a, b, id);
      assert id in MatchesOf(a, q);
    }
    ImageSize(f, MatchesOf(a, q));
  }

  lemma {:induction false} ImageSize(f: DocId -> DocId, ids: set<DocId>)
    requires forall x, y | x in ids && y in ids && f(x) == f(y) :: x == y
    ensures |Image(f, ids)| == |ids|
    decreases |ids|
  {
    if ids != {} {
      var id :| id in ids;
      var rest := ids - {id};
      ImageSize(f, rest);
      assert Image(f, ids) == Image(f, rest) + {f(id)};
      assert f(id) !in Image(f, rest);
    }
  }

  /**
   Every query matches, after a merge commit, exactly the documents it matched
   just before, under their new ids, however many updates landed since the snapshot.
   */
  lemma {:induction false} MergeKeepsMatches(prepared: seq<PreparedMerge>, snapshot: Index, groups: seq<seq<Segment>>, cur: Index, q: Node)
    requires WellFormed(cur) && Batch(prepared, snapshot, groups, cur)
    ensures MatchesOf(Live(Committed(cur, prepared)), q) == Image(id => Forward(cur, prepared, id), MatchesOf(Live(cur), q))
    ensures |MatchesOf(Live(Committed(cur, prepared)), q)| == |MatchesOf(Live(cur), q)|
  {
    hide WellFormed, Batch, Live, Committed, Forward, Renumbers;
    MergePreserves(prepared, snapshot, groups, cur);
    RenumberedMatches(id => Forward(cur, prepared, id), Live(cur), Live(Committed(cur, prepared)), q);
  }

  // ----- Cutting a fresh build -----

  function Numbered(docs: seq<Doc>): map<DocId, Doc> {
    map i: nat | i < |docs| :: docs[i]
  }

  /** A fresh build's index. */
  ghost predicate FreshBuild(ix: Index, built: seq<BuiltSegment>, docs: seq<Doc>, firstId: nat) {
    Tiles(built, docs, 0, firstId) && ix.segments == AsSegments(built, docs) && ix.overlay == map[] && WellFormed(ix)
  }

  /** Documents are live under their place in the crawl, wherever the segments were cut. */
  lemma {:induction false} FreshLive(ix: Index, built: seq<BuiltSegment>, docs: seq<Doc>, firstId: nat)
    requires FreshBuild(ix, built, docs, firstId)
    ensures Live(ix) == Numbered(docs)
  {
    AppendedCarries(built, docs, 0, firstId);
    LiveIsPlaces(ix);
    hide Tiles, AsSegments, WellFormed, Live;
    FreshPlaces(ix, docs);
    PlacesUnique(ix, Live(ix), Numbered(docs));
  }

  lemma {:induction false} FreshPlaces(ix: Index, docs: seq<Doc>)
    requires CarriesAll(ix.segments, 0, docs) && ix.overlay == map[]
    ensures Places(ix, Numbered(docs))
  {
    var live := Numbered(docs);
    forall id {:trigger LiveId(ix, id)} | id in live
      ensures LiveId(ix, id)
    {
      assert CarriedAt(ix.segments, 0, docs, id);
      var i: nat, l: nat :| i < |ix.segments| && l < |ix.segments[i].docs| && ix.segments[i].base + l == 0 + id && ix.segments[i].docs[l] == docs[id];
      assert LiveIn(ix, i, l);
    }
    forall i: nat, l: nat | LiveIn(ix, i, l)
      ensures var id := ix.segments[i].base + l; id in live && live[id] == WithPatch(ix.overlay, id, ix.segments[i].docs[l])
    {
      assert Carried(ix.segments[i], l, 0, docs);
    }
  }

  lemma {:induction false} ListLength(docs: seq<Doc>, base: DocId, t: Term)
    ensures |ListOf(docs, base, t)| == |ListOf(docs, 0, t)|
  {
    ShiftList(docs, base, t);
  }

  function ListSize(docs: seq<Doc>, t: Term): nat {
    if |t| <= TermDict.MAX_TERM_BYTES then |ListOf(docs, 0, t)| else 0
  }

  lemma {:induction false} SizesAdd(docs: seq<Doc>, n: nat, t: Term)
    requires n <= |docs|
    ensures ListSize(docs, t) == ListSize(docs[..n], t) + ListSize(docs[n..], t)
  {
    hide ListOf;
    assert docs == docs[..n] + docs[n..];
    ListOfConcat(docs[..n], docs[n..], 0, t);
    ListLength(docs[n..], n, t);
  }

  /** Summed over the segments, a term's frequency is that of one sequential pass. */
  lemma {:induction false} FreshFreq(built: seq<BuiltSegment>, docs: seq<Doc>, base: DocId, firstId: nat, t: Term)
    requires Tiles(built, docs, base, firstId)
    ensures DocFreq(AsSegments(built, docs), t) == ListSize(docs, t)
  {
    if built != [] {
      hide Tiles, AsSegments, ListSize, DocFreq;
      var front, before := LastTile(built, docs, base, firstId);
      var s := Segment(built[|built| - 1].id, built[|built| - 1].base, docs[|front|..], {}, 0);
      FreqSnoc(before, s, t);
      FreshFreq(built[..|built| - 1], front, base, firstId, t);
      SizesAdd(docs, |front|, t);
      SizeIs(s, t);
    }
  }

  lemma {:induction false} SizeIs(s: Segment, t: Term)
    ensures |ListIn(s, t)| == ListSize(s.docs, t)
  {
  }

  lemma {:induction false} FreqSnoc(before: seq<Segment>, s: Segment, t: Term)
    ensures DocFreq(before + [s], t) == DocFreq(before, t) + |ListIn(s, t)|
  {
    assert (before + [s])[..|before|] == before;
  }

  lemma {:induction false} CountsAdd(docs: seq<Doc>, n: nat)
    requires n <= |docs|
    ensures NumIndexed(docs) == NumIndexed(docs[..n]) + NumIndexed(docs[n..])
    ensures TotalLen(docs) == TotalLen(docs[..n]) + TotalLen(docs[n..])
  {
    if n < |docs| {
      var m := |docs| - 1;
      CountsAdd(docs[..m], n);
      assert docs[..m][..n] == docs[..n] && docs[..m][n..] == docs[n..][..m - n];
    } else {
      assert docs[..n] == docs && docs[n..] == [];
    }
  }

  /** On a fresh build the counts are those of the documents, wherever the segments were cut. */
  lemma {:induction false} FreshCounts(built: seq<BuiltSegment>, docs: seq<Doc>, base: DocId, firstId: nat)
    requires Tiles(built, docs, base, firstId)
    ensures LiveIndexed(AsSegments(built, docs)) == AllIndexed(AsSegments(built, docs)) == NumIndexed(docs)
    ensures AllLen(AsSegments(built, docs)) == TotalLen(docs)
  {
    if built != [] {
      hide Tiles, AsSegments, NumIndexed, TotalLen;
      var front, before := LastTile(built, docs, base, firstId);
      var s := Segment(built[|built| - 1].id, built[|built| - 1].base, docs[|front|..], {}, 0);
      FreshCounts(built[..|built| - 1], front, base, firstId);
      CountsAdd(docs, |front|);
      assert (before + [s])[..|before|] == before;
    } else {
      assert docs == [];
    }
  }

  /** The statistics of one sequential pass over the documents. */
  function PassStats(docs: seq<Doc>, q: Node): Stats {
    Stats(NumIndexed(docs), if NumIndexed(docs) == 0 then 0.0 else TotalLen(docs) as real / NumIndexed(docs) as real,
          map t | t in TermsIn(q) :: ListSize(docs, t))
  }

  /** However a fresh build was cut, a query is scored with those statistics. */
  lemma {:induction false} FreshStats(built: seq<BuiltSegment>, docs: seq<Doc>, firstId: nat, q: Node)
    requires Tiles(built, docs, 0, firstId)
    ensures StatsFor(AsSegments(built, docs), q) == PassStats(docs, q)
  {
    hide Tiles, AsSegments, DocFreq, ListSize, LiveIndexed, AllIndexed, AllLen, NumIndexed, TotalLen;
    FreshCounts(built, docs, 0, firstId);
    forall t | t in TermsIn(q)
      ensures DocFreq(AsSegments(built, docs), t) == ListSize(docs, t)
    {
      FreshFreq(built, docs, 0, firstId, t);
    }
    assert StatsFor(AsSegments(built, docs), q).df == PassStats(docs, q).df;
  }

  /**
   Two builds of the same documents, cut differently, have the same statistics
   and give every query the same documents with the same scores.
   */
  lemma {:induction false} CutsAgree(a: Index, builtA: seq<BuiltSegment>, firstA: nat, b: Index, builtB: seq<BuiltSegment>, firstB: nat,
                                     docs: seq<Doc>, q: Node, sc: Scoring)
    requires FreshBuild(a, builtA, docs, firstA) && FreshBuild(b, builtB, docs, firstB)
    ensures StatsFor(a.segments, q) == StatsFor(b.segments, q) == PassStats(docs, q)
    ensures IndexAnswer(a, q, sc, StatsFor(a.segments, q)) == IndexAnswer(b, q, sc, StatsFor(b.segments, q))
    ensures ScoresAll(docs, q, sc, IndexAnswer(a, q, sc, StatsFor(a.segments, q)))
  {
    hide Tiles, AsSegments, WellFormed, Live, AnswerOver, StatsFor, PassStats, Score;
    FreshLive(a, builtA, docs, firstA);
    FreshLive(b, builtB, docs, firstB);
    FreshStats(builtA, docs, firstA, q);
    FreshStats(builtB, docs, firstB, q);
    AnswersAll(docs, q, sc);
  }

  /** Exactly the crawled documents that satisfy the query, by their place in the crawl, scored over one pass. */
  ghost predicate ScoresAll(docs: seq<Doc>, q: Node, sc: Scoring, answer: Scores) {
    forall id: nat ::
      && (id in answer <==> id < |docs| && Satisfies(docs[id], q))
      && (id in answer ==> answer[id] == Score(docs[id].record, q, sc, PassStats(docs, q)))
  }

  lemma {:induction false} AnswersAll(docs: seq<Doc>, q: Node, sc: Scoring)
    ensures ScoresAll(docs, q, sc, AnswerOver(Numbered(docs), q, sc, PassStats(docs, q)))
  {
  }
}
