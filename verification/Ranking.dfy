/**
 The statistics a query is scored with, and what a score is made of: counts of
 documents and positions, sums, and BM25's two formulas (src/query/exec.rs,
 src/store/reader.rs).
 */
module Ranking {
  import opened Documents
  import opened Postings
  import opened Segments
  import opened Hits
  import opened Query

  /** A term's document frequency: tombstoned documents included, segment by segment. */
  function DocFreq(segments: seq<Segment>, t: Term): nat {
    if segments == [] then 0 else DocFreq(segments[..|segments| - 1], t) + |ListIn(segments[|segments| - 1], t)|
  }

  /** Indexed rows of a doc table, and their lengths together: what its header records. */
  function NumIndexed(docs: seq<Doc>): nat {
    if docs == [] then 0 else NumIndexed(docs[..|docs| - 1]) + if docs[|docs| - 1].record.status.Indexed? then 1 else 0
  }

  function TotalLen(docs: seq<Doc>): nat {
    if docs == [] then 0
    else TotalLen(docs[..|docs| - 1]) + if docs[|docs| - 1].record.status.Indexed? then docs[|docs| - 1].record.len else 0
  }

  /** `N`: every tombstone is taken off its segment's indexed count, down to zero. */
  function LiveIndexed(segments: seq<Segment>): nat {
    if segments == [] then 0
    else
      var s := segments[|segments| - 1];
      LiveIndexed(segments[..|segments| - 1]) + if NumIndexed(s.docs) < |s.deleted| then 0 else NumIndexed(s.docs) - |s.deleted|
  }

  function AllIndexed(segments: seq<Segment>): nat {
    if segments == [] then 0 else AllIndexed(segments[..|segments| - 1]) + NumIndexed(segments[|segments| - 1].docs)
  }

  function AllLen(segments: seq<Segment>): nat {
    if segments == [] then 0 else AllLen(segments[..|segments| - 1]) + TotalLen(segments[|segments| - 1].docs)
  }

  /** `avgdl`: tombstoned documents included. */
  function AvgLen(segments: seq<Segment>): real {
    if AllIndexed(segments) == 0 then 0.0 else AllLen(segments) as real / AllIndexed(segments) as real
  }

  /** The statistics a query is scored with. */
  function StatsFor(segments: seq<Segment>, q: Node): Stats {
    Stats(LiveIndexed(segments), AvgLen(segments), map t | t in TermsIn(q) :: DocFreq(segments, t))
  }

  // ----- Sums -----

  ghost predicate RunningSums(xs: seq<real>, sums: seq<real>) {
    |sums| == |xs| + 1 && sums[0] == 0.0 && forall k | 0 <= k < |xs| :: sums[k + 1] == sums[k] + xs[k]
  }

  ghost predicate AddsUp(xs: seq<real>, total: real) {
    exists sums :: RunningSums(xs, sums) && sums[|xs|] == total
  }

  lemma {:induction false} NothingAdds()
    ensures AddsUp([], 0.0)
  {
    assert RunningSums([], [0.0]);
  }

  lemma {:induction false} AddsOne(xs: seq<real>, x: real, total: real)
    requires AddsUp(xs, total)
    ensures AddsUp(xs + [x], total + x)
  {
    var sums :| RunningSums(xs, sums) && sums[|xs|] == total;
    assert RunningSums(xs + [x], sums + [total + x]);
  }

  // ----- Frequencies -----

  /** The segment documents that hold the term, tombstoned ones included. */
  ghost function Carriers(segments: seq<Segment>, t: Term): set<(nat, nat)> {
    set i: nat, l: nat | i < |segments| && l < |segments[i].docs| && t in segments[i].docs[l].record.terms :: (i, l)
  }

  ghost function CarriersOf(docs: seq<Doc>, t: Term, i: nat): set<(nat, nat)> {
    set l: nat | l < |docs| && t in docs[l].record.terms :: (i, l)
  }

  lemma {:induction false} ListCounts(docs: seq<Doc>, t: Term, i: nat)
    ensures |ListOf(docs, 0, t)| == |CarriersOf(docs, t, i)|
  {
    if docs == [] {
      assert CarriersOf(docs, t, i) == {};
    } else {
      var n := |docs| - 1;
      ListCounts(docs[..n], t, i);
      assert CarriersOf(docs, t, i) == CarriersOf(docs[..n], t, i) + if t in docs[n].record.terms then {(i, n)} else {};
    }
  }

  /** A term's frequency counts them; over-long terms have none. */
  lemma {:induction false} FreqCounts(segments: seq<Segment>, t: Term)
    ensures DocFreq(segments, t) == if |t| <= 512 then |Carriers(segments, t)| else 0
  {
    if segments == [] {
      assert Carriers(segments, t) == {};
    } else {
      var n := |segments| - 1;
      FreqCounts(segments[..n], t);
      ListCounts(segments[n].docs, t, n);
      var a, b := Carriers(segments[..n], t), CarriersOf(segments[n].docs, t, n);
      assert Carriers(segments, t) == a + b by { CarriersSplit(segments, t); }
      assert a * b == {};
    }
  }

  lemma {:induction false} CarriersSplit(segments: seq<Segment>, t: Term)
    requires segments != []
    ensures var n := |segments| - 1; Carriers(segments, t) == Carriers(segments[..n], t) + CarriersOf(segments[n].docs, t, n)
  {
    var n := |segments| - 1;
    forall c
      ensures c in Carriers(segments, t) <==> c in Carriers(segments[..n], t) + CarriersOf(segments[n].docs, t, n)
    {
      if c.0 < n {
        assert segments[..n][c.0] == segments[c.0];
      }
    }
  }

  // ----- N and avgdl -----

  ghost function IndexedRows(docs: seq<Doc>): set<nat> {
    set l | 0 <= l < |docs| && docs[l].record.status.Indexed?
  }

  lemma {:induction false} RowsCount(docs: seq<Doc>)
    ensures NumIndexed(docs) == |IndexedRows(docs)|
  {
    if docs == [] {
      assert IndexedRows(docs) == {};
    } else {
      var n := |docs| - 1;
      RowsCount(docs[..n]);
      assert IndexedRows(docs) == IndexedRows(docs[..n]) + if docs[n].record.status.Indexed? then {n} else {};
    }
  }

  /** Indexed rows of each segment less its tombstones, but not below none. */
  ghost function LiveCounts(segments: seq<Segment>): seq<real> {
    seq(|segments|, i requires 0 <= i < |segments| =>
      var n := |IndexedRows(segments[i].docs)| - |segments[i].deleted|; if n < 0 then 0.0 else n as real)
  }

  ghost function IndexedCounts(segments: seq<Segment>): seq<real> {
    seq(|segments|, i requires 0 <= i < |segments| => |IndexedRows(segments[i].docs)| as real)
  }

  /** The lengths of a doc table's indexed rows. */
  ghost function Lengths(docs: seq<Doc>): seq<real> {
    seq(|docs|, l requires 0 <= l < |docs| => if docs[l].record.status.Indexed? then docs[l].record.len as real else 0.0)
  }

  /** `lens` adds up each segment's lengths. */
  ghost predicate LengthsOf(segments: seq<Segment>, lens: seq<real>) {
    |lens| == |segments| && forall i | 0 <= i < |segments| :: AddsUp(Lengths(segments[i].docs), lens[i])
  }

  /** `N` and `avgdl` by the doc tables: tombstones count against `N` alone. */
  ghost predicate TableStats(segments: seq<Segment>, n: nat, avg: real) {
    && AddsUp(LiveCounts(segments), n as real)
    && exists count: real, lens, total: real :: Averages(segments, avg, count, lens, total)
  }

  ghost predicate Averages(segments: seq<Segment>, avg: real, count: real, lens: seq<real>, total: real) {
    && AddsUp(IndexedCounts(segments), count) && LengthsOf(segments, lens) && AddsUp(lens, total)
    && if count == 0.0 then avg == 0.0 else avg * count == total
  }

  lemma {:induction false} LiveAdds(segments: seq<Segment>)
    ensures AddsUp(LiveCounts(segments), LiveIndexed(segments) as real)
    ensures AddsUp(IndexedCounts(segments), AllIndexed(segments) as real)
  {
    hide AddsUp;
    NothingAdds();
    if segments == [] {
      assert LiveCounts(segments) == [] && IndexedCounts(segments) == [];
    } else {
      var front, s := segments[..|segments| - 1], segments[|segments| - 1];
      LiveAdds(front);
      RowsCount(s.docs);
      var a, b := LiveCounts(segments), IndexedCounts(segments);
      assert a == LiveCounts(front) + [a[|front|]] && b == IndexedCounts(front) + [b[|front|]];
      AddsOne(LiveCounts(front), a[|front|], LiveIndexed(front) as real);
      AddsOne(IndexedCounts(front), b[|front|], AllIndexed(front) as real);
    }
  }

  lemma {:induction false} LengthsAdd(docs: seq<Doc>)
    ensures AddsUp(Lengths(docs), TotalLen(docs) as real)
  {
    hide AddsUp;
    NothingAdds();
    if docs == [] {
      assert Lengths(docs) == [];
    } else {
      var n := |docs| - 1;
      LengthsAdd(docs[..n]);
      assert Lengths(docs) == Lengths(docs[..n]) + [Lengths(docs)[n]];
      AddsOne(Lengths(docs[..n]), Lengths(docs)[n], TotalLen(docs[..n]) as real);
    }
  }

  lemma {:induction false} TotalsAdd(segments: seq<Segment>) returns (lens: seq<real>)
    ensures LengthsOf(segments, lens) && AddsUp(lens, AllLen(segments) as real)
  {
    hide AddsUp, Lengths;
    NothingAdds();
    if segments == [] {
      lens := [];
    } else {
      var front, s := segments[..|segments| - 1], segments[|segments| - 1];
      var before := TotalsAdd(front);
      LengthsAdd(s.docs);
      AddsOne(before, TotalLen(s.docs) as real, AllLen(front) as real);
      lens := before + [TotalLen(s.docs) as real];
    }
  }

  lemma {:induction false} StatsAreTables(segments: seq<Segment>)
    ensures TableStats(segments, LiveIndexed(segments), AvgLen(segments))
  {
    hide AddsUp, LengthsOf, LiveIndexed, AllIndexed, AllLen, LiveCounts, IndexedCounts;
    LiveAdds(segments);
    var lens := TotalsAdd(segments);
    var count, total := AllIndexed(segments) as real, AllLen(segments) as real;
    if count != 0.0 {
      assert AvgLen(segments) * count == total;
    }
    assert Averages(segments, AvgLen(segments), count, lens, total);
  }

  // ----- What a score is made of -----

  /** How many segment documents hold the term, as the dictionaries see it. */
  ghost function Frequency(segments: seq<Segment>, t: Term): nat {
    if |t| <= 512 then |Carriers(segments, t)| else 0
  }

  ghost function Rarities(segments: seq<Segment>, ts: seq<Term>, n: nat, sc: Scoring): seq<real> {
    seq(|ts|, k requires 0 <= k < |ts| => sc.idf(n, Frequency(segments, ts[k])))
  }

  /** BM25 with `tf` for a document, `idf` adding up those of `ts`, and the statistics of the doc tables. */
  ghost predicate ScoredBy(segments: seq<Segment>, ts: seq<Term>, tf: nat, len: nat, sc: Scoring, score: real) {
    exists n: nat, avg: real, idf: real ::
      TableStats(segments, n, avg) && AddsUp(Rarities(segments, ts, n, sc), idf) && score == sc.score(idf, tf, len, avg)
  }

  /**
   A document's score: for a term its positions weighed by the term's rarity,
   for a phrase its starts by the sum of its terms' rarities, for a conjunction
   the sum of the positive operands' scores, for a disjunction the sum of those
   of the children that match.
   */
  ghost predicate Ranked(segments: seq<Segment>, r: Record, q: Node, sc: Scoring, score: real)
    decreases q
  {
    match q
    case TermNode(t) => ScoredBy(segments, [t], |PositionsIn(r, t)|, r.len, sc, score)
    case PhraseNode(ts) =>
      ts != [] ==> ScoredBy(segments, ts, if |ts| == 1 then |PositionsIn(r, ts[0])| else |Starts(r, ts)|, r.len, sc, score)
    case AndNode(must, _) =>
      exists parts: seq<real> :: |parts| == |must| && AddsUp(parts, score) && forall k | 0 <= k < |must| :: Ranked(segments, r, must[k], sc, parts[k])
    case OrNode(children) =>
      exists parts: seq<real> :: |parts| == |children| && AddsUp(parts, score) && forall k | 0 <= k < |children| ::
        if Matches(r, children[k]) then Ranked(segments, r, children[k], sc, parts[k]) else parts[k] == 0.0
  }

  /** The statistics a query over these segments is scored with. */
  ghost predicate Fits(segments: seq<Segment>, q: Node, st: Stats) {
    && st.n == LiveIndexed(segments) && st.avgLen == AvgLen(segments)
    && forall t | t in TermsIn(q) :: t in st.df && st.df[t] == DocFreq(segments, t)
  }

  lemma {:induction false} IdfsAdd(segments: seq<Segment>, ts: seq<Term>, sc: Scoring, st: Stats)
    requires forall k | 0 <= k < |ts| :: ts[k] in st.df && st.df[ts[k]] == DocFreq(segments, ts[k])
    ensures AddsUp(Rarities(segments, ts, st.n, sc), IdfSum(ts, sc, st))
  {
    hide AddsUp, DocFreq, Carriers;
    NothingAdds();
    if ts == [] {
      assert Rarities(segments, ts, st.n, sc) == [];
    } else {
      var front, t := ts[..|ts| - 1], ts[|ts| - 1];
      IdfsAdd(segments, front, sc, st);
      FreqCounts(segments, t);
      assert ts[|ts| - 1] in st.df && Idf(t, sc, st) == sc.idf(st.n, Frequency(segments, t));
      assert forall k | 0 <= k < |front| :: front[k] == ts[k];
      assert Rarities(segments, ts, st.n, sc) == Rarities(segments, front, st.n, sc) + [Idf(t, sc, st)];
      AddsOne(Rarities(segments, front, st.n, sc), Idf(t, sc, st), IdfSum(front, sc, st));
    }
  }

  lemma {:induction false} LeafRanked(segments: seq<Segment>, ts: seq<Term>, tf: nat, len: nat, sc: Scoring, st: Stats)
    requires st.n == LiveIndexed(segments) && st.avgLen == AvgLen(segments)
    requires forall k | 0 <= k < |ts| :: ts[k] in st.df && st.df[ts[k]] == DocFreq(segments, ts[k])
    ensures ScoredBy(segments, ts, tf, len, sc, sc.score(IdfSum(ts, sc, st), tf, len, st.avgLen))
  {
    hide TableStats, AddsUp, Rarities, LiveIndexed, AvgLen, DocFreq, IdfSum;
    StatsAreTables(segments);
    IdfsAdd(segments, ts, sc, st);
  }

  lemma {:induction false} OneIdf(t: Term, sc: Scoring, st: Stats)
    ensures IdfSum([t], sc, st) == Idf(t, sc, st)
  {
    assert [t][..0] == [];
  }

  lemma {:induction false} ScoreRanked(segments: seq<Segment>, r: Record, q: Node, sc: Scoring, st: Stats)
    requires Fits(segments, q, st) && Matches(r, q)
    ensures Ranked(segments, r, q, sc, Score(r, q, sc, st))
    decreases q, 1
  {
    hide ScoredBy, DocFreq, LiveIndexed, AvgLen, PositionsIn, Starts, Idf, IdfSum;
    match q {
      case TermNode(t) =>
        LeafRanked(segments, [t], |PositionsIn(r, t)|, r.len, sc, st);
        OneIdf(t, sc, st);
      case PhraseNode(ts) =>
        if ts != [] {
          LeafRanked(segments, ts, if |ts| == 1 then |PositionsIn(r, ts[0])| else |Starts(r, ts)|, r.len, sc, st);
          OneIdf(ts[0], sc, st);
          assert |ts| == 1 ==> ts == [ts[0]];
        }
      case AndNode(must, mustNot) =>
        AndRanked(segments, r, q, sc, st);
      case OrNode(children) =>
        OrRanked(segments, r, q, sc, st);
    }
  }

  /** The scores of those of the first `n` trees that match. */
  ghost function PartScores(r: Record, qs: seq<Node>, n: nat, sc: Scoring, st: Stats): seq<real>
    requires n <= |qs|
  {
    seq(n, k requires 0 <= k < n => if Matches(r, qs[k]) then Score(r, qs[k], sc, st) else 0.0)
  }

  lemma {:induction false} PartsAdd(r: Record, qs: seq<Node>, n: nat, sc: Scoring, st: Stats)
    requires n <= |qs|
    ensures AddsUp(PartScores(r, qs, n, sc, st), ScoreSum(r, qs, n, sc, st))
  {
    hide AddsUp, Score, Matches;
    NothingAdds();
    if n == 0 {
      assert PartScores(r, qs, n, sc, st) == [];
    } else {
      var before, x := PartScores(r, qs, n - 1, sc, st), PartScores(r, qs, n, sc, st)[n - 1];
      PartsAdd(r, qs, n - 1, sc, st);
      assert PartScores(r, qs, n, sc, st) == before + [x];
      AddsOne(before, x, ScoreSum(r, qs, n - 1, sc, st));
    }
  }

  lemma {:induction false} AndRanked(segments: seq<Segment>, r: Record, q: Node, sc: Scoring, st: Stats)
    requires q.AndNode? && Fits(segments, q, st) && Matches(r, q)
    ensures Ranked(segments, r, q, sc, Score(r, q, sc, st))
    decreases q, 0
  {
    var must := q.must;
    var parts := PartScores(r, must, |must|, sc, st);
    PartsAdd(r, must, |must|, sc, st);
    hide AddsUp, DocFreq, LiveIndexed, AvgLen, ScoreSum;
    forall k | 0 <= k < |must|
      ensures Ranked(segments, r, must[k], sc, parts[k])
    {
      UptoHas(must, |must|, k);
      ScoreRanked(segments, r, must[k], sc, st);
    }
  }

  lemma {:induction false} OrRanked(segments: seq<Segment>, r: Record, q: Node, sc: Scoring, st: Stats)
    requires q.OrNode? && Fits(segments, q, st)
    ensures Ranked(segments, r, q, sc, Score(r, q, sc, st))
    decreases q, 0
  {
    var children := q.children;
    var parts := PartScores(r, children, |children|, sc, st);
    PartsAdd(r, children, |children|, sc, st);
    hide AddsUp, DocFreq, LiveIndexed, AvgLen, ScoreSum;
    forall k | 0 <= k < |children|
      ensures if Matches(r, children[k]) then Ranked(segments, r, children[k], sc, parts[k]) else parts[k] == 0.0
    {
      if Matches(r, children[k]) {
        UptoHas(children, |children|, k);
        ScoreRanked(segments, r, children[k], sc, st);
      }
    }
  }

  // ----- Which documents a query asks for -----

  /** `t` stands at `p`, and is short enough to be in the dictionary. */
  ghost predicate Occurs(r: Record, t: Term, p: Position) {
    |t| <= 512 && t in r.terms && p in r.terms[t]
  }

  /** The terms stand in a row from `p` on. */
  ghost predicate InRow(r: Record, ts: seq<Term>, p: Position) {
    forall i: nat | i < |ts| :: Occurs(r, ts[i], p + i)
  }

  /** A term anywhere, a phrase in a row, every positive operand and no negated one, any of the children. */
  ghost predicate Selected(r: Record, q: Node)
    decreases q
  {
    match q
    case TermNode(t) => exists p :: Occurs(r, t, p)
    case PhraseNode(ts) => ts != [] && exists p :: InRow(r, ts, p)
    case AndNode(must, mustNot) =>
      && must != [] && (forall k: nat | k < |must| :: Selected(r, must[k]))
      && !exists k: nat :: k < |mustNot| && Selected(r, mustNot[k])
    case OrNode(children) => exists k: nat :: k < |children| && Selected(r, children[k])
  }

  lemma {:induction false} OccursIff(r: Record, t: Term, p: Position)
    ensures Occurs(r, t, p) <==> p in PositionsIn(r, t)
    ensures PositionsIn(r, t) != [] <==> exists p :: Occurs(r, t, p)
  {
    if PositionsIn(r, t) != [] {
      assert Occurs(r, t, PositionsIn(r, t)[0]);
    }
  }

  lemma {:induction false} InRowIff(r: Record, ts: seq<Term>, p: Position)
    requires ts != []
    ensures InRow(r, ts, p) <==> p in Starts(r, ts)
  {
    forall i: nat | i < |ts|
      ensures Occurs(r, ts[i], p + i) <==> p + i in PositionsIn(r, ts[i])
    {
      OccursIff(r, ts[i], p + i);
    }
    hide Occurs, PositionsIn;
    if InRow(r, ts, p) {
      assert Occurs(r, ts[0], p + 0);
    }
  }

  lemma {:induction false} PhraseSelected(r: Record, ts: seq<Term>)
    requires ts != []
    ensures (if |ts| == 1 then PositionsIn(r, ts[0]) != [] else Starts(r, ts) != {}) <==> exists p :: InRow(r, ts, p)
  {
    forall p
      ensures InRow(r, ts, p) <==> p in Starts(r, ts)
    {
      InRowIff(r, ts, p);
    }
    if |ts| == 1 {
      OccursIff(r, ts[0], 0);
      if p: Position :| Occurs(r, ts[0], p) {
        assert InRow(r, ts, p);
      }
      if p: Position :| InRow(r, ts, p) {
        assert Occurs(r, ts[0], p + 0);
      }
    }
  }

  lemma {:induction false} SelectedIff(r: Record, q: Node)
    ensures Matches(r, q) <==> Selected(r, q)
    decreases q
  {
    hide PositionsIn, Starts, InRow, Occurs;
    match q {
      case TermNode(t) => OccursIff(r, t, 0);
      case PhraseNode(ts) =>
        if ts != [] {
          PhraseSelected(r, ts);
        }
      case AndNode(must, mustNot) =>
        forall k: nat | k < |must|
          ensures Matches(r, must[k]) <==> Selected(r, must[k])
        {
          SelectedIff(r, must[k]);
        }
        forall k: nat | k < |mustNot|
          ensures Matches(r, mustNot[k]) <==> Selected(r, mustNot[k])
        {
          SelectedIff(r, mustNot[k]);
        }
      case OrNode(children) =>
        forall k: nat | k < |children|
          ensures Matches(r, children[k]) <==> Selected(r, children[k])
        {
          SelectedIff(r, children[k]);
        }
    }
  }
}
