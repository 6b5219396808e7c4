/**
 Query trees and what they mean, document by document: which documents satisfy
 a tree and with what score (src/query/parser.rs, src/query/exec.rs).

 BM25 itself is left uninterpreted: `idf` and `score` are any functions into
 the reals, so that scores add up exactly.
 */
module Query {
  import opened Wrappers
  import opened Documents
  import opened Postings
  import opened Segments
  import opened Hits
  import TermDict

  datatype Node =
    | TermNode(term: Term)
    | PhraseNode(terms: seq<Term>)
    | AndNode(must: seq<Node>, mustNot: seq<Node>)
    | OrNode(children: seq<Node>)

  /** `N`, `avgdl` and each term's document frequency over all segments. */
  datatype Stats = Stats(n: nat, avgLen: real, df: map<Term, nat>)

  datatype Scoring = Scoring(idf: (nat, nat) -> real, score: (real, nat, nat, real) -> real)

  // ----- Meaning -----

  /** The positions of an indexed term; over-long terms are not in the dictionary. */
  function PositionsIn(r: Record, t: Term): seq<Position> {
    if |t| <= TermDict.MAX_TERM_BYTES && t in r.terms then r.terms[t] else []
  }

  /** The phrase starts at `p`: term `i` stands at `p + i`. */
  predicate StartsAt(r: Record, terms: seq<Term>, p: Position) {
    forall i | 0 <= i < |terms| :: p + i in PositionsIn(r, terms[i])
  }

  function Starts(r: Record, terms: seq<Term>): set<Position>
    requires terms != []
  {
    set p | p in PositionsIn(r, terms[0]) && StartsAt(r, terms, p)
  }

  predicate Matches(r: Record, q: Node)
    decreases q
  {
    match q
    case TermNode(t) => PositionsIn(r, t) != []
    case PhraseNode(ts) => ts != [] && if |ts| == 1 then PositionsIn(r, ts[0]) != [] else Starts(r, ts) != {}
    case AndNode(must, mustNot) =>
      && must != [] && (forall k | 0 <= k < |must| :: Matches(r, must[k]))
      && (forall k | 0 <= k < |mustNot| :: !Matches(r, mustNot[k]))
    case OrNode(children) => exists k :: 0 <= k < |children| && Matches(r, children[k])
  }

  function Idf(t: Term, sc: Scoring, st: Stats): real {
    sc.idf(st.n, if t in st.df then st.df[t] else 0)
  }

  /** A phrase's idf is the sum of its terms'. */
  function IdfSum(terms: seq<Term>, sc: Scoring, st: Stats): real {
    if terms == [] then 0.0 else IdfSum(terms[..|terms| - 1], sc, st) + Idf(terms[|terms| - 1], sc, st)
  }

  function TermScore(r: Record, t: Term, sc: Scoring, st: Stats): real {
    sc.score(Idf(t, sc, st), |PositionsIn(r, t)|, r.len, st.avgLen)
  }

  function Score(r: Record, q: Node, sc: Scoring, st: Stats): real
    decreases q, 0
  {
    match q
    case TermNode(t) => TermScore(r, t, sc, st)
    case PhraseNode(ts) =>
      if ts == [] then 0.0
      else if |ts| == 1 then TermScore(r, ts[0], sc, st)
      else sc.score(IdfSum(ts, sc, st), |Starts(r, ts)|, r.len, st.avgLen)
    case AndNode(must, _) => ScoreSum(r, must, |must|, sc, st)
    case OrNode(children) => ScoreSum(r, children, |children|, sc, st)
  }

  /** Scores of those of the first `n` trees that match, added up. */
  function ScoreSum(r: Record, qs: seq<Node>, n: nat, sc: Scoring, st: Stats): real
    requires n <= |qs|
    decreases qs, n
  {
    if n == 0 then 0.0
    else ScoreSum(r, qs, n - 1, sc, st) + if Matches(r, qs[n - 1]) then Score(r, qs[n - 1], sc, st) else 0.0
  }

  // ----- Answers -----

  /** Documents without a length (skipped, deleted, or a hole) are dropped. */
  predicate Searchable(s: Segment, l: nat) {
    l < |s.docs| && l !in s.deleted && s.docs[l].record.status.Indexed?
  }

  /** The local documents of `s` that satisfy `q`, with their scores. */
  function Answer(s: Segment, q: Node, sc: Scoring, st: Stats): Scores {
    map l: nat | l < |s.docs| && Searchable(s, l) && Matches(s.docs[l].record, q) :: Score(s.docs[l].record, q, sc, st)
  }

  /** An indexed document that satisfies the tree. */
  predicate Satisfies(d: Doc, q: Node) {
    d.record.status.Indexed? && Matches(d.record, q)
  }

  /** Those of `live` that satisfy `q`, with their scores. */
  function AnswerOver(live: map<DocId, Doc>, q: Node, sc: Scoring, st: Stats): Scores {
    map id | id in live && Satisfies(live[id], q) :: Score(live[id].record, q, sc, st)
  }

  /** The live documents of the index that satisfy `q`. */
  function IndexAnswer(ix: Index, q: Node, sc: Scoring, st: Stats): Scores {
    AnswerOver(Live(ix), q, sc, st)
  }

  /** What the segment's dictionary holds for a term. */
  function ListIn(s: Segment, t: Term): PostingList {
    if |t| <= TermDict.MAX_TERM_BYTES then ListOf(s.docs, 0, t) else []
  }

  function TermsIn(q: Node): set<Term>
    decreases q, 0
  {
    match q
    case TermNode(t) => {t}
    case PhraseNode(ts) => set t | t in ts
    case AndNode(must, mustNot) => TermsUpto(must, |must|) + TermsUpto(mustNot, |mustNot|)
    case OrNode(children) => TermsUpto(children, |children|)
  }

  function TermsUpto(qs: seq<Node>, n: nat): set<Term>
    requires n <= |qs|
    decreases qs, n
  {
    if n == 0 then {} else TermsUpto(qs, n - 1) + TermsIn(qs[n - 1])
  }

  lemma {:induction false} UptoHas(qs: seq<Node>, n: nat, k: nat)
    requires k < n <= |qs|
    ensures TermsIn(qs[k]) <= TermsUpto(qs, n)
  {
    if k < n - 1 {
      UptoHas(qs, n - 1, k);
    }
  }

  // ----- Lists and meaning -----

  /** A term's list holds exactly the documents it occurs in, with their positions. */
  lemma {:induction false} ListInIs(s: Segment, t: Term)
    requires ValidDocs(s.docs)
    ensures ValidList(ListIn(s, t))
    ensures forall k | 0 <= k < |ListIn(s, t)| ::
              ListIn(s, t)[k].doc < |s.docs| && ListIn(s, t)[k].positions == PositionsIn(s.docs[ListIn(s, t)[k].doc].record, t)
    ensures forall l: nat | l < |s.docs| && PositionsIn(s.docs[l].record, t) != [] :: exists k :: 0 <= k < |ListIn(s, t)| && ListIn(s, t)[k].doc == l
  {
    ListOfValid(s.docs, 0, t);
    ListOfMeaning(s.docs, 0, t);
    var list := ListIn(s, t);
    forall k | 0 <= k < |list|
      ensures list[k].doc < |s.docs| && list[k].positions == PositionsIn(s.docs[list[k].doc].record, t)
    {
      assert EntryOf(list[k], s.docs, 0, t);
    }
    forall l: nat | l < |s.docs| && PositionsIn(s.docs[l].record, t) != []
      ensures exists k :: 0 <= k < |list| && list[k].doc == l
    {
      ListOfHas(s.docs, 0, t, l);
    }
  }
}
