/**
 Whole trees and whole indexes (src/query/exec.rs): inner nodes combine their
 children's lists, segments are evaluated one by one and concatenated.
 */
module ExecTree {
  import opened Wrappers
  import opened Documents
  import opened Postings
  import opened Segments
  import opened Hits
  import opened Query
  import opened Exec
  import opened TermRead

  function Answers(s: Segment, qs: seq<Node>, sc: Scoring, st: Stats): seq<Scores> {
    seq(|qs|, k requires 0 <= k < |qs| => Answer(s, qs[k], sc, st))
  }

  function WithoutAll(a: Scores, ms: seq<Scores>): Scores {
    if ms == [] then a else Without(WithoutAll(a, ms[..|ms| - 1]), ms[|ms| - 1])
  }

  lemma {:induction false} WithoutAllIs(a: Scores, ms: seq<Scores>, d: DocId)
    ensures d in WithoutAll(a, ms) <==> d in a && forall m | m in ms :: d !in m
    ensures d in WithoutAll(a, ms) ==> WithoutAll(a, ms)[d] == a[d]
  {
    if ms != [] {
      WithoutAllIs(a, ms[..|ms| - 1], d);
      assert ms == ms[..|ms| - 1] + [ms[|ms| - 1]];
    }
  }

  /** Adding up the lists' scores is adding up the trees' scores. */
  lemma {:induction false} SumsAgree(s: Segment, qs: seq<Node>, sc: Scoring, st: Stats, d: DocId, n: nat)
    requires Searchable(s, d) && n <= |qs|
    ensures SumAt(Answers(s, qs, sc, st)[..n], d) == ScoreSum(s.docs[d].record, qs, n, sc, st)
  {
    if n > 0 {
      var all := Answers(s, qs, sc, st);
      SumsAgree(s, qs, sc, st, d, n - 1);
      assert all[..n][..n - 1] == all[..n - 1] && all[..n][n - 1] == Answer(s, qs[n - 1], sc, st);
    }
  }

  lemma {:induction false} AnswerKeys(s: Segment, q: Node, sc: Scoring, st: Stats, d: DocId)
    ensures d in Answer(s, q, sc, st) <==> Searchable(s, d) && Matches(s.docs[d].record, q)
    ensures d in Answer(s, q, sc, st) ==> Answer(s, q, sc, st)[d] == Score(s.docs[d].record, q, sc, st)
  {
  }

  lemma {:induction false} InAnswers(s: Segment, qs: seq<Node>, sc: Scoring, st: Stats, d: DocId)
    ensures (forall m | m in Answers(s, qs, sc, st) :: d in m) <==> forall k | 0 <= k < |qs| :: d in Answer(s, qs[k], sc, st)
    ensures (forall m | m in Answers(s, qs, sc, st) :: d !in m) <==> forall k | 0 <= k < |qs| :: d !in Answer(s, qs[k], sc, st)
  {
    var all := Answers(s, qs, sc, st);
    assert forall k | 0 <= k < |qs| :: all[k] in all && all[k] == Answer(s, qs[k], sc, st);
  }

  /** Intersecting the `must` lists and dropping the `mustNot` ones is the conjunction. */
  lemma {:induction false} AndIs(s: Segment, must: seq<Node>, mustNot: seq<Node>, sc: Scoring, st: Stats)
    ensures Answer(s, AndNode(must, mustNot), sc, st)
         == WithoutAll(InAll(Answers(s, must, sc, st)), Answers(s, mustNot, sc, st))
  {
    hide Answer, InAll, WithoutAll, Searchable;
    forall d
      ensures d in Answer(s, AndNode(must, mustNot), sc, st) <==> d in WithoutAll(InAll(Answers(s, must, sc, st)), Answers(s, mustNot, sc, st))
      ensures d in Answer(s, AndNode(must, mustNot), sc, st) ==>
                Answer(s, AndNode(must, mustNot), sc, st)[d] == WithoutAll(InAll(Answers(s, must, sc, st)), Answers(s, mustNot, sc, st))[d]
    {
      AndAt(s, must, mustNot, sc, st, d);
    }
  }

  lemma {:induction false} AndAt(s: Segment, must: seq<Node>, mustNot: seq<Node>, sc: Scoring, st: Stats, d: DocId)
    ensures var a, b := Answer(s, AndNode(must, mustNot), sc, st), WithoutAll(InAll(Answers(s, must, sc, st)), Answers(s, mustNot, sc, st));
      (d in a <==> d in b) && (d in a ==> a[d] == b[d])
  {
    hide Answer, InAll, WithoutAll, SumAt, Answers;
    var musts, nots := Answers(s, must, sc, st), Answers(s, mustNot, sc, st);
    AnswersLength(s, must, sc, st);
    AnswerKeys(s, AndNode(must, mustNot), sc, st, d);
    forall k | 0 <= k < |must|
      ensures d in Answer(s, must[k], sc, st) <==> Searchable(s, d) && Matches(s.docs[d].record, must[k])
    {
      AnswerKeys(s, must[k], sc, st, d);
    }
    forall k | 0 <= k < |mustNot|
      ensures d in Answer(s, mustNot[k], sc, st) <==> Searchable(s, d) && Matches(s.docs[d].record, mustNot[k])
    {
      AnswerKeys(s, mustNot[k], sc, st, d);
    }
    InAnswers(s, must, sc, st, d);
    InAnswers(s, mustNot, sc, st, d);
    WithoutAllIs(InAll(musts), nots, d);
    if must == [] {
      FirstOnly(musts);
    } else {
      InAllIs(musts, d);
      if Searchable(s, d) {
        var r := s.docs[d].record;
        SumsAgree(s, must, sc, st, d, |must|);
        assert musts[..|must|] == musts;
        assert (forall m | m in musts :: d in m) <==> forall k | 0 <= k < |must| :: Matches(r, must[k]);
        assert (forall m | m in nots :: d !in m) <==> forall k | 0 <= k < |mustNot| :: !Matches(r, mustNot[k]);
        assert Score(r, AndNode(must, mustNot), sc, st) == ScoreSum(r, must, |must|, sc, st);
      } else {
        assert d !in Answer(s, must[0], sc, st);
      }
    }
  }

  lemma {:induction false} AnswersLength(s: Segment, qs: seq<Node>, sc: Scoring, st: Stats)
    ensures |Answers(s, qs, sc, st)| == |qs|
  {
  }

  /** Merging the children's lists is the disjunction. */
  lemma {:induction false} OrIs(s: Segment, children: seq<Node>, sc: Scoring, st: Stats)
    ensures Answer(s, OrNode(children), sc, st) == InAny(Answers(s, children, sc, st))
  {
    hide Answer, InAny, Searchable;
    forall d
      ensures d in Answer(s, OrNode(children), sc, st) <==> d in InAny(Answers(s, children, sc, st))
      ensures d in Answer(s, OrNode(children), sc, st) ==> Answer(s, OrNode(children), sc, st)[d] == InAny(Answers(s, children, sc, st))[d]
    {
      OrAt(s, children, sc, st, d);
    }
  }

  lemma {:induction false} OrAt(s: Segment, children: seq<Node>, sc: Scoring, st: Stats, d: DocId)
    ensures var a, b := Answer(s, OrNode(children), sc, st), InAny(Answers(s, children, sc, st));
      (d in a <==> d in b) && (d in a ==> a[d] == b[d])
  {
    hide Answer, InAny, SumAt;
    var all := Answers(s, children, sc, st);
    AnswerKeys(s, OrNode(children), sc, st, d);
    forall k | 0 <= k < |children|
      ensures d in all[k] <==> Searchable(s, d) && Matches(s.docs[d].record, children[k])
    {
      AnswerKeys(s, children[k], sc, st, d);
    }
    InAnyIs(all, d);
    if Searchable(s, d) {
      SumsAgree(s, children, sc, st, d, |children|);
      assert all[..|children|] == all;
    }
  }

  // ----- Evaluating a tree -----

  ghost predicate LooksUpAll(lists: map<Term, ListRef>, s: Segment, q: Node) {
    forall t | t in TermsIn(q) :: LooksUp(lists, s, t)
  }

  lemma {:induction false} ChildTerms(q: Node)
    ensures q.AndNode? ==> forall k | 0 <= k < |q.must| :: TermsIn(q.must[k]) <= TermsIn(q)
    ensures q.AndNode? ==> forall k | 0 <= k < |q.mustNot| :: TermsIn(q.mustNot[k]) <= TermsIn(q)
    ensures q.OrNode? ==> forall k | 0 <= k < |q.children| :: TermsIn(q.children[k]) <= TermsIn(q)
  {
    if q.AndNode? {
      forall k | 0 <= k < |q.must|
        ensures TermsIn(q.must[k]) <= TermsIn(q)
      {
        UptoHas(q.must, |q.must|, k);
      }
      forall k | 0 <= k < |q.mustNot|
        ensures TermsIn(q.mustNot[k]) <= TermsIn(q)
      {
        UptoHas(q.mustNot, |q.mustNot|, k);
      }
    }
    if q.OrNode? {
      forall k | 0 <= k < |q.children|
        ensures TermsIn(q.children[k]) <= TermsIn(q)
      {
        UptoHas(q.children, |q.children|, k);
      }
    }
  }

  method EvalNode(s: Segment, lists: map<Term, ListRef>, q: Node, sc: Scoring, st: Stats) returns (out: seq<Hit>)
    requires ValidDocs(s.docs) && LooksUpAll(lists, s, q)
    ensures Ascends(out) && ScoresOf(out) == Answer(s, q, sc, st)
    decreases q, 1
  {
    hide Answer, ValidDocs, LooksUp, Ascends, ScoresOf;
    ChildTerms(q);
    match q {
      case TermNode(t) => out := EvalTerm(s, lists, t, sc, st);
      case PhraseNode(ts) => out := EvalPhrase(s, lists, ts, sc, st);
      case AndNode(must, mustNot) => out := EvalAnd(s, lists, q, sc, st);
      case OrNode(children) =>
        var hits: seq<seq<Hit>> := [];
        for k := 0 to |children|
          invariant |hits| == k
          invariant forall i | 0 <= i < k :: Ascends(hits[i]) && ScoresOf(hits[i]) == Answer(s, children[i], sc, st)
        {
          var h := EvalNode(s, lists, children[k], sc, st);
          hits := hits + [h];
        }
        OrIs(s, children, sc, st);
        assert AllScores(hits) == Answers(s, children, sc, st);
        out := Union(hits);
    }
  }

  /** A `must` that matches nothing ends the conjunction at once. */
  method EvalAnd(s: Segment, lists: map<Term, ListRef>, q: Node, sc: Scoring, st: Stats) returns (out: seq<Hit>)
    requires q.AndNode? && ValidDocs(s.docs) && LooksUpAll(lists, s, q)
    ensures Ascends(out) && ScoresOf(out) == Answer(s, q, sc, st)
    decreases q, 0
  {
    hide Answer, ValidDocs, LooksUp, Ascends, ScoresOf, InAll, WithoutAll, Without;
    ChildTerms(q);
    var must, mustNot := q.must, q.mustNot;
    assert q == AndNode(must, mustNot);
    AndIs(s, must, mustNot, sc, st);
    ghost var musts, nots := Answers(s, must, sc, st), Answers(s, mustNot, sc, st);
    var acc: seq<seq<Hit>> := [];
    for k := 0 to |must|
      invariant |acc| == k
      invariant forall i | 0 <= i < k :: Ascends(acc[i]) && ScoresOf(acc[i]) == Answer(s, must[i], sc, st)
    {
      var l := EvalNode(s, lists, must[k], sc, st);
      if l == [] {
        NoneScored(l);
        EmptyMember(musts, k);
        NothingLeft(nots, |nots|);
        assert nots[..|nots|] == nots;
        return l;
      }
      acc := acc + [l];
    }
    assert AllScores(acc) == musts;
    out := Intersect(acc);
    NoneDropped(InAll(musts), nots);
    for k := 0 to |mustNot|
      invariant Ascends(out) && ScoresOf(out) == WithoutAll(InAll(musts), nots[..k])
    {
      if out == [] {
        NoneScored(out);
        StaysNothing(InAll(musts), nots, k);
        return;
      }
      var excluded := EvalNode(s, lists, mustNot[k], sc, st);
      OneDropped(InAll(musts), nots, k);
      out := Difference(out, excluded);
    }
    assert nots[..|nots|] == nots;
  }

  lemma {:induction false} NothingLeft(ms: seq<Scores>, n: nat)
    requires n <= |ms|
    ensures WithoutAll(map[], ms[..n]) == map[]
  {
    if n > 0 {
      NothingLeft(ms, n - 1);
      assert ms[..n][..n - 1] == ms[..n - 1];
    }
  }

  lemma {:induction false} NoneDropped(a: Scores, ms: seq<Scores>)
    ensures WithoutAll(a, ms[..0]) == a
  {
  }

  lemma {:induction false} OneDropped(a: Scores, ms: seq<Scores>, k: nat)
    requires k < |ms|
    ensures WithoutAll(a, ms[..k + 1]) == Without(WithoutAll(a, ms[..k]), ms[k])
  {
    assert ms[..k + 1][..k] == ms[..k];
  }

  lemma {:induction false} StaysNothing(a: Scores, ms: seq<Scores>, k: nat)
    requires k <= |ms| && WithoutAll(a, ms[..k]) == map[]
    ensures WithoutAll(a, ms) == map[]
    decreases |ms| - k
  {
    if k < |ms| {
      OneDropped(a, ms, k);
      StaysNothing(a, ms, k + 1);
    } else {
      assert ms[..k] == ms;
    }
  }
}
