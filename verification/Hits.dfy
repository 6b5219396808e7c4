/**
 Hit lists and the operations that combine them (src/query/exec.rs): linear
 merge, intersection from the shortest list, and difference.  A list is read as
 the map from its documents to their scores; scores are exact.
 */
module Hits {
  import opened Wrappers
  import opened Documents

  datatype Hit = Hit(doc: DocId, score: real)

  type Scores = map<DocId, real>

  ghost predicate Ascends(h: seq<Hit>) {
    forall i, j | 0 <= i < j < |h| :: h[i].doc < h[j].doc
  }

  function ScoresOf(h: seq<Hit>): Scores {
    if h == [] then map[] else ScoresOf(h[..|h| - 1])[h[|h| - 1].doc := h[|h| - 1].score]
  }

  lemma {:induction false} ScoresSnoc(h: seq<Hit>, x: Hit)
    ensures ScoresOf(h + [x]) == ScoresOf(h)[x.doc := x.score]
  {
    assert (h + [x])[..|h|] == h;
  }

  lemma {:induction false} ScoresConcat(a: seq<Hit>, b: seq<Hit>)
    ensures ScoresOf(a + b) == ScoresOf(a) + ScoresOf(b)
  {
    if b == [] {
      assert a + b == a;
    } else {
      ScoresConcat(a, b[..|b| - 1]);
      assert a + b == (a + b[..|b| - 1]) + [b[|b| - 1]];
      ScoresSnoc(a + b[..|b| - 1], b[|b| - 1]);
    }
  }

  /** A document has a score exactly if it is listed, and that score. */
  lemma {:induction false} ScoresAre(h: seq<Hit>)
    requires Ascends(h)
    ensures forall i | 0 <= i < |h| :: h[i].doc in ScoresOf(h) && ScoresOf(h)[h[i].doc] == h[i].score
    ensures forall d | d in ScoresOf(h) :: exists i :: 0 <= i < |h| && h[i].doc == d
  {
    if h != [] {
      var front, last := h[..|h| - 1], h[|h| - 1];
      assert Ascends(front);
      ScoresAre(front);
      forall i | 0 <= i < |h|
        ensures h[i].doc in ScoresOf(h) && ScoresOf(h)[h[i].doc] == h[i].score
      {
        if i < |front| {
          assert front[i] == h[i];
        }
      }
      forall d | d in ScoresOf(h)
        ensures exists i :: 0 <= i < |h| && h[i].doc == d
      {
        if d == last.doc {
          assert h[|h| - 1].doc == d;
        } else {
          assert d in ScoresOf(front);
          var i :| 0 <= i < |front| && front[i].doc == d;
          assert h[i].doc == d;
        }
      }
    }
  }

  lemma {:induction false} AscendsSnoc(h: seq<Hit>, x: Hit)
    requires Ascends(h) && (h != [] ==> h[|h| - 1].doc < x.doc)
    ensures Ascends(h + [x])
  {
  }

  /** Looking at the first hit at or past `d` tells whether `d` is listed. */
  lemma {:induction false} FoundAt(h: seq<Hit>, j: nat, d: DocId)
    requires Ascends(h) && j <= |h| && (forall i | 0 <= i < j :: h[i].doc < d) && (j < |h| ==> h[j].doc >= d)
    ensures d in ScoresOf(h) <==> j < |h| && h[j].doc == d
    ensures d in ScoresOf(h) ==> ScoresOf(h)[d] == h[j].score
  {
    ScoresAre(h);
    if d in ScoresOf(h) {
      var i :| 0 <= i < |h| && h[i].doc == d;
      assert i == j;
    }
  }

  /** First index from `lo` on whose doc reaches `target`, by bisection. */
  method PartitionPoint(h: seq<Hit>, lo: nat, target: DocId) returns (i: nat)
    requires Ascends(h) && lo <= |h|
    ensures lo <= i <= |h|
    ensures forall k | lo <= k < i :: h[k].doc < target
    ensures forall k | i <= k < |h| :: h[k].doc >= target
  {
    var l, r := lo, |h|;
    while l < r
      invariant lo <= l <= r <= |h|
      invariant forall k | lo <= k < l :: h[k].doc < target
      invariant forall k | r <= k < |h| :: h[k].doc >= target
    {
      var mid := l + (r - l) / 2;
      if h[mid].doc < target {
        l := mid + 1;
      } else {
        r := mid;
      }
    }
    i := l;
  }

  // ----- Intersection -----

  function Both(a: Scores, b: Scores): Scores {
    map d | d in a && d in b :: a[d] + b[d]
  }

  /** Documents of `lists`, all of them, with scores summed. */
  function InAll(lists: seq<Scores>): Scores {
    if lists == [] then map[]
    else if |lists| == 1 then lists[0]
    else Both(InAll(lists[..|lists| - 1]), lists[|lists| - 1])
  }

  function SumAt(lists: seq<Scores>, d: DocId): real {
    if lists == [] then 0.0
    else
      var last := lists[|lists| - 1];
      SumAt(lists[..|lists| - 1], d) + if d in last then last[d] else 0.0
  }

  /** In every list, at the sum of its scores. */
  lemma {:induction false} InAllIs(lists: seq<Scores>, d: DocId)
    requires lists != []
    ensures d in InAll(lists) <==> forall m | m in lists :: d in m
    ensures d in InAll(lists) ==> InAll(lists)[d] == SumAt(lists, d)
  {
    var front, last := lists[..|lists| - 1], lists[|lists| - 1];
    assert lists == front + [last];
    if |lists| == 1 {
      assert front == [] && lists[0] == last;
    } else {
      InAllIs(front, d);
    }
  }

  lemma {:induction false} SumConcat(a: seq<Scores>, b: seq<Scores>, d: DocId)
    ensures SumAt(a + b, d) == SumAt(a, d) + SumAt(b, d)
  {
    if b == [] {
      assert a + b == a;
    } else {
      assert (a + b)[..|a + b| - 1] == a + b[..|b| - 1];
      SumConcat(a, b[..|b| - 1], d);
    }
  }

  lemma {:induction false} SumOne(m: Scores, d: DocId)
    ensures SumAt([m], d) == if d in m then m[d] else 0.0
  {
    var one := [m];
    assert one[..0] == [];
  }

  lemma {:induction false} BagOfThree<T>(a: seq<T>, e: T, b: seq<T>)
    ensures multiset(a + [e] + b) == multiset(a) + multiset{e} + multiset(b) == multiset(a + b) + multiset{e}
  {
  }

  lemma {:induction false} BagCancels<T>(a: multiset<T>, b: multiset<T>, e: T)
    requires a + multiset{e} == b + multiset{e}
    ensures a == b
  {
    assert a == a + multiset{e} - multiset{e};
  }

  lemma {:induction false} RemoveOne<T>(a: seq<T>, b: seq<T>, j: nat)
    requires multiset(a) == multiset(b) && a != [] && j < |b| && b[j] == a[|a| - 1]
    ensures multiset(a[..|a| - 1]) == multiset(b[..j] + b[j + 1..])
  {
    var x, y, z := a[..|a| - 1], b[..j], b[j + 1..];
    assert a == x + [b[j]] + [] && b == y + [b[j]] + z && x + [] == x;
    BagOfThree(x, b[j], []);
    BagOfThree(y, b[j], z);
    BagCancels(multiset(x), multiset(y + z), b[j]);
  }

  /** Addition is exact, so the order of the lists does not matter. */
  lemma {:induction false} SumPermuted(a: seq<Scores>, b: seq<Scores>, d: DocId)
    requires multiset(a) == multiset(b)
    ensures SumAt(a, d) == SumAt(b, d)
    decreases |a|
  {
    if a == [] {
      SameLength(a, b);
    } else {
      var front, last := a[..|a| - 1], a[|a| - 1];
      assert a == front + [last];
      assert last in multiset(b);
      var j :| 0 <= j < |b| && b[j] == last;
      var x, y := b[..j], b[j + 1..];
      assert b == x + [last] + y;
      RemoveOne(a, b, j);
      SumPermuted(front, x + y, d);
      SumConcat(x, y, d);
      SumConcat(x + [last], y, d);
      SumConcat(x, [last], d);
      SumOne(last, d);
    }
  }

  lemma {:induction false} InAllPermuted(a: seq<Scores>, b: seq<Scores>)
    requires multiset(a) == multiset(b)
    ensures InAll(a) == InAll(b)
  {
    if a == [] || b == [] {
      SameLength(a, b);
    } else {
      forall d
        ensures d in InAll(a) <==> d in InAll(b)
        ensures d in InAll(a) ==> InAll(a)[d] == InAll(b)[d]
      {
        InAllIs(a, d);
        InAllIs(b, d);
        SumPermuted(a, b, d);
        assert forall m :: m in a <==> m in multiset(a);
        assert forall m :: m in b <==> m in multiset(b);
      }
    }
  }

  lemma {:induction false} SameLength<T>(a: seq<T>, b: seq<T>)
    requires multiset(a) == multiset(b)
    ensures |a| == |b|
  {
    assert |multiset(a)| == |a| && |multiset(b)| == |b|;
  }

  lemma {:induction false} EmptyMember(lists: seq<Scores>, k: nat)
    requires k < |lists| && lists[k] == map[]
    ensures InAll(lists) == map[]
  {
    forall d
      ensures d !in InAll(lists)
    {
      InAllIs(lists, d);
      assert lists[k] in lists;
    }
  }

  lemma {:induction false} EmptyPrefix(lists: seq<Scores>, n: nat)
    requires 0 < n <= |lists| && InAll(lists[..n]) == map[]
    ensures InAll(lists) == map[]
  {
    forall d
      ensures d !in InAll(lists)
    {
      InAllIs(lists, d);
      InAllIs(lists[..n], d);
    }
  }

  // ----- Union -----

  function Sum(a: Scores, b: Scores): Scores {
    map d | d in a.Keys + b.Keys :: (if d in a then a[d] else 0.0) + (if d in b then b[d] else 0.0)
  }

  function InAny(lists: seq<Scores>): Scores {
    if lists == [] then map[] else Sum(InAny(lists[..|lists| - 1]), lists[|lists| - 1])
  }

  /** In some list, at the sum of the scores it has. */
  lemma {:induction false} InAnyIs(lists: seq<Scores>, d: DocId)
    ensures d in InAny(lists) <==> exists k :: 0 <= k < |lists| && d in lists[k]
    ensures d in InAny(lists) ==> InAny(lists)[d] == SumAt(lists, d)
    ensures d !in InAny(lists) ==> SumAt(lists, d) == 0.0
  {
    if lists != [] {
      InAnyIs(lists[..|lists| - 1], d);
    }
  }

  // ----- The operations -----

  /** `out` keeps some hits of `base[..k]`, and `other[..j]` lies before `base[k - 1]`. */
  ghost predicate Passing(base: seq<Hit>, other: seq<Hit>, k: nat, j: nat, out: seq<Hit>) {
    && k <= |base| && j <= |other| && Ascends(out)
    && (forall i | 0 <= i < j :: k > 0 && other[i].doc < base[k - 1].doc)
    && (out != [] ==> k > 0 && out[|out| - 1].doc <= base[k - 1].doc)
  }

  /** The pointer moves up to `base[k]`, which is then kept or dropped. */
  lemma {:induction false} PassMoves(base: seq<Hit>, other: seq<Hit>, k: nat, j: nat, i: nat, out: seq<Hit>)
    requires Ascends(base) && Ascends(other) && k < |base| && Passing(base, other, k, j, out) && j <= i <= |other|
    requires forall x | j <= x < i :: other[x].doc < base[k].doc
    requires forall x | i <= x < |other| :: other[x].doc >= base[k].doc
    ensures Passing(base, other, k + 1, i, out)
    ensures forall score :: Passing(base, other, k + 1, i, out + [Hit(base[k].doc, score)])
    ensures base[k].doc in ScoresOf(other) <==> i < |other| && other[i].doc == base[k].doc
    ensures base[k].doc in ScoresOf(other) ==> ScoresOf(other)[base[k].doc] == other[i].score
  {
    assert k > 0 ==> base[k - 1].doc < base[k].doc;
    forall x | 0 <= x < i
      ensures other[x].doc < base[k].doc
    {
    }
    FoundAt(other, i, base[k].doc);
    forall score
      ensures Ascends(out + [Hit(base[k].doc, score)])
    {
      AscendsSnoc(out, Hit(base[k].doc, score));
    }
  }

  lemma {:induction false} FrontStep(h: seq<Hit>, k: nat)
    requires k < |h|
    ensures ScoresOf(h[..k + 1]) == ScoresOf(h[..k])[h[k].doc := h[k].score]
  {
    assert h[..k + 1] == h[..k] + [h[k]];
    ScoresSnoc(h[..k], h[k]);
  }

  lemma {:induction false} BothStep(a: Scores, b: Scores, d: DocId, score: real)
    ensures Both(a[d := score], b) == if d in b then Both(a, b)[d := score + b[d]] else Both(a, b)
  {
  }

  /** Walk `base` and keep what `other` has too, moving forward in both. */
  method IntersectTwo(base: seq<Hit>, other: seq<Hit>) returns (out: seq<Hit>)
    requires Ascends(base) && Ascends(other)
    ensures Ascends(out) && ScoresOf(out) == Both(ScoresOf(base), ScoresOf(other))
  {
    hide Ascends, Both;
    out := [];
    var j: nat := 0;
    assert Ascends(out) by { NoneAscends(); }
    assert ScoresOf(out) == Both(ScoresOf(base[..0]), ScoresOf(other)) by { NoneBoth(ScoresOf(other)); }
    for k := 0 to |base|
      invariant Passing(base, other, k, j, out) && ScoresOf(out) == Both(ScoresOf(base[..k]), ScoresOf(other))
    {
      var i := PartitionPoint(other, j, base[k].doc);
      PassMoves(base, other, k, j, i, out);
      FrontStep(base, k);
      BothStep(ScoresOf(base[..k]), ScoresOf(other), base[k].doc, base[k].score);
      j := i;
      if j < |other| && other[j].doc == base[k].doc {
        var hit := Hit(base[k].doc, base[k].score + other[j].score);
        ScoresSnoc(out, hit);
        out := out + [hit];
      }
    }
    assert base[..|base|] == base;
  }

  lemma {:induction false} NoneAscends()
    ensures Ascends([])
  {
  }

  lemma {:induction false} NoneBoth(b: Scores)
    ensures Both(map[], b) == map[]
  {
  }

  function Without(a: Scores, b: Scores): Scores {
    a - b.Keys
  }

  lemma {:induction false} NoneWithout(base: seq<Hit>, excluded: seq<Hit>)
    ensures ScoresOf([]) == Without(ScoresOf(base[..0]), ScoresOf(excluded))
  {
  }

  lemma {:induction false} WithoutStep(a: Scores, b: Scores, d: DocId, score: real)
    ensures Without(a[d := score], b) == if d in b then Without(a, b) else Without(a, b)[d := score]
  {
  }

  /** `base` without the documents of `excluded`, scores as they were. */
  method Difference(base: seq<Hit>, excluded: seq<Hit>) returns (out: seq<Hit>)
    requires Ascends(base) && Ascends(excluded)
    ensures Ascends(out) && ScoresOf(out) == Without(ScoresOf(base), ScoresOf(excluded))
  {
    if excluded == [] {
      return base;
    }
    hide Ascends, ScoresOf, Without;
    out := [];
    var j: nat := 0;
    assert Ascends(out) by { NoneAscends(); }
    NoneWithout(base, excluded);
    for k := 0 to |base|
      invariant Passing(base, excluded, k, j, out) && ScoresOf(out) == Without(ScoresOf(base[..k]), ScoresOf(excluded))
    {
      var i := PartitionPoint(excluded, j, base[k].doc);
      PassMoves(base, excluded, k, j, i, out);
      FrontStep(base, k);
      WithoutStep(ScoresOf(base[..k]), ScoresOf(excluded), base[k].doc, base[k].score);
      j := i;
      if !(j < |excluded| && excluded[j].doc == base[k].doc) {
        ScoresSnoc(out, base[k]);
        assert base[k] == Hit(base[k].doc, base[k].score);
        out := out + [base[k]];
      }
    }
    assert base[..|base|] == base;
  }

  function AllScores(lists: seq<seq<Hit>>): seq<Scores> {
    seq(|lists|, k requires 0 <= k < |lists| => ScoresOf(lists[k]))
  }

  ghost predicate ByLength(lists: seq<seq<Hit>>) {
    forall i, j | 0 <= i < j < |lists| :: |lists[i]| <= |lists[j]|
  }

  lemma {:induction false} InsertedByLength(sorted: seq<seq<Hit>>, i: nat, l: seq<Hit>)
    requires ByLength(sorted) && i <= |sorted|
    requires i > 0 ==> |sorted[i - 1]| <= |l|
    requires forall j | i <= j < |sorted| :: |sorted[j]| > |l|
    ensures ByLength(sorted[..i] + [l] + sorted[i..])
  {
    forall j | 0 <= j < i
      ensures |sorted[j]| <= |l|
    {
      assert j < i - 1 ==> |sorted[j]| <= |sorted[i - 1]|;
    }
  }

  method InsertByLength(sorted: seq<seq<Hit>>, l: seq<Hit>) returns (more: seq<seq<Hit>>)
    requires ByLength(sorted)
    ensures ByLength(more) && multiset(more) == multiset(sorted + [l])
  {
    hide ByLength;
    var i: nat := |sorted|;
    while i > 0 && |sorted[i - 1]| > |l|
      invariant 0 <= i <= |sorted|
      invariant forall j | i <= j < |sorted| :: |sorted[j]| > |l|
    {
      i := i - 1;
    }
    more := sorted[..i] + [l] + sorted[i..];
    InsertedByLength(sorted, i, l);
    InsertedBag(sorted, i, l);
  }

  lemma {:induction false} InsertedBag(sorted: seq<seq<Hit>>, i: nat, l: seq<Hit>)
    requires i <= |sorted|
    ensures multiset(sorted[..i] + [l] + sorted[i..]) == multiset(sorted + [l])
  {
    assert sorted[..i] + sorted[i..] == sorted;
    BagOfThree(sorted[..i], l, sorted[i..]);
  }

  /** A stable sort by length: the shortest list comes first. */
  method SortByLength(lists: seq<seq<Hit>>) returns (sorted: seq<seq<Hit>>)
    ensures ByLength(sorted) && multiset(sorted) == multiset(lists)
  {
    sorted := [];
    for k := 0 to |lists|
      invariant ByLength(sorted) && multiset(sorted) == multiset(lists[..k])
    {
      assert lists[..k + 1] == lists[..k] + [lists[k]];
      sorted := InsertByLength(sorted, lists[k]);
    }
    assert lists[..|lists|] == lists;
  }

  lemma {:induction false} AllScoresOfThree(a: seq<seq<Hit>>, h: seq<Hit>, b: seq<seq<Hit>>)
    ensures AllScores(a + [h] + b) == AllScores(a) + [ScoresOf(h)] + AllScores(b)
    ensures AllScores(a + b) == AllScores(a) + AllScores(b)
  {
  }

  lemma {:induction false} AllScoresPermuted(a: seq<seq<Hit>>, b: seq<seq<Hit>>)
    requires multiset(a) == multiset(b)
    ensures multiset(AllScores(a)) == multiset(AllScores(b))
    decreases |a|
  {
    SameLength(a, b);
    if a == [] {
      assert AllScores(a) == AllScores(b);
    } else {
      hide AllScores, ScoresOf;
      var x, e := a[..|a| - 1], a[|a| - 1];
      assert a == x + [e] + [] && x + [] == x;
      assert e in multiset(b);
      var j :| 0 <= j < |b| && b[j] == e;
      var y, z := b[..j], b[j + 1..];
      assert b == y + [e] + z;
      RemoveOne(a, b, j);
      AllScoresPermuted(x, y + z);
      AllScoresOfThree(x, e, []);
      AllScoresOfThree(y, e, z);
      BagOfThree(AllScores(x), ScoresOf(e), AllScores([]));
      BagOfThree(AllScores(y), ScoresOf(e), AllScores(z));
    }
  }

  /** Documents in every list, scores summed; nothing at all for no lists. */
  method Intersect(lists: seq<seq<Hit>>) returns (out: seq<Hit>)
    requires forall l | l in lists :: Ascends(l)
    ensures Ascends(out) && ScoresOf(out) == InAll(AllScores(lists))
  {
    hide Ascends, ScoresOf, InAll;
    ghost var scores := AllScores(lists);
    assert InAll([]) == map[] by { FirstOnly([]); }
    assert Ascends([]) by { NoneAscends(); }
    assert ScoresOf([]) == map[] by { NoneScored([]); }
    if lists == [] {
      return [];
    }
    if exists k :: 0 <= k < |lists| && lists[k] == [] {
      ghost var k :| 0 <= k < |lists| && lists[k] == [];
      EmptyMember(scores, k);
      return [];
    }
    var sorted := SortByLength(lists);
    SameLength(sorted, lists);
    AllScoresPermuted(sorted, lists);
    ghost var ordered := AllScores(sorted);
    InAllPermuted(ordered, scores);
    assert forall k | 0 <= k < |sorted| :: sorted[k] in multiset(lists);
    out := sorted[0];
    FirstOnly(ordered);
    var k := 1;
    while k < |sorted|
      invariant 1 <= k <= |sorted| && Ascends(out) && ScoresOf(out) == InAll(ordered[..k])
    {
      OneMoreList(ordered, k);
      out := IntersectTwo(out, sorted[k]);
      k := k + 1;
      if out == [] {
        EmptyPrefix(ordered, k);
        return;
      }
    }
    assert ordered[..|ordered|] == ordered;
  }

  lemma {:induction false} FirstOnly(lists: seq<Scores>)
    ensures lists == [] ==> InAll(lists) == map[]
    ensures lists != [] ==> InAll(lists[..1]) == lists[0]
  {
  }

  lemma {:induction false} OneMoreList(lists: seq<Scores>, k: nat)
    requires 0 < k < |lists|
    ensures InAll(lists[..k + 1]) == Both(InAll(lists[..k]), lists[k])
  {
    assert lists[..k + 1][..k] == lists[..k];
  }

  lemma {:induction false} NoneScored(h: seq<Hit>)
    ensures ScoresOf(h) == map[] <==> h == []
  {
    if h != [] {
      assert h[|h| - 1].doc in ScoresOf(h);
    }
  }

  /** What is known half-way through a merge. */
  ghost predicate Merging(a: seq<Hit>, b: seq<Hit>, i: nat, j: nat, out: seq<Hit>) {
    && i <= |a| && j <= |b| && Ascends(out) && ScoresOf(out) == Sum(ScoresOf(a[..i]), ScoresOf(b[..j]))
    && (i < |a| ==> forall x | 0 <= x < j :: b[x].doc < a[i].doc)
    && (j < |b| ==> forall x | 0 <= x < i :: a[x].doc < b[j].doc)
    && (out != [] ==> (i < |a| ==> out[|out| - 1].doc < a[i].doc) && (j < |b| ==> out[|out| - 1].doc < b[j].doc))
  }

  method MergeSum(a: seq<Hit>, b: seq<Hit>) returns (out: seq<Hit>)
    requires Ascends(a) && Ascends(b)
    ensures Ascends(out) && ScoresOf(out) == Sum(ScoresOf(a), ScoresOf(b))
  {
    if a == [] {
      SumNone(ScoresOf(b));
      return b;
    }
    if b == [] {
      SumNone(ScoresOf(a));
      return a;
    }
    hide Ascends, Sum;
    out := [];
    var i: nat, j: nat := 0, 0;
    MergeStart(a, b);
    while i < |a| && j < |b|
      invariant Merging(a, b, i, j, out)
      decreases |a| - i + |b| - j
    {
      MergeStep(a, b, i, j, out);
      if a[i].doc < b[j].doc {
        out := out + [a[i]];
        i := i + 1;
      } else if a[i].doc > b[j].doc {
        out := out + [b[j]];
        j := j + 1;
      } else {
        out := out + [Hit(a[i].doc, a[i].score + b[j].score)];
        i, j := i + 1, j + 1;
      }
    }
    MergeEnd(a, b, i, j, out);
    out := out + a[i..] + b[j..];
  }

  lemma {:induction false} SumNone(a: Scores)
    ensures Sum(map[], a) == a && Sum(a, map[]) == a
  {
  }

  lemma {:induction false} MergeStart(a: seq<Hit>, b: seq<Hit>)
    ensures Merging(a, b, 0, 0, [])
  {
    assert ScoresOf(a[..0]) == map[] && ScoresOf(b[..0]) == map[];
  }

  /** Taking the smaller head, or both heads when they are one document. */
  lemma {:induction false} MergeStep(a: seq<Hit>, b: seq<Hit>, i: nat, j: nat, out: seq<Hit>)
    requires Ascends(a) && Ascends(b) && i < |a| && j < |b| && Merging(a, b, i, j, out)
    ensures a[i].doc < b[j].doc ==> Merging(a, b, i + 1, j, out + [a[i]])
    ensures a[i].doc > b[j].doc ==> Merging(a, b, i, j + 1, out + [b[j]])
    ensures a[i].doc == b[j].doc ==> Merging(a, b, i + 1, j + 1, out + [Hit(a[i].doc, a[i].score + b[j].score)])
  {
    hide Ascends, Sum, ScoresOf;
    FrontStep(a, i);
    FrontStep(b, j);
    PrefixBelow(a, i);
    PrefixBelow(b, j);
    if a[i].doc < b[j].doc {
      PrefixOutside(b, j, a[i].doc);
      TakeOne(ScoresOf(a[..i]), ScoresOf(b[..j]), a[i], out);
    } else if a[i].doc > b[j].doc {
      PrefixOutside(a, i, b[j].doc);
      TakeOther(ScoresOf(a[..i]), ScoresOf(b[..j]), b[j], out);
    } else {
      TakeBoth(ScoresOf(a[..i]), ScoresOf(b[..j]), a[i], b[j], out);
    }
  }

  /** Documents of a proper prefix lie below the next one. */
  lemma {:induction false} PrefixBelow(h: seq<Hit>, k: nat)
    requires Ascends(h) && k < |h|
    ensures forall x | 0 <= x < k :: h[x].doc < h[k].doc
    ensures k + 1 < |h| ==> h[k].doc < h[k + 1].doc
    ensures h[k].doc !in ScoresOf(h[..k])
  {
    PrefixOutside(h, k, h[k].doc);
  }

  lemma {:induction false} PrefixOutside(h: seq<Hit>, k: nat, d: DocId)
    requires Ascends(h) && k <= |h| && forall x | 0 <= x < k :: h[x].doc < d
    ensures d !in ScoresOf(h[..k])
  {
    var front := h[..k];
    assert Ascends(front);
    FoundAt(front, k, d);
  }

  lemma {:induction false} TakeOne(a: Scores, b: Scores, x: Hit, out: seq<Hit>)
    requires Ascends(out) && (out != [] ==> out[|out| - 1].doc < x.doc) && ScoresOf(out) == Sum(a, b) && x.doc !in b
    ensures Ascends(out + [x]) && ScoresOf(out + [x]) == Sum(a[x.doc := x.score], b)
  {
    AscendsSnoc(out, x);
    ScoresSnoc(out, x);
  }

  lemma {:induction false} TakeOther(a: Scores, b: Scores, x: Hit, out: seq<Hit>)
    requires Ascends(out) && (out != [] ==> out[|out| - 1].doc < x.doc) && ScoresOf(out) == Sum(a, b) && x.doc !in a
    ensures Ascends(out + [x]) && ScoresOf(out + [x]) == Sum(a, b[x.doc := x.score])
  {
    AscendsSnoc(out, x);
    ScoresSnoc(out, x);
  }

  lemma {:induction false} TakeBoth(a: Scores, b: Scores, x: Hit, y: Hit, out: seq<Hit>)
    requires Ascends(out) && (out != [] ==> out[|out| - 1].doc < x.doc) && ScoresOf(out) == Sum(a, b) && x.doc == y.doc
    ensures var hit := Hit(x.doc, x.score + y.score);
      Ascends(out + [hit]) && ScoresOf(out + [hit]) == Sum(a[x.doc := x.score], b[y.doc := y.score])
  {
    var hit := Hit(x.doc, x.score + y.score);
    AscendsSnoc(out, hit);
    ScoresSnoc(out, hit);
  }

  /** One list is used up: the rest of the other follows. */
  lemma {:induction false} MergeEnd(a: seq<Hit>, b: seq<Hit>, i: nat, j: nat, out: seq<Hit>)
    requires Ascends(a) && Ascends(b) && Merging(a, b, i, j, out) && (i == |a| || j == |b|)
    ensures Ascends(out + a[i..] + b[j..]) && ScoresOf(out + a[i..] + b[j..]) == Sum(ScoresOf(a), ScoresOf(b))
  {
    hide Ascends, Sum, ScoresOf;
    if i == |a| {
      assert a[i..] == [] && a[..i] == a && out + a[i..] == out;
      if j < |b| {
        KeysBelow(a, b[j].doc);
      }
      RestFollows(out, b, j, ScoresOf(a));
    } else {
      assert b[j..] == [] && b[..j] == b && out + a[i..] + b[j..] == out + a[i..];
      SumSwaps(ScoresOf(a[..i]), ScoresOf(b));
      SumSwaps(ScoresOf(a), ScoresOf(b));
      KeysBelow(b, a[i].doc);
      RestFollows(out, a, i, ScoresOf(b));
    }
  }

  lemma {:induction false} SumSwaps(a: Scores, b: Scores)
    ensures Sum(a, b) == Sum(b, a)
  {
  }

  lemma {:induction false} KeysBelow(h: seq<Hit>, d: DocId)
    requires Ascends(h) && forall x | 0 <= x < |h| :: h[x].doc < d
    ensures forall k | k in ScoresOf(h) :: k < d
  {
    ScoresAre(h);
  }

  lemma {:induction false} RestFollows(out: seq<Hit>, b: seq<Hit>, j: nat, a: Scores)
    requires Ascends(b) && j <= |b| && Ascends(out) && ScoresOf(out) == Sum(a, ScoresOf(b[..j]))
    requires j < |b| ==> (out != [] ==> out[|out| - 1].doc < b[j].doc) && forall d | d in a :: d < b[j].doc
    ensures Ascends(out + b[j..]) && ScoresOf(out + b[j..]) == Sum(a, ScoresOf(b))
    decreases |b| - j
  {
    hide Ascends, Sum, ScoresOf;
    if j == |b| {
      assert b[j..] == [] && out + b[j..] == out && b[..j] == b;
    } else {
      FrontStep(b, j);
      PrefixBelow(b, j);
      TakeOther(a, ScoresOf(b[..j]), b[j], out);
      RestFollows(out + [b[j]], b, j + 1, a);
      assert out + b[j..] == out + [b[j]] + b[j + 1..];
    }
  }

  method Union(lists: seq<seq<Hit>>) returns (out: seq<Hit>)
    requires forall l | l in lists :: Ascends(l)
    ensures Ascends(out) && ScoresOf(out) == InAny(AllScores(lists))
  {
    hide Ascends, Sum;
    assert Ascends([]) by { NoneAscends(); }
    out := [];
    ghost var scores := AllScores(lists);
    for k := 0 to |lists|
      invariant Ascends(out) && ScoresOf(out) == InAny(scores[..k])
    {
      assert lists[k] in lists && scores[..k + 1][..k] == scores[..k];
      out := MergeSum(out, lists[k]);
    }
    assert scores[..|scores|] == scores;
  }
}
