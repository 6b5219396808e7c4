/**
 Posting lists and the in-memory term store (src/index/memory.rs), with the
 meaning every other module refers to: the list a segment's documents call for.
 */
module Postings {
  import opened Wrappers
  import opened Documents

  /** One document's entry in a posting list. */
  datatype Posting = Posting(doc: DocId, positions: seq<Position>)

  type PostingList = seq<Posting>

  ghost predicate DocsAscend(list: PostingList) {
    forall i, j | 0 <= i < j < |list| :: list[i].doc < list[j].doc
  }

  /** Docs strictly increase; each has at least one position, strictly increasing. */
  ghost predicate ValidList(list: PostingList) {
    && DocsAscend(list)
    && (forall i | 0 <= i < |list| :: list[i].positions != [] && Ascending(list[i].positions))
  }

  function Lookup(terms: map<Term, PostingList>, t: Term): PostingList {
    if t in terms then terms[t] else []
  }

  // ----- The lists a run of documents calls for -----

  function Entry(d: Doc, id: DocId, t: Term): PostingList {
    if t in d.record.terms then [Posting(id, d.record.terms[t])] else []
  }

  /** Postings of `t` over `docs`, the first of which has id `base`. */
  function ListOf(docs: seq<Doc>, base: DocId, t: Term): PostingList {
    if docs == [] then []
    else
      var n := |docs| - 1;
      ListOf(docs[..n], base, t) + Entry(docs[n], base + n, t)
  }

  /** `terms` is exactly the term map of `docs` based at `base`. */
  ghost predicate Represents(terms: map<Term, PostingList>, docs: seq<Doc>, base: DocId) {
    && (forall t :: Lookup(terms, t) == ListOf(docs, base, t))
    && (forall t | t in terms :: terms[t] != [])
  }

  /** Every term of a document has ascending positions. */
  ghost predicate ValidDoc(d: Doc) {
    forall t | t in d.record.terms :: d.record.terms[t] != [] && Ascending(d.record.terms[t])
  }

  ghost predicate ValidDocs(docs: seq<Doc>) {
    forall i | 0 <= i < |docs| :: ValidDoc(docs[i])
  }

  lemma {:induction false} ListOfConcat(a: seq<Doc>, b: seq<Doc>, base: DocId, t: Term)
    ensures ListOf(a + b, base, t) == ListOf(a, base, t) + ListOf(b, base + |a|, t)
  {
    if b == [] {
      assert a + b == a;
    } else {
      var n := |b| - 1;
      assert (a + b)[..|a| + n] == a + b[..n];
      ListOfConcat(a, b[..n], base, t);
    }
  }

  /** An entry is `docs[i]`'s, under id `base + i`, with that document's positions. */
  ghost predicate EntryOf(p: Posting, docs: seq<Doc>, base: DocId, t: Term) {
    && base <= p.doc < base + |docs|
    && t in docs[p.doc - base].record.terms
    && p.positions == docs[p.doc - base].record.terms[t]
  }

  lemma {:induction false} ListOfMeaning(docs: seq<Doc>, base: DocId, t: Term)
    ensures forall p | p in ListOf(docs, base, t) :: EntryOf(p, docs, base, t)
    ensures DocsAscend(ListOf(docs, base, t))
  {
    if docs != [] {
      var n := |docs| - 1;
      ListOfMeaning(docs[..n], base, t);
      var before, list := ListOf(docs[..n], base, t), ListOf(docs, base, t);
      assert list == before + Entry(docs[n], base + n, t);
      assert forall p | p in before :: EntryOf(p, docs[..n], base, t) && EntryOf(p, docs, base, t);
      assert forall k | 0 <= k < |before| :: before[k] in before && before[k].doc < base + n;
    }
  }

  lemma {:induction false} ListOfHas(docs: seq<Doc>, base: DocId, t: Term, i: nat)
    requires i < |docs| && t in docs[i].record.terms
    ensures Posting(base + i, docs[i].record.terms[t]) in ListOf(docs, base, t)
  {
    var n := |docs| - 1;
    if i < n {
      ListOfHas(docs[..n], base, t, i);
    }
  }

  lemma {:induction false} ListOfValid(docs: seq<Doc>, base: DocId, t: Term)
    requires ValidDocs(docs)
    ensures ValidList(ListOf(docs, base, t))
  {
    ListOfMeaning(docs, base, t);
    var list := ListOf(docs, base, t);
    forall k | 0 <= k < |list|
      ensures list[k].positions != [] && Ascending(list[k].positions)
    {
      assert EntryOf(list[k], docs, base, t);
    }
  }

  // ----- Tokens -----

  /** Positions never go back within a document (identifier parts repeat one). */
  ghost predicate OrderedTokens(tokens: seq<Token>) {
    forall i, j | 0 <= i < j < |tokens| :: tokens[i].position <= tokens[j].position
  }

  /** A term's positions are those of its tokens. */
  lemma {:induction false} PositionsAre(tokens: seq<Token>, t: Term)
    ensures forall p :: p in PositionsOf(tokens, t) <==> Token(t, p) in tokens
  {
    if tokens != [] {
      var front, last := tokens[..|tokens| - 1], tokens[|tokens| - 1];
      PositionsAre(front, t);
      assert tokens == front + [last];
      var before := PositionsOf(front, t);
      assert last.term == t && PositionsOf(tokens, t) == before ==> last.position in before;
    }
  }

  lemma {:induction false} PositionsAscend(tokens: seq<Token>, t: Term)
    requires OrderedTokens(tokens)
    ensures Ascending(PositionsOf(tokens, t))
    ensures PositionsOf(tokens, t) != [] ==>
              tokens != [] && PositionsOf(tokens, t)[|PositionsOf(tokens, t)| - 1] <= tokens[|tokens| - 1].position
  {
    if tokens != [] {
      hide Ascending;
      var front, last := tokens[..|tokens| - 1], tokens[|tokens| - 1];
      PositionsAscend(front, t);
      var before := PositionsOf(front, t);
      if before != [] {
        assert before[|before| - 1] <= front[|front| - 1].position <= last.position;
      }
      if PositionsOf(tokens, t) != before {
        AscendingSnoc(before, last.position);
      }
    }
  }

  /** An indexed document's positions satisfy the encoder's invariants. */
  lemma {:induction false} IndexedDocValid(f: CrawledFile)
    requires f.kind.TextFile? && f.read.Bytes? && f.read.tokens.Some? ==> OrderedTokens(f.read.tokens.value)
    ensures ValidDoc(DocOf(f))
  {
    if f.kind.TextFile? && f.read.Bytes? && f.read.tokens.Some? {
      var tokens := f.read.tokens.value;
      forall t | t in TermsOf(tokens)
        ensures TermsOf(tokens)[t] != [] && Ascending(TermsOf(tokens)[t])
      {
        PositionsAscend(tokens, t);
        PositionsAre(tokens, t);
        var k :| 0 <= k < |tokens| && tokens[k].term == t;
        assert tokens[k] == Token(t, tokens[k].position);
      }
    }
  }

  // ----- The mutable store -----

  /** Record `position` for `doc` on a list whose last doc is not greater. */
  function Pushed(list: PostingList, doc: DocId, position: Position): PostingList {
    if list != [] && list[|list| - 1].doc == doc then
      var last := list[|list| - 1];
      if last.positions != [] && last.positions[|last.positions| - 1] == position then list
      else list[|list| - 1 := Posting(doc, last.positions + [position])]
    else list + [Posting(doc, [position])]
  }

  /** Nothing recorded yet for `doc` or any later one. */
  ghost predicate Before(terms: map<Term, PostingList>, doc: DocId) {
    forall t | t in terms :: terms[t] != [] && forall k | 0 <= k < |terms[t]| :: terms[t][k].doc < doc
  }

  class TermStore {
    var terms: map<Term, PostingList>

    constructor ()
      ensures terms == map[]
    {
      terms := map[];
    }

    method Push(t: Term, doc: DocId, position: Position)
      modifies this
      ensures terms == old(terms)[t := Pushed(Lookup(old(terms), t), doc, position)]
    {
      if t in terms {
        terms := terms[t := Pushed(terms[t], doc, position)];
      } else {
        assert [] + [Posting(doc, [position])] == [Posting(doc, [position])];
        terms := terms[t := [Posting(doc, [position])]];
      }
    }

    /** Tokenize one document into the store (src/index/builder.rs). */
    method IndexDocument(doc: DocId, tokens: seq<Token>) returns (len: nat, count: nat)
      requires Before(terms, doc)
      modifies this
      ensures len == LengthOf(tokens) && count == |tokens|
      ensures forall t :: Lookup(terms, t)
                == Lookup(old(terms), t) + (if t in TermsOf(tokens) then [Posting(doc, TermsOf(tokens)[t])] else [])
      ensures Before(terms, doc + 1)
    {
      len, count := 0, 0;
      for k := 0 to |tokens|
        invariant len == LengthOf(tokens[..k]) && count == k
        invariant Grown(old(terms), terms, doc, tokens[..k])
      {
        assert tokens[..k + 1][..k] == tokens[..k];
        GrowStep(old(terms), terms, doc, tokens[..k + 1]);
        Push(tokens[k].term, doc, tokens[k].position);
        len := tokens[k].position + 1;
        count := count + 1;
      }
      assert tokens[..|tokens|] == tokens;
      GrownWhole(old(terms), terms, doc, tokens);
    }

    /** Fold in a shard whose docs all come later. */
    method MergeShard(shard: map<Term, PostingList>)
      modifies this
      ensures forall t :: Lookup(terms, t) == Lookup(old(terms), t) + Lookup(shard, t)
      ensures terms.Keys == old(terms).Keys + shard.Keys
    {
      if terms == map[] {
        terms := shard;
        return;
      }
      var pending := shard.Keys;
      ghost var was := terms;
      while pending != {}
        invariant pending <= shard.Keys && Folded(was, terms, shard, pending)
        decreases pending
      {
        var t :| t in pending;
        FoldStep(was, terms, shard, pending, t);
        terms := terms[t := Lookup(terms, t) + shard[t]];
        pending := pending - {t};
      }
    }
  }

  /** `now` is `was` with the lists of `shard` appended, but for the `pending` ones. */
  ghost predicate Folded(was: map<Term, PostingList>, now: map<Term, PostingList>, shard: map<Term, PostingList>, pending: set<Term>) {
    && now.Keys == was.Keys + (shard.Keys - pending)
    && forall t :: Lookup(now, t) == Lookup(was, t) + (if t in pending then [] else Lookup(shard, t))
  }

  lemma {:induction false} FoldStep(was: map<Term, PostingList>, now: map<Term, PostingList>, shard: map<Term, PostingList>, pending: set<Term>, t: Term)
    requires pending <= shard.Keys && t in pending && Folded(was, now, shard, pending)
    ensures Folded(was, now[t := Lookup(now, t) + shard[t]], shard, pending - {t})
  {
  }

  /** `now` is `was` with the occurrences of one more document appended. */
  ghost predicate Grown(was: map<Term, PostingList>, now: map<Term, PostingList>, doc: DocId, tokens: seq<Token>) {
    && (forall t :: Lookup(now, t) == Lookup(was, t) + Occurrence(doc, tokens, t))
    && (forall t | t in now :: now[t] != [])
  }

  lemma {:induction false} GrowStep(was: map<Term, PostingList>, now: map<Term, PostingList>, doc: DocId, tokens: seq<Token>)
    requires tokens != [] && Before(was, doc) && Grown(was, now, doc, tokens[..|tokens| - 1])
    ensures var last := tokens[|tokens| - 1];
      Grown(was, now[last.term := Pushed(Lookup(now, last.term), doc, last.position)], doc, tokens)
  {
    hide Occurrence;
    var last := tokens[|tokens| - 1];
    var pushed := Pushed(Lookup(now, last.term), doc, last.position);
    LastBefore(was, doc, last.term);
    PushOccurrence(Lookup(was, last.term), doc, tokens);
    assert Lookup(now, last.term) == Lookup(was, last.term) + Occurrence(doc, tokens[..|tokens| - 1], last.term);
    PushedSome(Lookup(now, last.term), doc, last.position);
  }

  lemma {:induction false} LastBefore(terms: map<Term, PostingList>, doc: DocId, t: Term)
    requires Before(terms, doc)
    ensures Lookup(terms, t) != [] ==> Lookup(terms, t)[|Lookup(terms, t)| - 1].doc < doc
  {
  }

  lemma {:induction false} PushedSome(list: PostingList, doc: DocId, position: Position)
    ensures Pushed(list, doc, position) != []
  {
  }

  lemma {:induction false} GrownWhole(was: map<Term, PostingList>, now: map<Term, PostingList>, doc: DocId, tokens: seq<Token>)
    requires Before(was, doc) && Grown(was, now, doc, tokens)
    ensures forall t :: Lookup(now, t) == Lookup(was, t) + (if t in TermsOf(tokens) then [Posting(doc, TermsOf(tokens)[t])] else [])
    ensures Before(now, doc + 1)
  {
    forall t
      ensures Occurrence(doc, tokens, t) == if t in TermsOf(tokens) then [Posting(doc, TermsOf(tokens)[t])] else []
    {
      OccursIff(tokens, t);
    }
    forall t | t in now
      ensures forall k | 0 <= k < |now[t]| :: now[t][k].doc < doc + 1
    {
      assert now[t] == Lookup(was, t) + Occurrence(doc, tokens, t);
    }
  }

  /** Pushing the next token extends its own term's entry and no other. */
  lemma {:induction false} PushOccurrence(list: PostingList, doc: DocId, tokens: seq<Token>)
    requires tokens != [] && (list != [] ==> list[|list| - 1].doc < doc)
    ensures Pushed(list + Occurrence(doc, tokens[..|tokens| - 1], tokens[|tokens| - 1].term), doc, tokens[|tokens| - 1].position)
         == list + Occurrence(doc, tokens, tokens[|tokens| - 1].term)
    ensures forall t | t != tokens[|tokens| - 1].term :: Occurrence(doc, tokens, t) == Occurrence(doc, tokens[..|tokens| - 1], t)
  {
    var n := |tokens| - 1;
    var t, p := tokens[n].term, tokens[n].position;
    var before := Occurrence(doc, tokens[..n], t);
    var all := list + before;
    if before == [] {
      assert all == list;
      assert [] + [p] == [p];
    } else {
      assert all[|all| - 1] == before[0];
      assert all[|all| - 1 := Posting(doc, before[0].positions + [p])] == list + [Posting(doc, before[0].positions + [p])];
    }
  }

  function Occurrence(doc: DocId, tokens: seq<Token>, t: Term): PostingList {
    if PositionsOf(tokens, t) == [] then [] else [Posting(doc, PositionsOf(tokens, t))]
  }

  lemma {:induction false} OccursIff(tokens: seq<Token>, t: Term)
    ensures PositionsOf(tokens, t) != [] <==> exists k :: 0 <= k < |tokens| && tokens[k].term == t
  {
    if tokens != [] {
      OccursIff(tokens[..|tokens| - 1], t);
    }
  }

  // ----- The cursor -----

  /** Index of the first posting from `from` on whose doc is at least `target`. */
  function SeekIndex(list: PostingList, from: nat, target: DocId): (i: nat)
    requires from <= |list|
    ensures from <= i <= |list|
    decreases |list| - from
  {
    if from == |list| || list[from].doc >= target then from else SeekIndex(list, from + 1, target)
  }

  /** `SeekIndex` is the first index at or after `from` that reaches the target. */
  lemma {:induction false} SeekLands(list: PostingList, from: nat, target: DocId)
    requires from <= |list|
    ensures var i := SeekIndex(list, from, target);
      && (forall k | from <= k < i :: list[k].doc < target)
      && (i < |list| ==> list[i].doc >= target)
    decreases |list| - from
  {
    if from < |list| && list[from].doc < target {
      SeekLands(list, from + 1, target);
    }
  }

  lemma {:induction false} SeekUnique(list: PostingList, from: nat, target: DocId, i: nat)
    requires from <= i <= |list|
    requires forall k | from <= k < i :: list[k].doc < target
    requires i < |list| ==> list[i].doc >= target
    ensures SeekIndex(list, from, target) == i
    decreases i - from
  {
    if from < i {
      SeekUnique(list, from + 1, target, i);
    }
  }

  function DocAtIndex(list: PostingList, i: nat): Option<DocId> {
    if i < |list| then Some(list[i].doc) else None
  }

  class MemPostingCursor {
    const postings: PostingList
    var idx: nat

    constructor (postings: PostingList)
      ensures this.postings == postings && idx == 0
    {
      this.postings := postings;
      idx := 0;
    }

    function Doc(): Option<DocId>
      reads this
    {
      DocAtIndex(postings, idx)
    }

    method Advance() returns (doc: Option<DocId>)
      modifies this
      ensures idx == if old(idx) < |postings| then old(idx) + 1 else old(idx)
      ensures doc == Doc()
    {
      if idx < |postings| {
        idx := idx + 1;
      }
      doc := Doc();
    }

    /** Galloping search: double the step until overshooting, then bisect the last interval. */
    method Seek(target: DocId) returns (doc: Option<DocId>)
      requires idx <= |postings| && ValidList(postings)
      modifies this
      ensures idx <= |postings| && idx == SeekIndex(postings, old(idx), target)
      ensures doc == Doc()
    {
      var len := |postings|;
      if idx >= len {
        return None;
      }
      if postings[idx].doc >= target {
        return Some(postings[idx].doc);
      }
      var lo := idx;
      var step := 1;
      var hi := lo + step;
      while hi < len && postings[hi].doc < target
        invariant idx <= lo < len && postings[lo].doc < target && step >= 1 && hi == lo + step
        decreases len - lo
      {
        lo := hi;
        step := step * 2;
        hi := lo + step;
      }
      hi := if hi < len then hi else len;
      var i := PartitionPoint(postings, lo + 1, hi, target);
      SeekUnique(postings, idx, target, i);
      idx := i;
      doc := Doc();
    }
  }

  /** First index in `[lo, hi)` whose doc reaches `target`, by bisection. */
  method PartitionPoint(list: PostingList, lo: nat, hi: nat, target: DocId) returns (i: nat)
    requires lo <= hi <= |list| && ValidList(list)
    ensures lo <= i <= hi
    ensures forall k | lo <= k < i :: list[k].doc < target
    ensures forall k | i <= k < hi :: list[k].doc >= target
  {
    var l, h := lo, hi;
    while l < h
      invariant lo <= l <= h <= hi
      invariant forall k | lo <= k < l :: list[k].doc < target
      invariant forall k | h <= k < hi :: list[k].doc >= target
    {
      var mid := l + (h - l) / 2;
      if list[mid].doc < target {
        l := mid + 1;
      } else {
        h := mid;
      }
    }
    i := l;
  }
}
