/**
 Building segments (src/index/builder.rs, src/store/writer.rs): crawled files
 are indexed shard by shard, shards are absorbed into an accumulator, and the
 accumulator is flushed whenever it is over budget.
 */
module Build {
  import opened Wrappers
  import opened Documents
  import opened Postings

  datatype BuildConfig = BuildConfig(shardSize: nat, docsPerSegment: nat)

  /** One row of a segment's doc table: everything but the postings. */
  datatype Row = Row(meta: Meta, status: Status, hash: nat, len: nat)

  function RowOf(d: Doc): Row {
    Row(d.meta, d.record.status, d.record.hash, d.record.len)
  }

  function DocsFor(files: seq<CrawledFile>): seq<Doc> {
    seq(|files|, i requires 0 <= i < |files| => DocOf(files[i]))
  }

  function RowsOf(docs: seq<Doc>): seq<Row> {
    seq(|docs|, i requires 0 <= i < |docs| => RowOf(docs[i]))
  }

  /** What indexing one file produced besides its postings. */
  datatype Outcome = TextIndexed(len: nat, hash: nat) | TextSkipped(partial: Option<nat>) | NotText(status: Status)

  datatype Shard = Shard(firstDoc: DocId, terms: map<Term, PostingList>, outcomes: seq<Outcome>, tokens: nat)

  function OutcomeOf(f: CrawledFile): Outcome {
    match f.kind
    case BinaryFile => NotText(Binary)
    case LargeFile => NotText(TooLarge)
    case TextFile =>
      match f.read
      case Unreadable => TextSkipped(None)
      case Bytes(hash, None) => TextSkipped(Some(hash))
      case Bytes(hash, Some(tokens)) => TextIndexed(LengthOf(tokens), hash)
  }

  ghost predicate ReportsOn(outcomes: seq<Outcome>, files: seq<CrawledFile>) {
    |outcomes| == |files| && forall i | 0 <= i < |files| :: outcomes[i] == OutcomeOf(files[i])
  }

  function ShardRows(outcomes: seq<Outcome>, files: seq<CrawledFile>, n: nat): seq<Row>
    requires n <= |files| == |outcomes|
  {
    seq(n, i requires 0 <= i < n => RowFrom(files[i].meta, outcomes[i]))
  }

  /** A shard's outcomes carry exactly the rows of its documents. */
  lemma {:induction false} ShardRowsAre(outcomes: seq<Outcome>, files: seq<CrawledFile>)
    requires ReportsOn(outcomes, files)
    ensures ShardRows(outcomes, files, |files|) == RowsOf(DocsFor(files))
  {
    forall i | 0 <= i < |files|
      ensures RowFrom(files[i].meta, outcomes[i]) == RowOf(DocOf(files[i]))
    {
      assert outcomes[i] == OutcomeOf(files[i]);
    }
  }

  /** The row an outcome leads to; an unread file keeps the defaults. */
  function RowFrom(meta: Meta, o: Outcome): Row {
    match o
    case TextIndexed(len, hash) => Row(meta, Indexed, hash, len)
    case TextSkipped(None) => Row(meta, Skipped, 0, 0)
    case TextSkipped(Some(hash)) => Row(meta, Skipped, hash, 0)
    case NotText(status) => Row(meta, status, 0, 0)
  }

  /** A flushed segment: its doc table and its term map, on local ids. */
  datatype BuiltSegment = BuiltSegment(id: nat, base: DocId, rows: seq<Row>, terms: map<Term, PostingList>)

  ghost predicate Holds(b: BuiltSegment, docs: seq<Doc>) {
    b.rows == RowsOf(docs) && Represents(b.terms, docs, 0)
  }

  /** `built` cuts `docs` into consecutive non-empty segments from id `base` and segment id `firstId` on. */
  ghost predicate Tiles(built: seq<BuiltSegment>, docs: seq<Doc>, base: DocId, firstId: nat) {
    if built == [] then docs == []
    else
      var last := built[|built| - 1];
      var n := |docs| - |last.rows|;
      && 0 <= n < |docs| && last.base == base + n && last.id == firstId + |built| - 1
      && Holds(last, docs[n..]) && Tiles(built[..|built| - 1], docs[..n], base, firstId)
  }

  // ----- Indexing a shard -----

  lemma {:induction false} AppendDoc(was: map<Term, PostingList>, now: map<Term, PostingList>, docs: seq<Doc>, base: DocId, d: Doc)
    requires Represents(was, docs, base)
    requires forall t :: Lookup(now, t) == Lookup(was, t) + Entry(d, base + |docs|, t)
    requires Before(now, base + |docs| + 1)
    ensures Represents(now, docs + [d], base)
  {
    forall t
      ensures Lookup(now, t) == ListOf(docs + [d], base, t)
    {
      assert (docs + [d])[..|docs|] == docs;
    }
  }

  /** One file of a shard. */
  method IndexFile(store: TermStore, doc: DocId, f: CrawledFile) returns (outcome: Outcome, tokens: nat)
    requires Before(store.terms, doc)
    modifies store
    ensures outcome == OutcomeOf(f)
    ensures forall t :: Lookup(store.terms, t) == Lookup(old(store.terms), t) + Entry(DocOf(f), doc, t)
    ensures Before(store.terms, doc + 1)
  {
    tokens := 0;
    match f.kind {
      case BinaryFile => outcome := NotText(Binary);
      case LargeFile => outcome := NotText(TooLarge);
      case TextFile =>
        match f.read {
          case Unreadable => outcome := TextSkipped(None);
          case Bytes(hash, None) => outcome := TextSkipped(Some(hash));
          case Bytes(hash, Some(text)) =>
            var len, count := store.IndexDocument(doc, text);
            outcome, tokens := TextIndexed(len, hash), count;
        }
    }
  }

  method IndexShard(firstDoc: DocId, files: seq<CrawledFile>) returns (shard: Shard)
    ensures shard.firstDoc == firstDoc
    ensures Represents(shard.terms, DocsFor(files), firstDoc)
    ensures ReportsOn(shard.outcomes, files)
  {
    hide Represents, Before, OutcomeOf, DocOf, ListOf, Lookup;
    var store := new TermStore();
    var outcomes: seq<Outcome> := [];
    NoneRepresented(firstDoc);
    assert DocsFor(files[..0]) == [];
    var tokens := 0;
    for i := 0 to |files|
      invariant fresh(store)
      invariant Represents(store.terms, DocsFor(files[..i]), firstDoc) && Before(store.terms, firstDoc + i)
      invariant ReportsOn(outcomes, files[..i])
    {
      ghost var was := store.terms;
      var outcome, count := IndexFile(store, firstDoc + i, files[i]);
      AppendDoc(was, store.terms, DocsFor(files[..i]), firstDoc, DocOf(files[i]));
      assert DocsFor(files[..i + 1]) == DocsFor(files[..i]) + [DocOf(files[i])];
      ReportsMore(outcomes, files, i, outcome);
      outcomes := outcomes + [outcome];
      tokens := tokens + count;
    }
    assert files[..|files|] == files;
    shard := Shard(firstDoc, store.terms, outcomes, tokens);
  }

  lemma {:induction false} NoneRepresented(base: DocId)
    ensures Represents(map[], [], base) && Before(map[], base)
  {
  }

  lemma {:induction false} ReportsMore(outcomes: seq<Outcome>, files: seq<CrawledFile>, i: nat, o: Outcome)
    requires i < |files| && ReportsOn(outcomes, files[..i]) && o == OutcomeOf(files[i])
    ensures ReportsOn(outcomes + [o], files[..i + 1])
  {
  }

  lemma {:induction false} RepresentsConcat(was: map<Term, PostingList>, more: map<Term, PostingList>, now: map<Term, PostingList>,
                                             docs: seq<Doc>, moreDocs: seq<Doc>, base: DocId)
    requires Represents(was, docs, base) && Represents(more, moreDocs, base + |docs|)
    requires forall t :: Lookup(now, t) == Lookup(was, t) + Lookup(more, t)
    requires now.Keys == was.Keys + more.Keys
    ensures Represents(now, docs + moreDocs, base)
  {
    forall t
      ensures Lookup(now, t) == ListOf(docs + moreDocs, base, t)
    {
      ListOfConcat(docs, moreDocs, base, t);
    }
    forall t | t in now
      ensures now[t] != []
    {
      assert now[t] == Lookup(was, t) + Lookup(more, t);
    }
  }

  // ----- The accumulator -----

  class SegmentAcc {
    const base: DocId
    var rows: seq<Row>
    const store: TermStore
    var tokens: nat

    constructor (base: DocId)
      ensures this.base == base && rows == [] && store.terms == map[] && tokens == 0
      ensures fresh(store)
    {
      this.base := base;
      rows, tokens := [], 0;
      store := new TermStore();
    }

    /** The documents absorbed so far are `docs`. */
    ghost predicate Accumulates(docs: seq<Doc>)
      reads this, store
    {
      rows == RowsOf(docs) && Represents(store.terms, docs, base)
    }

    method Absorb(shard: Shard, files: seq<CrawledFile>, ghost docs: seq<Doc>)
      requires Accumulates(docs) && shard.firstDoc == base + |docs|
      requires Represents(shard.terms, DocsFor(files), shard.firstDoc)
      requires ReportsOn(shard.outcomes, files)
      modifies this, store
      ensures Accumulates(docs + DocsFor(files)) && tokens == old(tokens) + shard.tokens
    {
      AbsorbRows(shard.outcomes, files);
      ShardRowsAre(shard.outcomes, files);
      assert RowsOf(docs) + RowsOf(DocsFor(files)) == RowsOf(docs + DocsFor(files));
      tokens := tokens + shard.tokens;
      ghost var was := store.terms;
      store.MergeShard(shard.terms);
      RepresentsConcat(was, shard.terms, store.terms, docs, DocsFor(files), base);
    }

    method AbsorbRows(outcomes: seq<Outcome>, files: seq<CrawledFile>)
      requires ReportsOn(outcomes, files)
      modifies this`rows
      ensures rows == old(rows) + ShardRows(outcomes, files, |files|)
    {
      for i := 0 to |files|
        invariant rows == old(rows) + ShardRows(outcomes, files, i)
      {
        rows := rows + [RowFrom(files[i].meta, outcomes[i])];
      }
    }

    method OverBudget(cfg: BuildConfig, overBytes: map<Term, PostingList> -> bool) returns (over: bool)
      ensures over == (|rows| >= (if cfg.docsPerSegment > 1 then cfg.docsPerSegment else 1) || overBytes(store.terms))
    {
      over := |rows| >= (if cfg.docsPerSegment > 1 then cfg.docsPerSegment else 1) || overBytes(store.terms);
    }

    /** Serialise: posting lists move to local ids. */
    method Flush(id: nat, ghost docs: seq<Doc>) returns (b: BuiltSegment)
      requires Accumulates(docs)
      ensures Holds(b, docs) && b.id == id && b.base == base
    {
      forall t
        ensures forall k | 0 <= k < |Lookup(store.terms, t)| :: Lookup(store.terms, t)[k].doc >= base
        ensures Rebased(Lookup(store.terms, t), base) == ListOf(docs, 0, t)
      {
        RebaseList(docs, base, t);
      }
      assert forall t | t in store.terms :: store.terms[t] == Lookup(store.terms, t);
      b := BuiltSegment(id, base, rows, map t | t in store.terms :: Rebased(store.terms[t], base));
      assert forall t :: Lookup(b.terms, t) == Rebased(Lookup(store.terms, t), base);
    }
  }

  function Rebased(list: PostingList, base: DocId): PostingList
    requires forall k | 0 <= k < |list| :: list[k].doc >= base
  {
    seq(|list|, k requires 0 <= k < |list| => Posting(list[k].doc - base, list[k].positions))
  }

  lemma {:induction false} RebaseList(docs: seq<Doc>, base: DocId, t: Term)
    ensures forall k | 0 <= k < |ListOf(docs, base, t)| :: ListOf(docs, base, t)[k].doc >= base
    ensures Rebased(ListOf(docs, base, t), base) == ListOf(docs, 0, t)
  {
    if docs != [] {
      RebaseList(docs[..|docs| - 1], base, t);
    }
  }

  // ----- Building -----

  /** A segment of files `a` up to `c` is as large as one may get: in documents, or in bytes of its term map. */
  ghost predicate Full(files: seq<CrawledFile>, a: nat, c: nat, baseId: DocId, docsPerSegment: nat, overBytes: map<Term, PostingList> -> bool)
    requires a <= c <= |files|
  {
    || (c > a && c - a >= docsPerSegment)
    || exists terms :: Represents(terms, Slice(files, a, c), baseId + a) && overBytes(terms)
  }

  /** What is cut at `c` from `a` on was not full at any earlier end of a shard. */
  ghost predicate NotEarlier(files: seq<CrawledFile>, a: nat, c: nat, baseId: DocId, cfg: BuildConfig, overBytes: map<Term, PostingList> -> bool)
    requires c <= |files|
  {
    forall e: nat | a < e < c && (cfg.shardSize > 1 ==> e % cfg.shardSize == 0) ::
      !Full(files, a, e, baseId, cfg.docsPerSegment, overBytes)
  }

  /** The segments end at `cuts`: each at the first end of a shard at which it is full, the last one perhaps before. */
  ghost predicate CutWhenFull(files: seq<CrawledFile>, cuts: seq<nat>, baseId: DocId, cfg: BuildConfig, overBytes: map<Term, PostingList> -> bool) {
    && cuts != [] && cuts[0] == 0 && cuts[|cuts| - 1] <= |files|
    && forall k: nat | k + 1 < |cuts| :: CutFull(files, cuts[k], cuts[k + 1], baseId, cfg, overBytes)
  }

  ghost predicate CutFull(files: seq<CrawledFile>, a: nat, c: nat, baseId: DocId, cfg: BuildConfig, overBytes: map<Term, PostingList> -> bool) {
    && a < c <= |files| && (c == |files| || cfg.shardSize <= 1 || c % cfg.shardSize == 0)
    && (c < |files| ==> Full(files, a, c, baseId, cfg.docsPerSegment, overBytes))
    && NotEarlier(files, a, c, baseId, cfg, overBytes)
  }

  /** `built` holds the files between the cuts. */
  ghost predicate CutAt(built: seq<BuiltSegment>, cuts: seq<nat>, baseId: DocId) {
    && |cuts| == |built| + 1
    && forall k: nat | k < |built| :: built[k].base == baseId + cuts[k] && cuts[k] + |built[k].rows| == cuts[k + 1]
  }

  /** A segment is flushed at the first shard end at which it is over budget, and what is left at the end. */
  ghost predicate CutsWhenFull(built: seq<BuiltSegment>, files: seq<CrawledFile>, baseId: DocId, cfg: BuildConfig, overBytes: map<Term, PostingList> -> bool) {
    exists cuts :: CutAt(built, cuts, baseId) && cuts[|built|] == |files| && CutWhenFull(files, cuts, baseId, cfg, overBytes)
  }

  method BuildSegments(files: seq<CrawledFile>, baseId: DocId, cfg: BuildConfig,
                       overBytes: map<Term, PostingList> -> bool, firstId: nat)
    returns (built: seq<BuiltSegment>, nextId: nat)
    ensures Tiles(built, DocsFor(files), baseId, firstId)
    ensures CutsWhenFull(built, files, baseId, cfg, overBytes)
    ensures nextId == firstId + |built|
  {
    hide Represents, Tiles, Holds, ReportsOn, DocsFor, Full, NotEarlier, CutWhenFull, CutAt;
    NoneTiled(baseId, firstId);
    NoneRepresented(baseId);
    var shardSize := if cfg.shardSize > 1 then cfg.shardSize else 1;
    built, nextId := [], firstId;
    var acc := new SegmentAcc(baseId);
    var done := 0;
    ghost var cuts: seq<nat> := [0];  // where the segments of `built` end
    NoneCut(files, baseId, cfg, overBytes);
    while done < |files|
      invariant cuts != [] && 0 <= cuts[|cuts| - 1] <= done <= |files| && (done == |files| || done % shardSize == 0)
      invariant fresh(acc) && fresh(acc.store)
      invariant acc.base == baseId + cuts[|cuts| - 1] && acc.Accumulates(Slice(files, cuts[|cuts| - 1], done))
      invariant Tiles(built, Slice(files, 0, cuts[|cuts| - 1]), baseId, firstId) && nextId == firstId + |built|
      invariant CutAt(built, cuts, baseId) && CutWhenFull(files, cuts, baseId, cfg, overBytes)
      invariant NotEarlier(files, cuts[|cuts| - 1], done, baseId, cfg, overBytes)
      invariant cuts[|cuts| - 1] < done ==> !Full(files, cuts[|cuts| - 1], done, baseId, cfg.docsPerSegment, overBytes)
    {
      var end := if done + shardSize < |files| then done + shardSize else |files|;
      ghost var flushed := cuts[|cuts| - 1];
      var shard := IndexShard(baseId + done, files[done..end]);
      SliceSplit(files, flushed, done, end);
      NextEnd(files, flushed, done, end, baseId, cfg, overBytes);
      acc.Absorb(shard, files[done..end], Slice(files, flushed, done));
      done := end;
      var over := acc.OverBudget(cfg, overBytes);
      FullIff(files, flushed, done, baseId, cfg.docsPerSegment, overBytes, acc.store.terms);
      if over {
        var b := acc.Flush(nextId, Slice(files, flushed, done));
        TilesMore(built, files, flushed, done, baseId, firstId, b);
        CutMore(files, cuts, done, baseId, cfg, overBytes, built, b);
        built, nextId := built + [b], nextId + 1;
        cuts := cuts + [done];
        NothingEarlier(files, done, baseId, cfg, overBytes);
        NoneRepresented(acc.base + |acc.rows|);
        acc := new SegmentAcc(acc.base + |acc.rows|);
      }
    }
    if acc.rows != [] {
      ghost var flushed := cuts[|cuts| - 1];
      var b := acc.Flush(nextId, Slice(files, flushed, done));
      TilesMore(built, files, flushed, done, baseId, firstId, b);
      CutMore(files, cuts, done, baseId, cfg, overBytes, built, b);
      built, nextId := built + [b], nextId + 1;
      cuts := cuts + [done];
    }
    assert files[0..|files|] == files;
    AllCut(built, cuts, files, baseId, cfg, overBytes);
  }

  lemma {:induction false} NothingEarlier(files: seq<CrawledFile>, a: nat, baseId: DocId, cfg: BuildConfig, overBytes: map<Term, PostingList> -> bool)
    requires a <= |files|
    ensures NotEarlier(files, a, a, baseId, cfg, overBytes)
  {
  }

  lemma {:induction false} NoneCut(files: seq<CrawledFile>, baseId: DocId, cfg: BuildConfig, overBytes: map<Term, PostingList> -> bool)
    ensures CutAt([], [0], baseId) && CutWhenFull(files, [0], baseId, cfg, overBytes) && NotEarlier(files, 0, 0, baseId, cfg, overBytes)
  {
  }

  lemma {:induction false} AllCut(built: seq<BuiltSegment>, cuts: seq<nat>, files: seq<CrawledFile>, baseId: DocId, cfg: BuildConfig,
                                  overBytes: map<Term, PostingList> -> bool)
    requires CutAt(built, cuts, baseId) && CutWhenFull(files, cuts, baseId, cfg, overBytes) && cuts[|cuts| - 1] == |files|
    ensures CutsWhenFull(built, files, baseId, cfg, overBytes)
  {
    hide CutWhenFull;
  }

  /** Two term maps of the same documents are the same map. */
  lemma {:induction false} RepresentsOne(a: map<Term, PostingList>, b: map<Term, PostingList>, docs: seq<Doc>, base: DocId)
    requires Represents(a, docs, base) && Represents(b, docs, base)
    ensures a == b
  {
    hide ListOf;
    forall t
      ensures t in a <==> t in b
      ensures t in a ==> a[t] == b[t]
    {
      assert Lookup(a, t) == Lookup(b, t);
    }
  }

  lemma {:induction false} FullIff(files: seq<CrawledFile>, a: nat, c: nat, baseId: DocId, docsPerSegment: nat,
                                   overBytes: map<Term, PostingList> -> bool, terms: map<Term, PostingList>)
    requires a <= c <= |files| && Represents(terms, Slice(files, a, c), baseId + a)
    ensures Full(files, a, c, baseId, docsPerSegment, overBytes) <==> (c > a && c - a >= docsPerSegment) || overBytes(terms)
  {
    hide Represents;
    if other :| Represents(other, Slice(files, a, c), baseId + a) && overBytes(other) {
      RepresentsOne(terms, other, Slice(files, a, c), baseId + a);
    }
  }

  /** No end of a shard lies between two successive ones. */
  lemma {:induction false} NextEnd(files: seq<CrawledFile>, a: nat, done: nat, end: nat, baseId: DocId, cfg: BuildConfig,
                                   overBytes: map<Term, PostingList> -> bool)
    requires a <= done < end <= |files| && NotEarlier(files, a, done, baseId, cfg, overBytes)
    requires a < done ==> !Full(files, a, done, baseId, cfg.docsPerSegment, overBytes)
    requires var n := if cfg.shardSize > 1 then cfg.shardSize else 1; done % n == 0 && end <= done + n
    ensures NotEarlier(files, a, end, baseId, cfg, overBytes)
    ensures var n := if cfg.shardSize > 1 then cfg.shardSize else 1; end == done + n ==> end % n == 0
  {
    hide Full;
    var n := if cfg.shardSize > 1 then cfg.shardSize else 1;
    NextMultiple(done, n);
    forall e: nat | a < e < end && (cfg.shardSize > 1 ==> e % cfg.shardSize == 0)
      ensures !Full(files, a, e, baseId, cfg.docsPerSegment, overBytes)
    {
      if e > done {
        NoMultiple(done, e, n);
      }
    }
  }

  lemma {:induction false} NextMultiple(x: nat, n: nat)
    requires n > 0 && x % n == 0
    ensures (x + n) % n == 0
  {
    var q, p, r := x / n, (x + n) / n, (x + n) % n;
    Scaled(n, q, p, r);
  }

  lemma {:induction false} Scaled(n: nat, q: int, p: int, r: int)
    requires n > 0 && n * q + n == n * p + r && 0 <= r < n
    ensures r == 0
  {
    Apart(n, q + 1 - p);
    assert n * (q + 1 - p) == n * q + n - n * p;
  }

  lemma {:induction false} Apart(n: nat, k: int)
    requires n > 0
    ensures k >= 1 ==> n * k >= n
    ensures k <= -1 ==> n * k + n <= 0
    ensures k == 0 ==> n * k == 0
  {
  }

  lemma {:induction false} NoMultiple(x: nat, y: nat, n: nat)
    requires n > 0 && x % n == 0 && x < y < x + n
    ensures y % n != 0
  {
    var q, p := x / n, y / n;
    if y % n == 0 {
      Between(n, q, p);
    }
  }

  lemma {:induction false} Between(n: nat, q: int, p: int)
    requires n > 0 && n * q < n * p
    ensures n * p >= n * q + n
  {
    Apart(n, p - q);
    assert n * (p - q) == n * p - n * q;
  }

  /** One more segment, flushed because it is full or because nothing is left. */
  lemma {:induction false} CutMore(files: seq<CrawledFile>, cuts: seq<nat>, c: nat, baseId: DocId, cfg: BuildConfig,
                                   overBytes: map<Term, PostingList> -> bool, built: seq<BuiltSegment>, b: BuiltSegment)
    requires CutAt(built, cuts, baseId) && CutWhenFull(files, cuts, baseId, cfg, overBytes)
    requires var a := cuts[|cuts| - 1];
      && CutFull(files, a, c, baseId, cfg, overBytes) && b.base == baseId + a && a + |b.rows| == c <= |files|
    ensures CutAt(built + [b], cuts + [c], baseId) && CutWhenFull(files, cuts + [c], baseId, cfg, overBytes)
  {
    hide CutFull;
    var more := cuts + [c];
    forall k: nat | k + 1 < |more|
      ensures CutFull(files, more[k], more[k + 1], baseId, cfg, overBytes)
    {
      if k + 1 < |cuts| {
        assert CutFull(files, cuts[k], cuts[k + 1], baseId, cfg, overBytes);
      }
    }
  }

  lemma {:induction false} NoneTiled(base: DocId, firstId: nat)
    ensures Tiles([], [], base, firstId)
  {
  }

  /** The documents of files `from` up to `to`. */
  function Slice(files: seq<CrawledFile>, from: nat, to: nat): (docs: seq<Doc>)
    requires from <= to <= |files|
    ensures |docs| == to - from
  {
    DocsFor(files[from..to])
  }

  lemma {:induction false} SliceSplit(files: seq<CrawledFile>, a: nat, b: nat, c: nat)
    requires a <= b <= c <= |files|
    ensures Slice(files, a, b) + Slice(files, b, c) == Slice(files, a, c)
  {
  }

  lemma {:induction false} TilesMore(built: seq<BuiltSegment>, files: seq<CrawledFile>, from: nat, to: nat,
                                     base: DocId, firstId: nat, b: BuiltSegment)
    requires from < to <= |files| && Tiles(built, Slice(files, 0, from), base, firstId)
    requires Holds(b, Slice(files, from, to)) && b.base == base + from && b.id == firstId + |built|
    ensures Tiles(built + [b], Slice(files, 0, to), base, firstId)
  {
    SliceSplit(files, 0, from, to);
    var all := Slice(files, 0, to);
    assert (built + [b])[..|built|] == built;
    assert all[from..] == Slice(files, from, to) && all[..from] == Slice(files, 0, from);
  }

  // ----- Independence of the cut -----

  function Shifted(list: PostingList, offset: nat): PostingList {
    seq(|list|, k requires 0 <= k < |list| => Posting(list[k].doc + offset, list[k].positions))
  }

  lemma {:induction false} ShiftList(docs: seq<Doc>, base: DocId, t: Term)
    ensures Shifted(ListOf(docs, 0, t), base) == ListOf(docs, base, t)
  {
    if docs != [] {
      ShiftList(docs[..|docs| - 1], base, t);
    }
  }

  /** All segments' postings of `t`, on global ids. */
  function GlobalList(built: seq<BuiltSegment>, t: Term): PostingList {
    if built == [] then []
    else
      var last := built[|built| - 1];
      GlobalList(built[..|built| - 1], t) + Shifted(Lookup(last.terms, t), last.base)
  }

  /**
   Whatever the shard size, the segment size and the byte budget, the segments
   hold together exactly the postings of one sequential pass over the files.
   */
  lemma {:induction false} CutIrrelevant(built: seq<BuiltSegment>, docs: seq<Doc>, base: DocId, firstId: nat, t: Term)
    requires Tiles(built, docs, base, firstId)
    ensures GlobalList(built, t) == ListOf(docs, base, t)
  {
    if built != [] {
      var last := built[|built| - 1];
      var n := |docs| - |last.rows|;
      CutIrrelevant(built[..|built| - 1], docs[..n], base, firstId, t);
      HeldList(last, docs[n..], t);
      CutStep(built, docs, n, base, t);
    }
  }

  lemma {:induction false} CutStep(built: seq<BuiltSegment>, docs: seq<Doc>, n: nat, base: DocId, t: Term)
    requires built != [] && n <= |docs|
    requires var last := built[|built| - 1];
      last.base == base + n && Shifted(Lookup(last.terms, t), last.base) == ListOf(docs[n..], last.base, t)
    requires GlobalList(built[..|built| - 1], t) == ListOf(docs[..n], base, t)
    ensures GlobalList(built, t) == ListOf(docs, base, t)
  {
    var last := built[|built| - 1];
    assert GlobalList(built, t) == GlobalList(built[..|built| - 1], t) + Shifted(Lookup(last.terms, t), last.base);
    hide GlobalList, ListOf, Shifted, Lookup;
    CutList(docs, n, base, t);
  }

  lemma {:induction false} CutList(docs: seq<Doc>, n: nat, base: DocId, t: Term)
    requires n <= |docs|
    ensures ListOf(docs, base, t) == ListOf(docs[..n], base, t) + ListOf(docs[n..], base + n, t)
  {
    hide ListOf;
    assert docs[..n] + docs[n..] == docs;
    ListOfConcat(docs[..n], docs[n..], base, t);
  }

  lemma {:induction false} HeldList(b: BuiltSegment, docs: seq<Doc>, t: Term)
    requires Holds(b, docs)
    ensures Shifted(Lookup(b.terms, t), b.base) == ListOf(docs, b.base, t)
  {
    ShiftList(docs, b.base, t);
  }

  /** Every list the builder produces satisfies the encoder's invariants. */
  lemma {:induction false} EncoderAccepts(files: seq<CrawledFile>, b: BuiltSegment, t: Term)
    requires forall f | f in files && f.kind.TextFile? && f.read.Bytes? && f.read.tokens.Some? :: OrderedTokens(f.read.tokens.value)
    requires Holds(b, DocsFor(files)) && t in b.terms
    ensures b.terms[t] != [] && ValidList(b.terms[t])
  {
    forall i | 0 <= i < |files|
      ensures ValidDoc(DocsFor(files)[i])
    {
      assert files[i] in files;
      IndexedDocValid(files[i]);
    }
    ListOfValid(DocsFor(files), 0, t);
    assert b.terms[t] == Lookup(b.terms, t);
  }
}
