/**
 Looking terms up in an `.idx` file and listing them (src/format/idx.rs): what
 both promise of any file whose dictionary is readable, whoever wrote it.
 */
module TermScan {
  import opened Wrappers
  import opened Documents
  import opened Postings
  import opened Bytes
  import opened DiskPostings
  import opened TermDict
  import opened TermLookup
  import opened TermRead

  // ----- Lookup -----

  /** `target` falls in the gap before term `m`. */
  lemma {:induction false} Absent(es: seq<Found>, target: Term, m: nat)
    requires Ascend(es) && m <= |es| && (m > 0 ==> Less(es[m - 1].term, target)) && (m < |es| ==> Less(target, es[m].term))
    ensures forall j | 0 <= j < |es| :: es[j].term != target
  {
    forall j | 0 <= j < |es|
      ensures es[j].term != target
    {
      LessTotal(target, target);
      if j < m - 1 {
        LessTrans(es[j].term, es[m - 1].term, target);
      } else if j > m {
        LessTrans(target, es[m].term, es[j].term);
      }
    }
  }

  /** What bisection knows: blocks before `lo` start at or below the target, blocks from `hi` on above it. */
  ghost predicate Bisected(es: seq<Found>, target: Term, lo: nat, hi: nat) {
    && (lo > 0 ==> BLOCK_SIZE * (lo - 1) < |es| && !Less(target, es[BLOCK_SIZE * (lo - 1)].term))
    && (BLOCK_SIZE * hi < |es| ==> Less(target, es[BLOCK_SIZE * hi].term))
  }

  /** The list an entry refers to. */
  ghost predicate Lists(v: IdxView, e: Found, list: ListRef) {
    PostingsOf(v, e) == Success(list.data) && list.docFreq == e.docFreq
  }

  /** The answer a lookup owes for `target`. */
  ghost predicate Answers(v: IdxView, target: Term, found: Option<ListRef>) {
    match found
    case None => forall j | 0 <= j < |AllEntries(v)| :: AllEntries(v)[j].term != target
    case Some(list) => exists j :: 0 <= j < |AllEntries(v)| && AllEntries(v)[j].term == target && Lists(v, AllEntries(v)[j], list)
  }

  /** First block whose first term is above the target, by bisection over the sparse index. */
  method FirstBlockAbove(v: IdxView, target: Term) returns (r: Result<nat, FormatError>)
    requires Tiles(v.toc, v.bodyEnd)
    ensures r.Success? ==> r.value <= v.toc.numBlocks
    ensures Readable(v) ==> r.Success? && Bisected(AllEntries(v), target, r.value, r.value)
  {
    hide Less, AllEntries, RowOf, BlockOf, BlocksOk, Ascend;
    var lo: nat, hi: nat := 0, v.toc.numBlocks;
    if BlocksOk(v) {
      UpToLen(v, v.toc.numBlocks);
      assert |AllEntries(v)| == v.toc.numTerms by { EntriesLen(v); }
    }
    while lo < hi
      invariant lo <= hi <= v.toc.numBlocks
      invariant Readable(v) ==> Bisected(AllEntries(v), target, lo, hi)
    {
      var mid := lo + (hi - lo) / 2;
      if BlocksOk(v) {
        BlockSlice(v, mid);
      }
      var row := SparseEntry(v, mid);
      if row.Failure? { return Failure(row.error); }
      if !Less(target, row.value.first) {
        lo := mid + 1;
      } else {
        hi := mid;
      }
    }
    r := Success(lo);
  }

  lemma {:induction false} EntriesLen(v: IdxView)
    requires Tiles(v.toc, v.bodyEnd) && BlocksOk(v)
    ensures |AllEntries(v)| == v.toc.numTerms
  {
    UpToLen(v, v.toc.numBlocks);
  }

  /** Bisect to the one block that can hold the target, then scan it. */
  method Lookup(v: IdxView, target: Term) returns (r: Result<Option<ListRef>, FormatError>)
    requires Tiles(v.toc, v.bodyEnd)
    ensures Readable(v) ==> r.Success? && Answers(v, target, r.value)
  {
    hide Less, Bisected, AllEntries, BlocksOk, Ascend;
    if v.toc.numBlocks == 0 {
      if Readable(v) {
        EntriesLen(v);
      }
      return Success(None);
    }
    var above := FirstBlockAbove(v, target);
    if above.Failure? { return Failure(above.error); }
    if above.value == 0 {
      if Readable(v) {
        BelowAll(AllEntries(v), target);
      }
      return Success(None);
    }
    r := ScanBlock(v, above.value - 1, target);
  }

  lemma {:induction false} BelowAll(es: seq<Found>, target: Term)
    requires Ascend(es) && Bisected(es, target, 0, 0)
    ensures forall j | 0 <= j < |es| :: es[j].term != target
  {
    Absent(es, target, 0);
  }

  method ScanBlock(v: IdxView, b: nat, target: Term) returns (r: Result<Option<ListRef>, FormatError>)
    requires Tiles(v.toc, v.bodyEnd) && b < v.toc.numBlocks
    ensures Readable(v) && Bisected(AllEntries(v), target, b + 1, b + 1) ==> r.Success? && Answers(v, target, r.value)
  {
    hide Less, Bisected, AllEntries, Ascend, BlocksOk, BlockOf, PostingsOf, Scan, Answers, Lists;
    ghost var good := Readable(v) && Bisected(AllEntries(v), target, b + 1, b + 1);
    CeilDiv(v.toc.numTerms, b);
    if good {
      BlockSlice(v, b);
      EntriesLen(v);
      AllReadInBlock(v, b);
    }
    var scan := Block(v, b);
    if scan.Failure? { return Failure(scan.error); }
    ghost var k: nat := BLOCK_SIZE * b;
    if good {
      StartPassed(AllEntries(v), target, b);
    }
    while true
      invariant fresh(scan.value) && scan.value.view == v
      invariant good ==> Left(v, scan.value.Ahead(), b, k) && PassedAll(AllEntries(v), target, b, k)
      decreases scan.value.remaining
    {
      var entry := scan.value.NextEntry();
      if good {
        ScanEnds(v, target, b, k);
      }
      if entry.Failure? { return Failure(entry.error); }
      if entry.value.None? { return Success(None); }
      var e := entry.value.value;
      if e.term == target {
        var list := PostingsFor(v, e);
        if good {
          AnswerHere(v, target, k);
        }
        if list.Failure? { return Failure(list.error); }
        return Success(Some(list.value));
      } else if !Less(e.term, target) {
        return Success(None);
      }
      k := k + 1;
    }
  }

  /** A scan of block `b` has entries `k` on still to come. */
  ghost predicate Left(v: IdxView, ahead: Scanned, b: nat, k: nat) {
    && BLOCK_SIZE * b <= k <= UpTo(v, b + 1) <= |AllEntries(v)| && ahead.end.Success?
    && ahead.entries == AllEntries(v)[k..UpTo(v, b + 1)]
  }

  lemma {:induction false} AllReadInBlock(v: IdxView, b: nat)
    requires Tiles(v.toc, v.bodyEnd) && BlocksOk(v) && b < v.toc.numBlocks
    ensures BLOCK_SIZE * b <= v.toc.numTerms && BlockOf(v, b).Success? && Left(v, BlockOf(v, b).value, b, BLOCK_SIZE * b)
  {
    BlockSlice(v, b);
    hide BlockOf, RowOf, AllEntries, EndOf;
    assert BlockOk(v, b);
  }

  /** The block's terms before `k` are below the target. */
  ghost predicate PassedAll(es: seq<Found>, target: Term, b: nat, k: nat) {
    && Ascend(es) && Bisected(es, target, b + 1, b + 1)
    && BLOCK_SIZE * b <= k <= |es| && (k > BLOCK_SIZE * b ==> Less(es[k - 1].term, target))
  }

  lemma {:induction false} StartPassed(es: seq<Found>, target: Term, b: nat)
    requires Ascend(es) && Bisected(es, target, b + 1, b + 1)
    ensures PassedAll(es, target, b, BLOCK_SIZE * b)
  {
  }

  /** Where the scan stops, it knows the answer; where it goes on, it has passed one more term. */
  lemma {:induction false} ScanEnds(v: IdxView, target: Term, b: nat, k: nat)
    requires PassedAll(AllEntries(v), target, b, k) && k <= UpTo(v, b + 1) && |AllEntries(v)| == v.toc.numTerms
    ensures k == UpTo(v, b + 1) ==> Answers(v, target, None)
    ensures k < UpTo(v, b + 1) && AllEntries(v)[k].term != target && !Less(AllEntries(v)[k].term, target) ==> Answers(v, target, None)
    ensures k < UpTo(v, b + 1) && Less(AllEntries(v)[k].term, target) ==> PassedAll(AllEntries(v), target, b, k + 1)
  {
    hide Ascend, Less, AllEntries;
    var es := AllEntries(v);
    if k == UpTo(v, b + 1) {
      BlockPassed(es, target, b, k);
      Absent(es, target, k);
    } else if es[k].term != target && !Less(es[k].term, target) {
      LessTotal(es[k].term, target);
      BlockStarts(es, target, b, k);
      Absent(es, target, k);
    }
  }

  /** Past the whole block, the last term is below the target. */
  lemma {:induction false} BlockPassed(es: seq<Found>, target: Term, b: nat, k: nat)
    requires PassedAll(es, target, b, k) && k == if BLOCK_SIZE * (b + 1) < |es| then BLOCK_SIZE * (b + 1) else |es|
    ensures (k > 0 ==> Less(es[k - 1].term, target)) && (k < |es| ==> Less(target, es[k].term))
  {
    hide Ascend, Less;
  }

  /** The target is not below the block's first term. */
  lemma {:induction false} BlockStarts(es: seq<Found>, target: Term, b: nat, k: nat)
    requires PassedAll(es, target, b, k) && k < |es| && Less(target, es[k].term)
    ensures k > BLOCK_SIZE * b && Less(es[k - 1].term, target)
  {
    hide Ascend, Less;
  }

  lemma {:induction false} AnswerHere(v: IdxView, target: Term, k: nat)
    requires Readable(v) && k < |AllEntries(v)| && AllEntries(v)[k].term == target
    ensures PostingsOf(v, AllEntries(v)[k]).Success?
    ensures Answers(v, target, Some(ListRef(PostingsOf(v, AllEntries(v)[k]).value, AllEntries(v)[k].docFreq)))
  {
    hide AllEntries, PostingsOf, BlocksOk, Ascend;
    assert Lists(v, AllEntries(v)[k], ListRef(PostingsOf(v, AllEntries(v)[k]).value, AllEntries(v)[k].docFreq));
  }

  // ----- Every term in order -----

  class TermIter {
    const view: IdxView
    var block: nat
    var scan: BlockScan?

    /** About to yield term `k`. */
    ghost predicate At(k: nat)
      reads this, scan
    {
      && block <= view.toc.numBlocks && k <= |AllEntries(view)|
      && if scan == null then AllEntries(view)[..k] == EntriesUpTo(view, block)
         else scan.view == view && scan.Ahead().end.Success?
              && AllEntries(view)[..k] + scan.Ahead().entries == EntriesUpTo(view, block)
    }

    constructor (view: IdxView)
      ensures this.view == view && At(0) && scan == null
    {
      this.view, block, scan := view, 0, null;
    }

    /** Opens blocks as it needs them; `None` after the last term, an error at a term that is not UTF-8. */
    method TryNext(utf8: bytes -> bool, ghost k: nat) returns (r: Result<Option<(Term, ListRef)>, FormatError>)
      requires Tiles(view.toc, view.bodyEnd)
      modifies this, scan
      ensures scan == null || scan == old(scan) || fresh(scan)
      ensures Readable(view) && old(At(k)) && k == |AllEntries(view)| ==> r == Success(None) && At(k)
      ensures Readable(view) && old(At(k)) && k < |AllEntries(view)| && utf8(AllEntries(view)[k].term) ==>
                && At(k + 1) && r.Success? && r.value.Some?
                && r.value.value.0 == AllEntries(view)[k].term && Lists(view, AllEntries(view)[k], r.value.value.1)
      ensures Readable(view) && old(At(k)) && k < |AllEntries(view)| && !utf8(AllEntries(view)[k].term) ==> r.Failure?
    {
      hide AllEntries, EntriesUpTo, BlockOf, PostingsOf, Scan, Ascend, RowOf;
      ghost var good := Readable(view) && At(k);
      while true
        invariant scan == null || scan == old(scan) || fresh(scan)
        invariant good ==> At(k)
        decreases if block < view.toc.numBlocks then view.toc.numBlocks - block else 0, if scan == null then 0 else 1
      {
        if scan == null {
          if block >= view.toc.numBlocks {
            if good {
              AllYielded(view, k);
            }
            return Success(None);
          }
          CeilDiv(view.toc.numTerms, block);
          if good {
            NextBlock(view, block);
          }
          var next := Block(view, block);
          if next.Failure? { return Failure(next.error); }
          scan := next.value;
          block := block + 1;
        }
        if good {
          NextTerm(view, block, k, scan.Ahead().entries);
        }
        var entry := scan.NextEntry();
        if entry.Failure? { return Failure(entry.error); }
        if entry.value.Some? {
          var e := entry.value.value;
          if !utf8(e.term) { return Failure(Corrupt); }
          var list := PostingsFor(view, e);
          if list.Failure? { return Failure(list.error); }
          return Success(Some((e.term, list.value)));
        }
        scan := null;
      }
    }
  }

  lemma {:induction false} AllYielded(v: IdxView, k: nat)
    requires k <= |AllEntries(v)| && AllEntries(v)[..k] == EntriesUpTo(v, v.toc.numBlocks)
    ensures k == |AllEntries(v)|
  {
  }

  lemma {:induction false} NextBlock(v: IdxView, b: nat)
    requires BlocksOk(v) && b < v.toc.numBlocks
    ensures BLOCK_SIZE * b <= v.toc.numTerms && BlockOf(v, b).Success? && BlockOf(v, b).value.end.Success?
    ensures EntriesUpTo(v, b + 1) == EntriesUpTo(v, b) + BlockOf(v, b).value.entries
  {
    hide BlockOf, RowOf, EndOf;
    assert BlockOk(v, b);
  }

  /** The first entry ahead is term `k`. */
  lemma {:induction false} NextTerm(v: IdxView, b: nat, k: nat, ahead: seq<Found>)
    requires b <= v.toc.numBlocks && k <= |AllEntries(v)| && AllEntries(v)[..k] + ahead == EntriesUpTo(v, b)
    ensures ahead != [] ==> k < |AllEntries(v)| && ahead[0] == AllEntries(v)[k]
    ensures ahead != [] ==> AllEntries(v)[..k + 1] + ahead[1..] == EntriesUpTo(v, b)
    ensures ahead == [] ==> AllEntries(v)[..k] == EntriesUpTo(v, b)
  {
    hide EntriesUpTo;
    UpToPrefix(v, b, v.toc.numBlocks);
    Peel(AllEntries(v), EntriesUpTo(v, b), k, ahead);
  }

  lemma {:induction false} Peel(all: seq<Found>, some: seq<Found>, k: nat, ahead: seq<Found>)
    requires some <= all && k <= |all| && all[..k] + ahead == some
    ensures ahead != [] ==> k < |all| && ahead[0] == all[k] && all[..k + 1] + ahead[1..] == some
  {
    if ahead != [] {
      assert some[k] == ahead[0] && some[k] == all[k];
      assert all[..k + 1] + ahead[1..] == all[..k] + ahead;
    }
  }
}
