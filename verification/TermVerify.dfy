/**
 The full check of an `.idx` file (src/format/idx.rs): exactly what it accepts,
 and what an accepted file is.
 */
module TermVerify {
  import opened Wrappers
  import opened Documents
  import opened Postings
  import opened Bytes
  import opened Envelope
  import opened DiskPostings
  import opened TermDict
  import opened TermLookup
  import opened TermRead
  import opened TermScan

  /** An entry in its place after `prev`: in order, UTF-8, and its list decodes with the dictionary's count. */
  ghost predicate EntrySound(v: IdxView, prev: Option<Term>, e: Found, utf8: bytes -> bool) {
    && (prev.Some? ==> Less(prev.value, e.term)) && utf8(e.term)
    && PostingsOf(v, e).Success? && ListOk(PostingsOf(v, e).value, e.docFreq)
  }

  /** The term before entry `i`, where `prev` comes before them all. */
  function PrevOf(prev: Option<Term>, es: seq<Found>, i: nat): Option<Term>
    requires i <= |es|
  {
    if i == 0 then prev else Some(es[i - 1].term)
  }

  ghost predicate AllSound(v: IdxView, es: seq<Found>, utf8: bytes -> bool) {
    forall i | 0 <= i < |es| :: EntrySound(v, PrevOf(None, es, i), es[i], utf8)
  }

  /** What the full check demands: sound blocks and entries, and a postings region with nothing left over. */
  ghost predicate Verified(v: IdxView, utf8: bytes -> bool) {
    BlocksOk(v) && AllSound(v, AllEntries(v), utf8) && EndOf(v, AllEntries(v)) == v.toc.postingsOff + v.toc.postingsLen
  }

  // ----- What an accepted file is -----

  /** Each list starts where the one before it ends, from the start of the postings region to its end. */
  ghost predicate Contiguous(v: IdxView, es: seq<Found>) {
    forall i | 0 <= i < |es| :: es[i].off == EndOf(v, es[..i])
  }

  lemma {:induction false} ScanContiguous(data: bytes, end: nat, pos: nat, prev: Term, postingsPos: nat, remaining: nat, i: nat)
    requires i < |Scan(data, end, pos, prev, postingsPos, remaining).entries|
    ensures var es := Scan(data, end, pos, prev, postingsPos, remaining).entries;
      es[i].off == if i == 0 then postingsPos else es[i - 1].off + es[i - 1].len
    decreases remaining
  {
    hide RawEntryAt;
    var raw := RawEntryAt(data, pos, prev).value;
    if i > 0 {
      var rest := Scan(data, end, raw.next, raw.term, postingsPos + raw.len, remaining - 1);
      ScanContiguous(data, end, raw.next, raw.term, postingsPos + raw.len, remaining - 1, i - 1);
    }
  }

  lemma {:induction false} BlockContiguous(v: IdxView, b: nat, i: nat)
    requires BlockOk(v, b) && i < |BlockEntries(v, b)|
    ensures BlockEntries(v, b)[i].off == if i == 0 then EndOf(v, EntriesUpTo(v, b)) else BlockEntries(v, b)[i - 1].off + BlockEntries(v, b)[i - 1].len
  {
    hide RowOf, EntriesUpTo, EndOf, Scan;
    var row := RowOf(v, b).value;
    ScanContiguous(v.data, v.toc.dictOff + v.toc.dictLen, v.toc.dictOff + row.blockOff, [], v.toc.postingsOff + row.postingsOff, BlockLen(v, b), i);
  }

  lemma {:induction false} UpToContiguous(v: IdxView, n: nat)
    requires BlocksOk(v) && n <= v.toc.numBlocks
    ensures Contiguous(v, EntriesUpTo(v, n))
  {
    hide BlockOk, BlockEntries;
    if n > 0 {
      UpToContiguous(v, n - 1);
      var front, more := EntriesUpTo(v, n - 1), BlockEntries(v, n - 1);
      var both: seq<Found> := front + more;
      forall i | 0 <= i < |both|
        ensures both[i].off == EndOf(v, both[..i])
      {
        if i < |front| {
          assert both[..i] == front[..i];
        } else {
          assert BlockOk(v, n - 1);
          BlockContiguous(v, n - 1, i - |front|);
          assert i == |front| ==> both[..i] == front;
        }
      }
    }
  }

  lemma {:induction false} SoundAscend(v: IdxView, es: seq<Found>, utf8: bytes -> bool, i: nat, j: nat)
    requires AllSound(v, es, utf8) && i < j < |es|
    ensures Less(es[i].term, es[j].term)
    decreases j
  {
    hide Less, AllSound;
    SoundNext(v, es, utf8, j);
    if i < j - 1 {
      SoundAscend(v, es, utf8, i, j - 1);
      LessTrans(es[i].term, es[j - 1].term, es[j].term);
    }
  }

  lemma {:induction false} SoundNext(v: IdxView, es: seq<Found>, utf8: bytes -> bool, j: nat)
    requires AllSound(v, es, utf8) && 0 < j < |es|
    ensures Less(es[j - 1].term, es[j].term)
  {
    hide Less, ListOk, PostingsOf;
    assert EntrySound(v, PrevOf(None, es, j), es[j], utf8);
  }

  /**
   An accepted file holds as many terms as its header says, strictly ascending
   and UTF-8; their lists tile the postings region and each decodes, to its last
   byte, to a valid list of the dictionary's count.  Lookup and iteration rest on that.
   */
  lemma {:induction false} VerifiedMeans(v: IdxView, utf8: bytes -> bool)
    requires Tiles(v.toc, v.bodyEnd) && Verified(v, utf8)
    ensures Readable(v) && |AllEntries(v)| == v.toc.numTerms && Contiguous(v, AllEntries(v))
    ensures EndOf(v, AllEntries(v)) == v.toc.postingsOff + v.toc.postingsLen
    ensures forall i | 0 <= i < |AllEntries(v)| :: utf8(AllEntries(v)[i].term) && HoldsList(v, AllEntries(v)[i])
  {
    hide BlockOk, Less, ListOk, PostingsOf, AllEntries, EndOf, Contiguous;
    var es := AllEntries(v);
    UpToLen(v, v.toc.numBlocks);
    UpToContiguous(v, v.toc.numBlocks);
    assert AllEntries(v) == EntriesUpTo(v, v.toc.numBlocks) by { AllAre(v); }
    forall i, j | 0 <= i < j < |es|
      ensures Less(es[i].term, es[j].term)
    {
      SoundAscend(v, es, utf8, i, j);
    }
    forall i | 0 <= i < |es|
      ensures utf8(es[i].term) && PostingsOf(v, es[i]).Success? && HoldsList(v, es[i])
    {
      assert EntrySound(v, PrevOf(None, es, i), es[i], utf8);
      SoundHolds(v, PrevOf(None, es, i), es[i], utf8);
    }
  }

  lemma {:induction false} AllAre(v: IdxView)
    ensures AllEntries(v) == EntriesUpTo(v, v.toc.numBlocks)
  {
  }

  /** The entry's bytes decode to a valid list of its count. */
  ghost predicate HoldsList(v: IdxView, e: Found) {
    && PostingsOf(v, e).Success? && Decoded(PostingsOf(v, e).value).Some?
    && ValidList(Decoded(PostingsOf(v, e).value).value) && |Decoded(PostingsOf(v, e).value).value| == e.docFreq
  }

  lemma {:induction false} SoundHolds(v: IdxView, prev: Option<Term>, e: Found, utf8: bytes -> bool)
    requires EntrySound(v, prev, e, utf8)
    ensures HoldsList(v, e)
  {
    hide PostingsOf, Decoded;
    DecodedValid(PostingsOf(v, e).value);
  }

  // ----- The check -----

  /** Entries `es` are sound after `prev`. */
  ghost predicate SoundAfter(v: IdxView, prev: Option<Term>, es: seq<Found>, utf8: bytes -> bool)
    decreases es
  {
    es == [] || (EntrySound(v, prev, es[0], utf8) && SoundAfter(v, Some(es[0].term), es[1..], utf8))
  }

  function LastOf(prev: Option<Term>, es: seq<Found>): Option<Term> {
    if es == [] then prev else Some(es[|es| - 1].term)
  }

  lemma {:induction false} SoundConcat(v: IdxView, prev: Option<Term>, a: seq<Found>, b: seq<Found>, utf8: bytes -> bool)
    ensures SoundAfter(v, prev, a + b, utf8) <==> SoundAfter(v, prev, a, utf8) && SoundAfter(v, LastOf(prev, a), b, utf8)
    decreases |a|
  {
    hide EntrySound;
    if a == [] {
      assert a + b == b;
    } else {
      assert (a + b)[1..] == a[1..] + b;
      SoundConcat(v, Some(a[0].term), a[1..], b, utf8);
    }
  }

  lemma {:induction false} SoundAfterIff(v: IdxView, prev: Option<Term>, es: seq<Found>, utf8: bytes -> bool)
    ensures SoundAfter(v, prev, es, utf8) <==> forall i | 0 <= i < |es| :: EntrySound(v, PrevOf(prev, es, i), es[i], utf8)
    decreases |es|
  {
    hide EntrySound;
    if es != [] {
      var rest := es[1..];
      SoundAfterIff(v, Some(es[0].term), rest, utf8);
      var first := Some(es[0].term);
      assert PrevOf(prev, es, 0) == prev;
      assert forall i | 0 <= i < |rest| :: rest[i] == es[i + 1] && PrevOf(first, rest, i) == PrevOf(prev, es, i + 1);
      if SoundAfter(v, prev, es, utf8) {
        forall i | 0 <= i < |es|
          ensures EntrySound(v, PrevOf(prev, es, i), es[i], utf8)
        {
          if i > 0 {
            assert EntrySound(v, PrevOf(first, rest, i - 1), rest[i - 1], utf8);
          }
        }
      }
      if forall i | 0 <= i < |es| :: EntrySound(v, PrevOf(prev, es, i), es[i], utf8) {
        assert EntrySound(v, PrevOf(prev, es, 0), es[0], utf8);
        forall i | 0 <= i < |rest|
          ensures EntrySound(v, PrevOf(first, rest, i), rest[i], utf8)
        {
          assert EntrySound(v, PrevOf(prev, es, i + 1), es[i + 1], utf8);
        }
      }
    }
  }

  /** Some entry among the first `n` blocks is not sound, so not all are. */
  lemma {:induction false} Unsound(v: IdxView, n: nat, utf8: bytes -> bool)
    requires n <= v.toc.numBlocks && !SoundAfter(v, None, EntriesUpTo(v, n), utf8)
    ensures !AllSound(v, AllEntries(v), utf8)
  {
    hide EntrySound, EntriesUpTo;
    UpToPrefix(v, n, v.toc.numBlocks);
    AllAre(v);
    var all, some := AllEntries(v), EntriesUpTo(v, n);
    assert all == some + all[|some|..];
    SoundConcat(v, None, some, all[|some|..], utf8);
    SoundIs(v, all, utf8);
  }

  lemma {:induction false} SoundIs(v: IdxView, es: seq<Found>, utf8: bytes -> bool)
    ensures AllSound(v, es, utf8) <==> SoundAfter(v, None, es, utf8)
  {
    hide EntrySound, SoundAfter;
    SoundAfterIff(v, None, es, utf8);
  }

  method PosAfterBlock(scan: BlockScan) returns (r: Result<nat, FormatError>)
    modifies scan
    ensures r == old(scan.Ahead().end)
  {
    hide Scan;
    while true
      invariant scan.Ahead().end == old(scan.Ahead().end)
      decreases scan.remaining
    {
      var entry := scan.NextEntry();
      if entry.Failure? { return Failure(entry.error); }
      if entry.value.None? { return Success(scan.pos); }
    }
  }

  /** One entry, against the term before it. */
  method VerifyEntry(v: IdxView, prev: Option<Term>, e: Found, utf8: bytes -> bool) returns (ok: bool)
    ensures ok <==> EntrySound(v, prev, e, utf8)
  {
    hide Less, PostingsOf, ListOk;
    if prev.Some? && !Less(prev.value, e.term) { return false; }
    if !utf8(e.term) { return false; }
    var list := PostingsFor(v, e);
    if list.Failure? { return false; }
    ok := VerifyList(list.value.data, list.value.docFreq);
  }

  /** One block's entries: the first is the row's, and each is sound after the one before it. */
  ghost predicate BlockSound(v: IdxView, b: nat, first: Term, prev: Option<Term>, utf8: bytes -> bool) {
    && BLOCK_SIZE * b < v.toc.numTerms && BlockOf(v, b).Success? && BlockOf(v, b).value.end.Success?
    && first == BlockOf(v, b).value.entries[0].term && SoundAfter(v, prev, BlockOf(v, b).value.entries, utf8)
  }

  /** What the check carries on from block `b`. */
  ghost predicate Carried(v: IdxView, b: nat, prev0: Option<Term>, count: nat, expected: nat, prev: Option<Term>) {
    && BLOCK_SIZE * b < v.toc.numTerms && BlockOf(v, b).Success? && BlockOf(v, b).value.entries != []
    && var es := BlockOf(v, b).value.entries;
      count == |es| && prev == LastOf(prev0, es) && expected == es[|es| - 1].off + es[|es| - 1].len
  }

  method VerifyBlock(v: IdxView, b: nat, first: Term, prev0: Option<Term>, expected0: nat, utf8: bytes -> bool)
    returns (ok: bool, count: nat, expected: nat, prev: Option<Term>)
    requires BLOCK_SIZE * b < v.toc.numTerms
    ensures ok <==> BlockSound(v, b, first, prev0, utf8)
    ensures ok ==> Carried(v, b, prev0, count, expected, prev)
  {
    hide EntrySound, Scan, BlockOf, Passing, BlockSound, Carried;
    count, expected, prev := 0, expected0, prev0;
    var scan := Block(v, b);
    BlockFilled(v, b);
    if scan.Failure? {
      NoBlock(v, b, first, prev0, utf8);
      return false, count, expected, prev;
    }
    ghost var seen: seq<Found> := [];
    PassingStart(v, b, first, prev0, expected0, utf8);
    while true
      invariant fresh(scan.value) && scan.value.view == v
      invariant Passing(v, b, first, prev0, seen, scan.value.Ahead(), count, expected, prev, utf8)
      decreases scan.value.remaining
    {
      ghost var ahead := scan.value.Ahead();
      PassingEnds(v, b, first, prev0, seen, ahead, count, expected, prev, utf8);
      var entry := scan.value.NextEntry();
      if entry.Failure? { return false, count, expected, prev; }
      if entry.value.None? { return true, count, expected, prev; }
      var e := entry.value.value;
      PassingNext(v, b, first, prev0, seen, ahead, count, expected, prev, utf8);
      if count == 0 && e.term != first { return false, count, expected, prev; }
      var sound := VerifyEntry(v, prev, e, utf8);
      if !sound { return false, count, expected, prev; }
      prev, count, expected := Some(e.term), count + 1, e.off + e.len;
      seen := seen + [e];
    }
  }

  /** The entries seen of block `b` are sound, and those ahead complete it. */
  ghost predicate Passing(v: IdxView, b: nat, first: Term, prev0: Option<Term>, seen: seq<Found>, ahead: Scanned,
                          count: nat, expected: nat, prev: Option<Term>, utf8: bytes -> bool)
  {
    && BLOCK_SIZE * b < v.toc.numTerms && BlockOf(v, b) == Success(Scanned(seen + ahead.entries, ahead.end)) && count == |seen|
    && SoundAfter(v, prev0, seen, utf8) && prev == LastOf(prev0, seen)
    && (seen != [] ==> first == seen[0].term && expected == seen[|seen| - 1].off + seen[|seen| - 1].len)
  }

  lemma {:induction false} NoBlock(v: IdxView, b: nat, first: Term, prev: Option<Term>, utf8: bytes -> bool)
    requires BLOCK_SIZE * b < v.toc.numTerms && BlockOf(v, b).Failure?
    ensures !BlockSound(v, b, first, prev, utf8)
  {
    hide BlockOf, SoundAfter;
  }

  lemma {:induction false} PassingStart(v: IdxView, b: nat, first: Term, prev0: Option<Term>, expected0: nat, utf8: bytes -> bool)
    requires BLOCK_SIZE * b < v.toc.numTerms && BlockOf(v, b).Success?
    ensures Passing(v, b, first, prev0, [], BlockOf(v, b).value, 0, expected0, prev0, utf8)
  {
    hide BlockOf;
    assert [] + BlockOf(v, b).value.entries == BlockOf(v, b).value.entries;
    SoundNone(v, prev0, utf8);
  }

  /** With nothing more to come, the block is sound if its scan ended well. */
  lemma {:induction false} PassingEnds(v: IdxView, b: nat, first: Term, prev0: Option<Term>, seen: seq<Found>, ahead: Scanned,
                                       count: nat, expected: nat, prev: Option<Term>, utf8: bytes -> bool)
    requires Passing(v, b, first, prev0, seen, ahead, count, expected, prev, utf8)
    requires BlockOf(v, b).value.end.Success? ==> BlockOf(v, b).value.entries != []
    ensures ahead.end.Failure? ==> !BlockSound(v, b, first, prev0, utf8)
    ensures ahead.entries == [] && ahead.end.Success? ==>
              BlockSound(v, b, first, prev0, utf8) && Carried(v, b, prev0, count, expected, prev)
  {
    hide BlockOf, SoundAfter;
    if ahead.entries == [] {
      assert seen + ahead.entries == seen;
    }
  }

  /** The next entry decides, or is one more sound entry seen. */
  lemma {:induction false} PassingNext(v: IdxView, b: nat, first: Term, prev0: Option<Term>, seen: seq<Found>, ahead: Scanned,
                                       count: nat, expected: nat, prev: Option<Term>, utf8: bytes -> bool)
    requires Passing(v, b, first, prev0, seen, ahead, count, expected, prev, utf8) && ahead.entries != []
    ensures var e := ahead.entries[0];
      && (count == 0 && e.term != first ==> !BlockSound(v, b, first, prev0, utf8))
      && (!EntrySound(v, prev, e, utf8) ==> !BlockSound(v, b, first, prev0, utf8))
      && (EntrySound(v, prev, e, utf8) && (count == 0 ==> e.term == first) ==>
            Passing(v, b, first, prev0, seen + [e], Scanned(ahead.entries[1..], ahead.end), count + 1, e.off + e.len, Some(e.term), utf8))
  {
    hide BlockOf, SoundAfter, EntrySound;
    var e := ahead.entries[0];
    assert ahead.entries == [e] + ahead.entries[1..];
    assert seen + ahead.entries == seen + [e] + ahead.entries[1..];
    SoundConcat(v, prev0, seen, ahead.entries, utf8);
    SoundConcat(v, prev0, seen, [e], utf8);
    SoundOne(v, prev, ahead.entries, utf8);
  }

  lemma {:induction false} BlockFilled(v: IdxView, b: nat)
    requires BLOCK_SIZE * b < v.toc.numTerms
    ensures BlockOf(v, b).Success? && BlockOf(v, b).value.end.Success? ==> BlockOf(v, b).value.entries != []
  {
    hide Scan, RowOf;
  }

  lemma {:induction false} SoundNone(v: IdxView, prev: Option<Term>, utf8: bytes -> bool)
    ensures SoundAfter(v, prev, [], utf8)
  {
  }

  lemma {:induction false} SoundOne(v: IdxView, prev: Option<Term>, es: seq<Found>, utf8: bytes -> bool)
    requires es != []
    ensures SoundAfter(v, prev, es, utf8) ==> EntrySound(v, prev, es[0], utf8)
    ensures SoundAfter(v, prev, [es[0]], utf8) <==> EntrySound(v, prev, es[0], utf8)
  {
    hide EntrySound;
    assert [es[0]][1..] == [];
  }

  /** Everything checked so far, block by block. */
  ghost predicate Checked(v: IdxView, n: nat, count: nat, expected: nat, prev: Option<Term>, utf8: bytes -> bool) {
    && (forall b: nat | b < n :: BlockOk(v, b)) && SoundAfter(v, None, EntriesUpTo(v, n), utf8)
    && count == |EntriesUpTo(v, n)| && expected == EndOf(v, EntriesUpTo(v, n)) && prev == LastOf(None, EntriesUpTo(v, n))
  }

  /** The row of block `b` goes on from `expected`, and its block from where the one before it ends. */
  ghost predicate RowFits(v: IdxView, b: nat, expected: nat) {
    && RowOf(v, b).Success? && v.toc.postingsOff + RowOf(v, b).value.postingsOff == expected
    && (b > 0 ==> BLOCK_SIZE * (b - 1) <= v.toc.numTerms && BlockOf(v, b - 1).Success?
                  && BlockOf(v, b - 1).value.end == Success(v.toc.dictOff + RowOf(v, b).value.blockOff))
  }

  method VerifyRow(v: IdxView, b: nat, expected: nat) returns (row: Option<SparseRow>)
    requires BLOCK_SIZE * b <= v.toc.numTerms
    ensures row.Some? <==> RowFits(v, b, expected)
    ensures row.Some? ==> row.value == RowOf(v, b).value
  {
    hide RowOf, BlockOf, Scan;
    var r := SparseEntry(v, b);
    if r.Failure? || v.toc.postingsOff + r.value.postingsOff != expected { return None; }
    if b > 0 {
      var scan := Block(v, b - 1);
      if scan.Failure? { return None; }
      var after := PosAfterBlock(scan.value);
      if after.Failure? || after.value != v.toc.dictOff + r.value.blockOff { return None; }
    }
    row := Some(r.value);
  }

  /** Checksum, every sparse row, every entry and every list: exactly the sound files pass. */
  method VerifyIdx(v: IdxView, crc: bytes -> nat, utf8: bytes -> bool) returns (ok: bool)
    requires Tiles(v.toc, v.bodyEnd) && v.bodyEnd <= |v.data|
    ensures ok <==> crc(v.data[HEADER_LEN..v.bodyEnd]) == v.crc && Verified(v, utf8)
  {
    hide RowFits, BlockOf, RowOf, EntriesUpTo, AllSound, BlockOk, BlockSound, Carried, Verified, Checked, LastOf, EndOf, AllEntries;
    if crc(v.data[HEADER_LEN..v.bodyEnd]) != v.crc { return false; }
    var count, expected, prev: Option<Term> := 0, v.toc.postingsOff, None;
    NoneChecked(v, utf8);
    for b := 0 to v.toc.numBlocks
      invariant Checked(v, b, count, expected, prev, utf8)
    {
      CeilDiv(v.toc.numTerms, b);
      CheckedEnd(v, b, count, expected, prev, utf8);
      if Verified(v, utf8) {
        RowNeeds(v, b, utf8);
      }
      var row := VerifyRow(v, b, expected);
      if row.None? { return false; }
      ghost var before := prev;
      var blockOk, n;
      blockOk, n, expected, prev := VerifyBlock(v, b, row.value.first, prev, expected, utf8);
      BlockDecides(v, b, row.value.first, count, before, utf8);
      if !blockOk { return false; }
      BlockChecked(v, b, count, n, expected, before, prev, utf8);
      count := count + n;
    }
    AllChecked(v, count, expected, prev, utf8);
    VerifiedIs(v, utf8);
    ok := count == v.toc.numTerms && expected == v.toc.postingsOff + v.toc.postingsLen;
  }

  lemma {:induction false} CheckedEnd(v: IdxView, n: nat, count: nat, expected: nat, prev: Option<Term>, utf8: bytes -> bool)
    requires Checked(v, n, count, expected, prev, utf8)
    ensures expected == EndOf(v, EntriesUpTo(v, n))
  {
  }

  /** What an accepted file has of block `b`'s row. */
  lemma {:induction false} RowNeeds(v: IdxView, b: nat, utf8: bytes -> bool)
    requires b < v.toc.numBlocks && Verified(v, utf8)
    ensures RowFits(v, b, EndOf(v, EntriesUpTo(v, b)))
  {
    hide BlockOf, RowOf, EntriesUpTo, AllSound, EndOf;
    assert BlockOk(v, b);
  }

  lemma {:induction false} NoneChecked(v: IdxView, utf8: bytes -> bool)
    ensures Checked(v, 0, 0, v.toc.postingsOff, None, utf8)
  {
  }

  lemma {:induction false} VerifiedIs(v: IdxView, utf8: bytes -> bool)
    requires BlocksOk(v) && AllSound(v, AllEntries(v), utf8)
    ensures Verified(v, utf8) <==> EndOf(v, AllEntries(v)) == v.toc.postingsOff + v.toc.postingsLen
  {
  }

  /** A block that does not pass fails the whole check. */
  lemma {:induction false} BlockDecides(v: IdxView, b: nat, first: Term, count: nat, prev: Option<Term>, utf8: bytes -> bool)
    requires b < v.toc.numBlocks && RowFits(v, b, EndOf(v, EntriesUpTo(v, b))) && first == RowOf(v, b).value.first
    requires Checked(v, b, count, EndOf(v, EntriesUpTo(v, b)), prev, utf8)
    ensures !BlockSound(v, b, first, prev, utf8) ==> !Verified(v, utf8)
  {
    hide BlockOf, RowOf, EndOf, AllSound, EntrySound;
    if Verified(v, utf8) && !BlockSound(v, b, first, prev, utf8) {
      assert BlockOk(v, b);
      SoundConcat(v, None, EntriesUpTo(v, b), BlockEntries(v, b), utf8);
      Unsound(v, b + 1, utf8);
    }
  }

  lemma {:induction false} BlockChecked(v: IdxView, b: nat, count: nat, n: nat, expected: nat, before: Option<Term>, prev: Option<Term>, utf8: bytes -> bool)
    requires b < v.toc.numBlocks && Checked(v, b, count, EndOf(v, EntriesUpTo(v, b)), before, utf8)
    requires RowFits(v, b, EndOf(v, EntriesUpTo(v, b)))
    requires BlockSound(v, b, RowOf(v, b).value.first, before, utf8) && Carried(v, b, before, n, expected, prev)
    ensures Checked(v, b + 1, count + n, expected, prev, utf8)
  {
    hide BlockOf, RowOf, EntrySound, SoundAfter;
    BlockFilled(v, b);
    SoundConcat(v, None, EntriesUpTo(v, b), BlockEntries(v, b), utf8);
    assert BlockOk(v, b);
  }

  lemma {:induction false} AllChecked(v: IdxView, count: nat, expected: nat, prev: Option<Term>, utf8: bytes -> bool)
    requires Tiles(v.toc, v.bodyEnd) && Checked(v, v.toc.numBlocks, count, expected, prev, utf8)
    ensures BlocksOk(v) && AllSound(v, AllEntries(v), utf8) && count == v.toc.numTerms && expected == EndOf(v, AllEntries(v))
  {
    hide BlockOk, EntrySound, SoundAfter, EndOf, EntriesUpTo, AllSound;
    AllAre(v);
    UpToLen(v, v.toc.numBlocks);
    SoundIs(v, AllEntries(v), utf8);
  }

  // ----- Listing and looking up -----

  lemma {:induction false} OneEntry(es: seq<Found>, j: nat, k: nat)
    requires Ascend(es) && j < |es| && k < |es| && es[j].term == es[k].term
    ensures j == k
  {
    LessTotal(es[j].term, es[k].term);
  }

  /** In an accepted file, what iteration yields as term `k` is what looking that term up finds. */
  method NextThenLookup(it: TermIter, utf8: bytes -> bool, ghost k: nat) returns (next: (Term, ListRef), found: Option<ListRef>)
    requires Tiles(it.view.toc, it.view.bodyEnd) && Verified(it.view, utf8) && it.At(k) && k < it.view.toc.numTerms
    modifies it, it.scan
    ensures |AllEntries(it.view)| == it.view.toc.numTerms && it.At(k + 1)
    ensures next.0 == AllEntries(it.view)[k].term && found == Some(next.1)
    ensures Decoded(next.1.data).Some? && |Decoded(next.1.data).value| == next.1.docFreq
  {
    hide Verified, AllEntries, Readable, EndOf, Contiguous, PostingsOf, Decoded, Ascend, Less;
    VerifiedMeans(it.view, utf8);
    var r := it.TryNext(utf8, k);
    next := r.value.value;
    var answer := TermScan.Lookup(it.view, next.0);
    found := answer.value;
    SameAnswer(it.view, k, next, found);
  }

  lemma {:induction false} SameAnswer(v: IdxView, k: nat, next: (Term, ListRef), found: Option<ListRef>)
    requires Readable(v) && k < |AllEntries(v)| && next.0 == AllEntries(v)[k].term && Lists(v, AllEntries(v)[k], next.1)
    requires Answers(v, next.0, found)
    ensures found == Some(next.1)
  {
    hide AllEntries, BlocksOk, PostingsOf, Ascend;
    var es := AllEntries(v);
    if found.Some? {
      var j :| 0 <= j < |es| && es[j].term == next.0 && Lists(v, es[j], found.value);
      OneEntry(es, j, k);
    }
  }
}
