/**
 What reading a term file makes of any bytes, as what stands where: which
 sparse rows, entries and blocks are read, and that nothing else is
 (src/format/idx.rs).
 */
module TermReadings {
  import opened Wrappers
  import opened Documents
  import opened Bytes
  import opened TermDict
  import opened TermLookup
  import opened TermRead
  import FormatTables

  /** A varint of at most 64 bits, or of at most 32, spelt from `at` up to `next`. */
  ghost predicate Wide(data: bytes, at: nat, v: nat, next: nat) {
    Spells(data, at, 0, v, next) && v < U64
  }

  ghost predicate Narrow(data: bytes, at: nat, v: nat, next: nat) {
    Spells(data, at, 0, v, next) && v < U32
  }

  lemma {:induction false} WideIff(data: bytes, at: nat, v: nat, next: nat)
    ensures ReadVarint(data, at) == Success(Read(v, next)) <==> Wide(data, at, v, next)
    ensures ReadVarint32(data, at) == Success(Read(v, next)) <==> Narrow(data, at, v, next)
  {
    ReadVarintIff(data, at, v, next);
  }

  // ----- Sparse rows -----

  /** A length, that many bytes of a term, and two offsets, all before `sparseEnd`. */
  ghost predicate RowParts(data: bytes, pos: nat, sparseEnd: nat, row: SparseRow, term: nat, mid: nat, end: nat) {
    && Narrow(data, pos, |row.first|, term) && HasAt(data, term, row.first)
    && Wide(data, term + |row.first|, row.blockOff, mid) && Wide(data, mid, row.postingsOff, end) && end <= sparseEnd
  }

  ghost predicate RowStandsAt(data: bytes, pos: nat, sparseEnd: nat, row: SparseRow) {
    exists term, mid, end :: RowParts(data, pos, sparseEnd, row, term, mid, end)
  }

  lemma {:induction false} RowFromIff(data: bytes, pos: nat, sparseEnd: nat, row: SparseRow)
    ensures RowFrom(data, pos, sparseEnd) == Success(row) <==> RowStandsAt(data, pos, sparseEnd, row)
  {
    hide ReadVarint, ReadVarint32, Wide, Narrow;
    if RowFrom(data, pos, sparseEnd) == Success(row) {
      RowFound(data, pos, sparseEnd, row);
    }
    if term: nat, mid: nat, end: nat :| RowParts(data, pos, sparseEnd, row, term, mid, end) {
      WideIff(data, pos, |row.first|, term);
      WideIff(data, term + |row.first|, row.blockOff, mid);
      WideIff(data, mid, row.postingsOff, end);
    }
  }

  lemma {:induction false} RowFound(data: bytes, pos: nat, sparseEnd: nat, row: SparseRow)
    requires RowFrom(data, pos, sparseEnd) == Success(row)
    ensures RowStandsAt(data, pos, sparseEnd, row)
  {
    hide ReadVarint, ReadVarint32, Wide, Narrow;
    var len := ReadVarint32(data, pos).value;
    var at, end := len.next, len.next + len.value;
    var blockOff := ReadVarint(data, end).value;
    var postingsOff := ReadVarint(data, blockOff.next).value;
    WideIff(data, pos, len.value, len.next);
    WideIff(data, end, blockOff.value, blockOff.next);
    WideIff(data, blockOff.next, postingsOff.value, postingsOff.next);
    assert RowParts(data, pos, sparseEnd, row, at, blockOff.next, postingsOff.next);
  }

  /** Block `b`'s offset stands in the table, and its row there, within the sparse region. */
  ghost predicate RowReads(v: IdxView, b: nat, row: SparseRow) {
    exists off :: RowReadsAt(v, b, row, off)
  }

  ghost predicate RowReadsAt(v: IdxView, b: nat, row: SparseRow, off: nat) {
    var pos, sparseEnd := v.toc.sparseOff + 4 * v.toc.numBlocks + off, v.toc.sparseOff + v.toc.sparseLen;
    FormatTables.Field(v.data, v.toc.sparseOff + 4 * b, 4, off) && pos < sparseEnd && RowStandsAt(v.data, pos, sparseEnd, row)
  }

  lemma {:induction false} OffsetIff(data: bytes, at: nat, off: nat)
    ensures ReadLE(data, at, 4) == Success(off) <==> FormatTables.Field(data, at, 4, off)
  {
    if at + 4 <= |data| {
      FormatTables.SpelledValue(data[at..at + 4], off);
    }
    hide FromLE, FormatTables.Spelled;
  }

  /** Exactly which sparse rows are read. */
  lemma {:induction false} RowIff(v: IdxView, b: nat, row: SparseRow)
    ensures RowOf(v, b) == Success(row) <==> RowReads(v, b, row)
  {
    hide ReadLE, RowFrom, RowStandsAt, FormatTables.Field;
    var at := v.toc.sparseOff + 4 * b;
    var entries, sparseEnd := v.toc.sparseOff + 4 * v.toc.numBlocks, v.toc.sparseOff + v.toc.sparseLen;
    if RowOf(v, b) == Success(row) {
      var off := ReadLE(v.data, at, 4).value;
      OffsetIff(v.data, at, off);
      RowFromIff(v.data, entries + off, sparseEnd, row);
      assert RowReadsAt(v, b, row, off);
    }
    if off: nat :| RowReadsAt(v, b, row, off) {
      OffsetIff(v.data, at, off);
      RowFromIff(v.data, entries + off, sparseEnd, row);
    }
  }

  // ----- Entries -----

  /** How many bytes are shared with `prev`, the others, how many documents, how many bytes of postings. */
  ghost predicate EntryParts(data: bytes, pos: nat, prev: Term, e: RawEntry, shared: nat, at: nat, suffix: nat, mid: nat) {
    && shared <= |prev| && shared <= |e.term| && e.term[..shared] == prev[..shared]
    && Narrow(data, pos, shared, at) && Narrow(data, at, |e.term| - shared, suffix) && HasAt(data, suffix, e.term[shared..])
    && Narrow(data, suffix + |e.term| - shared, e.docFreq, mid) && Wide(data, mid, e.len, e.next)
  }

  ghost predicate EntryReads(data: bytes, pos: nat, prev: Term, e: RawEntry) {
    exists shared, at, suffix, mid :: EntryParts(data, pos, prev, e, shared, at, suffix, mid)
  }

  /** Exactly which entries are read. */
  lemma {:induction false} EntryIff(data: bytes, pos: nat, prev: Term, e: RawEntry)
    ensures RawEntryAt(data, pos, prev) == Success(e) <==> EntryReads(data, pos, prev, e)
  {
    hide ReadVarint, ReadVarint32, Wide, Narrow;
    if RawEntryAt(data, pos, prev) == Success(e) {
      EntryFound(data, pos, prev, e);
    }
    if shared: nat, at: nat, suffix: nat, mid: nat :| EntryParts(data, pos, prev, e, shared, at, suffix, mid) {
      WideIff(data, pos, shared, at);
      WideIff(data, at, |e.term| - shared, suffix);
      WideIff(data, suffix + |e.term| - shared, e.docFreq, mid);
      WideIff(data, mid, e.len, e.next);
      assert e.term == prev[..shared] + e.term[shared..];
    }
  }

  lemma {:induction false} EntryFound(data: bytes, pos: nat, prev: Term, e: RawEntry)
    requires RawEntryAt(data, pos, prev) == Success(e)
    ensures EntryReads(data, pos, prev, e)
  {
    hide ReadVarint, ReadVarint32, Wide, Narrow;
    var prefix := ReadVarint32(data, pos).value;
    var len := ReadVarint32(data, prefix.next).value;
    var docFreq := ReadVarint32(data, len.next + len.value).value;
    WideIff(data, pos, prefix.value, prefix.next);
    WideIff(data, prefix.next, len.value, len.next);
    WideIff(data, len.next + len.value, docFreq.value, docFreq.next);
    WideIff(data, docFreq.next, e.len, e.next);
    assert e.term == prev[..prefix.value] + data[len.next..len.next + len.value];
    assert EntryParts(data, pos, prev, e, prefix.value, prefix.next, len.next, docFreq.next);
  }

  // ----- Blocks -----

  /** `found` one after another, each coded against the one before and within `end`, their postings side by side from `off`. */
  ghost predicate Follow(data: bytes, end: nat, pos: nat, prev: Term, off: nat, found: seq<Found>, last: nat)
    decreases |found|
  {
    if found == [] then last == pos
    else exists e :: FollowsBy(data, end, pos, prev, off, found, last, e)
  }

  ghost predicate FollowsBy(data: bytes, end: nat, pos: nat, prev: Term, off: nat, found: seq<Found>, last: nat, e: RawEntry)
    requires found != []
    decreases |found|, 0
  {
    && EntryReads(data, pos, prev, e) && e.next <= end && off + e.len < U64
    && found[0] == Found(e.term, e.docFreq, off, e.len)
    && Follow(data, end, e.next, e.term, off + e.len, found[1..], last)
  }

  /** A scan yields a list of entries and comes to its end exactly if that many follow each other. */
  lemma {:induction false} ScanIff(data: bytes, end: nat, pos: nat, prev: Term, off: nat, n: nat, found: seq<Found>, last: nat)
    ensures Scan(data, end, pos, prev, off, n) == Scanned(found, Success(last)) <==> |found| == n && Follow(data, end, pos, prev, off, found, last)
    decreases n
  {
    hide RawEntryAt, EntryReads;
    if n > 0 {
      var raw := RawEntryAt(data, pos, prev);
      if raw.Success? {
        var e := raw.value;
        EntryIff(data, pos, prev, e);
        if found != [] {
          ScanIff(data, end, e.next, e.term, off + e.len, n - 1, found[1..], last);
          assert found == [found[0]] + found[1..];
          if other :| FollowsBy(data, end, pos, prev, off, found, last, other) {
            EntryIff(data, pos, prev, other);
          }
          if Scan(data, end, pos, prev, off, n) == Scanned(found, Success(last)) {
            assert FollowsBy(data, end, pos, prev, off, found, last, e);
          }
        }
      } else if found != [] {
        if other :| FollowsBy(data, end, pos, prev, off, found, last, other) {
          EntryIff(data, pos, prev, other);
        }
      }
    }
  }

  /** Block `b` has a row, begins within the dictionary, and holds up to 64 entries there. */
  ghost predicate BlockReads(v: IdxView, b: nat, found: seq<Found>, last: nat)
    requires 64 * b <= v.toc.numTerms
  {
    exists row :: RowReads(v, b, row) && BlockFrom(v, b, row, found, last)
  }

  ghost predicate BlockFrom(v: IdxView, b: nat, row: SparseRow, found: seq<Found>, last: nat)
    requires 64 * b <= v.toc.numTerms
  {
    && row.blockOff <= v.toc.dictLen
    && |found| == (if v.toc.numTerms - 64 * b < 64 then v.toc.numTerms - 64 * b else 64)
    && Follow(v.data, v.toc.dictOff + v.toc.dictLen, v.toc.dictOff + row.blockOff, [], v.toc.postingsOff + row.postingsOff, found, last)
  }

  /** Exactly which blocks are read to their end, and as which entries. */
  lemma {:induction false} BlockIff(v: IdxView, b: nat, found: seq<Found>, last: nat)
    requires 64 * b <= v.toc.numTerms
    ensures BlockOf(v, b) == Success(Scanned(found, Success(last))) <==> BlockReads(v, b, found, last)
  {
    hide RowOf, RowReads, Scan, Follow;
    if RowOf(v, b).Success? {
      var row := RowOf(v, b).value;
      RowIff(v, b, row);
      ScanIff(v.data, v.toc.dictOff + v.toc.dictLen, v.toc.dictOff + row.blockOff, [], v.toc.postingsOff + row.postingsOff, BlockLen(v, b), found, last);
    }
    if row :| RowReads(v, b, row) && BlockFrom(v, b, row, found, last) {
      RowIff(v, b, row);
    }
  }
}
