/**
 What was written to an `.idx` file is what is read from it: its blocks, its
 lists, its lookups (src/format/idx.rs).
 */
module TermFile {
  import opened Wrappers
  import opened Documents
  import opened Postings
  import opened Bytes
  import opened Envelope
  import opened DiskPostings
  import opened TermDict
  import opened TermLookup
  import opened TermRead
  import opened TermScan
  import opened TermVerify

  // ----- Rows -----

  /** A sparse row at `pos`, field by field, ending at `p3`. */
  ghost predicate RowAt(data: bytes, pos: nat, first: Term, dictLen: nat, postingsLen: nat, p1: nat, p2: nat, p3: nat) {
    && ReadVarint32(data, pos) == Success(Read(|first|, p1)) && p1 + |first| <= |data| && data[p1..p1 + |first|] == first
    && ReadVarint(data, p1 + |first|) == Success(Read(dictLen, p2)) && ReadVarint(data, p2) == Success(Read(postingsLen, p3))
  }

  lemma {:induction false} RowReads(data: bytes, pos: nat, first: Term, dictLen: nat, postingsLen: nat) returns (p1: nat, p2: nat, p3: nat)
    requires HasAt(data, pos, Varint(|first|) + (first + (Varint(dictLen) + Varint(postingsLen))))
    requires |first| < U32 && dictLen < U64 && postingsLen < U64
    ensures RowAt(data, pos, first, dictLen, postingsLen, p1, p2, p3)
    ensures pos < p3 == pos + |Varint(|first|) + (first + (Varint(dictLen) + Varint(postingsLen)))|
  {
    hide Varint, ReadVarint, ReadVarint32, HasAt, RowAt;
    VarintSome(|first|);
    p1, p2, p3 := RowFields(data, pos, first, dictLen, postingsLen, Varint(|first|), Varint(dictLen), Varint(postingsLen));
    SumOf4(Varint(|first|), first, Varint(dictLen), Varint(postingsLen));
  }

  lemma {:induction false} SumOf4(a: bytes, b: bytes, c: bytes, d: bytes)
    ensures |a + (b + (c + d))| == |a| + |b| + |c| + |d|
  {
  }

  lemma {:induction false} RowFields(data: bytes, pos: nat, first: Term, dictLen: nat, postingsLen: nat, a: bytes, c: bytes, d: bytes)
    returns (p1: nat, p2: nat, p3: nat)
    requires HasAt(data, pos, a + (first + (c + d))) && a == Varint(|first|) && c == Varint(dictLen) && d == Varint(postingsLen)
    requires |first| < U32 && dictLen < U64 && postingsLen < U64
    ensures RowAt(data, pos, first, dictLen, postingsLen, p1, p2, p3) && p3 == pos + |a| + |first| + |c| + |d|
  {
    hide Varint, ReadVarint, ReadVarint32, HasAt;
    PartsOfBody(data, a, first, c, d, pos);
    p1 := pos + |a|;
    p2 := p1 + |first| + |c|;
    p3 := p2 + |d|;
    HasAtIs(data, p1, first);
    ReadsBack(data, pos, |first|);
    ReadsBack(data, p1 + |first|, dictLen);
    ReadsBack(data, p2, postingsLen);
  }

  lemma {:induction false} HasAtIs(data: bytes, pos: nat, w: bytes)
    requires HasAt(data, pos, w)
    ensures pos + |w| <= |data| && data[pos..pos + |w|] == w
  {
  }

  lemma {:induction false} PrefixLens(ts: seq<DictTerm>, k: nat)
    requires k <= |ts|
    ensures |Dict(ts[..k])| <= |Dict(ts)| && |PostingsRegion(ts[..k])| <= |PostingsRegion(ts)|
    decreases |ts| - k
  {
    if k < |ts| {
      DictAt(ts, k);
      PostingsAt(ts, k);
    } else {
      assert ts[..k] == ts;
    }
  }

  lemma {:induction false} RowFits(v: IdxView, ts: seq<DictTerm>, b: nat)
    requires Laid(v, ts) && b < |SparseOffsets(ts)|
    ensures BLOCK_SIZE * b < |ts| && |ts[BLOCK_SIZE * b].term| < U32 && SparseOffsets(ts)[b] < U32
    ensures |Dict(ts[..BLOCK_SIZE * b])| < U64 && |PostingsRegion(ts[..BLOCK_SIZE * b])| < U64
    ensures HasAt(v.data, v.toc.sparseOff, OffsetBytes(SparseOffsets(ts)) + SparseEntries(ts))
    ensures v.toc.numBlocks == |SparseOffsets(ts)| && |OffsetBytes(SparseOffsets(ts))| == 4 * v.toc.numBlocks
    ensures v.toc.sparseLen == |OffsetBytes(SparseOffsets(ts))| + |SparseEntries(ts)|
  {
    SparseAt(ts, b);
    PrefixLens(ts, BLOCK_SIZE * b);
    TocFits(ts);
    OffsetsLen(SparseOffsets(ts));
    hide Dict, PostingsRegion, SparseOffsets, OffsetBytes, SparseEntries, TocBytes;
  }

  lemma {:induction false} OffsetReads(v: IdxView, ts: seq<DictTerm>, b: nat)
    requires Laid(v, ts) && b < |SparseOffsets(ts)|
    ensures ReadLE(v.data, v.toc.sparseOff + 4 * b, 4) == Success(SparseOffsets(ts)[b])
  {
    hide Dict, PostingsRegion, SparseOffsets, OffsetBytes, SparseEntries, LE, ReadLE, HasAt, Laid, Pow256;
    RowFits(v, ts, b);
    OffsetAt(SparseOffsets(ts), b);
    Widths();
    HasAtSplit(v.data, v.toc.sparseOff, OffsetBytes(SparseOffsets(ts)), SparseEntries(ts));
    HasAtInside(v.data, v.toc.sparseOff, OffsetBytes(SparseOffsets(ts)), 4 * b, LE(SparseOffsets(ts)[b], 4));
    ReadLEBack(v.data, v.toc.sparseOff + 4 * b, SparseOffsets(ts)[b], 4);
  }

  lemma {:induction false} RowPlaced(v: IdxView, ts: seq<DictTerm>, b: nat)
    requires Laid(v, ts) && b < |SparseOffsets(ts)|
    ensures BLOCK_SIZE * b < |ts|
    ensures var pos := v.toc.sparseOff + 4 * v.toc.numBlocks + SparseOffsets(ts)[b];
      var row := SparseBytes(ts[..BLOCK_SIZE * b], ts[BLOCK_SIZE * b].term);
      HasAt(v.data, pos, row) && pos + |row| <= v.toc.sparseOff + v.toc.sparseLen
  {
    hide Dict, PostingsRegion, SparseOffsets, OffsetBytes, SparseEntries, SparseBytes, HasAt, Laid;
    RowFits(v, ts, b);
    SparseAt(ts, b);
    HasAtIs(SparseEntries(ts), SparseOffsets(ts)[b], SparseBytes(ts[..BLOCK_SIZE * b], ts[BLOCK_SIZE * b].term));
    HasAtSplit(v.data, v.toc.sparseOff, OffsetBytes(SparseOffsets(ts)), SparseEntries(ts));
    HasAtInside(v.data, v.toc.sparseOff + |OffsetBytes(SparseOffsets(ts))|, SparseEntries(ts), SparseOffsets(ts)[b],
                SparseBytes(ts[..BLOCK_SIZE * b], ts[BLOCK_SIZE * b].term));
  }

  /** The sparse row of block `b` stands where its offset says. */
  lemma {:induction false} RowStands(v: IdxView, ts: seq<DictTerm>, b: nat) returns (p1: nat, p2: nat, p3: nat)
    requires Laid(v, ts) && b < |SparseOffsets(ts)|
    ensures BLOCK_SIZE * b < |ts| && ReadLE(v.data, v.toc.sparseOff + 4 * b, 4) == Success(SparseOffsets(ts)[b])
    ensures var pos := v.toc.sparseOff + 4 * v.toc.numBlocks + SparseOffsets(ts)[b];
      && RowAt(v.data, pos, ts[BLOCK_SIZE * b].term, |Dict(ts[..BLOCK_SIZE * b])|, |PostingsRegion(ts[..BLOCK_SIZE * b])|, p1, p2, p3)
      && pos < p3 <= v.toc.sparseOff + v.toc.sparseLen
  {
    hide Dict, PostingsRegion, SparseOffsets, Varint, RowAt, ReadLE, HasAt, Laid;
    RowFits(v, ts, b);
    OffsetReads(v, ts, b);
    RowPlaced(v, ts, b);
    var k := BLOCK_SIZE * b;
    p1, p2, p3 := RowReads(v.data, v.toc.sparseOff + 4 * v.toc.numBlocks + SparseOffsets(ts)[b], ts[k].term,
                           |Dict(ts[..k])|, |PostingsRegion(ts[..k])|);
  }

  /** The row of block `b` names its first term and what comes before it. */
  lemma {:induction false} RowLaid(v: IdxView, ts: seq<DictTerm>, b: nat)
    requires Laid(v, ts) && b < |SparseOffsets(ts)|
    ensures BLOCK_SIZE * b < |ts|
    ensures RowOf(v, b) == Success(SparseRow(ts[BLOCK_SIZE * b].term, |Dict(ts[..BLOCK_SIZE * b])|, |PostingsRegion(ts[..BLOCK_SIZE * b])|))
  {
    hide Laid, SparseOffsets, Dict, PostingsRegion, ReadVarint, ReadVarint32, ReadLE;
    var p1, p2, p3 := RowStands(v, ts, b);
  }

  // ----- Entries -----

  /** A dictionary entry at `pos`, field by field, ending at `p4`. */
  ghost predicate EntryAt(data: bytes, pos: nat, prefix: nat, suffix: bytes, docFreq: nat, len: nat, p1: nat, p2: nat, p3: nat, p4: nat) {
    && ReadVarint32(data, pos) == Success(Read(prefix, p1)) && ReadVarint32(data, p1) == Success(Read(|suffix|, p2))
    && p2 + |suffix| <= |data| && data[p2..p2 + |suffix|] == suffix
    && ReadVarint32(data, p2 + |suffix|) == Success(Read(docFreq, p3)) && ReadVarint(data, p3) == Success(Read(len, p4))
  }

  lemma {:induction false} FiveParts(data: bytes, pos: nat, a: bytes, b: bytes, c: bytes, d: bytes, e: bytes)
    requires HasAt(data, pos, a + (b + (c + (d + e))))
    ensures HasAt(data, pos, a) && HasAt(data, pos + |a|, b) && HasAt(data, pos + |a| + |b|, c)
    ensures HasAt(data, pos + |a| + |b| + |c|, d) && HasAt(data, pos + |a| + |b| + |c| + |d|, e)
  {
    hide HasAt;
    PartsOfBody(data, a, b, c, d + e, pos);
    HasAtSplit(data, pos + |a| + |b| + |c|, d, e);
  }

  lemma {:induction false} EntryReads(data: bytes, pos: nat, prefix: nat, suffix: bytes, docFreq: nat, len: nat)
    returns (p1: nat, p2: nat, p3: nat, p4: nat)
    requires HasAt(data, pos, Varint(prefix) + (Varint(|suffix|) + (suffix + (Varint(docFreq) + Varint(len)))))
    requires prefix < U32 && |suffix| < U32 && docFreq < U32 && len < U64
    ensures EntryAt(data, pos, prefix, suffix, docFreq, len, p1, p2, p3, p4)
    ensures p4 == pos + |Varint(prefix) + (Varint(|suffix|) + (suffix + (Varint(docFreq) + Varint(len))))|
  {
    hide Varint, ReadVarint, ReadVarint32, HasAt, EntryAt;
    p1, p2, p3, p4 := EntryFields(data, pos, prefix, suffix, docFreq, len, Varint(prefix), Varint(|suffix|), Varint(docFreq), Varint(len));
    SumOf4(Varint(|suffix|), suffix, Varint(docFreq), Varint(len));
  }

  lemma {:induction false} EntryFields(data: bytes, pos: nat, prefix: nat, suffix: bytes, docFreq: nat, len: nat,
                                       a: bytes, b: bytes, d: bytes, e: bytes)
    returns (p1: nat, p2: nat, p3: nat, p4: nat)
    requires HasAt(data, pos, a + (b + (suffix + (d + e))))
    requires a == Varint(prefix) && b == Varint(|suffix|) && d == Varint(docFreq) && e == Varint(len)
    requires prefix < U32 && |suffix| < U32 && docFreq < U32 && len < U64
    ensures EntryAt(data, pos, prefix, suffix, docFreq, len, p1, p2, p3, p4) && p4 == pos + |a| + |b| + |suffix| + |d| + |e|
  {
    hide Varint, ReadVarint, ReadVarint32, HasAt;
    FiveParts(data, pos, a, b, suffix, d, e);
    p1 := pos + |a|;
    p2 := p1 + |b|;
    p3 := p2 + |suffix| + |d|;
    p4 := p3 + |e|;
    HasAtIs(data, p2, suffix);
    ReadsBack(data, pos, prefix);
    ReadsBack(data, p1, |suffix|);
    ReadsBack(data, p2 + |suffix|, docFreq);
    ReadsBack(data, p3, len);
  }

  /** The dictionary entry of `e`, coded against `prev`, stands at `pos`. */
  ghost predicate CodedAt(data: bytes, pos: nat, prev: Term, e: DictTerm, p1: nat, p2: nat, p3: nat, p4: nat) {
    var prefix := CommonPrefix(prev, e.term);
    EntryAt(data, pos, prefix, e.term[prefix..], |e.list|, |Encoded(e.list)|, p1, p2, p3, p4)
  }

  lemma {:induction false} CodedReads(data: bytes, pos: nat, prev: Term, e: DictTerm) returns (p1: nat, p2: nat, p3: nat, p4: nat)
    requires HasAt(data, pos, EntryBytes(prev, e)) && |e.term| < U32 && |e.list| < U32 && |Encoded(e.list)| < U64
    ensures CodedAt(data, pos, prev, e, p1, p2, p3, p4) && p4 == pos + |EntryBytes(prev, e)|
  {
    hide Varint, Encoded, HasAt, EntryAt;
    var prefix := CommonPrefix(prev, e.term);
    p1, p2, p3, p4 := EntryReads(data, pos, prefix, e.term[prefix..], |e.list|, |Encoded(e.list)|);
  }

  /** The shared prefix and the rest are the term. */
  lemma {:induction false} Restores(prev: Term, term: Term)
    ensures prev[..CommonPrefix(prev, term)] + term[CommonPrefix(prev, term)..] == term
  {
    hide CommonPrefix;
    var n := CommonPrefix(prev, term);
    assert prev[..n] == term[..n];
  }

  /** Where term `k` stands in the dictionary, and what its entry reads as. */
  lemma {:induction false} EntryStands(v: IdxView, ts: seq<DictTerm>, k: nat) returns (p1: nat, p2: nat, p3: nat, p4: nat)
    requires Laid(v, ts) && k < |ts|
    ensures CodedAt(v.data, v.toc.dictOff + |Dict(ts[..k])|, PrevTerm(ts[..k]), ts[k], p1, p2, p3, p4)
    ensures p4 == v.toc.dictOff + |Dict(ts[..k + 1])| <= v.toc.dictOff + |Dict(ts)|
    ensures |PostingsRegion(ts[..k + 1])| == |PostingsRegion(ts[..k])| + |Encoded(ts[k].list)|
  {
    hide Dict, PostingsRegion, Laid, Encoded, HasAt, EntryBytes, PrevTerm, CodedAt;
    EntryFits(v, ts, k);
    DictAt(ts, k);
    PostingsAt(ts, k);
    HasAtInside(v.data, v.toc.dictOff, Dict(ts), |Dict(ts[..k])|, EntryBytes(PrevTerm(ts[..k]), ts[k]));
    p1, p2, p3, p4 := CodedReads(v.data, v.toc.dictOff + |Dict(ts[..k])|, PrevTerm(ts[..k]), ts[k]);
  }

  lemma {:induction false} EntryFits(v: IdxView, ts: seq<DictTerm>, k: nat)
    requires Laid(v, ts) && k < |ts|
    ensures |ts[k].term| < U32 && |ts[k].list| < U32 && |Encoded(ts[k].list)| < U64
    ensures HasAt(v.data, v.toc.dictOff, Dict(ts)) && v.toc.dictLen == |Dict(ts)|
  {
    hide Dict, PostingsRegion, Encoded, HasAt;
    PostingsAt(ts, k);
    PrefixLens(ts, k + 1);
    TocFits(ts);
  }

  /** Entry `k` is read back where it was written. */
  lemma {:induction false} EntryLaid(v: IdxView, ts: seq<DictTerm>, k: nat)
    requires Laid(v, ts) && k < |ts|
    ensures RawEntryAt(v.data, v.toc.dictOff + |Dict(ts[..k])|, PrevTerm(ts[..k]))
         == Success(RawEntry(ts[k].term, |ts[k].list|, |Encoded(ts[k].list)|, v.toc.dictOff + |Dict(ts[..k + 1])|))
  {
    hide Laid, Dict, PostingsRegion, Encoded, ReadVarint, ReadVarint32, PrevTerm;
    var p1, p2, p3, p4 := EntryStands(v, ts, k);
    Restores(PrevTerm(ts[..k]), ts[k].term);
  }

  // ----- Blocks -----

  /** The entry of term `k`, as a scan finds it. */
  function FoundAt(v: IdxView, ts: seq<DictTerm>, k: nat): Found
    requires k < |ts|
  {
    Found(ts[k].term, |ts[k].list|, v.toc.postingsOff + |PostingsRegion(ts[..k])|, |Encoded(ts[k].list)|)
  }

  function FoundIn(v: IdxView, ts: seq<DictTerm>, i: nat, j: nat): (es: seq<Found>)
    requires i <= j <= |ts|
    ensures |es| == j - i && forall k | i <= k < j :: es[k - i] == FoundAt(v, ts, k)
  {
    seq(j - i, n requires 0 <= n < j - i => FoundAt(v, ts, i + n))
  }

  /** One past the last term of block `b`. */
  function BlockEnd(ts: seq<DictTerm>, b: nat): nat {
    if BLOCK_SIZE * b + BLOCK_SIZE < |ts| then BLOCK_SIZE * b + BLOCK_SIZE else |ts|
  }

  lemma {:induction false} OffsetsFit(v: IdxView, ts: seq<DictTerm>, k: nat)
    requires Laid(v, ts) && k < |ts|
    ensures v.toc.postingsOff + |PostingsRegion(ts[..k])| + |Encoded(ts[k].list)| == v.toc.postingsOff + |PostingsRegion(ts[..k + 1])| < U64
    ensures |Dict(ts[..k + 1])| <= |Dict(ts)| == v.toc.dictLen
  {
    hide Dict, PostingsRegion, Encoded, HasAt;
    PostingsAt(ts, k);
    PrefixLens(ts, k + 1);
    TocFits(ts);
  }

  /** The term coded against at `k` in a block that starts at `start`. */
  function PrevIn(ts: seq<DictTerm>, start: nat, k: nat): Term
    requires start <= k <= |ts|
  {
    if k == start then [] else ts[k - 1].term
  }

  /** `start` to `stop` is one block. */
  ghost predicate OneBlock(ts: seq<DictTerm>, start: nat, stop: nat) {
    start <= stop <= |ts| && forall k | start <= k < stop :: PrevTerm(ts[..k]) == PrevIn(ts, start, k)
  }

  /** A scan from term `k` of a block yields the rest of the block. */
  lemma {:induction false} ScanLaid(v: IdxView, ts: seq<DictTerm>, start: nat, stop: nat, k: nat)
    requires Laid(v, ts) && OneBlock(ts, start, stop) && start <= k <= stop
    ensures Scan(v.data, v.toc.dictOff + v.toc.dictLen, v.toc.dictOff + |Dict(ts[..k])|, PrevIn(ts, start, k),
                 v.toc.postingsOff + |PostingsRegion(ts[..k])|, stop - k)
         == Scanned(FoundIn(v, ts, k, stop), Success(v.toc.dictOff + |Dict(ts[..stop])|))
    decreases stop - k
  {
    hide Laid, Dict, PostingsRegion, Encoded, RawEntryAt, PrevTerm, Scan, FoundAt, FoundIn;
    var end, pos, at := v.toc.dictOff + v.toc.dictLen, v.toc.dictOff + |Dict(ts[..k])|, v.toc.postingsOff + |PostingsRegion(ts[..k])|;
    if k < stop {
      assert PrevTerm(ts[..k]) == PrevIn(ts, start, k);
      EntryLaid(v, ts, k);
      OffsetsFit(v, ts, k);
      ScanLaid(v, ts, start, stop, k + 1);
      ScanStep(v.data, end, pos, PrevIn(ts, start, k), at, stop - k);
      FoundFirst(v, ts, k, stop);
    } else {
      FoundNone(v, ts, stop);
      ScanNone(v.data, end, pos, PrevIn(ts, start, k), at);
    }
  }

  lemma {:induction false} FoundNone(v: IdxView, ts: seq<DictTerm>, i: nat)
    requires i <= |ts|
    ensures FoundIn(v, ts, i, i) == []
  {
  }

  lemma {:induction false} BlockIsOne(ts: seq<DictTerm>, b: nat)
    requires BLOCK_SIZE * b <= |ts|
    ensures OneBlock(ts, BLOCK_SIZE * b, BlockEnd(ts, b))
  {
    forall k | BLOCK_SIZE * b <= k < BlockEnd(ts, b)
      ensures PrevTerm(ts[..k]) == PrevIn(ts, BLOCK_SIZE * b, k)
    {
      assert k % BLOCK_SIZE == k - BLOCK_SIZE * b;
    }
  }

  lemma {:induction false} ScanNone(data: bytes, end: nat, pos: nat, prev: Term, postingsPos: nat)
    ensures Scan(data, end, pos, prev, postingsPos, 0) == Scanned([], Success(pos))
  {
  }

  lemma {:induction false} ScanStep(data: bytes, end: nat, pos: nat, prev: Term, postingsPos: nat, remaining: nat)
    requires remaining > 0 && RawEntryAt(data, pos, prev).Success?
    requires var raw := RawEntryAt(data, pos, prev).value; raw.next <= end && postingsPos + raw.len < U64
    ensures var raw := RawEntryAt(data, pos, prev).value;
      var rest := Scan(data, end, raw.next, raw.term, postingsPos + raw.len, remaining - 1);
      Scan(data, end, pos, prev, postingsPos, remaining) == Scanned([Found(raw.term, raw.docFreq, postingsPos, raw.len)] + rest.entries, rest.end)
  {
    hide RawEntryAt;
  }

  lemma {:induction false} FoundFirst(v: IdxView, ts: seq<DictTerm>, i: nat, j: nat)
    requires i < j <= |ts|
    ensures FoundIn(v, ts, i, j)
         == [Found(ts[i].term, |ts[i].list|, v.toc.postingsOff + |PostingsRegion(ts[..i])|, |Encoded(ts[i].list)|)] + FoundIn(v, ts, i + 1, j)
  {
    hide PostingsRegion, Encoded;
    assert FoundIn(v, ts, i, j) == [FoundAt(v, ts, i)] + FoundIn(v, ts, i + 1, j);
  }

  lemma {:induction false} BlockLaid(v: IdxView, ts: seq<DictTerm>, b: nat)
    requires Laid(v, ts) && b < |SparseOffsets(ts)|
    ensures BLOCK_SIZE * b < |ts| == v.toc.numTerms && BlockOf(v, b).Success?
    ensures BlockOf(v, b).value == Scanned(FoundIn(v, ts, BLOCK_SIZE * b, BlockEnd(ts, b)), Success(v.toc.dictOff + |Dict(ts[..BlockEnd(ts, b)])|))
  {
    hide Dict, PostingsRegion, SparseOffsets, RowOf, Scan, HasAt, FitsFile;
    RowLaid(v, ts, b);
    PrefixLens(ts, BLOCK_SIZE * b);
    BlockIsOne(ts, b);
    ScanLaid(v, ts, BLOCK_SIZE * b, BlockEnd(ts, b), BLOCK_SIZE * b);
  }

  lemma {:induction false} BlocksLaid(v: IdxView, ts: seq<DictTerm>, n: nat)
    requires Laid(v, ts) && n <= v.toc.numBlocks
    ensures v.toc.numBlocks == |SparseOffsets(ts)| && v.toc.numTerms == |ts| && UpTo(v, n) <= |ts|
    ensures EntriesUpTo(v, n) == FoundIn(v, ts, 0, UpTo(v, n))
    ensures n == v.toc.numBlocks ==> UpTo(v, n) == |ts|
  {
    BlockCount(ts);
    hide Dict, PostingsRegion, SparseOffsets, BlockOf, HasAt, FitsFile, FoundIn;
    if n > 0 {
      BlocksLaid(v, ts, n - 1);
      BlockLaid(v, ts, n - 1);
      FoundJoins(v, ts, BLOCK_SIZE * (n - 1), BlockEnd(ts, n - 1));
    }
  }

  lemma {:induction false} FoundJoins(v: IdxView, ts: seq<DictTerm>, i: nat, j: nat)
    requires i <= j <= |ts|
    ensures FoundIn(v, ts, 0, i) + FoundIn(v, ts, i, j) == FoundIn(v, ts, 0, j)
  {
    hide FoundAt;
  }

  // ----- The whole file -----

  lemma {:induction false} EndLaid(v: IdxView, ts: seq<DictTerm>, k: nat)
    requires Laid(v, ts) && k <= |ts|
    ensures EndOf(v, FoundIn(v, ts, 0, k)) == v.toc.postingsOff + |PostingsRegion(ts[..k])|
  {
    hide Laid, Encoded, Dict;
    if k > 0 {
      OffsetsFit(v, ts, k - 1);
      hide PostingsRegion;
      assert FoundIn(v, ts, 0, k)[k - 1] == FoundAt(v, ts, k - 1);
    }
  }

  lemma {:induction false} BlockOkLaid(v: IdxView, ts: seq<DictTerm>, b: nat)
    requires Laid(v, ts) && b < v.toc.numBlocks
    ensures BlockOk(v, b)
  {
    hide Laid, Dict, PostingsRegion, SparseOffsets, BlockOf, RowOf, FoundAt, EntriesUpTo, EndOf;
    BlocksLaid(v, ts, b);
    RowLaid(v, ts, b);
    BlockLaid(v, ts, b);
    EndLaid(v, ts, BLOCK_SIZE * b);
    if b > 0 {
      BlockLaid(v, ts, b - 1);
    }
    FirstFound(v, ts, b);
  }

  lemma {:induction false} FirstFound(v: IdxView, ts: seq<DictTerm>, b: nat)
    requires BLOCK_SIZE * b < |ts|
    ensures FoundIn(v, ts, BLOCK_SIZE * b, BlockEnd(ts, b))[0].term == ts[BLOCK_SIZE * b].term
    ensures b > 0 ==> BlockEnd(ts, b - 1) == BLOCK_SIZE * b
  {
    hide PostingsRegion, Encoded;
  }

  lemma {:induction false} PostingsLaid(v: IdxView, ts: seq<DictTerm>, k: nat)
    requires Laid(v, ts) && k < |ts|
    ensures PostingsOf(v, FoundAt(v, ts, k)) == Success(Encoded(ts[k].list))
  {
    hide PostingsRegion, Encoded, Dict;
    PostingsAt(ts, k);
    HasAtInside(v.data, v.toc.postingsOff, PostingsRegion(ts), |PostingsRegion(ts[..k])|, Encoded(ts[k].list));
  }

  /** A written file is readable: exactly the terms written, each with its list. */
  lemma {:induction false} LaidReadable(v: IdxView, ts: seq<DictTerm>)
    requires Laid(v, ts) && Sorted(ts)
    ensures Readable(v) && AllEntries(v) == FoundIn(v, ts, 0, |ts|)
    ensures forall k | 0 <= k < |ts| :: PostingsOf(v, AllEntries(v)[k]) == Success(Encoded(ts[k].list))
    ensures EndOf(v, AllEntries(v)) == v.toc.postingsOff + v.toc.postingsLen
  {
    hide Laid, Dict, PostingsRegion, SparseOffsets, BlockOk, Encoded, PostingsOf, EndOf, Less;
    BlocksLaid(v, ts, v.toc.numBlocks);
    AllAre(v);
    hide EntriesUpTo, AllEntries;
    forall b: nat | b < v.toc.numBlocks
      ensures BlockOk(v, b)
    {
      BlockOkLaid(v, ts, b);
    }
    forall k | 0 <= k < |ts|
      ensures PostingsOf(v, AllEntries(v)[k]) == Success(Encoded(ts[k].list))
    {
      PostingsLaid(v, ts, k);
      assert AllEntries(v)[k] == FoundIn(v, ts, 0, |ts|)[k - 0];
    }
    EndLaid(v, ts, |ts|);
    RegionLen(v, ts);
  }

  lemma {:induction false} RegionLen(v: IdxView, ts: seq<DictTerm>)
    requires Laid(v, ts)
    ensures v.toc.postingsLen == |PostingsRegion(ts[..|ts|])|
  {
    assert ts[..|ts|] == ts;
  }

  ghost predicate AllUtf8(ts: seq<DictTerm>, utf8: bytes -> bool) {
    forall k | 0 <= k < |ts| :: utf8(ts[k].term)
  }

  /** A written file of valid lists passes the full check exactly when its terms are UTF-8. */
  lemma {:induction false} LaidVerified(v: IdxView, ts: seq<DictTerm>, utf8: bytes -> bool)
    requires Laid(v, ts) && Sorted(ts) && AllValid(ts)
    ensures Verified(v, utf8) <==> AllUtf8(ts, utf8)
  {
    hide Laid, Encoded, PostingsOf, EndOf, AllEntries, BlocksOk, FoundIn, Spelt, Decoded, EntrySound, Sorted, AllValid;
    LaidReadable(v, ts);
    ListsFit(v, ts);
    var es := AllEntries(v);
    forall k | 0 <= k < |ts|
      ensures EntrySound(v, PrevOf(None, es, k), es[k], utf8) <==> utf8(ts[k].term)
    {
      LaidSound(v, ts, utf8, k);
    }
    if Verified(v, utf8) {
      forall k | 0 <= k < |ts|
        ensures utf8(ts[k].term)
      {
        assert EntrySound(v, PrevOf(None, es, k), es[k], utf8);
      }
    }
  }

  lemma {:induction false} LaidSound(v: IdxView, ts: seq<DictTerm>, utf8: bytes -> bool, k: nat)
    requires Sorted(ts) && k < |ts| && AllEntries(v) == FoundIn(v, ts, 0, |ts|)
    requires PostingsOf(v, AllEntries(v)[k]) == Success(Encoded(ts[k].list)) && Spelt(Encoded(ts[k].list), ts[k].list)
    ensures EntrySound(v, PrevOf(None, AllEntries(v), k), AllEntries(v)[k], utf8) <==> utf8(ts[k].term)
  {
    hide Encoded, PostingsOf, AllEntries, Spelt, Decoded, Less, PostingsRegion;
    var es := AllEntries(v);
    assert es[k] == FoundIn(v, ts, 0, |ts|)[k - 0];
    assert k > 0 ==> es[k - 1] == FoundIn(v, ts, 0, |ts|)[k - 1 - 0];
    DecodesBack(Encoded(ts[k].list), ts[k].list);
  }

  lemma {:induction false} ListsFit(v: IdxView, ts: seq<DictTerm>)
    requires Laid(v, ts) && AllValid(ts)
    ensures forall k | 0 <= k < |ts| :: Spelt(Encoded(ts[k].list), ts[k].list)
  {
    hide Encoded, ValidList, Fits, Dict, PostingsRegion;
  }

  // ----- Write, then read -----

  lemma {:induction false} KeptIff(terms: seq<DictTerm>, e: DictTerm)
    ensures e in Kept(terms) <==> e in terms && |e.term| <= MAX_TERM_BYTES
  {
    if terms != [] {
      var front := terms[..|terms| - 1];
      KeptIff(front, e);
      assert terms == front + [terms[|terms| - 1]];
    }
  }

  lemma {:induction false} KeptSorted(terms: seq<DictTerm>)
    requires Sorted(terms)
    ensures Sorted(Kept(terms))
  {
    if terms != [] {
      var front, last := terms[..|terms| - 1], terms[|terms| - 1];
      assert Sorted(front);
      KeptSorted(front);
      var ts := Kept(front);
      forall i | 0 <= i < |ts|
        ensures Less(ts[i].term, last.term)
      {
        KeptIff(front, ts[i]);
        var j :| 0 <= j < |front| && front[j] == ts[i];
        assert Less(terms[j].term, terms[|terms| - 1].term);
      }
    }
  }

  /**
   Whatever sorted, unique terms with encodable lists are written, in however
   many blocks, the file opens; it verifies exactly when its terms are UTF-8; and
   a lookup finds exactly the list written for a term of at most 512 bytes, and
   nothing for any other.
   */
  method WriteThenLookup(terms: seq<DictTerm>, crc: bytes -> nat, utf8: bytes -> bool, target: Term)
    returns (file: bytes, verified: bool, found: Option<ListRef>)
    requires Sorted(terms) && AllValid(Kept(terms)) && FitsFile(Kept(terms)) && crc(Body(Kept(terms))) < U32
    ensures file == File(Kept(terms), crc) && (verified <==> AllUtf8(Kept(terms), utf8))
    ensures found.Some? <==> exists e :: e in terms && e.term == target && |target| <= MAX_TERM_BYTES
    ensures forall e | e in terms && e.term == target && found.Some? :: found == Some(ListRef(Encoded(e.list), |e.list|))
  {
    hide File, Body, AllValid, FitsFile, Kept, Laid, ParseView, Sorted, Encoded, Tiles, Readable, Verified, Answers, AllUtf8, AllEntries;
    ghost var ts := Kept(terms);
    KeptSorted(terms);
    var written := Write(terms, crc);
    file := written.value.0;
    FileOpens(ts, crc);
    ViewBody(file, ts, crc);
    var v := ParseView(file).value;
    LaidReadable(v, ts);
    LaidVerified(v, ts, utf8);
    verified := VerifyIdx(v, crc, utf8);
    var r := TermScan.Lookup(v, target);
    found := r.value;
    AnswersFor(v, terms, target, found);
  }

  lemma {:induction false} ViewBody(file: bytes, ts: seq<DictTerm>, crc: bytes -> nat)
    requires file == File(ts, crc) && FitsFile(ts) && crc(Body(ts)) < U32 && ParseView(file).Success?
    ensures var v := ParseView(file).value; HEADER_LEN <= v.bodyEnd <= |v.data| && v.data[HEADER_LEN..v.bodyEnd] == Body(ts) && v.crc == crc(Body(ts))
  {
    hide Body, File, Seal, Parse, DecodeToc, Tiles, FitsFile;
    BodyFits(ts);
    FileIs(ts, crc);
    SealParses(IdxKind, Body(ts), crc);
  }

  lemma {:induction false} AnswersFor(v: IdxView, terms: seq<DictTerm>, target: Term, found: Option<ListRef>)
    requires Sorted(terms) && Laid(v, Kept(terms)) && Answers(v, target, found)
    ensures found.Some? <==> exists e :: e in terms && e.term == target && |target| <= 512
    ensures forall e | e in terms && e.term == target && found.Some? :: found == Some(ListRef(Encoded(e.list), |e.list|))
  {
    hide Encoded, Kept, Laid, Answers, AllEntries, Readable, PostingsOf, FoundIn, Sorted, EndOf;
    var ts := Kept(terms);
    KeptSorted(terms);
    LaidReadable(v, ts);
    AnswersAre(v, ts, target, found);
    forall e | e in terms && e.term == target && |target| <= MAX_TERM_BYTES
      ensures found.Some?
    {
      KeptIff(terms, e);
      var j :| 0 <= j < |ts| && ts[j] == e;
    }
    if found.Some? {
      var j :| 0 <= j < |ts| && ts[j].term == target && found.value == ListRef(Encoded(ts[j].list), |ts[j].list|);
      KeptIff(terms, ts[j]);
      forall e | e in terms && e.term == target
        ensures e == ts[j]
      {
        OneOf(terms, e, ts[j]);
      }
    }
  }

  /** An answer over the file, said of the terms it was written for. */
  lemma {:induction false} AnswersAre(v: IdxView, ts: seq<DictTerm>, target: Term, found: Option<ListRef>)
    requires Answers(v, target, found) && AllEntries(v) == FoundIn(v, ts, 0, |ts|)
    requires forall k | 0 <= k < |ts| :: PostingsOf(v, AllEntries(v)[k]) == Success(Encoded(ts[k].list))
    ensures found.None? ==> forall j | 0 <= j < |ts| :: ts[j].term != target
    ensures found.Some? ==> exists j :: 0 <= j < |ts| && ts[j].term == target && found.value == ListRef(Encoded(ts[j].list), |ts[j].list|)
  {
    hide Encoded, PostingsOf, PostingsRegion, AllEntries;
    var es := AllEntries(v);
    assert forall k | 0 <= k < |ts| :: es[k].term == ts[k].term && es[k].docFreq == |ts[k].list|;
    if found.Some? {
      var j :| 0 <= j < |es| && es[j].term == target && Lists(v, es[j], found.value);
      assert ts[j].term == target && found.value == ListRef(Encoded(ts[j].list), |ts[j].list|);
    }
  }

  lemma {:induction false} OneOf(terms: seq<DictTerm>, a: DictTerm, b: DictTerm)
    requires Sorted(terms) && a in terms && b in terms && a.term == b.term
    ensures a == b
  {
    var i :| 0 <= i < |terms| && terms[i] == a;
    var j :| 0 <= j < |terms| && terms[j] == b;
    LessTotal(a.term, a.term);
    assert i == j;
  }
}
