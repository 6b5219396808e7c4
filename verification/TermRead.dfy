/**
 What an `.idx` file's bytes say, whether or not anyone wrote them: rows of the
 sparse index, blocks of front-coded entries, posting lists (src/format/idx.rs).
 Sums of a 64-bit offset and a region's start are unbounded here.
 */
module TermRead {
  import opened Wrappers
  import opened Documents
  import opened Postings
  import opened Bytes
  import opened DiskPostings
  import opened TermDict
  import opened TermLookup

  /** A posting list found in the file: its bytes, and the dictionary's count of docs. */
  datatype ListRef = ListRef(data: bytes, docFreq: nat)

  datatype Found = Found(term: Term, docFreq: nat, off: nat, len: nat)

  datatype SparseRow = SparseRow(first: Term, blockOff: nat, postingsOff: nat)

  datatype RawEntry = RawEntry(term: Term, docFreq: nat, len: nat, next: nat)

  /** What a scan yields, and where or how it ends. */
  datatype Scanned = Scanned(entries: seq<Found>, end: Result<nat, FormatError>)

  // ----- Rows, entries, blocks and lists -----

  /** A row at `pos`: a length, a term, and two offsets, before the end of the region. */
  function RowFrom(data: bytes, pos: nat, sparseEnd: nat): Result<SparseRow, FormatError> {
    var len := ReadVarint32(data, pos);
    if len.Failure? then Failure(len.error)
    else
      var at, end := len.value.next, len.value.next + len.value.value;
      if end > |data| then Failure(Truncated(at, len.value.value))
      else
        var blockOff := ReadVarint(data, end);
        if blockOff.Failure? then Failure(blockOff.error)
        else
          var postingsOff := ReadVarint(data, blockOff.value.next);
          if postingsOff.Failure? then Failure(postingsOff.error)
          else if postingsOff.value.next > sparseEnd then Failure(Corrupt)
          else Success(SparseRow(data[at..end], blockOff.value.value, postingsOff.value.value))
  }

  function RowOf(v: IdxView, b: nat): Result<SparseRow, FormatError> {
    var off := ReadLE(v.data, v.toc.sparseOff + 4 * b, 4);
    if off.Failure? then Failure(off.error)
    else
      var sparseEnd, pos := v.toc.sparseOff + v.toc.sparseLen, v.toc.sparseOff + 4 * v.toc.numBlocks + off.value;
      if pos >= sparseEnd then Failure(Corrupt) else RowFrom(v.data, pos, sparseEnd)
  }

  /** One dictionary entry coded against `prev`. */
  function RawEntryAt(data: bytes, pos: nat, prev: Term): Result<RawEntry, FormatError> {
    var prefix := ReadVarint32(data, pos);
    if prefix.Failure? then Failure(prefix.error)
    else
      var len := ReadVarint32(data, prefix.value.next);
      if len.Failure? then Failure(len.error)
      else if prefix.value.value > |prev| then Failure(Corrupt)
      else SuffixAt(data, prev[..prefix.value.value], len.value.next, len.value.value)
  }

  /** The rest of the entry, from the suffix on. */
  function SuffixAt(data: bytes, shared: Term, at: nat, len: nat): Result<RawEntry, FormatError> {
    if at + len > |data| then Failure(Truncated(at, len))
    else
      var docFreq := ReadVarint32(data, at + len);
      if docFreq.Failure? then Failure(docFreq.error)
      else
        var postingsLen := ReadVarint(data, docFreq.value.next);
        if postingsLen.Failure? then Failure(postingsLen.error)
        else Success(RawEntry(shared + data[at..at + len], docFreq.value.value, postingsLen.value.value, postingsLen.value.next))
  }

  /** `remaining` entries from `pos` on, each coded against the one before it. */
  function Scan(data: bytes, end: nat, pos: nat, prev: Term, postingsPos: nat, remaining: nat): (s: Scanned)
    ensures |s.entries| <= remaining && (s.end.Success? ==> |s.entries| == remaining)
    decreases remaining
  {
    if remaining == 0 then Scanned([], Success(pos))
    else
      var raw := RawEntryAt(data, pos, prev);
      if raw.Failure? then Scanned([], Failure(raw.error))
      else if raw.value.next > end || postingsPos + raw.value.len >= U64 then Scanned([], Failure(Corrupt))
      else
        var rest := Scan(data, end, raw.value.next, raw.value.term, postingsPos + raw.value.len, remaining - 1);
        Scanned([Found(raw.value.term, raw.value.docFreq, postingsPos, raw.value.len)] + rest.entries, rest.end)
  }

  /** How many terms block `b` has. */
  function BlockLen(v: IdxView, b: nat): nat
    requires BLOCK_SIZE * b <= v.toc.numTerms
  {
    if v.toc.numTerms - BLOCK_SIZE * b < BLOCK_SIZE then v.toc.numTerms - BLOCK_SIZE * b else BLOCK_SIZE
  }

  function BlockOf(v: IdxView, b: nat): Result<Scanned, FormatError>
    requires BLOCK_SIZE * b <= v.toc.numTerms
  {
    var row := RowOf(v, b);
    if row.Failure? then Failure(row.error)
    else
      var start, end := v.toc.dictOff + row.value.blockOff, v.toc.dictOff + v.toc.dictLen;
      if start > end then Failure(Corrupt)
      else Success(Scan(v.data, end, start, [], v.toc.postingsOff + row.value.postingsOff, BlockLen(v, b)))
  }

  function PostingsOf(v: IdxView, e: Found): Result<bytes, FormatError> {
    if e.off + e.len > v.toc.postingsOff + v.toc.postingsLen then Failure(Corrupt)
    else if e.off + e.len > |v.data| then Failure(Truncated(e.off, e.len))
    else Success(v.data[e.off..e.off + e.len])
  }

  // ----- Reading them -----

  method SparseEntry(v: IdxView, b: nat) returns (r: Result<SparseRow, FormatError>)
    ensures r == RowOf(v, b)
  {
    hide ReadVarint, ReadVarint32, ReadLE;
    var table := v.toc.sparseOff;
    var off := ReadLE(v.data, table + 4 * b, 4);
    if off.Failure? { return Failure(off.error); }
    var sparseEnd := table + v.toc.sparseLen;
    var pos := table + 4 * v.toc.numBlocks + off.value;
    if pos >= sparseEnd { return Failure(Corrupt); }
    var len := ReadU32(v.data, pos);
    if len.Failure? { return Failure(len.error); }
    pos := len.value.next;
    if pos + len.value.value > |v.data| { return Failure(Truncated(pos, len.value.value)); }
    var term := v.data[pos..pos + len.value.value];
    var blockOff := ReadU64(v.data, pos + len.value.value);
    if blockOff.Failure? { return Failure(blockOff.error); }
    var postingsOff := ReadU64(v.data, blockOff.value.next);
    if postingsOff.Failure? { return Failure(postingsOff.error); }
    if postingsOff.value.next > sparseEnd { return Failure(Corrupt); }
    r := Success(SparseRow(term, blockOff.value.value, postingsOff.value.value));
  }

  /** Decode one dictionary entry coded against `prev`. */
  method ReadEntry(data: bytes, pos: nat, prev: Term) returns (r: Result<RawEntry, FormatError>)
    ensures r == RawEntryAt(data, pos, prev)
  {
    hide ReadVarint, ReadVarint32;
    var prefix := ReadU32(data, pos);
    if prefix.Failure? { return Failure(prefix.error); }
    var len := ReadU32(data, prefix.value.next);
    if len.Failure? { return Failure(len.error); }
    if prefix.value.value > |prev| { return Failure(Corrupt); }
    var at := len.value.next;
    if at + len.value.value > |data| { return Failure(Truncated(at, len.value.value)); }
    var term := prev[..prefix.value.value] + data[at..at + len.value.value];
    var docFreq := ReadU32(data, at + len.value.value);
    if docFreq.Failure? { return Failure(docFreq.error); }
    var postingsLen := ReadU64(data, docFreq.value.next);
    if postingsLen.Failure? { return Failure(postingsLen.error); }
    r := Success(RawEntry(term, docFreq.value.value, postingsLen.value.value, postingsLen.value.next));
  }

  class BlockScan {
    const view: IdxView
    const end: nat
    var pos: nat
    var remaining: nat
    var term: Term
    var postingsPos: nat

    /** What is still to come. */
    ghost function Ahead(): Scanned
      reads this
    {
      Scan(view.data, end, pos, term, postingsPos, remaining)
    }

    constructor (view: IdxView, pos: nat, end: nat, remaining: nat, postingsPos: nat)
      ensures this.view == view && Ahead() == Scan(view.data, end, pos, [], postingsPos, remaining)
    {
      this.view, this.pos, this.end, this.remaining, this.postingsPos, term := view, pos, end, remaining, postingsPos, [];
    }

    /** Yields what is ahead, one entry at a time, then its end. */
    method NextEntry() returns (r: Result<Option<Found>, FormatError>)
      modifies this
      ensures var was := old(Ahead());
        if was.entries != [] then
          r == Success(Some(was.entries[0])) && Ahead() == Scanned(was.entries[1..], was.end) && remaining < old(remaining)
        else if was.end.Success? then r == Success(None) && Ahead() == was && pos == was.end.value
        else r == Failure(was.end.error)
    {
      hide RawEntryAt;
      if remaining == 0 { return Success(None); }
      var raw := ReadEntry(view.data, pos, term);
      if raw.Failure? { return Failure(raw.error); }
      term, pos := raw.value.term, raw.value.next;
      if pos > end { return Failure(Corrupt); }
      var off := postingsPos;
      if off + raw.value.len >= U64 { return Failure(Corrupt); }
      postingsPos := off + raw.value.len;
      remaining := remaining - 1;
      r := Success(Some(Found(term, raw.value.docFreq, off, raw.value.len)));
      ghost var es := old(Ahead()).entries;
      assert es == [Found(term, raw.value.docFreq, off, raw.value.len)] + Ahead().entries;
      assert es[1..] == Ahead().entries;
    }
  }

  method Block(v: IdxView, b: nat) returns (r: Result<BlockScan, FormatError>)
    requires BLOCK_SIZE * b <= v.toc.numTerms
    ensures match BlockOf(v, b)
            case Failure(e) => r == Failure(e)
            case Success(s) => r.Success? && fresh(r.value) && r.value.view == v && r.value.Ahead() == s
  {
    hide RowOf, Scan;
    var row := SparseEntry(v, b);
    if row.Failure? { return Failure(row.error); }
    var start := v.toc.dictOff + row.value.blockOff;
    var end := v.toc.dictOff + v.toc.dictLen;
    if start > end { return Failure(Corrupt); }
    var left := v.toc.numTerms - BLOCK_SIZE * b;
    var scan := new BlockScan(v, start, end, if left < BLOCK_SIZE then left else BLOCK_SIZE, v.toc.postingsOff + row.value.postingsOff);
    r := Success(scan);
  }

  method PostingsFor(v: IdxView, e: Found) returns (r: Result<ListRef, FormatError>)
    ensures match PostingsOf(v, e)
            case Failure(x) => r == Failure(x)
            case Success(data) => r == Success(ListRef(data, e.docFreq))
  {
    var off, len := e.off, e.len;
    if off + len > v.toc.postingsOff + v.toc.postingsLen { return Failure(Corrupt); }
    if off + len > |v.data| { return Failure(Truncated(off, len)); }
    r := Success(ListRef(v.data[off..off + len], e.docFreq));
  }

  // ----- The whole dictionary -----

  function BlockEntries(v: IdxView, b: nat): seq<Found> {
    if BLOCK_SIZE * b <= v.toc.numTerms && BlockOf(v, b).Success? then BlockOf(v, b).value.entries else []
  }

  /** The entries of the first `n` blocks. */
  function EntriesUpTo(v: IdxView, n: nat): seq<Found> {
    if n == 0 then [] else EntriesUpTo(v, n - 1) + BlockEntries(v, n - 1)
  }

  function AllEntries(v: IdxView): seq<Found> {
    EntriesUpTo(v, v.toc.numBlocks)
  }

  /** Where the postings of `es` end. */
  function EndOf(v: IdxView, es: seq<Found>): nat {
    if es == [] then v.toc.postingsOff else es[|es| - 1].off + es[|es| - 1].len
  }

  /** Block `b` reads to its end; its row names its first term, its place in both regions, and starts where the block before it ends. */
  ghost predicate BlockOk(v: IdxView, b: nat) {
    && BLOCK_SIZE * b < v.toc.numTerms && RowOf(v, b).Success? && BlockOf(v, b).Success? && BlockOf(v, b).value.end.Success?
    && RowOf(v, b).value.first == BlockOf(v, b).value.entries[0].term
    && v.toc.postingsOff + RowOf(v, b).value.postingsOff == EndOf(v, EntriesUpTo(v, b))
    && (b > 0 ==> BlockOf(v, b - 1).Success? && BlockOf(v, b - 1).value.end == Success(v.toc.dictOff + RowOf(v, b).value.blockOff))
  }

  ghost predicate BlocksOk(v: IdxView) {
    forall b: nat | b < v.toc.numBlocks :: BlockOk(v, b)
  }

  ghost predicate Ascend(es: seq<Found>) {
    forall i, j | 0 <= i < j < |es| :: Less(es[i].term, es[j].term)
  }

  /** What looking up and listing need of a file. */
  ghost predicate Readable(v: IdxView) {
    && BlocksOk(v) && Ascend(AllEntries(v))
    && forall i | 0 <= i < |AllEntries(v)| :: PostingsOf(v, AllEntries(v)[i]).Success?
  }

  lemma {:induction false} CeilDiv(n: nat, b: nat)
    requires b < (n + BLOCK_SIZE - 1) / BLOCK_SIZE
    ensures BLOCK_SIZE * b < n
  {
  }

  lemma {:induction false} UpToPrefix(v: IdxView, n: nat, m: nat)
    requires n <= m
    ensures EntriesUpTo(v, n) <= EntriesUpTo(v, m)
    decreases m
  {
    hide BlockEntries;
    if n < m {
      UpToPrefix(v, n, m - 1);
    }
  }

  /** Terms before block `b`. */
  function UpTo(v: IdxView, b: nat): nat {
    if BLOCK_SIZE * b < v.toc.numTerms then BLOCK_SIZE * b else v.toc.numTerms
  }

  /** Blocks are full but for the last. */
  lemma {:induction false} UpToLen(v: IdxView, b: nat)
    requires Tiles(v.toc, v.bodyEnd) && BlocksOk(v) && b <= v.toc.numBlocks
    ensures |EntriesUpTo(v, b)| == UpTo(v, b)
    ensures b == v.toc.numBlocks ==> UpTo(v, b) == v.toc.numTerms
  {
    hide BlockOf, RowOf, EndOf;
    if b > 0 {
      UpToLen(v, b - 1);
      assert BlockOk(v, b - 1);
      BlockLenIs(v, b - 1);
    }
  }

  lemma {:induction false} BlockLenIs(v: IdxView, b: nat)
    requires BLOCK_SIZE * b <= v.toc.numTerms && BlockOf(v, b).Success? && BlockOf(v, b).value.end.Success?
    ensures |BlockOf(v, b).value.entries| == BlockLen(v, b)
  {
    hide RowOf;
  }

  /** Block `b` holds terms `64 b` on. */
  lemma {:induction false} BlockSlice(v: IdxView, b: nat)
    requires Tiles(v.toc, v.bodyEnd) && BlocksOk(v) && b < v.toc.numBlocks
    ensures BLOCK_SIZE * b < v.toc.numTerms == |AllEntries(v)| && UpTo(v, b + 1) <= v.toc.numTerms
    ensures BlockOf(v, b).Success? && BlockOf(v, b).value.entries == AllEntries(v)[BLOCK_SIZE * b..UpTo(v, b + 1)]
    ensures RowOf(v, b).Success? && RowOf(v, b).value.first == AllEntries(v)[BLOCK_SIZE * b].term
  {
    hide RowOf, BlockOf, EndOf;
    assert BlockOk(v, b);
    UpToLen(v, b);
    UpToLen(v, b + 1);
    UpToLen(v, v.toc.numBlocks);
    UpToPrefix(v, b + 1, v.toc.numBlocks);
    BlockLenIs(v, b);
    assert EntriesUpTo(v, b + 1) == AllEntries(v)[..UpTo(v, b + 1)];
    assert BlockEntries(v, b) == EntriesUpTo(v, b + 1)[BLOCK_SIZE * b..];
  }
}
