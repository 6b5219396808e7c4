/**
 Opening an `.idx` file: the view, its table of contents, and where everything
 stands in a file that was written (src/format/idx.rs).
 */
module TermLookup {
  import opened Wrappers
  import opened Documents
  import opened Postings
  import opened Bytes
  import opened Envelope
  import opened DiskPostings
  import opened TermDict

  datatype IdxView = IdxView(data: bytes, bodyEnd: nat, crc: nat, toc: Toc)

  // ----- Where things stand in a written file -----

  /** Lengths and offsets fit the fields they are written to. */
  ghost predicate FitsFile(ts: seq<DictTerm>) {
    && |Body(ts)| + HEADER_LEN + FOOTER_LEN < U64 && |SparseEntries(ts)| < U32 && |SparseOffsets(ts)| < U32
    && forall i | 0 <= i < |ts| :: |ts[i].term| <= MAX_TERM_BYTES && Fits(ts[i].list)
  }

  /** The regions of `ts` stand where the table of contents says. */
  ghost predicate Laid(v: IdxView, ts: seq<DictTerm>) {
    && v.toc == TocOf(ts) && FitsFile(ts)
    && HasAt(v.data, v.toc.postingsOff, PostingsRegion(ts))
    && HasAt(v.data, v.toc.dictOff, Dict(ts))
    && HasAt(v.data, v.toc.sparseOff, Sparse(ts))
  }

  lemma {:induction false} FrontOf(ts: seq<DictTerm>, k: nat)
    requires k < |ts|
    ensures ts[..k + 1][..k] == ts[..k] && ts[..|ts| - 1][..k] == ts[..k]
    ensures k == |ts| - 1 ==> ts[..k + 1] == ts
  {
  }

  /** Entry `k` of the dictionary, after the entries before it. */
  lemma {:induction false} DictAt(ts: seq<DictTerm>, k: nat)
    requires k < |ts|
    ensures HasAt(Dict(ts), |Dict(ts[..k])|, EntryBytes(PrevTerm(ts[..k]), ts[k]))
    ensures |Dict(ts[..k + 1])| == |Dict(ts[..k])| + |EntryBytes(PrevTerm(ts[..k]), ts[k])| <= |Dict(ts)|
  {
    hide EntryBytes;
    FrontOf(ts, k);
    assert Dict(ts[..k + 1]) == Dict(ts[..k]) + EntryBytes(PrevTerm(ts[..k]), ts[k]);
    if k < |ts| - 1 {
      DictAt(ts[..|ts| - 1], k);
      assert ts[..|ts| - 1][..k + 1] == ts[..k + 1];
      HasAtMore(Dict(ts[..|ts| - 1]), EntryBytes(PrevTerm(ts[..|ts| - 1]), ts[|ts| - 1]), |Dict(ts[..k])|, EntryBytes(PrevTerm(ts[..k]), ts[k]));
    } else {
      HasAtMore(Dict(ts), [], |Dict(ts[..k])|, EntryBytes(PrevTerm(ts[..k]), ts[k]));
    }
  }

  lemma {:induction false} HasAtMore(a: bytes, b: bytes, pos: nat, w: bytes)
    ensures HasAt(a, pos, w) ==> HasAt(a + b, pos, w)
  {
  }

  lemma {:induction false} PostingsAt(ts: seq<DictTerm>, k: nat)
    requires k < |ts|
    ensures HasAt(PostingsRegion(ts), |PostingsRegion(ts[..k])|, Encoded(ts[k].list))
    ensures |PostingsRegion(ts[..k + 1])| == |PostingsRegion(ts[..k])| + |Encoded(ts[k].list)| <= |PostingsRegion(ts)|
  {
    hide Encoded;
    FrontOf(ts, k);
    if k < |ts| - 1 {
      PostingsAt(ts[..|ts| - 1], k);
      assert ts[..|ts| - 1][..k + 1] == ts[..k + 1];
      HasAtMore(PostingsRegion(ts[..|ts| - 1]), Encoded(ts[|ts| - 1].list), |PostingsRegion(ts[..k])|, Encoded(ts[k].list));
    }
  }

  /** One sparse entry for each started block of 64. */
  lemma {:induction false} BlockCount(ts: seq<DictTerm>)
    ensures |SparseOffsets(ts)| == (|ts| + BLOCK_SIZE - 1) / BLOCK_SIZE
  {
    if ts != [] {
      BlockCount(ts[..|ts| - 1]);
    }
  }

  /** Block `b` starts at term `64 b`, and its sparse entry stands where its offset says. */
  lemma {:induction false} SparseAt(ts: seq<DictTerm>, b: nat)
    requires b < |SparseOffsets(ts)|
    ensures BLOCK_SIZE * b < |ts| && SparseOffsets(ts)[b] == |SparseEntries(ts[..BLOCK_SIZE * b])|
    ensures HasAt(SparseEntries(ts), SparseOffsets(ts)[b], SparseBytes(ts[..BLOCK_SIZE * b], ts[BLOCK_SIZE * b].term))
  {
    hide SparseBytes;
    BlockCount(ts);
    var k := BLOCK_SIZE * b;
    FrontOf(ts, k);
    if k < |ts| - 1 {
      var front := ts[..|ts| - 1];
      BlockCount(front);
      SparseAt(front, b);
      var more := if |front| % BLOCK_SIZE == 0 then SparseBytes(front, ts[|ts| - 1].term) else [];
      HasAtMore(SparseEntries(front), more, SparseOffsets(front)[b], SparseBytes(ts[..k], ts[k].term));
    } else {
      BlockCount(ts[..k]);
    }
  }

  lemma {:induction false} OffsetAt(offsets: seq<nat>, b: nat)
    requires b < |offsets|
    ensures HasAt(OffsetBytes(offsets), 4 * b, LE(offsets[b], 4)) && |OffsetBytes(offsets)| == 4 * |offsets|
  {
    hide LE;
    var n := |offsets| - 1;
    OffsetsLen(offsets);
    OffsetsLen(offsets[..n]);
    if b < n {
      OffsetAt(offsets[..n], b);
      HasAtMore(OffsetBytes(offsets[..n]), LE(offsets[n], 4), 4 * b, LE(offsets[b], 4));
    }
  }

  lemma {:induction false} OffsetsLen(offsets: seq<nat>)
    ensures |OffsetBytes(offsets)| == 4 * |offsets|
  {
    if offsets != [] {
      OffsetsLen(offsets[..|offsets| - 1]);
    }
  }

  // ----- Opening the view -----

  function DecodeToc(w: bytes): Toc
    requires |w| == TOC_LEN
  {
    Toc(FromLE(w[0..8]), FromLE(w[8..16]), FromLE(w[16..24]), FromLE(w[24..32]), FromLE(w[32..40]), FromLE(w[40..48]),
        FromLE(w[48..56]), FromLE(w[56..60]), FromLE(w[60..64]))
  }

  /** The regions follow each other from the header to the table of contents. */
  predicate Tiles(t: Toc, bodyEnd: nat) {
    && t.postingsOff == HEADER_LEN && t.postingsOff + t.postingsLen == t.dictOff && t.dictOff + t.dictLen == t.sparseOff
    && t.sparseOff + t.sparseLen + TOC_LEN == bodyEnd && t.blockSize == BLOCK_SIZE
    && t.numBlocks == (t.numTerms + BLOCK_SIZE - 1) / BLOCK_SIZE && t.sparseLen >= 4 * t.numBlocks
  }

  function ParseView(data: bytes): (r: Result<IdxView, FormatError>)
    ensures r.Success? ==> r.value.data == data && Tiles(r.value.toc, r.value.bodyEnd) && r.value.bodyEnd <= |data|
  {
    match Parse(IdxKind, data)
    case Failure(e) => Failure(e)
    case Success(env) =>
      if env.bodyEnd - HEADER_LEN < TOC_LEN then Failure(Truncated(env.bodyEnd - HEADER_LEN, TOC_LEN))
      else
        var toc := DecodeToc(data[env.bodyEnd - TOC_LEN..env.bodyEnd]);
        if Tiles(toc, env.bodyEnd) then Success(IdxView(data, env.bodyEnd, env.crc, toc)) else Failure(Corrupt)
  }

  // ----- A written file opens as itself -----

  ghost predicate FitsToc(t: Toc) {
    && t.postingsOff < U64 && t.postingsLen < U64 && t.dictOff < U64 && t.dictLen < U64 && t.sparseOff < U64 && t.sparseLen < U64
    && t.numTerms < U64 && t.numBlocks < U32 && t.blockSize < U32
  }

  lemma {:induction false} FieldAt(w: bytes, at: nat, v: nat, n: nat, rest: bytes)
    requires HasAt(w, at, LE(v, n) + rest) && v < Pow256(n)
    ensures at + n <= |w| && FromLE(w[at..at + n]) == v && HasAt(w, at + n, rest)
  {
    HasAtSplit(w, at, LE(v, n), rest);
    FromLEOf(v, n);
  }

  lemma {:induction false} TocBack(t: Toc)
    requires FitsToc(t)
    ensures |TocBytes(t)| == TOC_LEN && DecodeToc(TocBytes(t)) == t
  {
    Widths();
    hide LE, FromLE, Pow256;
    var w := TocBytes(t);
    var f8 := LE(t.numBlocks, 4) + LE(t.blockSize, 4);
    var f7 := LE(t.numTerms, 8) + f8;
    var f6 := LE(t.sparseLen, 8) + f7;
    var f5 := LE(t.sparseOff, 8) + f6;
    var f4 := LE(t.dictLen, 8) + f5;
    var f3 := LE(t.dictOff, 8) + f4;
    var f2 := LE(t.postingsLen, 8) + f3;
    WholeAt(w, 0, w);
    FieldAt(w, 0, t.postingsOff, 8, f2);
    FieldAt(w, 8, t.postingsLen, 8, f3);
    FieldAt(w, 16, t.dictOff, 8, f4);
    FieldAt(w, 24, t.dictLen, 8, f5);
    FieldAt(w, 32, t.sparseOff, 8, f6);
    FieldAt(w, 40, t.sparseLen, 8, f7);
    FieldAt(w, 48, t.numTerms, 8, f8);
    FieldAt(w, 56, t.numBlocks, 4, LE(t.blockSize, 4));
    assert LE(t.blockSize, 4) + [] == LE(t.blockSize, 4);
    FieldAt(w, 60, t.blockSize, 4, []);
  }

  lemma {:induction false} PartsOfBody(data: bytes, a: bytes, b: bytes, c: bytes, d: bytes, at: nat)
    requires HasAt(data, at, a + (b + (c + d)))
    ensures HasAt(data, at, a) && HasAt(data, at + |a|, b) && HasAt(data, at + |a| + |b|, c) && HasAt(data, at + |a| + |b| + |c|, d)
  {
    HasAtSplit(data, at, a, b + (c + d));
    HasAtSplit(data, at + |a|, b, c + d);
    HasAtSplit(data, at + |a| + |b|, c, d);
  }

  lemma {:induction false} TocFits(ts: seq<DictTerm>)
    requires FitsFile(ts)
    ensures FitsToc(TocOf(ts)) && |Sparse(ts)| >= 4 * |SparseOffsets(ts)|
    ensures |Body(ts)| == |PostingsRegion(ts)| + |Dict(ts)| + |Sparse(ts)| + TOC_LEN
    ensures Tiles(TocOf(ts), HEADER_LEN + |Body(ts)|)
  {
    OffsetsLen(SparseOffsets(ts));
    BlockCount(ts);
    TocLen(TocOf(ts));
    TermsFit(ts);
  }

  lemma {:induction false} TocLen(t: Toc)
    ensures |TocBytes(t)| == TOC_LEN
  {
  }

  /** Every term takes at least one byte of the dictionary. */
  lemma {:induction false} TermsFit(ts: seq<DictTerm>)
    ensures |ts| <= |Dict(ts)|
  {
    if ts != [] {
      TermsFit(ts[..|ts| - 1]);
      VarintSome(CommonPrefix(PrevTerm(ts[..|ts| - 1]), ts[|ts| - 1].term));
    }
  }

  lemma {:induction false} VarintSome(v: nat)
    ensures |Varint(v)| >= 1
  {
  }

  lemma {:induction false} LaidIn(v: IdxView, ts: seq<DictTerm>)
    requires v.toc == TocOf(ts) && FitsFile(ts) && HasAt(v.data, HEADER_LEN, Body(ts))
    ensures Laid(v, ts)
  {
    hide HasAt, Dict, PostingsRegion, Sparse, SparseOffsets, TocBytes, FitsFile;
    PartsOfBody(v.data, PostingsRegion(ts), Dict(ts), Sparse(ts), TocBytes(TocOf(ts)), HEADER_LEN);
  }

  lemma {:induction false} ParsesTo(data: bytes, end: nat, crc: nat, toc: Toc)
    requires Parse(IdxKind, data) == Success(Env(end, crc)) && end >= HEADER_LEN + TOC_LEN && end <= |data|
    requires DecodeToc(data[end - TOC_LEN..end]) == toc && Tiles(toc, end)
    ensures ParseView(data) == Success(IdxView(data, end, crc, toc))
  {
    hide Parse, DecodeToc, Tiles;
  }

  lemma {:induction false} TailOfBody(ts: seq<DictTerm>)
    requires FitsFile(ts)
    ensures |Body(ts)| >= TOC_LEN && Body(ts)[|Body(ts)| - TOC_LEN..] == TocBytes(TocOf(ts))
  {
    TocFits(ts);
    TocLen(TocOf(ts));
    hide FitsFile, Dict, PostingsRegion, Sparse, TocBytes, FitsToc, Tiles;
    TailOf(PostingsRegion(ts), Dict(ts), Sparse(ts), TocBytes(TocOf(ts)));
  }

  lemma {:induction false} TailOf(a: bytes, b: bytes, c: bytes, d: bytes)
    ensures (a + (b + (c + d)))[|a| + |b| + |c|..] == d
  {
  }

  /** What `Write` wrote, `ParseView` opens, with every region in its place. */
  lemma {:induction false} FileOpens(ts: seq<DictTerm>, crc: bytes -> nat)
    requires FitsFile(ts) && crc(Body(ts)) < U32
    ensures ParseView(File(ts, crc)).Success?
    ensures Laid(ParseView(File(ts, crc)).value, ts) && ParseView(File(ts, crc)).value.crc == crc(Body(ts))
  {
    hide Seal, Body, File, Parse, ParseView, Laid, FitsFile, TocBytes, DecodeToc, Tiles, FitsToc, TocOf, Dict, PostingsRegion, Sparse, HasAt;
    BodyFits(ts);
    var data, body := Seal(IdxKind, Body(ts), crc), Body(ts);
    assert File(ts, crc) == data by { FileIs(ts, crc); }
    var end := HEADER_LEN + |body|;
    SealParses(IdxKind, body, crc);
    TocFits(ts);
    TocBack(TocOf(ts));
    TailOfBody(ts);
    SubSlice(data, HEADER_LEN, end, |body| - TOC_LEN, |body|);
    assert body[|body| - TOC_LEN..] == body[|body| - TOC_LEN..|body|];
    ParsesTo(data, end, crc(body), TocOf(ts));
    assert HasAt(data, HEADER_LEN, body) by { HasBody(data, body); }
    LaidIn(IdxView(data, end, crc(body), TocOf(ts)), ts);
  }

  lemma {:induction false} BodyFits(ts: seq<DictTerm>)
    requires FitsFile(ts)
    ensures |Body(ts)| < U64
  {
  }

  lemma {:induction false} FileIs(ts: seq<DictTerm>, crc: bytes -> nat)
    ensures File(ts, crc) == Seal(IdxKind, Body(ts), crc)
  {
  }

  lemma {:induction false} HasBody(data: bytes, body: bytes)
    requires HEADER_LEN + |body| <= |data| && data[HEADER_LEN..HEADER_LEN + |body|] == body
    ensures HasAt(data, HEADER_LEN, body)
  {
  }
}
