/**
 The files on disk against the tables of docs/FORMAT.md: which bytes stand at
 which offset, field by field.
 */
module FormatTables {
  import opened Wrappers
  import opened Documents
  import opened Postings
  import opened Bytes
  import opened Fields
  import opened Envelope
  import opened DiskPostings
  import opened TermDict
  import opened TermLookup
  import ManifestFile

  // ----- Integers -----

  /** Dividing `v` by 256 over and over leaves the bytes of `w`, the first one first, and then nothing. */
  ghost predicate Quotients(q: seq<nat>, w: bytes, v: nat) {
    |q| == |w| + 1 && q[0] == v && q[|w|] == 0 && forall i | 0 <= i < |w| :: q[i] == w[i] + 256 * q[i + 1]
  }

  /** The `n` bytes at `at` are `v`, little-endian. */
  ghost predicate Field(data: bytes, at: nat, n: nat, v: nat) {
    at + n <= |data| && Spelled(data[at..at + n], v)
  }

  ghost predicate Spelled(w: bytes, v: nat) {
    exists q :: Quotients(q, w, v)
  }

  /** `s` in ASCII at `at`. */
  predicate Ascii(data: bytes, at: nat, s: string) {
    at + |s| <= |data| && forall i | 0 <= i < |s| :: data[at + i] == s[i] as int
  }

  /** A varint from `at` up to `next` with this value, and no byte to spare. */
  ghost predicate VarintAt(data: bytes, at: nat, v: nat, next: nat) {
    at < next <= |data| && IsVarint(data[at..next]) && Groups(data[at..next]) == v && (next == at + 1 || data[next - 1] != 0)
  }

  lemma {:induction false} LEQuotients(v: nat, n: nat) returns (q: seq<nat>)
    requires v < Pow256(n)
    ensures Quotients(q, LE(v, n), v)
  {
    if n == 0 {
      q := [0];
    } else {
      var rest := LEQuotients(v / 256, n - 1);
      q := [v] + rest;
    }
  }

  lemma {:induction false} FieldOf(data: bytes, at: nat, n: nat, v: nat)
    requires HasAt(data, at, LE(v, n)) && v < Pow256(n)
    ensures Field(data, at, n, v)
  {
    var q := LEQuotients(v, n);
  }

  lemma {:induction false} SpelledVarint(v: nat)
    ensures IsVarint(Varint(v)) && Groups(Varint(v)) == v
    ensures |Varint(v)| == 1 || Varint(v)[|Varint(v)| - 1] != 0
  {
    if v < 128 {
      assert Varint(v)[1..] == [];
    } else {
      var w := Varint(v);
      SpelledVarint(v / 128);
      assert w[1..] == Varint(v / 128);
      IsVarintTail(w);
      assert w[|w| - 1] == w[1..][|w| - 2];
      if |w| == 2 {
        assert w[1..] == [w[1]] && w[1..][1..] == [];
      }
    }
  }

  lemma {:induction false} VarintStands(data: bytes, at: nat, v: nat)
    requires HasAt(data, at, Varint(v))
    ensures VarintAt(data, at, v, at + |Varint(v)|)
  {
    SpelledVarint(v);
    var next := at + |Varint(v)|;
    assert data[next - 1] == data[at..next][|Varint(v)| - 1];
  }

  // ----- The envelope -----

  function MagicOf(kind: Envelope.Kind): string {
    match kind
    case ManifestKind => "FSRCHMAN"
    case IdxKind => "FSRCHIDX"
  }

  /** Section 2: magic, version 2, no flags, the body, its length and checksum, `FSRF`. */
  ghost predicate EnvelopeTable(data: bytes, kind: Envelope.Kind, body: bytes, crc: nat) {
    && |data| == 32 + |body|
    && Ascii(data, 0, MagicOf(kind)) && Field(data, 8, 4, 2) && Field(data, 12, 4, 0)
    && HasAt(data, 16, body)
    && Field(data, |data| - 16, 8, |body|) && Field(data, |data| - 8, 4, crc) && Ascii(data, |data| - 4, "FSRF")
  }

  lemma {:induction false} SealedAsTabled(kind: Envelope.Kind, body: bytes, crc: bytes -> nat)
    requires |body| < U64 && crc(body) < U32
    ensures EnvelopeTable(Seal(kind, body, crc), kind, body, crc(body))
  {
    Widths();
    var data, at := Seal(kind, body, crc), 16 + |body|;
    hide LE, Pow256, Field, Ascii, MagicOf, Magic;
    var version, flags, len, sum := LE(FORMAT_VERSION, 4), LE(0, 4), LE(|body|, 8), LE(crc(body), 4);
    assert HasAt(data, 0, Magic(kind)) && HasAt(data, 8, version) && HasAt(data, 12, flags) && HasAt(data, 16, body)
           && HasAt(data, at, len) && HasAt(data, at + 8, sum) && HasAt(data, at + 12, FOOTER_MAGIC) by {
      SealParts(data, Magic(kind), version, flags, body, len, sum, FOOTER_MAGIC);
    }
    FieldOf(data, 8, 4, FORMAT_VERSION);
    FieldOf(data, 12, 4, 0);
    FieldOf(data, at, 8, |body|);
    FieldOf(data, at + 8, 4, crc(body));
    MagicsAre(data, 0, kind, at + 12);
  }

  lemma {:induction false} SealParts(data: bytes, a: bytes, b: bytes, c: bytes, body: bytes, d: bytes, e: bytes, f: bytes)
    requires data == (a + (b + c)) + (body + (d + (e + f)))
    ensures HasAt(data, 0, a) && HasAt(data, |a|, b) && HasAt(data, |a| + |b|, c) && HasAt(data, |a| + |b| + |c|, body)
    ensures var at := |a| + |b| + |c| + |body|; HasAt(data, at, d) && HasAt(data, at + |d|, e) && HasAt(data, at + |d| + |e|, f)
  {
    var head, tail := a + (b + c), body + (d + (e + f));
    assert HasAt(data, 0, head + tail) by { Itself(data); }
    hide HasAt;
    HasAtSplit(data, 0, head, tail);
    HasAtSplit(data, 0, a, b + c);
    HasAtSplit(data, |a|, b, c);
    assert |head| == |a| + |b| + |c|;
    PartsOfBody(data, body, d, e, f, |head|);
  }

  lemma {:induction false} Itself(data: bytes)
    ensures HasAt(data, 0, data)
  {
    assert data[0..|data|] == data;
  }

  lemma {:induction false} MagicsAre(data: bytes, at: nat, kind: Envelope.Kind, end: nat)
    requires HasAt(data, at, Magic(kind)) && HasAt(data, end, FOOTER_MAGIC)
    ensures Ascii(data, at, MagicOf(kind)) && Ascii(data, end, "FSRF")
  {
    MagicLetters(kind);
    hide Magic, MagicOf;
    AsciiAt(data, at, Magic(kind), MagicOf(kind));
    AsciiAt(data, end, FOOTER_MAGIC, "FSRF");
  }

  lemma {:induction false} MagicLetters(kind: Envelope.Kind)
    ensures |MagicOf(kind)| == 8 && forall i | 0 <= i < 8 :: Magic(kind)[i] == MagicOf(kind)[i] as int
  {
    match kind
    case ManifestKind =>
    case IdxKind =>
  }

  lemma {:induction false} AsciiAt(data: bytes, at: nat, w: bytes, s: string)
    requires HasAt(data, at, w) && |w| == |s| && forall i | 0 <= i < |s| :: w[i] == s[i] as int
    ensures Ascii(data, at, s)
  {
    forall i | 0 <= i < |s|
      ensures data[at + i] == s[i] as int
    {
      assert data[at..at + |w|][i] == w[i];
    }
  }

  // ----- The manifest -----

  /** Section 3: the 48-byte header. */
  ghost predicate HeaderTable(body: bytes, m: ManifestFile.Manifest) {
    && Field(body, 0, 8, m.generation) && Field(body, 8, 4, m.nextSegmentId) && Field(body, 12, 4, |m.segments|)
    && Field(body, 16, 8, (m.committed + U64) % U64)
    && Field(body, 24, 4, m.stateGen) && Field(body, 28, 4, m.stateCrc) && Field(body, 32, 8, m.stateLen) && Field(body, 40, 8, 0)
  }

  /** Section 3: an 80-byte segment entry. */
  ghost predicate EntryTable(body: bytes, at: nat, e: ManifestFile.SegmentEntry) {
    && Field(body, at, 4, e.segmentId) && Field(body, at + 4, 4, e.delGen) && Field(body, at + 8, 4, e.baseDoc)
    && Field(body, at + 12, 4, e.numDocs) && Field(body, at + 16, 4, e.numDeleted)
    && Field(body, at + 20, 4, e.idxCrc) && Field(body, at + 24, 4, e.docCrc) && Field(body, at + 28, 4, e.delCrc)
    && Field(body, at + 32, 8, e.idxLen) && Field(body, at + 40, 8, e.docLen) && Field(body, at + 48, 8, e.delLen)
    && Field(body, at + 56, 8, e.numTokens) && Field(body, at + 64, 8, e.numPostings) && Field(body, at + 72, 8, e.numTerms)
  }

  /** Field `k` of a record begins where the fields before it end. */
  lemma {:induction false} PackedAt(data: bytes, at: nat, values: seq<nat>, widths: seq<nat>, k: nat)
    requires FitWidths(values, widths) && HasAt(data, at, Packed(values, widths)) && k < |widths|
    ensures Field(data, at + Total(widths[..k]), widths[k], values[k])
    decreases k
  {
    HasAtSplit(data, at, LE(values[0], widths[0]), Packed(values[1..], widths[1..]));
    if k == 0 {
      FieldOf(data, at, widths[0], values[0]);
    } else {
      hide LE, HasAt, Field;
      PackedAt(data, at + widths[0], values[1..], widths[1..], k - 1);
      assert widths[..k][1..] == widths[1..][..k - 1];
    }
  }

  const HEADER_STARTS: seq<nat> := [0, 8, 12, 16, 24, 28, 32, 40]
  const ENTRY_STARTS: seq<nat> := [0, 4, 8, 12, 16, 20, 24, 28, 32, 40, 48, 56, 64, 72]

  /** `starts` are the offsets of fields of these widths. */
  ghost predicate Offsets(starts: seq<nat>, widths: seq<nat>) {
    && |starts| == |widths| && (starts != [] ==> starts[0] == 0)
    && forall j, k | 0 <= j < k < |widths| && k == j + 1 :: starts[k] == starts[j] + widths[j]
  }

  lemma {:induction false} StartsAre(starts: seq<nat>, widths: seq<nat>, k: nat)
    requires Offsets(starts, widths) && k < |widths|
    ensures Total(widths[..k]) == starts[k]
  {
    if k == 0 {
      assert widths[..k] == [];
    } else {
      StartsAre(starts, widths, k - 1);
      TotalSnoc(widths[..k - 1], widths[k - 1]);
      assert widths[..k] == widths[..k - 1] + [widths[k - 1]];
    }
  }

  lemma {:induction false} TotalSnoc(widths: seq<nat>, w: nat)
    ensures Total(widths + [w]) == Total(widths) + w
  {
    if widths == [] {
      assert ([] + [w])[1..] == [];
    } else {
      assert (widths + [w])[1..] == widths[1..] + [w];
      TotalSnoc(widths[1..], w);
    }
  }

  ghost predicate RecordAt(data: bytes, at: nat, values: seq<nat>, widths: seq<nat>) {
    FitWidths(values, widths) && HasAt(data, at, Packed(values, widths))
  }

  lemma {:induction false} RecordField(data: bytes, at: nat, values: seq<nat>, widths: seq<nat>, starts: seq<nat>, k: nat, start: nat, width: nat)
    requires RecordAt(data, at, values, widths) && Offsets(starts, widths) && k < |widths| == |values|
    requires starts[k] == start && widths[k] == width
    ensures Field(data, at + start, width, values[k])
  {
    hide Field, HasAt, Packed;
    PackedAt(data, at, values, widths, k);
    StartsAre(starts, widths, k);
  }

  lemma {:induction false} HeaderAsTabled(body: bytes, m: ManifestFile.Manifest)
    requires RecordAt(body, 0, ManifestFile.HeaderValues(m), ManifestFile.HEADER_WIDTHS)
    ensures HeaderTable(body, m)
  {
    var v, w, s := ManifestFile.HeaderValues(m), ManifestFile.HEADER_WIDTHS, HEADER_STARTS;
    hide Field, RecordAt;
    RecordField(body, 0, v, w, s, 0, 0, 8);
    RecordField(body, 0, v, w, s, 1, 8, 4);
    RecordField(body, 0, v, w, s, 2, 12, 4);
    RecordField(body, 0, v, w, s, 3, 16, 8);
    RecordField(body, 0, v, w, s, 4, 24, 4);
    RecordField(body, 0, v, w, s, 5, 28, 4);
    RecordField(body, 0, v, w, s, 6, 32, 8);
    RecordField(body, 0, v, w, s, 7, 40, 8);
  }

  lemma {:induction false} EntryAsTabled(body: bytes, at: nat, e: ManifestFile.SegmentEntry)
    requires RecordAt(body, at, e.Values(), ManifestFile.ENTRY_WIDTHS)
    ensures EntryTable(body, at, e)
  {
    var v := e.Values();
    hide Field, RecordAt;
    NarrowFields(body, at, v);
    WideFields(body, at, v);
  }

  lemma {:induction false} NarrowFields(body: bytes, at: nat, v: seq<nat>)
    requires |v| == 14 && RecordAt(body, at, v, ManifestFile.ENTRY_WIDTHS)
    ensures Field(body, at, 4, v[0]) && Field(body, at + 4, 4, v[1]) && Field(body, at + 8, 4, v[2]) && Field(body, at + 12, 4, v[3])
    ensures Field(body, at + 16, 4, v[4]) && Field(body, at + 20, 4, v[5]) && Field(body, at + 24, 4, v[6]) && Field(body, at + 28, 4, v[7])
  {
    hide Field, RecordAt;
    var w, s := ManifestFile.ENTRY_WIDTHS, ENTRY_STARTS;
    RecordField(body, at, v, w, s, 0, 0, 4);
    RecordField(body, at, v, w, s, 1, 4, 4);
    RecordField(body, at, v, w, s, 2, 8, 4);
    RecordField(body, at, v, w, s, 3, 12, 4);
    RecordField(body, at, v, w, s, 4, 16, 4);
    RecordField(body, at, v, w, s, 5, 20, 4);
    RecordField(body, at, v, w, s, 6, 24, 4);
    RecordField(body, at, v, w, s, 7, 28, 4);
  }

  lemma {:induction false} WideFields(body: bytes, at: nat, v: seq<nat>)
    requires |v| == 14 && RecordAt(body, at, v, ManifestFile.ENTRY_WIDTHS)
    ensures Field(body, at + 32, 8, v[8]) && Field(body, at + 40, 8, v[9]) && Field(body, at + 48, 8, v[10])
    ensures Field(body, at + 56, 8, v[11]) && Field(body, at + 64, 8, v[12]) && Field(body, at + 72, 8, v[13])
  {
    hide Field, RecordAt;
    var w, s := ManifestFile.ENTRY_WIDTHS, ENTRY_STARTS;
    RecordField(body, at, v, w, s, 8, 32, 8);
    RecordField(body, at, v, w, s, 9, 40, 8);
    RecordField(body, at, v, w, s, 10, 48, 8);
    RecordField(body, at, v, w, s, 11, 56, 8);
    RecordField(body, at, v, w, s, 12, 64, 8);
    RecordField(body, at, v, w, s, 13, 72, 8);
  }

  /** The manifest's body: its header, and its entries 80 bytes apart. */
  lemma {:induction false} ManifestAsTabled(m: ManifestFile.Manifest)
    requires ManifestFile.Fits(m)
    ensures var body := ManifestFile.Body(m);
      |body| == 48 + 80 * |m.segments| && HeaderTable(body, m) && forall i: nat | i < |m.segments| :: EntryTable(body, 48 + 80 * i, m.segments[i])
  {
    var body := ManifestFile.Body(m);
    hide HeaderTable, EntryTable, ManifestFile.Body, ManifestFile.HeaderValues, ManifestFile.Entries, Packed, HasAt, FitWidths, Total, Pow256;
    ManifestFile.BodyParts(m);
    ManifestFile.HeaderFits(m);
    HeaderAsTabled(body, m);
    forall i: nat | i < |m.segments|
      ensures EntryTable(body, 48 + 80 * i, m.segments[i])
    {
      var values := m.segments[i].Values();
      ManifestFile.EntriesHave(m.segments, i);
      HasAtInside(body, 48, ManifestFile.Entries(m.segments), 80 * i, Packed(values, ManifestFile.ENTRY_WIDTHS));
      EntryAsTabled(body, 48 + 80 * i, m.segments[i]);
    }
  }

  /** What a reader demands of a manifest: id ranges in ascending order that do not overlap, and no entry that contradicts itself. */
  ghost predicate ManifestChecks(m: ManifestFile.Manifest) {
    && (m.stateGen == 0 <==> m.stateLen == 0)
    && (forall e | e in m.segments ::
          && e.segmentId < m.nextSegmentId && e.baseDoc + e.numDocs <= 0x1_0000_0000
          && (e.delGen == 0 <==> e.delLen == 0) && e.numDeleted <= e.numDocs)
    && (forall j, k | 0 <= j < k < |m.segments| ::
          && m.segments[j].baseDoc + m.segments[j].numDocs <= m.segments[k].baseDoc
          && (k == j + 1 ==> m.segments[j].segmentId != m.segments[k].segmentId))
  }

  /** Those are exactly the manifests whose files the decoder accepts. */
  lemma {:induction false} SoundIff(m: ManifestFile.Manifest)
    ensures ManifestFile.Sound(m) <==> ManifestChecks(m)
  {
    if ManifestFile.Sound(m) {
      forall j, k | 0 <= j < k < |m.segments|
        ensures m.segments[j].baseDoc + m.segments[j].numDocs <= m.segments[k].baseDoc
      {
        RangesAscend(m, j, k);
      }
      forall k: nat | 0 < k < |m.segments|
        ensures m.segments[k - 1].segmentId != m.segments[k].segmentId
      {
        assert ManifestFile.Follows(m.segments[k - 1], m.segments[k]);
      }
    }
    if ManifestChecks(m) {
      forall k | 0 <= k < |m.segments|
        ensures ManifestFile.EntrySound(m.segments[k], m.nextSegmentId)
      {
        assert m.segments[k] in m.segments;
      }
    }
  }

  lemma {:induction false} RangesAscend(m: ManifestFile.Manifest, j: nat, k: nat)
    requires ManifestFile.Sound(m) && j < k < |m.segments|
    ensures m.segments[j].baseDoc + m.segments[j].numDocs <= m.segments[k].baseDoc
  {
    assert ManifestFile.Follows(m.segments[k - 1], m.segments[k]);
    if j < k - 1 {
      RangesAscend(m, j, k - 1);
    }
  }

  // ----- The term file -----

  /** Section 4.1. */
  ghost predicate TocTable(data: bytes, at: nat, t: Toc) {
    && Field(data, at, 8, t.postingsOff) && Field(data, at + 8, 8, t.postingsLen)
    && Field(data, at + 16, 8, t.dictOff) && Field(data, at + 24, 8, t.dictLen)
    && Field(data, at + 32, 8, t.sparseOff) && Field(data, at + 40, 8, t.sparseLen)
    && Field(data, at + 48, 8, t.numTerms) && Field(data, at + 56, 4, t.numBlocks) && Field(data, at + 60, 4, t.blockSize)
  }

  /** Section 4: postings, dictionary and sparse index one after another from offset 16, the table of contents last, then the footer. */
  ghost predicate IdxTable(file: bytes, ts: seq<DictTerm>, postings: bytes, dict: bytes, sparse: bytes) {
    var d, s, t := 16 + |postings|, 16 + |postings| + |dict|, 16 + |postings| + |dict| + |sparse|;
    && |file| == t + 64 + 16
    && HasAt(file, 16, postings) && HasAt(file, d, dict) && HasAt(file, s, sparse)
    && TocTable(file, t, Toc(16, |postings|, d, |dict|, s, |sparse|, |ts|, (|ts| + 63) / 64, 64))
  }

  lemma {:induction false} OneField(data: bytes, at: nat, v: nat, n: nat, rest: bytes)
    requires HasAt(data, at, LE(v, n) + rest) && v < Pow256(n)
    ensures Field(data, at, n, v) && HasAt(data, at + n, rest)
  {
    HasAtSplit(data, at, LE(v, n), rest);
    FieldOf(data, at, n, v);
  }

  lemma {:induction false} TocAsTabled(data: bytes, at: nat, t: Toc)
    requires FitsToc(t) && HasAt(data, at, TocBytes(t))
    ensures TocTable(data, at, t)
  {
    Widths();
    hide LE, Pow256, Field, HasAt;
    var f8 := LE(t.numBlocks, 4) + LE(t.blockSize, 4);
    var f7 := LE(t.numTerms, 8) + f8;
    var f6 := LE(t.sparseLen, 8) + f7;
    var f5 := LE(t.sparseOff, 8) + f6;
    var f4 := LE(t.dictLen, 8) + f5;
    var f3 := LE(t.dictOff, 8) + f4;
    var f2 := LE(t.postingsLen, 8) + f3;
    OneField(data, at, t.postingsOff, 8, f2);
    OneField(data, at + 8, t.postingsLen, 8, f3);
    OneField(data, at + 16, t.dictOff, 8, f4);
    OneField(data, at + 24, t.dictLen, 8, f5);
    OneField(data, at + 32, t.sparseOff, 8, f6);
    OneField(data, at + 40, t.sparseLen, 8, f7);
    OneField(data, at + 48, t.numTerms, 8, f8);
    OneField(data, at + 56, t.numBlocks, 4, LE(t.blockSize, 4));
    assert LE(t.blockSize, 4) + [] == LE(t.blockSize, 4);
    OneField(data, at + 60, t.blockSize, 4, []);
  }

  lemma {:induction false} RegionsStand(file: bytes, ts: seq<DictTerm>, p: bytes, d: bytes, s: bytes, toc: Toc)
    requires HasAt(file, 16, p + (d + (s + TocBytes(toc)))) && |file| == 16 + |p| + |d| + |s| + 64 + 16 && FitsToc(toc)
    requires toc == Toc(16, |p|, 16 + |p|, |d|, 16 + |p| + |d|, |s|, |ts|, (|ts| + 63) / 64, 64)
    ensures IdxTable(file, ts, p, d, s)
  {
    hide TocBytes, HasAt, FitsToc, TocTable;
    PartsOfBody(file, p, d, s, TocBytes(toc), 16);
    TocAsTabled(file, 16 + |p| + |d| + |s|, toc);
  }

  lemma {:induction false} RegionsAsTabled(file: bytes, ts: seq<DictTerm>)
    requires FitsFile(ts) && |file| == 32 + |TermDict.Body(ts)| && HasAt(file, 16, TermDict.Body(ts))
    ensures IdxTable(file, ts, PostingsRegion(ts), Dict(ts), Sparse(ts))
  {
    hide TocBytes, HasAt, Dict, PostingsRegion, Sparse, SparseOffsets, FitsToc, FitsFile, Tiles, TocOf, IdxTable;
    TocFits(ts);
    TocIs(ts);
    RegionsStand(file, ts, PostingsRegion(ts), Dict(ts), Sparse(ts), TocOf(ts));
  }

  lemma {:induction false} TocIs(ts: seq<DictTerm>)
    ensures var p, d, s := |PostingsRegion(ts)|, |Dict(ts)|, |Sparse(ts)|;
      TocOf(ts) == Toc(16, p, 16 + p, d, 16 + p + d, s, |ts|, (|ts| + 63) / 64, 64)
  {
    BlockCount(ts);
    hide Dict, PostingsRegion, Sparse, SparseOffsets;
  }

  /** A written file. */
  lemma {:induction false} IdxAsTabled(ts: seq<DictTerm>, crc: bytes -> nat)
    requires FitsFile(ts) && crc(TermDict.Body(ts)) < U32
    ensures EnvelopeTable(File(ts, crc), IdxKind, TermDict.Body(ts), crc(TermDict.Body(ts)))
    ensures IdxTable(File(ts, crc), ts, PostingsRegion(ts), Dict(ts), Sparse(ts))
  {
    var body := TermDict.Body(ts);
    BodyFits(ts);
    assert File(ts, crc) == Seal(IdxKind, body, crc);
    hide File, Seal, HasAt, TermDict.Body, FitsFile, Field, Ascii, IdxTable;
    SealedAsTabled(IdxKind, body, crc);
    RegionsAsTabled(Seal(IdxKind, body, crc), ts);
  }

  lemma {:induction false} SpelledValue(w: bytes, v: nat)
    ensures Spelled(w, v) <==> FromLE(w) == v
  {
    if FromLE(w) == v {
      LEOf(w);
      var q := LEQuotients(v, |w|);
    }
    if q :| Quotients(q, w, v) {
      QuotientsValue(q, w, v);
    }
  }

  lemma {:induction false} QuotientsValue(q: seq<nat>, w: bytes, v: nat)
    requires Quotients(q, w, v)
    ensures FromLE(w) == v
  {
    if w != [] {
      var rest := q[1..];
      forall i | 0 <= i < |w| - 1
        ensures rest[i] == w[1..][i] + 256 * rest[i + 1]
      {
        assert q[i + 1] == w[i + 1] + 256 * q[i + 2];
      }
      QuotientsValue(rest, w[1..], q[1]);
    }
  }

  /** The regions fill the body without a gap, and there is an offset for each block of 64 terms. */
  predicate RegionsTile(t: Toc, bodyEnd: nat) {
    && t.postingsOff == 16 && t.dictOff == 16 + t.postingsLen && t.sparseOff == 16 + t.postingsLen + t.dictLen
    && 16 + t.postingsLen + t.dictLen + t.sparseLen + 64 == bodyEnd
    && t.blockSize == 64 && t.numBlocks == (t.numTerms + 63) / 64 && 4 * t.numBlocks <= t.sparseLen
  }

  /** A file opens exactly if its envelope parses and its last 64 bytes are a table of contents whose regions tile it. */
  lemma {:induction false} OpensIff(data: bytes, v: IdxView)
    ensures ParseView(data) == Success(v)
            <==> && Parse(IdxKind, data) == Success(Env(v.bodyEnd, v.crc)) && v.data == data && v.bodyEnd >= 16 + 64
                 && TocTable(data, v.bodyEnd - 64, v.toc) && RegionsTile(v.toc, v.bodyEnd)
  {
    hide Parse, Field, FromLE;
    match Parse(IdxKind, data)
    case Failure(_) =>
    case Success(env) =>
      if env.bodyEnd >= 16 + 64 {
        TocReads(data, env.bodyEnd - 64, v.toc);
        assert data[env.bodyEnd - TOC_LEN..env.bodyEnd] == data[env.bodyEnd - 64..env.bodyEnd - 64 + 64];
      }
  }

  lemma {:induction false} FieldReads(data: bytes, at: nat, i: nat, n: nat, v: nat)
    requires at + 64 <= |data| && i + n <= 64
    ensures Field(data, at + i, n, v) <==> FromLE(data[at..at + 64][i..i + n]) == v
  {
    SubSlice(data, at, at + 64, i, i + n);
    SpelledValue(data[at + i..at + i + n], v);
    hide FromLE, Spelled;
  }

  lemma {:induction false} TocReads(data: bytes, at: nat, t: Toc)
    requires at + 64 <= |data|
    ensures TocTable(data, at, t) <==> DecodeToc(data[at..at + 64]) == t
  {
    hide Field, FromLE;
    FieldReads(data, at, 0, 8, t.postingsOff);
    FieldReads(data, at, 8, 8, t.postingsLen);
    FieldReads(data, at, 16, 8, t.dictOff);
    FieldReads(data, at, 24, 8, t.dictLen);
    FieldReads(data, at, 32, 8, t.sparseOff);
    FieldReads(data, at, 40, 8, t.sparseLen);
    FieldReads(data, at, 48, 8, t.numTerms);
    FieldReads(data, at, 56, 4, t.numBlocks);
    FieldReads(data, at, 60, 4, t.blockSize);
  }

  // ----- Posting lists -----

  /** What is written for the `k`-th number: how much further it is than the one before. */
  function Step(vs: seq<nat>, k: nat): int
    requires k < |vs|
  {
    var from: int := if k == 0 then 0 else vs[k - 1];
    vs[k] - from
  }

  ghost predicate StepAt(data: bytes, at: nat, vs: seq<nat>, k: nat, next: nat)
    requires k < |vs|
  {
    Step(vs, k) >= 0 && VarintAt(data, at, Step(vs, k), next)
  }

  /** Numbers as varint steps, one after another: number `k` between `cuts[k]` and `cuts[k + 1]`. */
  ghost predicate StepsAt(data: bytes, cuts: seq<nat>, vs: seq<nat>) {
    |cuts| == |vs| + 1 && forall k: nat | k < |vs| :: StepAt(data, cuts[k], vs, k, cuts[k + 1])
  }

  /** Section 4.2, one document: its step, how many positions, how many bytes they take, and they. */
  ghost predicate PostingAt(data: bytes, at: nat, list: PostingList, k: nat, end: nat)
    requires k < |list|
  {
    exists tf, len, cuts :: PostingParts(data, at, list, k, tf, len, cuts, end)
  }

  ghost predicate PostingParts(data: bytes, at: nat, list: PostingList, k: nat, tf: nat, len: nat, cuts: seq<nat>, end: nat)
    requires k < |list|
  {
    var positions := list[k].positions;
    && StepAt(data, at, DocIds(list), k, tf) && VarintAt(data, tf, |positions|, len)
    && StepsAt(data, cuts, positions) && cuts[0] <= end == cuts[|positions|] && VarintAt(data, len, end - cuts[0], cuts[0])
  }

  /** Section 4.2: how many documents, then each, between `cuts[k]` and `cuts[k + 1]`. */
  ghost predicate ListTable(data: bytes, at: nat, list: PostingList, cuts: seq<nat>) {
    && |cuts| == |list| + 1 && VarintAt(data, at, |list|, cuts[0])
    && forall k: nat | k < |list| :: PostingAt(data, cuts[k], list, k, cuts[k + 1])
  }

  function DocIds(list: PostingList): (ids: seq<nat>)
    ensures |ids| == |list| && forall k | 0 <= k < |list| :: ids[k] == list[k].doc
  {
    seq(|list|, k requires 0 <= k < |list| => list[k].doc)
  }

  function Before(vs: seq<nat>, k: nat): Option<nat>
    requires k <= |vs|
  {
    if k == 0 then None else Some(vs[k - 1])
  }

  lemma {:induction false} PositionsStand(data: bytes, at: nat, vs: seq<nat>, k: nat) returns (cuts: seq<nat>)
    requires k <= |vs| && Ascending(vs) && HasAt(data, at, PositionBytes(Before(vs, k), vs[k..]))
    ensures |cuts| == |vs| - k + 1 && cuts[0] == at && cuts[|vs| - k] == at + |PositionBytes(Before(vs, k), vs[k..])|
    ensures forall j: nat | j < |vs| - k :: StepAt(data, cuts[j], vs, k + j, cuts[j + 1])
    decreases |vs| - k
  {
    hide VarintAt, Varint, HasAt, StepAt;
    if k == |vs| {
      cuts := [at];
    } else {
      var step, rest := Varint(Delta(Before(vs, k), vs[k])), PositionBytes(Before(vs, k + 1), vs[k + 1..]);
      assert PositionBytes(Before(vs, k), vs[k..]) == step + rest by { assert vs[k..][1..] == vs[k + 1..]; }
      HasAtSplit(data, at, step, rest);
      StepStands(data, at, vs, k);
      hide PositionBytes;
      var more := PositionsStand(data, at + |step|, vs, k + 1);
      cuts := [at] + more;
      forall j: nat | j < |vs| - k
        ensures StepAt(data, cuts[j], vs, k + j, cuts[j + 1])
      {
        if j > 0 {
          assert StepAt(data, more[j - 1], vs, k + 1 + (j - 1), more[j - 1 + 1]);
        }
      }
    }
  }

  lemma {:induction false} StepStands(data: bytes, at: nat, vs: seq<nat>, k: nat)
    requires k < |vs| && Ascending(vs) && HasAt(data, at, Varint(Delta(Before(vs, k), vs[k])))
    ensures StepAt(data, at, vs, k, at + |Varint(Delta(Before(vs, k), vs[k]))|)
  {
    hide VarintAt, Varint;
    VarintStands(data, at, Delta(Before(vs, k), vs[k]));
  }

  lemma {:induction false} StepsStand(data: bytes, at: nat, vs: seq<nat>) returns (cuts: seq<nat>)
    requires Ascending(vs) && HasAt(data, at, PositionBytes(None, vs))
    ensures StepsAt(data, cuts, vs) && cuts[0] == at && cuts[|vs|] == at + |PositionBytes(None, vs)|
  {
    hide StepAt, HasAt, PositionBytes;
    assert vs[0..] == vs;
    cuts := PositionsStand(data, at, vs, 0);
    assert forall j: nat | j < |vs| :: StepAt(data, cuts[j], vs, 0 + j, cuts[j + 1]);
  }

  lemma {:induction false} PostingStands(data: bytes, at: nat, list: PostingList, k: nat)
    requires k < |list| && ValidList(list) && HasAt(data, at, PostingBytes(Before(DocIds(list), k), list[k]))
    ensures PostingAt(data, at, list, k, at + |PostingBytes(Before(DocIds(list), k), list[k])|)
  {
    hide VarintAt, Varint, HasAt, PositionBytes, StepsAt, StepAt, Before, PostingBytes, Delta, PostingAt, Ascending;
    var ids, p := DocIds(list), list[k];
    assert Ascending(ids) by { IdsAscend(list); }
    assert Ascending(p.positions);
    var step, positions := Varint(Delta(Before(ids, k), p.doc)), PositionBytes(None, p.positions);
    PostingSplit(data, at, Before(ids, k), p, step, positions);
    PartsStand(data, at, list, k, step, positions);
  }

  lemma {:induction false} IdsAscend(list: PostingList)
    requires ValidList(list)
    ensures Ascending(DocIds(list))
  {
  }

  lemma {:induction false} PartsStand(data: bytes, at: nat, list: PostingList, k: nat, step: bytes, positions: bytes)
    requires k < |list| && Ascending(DocIds(list)) && Ascending(list[k].positions)
    requires step == Varint(Delta(Before(DocIds(list), k), DocIds(list)[k])) && positions == PositionBytes(None, list[k].positions)
    requires var b, c := Varint(|list[k].positions|), Varint(|positions|);
      && HasAt(data, at, step) && HasAt(data, at + |step|, b) && HasAt(data, at + |step| + |b|, c)
      && HasAt(data, at + |step| + |b| + |c|, positions)
    ensures PostingAt(data, at, list, k, at + |step| + |Varint(|list[k].positions|)| + |Varint(|positions|)| + |positions|)
  {
    hide VarintAt, Varint, HasAt, PositionBytes, StepsAt, StepAt, Before, Delta, PostingAt, Ascending, DocIds;
    var ps := list[k].positions;
    var b, c := Varint(|ps|), Varint(|positions|);
    StepStands(data, at, DocIds(list), k);
    VarintStands(data, at + |step|, |ps|);
    VarintStands(data, at + |step| + |b|, |positions|);
    var cuts := StepsStand(data, at + |step| + |b| + |c|, ps);
    PartsMake(data, at, list, k, at + |step|, at + |step| + |b|, cuts, at + |step| + |b| + |c| + |positions|);
  }

  lemma {:induction false} PartsMake(data: bytes, at: nat, list: PostingList, k: nat, tf: nat, len: nat, cuts: seq<nat>, end: nat)
    requires k < |list| && StepAt(data, at, DocIds(list), k, tf) && VarintAt(data, tf, |list[k].positions|, len)
    requires StepsAt(data, cuts, list[k].positions) && cuts[0] <= end == cuts[|list[k].positions|] && VarintAt(data, len, end - cuts[0], cuts[0])
    ensures PostingAt(data, at, list, k, end)
  {
    hide StepAt, VarintAt, StepsAt, DocIds;
    assert PostingParts(data, at, list, k, tf, len, cuts, end);
  }

  lemma {:induction false} PostingSplit(data: bytes, at: nat, prev: Option<DocId>, p: Posting, step: bytes, positions: bytes)
    requires HasAt(data, at, PostingBytes(prev, p)) && step == Varint(Delta(prev, p.doc)) && positions == PositionBytes(None, p.positions)
    ensures var b, c := Varint(|p.positions|), Varint(|positions|);
      && HasAt(data, at, step) && HasAt(data, at + |step|, b) && HasAt(data, at + |step| + |b|, c)
      && HasAt(data, at + |step| + |b| + |c|, positions) && |PostingBytes(prev, p)| == |step| + |b| + |c| + |positions|
  {
    hide Varint, HasAt, PositionBytes, Delta;
    PartsOfBody(data, step, Varint(|p.positions|), Varint(|positions|), positions, at);
  }

  lemma {:induction false} PostingsStand(data: bytes, at: nat, list: PostingList, k: nat) returns (cuts: seq<nat>)
    requires k <= |list| && ValidList(list) && HasAt(data, at, ListBytes(Before(DocIds(list), k), list[k..]))
    ensures |cuts| == |list| - k + 1 && cuts[0] == at && cuts[|list| - k] == at + |ListBytes(Before(DocIds(list), k), list[k..])|
    ensures forall j: nat | j < |list| - k :: PostingAt(data, cuts[j], list, k + j, cuts[j + 1])
    decreases |list| - k
  {
    hide HasAt, PostingAt, PostingBytes, ValidList;
    var ids := DocIds(list);
    if k == |list| {
      cuts := [at];
    } else {
      var one, rest := PostingBytes(Before(ids, k), list[k]), ListBytes(Before(ids, k + 1), list[k + 1..]);
      assert ListBytes(Before(ids, k), list[k..]) == one + rest by { assert list[k..][1..] == list[k + 1..]; }
      HasAtSplit(data, at, one, rest);
      PostingStands(data, at, list, k);
      hide ListBytes;
      var more := PostingsStand(data, at + |one|, list, k + 1);
      cuts := [at] + more;
      forall j: nat | j < |list| - k
        ensures PostingAt(data, cuts[j], list, k + j, cuts[j + 1])
      {
        if j > 0 {
          assert PostingAt(data, more[j - 1], list, k + 1 + (j - 1), more[j - 1 + 1]);
        }
      }
    }
  }

  /** An encoded list, wherever it stands. */
  lemma {:induction false} ListAsTabled(data: bytes, at: nat, list: PostingList) returns (cuts: seq<nat>)
    requires ValidList(list) && HasAt(data, at, Encoded(list))
    ensures ListTable(data, at, list, cuts) && cuts[|list|] == at + |Encoded(list)|
  {
    hide HasAt, PostingAt, ListBytes, Varint, VarintAt, ValidList;
    HasAtSplit(data, at, Varint(|list|), ListBytes(None, list));
    VarintStands(data, at, |list|);
    assert list[0..] == list;
    cuts := PostingsStand(data, at + |Varint(|list|)|, list, 0);
    assert forall j: nat | j < |list| :: PostingAt(data, cuts[j], list, 0 + j, cuts[j + 1]);
  }

  // ----- The dictionary -----

  /** Section 4.3: bytes shared with the term before, the rest, how many documents, how many bytes of postings. */
  ghost predicate EntryAt(data: bytes, at: nat, prev: Term, e: DictTerm, end: nat) {
    exists shared, suffix, df, len :: EntryParts(data, at, prev, e, shared, suffix, df, len, end)
  }

  ghost predicate EntryParts(data: bytes, at: nat, prev: Term, e: DictTerm, shared: nat, suffix: nat, df: nat, len: nat, end: nat) {
    && Shares(prev, e.term, shared)
    && (exists mid :: VarintAt(data, at, shared, mid) && VarintAt(data, mid, |e.term| - shared, suffix))
    && HasAt(data, suffix, e.term[shared..]) && df == suffix + |e.term| - shared
    && VarintAt(data, df, |e.list|, len) && VarintAt(data, len, |Encoded(e.list)|, end)
  }

  /** `n` is how many bytes the two have in common, and no more. */
  predicate Shares(a: bytes, b: bytes, n: nat) {
    n <= |a| && n <= |b| && a[..n] == b[..n] && (n == |a| || n == |b| || a[n] != b[n])
  }

  /** Entry `k` between `cuts[k]` and `cuts[k + 1]`, coded against the term before it in its block of 64. */
  ghost predicate DictTable(data: bytes, ts: seq<DictTerm>, cuts: seq<nat>) {
    && |cuts| == |ts| + 1
    && forall k: nat | k < |ts| :: EntryAt(data, cuts[k], if k % 64 == 0 then [] else ts[k - 1].term, ts[k], cuts[k + 1])
  }

  lemma {:induction false} PrefixShared(a: bytes, b: bytes)
    ensures Shares(a, b, CommonPrefix(a, b))
  {
    if a != [] && b != [] && a[0] == b[0] {
      PrefixShared(a[1..], b[1..]);
      var n := CommonPrefix(a[1..], b[1..]);
      assert n + 1 < |a| ==> a[n + 1] == a[1..][n];
      assert n + 1 < |b| ==> b[n + 1] == b[1..][n];
    }
  }

  lemma {:induction false} EntryStands(data: bytes, at: nat, prev: Term, e: DictTerm)
    requires HasAt(data, at, EntryBytes(prev, e))
    ensures EntryAt(data, at, prev, e, at + |EntryBytes(prev, e)|)
  {
    PrefixShared(prev, e.term);
    hide VarintAt, Varint, HasAt, Encoded, CommonPrefix, Shares;
    var n := CommonPrefix(prev, e.term);
    var a, b, c := Varint(n), Varint(|e.term| - n), e.term[n..];
    var d, f := Varint(|e.list|), Varint(|Encoded(e.list)|);
    PartsOfBody(data, a, b, c, d + f, at);
    HasAtSplit(data, at + |a| + |b| + |c|, d, f);
    VarintStands(data, at, n);
    VarintStands(data, at + |a|, |e.term| - n);
    VarintStands(data, at + |a| + |b| + |c|, |e.list|);
    VarintStands(data, at + |a| + |b| + |c| + |d|, |Encoded(e.list)|);
    assert EntryParts(data, at, prev, e, n, at + |a| + |b|, at + |a| + |b| + |c|, at + |a| + |b| + |c| + |d|, at + |EntryBytes(prev, e)|);
  }

  lemma {:induction false} DictAsTabled(data: bytes, at: nat, ts: seq<DictTerm>) returns (cuts: seq<nat>)
    requires HasAt(data, at, Dict(ts))
    ensures DictTable(data, ts, cuts) && forall k: nat | k <= |ts| :: cuts[k] == at + |Dict(ts[..k])|
  {
    hide HasAt, EntryBytes, EntryAt, Dict;
    if ts == [] {
      cuts := [at];
      assert ts[..0] == ts && |Dict(ts)| == 0 by { EmptyDict(); }
    } else {
      var front, e := ts[..|ts| - 1], ts[|ts| - 1];
      var last := EntryBytes(PrevTerm(front), e);
      DictMore(ts);
      HasAtSplit(data, at, Dict(front), last);
      var before := DictAsTabled(data, at, front);
      assert front[..|front|] == front && before[|front|] == at + |Dict(front)|;
      EntryStands(data, at + |Dict(front)|, PrevTerm(front), e);
      cuts := before + [at + |Dict(ts)|];
      forall k: nat | k < |ts|
        ensures EntryAt(data, cuts[k], if k % 64 == 0 then [] else ts[k - 1].term, ts[k], cuts[k + 1])
      {
        if k < |front| {
          assert EntryAt(data, before[k], if k % 64 == 0 then [] else front[k - 1].term, front[k], before[k + 1]);
        }
      }
      forall k: nat | k <= |ts|
        ensures cuts[k] == at + |Dict(ts[..k])|
      {
        if k <= |front| {
          assert front[..k] == ts[..k];
        } else {
          assert ts[..k] == ts;
        }
      }
    }
  }

  lemma {:induction false} EmptyDict()
    ensures |Dict([])| == 0
  {
  }

  lemma {:induction false} DictMore(ts: seq<DictTerm>)
    requires ts != []
    ensures var front := ts[..|ts| - 1]; Dict(ts) == Dict(front) + EntryBytes(PrevTerm(front), ts[|ts| - 1])
  {
    hide EntryBytes;
  }

  // ----- The sparse index -----

  /** Section 4.4: the first term of a block, where the block begins, and where its postings do. */
  ghost predicate SparseEntryAt(data: bytes, at: nat, first: Term, blockOff: nat, postingsOff: nat) {
    exists term, end :: SparseParts(data, at, first, blockOff, postingsOff, term, end)
  }

  ghost predicate SparseParts(data: bytes, at: nat, first: Term, blockOff: nat, postingsOff: nat, term: nat, end: nat) {
    && VarintAt(data, at, |first|, term) && HasAt(data, term, first)
    && exists mid :: VarintAt(data, term + |first|, blockOff, mid) && VarintAt(data, mid, postingsOff, end)
  }

  /** Section 4.4: an offset of four bytes for each block, then an entry at each offset. */
  ghost predicate SparseTable(data: bytes, at: nat, ts: seq<DictTerm>) {
    var blocks := (|ts| + 63) / 64;
    BlocksAt(data, at, at + 4 * blocks, ts, blocks)
  }

  ghost predicate BlocksAt(data: bytes, offsets: nat, entries: nat, ts: seq<DictTerm>, blocks: nat) {
    forall b: nat | b < blocks :: BlockAt(data, offsets, entries, ts, b)
  }

  ghost predicate BlockAt(data: bytes, offsets: nat, entries: nat, ts: seq<DictTerm>, b: nat) {
    64 * b < |ts| && exists off :: BlockRow(data, offsets, entries, ts, b, off)
  }

  ghost predicate BlockRow(data: bytes, offsets: nat, entries: nat, ts: seq<DictTerm>, b: nat, off: nat)
    requires 64 * b < |ts|
  {
    && Field(data, offsets + 4 * b, 4, off)
    && SparseEntryAt(data, entries + off, ts[64 * b].term, |Dict(ts[..64 * b])|, |PostingsRegion(ts[..64 * b])|)
  }

  lemma {:induction false} SparseStands(data: bytes, at: nat, before: seq<DictTerm>, first: Term)
    requires HasAt(data, at, SparseBytes(before, first))
    ensures SparseEntryAt(data, at, first, |Dict(before)|, |PostingsRegion(before)|)
  {
    hide VarintAt, Varint, HasAt, Dict, PostingsRegion;
    var a, c, d := Varint(|first|), Varint(|Dict(before)|), Varint(|PostingsRegion(before)|);
    PartsOfBody(data, a, first, c, d, at);
    VarintStands(data, at, |first|);
    VarintStands(data, at + |a| + |first|, |Dict(before)|);
    VarintStands(data, at + |a| + |first| + |c|, |PostingsRegion(before)|);
    assert SparseParts(data, at, first, |Dict(before)|, |PostingsRegion(before)|, at + |a|, at + |a| + |first| + |c| + |d|);
  }

  lemma {:induction false} SparseAsTabled(data: bytes, at: nat, ts: seq<DictTerm>)
    requires HasAt(data, at, Sparse(ts)) && FitsFile(ts)
    ensures SparseTable(data, at, ts)
  {
    hide HasAt, Dict, PostingsRegion, SparseEntries, SparseOffsets, OffsetBytes, SparseBytes, BlockAt, FitsFile;
    BlockCount(ts);
    OffsetsLen(SparseOffsets(ts));
    HasAtSplit(data, at, OffsetBytes(SparseOffsets(ts)), SparseEntries(ts));
    var blocks := |SparseOffsets(ts)|;
    var entries := at + 4 * blocks;
    forall b: nat | b < blocks
      ensures BlockAt(data, at, entries, ts, b)
    {
      BlockStands(data, at, entries, ts, b);
    }
  }

  lemma {:induction false} BlockStands(data: bytes, offsets: nat, entries: nat, ts: seq<DictTerm>, b: nat)
    requires b < |SparseOffsets(ts)| && FitsFile(ts)
    requires HasAt(data, offsets, OffsetBytes(SparseOffsets(ts))) && HasAt(data, entries, SparseEntries(ts))
    ensures BlockAt(data, offsets, entries, ts, b)
  {
    hide HasAt, Dict, PostingsRegion, SparseEntries, SparseOffsets, OffsetBytes, SparseBytes, SparseEntryAt, Field, LE, Pow256, FitsFile;
    SparseAt(ts, b);
    Widths();
    var off := SparseOffsets(ts)[b];
    OffsetFits(ts, b);
    OffsetAt(SparseOffsets(ts), b);
    HasAtInside(data, offsets, OffsetBytes(SparseOffsets(ts)), 4 * b, LE(off, 4));
    FieldOf(data, offsets + 4 * b, 4, off);
    HasAtInside(data, entries, SparseEntries(ts), off, SparseBytes(ts[..64 * b], ts[64 * b].term));
    SparseStands(data, entries + off, ts[..64 * b], ts[64 * b].term);
    assert BlockRow(data, offsets, entries, ts, b, off);
  }

  lemma {:induction false} OffsetFits(ts: seq<DictTerm>, b: nat)
    requires FitsFile(ts) && b < |SparseOffsets(ts)|
    ensures SparseOffsets(ts)[b] < U32
  {
    hide SparseBytes;
    SparseAt(ts, b);
  }
}
