/**
 The manifest's bytes: what is written for a committed index, and exactly which
 files decode (src/format/manifest.rs).
 */
module ManifestFile {
  import opened Wrappers
  import opened Documents
  import opened Bytes
  import opened Fields
  import opened Envelope

  const HEADER_WIDTHS: seq<nat> := [8, 4, 4, 8, 4, 4, 8, 8]
  const ENTRY_WIDTHS: seq<nat> := [4, 4, 4, 4, 4, 4, 4, 4, 8, 8, 8, 8, 8, 8]

  const BODY_HEADER_LEN := 48
  const ENTRY_LEN := 80

  /** Where the `i`-th entry starts, and where a body of `i` entries ends. */
  function EntryOffset(i: nat): nat {
    48 + 80 * i
  }

  lemma {:induction false} TotalFrom(widths: seq<nat>, k: nat)
    requires k < |widths|
    ensures Total(widths[k..]) == widths[k] + Total(widths[k + 1..])
  {
    assert widths[k..][1..] == widths[k + 1..];
  }

  lemma {:induction false} TotalEnd(widths: seq<nat>)
    ensures Total(widths[|widths|..]) == 0 && widths[0..] == widths
  {
  }

  lemma {:induction false} HeaderLength()
    ensures Total(HEADER_WIDTHS) == BODY_HEADER_LEN
  {
    hide Total;
    var w := HEADER_WIDTHS;
    TotalEnd(w);
    TotalFrom(w, 7);
    TotalFrom(w, 6);
    TotalFrom(w, 5);
    TotalFrom(w, 4);
    TotalFrom(w, 3);
    TotalFrom(w, 2);
    TotalFrom(w, 1);
    TotalFrom(w, 0);
  }

  lemma {:induction false} EntryLength()
    ensures Total(ENTRY_WIDTHS) == ENTRY_LEN
  {
    hide Total;
    var w := ENTRY_WIDTHS;
    TotalEnd(w);
    TotalFrom(w, 13);
    TotalFrom(w, 12);
    TotalFrom(w, 11);
    TotalFrom(w, 10);
    TotalFrom(w, 9);
    TotalFrom(w, 8);
    TotalFrom(w, 7);
    TotalFrom(w, 6);
    TotalFrom(w, 5);
    TotalFrom(w, 4);
    TotalFrom(w, 3);
    TotalFrom(w, 2);
    TotalFrom(w, 1);
    TotalFrom(w, 0);
  }

  /** 48 bytes of header, 80 for each entry. */
  lemma {:induction false} RecordLengths()
    ensures Total(HEADER_WIDTHS) == BODY_HEADER_LEN && Total(ENTRY_WIDTHS) == ENTRY_LEN
  {
    hide Total;
    HeaderLength();
    EntryLength();
  }

  datatype SegmentEntry = SegmentEntry(
    segmentId: nat, delGen: nat, baseDoc: nat, numDocs: nat, numDeleted: nat,
    idxCrc: nat, docCrc: nat, delCrc: nat,
    idxLen: nat, docLen: nat, delLen: nat,
    numTokens: nat, numPostings: nat, numTerms: nat)
  {
    function EndDoc(): nat { baseDoc + numDocs }

    function Values(): (v: seq<nat>)
      ensures |v| == |ENTRY_WIDTHS|
    {
      [segmentId, delGen, baseDoc, numDocs, numDeleted, idxCrc, docCrc, delCrc, idxLen, docLen, delLen, numTokens, numPostings, numTerms]
    }
  }

  const I63 := 0x8000_0000_0000_0000

  type i64 = x: int | -I63 <= x < I63

  datatype Manifest = Manifest(
    generation: nat, nextSegmentId: nat, committed: i64,
    stateGen: nat, stateCrc: nat, stateLen: nat,
    segments: seq<SegmentEntry>)

  function EntryFrom(v: seq<nat>): (e: SegmentEntry)
    requires |v| == |ENTRY_WIDTHS|
    ensures e.Values() == v
  {
    SegmentEntry(v[0], v[1], v[2], v[3], v[4], v[5], v[6], v[7], v[8], v[9], v[10], v[11], v[12], v[13])
  }

  /** Signed nanoseconds in two's complement. */
  function ToBits(v: i64): (bits: nat)
    ensures bits < U64
  {
    if v < 0 then v + U64 else v
  }

  function FromBits(bits: nat): (v: i64)
    requires bits < U64
    ensures ToBits(v) == bits
  {
    if bits < I63 then bits else bits - U64
  }

  // ----- Writing -----

  ghost predicate Fits(m: Manifest) {
    && |m.segments| < U32
    && m.generation < U64 && m.nextSegmentId < U32 && m.stateGen < U32 && m.stateCrc < U32 && m.stateLen < U64
    && forall k | 0 <= k < |m.segments| :: FitWidths(m.segments[k].Values(), ENTRY_WIDTHS)
  }

  function HeaderValues(m: Manifest): (v: seq<nat>)
    ensures |v| == |HEADER_WIDTHS|
  {
    [m.generation, m.nextSegmentId, |m.segments|, ToBits(m.committed), m.stateGen, m.stateCrc, m.stateLen, 0]
  }

  function Entries(segments: seq<SegmentEntry>): bytes {
    if segments == [] then []
    else Entries(segments[..|segments| - 1]) + Packed(segments[|segments| - 1].Values(), ENTRY_WIDTHS)
  }

  function Body(m: Manifest): bytes
  {
    Packed(HeaderValues(m), HEADER_WIDTHS) + Entries(m.segments)
  }

  /** The complete file. */
  method Encode(m: Manifest, crc: bytes -> nat) returns (data: bytes)
    requires Fits(m)
    ensures data == Seal(ManifestKind, Body(m), crc)
  {
    hide Packed, Total;
    var body := Append([], HeaderValues(m), HEADER_WIDTHS);
    ghost var header := body;
    assert header == Packed(HeaderValues(m), HEADER_WIDTHS);
    for k := 0 to |m.segments|
      invariant body == header + Entries(m.segments[..k])
    {
      assert m.segments[..k + 1][..k] == m.segments[..k];
      body := Append(body, m.segments[k].Values(), ENTRY_WIDTHS);
    }
    assert m.segments[..|m.segments|] == m.segments;
    data := Seal(ManifestKind, body, crc);
  }

  // ----- The structural checks -----

  predicate EntrySound(e: SegmentEntry, nextSegmentId: nat) {
    && e.segmentId < nextSegmentId && e.EndDoc() <= U32
    && (e.delGen == 0 <==> e.delLen == 0) && e.numDeleted <= e.numDocs
  }

  predicate Follows(prev: SegmentEntry, e: SegmentEntry) {
    prev.EndDoc() <= e.baseDoc && prev.segmentId != e.segmentId
  }

  predicate EntriesSound(segments: seq<SegmentEntry>, nextSegmentId: nat) {
    && (forall k | 0 <= k < |segments| :: EntrySound(segments[k], nextSegmentId))
    && (forall k: nat | 0 < k < |segments| :: Follows(segments[k - 1], segments[k]))
  }

  /** What `decode` demands of a manifest. */
  predicate Sound(m: Manifest) {
    (m.stateGen == 0 <==> m.stateLen == 0) && EntriesSound(m.segments, m.nextSegmentId)
  }

  // ----- Reading -----

  function EntryAt(b: bytes, i: nat): SegmentEntry
    requires EntryOffset(i + 1) <= |b|
  {
    RecordLengths();
    EntryFrom(Unpacked(b, EntryOffset(i), ENTRY_WIDTHS))
  }

  ghost predicate HeaderInRange(v: seq<nat>) {
    && |v| == |HEADER_WIDTHS|
    && v[0] < U64 && v[1] < U32 && v[2] < U32 && v[3] < U64 && v[4] < U32 && v[5] < U32 && v[6] < U64
  }

  lemma {:induction false} HeaderRange(v: seq<nat>)
    requires FitWidths(v, HEADER_WIDTHS)
    ensures HeaderInRange(v)
  {
    Widths();
    hide Pow256;
  }

  ghost predicate HeaderHeld(b: bytes, v: seq<nat>) {
    BODY_HEADER_LEN <= |b| && HeaderInRange(v) && Packed(v, HEADER_WIDTHS) == b[0..BODY_HEADER_LEN]
  }

  lemma {:induction false} HeaderUnpacks(b: bytes)
    requires BODY_HEADER_LEN <= |b|
    ensures 0 + Total(HEADER_WIDTHS) <= |b| && HeaderHeld(b, Unpacked(b, 0, HEADER_WIDTHS))
  {
    RecordLengths();
    hide Total, Packed, Unpacked, FitWidths, HeaderInRange;
    PacksBack(b, 0, HEADER_WIDTHS);
    HeaderRange(Unpacked(b, 0, HEADER_WIDTHS));
  }

  function HeaderOf(b: bytes): (v: seq<nat>)
    requires BODY_HEADER_LEN <= |b|
    ensures HeaderHeld(b, v)
  {
    HeaderUnpacks(b);
    Unpacked(b, 0, HEADER_WIDTHS)
  }

  function Assembled(header: seq<nat>, segments: seq<SegmentEntry>): Manifest
    requires |header| == |HEADER_WIDTHS| && header[3] < U64
  {
    Manifest(header[0], header[1], FromBits(header[3]), header[4], header[5], header[6], segments)
  }

  lemma {:induction false} EntriesLength(segments: seq<SegmentEntry>)
    ensures |Entries(segments)| == 80 * |segments|
  {
    RecordLengths();
    hide Total, Packed;
    if segments != [] {
      EntriesLength(segments[..|segments| - 1]);
    }
  }

  lemma {:induction false} EntriesHave(segments: seq<SegmentEntry>, i: nat)
    requires i < |segments|
    ensures HasAt(Entries(segments), 80 * i, Packed(segments[i].Values(), ENTRY_WIDTHS))
  {
    RecordLengths();
    hide Total, Packed;
    var n := |segments| - 1;
    var front, last := Entries(segments[..n]), Packed(segments[n].Values(), ENTRY_WIDTHS);
    EntriesLength(segments[..n]);
    if i < n {
      EntriesHave(segments[..n], i);
      assert segments[..n][i] == segments[i];
      var w := Packed(segments[i].Values(), ENTRY_WIDTHS);
      assert (front + last)[80 * i..80 * i + |w|] == front[80 * i..80 * i + |w|];
    } else {
      assert (front + last)[|front|..|front| + |last|] == last;
    }
  }

  lemma {:induction false} BodyParts(m: Manifest)
    ensures |Body(m)| == EntryOffset(|m.segments|)
    ensures HasAt(Body(m), 0, Packed(HeaderValues(m), HEADER_WIDTHS)) && HasAt(Body(m), BODY_HEADER_LEN, Entries(m.segments))
  {
    RecordLengths();
    EntriesLength(m.segments);
    hide Total, Packed, Entries;
    var header, entries := Packed(HeaderValues(m), HEADER_WIDTHS), Entries(m.segments);
    assert (header + entries)[0..|header|] == header && (header + entries)[|header|..|header| + |entries|] == entries;
  }

  lemma {:induction false} HeaderFits(m: Manifest)
    requires Fits(m)
    ensures FitWidths(HeaderValues(m), HEADER_WIDTHS)
  {
    Widths();
    hide Pow256;
  }

  /** A body gives its header back. */
  lemma {:induction false} HeaderDetermined(m: Manifest)
    requires Fits(m)
    ensures |Body(m)| == EntryOffset(|m.segments|) && HeaderOf(Body(m)) == HeaderValues(m)
  {
    BodyParts(m);
    HeaderFits(m);
    hide Packed, Entries, Unpacked, Body, HasAt, Total, Pow256, Fits, FitWidths, HeaderValues;
    UnpacksBack(Body(m), 0, HeaderValues(m), HEADER_WIDTHS);
  }

  /** A body gives each entry back. */
  lemma {:induction false} EntryDetermined(m: Manifest, i: nat)
    requires Fits(m) && i < |m.segments|
    ensures |Body(m)| == EntryOffset(|m.segments|) && EntryAt(Body(m), i) == m.segments[i]
  {
    hide Packed, Entries, Unpacked, Body, HasAt, Total, Pow256, FitWidths;
    BodyParts(m);
    EntriesHave(m.segments, i);
    EntryLength();
    var values := m.segments[i].Values();
    HasAtInside(Body(m), BODY_HEADER_LEN, Entries(m.segments), 80 * i, Packed(values, ENTRY_WIDTHS));
    UnpacksBack(Body(m), EntryOffset(i), values, ENTRY_WIDTHS);
    SameValues(EntryAt(Body(m), i), m.segments[i]);
  }

  lemma {:induction false} SameValues(a: SegmentEntry, b: SegmentEntry)
    requires a.Values() == b.Values()
    ensures a == b
  {
    var v, w := a.Values(), b.Values();
    assert v[0] == w[0] && v[1] == w[1] && v[2] == w[2] && v[3] == w[3] && v[4] == w[4] && v[5] == w[5] && v[6] == w[6];
    assert v[7] == w[7] && v[8] == w[8] && v[9] == w[9] && v[10] == w[10] && v[11] == w[11] && v[12] == w[12] && v[13] == w[13];
  }

  /** Entries read from a body are written back as the bytes they came from. */
  lemma {:induction false} EntriesRebuilt(b: bytes, segments: seq<SegmentEntry>)
    requires EntryOffset(|segments|) <= |b| && forall i: nat | i < |segments| :: segments[i] == EntryAt(b, i)
    ensures Entries(segments) == b[BODY_HEADER_LEN..EntryOffset(|segments|)]
    ensures forall i | 0 <= i < |segments| :: FitWidths(segments[i].Values(), ENTRY_WIDTHS)
  {
    RecordLengths();
    hide Total, Packed, Unpacked, FitWidths;
    if segments != [] {
      var n := |segments| - 1;
      EntriesRebuilt(b, segments[..n]);
      var at := EntryOffset(n);
      PacksBack(b, at, ENTRY_WIDTHS);
      assert segments[n] == EntryAt(b, n);
      assert b[BODY_HEADER_LEN..at] + b[at..at + ENTRY_LEN] == b[BODY_HEADER_LEN..at + ENTRY_LEN];
    }
  }

  lemma {:induction false} HeaderValuesBack(v: seq<nat>, segments: seq<SegmentEntry>)
    requires HeaderInRange(v) && v[2] == |segments| && v[7] == 0
    ensures HeaderValues(Assembled(v, segments)) == v
  {
    assert v == [v[0], v[1], v[2], v[3], v[4], v[5], v[6], v[7]];
  }

  lemma {:induction false} FitsRebuilt(v: seq<nat>, segments: seq<SegmentEntry>)
    requires HeaderInRange(v) && v[2] == |segments|
    requires forall i | 0 <= i < |segments| :: FitWidths(segments[i].Values(), ENTRY_WIDTHS)
    ensures Fits(Assembled(v, segments))
  {
    hide FitWidths;
  }

  lemma {:induction false} BodyRebuilt(b: bytes, segments: seq<SegmentEntry>)
    requires |b| == EntryOffset(|segments|) && forall i: nat | i < |segments| :: segments[i] == EntryAt(b, i)
    requires HeaderOf(b)[2] == |segments| && HeaderOf(b)[7] == 0
    ensures Fits(Assembled(HeaderOf(b), segments)) && Body(Assembled(HeaderOf(b), segments)) == b
  {
    hide Total, Packed, Unpacked, Entries, FitWidths, HeaderOf, EntryAt, HeaderValues, Body, Fits;
    EntriesRebuilt(b, segments);
    HeaderValuesBack(HeaderOf(b), segments);
    FitsRebuilt(HeaderOf(b), segments);
    BodyJoined(b, Assembled(HeaderOf(b), segments));
  }

  lemma {:induction false} BodyJoined(b: bytes, m: Manifest)
    requires |b| == EntryOffset(|m.segments|)
    requires Packed(HeaderValues(m), HEADER_WIDTHS) == b[0..BODY_HEADER_LEN]
    requires Entries(m.segments) == b[BODY_HEADER_LEN..EntryOffset(|m.segments|)]
    ensures Body(m) == b
  {
    hide Total, Packed, Entries, HeaderValues;
    assert b == b[0..BODY_HEADER_LEN] + b[BODY_HEADER_LEN..|b|];
  }

  // ----- Decoding -----

  lemma {:induction false} HeaderNeeds(b: bytes, m: Manifest)
    requires Fits(m) && Sound(m) && b == Body(m)
    ensures |b| >= BODY_HEADER_LEN && HeaderOf(b)[7] == 0 && (HeaderOf(b)[4] == 0 <==> HeaderOf(b)[6] == 0)
    ensures |b| == EntryOffset(HeaderOf(b)[2])
  {
    HeaderDetermined(m);
    hide Body, HeaderOf, EntriesSound;
  }

  /** The `i`-th entry is there and passes the checks on it. */
  ghost predicate EntryPasses(b: bytes, i: nat, next: nat) {
    && EntryOffset(i + 1) <= |b| && EntrySound(EntryAt(b, i), next)
    && (i > 0 ==> Follows(EntryAt(b, i - 1), EntryAt(b, i)))
  }

  lemma {:induction false} SoundAt(m: Manifest, i: nat)
    requires Sound(m) && i < |m.segments|
    ensures EntrySound(m.segments[i], m.nextSegmentId) && (i > 0 ==> Follows(m.segments[i - 1], m.segments[i]))
  {
  }

  lemma {:induction false} EntryNeeds(b: bytes, m: Manifest, i: nat)
    requires Fits(m) && Sound(m) && b == Body(m) && i < |m.segments|
    ensures EntryPasses(b, i, m.nextSegmentId)
  {
    hide Body, EntryAt, EntrySound, Follows, Fits, Sound;
    SoundAt(m, i);
    EntryDetermined(m, i);
    if i > 0 {
      EntryDetermined(m, i - 1);
    }
  }

  lemma {:induction false} AllNeed(b: bytes, m: Manifest, i: nat)
    requires Fits(m) && Sound(m) && b == Body(m) && |b| >= BODY_HEADER_LEN && i < HeaderOf(b)[2]
    ensures EntryPasses(b, i, HeaderOf(b)[1])
  {
    HeaderDetermined(m);
    HeaderNames(m);
    hide Body, HeaderOf, Fits, HeaderValues, Sound, EntryPasses;
    EntryNeeds(b, m, i);
  }

  lemma {:induction false} HeaderNames(m: Manifest)
    ensures HeaderValues(m)[1] == m.nextSegmentId && HeaderValues(m)[2] == |m.segments|
  {
  }

  /** There is only one manifest a body can stand for. */
  lemma {:induction false} AssembledOnly(b: bytes, segments: seq<SegmentEntry>, m: Manifest)
    requires |b| == EntryOffset(|segments|) && forall i: nat | i < |segments| :: segments[i] == EntryAt(b, i)
    requires Fits(m) && b == Body(m)
    ensures m == Assembled(HeaderOf(b), segments)
  {
    HeaderDetermined(m);
    forall i: nat | i < |segments|
      ensures segments[i] == m.segments[i]
    {
      EntryDetermined(m, i);
    }
    hide Body, HeaderOf, EntryAt;
    assert segments == m.segments;
  }

  /** Two manifests never have the same body. */
  lemma {:induction false} BodyInjective(m: Manifest, n: Manifest)
    requires Fits(m) && Fits(n) && Body(m) == Body(n)
    ensures m == n
  {
    hide Body, EntryAt, HeaderOf, Fits;
    HeaderDetermined(m);
    forall i: nat | i < |m.segments|
      ensures EntryOffset(i + 1) <= |Body(m)| && m.segments[i] == EntryAt(Body(m), i)
    {
      EntryDetermined(m, i);
    }
    AssembledOnly(Body(m), m.segments, m);
    AssembledOnly(Body(m), m.segments, n);
  }

  method DecodeBody(b: bytes) returns (r: Result<Manifest, FormatError>)
    ensures r.Success? ==> Fits(r.value) && Sound(r.value) && b == Body(r.value)
    ensures forall m {:trigger Sound(m)} | Fits(m) && Sound(m) && b == Body(m) :: r == Success(m)
  {
    hide Body, EntryAt, HeaderOf, Fits, EntrySound, Follows;
    forall m {:trigger Sound(m)} | Fits(m) && Sound(m) && b == Body(m)
      ensures |b| >= BODY_HEADER_LEN && HeaderOf(b)[7] == 0 && (HeaderOf(b)[4] == 0 <==> HeaderOf(b)[6] == 0)
      ensures |b| == EntryOffset(HeaderOf(b)[2])
    {
      HeaderNeeds(b, m);
    }
    if |b| < BODY_HEADER_LEN { return Failure(Truncated(|b|, BODY_HEADER_LEN)); }
    var h := HeaderOf(b);
    if h[7] != 0 || (h[4] == 0) != (h[6] == 0) || |b| != EntryOffset(h[2]) {
      return Failure(Corrupt);
    }
    var segments: seq<SegmentEntry> := [];
    for i: nat := 0 to h[2]
      invariant |segments| == i && (forall j: nat | j < i :: segments[j] == EntryAt(b, j))
      invariant EntriesSound(segments, h[1])
    {
      var e := EntryAt(b, i);
      if !EntrySound(e, h[1]) || (i > 0 && !Follows(segments[i - 1], e)) {
        forall m {:trigger Sound(m)} | Fits(m) && Sound(m)
          ensures b != Body(m)
        {
          if b == Body(m) {
            AllNeed(b, m, i);
          }
        }
        return Failure(Corrupt);
      }
      segments := segments + [e];
    }
    BodyRebuilt(b, segments);
    forall m {:trigger Sound(m)} | Fits(m) && b == Body(m)
      ensures m == Assembled(h, segments)
    {
      AssembledOnly(b, segments, m);
    }
    r := Success(Assembled(h, segments));
  }

  /**
   Exactly the files written for sound manifests decode, each to the manifest it
   was written for; the file of any other manifest is refused.
   */
  method Decode(data: bytes, crc: bytes -> nat) returns (r: Result<Manifest, FormatError>)
    requires |data| < U64 && forall b :: crc(b) < U32
    ensures r.Success? ==> Fits(r.value) && Sound(r.value) && data == Seal(ManifestKind, Body(r.value), crc)
    ensures forall m {:trigger Sound(m)} | Fits(m) && Sound(m) && data == Seal(ManifestKind, Body(m), crc) :: r == Success(m)
    ensures forall m {:trigger Sound(m)} | Fits(m) && !Sound(m) && data == Seal(ManifestKind, Body(m), crc) :: r.Failure?
    ensures ParseVerified(ManifestKind, data, crc).Failure? ==> r == Failure(ParseVerified(ManifestKind, data, crc).error)
  {
    hide ParseVerified, Seal, Body, Fits, EntriesSound;
    var parsed := ParseVerified(ManifestKind, data, crc);
    forall m {:trigger Sound(m)} | Fits(m) && data == Seal(ManifestKind, Body(m), crc)
      ensures parsed == Success(Body(m))
    {
      AcceptsIff(ManifestKind, data, crc, Body(m));
    }
    if parsed.Failure? { return Failure(parsed.error); }
    AcceptsIff(ManifestKind, data, crc, parsed.value);
    r := DecodeBody(parsed.value);
    forall m {:trigger Sound(m)} | Fits(m) && r.Success? && data == Seal(ManifestKind, Body(m), crc)
      ensures m == r.value
    {
      assert Sound(m) || parsed == Success(Body(m));
      BodyInjective(m, r.value);
    }
  }
}
