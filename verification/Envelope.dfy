/**
 The header and footer around every file (src/format/envelope.rs): magic,
 version, length and checksum.
 */
module Envelope {
  import opened Wrappers
  import opened Documents
  import opened Bytes

  const HEADER_LEN := 16
  const FOOTER_LEN := 16
  const FORMAT_VERSION := 2
  /** `FSRF`. */
  const FOOTER_MAGIC: bytes := [70, 83, 82, 70]

  datatype Kind = ManifestKind | IdxKind

  /** `FSRCHMAN` and `FSRCHIDX`. */
  function Magic(kind: Kind): (m: bytes)
    ensures |m| == 8
  {
    match kind
    case ManifestKind => [70, 83, 82, 67, 72, 77, 65, 78]
    case IdxKind => [70, 83, 82, 67, 72, 73, 68, 88]
  }

  function HeaderBytes(kind: Kind): (h: bytes)
    ensures |h| == HEADER_LEN
  {
    Magic(kind) + (LE(FORMAT_VERSION, 4) + LE(0, 4))
  }

  function FooterBytes(len: nat, crc: nat): (f: bytes)
    ensures |f| == FOOTER_LEN
  {
    LE(len, 8) + (LE(crc, 4) + FOOTER_MAGIC)
  }

  function Seal(kind: Kind, body: bytes, crc: bytes -> nat): bytes {
    HeaderBytes(kind) + (body + FooterBytes(|body|, crc(body)))
  }

  /** Where the body ends (it starts after the header), and the stored checksum. */
  datatype Env = Env(bodyEnd: nat, crc: nat)

  /** Everything but the checksum. */
  function Parse(kind: Kind, data: bytes): (r: Result<Env, FormatError>)
    ensures r.Success? ==> |data| >= HEADER_LEN + FOOTER_LEN && r.value.bodyEnd == |data| - FOOTER_LEN
  {
    if |data| < HEADER_LEN + FOOTER_LEN then Failure(Truncated(0, HEADER_LEN + FOOTER_LEN))
    else if data[..8] != Magic(kind) then Failure(BadMagic)
    else if FromLE(data[8..12]) != FORMAT_VERSION then Failure(Version(FromLE(data[8..12])))
    else if FromLE(data[12..16]) != 0 then Failure(Corrupt)
    else
      var at := |data| - FOOTER_LEN;
      if data[at + 12..] != FOOTER_MAGIC then Failure(Corrupt)
      else if FromLE(data[at..at + 8]) != |data| - HEADER_LEN - FOOTER_LEN then Failure(Corrupt)
      else Success(Env(at, FromLE(data[at + 8..at + 12])))
  }

  function ParseVerified(kind: Kind, data: bytes, crc: bytes -> nat): Result<bytes, FormatError> {
    match Parse(kind, data)
    case Failure(e) => Failure(e)
    case Success(env) =>
      var body := data[HEADER_LEN..env.bodyEnd];
      if crc(body) == env.crc then Success(body) else Failure(Checksum)
  }

  lemma {:induction false} SubSlice(data: bytes, lo: nat, hi: nat, i: nat, j: nat)
    requires lo <= hi <= |data| && i <= j <= hi - lo
    ensures data[lo..hi][i..j] == data[lo + i..lo + j]
  {
    var w := data[lo..hi];
    forall k | 0 <= k < j - i
      ensures w[i..j][k] == data[lo + i..lo + j][k]
    {
      assert w[i + k] == data[lo + i + k];
    }
  }

  /** The three fields of a header or footer standing at `lo`. */
  lemma {:induction false} ThreeFields(data: bytes, lo: nat, a: bytes, b: bytes, c: bytes)
    requires lo + 16 <= |data| && |a| == 8 && |b| == 4 && |c| == 4
    ensures data[lo..lo + 16] == a + (b + c) <==> data[lo..lo + 8] == a && data[lo + 8..lo + 12] == b && data[lo + 12..lo + 16] == c
  {
    var w := data[lo..lo + 16];
    SubSlice(data, lo, lo + 16, 0, 8);
    SubSlice(data, lo, lo + 16, 8, 12);
    SubSlice(data, lo, lo + 16, 12, 16);
    if w == a + (b + c) {
      assert w[0..8] == a && w[8..12] == b && w[12..16] == c;
    }
    assert w == w[0..8] + (w[8..12] + w[12..16]);
  }

  lemma {:induction false} SealedParts(header: bytes, body: bytes, footer: bytes)
    requires |header| == HEADER_LEN && |footer| == FOOTER_LEN
    ensures var data := header + (body + footer);
      && |data| == HEADER_LEN + |body| + FOOTER_LEN && data[0..HEADER_LEN] == header
      && data[HEADER_LEN..HEADER_LEN + |body|] == body && data[HEADER_LEN + |body|..HEADER_LEN + |body| + FOOTER_LEN] == footer
  {
  }

  /** What `Parse` requires of the fields, said of the fields. */
  lemma {:induction false} ParseIff(kind: Kind, data: bytes, crc: nat)
    requires |data| >= HEADER_LEN + FOOTER_LEN
    ensures var at := |data| - FOOTER_LEN;
      Parse(kind, data) == Success(Env(at, crc))
      <==> && data[0..8] == Magic(kind) && FromLE(data[8..12]) == FORMAT_VERSION && FromLE(data[12..16]) == 0
           && FromLE(data[at..at + 8]) == |data| - HEADER_LEN - FOOTER_LEN && FromLE(data[at + 8..at + 12]) == crc
           && data[at + 12..at + 16] == FOOTER_MAGIC
  {
    hide FromLE, Magic;
    var at := |data| - FOOTER_LEN;
    assert data[..8] == data[0..8] && data[at + 12..] == data[at + 12..at + 16];
  }

  /** Parsing, field by field. */
  lemma {:induction false} FieldsIff(kind: Kind, data: bytes, ver: bytes, flags: bytes, len: bytes, sum: bytes, crc: nat)
    requires |data| >= HEADER_LEN + FOOTER_LEN && |ver| == |flags| == |sum| == 4 && |len| == 8
    requires data[0..16] == Magic(kind) + (ver + flags)
    requires data[|data| - FOOTER_LEN..|data| - FOOTER_LEN + 16] == len + (sum + FOOTER_MAGIC)
    ensures Parse(kind, data) == Success(Env(|data| - FOOTER_LEN, crc))
            <==> FromLE(ver) == FORMAT_VERSION && FromLE(flags) == 0 && FromLE(len) == |data| - HEADER_LEN - FOOTER_LEN && FromLE(sum) == crc
  {
    ParseIff(kind, data, crc);
    hide FromLE, Magic, Parse;
    ThreeFields(data, 0, Magic(kind), ver, flags);
    ThreeFields(data, |data| - FOOTER_LEN, len, sum, FOOTER_MAGIC);
  }

  lemma {:induction false} Numbers(len: nat, crc: nat)
    requires len < U64 && crc < U32
    ensures FromLE(LE(FORMAT_VERSION, 4)) == FORMAT_VERSION && FromLE(LE(0, 4)) == 0
    ensures FromLE(LE(len, 8)) == len && FromLE(LE(crc, 4)) == crc
  {
    Widths();
    FromLEOf(FORMAT_VERSION, 4);
    FromLEOf(0, 4);
    FromLEOf(len, 8);
    FromLEOf(crc, 4);
  }

  /** A sealed body parses, and its checksum and extent are found. */
  lemma {:induction false} SealParses(kind: Kind, body: bytes, crc: bytes -> nat)
    requires |body| < U64 && crc(body) < U32
    ensures var data := Seal(kind, body, crc);
      && Parse(kind, data) == Success(Env(HEADER_LEN + |body|, crc(body)))
      && data[HEADER_LEN..HEADER_LEN + |body|] == body && |data| == |body| + HEADER_LEN + FOOTER_LEN
  {
    Numbers(|body|, crc(body));
    hide LE, FromLE, Magic, Parse;
    SealedParts(HeaderBytes(kind), body, FooterBytes(|body|, crc(body)));
    FieldsIff(kind, Seal(kind, body, crc), LE(FORMAT_VERSION, 4), LE(0, 4), LE(|body|, 8), LE(crc(body), 4), crc(body));
  }

  /** Exactly the sealed bodies are accepted. */
  lemma {:induction false} AcceptsIff(kind: Kind, data: bytes, crc: bytes -> nat, body: bytes)
    requires |data| < U64 && forall b :: crc(b) < U32
    ensures ParseVerified(kind, data, crc) == Success(body) <==> data == Seal(kind, body, crc)
  {
    hide Parse, LE, Magic;
    if data == Seal(kind, body, crc) {
      SealParses(kind, body, crc);
    }
    if ParseVerified(kind, data, crc) == Success(body) {
      SealedOnly(kind, data, crc);
    }
  }

  lemma {:induction false} SealedOnly(kind: Kind, data: bytes, crc: bytes -> nat)
    requires ParseVerified(kind, data, crc).Success?
    ensures data == Seal(kind, ParseVerified(kind, data, crc).value, crc)
  {
    var at := |data| - FOOTER_LEN;
    var body := data[HEADER_LEN..at];
    ParseIff(kind, data, crc(body));
    hide Magic, Parse;
    FieldBytes(data[8..12], FORMAT_VERSION);
    FieldBytes(data[12..16], 0);
    FieldBytes(data[at..at + 8], |body|);
    FieldBytes(data[at + 8..at + 12], crc(body));
    hide LE, FromLE;
    ThreeFields(data, 0, Magic(kind), LE(FORMAT_VERSION, 4), LE(0, 4));
    ThreeFields(data, at, LE(|body|, 8), LE(crc(body), 4), FOOTER_MAGIC);
    ThreeParts(data, HEADER_LEN, at);
  }

  lemma {:induction false} ThreeParts(data: bytes, i: nat, j: nat)
    requires i <= j <= |data|
    ensures data == data[0..i] + (data[i..j] + data[j..|data|])
  {
  }

  lemma {:induction false} FieldBytes(w: bytes, v: nat)
    requires FromLE(w) == v
    ensures w == LE(v, |w|)
  {
    LEOf(w);
  }
}
