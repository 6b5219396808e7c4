/**
 The `.idx` file: posting lists, a term dictionary front-coded in blocks of 64,
 and a sparse index over the first term of each block (src/format/idx.rs).
 */
module TermDict {
  import opened Wrappers
  import opened Documents
  import opened Postings
  import opened Bytes
  import opened DiskPostings
  import opened Envelope

  const BLOCK_SIZE := 64
  const MAX_TERM_BYTES := 512
  const TOC_LEN := 64

  datatype DictTerm = DictTerm(term: Term, list: PostingList)

  // ----- Byte order -----

  predicate Less(a: bytes, b: bytes)
    decreases |b|
  {
    b != [] && (a == [] || a[0] < b[0] || (a[0] == b[0] && Less(a[1..], b[1..])))
  }

  lemma {:induction false} LessTrans(a: bytes, b: bytes, c: bytes)
    requires Less(a, b) && Less(b, c)
    ensures Less(a, c)
    decreases |c|
  {
    if a != [] && a[0] == b[0] == c[0] {
      LessTrans(a[1..], b[1..], c[1..]);
    }
  }

  lemma {:induction false} LessTotal(a: bytes, b: bytes)
    ensures Less(a, b) || a == b || Less(b, a)
    ensures !(Less(a, b) && Less(b, a)) && !Less(a, a)
    decreases |a|
  {
    if a != [] {
      if b != [] && a[0] == b[0] {
        LessTotal(a[1..], b[1..]);
        assert a == [a[0]] + a[1..] && b == [b[0]] + b[1..];
      }
      LessTotal(a[1..], a[1..]);
    }
  }

  /** `a` and `b` agree in their first `n` bytes, and then `a` ends or has the smaller byte. */
  ghost predicate FirstDifferAt(a: bytes, b: bytes, n: nat) {
    n <= |a| && n < |b| && a[..n] == b[..n] && (n == |a| || a[n] < b[n])
  }

  /** The order compares the first byte in which two terms differ, and puts a prefix first. */
  lemma {:induction false} LessIff(a: bytes, b: bytes)
    ensures Less(a, b) <==> exists n :: FirstDifferAt(a, b, n)
    decreases |a|
  {
    if a == [] || b == [] || a[0] != b[0] {
      if b != [] && (a == [] || a[0] < b[0]) {
        assert FirstDifferAt(a, b, 0);
      }
      if n: nat :| FirstDifferAt(a, b, n) {
        if n > 0 {
          assert a[..n][0] == b[..n][0];
        }
      }
    } else {
      LessIff(a[1..], b[1..]);
      if n: nat :| FirstDifferAt(a[1..], b[1..], n) {
        assert a[..n + 1] == [a[0]] + a[1..][..n] && b[..n + 1] == [b[0]] + b[1..][..n];
        assert FirstDifferAt(a, b, n + 1);
      }
      if n: nat :| FirstDifferAt(a, b, n) {
        assert a[1..][..n - 1] == a[..n][1..] && b[1..][..n - 1] == b[..n][1..];
        assert FirstDifferAt(a[1..], b[1..], n - 1);
      }
    }
  }

  ghost predicate Sorted(ts: seq<DictTerm>) {
    forall i, j | 0 <= i < j < |ts| :: Less(ts[i].term, ts[j].term)
  }

  // ----- The file's parts -----

  /** Over-long terms are left out of the dictionary. */
  function Kept(terms: seq<DictTerm>): seq<DictTerm> {
    if terms == [] then []
    else
      var front, last := terms[..|terms| - 1], terms[|terms| - 1];
      if |last.term| > MAX_TERM_BYTES then Kept(front) else Kept(front) + [last]
  }

  function CommonPrefix(a: bytes, b: bytes): (n: nat)
    ensures n <= |a| && n <= |b| && a[..n] == b[..n]
    decreases |a|
  {
    if a != [] && b != [] && a[0] == b[0] then
      var n := 1 + CommonPrefix(a[1..], b[1..]);
      assert a[..n] == [a[0]] + a[1..][..n - 1] && b[..n] == [b[0]] + b[1..][..n - 1];
      n
    else 0
  }

  /** The term the next entry is coded against: none at the start of a block. */
  function PrevTerm(ts: seq<DictTerm>): Term {
    if |ts| % BLOCK_SIZE == 0 then [] else ts[|ts| - 1].term
  }

  function EntryBytes(prev: Term, e: DictTerm): bytes {
    var prefix := CommonPrefix(prev, e.term);
    Varint(prefix) + (Varint(|e.term| - prefix) + (e.term[prefix..] + (Varint(|e.list|) + Varint(|Encoded(e.list)|))))
  }

  function Dict(ts: seq<DictTerm>): bytes {
    if ts == [] then []
    else
      var front := ts[..|ts| - 1];
      Dict(front) + EntryBytes(PrevTerm(front), ts[|ts| - 1])
  }

  function PostingsRegion(ts: seq<DictTerm>): bytes {
    if ts == [] then [] else PostingsRegion(ts[..|ts| - 1]) + Encoded(ts[|ts| - 1].list)
  }

  /** The sparse entry of a block starting after `before` with `first`. */
  function SparseBytes(before: seq<DictTerm>, first: Term): bytes {
    Varint(|first|) + (first + (Varint(|Dict(before)|) + Varint(|PostingsRegion(before)|)))
  }

  function SparseEntries(ts: seq<DictTerm>): bytes {
    if ts == [] then []
    else
      var front := ts[..|ts| - 1];
      SparseEntries(front) + if |front| % BLOCK_SIZE == 0 then SparseBytes(front, ts[|ts| - 1].term) else []
  }

  function SparseOffsets(ts: seq<DictTerm>): seq<nat> {
    if ts == [] then []
    else
      var front := ts[..|ts| - 1];
      SparseOffsets(front) + if |front| % BLOCK_SIZE == 0 then [|SparseEntries(front)|] else []
  }

  function OffsetBytes(offsets: seq<nat>): bytes {
    if offsets == [] then [] else OffsetBytes(offsets[..|offsets| - 1]) + LE(offsets[|offsets| - 1], 4)
  }

  datatype Toc = Toc(
    postingsOff: nat, postingsLen: nat, dictOff: nat, dictLen: nat, sparseOff: nat, sparseLen: nat,
    numTerms: nat, numBlocks: nat, blockSize: nat)

  function TocBytes(t: Toc): bytes {
    LE(t.postingsOff, 8) + (LE(t.postingsLen, 8) + (LE(t.dictOff, 8) + (LE(t.dictLen, 8) + (LE(t.sparseOff, 8)
    + (LE(t.sparseLen, 8) + (LE(t.numTerms, 8) + (LE(t.numBlocks, 4) + LE(t.blockSize, 4))))))))
  }

  function Sparse(ts: seq<DictTerm>): bytes {
    OffsetBytes(SparseOffsets(ts)) + SparseEntries(ts)
  }

  function TocOf(ts: seq<DictTerm>): Toc {
    var p, d, s := |PostingsRegion(ts)|, |Dict(ts)|, |Sparse(ts)|;
    Toc(HEADER_LEN, p, HEADER_LEN + p, d, HEADER_LEN + p + d, s, |ts|, |SparseOffsets(ts)|, BLOCK_SIZE)
  }

  function Body(ts: seq<DictTerm>): bytes {
    PostingsRegion(ts) + (Dict(ts) + (Sparse(ts) + TocBytes(TocOf(ts))))
  }

  function File(ts: seq<DictTerm>, crc: bytes -> nat): bytes {
    Seal(IdxKind, Body(ts), crc)
  }

  // ----- Writing -----

  function PostingCount(ts: seq<DictTerm>): nat {
    if ts == [] then 0 else PostingCount(ts[..|ts| - 1]) + |ts[|ts| - 1].list|
  }

  function AllTokens(ts: seq<DictTerm>): nat {
    if ts == [] then 0 else AllTokens(ts[..|ts| - 1]) + TokenCount(ts[|ts| - 1].list)
  }

  datatype Summary = Summary(len: nat, crc: nat, numTerms: nat, numPostings: nat, numTokens: nat)

  ghost predicate AllValid(ts: seq<DictTerm>) {
    forall i | 0 <= i < |ts| :: ValidList(ts[i].list)
  }

  lemma {:induction false} KeptMore(terms: seq<DictTerm>, k: nat)
    requires k < |terms|
    ensures Kept(terms[..k + 1]) == if |terms[k].term| > MAX_TERM_BYTES then Kept(terms[..k]) else Kept(terms[..k]) + [terms[k]]
  {
    assert terms[..k + 1][..k] == terms[..k];
  }

  lemma {:induction false} KeptIn(terms: seq<DictTerm>, k: nat)
    requires k <= |terms|
    ensures forall e | e in Kept(terms[..k]) :: e in Kept(terms)
    decreases |terms| - k
  {
    if k < |terms| {
      KeptMore(terms, k);
      KeptIn(terms, k + 1);
    } else {
      assert terms[..k] == terms;
    }
  }

  /** Everything written so far for the kept terms `ts`. */
  ghost predicate WrittenSoFar(ts: seq<DictTerm>, postings: bytes, dict: bytes, offsets: seq<nat>, entries: bytes, prev: Term,
                               count: nat, numPostings: nat, tokens: nat)
  {
    && postings == PostingsRegion(ts) && dict == Dict(ts) && offsets == SparseOffsets(ts) && entries == SparseEntries(ts)
    && (|ts| % BLOCK_SIZE != 0 ==> prev == ts[|ts| - 1].term)
    && count == |ts| && numPostings == PostingCount(ts) && tokens == AllTokens(ts)
  }

  method PutEntry(dict: bytes, prev: Term, e: DictTerm, encodedLen: nat) returns (more: bytes)
    requires encodedLen == |Encoded(e.list)|
    ensures more == dict + EntryBytes(prev, e)
  {
    hide Varint, Encoded;
    var prefix := CommonPrefix(prev, e.term);
    more := PutU64(dict, prefix);
    more := PutU64(more, |e.term| - prefix);
    more := more + e.term[prefix..];
    more := PutU64(more, |e.list|);
    more := PutU64(more, encodedLen);
    Join5(dict, Varint(prefix), Varint(|e.term| - prefix), e.term[prefix..], Varint(|e.list|), Varint(encodedLen));
  }

  lemma {:induction false} Join5(x: bytes, a: bytes, b: bytes, c: bytes, d: bytes, e: bytes)
    ensures x + a + b + c + d + e == x + (a + (b + (c + (d + e))))
  {
  }

  method PutSparse(entries: bytes, first: Term, dictLen: nat, postingsLen: nat) returns (more: bytes)
    ensures more == entries + (Varint(|first|) + (first + (Varint(dictLen) + Varint(postingsLen))))
  {
    hide Varint;
    more := PutU64(entries, |first|);
    more := more + first;
    more := PutU64(more, dictLen);
    more := PutU64(more, postingsLen);
    Join5(entries, Varint(|first|), first, Varint(dictLen), Varint(postingsLen), []);
    assert Varint(postingsLen) + [] == Varint(postingsLen);
    assert more + [] == more;
  }

  method PutOffsets(offsets: seq<nat>) returns (out: bytes)
    ensures out == OffsetBytes(offsets)
  {
    out := [];
    for k := 0 to |offsets|
      invariant out == OffsetBytes(offsets[..k])
    {
      assert offsets[..k + 1][..k] == offsets[..k];
      out := out + LE(offsets[k], 4);
    }
    assert offsets[..|offsets|] == offsets;
  }

  method Write(terms: seq<DictTerm>, crc: bytes -> nat) returns (r: Result<(bytes, Summary), FormatError>)
    ensures r.Success? <==> AllValid(Kept(terms))
    ensures r.Success? ==> r.value.0 == File(Kept(terms), crc)
    ensures r.Success? ==> r.value.1 == Summary(|File(Kept(terms), crc)|, crc(Body(Kept(terms))), |Kept(terms)|,
                                               PostingCount(Kept(terms)), AllTokens(Kept(terms)))
  {
    hide Encoded, Varint, Dict, SparseEntries, SparseOffsets, PostingsRegion, PostingCount, AllTokens, Body, Kept;
    hide EntryBytes, LE, Magic, ValidList, OffsetBytes, TokenCount;
    var offsets: seq<nat> := [];
    var dict: bytes, entries: bytes, postings: bytes, prev: Term := [], [], [], [];
    var count: nat, numPostings: nat, tokens: nat := 0, 0, 0;
    KeptNone();
    for k := 0 to |terms|
      invariant WrittenSoFar(Kept(terms[..k]), postings, dict, offsets, entries, prev, count, numPostings, tokens)
      invariant AllValid(Kept(terms[..k]))
    {
      KeptMore(terms, k);
      var e := terms[k];
      if |e.term| > MAX_TERM_BYTES {
        continue;
      }
      ghost var ts := Kept(terms[..k]);
      KeptIn(terms, k + 1);
      var t, buf := EncodePostings(e.list, []);
      if t.Failure? {
        NotAllValid(Kept(terms), e);
        return Failure(t.error);
      }
      assert [] + Encoded(e.list) == Encoded(e.list);
      WriteStep(ts, e);
      if count % BLOCK_SIZE == 0 {
        offsets := offsets + [|entries|];
        entries := PutSparse(entries, e.term, |dict|, |postings|);
        prev := [];
      }
      dict := PutEntry(dict, prev, e, |buf|);
      postings := postings + buf;
      prev, count := e.term, count + 1;
      numPostings, tokens := numPostings + |e.list|, tokens + t.value;
    }
    assert terms[..|terms|] == terms;
    ghost var ts := Kept(terms);
    var sparse := PutOffsets(offsets);
    sparse := sparse + entries;
    var toc := Toc(HEADER_LEN, |postings|, HEADER_LEN + |postings|, |dict|, HEADER_LEN + |postings| + |dict|, |sparse|,
                   count, |offsets|, BLOCK_SIZE);
    var body := postings + (dict + (sparse + TocBytes(toc)));
    BodyIs(ts, body, toc);
    r := Success((HeaderBytes(IdxKind) + (body + FooterBytes(|body|, crc(body))),
                  Summary(|body| + HEADER_LEN + FOOTER_LEN, crc(body), count, numPostings, tokens)));
  }

  lemma {:induction false} KeptNone()
    ensures Kept([]) == [] && Dict([]) == [] && SparseEntries([]) == [] && SparseOffsets([]) == [] && PostingsRegion([]) == []
    ensures PostingCount([]) == 0 && AllTokens([]) == 0
  {
  }

  lemma {:induction false} NotAllValid(ts: seq<DictTerm>, e: DictTerm)
    requires e in ts && !ValidList(e.list)
    ensures !AllValid(ts)
  {
  }

  lemma {:induction false} BodyIs(ts: seq<DictTerm>, body: bytes, toc: Toc)
    requires toc == TocOf(ts) && body == PostingsRegion(ts) + (Dict(ts) + (Sparse(ts) + TocBytes(toc)))
    ensures body == Body(ts)
  {
  }

  /** One more kept term. */
  lemma {:induction false} WriteStep(ts: seq<DictTerm>, e: DictTerm)
    ensures PostingsRegion(ts + [e]) == PostingsRegion(ts) + Encoded(e.list)
    ensures Dict(ts + [e]) == Dict(ts) + EntryBytes(PrevTerm(ts), e)
    ensures SparseEntries(ts + [e]) == SparseEntries(ts) + if |ts| % BLOCK_SIZE == 0 then SparseBytes(ts, e.term) else []
    ensures SparseOffsets(ts + [e]) == SparseOffsets(ts) + if |ts| % BLOCK_SIZE == 0 then [|SparseEntries(ts)|] else []
    ensures PostingCount(ts + [e]) == PostingCount(ts) + |e.list| && AllTokens(ts + [e]) == AllTokens(ts) + TokenCount(e.list)
  {
    assert (ts + [e])[..|ts + [e]| - 1] == ts;
  }
}
