/**
 Posting lists on disk: delta-coded entries and the lazy cursor over them
 (src/format/idx.rs).
 */
module DiskPostings {
  import opened Wrappers
  import opened Documents
  import opened Postings
  import opened Bytes

  // ----- The encoding -----

  function Delta(prev: Option<nat>, v: nat): nat {
    match prev
    case None => v
    case Some(q) => if v > q then v - q else 0
  }

  function PositionBytes(prev: Option<Position>, positions: seq<Position>): bytes
    decreases positions
  {
    if positions == [] then []
    else Varint(Delta(prev, positions[0])) + PositionBytes(Some(positions[0]), positions[1..])
  }

  function PostingBytes(prev: Option<DocId>, p: Posting): bytes {
    var positions := PositionBytes(None, p.positions);
    Varint(Delta(prev, p.doc)) + (Varint(|p.positions|) + (Varint(|positions|) + positions))
  }

  function ListBytes(prev: Option<DocId>, list: PostingList): bytes
    decreases list
  {
    if list == [] then [] else PostingBytes(prev, list[0]) + ListBytes(Some(list[0].doc), list[1..])
  }

  function Encoded(list: PostingList): bytes {
    Varint(|list|) + ListBytes(None, list)
  }

  function TokenCount(list: PostingList): nat {
    if list == [] then 0 else TokenCount(list[..|list| - 1]) + |list[|list| - 1].positions|
  }

  /** Ids, positions and counts fit the 32-bit fields the source gives them. */
  ghost predicate FitsPosting(p: Posting) {
    && p.doc < U32 && |p.positions| < U32 && |PositionBytes(None, p.positions)| < U32
    && forall k | 0 <= k < |p.positions| :: p.positions[k] < U32
  }

  ghost predicate Fits(list: PostingList) {
    |list| < U32 && forall i | 0 <= i < |list| :: FitsPosting(list[i])
  }

  // ----- Encoding -----

  method EncodePositions(positions: seq<Position>) returns (ok: bool, scratch: bytes)
    ensures ok <==> Ascending(positions)
    ensures ok ==> scratch == PositionBytes(None, positions)
  {
    hide Ascending, PositionBytes, Varint;
    NoPositions(positions);
    scratch := [];
    var prev: Option<Position> := None;
    assert positions[0..] == positions;
    for k := 0 to |positions|
      invariant prev == if k == 0 then None else Some(positions[k - 1])
      invariant Ascending(positions[..k])
      invariant scratch + PositionBytes(prev, positions[k..]) == PositionBytes(None, positions)
    {
      var p := positions[k];
      if prev.Some? && p <= prev.value {
        NotAscending(positions, k);
        return false, scratch;
      }
      PositionStep(scratch, prev, positions, k);
      scratch := PutU64(scratch, if prev.Some? then p - prev.value else p);
      prev := Some(p);
    }
    assert positions[..|positions|] == positions;
    ok := true;
  }

  lemma {:induction false} NoPositions(positions: seq<Position>)
    ensures Ascending(positions[..0]) && forall prev :: PositionBytes(prev, positions[|positions|..]) == []
  {
  }

  lemma {:induction false} NotAscending(positions: seq<Position>, k: nat)
    requires 0 < k < |positions| && positions[k] <= positions[k - 1]
    ensures !Ascending(positions)
  {
  }

  lemma {:induction false} PositionStep(scratch: bytes, prev: Option<Position>, positions: seq<Position>, k: nat)
    requires k < |positions| && Ascending(positions[..k])
    requires prev == if k == 0 then None else Some(positions[k - 1])
    requires prev.Some? ==> prev.value < positions[k]
    ensures scratch + PositionBytes(prev, positions[k..])
         == scratch + Varint(Delta(prev, positions[k])) + PositionBytes(Some(positions[k]), positions[k + 1..])
    ensures Ascending(positions[..k + 1])
  {
    hide Varint, Ascending;
    assert positions[k..][0] == positions[k] && positions[k..][1..] == positions[k + 1..];
    assert positions[..k + 1] == positions[..k] + [positions[k]];
    AscendingSnoc(positions[..k], positions[k]);
  }

  /** Refuses exactly the lists the format cannot hold. */
  method EncodePostings(list: PostingList, out: bytes) returns (r: Result<nat, FormatError>, more: bytes)
    ensures r.Success? <==> ValidList(list)
    ensures r.Success? ==> more == out + Encoded(list) && r.value == TokenCount(list)
    ensures r.Failure? ==> r.error == Invariant
  {
    hide Varint;
    more := PutU64(out, |list|);
    var tokens := 0;
    var prev: Option<DocId> := None;
    assert list[0..] == list;
    EncodeStart(out, more, list);
    for k := 0 to |list|
      invariant prev == if k == 0 then None else Some(list[k - 1].doc)
      invariant ValidList(list[..k]) && tokens == TokenCount(list[..k])
      invariant more + ListBytes(prev, list[k..]) == out + Encoded(list)
    {
      var p := list[k];
      if prev.Some? && p.doc <= prev.value {
        assert list[k - 1].doc >= list[k].doc;
        return Failure(Invariant), more;
      }
      if p.positions == [] {
        return Failure(Invariant), more;
      }
      var ok, scratch := EncodePositions(p.positions);
      if !ok {
        return Failure(Invariant), more;
      }
      ghost var before := more;
      more := PutU64(more, if prev.Some? then p.doc - prev.value else p.doc);
      more := PutU64(more, |p.positions|);
      more := PutU64(more, |scratch|);
      more := more + scratch;
      EncodeStep(before, more, prev, list, k);
      tokens := tokens + |p.positions|;
      ValidMore(list, k);
      prev := Some(p.doc);
    }
    assert list[..|list|] == list;
    r := Success(tokens);
  }

  lemma {:induction false} EncodeStart(out: bytes, more: bytes, list: PostingList)
    requires more == out + Varint(|list|)
    ensures more + ListBytes(None, list) == out + Encoded(list)
  {
  }

  lemma {:induction false} EncodeStep(before: bytes, after: bytes, prev: Option<DocId>, list: PostingList, k: nat)
    requires k < |list|
    requires after == before + Varint(Delta(prev, list[k].doc)) + Varint(|list[k].positions|)
                      + Varint(|PositionBytes(None, list[k].positions)|) + PositionBytes(None, list[k].positions)
    ensures after + ListBytes(Some(list[k].doc), list[k + 1..]) == before + ListBytes(prev, list[k..])
  {
    assert list[k..][0] == list[k] && list[k..][1..] == list[k + 1..];
    assert after == before + PostingBytes(prev, list[k]);
  }

  lemma {:induction false} ValidMore(list: PostingList, k: nat)
    requires k < |list| && ValidList(list[..k]) && list[k].positions != [] && Ascending(list[k].positions)
    requires k > 0 ==> list[k - 1].doc < list[k].doc
    ensures ValidList(list[..k + 1]) && TokenCount(list[..k + 1]) == TokenCount(list[..k]) + |list[k].positions|
  {
    assert list[..k + 1][..k] == list[..k];
    var more := list[..k + 1];
    assert more[k] == list[k] && forall i | 0 <= i < k :: more[i] == list[..k][i];
    assert k > 0 ==> list[..k][k - 1] == list[k - 1];
  }

  // ----- The cursor -----

  datatype Current = Current(doc: DocId, tf: nat, posStart: nat, posEnd: nat)

  /** The doc header at `pos`, after the doc `prev`. */
  function Header(data: bytes, pos: nat, prev: Option<DocId>): (r: Result<Read<Current>, FormatError>)
    ensures r.Success? ==> pos < r.value.next <= |data| && r.value.value.posStart <= r.value.value.posEnd == r.value.next
    ensures r.Success? ==> r.value.value.tf > 0 && r.value.value.doc < U32 && (prev.Some? ==> prev.value < r.value.value.doc)
  {
    match ReadVarint32(data, pos)
    case Failure(e) => Failure(e)
    case Success(delta) =>
      if prev.Some? && delta.value == 0 then Failure(Corrupt)
      else if prev.Some? && prev.value + delta.value >= U32 then Failure(Corrupt)
      else
        match ReadVarint32(data, delta.next)
        case Failure(e) => Failure(e)
        case Success(tf) =>
          if tf.value == 0 then Failure(Corrupt)
          else
            match ReadVarint32(data, tf.next)
            case Failure(e) => Failure(e)
            case Success(len) =>
              if len.next + len.value > |data| then Failure(Truncated(len.next, len.value))
              else
                var doc: DocId := if prev.Some? then prev.value + delta.value else delta.value;
                Success(Read(Current(doc, tf.value, len.next, len.next + len.value), len.next + len.value))
  }

  /** The first of `rest` stands at `pos`, with its positions at `at3`. */
  ghost predicate FirstAt(data: bytes, pos: nat, prev: Option<DocId>, rest: PostingList, at1: nat, at2: nat, at3: nat, end: nat)
    requires rest != []
  {
    var positions := PositionBytes(None, rest[0].positions);
    && ReadVarint32(data, pos) == Success(Read(Delta(prev, rest[0].doc), at1))
    && ReadVarint32(data, at1) == Success(Read(|rest[0].positions|, at2))
    && ReadVarint32(data, at2) == Success(Read(|positions|, at3))
    && end == at3 + |positions| && HasAt(data, at3, positions) && data[end..] == ListBytes(Some(rest[0].doc), rest[1..])
  }

  lemma {:induction false} FirstStands(data: bytes, pos: nat, prev: Option<DocId>, rest: PostingList) returns (at1: nat, at2: nat, at3: nat, end: nat)
    requires pos <= |data| && data[pos..] == ListBytes(prev, rest) && rest != [] && FitsPosting(rest[0])
    ensures FirstAt(data, pos, prev, rest, at1, at2, at3, end)
  {
    hide Varint, ReadVarint, ReadVarint32;
    var p := rest[0];
    var positions := PositionBytes(None, p.positions);
    var delta, count, len := Varint(Delta(prev, p.doc)), Varint(|p.positions|), Varint(|positions|);
    FourParts(data, pos, delta, count, len, positions, ListBytes(Some(p.doc), rest[1..]));
    at1 := pos + |delta|;
    at2 := at1 + |count|;
    at3 := at2 + |len|;
    end := at3 + |positions|;
    ReadsBack(data, pos, Delta(prev, p.doc));
    ReadsBack(data, at1, |p.positions|);
    ReadsBack(data, at2, |positions|);
  }

  /** The header of the first of `rest`, where `rest` is encoded. */
  lemma {:induction false} HeaderBack(data: bytes, pos: nat, prev: Option<DocId>, rest: PostingList) returns (c: Current, next: nat)
    requires pos <= |data| && data[pos..] == ListBytes(prev, rest) && rest != []
    requires FitsPosting(rest[0]) && rest[0].positions != [] && (prev.Some? ==> prev.value < rest[0].doc)
    ensures Header(data, pos, prev) == Success(Read(c, next))
    ensures On(data, c, rest[0]) && next <= |data| && data[next..] == ListBytes(Some(rest[0].doc), rest[1..])
  {
    var at1, at2, at3, end := FirstStands(data, pos, prev, rest);
    next := end;
    c := Current(rest[0].doc, |rest[0].positions|, at3, end);
    HeaderFrom(data, pos, prev, Delta(prev, rest[0].doc), |rest[0].positions|, end - at3, at1, at2, at3);
  }

  lemma {:induction false} HeaderFrom(data: bytes, pos: nat, prev: Option<DocId>, delta: nat, tf: nat, len: nat, at1: nat, at2: nat, at3: nat)
    requires ReadVarint32(data, pos) == Success(Read(delta, at1)) && ReadVarint32(data, at1) == Success(Read(tf, at2))
    requires ReadVarint32(data, at2) == Success(Read(len, at3)) && at3 + len <= |data| && tf > 0
    requires prev.Some? ==> delta > 0 && prev.value + delta < U32
    ensures Header(data, pos, prev)
         == Success(Read(Current(if prev.Some? then prev.value + delta else delta, tf, at3, at3 + len), at3 + len))
  {
  }

  lemma {:induction false} FourParts(data: bytes, pos: nat, a: bytes, b: bytes, c: bytes, d: bytes, tail: bytes)
    requires pos <= |data| && data[pos..] == (a + (b + (c + d))) + tail
    ensures HasAt(data, pos, a) && HasAt(data, pos + |a|, b) && HasAt(data, pos + |a| + |b|, c)
    ensures HasAt(data, pos + |a| + |b| + |c|, d) && data[pos + |a| + |b| + |c| + |d|..] == tail
  {
    WholeAt(data, pos, (a + (b + (c + d))) + tail);
    HasAtSplit(data, pos, a + (b + (c + d)), tail);
    HasAtSplit(data, pos, a, b + (c + d));
    HasAtSplit(data, pos + |a|, b, c + d);
    HasAtSplit(data, pos + |a| + |b|, c, d);
    TailAt(data, pos, a + (b + (c + d)), tail);
  }

  lemma {:induction false} TailAt(data: bytes, pos: nat, w: bytes, tail: bytes)
    requires pos <= |data| && data[pos..] == w + tail
    ensures pos + |w| <= |data| && HasAt(data, pos, w) && data[pos + |w|..] == tail
  {
    WholeAt(data, pos, w + tail);
    HasAtSplit(data, pos, w, tail);
    assert data[pos + |w|..] == data[pos..][|w|..];
  }

  lemma {:induction false} WholeAt(data: bytes, pos: nat, w: bytes)
    requires pos <= |data| && data[pos..] == w
    ensures HasAt(data, pos, w)
  {
  }

  /** The positions between `at` and the end of `window`. */
  function DecodePositions(window: bytes, at: nat, prev: Option<Position>, count: nat): (r: Result<seq<Position>, FormatError>)
    ensures r.Success? ==> |r.value| == count && forall k | 0 <= k < count :: prev.Some? ==> prev.value < r.value[k]
    ensures r.Success? ==> Ascending(r.value)
    decreases count
  {
    if count == 0 then (if at == |window| then Success([]) else Failure(Corrupt))
    else
      match ReadVarint32(window, at)
      case Failure(e) => Failure(e)
      case Success(d) =>
        if prev.Some? && d.value == 0 then Failure(Corrupt)
        else if prev.Some? && prev.value + d.value >= U32 then Failure(Corrupt)
        else
          var v: Position := if prev.Some? then prev.value + d.value else d.value;
          match DecodePositions(window, d.next, Some(v), count - 1)
          case Failure(e) => Failure(e)
          case Success(more) => Success([v] + more)
  }

  /** The value a delta stands for, unless it does not decode. */
  function NextPosition(prev: Option<Position>, delta: nat): Result<Position, FormatError> {
    if prev.Some? && (delta == 0 || prev.value + delta >= U32) then Failure(Corrupt)
    else Success(if prev.Some? then prev.value + delta else delta)
  }

  lemma {:induction false} PositionNext(window: bytes, at: nat, prev: Option<Position>, count: nat)
    requires count > 0
    ensures var d := ReadVarint32(window, at);
      if d.Failure? then DecodePositions(window, at, prev, count) == Failure(d.error)
      else if NextPosition(prev, d.value.value).Failure? then DecodePositions(window, at, prev, count) == Failure(Corrupt)
      else var v := NextPosition(prev, d.value.value).value;
        DecodePositions(window, at, prev, count) == Prepend([v], DecodePositions(window, d.value.next, Some(v), count - 1))
  {
    hide ReadVarint32;
  }

  lemma {:induction false} PositionsEnd(window: bytes, at: nat, prev: Option<Position>)
    ensures DecodePositions(window, at, prev, 0) == if at == |window| then Success([]) else Failure(Corrupt)
  {
  }

  lemma {:induction false} PositionsBack(window: bytes, at: nat, prev: Option<Position>, positions: seq<Position>)
    requires at <= |window| && window[at..] == PositionBytes(prev, positions)
    requires Ascending(positions) && (prev.Some? && positions != [] ==> prev.value < positions[0])
    requires forall k | 0 <= k < |positions| :: positions[k] < U32
    ensures DecodePositions(window, at, prev, |positions|) == Success(positions)
    decreases |positions|
  {
    hide Varint, ReadVarint, ReadVarint32, Ascending, DecodePositions;
    PositionsEnd(window, at, prev);
    if positions != [] {
      AscendingHead(positions);
      var d := Varint(Delta(prev, positions[0]));
      TailAt(window, at, d, PositionBytes(Some(positions[0]), positions[1..]));
      ReadsBack(window, at, Delta(prev, positions[0]));
      PositionsBack(window, at + |d|, Some(positions[0]), positions[1..]);
      PositionsFrom(window, at, prev, Delta(prev, positions[0]), at + |d|, positions);
    }
  }

  lemma {:induction false} AscendingHead(positions: seq<Position>)
    requires positions != [] && Ascending(positions)
    ensures Ascending(positions[1..]) && (|positions| > 1 ==> positions[0] < positions[1..][0])
  {
  }

  lemma {:induction false} PositionsFrom(window: bytes, at: nat, prev: Option<Position>, delta: nat, next: nat, positions: seq<Position>)
    requires positions != [] && ReadVarint32(window, at) == Success(Read(delta, next)) && positions[0] < U32
    requires delta == Delta(prev, positions[0]) && (prev.Some? ==> prev.value < positions[0])
    requires DecodePositions(window, next, Some(positions[0]), |positions| - 1) == Success(positions[1..])
    ensures DecodePositions(window, at, prev, |positions|) == Success(positions)
  {
    assert [positions[0]] + positions[1..] == positions;
  }

  /** Entries from the `i`-th on stand at `pos`, to the end of the bytes. */
  ghost predicate Ahead(data: bytes, pos: nat, remaining: nat, list: PostingList, i: nat) {
    && i <= |list| && remaining == |list| - i && pos <= |data|
    && data[pos..] == ListBytes(PrevDoc(list, i), list[i..])
  }

  function PrevDoc(list: PostingList, i: nat): Option<DocId>
    requires i <= |list|
  {
    if i == 0 then None else Some(list[i - 1].doc)
  }

  lemma {:induction false} AheadStep(data: bytes, pos: nat, remaining: nat, list: PostingList, i: nat)
    requires ValidList(list) && Fits(list) && Ahead(data, pos, remaining, list, i) && remaining > 0
    ensures Header(data, pos, PrevDoc(list, i)).Success?
    ensures var h := Header(data, pos, PrevDoc(list, i)).value;
      On(data, h.value, list[i]) && Ahead(data, h.next, remaining - 1, list, i + 1)
  {
    assert list[i..][0] == list[i] && list[i..][1..] == list[i + 1..];
    var c, next := HeaderBack(data, pos, PrevDoc(list, i), list[i..]);
  }

  ghost predicate On(data: bytes, c: Current, p: Posting) {
    && c.doc == p.doc && c.tf == |p.positions|
    && HasAt(data, c.posStart, PositionBytes(None, p.positions))
    && c.posEnd == c.posStart + |PositionBytes(None, p.positions)|
  }

  // ----- What any bytes decode to -----

  function Join(front: PostingList, rest: Option<PostingList>): Option<PostingList> {
    if rest.Some? then Some(front + rest.value) else None
  }

  /** The entry whose header is `c`, then the `remaining` ones at `pos`, to the last byte. */
  function DecodeCurrent(data: bytes, c: Current, pos: nat, remaining: nat): Option<PostingList>
    requires c.posEnd <= |data|
    decreases remaining, 1
  {
    match DecodePositions(data[..c.posEnd], c.posStart, None, c.tf)
    case Failure(_) => None
    case Success(ps) => Join([Posting(c.doc, ps)], DecodeEntries(data, pos, Some(c.doc), remaining))
  }

  function DecodeEntries(data: bytes, pos: nat, prev: Option<DocId>, remaining: nat): Option<PostingList>
    decreases remaining, 0
  {
    if remaining == 0 then (if pos == |data| then Some([]) else None)
    else
      match Header(data, pos, prev)
      case Failure(_) => None
      case Success(h) => DecodeCurrent(data, h.value, h.next, remaining - 1)
  }

  /** The list that the bytes spell, if they spell one to their last byte. */
  function Decoded(data: bytes): Option<PostingList> {
    match ReadVarint32(data, 0)
    case Failure(_) => None
    case Success(count) => DecodeEntries(data, count.next, None, count.value)
  }

  /** Whatever decodes is a valid list, of as many entries as announced. */
  lemma {:induction false} DecodedEntriesValid(data: bytes, pos: nat, prev: Option<DocId>, remaining: nat)
    requires DecodeEntries(data, pos, prev, remaining).Some?
    ensures var l := DecodeEntries(data, pos, prev, remaining).value;
      ValidList(l) && |l| == remaining && (prev.Some? && l != [] ==> prev.value < l[0].doc)
    decreases remaining
  {
    hide ReadVarint32, Ascending;
    if remaining > 0 {
      var h := Header(data, pos, prev).value;
      DecodedEntriesValid(data, h.next, Some(h.value.doc), remaining - 1);
    }
  }

  lemma {:induction false} DecodedValid(data: bytes)
    requires Decoded(data).Some?
    ensures ValidList(Decoded(data).value) && ReadVarint32(data, 0).Success? && ReadVarint32(data, 0).value.value == |Decoded(data).value|
  {
    hide ReadVarint32, DecodeEntries;
    var count := ReadVarint32(data, 0).value;
    DecodedEntriesValid(data, count.next, None, count.value);
  }

  lemma {:induction false} DecodesAhead(data: bytes, pos: nat, remaining: nat, list: PostingList, i: nat)
    requires ValidList(list) && Fits(list) && Ahead(data, pos, remaining, list, i)
    ensures DecodeEntries(data, pos, PrevDoc(list, i), remaining) == Some(list[i..])
    decreases remaining
  {
    hide Header, DecodePositions, ValidList, Fits, On;
    if remaining > 0 {
      AheadStep(data, pos, remaining, list, i);
      var h := Header(data, pos, PrevDoc(list, i)).value;
      EntryFits(list, i);
      OnDecodes(data, h.value, list[i]);
      DecodesAhead(data, h.next, remaining - 1, list, i + 1);
      OnIs(data, h.value, list[i]);
      assert list[i..] == [list[i]] + list[i + 1..];
    }
  }

  lemma {:induction false} EntryFits(list: PostingList, i: nat)
    requires ValidList(list) && Fits(list) && i < |list|
    ensures FitsPosting(list[i]) && Ascending(list[i].positions)
  {
  }

  lemma {:induction false} OnIs(data: bytes, c: Current, p: Posting)
    requires On(data, c, p)
    ensures c.doc == p.doc && c.posEnd <= |data|
  {
  }

  /** An encoded list decodes to itself. */
  lemma {:induction false} DecodesBack(data: bytes, l: PostingList)
    requires Spelt(data, l)
    ensures Decoded(data) == Some(l)
  {
    hide DecodeEntries, ReadVarint32, Encoded, ValidList;
    CountBack(data, l);
    DecodesAhead(data, |Varint(|l|)|, |l|, l, 0);
    assert l[0..] == l;
  }

  ghost predicate Spelt(data: bytes, l: PostingList) {
    ValidList(l) && Fits(l) && data == Encoded(l)
  }

  class DiskCursor {
    const data: bytes
    var pos: nat
    var remaining: nat
    var cur: Option<Current>
    var positions: seq<Position>
    var decoded: bool
    var error: Option<FormatError>

    /** Over any bytes: the cursor stays inside them, and after an error it is exhausted. */
    ghost predicate Inside()
      reads this
    {
      && (cur.Some? ==> cur.value.posStart <= cur.value.posEnd <= |data| && cur.value.tf > 0)
      && (cur.Some? && decoded ==>
            DecodePositions(data[..cur.value.posEnd], cur.value.posStart, None, cur.value.tf) == Success(positions))
      && (error.None? && cur.None? ==> remaining == 0)
      && Ascending(positions)
      && (error.Some? ==> cur.None? && remaining == 0)
    }

    /** Standing on the `i`-th entry of `list`, or past its end. */
    ghost predicate At(list: PostingList, i: nat)
      reads this
    {
      && ValidList(list) && Fits(list) && error.None?
      && if i < |list|
         then cur.Some? && On(data, cur.value, list[i]) && Ahead(data, pos, remaining, list, i + 1)
              && (decoded ==> positions == list[i].positions)
         else i == |list| && cur.None? && Ahead(data, pos, remaining, list, i)
    }

    /** What is left of the list, the current entry included, if it decodes to the last byte. */
    ghost function Rest(): Option<PostingList>
      requires Inside()
      reads this
    {
      if error.Some? then None
      else if cur.Some? then DecodeCurrent(data, cur.value, pos, remaining)
      else DecodeEntries(data, pos, None, 0)
    }

    function Doc(): Option<DocId>
      reads this
    {
      if cur.Some? then Some(cur.value.doc) else None
    }

    /** The current entry's frequency, read from its header. */
    function TermFreq(): nat
      reads this
    {
      if cur.Some? then cur.value.tf else 0
    }

    constructor (data: bytes)
      ensures this.data == data && Inside() && Rest() == Decoded(data)
      ensures forall list | ValidList(list) && Fits(list) && data == Encoded(list) :: At(list, 0)
    {
      this.data := data;
      pos, remaining, cur, positions, decoded, error := 0, 0, None, [], false, None;
      new;
      var r := ReadU32(data, 0);
      if r.Success? {
        pos, remaining := r.value.next, r.value.value;
      } else {
        Fail(r.error);
      }
      forall list | ValidList(list) && Fits(list) && data == Encoded(list)
        ensures error.None? && Ahead(data, pos, remaining, list, 0)
      {
        CountBack(data, list);
      }
      LoadNext();
    }

    method Fail(e: FormatError)
      modifies this`error, this`cur, this`remaining
      ensures error == Some(e) && cur == None && remaining == 0
    {
      error, cur, remaining := Some(e), None, 0;
    }

    /** Moves from before or on one entry to the next; docs only grow, whatever the bytes. */
    method LoadNext()
      requires (error.Some? ==> remaining == 0) && Ascending(positions)
      modifies this
      ensures Inside() && (cur.Some? ==> old(cur).Some? ==> old(cur).value.doc < cur.value.doc)
      ensures Rest() == if old(error).Some? then None else DecodeEntries(data, old(pos), old(Doc()), old(remaining))
      ensures cur.Some? ==> remaining < old(remaining)
      ensures forall list | ValidList(list) && Fits(list) && old(error).None? && old(cur).None? && Ahead(data, old(pos), old(remaining), list, 0) ::
                At(list, 0)
      ensures forall list: PostingList, i: nat | old(At(list, i)) && i < |list| :: At(list, i + 1)
    {
      hide DecodePositions, DecodeCurrent, Header, ListBytes, HasAt, PositionBytes, ValidList, Fits;
      if remaining == 0 {
        cur := None;
        return;
      }
      ghost var before, left, prev := pos, remaining, Doc();
      var r := DecodeHeader();
      if r.Success? {
        cur, remaining, decoded := Some(r.value), remaining - 1, false;
      } else {
        Fail(r.error);
      }
      forall list: PostingList, i: nat | ValidList(list) && Fits(list) && Ahead(data, before, left, list, i) && prev == PrevDoc(list, i)
        ensures r.Success? && On(data, r.value, list[i]) && Ahead(data, pos, left - 1, list, i + 1)
      {
        AheadStep(data, before, left, list, i);
      }
    }

    method DecodeHeader() returns (r: Result<Current, FormatError>)
      modifies this`pos
      ensures match Header(data, old(pos), Doc())
              case Success(h) => r == Success(h.value) && pos == h.next
              case Failure(e) => r == Failure(e)
    {
      var delta := ReadU32(data, pos);
      if delta.Failure? { return Failure(delta.error); }
      var doc := delta.value.value;
      if cur.Some? {
        if delta.value.value == 0 { return Failure(Corrupt); }
        doc := cur.value.doc + delta.value.value;
        if doc >= U32 { return Failure(Corrupt); }
      }
      var tf := ReadU32(data, delta.value.next);
      if tf.Failure? { return Failure(tf.error); }
      if tf.value.value == 0 { return Failure(Corrupt); }
      var len := ReadU32(data, tf.value.next);
      if len.Failure? { return Failure(len.error); }
      var posStart := len.value.next;
      var posEnd := posStart + len.value.value;
      if posEnd > |data| { return Failure(Truncated(posStart, len.value.value)); }
      pos := posEnd;
      r := Success(Current(doc, tf.value.value, posStart, posEnd));
    }

    method Advance() returns (doc: Option<DocId>)
      requires Inside()
      modifies this
      ensures Inside() && doc == Doc() && (old(Doc()).None? ==> doc.None?)
      ensures doc.Some? ==> old(Doc()).value < doc.value && remaining < old(remaining)
      ensures old(cur).Some? ==> Rest() == DecodeEntries(data, old(pos), old(Doc()), old(remaining))
      ensures forall list: PostingList, i: nat | old(At(list, i)) :: At(list, if i < |list| then i + 1 else i)
    {
      if cur.Some? {
        LoadNext();
      }
      doc := Doc();
    }

    /** The one place in `list` this cursor can stand. */
    function Index(list: PostingList): nat
      reads this
    {
      if cur.Some? && remaining < |list| then |list| - remaining - 1 else |list|
    }

    lemma {:induction false} AtIndex(list: PostingList, i: nat)
      requires At(list, i)
      ensures i <= |list| && Index(list) == i && Doc() == DocAtIndex(list, i)
    {
    }

    /** Skips entry by entry, never backwards, to the first at or past the target. */
    method Seek(target: DocId) returns (doc: Option<DocId>)
      requires Inside()
      modifies this
      ensures Inside() && doc == Doc() && (doc.Some? ==> doc.value >= target && old(Doc()).Some? && old(Doc()).value <= doc.value)
      ensures forall list: PostingList, i: nat | old(At(list, i)) :: At(list, SeekIndex(list, i, target))
    {
      hide At;
      forall list: PostingList, i: nat | At(list, i)
        ensures SoughtFrom(list, i, target)
      {
        AtIndex(list, i);
      }
      while cur.Some? && cur.value.doc < target
        invariant Inside() && (cur.Some? ==> old(cur).Some? && old(cur).value.doc <= cur.value.doc)
        invariant forall list: PostingList, i: nat | old(At(list, i)) :: SoughtFrom(list, i, target)
        decreases if cur.Some? then remaining + 1 else 0
      {
        label L:
        LoadNext();
        forall list: PostingList, i: nat | old(At(list, i))
          ensures SoughtFrom(list, i, target)
        {
          assert old@L(SoughtFrom(list, i, target));
          AtIndex(list, old@L(Index(list)) + 1);
        }
      }
      doc := Doc();
    }

    /** Seeking `target` from here ends where seeking it from entry `i` does. */
    ghost predicate SoughtFrom(list: PostingList, i: nat, target: DocId)
      reads this
    {
      && i <= |list| && At(list, Index(list)) && Index(list) <= |list| && Doc() == DocAtIndex(list, Index(list))
      && SeekIndex(list, Index(list), target) == SeekIndex(list, i, target)
    }

    method DecodePositionList() returns (r: Result<seq<Position>, FormatError>)
      requires Inside() && cur.Some?
      ensures r == DecodePositions(data[..cur.value.posEnd], cur.value.posStart, None, cur.value.tf)
    {
      hide DecodePositions, ReadVarint32, Ascending, Prepend;
      var c := cur.value;
      var window := data[..c.posEnd];
      var p := c.posStart;
      var prev: Option<Position> := None;
      var out: seq<Position> := [];
      ghost var all := DecodePositions(window, p, None, c.tf);
      PrependNone(all);
      for n := 0 to c.tf
        invariant all == Prepend(out, DecodePositions(window, p, prev, c.tf - n))
      {
        PositionNext(window, p, prev, c.tf - n);
        PrependFails(out);
        var d := ReadU32(window, p);
        if d.Failure? { return Failure(d.error); }
        var v := d.value.value;
        if prev.Some? {
          if d.value.value == 0 { return Failure(Corrupt); }
          v := prev.value + d.value.value;
          if v >= U32 { return Failure(Corrupt); }
        }
        PrependOne(out, v, DecodePositions(window, d.value.next, Some(v), c.tf - n - 1));
        out := out + [v];
        prev := Some(v);
        p := d.value.next;
      }
      PositionsEnd(window, p, prev);
      PrependFails(out);
      if p != |window| { return Failure(Corrupt); }
      r := Success(out);
    }

    /** The current entry's positions, decoded once; whatever the bytes, they ascend. */
    method Positions() returns (ps: seq<Position>)
      requires Inside()
      modifies this
      ensures Inside() && ps == positions
      ensures error == old(error) ==> cur == old(cur) && pos == old(pos) && remaining == old(remaining)
      ensures old(cur).Some? ==>
                match DecodePositions(data[..old(cur).value.posEnd], old(cur).value.posStart, None, old(cur).value.tf)
                case Success(v) => ps == v && error == old(error)
                case Failure(e) => ps == [] && error == Some(e)
      ensures forall list: PostingList, i: nat | old(At(list, i)) :: At(list, i) && (i < |list| ==> ps == list[i].positions)
    {
      if !decoded {
        if cur.Some? {
          var r := DecodePositionList();
          forall list: PostingList, i: nat | i < |list| && At(list, i)
            ensures r == Success(list[i].positions)
          {
            OnDecodes(data, cur.value, list[i]);
          }
          if r.Success? {
            positions := r.value;
          } else {
            positions := [];
            Fail(r.error);
          }
        }
        decoded := true;
      }
      ps := positions;
    }
  }

  function Prepend(out: seq<Position>, r: Result<seq<Position>, FormatError>): Result<seq<Position>, FormatError> {
    match r
    case Success(more) => Success(out + more)
    case Failure(e) => Failure(e)
  }

  lemma {:induction false} PrependNone(r: Result<seq<Position>, FormatError>)
    ensures Prepend([], r) == r
  {
    if r.Success? {
      assert [] + r.value == r.value;
    }
  }

  lemma {:induction false} PrependFails(out: seq<Position>)
    ensures forall e :: Prepend(out, Failure(e)) == Failure(e)
    ensures Prepend(out, Success([])) == Success(out)
  {
    assert out + [] == out;
  }

  lemma {:induction false} PrependOne(out: seq<Position>, v: Position, r: Result<seq<Position>, FormatError>)
    ensures Prepend(out, Prepend([v], r)) == Prepend(out + [v], r)
  {
    if r.Success? {
      assert out + ([v] + r.value) == out + [v] + r.value;
    }
  }

  lemma {:induction false} OnDecodes(data: bytes, c: Current, p: Posting)
    requires On(data, c, p) && FitsPosting(p) && Ascending(p.positions)
    ensures c.posEnd <= |data| && DecodePositions(data[..c.posEnd], c.posStart, None, c.tf) == Success(p.positions)
  {
    var window := data[..c.posEnd];
    assert window[c.posStart..] == data[c.posStart..c.posEnd];
    PositionsBack(window, c.posStart, None, p.positions);
  }

  lemma {:induction false} CountBack(data: bytes, list: PostingList)
    requires Fits(list) && data == Encoded(list)
    ensures ReadVarint32(data, 0) == Success(Read(|list|, |Varint(|list|)|))
    ensures Ahead(data, |Varint(|list|)|, |list|, list, 0)
  {
    WholeAt(data, 0, Varint(|list|) + ListBytes(None, list));
    HasAtSplit(data, 0, Varint(|list|), ListBytes(None, list));
    ReadsBack(data, 0, |list|);
    assert list[0..] == list;
  }

  // ----- Walking a whole list -----

  /** Read the current entry and step past it; `None` if its positions do not decode. */
  method WalkOne(c: DiskCursor) returns (p: Option<Posting>)
    requires c.Inside() && c.cur.Some?
    modifies c
    ensures c.Inside() && (c.cur.Some? ==> c.remaining < old(c.remaining))
    ensures p.Some? ==> old(c.Rest()) == Join([p.value], c.Rest())
    ensures p.None? ==> old(c.Rest()).None? && c.error.Some?
  {
    hide DecodePositions, DecodeEntries, Ascending;
    var doc, tf := c.cur.value.doc, c.cur.value.tf;
    var ps := c.Positions();
    if |ps| != tf {
      return None;
    }
    var _ := c.Advance();
    p := Some(Posting(doc, ps));
  }

  /** Walking a cursor over bytes that spell a list gives the list. */
  method Collect(data: bytes) returns (list: PostingList)
    ensures Decoded(data).Some? ==> list == Decoded(data).value
    ensures forall l: PostingList | Spelt(data, l) :: list == l
  {
    hide Decoded, Spelt, DecodeCurrent, DecodeEntries, DecodePositions, DiskCursor.At, Ascending;
    list := [];
    forall l: PostingList | Spelt(data, l)
      ensures Decoded(data) == Some(l)
    {
      DecodesBack(data, l);
    }
    var c := new DiskCursor(data);
    JoinNone(c.Rest());
    while c.Doc().Some?
      invariant c.Inside() && c.data == data && fresh(c) && Decoded(data) == Join(list, c.Rest())
      decreases if c.cur.Some? then c.remaining + 1 else 0
    {
      var p := WalkOne(c);
      if p.None? {
        return;
      }
      JoinOne(list, p.value, c.Rest());
      list := list + [p.value];
    }
    AtEnd(c, list);
  }

  lemma {:induction false} AtEnd(c: DiskCursor, list: PostingList)
    requires c.Inside() && c.cur.None?
    ensures Join(list, c.Rest()) == if c.error.None? && c.pos == |c.data| then Some(list) else None
  {
    assert list + [] == list;
  }

  lemma {:induction false} JoinNone(rest: Option<PostingList>)
    ensures Join([], rest) == rest
  {
    if rest.Some? {
      assert [] + rest.value == rest.value;
    }
  }

  lemma {:induction false} JoinOne(list: PostingList, p: Posting, rest: Option<PostingList>)
    ensures Join(list, Join([p], rest)) == Join(list + [p], rest)
  {
    if rest.Some? {
      assert list + ([p] + rest.value) == list + [p] + rest.value;
    }
  }

  /** The bytes spell a list of `docFreq` entries. */
  predicate ListOk(data: bytes, docFreq: nat) {
    Decoded(data).Some? && |Decoded(data).value| == docFreq
  }

  /**
   Decode everything, checking deltas and counts.  Exactly the bytes that spell
   a list of `docFreq` entries, to their last byte, pass.
   */
  method VerifyList(data: bytes, docFreq: nat) returns (ok: bool)
    ensures ok <==> ListOk(data, docFreq)
  {
    hide Decoded, DecodeCurrent, DecodeEntries, DecodePositions, ReadVarint32, DiskCursor.At, Ascending, ValidList;
    if Decoded(data).Some? {
      DecodedValid(data);
    }
    var count := ReadU32(data, 0);
    if count.Failure? || count.value.value != docFreq {
      return false;
    }
    var c := new DiskCursor(data);
    ghost var seen: PostingList := [];
    var n := 0;
    JoinNone(c.Rest());
    while c.Doc().Some?
      invariant c.Inside() && c.data == data && fresh(c) && Decoded(data) == Join(seen, c.Rest()) && |seen| == n
      decreases if c.cur.Some? then c.remaining + 1 else 0
    {
      var p := WalkOne(c);
      if p.None? {
        break;
      }
      JoinOne(seen, p.value, c.Rest());
      seen, n := seen + [p.value], n + 1;
    }
    if c.cur.None? {
      AtEnd(c, seen);
    }
    ok := c.error.None? && n == docFreq && c.pos == |data|;
  }
}
