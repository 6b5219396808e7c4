/**
 Byte strings: what stands where in a file, fixed-width integers, and unsigned
 LEB128 (section 7.6 of DWARF Version 5; src/format/mod.rs, src/format/varint.rs).
 */
module Bytes {
  import opened Wrappers
  import opened Documents

  type bytes = seq<byte>

  const U32 := 0x1_0000_0000
  const U64 := 0x1_0000_0000_0000_0000

  datatype FormatError =
    | Truncated(at: nat, needed: nat)
    | BadMagic
    | Version(version: nat)
    | Corrupt
    | Checksum
    | Invariant

  // ----- Windows -----

  /** `w` stands in `buf` at `pos`. */
  ghost predicate HasAt(buf: bytes, pos: nat, w: bytes) {
    pos + |w| <= |buf| && buf[pos..pos + |w|] == w
  }

  lemma {:induction false} HasAtSplit(buf: bytes, pos: nat, a: bytes, b: bytes)
    requires HasAt(buf, pos, a + b)
    ensures HasAt(buf, pos, a) && HasAt(buf, pos + |a|, b)
  {
    var w := buf[pos..pos + |a + b|];
    assert buf[pos..pos + |a|] == w[..|a|] == a;
    assert buf[pos + |a|..pos + |a| + |b|] == w[|a|..] == b;
  }

  lemma {:induction false} HasAtInside(buf: bytes, pos: nat, w: bytes, at: nat, v: bytes)
    requires HasAt(buf, pos, w) && HasAt(w, at, v)
    ensures HasAt(buf, pos + at, v)
  {
    forall i | 0 <= i < |v|
      ensures buf[pos + at + i] == v[i]
    {
      assert w[at..at + |v|][i] == w[at + i];
      assert buf[pos..pos + |w|][at + i] == buf[pos + at + i];
    }
  }

  // ----- Varints -----

  function Varint(v: nat): bytes {
    if v < 128 then [v] else [128 + v % 128] + Varint(v / 128)
  }

  /** Low seven bits first, the high bit set on all but the last byte. */
  method PutU64(out: bytes, v: nat) returns (more: bytes)
    ensures more == out + Varint(v)
  {
    more := out;
    var rest := v;
    while rest >= 128
      invariant more + Varint(rest) == out + Varint(v)
    {
      more := more + [128 + rest % 128];
      rest := rest / 128;
    }
    more := more + [rest];
  }

  datatype Read<+T> = Read(value: T, next: nat)

  /** Decode at `pos` with `k` bytes already taken, most significant groups last. */
  function ReadFrom(buf: bytes, pos: nat, k: nat): (r: Result<Read<nat>, FormatError>)
    requires k <= 9
    ensures r.Success? ==> pos < r.value.next <= |buf| && r.value.next <= pos + 10 - k
    decreases 10 - k
  {
    if pos >= |buf| then Failure(Truncated(pos, 1))
    else if k == 9 && buf[pos] > 1 then Failure(Corrupt)
    else if buf[pos] < 128 then Success(Read(buf[pos], pos + 1))
    else
      match ReadFrom(buf, pos + 1, k + 1)
      case Success(r) => Success(Read(buf[pos] - 128 + 128 * r.value, r.next))
      case Failure(e) => Failure(e)
  }

  function ReadVarint(buf: bytes, pos: nat): Result<Read<nat>, FormatError> {
    ReadFrom(buf, pos, 0)
  }

  function ReadVarint32(buf: bytes, pos: nat): Result<Read<nat>, FormatError> {
    match ReadVarint(buf, pos)
    case Success(r) => if r.value < U32 then Success(r) else Failure(Corrupt)
    case Failure(e) => Failure(e)
  }

  function Pow2(n: nat): nat {
    if n == 0 then 1 else 2 * Pow2(n - 1)
  }

  function Plus(v: nat, scale: nat, group: nat): nat {
    v + scale * group
  }

  /** The decoder's accumulator `v` and the groups still to come add up. */
  function Shifted(v: nat, scale: nat, r: Result<Read<nat>, FormatError>): Result<Read<nat>, FormatError> {
    match r
    case Success(x) => Success(Read(Plus(v, scale, x.value), x.next))
    case Failure(e) => Failure(e)
  }

  /**
   The decoding loop.  After the tenth byte the shift would pass 63, but that
   byte is at most one, so it has ended the varint: the source's error for more
   than ten bytes cannot occur.
   */
  method ReadU64(buf: bytes, pos: nat) returns (r: Result<Read<nat>, FormatError>)
    ensures r == ReadVarint(buf, pos)
  {
    var v: nat, shift: nat, at: nat := 0, 0, pos;
    ghost var k: nat := 0;
    ShiftNone(ReadVarint(buf, pos));
    while true
      invariant k <= 9 && shift == 7 * k
      invariant ReadVarint(buf, pos) == Shifted(v, Pow2(shift), ReadFrom(buf, at, k))
      decreases 9 - k
    {
      if at >= |buf| {
        return Failure(Truncated(at, 1));
      }
      var b: nat := buf[at];
      if shift == 63 && b > 1 {
        return Failure(Corrupt);
      }
      if b < 128 {
        return Success(Read(Plus(v, Pow2(shift), b), at + 1));
      }
      ShiftGroup(buf, at, k, v, shift);
      v := Plus(v, Pow2(shift), b - 128);
      at, shift, k := at + 1, shift + 7, k + 1;
    }
  }

  lemma {:induction false} ShiftNone(r: Result<Read<nat>, FormatError>)
    ensures Shifted(0, Pow2(0), r) == r
  {
  }

  /** Taking one continuation byte into the accumulator. */
  lemma {:induction false} ShiftGroup(buf: bytes, at: nat, k: nat, v: nat, shift: nat)
    requires k <= 9 && at < |buf| && buf[at] >= 128 && !(k == 9 && buf[at] > 1)
    ensures k < 9
    ensures Shifted(v, Pow2(shift), ReadFrom(buf, at, k))
         == Shifted(Plus(v, Pow2(shift), buf[at] - 128), Pow2(shift + 7), ReadFrom(buf, at + 1, k + 1))
  {
    var r := ReadFrom(buf, at + 1, k + 1);
    SevenMore(shift);
    if r.Success? {
      ShiftSum(v, Pow2(shift), buf[at] - 128, r.value.value);
    }
  }

  lemma {:induction false} SevenMore(n: nat)
    ensures Pow2(n + 7) == 128 * Pow2(n)
  {
    Doubles(n);
    Doubles(n + 1);
    Doubles(n + 2);
    Doubles(n + 3);
    Doubles(n + 4);
    Doubles(n + 5);
    Doubles(n + 6);
  }

  lemma {:induction false} Doubles(n: nat)
    ensures Pow2(n + 1) == 2 * Pow2(n)
  {
  }

  lemma {:induction false} ShiftSum(v: nat, scale: nat, group: nat, rest: nat)
    ensures Plus(v, scale, group + 128 * rest) == Plus(Plus(v, scale, group), 128 * scale, rest)
  {
    Distribute(scale, group, 128 * rest);
    MulReorder(scale, rest);
  }

  lemma {:induction false} Distribute(a: nat, b: nat, c: nat)
    ensures a * (b + c) == a * b + a * c
  {
  }

  lemma {:induction false} MulReorder(a: nat, b: nat)
    ensures a * (128 * b) == (128 * a) * b
  {
  }

  method ReadU32(buf: bytes, pos: nat) returns (r: Result<Read<nat>, FormatError>)
    ensures r == ReadVarint32(buf, pos)
  {
    r := ReadU64(buf, pos);
    if r.Success? && r.value.value >= U32 {
      r := Failure(Corrupt);
    }
  }

  // ----- Varints: meaning -----

  /** What fits in the groups from the `k`-th on: the tenth carries one bit. */
  function Cap(k: nat): nat
    requires k <= 9
    decreases 9 - k
  {
    if k == 9 then 2 else 128 * Cap(k + 1)
  }

  lemma {:induction false} CapIsU64()
    ensures Cap(0) == U64
  {
    assert Cap(8) == 0x100 && Cap(7) == 0x8000 && Cap(6) == 0x40_0000;
    assert Cap(5) == 0x2000_0000 && Cap(4) == 0x10_0000_0000 && Cap(3) == 0x800_0000_0000;
  }

  lemma {:induction false} ReadFromBack(buf: bytes, pos: nat, k: nat, v: nat)
    requires k <= 9 && v < Cap(k) && HasAt(buf, pos, Varint(v))
    ensures ReadFrom(buf, pos, k) == Success(Read(v, pos + |Varint(v)|))
    decreases v
  {
    if v >= 128 {
      HasAtSplit(buf, pos, [128 + v % 128], Varint(v / 128));
      assert buf[pos] == buf[pos..pos + 1][0];
      ReadFromBack(buf, pos + 1, k + 1, v / 128);
    } else {
      assert buf[pos] == buf[pos..pos + |Varint(v)|][0];
    }
  }

  /** What was put is read back, wherever it stands. */
  lemma {:induction false} ReadsBack(buf: bytes, pos: nat, v: nat)
    requires v < U64 && HasAt(buf, pos, Varint(v))
    ensures ReadVarint(buf, pos) == Success(Read(v, pos + |Varint(v)|))
    ensures v < U32 ==> ReadVarint32(buf, pos) == Success(Read(v, pos + |Varint(v)|))
    ensures v >= U32 ==> ReadVarint32(buf, pos) == Failure(Corrupt)
  {
    CapIsU64();
    ReadFromBack(buf, pos, 0, v);
  }

  /** Continuation bytes, then one byte that ends it. */
  ghost predicate IsVarint(w: bytes) {
    w != [] && w[|w| - 1] < 128 && forall i | 0 <= i < |w| - 1 :: w[i] >= 128
  }

  function Groups(w: bytes): nat {
    if w == [] then 0 else w[0] % 128 + 128 * Groups(w[1..])
  }

  /** The `k`-th and later bytes spell `v`, ending just before `next`. */
  ghost predicate Spells(buf: bytes, pos: nat, k: nat, v: nat, next: nat) {
    pos < next <= |buf| && next - pos <= 10 - k && IsVarint(buf[pos..next]) && v == Groups(buf[pos..next])
  }

  lemma {:induction false} ReadFromIff(buf: bytes, pos: nat, k: nat, v: nat, next: nat)
    requires k <= 9
    ensures ReadFrom(buf, pos, k) == Success(Read(v, next)) <==> Spells(buf, pos, k, v, next) && v < Cap(k)
    decreases 10 - k
  {
    if pos >= |buf| || next <= pos || next > |buf| {
      assert !Spells(buf, pos, k, v, next);
    } else if next == pos + 1 {
      ReadsLast(buf, pos, k, v);
      SpellsLast(buf, pos, k, v);
    } else if buf[pos] >= 128 && k < 9 {
      ReadsMore(buf, pos, k, v, next);
      SpellsMore(buf, pos, k, v, next);
      ReadFromIff(buf, pos + 1, k + 1, v / 128, next);
    } else {
      assert buf[pos..next][0] == buf[pos];
      assert !Spells(buf, pos, k, v, next);
    }
  }

  lemma {:induction false} ReadsLast(buf: bytes, pos: nat, k: nat, v: nat)
    requires k <= 9 && pos < |buf|
    ensures ReadFrom(buf, pos, k) == Success(Read(v, pos + 1)) <==> buf[pos] < 128 && v == buf[pos] && (k == 9 ==> v < 2)
  {
    if buf[pos] >= 128 && k < 9 {
      assert ReadFrom(buf, pos + 1, k + 1).Success? ==> ReadFrom(buf, pos + 1, k + 1).value.next > pos + 1;
    }
  }

  lemma {:induction false} ReadsMore(buf: bytes, pos: nat, k: nat, v: nat, next: nat)
    requires k < 9 && pos < |buf| && buf[pos] >= 128
    ensures ReadFrom(buf, pos, k) == Success(Read(v, next))
            <==> v % 128 == buf[pos] - 128 && ReadFrom(buf, pos + 1, k + 1) == Success(Read(v / 128, next))
  {
  }

  lemma {:induction false} SpellsLast(buf: bytes, pos: nat, k: nat, v: nat)
    requires k <= 9 && pos < |buf|
    ensures Spells(buf, pos, k, v, pos + 1) <==> buf[pos] < 128 && v == buf[pos]
    ensures Cap(k) >= if k == 9 then 2 else 256
  {
    var w := buf[pos..pos + 1];
    assert w == [buf[pos]] && w[1..] == [];
    assert Groups(w) == w[0] % 128 + 128 * Groups([]);
    CapGrows(k);
  }

  lemma {:induction false} SpellsMore(buf: bytes, pos: nat, k: nat, v: nat, next: nat)
    requires k < 9 && pos + 1 < next <= |buf| && buf[pos] >= 128
    ensures Spells(buf, pos, k, v, next) <==> v % 128 == buf[pos] - 128 && Spells(buf, pos + 1, k + 1, v / 128, next)
  {
    var w := buf[pos..next];
    assert w[0] == buf[pos] && w[1..] == buf[pos + 1..next];
    IsVarintTail(w);
  }

  lemma {:induction false} CapGrows(k: nat)
    requires k <= 9
    ensures Cap(k) >= if k == 9 then 2 else 256
  {
    if k < 8 {
      CapGrows8(k);
    }
  }

  lemma {:induction false} CapGrows8(k: nat)
    requires k <= 8
    ensures Cap(k) >= 256
    decreases 8 - k
  {
    if k < 8 {
      CapGrows8(k + 1);
    } else {
      assert Cap(9) == 2;
    }
  }

  lemma {:induction false} IsVarintTail(w: bytes)
    requires |w| >= 2
    ensures IsVarint(w) <==> w[0] >= 128 && IsVarint(w[1..])
  {
    var t := w[1..];
    if w[0] >= 128 && IsVarint(t) {
      forall i | 0 <= i < |w| - 1
        ensures w[i] >= 128
      {
        if i > 0 {
          assert t[i - 1] == w[i];
        }
      }
      assert t[|t| - 1] == w[|w| - 1];
    }
    if IsVarint(w) {
      assert forall i | 0 <= i < |t| - 1 :: t[i] == w[i + 1];
      assert t[|t| - 1] == w[|w| - 1];
    }
  }

  /** Exactly the byte strings a read accepts, and what each means. */
  lemma {:induction false} ReadVarintIff(buf: bytes, pos: nat, v: nat, next: nat)
    ensures ReadVarint(buf, pos) == Success(Read(v, next)) <==> Spells(buf, pos, 0, v, next) && v < U64
  {
    CapIsU64();
    ReadFromIff(buf, pos, 0, v, next);
  }

  /**
   Reading accepts encodings that writing never makes: the spelling is the one
   written exactly when it does not end in a zero group.
   */
  lemma {:induction false} MinimalIff(w: bytes)
    requires IsVarint(w)
    ensures Varint(Groups(w)) == w <==> |w| == 1 || w[|w| - 1] != 0
  {
    if |w| == 1 {
      assert w[1..] == [] && Groups(w) == w[0] % 128 + 128 * Groups([]);
    } else {
      IsVarintTail(w);
      MinimalIff(w[1..]);
      var g := Groups(w[1..]);
      assert Groups(w) == w[0] - 128 + 128 * g;
      if g == 0 {
        assert Varint(Groups(w)) == [w[0] - 128];
        assert w[1..] != [0] || w[|w| - 1] == 0;
        ZeroGroups(w[1..]);
      } else {
        assert Groups(w) / 128 == g && Groups(w) % 128 == w[0] - 128;
        assert Varint(Groups(w)) == [w[0]] + Varint(g);
        assert w == [w[0]] + w[1..];
        if |w| == 2 {
          assert w[1..] == [w[1]] && Groups([w[1]]) == w[1] % 128 + 128 * Groups([]);
        }
      }
    }
  }

  /** Zero, spelt on two bytes: read as zero, where writing zero takes one. */
  lemma {:induction false} SpareZero()
    ensures ReadVarint([128, 0], 0) == Success(Read(0, 2)) && ReadVarint32([128, 0], 0) == Success(Read(0, 2))
    ensures Varint(0) == [0]
  {
    var w: bytes := [128, 0];
    assert w[0..2] == w && w[1..] == [0] && w[1..][1..] == [];
    assert Groups(w) == w[0] % 128 + 128 * Groups([0]) && Groups([0]) == 0 + 128 * Groups([]);
    ReadVarintIff(w, 0, 0, 2);
  }

  lemma {:induction false} ZeroGroups(w: bytes)
    requires IsVarint(w) && Groups(w) == 0
    ensures w[|w| - 1] == 0
  {
    if |w| > 1 {
      IsVarintTail(w);
      ZeroGroups(w[1..]);
    }
  }

  // ----- Fixed width, little endian -----

  function LE(v: nat, n: nat): (w: bytes)
    ensures |w| == n
  {
    if n == 0 then [] else [v % 256] + LE(v / 256, n - 1)
  }

  function FromLE(w: bytes): nat {
    if w == [] then 0 else w[0] + 256 * FromLE(w[1..])
  }

  function Pow256(n: nat): nat {
    if n == 0 then 1 else 256 * Pow256(n - 1)
  }

  lemma {:induction false} FromLEOf(v: nat, n: nat)
    requires v < Pow256(n)
    ensures FromLE(LE(v, n)) == v
  {
    if n > 0 {
      assert LE(v, n)[1..] == LE(v / 256, n - 1);
      FromLEOf(v / 256, n - 1);
    }
  }

  /** Any bytes are the spelling of their own value. */
  lemma {:induction false} LEOf(w: bytes)
    ensures LE(FromLE(w), |w|) == w && FromLE(w) < Pow256(|w|)
  {
    if w != [] {
      LEOf(w[1..]);
    }
  }

  function ReadLE(buf: bytes, at: nat, n: nat): Result<nat, FormatError> {
    if at + n <= |buf| then Success(FromLE(buf[at..at + n])) else Failure(Truncated(at, n))
  }

  lemma {:induction false} ReadLEBack(buf: bytes, at: nat, v: nat, n: nat)
    requires v < Pow256(n) && HasAt(buf, at, LE(v, n))
    ensures ReadLE(buf, at, n) == Success(v)
  {
    FromLEOf(v, n);
  }

  lemma {:induction false} Widths()
    ensures Pow256(4) == U32 && Pow256(8) == U64
  {
    assert Pow256(2) == 0x1_0000;
    assert Pow256(6) == 0x1_0000_0000_0000;
  }
}
