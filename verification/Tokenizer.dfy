/**
 From words to tokens (src/tokenizer.rs): words are cut into atoms, atoms take
 consecutive positions, and identifier parts share their atom's position.

 The words are those of UAX #29 segmentation, taken as given, as are the
 Unicode tables.
 */
module Tokenizer {
  import opened Wrappers
  import opened Documents
  import opened Postings

  datatype Class = Upper | Lower | Digit | Other

  datatype Script = Script(classOf: char -> Class, alphanumeric: char -> bool, fold: string -> Term)

  /** ASCII punctuation but `_`, and the punctuation UAX #29 leaves inside words. */
  predicate IsCut(c: char) {
    var n := c as int;
    if n < 0x80 then (33 <= n <= 47 || 58 <= n <= 64 || 91 <= n <= 96 || 123 <= n <= 126) && c != '_'
    else
      n in {0x00B7, 0x0387, 0x055F, 0x05F4, 0x2027, 0xFE13, 0xFE55, 0xFF1A,
            0x2018, 0x2019, 0x2024, 0xFE52, 0xFF07, 0xFF0E,
            0x037E, 0x0589, 0x060C, 0x060D, 0x066C, 0x07F8, 0x2044, 0xFE10, 0xFE14, 0xFE50, 0xFE54, 0xFF0C, 0xFF1B}
  }

  // ----- Atoms -----

  /** Length of the leading run of characters that are, or are not, cut points. */
  function RunLength(w: string, cuts: bool): (n: nat)
    ensures n <= |w| && (forall i | 0 <= i < n :: IsCut(w[i]) == cuts) && (n < |w| ==> IsCut(w[n]) != cuts)
  {
    if w == [] || IsCut(w[0]) != cuts then 0 else 1 + RunLength(w[1..], cuts)
  }

  predicate IsAtom(run: string, sc: Script) {
    exists i :: 0 <= i < |run| && sc.alphanumeric(run[i])
  }

  /** Atoms of one word: its runs between cut points that hold a letter or digit. */
  function AtomsOf(w: string, sc: Script): seq<string>
    decreases |w|
  {
    var run := w[RunLength(w, true)..];
    if run == [] then []
    else
      var end := RunLength(run, false);
      (if IsAtom(run[..end], sc) then [run[..end]] else []) + AtomsOf(run[end..], sc)
  }

  function AtomsFrom(words: seq<string>, k: nat, sc: Script): seq<string>
    requires k <= |words|
    decreases |words| - k
  {
    if k == |words| then [] else AtomsOf(words[k], sc) + AtomsFrom(words, k + 1, sc)
  }

  // ----- Identifier parts -----

  /** A capital that starts a new part: after a lower-case letter or digit, or ending an acronym. */
  predicate Boundary(seg: string, i: nat, sc: Script) {
    && 0 < i < |seg| && sc.classOf(seg[i]) == Upper
    && (sc.classOf(seg[i - 1]) == Lower || sc.classOf(seg[i - 1]) == Digit
        || (sc.classOf(seg[i - 1]) == Upper && i + 1 < |seg| && sc.classOf(seg[i + 1]) == Lower))
  }

  /** The last boundary before `n`, or the start. */
  function PartStart(seg: string, n: nat, sc: Script): (s: nat)
    ensures s <= n && (n > 0 ==> s < n) && (s > 0 ==> Boundary(seg, s, sc))
    ensures forall i | s < i < n :: !Boundary(seg, i, sc)
  {
    if n == 0 then 0 else if Boundary(seg, n - 1, sc) then n - 1 else PartStart(seg, n - 1, sc)
  }

  /** Parts ended by the boundaries before `n`. */
  function PartsBefore(seg: string, n: nat, sc: Script): seq<string>
    requires n <= |seg|
  {
    if n == 0 then []
    else
      PartsBefore(seg, n - 1, sc)
      + (if Boundary(seg, n - 1, sc) then [seg[PartStart(seg, n - 1, sc)..n - 1]] else [])
  }

  function CamelParts(seg: string, sc: Script): seq<string> {
    PartsBefore(seg, |seg|, sc) + [seg[PartStart(seg, |seg|, sc)..]]
  }

  /** `seg[i]` is a capital, and after a lower-case letter or digit, or after a capital and before a lower-case letter. */
  ghost predicate CutBefore(seg: string, i: nat, sc: Script) {
    && 0 < i < |seg| && sc.classOf(seg[i]) == Upper
    && var before := sc.classOf(seg[i - 1]);
       before == Lower || before == Digit || (before == Upper && i < |seg| - 1 && sc.classOf(seg[i + 1]) == Lower)
  }

  ghost function CutsIn(seg: string, n: nat, sc: Script): set<nat> {
    set i | 0 < i < n && CutBefore(seg, i, sc)
  }

  /** Where each part but the first begins. */
  ghost function Begins(parts: seq<string>): set<nat> {
    if |parts| <= 1 then {} else Begins(parts[..|parts| - 1]) + {|Joined(parts[..|parts| - 1])|}
  }

  /** Where each part ends. */
  ghost function Ends(parts: seq<string>): set<nat> {
    if parts == [] then {} else Ends(parts[..|parts| - 1]) + {|Joined(parts)|}
  }

  lemma {:induction false} BeginsAreEnds(parts: seq<string>, last: string)
    ensures Begins(parts + [last]) == Ends(parts)
  {
    assert (parts + [last])[..|parts|] == parts;
    if parts != [] {
      var n := |parts| - 1;
      assert parts == parts[..n] + [parts[n]];
      BeginsAreEnds(parts[..n], parts[n]);
    }
  }

  lemma {:induction false} EndsMore(parts: seq<string>, last: string)
    ensures Ends(parts + [last]) == Ends(parts) + {|Joined(parts)| + |last|}
  {
    assert (parts + [last])[..|parts|] == parts;
  }

  lemma {:induction false} PartsEnd(seg: string, n: nat, sc: Script)
    requires n <= |seg|
    ensures Ends(PartsBefore(seg, n, sc)) == CutsIn(seg, n, sc)
  {
    hide Ends, Joined, PartStart;
    if n == 0 {
      assert Ends([]) == {} by { NoneEnds(); }
    } else {
      var m: nat := n - 1;
      PartsEnd(seg, m, sc);
      BoundaryIsCut(seg, m, sc);
      assert CutsIn(seg, n, sc) == CutsIn(seg, m, sc) + if CutBefore(seg, m, sc) then {m} else {};
      if Boundary(seg, m, sc) {
        PartsJoin(seg, m, sc);
        EndsMore(PartsBefore(seg, m, sc), seg[PartStart(seg, m, sc)..m]);
      } else {
        assert PartsBefore(seg, n, sc) == PartsBefore(seg, m, sc) + [] == PartsBefore(seg, m, sc);
      }
    }
  }

  lemma {:induction false} NoneEnds()
    ensures Ends([]) == {}
  {
  }

  lemma {:induction false} BoundaryIsCut(seg: string, i: nat, sc: Script)
    ensures Boundary(seg, i, sc) <==> CutBefore(seg, i, sc)
  {
  }

  /** `parts` cover `seg`, none empty, and begin exactly where it is to be cut. */
  ghost predicate CutInto(seg: string, parts: seq<string>, sc: Script) {
    Joined(parts) == seg && (forall p | p in parts :: p != []) && forall i :: i in Begins(parts) <==> 0 < i < |seg| && CutBefore(seg, i, sc)
  }

  lemma {:induction false} CamelCuts(seg: string, sc: Script)
    requires seg != []
    ensures CutInto(seg, CamelParts(seg, sc), sc)
  {
    CamelCovers(seg, sc);
    PartsEnd(seg, |seg|, sc);
    BeginsAreEnds(PartsBefore(seg, |seg|, sc), seg[PartStart(seg, |seg|, sc)..]);
    hide Begins, Ends, Joined, PartsBefore, PartStart;
  }

  method SplitCamel(seg: string, sc: Script, parts: seq<string>) returns (out: seq<string>)
    requires seg != []
    ensures out == parts + CamelParts(seg, sc)
    ensures CutInto(seg, out[|parts|..], sc)
  {
    hide CutInto;
    CamelCuts(seg, sc);
    out := parts;
    var start := 0;
    assert PartsBefore(seg, 1, sc) == [] by { assert PartsBefore(seg, 0, sc) == []; }
    assert PartStart(seg, 1, sc) == 0;
    for i: nat := 1 to |seg|
      invariant start == PartStart(seg, i, sc) && out == parts + PartsBefore(seg, i, sc)
    {
      if sc.classOf(seg[i]) != Upper {
        continue;
      }
      var prev := sc.classOf(seg[i - 1]);
      var afterNonUpper := prev != Upper && prev != Other;
      var acronymEnd := prev == Upper && i + 1 < |seg| && sc.classOf(seg[i + 1]) == Lower;
      if afterNonUpper || acronymEnd {
        out := out + [seg[start..i]];
        start := i;
      }
    }
    out := out + [seg[start..]];
    assert out[|parts|..] == CamelParts(seg, sc);
  }

  /** Up to the first `_`. */
  function SegmentEnd(atom: string): (n: nat)
    ensures n <= |atom| && (n < |atom| ==> atom[n] == '_') && forall i | 0 <= i < n :: atom[i] != '_'
  {
    if atom == [] || atom[0] == '_' then 0 else 1 + SegmentEnd(atom[1..])
  }

  function AllParts(atom: string, sc: Script): seq<string>
    decreases |atom|
  {
    var n := SegmentEnd(atom);
    (if n == 0 then [] else CamelParts(atom[..n], sc)) + if n == |atom| then [] else AllParts(atom[n + 1..], sc)
  }

  /** Nothing to add when the atom is its own only part. */
  function IdentifierParts(atom: string, sc: Script): seq<string> {
    var parts := AllParts(atom, sc);
    if |parts| == 1 && |parts[0]| == |atom| then [] else parts
  }

  lemma {:induction false} PartsStep(atom: string, sc: Script)
    ensures var n := SegmentEnd(atom);
      AllParts(atom, sc) == (if n == 0 then [] else CamelParts(atom[..n], sc)) + if n == |atom| then [] else AllParts(atom[n + 1..], sc)
  {
  }

  function FirstParts(atom: string, sc: Script): seq<string> {
    if SegmentEnd(atom) == 0 then [] else CamelParts(atom[..SegmentEnd(atom)], sc)
  }

  lemma {:induction false} PartsLast(atom: string, sc: Script)
    ensures AllParts(atom, sc) == FirstParts(atom, sc) + if SegmentEnd(atom) == |atom| then [] else AllParts(atom[SegmentEnd(atom) + 1..], sc)
  {
    PartsStep(atom, sc);
  }

  lemma {:induction false} JoinRight(a: seq<string>, b: seq<string>, c: seq<string>)
    ensures a + (b + c) == (a + b) + c && a + [] == a && [] + a == a
  {
  }

  method SplitIdentifier(atom: string, sc: Script) returns (parts: seq<string>)
    ensures parts == IdentifierParts(atom, sc)
  {
    hide AllParts, SegmentEnd, FirstParts;
    parts := [];
    var rest := atom;
    JoinRight(AllParts(atom, sc), [], []);
    while true
      invariant AllParts(atom, sc) == parts + AllParts(rest, sc)
      decreases |rest|
    {
      PartsLast(rest, sc);
      var n := SegmentEnd(rest);
      ghost var before := parts;
      parts := FirstSegment(rest, n, sc, parts);
      if n == |rest| {
        JoinRight(before, FirstParts(rest, sc), []);
        JoinRight(parts, [], []);
        break;
      }
      JoinRight(before, FirstParts(rest, sc), AllParts(rest[n + 1..], sc));
      rest := rest[n + 1..];
    }
    if |parts| == 1 && |parts[0]| == |atom| {
      parts := [];
    }
  }

  /** Empty segments between underscores are passed over. */
  method FirstSegment(rest: string, n: nat, sc: Script, parts: seq<string>) returns (out: seq<string>)
    requires n == SegmentEnd(rest)
    ensures out == parts + FirstParts(rest, sc)
  {
    hide CamelParts, SegmentEnd;
    out := parts;
    if n > 0 {
      out := SplitCamel(rest[..n], sc, parts);
    }
  }

  function Joined(parts: seq<string>): string {
    if parts == [] then [] else Joined(parts[..|parts| - 1]) + parts[|parts| - 1]
  }

  function WithoutUnderscores(s: string): string {
    if s == [] then [] else WithoutUnderscores(s[..|s| - 1]) + if s[|s| - 1] == '_' then [] else [s[|s| - 1]]
  }

  lemma {:induction false} JoinedConcat(a: seq<string>, b: seq<string>)
    ensures Joined(a + b) == Joined(a) + Joined(b)
  {
    if b == [] {
      assert a + b == a;
    } else {
      assert (a + b)[..|a + b| - 1] == a + b[..|b| - 1];
      JoinedConcat(a, b[..|b| - 1]);
    }
  }

  lemma {:induction false} WithoutConcat(a: string, b: string)
    ensures WithoutUnderscores(a + b) == WithoutUnderscores(a) + WithoutUnderscores(b)
  {
    if b == [] {
      assert a + b == a;
    } else {
      assert (a + b)[..|a + b| - 1] == a + b[..|b| - 1];
      WithoutConcat(a, b[..|b| - 1]);
    }
  }

  lemma {:induction false} NoUnderscore(s: string)
    requires '_' !in s
    ensures WithoutUnderscores(s) == s
  {
    if s != [] {
      NoUnderscore(s[..|s| - 1]);
    }
  }

  lemma {:induction false} JoinedOne(s: string)
    ensures Joined([s]) == s
  {
    assert [s][..0] == [];
  }

  lemma {:induction false} NoneJoined()
    ensures Joined([]) == [] && WithoutUnderscores([]) == []
  {
  }

  lemma {:induction false} PartsJoin(seg: string, n: nat, sc: Script)
    requires n <= |seg|
    ensures Joined(PartsBefore(seg, n, sc)) == seg[..PartStart(seg, n, sc)]
    ensures forall p | p in PartsBefore(seg, n, sc) :: p != []
  {
    hide Joined;
    if n == 0 {
      NoneJoined();
    } else {
      var m: nat := n - 1;
      PartsJoin(seg, m, sc);
      if Boundary(seg, m, sc) {
        var start := PartStart(seg, m, sc);
        JoinedConcat(PartsBefore(seg, m, sc), [seg[start..m]]);
        JoinedOne(seg[start..m]);
        assert seg[..m] == seg[..start] + seg[start..m];
      } else {
        assert PartsBefore(seg, n, sc) == PartsBefore(seg, m, sc) + [] == PartsBefore(seg, m, sc);
      }
    }
  }

  lemma {:induction false} CamelCovers(seg: string, sc: Script)
    requires seg != []
    ensures Joined(CamelParts(seg, sc)) == seg
    ensures forall p | p in CamelParts(seg, sc) :: p != []
  {
    hide Joined, PartsBefore;
    PartsJoin(seg, |seg|, sc);
    var start := PartStart(seg, |seg|, sc);
    JoinedConcat(PartsBefore(seg, |seg|, sc), [seg[start..]]);
    JoinedOne(seg[start..]);
    assert seg == seg[..start] + seg[start..];
  }

  lemma {:induction false} UnderscoreGoes(seg: string, rest: string)
    requires '_' !in seg
    ensures WithoutUnderscores(seg + ['_'] + rest) == seg + WithoutUnderscores(rest)
  {
    WithoutConcat(seg + ['_'], rest);
    WithoutConcat(seg, ['_']);
    NoUnderscore(seg);
    assert WithoutUnderscores(['_']) == [] by { assert ['_'][..0] == []; }
  }

  /** Splitting an atom loses nothing but its underscores, and makes no empty part. */
  lemma {:induction false} PartsCover(atom: string, sc: Script)
    ensures Joined(AllParts(atom, sc)) == WithoutUnderscores(atom)
    ensures forall p | p in AllParts(atom, sc) :: p != []
    decreases |atom|
  {
    hide AllParts, CamelParts, Joined, WithoutUnderscores;
    NoneJoined();
    PartsStep(atom, sc);
    var n := SegmentEnd(atom);
    var seg := atom[..n];
    var first := if n == 0 then [] else CamelParts(seg, sc);
    if n > 0 {
      CamelCovers(seg, sc);
    }
    if n < |atom| {
      var rest := atom[n + 1..];
      PartsCover(rest, sc);
      JoinedConcat(first, AllParts(rest, sc));
      assert atom == seg + ['_'] + rest;
      UnderscoreGoes(seg, rest);
    } else {
      assert seg == atom && first + [] == first;
      NoUnderscore(atom);
    }
  }

  // ----- Tokens -----

  /** Parts as tokens at `position`: none equal to the whole, none twice. */
  function PartTokens(parts: seq<string>, whole: Term, position: Position, sc: Script): seq<Token> {
    if parts == [] then []
    else
      var front := PartTokens(parts[..|parts| - 1], whole, position, sc);
      var t := Token(sc.fold(parts[|parts| - 1]), position);
      if t.term != whole && t !in front then front + [t] else front
  }

  function AtomTokens(atom: string, position: Position, split: bool, sc: Script): seq<Token> {
    [Token(sc.fold(atom), position)]
    + if split then PartTokens(IdentifierParts(atom, sc), sc.fold(atom), position, sc) else []
  }

  /** Tokens of `atoms`, the first of which takes `position`. */
  function TokensFrom(atoms: seq<string>, position: Position, split: bool, sc: Script): seq<Token>
    decreases |atoms|
  {
    if atoms == [] then [] else AtomTokens(atoms[0], position, split, sc) + TokensFrom(atoms[1..], position + 1, split, sc)
  }

  lemma {:induction false} PartTokensAt(parts: seq<string>, whole: Term, position: Position, sc: Script)
    ensures forall t | t in PartTokens(parts, whole, position, sc) :: t.position == position && t.term != whole
  {
    if parts != [] {
      PartTokensAt(parts[..|parts| - 1], whole, position, sc);
    }
  }

  method CollectParts(parts: seq<string>, whole: Term, position: Position, sc: Script) returns (tokens: seq<Token>)
    ensures tokens == PartTokens(parts, whole, position, sc)
  {
    tokens := [];
    for k := 0 to |parts|
      invariant tokens == PartTokens(parts[..k], whole, position, sc)
    {
      assert parts[..k + 1][..k] == parts[..k];
      var part := Token(sc.fold(parts[k]), position);
      if part.term != whole && part !in tokens {
        tokens := tokens + [part];
      }
    }
    assert parts[..|parts|] == parts;
  }

  lemma {:induction false} AtomsStep(w: string, sc: Script)
    ensures var run := w[RunLength(w, true)..];
      AtomsOf(w, sc) == if run == [] then [] else
        (if IsAtom(run[..RunLength(run, false)], sc) then [run[..RunLength(run, false)]] else []) + AtomsOf(run[RunLength(run, false)..], sc)
    ensures var run := w[RunLength(w, true)..]; |run| <= |w| && (run != [] ==> RunLength(run, false) > 0)
  {
  }

  lemma {:induction false} NoAtoms(sc: Script)
    ensures AtomsOf([], sc) == []
  {
  }

  lemma {:induction false} WordsStep(words: seq<string>, k: nat, sc: Script)
    requires k <= |words|
    ensures AtomsFrom(words, k, sc) == if k == |words| then [] else AtomsOf(words[k], sc) + AtomsFrom(words, k + 1, sc)
  {
  }

  /** The first run, and what is still to come. */
  lemma {:induction false} AtomsAhead(w: string, later: seq<string>, sc: Script)
    ensures var run := w[RunLength(w, true)..];
      if run == [] then AtomsOf(w, sc) + later == later
      else
        var end := RunLength(run, false);
        && |run[end..]| < |w| && (run[end..] == [] ==> AtomsOf(run[end..], sc) + later == later)
        && AtomsOf(w, sc) + later == (if IsAtom(run[..end], sc) then [run[..end]] else []) + (AtomsOf(run[end..], sc) + later)
  {
    AtomsStep(w, sc);
    NoAtoms(sc);
    hide AtomsOf, RunLength, IsAtom;
  }

  class Tokens {
    const words: seq<string>
    const split: bool
    const sc: Script
    var at: nat
    var word: Option<string>
    var pending: seq<Token>
    var nextPosition: nat

    /** Atoms not yet taken. */
    ghost function Rest(): seq<string>
      requires at <= |words|
      reads this
    {
      (if word.Some? then AtomsOf(word.value, sc) else []) + AtomsFrom(words, at, sc)
    }

    /** Tokens not yet yielded. */
    ghost function Left(): seq<Token>
      requires at <= |words|
      reads this
    {
      pending + TokensFrom(Rest(), nextPosition, split, sc)
    }

    constructor (words: seq<string>, split: bool, sc: Script)
      ensures this.words == words && this.split == split && this.sc == sc
      ensures at <= |words| && Left() == TokensFrom(AtomsFrom(words, 0, sc), 0, split, sc)
    {
      this.words, this.split, this.sc := words, split, sc;
      at, word, pending, nextPosition := 0, None, [], 0;
      new;
      assert Rest() == AtomsFrom(words, 0, sc);
    }

    method NextAtom() returns (atom: Option<string>)
      requires at <= |words|
      modifies `at, `word
      ensures at <= |words|
      ensures if old(Rest()) == [] then atom == None && Rest() == [] else atom == Some(old(Rest())[0]) && Rest() == old(Rest())[1..]
    {
      hide AtomsOf, RunLength, IsAtom, AtomsFrom, IsCut;
      while true
        invariant at <= |words| && Rest() == old(Rest())
        decreases |words| - at, if word.Some? then 1 + |word.value| else 0
      {
        if word.Some? {
          var w := word.value;
          AtomsAhead(w, AtomsFrom(words, at, sc), sc);
          word := None;
          var run := w[RunLength(w, true)..];
          if run == [] {
            assert Rest() == AtomsFrom(words, at, sc);
            continue;
          }
          var end := RunLength(run, false);
          var found, remainder := run[..end], run[end..];
          if remainder != [] {
            word := Some(remainder);
          }
          assert Rest() == AtomsOf(remainder, sc) + AtomsFrom(words, at, sc);
          if IsAtom(found, sc) {
            return Some(found);
          }
        } else {
          WordsStep(words, at, sc);
          if at == |words| {
            return None;
          }
          word, at := Some(words[at]), at + 1;
        }
      }
    }

    method Next() returns (t: Option<Token>)
      requires at <= |words|
      modifies this
      ensures at <= |words|
      ensures if old(Left()) == [] then t == None && Left() == [] else t == Some(old(Left())[0]) && Left() == old(Left())[1..]
    {
      hide IdentifierParts, PartTokens, AtomsOf, AtomsFrom;
      if pending != [] {
        t, pending := Some(pending[0]), pending[1..];
        return;
      }
      var atom := NextAtom();
      if atom.None? { return None; }
      var position := nextPosition;
      nextPosition := nextPosition + 1;
      var whole := sc.fold(atom.value);
      if split {
        var parts := SplitIdentifier(atom.value, sc);
        pending := CollectParts(parts, whole, position, sc);
      }
      t := Some(Token(whole, position));
    }
  }

  method Tokenize(words: seq<string>, split: bool, sc: Script) returns (tokens: seq<Token>)
    ensures tokens == TokensFrom(AtomsFrom(words, 0, sc), 0, split, sc)
  {
    hide TokensFrom, AtomsFrom, Tokens.Rest, Tokens.Left;
    tokens := [];
    var it := new Tokens(words, split, sc);
    ghost var all := it.Left();
    while true
      invariant fresh(it) && it.at <= |it.words| && tokens + it.Left() == all
      decreases |it.Left()|
    {
      ghost var left := it.Left();
      var t := it.Next();
      if t.None? {
        assert tokens + [] == tokens;
        return;
      }
      assert tokens + left == tokens + [left[0]] + left[1..];
      tokens := tokens + [t.value];
    }
  }
}
