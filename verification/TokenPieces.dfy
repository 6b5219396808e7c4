/**
 Atoms and identifier parts by the characters alone: where words and
 identifiers are cut, and that every piece between two neighbouring cuts finds
 its document (src/tokenizer.rs).
 */
module TokenPieces {
  import opened Wrappers
  import opened Documents
  import opened Tokenizer
  import opened TokenMeaning
  import opened Query
  import TermDict

  // ----- Cut characters -----

  /** The punctuation that UAX #29 keeps inside words, beyond ASCII, by its Word_Break class. */
  const MID_LETTER: set<int> := {0x00B7, 0x0387, 0x055F, 0x05F4, 0x2027, 0xFE13, 0xFE55, 0xFF1A}
  const MID_NUM_LET: set<int> := {0x2018, 0x2019, 0x2024, 0xFE52, 0xFF07, 0xFF0E}
  const MID_NUM: set<int> :=
    {0x037E, 0x0589, 0x060C, 0x060D, 0x066C, 0x07F8, 0x2044, 0xFE10, 0xFE14, 0xFE50, 0xFE54, 0xFF0C, 0xFF1B}

  /** What cuts words: of ASCII the printing characters but letters, digits and `_`, beyond it exactly that punctuation. */
  lemma {:induction false} CutsAre(c: char)
    ensures IsCut(c)
            <==> if c as int < 0x80 then '!' <= c <= '~' && c != '_' && !('0' <= c <= '9') && !('A' <= c <= 'Z') && !('a' <= c <= 'z')
                 else c as int in MID_LETTER + MID_NUM_LET + MID_NUM
  {
  }

  // ----- Atoms of a word -----

  /** A longest run without cut characters that holds a letter or digit. */
  ghost predicate AtomRun(w: string, a: nat, b: nat, sc: Script) {
    && a < b <= |w| && (forall i | a <= i < b :: !IsCut(w[i])) && (a > 0 ==> IsCut(w[a - 1])) && (b < |w| ==> IsCut(w[b]))
    && exists i :: a <= i < b && sc.alphanumeric(w[i])
  }

  lemma {:induction false} FirstRun(w: string, start: nat, end: nat)
    requires start <= |w| && end <= |w[start..]| && (forall i | 0 <= i < end :: IsCut(w[start..][i]) == false)
    requires end < |w[start..]| ==> IsCut(w[start..][end])
    ensures (forall i | start <= i < start + end :: !IsCut(w[i])) && (start + end < |w| ==> IsCut(w[start + end]))
    ensures w[start..][..end] == w[start..start + end] && w[start..][end..] == w[start + end..]
  {
    hide IsCut;
    forall i | start <= i < start + end
      ensures !IsCut(w[i])
    {
      assert w[start..][i - start] == w[i];
    }
  }

  lemma {:induction false} SliceAfter(w: string, end: nat, a: nat, b: nat)
    requires end <= |w| && a <= b <= |w| - end
    ensures w[a + end..b + end] == w[end..][a..b]
  {
  }

  lemma {:induction false} RunOrRest(w: string, start: nat, end: nat, a: nat, b: nat, sc: Script)
    requires start < end <= |w| && (forall i | 0 <= i < start :: IsCut(w[i])) && (forall i | start <= i < end :: !IsCut(w[i]))
    requires (end < |w| ==> IsCut(w[end])) && AtomRun(w, a, b, sc)
    ensures (a == start && b == end && IsAtom(w[start..end], sc)) || (a >= end && AtomRun(w[end..], a - end, b - end, sc))
  {
    assert a >= start by { assert !IsCut(w[a]); }
    if a < end {
      assert a == start;
      assert b == end;
      var i :| a <= i < b && sc.alphanumeric(w[i]);
      assert w[start..end][i - a] == w[i];
    } else {
      var rest := w[end..];
      var i :| a <= i < b && sc.alphanumeric(w[i]);
      assert rest[i - end] == w[i];
    }
  }

  lemma {:induction false} RestRun(w: string, end: nat, a: nat, b: nat, sc: Script)
    requires 0 < end <= |w| && (end < |w| ==> IsCut(w[end])) && AtomRun(w[end..], a, b, sc)
    ensures AtomRun(w, a + end, b + end, sc)
  {
    var rest := w[end..];
    assert rest[a] == w[a + end];
    assert a > 0;
    var i :| a <= i < b && sc.alphanumeric(rest[i]);
    assert w[i + end] == rest[i];
    forall k | a + end <= k < b + end
      ensures !IsCut(w[k])
    {
      assert w[k] == rest[k - end];
    }
  }

  /** `atoms` are all those runs, from left to right. */
  ghost predicate Placed(w: string, atoms: seq<string>, starts: seq<nat>, ends: seq<nat>, sc: Script) {
    && |starts| == |ends| == |atoms|
    && (forall k: nat | k < |atoms| :: Stands(w, starts[k], ends[k], atoms[k], sc))
    && (forall j: nat, k: nat | j < k < |atoms| :: ends[j] < starts[k])
    && forall a: nat, b: nat | AtomRun(w, a, b, sc) :: RunAmong(starts, ends, a, b)
  }

  ghost predicate Stands(w: string, a: nat, b: nat, s: string, sc: Script) {
    AtomRun(w, a, b, sc) && s == w[a..b]
  }

  ghost predicate RunAmong(starts: seq<nat>, ends: seq<nat>, a: nat, b: nat)
    requires |starts| == |ends|
  {
    exists k: nat :: k < |starts| && starts[k] == a && ends[k] == b
  }

  function Shifted(xs: seq<nat>, n: nat): (ys: seq<nat>)
    ensures |ys| == |xs| && forall k | 0 <= k < |xs| :: ys[k] == xs[k] + n
  {
    seq(|xs|, k requires 0 <= k < |xs| => xs[k] + n)
  }

  /** The atoms of a word, where they stand. */
  lemma {:induction false} AtomsPlaced(w: string, sc: Script) returns (starts: seq<nat>, ends: seq<nat>)
    ensures Placed(w, AtomsOf(w, sc), starts, ends, sc)
    decreases |w|
  {
    hide AtomsOf, RunLength, IsAtom, IsCut, Placed, AtomRun;
    AtomsStep(w, sc);
    NoAtoms(sc);
    var start := RunLength(w, true);
    var run := w[start..];
    if run == [] {
      NonePlaced(w, sc);
      starts, ends := [], [];
    } else {
      var n := RunLength(run, false);
      FirstRun(w, start, n);
      var end := start + n;
      var s, e := AtomsPlaced(w[end..], sc);
      LaterPlaced(w, end, AtomsOf(w[end..], sc), s, e, sc);
      starts, ends := Shifted(s, end), Shifted(e, end);
      if IsAtom(run[..n], sc) {
        OnePlaced(w, start, end, AtomsOf(w[end..], sc), starts, ends, sc);
        starts, ends := [start] + starts, [end] + ends;
      } else {
        SkipPlaced(w, start, end, AtomsOf(w[end..], sc), starts, ends, sc);
        assert [] + AtomsOf(w[end..], sc) == AtomsOf(w[end..], sc);
      }
    }
  }

  lemma {:induction false} NonePlaced(w: string, sc: Script)
    requires forall i | 0 <= i < |w| :: IsCut(w[i])
    ensures Placed(w, [], [], [], sc)
  {
    hide IsCut;
  }

  /** Every atom of `w` from `end` on, among all those that begin there. */
  ghost predicate PlacedFrom(w: string, end: nat, atoms: seq<string>, starts: seq<nat>, ends: seq<nat>, sc: Script) {
    && |starts| == |ends| == |atoms|
    && (forall k: nat | k < |atoms| :: end < starts[k] && Stands(w, starts[k], ends[k], atoms[k], sc))
    && (forall j: nat, k: nat | j < k < |atoms| :: ends[j] < starts[k])
    && forall a: nat, b: nat | end <= a && end <= b && AtomRun(w, a, b, sc) && AtomRun(w[end..], a - end, b - end, sc) :: RunAmong(starts, ends, a, b)
  }

  lemma {:induction false} LaterPlaced(w: string, end: nat, atoms: seq<string>, s: seq<nat>, e: seq<nat>, sc: Script)
    requires 0 < end <= |w| && (end < |w| ==> IsCut(w[end])) && Placed(w[end..], atoms, s, e, sc)
    ensures PlacedFrom(w, end, atoms, Shifted(s, end), Shifted(e, end), sc)
  {
    hide IsCut, AtomRun;
    var starts, ends := Shifted(s, end), Shifted(e, end);
    forall k: nat | k < |atoms|
      ensures end < starts[k] && Stands(w, starts[k], ends[k], atoms[k], sc)
    {
      assert Stands(w[end..], s[k], e[k], atoms[k], sc);
      RestRun(w, end, s[k], e[k], sc);
      RunBounds(w[end..], s[k], e[k], sc);
      SliceAfter(w, end, s[k], e[k]);
    }
    forall a: nat, b: nat | end <= a && end <= b && AtomRun(w, a, b, sc) && AtomRun(w[end..], a - end, b - end, sc)
      ensures RunAmong(starts, ends, a, b)
    {
      RunBounds(w, a, b, sc);
      assert RunAmong(s, e, a - end, b - end);
      var k: nat :| k < |s| && s[k] == a - end && e[k] == b - end;
      assert starts[k] == a && ends[k] == b;
    }
  }

  lemma {:induction false} RunBounds(w: string, a: nat, b: nat, sc: Script)
    requires AtomRun(w, a, b, sc)
    ensures a < b <= |w| && !IsCut(w[a])
  {
  }

  lemma {:induction false} OnePlaced(w: string, start: nat, end: nat, atoms: seq<string>, starts: seq<nat>, ends: seq<nat>, sc: Script)
    requires start < end <= |w| && (forall i | 0 <= i < start :: IsCut(w[i])) && (forall i | start <= i < end :: !IsCut(w[i]))
    requires (end < |w| ==> IsCut(w[end])) && IsAtom(w[start..end], sc) && PlacedFrom(w, end, atoms, starts, ends, sc)
    ensures Placed(w, [w[start..end]] + atoms, [start] + starts, [end] + ends, sc)
  {
    hide IsCut, IsAtom, AtomRun, Stands;
    FirstIsRun(w, start, end, sc);
    var ss, es := [start] + starts, [end] + ends;
    forall a: nat, b: nat | AtomRun(w, a, b, sc)
      ensures RunAmong(ss, es, a, b)
    {
      RunOrRest(w, start, end, a, b, sc);
      RunBounds(w, a, b, sc);
      if a == start {
        assert ss[0] == a && es[0] == b;
      } else {
        assert RunAmong(starts, ends, a, b);
        var k: nat :| k < |starts| && starts[k] == a && ends[k] == b;
        assert ss[k + 1] == a && es[k + 1] == b;
      }
    }
  }

  lemma {:induction false} FirstIsRun(w: string, start: nat, end: nat, sc: Script)
    requires start < end <= |w| && (forall i | 0 <= i < start :: IsCut(w[i])) && (forall i | start <= i < end :: !IsCut(w[i]))
    requires (end < |w| ==> IsCut(w[end])) && IsAtom(w[start..end], sc)
    ensures AtomRun(w, start, end, sc) && Stands(w, start, end, w[start..end], sc)
  {
    hide IsCut;
    var s := w[start..end];
    var i :| 0 <= i < |s| && sc.alphanumeric(s[i]);
    assert sc.alphanumeric(w[start + i]);
  }

  lemma {:induction false} SkipPlaced(w: string, start: nat, end: nat, atoms: seq<string>, starts: seq<nat>, ends: seq<nat>, sc: Script)
    requires start < end <= |w| && (forall i | 0 <= i < start :: IsCut(w[i])) && (forall i | start <= i < end :: !IsCut(w[i]))
    requires (end < |w| ==> IsCut(w[end])) && !IsAtom(w[start..end], sc) && PlacedFrom(w, end, atoms, starts, ends, sc)
    ensures Placed(w, atoms, starts, ends, sc)
  {
    hide IsCut, IsAtom, AtomRun;
    forall a: nat, b: nat | AtomRun(w, a, b, sc)
      ensures RunAmong(starts, ends, a, b)
    {
      RunOrRest(w, start, end, a, b, sc);
      RunBounds(w, a, b, sc);
    }
  }

  // ----- Parts of an identifier -----

  /** An identifier's pieces begin and end at its ends, beside an underscore, or at a capital. */
  ghost predicate Edge(atom: string, i: nat, sc: Script)
    requires i <= |atom|
  {
    || i == 0 || i == |atom| || atom[i - 1] == '_' || atom[i] == '_'
    || (sc.classOf(atom[i]) == Upper
        && (sc.classOf(atom[i - 1]) == Lower || sc.classOf(atom[i - 1]) == Digit
            || (sc.classOf(atom[i - 1]) == Upper && i + 1 < |atom| && atom[i + 1] != '_' && sc.classOf(atom[i + 1]) == Lower)))
  }

  /** What lies between two neighbouring edges, underscores aside. */
  ghost predicate Piece(atom: string, a: nat, b: nat, sc: Script) {
    && a < b <= |atom| && '_' !in atom[a..b] && Edge(atom, a, sc) && Edge(atom, b, sc)
    && forall i | a < i < b :: !Edge(atom, i, sc)
  }

  ghost predicate IsPieceOf(atom: string, s: string, sc: Script) {
    exists a: nat, b: nat :: Piece(atom, a, b, sc) && s == atom[a..b]
  }

  /** Without underscores, edges are the cuts and the two ends. */
  lemma {:induction false} SegmentEdges(seg: string, i: nat, sc: Script)
    requires '_' !in seg && i <= |seg|
    ensures Edge(seg, i, sc) <==> i == 0 || i == |seg| || Boundary(seg, i, sc)
  {
    if 0 < i < |seg| {
      assert seg[i - 1] in seg && seg[i] in seg;
      if i + 1 < |seg| {
        assert seg[i + 1] in seg;
      }
    }
  }

  lemma {:induction false} BeforeIff(seg: string, n: nat, sc: Script, s: string)
    requires n <= |seg|
    ensures s in PartsBefore(seg, n, sc) <==> exists m: nat :: m < n && EndsPart(seg, m, s, sc)
  {
    hide PartStart, Boundary;
    if n > 0 {
      BeforeIff(seg, n - 1, sc, s);
      if s in PartsBefore(seg, n - 1, sc) {
        var m: nat :| m < n - 1 && EndsPart(seg, m, s, sc);
      }
      if m: nat :| m < n && EndsPart(seg, m, s, sc) {
        if m < n - 1 {
          assert s in PartsBefore(seg, n - 1, sc);
        }
      }
      if s in PartsBefore(seg, n, sc) && s !in PartsBefore(seg, n - 1, sc) {
        assert EndsPart(seg, n - 1, s, sc);
      }
    }
  }

  ghost predicate EndsPart(seg: string, m: nat, s: string, sc: Script) {
    m <= |seg| && Boundary(seg, m, sc) && s == seg[PartStart(seg, m, sc)..m]
  }

  /** The parts of a segment are exactly its pieces. */
  lemma {:induction false} CamelPieces(seg: string, sc: Script, s: string)
    requires seg != [] && '_' !in seg
    ensures s in CamelParts(seg, sc) <==> IsPieceOf(seg, s, sc)
  {
    BeforeIff(seg, |seg|, sc, s);
    hide PartsBefore, PartStart, Boundary, Edge;
    assert seg[PartStart(seg, |seg|, sc)..] == seg[PartStart(seg, |seg|, sc)..|seg|];
    if s in CamelParts(seg, sc) {
      if m: nat :| m < |seg| && EndsPart(seg, m, s, sc) {
        PartIsPiece(seg, m, sc);
      } else {
        PartIsPiece(seg, |seg|, sc);
      }
    }
    if a: nat, b: nat :| Piece(seg, a, b, sc) && s == seg[a..b] {
      PieceIsPart(seg, a, b, sc);
      if b < |seg| {
        SegmentEdges(seg, b, sc);
        assert EndsPart(seg, b, s, sc);
      }
    }
  }

  lemma {:induction false} PartIsPiece(seg: string, m: nat, sc: Script)
    requires '_' !in seg && 0 < m <= |seg| && (m == |seg| || Boundary(seg, m, sc))
    ensures Piece(seg, PartStart(seg, m, sc), m, sc)
  {
    var a := PartStart(seg, m, sc);
    hide PartStart, Edge;
    SegmentEdges(seg, a, sc);
    SegmentEdges(seg, m, sc);
    forall i | a < i < m
      ensures !Edge(seg, i, sc)
    {
      SegmentEdges(seg, i, sc);
    }
    assert forall c | c in seg[a..m] :: c in seg;
  }

  lemma {:induction false} PieceIsPart(seg: string, a: nat, b: nat, sc: Script)
    requires '_' !in seg && Piece(seg, a, b, sc)
    ensures PartStart(seg, b, sc) == a
  {
    var start := PartStart(seg, b, sc);
    hide PartStart, Edge;
    SegmentEdges(seg, a, sc);
    SegmentEdges(seg, start, sc);
  }

  lemma {:induction false} EdgeFirst(atom: string, n: nat, i: nat, sc: Script)
    requires n < |atom| && atom[n] == '_' && i <= n
    ensures Edge(atom, i, sc) <==> Edge(atom[..n], i, sc)
  {
  }

  lemma {:induction false} EdgeAfter(atom: string, n: nat, i: nat, sc: Script)
    requires n < |atom| && atom[n] == '_' && n < i <= |atom|
    ensures Edge(atom, i, sc) <==> Edge(atom[n + 1..], i - n - 1, sc)
  {
    var rest := atom[n + 1..];
    if n + 1 < i < |atom| {
      assert rest[i - n - 1] == atom[i] && rest[i - n - 2] == atom[i - 1];
      assert i + 1 < |atom| ==> rest[i - n] == atom[i + 1];
    }
  }

  lemma {:induction false} PieceFirst(atom: string, n: nat, a: nat, b: nat, sc: Script)
    requires n < |atom| && atom[n] == '_' && a < b <= n
    ensures Piece(atom, a, b, sc) <==> Piece(atom[..n], a, b, sc)
  {
    var seg := atom[..n];
    assert seg[a..b] == atom[a..b];
    forall i | a <= i <= b
      ensures Edge(atom, i, sc) <==> Edge(seg, i, sc)
    {
      EdgeFirst(atom, n, i, sc);
    }
    hide Edge;
  }

  lemma {:induction false} PieceAfter(atom: string, n: nat, a: nat, b: nat, sc: Script)
    requires n < |atom| && atom[n] == '_' && n < a < b <= |atom|
    ensures Piece(atom, a, b, sc) <==> Piece(atom[n + 1..], a - n - 1, b - n - 1, sc)
  {
    hide Edge;
    var rest := atom[n + 1..];
    assert rest[a - n - 1..b - n - 1] == atom[a..b];
    forall i: nat | a <= i <= b
      ensures Edge(atom, i, sc) <==> Edge(rest, i - n - 1, sc)
    {
      EdgeAfter(atom, n, i, sc);
    }
    if Piece(atom, a, b, sc) {
      forall j | a - n - 1 < j < b - n - 1
        ensures !Edge(rest, j, sc)
      {
        assert !Edge(atom, j + n + 1, sc);
      }
    }
  }

  lemma {:induction false} PieceApart(atom: string, n: nat, a: nat, b: nat, sc: Script)
    requires n < |atom| && atom[n] == '_' && Piece(atom, a, b, sc)
    ensures b <= n || n < a
  {
    if a <= n < b {
      SliceHas(atom, a, b, n);
    }
  }

  lemma {:induction false} SliceHas(s: string, a: nat, b: nat, n: nat)
    requires a <= n < b <= |s|
    ensures s[n] in s[a..b]
  {
    assert s[a..b][n - a] == s[n];
  }

  /** A piece of an atom lies before its first underscore or after it. */
  lemma {:induction false} PieceSplits(atom: string, n: nat, sc: Script, s: string)
    requires n < |atom| && atom[n] == '_'
    ensures IsPieceOf(atom, s, sc) <==> IsPieceOf(atom[..n], s, sc) || IsPieceOf(atom[n + 1..], s, sc)
  {
    hide Piece;
    var seg, rest := atom[..n], atom[n + 1..];
    if IsPieceOf(atom, s, sc) {
      PieceEither(atom, n, sc, s);
    }
    if IsPieceOf(seg, s, sc) {
      SegmentPiece(atom, n, sc, s);
    }
    if IsPieceOf(rest, s, sc) {
      RestPiece(atom, n, sc, s);
    }
  }

  lemma {:induction false} PieceEither(atom: string, n: nat, sc: Script, s: string)
    requires n < |atom| && atom[n] == '_' && IsPieceOf(atom, s, sc)
    ensures IsPieceOf(atom[..n], s, sc) || IsPieceOf(atom[n + 1..], s, sc)
  {
    hide Edge;
    var a: nat, b: nat :| Piece(atom, a, b, sc) && s == atom[a..b];
    PieceApart(atom, n, a, b, sc);
    if b <= n {
      PieceFirst(atom, n, a, b, sc);
      assert atom[..n][a..b] == atom[a..b];
    } else {
      PieceAfter(atom, n, a, b, sc);
      assert atom[n + 1..][a - n - 1..b - n - 1] == atom[a..b];
    }
  }

  lemma {:induction false} SegmentPiece(atom: string, n: nat, sc: Script, s: string)
    requires n < |atom| && atom[n] == '_' && IsPieceOf(atom[..n], s, sc)
    ensures IsPieceOf(atom, s, sc)
  {
    hide Edge;
    var a: nat, b: nat :| Piece(atom[..n], a, b, sc) && s == atom[..n][a..b];
    PieceFirst(atom, n, a, b, sc);
    assert atom[..n][a..b] == atom[a..b];
  }

  lemma {:induction false} RestPiece(atom: string, n: nat, sc: Script, s: string)
    requires n < |atom| && atom[n] == '_' && IsPieceOf(atom[n + 1..], s, sc)
    ensures IsPieceOf(atom, s, sc)
  {
    hide Edge;
    var a: nat, b: nat :| Piece(atom[n + 1..], a, b, sc) && s == atom[n + 1..][a..b];
    PieceAfter(atom, n, a + n + 1, b + n + 1, sc);
    assert atom[n + 1..][a..b] == atom[a + n + 1..b + n + 1];
  }

  lemma {:induction false} NoPiece(s: string, sc: Script)
    ensures !IsPieceOf([], s, sc)
  {
  }

  /** The parts of an identifier, split or whole, are exactly its pieces. */
  lemma {:induction false} PartsArePieces(atom: string, sc: Script, s: string)
    ensures s in AllParts(atom, sc) <==> IsPieceOf(atom, s, sc)
    decreases |atom|
  {
    hide IsPieceOf, CamelParts;
    PartsStep(atom, sc);
    var n := SegmentEnd(atom);
    var seg := atom[..n];
    assert '_' !in seg;
    NoPiece(s, sc);
    if n > 0 {
      CamelPieces(seg, sc, s);
    } else {
      assert seg == [];
    }
    if n < |atom| {
      PartsArePieces(atom[n + 1..], sc, s);
      PieceSplits(atom, n, sc, s);
    } else {
      assert seg == atom;
    }
  }

  /**
   Whatever lies between two neighbouring edges of one of a document's
   identifiers finds the document, at the identifier's position.
   */
  lemma {:induction false} PieceFindsDocument(f: CrawledFile, atoms: seq<string>, sc: Script, k: nat, a: nat, b: nat)
    requires HasAtoms(f, atoms, sc) && k < |atoms| && Piece(atoms[k], a, b, sc) && |sc.fold(atoms[k][a..b])| <= TermDict.MAX_TERM_BYTES
    ensures Matches(RecordOf(f), TermNode(sc.fold(atoms[k][a..b]))) && k in PositionsIn(RecordOf(f), sc.fold(atoms[k][a..b]))
  {
    hide HasAtoms, RecordOf, PositionsIn, Edge, TokensFrom, AllParts, IdentifierParts, Matches;
    var atom, part := atoms[k], atoms[k][a..b];
    PartsArePieces(atom, sc, part);
    if part in IdentifierParts(atom, sc) {
      PartFindsDocument(f, atoms, sc, k, part);
    } else {
      OnlyWhole(atom, sc, part);
      WholeAt(atoms, 0, true, sc, k);
      TokenFound(f, atoms, sc, Token(sc.fold(atom), 0 + k));
      FoundMatches(RecordOf(f), sc.fold(atom), k);
    }
  }

  /** A part that is not among an identifier's is the identifier. */
  lemma {:induction false} OnlyWhole(atom: string, sc: Script, part: string)
    requires part in AllParts(atom, sc) && part !in IdentifierParts(atom, sc)
    ensures part == atom
  {
    PartsCover(atom, sc);
    var parts := AllParts(atom, sc);
    hide AllParts, Joined, WithoutUnderscores;
    assert parts == [part];
    JoinedOne(part);
    Shorter(atom);
  }

  lemma {:induction false} Shorter(s: string)
    ensures |WithoutUnderscores(s)| <= |s| && (|WithoutUnderscores(s)| == |s| ==> WithoutUnderscores(s) == s)
  {
    if s != [] {
      Shorter(s[..|s| - 1]);
    }
  }

  // ----- The tokens of an atom -----

  /** Split, an atom gives the whole and each of its pieces once, all at its position, the whole first. */
  lemma {:induction false} AtomTokensAre(atom: string, position: Position, sc: Script)
    ensures var tokens := AtomTokens(atom, position, true, sc);
      && tokens[0] == Token(sc.fold(atom), position)
      && (forall i, j | 0 <= i < j < |tokens| :: tokens[i] != tokens[j])
      && forall t :: t in tokens <==> t.position == position && (t.term == sc.fold(atom) || exists s :: s in IdentifierParts(atom, sc) && sc.fold(s) == t.term)
  {
    var parts, whole := IdentifierParts(atom, sc), sc.fold(atom);
    var tokens := AtomTokens(atom, position, true, sc);
    PartTokensAre(parts, whole, position, sc);
    PartTokensAt(parts, whole, position, sc);
    hide IdentifierParts, PartTokens;
    var rest := PartTokens(parts, whole, position, sc);
    assert tokens == [Token(whole, position)] + rest;
    forall t
      ensures t in tokens <==> t.position == position && (t.term == whole || exists s :: s in parts && sc.fold(s) == t.term)
    {
      assert t in tokens <==> t == Token(whole, position) || t in rest;
    }
    forall i, j | 0 <= i < j < |tokens|
      ensures tokens[i] != tokens[j]
    {
      assert tokens[j] == rest[j - 1] && rest[j - 1] in rest;
      assert i > 0 ==> tokens[i] == rest[i - 1];
    }
  }

  lemma {:induction false} PartTokensAre(parts: seq<string>, whole: Term, position: Position, sc: Script)
    ensures var tokens := PartTokens(parts, whole, position, sc);
      && (forall i, j | 0 <= i < j < |tokens| :: tokens[i] != tokens[j])
      && forall t :: t in tokens <==> t.position == position && t.term != whole && exists s :: s in parts && sc.fold(s) == t.term
  {
    if parts != [] {
      var n := |parts| - 1;
      PartTokensAre(parts[..n], whole, position, sc);
      var front, last := PartTokens(parts[..n], whole, position, sc), Token(sc.fold(parts[n]), position);
      assert parts == parts[..n] + [parts[n]];
      assert last in front ==> exists s :: s in parts[..n] && sc.fold(s) == last.term;
    }
  }
}
