/**
 What index-side and query-side tokens have to do with each other: any stretch of
 a document's own atoms, typed as a query, finds the document, and so does any
 identifier part (src/tokenizer.rs, src/index/builder.rs, src/query/parser.rs).
 */
module TokenMeaning {
  import opened Wrappers
  import opened Documents
  import opened Postings
  import opened Tokenizer
  import opened Build
  import opened Query
  import Parser
  import Lexemes
  import TermDict

  lemma {:induction false} AtomTokensAt(atom: string, position: Position, split: bool, sc: Script)
    ensures forall t | t in AtomTokens(atom, position, split, sc) :: t.position == position
  {
    PartTokensAt(IdentifierParts(atom, sc), sc.fold(atom), position, sc);
    hide IdentifierParts, PartTokens;
  }

  lemma {:induction false} TokensWithin(atoms: seq<string>, position: Position, split: bool, sc: Script)
    ensures forall t | t in TokensFrom(atoms, position, split, sc) :: position <= t.position < position + |atoms|
    decreases |atoms|
  {
    hide AtomTokens;
    if atoms != [] {
      AtomTokensAt(atoms[0], position, split, sc);
      TokensWithin(atoms[1..], position + 1, split, sc);
    }
  }

  /** Positions never go back: the hypothesis under which the encoder accepts every list. */
  lemma {:induction false} TokensOrdered(atoms: seq<string>, position: Position, split: bool, sc: Script)
    ensures OrderedTokens(TokensFrom(atoms, position, split, sc))
    decreases |atoms|
  {
    hide AtomTokens;
    if atoms != [] {
      var first: seq<Token>, rest: seq<Token> := AtomTokens(atoms[0], position, split, sc), TokensFrom(atoms[1..], position + 1, split, sc);
      AtomTokensAt(atoms[0], position, split, sc);
      TokensWithin(atoms[1..], position + 1, split, sc);
      TokensOrdered(atoms[1..], position + 1, split, sc);
      forall i, j | 0 <= i < j < |first + rest|
        ensures (first + rest)[i].position <= (first + rest)[j].position
      {
        assert i < |first| ==> (first + rest)[i] in first;
        assert j < |first| ==> (first + rest)[j] in first;
        assert j >= |first| ==> (first + rest)[j] in rest;
      }
    }
  }

  /** The tokens of atom `k`, wherever it stands. */
  lemma {:induction false} TokensAt(atoms: seq<string>, position: Position, split: bool, sc: Script, k: nat)
    requires k < |atoms|
    ensures forall t | t in AtomTokens(atoms[k], position + k, split, sc) :: t in TokensFrom(atoms, position, split, sc)
    decreases |atoms|
  {
    hide AtomTokens;
    if k > 0 {
      TokensAt(atoms[1..], position + 1, split, sc, k - 1);
    }
  }

  lemma {:induction false} WholeAt(atoms: seq<string>, position: Position, split: bool, sc: Script, k: nat)
    requires k < |atoms|
    ensures Token(sc.fold(atoms[k]), position + k) in TokensFrom(atoms, position, split, sc)
  {
    TokensAt(atoms, position, split, sc, k);
    hide TokensFrom, IdentifierParts, PartTokens;
    assert AtomTokens(atoms[k], position + k, split, sc)[0] == Token(sc.fold(atoms[k]), position + k);
  }

  /** A document is as long as it has atoms, whatever parts they split into. */
  lemma {:induction false} LengthIsAtoms(atoms: seq<string>, split: bool, sc: Script)
    ensures LengthOf(TokensFrom(atoms, 0, split, sc)) == |atoms|
  {
    var tokens := TokensFrom(atoms, 0, split, sc);
    TokensWithin(atoms, 0, split, sc);
    TokensOrdered(atoms, 0, split, sc);
    if atoms != [] {
      var n := |atoms| - 1;
      WholeAt(atoms, 0, split, sc, n);
      hide TokensFrom;
      var t := Token(sc.fold(atoms[n]), 0 + n);
      assert t in tokens;
      var i: nat :| i < |tokens| && tokens[i] == t;
      assert tokens[|tokens| - 1] in tokens && t.position <= tokens[|tokens| - 1].position;
    }
  }

  function Folded(atoms: seq<string>, sc: Script): (ts: seq<Term>)
    ensures |ts| == |atoms| && forall k | 0 <= k < |atoms| :: ts[k] == sc.fold(atoms[k])
  {
    seq(|atoms|, k requires 0 <= k < |atoms| => sc.fold(atoms[k]))
  }

  /** The query side cuts the same atoms and splits none of them. */
  lemma {:induction false} QuerySide(atoms: seq<string>, position: Position, sc: Script)
    ensures |TokensFrom(atoms, position, false, sc)| == |atoms|
    ensures forall k | 0 <= k < |atoms| :: TokensFrom(atoms, position, false, sc)[k] == Token(sc.fold(atoms[k]), position + k)
    decreases |atoms|
  {
    if atoms != [] {
      QuerySide(atoms[1..], position + 1, sc);
    }
  }

  /** A file whose text has these atoms. */
  ghost predicate HasAtoms(f: CrawledFile, atoms: seq<string>, sc: Script) {
    f.kind.TextFile? && f.read.Bytes? && f.read.tokens == Some(TokensFrom(atoms, 0, true, sc))
  }

  lemma {:induction false} TokenFound(f: CrawledFile, atoms: seq<string>, sc: Script, t: Token)
    requires HasAtoms(f, atoms, sc) && t in TokensFrom(atoms, 0, true, sc) && |t.term| <= TermDict.MAX_TERM_BYTES
    ensures t.position in PositionsIn(RecordOf(f), t.term)
  {
    PositionsAre(f.read.tokens.value, t.term);
  }

  /**
   Any text that yields consecutive atoms of a document, typed as a word or in
   quotation marks, parses to a query that matches it, as long as none is too
   long for the dictionary.
   */
  lemma {:induction false} StretchFindsDocument(f: CrawledFile, atoms: seq<string>, sc: Script, lo: nat, hi: nat, input: string, text: string, atomsOf: Parser.Atoms)
    requires HasAtoms(f, atoms, sc) && lo < hi <= |atoms|
    requires Lexemes.Types(input, text) && atomsOf(text) == Folded(atoms[lo..hi], sc)
    requires forall k | lo <= k < hi :: |sc.fold(atoms[k])| <= TermDict.MAX_TERM_BYTES
    ensures Parser.ParsedText(input, atomsOf).Success? && Matches(RecordOf(f), Parser.ParsedText(input, atomsOf).value)
  {
    hide RecordOf, TokensFrom, PositionsIn, HasAtoms, Lexemes.Types, Parser.ParsedText;
    Lexemes.TextParses(input, text, atomsOf);
    var r, terms := RecordOf(f), Folded(atoms[lo..hi], sc);
    forall i: nat | i < hi - lo
      ensures lo + i in PositionsIn(r, terms[i])
    {
      WholeAt(atoms, 0, true, sc, lo + i);
      TokenFound(f, atoms, sc, Token(sc.fold(atoms[lo + i]), 0 + (lo + i)));
    }
    LinedUp(r, terms, lo);
  }

  lemma {:induction false} LinedUp(r: Record, terms: seq<Term>, p: Position)
    requires terms != [] && forall i: nat | i < |terms| :: p + i in PositionsIn(r, terms[i])
    ensures Matches(r, if |terms| == 1 then TermNode(terms[0]) else PhraseNode(terms))
  {
    hide PositionsIn;
    assert p + 0 in PositionsIn(r, terms[0]);
    if |terms| > 1 {
      assert StartsAt(r, terms, p);
      assert p in Starts(r, terms);
    }
  }

  /** A part of one of a document's identifiers finds it too, as a single term. */
  lemma {:induction false} PartFindsDocument(f: CrawledFile, atoms: seq<string>, sc: Script, k: nat, part: string)
    requires HasAtoms(f, atoms, sc) && k < |atoms| && part in IdentifierParts(atoms[k], sc)
    requires |sc.fold(part)| <= TermDict.MAX_TERM_BYTES
    ensures Matches(RecordOf(f), TermNode(sc.fold(part)))
    ensures k in PositionsIn(RecordOf(f), sc.fold(part))
  {
    hide IdentifierParts, AtomTokens, TokensFrom, RecordOf, PositionsIn, HasAtoms;
    TokensAt(atoms, 0, true, sc, k);
    PartOfAtom(atoms[k], 0 + k, sc, part);
    TokenFound(f, atoms, sc, Token(sc.fold(part), 0 + k));
    FoundMatches(RecordOf(f), sc.fold(part), k);
  }

  lemma {:induction false} FoundMatches(r: Record, t: Term, p: Position)
    requires p in PositionsIn(r, t)
    ensures Matches(r, TermNode(t))
  {
  }

  lemma {:induction false} PartOfAtom(atom: string, position: Position, sc: Script, part: string)
    requires part in IdentifierParts(atom, sc)
    ensures Token(sc.fold(part), position) in AtomTokens(atom, position, true, sc)
  {
    hide IdentifierParts, PartTokens;
    var t := Token(sc.fold(part), position);
    if t.term == sc.fold(atom) {
      assert t == AtomTokens(atom, position, true, sc)[0];
    } else {
      PartTokened(IdentifierParts(atom, sc), sc.fold(atom), position, sc, part);
    }
  }

  lemma {:induction false} PartTokened(parts: seq<string>, whole: Term, position: Position, sc: Script, part: string)
    requires part in parts && sc.fold(part) != whole
    ensures Token(sc.fold(part), position) in PartTokens(parts, whole, position, sc)
  {
    var n := |parts| - 1;
    if part in parts[..n] {
      PartTokened(parts[..n], whole, position, sc, part);
    } else {
      assert part == parts[n];
    }
  }

  /** With the tokenizer's own tokens, the encoder accepts every list a build makes. */
  lemma {:induction false} EncoderAcceptsTokenized(files: seq<CrawledFile>, b: BuiltSegment, t: Term, sc: Script, atomsOf: CrawledFile -> seq<string>)
    requires forall f | f in files && f.kind.TextFile? && f.read.Bytes? && f.read.tokens.Some? :: HasAtoms(f, atomsOf(f), sc)
    requires Holds(b, DocsFor(files)) && t in b.terms
    ensures b.terms[t] != [] && ValidList(b.terms[t])
  {
    hide Holds, DocsFor, ValidList;
    forall f | f in files && f.kind.TextFile? && f.read.Bytes? && f.read.tokens.Some?
      ensures OrderedTokens(f.read.tokens.value)
    {
      TokensOrdered(atomsOf(f), 0, true, sc);
    }
    EncoderAccepts(files, b, t);
  }
}
