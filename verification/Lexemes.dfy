/**
 What a query text is made of, and that the lexer finds exactly that: tokens
 where their texts stand, and between them only white space and lone hyphens
 (src/query/parser.rs).
 */
module Lexemes {
  import opened Wrappers
  import opened Documents
  import opened Query
  import opened Lexer
  import opened Parser
  import opened Derivations

  /** The code points of Unicode's White_Space property. */
  const WHITE_SPACE: set<int> :=
    {0x9, 0xA, 0xB, 0xC, 0xD, 0x20, 0x85, 0xA0, 0x1680, 0x2000, 0x2001, 0x2002, 0x2003, 0x2004, 0x2005,
     0x2006, 0x2007, 0x2008, 0x2009, 0x200A, 0x2028, 0x2029, 0x202F, 0x205F, 0x3000}

  lemma {:induction false} SpacesAre(c: char)
    ensures IsSpace(c) <==> c as int in WHITE_SPACE
  {
  }

  /** The characters a token is written with. */
  function Spelling(t: Tok): string {
    match t
    case Word(w) => w
    case Quoted(p) => ['"'] + p + ['"']
    case And => "AND"
    case Or => "OR"
    case Minus => "-"
    case LParen => "("
    case RParen => ")"
  }

  /** White space, or a hyphen that white space or the end follows. */
  predicate Skipped(src: string, p: nat)
    requires p < |src|
  {
    || src[p] as int in WHITE_SPACE
    || (src[p] == '-' && (p + 1 == |src| || src[p + 1] as int in WHITE_SPACE))
  }

  predicate OnlySkipped(src: string, lo: nat, hi: nat)
    requires hi <= |src|
  {
    forall p | lo <= p < hi :: Skipped(src, p)
  }

  predicate Delimits(c: char) {
    c as int in WHITE_SPACE || c in "()\""
  }

  /** A run of characters that delimits nothing, up to one that does, and no hyphen first. */
  predicate WordRun(src: string, lo: nat, hi: nat) {
    && lo < hi <= |src| && src[lo] != '-'
    && (forall p | lo <= p < hi :: !Delimits(src[p]))
    && (hi == |src| || Delimits(src[hi]))
  }

  /** Token `t` stands at `lo`, up to `hi`. */
  predicate StandsFor(src: string, lo: nat, hi: nat, t: Tok) {
    && lo <= hi <= |src| && src[lo..hi] == Spelling(t)
    && match t
       case Word(w) => WordRun(src, lo, hi) && w != "AND" && w != "OR"
       case And => WordRun(src, lo, hi)
       case Or => WordRun(src, lo, hi)
       case Quoted(p) => '"' !in p
       case Minus => hi < |src| && src[hi] as int !in WHITE_SPACE
       case _ => true
  }

  /** From `i` on, the tokens one after another, and nothing else but what is skipped. */
  predicate LaidOut(src: string, i: nat, toks: seq<Located>)
    decreases |toks|
  {
    && i <= |src|
    && if toks == [] then OnlySkipped(src, i, |src|)
       else
         var lo, hi := toks[0].at, toks[0].at + |Spelling(toks[0].tok)|;
         && i <= lo && StandsFor(src, lo, hi, toks[0].tok) && OnlySkipped(src, i, lo) && LaidOut(src, hi, toks[1..])
  }

  /** From `i` on, tokens and what is skipped up to a quotation mark with none after it. */
  predicate LeftOpen(src: string, i: nat, toks: seq<Located>, at: nat)
    decreases |toks|
  {
    && i <= |src|
    && if toks == [] then i <= at < |src| && OnlySkipped(src, i, at) && src[at] == '"' && '"' !in src[at + 1..]
       else
         var lo, hi := toks[0].at, toks[0].at + |Spelling(toks[0].tok)|;
         && i <= lo && StandsFor(src, lo, hi, toks[0].tok) && OnlySkipped(src, i, lo) && LeftOpen(src, hi, toks[1..], at)
  }

  // ----- One token, or one skipped character -----

  lemma {:induction false} DelimitsIs(c: char)
    ensures Delimits(c) == EndsWord(c)
  {
    SpacesAre(c);
  }

  lemma {:induction false} SkipOne(src: string, i: nat)
    requires i < |src| && Skipped(src, i)
    ensures LexFrom(src, i) == LexFrom(src, i + 1)
  {
    SpacesAre(src[i]);
    if i + 1 < |src| {
      SpacesAre(src[i + 1]);
    }
    assert LexFrom(src, |src|) == Success([]);
  }

  lemma {:induction false} WordRunEnds(src: string, lo: nat, hi: nat)
    requires WordRun(src, lo, hi)
    ensures WordEnd(src, lo) == hi && !EndsWord(src[lo])
  {
    forall p | lo <= p < hi ensures !EndsWord(src[p]) {
      DelimitsIs(src[p]);
    }
    if hi < |src| {
      DelimitsIs(src[hi]);
    }
  }

  lemma {:induction false} WordEndRuns(src: string, i: nat)
    requires i < |src| && !EndsWord(src[i]) && src[i] != '-'
    ensures WordRun(src, i, WordEnd(src, i))
  {
    var j := WordEnd(src, i);
    assert i < j;
    forall p | i <= p < j ensures !Delimits(src[p]) {
      DelimitsIs(src[p]);
    }
    if j < |src| {
      DelimitsIs(src[j]);
    }
  }

  lemma {:induction false} QuoteEnds(src: string, lo: nat, p: string)
    requires StandsFor(src, lo, lo + |p| + 2, Quoted(p))
    ensures src[lo] == '"' && QuoteFrom(src, lo + 1) == lo + |p| + 1 && src[lo + 1..lo + |p| + 1] == p
  {
    var hi := lo + |p| + 2;
    var whole := src[lo..hi];
    assert whole == Spelling(Quoted(p));
    assert src[lo] == whole[0] == '"' && src[hi - 1] == whole[|p| + 1] == '"';
    forall k | 0 <= k < |p|
      ensures src[lo + 1 + k] == p[k]
    {
      assert whole[1 + k] == p[k];
    }
    assert src[lo + 1..hi - 1] == p;
    assert forall k | lo + 1 <= k < hi - 1 :: src[k] == p[k - lo - 1];
  }

  lemma {:induction false} TokenRead(src: string, lo: nat, t: Tok)
    requires StandsFor(src, lo, lo + |Spelling(t)|, t)
    ensures LexFrom(src, lo) == Before([Located(lo, t)], LexFrom(src, lo + |Spelling(t)|))
  {
    hide LexFrom;
    if t.Quoted? {
      QuoteRead(src, lo, t.text);
    } else if t.Word? || t == And || t == Or {
      WordRead(src, lo, t);
    } else {
      SymbolRead(src, lo, t);
    }
  }

  lemma {:induction false} QuoteRead(src: string, lo: nat, p: string)
    requires StandsFor(src, lo, lo + |p| + 2, Quoted(p))
    ensures LexFrom(src, lo) == Before([Located(lo, Quoted(p))], LexFrom(src, lo + |p| + 2))
  {
    QuoteEnds(src, lo, p);
    hide QuoteFrom, WordEnd, StandsFor;
  }

  lemma {:induction false} WordRead(src: string, lo: nat, t: Tok)
    requires t.Word? || t == And || t == Or
    requires StandsFor(src, lo, lo + |Spelling(t)|, t)
    ensures LexFrom(src, lo) == Before([Located(lo, t)], LexFrom(src, lo + |Spelling(t)|))
  {
    var hi := lo + |Spelling(t)|;
    WordRunEnds(src, lo, hi);
    RunStarts(src, lo, hi);
    assert WordTok(src[lo..hi]) == t;
    hide WordRun, WordEnd, QuoteFrom, StandsFor, IsSpace, WordTok;
  }

  lemma {:induction false} SymbolRead(src: string, lo: nat, t: Tok)
    requires t == LParen || t == RParen || t == Minus
    requires StandsFor(src, lo, lo + 1, t)
    ensures LexFrom(src, lo) == Before([Located(lo, t)], LexFrom(src, lo + 1))
  {
    assert src[lo] == src[lo..lo + 1][0] == Spelling(t)[0];
    if t == Minus {
      SpacesAre(src[lo + 1]);
    }
    hide WordEnd, QuoteFrom, WordTok;
  }

  lemma {:induction false} RunStarts(src: string, lo: nat, hi: nat)
    requires WordRun(src, lo, hi)
    ensures lo < hi && src[lo] != '-'
  {
  }

  /** What the lexer makes of the character at `i`. */
  lemma {:induction false} TokenFound(src: string, i: nat)
    requires i < |src| && !Skipped(src, i)
    ensures (src[i] == '"' && '"' !in src[i + 1..] && LexFrom(src, i) == Failure(UnterminatedPhrase(i)))
      || exists t :: StandsFor(src, i, i + |Spelling(t)|, t) && |Spelling(t)| > 0
  {
    hide LexFrom, WordRun, WordEnd, QuoteFrom;
    var c := src[i];
    SpacesAre(c);
    if c == '(' {
      assert StandsFor(src, i, i + |Spelling(LParen)|, LParen);
    } else if c == ')' {
      assert StandsFor(src, i, i + |Spelling(RParen)|, RParen);
    } else if c == '"' {
      QuoteFound(src, i);
    } else if c == '-' {
      assert StandsFor(src, i, i + |Spelling(Minus)|, Minus);
    } else {
      WordFound(src, i);
    }
  }

  lemma {:induction false} QuoteFound(src: string, i: nat)
    requires i < |src| && src[i] == '"'
    ensures ('"' !in src[i + 1..] && LexFrom(src, i) == Failure(UnterminatedPhrase(i)))
      || exists t :: StandsFor(src, i, i + |Spelling(t)|, t) && |Spelling(t)| > 0
  {
    var j := QuoteFrom(src, i + 1);
    if j == |src| {
      assert '"' !in src[i + 1..];
    } else {
      var t := Quoted(src[i + 1..j]);
      assert src[i..j + 1] == Spelling(t);
      assert StandsFor(src, i, i + |Spelling(t)|, t);
    }
  }

  lemma {:induction false} WordFound(src: string, i: nat)
    requires i < |src| && !EndsWord(src[i]) && src[i] != '-'
    ensures exists t :: StandsFor(src, i, i + |Spelling(t)|, t) && |Spelling(t)| > 0
  {
    WordEndRuns(src, i);
    var j := WordEnd(src, i);
    RunStarts(src, i, j);
    hide WordRun;
    var t := WordTok(src[i..j]);
    assert Spelling(t) == src[i..j];
    assert StandsFor(src, i, i + |Spelling(t)|, t);
  }

  // ----- The whole text -----

  lemma {:induction false} SkipMore(src: string, i: nat, toks: seq<Located>)
    requires i < |src| && Skipped(src, i) && LaidOut(src, i + 1, toks)
    ensures LaidOut(src, i, toks)
  {
  }

  lemma {:induction false} OpenMore(src: string, i: nat, toks: seq<Located>, at: nat)
    requires i < |src| && Skipped(src, i) && LeftOpen(src, i + 1, toks, at)
    ensures LeftOpen(src, i, toks, at)
  {
  }

  /** Skipping up to `j`, where the next token or the end stands. */
  lemma {:induction false} SkipTo(src: string, i: nat, j: nat)
    requires i <= j <= |src| && OnlySkipped(src, i, j)
    ensures LexFrom(src, i) == LexFrom(src, j)
    decreases j - i
  {
    hide LexFrom, Skipped;
    if i < j {
      SkipOne(src, i);
      SkipTo(src, i + 1, j);
    }
  }

  lemma {:induction false} LaidOutRead(src: string, i: nat, toks: seq<Located>)
    requires LaidOut(src, i, toks)
    ensures LexFrom(src, i) == Success(toks)
    decreases |toks|
  {
    hide OnlySkipped, StandsFor;
    if toks == [] {
      SkipTo(src, i, |src|);
    } else {
      var lo, hi := toks[0].at, toks[0].at + |Spelling(toks[0].tok)|;
      Within(src, lo, hi, toks[0].tok);
      SkipTo(src, i, lo);
      TokenRead(src, lo, toks[0].tok);
      LaidOutRead(src, hi, toks[1..]);
      assert [toks[0]] + toks[1..] == toks;
    }
  }

  lemma {:induction false} Within(src: string, lo: nat, hi: nat, t: Tok)
    requires StandsFor(src, lo, hi, t)
    ensures lo <= hi <= |src|
  {
  }

  lemma {:induction false} LeftOpenRead(src: string, i: nat, toks: seq<Located>, at: nat)
    requires LeftOpen(src, i, toks, at)
    ensures LexFrom(src, i) == Failure(UnterminatedPhrase(at))
    decreases |toks|
  {
    hide OnlySkipped, StandsFor;
    if toks == [] {
      SkipTo(src, i, at);
      OpenRead(src, at);
    } else {
      var lo, hi := toks[0].at, toks[0].at + |Spelling(toks[0].tok)|;
      Within(src, lo, hi, toks[0].tok);
      SkipTo(src, i, lo);
      TokenRead(src, lo, toks[0].tok);
      LeftOpenRead(src, hi, toks[1..], at);
    }
  }

  lemma {:induction false} OpenRead(src: string, at: nat)
    requires at < |src| && src[at] == '"' && '"' !in src[at + 1..]
    ensures LexFrom(src, at) == Failure(UnterminatedPhrase(at))
  {
    var after := src[at + 1..];
    assert forall k | at < k < |src| :: src[k] == after[k - at - 1] && src[k] != '"';
  }

  lemma {:induction false} ReadLaidOut(src: string, i: nat)
    requires i <= |src|
    ensures match LexFrom(src, i)
      case Success(toks) => LaidOut(src, i, toks)
      case Failure(e) => exists toks, at :: LeftOpen(src, i, toks, at) && e == UnterminatedPhrase(at)
    decreases |src| - i
  {
    hide Skipped, StandsFor, LexFrom, Spelling;
    if i == |src| {
      NothingLeft(src);
    } else if Skipped(src, i) {
      SkipOne(src, i);
      ReadLaidOut(src, i + 1);
      if LexFrom(src, i).Success? {
        SkipMore(src, i, LexFrom(src, i).value);
      } else {
        var toks, at :| LeftOpen(src, i + 1, toks, at) && LexFrom(src, i).error == UnterminatedPhrase(at);
        OpenMore(src, i, toks, at);
      }
    } else {
      TokenFound(src, i);
      if t :| StandsFor(src, i, i + |Spelling(t)|, t) && |Spelling(t)| > 0 {
        var hi := i + |Spelling(t)|;
        Within(src, i, hi, t);
        TokenRead(src, i, t);
        ReadLaidOut(src, hi);
        if LexFrom(src, hi).Success? {
          TokenMore(src, i, t, LexFrom(src, hi).value);
        } else {
          var toks, at :| LeftOpen(src, hi, toks, at) && LexFrom(src, hi).error == UnterminatedPhrase(at);
          OpenTokenMore(src, i, t, toks, at);
        }
      } else {
        assert LeftOpen(src, i, [], i);
      }
    }
  }

  lemma {:induction false} NothingLeft(src: string)
    ensures LexFrom(src, |src|) == Success([]) && LaidOut(src, |src|, [])
  {
  }

  lemma {:induction false} TokenMore(src: string, i: nat, t: Tok, rest: seq<Located>)
    requires StandsFor(src, i, i + |Spelling(t)|, t) && LaidOut(src, i + |Spelling(t)|, rest)
    ensures LaidOut(src, i, [Located(i, t)] + rest)
  {
    hide StandsFor;
    Within(src, i, i + |Spelling(t)|, t);
    assert ([Located(i, t)] + rest)[1..] == rest;
  }

  lemma {:induction false} OpenTokenMore(src: string, i: nat, t: Tok, rest: seq<Located>, at: nat)
    requires StandsFor(src, i, i + |Spelling(t)|, t) && LeftOpen(src, i + |Spelling(t)|, rest, at)
    ensures LeftOpen(src, i, [Located(i, t)] + rest, at)
  {
    hide StandsFor;
    Within(src, i, i + |Spelling(t)|, t);
    assert ([Located(i, t)] + rest)[1..] == rest;
  }

  /** The text reads as exactly the tokens it is laid out in. */
  lemma {:induction false} LexedIff(src: string, toks: seq<Located>)
    ensures LexFrom(src, 0) == Success(toks) <==> LaidOut(src, 0, toks)
  {
    hide LexFrom, LaidOut;
    if LaidOut(src, 0, toks) {
      LaidOutRead(src, 0, toks);
    }
    ReadLaidOut(src, 0);
  }

  ghost predicate Unterminated(src: string, at: nat) {
    exists toks :: LeftOpen(src, 0, toks, at)
  }

  /** It is refused exactly at a quotation mark that nothing terminates. */
  lemma {:induction false} UnreadIff(src: string, e: ParseError)
    ensures LexFrom(src, 0) == Failure(e) <==> e.UnterminatedPhrase? && Unterminated(src, e.at)
  {
    hide LexFrom, LaidOut, LeftOpen;
    if e.UnterminatedPhrase? && Unterminated(src, e.at) {
      var toks :| LeftOpen(src, 0, toks, e.at);
      LeftOpenRead(src, 0, toks, e.at);
    }
    ReadLaidOut(src, 0);
  }

  /** A query text means a tree exactly if it is laid out in tokens that are a query of it. */
  lemma {:induction false} QueryTextIff(src: string, q: Node, atoms: Atoms)
    ensures ParsedText(src, atoms) == Success(q) <==> exists toks :: LaidOut(src, 0, toks) && QueryIs(toks, 0, |toks|, q, atoms)
  {
    hide LexFrom, LaidOut, QueryIs, Parsed;
    if toks :| LaidOut(src, 0, toks) && QueryIs(toks, 0, |toks|, q, atoms) {
      LexedIff(src, toks);
      ParsedIff(toks, q, atoms);
    }
    if ParsedText(src, atoms) == Success(q) {
      var toks := LexFrom(src, 0).value;
      LexedIff(src, toks);
      ParsedIff(toks, q, atoms);
    }
  }

  // ----- One word, one quotation -----

  /** A text typed bare where it is one word, or between quotation marks where it has none. */
  predicate Types(input: string, text: string) {
    || (input == text && IsWord(text))
    || (input == ['"'] + text + ['"'] && '"' !in text)
  }

  /** Nothing to look for, a term, or a phrase. */
  predicate Answers(r: Result<Node, ParseError>, terms: seq<Term>) {
    r == if terms == [] then Failure(Empty) else if |terms| == 1 then Success(TermNode(terms[0])) else Success(PhraseNode(terms))
  }

  lemma {:induction false} OneTextParses(toks: seq<Located>, text: string, atoms: Atoms)
    requires |toks| == 1 && (toks[0].tok == Word(text) || toks[0].tok == Quoted(text))
    ensures Answers(Parsed(toks, atoms), atoms(text))
  {
    var v := TextNode(text, atoms);
    assert AtomAt(toks, 0, atoms) == Success(Step(v, 1));
    assert UnaryAt(toks, 0, atoms) == Success(Step(Operand(v, false), 1));
    var must := if v.Some? then [v.value] else [];
    assert AndFrom(toks, 0, [], [], atoms) == AndFrom(toks, 1, must, [], atoms);
    if v.Some? {
      assert OrAt(toks, 0, atoms) == OrFrom(toks, 1, [v.value], atoms);
    }
  }

  lemma {:induction false} WordLaidOut(text: string)
    requires IsWord(text)
    ensures LaidOut(text, 0, [Located(0, Word(text))])
  {
    forall p | 0 <= p < |text| ensures !Delimits(text[p]) {
      DelimitsIs(text[p]);
    }
    assert text[0..|text|] == text;
    assert WordRun(text, 0, |text|);
  }

  lemma {:induction false} QuotedLaidOut(text: string)
    requires '"' !in text
    ensures LaidOut(['"'] + text + ['"'], 0, [Located(0, Quoted(text))])
  {
    var src := ['"'] + text + ['"'];
    assert src[0..|src|] == src;
    assert StandsFor(src, 0, |src|, Quoted(text));
  }

  /** Typed on its own, a text means the term or phrase of its atoms. */
  lemma {:induction false} TextParses(input: string, text: string, atoms: Atoms)
    requires Types(input, text)
    ensures Answers(ParsedText(input, atoms), atoms(text))
  {
    hide Parsed, LexFrom, LaidOut, Answers, IsWord;
    var tok := if input == text && IsWord(text) then Word(text) else Quoted(text);
    if tok.Word? {
      WordLaidOut(text);
    } else {
      QuotedLaidOut(text);
    }
    LexedIff(input, [Located(0, tok)]);
    OneTextParses([Located(0, tok)], text, atoms);
  }
}
