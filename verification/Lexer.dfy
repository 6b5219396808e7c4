/**
 Query text to tokens (`lex`, src/query/parser.rs).  Offsets count characters;
 the source's count bytes.
 */
module Lexer {
  import opened Wrappers

  datatype Tok = Word(text: string) | Quoted(text: string) | And | Or | Minus | LParen | RParen

  datatype Located = Located(at: nat, tok: Tok)

  datatype ParseError =
    | Unexpected(found: Tok, at: nat)
    | UnterminatedPhrase(at: nat)
    | UnbalancedParen(at: nat)
    | OnlyNegation
    | Empty

  type Lexed = Result<seq<Located>, ParseError>

  /** Unicode White_Space. */
  predicate IsSpace(c: char) {
    var n := c as int;
    || 9 <= n <= 13 || n == 0x20 || n == 0x85 || n == 0xA0 || n == 0x1680 || 0x2000 <= n <= 0x200A
    || n == 0x2028 || n == 0x2029 || n == 0x202F || n == 0x205F || n == 0x3000
  }

  predicate EndsWord(c: char) {
    IsSpace(c) || c == '(' || c == ')' || c == '"'
  }

  /** The first quote from `i` on, or the end. */
  function QuoteFrom(src: string, i: nat): (j: nat)
    requires i <= |src|
    ensures i <= j <= |src| && (j < |src| ==> src[j] == '"') && forall k | i <= k < j :: src[k] != '"'
    decreases |src| - i
  {
    if i == |src| || src[i] == '"' then i else QuoteFrom(src, i + 1)
  }

  function WordEnd(src: string, i: nat): (j: nat)
    requires i <= |src|
    ensures i <= j <= |src| && (j < |src| ==> EndsWord(src[j])) && forall k | i <= k < j :: !EndsWord(src[k])
    decreases |src| - i
  {
    if i == |src| || EndsWord(src[i]) then i else WordEnd(src, i + 1)
  }

  function WordTok(word: string): Tok {
    if word == "AND" then And else if word == "OR" then Or else Word(word)
  }

  /** `toks` before whatever the rest of the text yields. */
  function Before(toks: seq<Located>, rest: Lexed): Lexed {
    if rest.Success? then Success(toks + rest.value) else rest
  }

  function LexFrom(src: string, i: nat): Lexed
    requires i <= |src|
    decreases |src| - i
  {
    if i == |src| then Success([])
    else if IsSpace(src[i]) then LexFrom(src, i + 1)
    else if src[i] == '(' then Before([Located(i, LParen)], LexFrom(src, i + 1))
    else if src[i] == ')' then Before([Located(i, RParen)], LexFrom(src, i + 1))
    else if src[i] == '"' then
      var j := QuoteFrom(src, i + 1);
      if j == |src| then Failure(UnterminatedPhrase(i)) else Before([Located(i, Quoted(src[i + 1..j]))], LexFrom(src, j + 1))
    else if src[i] == '-' then
      if i + 1 < |src| && !IsSpace(src[i + 1]) then Before([Located(i, Minus)], LexFrom(src, i + 1)) else LexFrom(src, i + 1)
    else
      var j := WordEnd(src, i);
      Before([Located(i, WordTok(src[i..j]))], LexFrom(src, j))
  }

  lemma {:induction false} BeforeNone(rest: Lexed)
    ensures Before([], rest) == rest
  {
    if rest.Success? {
      assert [] + rest.value == rest.value;
    }
  }

  lemma {:induction false} BeforeMore(toks: seq<Located>, t: Located, rest: Lexed)
    ensures Before(toks, Before([t], rest)) == Before(toks + [t], rest)
  {
    if rest.Success? {
      assert toks + ([t] + rest.value) == toks + [t] + rest.value;
    }
  }

  method FindQuote(src: string, i: nat) returns (j: nat)
    requires i <= |src|
    ensures j == QuoteFrom(src, i)
  {
    j := i;
    while j < |src| && src[j] != '"'
      invariant i <= j <= |src| && QuoteFrom(src, i) == QuoteFrom(src, j)
    {
      j := j + 1;
    }
  }

  method FindWordEnd(src: string, i: nat) returns (j: nat)
    requires i <= |src|
    ensures j == WordEnd(src, i)
  {
    j := i;
    while j < |src| && !EndsWord(src[j])
      invariant i <= j <= |src| && WordEnd(src, i) == WordEnd(src, j)
    {
      j := j + 1;
    }
  }

  /** The scanning loop, one character or one token at a time. */
  method Lex(src: string) returns (r: Lexed)
    ensures r == LexFrom(src, 0)
  {
    hide QuoteFrom, WordEnd, IsSpace, WordTok;
    var toks: seq<Located>, i: nat := [], 0;
    BeforeNone(LexFrom(src, 0));
    while i < |src|
      invariant i <= |src|
      invariant LexFrom(src, 0) == Before(toks, LexFrom(src, i))
    {
      var c := src[i];
      var tok: Tok, next: nat;
      if IsSpace(c) {
        i := i + 1;
        continue;
      } else if c == '(' {
        tok, next := LParen, i + 1;
      } else if c == ')' {
        tok, next := RParen, i + 1;
      } else if c == '"' {
        var j := FindQuote(src, i + 1);
        if j == |src| {
          return Failure(UnterminatedPhrase(i));
        }
        tok, next := Quoted(src[i + 1..j]), j + 1;
      } else if c == '-' {
        if i + 1 == |src| || IsSpace(src[i + 1]) {
          i := i + 1;
          continue;
        }
        tok, next := Minus, i + 1;
      } else {
        var j := FindWordEnd(src, i);
        tok, next := WordTok(src[i..j]), j;
      }
      BeforeMore(toks, Located(i, tok), LexFrom(src, next));
      toks, i := toks + [Located(i, tok)], next;
    }
    assert toks + [] == toks;
    r := Success(toks);
  }

  // ----- Writing tokens back -----

  function Text(t: Tok): string {
    match t
    case Word(w) => w + " "
    case Quoted(p) => "\"" + p + "\""
    case And => " AND "
    case Or => " OR "
    case Minus => "-"
    case LParen => "("
    case RParen => ")"
  }

  function TextOf(toks: seq<Tok>): string {
    if toks == [] then "" else Text(toks[0]) + TextOf(toks[1..])
  }

  predicate IsWord(w: string) {
    w != [] && w[0] != '-' && w != "AND" && w != "OR" && forall k | 0 <= k < |w| :: !EndsWord(w[k])
  }

  /** The text of the `k`-th token reads as that token. */
  predicate Readable(toks: seq<Tok>, k: nat)
    requires k < |toks|
  {
    match toks[k]
    case Word(w) => IsWord(w)
    case Quoted(p) => '"' !in p
    case Minus => k + 1 < |toks| && !toks[k + 1].And? && !toks[k + 1].Or?
    case _ => true
  }

  ghost predicate AllReadable(toks: seq<Tok>) {
    forall k: nat | k < |toks| :: Readable(toks, k)
  }

  function Toks(located: seq<Located>): seq<Tok> {
    seq(|located|, k requires 0 <= k < |located| => located[k].tok)
  }

  lemma {:induction false} ToksBefore(t: Located, rest: seq<Located>)
    ensures Toks([t] + rest) == [t.tok] + Toks(rest)
  {
  }

  /** A word between spaces, keyword or not. */
  lemma {:induction false} LexSpaced(src: string, i: nat, w: string)
    requires w != [] && w[0] != '-' && (forall k | 0 <= k < |w| :: !EndsWord(w[k]))
    requires i + |w| + 2 <= |src| && src[i..i + |w| + 2] == " " + w + " "
    ensures LexFrom(src, i) == Before([Located(i + 1, WordTok(w))], LexFrom(src, i + |w| + 2))
  {
    var t := src[i..i + |w| + 2];
    assert src[i] == t[0] == ' ';
    forall k | 0 <= k < |w|
      ensures src[i + 1 + k] == w[k]
    {
      assert src[i + 1 + k] == t[1 + k];
    }
    assert src[i + 1 + |w|] == t[1 + |w|] == ' ';
    assert src[i + 1] == w[0];
    assert WordEnd(src, i + 1) == i + 1 + |w|;
    assert src[i + 1..i + 1 + |w|] == w;
    assert LexFrom(src, i) == LexFrom(src, i + 1);
    assert LexFrom(src, i + 1 + |w|) == LexFrom(src, i + |w| + 2);
  }

  lemma {:induction false} LexWord(src: string, i: nat, w: string)
    requires IsWord(w) && i + |w| + 1 <= |src| && src[i..i + |w| + 1] == w + " "
    ensures LexFrom(src, i) == Before([Located(i, Word(w))], LexFrom(src, i + |w| + 1))
  {
    var t := src[i..i + |w| + 1];
    forall k | 0 <= k < |w|
      ensures src[i + k] == w[k]
    {
      assert src[i + k] == t[k];
    }
    assert src[i + |w|] == t[|w|] == ' ';
    WordReads(src, i, w);
    assert LexFrom(src, i + |w|) == LexFrom(src, i + |w| + 1);
  }

  /** A word that the text goes on after with a space, a parenthesis, a quote, or nothing. */
  lemma {:induction false} WordReads(src: string, i: nat, w: string)
    requires IsWord(w) && i + |w| <= |src| && (forall k | 0 <= k < |w| :: src[i + k] == w[k])
    requires i + |w| < |src| ==> EndsWord(src[i + |w|])
    ensures LexFrom(src, i) == Before([Located(i, Word(w))], LexFrom(src, i + |w|))
  {
    assert src[i + 0] == w[0] && !EndsWord(src[i]);
    assert WordEnd(src, i) == i + |w| by {
      assert forall k | i <= k < i + |w| :: src[k] == w[k - i] && !EndsWord(src[k]);
    }
    assert src[i..i + |w|] == w;
  }

  lemma {:induction false} LexQuoted(src: string, i: nat, p: string)
    requires '"' !in p && i + |p| + 2 <= |src| && src[i..i + |p| + 2] == "\"" + p + "\""
    ensures LexFrom(src, i) == Before([Located(i, Quoted(p))], LexFrom(src, i + |p| + 2))
  {
    var t := src[i..i + |p| + 2];
    assert src[i] == t[0] == '"';
    forall k | 0 <= k < |p|
      ensures src[i + 1 + k] == p[k]
    {
      assert src[i + 1 + k] == t[1 + k];
    }
    assert src[i + 1 + |p|] == t[1 + |p|] == '"';
    assert QuoteFrom(src, i + 1) == i + 1 + |p|;
    assert src[i + 1..i + 1 + |p|] == p;
  }

  /** One token's text, wherever it stands. */
  lemma {:induction false} LexOne(src: string, i: nat, t: Tok) returns (at: nat)
    requires i + |Text(t)| <= |src| && src[i..i + |Text(t)|] == Text(t)
    requires t.Word? ==> IsWord(t.text)
    requires t.Quoted? ==> '"' !in t.text
    requires t == Minus ==> i + 1 < |src| && !IsSpace(src[i + 1])
    ensures LexFrom(src, i) == Before([Located(at, t)], LexFrom(src, i + |Text(t)|))
  {
    hide LexFrom;
    match t
    case Word(w) => at := i; LexWord(src, i, w);
    case And => at := i + 1; LexSpaced(src, i, "AND");
    case Or => at := i + 1; LexSpaced(src, i, "OR");
    case Quoted(p) => at := i; LexQuoted(src, i, p);
    case _ => at := i; LexSymbol(src, i, t);
  }

  lemma {:induction false} LexSymbol(src: string, i: nat, t: Tok)
    requires t == LParen || t == RParen || t == Minus
    requires i + 1 <= |src| && src[i..i + 1] == Text(t)
    requires t == Minus ==> i + 1 < |src| && !IsSpace(src[i + 1])
    ensures LexFrom(src, i) == Before([Located(i, t)], LexFrom(src, i + 1))
  {
    assert src[i] == src[i..i + 1][0];
  }

  /** The first token's text, then the others'. */
  lemma {:induction false} TextHead(src: string, i: nat, toks: seq<Tok>)
    requires i <= |src| && src[i..] == TextOf(toks) && toks != []
    ensures var next := i + |Text(toks[0])|;
      next <= |src| && src[i..next] == Text(toks[0]) && src[next..] == TextOf(toks[1..])
  {
    hide Text;
    var t := Text(toks[0]);
    assert src[i..] == t + TextOf(toks[1..]);
    assert src[i..][..|t|] == t && src[i..][|t|..] == TextOf(toks[1..]);
  }

  /** What a minus stands before begins with no space. */
  lemma {:induction false} AfterMinus(src: string, i: nat, toks: seq<Tok>)
    requires i <= |src| && src[i..] == TextOf(toks) && toks != [] && toks[0] == Minus && AllReadable(toks)
    ensures i + 1 < |src| && !IsSpace(src[i + 1])
  {
    TextHead(src, i, toks);
    TextHead(src, i + 1, toks[1..]);
    assert Readable(toks, 0) && Readable(toks, 1);
    assert src[i + 1..][0] == Text(toks[1])[0];
  }

  lemma {:induction false} LexEnd(src: string, i: nat)
    requires i <= |src| && src[i..] == TextOf([])
    ensures LexFrom(src, i) == Success([]) && Toks([]) == []
  {
  }

  /** Any list of readable tokens, written out, is read back. */
  lemma {:induction false} LexText(src: string, i: nat, toks: seq<Tok>)
    requires i <= |src| && src[i..] == TextOf(toks) && AllReadable(toks)
    ensures LexFrom(src, i).Success? && Toks(LexFrom(src, i).value) == toks
    decreases |toks|
  {
    hide Text, TextOf, LexFrom, AllReadable, Readable, IsSpace, IsWord, Toks;
    if toks == [] {
      LexEnd(src, i);
    } else {
      var t, rest := toks[0], toks[1..];
      TextHead(src, i, toks);
      HeadReadable(toks);
      if t == Minus {
        AfterMinus(src, i, toks);
      }
      RestReadable(toks);
      var at := LexOne(src, i, t);
      LexText(src, i + |Text(t)|, rest);
      ToksBefore(Located(at, t), LexFrom(src, i + |Text(t)|).value);
      assert [t] + rest == toks;
    }
  }

  lemma {:induction false} HeadReadable(toks: seq<Tok>)
    requires toks != [] && AllReadable(toks)
    ensures Readable(toks, 0)
    ensures toks[0].Word? ==> IsWord(toks[0].text)
    ensures toks[0].Quoted? ==> '"' !in toks[0].text
  {
    assert Readable(toks, 0);
  }

  lemma {:induction false} RestReadable(toks: seq<Tok>)
    requires toks != [] && AllReadable(toks)
    ensures AllReadable(toks[1..])
  {
    forall k: nat | k < |toks[1..]|
      ensures Readable(toks[1..], k)
    {
      assert Readable(toks, k + 1);
    }
  }
}
