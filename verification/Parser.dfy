/**
 From tokens to a tree: recursive descent (src/query/parser.rs).  Word segmentation is taken as
 given: `atoms` says which folded terms a piece of text yields.
 */
module Parser {
  import opened Wrappers
  import opened Documents
  import opened Query
  import opened Lexer

  /** What was parsed, and the index of the next token. */
  datatype Step<+T> = Step(value: T, next: nat)

  type Atoms = string -> seq<Term>

  // ----- The grammar as functions -----

  function TextNode(text: string, atoms: Atoms): Option<Node> {
    var terms := atoms(text);
    if |terms| == 0 then None else if |terms| == 1 then Some(TermNode(terms[0])) else Some(PhraseNode(terms))
  }

  predicate StartsOperand(toks: seq<Located>, i: nat) {
    i < |toks| && (toks[i].tok.Word? || toks[i].tok.Quoted? || toks[i].tok.Minus? || toks[i].tok.LParen?)
  }

  /** One operand: nothing for a word or quotation that yields no terms. */
  function AtomAt(toks: seq<Located>, i: nat, atoms: Atoms): (r: Result<Step<Option<Node>>, ParseError>)
    ensures r.Success? ==> i < r.value.next <= |toks|
    decreases if i <= |toks| then |toks| - i else 0, 0
  {
    if i >= |toks| then Failure(Empty)
    else
      match toks[i].tok
      case LParen =>
        (match OrAt(toks, i + 1, atoms)
         case Failure(e) => Failure(e)
         case Success(s) =>
           if s.next < |toks| && toks[s.next].tok == RParen then Success(Step(Some(s.value), s.next + 1))
           else Failure(UnbalancedParen(toks[i].at)))
      case Word(w) => Success(Step(TextNode(w, atoms), i + 1))
      case Quoted(p) => Success(Step(TextNode(p, atoms), i + 1))
      case other => Failure(Unexpected(other, toks[i].at))
  }

  datatype Operand = Operand(node: Option<Node>, negated: bool)

  function UnaryAt(toks: seq<Located>, i: nat, atoms: Atoms): (r: Result<Step<Operand>, ParseError>)
    ensures r.Success? ==> i < r.value.next <= |toks|
    decreases if i <= |toks| then |toks| - i else 0, 1
  {
    var negated := i < |toks| && toks[i].tok == Minus;
    match AtomAt(toks, if negated then i + 1 else i, atoms)
    case Failure(e) => Failure(e)
    case Success(s) => Success(Step(Operand(s.value, negated), s.next))
  }

  /** The rest of a conjunction, given the operands so far. */
  function AndFrom(toks: seq<Located>, i: nat, must: seq<Node>, mustNot: seq<Node>, atoms: Atoms): (r: Result<Step<Node>, ParseError>)
    requires i <= |toks|
    ensures r.Success? ==> i <= r.value.next <= |toks| && (must == [] && mustNot == [] ==> i < r.value.next)
    ensures r.Success? ==> r.value.next == |toks| || toks[r.value.next].tok == Or || toks[r.value.next].tok == RParen
    decreases |toks| - i, 2
  {
    if i == |toks| || toks[i].tok == Or || toks[i].tok == RParen then
      if must == [] then
        if mustNot != [] then Failure(OnlyNegation)
        else if i < |toks| then Failure(Unexpected(toks[i].tok, toks[i].at))
        else Failure(Empty)
      else if |must| == 1 && mustNot == [] then Success(Step(must[0], i))
      else Success(Step(AndNode(must, mustNot), i))
    else if toks[i].tok == And then
      if (must == [] && mustNot == []) || !StartsOperand(toks, i + 1) then Failure(Unexpected(And, toks[i].at))
      else AndFrom(toks, i + 1, must, mustNot, atoms)
    else
      match UnaryAt(toks, i, atoms)
      case Failure(e) => Failure(e)
      case Success(s) =>
        if s.value.node.None? then AndFrom(toks, s.next, must, mustNot, atoms)
        else if s.value.negated then AndFrom(toks, s.next, must, mustNot + [s.value.node.value], atoms)
        else AndFrom(toks, s.next, must + [s.value.node.value], mustNot, atoms)
  }

  /** The rest of a disjunction, given the children so far. */
  function OrFrom(toks: seq<Located>, i: nat, children: seq<Node>, atoms: Atoms): (r: Result<Step<Node>, ParseError>)
    requires i <= |toks| && children != []
    requires i == |toks| || toks[i].tok == Or || toks[i].tok == RParen
    ensures r.Success? ==> i <= r.value.next <= |toks| && (r.value.next == |toks| || toks[r.value.next].tok == RParen)
    decreases |toks| - i, 3
  {
    if i < |toks| && toks[i].tok == Or then
      if !StartsOperand(toks, i + 1) then Failure(Unexpected(Or, toks[i].at))
      else
        match AndFrom(toks, i + 1, [], [], atoms)
        case Failure(e) => Failure(e)
        case Success(s) => OrFrom(toks, s.next, children + [s.value], atoms)
    else Success(Step(if |children| == 1 then children[0] else OrNode(children), i))
  }

  function OrAt(toks: seq<Located>, i: nat, atoms: Atoms): (r: Result<Step<Node>, ParseError>)
    requires i <= |toks|
    ensures r.Success? ==> i < r.value.next <= |toks| && (r.value.next == |toks| || toks[r.value.next].tok == RParen)
    decreases |toks| - i, 4
  {
    match AndFrom(toks, i, [], [], atoms)
    case Failure(e) => Failure(e)
    case Success(s) => OrFrom(toks, s.next, [s.value], atoms)
  }

  // ----- The parser -----

  class Parser {
    const toks: seq<Located>
    const atoms: Atoms
    var idx: nat

    constructor (toks: seq<Located>, atoms: Atoms)
      ensures this.toks == toks && this.atoms == atoms && idx == 0
    {
      this.toks, this.atoms, idx := toks, atoms, 0;
    }

    function Peek(): Option<Tok>
      reads this
    {
      if idx < |toks| then Some(toks[idx].tok) else None
    }

    method Bump() returns (t: Option<Located>)
      modifies this
      ensures t == if old(idx) < |toks| then Some(toks[old(idx)]) else None
      ensures idx == if old(idx) < |toks| then old(idx) + 1 else old(idx)
    {
      t := if idx < |toks| then Some(toks[idx]) else None;
      if t.Some? {
        idx := idx + 1;
      }
    }

    method ParseOr() returns (r: Result<Node, ParseError>)
      requires idx <= |toks|
      modifies this
      ensures idx <= |toks|
      ensures match OrAt(toks, old(idx), atoms)
              case Success(s) => r == Success(s.value) && idx == s.next
              case Failure(e) => r == Failure(e)
      decreases |toks| - idx, 4
    {
      ghost var start := idx;
      var first := ParseAnd();
      if first.Failure? { return first; }
      var children := [first.value];
      while Peek() == Some(Or)
        invariant start < idx <= |toks| && children != []
        invariant idx == |toks| || toks[idx].tok == Or || toks[idx].tok == RParen
        invariant OrAt(toks, start, atoms) == OrFrom(toks, idx, children, atoms)
        decreases |toks| - idx
      {
        var t := Bump();
        if !StartsOperand(toks, idx) {
          return Failure(Unexpected(Or, t.value.at));
        }
        var next := ParseAnd();
        if next.Failure? { return next; }
        children := children + [next.value];
      }
      r := Success(if |children| == 1 then children[0] else OrNode(children));
    }

    method ParseAnd() returns (r: Result<Node, ParseError>)
      requires idx <= |toks|
      modifies this
      ensures idx <= |toks|
      ensures match AndFrom(toks, old(idx), [], [], atoms)
              case Success(s) => r == Success(s.value) && idx == s.next
              case Failure(e) => r == Failure(e)
      decreases |toks| - idx, 3
    {
      ghost var start := idx;
      var must: seq<Node>, mustNot: seq<Node> := [], [];
      while true
        invariant start <= idx <= |toks|
        invariant AndFrom(toks, start, [], [], atoms) == AndFrom(toks, idx, must, mustNot, atoms)
        decreases |toks| - idx
      {
        var p := Peek();
        if p.None? || p.value == Or || p.value == RParen {
          break;
        } else if p.value == And {
          var t := Bump();
          if (must == [] && mustNot == []) || !StartsOperand(toks, idx) {
            return Failure(Unexpected(And, t.value.at));
          }
        } else {
          var u := ParseUnary();
          if u.Failure? { return Failure(u.error); }
          if u.value.node.Some? {
            if u.value.negated {
              mustNot := mustNot + [u.value.node.value];
            } else {
              must := must + [u.value.node.value];
            }
          }
        }
      }
      if must == [] {
        if mustNot != [] { return Failure(OnlyNegation); }
        return if idx < |toks| then Failure(Unexpected(toks[idx].tok, toks[idx].at)) else Failure(Empty);
      }
      r := Success(if |must| == 1 && mustNot == [] then must[0] else AndNode(must, mustNot));
    }

    method ParseUnary() returns (r: Result<Operand, ParseError>)
      requires idx <= |toks|
      modifies this
      ensures idx <= |toks|
      ensures match UnaryAt(toks, old(idx), atoms)
              case Success(s) => r == Success(s.value) && idx == s.next
              case Failure(e) => r == Failure(e)
      decreases |toks| - idx, 2
    {
      var negated := Peek() == Some(Minus);
      if negated {
        var _ := Bump();
      }
      var a := ParseAtom();
      r := if a.Success? then Success(Operand(a.value, negated)) else Failure(a.error);
    }

    method ParseAtom() returns (r: Result<Option<Node>, ParseError>)
      requires idx <= |toks|
      modifies this
      ensures idx <= |toks|
      ensures match AtomAt(toks, old(idx), atoms)
              case Success(s) => r == Success(s.value) && idx == s.next
              case Failure(e) => r == Failure(e)
      decreases |toks| - idx, 1
    {
      var t := Bump();
      if t.None? { return Failure(Empty); }
      match t.value.tok {
        case LParen =>
          var node := ParseOr();
          if node.Failure? { return Failure(node.error); }
          var close := Bump();
          r := if close.Some? && close.value.tok == RParen then Success(Some(node.value)) else Failure(UnbalancedParen(t.value.at));
        case Word(w) => r := Success(TextNode(w, atoms));
        case Quoted(p) => r := Success(TextNode(p, atoms));
        case other => r := Failure(Unexpected(other, t.value.at));
      }
    }
  }

  /** A whole token list: nothing may be left over. */
  function Parsed(toks: seq<Located>, atoms: Atoms): Result<Node, ParseError> {
    if toks == [] then Failure(Empty)
    else
      match OrAt(toks, 0, atoms)
      case Failure(e) => Failure(e)
      case Success(s) => if s.next < |toks| then Failure(UnbalancedParen(toks[s.next].at)) else Success(s.value)
  }

  /** The leftover token can only be a `)`: the source's other arm is never taken. */
  method ParseTokens(toks: seq<Located>, atoms: Atoms) returns (r: Result<Node, ParseError>)
    ensures r == Parsed(toks, atoms)
  {
    if toks == [] { return Failure(Empty); }
    var p := new Parser(toks, atoms);
    r := p.ParseOr();
    if r.Failure? { return; }
    if p.idx < |toks| {
      return Failure(UnbalancedParen(toks[p.idx].at));
    }
  }

  /** The query text of a search box or command line. */
  function ParsedText(input: string, atoms: Atoms): Result<Node, ParseError> {
    match LexFrom(input, 0)
    case Failure(e) => Failure(e)
    case Success(toks) => Parsed(toks, atoms)
  }

  method Parse(input: string, atoms: Atoms) returns (r: Result<Node, ParseError>)
    ensures r == ParsedText(input, atoms)
  {
    var toks := Lex(input);
    if toks.Failure? { return Failure(toks.error); }
    r := ParseTokens(toks.value, atoms);
  }
}
