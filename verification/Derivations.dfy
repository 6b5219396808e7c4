/**
 The query grammar as what it derives rather than how it is read, and that the
 parser reads exactly that: which token lists are queries, of which tree, and
 where every other one goes wrong (src/query/parser.rs).
 */
module Derivations {
  import opened Wrappers
  import opened Documents
  import opened Query
  import opened Lexer
  import opened Parser

  /** What a text with these terms stands for: nothing, a term, or a phrase. */
  predicate Reads(v: Option<Node>, terms: seq<Term>) {
    match v
    case None => terms == []
    case Some(TermNode(t)) => terms == [t]
    case Some(PhraseNode(ts)) => ts == terms && |ts| >= 2
    case _ => false
  }

  /** Tokens `i` up to `j` are a word, a quotation, or a query in parentheses. */
  ghost predicate AtomIs(toks: seq<Located>, i: nat, j: nat, v: Option<Node>, atoms: Atoms)
    requires j <= |toks|
    decreases j - i, 0
  {
    && i < j
    && match toks[i].tok
       case Word(w) => j == i + 1 && Reads(v, atoms(w))
       case Quoted(p) => j == i + 1 && Reads(v, atoms(p))
       case LParen => j >= i + 2 && toks[j - 1].tok == RParen && v.Some? && QueryIs(toks, i + 1, j - 1, v.value, atoms)
       case _ => false
  }

  /** One more operand of a conjunction: whether an `AND` and a `-` stand before it. */
  datatype Item = Item(start: nat, joined: bool, negated: bool, node: Option<Node>)

  function AtomStart(e: Item): nat {
    e.start + (if e.joined then 1 else 0) + (if e.negated then 1 else 0)
  }

  ghost predicate ItemIs(toks: seq<Located>, e: Item, j: nat, atoms: Atoms)
    requires j <= |toks|
    decreases j - e.start, 1
  {
    && AtomStart(e) < j
    && (e.joined ==> toks[e.start].tok == And)
    && (e.negated ==> toks[AtomStart(e) - 1].tok == Minus)
    && AtomIs(toks, AtomStart(e), j, e.node, atoms)
  }

  function WithMust(must: seq<Node>, e: Item): seq<Node> {
    if e.node.Some? && !e.negated then must + [e.node.value] else must
  }

  function WithNot(mustNot: seq<Node>, e: Item): seq<Node> {
    if e.node.Some? && e.negated then mustNot + [e.node.value] else mustNot
  }

  /** The operands before `e`, and `e`.  An `AND` needs an operand with terms before it. */
  ghost predicate ItemsThen(toks: seq<Located>, i: nat, j: nat, must: seq<Node>, mustNot: seq<Node>, e: Item, m: seq<Node>, n: seq<Node>, atoms: Atoms)
    requires j <= |toks|
    decreases j - i, 2
  {
    && i <= e.start < j
    && ItemIs(toks, e, j, atoms) && ItemsAre(toks, i, e.start, m, n, atoms)
    && must == WithMust(m, e) && mustNot == WithNot(n, e)
    && (e.joined ==> m != [] || n != [])
  }

  /** Tokens `i` up to `j` are operands, these the positive and these the negated ones. */
  ghost predicate ItemsAre(toks: seq<Located>, i: nat, j: nat, must: seq<Node>, mustNot: seq<Node>, atoms: Atoms)
    requires j <= |toks|
    decreases j - i, 3
  {
    if i >= j then i == j && must == [] && mustNot == []
    else exists e, m, n :: ItemsThen(toks, i, j, must, mustNot, e, m, n, atoms)
  }

  /** A conjunction: at least one positive operand, and a lone one stands for itself. */
  ghost predicate ConjunctionIs(toks: seq<Located>, i: nat, j: nat, q: Node, atoms: Atoms)
    requires j <= |toks|
    decreases j - i, 4
  {
    exists must, mustNot ::
      && ItemsAre(toks, i, j, must, mustNot, atoms) && must != []
      && q == if |must| == 1 && mustNot == [] then must[0] else AndNode(must, mustNot)
  }

  /** Conjunctions with `OR` between them. */
  ghost predicate ChildrenAre(toks: seq<Located>, i: nat, j: nat, qs: seq<Node>, atoms: Atoms)
    requires j <= |toks|
    decreases j - i, 5
  {
    && qs != []
    && if |qs| == 1 then ConjunctionIs(toks, i, j, qs[0], atoms)
       else exists k: nat ::
         && i <= k < j && toks[k].tok == Or
         && ChildrenAre(toks, i, k, qs[..|qs| - 1], atoms) && ConjunctionIs(toks, k + 1, j, qs[|qs| - 1], atoms)
  }

  ghost predicate QueryIs(toks: seq<Located>, i: nat, j: nat, q: Node, atoms: Atoms)
    requires j <= |toks|
    decreases j - i, 6
  {
    ConjunctionIs(toks, i, j, q, atoms) || (q.OrNode? && |q.children| >= 2 && ChildrenAre(toks, i, j, q.children, atoms))
  }

  // ----- What is derived is read -----

  predicate Closes(toks: seq<Located>, j: nat) {
    j >= |toks| || toks[j].tok == Or || toks[j].tok == RParen
  }

  lemma {:induction false} TextReads(v: Option<Node>, text: string, atoms: Atoms)
    ensures Reads(v, atoms(text)) <==> TextNode(text, atoms) == v
  {
  }

  lemma {:induction false} AtomRead(toks: seq<Located>, i: nat, j: nat, v: Option<Node>, atoms: Atoms)
    requires j <= |toks| && AtomIs(toks, i, j, v, atoms)
    ensures AtomAt(toks, i, atoms) == Success(Step(v, j))
    decreases j - i, 0
  {
    hide QueryIs, OrAt, Reads, TextNode;
    match toks[i].tok
    case Word(w) => TextReads(v, w, atoms);
    case Quoted(p) => TextReads(v, p, atoms);
    case LParen => QueryRead(toks, i + 1, j - 1, v.value, atoms);
  }

  /** Its first token can begin an operand. */
  lemma {:induction false} AtomStarts(toks: seq<Located>, i: nat, j: nat, v: Option<Node>, atoms: Atoms)
    requires j <= |toks| && AtomIs(toks, i, j, v, atoms)
    ensures StartsOperand(toks, i) && toks[i].tok != Minus
  {
    hide QueryIs, Reads;
  }

  lemma {:induction false} ItemRead(toks: seq<Located>, e: Item, j: nat, m: seq<Node>, n: seq<Node>, atoms: Atoms)
    requires j <= |toks| && ItemIs(toks, e, j, atoms) && (e.joined ==> m != [] || n != [])
    ensures AndFrom(toks, e.start, m, n, atoms) == AndFrom(toks, j, WithMust(m, e), WithNot(n, e), atoms)
    ensures !e.joined ==> StartsOperand(toks, e.start)
    ensures !Closes(toks, e.start)
    decreases j - e.start, 1
  {
    hide AtomIs, AtomAt, OrAt;
    AtomRead(toks, AtomStart(e), j, e.node, atoms);
    AtomStarts(toks, AtomStart(e), j, e.node, atoms);
    var at := if e.joined then e.start + 1 else e.start;
    assert UnaryAt(toks, at, atoms) == Success(Step(Operand(e.node, e.negated), j));
    assert StartsOperand(toks, at);
  }

  lemma {:induction false} ItemsRead(toks: seq<Located>, i: nat, j: nat, must: seq<Node>, mustNot: seq<Node>, atoms: Atoms)
    requires j <= |toks| && ItemsAre(toks, i, j, must, mustNot, atoms)
    ensures AndFrom(toks, i, [], [], atoms) == AndFrom(toks, j, must, mustNot, atoms)
    ensures i < j ==> StartsOperand(toks, i)
    decreases j - i, 2
  {
    hide AndFrom, ItemIs, StartsOperand;
    if i < j {
      var e, m, n :| ItemsThen(toks, i, j, must, mustNot, e, m, n, atoms);
      ItemsRead(toks, i, e.start, m, n, atoms);
      ItemRead(toks, e, j, m, n, atoms);
    }
  }

  lemma {:induction false} ConjunctionRead(toks: seq<Located>, i: nat, j: nat, q: Node, atoms: Atoms)
    requires j <= |toks| && ConjunctionIs(toks, i, j, q, atoms) && Closes(toks, j)
    ensures i < j && AndFrom(toks, i, [], [], atoms) == Success(Step(q, j)) && StartsOperand(toks, i)
    decreases j - i, 3
  {
    hide ItemsAre, StartsOperand;
    var must, mustNot :| ItemsAre(toks, i, j, must, mustNot, atoms) && must != []
      && q == if |must| == 1 && mustNot == [] then must[0] else AndNode(must, mustNot);
    ItemsRead(toks, i, j, must, mustNot, atoms);
    NoItems(toks, i, j, must, mustNot, atoms);
  }

  lemma {:induction false} NoItems(toks: seq<Located>, i: nat, j: nat, must: seq<Node>, mustNot: seq<Node>, atoms: Atoms)
    requires j <= |toks| && ItemsAre(toks, i, j, must, mustNot, atoms)
    ensures i <= j && (i == j ==> must == [] && mustNot == [])
  {
  }

  lemma {:induction false} ChildrenRead(toks: seq<Located>, i: nat, j: nat, qs: seq<Node>, atoms: Atoms)
    requires j <= |toks| && ChildrenAre(toks, i, j, qs, atoms) && Closes(toks, j)
    ensures i < j && OrAt(toks, i, atoms) == OrFrom(toks, j, qs, atoms)
    decreases j - i, 4
  {
    hide ConjunctionIs, AndFrom, StartsOperand;
    var last := |qs| - 1;
    if last == 0 {
      ConjunctionRead(toks, i, j, qs[0], atoms);
      assert qs == [qs[0]];
    } else {
      var k: nat :| i <= k < j && toks[k].tok == Or
        && ChildrenAre(toks, i, k, qs[..last], atoms) && ConjunctionIs(toks, k + 1, j, qs[last], atoms);
      ChildrenRead(toks, i, k, qs[..last], atoms);
      ConjunctionRead(toks, k + 1, j, qs[last], atoms);
      assert qs[..last] + [qs[last]] == qs;
    }
  }

  lemma {:induction false} QueryRead(toks: seq<Located>, i: nat, j: nat, q: Node, atoms: Atoms)
    requires j <= |toks| && QueryIs(toks, i, j, q, atoms) && (j == |toks| || toks[j].tok == RParen)
    ensures i < j && OrAt(toks, i, atoms) == Success(Step(q, j))
    decreases j - i, 5
  {
    hide ConjunctionIs, ChildrenAre, AndFrom;
    if ConjunctionIs(toks, i, j, q, atoms) {
      ConjunctionRead(toks, i, j, q, atoms);
    } else {
      ChildrenRead(toks, i, j, q.children, atoms);
    }
  }

  // ----- What is read is derived -----

  lemma {:induction false} AtomDerived(toks: seq<Located>, i: nat, atoms: Atoms)
    requires AtomAt(toks, i, atoms).Success?
    ensures var s := AtomAt(toks, i, atoms).value; AtomIs(toks, i, s.next, s.value, atoms)
    decreases if i <= |toks| then |toks| - i else 0, 0
  {
    hide QueryIs, OrAt, Reads, TextNode;
    var s := AtomAt(toks, i, atoms).value;
    match toks[i].tok
    case Word(w) => TextReads(s.value, w, atoms);
    case Quoted(p) => TextReads(s.value, p, atoms);
    case LParen => QueryDerived(toks, i + 1, atoms);
  }

  /** The operands so far, and the conjunction that the rest makes of them. */
  lemma {:induction false} ConjunctionDerived(toks: seq<Located>, i: nat, at: nat, must: seq<Node>, mustNot: seq<Node>, atoms: Atoms)
    requires i <= at <= |toks| && ItemsAre(toks, i, at, must, mustNot, atoms)
    requires AndFrom(toks, at, must, mustNot, atoms).Success?
    ensures var s := AndFrom(toks, at, must, mustNot, atoms).value; ConjunctionIs(toks, i, s.next, s.value, atoms)
    decreases |toks| - at, 2
  {
    hide ItemsAre, AtomAt, AtomIs;
    if !Closes(toks, at) {
      var joined := toks[at].tok == And;
      var from := if joined then at + 1 else at;
      assert AndFrom(toks, at, must, mustNot, atoms) == AndFrom(toks, from, must, mustNot, atoms);
      var u := UnaryAt(toks, from, atoms).value;
      var e := Item(at, joined, u.value.negated, u.value.node);
      AtomDerived(toks, AtomStart(e), atoms);
      assert ItemIs(toks, e, u.next, atoms);
      OneMore(toks, i, u.next, e, must, mustNot, atoms);
      ConjunctionDerived(toks, i, u.next, WithMust(must, e), WithNot(mustNot, e), atoms);
    }
  }

  lemma {:induction false} OneMore(toks: seq<Located>, i: nat, j: nat, e: Item, m: seq<Node>, n: seq<Node>, atoms: Atoms)
    requires j <= |toks| && i <= e.start < j && ItemIs(toks, e, j, atoms) && ItemsAre(toks, i, e.start, m, n, atoms)
    requires e.joined ==> m != [] || n != []
    ensures ItemsAre(toks, i, j, WithMust(m, e), WithNot(n, e), atoms)
  {
    hide ItemIs;
    assert ItemsThen(toks, i, j, WithMust(m, e), WithNot(n, e), e, m, n, atoms);
  }

  lemma {:induction false} NoneYet(toks: seq<Located>, i: nat, atoms: Atoms)
    requires i <= |toks|
    ensures ItemsAre(toks, i, i, [], [], atoms)
  {
  }

  lemma {:induction false} ChildrenDerived(toks: seq<Located>, i: nat, at: nat, qs: seq<Node>, atoms: Atoms)
    requires i < at <= |toks| && Closes(toks, at) && ChildrenAre(toks, i, at, qs, atoms)
    requires OrFrom(toks, at, qs, atoms).Success?
    ensures var s := OrFrom(toks, at, qs, atoms).value; QueryIs(toks, i, s.next, s.value, atoms)
    decreases |toks| - at, 3
  {
    hide ConjunctionIs, AndFrom;
    if at < |toks| && toks[at].tok == Or {
      var s := AndFrom(toks, at + 1, [], [], atoms).value;
      NoneYet(toks, at + 1, atoms);
      ConjunctionDerived(toks, at + 1, at + 1, [], [], atoms);
      var more := qs + [s.value];
      assert more[..|more| - 1] == qs;
      ChildrenDerived(toks, i, s.next, more, atoms);
    }
  }

  lemma {:induction false} QueryDerived(toks: seq<Located>, i: nat, atoms: Atoms)
    requires i <= |toks| && OrAt(toks, i, atoms).Success?
    ensures var s := OrAt(toks, i, atoms).value; QueryIs(toks, i, s.next, s.value, atoms)
    decreases |toks| - i, 4
  {
    hide ConjunctionIs, AndFrom, OrFrom;
    NoneYet(toks, i, atoms);
    ConjunctionDerived(toks, i, i, [], [], atoms);
    var s := AndFrom(toks, i, [], [], atoms).value;
    ChildrenDerived(toks, i, s.next, [s.value], atoms);
  }

  /** A token list is parsed exactly if it is a query, and to the tree it is a query of. */
  lemma {:induction false} ParsedIff(toks: seq<Located>, q: Node, atoms: Atoms)
    ensures Parsed(toks, atoms) == Success(q) <==> QueryIs(toks, 0, |toks|, q, atoms)
  {
    hide QueryIs, OrAt;
    if QueryIs(toks, 0, |toks|, q, atoms) {
      QueryRead(toks, 0, |toks|, q, atoms);
    }
    if Parsed(toks, atoms) == Success(q) {
      QueryDerived(toks, 0, atoms);
    }
  }

  // ----- Where everything else goes wrong -----

  predicate MayStart(toks: seq<Located>, p: nat) {
    p < |toks| && toks[p].tok !in {And, Or, RParen}
  }

  ghost predicate SomeChildren(toks: seq<Located>, i: nat, j: nat, atoms: Atoms)
    requires j <= |toks|
  {
    exists qs :: ChildrenAre(toks, i, j, qs, atoms)
  }

  ghost predicate SomeQuery(toks: seq<Located>, i: nat, j: nat, atoms: Atoms)
    requires j <= |toks|
  {
    exists q :: QueryIs(toks, i, j, q, atoms)
  }

  /** Where a conjunction of the disjunction begun at `i` starts. */
  ghost predicate Begins(toks: seq<Located>, i: nat, s: nat, atoms: Atoms) {
    && i <= s <= |toks|
    && (s == i || (toks[s - 1].tok == Or && SomeChildren(toks, i, s - 1, atoms)))
  }

  /** Reading from `i`, a conjunction breaks off, or an `OR` has nothing after it. */
  ghost predicate QueryFails(toks: seq<Located>, i: nat, err: ParseError, atoms: Atoms)
    requires i <= |toks|
    decreases |toks| - i, 3
  {
    exists s: nat ::
      && Begins(toks, i, s, atoms)
      && if s > i && !MayStart(toks, s) then err == Unexpected(Or, toks[s - 1].at) else ConjunctionFails(toks, s, err, atoms)
  }

  ghost predicate ConjunctionFails(toks: seq<Located>, s: nat, err: ParseError, atoms: Atoms)
    requires s <= |toks|
    decreases |toks| - s, 2
  {
    exists p: nat, m, n :: s <= p <= |toks| && ItemsAre(toks, s, p, m, n, atoms) && StuckAt(toks, p, m, n, err, atoms)
  }

  /** No conjunction goes on at `p` after these operands, nor ends there as one. */
  ghost predicate StuckAt(toks: seq<Located>, p: nat, m: seq<Node>, n: seq<Node>, err: ParseError, atoms: Atoms)
    requires p <= |toks|
    decreases |toks| - p, 1
  {
    if p == |toks| then m == [] && err == if n != [] then OnlyNegation else Empty
    else
      match toks[p].tok
      case Or => m == [] && err == if n != [] then OnlyNegation else Unexpected(Or, toks[p].at)
      case RParen => m == [] && err == if n != [] then OnlyNegation else Unexpected(RParen, toks[p].at)
      case And =>
        if m + n == [] || !MayStart(toks, p + 1) then err == Unexpected(And, toks[p].at) else OperandFails(toks, p + 1, err, atoms)
      case _ => OperandFails(toks, p, err, atoms)
  }

  /** A `-` before no atom, or a parenthesis around no query. */
  ghost predicate OperandFails(toks: seq<Located>, p: nat, err: ParseError, atoms: Atoms)
    requires p < |toks|
    decreases |toks| - p, 0
  {
    var a := if toks[p].tok == Minus then p + 1 else p;
    if a == |toks| then err == Empty
    else
      match toks[a].tok
      case Word(_) => false
      case Quoted(_) => false
      case LParen =>
        || QueryFails(toks, a + 1, err, atoms)
        || (err == UnbalancedParen(toks[a].at) && SomeQuery(toks, a + 1, |toks|, atoms))
      case other => err == Unexpected(other, toks[a].at)
  }

  lemma {:induction false} MayStartIs(toks: seq<Located>, p: nat)
    ensures MayStart(toks, p) == StartsOperand(toks, p)
  {
  }

  lemma {:induction false} OperandFailsRead(toks: seq<Located>, p: nat, err: ParseError, atoms: Atoms)
    requires p < |toks| && OperandFails(toks, p, err, atoms)
    ensures UnaryAt(toks, p, atoms) == Failure(err)
    decreases |toks| - p, 0
  {
    hide QueryIs, QueryFails, OrAt, TextNode;
    var a := if toks[p].tok == Minus then p + 1 else p;
    if a < |toks| && toks[a].tok == LParen {
      if QueryFails(toks, a + 1, err, atoms) {
        QueryFailsRead(toks, a + 1, err, atoms);
      } else {
        var q :| QueryIs(toks, a + 1, |toks|, q, atoms);
        QueryRead(toks, a + 1, |toks|, q, atoms);
      }
    }
  }

  lemma {:induction false} StuckRead(toks: seq<Located>, p: nat, m: seq<Node>, n: seq<Node>, err: ParseError, atoms: Atoms)
    requires p <= |toks| && StuckAt(toks, p, m, n, err, atoms)
    ensures AndFrom(toks, p, m, n, atoms) == Failure(err)
    decreases |toks| - p, 1
  {
    hide OperandFails, UnaryAt, MayStart, StartsOperand;
    MayStartIs(toks, p + 1);
    StartIsIn(toks, p + 1);
    if p < |toks| && toks[p].tok == And {
      assert m + n == [] <==> m == [] && n == [];
      if m + n != [] && MayStart(toks, p + 1) {
        OperandFailsRead(toks, p + 1, err, atoms);
        StartGoesOn(toks, p + 1, m, n, err, atoms);
      }
    } else if !Closes(toks, p) {
      OperandFailsRead(toks, p, err, atoms);
    }
  }

  lemma {:induction false} StartGoesOn(toks: seq<Located>, p: nat, m: seq<Node>, n: seq<Node>, err: ParseError, atoms: Atoms)
    requires p < |toks| && StartsOperand(toks, p) && UnaryAt(toks, p, atoms) == Failure(err)
    ensures AndFrom(toks, p, m, n, atoms) == Failure(err)
  {
    hide UnaryAt;
  }

  lemma {:induction false} ConjunctionFailsRead(toks: seq<Located>, s: nat, err: ParseError, atoms: Atoms)
    requires s <= |toks| && ConjunctionFails(toks, s, err, atoms)
    ensures AndFrom(toks, s, [], [], atoms) == Failure(err)
    decreases |toks| - s, 2
  {
    hide ItemsAre, StuckAt, AndFrom;
    var p: nat, m, n :| s <= p <= |toks| && ItemsAre(toks, s, p, m, n, atoms) && StuckAt(toks, p, m, n, err, atoms);
    ItemsRead(toks, s, p, m, n, atoms);
    StuckRead(toks, p, m, n, err, atoms);
  }

  lemma {:induction false} QueryFailsRead(toks: seq<Located>, i: nat, err: ParseError, atoms: Atoms)
    requires i <= |toks| && QueryFails(toks, i, err, atoms)
    ensures OrAt(toks, i, atoms) == Failure(err)
    decreases |toks| - i, 3
  {
    hide ChildrenAre, ConjunctionFails, AndFrom, MayStart, StartsOperand;
    var s: nat :| Begins(toks, i, s, atoms)
      && if s > i && !MayStart(toks, s) then err == Unexpected(Or, toks[s - 1].at) else ConjunctionFails(toks, s, err, atoms);
    MayStartIs(toks, s);
    if s == i || MayStart(toks, s) {
      ConjunctionFailsRead(toks, s, err, atoms);
    }
    if s > i {
      var qs :| ChildrenAre(toks, i, s - 1, qs, atoms);
      ChildrenSome(toks, i, s - 1, qs, atoms);
      ChildrenRead(toks, i, s - 1, qs, atoms);
    }
  }

  lemma {:induction false} ChildrenSome(toks: seq<Located>, i: nat, j: nat, qs: seq<Node>, atoms: Atoms)
    requires j <= |toks| && ChildrenAre(toks, i, j, qs, atoms)
    ensures qs != []
  {
  }

  lemma {:induction false} OperandFailsDerived(toks: seq<Located>, p: nat, atoms: Atoms)
    requires p < |toks| && UnaryAt(toks, p, atoms).Failure?
    ensures OperandFails(toks, p, UnaryAt(toks, p, atoms).error, atoms)
    decreases |toks| - p, 0
  {
    hide QueryIs, QueryFails, OrAt, TextNode;
    var a := if toks[p].tok == Minus then p + 1 else p;
    if a < |toks| && toks[a].tok == LParen {
      if OrAt(toks, a + 1, atoms).Failure? {
        QueryFailsDerived(toks, a + 1, atoms);
      } else {
        QueryDerived(toks, a + 1, atoms);
      }
    }
  }

  lemma {:induction false} ConjunctionFailsDerived(toks: seq<Located>, s: nat, at: nat, m: seq<Node>, n: seq<Node>, atoms: Atoms)
    requires s <= at <= |toks| && ItemsAre(toks, s, at, m, n, atoms) && AndFrom(toks, at, m, n, atoms).Failure?
    ensures ConjunctionFails(toks, s, AndFrom(toks, at, m, n, atoms).error, atoms)
    decreases |toks| - at, 2
  {
    hide ItemsAre, AtomAt, AtomIs, OperandFails, MayStart, StartsOperand;
    var err := AndFrom(toks, at, m, n, atoms).error;
    MayStartIs(toks, at + 1);
    assert m + n == [] <==> m == [] && n == [];
    if Closes(toks, at) || (toks[at].tok == And && (m + n == [] || !MayStart(toks, at + 1))) {
      assert StuckAt(toks, at, m, n, err, atoms);
    } else {
      var joined := toks[at].tok == And;
      var from := if joined then at + 1 else at;
      StartIsIn(toks, at + 1);
      assert AndFrom(toks, at, m, n, atoms) == AndFrom(toks, from, m, n, atoms);
      if UnaryAt(toks, from, atoms).Failure? {
        OperandFailsDerived(toks, from, atoms);
        assert StuckAt(toks, at, m, n, err, atoms);
      } else {
        var u := UnaryAt(toks, from, atoms).value;
        var e := Item(at, joined, u.value.negated, u.value.node);
        AtomDerived(toks, AtomStart(e), atoms);
        assert ItemIs(toks, e, u.next, atoms);
        OneMore(toks, s, u.next, e, m, n, atoms);
        ConjunctionFailsDerived(toks, s, u.next, WithMust(m, e), WithNot(n, e), atoms);
      }
    }
  }

  lemma {:induction false} StartIsIn(toks: seq<Located>, p: nat)
    ensures StartsOperand(toks, p) ==> p < |toks| && toks[p].tok != And && !Closes(toks, p)
  {
  }

  lemma {:induction false} ChildrenFailDerived(toks: seq<Located>, i: nat, at: nat, qs: seq<Node>, atoms: Atoms)
    requires i < at <= |toks| && Closes(toks, at) && ChildrenAre(toks, i, at, qs, atoms)
    requires OrFrom(toks, at, qs, atoms).Failure?
    ensures QueryFails(toks, i, OrFrom(toks, at, qs, atoms).error, atoms)
    decreases |toks| - at, 3
  {
    hide ConjunctionIs, ConjunctionFails, AndFrom, MayStart, StartsOperand;
    MayStartIs(toks, at + 1);
    assert Begins(toks, i, at + 1, atoms);
    NoneYet(toks, at + 1, atoms);
    var r := AndFrom(toks, at + 1, [], [], atoms);
    if !MayStart(toks, at + 1) {
    } else if r.Failure? {
      ConjunctionFailsDerived(toks, at + 1, at + 1, [], [], atoms);
    } else {
      ConjunctionDerived(toks, at + 1, at + 1, [], [], atoms);
      var more := qs + [r.value.value];
      assert more[..|more| - 1] == qs;
      ChildrenFailDerived(toks, i, r.value.next, more, atoms);
    }
  }

  lemma {:induction false} QueryFailsDerived(toks: seq<Located>, i: nat, atoms: Atoms)
    requires i <= |toks| && OrAt(toks, i, atoms).Failure?
    ensures QueryFails(toks, i, OrAt(toks, i, atoms).error, atoms)
    decreases |toks| - i, 4
  {
    hide ConjunctionIs, ConjunctionFails, AndFrom, OrFrom;
    NoneYet(toks, i, atoms);
    assert Begins(toks, i, i, atoms);
    var r := AndFrom(toks, i, [], [], atoms);
    if r.Failure? {
      ConjunctionFailsDerived(toks, i, i, [], [], atoms);
    } else {
      ConjunctionDerived(toks, i, i, [], [], atoms);
      ChildrenFailDerived(toks, i, r.value.next, [r.value.value], atoms);
    }
  }

  /** A query ends before a `)` that nothing opened. */
  ghost predicate Unopened(toks: seq<Located>, err: ParseError, atoms: Atoms) {
    exists j: nat, q :: j < |toks| && toks[j].tok == RParen && QueryIs(toks, 0, j, q, atoms) && err == UnbalancedParen(toks[j].at)
  }

  /** Any other token list is refused, with exactly the error of where it breaks off. */
  lemma {:induction false} RefusedIff(toks: seq<Located>, err: ParseError, atoms: Atoms)
    ensures Parsed(toks, atoms) == Failure(err) <==> QueryFails(toks, 0, err, atoms) || Unopened(toks, err, atoms)
  {
    hide QueryIs, OrAt, QueryFails;
    NothingFails(atoms);
    if QueryFails(toks, 0, err, atoms) {
      QueryFailsRead(toks, 0, err, atoms);
    } else if Unopened(toks, err, atoms) {
      var j: nat, q :| j < |toks| && toks[j].tok == RParen && QueryIs(toks, 0, j, q, atoms) && err == UnbalancedParen(toks[j].at);
      QueryRead(toks, 0, j, q, atoms);
    }
    if Parsed(toks, atoms) == Failure(err) {
      if OrAt(toks, 0, atoms).Failure? {
        QueryFailsDerived(toks, 0, atoms);
      } else {
        QueryDerived(toks, 0, atoms);
      }
    }
  }

  lemma {:induction false} NothingFails(atoms: Atoms)
    ensures OrAt([], 0, atoms) == Failure(Empty)
  {
  }
}
