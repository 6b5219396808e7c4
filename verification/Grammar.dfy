/**
 What the parser guarantees of its trees, and that every such tree can be
 written as a query (src/query/parser.rs).
 */
module Grammar {
  import opened Wrappers
  import opened Documents
  import opened Query
  import opened Lexer
  import opened Parser

  /**
   A conjunction has a positive clause and is not a lone one; a disjunction has
   at least two children, a phrase at least two terms.
   */
  predicate WellFormed(q: Node)
    decreases q
  {
    match q
    case TermNode(_) => true
    case PhraseNode(ts) => |ts| >= 2
    case AndNode(must, mustNot) =>
      && must != [] && (|must| >= 2 || mustNot != [])
      && (forall k | 0 <= k < |must| :: WellFormed(must[k]))
      && (forall k | 0 <= k < |mustNot| :: WellFormed(mustNot[k]))
    case OrNode(children) => |children| >= 2 && forall k | 0 <= k < |children| :: WellFormed(children[k])
  }

  predicate AllWell(qs: seq<Node>) {
    forall k | 0 <= k < |qs| :: WellFormed(qs[k])
  }

  // ----- Every success is well formed -----

  lemma {:induction false} AtomWell(toks: seq<Located>, i: nat, atoms: Atoms)
    requires AtomAt(toks, i, atoms).Success? && AtomAt(toks, i, atoms).value.value.Some?
    ensures WellFormed(AtomAt(toks, i, atoms).value.value.value)
    decreases if i <= |toks| then |toks| - i else 0, 0
  {
    if toks[i].tok.LParen? {
      OrWell(toks, i + 1, atoms);
    }
  }

  lemma {:induction false} AndWell(toks: seq<Located>, i: nat, must: seq<Node>, mustNot: seq<Node>, atoms: Atoms)
    requires i <= |toks| && AllWell(must) && AllWell(mustNot)
    requires AndFrom(toks, i, must, mustNot, atoms).Success?
    ensures WellFormed(AndFrom(toks, i, must, mustNot, atoms).value.value)
    decreases |toks| - i, 2
  {
    if i == |toks| || toks[i].tok == Or || toks[i].tok == RParen {
    } else if toks[i].tok == And {
      AndWell(toks, i + 1, must, mustNot, atoms);
    } else {
      var s := UnaryAt(toks, i, atoms).value;
      if s.value.node.None? {
        AndWell(toks, s.next, must, mustNot, atoms);
      } else {
        AtomWell(toks, if toks[i].tok == Minus then i + 1 else i, atoms);
        if s.value.negated {
          AndWell(toks, s.next, must, mustNot + [s.value.node.value], atoms);
        } else {
          AndWell(toks, s.next, must + [s.value.node.value], mustNot, atoms);
        }
      }
    }
  }

  lemma {:induction false} OrRestWell(toks: seq<Located>, i: nat, children: seq<Node>, atoms: Atoms)
    requires i <= |toks| && children != [] && (i == |toks| || toks[i].tok == Or || toks[i].tok == RParen)
    requires AllWell(children) && OrFrom(toks, i, children, atoms).Success?
    ensures WellFormed(OrFrom(toks, i, children, atoms).value.value)
    decreases |toks| - i, 3
  {
    if i < |toks| && toks[i].tok == Or {
      AndWell(toks, i + 1, [], [], atoms);
      var s := AndFrom(toks, i + 1, [], [], atoms).value;
      OrRestWell(toks, s.next, children + [s.value], atoms);
    }
  }

  lemma {:induction false} OrWell(toks: seq<Located>, i: nat, atoms: Atoms)
    requires i <= |toks| && OrAt(toks, i, atoms).Success?
    ensures WellFormed(OrAt(toks, i, atoms).value.value)
    decreases |toks| - i, 4
  {
    AndWell(toks, i, [], [], atoms);
    var s := AndFrom(toks, i, [], [], atoms).value;
    OrRestWell(toks, s.next, [s.value], atoms);
  }

  /** Whatever the text, a parsed tree is well formed. */
  lemma {:induction false} ParsesWellFormed(input: string, atoms: Atoms)
    requires ParsedText(input, atoms).Success?
    ensures WellFormed(ParsedText(input, atoms).value)
  {
    OrWell(LexFrom(input, 0).value, 0, atoms);
  }

  // ----- Writing a tree as tokens -----

  /** How a list of terms is spelled. */
  type Spelling = seq<Term> -> string

  /** `bare` says which spellings to leave without quotation marks where they are words. */
  datatype Style = Style(spell: Spelling, bare: seq<Term> -> bool, explicitAnd: bool)

  /** A term or phrase, as a bare word or quoted. */
  function Leaf(ts: seq<Term>, st: Style): Tok {
    if st.bare(ts) && IsWord(st.spell(ts)) then Word(st.spell(ts)) else Quoted(st.spell(ts))
  }

  /** Before an operand that is not the first of its conjunction. */
  function Joint(st: Style): seq<Tok> {
    if st.explicitAnd then [And] else []
  }

  function Render(q: Node, st: Style): (w: seq<Tok>)
    ensures w != [] && (w[0].Word? || w[0].Quoted? || w[0].LParen?)
    decreases q, 0
  {
    match q
    case TermNode(t) => [Leaf([t], st)]
    case PhraseNode(ts) => [Leaf(ts, st)]
    case AndNode(must, mustNot) => [LParen] + (RenderMust(must, 0, st) + (RenderNot(mustNot, 0, st) + [RParen]))
    case OrNode(children) => [LParen] + (RenderOr(children, 0, st) + [RParen])
  }

  function RenderMust(qs: seq<Node>, k: nat, st: Style): seq<Tok>
    requires k <= |qs|
    decreases qs, |qs| - k
  {
    if k == |qs| then [] else (if k > 0 then Joint(st) else []) + (Render(qs[k], st) + RenderMust(qs, k + 1, st))
  }

  function RenderNot(qs: seq<Node>, k: nat, st: Style): seq<Tok>
    requires k <= |qs|
    decreases qs, |qs| - k
  {
    if k == |qs| then [] else Joint(st) + ([Minus] + (Render(qs[k], st) + RenderNot(qs, k + 1, st)))
  }

  function RenderOr(qs: seq<Node>, k: nat, st: Style): seq<Tok>
    requires k <= |qs|
    decreases qs, |qs| - k
  {
    if k == |qs| then [] else (if k > 0 then [Or] else []) + (Render(qs[k], st) + RenderOr(qs, k + 1, st))
  }

  /** The tokenizer reads each of the tree's spellings back as its terms. */
  predicate Spelled(q: Node, spell: Spelling, atoms: Atoms)
    decreases q
  {
    match q
    case TermNode(t) => atoms(spell([t])) == [t] && '"' !in spell([t])
    case PhraseNode(ts) => atoms(spell(ts)) == ts && '"' !in spell(ts)
    case AndNode(must, mustNot) =>
      && (forall k | 0 <= k < |must| :: Spelled(must[k], spell, atoms))
      && (forall k | 0 <= k < |mustNot| :: Spelled(mustNot[k], spell, atoms))
    case OrNode(children) => forall k | 0 <= k < |children| :: Spelled(children[k], spell, atoms)
  }

  /** The tokens `w` stand in `toks` at `i`. */
  ghost predicate StandsAt(toks: seq<Located>, i: nat, w: seq<Tok>) {
    i + |w| <= |toks| && forall k: nat | k < |w| :: toks[i + k].tok == w[k]
  }

  lemma {:induction false} StandsSplit(toks: seq<Located>, i: nat, a: seq<Tok>, b: seq<Tok>)
    requires StandsAt(toks, i, a + b)
    ensures StandsAt(toks, i, a) && StandsAt(toks, i + |a|, b)
  {
    forall k: nat | k < |a|
      ensures toks[i + k].tok == a[k]
    {
      assert (a + b)[k] == a[k];
    }
    forall k: nat | k < |b|
      ensures toks[i + |a| + k].tok == b[k]
    {
      assert (a + b)[|a| + k] == b[k];
    }
  }

  // ----- Parsing it back -----

  lemma {:induction false} Head(toks: seq<Located>, i: nat, w: seq<Tok>)
    requires StandsAt(toks, i, w) && w != []
    ensures i < |toks| && toks[i].tok == w[0]
  {
    assert toks[i + 0].tok == w[0];
  }

  ghost predicate AllGood(qs: seq<Node>, st: Style, atoms: Atoms) {
    forall j | 0 <= j < |qs| :: WellFormed(qs[j]) && Spelled(qs[j], st.spell, atoms)
  }

  /** A parenthesised or quoted tree is one operand, whatever surrounds it. */
  lemma {:induction false} RenderParses(toks: seq<Located>, i: nat, q: Node, st: Style, atoms: Atoms)
    requires WellFormed(q) && Spelled(q, st.spell, atoms) && StandsAt(toks, i, Render(q, st))
    ensures AtomAt(toks, i, atoms) == Success(Step(Some(q), i + |Render(q, st)|))
    decreases q, 1
  {
    hide StandsAt, OrAt, RenderMust, RenderNot, RenderOr;
    match q
    case TermNode(_) => Head(toks, i, Render(q, st));
    case PhraseNode(_) => Head(toks, i, Render(q, st));
    case AndNode(_, _) => hide Render, AtomAt; AndRendered(toks, i, q, st, atoms);
    case OrNode(_) => hide Render, AtomAt; OrRendered(toks, i, q, st, atoms);
  }

  /** A bracketed list of tokens, taken apart. */
  lemma {:induction false} Bracketed(toks: seq<Located>, i: nat, w: seq<Tok>)
    requires StandsAt(toks, i, [LParen] + (w + [RParen]))
    ensures i + 1 + |w| < |toks| && toks[i].tok == LParen && toks[i + 1 + |w|].tok == RParen && StandsAt(toks, i + 1, w)
  {
    StandsSplit(toks, i, [LParen], w + [RParen]);
    StandsSplit(toks, i + 1, w, [RParen]);
    Head(toks, i, [LParen]);
    Head(toks, i + 1 + |w|, [RParen]);
  }

  lemma {:induction false} AndShape(q: Node, st: Style, atoms: Atoms)
    requires q.AndNode? && WellFormed(q) && Spelled(q, st.spell, atoms)
    ensures AllGood(q.must, st, atoms) && AllGood(q.mustNot, st, atoms) && q.must != [] && (|q.must| >= 2 || q.mustNot != [])
    ensures Render(q, st) == [LParen] + ((RenderMust(q.must, 0, st) + RenderNot(q.mustNot, 0, st)) + [RParen])
  {
    hide RenderMust, RenderNot;
    assert RenderMust(q.must, 0, st) + (RenderNot(q.mustNot, 0, st) + [RParen]) == (RenderMust(q.must, 0, st) + RenderNot(q.mustNot, 0, st)) + [RParen];
  }

  lemma {:induction false} AndRendered(toks: seq<Located>, i: nat, q: Node, st: Style, atoms: Atoms)
    requires q.AndNode? && WellFormed(q) && Spelled(q, st.spell, atoms) && StandsAt(toks, i, Render(q, st))
    ensures AtomAt(toks, i, atoms) == Success(Step(Some(q), i + |Render(q, st)|))
    decreases q, 0
  {
    hide WellFormed, Spelled, Render, RenderMust, RenderNot, StandsAt, AndFrom, AtomAt, AllGood;
    var must, mustNot := q.must, q.mustNot;
    var a, b := RenderMust(must, 0, st), RenderNot(mustNot, 0, st);
    AndShape(q, st, atoms);
    Bracketed(toks, i, a + b);
    StandsSplit(toks, i + 1, a, b);
    MustParses(toks, i + 1, must, 0, st, atoms);
    NotParses(toks, i + 1 + |a|, must, mustNot, 0, st, atoms);
    assert must[..0] == [] && mustNot[..0] == [];
    AndCloses(toks, i, i + 1 + |a| + |b|, must, mustNot, atoms);
  }

  lemma {:induction false} OrRendered(toks: seq<Located>, i: nat, q: Node, st: Style, atoms: Atoms)
    requires q.OrNode? && WellFormed(q) && Spelled(q, st.spell, atoms) && StandsAt(toks, i, Render(q, st))
    ensures AtomAt(toks, i, atoms) == Success(Step(Some(q), i + |Render(q, st)|))
    decreases q, 0
  {
    var children := q.children;
    assert AllGood(children, st, atoms);
    hide WellFormed, Spelled, RenderOr, StandsAt, OrAt, AllGood;
    Bracketed(toks, i, RenderOr(children, 0, st));
    OrParses(toks, i + 1, children, st, atoms);
  }

  lemma {:induction false} AndCloses(toks: seq<Located>, i: nat, close: nat, must: seq<Node>, mustNot: seq<Node>, atoms: Atoms)
    requires i < close < |toks| && toks[i].tok == LParen && toks[close].tok == RParen
    requires must != [] && (|must| >= 2 || mustNot != [])
    requires AndFrom(toks, i + 1, [], [], atoms) == AndFrom(toks, close, must, mustNot, atoms)
    ensures AtomAt(toks, i, atoms) == Success(Step(Some(AndNode(must, mustNot)), close + 1))
  {
    assert AndFrom(toks, close, must, mustNot, atoms) == Success(Step(AndNode(must, mustNot), close));
    assert OrAt(toks, i + 1, atoms) == Success(Step(AndNode(must, mustNot), close));
  }

  function Sign(negated: bool): seq<Tok> {
    if negated then [Minus] else []
  }

  /** The next operand of a conjunction, negated or not. */
  lemma {:induction false} OperandParses(toks: seq<Located>, i: nat, must: seq<Node>, mustNot: seq<Node>, q: Node, negated: bool, st: Style, atoms: Atoms)
    requires WellFormed(q) && Spelled(q, st.spell, atoms)
    requires StandsAt(toks, i, Sign(negated) + Render(q, st))
    ensures var next := i + |Sign(negated)| + |Render(q, st)|;
      && i < next <= |toks| && StartsOperand(toks, i)
      && AndFrom(toks, i, must, mustNot, atoms)
         == if negated then AndFrom(toks, next, must, mustNot + [q], atoms) else AndFrom(toks, next, must + [q], mustNot, atoms)
    decreases q, 2
  {
    hide WellFormed, Spelled, StandsAt, AndFrom, AtomAt;
    var at, w := i + |Sign(negated)|, Render(q, st);
    hide Render;
    StandsSplit(toks, i, Sign(negated), w);
    Head(toks, at, w);
    if negated {
      Head(toks, i, Sign(negated));
    }
    RenderParses(toks, at, q, st, atoms);
    OperandTaken(toks, i, at, at + |w|, must, mustNot, q, negated, atoms);
  }

  lemma {:induction false} OperandTaken(toks: seq<Located>, i: nat, at: nat, next: nat, must: seq<Node>, mustNot: seq<Node>, q: Node, negated: bool, atoms: Atoms)
    requires at < |toks| && (toks[at].tok.Word? || toks[at].tok.Quoted? || toks[at].tok.LParen?)
    requires if negated then at == i + 1 && toks[i].tok == Minus else at == i
    requires AtomAt(toks, at, atoms) == Success(Step(Some(q), next))
    ensures AndFrom(toks, i, must, mustNot, atoms)
            == if negated then AndFrom(toks, next, must, mustNot + [q], atoms) else AndFrom(toks, next, must + [q], mustNot, atoms)
  {
    hide AtomAt;
    assert UnaryAt(toks, i, atoms) == Success(Step(Operand(Some(q), negated), next));
  }

  /** An explicit `AND` before an operand changes nothing. */
  lemma {:induction false} JointParses(toks: seq<Located>, i: nat, must: seq<Node>, mustNot: seq<Node>, st: Style, atoms: Atoms)
    requires StandsAt(toks, i, Joint(st)) && must != [] && StartsOperand(toks, i + |Joint(st)|)
    ensures AndFrom(toks, i, must, mustNot, atoms) == AndFrom(toks, i + |Joint(st)|, must, mustNot, atoms)
  {
    if st.explicitAnd {
      Head(toks, i, [And]);
    }
  }

  lemma {:induction false} GoodAt(qs: seq<Node>, k: nat, st: Style, atoms: Atoms)
    requires k < |qs| && AllGood(qs, st, atoms)
    ensures WellFormed(qs[k]) && Spelled(qs[k], st.spell, atoms)
  {
  }

  lemma {:induction false} Unsigned(w: seq<Tok>)
    ensures Sign(false) + w == w && |Sign(false)| == 0
  {
  }

  /** One more positive operand, its joint included. */
  lemma {:induction false} MustOne(toks: seq<Located>, i: nat, must: seq<Node>, k: nat, joint: seq<Tok>, st: Style, atoms: Atoms)
    requires k < |must| && AllGood(must, st, atoms) && joint == (if k > 0 then Joint(st) else [])
    requires StandsAt(toks, i, joint) && StandsAt(toks, i + |joint|, Render(must[k], st))
    ensures AndFrom(toks, i, must[..k], [], atoms) == AndFrom(toks, i + |joint| + |Render(must[k], st)|, must[..k + 1], [], atoms)
    decreases must, |must| - k, 0
  {
    hide AndFrom, WellFormed, Spelled, StandsAt, Render, Joint, AllGood, StartsOperand;
    GoodAt(must, k, st, atoms);
    var before, at := must[..k], i + |joint|;
    Unsigned(Render(must[k], st));
    OperandParses(toks, at, before, [], must[k], false, st, atoms);
    if k > 0 {
      JointParses(toks, i, before, [], st, atoms);
    }
    assert before + [must[k]] == must[..k + 1];
  }

  lemma {:induction false} MustParses(toks: seq<Located>, i: nat, must: seq<Node>, k: nat, st: Style, atoms: Atoms)
    requires k <= |must| && StandsAt(toks, i, RenderMust(must, k, st)) && AllGood(must, st, atoms)
    ensures AndFrom(toks, i, must[..k], [], atoms) == AndFrom(toks, i + |RenderMust(must, k, st)|, must, [], atoms)
    decreases must, |must| - k, 1
  {
    hide AndFrom, WellFormed, Spelled, StandsAt, AllGood, Joint;
    if k == |must| {
      assert must[..k] == must;
    } else {
      var joint, w, rest := if k > 0 then Joint(st) else [], Render(must[k], st), RenderMust(must, k + 1, st);
      hide Render;
      StandsSplit(toks, i, joint, w + rest);
      StandsSplit(toks, i + |joint|, w, rest);
      MustOne(toks, i, must, k, joint, st, atoms);
      MustParses(toks, i + |joint| + |w|, must, k + 1, st, atoms);
    }
  }

  lemma {:induction false} NotParses(toks: seq<Located>, i: nat, must: seq<Node>, mustNot: seq<Node>, k: nat, st: Style, atoms: Atoms)
    requires must != [] && k <= |mustNot| && StandsAt(toks, i, RenderNot(mustNot, k, st)) && AllGood(mustNot, st, atoms)
    ensures AndFrom(toks, i, must, mustNot[..k], atoms) == AndFrom(toks, i + |RenderNot(mustNot, k, st)|, must, mustNot, atoms)
    decreases mustNot, |mustNot| - k
  {
    hide AndFrom, WellFormed, Spelled, StandsAt, AllGood, Joint, StartsOperand;
    if k == |mustNot| {
      assert mustNot[..k] == mustNot;
    } else {
      var w, rest := Render(mustNot[k], st), RenderNot(mustNot, k + 1, st);
      hide Render;
      var at := i + |Joint(st)|;
      GoodAt(mustNot, k, st, atoms);
      StandsSplit(toks, i, Joint(st), [Minus] + (w + rest));
      assert [Minus] + (w + rest) == (Sign(true) + w) + rest;
      StandsSplit(toks, at, Sign(true) + w, rest);
      OperandParses(toks, at, must, mustNot[..k], mustNot[k], true, st, atoms);
      JointParses(toks, i, must, mustNot[..k], st, atoms);
      assert mustNot[..k] + [mustNot[k]] == mustNot[..k + 1];
      NotParses(toks, at + 1 + |w|, must, mustNot, k + 1, st, atoms);
    }
  }

  /** A lone operand before the end, `OR` or `)` is the whole conjunction. */
  lemma {:induction false} LoneParses(toks: seq<Located>, i: nat, q: Node, st: Style, atoms: Atoms)
    requires WellFormed(q) && Spelled(q, st.spell, atoms) && StandsAt(toks, i, Render(q, st))
    requires var next := i + |Render(q, st)|; next == |toks| || toks[next].tok == Or || toks[next].tok == RParen
    ensures AndFrom(toks, i, [], [], atoms) == Success(Step(q, i + |Render(q, st)|))
    decreases q, 3
  {
    hide WellFormed, Spelled, StandsAt, Render;
    assert Sign(false) + Render(q, st) == Render(q, st);
    OperandParses(toks, i, [], [], q, false, st, atoms);
    assert [] + [q] == [q];
  }

  lemma {:induction false} OrParses(toks: seq<Located>, i: nat, children: seq<Node>, st: Style, atoms: Atoms)
    requires |children| >= 2 && StandsAt(toks, i, RenderOr(children, 0, st)) && AllGood(children, st, atoms)
    requires var close := i + |RenderOr(children, 0, st)|; close < |toks| && toks[close].tok == RParen
    ensures OrAt(toks, i, atoms) == Success(Step(OrNode(children), i + |RenderOr(children, 0, st)|))
    decreases children, |children|
  {
    hide AndFrom, OrFrom, WellFormed, Spelled, StandsAt, Render;
    var w, rest := Render(children[0], st), RenderOr(children, 1, st);
    assert RenderOr(children, 0, st) == w + rest;
    assert rest[0] == Or;
    StandsSplit(toks, i, w, rest);
    Head(toks, i + |w|, rest);
    LoneParses(toks, i, children[0], st, atoms);
    assert children[..1] == [children[0]];
    OrRestParses(toks, i + |w|, children, 1, st, atoms);
  }

  lemma {:induction false} OrRestParses(toks: seq<Located>, i: nat, children: seq<Node>, k: nat, st: Style, atoms: Atoms)
    requires 1 <= k <= |children| && |children| >= 2 && StandsAt(toks, i, RenderOr(children, k, st)) && AllGood(children, st, atoms)
    requires var close := i + |RenderOr(children, k, st)|; close < |toks| && toks[close].tok == RParen
    requires k < |children| ==> toks[i].tok == Or
    ensures OrFrom(toks, i, children[..k], atoms) == Success(Step(OrNode(children), i + |RenderOr(children, k, st)|))
    decreases children, |children| - k
  {
    hide AndFrom, WellFormed, Spelled, StandsAt, Render;
    if k == |children| {
      assert children[..k] == children;
    } else {
      var w, rest := Render(children[k], st), RenderOr(children, k + 1, st);
      StandsSplit(toks, i, [Or], w + rest);
      StandsSplit(toks, i + 1, w, rest);
      Head(toks, i + 1, w);
      if k + 1 < |children| {
        assert rest[0] == Or;
        Head(toks, i + 1 + |w|, rest);
      }
      LoneParses(toks, i + 1, children[k], st, atoms);
      assert children[..k] + [children[k]] == children[..k + 1];
      OrRestParses(toks, i + 1 + |w|, children, k + 1, st, atoms);
    }
  }

  // ----- As text -----

  /** Every token has a text that reads as it, and a minus stands before an operand. */
  ghost predicate Printable(w: seq<Tok>) {
    AllReadable(w) && (w != [] ==> w[|w| - 1] != Minus)
  }

  lemma {:induction false} PrintableConcat(a: seq<Tok>, b: seq<Tok>)
    requires Printable(a) && Printable(b)
    ensures Printable(a + b)
  {
    forall k: nat | k < |a + b|
      ensures Readable(a + b, k)
    {
      if k < |a| {
        assert Readable(a, k);
      } else {
        assert Readable(b, k - |a|);
        assert (a + b)[k] == b[k - |a|];
      }
    }
  }

  lemma {:induction false} PrintableOne(t: Tok)
    requires (t.Word? ==> IsWord(t.text)) && t != Minus && (t.Quoted? ==> '"' !in t.text)
    ensures Printable([t])
  {
  }

  lemma {:induction false} PrintableMinus(w: seq<Tok>)
    requires Printable(w) && w != [] && (w[0].Word? || w[0].Quoted? || w[0].LParen?)
    ensures Printable([Minus] + w)
  {
    forall k: nat | k < |[Minus] + w|
      ensures Readable([Minus] + w, k)
    {
      if k > 0 {
        assert Readable(w, k - 1);
      }
    }
  }

  lemma {:induction false} RenderPrintable(q: Node, st: Style, atoms: Atoms)
    requires Spelled(q, st.spell, atoms)
    ensures Printable(Render(q, st))
    decreases q, 0
  {
    PrintableOne(LParen);
    PrintableOne(RParen);
    match q
    case TermNode(t) => PrintableOne(Leaf([t], st));
    case PhraseNode(ts) => PrintableOne(Leaf(ts, st));
    case AndNode(must, mustNot) =>
      MustPrintable(must, 0, st, atoms);
      NotPrintable(mustNot, 0, st, atoms);
      PrintableConcat(RenderNot(mustNot, 0, st), [RParen]);
      PrintableConcat(RenderMust(must, 0, st), RenderNot(mustNot, 0, st) + [RParen]);
      PrintableConcat([LParen], RenderMust(must, 0, st) + (RenderNot(mustNot, 0, st) + [RParen]));
    case OrNode(children) =>
      OrPrintable(children, 0, st, atoms);
      PrintableConcat(RenderOr(children, 0, st), [RParen]);
      PrintableConcat([LParen], RenderOr(children, 0, st) + [RParen]);
  }

  lemma {:induction false} MustPrintable(qs: seq<Node>, k: nat, st: Style, atoms: Atoms)
    requires k <= |qs| && forall j | 0 <= j < |qs| :: Spelled(qs[j], st.spell, atoms)
    ensures Printable(RenderMust(qs, k, st))
    decreases qs, |qs| - k
  {
    if k < |qs| {
      PrintableOne(And);
      RenderPrintable(qs[k], st, atoms);
      MustPrintable(qs, k + 1, st, atoms);
      PrintableConcat(Render(qs[k], st), RenderMust(qs, k + 1, st));
      PrintableConcat(if k > 0 then Joint(st) else [], Render(qs[k], st) + RenderMust(qs, k + 1, st));
    }
  }

  lemma {:induction false} NotPrintable(qs: seq<Node>, k: nat, st: Style, atoms: Atoms)
    requires k <= |qs| && forall j | 0 <= j < |qs| :: Spelled(qs[j], st.spell, atoms)
    ensures Printable(RenderNot(qs, k, st))
    decreases qs, |qs| - k
  {
    if k < |qs| {
      PrintableOne(And);
      RenderPrintable(qs[k], st, atoms);
      NotPrintable(qs, k + 1, st, atoms);
      PrintableConcat(Render(qs[k], st), RenderNot(qs, k + 1, st));
      PrintableMinus(Render(qs[k], st) + RenderNot(qs, k + 1, st));
      PrintableConcat(Joint(st), [Minus] + (Render(qs[k], st) + RenderNot(qs, k + 1, st)));
    }
  }

  lemma {:induction false} OrPrintable(qs: seq<Node>, k: nat, st: Style, atoms: Atoms)
    requires k <= |qs| && forall j | 0 <= j < |qs| :: Spelled(qs[j], st.spell, atoms)
    ensures Printable(RenderOr(qs, k, st))
    decreases qs, |qs| - k
  {
    if k < |qs| {
      PrintableOne(Or);
      RenderPrintable(qs[k], st, atoms);
      OrPrintable(qs, k + 1, st, atoms);
      PrintableConcat(Render(qs[k], st), RenderOr(qs, k + 1, st));
      PrintableConcat(if k > 0 then [Or] else [], Render(qs[k], st) + RenderOr(qs, k + 1, st));
    }
  }

  /**
   Every well-formed tree, written out with or without `AND`, parses to itself:
   with `ParsesWellFormed`, the well-formed trees are exactly what queries mean.
   */
  lemma {:induction false} TextRoundTrip(q: Node, st: Style, atoms: Atoms)
    requires WellFormed(q) && Spelled(q, st.spell, atoms)
    ensures ParsedText(TextOf(Render(q, st)), atoms) == Success(q)
  {
    var src := TextOf(Render(q, st));
    RenderPrintable(q, st, atoms);
    assert src[0..] == src;
    LexText(src, 0, Render(q, st));
    var toks := LexFrom(src, 0).value;
    assert Toks(toks) == Render(q, st);
    forall k: nat | k < |Render(q, st)|
      ensures toks[0 + k].tok == Render(q, st)[k]
    {
      assert Toks(toks)[k] == toks[k].tok;
    }
    assert |toks| == |Toks(toks)| && StandsAt(toks, 0, Render(q, st));
    LoneParses(toks, 0, q, st, atoms);
    assert OrAt(toks, 0, atoms) == OrFrom(toks, |toks|, [q], atoms) == Success(Step(q, |toks|));
  }
}
