/**
 * What the Pratt parser computes. An expression tree that its tokens denote (each operand
 * binds at least as tightly as its operator demands) is compiled, from those tokens, to the
 * post-order code of the tree: operands first, then the operator. Left-associativity and
 * the binding order of the operators follow from that theorem.
 */
module PrattParsing {
  import opened Scanning
  import opened Chunks
  import opened ParseRules
  import opened CompilerSpec
  import opened Expressions
  import opened ParserSteps

  // ----- The parser compiles a well-formed tree to its code -----

  /**
   * parsePrecedence(prec) on the tokens of `e`, followed by a token that binds less tightly
   * than `prec`, reads exactly `e` and emits exactly its code, reporting nothing.
   */
  lemma {:induction false} ParseTree(e: Expr, st: PState, prec: Precedence, tail: seq<Token>)
    requires Ok(st) && WellFormed(e) && Reading(st, Tokens(e) + tail)
    requires tail != [] && tail[0].kind != Error
    requires PREC_ASSIGNMENT <= prec <= Level(e) && GetRule(tail[0].kind).precedence < prec
    requires |st.consts| + |ConstsOf(e)| <= 256
    ensures ParsePrecedence(st, prec) == Parsed(st, e, tail)
    decreases Size(e), 3
  {
    var p := Primary(e);
    var after := AfterPrimary(e) + tail;
    PrimarySplit(e);
    TokensPlain(e);
    Regroup(Tokens(p), AfterPrimary(e), tail);
    assert after != [] && after[0].kind != Error by {
      assert after[0] == (Tokens(e) + tail)[|Tokens(p)|];
    }
    PrimaryParse(p, st, after);
    ParseStart(st, prec);
    SpineParse(e, st, prec, tail);
    LoopEnd(st, e, prec, tail);
  }

  /** The prefix routine of a tree's first token compiles that primary. */
  lemma {:induction false} PrimaryParse(p: Expr, st: PState, tail: seq<Token>)
    requires Ok(st) && WellFormed(p) && !p.Binop? && Reading(st, Tokens(p) + tail)
    requires tail != [] && tail[0].kind != Error
    requires |st.consts| + |ConstsOf(p)| <= 256
    ensures GetRule(Advance(st).previous.kind).prefix != NoPrefix
    ensures Prefix(Advance(st)) == Parsed(st, p, tail)
    decreases Size(p), 2
  {
    match p
    case Atom(t) =>
      AtomParse(t, st, tail);
    case Unop(op, x) =>
      Regroup([op], Tokens(x), tail);
      UnopParse(op, x, st, tail);
    case Paren(o, x, c) =>
      Regroup4([o], Tokens(x), [c], tail);
      ParenParse(o, x, c, st, tail);
  }

  /** A unary expression: its operand at unary precedence, then the operator's instruction. */
  lemma {:induction false} UnopParse(op: Token, x: Expr, st: PState, tail: seq<Token>)
    requires Ok(st) && WellFormed(Unop(op, x)) && Reading(st, [op] + (Tokens(x) + tail))
    requires tail != [] && tail[0].kind != Error
    requires |st.consts| + |ConstsOf(x)| <= 256
    ensures GetRule(Advance(st).previous.kind).prefix != NoPrefix
    ensures Prefix(Advance(st)) == Parsed(st, Unop(op, x), tail)
    decreases Size(x), 4
  {
    UnopRead(op, x, st, tail);
    ParseTree(x, Advance(st), PREC_UNARY, tail);
    UnopClose(op, x, st, tail);
  }

  /** A parenthesised expression: the inner expression, then the closing parenthesis. */
  lemma {:induction false} ParenParse(o: Token, x: Expr, c: Token, st: PState, tail: seq<Token>)
    requires Ok(st) && WellFormed(Paren(o, x, c)) && Reading(st, [o] + (Tokens(x) + ([c] + tail)))
    requires tail != [] && tail[0].kind != Error
    requires |st.consts| + |ConstsOf(x)| <= 256
    ensures GetRule(Advance(st).previous.kind).prefix != NoPrefix
    ensures Prefix(Advance(st)) == Parsed(st, Paren(o, x, c), tail)
    decreases Size(x), 5
  {
    ParenInner(o, x, c, st, tail);
    ParenFinish(o, x, c, st, tail);
  }

  /** After `(`, grouping parses the inner expression at assignment precedence, up to the `)`. */
  lemma {:induction false} ParenInner(o: Token, x: Expr, c: Token, st: PState, tail: seq<Token>)
    requires Ok(st) && WellFormed(Paren(o, x, c)) && Reading(st, [o] + (Tokens(x) + ([c] + tail)))
    requires tail != [] && tail[0].kind != Error
    requires |st.consts| + |ConstsOf(x)| <= 256
    ensures Ok(Advance(st)) && Reading(Advance(st), Tokens(x) + ([c] + tail))
    ensures Advance(st) == st.(previous := o, current := Advance(st).current, rest := Advance(st).rest)
    ensures GetRule(Advance(st).previous.kind).prefix != NoPrefix && Prefix(Advance(st)) == Grouping(Advance(st))
    ensures WellFormed(x) && ParsePrecedence(Advance(st), PREC_ASSIGNMENT) == Parsed(Advance(st), x, [c] + tail)
    decreases Size(x), 4
  {
    ParenRead(o, x, c, st, tail);
    assert ([c] + tail)[0] == c;
    ParseTree(x, Advance(st), PREC_ASSIGNMENT, [c] + tail);
  }

  /**
   * The infix loop over the operators of `e`'s left spine ends where it would end had it
   * started just after all of `e`: every spine operator binds at least as tightly as `prec`.
   */
  lemma {:induction false} SpineParse(e: Expr, st: PState, prec: Precedence, tail: seq<Token>)
    requires Ok(st) && WellFormed(e) && Reading(st, Tokens(e) + tail)
    requires tail != [] && tail[0].kind != Error
    requires PREC_ASSIGNMENT <= prec <= Level(e)
    requires e.Binop? ==> GetRule(tail[0].kind).precedence <= Level(e)
    requires |st.consts| + |ConstsOf(e)| <= 256
    ensures Ok(Parsed(st, Primary(e), AfterPrimary(e) + tail)) && Ok(Parsed(st, e, tail))
    ensures InfixLoop(Parsed(st, Primary(e), AfterPrimary(e) + tail), prec) == InfixLoop(Parsed(st, e, tail), prec)
    decreases Size(e), 1
  {
    PrimarySplit(e);
    ParsedOk(st, e, tail);
    Regroup(Tokens(Primary(e)), AfterPrimary(e), tail);
    ParsedOk(st, Primary(e), AfterPrimary(e) + tail);
    if e.Binop? {
      var l, op, r := e.left, e.op, e.right;
      Regroup4(Tokens(l), [op], Tokens(r), tail);
      Regroup4(AfterPrimary(l), [op], Tokens(r), tail);
      assert Primary(e) == Primary(l) && AfterPrimary(e) + tail == AfterPrimary(l) + ([op] + (Tokens(r) + tail));
      SpineBinop(l, op, r, st, prec, tail);
    } else {
      assert AfterPrimary(e) + tail == tail;
    }
  }

  /** The left spine of `l op r`: that of `l`, then one more round for `op`. */
  lemma {:induction false} SpineBinop(l: Expr, op: Token, r: Expr, st: PState, prec: Precedence, tail: seq<Token>)
    requires Ok(st) && WellFormed(Binop(l, op, r)) && Reading(st, Tokens(l) + ([op] + (Tokens(r) + tail)))
    requires tail != [] && tail[0].kind != Error
    requires PREC_ASSIGNMENT <= prec <= GetRule(op.kind).precedence
    requires GetRule(tail[0].kind).precedence <= GetRule(op.kind).precedence
    requires |st.consts| + |ConstsOf(l)| + |ConstsOf(r)| <= 256
    ensures Ok(Parsed(st, Primary(l), AfterPrimary(l) + ([op] + (Tokens(r) + tail))))
    ensures Ok(Parsed(st, Binop(l, op, r), tail))
    ensures InfixLoop(Parsed(st, Primary(l), AfterPrimary(l) + ([op] + (Tokens(r) + tail))), prec)
            == InfixLoop(Parsed(st, Binop(l, op, r), tail), prec)
    decreases Size(Binop(l, op, r)), 0
  {
    var tl := [op] + (Tokens(r) + tail);
    assert Size(l) < Size(Binop(l, op, r));
    SpineParse(l, st, prec, tl);
    SpineStep(l, op, r, st, prec, tail);
  }

  /** One round of the infix loop: the operator after `l`, then its right operand `r`. */
  lemma {:induction false} SpineStep(l: Expr, op: Token, r: Expr, st: PState, prec: Precedence, tail: seq<Token>)
    requires Ok(st) && WellFormed(Binop(l, op, r)) && Reading(st, Tokens(l) + ([op] + (Tokens(r) + tail)))
    requires tail != [] && tail[0].kind != Error
    requires PREC_ASSIGNMENT <= prec <= GetRule(op.kind).precedence
    requires GetRule(tail[0].kind).precedence <= GetRule(op.kind).precedence
    requires |st.consts| + |ConstsOf(l)| + |ConstsOf(r)| <= 256
    ensures Ok(Parsed(st, l, [op] + (Tokens(r) + tail))) && Ok(Parsed(st, Binop(l, op, r), tail))
    ensures InfixLoop(Parsed(st, l, [op] + (Tokens(r) + tail)), prec) == InfixLoop(Parsed(st, Binop(l, op, r), tail), prec)
    decreases Size(r), 5
  {
    var left := Parsed(st, l, [op] + (Tokens(r) + tail));
    RightOperand(l, op, r, st, left, tail);
    OperatorClose(l, op, r, st, left, prec, tail);
  }

  /** After `l`, binary advances over `op` and parses `r` one level above `op`'s precedence. */
  lemma {:induction false} RightOperand(l: Expr, op: Token, r: Expr, st: PState, left: PState, tail: seq<Token>)
    requires Ok(st) && WellFormed(Binop(l, op, r)) && Reading(st, Tokens(l) + ([op] + (Tokens(r) + tail)))
    requires tail != [] && tail[0].kind != Error
    requires GetRule(tail[0].kind).precedence <= GetRule(op.kind).precedence
    requires |st.consts| + |ConstsOf(l)| + |ConstsOf(r)| <= 256
    requires left == Parsed(st, l, [op] + (Tokens(r) + tail))
    ensures Ok(left) && left.current == op && Ok(Advance(left)) && Reading(Advance(left), Tokens(r) + tail)
    ensures Advance(left) == left.(previous := op, current := Advance(left).current, rest := Advance(left).rest)
    ensures WellFormed(r) && ParsePrecedence(Advance(left), GetRule(op.kind).precedence + 1) == Parsed(Advance(left), r, tail)
    decreases Size(r), 4
  {
    OperatorRead(l, op, r, st, tail);
    ParseTree(r, Advance(left), GetRule(op.kind).precedence + 1, tail);
  }
}
