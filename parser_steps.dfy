/**
 * Single steps of the parser on the tokens of an expression tree: advancing over a token,
 * the state after a tree, and the code each routine appends.
 */
module ParserSteps {
  import opened Scanning
  import opened Chunks
  import opened ParseRules
  import opened CompilerSpec
  import opened Expressions

  // ----- One step of the parser -----

  /** advance over a token that is followed by a token other than an error token. */
  lemma {:induction false} AdvanceOver(st: PState)
    requires Ok(st) && st.current.kind != Eof && st.rest[0].kind != Error
    ensures Advance(st) == st.(previous := st.current, current := st.rest[0], rest := st.rest[1..])
  {
  }

  /** Reading `ts + tail` with `ts` non-empty: `current` is the head of `ts`. */
  lemma {:induction false} ReadingSplit(st: PState, ts: seq<Token>, tail: seq<Token>)
    requires Reading(st, ts + tail) && ts != []
    ensures st.current == ts[0] && st.rest == ts[1..] + tail
  {
    assert st.current == ([st.current] + st.rest)[0] == (ts + tail)[0] == ts[0];
    assert st.rest == ([st.current] + st.rest)[1..];
    assert (ts + tail)[1..] == ts[1..] + tail;
  }

  /** After reading a tree the parser is in a good state again. */
  lemma {:induction false} ParsedOk(st: PState, e: Expr, tail: seq<Token>)
    requires Ok(st) && WellFormed(e) && Reading(st, Tokens(e) + tail) && tail != []
    ensures Ok(Parsed(st, e, tail))
  {
    TokensPlain(e);
    LastToken(e);
    var ts := Tokens(e);
    ReadingSplit(st, ts, tail);
    assert TokenOk(Last(e)) by {
      if |ts| > 1 {
        assert Last(e) == st.rest[|ts| - 2];
      }
    }
    StreamTail(ts[1..], tail);
  }

  /** Reading `[t] + ts`: `current` is `t` and `rest` is `ts`. */
  lemma {:induction false} ReadingHead(st: PState, t: Token, ts: seq<Token>)
    requires Reading(st, [t] + ts)
    ensures st.current == t && st.rest == ts
  {
    assert ([t] + ts)[0] == t;
    assert ([t] + ts)[1..] == ts;
  }

  /** advance over the head of `[t] + ts` when the token after it is not an error token. */
  lemma {:induction false} AdvanceReading(st: PState, t: Token, ts: seq<Token>)
    requires Ok(st) && Reading(st, [t] + ts) && ts != [] && ts[0].kind != Error
    ensures Advance(st) == st.(previous := t, current := ts[0], rest := ts[1..])
    ensures ts[0].kind != Eof ==> Reading(Advance(st), ts)
  {
    ReadingHead(st, t, ts);
    AdvanceOver(st);
  }

  /** The code of a unary expression: its operand's, then the operator's instruction. */
  lemma {:induction false} UnopCode(st: PState, read: PState, op: Token, x: Expr, tail: seq<Token>)
    requires WellFormed(Unop(op, x)) && tail != []
    requires read == st.(previous := op, current := read.current, rest := read.rest)
    requires Ok(Parsed(read, x, tail))
    ensures EmitByte(Parsed(read, x, tail), Encode(UnaryOp(op.kind))) == Parsed(st, Unop(op, x), tail)
  {
    assert OutputOf(read) == OutputOf(st);
  }

  /** The code of a binary expression: its left operand's, its right operand's, then the operator's. */
  lemma {:induction false} BinopCode(st: PState, read: PState, l: Expr, op: Token, r: Expr, tail: seq<Token>)
    requires WellFormed(Binop(l, op, r)) && tail != []
    requires OutputOf(read) == Emitted(OutputOf(st), l)
    requires read.hadError == st.hadError && read.panicMode == st.panicMode && read.errors == st.errors
    requires Ok(Parsed(read, r, tail))
    ensures EmitByte(Parsed(read, r, tail), Encode(BinaryOp(op.kind))) == Parsed(st, Binop(l, op, r), tail)
  {
  }

  /** The prefix routine each token kind selects. */
  lemma {:induction false} PrefixCases(st: PState)
    requires Ok(st) && GetRule(st.previous.kind).prefix != NoPrefix
    ensures st.previous.kind == Number ==> Prefix(st) == NumberLiteral(st)
    ensures st.previous.kind == String ==> Prefix(st) == StringLiteral(st)
    ensures GetRule(st.previous.kind).prefix == LiteralFn ==> Prefix(st) == Literal(st)
    ensures st.previous.kind == Minus || st.previous.kind == Bang ==> Prefix(st) == Unary(st)
    ensures st.previous.kind == LeftParen ==> Prefix(st) == Grouping(st)
  {
    PrefixRules(st.previous.kind);
  }

  /** An atom: its constant, or its literal instruction. */
  lemma {:induction false} AtomParse(t: Token, st: PState, tail: seq<Token>)
    requires Ok(st) && WellFormed(Atom(t)) && Reading(st, [t] + tail)
    requires tail != [] && tail[0].kind != Error
    requires |st.consts| + |ConstsOf(Atom(t))| <= 256
    ensures GetRule(Advance(st).previous.kind).prefix != NoPrefix
    ensures Prefix(Advance(st)) == Parsed(st, Atom(t), tail)
  {
    AdvanceReading(st, t, tail);
    PrefixRules(t.kind);
    PrefixCases(Advance(st));
    if t.kind == Number || t.kind == String {
      ConstantAtom(t, Advance(st), st, tail);
    } else {
      LiteralAtom(t, Advance(st), st, tail);
    }
  }

  /** A number or a string: OP_CONSTANT with the index of its new constant. */
  lemma {:induction false} ConstantAtom(t: Token, read: PState, st: PState, tail: seq<Token>)
    requires Ok(read) && WellFormed(Atom(t)) && (t.kind == Number || t.kind == String) && tail != []
    requires read == st.(previous := t, current := tail[0], rest := tail[1..])
    requires |st.consts| < 256
    ensures t.kind == Number ==> NumberLiteral(read) == Parsed(st, Atom(t), tail)
    ensures t.kind == String ==> StringLiteral(read) == Parsed(st, Atom(t), tail)
  {
    var c := if t.kind == Number then CNumber(t.lexeme) else CString(StringContents(t.lexeme));
    assert ConstsOf(Atom(t)) == [c];
    var r := EmitConstant(read, c);
    assert r == Parsed(st, Atom(t), tail);
  }

  /** `true`, `false` or `nil`: its one instruction. */
  lemma {:induction false} LiteralAtom(t: Token, read: PState, st: PState, tail: seq<Token>)
    requires Ok(read) && WellFormed(Atom(t)) && GetRule(t.kind).prefix == LiteralFn && tail != []
    requires read == st.(previous := t, current := tail[0], rest := tail[1..])
    ensures Literal(read) == Parsed(st, Atom(t), tail)
  {
    PrefixRules(t.kind);
  }

  /** grouping, once the inner expression has been compiled up to the closing parenthesis. */
  lemma {:induction false} GroupingStep(read: PState, inner: PState)
    requires Ok(read) && ParsePrecedence(read, PREC_ASSIGNMENT) == inner && inner.current.kind == RightParen
    ensures Grouping(read) == Advance(inner)
  {
  }

  /** After the closing parenthesis: the inner expression's code, and no instruction of its own. */
  lemma {:induction false} ParenClose(o: Token, x: Expr, c: Token, st: PState, read: PState, tail: seq<Token>)
    requires WellFormed(Paren(o, x, c)) && tail != []
    requires read == st.(previous := o, current := read.current, rest := read.rest)
    ensures Parsed(read, x, [c] + tail).(previous := c, current := tail[0], rest := tail[1..])
            == Parsed(st, Paren(o, x, c), tail)
  {
  }

  /** The state after a tree is reading what follows it. */
  lemma {:induction false} ReadingParsed(st: PState, e: Expr, ts: seq<Token>)
    requires WellFormed(e) && ts != [] && ts[0].kind != Eof
    ensures Reading(Parsed(st, e, ts), ts)
  {
    assert [ts[0]] + ts[1..] == ts;
  }

  /** One round of the infix loop, when the current token binds tightly enough. */
  lemma {:induction false} InfixRound(st: PState, prec: Precedence)
    requires Ok(st) && PREC_ASSIGNMENT <= prec <= GetRule(st.current.kind).precedence
    ensures IsBinaryOperator(Advance(st).previous.kind)
    ensures InfixLoop(st, prec) == InfixLoop(Binary(Advance(st)), prec)
  {
  }

  /** binary: its right operand, then the operator's instruction. */
  lemma {:induction false} BinaryStep(read: PState, next: Precedence, right: PState)
    requires Ok(read) && IsBinaryOperator(read.previous.kind) && next == GetRule(read.previous.kind).precedence + 1
    requires right == ParsePrecedence(read, next)
    ensures Binary(read) == EmitByte(right, Encode(BinaryOp(read.previous.kind)))
  {
  }

  /** parsePrecedence: the prefix routine of the token it reads, then the infix loop. */
  lemma {:induction false} ParseStart(st: PState, prec: Precedence)
    requires Ok(st) && PREC_ASSIGNMENT <= prec && GetRule(Advance(st).previous.kind).prefix != NoPrefix
    ensures ParsePrecedence(st, prec) == InfixLoop(Prefix(Advance(st)), prec)
  {
  }

  /** The infix loop stops at once after a tree followed by a token that binds too loosely. */
  lemma {:induction false} LoopEnd(st: PState, e: Expr, prec: Precedence, tail: seq<Token>)
    requires WellFormed(e) && tail != [] && Ok(Parsed(st, e, tail)) && PREC_ASSIGNMENT <= prec
    requires GetRule(tail[0].kind).precedence < prec
    ensures InfixLoop(Parsed(st, e, tail), prec) == Parsed(st, e, tail)
  {
  }

  /** A unary operator: advancing over it selects unary, which reads the operand next. */
  lemma {:induction false} UnopRead(op: Token, x: Expr, st: PState, tail: seq<Token>)
    requires Ok(st) && WellFormed(Unop(op, x)) && Reading(st, [op] + (Tokens(x) + tail))
    requires tail != [] && tail[0].kind != Error
    ensures Advance(st) == st.(previous := op, current := Tokens(x)[0], rest := (Tokens(x) + tail)[1..])
    ensures Ok(Advance(st)) && Reading(Advance(st), Tokens(x) + tail)
    ensures GetRule(op.kind).prefix != NoPrefix && Prefix(Advance(st)) == Unary(Advance(st))
  {
    TokensPlain(x);
    assert (Tokens(x) + tail)[0] == Tokens(x)[0];
    AdvanceReading(st, op, Tokens(x) + tail);
    PrefixRules(op.kind);
    PrefixCases(Advance(st));
  }

  /** unary, once its operand has been compiled: the operand's code, then the operator's. */
  lemma {:induction false} UnopClose(op: Token, x: Expr, st: PState, tail: seq<Token>)
    requires Ok(st) && WellFormed(Unop(op, x)) && tail != []
    requires Advance(st) == st.(previous := op, current := Advance(st).current, rest := Advance(st).rest)
    requires Reading(Advance(st), Tokens(x) + tail)
    requires ParsePrecedence(Advance(st), PREC_UNARY) == Parsed(Advance(st), x, tail)
    ensures Unary(Advance(st)) == Parsed(st, Unop(op, x), tail)
  {
    var read := Advance(st);
    ParsedOk(read, x, tail);
    UnopCode(st, read, op, x, tail);
  }

  /** An opening parenthesis: advancing over it selects grouping, which reads the inner expression. */
  lemma {:induction false} ParenRead(o: Token, x: Expr, c: Token, st: PState, tail: seq<Token>)
    requires Ok(st) && WellFormed(Paren(o, x, c)) && Reading(st, [o] + (Tokens(x) + ([c] + tail)))
    requires tail != [] && tail[0].kind != Error
    ensures Advance(st) == st.(previous := o, current := Tokens(x)[0], rest := (Tokens(x) + ([c] + tail))[1..])
    ensures Ok(Advance(st)) && Reading(Advance(st), Tokens(x) + ([c] + tail))
    ensures GetRule(o.kind).prefix != NoPrefix && Prefix(Advance(st)) == Grouping(Advance(st))
  {
    TokensPlain(x);
    assert (Tokens(x) + ([c] + tail))[0] == Tokens(x)[0];
    AdvanceReading(st, o, Tokens(x) + ([c] + tail));
    PrefixRules(o.kind);
    PrefixCases(Advance(st));
  }

  /** grouping, once the inner expression has been compiled: consume the closing parenthesis. */
  lemma {:induction false} ParenFinish(o: Token, x: Expr, c: Token, st: PState, tail: seq<Token>)
    requires Ok(st) && WellFormed(Paren(o, x, c)) && tail != [] && tail[0].kind != Error
    requires Advance(st) == st.(previous := o, current := Advance(st).current, rest := Advance(st).rest)
    requires Ok(Advance(st)) && Reading(Advance(st), Tokens(x) + ([c] + tail))
    requires ParsePrecedence(Advance(st), PREC_ASSIGNMENT) == Parsed(Advance(st), x, [c] + tail)
    ensures Grouping(Advance(st)) == Parsed(st, Paren(o, x, c), tail)
  {
    var read := Advance(st);
    var inner := Parsed(read, x, [c] + tail);
    ParsedOk(read, x, [c] + tail);
    ReadingParsed(read, x, [c] + tail);
    AdvanceReading(inner, c, tail);
    GroupingStep(read, inner);
    ParenClose(o, x, c, st, read, tail);
  }

  /**
   * After the left operand `l` of `l op r`: the parser stands on `op`, and advancing over
   * it leaves it reading the right operand.
   */
  lemma {:induction false} OperatorRead(l: Expr, op: Token, r: Expr, st: PState, tail: seq<Token>)
    requires Ok(st) && WellFormed(Binop(l, op, r)) && Reading(st, Tokens(l) + ([op] + (Tokens(r) + tail)))
    requires tail != [] && tail[0].kind != Error
    ensures var left := Parsed(st, l, [op] + (Tokens(r) + tail));
            Ok(left) && left.current == op && Ok(Advance(left)) &&
            Reading(Advance(left), Tokens(r) + tail) &&
            Advance(left) == left.(previous := op, current := Tokens(r)[0], rest := (Tokens(r) + tail)[1..]) &&
            |Advance(left).consts| == |st.consts| + |ConstsOf(l)|
  {
    var tl := [op] + (Tokens(r) + tail);
    var left := Parsed(st, l, tl);
    ParsedOk(st, l, tl);
    ReadingParsed(st, l, tl);
    TokensPlain(r);
    assert (Tokens(r) + tail)[0] == Tokens(r)[0];
    AdvanceReading(left, op, Tokens(r) + tail);
  }

  /**
   * One round of the infix loop once the right operand `r` has been compiled: the loop goes
   * on from the state after the whole of `l op r`.
   */
  lemma {:induction false} OperatorClose(l: Expr, op: Token, r: Expr, st: PState, left: PState, prec: Precedence, tail: seq<Token>)
    requires Ok(st) && WellFormed(Binop(l, op, r)) && tail != []
    requires left == Parsed(st, l, [op] + (Tokens(r) + tail))
    requires Ok(left) && left.current == op && Ok(Advance(left)) && Reading(Advance(left), Tokens(r) + tail)
    requires Advance(left) == left.(previous := op, current := Advance(left).current, rest := Advance(left).rest)
    requires PREC_ASSIGNMENT <= prec <= GetRule(op.kind).precedence
    requires ParsePrecedence(Advance(left), GetRule(op.kind).precedence + 1) == Parsed(Advance(left), r, tail)
    ensures Ok(Parsed(st, Binop(l, op, r), tail))
    ensures InfixLoop(left, prec) == InfixLoop(Parsed(st, Binop(l, op, r), tail), prec)
  {
    var read := Advance(left);
    ParsedOk(read, r, tail);
    BinaryResult(l, op, r, st, read, tail);
    InfixRound(left, prec);
  }

  /** binary, once its right operand has been compiled: the code of the whole of `l op r`. */
  lemma {:induction false} BinaryResult(l: Expr, op: Token, r: Expr, st: PState, read: PState, tail: seq<Token>)
    requires WellFormed(Binop(l, op, r)) && tail != [] && Ok(read) && read.previous == op
    requires OutputOf(read) == Emitted(OutputOf(st), l)
    requires read.hadError == st.hadError && read.panicMode == st.panicMode && read.errors == st.errors
    requires ParsePrecedence(read, GetRule(op.kind).precedence + 1) == Parsed(read, r, tail)
    requires Ok(Parsed(read, r, tail))
    ensures Binary(read) == Parsed(st, Binop(l, op, r), tail)
  {
    BinaryStep(read, GetRule(op.kind).precedence + 1, Parsed(read, r, tail));
    BinopCode(st, read, l, op, r, tail);
  }

}
