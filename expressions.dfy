/**
 * Expression trees written with the compiler's tokens, and the code each tree stands for:
 * the post-order sequence of its instructions, operands before their operator.
 */
module Expressions {
  import opened Scanning
  import opened Chunks
  import opened ParseRules
  import opened CompilerSpec

  /** An expression, holding the very tokens it is written with. */
  datatype Expr =
    | Atom(t: Token)
    | Unop(op: Token, operand: Expr)
    | Paren(open: Token, inner: Expr, close: Token)
    | Binop(left: Expr, op: Token, right: Expr)

  function Size(e: Expr): nat
  {
    match e
    case Atom(_) => 1
    case Unop(_, x) => Size(x) + 1
    case Paren(_, x, _) => Size(x) + 1
    case Binop(l, _, r) => Size(l) + Size(r) + 1
  }

  /** The tokens that are an expression on their own. */
  predicate IsAtomKind(k: TokenKind)
  {
    k == Number || k == String || k == True || k == False || k == Nil
  }

  /** How tightly an expression binds: its operator's precedence, or above every operator. */
  function Level(e: Expr): Precedence
  {
    match e
    case Binop(_, op, _) => GetRule(op.kind).precedence
    case Unop(_, _) => PREC_UNARY
    case _ => PREC_PRIMARY
  }

  /**
   * A tree its tokens denote: a left operand binds at least as tightly as its operator, a
   * right operand strictly more tightly, and a unary operand at least at unary level.
   */
  predicate WellFormed(e: Expr)
  {
    match e
    case Atom(t) => IsAtomKind(t.kind) && TokenOk(t)
    case Unop(op, x) => (op.kind == Minus || op.kind == Bang) && Level(x) >= PREC_UNARY && WellFormed(x)
    case Paren(o, x, c) => o.kind == LeftParen && c.kind == RightParen && WellFormed(x)
    case Binop(l, op, r) =>
      && IsBinaryOperator(op.kind)
      && Level(l) >= GetRule(op.kind).precedence && Level(r) > GetRule(op.kind).precedence
      && WellFormed(l) && WellFormed(r)
  }

  /** The tokens an expression is written with, in source order. */
  function Tokens(e: Expr): (ts: seq<Token>)
    ensures |ts| >= 1
  {
    match e
    case Atom(t) => [t]
    case Unop(op, x) => [op] + Tokens(x)
    case Paren(o, x, c) => [o] + Tokens(x) + [c]
    case Binop(l, op, r) => Tokens(l) + [op] + Tokens(r)
  }

  /** The last token of an expression. */
  function Last(e: Expr): Token
  {
    match e
    case Atom(t) => t
    case Unop(_, x) => Last(x)
    case Paren(_, _, c) => c
    case Binop(_, _, r) => Last(r)
  }

  /** The constants an expression adds to the pool, left to right. */
  function ConstsOf(e: Expr): seq<Const>
    requires WellFormed(e)
  {
    match e
    case Atom(t) =>
      if t.kind == Number then [CNumber(t.lexeme)]
      else if t.kind == String then [CString(StringContents(t.lexeme))]
      else []
    case Unop(_, x) => ConstsOf(x)
    case Paren(_, x, _) => ConstsOf(x)
    case Binop(l, _, r) => ConstsOf(l) + ConstsOf(r)
  }

  /** The post-order code of an expression whose first constant gets pool index `k`. */
  function CodeOf(e: Expr, k: nat): (code: seq<byte>)
    requires WellFormed(e)
    ensures |code| == |LinesOf(e)|
  {
    match e
    case Atom(t) =>
      if t.kind == Number || t.kind == String then [Encode(OpConstant), ConstantOperand(k)]
      else [Encode(LiteralOp(t.kind))]
    case Unop(op, x) => CodeOf(x, k) + [Encode(UnaryOp(op.kind))]
    case Paren(_, x, _) => CodeOf(x, k)
    case Binop(l, op, r) => CodeOf(l, k) + CodeOf(r, k + |ConstsOf(l)|) + [Encode(BinaryOp(op.kind))]
  }

  /** The line of every byte of `CodeOf(e, k)`: that of the token read just before it was emitted. */
  function LinesOf(e: Expr): seq<int>
    requires WellFormed(e)
  {
    match e
    case Atom(t) => if t.kind == Number || t.kind == String then [t.line, t.line] else [t.line]
    case Unop(_, x) => LinesOf(x) + [Last(x).line]
    case Paren(_, x, _) => LinesOf(x)
    case Binop(l, _, r) => LinesOf(l) + LinesOf(r) + [Last(r).line]
  }

  /** The leftmost operand that is not itself a binary expression. */
  function Primary(e: Expr): (p: Expr)
    ensures !p.Binop? && Size(p) <= Size(e)
    ensures WellFormed(e) ==> WellFormed(p) && Level(e) <= Level(p)
  {
    if e.Binop? then Primary(e.left) else e
  }

  /** The tokens of an expression after those of its leftmost primary. */
  function AfterPrimary(e: Expr): seq<Token>
  {
    if e.Binop? then AfterPrimary(e.left) + [e.op] + Tokens(e.right) else []
  }

  /** The parser is about to read `ts`: `current` is its first token, `rest` the others. */
  predicate Reading(st: PState, ts: seq<Token>)
  {
    st.current.kind != Eof && [st.current] + st.rest == ts
  }

  /** What the compiler appends to: the chunk's code, the line of each byte, the constants. */
  datatype Output = Output(code: seq<byte>, lines: seq<int>, consts: seq<Const>)

  /**
   * `o` after the parser has compiled `e`, step by step in the order it emits: an operand's
   * code, then its operator's instruction with the line of the last token read.
   */
  function Emitted(o: Output, e: Expr): (r: Output)
    requires WellFormed(e)
    ensures |r.consts| == |o.consts| + |ConstsOf(e)|
    ensures |r.code| - |r.lines| == |o.code| - |o.lines|
    decreases e
  {
    match e
    case Atom(t) =>
      if t.kind == Number then
        Output(o.code + [Encode(OpConstant), ConstantOperand(|o.consts|)], o.lines + [t.line, t.line], o.consts + [CNumber(t.lexeme)])
      else if t.kind == String then
        Output(o.code + [Encode(OpConstant), ConstantOperand(|o.consts|)], o.lines + [t.line, t.line],
               o.consts + [CString(StringContents(t.lexeme))])
      else Output(o.code + [Encode(LiteralOp(t.kind))], o.lines + [t.line], o.consts)
    case Unop(op, x) =>
      var m := Emitted(o, x);
      Output(m.code + [Encode(UnaryOp(op.kind))], m.lines + [Last(x).line], m.consts)
    case Paren(_, x, _) => Emitted(o, x)
    case Binop(l, op, r) =>
      var m := Emitted(Emitted(o, l), r);
      Output(m.code + [Encode(BinaryOp(op.kind))], m.lines + [Last(r).line], m.consts)
  }

  /** The output a parser state has produced so far. */
  function OutputOf(st: PState): Output
  {
    Output(st.code, st.lines, st.consts)
  }

  /** The state after the parser has read `e` and is looking at `tail`. */
  function Parsed(st: PState, e: Expr, tail: seq<Token>): PState
    requires WellFormed(e) && tail != []
  {
    var o := Emitted(OutputOf(st), e);
    st.(previous := Last(e), current := tail[0], rest := tail[1..], code := o.code, lines := o.lines, consts := o.consts)
  }

  /** Compiling step by step appends exactly the post-order code of the tree. */
  lemma {:induction false} EmittedIsPostOrder(o: Output, e: Expr)
    requires WellFormed(e)
    ensures Emitted(o, e) == Output(o.code + CodeOf(e, |o.consts|), o.lines + LinesOf(e), o.consts + ConstsOf(e))
    decreases e
  {
    match e
    case Atom(t) =>
    case Unop(op, x) =>
      EmittedIsPostOrder(o, x);
      UnopPostOrder(o, op, x);
    case Paren(_, x, _) =>
      EmittedIsPostOrder(o, x);
    case Binop(l, op, r) =>
      EmittedIsPostOrder(o, l);
      EmittedIsPostOrder(Emitted(o, l), r);
      BinopPostOrder(o, l, op, r);
  }

  lemma {:induction false} UnopPostOrder(o: Output, op: Token, x: Expr)
    requires WellFormed(Unop(op, x))
    requires Emitted(o, x) == Output(o.code + CodeOf(x, |o.consts|), o.lines + LinesOf(x), o.consts + ConstsOf(x))
    ensures Emitted(o, Unop(op, x)) == Output(o.code + CodeOf(Unop(op, x), |o.consts|), o.lines + LinesOf(Unop(op, x)), o.consts + ConstsOf(Unop(op, x)))
  {
    var m := Emitted(o, x);
    var u := Encode(UnaryOp(op.kind));
    assert Emitted(o, Unop(op, x)) == Output(m.code + [u], m.lines + [Last(x).line], m.consts);
    Regroup(o.code, CodeOf(x, |o.consts|), [u]);
    Regroup(o.lines, LinesOf(x), [Last(x).line]);
  }

  lemma {:induction false} BinopPostOrder(o: Output, l: Expr, op: Token, r: Expr)
    requires WellFormed(Binop(l, op, r))
    requires Emitted(o, l) == Output(o.code + CodeOf(l, |o.consts|), o.lines + LinesOf(l), o.consts + ConstsOf(l))
    requires var m := Emitted(o, l);
      Emitted(m, r) == Output(m.code + CodeOf(r, |m.consts|), m.lines + LinesOf(r), m.consts + ConstsOf(r))
    ensures Emitted(o, Binop(l, op, r))
      == Output(o.code + CodeOf(Binop(l, op, r), |o.consts|), o.lines + LinesOf(Binop(l, op, r)), o.consts + ConstsOf(Binop(l, op, r)))
  {
    var m := Emitted(o, l);
    var b := Encode(BinaryOp(op.kind));
    assert |m.consts| == |o.consts| + |ConstsOf(l)|;
    Regroup4(o.code, CodeOf(l, |o.consts|), CodeOf(r, |m.consts|), [b]);
    Regroup4(o.lines, LinesOf(l), LinesOf(r), [Last(r).line]);
    Regroup(o.consts, ConstsOf(l), ConstsOf(r));
  }

  lemma {:induction false} Regroup<T>(a: seq<T>, b: seq<T>, c: seq<T>)
    ensures a + b + c == a + (b + c)
  {
  }

  lemma {:induction false} Regroup4<T>(a: seq<T>, b: seq<T>, c: seq<T>, d: seq<T>)
    ensures a + b + c + d == a + (b + c + d)
    ensures a + b + c + d == a + (b + (c + d))
  {
  }

  // ----- Facts about the trees -----

  /** A tree's tokens are those of its leftmost primary followed by the rest. */
  lemma {:induction false} PrimarySplit(e: Expr)
    ensures Tokens(e) == Tokens(Primary(e)) + AfterPrimary(e)
    ensures WellFormed(e) ==> |ConstsOf(Primary(e))| <= |ConstsOf(e)|
  {
    if e.Binop? {
      PrimarySplit(e.left);
    }
  }

  /** A token a tree may hold: neither an error token nor the end, and well-formed. */
  predicate Plain(t: Token)
  {
    t.kind != Error && t.kind != Eof && TokenOk(t)
  }

  predicate AllPlain(ts: seq<Token>)
  {
    forall i :: 0 <= i < |ts| ==> Plain(ts[i])
  }

  /** The tokens of a well-formed tree are all plain. */
  lemma {:induction false} TokensPlain(e: Expr)
    requires WellFormed(e)
    ensures AllPlain(Tokens(e))
  {
    match e
    case Atom(t) =>
    case Unop(op, x) =>
      TokensPlain(x);
    case Paren(o, x, c) =>
      TokensPlain(x);
    case Binop(l, op, r) =>
      TokensPlain(l);
      TokensPlain(r);
  }

  /** `Last` is the last of the tokens. */
  lemma {:induction false} LastToken(e: Expr)
    ensures Last(e) == Tokens(e)[|Tokens(e)| - 1]
  {
    match e
    case Atom(t) =>
    case Unop(op, x) =>
      LastToken(x);
    case Paren(o, x, c) =>
    case Binop(l, op, r) =>
      LastToken(r);
  }

  /** What follows a prefix of a readable stream is readable again. */
  lemma {:induction false} StreamTail(pre: seq<Token>, tail: seq<Token>)
    requires StreamOk(pre + tail) && tail != []
    ensures TokenOk(tail[0])
    ensures if tail[0].kind == Eof then tail[1..] == [] else StreamOk(tail[1..])
    decreases |pre|
  {
    if pre == [] {
      assert pre + tail == tail;
    } else {
      assert (pre + tail)[1..] == pre[1..] + tail;
      StreamTail(pre[1..], tail);
    }
  }
}
