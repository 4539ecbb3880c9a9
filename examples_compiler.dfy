/**
 * The compiler's unit tests, stated for every token stream of the shape each test's source scans to:
 * every test compiles one statement into a fresh chunk and reads back the result, the code,
 * the lines and the constant pool.
 */
module CompilerTests {
  import opened Scanning
  import opened Chunks
  import opened ParseRules
  import opened CompilerSpec
  import opened Expressions
  import opened ParserSteps
  import opened Programs

  /** What a test reads back from a fresh chunk after compile. */
  datatype Outcome = Outcome(ok: bool, code: seq<byte>, lines: seq<int>, consts: seq<Const>)

  function CompileFresh(tokens: seq<Token>): Outcome
    requires StreamOk(tokens)
  {
    var r := Compile(tokens, [], [], []);
    Outcome(!r.hadError, r.code, r.lines, r.consts)
  }

  /** compile of a program of one statement, into an empty chunk. */
  lemma {:induction false} SingleStatement(s: Stmt, eof: Token)
    requires StmtWellFormed(s) && eof.kind == Eof && |ConstsOf(s.value)| <= 256
    ensures StreamOk(StmtTokens(s) + [eof])
    ensures CompileFresh(StmtTokens(s) + [eof])
            == Outcome(true, CodeOf(s.value, 0) + [Encode(StmtOp(s)), Encode(OpReturn)],
                       LinesOf(s.value) + [s.semicolon.line, eof.line], ConstsOf(s.value))
  {
    var o := Output([], [], []);
    OneStatement(s, o);
    StmtIsPostOrder(o, s);
    CompileProgram([s], eof, [], [], []);
    AppendTwo(CodeOf(s.value, 0), Encode(StmtOp(s)), Encode(OpReturn));
    AppendTwo(LinesOf(s.value), s.semicolon.line, eof.line);
  }

  /** SingleStatement, with the tokens, code and lines written out by the caller. */
  lemma {:induction false} SingleStatementIs(s: Stmt, eof: Token, ts: seq<Token>, code: seq<byte>, lines: seq<int>)
    requires StmtWellFormed(s) && eof.kind == Eof && |ConstsOf(s.value)| <= 256
    requires ts == StmtTokens(s) + [eof]
    requires code == CodeOf(s.value, 0) + [Encode(StmtOp(s)), Encode(OpReturn)]
    requires lines == LinesOf(s.value) + [s.semicolon.line, eof.line]
    ensures StreamOk(ts) && CompileFresh(ts) == Outcome(true, code, lines, ConstsOf(s.value))
  {
    SingleStatement(s, eof);
  }

  lemma {:induction false} AppendTwo<T>(a: seq<T>, x: T, y: T)
    ensures [] + a + [x] + [y] == a + [x, y]
  {
  }

  /** The tokens, code, lines and constants of `a op b` for two numbers `a` and `b`. */
  lemma {:induction false} NumberPair(a: Token, op: Token, b: Token)
    requires WellFormed(Binop(Atom(a), op, Atom(b))) && a.kind == Number && b.kind == Number
    ensures Tokens(Binop(Atom(a), op, Atom(b))) == [a, op, b]
    ensures CodeOf(Binop(Atom(a), op, Atom(b)), 0)
            == [Encode(OpConstant), 0, Encode(OpConstant), 1, Encode(BinaryOp(op.kind))]
    ensures LinesOf(Binop(Atom(a), op, Atom(b))) == [a.line, a.line, b.line, b.line, b.line]
    ensures ConstsOf(Binop(Atom(a), op, Atom(b))) == [CNumber(a.lexeme), CNumber(b.lexeme)]
  {
  }

  /** `a op b;` for two numbers and a binary operator, all on line 1 as in the tests. */
  lemma {:induction false} BinaryStatement(a: Token, op: Token, b: Token, semi: Token, eof: Token)
    requires a.kind == Number && b.kind == Number && IsBinaryOperator(op.kind)
    requires semi.kind == Semicolon && eof.kind == Eof
    requires a.line == op.line == b.line == semi.line == eof.line == 1
    ensures StreamOk([a, op, b, semi, eof])
    ensures CompileFresh([a, op, b, semi, eof])
            == Outcome(true, [Encode(OpConstant), 0, Encode(OpConstant), 1, Encode(BinaryOp(op.kind)), Encode(OpPop), Encode(OpReturn)],
                       [1, 1, 1, 1, 1, 1, 1], [CNumber(a.lexeme), CNumber(b.lexeme)])
  {
    var s := ExprStmt(Binop(Atom(a), op, Atom(b)), semi);
    NumberPair(a, op, b);
    SingleStatementIs(s, eof, [a, op, b, semi, eof], [Encode(OpConstant), 0, Encode(OpConstant), 1, Encode(BinaryOp(op.kind)), Encode(OpPop), Encode(OpReturn)], [1, 1, 1, 1, 1, 1, 1]);
  }

  /** compileTrue, compileFalse, compileNil: a literal keyword is one instruction. */
  lemma {:induction false} LiteralStatement(t: Token, semi: Token, eof: Token)
    requires (t.kind == True || t.kind == False || t.kind == Nil) && semi.kind == Semicolon && eof.kind == Eof
    ensures StreamOk([t, semi, eof])
    ensures CompileFresh([t, semi, eof])
            == Outcome(true, [Encode(LiteralOp(t.kind)), Encode(OpPop), Encode(OpReturn)], [t.line, semi.line, eof.line], [])
  {
    var s := ExprStmt(Atom(t), semi);
    SingleStatementIs(s, eof, [t, semi, eof], [Encode(LiteralOp(t.kind)), Encode(OpPop), Encode(OpReturn)], [t.line, semi.line, eof.line]);
  }

  /** compileBang: `!` after its operand. */
  lemma {:induction false} BangStatement(bang: Token, t: Token, semi: Token, eof: Token)
    requires bang.kind == Bang && t.kind == True && semi.kind == Semicolon && eof.kind == Eof
    ensures StreamOk([bang, t, semi, eof])
    ensures CompileFresh([bang, t, semi, eof])
            == Outcome(true, [Encode(OpTrue), Encode(OpNot), Encode(OpPop), Encode(OpReturn)],
                       [t.line, t.line, semi.line, eof.line], [])
  {
    var s := ExprStmt(Unop(bang, Atom(t)), semi);
    assert Tokens(s.value) == [bang, t];
    assert StmtTokens(s) == [bang, t] + [semi] == [bang, t, semi];
    assert CodeOf(s.value, 0) == [Encode(OpTrue), Encode(OpNot)];
    assert LinesOf(s.value) == [t.line, t.line];
    SingleStatementIs(s, eof, [bang, t, semi, eof], [Encode(OpTrue), Encode(OpNot), Encode(OpPop), Encode(OpReturn)], [t.line, t.line, semi.line, eof.line]);
  }

  /** compileNumber: a number is a constant instruction whose operand is its pool index 0. */
  lemma {:induction false} NumberStatement(n: Token, semi: Token, eof: Token)
    requires n.kind == Number && semi.kind == Semicolon && eof.kind == Eof
    ensures StreamOk([n, semi, eof])
    ensures CompileFresh([n, semi, eof])
            == Outcome(true, [Encode(OpConstant), 0, Encode(OpPop), Encode(OpReturn)],
                       [n.line, n.line, semi.line, eof.line], [CNumber(n.lexeme)])
  {
    var s := ExprStmt(Atom(n), semi);
    SingleStatementIs(s, eof, [n, semi, eof], [Encode(OpConstant), 0, Encode(OpPop), Encode(OpReturn)], [n.line, n.line, semi.line, eof.line]);
  }

  /** compileNegation: OP_NEGATE after the constant. */
  lemma {:induction false} NegationStatement(minus: Token, n: Token, semi: Token, eof: Token)
    requires minus.kind == Minus && n.kind == Number && semi.kind == Semicolon && eof.kind == Eof
    ensures StreamOk([minus, n, semi, eof])
    ensures CompileFresh([minus, n, semi, eof])
            == Outcome(true, [Encode(OpConstant), 0, Encode(OpNegate), Encode(OpPop), Encode(OpReturn)],
                       [n.line, n.line, n.line, semi.line, eof.line], [CNumber(n.lexeme)])
  {
    var s := ExprStmt(Unop(minus, Atom(n)), semi);
    assert Tokens(s.value) == [minus, n];
    assert StmtTokens(s) == [minus, n] + [semi] == [minus, n, semi];
    assert CodeOf(s.value, 0) == [Encode(OpConstant), 0, Encode(OpNegate)];
    assert LinesOf(s.value) == [n.line, n.line, n.line];
    SingleStatementIs(s, eof, [minus, n, semi, eof], [Encode(OpConstant), 0, Encode(OpNegate), Encode(OpPop), Encode(OpReturn)], [n.line, n.line, n.line, semi.line, eof.line]);
  }

  /** compileGrouped: parentheses emit nothing of their own. */
  lemma {:induction false} GroupedStatement(lparen: Token, n: Token, rparen: Token, semi: Token, eof: Token)
    requires lparen.kind == LeftParen && n.kind == Number && rparen.kind == RightParen
    requires semi.kind == Semicolon && eof.kind == Eof
    ensures StreamOk([lparen, n, rparen, semi, eof])
    ensures CompileFresh([lparen, n, rparen, semi, eof])
            == Outcome(true, [Encode(OpConstant), 0, Encode(OpPop), Encode(OpReturn)],
                       [n.line, n.line, semi.line, eof.line], [CNumber(n.lexeme)])
  {
    var s := ExprStmt(Paren(lparen, Atom(n), rparen), semi);
    assert Tokens(s.value) == [lparen, n, rparen];
    assert StmtTokens(s) == [lparen, n, rparen] + [semi] == [lparen, n, rparen, semi];
    SingleStatementIs(s, eof, [lparen, n, rparen, semi, eof], [Encode(OpConstant), 0, Encode(OpPop), Encode(OpReturn)], [n.line, n.line, semi.line, eof.line]);
  }

  /** compileString: the constant is the text between the quotes. */
  lemma {:induction false} StringStatement(str: Token, semi: Token, eof: Token)
    requires str.kind == String && |str.lexeme| >= 2 && semi.kind == Semicolon && eof.kind == Eof
    ensures StreamOk([str, semi, eof])
    ensures CompileFresh([str, semi, eof])
            == Outcome(true, [Encode(OpConstant), 0, Encode(OpPop), Encode(OpReturn)],
                       [str.line, str.line, semi.line, eof.line], [CString(str.lexeme[1..|str.lexeme| - 1])])
  {
    var s := ExprStmt(Atom(str), semi);
    SingleStatementIs(s, eof, [str, semi, eof], [Encode(OpConstant), 0, Encode(OpPop), Encode(OpReturn)], [str.line, str.line, semi.line, eof.line]);
  }

  /** compilePrint: OP_PRINT in place of OP_POP, with the `print` keyword consumed first. */
  lemma {:induction false} PrintStringStatement(keyword: Token, str: Token, semi: Token, eof: Token)
    requires keyword.kind == Print && str.kind == String && |str.lexeme| >= 2
    requires semi.kind == Semicolon && eof.kind == Eof
    ensures StreamOk([keyword, str, semi, eof])
    ensures CompileFresh([keyword, str, semi, eof])
            == Outcome(true, [Encode(OpConstant), 0, Encode(OpPrint), Encode(OpReturn)],
                       [str.line, str.line, semi.line, eof.line], [CString(str.lexeme[1..|str.lexeme| - 1])])
  {
    var s := PrintStmt(keyword, Atom(str), semi);
    SingleStatementIs(s, eof, [keyword, str, semi, eof], [Encode(OpConstant), 0, Encode(OpPrint), Encode(OpReturn)], [str.line, str.line, semi.line, eof.line]);
  }

  // ----- Precedence and associativity -----

  /** The tokens and output of `(a op1 b) op2 c`, grouped to the left. */
  lemma {:induction false} LeftGrouped(a: Token, op1: Token, b: Token, op2: Token, c: Token)
    requires WellFormed(Binop(Binop(Atom(a), op1, Atom(b)), op2, Atom(c)))
    requires a.kind == Number && b.kind == Number && c.kind == Number
    ensures Tokens(Binop(Binop(Atom(a), op1, Atom(b)), op2, Atom(c))) == [a, op1, b, op2, c]
    ensures CodeOf(Binop(Binop(Atom(a), op1, Atom(b)), op2, Atom(c)), 0)
            == [Encode(OpConstant), 0, Encode(OpConstant), 1, Encode(BinaryOp(op1.kind)),
                Encode(OpConstant), 2, Encode(BinaryOp(op2.kind))]
    ensures ConstsOf(Binop(Binop(Atom(a), op1, Atom(b)), op2, Atom(c)))
            == [CNumber(a.lexeme), CNumber(b.lexeme), CNumber(c.lexeme)]
  {
    NumberPair(a, op1, b);
    assert CodeOf(Atom(c), 2) == [Encode(OpConstant), 2];
  }

  /** The tokens and output of `a op1 (b op2 c)`, grouped to the right. */
  lemma {:induction false} RightGrouped(a: Token, op1: Token, b: Token, op2: Token, c: Token)
    requires WellFormed(Binop(Atom(a), op1, Binop(Atom(b), op2, Atom(c))))
    requires a.kind == Number && b.kind == Number && c.kind == Number
    ensures Tokens(Binop(Atom(a), op1, Binop(Atom(b), op2, Atom(c)))) == [a, op1, b, op2, c]
    ensures CodeOf(Binop(Atom(a), op1, Binop(Atom(b), op2, Atom(c))), 0)
            == [Encode(OpConstant), 0, Encode(OpConstant), 1, Encode(OpConstant), 2,
                Encode(BinaryOp(op2.kind)), Encode(BinaryOp(op1.kind))]
    ensures ConstsOf(Binop(Atom(a), op1, Binop(Atom(b), op2, Atom(c))))
            == [CNumber(a.lexeme), CNumber(b.lexeme), CNumber(c.lexeme)]
  {
    var r := Binop(Atom(b), op2, Atom(c));
    assert Tokens(r) == [b, op2, c];
    assert CodeOf(Atom(b), 1) == [Encode(OpConstant), 1];
    assert CodeOf(Atom(c), 2) == [Encode(OpConstant), 2];
    assert CodeOf(r, 1) == [Encode(OpConstant), 1] + [Encode(OpConstant), 2] + [Encode(BinaryOp(op2.kind))];
    assert CodeOf(Atom(a), 0) == [Encode(OpConstant), 0];
    assert ConstsOf(r) == [CNumber(b.lexeme), CNumber(c.lexeme)];
  }

  /**
   * `a op1 b op2 c;` for three numbers. When `op1` binds at least as tightly as `op2` (so in
   * particular when they are the same operator, as in `1 - 2 - 3`) the left pair is computed
   * first: equal precedence associates to the left. When `op2` binds more tightly, as in
   * `1 + 2 * 3`, the right pair is computed first.
   */
  lemma {:induction false} OperatorChain(a: Token, op1: Token, b: Token, op2: Token, c: Token, semi: Token, eof: Token)
    requires a.kind == Number && b.kind == Number && c.kind == Number
    requires IsBinaryOperator(op1.kind) && IsBinaryOperator(op2.kind)
    requires semi.kind == Semicolon && eof.kind == Eof
    ensures StreamOk([a, op1, b, op2, c, semi, eof])
    ensures CompileFresh([a, op1, b, op2, c, semi, eof]).ok
    ensures CompileFresh([a, op1, b, op2, c, semi, eof]).consts == [CNumber(a.lexeme), CNumber(b.lexeme), CNumber(c.lexeme)]
    ensures GetRule(op2.kind).precedence <= GetRule(op1.kind).precedence ==>
              CompileFresh([a, op1, b, op2, c, semi, eof]).code
              == [Encode(OpConstant), 0, Encode(OpConstant), 1, Encode(BinaryOp(op1.kind)),
                  Encode(OpConstant), 2, Encode(BinaryOp(op2.kind)), Encode(OpPop), Encode(OpReturn)]
    ensures GetRule(op1.kind).precedence < GetRule(op2.kind).precedence ==>
              CompileFresh([a, op1, b, op2, c, semi, eof]).code
              == [Encode(OpConstant), 0, Encode(OpConstant), 1, Encode(OpConstant), 2,
                  Encode(BinaryOp(op2.kind)), Encode(BinaryOp(op1.kind)), Encode(OpPop), Encode(OpReturn)]
  {
    var ts := [a, op1, b, op2, c, semi, eof];
    if GetRule(op2.kind).precedence <= GetRule(op1.kind).precedence {
      var e := Binop(Binop(Atom(a), op1, Atom(b)), op2, Atom(c));
      LeftGrouped(a, op1, b, op2, c);
      var s := ExprStmt(e, semi);
      assert StmtTokens(s) == [a, op1, b, op2, c] + [semi];
      var code := [Encode(OpConstant), 0, Encode(OpConstant), 1, Encode(BinaryOp(op1.kind)),
                   Encode(OpConstant), 2, Encode(BinaryOp(op2.kind))];
      assert code + [Encode(OpPop), Encode(OpReturn)]
          == [Encode(OpConstant), 0, Encode(OpConstant), 1, Encode(BinaryOp(op1.kind)),
              Encode(OpConstant), 2, Encode(BinaryOp(op2.kind)), Encode(OpPop), Encode(OpReturn)];
      SingleStatementIs(s, eof, ts, code + [Encode(OpPop), Encode(OpReturn)], LinesOf(e) + [semi.line, eof.line]);
    } else {
      var e := Binop(Atom(a), op1, Binop(Atom(b), op2, Atom(c)));
      RightGrouped(a, op1, b, op2, c);
      var s := ExprStmt(e, semi);
      assert StmtTokens(s) == [a, op1, b, op2, c] + [semi];
      var code := [Encode(OpConstant), 0, Encode(OpConstant), 1, Encode(OpConstant), 2,
                   Encode(BinaryOp(op2.kind)), Encode(BinaryOp(op1.kind))];
      assert code + [Encode(OpPop), Encode(OpReturn)]
          == [Encode(OpConstant), 0, Encode(OpConstant), 1, Encode(OpConstant), 2,
              Encode(BinaryOp(op2.kind)), Encode(BinaryOp(op1.kind)), Encode(OpPop), Encode(OpReturn)];
      SingleStatementIs(s, eof, ts, code + [Encode(OpPop), Encode(OpReturn)], LinesOf(e) + [semi.line, eof.line]);
    }
  }

  // ----- An error -----

  /**
   * A statement that starts with a token no expression can start with, such as a lone `;`:
   * compile reports "Expect expression." once, at that token, and fails. The statement still
   * emits its OP_POP, and the `;` it then expects is not reported, since the parser is
   * already in panic mode.
   */
  lemma {:induction false} MissingExpression(t: Token, eof: Token)
    requires GetRule(t.kind).prefix == NoPrefix && t.kind != Print && t.kind != Eof && t.kind != Error
    requires TokenOk(t) && eof.kind == Eof
    ensures StreamOk([t, eof])
    ensures var r := Compile([t, eof], [], [], []);
            && r.hadError && r.errors == [Diagnostic(t.line, AtLexeme(t.lexeme), "Expect expression.")]
            && r.code == [Encode(OpPop), Encode(OpReturn)] && r.lines == [t.line, eof.line] && r.consts == []
  {
    var start := Start([t, eof], [], [], []);
    AdvanceOver(start);
    var p := Advance(start);
    assert p == start.(previous := UNSET, current := t, rest := [eof]);
    AdvanceOver(p);
    var read := Advance(p);
    assert read == p.(previous := t, current := eof, rest := []);
    var failed := ErrorAtPrevious(read, "Expect expression.");
    assert Expression(p) == failed;
    var ended := Consume(failed, Semicolon, "Expect ';' after value.");
    assert ended == failed;
    StatementIsExpression(p);
    var done := EmitByte(ended, Encode(OpPop));
    assert Statement(p) == done;
    var synced := Synchronize(done);
    assert synced == done.(panicMode := false);
    assert Declaration(p) == synced;
    DeclarationsEnd(synced);
    assert Declarations(p) == synced.(previous := eof);
  }
}
