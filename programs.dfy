/**
 * Programs of print statements and expression statements, and what compile makes of the
 * tokens of such a program when it holds no error: each statement's post-order code, then
 * its own instruction, and OP_RETURN at the end.
 */
module Programs {
  import opened Scanning
  import opened Chunks
  import opened ParseRules
  import opened CompilerSpec
  import opened Expressions
  import opened ParserSteps
  import opened PrattParsing

  /** A statement, holding the tokens it is written with. */
  datatype Stmt =
    | PrintStmt(keyword: Token, value: Expr, semicolon: Token)
    | ExprStmt(value: Expr, semicolon: Token)

  predicate StmtWellFormed(s: Stmt)
  {
    && WellFormed(s.value) && s.semicolon.kind == Semicolon
    && (s.PrintStmt? ==> s.keyword.kind == Print)
  }

  function StmtTokens(s: Stmt): seq<Token>
  {
    match s
    case PrintStmt(k, e, semi) => [k] + (Tokens(e) + [semi])
    case ExprStmt(e, semi) => Tokens(e) + [semi]
  }

  /** The instruction that ends a statement: OP_PRINT prints the value, OP_POP discards it. */
  function StmtOp(s: Stmt): OpCode
  {
    if s.PrintStmt? then OpPrint else OpPop
  }

  /** The output of a statement: its expression's, then its instruction with the line of the `;`. */
  function StmtEmitted(o: Output, s: Stmt): (r: Output)
    requires StmtWellFormed(s)
    ensures |r.consts| == |o.consts| + |ConstsOf(s.value)|
  {
    var m := Emitted(o, s.value);
    Output(m.code + [Encode(StmtOp(s))], m.lines + [s.semicolon.line], m.consts)
  }

  /** Every statement of the program is well formed. */
  predicate ProgramWellFormed(ss: seq<Stmt>)
  {
    ss != [] ==> StmtWellFormed(ss[0]) && ProgramWellFormed(ss[1..])
  }

  function ProgramTokens(ss: seq<Stmt>): seq<Token>
  {
    if ss == [] then [] else StmtTokens(ss[0]) + ProgramTokens(ss[1..])
  }

  /** The number of constants a program adds to the pool. */
  function ProgramConsts(ss: seq<Stmt>): nat
    requires ProgramWellFormed(ss)
  {
    if ss == [] then 0 else |ConstsOf(ss[0].value)| + ProgramConsts(ss[1..])
  }

  /** The output of the statements, one after the other. */
  function ProgramEmitted(o: Output, ss: seq<Stmt>): (r: Output)
    requires ProgramWellFormed(ss)
    ensures |r.consts| == |o.consts| + ProgramConsts(ss)
    decreases |ss|
  {
    if ss == [] then o else ProgramEmitted(StmtEmitted(o, ss[0]), ss[1..])
  }

  /** The state after a statement, looking at `tail`. */
  function StmtParsed(st: PState, s: Stmt, tail: seq<Token>): PState
    requires StmtWellFormed(s) && tail != []
  {
    var o := StmtEmitted(OutputOf(st), s);
    st.(previous := s.semicolon, current := tail[0], rest := tail[1..], code := o.code, lines := o.lines, consts := o.consts)
  }

  // ----- What a statement emits -----

  /** A statement's code: its expression's post-order code, then its own instruction. */
  lemma {:induction false} StmtIsPostOrder(o: Output, s: Stmt)
    requires StmtWellFormed(s)
    ensures StmtEmitted(o, s).code == o.code + CodeOf(s.value, |o.consts|) + [Encode(StmtOp(s))]
    ensures StmtEmitted(o, s).lines == o.lines + LinesOf(s.value) + [s.semicolon.line]
    ensures StmtEmitted(o, s).consts == o.consts + ConstsOf(s.value)
  {
    EmittedIsPostOrder(o, s.value);
  }

  // ----- The tokens of a program -----

  /** A tree starts with a token that has a prefix rule. */
  lemma {:induction false} FirstToken(e: Expr)
    requires WellFormed(e)
    ensures GetRule(Tokens(e)[0].kind).prefix != NoPrefix
  {
    match e
    case Atom(t) =>
      PrefixRules(t.kind);
    case Unop(op, x) =>
      PrefixRules(op.kind);
    case Paren(o, x, c) =>
      PrefixRules(o.kind);
    case Binop(l, op, r) =>
      FirstToken(l);
      assert Tokens(e)[0] == Tokens(l)[0];
  }

  /** A statement is all plain tokens, and it starts with `print` exactly when it is a print statement. */
  lemma {:induction false} StmtTokensPlain(s: Stmt)
    requires StmtWellFormed(s)
    ensures AllPlain(StmtTokens(s))
    ensures StmtTokens(s)[0].kind == Print <==> s.PrintStmt?
  {
    var e := s.value;
    TokensPlain(e);
    FirstToken(e);
    PrefixRules(Tokens(e)[0].kind);
    if s.PrintStmt? {
      assert StmtTokens(s)[0] == s.keyword;
      forall i | 0 < i < |StmtTokens(s)|
        ensures StmtTokens(s)[i] == (Tokens(e) + [s.semicolon])[i - 1]
      {
      }
    } else {
      assert StmtTokens(s)[0] == Tokens(e)[0];
    }
  }

  lemma {:induction false} ProgramTokensPlain(ss: seq<Stmt>)
    requires ProgramWellFormed(ss)
    ensures AllPlain(ProgramTokens(ss))
    decreases |ss|
  {
    if ss != [] {
      StmtTokensPlain(ss[0]);
      ProgramTokensPlain(ss[1..]);
    }
  }

  /** Plain tokens followed by one end-of-file token make a stream the compiler can read. */
  lemma {:induction false} PlainStream(ts: seq<Token>, eof: Token)
    requires AllPlain(ts) && eof.kind == Eof
    ensures StreamOk(ts + [eof])
    decreases |ts|
  {
    if ts != [] {
      assert (ts + [eof])[1..] == ts[1..] + [eof];
      PlainStream(ts[1..], eof);
    }
  }

  // ----- Compiling one statement -----

  /** expression, then consume(`;`): the tree's code, and the parser stands after the `;`. */
  lemma {:induction false} ValueThenSemicolon(e: Expr, semi: Token, st: PState, tail: seq<Token>)
    requires Ok(st) && WellFormed(e) && semi.kind == Semicolon && Reading(st, Tokens(e) + ([semi] + tail))
    requires tail != [] && tail[0].kind != Error
    requires |st.consts| + |ConstsOf(e)| <= 256
    ensures Consume(Expression(st), Semicolon, "Expect ';' after value.")
            == Parsed(st, e, [semi] + tail).(previous := semi, current := tail[0], rest := tail[1..])
  {
    ParseTree(e, st, PREC_ASSIGNMENT, [semi] + tail);
    var value := Parsed(st, e, [semi] + tail);
    ParsedOk(st, e, [semi] + tail);
    ReadingParsed(st, e, [semi] + tail);
    AdvanceReading(value, semi, tail);
  }

  /** printStatement after `print`: the value, the `;`, then OP_PRINT. */
  lemma {:induction false} PrintBody(k: Token, e: Expr, semi: Token, st: PState, read: PState, tail: seq<Token>)
    requires StmtWellFormed(PrintStmt(k, e, semi)) && Ok(read) && Reading(read, Tokens(e) + ([semi] + tail))
    requires tail != [] && tail[0].kind != Error && |read.consts| + |ConstsOf(e)| <= 256
    requires read == st.(previous := k, current := read.current, rest := read.rest)
    ensures PrintStatement(read) == StmtParsed(st, PrintStmt(k, e, semi), tail)
  {
    ValueThenSemicolon(e, semi, read, tail);
    assert OutputOf(read) == OutputOf(st);
  }

  /** expressionStatement: the value, the `;`, then OP_POP. */
  lemma {:induction false} ExprBody(e: Expr, semi: Token, st: PState, tail: seq<Token>)
    requires StmtWellFormed(ExprStmt(e, semi)) && Ok(st) && Reading(st, Tokens(e) + ([semi] + tail))
    requires tail != [] && tail[0].kind != Error && |st.consts| + |ConstsOf(e)| <= 256
    ensures ExpressionStatement(st) == StmtParsed(st, ExprStmt(e, semi), tail)
  {
    ValueThenSemicolon(e, semi, st, tail);
  }

  /** statement on `print`: match advances over it, then printStatement. */
  lemma {:induction false} StatementIsPrint(st: PState)
    requires Ok(st) && st.current.kind == Print
    ensures Statement(st) == PrintStatement(Advance(st))
  {
  }

  /** statement on any other token: expressionStatement, with nothing consumed. */
  lemma {:induction false} StatementIsExpression(st: PState)
    requires Ok(st) && st.current.kind != Print
    ensures Statement(st) == ExpressionStatement(st)
  {
  }

  /** A print statement. */
  lemma {:induction false} PrintParse(k: Token, e: Expr, semi: Token, st: PState, tail: seq<Token>)
    requires Ok(st) && StmtWellFormed(PrintStmt(k, e, semi)) && Reading(st, [k] + (Tokens(e) + ([semi] + tail)))
    requires tail != [] && tail[0].kind != Error && |st.consts| + |ConstsOf(e)| <= 256
    ensures Statement(st) == StmtParsed(st, PrintStmt(k, e, semi), tail)
  {
    var ts := Tokens(e) + ([semi] + tail);
    TokensPlain(e);
    assert ts[0] == Tokens(e)[0];
    AdvanceReading(st, k, ts);
    StatementIsPrint(st);
    PrintBody(k, e, semi, st, Advance(st), tail);
  }

  /** An expression statement. */
  lemma {:induction false} ExprStmtParse(e: Expr, semi: Token, st: PState, tail: seq<Token>)
    requires Ok(st) && StmtWellFormed(ExprStmt(e, semi)) && Reading(st, Tokens(e) + ([semi] + tail))
    requires tail != [] && tail[0].kind != Error && |st.consts| + |ConstsOf(e)| <= 256
    ensures Statement(st) == StmtParsed(st, ExprStmt(e, semi), tail)
  {
    StmtTokensPlain(ExprStmt(e, semi));
    assert st.current == (Tokens(e) + ([semi] + tail))[0];
    StatementIsExpression(st);
    ExprBody(e, semi, st, tail);
  }

  lemma {:induction false} StmtTokensSplit(s: Stmt, tail: seq<Token>)
    ensures s.PrintStmt? ==> StmtTokens(s) + tail == [s.keyword] + (Tokens(s.value) + ([s.semicolon] + tail))
    ensures s.ExprStmt? ==> StmtTokens(s) + tail == Tokens(s.value) + ([s.semicolon] + tail)
  {
    match s
    case PrintStmt(k, e, semi) =>
      Regroup4([k], Tokens(e), [semi], tail);
    case ExprStmt(e, semi) =>
      Regroup(Tokens(e), [semi], tail);
  }

  /** declaration on a statement with no error in it: the statement's code, and no recovery. */
  lemma {:induction false} StatementParse(s: Stmt, st: PState, tail: seq<Token>)
    requires Ok(st) && !st.panicMode && StmtWellFormed(s) && Reading(st, StmtTokens(s) + tail)
    requires tail != [] && tail[0].kind != Error && |st.consts| + |ConstsOf(s.value)| <= 256
    ensures Declaration(st) == StmtParsed(st, s, tail)
  {
    StmtTokensSplit(s, tail);
    match s
    case PrintStmt(k, e, semi) =>
      PrintParse(k, e, semi, st, tail);
    case ExprStmt(e, semi) =>
      ExprStmtParse(e, semi, st, tail);
  }

  // ----- Compiling a program -----

  /** A program's stream is its first statement, then the rest, whose first token is plain or the end. */
  lemma {:induction false} NextStatement(ss: seq<Stmt>, eof: Token, t: Token, ts: seq<Token>)
    requires ProgramWellFormed(ss) && ss != [] && eof.kind == Eof
    requires [t] + ts == ProgramTokens(ss) + [eof]
    ensures [t] + ts == StmtTokens(ss[0]) + (ProgramTokens(ss[1..]) + [eof])
    ensures t.kind != Eof
    ensures (ProgramTokens(ss[1..]) + [eof])[0].kind != Error
  {
    ProgramTokensPlain(ss[1..]);
    StmtTokensPlain(ss[0]);
    Regroup(StmtTokens(ss[0]), ProgramTokens(ss[1..]), [eof]);
    assert t == ([t] + ts)[0] == StmtTokens(ss[0])[0];
    if ss[1..] != [] {
      StmtTokensPlain(ss[1]);
      assert (ProgramTokens(ss[1..]) + [eof])[0] == ProgramTokens(ss[1..])[0];
    }
  }

  /** The stream of the empty program is the end-of-file token alone. */
  lemma {:induction false} NoStatement(ss: seq<Stmt>, eof: Token, t: Token, ts: seq<Token>)
    requires ss == [] && [t] + ts == ProgramTokens(ss) + [eof]
    ensures t == eof && ts == []
  {
    assert [t] + ts == [eof];
    assert t == ([t] + ts)[0];
    assert ts == ([t] + ts)[1..];
  }

  /** A non-empty stream is its head followed by its tail. */
  lemma {:induction false} HeadTail(ts: seq<Token>)
    requires ts != []
    ensures [ts[0]] + ts[1..] == ts
  {
  }

  /** One round of the loop of compile: a declaration, when the end has not been reached. */
  lemma {:induction false} DeclarationRound(s: Stmt, st: PState, tail: seq<Token>)
    requires Ok(st) && !st.panicMode && StmtWellFormed(s) && Reading(st, StmtTokens(s) + tail)
    requires tail != [] && tail[0].kind != Error && |st.consts| + |ConstsOf(s.value)| <= 256
    ensures Ok(StmtParsed(st, s, tail))
    ensures Declarations(st) == Declarations(StmtParsed(st, s, tail))
  {
    StatementParse(s, st, tail);
  }

  /** The loop of compile at the end-of-file token: match consumes it and the loop stops. */
  lemma {:induction false} DeclarationsEnd(st: PState)
    requires Ok(st) && st.current.kind == Eof
    ensures Declarations(st) == st.(previous := st.current)
  {
  }

  /** One statement of a program: the loop goes on from the state after it, with its output. */
  lemma {:induction false} DeclarationsStep(ss: seq<Stmt>, st: PState, eof: Token)
    requires Ok(st) && !st.panicMode && ProgramWellFormed(ss) && ss != [] && eof.kind == Eof
    requires [st.current] + st.rest == ProgramTokens(ss) + [eof]
    requires |st.consts| + ProgramConsts(ss) <= 256
    ensures var tail := ProgramTokens(ss[1..]) + [eof];
            && tail != [] && Ok(StmtParsed(st, ss[0], tail))
            && Declarations(st) == Declarations(StmtParsed(st, ss[0], tail))
            && [StmtParsed(st, ss[0], tail).current] + StmtParsed(st, ss[0], tail).rest == tail
            && !StmtParsed(st, ss[0], tail).panicMode
            && |StmtParsed(st, ss[0], tail).consts| + ProgramConsts(ss[1..]) <= 256
            && ProgramEmitted(OutputOf(st), ss) == ProgramEmitted(OutputOf(StmtParsed(st, ss[0], tail)), ss[1..])
  {
    var tail := ProgramTokens(ss[1..]) + [eof];
    NextStatement(ss, eof, st.current, st.rest);
    DeclarationRound(ss[0], st, tail);
    HeadTail(tail);
  }

  /** The loop of compile reads the whole program and stops at the end-of-file token. */
  lemma {:induction false} DeclarationsParse(ss: seq<Stmt>, st: PState, eof: Token)
    requires Ok(st) && !st.panicMode && ProgramWellFormed(ss) && eof.kind == Eof
    requires [st.current] + st.rest == ProgramTokens(ss) + [eof]
    requires |st.consts| + ProgramConsts(ss) <= 256
    ensures var o := ProgramEmitted(OutputOf(st), ss);
            Declarations(st) == st.(previous := eof, current := eof, rest := [], code := o.code, lines := o.lines, consts := o.consts)
    decreases |ss|
  {
    if ss == [] {
      DeclarationsNone(st, eof);
    } else {
      var next := StmtParsed(st, ss[0], ProgramTokens(ss[1..]) + [eof]);
      DeclarationsStep(ss, st, eof);
      DeclarationsParse(ss[1..], next, eof);
      assert next.(previous := eof, current := eof, rest := []) == st.(previous := eof, current := eof, rest := [], code := next.code, lines := next.lines, consts := next.consts);
    }
  }

  /** The loop of compile on an empty program: it stops at once and emits nothing. */
  lemma {:induction false} DeclarationsNone(st: PState, eof: Token)
    requires Ok(st) && eof.kind == Eof && [st.current] + st.rest == ProgramTokens([]) + [eof]
    ensures var o := ProgramEmitted(OutputOf(st), []);
            Declarations(st) == st.(previous := eof, current := eof, rest := [], code := o.code, lines := o.lines, consts := o.consts)
  {
    NoStatement([], eof, st.current, st.rest);
    DeclarationsEnd(st);
  }

  /** A program of one statement. */
  lemma {:induction false} OneStatement(s: Stmt, o: Output)
    requires StmtWellFormed(s)
    ensures ProgramWellFormed([s]) && ProgramTokens([s]) == StmtTokens(s)
    ensures ProgramConsts([s]) == |ConstsOf(s.value)| && ProgramEmitted(o, [s]) == StmtEmitted(o, s)
  {
    assert [s][1..] == [];
  }

  /** The tokens of a program, then the end, make a stream whose first token is not an error. */
  lemma {:induction false} ProgramStream(ss: seq<Stmt>, eof: Token)
    requires ProgramWellFormed(ss) && eof.kind == Eof
    ensures StreamOk(ProgramTokens(ss) + [eof]) && (ProgramTokens(ss) + [eof])[0].kind != Error
  {
    ProgramTokensPlain(ss);
    PlainStream(ProgramTokens(ss), eof);
    if ss != [] {
      assert (ProgramTokens(ss) + [eof])[0] == ProgramTokens(ss)[0];
    }
  }

  /**
   * compile on the tokens of a program with no error in it, appending to a chunk that
   * already holds `code` and `consts`: it succeeds, reports nothing, and emits each
   * statement's code in order, then OP_RETURN with the line of the end of the input.
   */
  lemma {:induction false} CompileProgram(ss: seq<Stmt>, eof: Token, code: seq<byte>, lines: seq<int>, consts: seq<Const>)
    requires ProgramWellFormed(ss) && eof.kind == Eof && |code| == |lines|
    requires |consts| + ProgramConsts(ss) <= 256
    ensures StreamOk(ProgramTokens(ss) + [eof])
    ensures var r := Compile(ProgramTokens(ss) + [eof], code, lines, consts);
            var o := ProgramEmitted(Output(code, lines, consts), ss);
            && !r.hadError && r.errors == []
            && r.code == o.code + [Encode(OpReturn)] && r.lines == o.lines + [eof.line] && r.consts == o.consts
  {
    var tokens := ProgramTokens(ss) + [eof];
    ProgramStream(ss, eof);
    var start := Start(tokens, code, lines, consts);
    AdvanceOver(start);
    var primed := Advance(start);
    HeadTail(tokens);
    DeclarationsParse(ss, primed, eof);
  }
}
