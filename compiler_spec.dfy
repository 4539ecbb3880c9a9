/**
 * The single-pass compiler as functions of a parser state. Each function is one routine of
 * the Pratt parser: it takes the state before the routine runs (the previous and current
 * tokens, the tokens still to come, the error flags, and what has been emitted so far) and
 * returns the state after it. The `Parser` class runs the same routines in place and is
 * proved to follow these functions step for step.
 */
module CompilerSpec {
  import opened Scanning
  import opened Chunks
  import opened ParseRules
  import Values

  /** A constant in the pool, as the compiler created it (numbers as their literal text). */
  datatype Const = CBool(b: bool) | CNil | CNumber(literal: string) | CString(text: string)

  /**
   * The runtime value a constant becomes in the chunk's pool: booleans, nil and numbers
   * carry over, and a string constant is a string object holding its text.
   */
  predicate Represents(c: Const, v: Values.Value)
  {
    match c
    case CBool(b) => v == Values.Bool(b)
    case CNil => v == Values.Nil
    case CNumber(literal) => v == Values.Number(literal)
    case CString(text) => v.Obj? && v.str.Valid() && v.str.Content() == text
  }

  /** Constants are a faithful abstraction of pool values: valuesEqual holds iff they are equal. */
  lemma RepresentsEquality(c: Const, d: Const, v: Values.Value, w: Values.Value)
    requires Represents(c, v) && Represents(d, w)
    ensures Values.ValuesEqual(v, w) <==> c == d
  {
    if c.CString? && d.CString? {
      assert v.str.length == |c.text| && w.str.length == |d.text|;
    }
  }

  /** Where a diagnostic points: at the end, nowhere (a scanner error), or at a lexeme. */
  datatype Location = AtEnd | AtNothing | AtLexeme(text: string)

  /** A reported compile error: the line, where it points and the message. */
  datatype Diagnostic = Diagnostic(line: nat, at: Location, message: string)

  /**
   * The parser between two routines. `rest` holds the tokens after `current`; it is empty
   * once `current` is the end-of-file token, which the scanner then returns forever.
   */
  datatype PState = PState(
    previous: Token, current: Token, rest: seq<Token>,
    hadError: bool, panicMode: bool,
    code: seq<byte>, lines: seq<int>, consts: seq<Const>,
    errors: seq<Diagnostic>)

  /** What the compiler relies on in a token: a string token holds at least its two quotes. */
  predicate TokenOk(t: Token)
  {
    t.kind == String ==> |t.lexeme| >= 2
  }

  /**
   * A token stream the compiler can read: well-formed tokens, ending in the one end-of-file
   * token. Written token by token; `StreamOkMeans` gives it as a property of the whole stream.
   */
  predicate StreamOk(ts: seq<Token>)
  {
    && |ts| >= 1 && TokenOk(ts[0])
    && if |ts| == 1 then ts[0].kind == Eof else ts[0].kind != Eof && StreamOk(ts[1..])
  }

  /** A readable stream is a valid stream of the scanner whose every token is well formed. */
  lemma {:induction false} StreamOkMeans(ts: seq<Token>)
    ensures StreamOk(ts) <==> ValidStream(ts) && forall k :: 0 <= k < |ts| ==> TokenOk(ts[k])
    decreases |ts|
  {
    if |ts| > 1 {
      StreamOkMeans(ts[1..]);
      assert forall k :: 0 < k < |ts| ==> ts[k] == ts[1..][k - 1];
      if ValidStream(ts) && forall k :: 0 <= k < |ts| ==> TokenOk(ts[k]) {
        assert ValidStream(ts[1..]);
      }
    }
  }

  /**
   * The parser invariant: the stream is consistent with `current`, every code byte has its
   * line, panic mode implies an error was reported, and `hadError` says whether one was.
   */
  predicate Ok(st: PState)
  {
    && TokenOk(st.previous) && TokenOk(st.current)
    && (if st.current.kind == Eof then st.rest == [] else StreamOk(st.rest))
    && |st.code| == |st.lines|
    && (st.panicMode ==> st.hadError)
    && (st.hadError <==> st.errors != [])
  }

  /**
   * What every routine but `synchronize` keeps: tokens are only consumed; code, lines,
   * constants and diagnostics are only appended to; once in panic mode the parser stays
   * there and reports nothing more; and a report always leaves it in panic mode.
   */
  predicate Grows(st: PState, r: PState)
  {
    && Appends(st, r)
    && (st.panicMode ==> r.panicMode && r.errors == st.errors)
    && (!r.panicMode ==> r.errors == st.errors)
  }

  /** Tokens only consumed; code, lines, constants and diagnostics only appended to. */
  predicate Appends(st: PState, r: PState)
  {
    && |r.rest| <= |st.rest|
    && st.code <= r.code && st.lines <= r.lines && st.consts <= r.consts && st.errors <= r.errors
  }

  /** The state the compiler does not touch: code, lines and constants. */
  predicate SameOutput(st: PState, r: PState)
  {
    r.code == st.code && r.lines == st.lines && r.consts == st.consts
  }

  // ----- Errors -----

  /** How a diagnostic points at a token. */
  function LocationOf(t: Token): Location
  {
    if t.kind == Eof then AtEnd else if t.kind == Error then AtNothing else AtLexeme(t.lexeme)
  }

  /**
   * errorAt: in panic mode nothing happens; otherwise the diagnostic is recorded, and the
   * parser enters panic mode with the error flag set.
   */
  function ErrorAt(st: PState, t: Token, message: string): (r: PState)
    requires Ok(st)
    ensures Ok(r) && Grows(st, r) && SameOutput(st, r) && r.panicMode && r.hadError
    ensures r.previous == st.previous && r.current == st.current && r.rest == st.rest
    ensures st.panicMode ==> r == st
    ensures !st.panicMode ==> r.errors == st.errors + [Diagnostic(t.line, LocationOf(t), message)]
  {
    if st.panicMode then st
    else st.(panicMode := true, hadError := true, errors := st.errors + [Diagnostic(t.line, LocationOf(t), message)])
  }

  /** error: an error at the token just consumed. */
  function ErrorAtPrevious(st: PState, message: string): (r: PState)
    requires Ok(st)
    ensures Ok(r) && Grows(st, r) && SameOutput(st, r) && r.panicMode && r.hadError
    ensures r.previous == st.previous && r.current == st.current && r.rest == st.rest
    ensures st.panicMode ==> r == st
    ensures !st.panicMode ==> r.errors == st.errors + [Diagnostic(st.previous.line, LocationOf(st.previous), message)]
  {
    ErrorAt(st, st.previous, message)
  }

  // ----- Reading tokens -----

  /** One call of scanToken: the next token of the stream, or the end-of-file token again. */
  function NextToken(st: PState): (r: PState)
    requires Ok(st)
    ensures Ok(r) && Grows(st, r) && r == st.(current := r.current, rest := r.rest)
    ensures st.current.kind == Eof ==> r == st
    ensures st.current.kind != Eof ==> r.current == st.rest[0] && r.rest == st.rest[1..]
  {
    if st.current.kind == Eof then st else st.(current := st.rest[0], rest := st.rest[1..])
  }

  /** The loop of advance: read tokens, reporting each error token, until one is not an error. */
  function SkipErrors(st: PState): (r: PState)
    requires Ok(st)
    ensures Ok(r) && Grows(st, r) && SameOutput(st, r) && r.previous == st.previous
    ensures r.current.kind != Error
    ensures st.current.kind != Eof ==> |r.rest| < |st.rest|
    decreases |st.rest|
  {
    var next := NextToken(st);
    if next.current.kind == Error then SkipErrors(ErrorAt(next, next.current, next.current.lexeme))
    else next
  }

  /** advance: the current token becomes the previous one, and the next good token current. */
  function Advance(st: PState): (r: PState)
    requires Ok(st)
    ensures Ok(r) && Grows(st, r) && SameOutput(st, r)
    ensures r.previous == st.current && r.current.kind != Error
    ensures st.current.kind != Eof ==> |r.rest| < |st.rest|
  {
    SkipErrors(st.(previous := st.current))
  }

  /** consume: advance over the expected token, or report `message` at the current one. */
  function Consume(st: PState, kind: TokenKind, message: string): (r: PState)
    requires Ok(st)
    ensures Ok(r) && Grows(st, r) && SameOutput(st, r)
    ensures st.current.kind == kind ==> r == Advance(st)
    ensures st.current.kind != kind ==> r == ErrorAt(st, st.current, message)
  {
    if st.current.kind == kind then Advance(st) else ErrorAt(st, st.current, message)
  }

  // ----- Emitting code -----

  /** emitByte: append a byte, recorded with the line of the token just consumed. */
  function EmitByte(st: PState, b: byte): (r: PState)
    requires Ok(st)
    ensures Ok(r) && Grows(st, r)
    ensures r == st.(code := r.code, lines := r.lines)
    ensures r.code == st.code + [b] && r.lines == st.lines + [st.previous.line]
  {
    st.(code := st.code + [b], lines := st.lines + [st.previous.line])
  }

  /** emitBytes: two bytes, both recorded with the line of the token just consumed. */
  function EmitBytes(st: PState, b1: byte, b2: byte): (r: PState)
    requires Ok(st)
    ensures Ok(r) && Grows(st, r)
    ensures r == st.(code := r.code, lines := r.lines)
    ensures r.code == st.code + [b1, b2] && r.lines == st.lines + [st.previous.line, st.previous.line]
  {
    EmitByte(EmitByte(st, b1), b2)
  }

  /** The operand byte of a constant instruction: the pool index, or 0 once it is past 255. */
  function ConstantOperand(index: nat): (b: byte)
    ensures index <= 255 ==> b as int == index
  {
    if index > 255 then 0 else index as byte
  }

  /**
   * emitConstant: add the value to the pool, then emit OP_CONSTANT with its index; an index
   * that does not fit a byte is reported and written as 0.
   */
  function EmitConstant(st: PState, c: Const): (r: PState)
    requires Ok(st)
    ensures Ok(r) && Grows(st, r) && r.rest == st.rest && r.current == st.current && r.previous == st.previous
    ensures r.consts == st.consts + [c]
    ensures r.code == st.code + [Encode(OpConstant), ConstantOperand(|st.consts|)]
    ensures r.lines == st.lines + [st.previous.line, st.previous.line]
    ensures |st.consts| <= 255 ==> r == st.(consts := r.consts, code := r.code, lines := r.lines)
    ensures |st.consts| > 255 ==> r.panicMode && r.hadError
    ensures |st.consts| > 255 ==>
              r.errors == if st.panicMode then st.errors
                          else st.errors + [Diagnostic(st.previous.line, LocationOf(st.previous), "Too many constants in one chunk.")]
  {
    var index := |st.consts|;
    var added := st.(consts := st.consts + [c]);
    if index > 255 then
      var reported := ErrorAtPrevious(added, "Too many constants in one chunk.");
      EmitBytes(reported, Encode(OpConstant), 0)
    else
      EmitBytes(added, Encode(OpConstant), index as byte)
  }

  // ----- Expressions -----

  /** number: the literal becomes a constant. */
  function NumberLiteral(st: PState): (r: PState)
    requires Ok(st)
    ensures Ok(r) && Grows(st, r)
  {
    EmitConstant(st, CNumber(st.previous.lexeme))
  }

  /**
   * What number does: the literal's text is added to the pool and loaded by index, on the
   * literal's line; below the pool limit nothing else changes.
   */
  lemma NumberLiteralEmits(st: PState)
    requires Ok(st)
    ensures var r := NumberLiteral(st);
      && r.rest == st.rest && r.current == st.current && r.previous == st.previous
      && r.consts == st.consts + [CNumber(st.previous.lexeme)]
      && r.code == st.code + [Encode(OpConstant), ConstantOperand(|st.consts|)]
      && r.lines == st.lines + [st.previous.line, st.previous.line]
      && (|st.consts| <= 255 ==> r == st.(code := r.code, lines := r.lines, consts := r.consts))
      && (|st.consts| > 255 ==> r.panicMode && r.hadError)
  {
  }

  /** The contents of a string lexeme: the text between its two quotes. */
  function StringContents(lexeme: string): (text: string)
    requires |lexeme| >= 2
    ensures |text| == |lexeme| - 2 && lexeme == lexeme[..1] + text + lexeme[|lexeme| - 1..]
  {
    lexeme[1..|lexeme| - 1]
  }

  /** string: the lexeme without its quotes becomes a constant. */
  function StringLiteral(st: PState): (r: PState)
    requires Ok(st) && st.previous.kind == String
    ensures Ok(r) && Grows(st, r)
  {
    EmitConstant(st, CString(StringContents(st.previous.lexeme)))
  }

  /**
   * What string does: the text between the quotes is added to the pool and loaded by index,
   * on the literal's line; below the pool limit nothing else changes.
   */
  lemma StringLiteralEmits(st: PState)
    requires Ok(st) && st.previous.kind == String
    ensures var r := StringLiteral(st);
      && r.rest == st.rest && r.current == st.current && r.previous == st.previous
      && r.consts == st.consts + [CString(st.previous.lexeme[1..|st.previous.lexeme| - 1])]
      && r.code == st.code + [Encode(OpConstant), ConstantOperand(|st.consts|)]
      && r.lines == st.lines + [st.previous.line, st.previous.line]
      && (|st.consts| <= 255 ==> r == st.(code := r.code, lines := r.lines, consts := r.consts))
      && (|st.consts| > 255 ==> r.panicMode && r.hadError)
  {
  }

  /** The instruction of a literal keyword. */
  function LiteralOp(k: TokenKind): OpCode
    requires k == False || k == True || k == Nil
  {
    match k
    case False => OpFalse
    case True => OpTrue
    case Nil => OpNil
  }

  /** literal: `false`, `true` or `nil` is one instruction. */
  function Literal(st: PState): (r: PState)
    requires Ok(st) && GetRule(st.previous.kind).prefix == LiteralFn
    ensures Ok(r) && Grows(st, r) && r == st.(code := r.code, lines := r.lines)
    ensures r.code == st.code + [Encode(LiteralOp(st.previous.kind))] && r.lines == st.lines + [st.previous.line]
  {
    PrefixRules(st.previous.kind);
    EmitByte(st, Encode(LiteralOp(st.previous.kind)))
  }

  /** The instruction of a unary operator. */
  function UnaryOp(k: TokenKind): OpCode
    requires k == Minus || k == Bang
  {
    if k == Minus then OpNegate else OpNot
  }

  /** The instruction of a binary operator. */
  function BinaryOp(k: TokenKind): OpCode
    requires IsBinaryOperator(k)
  {
    match k
    case Plus => OpAdd
    case Minus => OpSubtract
    case Star => OpMultiply
    case Slash => OpDivide
    case Less => OpLess
    case LessEqual => OpLessEqual
    case BangEqual => OpNotEqual
    case EqualEqual => OpEqual
    case Greater => OpGreater
    case GreaterEqual => OpGreaterEqual
  }

  /**
   * parsePrecedence: read a token and compile the expression it starts, then keep folding
   * in infix operators for as long as they bind at least as tightly as `prec`.
   */
  function ParsePrecedence(st: PState, prec: Precedence): (r: PState)
    requires Ok(st) && prec >= PREC_ASSIGNMENT
    ensures Ok(r) && Grows(st, r)
    ensures st.current.kind != Eof ==> |r.rest| < |st.rest|
    decreases |st.rest|, 3
  {
    var read := Advance(st);
    if GetRule(read.previous.kind).prefix == NoPrefix then ErrorAtPrevious(read, "Expect expression.")
    else
      var operand := Prefix(read);
      InfixLoop(operand, prec)
  }

  /** expression: an expression at the lowest precedence. */
  function Expression(st: PState): (r: PState)
    requires Ok(st)
    ensures Ok(r) && Grows(st, r)
    ensures st.current.kind != Eof ==> |r.rest| < |st.rest|
    decreases |st.rest|, 4
  {
    ParsePrecedence(st, PREC_ASSIGNMENT)
  }

  /** The prefix routine of the token just read. */
  function Prefix(st: PState): (r: PState)
    requires Ok(st) && GetRule(st.previous.kind).prefix != NoPrefix
    ensures Ok(r) && Grows(st, r)
    decreases |st.rest| + 1, 2
  {
    match GetRule(st.previous.kind).prefix
    case GroupingFn => Grouping(st)
    case UnaryFn => Unary(st)
    case NumberFn => NumberLiteral(st)
    case StringFn => PrefixRules(st.previous.kind); StringLiteral(st)
    case LiteralFn => Literal(st)
  }

  /** grouping: the inner expression, then the closing parenthesis; no instruction of its own. */
  function Grouping(st: PState): (r: PState)
    requires Ok(st)
    ensures Ok(r) && Grows(st, r)
    decreases |st.rest| + 1, 1
  {
    var inner := Expression(st);
    Consume(inner, RightParen, "Expect ')' after expression.")
  }

  /** unary: the operand at unary precedence, then the operator's instruction. */
  function Unary(st: PState): (r: PState)
    requires Ok(st)
    ensures Ok(r) && Grows(st, r)
    decreases |st.rest| + 1, 1
  {
    var op := st.previous.kind;
    var operand := ParsePrecedence(st, PREC_UNARY);
    if op == Minus || op == Bang then EmitByte(operand, Encode(UnaryOp(op))) else operand
  }

  /**
   * binary: the right operand one level above the operator's own precedence, then the
   * operator's instruction.
   */
  function Binary(st: PState): (r: PState)
    requires Ok(st) && IsBinaryOperator(st.previous.kind)
    ensures Ok(r) && Grows(st, r)
    decreases |st.rest| + 1, 1
  {
    var op := st.previous.kind;
    var right := ParsePrecedence(st, GetRule(op).precedence + 1);
    EmitByte(right, Encode(BinaryOp(op)))
  }

  /** The loop of parsePrecedence: one infix operator per round while it binds tightly enough. */
  function InfixLoop(st: PState, prec: Precedence): (r: PState)
    requires Ok(st) && prec >= PREC_ASSIGNMENT
    ensures Ok(r) && Grows(st, r)
    decreases |st.rest|, 4
  {
    if prec <= GetRule(st.current.kind).precedence then
      var read := Advance(st);
      var combined := Binary(read);
      InfixLoop(combined, prec)
    else st
  }

  // ----- Statements -----

  /** printStatement, after `print`: the expression, `;`, then OP_PRINT. */
  function PrintStatement(st: PState): (r: PState)
    requires Ok(st)
    ensures Ok(r) && Grows(st, r)
    ensures st.current.kind != Eof ==> |r.rest| < |st.rest|
  {
    var value := Expression(st);
    var ended := Consume(value, Semicolon, "Expect ';' after value.");
    EmitByte(ended, Encode(OpPrint))
  }

  /** expressionStatement: the expression, `;`, then OP_POP to discard its value. */
  function ExpressionStatement(st: PState): (r: PState)
    requires Ok(st)
    ensures Ok(r) && Grows(st, r)
    ensures st.current.kind != Eof ==> |r.rest| < |st.rest|
  {
    var value := Expression(st);
    var ended := Consume(value, Semicolon, "Expect ';' after value.");
    EmitByte(ended, Encode(OpPop))
  }

  /** match: advance over the current token when it has the given kind. */
  function Match(st: PState, kind: TokenKind): (r: (bool, PState))
    requires Ok(st)
    ensures r.0 <==> st.current.kind == kind
    ensures !r.0 ==> r.1 == st
    ensures r.0 ==> Ok(r.1) && Grows(st, r.1) && SameOutput(st, r.1)
    ensures r.0 ==> r.1.previous == st.current && r.1.current.kind != Error
    ensures r.0 && kind != Eof ==> |r.1.rest| < |st.rest|
  {
    if st.current.kind == kind then (true, Advance(st)) else (false, st)
  }

  /** statement: a print statement when it starts with `print`, else an expression statement. */
  function Statement(st: PState): (r: PState)
    requires Ok(st)
    ensures Ok(r) && Grows(st, r)
    ensures st.current.kind != Eof ==> |r.rest| < |st.rest|
  {
    var (isPrint, next) := Match(st, Print);
    if isPrint then PrintStatement(next) else ExpressionStatement(next)
  }

  /** The keywords that begin a statement, where error recovery resumes. */
  predicate StartsStatement(k: TokenKind)
  {
    k in {Class, Fun, Var, For, If, While, Print, Return}
  }

  /** Where synchronize stops: the end, just after a `;`, or before a statement keyword. */
  predicate SyncPoint(st: PState)
  {
    st.current.kind == Eof || st.previous.kind == Semicolon || StartsStatement(st.current.kind)
  }

  /** The loop of synchronize: skip tokens up to the next synchronisation point. */
  function SkipToSyncPoint(st: PState): (r: PState)
    requires Ok(st)
    ensures Ok(r) && Grows(st, r) && SameOutput(st, r) && SyncPoint(r)
    ensures SyncPoint(st) ==> r == st
    decreases |st.rest|
  {
    if SyncPoint(st) then st else SkipToSyncPoint(Advance(st))
  }

  /**
   * synchronize: leave panic mode, then skip to the next statement boundary. Error tokens
   * met on the way are reported again, since panic mode is off.
   */
  function Synchronize(st: PState): (r: PState)
    requires Ok(st)
    ensures Ok(r) && Appends(st, r) && SameOutput(st, r) && SyncPoint(r)
    ensures !r.panicMode ==> r.errors == st.errors
  {
    SkipToSyncPoint(st.(panicMode := false))
  }

  /** declaration: a statement, then recovery if it left the parser in panic mode. */
  function Declaration(st: PState): (r: PState)
    requires Ok(st)
    ensures Ok(r) && Appends(st, r)
    ensures st.current.kind != Eof ==> |r.rest| < |st.rest|
  {
    var done := Statement(st);
    if done.panicMode then Synchronize(done) else done
  }

  /** The loop of compile: declarations until `match(TOKEN_EOF)` succeeds. */
  function Declarations(st: PState): (r: PState)
    requires Ok(st)
    ensures Ok(r) && Appends(st, r) && r.current.kind == Eof && r.previous.kind == Eof
    decreases |st.rest|
  {
    var (atEnd, next) := Match(st, Eof);
    if atEnd then next else Declarations(Declaration(st))
  }

  /**
   * The parser before the first advance. The C struct's token fields are uninitialised
   * there; the first advance copies `current` into `previous` and neither is read before
   * the next advance, so any token will do.
   */
  const UNSET: Token := Token(Identifier, "", 0)

  /** The parser as compile sets it up: nothing read, no error, appending to the given chunk. */
  function Start(tokens: seq<Token>, code: seq<byte>, lines: seq<int>, consts: seq<Const>): (st: PState)
    requires StreamOk(tokens) && |code| == |lines|
    ensures Ok(st) && st.rest == tokens && !st.hadError && !st.panicMode
    ensures st.code == code && st.consts == consts && st.errors == []
  {
    PState(UNSET, UNSET, tokens, false, false, code, lines, consts, [])
  }

  /**
   * compile: prime the parser with one advance, compile declarations up to the end, and
   * finish with OP_RETURN, appending to a chunk that already holds `code`, `lines` and
   * `consts`. It succeeds when no error was reported.
   */
  function Compile(tokens: seq<Token>, code: seq<byte>, lines: seq<int>, consts: seq<Const>): (r: PState)
    requires StreamOk(tokens) && |code| == |lines|
    ensures Ok(r) && code <= r.code && consts <= r.consts
    ensures |r.code| > |code| && r.code[|r.code| - 1] == Encode(OpReturn)
    ensures !r.hadError <==> r.errors == []
  {
    var primed := Advance(Start(tokens, code, lines, consts));
    EndCompiler(Declarations(primed))
  }

  /** endCompiler: the closing OP_RETURN. */
  function EndCompiler(st: PState): (r: PState)
    requires Ok(st)
    ensures Ok(r) && st.code <= r.code && st.consts == r.consts && r.errors == st.errors
    ensures |r.code| == |st.code| + 1 && r.code[|st.code|] == Encode(OpReturn)
  {
    EmitByte(st, Encode(OpReturn))
  }
}
