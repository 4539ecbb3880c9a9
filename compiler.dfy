/**
 * The compiler as the C program runs it: a parser object that owns its scanner, reads
 * tokens one at a time and appends bytecode as it goes. Every routine is a method that
 * updates the parser in place, and each is proved to take the parser from a state to the
 * state the matching function of `CompilerSpec` computes; `CompileSource` is then exactly
 * `CompilerSpec.Compile` over the tokens the scanner produces.
 */
module Compiler {
  import opened Scanning
  import opened Chunks
  import opened ParseRules
  import opened CompilerSpec

  // ----- The token stream the scanner hands the parser -----

  /** A string token from the scanner always holds its two quotes. */
  lemma ScannedStringsQuoted(s: seq<char>, i: nat, line: nat)
    requires i <= |s|
    ensures var t := Scan(s, i, line).token; TokenOk(t)
  {
    var st := SkipEnd(s, i);
    if st < |s| {
      if s[st] == '"' {
        ScanString(s, i, line);
      } else if IsAlpha(s[st]) {
        TrieOnlyKeywords(s[st..WordEnd(s, st + 1)]);
      }
    }
  }

  /** Whatever the source, the scanner's tokens form a stream the compiler can read. */
  lemma {:induction false} ScannedStreamOk(s: seq<char>, i: nat, line: nat)
    requires i <= |s|
    ensures StreamOk(TokensFrom(s, i, line))
    decreases |s| - i
  {
    var r := Scan(s, i, line);
    ScannedStringsQuoted(s, i, line);
    if r.token.kind != Eof {
      ScannedStreamOk(s, r.next, r.line);
      var ts := TokensFrom(s, i, line);
      assert ts[1..] == TokensFrom(s, r.next, r.line);
    }
  }

  // ----- The parser object -----

  /**
   * The Parser struct: the current and previous tokens, the scanner it reads from, the
   * error flags, and the chunk it writes to (its code, line table and constant pool), with
   * the diagnostics written so far.
   */
  class Parser {
    var current: Token
    var previous: Token
    const scanner: Scanner
    var hadError: bool
    var panicMode: bool
    var code: seq<byte>
    var lines: seq<int>
    var consts: seq<Const>
    var errors: seq<Diagnostic>

    /**
     * The parser as a value of the functional model. The tokens still to come are the
     * scanner's remaining tokens, none once the end-of-file token has been read.
     */
    ghost function State(): PState
      reads this, scanner
      requires scanner.Valid()
    {
      PState(previous, current, if current.kind == Eof then [] else scanner.Remaining(),
             hadError, panicMode, code, lines, consts, errors)
    }

    /**
     * The scanner is consistent, the parser invariant holds, and once the end-of-file token
     * has been read the scanner returns that same token again.
     */
    ghost predicate Valid()
      reads this, scanner
    {
      && scanner.Valid()
      && Ok(State())
      && (current.kind == Eof ==> Scan(scanner.source, scanner.current, scanner.line).token == current)
    }

    /** compile's set-up of the parser: no error, not in panic mode, nothing read yet. */
    constructor (scanner: Scanner, code: seq<byte>, lines: seq<int>, consts: seq<Const>)
      requires scanner.Valid() && |code| == |lines|
      ensures this.scanner == scanner && Valid()
      ensures State() == Start(scanner.Remaining(), code, lines, consts)
    {
      ScannedStreamOk(scanner.source, scanner.current, scanner.line);
      this.scanner := scanner;
      current, previous := UNSET, UNSET;
      hadError, panicMode := false, false;
      this.code, this.lines, this.consts := code, lines, consts;
      errors := [];
    }

    // ----- Errors -----

    /** errorAt: record a diagnostic and enter panic mode, unless already in it. */
    method ErrorAt(token: Token, message: string)
      requires Valid()
      modifies this
      ensures Valid() && State() == CompilerSpec.ErrorAt(old(State()), token, message)
    {
      if panicMode {
        return;
      }
      panicMode := true;
      errors := errors + [Diagnostic(token.line, LocationOf(token), message)];
      hadError := true;
    }

    /** errorAtCurrent: an error at the token about to be read. */
    method ErrorAtCurrent(message: string)
      requires Valid()
      modifies this
      ensures Valid() && State() == CompilerSpec.ErrorAt(old(State()), old(current), message)
    {
      ErrorAt(current, message);
    }

    /** error: an error at the token just read. */
    method Error(message: string)
      requires Valid()
      modifies this
      ensures Valid() && State() == ErrorAtPrevious(old(State()), message)
    {
      ErrorAt(previous, message);
    }

    // ----- Reading tokens -----

    /** One call of scanToken, its token becoming the current one. */
    method NextToken()
      requires Valid()
      modifies this, scanner
      ensures Valid() && State() == CompilerSpec.NextToken(old(State()))
    {
      ScanEofSticky(scanner.source, scanner.current, scanner.line);
      current := scanner.ScanToken();
    }

    /** advance: the current token becomes the previous one; then scan, reporting error tokens. */
    method Advance()
      requires Valid()
      modifies this, scanner
      ensures Valid() && State() == CompilerSpec.Advance(old(State()))
    {
      previous := current;
      while true
        invariant Valid() && SkipErrors(State()) == CompilerSpec.Advance(old(State()))
        decreases |State().rest|
      {
        NextToken();
        if !current.kind.Error? {
          break;
        }
        ErrorAtCurrent(current.lexeme);
      }
    }

    /** consume: advance over a token of the expected kind, or report `message`. */
    method Consume(kind: TokenKind, message: string)
      requires Valid()
      modifies this, scanner
      ensures Valid() && State() == CompilerSpec.Consume(old(State()), kind, message)
    {
      if current.kind == kind {
        Advance();
        return;
      }
      ErrorAtCurrent(message);
    }

    /** check: whether the current token has the given kind. */
    predicate Check(kind: TokenKind)
      reads this
    {
      current.kind == kind
    }

    /** match: advance over the current token when it has the given kind, and say whether it did. */
    method Match(kind: TokenKind) returns (matched: bool)
      requires Valid()
      modifies this, scanner
      ensures Valid()
      ensures var r := CompilerSpec.Match(old(State()), kind); matched == r.0 && State() == r.1
    {
      if !Check(kind) {
        return false;
      }
      Advance();
      return true;
    }

    // ----- Emitting code -----

    /** emitByte: write a byte to the chunk with the line of the token just read. */
    method EmitByte(b: byte)
      requires Valid()
      modifies this
      ensures Valid() && State() == CompilerSpec.EmitByte(old(State()), b)
    {
      code := code + [b];
      lines := lines + [previous.line];
    }

    /** emitBytes: two bytes, both with the line of the token just read. */
    method EmitBytes(b1: byte, b2: byte)
      requires Valid()
      modifies this
      ensures Valid() && State() == CompilerSpec.EmitBytes(old(State()), b1, b2)
    {
      EmitByte(b1);
      EmitByte(b2);
    }

    /**
     * emitConstant: add the constant to the pool, then write OP_CONSTANT and its index; an
     * index past 255 is reported and written as 0.
     */
    method EmitConstant(c: Const)
      requires Valid()
      modifies this
      ensures Valid() && State() == CompilerSpec.EmitConstant(old(State()), c)
    {
      var index := |consts|;
      consts := consts + [c];
      if index > 255 {
        Error("Too many constants in one chunk.");
        index := 0;
      }
      EmitBytes(Encode(OpConstant), index as byte);
    }

    /** endCompiler: the closing OP_RETURN. */
    method EndCompiler()
      requires Valid()
      modifies this
      ensures Valid() && State() == CompilerSpec.EndCompiler(old(State()))
    {
      EmitByte(Encode(OpReturn));
    }

    // ----- Expressions -----

    /** number: the literal just read becomes a constant. */
    method Number()
      requires Valid()
      modifies this
      ensures Valid() && State() == NumberLiteral(old(State()))
    {
      EmitConstant(CNumber(previous.lexeme));
    }

    /** string: the string just read, without its quotes, becomes a constant. */
    method StringConstant()
      requires Valid() && previous.kind == String
      modifies this
      ensures Valid() && State() == StringLiteral(old(State()))
    {
      EmitConstant(CString(StringContents(previous.lexeme)));
    }

    /** literal: `false`, `true` or `nil` is one instruction. */
    method Literal()
      requires Valid() && GetRule(previous.kind).prefix == LiteralFn
      modifies this
      ensures Valid() && State() == CompilerSpec.Literal(old(State()))
    {
      PrefixRules(previous.kind);
      if previous.kind == False {
        EmitByte(Encode(OpFalse));
      } else if previous.kind == True {
        EmitByte(Encode(OpTrue));
      } else {
        EmitByte(Encode(OpNil));
      }
    }

    /** grouping: the inner expression, then the closing parenthesis. */
    method Grouping()
      requires Valid()
      modifies this, scanner
      ensures Valid() && State() == CompilerSpec.Grouping(old(State()))
      decreases |State().rest| + 1, 1
    {
      Expression();
      Consume(RightParen, "Expect ')' after expression.");
    }

    /** unary: the operand at unary precedence, then the operator's instruction. */
    method Unary()
      requires Valid()
      modifies this, scanner
      ensures Valid() && State() == CompilerSpec.Unary(old(State()))
      decreases |State().rest| + 1, 1
    {
      var op := previous.kind;
      ParsePrecedence(PREC_UNARY);
      if op == Minus {
        EmitByte(Encode(OpNegate));
      } else if op == Bang {
        EmitByte(Encode(OpNot));
      }
    }

    /** binary: the right operand one level above the operator, then its instruction. */
    method Binary()
      requires Valid() && IsBinaryOperator(previous.kind)
      modifies this, scanner
      ensures Valid() && State() == CompilerSpec.Binary(old(State()))
      decreases |State().rest| + 1, 1
    {
      var op := previous.kind;
      ParsePrecedence(GetRule(op).precedence + 1);
      EmitByte(Encode(BinaryOp(op)));
    }

    /** The call through the prefix entry of the rules table for the token just read. */
    method CallPrefix()
      requires Valid() && GetRule(previous.kind).prefix != NoPrefix
      modifies this, scanner
      ensures Valid() && State() == Prefix(old(State()))
      decreases |State().rest| + 1, 2
    {
      match GetRule(previous.kind).prefix
      case GroupingFn => Grouping();
      case UnaryFn => Unary();
      case NumberFn => Number();
      case StringFn => PrefixRules(previous.kind); StringConstant();
      case LiteralFn => Literal();
    }

    /** expression: an expression at the lowest precedence. */
    method Expression()
      requires Valid()
      modifies this, scanner
      ensures Valid() && State() == CompilerSpec.Expression(old(State()))
      decreases |State().rest|, 4
    {
      ParsePrecedence(PREC_ASSIGNMENT);
    }

    /**
     * parsePrecedence: read a token and run its prefix rule, then run infix rules for as
     * long as the current token binds at least as tightly as `prec`.
     */
    method ParsePrecedence(prec: Precedence)
      requires Valid() && prec >= PREC_ASSIGNMENT
      modifies this, scanner
      ensures Valid() && State() == CompilerSpec.ParsePrecedence(old(State()), prec)
      decreases |State().rest|, 3
    {
      Advance();
      if GetRule(previous.kind).prefix == NoPrefix {
        Error("Expect expression.");
        return;
      }
      CallPrefix();
      InfixRules(prec);
    }

    /**
     * The loop of parsePrecedence: while the current token binds at least as tightly as
     * `prec`, read it and run its infix rule, which is `binary` for every such token.
     */
    method InfixRules(prec: Precedence)
      requires Valid() && prec >= PREC_ASSIGNMENT
      modifies this, scanner
      ensures Valid() && State() == InfixLoop(old(State()), prec)
      decreases |State().rest|, 4
    {
      while prec <= GetRule(current.kind).precedence
        invariant Valid() && InfixLoop(State(), prec) == InfixLoop(old(State()), prec)
        invariant |State().rest| <= |old(State()).rest|
        decreases |State().rest|
      {
        Advance();
        Binary();
      }
    }

    // ----- Statements -----

    /** printStatement, after `print`: the expression, `;`, then OP_PRINT. */
    method PrintStatement()
      requires Valid()
      modifies this, scanner
      ensures Valid() && State() == CompilerSpec.PrintStatement(old(State()))
    {
      Expression();
      Consume(Semicolon, "Expect ';' after value.");
      EmitByte(Encode(OpPrint));
    }

    /** expressionStatement: the expression, `;`, then OP_POP. */
    method ExpressionStatement()
      requires Valid()
      modifies this, scanner
      ensures Valid() && State() == CompilerSpec.ExpressionStatement(old(State()))
    {
      Expression();
      Consume(Semicolon, "Expect ';' after value.");
      EmitByte(Encode(OpPop));
    }

    /** statement: a print statement when it starts with `print`, else an expression statement. */
    method Statement()
      requires Valid()
      modifies this, scanner
      ensures Valid() && State() == CompilerSpec.Statement(old(State()))
    {
      var isPrint := Match(Print);
      if isPrint {
        PrintStatement();
      } else {
        ExpressionStatement();
      }
    }

    /** synchronize: leave panic mode and skip to the next statement boundary. */
    method Synchronize()
      requires Valid()
      modifies this, scanner
      ensures Valid() && State() == CompilerSpec.Synchronize(old(State()))
    {
      panicMode := false;
      while current.kind != Eof
        invariant Valid() && SkipToSyncPoint(State()) == CompilerSpec.Synchronize(old(State()))
        decreases |State().rest|
      {
        if previous.kind == Semicolon {
          return;
        }
        if StartsStatement(current.kind) {
          return;
        }
        Advance();
      }
    }

    /** declaration: a statement, then recovery if it left the parser in panic mode. */
    method Declaration()
      requires Valid()
      modifies this, scanner
      ensures Valid() && State() == CompilerSpec.Declaration(old(State()))
    {
      Statement();
      if panicMode {
        Synchronize();
      }
    }
  }

  /**
   * compile: scan `source`, compile declarations up to the end and close with OP_RETURN,
   * appending to a chunk that holds `code`, `lines` and `consts`. The chunk afterwards,
   * the diagnostics and the verdict are those of the functional compiler over the
   * scanner's tokens.
   */
  method CompileSource(source: seq<char>, code: seq<byte>, lines: seq<int>, consts: seq<Const>)
    returns (ok: bool, chunkCode: seq<byte>, chunkLines: seq<int>, chunkConsts: seq<Const>, errors: seq<Diagnostic>)
    requires NoNul(source) && |code| == |lines|
    ensures StreamOk(TokensFrom(source, 0, 1))
    ensures var r := CompilerSpec.Compile(TokensFrom(source, 0, 1), code, lines, consts);
            && ok == !r.hadError && errors == r.errors
            && chunkCode == r.code && chunkLines == r.lines && chunkConsts == r.consts
  {
    ScannedStreamOk(source, 0, 1);
    var scanner := new Scanner(source);
    var parser := new Parser(scanner, code, lines, consts);
    parser.Advance();
    ghost var primed := parser.State();
    var atEnd := parser.Match(Eof);
    while !atEnd
      invariant parser.scanner == scanner && parser.Valid()
      invariant !atEnd ==> parser.current.kind != Eof
      invariant atEnd ==> parser.State() == Declarations(primed)
      invariant !atEnd ==> Declarations(parser.State()) == Declarations(primed)
      decreases if atEnd then 0 else |parser.State().rest| + 1
    {
      parser.Declaration();
      atEnd := parser.Match(Eof);
    }
    parser.EndCompiler();
    return !parser.hadError, parser.code, parser.lines, parser.consts, parser.errors;
  }
}
