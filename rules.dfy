/**
 * The Pratt parser's rule table: for every token kind, the routine that compiles an
 * expression starting with it (prefix), the routine that compiles an operator between two
 * operands (infix), and the operator's precedence.
 */
module ParseRules {
  import opened Scanning

  /** The precedence levels, lowest first, as the numbers of the C enumeration. */
  type Precedence = p: nat | p <= 11

  const PREC_NONE: Precedence := 0
  const PREC_ASSIGNMENT: Precedence := 1
  const PREC_OR: Precedence := 2
  const PREC_AND: Precedence := 3
  const PREC_EQUALITY: Precedence := 4
  const PREC_COMPARISON: Precedence := 5
  const PREC_TERM: Precedence := 6
  const PREC_FACTOR: Precedence := 7
  const PREC_UNARY: Precedence := 8
  const PREC_CALL: Precedence := 9
  const PREC_PRIMARY: Precedence := 10

  /** The routines a prefix slot may hold; `NoPrefix` is the C null pointer. */
  datatype PrefixFn = NoPrefix | GroupingFn | UnaryFn | NumberFn | StringFn | LiteralFn

  /** The routines an infix slot may hold. */
  datatype InfixFn = NoInfix | BinaryFn

  datatype ParseRule = ParseRule(prefix: PrefixFn, infix: InfixFn, precedence: Precedence)

  /** The binary operator tokens. */
  predicate IsBinaryOperator(k: TokenKind)
  {
    k in {Plus, Minus, Star, Slash, BangEqual, EqualEqual, Greater, GreaterEqual, Less, LessEqual}
  }

  /** getRule: the rule table, entry by entry. */
  function GetRule(k: TokenKind): (rule: ParseRule)
    ensures rule.infix == BinaryFn <==> IsBinaryOperator(k)
    ensures rule.precedence > PREC_NONE <==> rule.infix != NoInfix
    ensures rule.precedence < PREC_UNARY
  {
    match k
    case LeftParen => ParseRule(GroupingFn, NoInfix, PREC_NONE)
    case Plus => ParseRule(NoPrefix, BinaryFn, PREC_TERM)
    case Minus => ParseRule(UnaryFn, BinaryFn, PREC_TERM)
    case Star => ParseRule(NoPrefix, BinaryFn, PREC_FACTOR)
    case Slash => ParseRule(NoPrefix, BinaryFn, PREC_FACTOR)
    case Bang => ParseRule(UnaryFn, NoInfix, PREC_NONE)
    case BangEqual => ParseRule(NoPrefix, BinaryFn, PREC_EQUALITY)
    case EqualEqual => ParseRule(NoPrefix, BinaryFn, PREC_EQUALITY)
    case Greater => ParseRule(NoPrefix, BinaryFn, PREC_COMPARISON)
    case GreaterEqual => ParseRule(NoPrefix, BinaryFn, PREC_COMPARISON)
    case Less => ParseRule(NoPrefix, BinaryFn, PREC_COMPARISON)
    case LessEqual => ParseRule(NoPrefix, BinaryFn, PREC_COMPARISON)
    case False => ParseRule(LiteralFn, NoInfix, PREC_NONE)
    case Nil => ParseRule(LiteralFn, NoInfix, PREC_NONE)
    case True => ParseRule(LiteralFn, NoInfix, PREC_NONE)
    case String => ParseRule(StringFn, NoInfix, PREC_NONE)
    case Number => ParseRule(NumberFn, NoInfix, PREC_NONE)
    case _ => ParseRule(NoPrefix, NoInfix, PREC_NONE)
  }

  /** The tokens that can start an expression, and what compiles each. */
  lemma PrefixRules(k: TokenKind)
    ensures GetRule(k).prefix != NoPrefix <==> k in {LeftParen, Minus, Bang, False, Nil, True, String, Number}
    ensures GetRule(k).prefix == UnaryFn <==> k == Minus || k == Bang
    ensures GetRule(k).prefix == LiteralFn <==> k == False || k == Nil || k == True
    ensures GetRule(k).prefix == StringFn <==> k == String
    ensures GetRule(k).prefix == NumberFn <==> k == Number
    ensures GetRule(k).prefix == GroupingFn <==> k == LeftParen
  {
  }

  /**
   * The binding order of the binary operators: `* /` above `+ -`, above the comparisons,
   * above the equalities; identifiers, the end of input and error tokens have no rule.
   */
  lemma OperatorOrder()
    ensures GetRule(Star).precedence == GetRule(Slash).precedence
    ensures GetRule(Plus).precedence == GetRule(Minus).precedence
    ensures GetRule(Plus).precedence < GetRule(Star).precedence
    ensures forall k :: k in {Less, LessEqual, Greater, GreaterEqual} ==>
              GetRule(BangEqual).precedence < GetRule(k).precedence < GetRule(Plus).precedence
    ensures GetRule(BangEqual).precedence == GetRule(EqualEqual).precedence
    ensures GetRule(Identifier) == GetRule(Eof) == GetRule(Error) == ParseRule(NoPrefix, NoInfix, PREC_NONE)
  {
  }
}
