/**
 * The pull-based lexer. The source is a NUL-free character sequence (a C string without
 * its terminator), so "at end" is the cursor reaching its length. The pure functions
 * below say where each lexeme ends; the `Scanner` class moves its cursor with loops and
 * is proved to stop exactly there.
 */
module Scanning {

  datatype TokenKind =
    // Single-character tokens.
    | LeftParen | RightParen | LeftBrace | RightBrace
    | Comma | Dot | Minus | Plus | Semicolon | Slash | Star
    // One- or two-character tokens.
    | Bang | BangEqual | Equal | EqualEqual
    | Greater | GreaterEqual | Less | LessEqual
    // Literals.
    | Identifier | String | Number
    // Keywords.
    | And | Class | Else | False | For | Fun | If | Nil | Or
    | Print | Return | Super | This | True | Var | While
    | Error | Eof

  /**
   * A token: its kind, its text and the line it ends on. The text of an error token is
   * its message; every other token's text is a slice of the source.
   */
  datatype Token = Token(kind: TokenKind, lexeme: string, line: nat)

  // ----- Characters -----

  /** The source has no NUL, which C would read as the end of input. */
  predicate NoNul(s: seq<char>)
  {
    forall i :: 0 <= i < |s| ==> s[i] != '\0'
  }

  /** `isdigit` in the C locale. */
  predicate IsDigit(c: char)
  {
    '0' <= c <= '9'
  }

  /** `isalpha` in the C locale: ASCII letters only, so no underscore. */
  predicate IsAlpha(c: char)
  {
    ('a' <= c <= 'z') || ('A' <= c <= 'Z')
  }

  /** The characters skipWhitespace steps over one at a time. */
  predicate IsBlank(c: char)
  {
    c == ' ' || c == '\r' || c == '\t' || c == '\n'
  }

  /** The character at `i`, or the terminating NUL past the end. */
  function Peek(s: seq<char>, i: nat): char
  {
    if i < |s| then s[i] else '\0'
  }

  /** The number of newlines in `s[a..b]`. */
  function NewlinesIn(s: seq<char>, a: nat, b: nat): nat
    requires a <= b <= |s|
    decreases b - a
  {
    if a == b then 0 else NewlinesIn(s, a, b - 1) + (if s[b - 1] == '\n' then 1 else 0)
  }

  /** Counting newlines over adjacent ranges adds up. */
  lemma {:induction false} NewlinesSplit(s: seq<char>, a: nat, b: nat, c: nat)
    requires a <= b <= c <= |s|
    ensures NewlinesIn(s, a, c) == NewlinesIn(s, a, b) + NewlinesIn(s, b, c)
    decreases c - b
  {
    if b < c {
      NewlinesSplit(s, a, b, c - 1);
    }
  }

  /** A range with no newline character counts none. */
  lemma {:induction false} NoNewlines(s: seq<char>, a: nat, b: nat)
    requires a <= b <= |s| && forall k :: a <= k < b ==> s[k] != '\n'
    ensures NewlinesIn(s, a, b) == 0
    decreases b - a
  {
    if a < b {
      NoNewlines(s, a, b - 1);
    }
  }

  // ----- Where lexemes end -----

  /** A `//` comment runs up to, not including, the next newline or the end. */
  function CommentEnd(s: seq<char>, i: nat): (j: nat)
    requires i <= |s|
    ensures i <= j <= |s| && (j < |s| ==> s[j] == '\n')
    ensures forall k :: i <= k < j ==> s[k] != '\n'
    decreases |s| - i
  {
    if i == |s| || s[i] == '\n' then i else CommentEnd(s, i + 1)
  }

  /** skipWhitespace: blanks, newlines and `//` comments, repeatedly. */
  function SkipEnd(s: seq<char>, i: nat): (j: nat)
    requires i <= |s|
    ensures i <= j <= |s|
    ensures j < |s| ==> !IsBlank(s[j]) && !(s[j] == '/' && Peek(s, j + 1) == '/')
    decreases |s| - i
  {
    if i == |s| then i
    else if IsBlank(s[i]) then SkipEnd(s, i + 1)
    else if s[i] == '/' && Peek(s, i + 1) == '/' then SkipEnd(s, CommentEnd(s, i))
    else i
  }

  /** The end of the run of letters and digits starting at `i`. */
  function WordEnd(s: seq<char>, i: nat): (j: nat)
    requires i <= |s|
    ensures i <= j <= |s| && !IsAlpha(Peek(s, j)) && !IsDigit(Peek(s, j))
    ensures forall k :: i <= k < j ==> IsAlpha(s[k]) || IsDigit(s[k])
    decreases |s| - i
  {
    if i < |s| && (IsAlpha(s[i]) || IsDigit(s[i])) then WordEnd(s, i + 1) else i
  }

  /** The end of the run of digits starting at `i`. */
  function DigitsEnd(s: seq<char>, i: nat): (j: nat)
    requires i <= |s|
    ensures i <= j <= |s| && !IsDigit(Peek(s, j))
    ensures forall k :: i <= k < j ==> IsDigit(s[k])
    decreases |s| - i
  {
    if i < |s| && IsDigit(s[i]) then DigitsEnd(s, i + 1) else i
  }

  /**
   * The end of a number whose first digit is just before `i`: the digits, then a `.`
   * and more digits only if a digit follows the `.`.
   */
  function NumberEnd(s: seq<char>, i: nat): (j: nat)
    requires i <= |s|
    ensures i <= j <= |s| && !IsDigit(Peek(s, j))
    ensures forall k :: i <= k < j ==> IsDigit(s[k]) || s[k] == '.'
  {
    var j := DigitsEnd(s, i);
    if Peek(s, j) == '.' && IsDigit(Peek(s, j + 1)) then DigitsEnd(s, j + 1) else j
  }

  /** The position of the closing quote of a string whose opening quote is before `i`, or the end. */
  function StringEnd(s: seq<char>, i: nat): (j: nat)
    requires i <= |s|
    ensures i <= j <= |s| && (j < |s| ==> s[j] == '"')
    ensures forall k :: i <= k < j ==> s[k] != '"'
    decreases |s| - i
  {
    if i == |s| || s[i] == '"' then i else StringEnd(s, i + 1)
  }

  // ----- Keywords -----

  /** checkKeyword: the keyword when the lexeme is exactly its prefix plus `rest`. */
  function CheckKeyword(lexeme: string, start: nat, rest: string, kind: TokenKind): TokenKind
    requires start <= |lexeme|
  {
    if |lexeme| == start + |rest| && lexeme[start..] == rest then kind else Identifier
  }

  /** The keyword trie of createIdentifierOrKeywordToken, branching on the first letters. */
  function IdentifierKind(lexeme: string): TokenKind
    requires |lexeme| >= 1
  {
    match lexeme[0]
    case 'a' => CheckKeyword(lexeme, 1, "nd", And)
    case 'c' => CheckKeyword(lexeme, 1, "lass", Class)
    case 'e' => CheckKeyword(lexeme, 1, "lse", Else)
    case 'f' =>
      if |lexeme| > 1 then
        match lexeme[1]
        case 'a' => CheckKeyword(lexeme, 2, "lse", False)
        case 'o' => CheckKeyword(lexeme, 2, "r", For)
        case 'u' => CheckKeyword(lexeme, 2, "n", Fun)
        case _ => Identifier
      else Identifier
    case 'i' => CheckKeyword(lexeme, 1, "f", If)
    case 'n' => CheckKeyword(lexeme, 1, "il", Nil)
    case 'o' => CheckKeyword(lexeme, 1, "r", Or)
    case 'p' => CheckKeyword(lexeme, 1, "rint", Print)
    case 'r' => CheckKeyword(lexeme, 1, "eturn", Return)
    case 's' => CheckKeyword(lexeme, 1, "uper", Super)
    case 't' =>
      if |lexeme| > 1 then
        match lexeme[1]
        case 'h' => CheckKeyword(lexeme, 2, "is", This)
        case 'r' => CheckKeyword(lexeme, 2, "ue", True)
        case _ => Identifier
      else Identifier
    case 'v' => CheckKeyword(lexeme, 1, "ar", Var)
    case 'w' => CheckKeyword(lexeme, 1, "hile", While)
    case _ => Identifier
  }

  /** The sixteen keyword kinds. */
  predicate IsKeyword(k: TokenKind)
  {
    k.And? || k.Class? || k.Else? || k.False? || k.For? || k.Fun? || k.If? || k.Nil?
    || k.Or? || k.Print? || k.Return? || k.Super? || k.This? || k.True? || k.Var? || k.While?
  }

  /** The reserved word spelling each keyword kind. */
  function KeywordText(k: TokenKind): string
    requires IsKeyword(k)
  {
    match k
    case And => "and"
    case Class => "class"
    case Else => "else"
    case False => "false"
    case For => "for"
    case Fun => "fun"
    case If => "if"
    case Nil => "nil"
    case Or => "or"
    case Print => "print"
    case Return => "return"
    case Super => "super"
    case This => "this"
    case True => "true"
    case Var => "var"
    case While => "while"
  }

  // ----- One token -----

  /** The kind of a token made of one character that never starts a longer token. */
  function SingleKind(c: char): (k: TokenKind)
  {
    match c
    case '(' => LeftParen
    case ')' => RightParen
    case '{' => LeftBrace
    case '}' => RightBrace
    case ',' => Comma
    case '.' => Dot
    case ';' => Semicolon
    case '+' => Plus
    case '-' => Minus
    case '*' => Star
    case '/' => Slash
    case '!' => Bang
    case '=' => Equal
    case '>' => Greater
    case '<' => Less
    case _ => Error
  }

  /** The two-character kind of `!=`, `==`, `>=` and `<=`, by first character. */
  function PairedKind(c: char): TokenKind
  {
    match c
    case '!' => BangEqual
    case '=' => EqualEqual
    case '>' => GreaterEqual
    case '<' => LessEqual
    case _ => Error
  }

  predicate TakesEqual(c: char)
  {
    c == '!' || c == '=' || c == '>' || c == '<'
  }

  /** The result of one scan: the token, where its lexeme starts, and the new cursor and line. */
  datatype Scanned = Scanned(token: Token, start: nat, next: nat, line: nat)

  /** scanToken as a function of the source, the cursor and the current line. */
  function Scan(s: seq<char>, i: nat, line: nat): (r: Scanned)
    requires i <= |s|
    ensures i <= r.start <= r.next <= |s|
    ensures r.token.kind == Eof <==> r.start == |s|
    ensures r.token.kind != Eof ==> r.start < r.next
  {
    var st := SkipEnd(s, i);
    var ln := line + NewlinesIn(s, i, st);
    if st == |s| then Scanned(Token(Eof, "", ln), st, st, ln) else ScanAt(s, st, ln)
  }

  /** The token whose first character is at `st`, on line `ln`. */
  function ScanAt(s: seq<char>, st: nat, ln: nat): (r: Scanned)
    requires st < |s|
    ensures r.start == st < r.next <= |s| && r.token.kind != Eof
  {
    if IsAlpha(s[st]) then
      var e := WordEnd(s, st + 1);
      Scanned(Token(IdentifierKind(s[st..e]), s[st..e], ln), st, e, ln)
    else if IsDigit(s[st]) then
      var e := NumberEnd(s, st + 1);
      Scanned(Token(Number, s[st..e], ln), st, e, ln)
    else if s[st] == '"' then
      var e := StringEnd(s, st + 1);
      var ln' := ln + NewlinesIn(s, st + 1, e);
      if e == |s| then Scanned(Token(Error, "Unterminated string.", ln'), st, e, ln')
      else Scanned(Token(String, s[st..e + 1], ln'), st, e + 1, ln')
    else ScanPunct(s, st, ln)
  }

  /** A token of one or two punctuation characters, or an unexpected character. */
  function ScanPunct(s: seq<char>, st: nat, ln: nat): (r: Scanned)
    requires st < |s|
    ensures r.start == st < r.next <= st + 2 && r.next <= |s| && r.line == ln
    ensures r.token.kind != Eof && r.token.line == ln
  {
    if TakesEqual(s[st]) && Peek(s, st + 1) == '=' then
      Scanned(Token(PairedKind(s[st]), s[st..st + 2], ln), st, st + 2, ln)
    else if SingleKind(s[st]) != Error then
      Scanned(Token(SingleKind(s[st]), s[st..st + 1], ln), st, st + 1, ln)
    else
      Scanned(Token(Error, "Unexpected character.", ln), st, st + 1, ln)
  }

  /** The tokens scanned from cursor `i` on line `line`, up to and including the end-of-file token. */
  function TokensFrom(s: seq<char>, i: nat, line: nat): (ts: seq<Token>)
    requires i <= |s|
    ensures |ts| >= 1
    decreases |s| - i
  {
    var r := Scan(s, i, line);
    if r.token.kind == Eof then [r.token]
    else
      [r.token] + TokensFrom(s, r.next, r.line)
  }

  /** A stream ends with the end-of-file token and holds no other. */
  predicate ValidStream(ts: seq<Token>)
  {
    |ts| >= 1 && ts[|ts| - 1].kind == Eof && forall k :: 0 <= k < |ts| - 1 ==> ts[k].kind != Eof
  }

  // ----- What a scan promises -----

  /** checkKeyword accepts exactly the lexeme made of the letters already read plus `rest`. */
  lemma CheckKeywordMeans(lexeme: string, start: nat, rest: string, kind: TokenKind)
    requires start <= |lexeme| && kind != Identifier
    ensures CheckKeyword(lexeme, start, rest, kind) == kind <==> lexeme == lexeme[..start] + rest
    ensures CheckKeyword(lexeme, start, rest, kind) != kind ==> CheckKeyword(lexeme, start, rest, kind) == Identifier
  {
    assert lexeme == lexeme[..start] + lexeme[start..];
    if lexeme == lexeme[..start] + rest {
      assert lexeme[start..] == rest;
    }
  }

  /** What the trie may answer for a lexeme: an identifier, or a keyword spelled exactly so. */
  predicate TrieAnswer(lexeme: string, kind: TokenKind)
  {
    kind == Identifier || (IsKeyword(kind) && lexeme == KeywordText(kind))
  }

  /** One leaf of the trie: a checkKeyword whose prefix and rest spell keyword `kind`. */
  lemma KeywordLeaf(lexeme: string, prefix: string, rest: string, kind: TokenKind)
    requires |prefix| <= |lexeme| && lexeme[..|prefix|] == prefix
    requires IsKeyword(kind) && prefix + rest == KeywordText(kind)
    ensures TrieAnswer(lexeme, CheckKeyword(lexeme, |prefix|, rest, kind))
  {
    CheckKeywordMeans(lexeme, |prefix|, rest, kind);
  }

  /** The leaves reached by the first letter alone, from 'a' to 'n'. */
  lemma TrieFirstHalf(lexeme: string)
    requires |lexeme| >= 1 && lexeme[0] in "acein"
    ensures TrieAnswer(lexeme, IdentifierKind(lexeme))
  {
    var c := lexeme[0];
    assert lexeme[..1] == [c];
    if c == 'a' {
      KeywordLeaf(lexeme, "a", "nd", And);
    } else if c == 'c' {
      KeywordLeaf(lexeme, "c", "lass", Class);
    } else if c == 'e' {
      KeywordLeaf(lexeme, "e", "lse", Else);
    } else if c == 'i' {
      KeywordLeaf(lexeme, "i", "f", If);
    } else {
      KeywordLeaf(lexeme, "n", "il", Nil);
    }
  }

  /** The leaves reached by the first letter alone, from 'o' to 'w'. */
  lemma TrieSecondHalf(lexeme: string)
    requires |lexeme| >= 1 && lexeme[0] in "oprsvw"
    ensures TrieAnswer(lexeme, IdentifierKind(lexeme))
  {
    var c := lexeme[0];
    assert lexeme[..1] == [c];
    if c == 'o' {
      KeywordLeaf(lexeme, "o", "r", Or);
    } else if c == 'p' {
      KeywordLeaf(lexeme, "p", "rint", Print);
    } else if c == 'r' {
      KeywordLeaf(lexeme, "r", "eturn", Return);
    } else if c == 's' {
      KeywordLeaf(lexeme, "s", "uper", Super);
    } else if c == 'v' {
      KeywordLeaf(lexeme, "v", "ar", Var);
    } else {
      KeywordLeaf(lexeme, "w", "hile", While);
    }
  }

  /** The leaves under 'f' and 't', which branch again on the second letter. */
  lemma TrieTwoLetters(lexeme: string)
    requires |lexeme| >= 2 && lexeme[0] in "ft"
    ensures TrieAnswer(lexeme, IdentifierKind(lexeme))
  {
    var c, d := lexeme[0], lexeme[1];
    assert lexeme[..2] == [c, d];
    if c == 'f' && d == 'a' {
      KeywordLeaf(lexeme, "fa", "lse", False);
    } else if c == 'f' && d == 'o' {
      KeywordLeaf(lexeme, "fo", "r", For);
    } else if c == 'f' && d == 'u' {
      KeywordLeaf(lexeme, "fu", "n", Fun);
    } else if c == 't' && d == 'h' {
      KeywordLeaf(lexeme, "th", "is", This);
    } else if c == 't' && d == 'r' {
      KeywordLeaf(lexeme, "tr", "ue", True);
    }
  }

  /** The trie yields a keyword only for that keyword's exact spelling. */
  lemma TrieOnlyKeywords(lexeme: string)
    requires |lexeme| >= 1
    ensures IdentifierKind(lexeme) == Identifier || IsKeyword(IdentifierKind(lexeme))
    ensures IdentifierKind(lexeme) != Identifier ==> lexeme == KeywordText(IdentifierKind(lexeme))
  {
    if lexeme[0] in "acein" {
      TrieFirstHalf(lexeme);
    } else if lexeme[0] in "oprsvw" {
      TrieSecondHalf(lexeme);
    } else if lexeme[0] in "ft" && |lexeme| >= 2 {
      TrieTwoLetters(lexeme);
    }
  }

  /** The trie recognises every reserved word. */
  lemma TrieAcceptsKeywords(k: TokenKind)
    requires IsKeyword(k)
    ensures IdentifierKind(KeywordText(k)) == k
  {
    if k.And? || k.Class? || k.Else? || k.If? || k.Nil? || k.Or? || k.Print? || k.Return? {
      AcceptsFirstHalf(k);
    } else {
      AcceptsSecondHalf(k);
    }
  }

  /** checkKeyword accepts its own keyword spelled out in full. */
  lemma LeafAccepts(prefix: string, rest: string, kind: TokenKind)
    ensures CheckKeyword(prefix + rest, |prefix|, rest, kind) == kind
  {
    assert (prefix + rest)[|prefix|..] == rest;
  }

  /** The trie recognises the keywords and, class, else, if, nil, or, print and return. */
  lemma AcceptsFirstHalf(k: TokenKind)
    requires k.And? || k.Class? || k.Else? || k.If? || k.Nil? || k.Or? || k.Print? || k.Return?
    ensures IdentifierKind(KeywordText(k)) == k
  {
    match k
    case And => LeafAccepts("a", "nd", And);
    case Class => LeafAccepts("c", "lass", Class);
    case Else => LeafAccepts("e", "lse", Else);
    case If => LeafAccepts("i", "f", If);
    case Nil => LeafAccepts("n", "il", Nil);
    case Or => LeafAccepts("o", "r", Or);
    case Print => LeafAccepts("p", "rint", Print);
    case Return => LeafAccepts("r", "eturn", Return);
  }

  /** The trie recognises the keywords false, for, fun, super, this, true, var and while. */
  lemma AcceptsSecondHalf(k: TokenKind)
    requires k.False? || k.For? || k.Fun? || k.Super? || k.This? || k.True? || k.Var? || k.While?
    ensures IdentifierKind(KeywordText(k)) == k
  {
    match k
    case False => LeafAccepts("fa", "lse", False);
    case For => LeafAccepts("fo", "r", For);
    case Fun => LeafAccepts("fu", "n", Fun);
    case Super => LeafAccepts("s", "uper", Super);
    case This => LeafAccepts("th", "is", This);
    case True => LeafAccepts("tr", "ue", True);
    case Var => LeafAccepts("v", "ar", Var);
    case While => LeafAccepts("w", "hile", While);
  }

  /**
   * The keyword rule: a word is classified as keyword `k` exactly when it is spelled
   * `KeywordText(k)`, and as an identifier when it spells no reserved word.
   */
  lemma KeywordsExactly(lexeme: string, k: TokenKind)
    requires |lexeme| >= 1 && IsKeyword(k)
    ensures IdentifierKind(lexeme) == k <==> lexeme == KeywordText(k)
    ensures IdentifierKind(lexeme) == Identifier <==> forall j :: IsKeyword(j) ==> lexeme != KeywordText(j)
  {
    TrieOnlyKeywords(lexeme);
    TrieAcceptsKeywords(k);
    if IdentifierKind(lexeme) != Identifier {
      TrieAcceptsKeywords(IdentifierKind(lexeme));
    }
    forall j | IsKeyword(j) && lexeme == KeywordText(j)
      ensures IdentifierKind(lexeme) == j
    {
      TrieAcceptsKeywords(j);
    }
  }

  /** Prefixes and extensions of keywords are identifiers. */
  lemma NearKeywordsAreIdentifiers()
    ensures IdentifierKind("f") == Identifier
    ensures IdentifierKind("fo") == Identifier
    ensures IdentifierKind("classy") == Identifier
    ensures IdentifierKind("myVar") == Identifier
  {
    TrieOnlyKeywords("f");
    TrieOnlyKeywords("fo");
    TrieOnlyKeywords("classy");
    TrieOnlyKeywords("myVar");
  }

  /**
   * Line counting: the line after a scan is the line before plus every newline consumed,
   * whether skipped between tokens or inside a string, and the token carries that line.
   */
  lemma ScanCountsLines(s: seq<char>, i: nat, line: nat)
    requires i <= |s|
    ensures Scan(s, i, line).line == line + NewlinesIn(s, i, Scan(s, i, line).next)
    ensures Scan(s, i, line).token.line == Scan(s, i, line).line
  {
    var st := SkipEnd(s, i);
    if st < |s| {
      var ln := line + NewlinesIn(s, i, st);
      ScanAtCountsLines(s, st, ln);
      NewlinesSplit(s, i, st, ScanAt(s, st, ln).next);
    }
  }

  /** Line counting from the first character of a token. */
  lemma ScanAtCountsLines(s: seq<char>, st: nat, ln: nat)
    requires st < |s| && !IsBlank(s[st])
    ensures ScanAt(s, st, ln).line == ln + NewlinesIn(s, st, ScanAt(s, st, ln).next)
    ensures ScanAt(s, st, ln).token.line == ScanAt(s, st, ln).line
  {
    if s[st] == '"' {
      StringCountsLines(s, st, ln);
    } else if IsAlpha(s[st]) || IsDigit(s[st]) {
      var r := ScanAt(s, st, ln);
      NoNewlines(s, st, r.next);
    } else {
      var r := ScanPunct(s, st, ln);
      NoNewlines(s, st, r.next);
    }
  }

  /** Line counting over a string literal: the newlines inside it are counted. */
  lemma StringCountsLines(s: seq<char>, st: nat, ln: nat)
    requires st < |s| && s[st] == '"'
    ensures ScanAt(s, st, ln).line == ln + NewlinesIn(s, st, ScanAt(s, st, ln).next)
    ensures ScanAt(s, st, ln).token.line == ScanAt(s, st, ln).line
  {
    var e := StringEnd(s, st + 1);
    QuotedExtent(s, st, ln);
    NoNewlines(s, st, st + 1);
    NewlinesSplit(s, st, st + 1, e);
    if e < |s| {
      NoNewlines(s, e, e + 1);
      NewlinesSplit(s, st, e, e + 1);
    }
  }

  /** Where a string token ends and the line it ends on, read off `ScanAt`. */
  lemma QuotedExtent(s: seq<char>, st: nat, ln: nat)
    requires st < |s| && s[st] == '"'
    ensures var r := ScanAt(s, st, ln);
            var e := StringEnd(s, st + 1);
            && r.line == ln + NewlinesIn(s, st + 1, e) && r.token.line == r.line
            && r.next == if e < |s| then e + 1 else e
  {
  }

  /**
   * Every token but an error token has the source slice from its start to the new cursor
   * as its text; an error token has one of the two messages.
   */
  lemma ScanLexemeIsSlice(s: seq<char>, i: nat, line: nat)
    requires i <= |s|
    ensures var r := Scan(s, i, line);
            r.token.kind != Error ==> r.token.lexeme == s[r.start..r.next]
    ensures var r := Scan(s, i, line);
            r.token.kind == Error ==>
              r.token.lexeme == "Unterminated string." || r.token.lexeme == "Unexpected character."
  {
    var r := Scan(s, i, line);
    if r.token.kind != Error && r.token.kind.Identifier? {
      assert IdentifierKind(r.token.lexeme) != Error by {
        TrieOnlyKeywords(r.token.lexeme);
      }
    }
  }

  /**
   * The end: once only blanks and comments remain the scan returns an empty end-of-file
   * token without moving past them, and scanning again returns the same.
   */
  lemma ScanEofSticky(s: seq<char>, i: nat, line: nat)
    requires i <= |s|
    ensures var r := Scan(s, i, line);
            r.token.kind == Eof ==> r.token.lexeme == "" && r.next == |s| && Scan(s, r.next, r.line) == r
  {
  }

  /** Every scan that finds a token consumes at least one character of it. */
  lemma ScanAdvances(s: seq<char>, i: nat, line: nat)
    requires i <= |s|
    ensures var r := Scan(s, i, line);
            r.token.kind != Eof ==> r.start < r.next && r.start == SkipEnd(s, i)
  {
  }

  /**
   * Words: a letter starts a maximal run of letters and digits, and the run is a keyword
   * token exactly when it spells that keyword.
   */
  lemma ScanWord(s: seq<char>, i: nat, line: nat, k: TokenKind)
    requires i <= |s| && IsKeyword(k)
    requires SkipEnd(s, i) < |s| && IsAlpha(s[SkipEnd(s, i)])
    ensures var r := Scan(s, i, line);
            && (forall j :: r.start <= j < r.next ==> IsAlpha(s[j]) || IsDigit(s[j]))
            && !IsAlpha(Peek(s, r.next)) && !IsDigit(Peek(s, r.next))
            && (r.token.kind == k <==> s[r.start..r.next] == KeywordText(k))
            && (r.token.kind == Identifier || IsKeyword(r.token.kind))
  {
    var r := Scan(s, i, line);
    KeywordsExactly(s[r.start..r.next], k);
    TrieOnlyKeywords(s[r.start..r.next]);
  }

  /**
   * Numbers: a digit starts a maximal run of digits, extended by a dot and more digits only
   * when a digit follows the dot; a dot with no digit after it is left for the next token.
   */
  lemma ScanNumber(s: seq<char>, i: nat, line: nat)
    requires i <= |s|
    requires SkipEnd(s, i) < |s| && IsDigit(s[SkipEnd(s, i)])
    ensures var r := Scan(s, i, line);
            var d := DigitsEnd(s, r.start + 1);
            && r.token.kind == Number
            && (forall j :: r.start <= j < d ==> IsDigit(s[j]))
            && !IsDigit(Peek(s, r.next))
            && (if Peek(s, d) == '.' && IsDigit(Peek(s, d + 1))
                then d + 1 < r.next && forall j :: d < j < r.next ==> IsDigit(s[j])
                else r.next == d)
  {
  }

  /**
   * The operators that take `=`: the two-character token exactly when `=` follows at once,
   * otherwise the one-character token.
   */
  lemma ScanOperator(s: seq<char>, i: nat, line: nat)
    requires i <= |s|
    requires SkipEnd(s, i) < |s| && TakesEqual(s[SkipEnd(s, i)])
    ensures var r := Scan(s, i, line);
            var c := s[r.start];
            if Peek(s, r.start + 1) == '='
            then r.token.kind == PairedKind(c) && r.next - r.start == 2 && |r.token.lexeme| == 2
            else r.token.kind == SingleKind(c) && r.next - r.start == 1 && |r.token.lexeme| == 1
  {
  }

  /**
   * Strings: a quoted string's token spans both quotes, so its length is the content's
   * plus two; with no closing quote before the end the token is an error.
   */
  lemma ScanString(s: seq<char>, i: nat, line: nat)
    requires i <= |s|
    requires SkipEnd(s, i) < |s| && s[SkipEnd(s, i)] == '"'
    ensures var r := Scan(s, i, line);
            var close := StringEnd(s, r.start + 1);
            && (forall j :: r.start < j < close ==> s[j] != '"')
            && (close == |s| ==> r.token == Token(Error, "Unterminated string.", r.line) && r.next == |s|)
            && (close < |s| ==>
                  && r.token.kind == String && r.next == close + 1
                  && |r.token.lexeme| == |s[r.start + 1..close]| + 2
                  && r.token.lexeme == ['"'] + s[r.start + 1..close] + ['"'])
  {
    var st := SkipEnd(s, i);
    var close := StringEnd(s, st + 1);
    if close < |s| {
      assert s[st..close + 1] == [s[st]] + s[st + 1..close] + [s[close]];
    }
  }

  /** Any other character is consumed alone and reported as unexpected. */
  lemma ScanUnexpected(s: seq<char>, i: nat, line: nat)
    requires i <= |s|
    requires SkipEnd(s, i) < |s|
    requires var c := s[SkipEnd(s, i)]; !IsAlpha(c) && !IsDigit(c) && c != '"' && SingleKind(c) == Error
    ensures var r := Scan(s, i, line);
            r.token.kind == Error && r.token.lexeme == "Unexpected character." && r.next == r.start + 1
  {
  }

  /** Scanning from any position yields a stream with exactly one end-of-file token, last. */
  lemma {:induction false} TokensFromValid(s: seq<char>, i: nat, line: nat)
    requires i <= |s|
    ensures ValidStream(TokensFrom(s, i, line))
    decreases |s| - i
  {
    var r := Scan(s, i, line);
    if r.token.kind != Eof {
      TokensFromValid(s, r.next, r.line);
      ValidCons(r.token, TokensFrom(s, r.next, r.line));
    }
  }

  /** A token other than end-of-file in front of a stream leaves a stream. */
  lemma ValidCons(t: Token, ts: seq<Token>)
    requires t.kind != Eof && ValidStream(ts)
    ensures ValidStream([t] + ts)
  {
  }

  // ----- The scanner object -----

  /** A scanner: the source, the start of the current lexeme, the cursor and the line. */
  class Scanner {
    const source: seq<char>
    var start: nat
    var current: nat
    var line: nat

    /** The cursor is in range and `line` is one plus the newlines consumed so far. */
    ghost predicate Valid()
      reads this
    {
      start <= current <= |source| && NoNul(source) && line == 1 + NewlinesIn(source, 0, current)
    }

    /** The tokens still to come. */
    ghost function Remaining(): seq<Token>
      reads this
      requires Valid()
    {
      TokensFrom(source, current, line)
    }

    /** initScanner: both pointers at the first character, on line 1. */
    constructor (source: seq<char>)
      requires NoNul(source)
      ensures Valid() && this.source == source
      ensures start == 0 && current == 0 && line == 1
    {
      this.source := source;
      start, current, line := 0, 0, 1;
    }

    /** skipWhitespace: step over blanks, newlines and comments, counting the newlines. */
    method SkipWhitespace()
      requires Valid()
      modifies this
      ensures Valid() && start == old(start)
      ensures current == SkipEnd(source, old(current))
      ensures line == old(line) + NewlinesIn(source, old(current), current)
    {
      ghost var from := current;
      while true
        invariant Valid() && start == old(start) && from <= current
        invariant SkipEnd(source, current) == SkipEnd(source, from)
        decreases |source| - current
      {
        var c := Peek(source, current);
        if c == ' ' || c == '\r' || c == '\t' {
          NewlinesSplit(source, 0, current, current + 1);
          current := current + 1;
        } else if c == '\n' {
          NewlinesSplit(source, 0, current, current + 1);
          line := line + 1;
          current := current + 1;
        } else if c == '/' && Peek(source, current + 1) == '/' {
          SkipComment();
        } else {
          NewlinesSplit(source, 0, from, current);
          return;
        }
      }
    }

    /** The comment loop of skipWhitespace: stop before the newline or at the end. */
    method SkipComment()
      requires Valid()
      modifies this
      ensures Valid() && start == old(start) && line == old(line)
      ensures current == CommentEnd(source, old(current))
    {
      ghost var from := current;
      while Peek(source, current) != '\n' && current < |source|
        invariant from <= current <= |source| && CommentEnd(source, current) == CommentEnd(source, from)
        invariant forall k :: from <= k < current ==> source[k] != '\n'
        invariant start == old(start) && line == old(line)
        decreases |source| - current
      {
        current := current + 1;
      }
      NoNewlines(source, from, current);
      NewlinesSplit(source, 0, from, current);
    }

    /** Consume characters while they are letters or digits. */
    method SkipWord()
      requires Valid()
      modifies this
      ensures Valid() && start == old(start) && line == old(line)
      ensures current == WordEnd(source, old(current))
    {
      ghost var from := current;
      while IsAlpha(Peek(source, current)) || IsDigit(Peek(source, current))
        invariant from <= current <= |source| && WordEnd(source, current) == WordEnd(source, from)
        invariant forall k :: from <= k < current ==> source[k] != '\n'
        invariant start == old(start) && line == old(line)
        decreases |source| - current
      {
        current := current + 1;
      }
      NoNewlines(source, from, current);
      NewlinesSplit(source, 0, from, current);
    }

    /** Consume characters while they are digits. */
    method SkipDigits()
      requires Valid()
      modifies this
      ensures Valid() && start == old(start) && line == old(line)
      ensures current == DigitsEnd(source, old(current))
    {
      ghost var from := current;
      while IsDigit(Peek(source, current))
        invariant from <= current <= |source| && DigitsEnd(source, current) == DigitsEnd(source, from)
        invariant forall k :: from <= k < current ==> source[k] != '\n'
        invariant start == old(start) && line == old(line)
        decreases |source| - current
      {
        current := current + 1;
      }
      NoNewlines(source, from, current);
      NewlinesSplit(source, 0, from, current);
    }

    /** createIdentifierOrKeywordToken: the maximal word, classified by the keyword trie. */
    method IdentifierOrKeyword() returns (token: Token)
      requires Valid() && start < current
      modifies this
      ensures Valid() && start == old(start) && line == old(line)
      ensures current == WordEnd(source, old(current))
      ensures token == Token(IdentifierKind(source[start..current]), source[start..current], line)
    {
      SkipWord();
      token := Token(IdentifierKind(source[start..current]), source[start..current], line);
    }

    /** createNumberToken: digits, then a fraction only when a digit follows the dot. */
    method NumberToken() returns (token: Token)
      requires Valid() && start < current
      modifies this
      ensures Valid() && start == old(start) && line == old(line)
      ensures current == NumberEnd(source, old(current))
      ensures token == Token(Number, source[start..current], line)
    {
      SkipDigits();
      if Peek(source, current) == '.' && IsDigit(Peek(source, current + 1)) {
        assert source[current] != '\n';
        NewlinesSplit(source, 0, current, current + 1);
        current := current + 1;
        SkipDigits();
      }
      token := Token(Number, source[start..current], line);
    }

    /**
     * createStringToken: everything up to the closing quote, counting newlines inside;
     * the token includes both quotes. Without a closing quote, an error token.
     */
    method StringToken() returns (token: Token)
      requires Valid() && start < current
      modifies this
      ensures Valid() && start == old(start)
      ensures line == old(line) + NewlinesIn(source, old(current), StringEnd(source, old(current)))
      ensures StringEnd(source, old(current)) == |source| ==>
                current == |source| && token == Token(Error, "Unterminated string.", line)
      ensures StringEnd(source, old(current)) < |source| ==>
                current == StringEnd(source, old(current)) + 1
                && token == Token(String, source[start..current], line)
    {
      ghost var from := current;
      while Peek(source, current) != '"' && current < |source|
        invariant from <= current <= |source| && StringEnd(source, current) == StringEnd(source, from)
        invariant line == old(line) + NewlinesIn(source, from, current)
        invariant Valid() && start == old(start)
        decreases |source| - current
      {
        if source[current] == '\n' {
          line := line + 1;
        }
        current := current + 1;
      }
      if current == |source| {
        return Token(Error, "Unterminated string.", line);
      }
      assert source[current] != '\n';
      NewlinesSplit(source, 0, current, current + 1);
      current := current + 1;
      token := Token(String, source[start..current], line);
    }

    /** scanToken: skip blanks, then scan one token starting at the first other character. */
    method ScanToken() returns (token: Token)
      requires Valid()
      modifies this
      ensures Valid()
      ensures var r := Scan(source, old(current), old(line));
              token == r.token && start == r.start && current == r.next && line == r.line
    {
      SkipWhitespace();
      start := current;
      if current == |source| {
        return Token(Eof, "", line);
      }
      token := TokenAt();
    }

    /** The dispatch of scanToken on the first character of a lexeme. */
    method TokenAt() returns (token: Token)
      requires Valid() && start == current < |source| && !IsBlank(source[current])
      modifies this
      ensures Valid()
      ensures var r := ScanAt(source, old(current), old(line));
              token == r.token && start == r.start && current == r.next && line == r.line
    {
      var c := source[current];
      NewlinesSplit(source, 0, current, current + 1);
      current := current + 1;
      if IsAlpha(c) {
        token := IdentifierOrKeyword();
      } else if IsDigit(c) {
        token := NumberToken();
      } else if c == '"' {
        token := StringToken();
      } else {
        token := PunctToken();
      }
    }

    /** The switch of scanToken: an operator, with `=` taken when it follows, or an error. */
    method PunctToken() returns (token: Token)
      requires Valid() && current == start + 1 && start < |source| && !IsBlank(source[start])
      modifies this
      ensures Valid()
      ensures var r := ScanPunct(source, old(start), old(line));
              token == r.token && start == r.start && current == r.next && line == r.line
    {
      var c := source[start];
      if TakesEqual(c) && Peek(source, current) == '=' {
        NewlinesSplit(source, 0, current, current + 1);
        current := current + 1;
        token := Token(PairedKind(c), source[start..current], line);
      } else if SingleKind(c) != Error {
        token := Token(SingleKind(c), source[start..current], line);
      } else {
        token := Token(Error, "Unexpected character.", line);
      }
    }
  }
}
