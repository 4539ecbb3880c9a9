# hydrogen front end in Dafny

This project models the front end of hydrogen, a small bytecode interpreter written in C. It
covers six parts:

- the pull-based **scanner**, which turns source text into tokens;
- the single-pass **compiler**, which combines a Pratt precedence parser with code generation;
- the **chunk**, which holds the instruction bytes, a parallel line table and a constant pool;
- the growable **value array**;
- the open-addressing **hash table** with tombstones and linear probing;
- **string interning**: the FNV-1a hash, copyString and takeString.

The model follows the C code's own shape:

- Code that mutates state step by step is written as classes and loops:
  - `Scanning.Scanner`
  - `Compiler.Parser`
  - `Chunks.Chunk`
  - `Values.ValueArray`
  - `Tables.Table`
  - `Objects.GC`
- Each of those methods is proved against a pure specification function of the old state. The specification functions are:
  - `Scanning.Scan`, `Scanning.TokensFrom`
  - `CompilerSpec.Advance`, `CompilerSpec.ParsePrecedence`, `CompilerSpec.Declarations`, `CompilerSpec.Compile`, …
  - `Tables.Bindings`

The main theorems are about those specification functions:

- **Scanning.** `KeywordsExactly` proves the keyword trie exact, and `ScanCountsLines` proves the line counting correct.
- **Parsing.** `PrattParsing.ParseTree` states the Pratt parser's correctness. Take any well-formed expression tree, written out as tokens and followed by a token that binds more loosely. Then `parsePrecedence` emits exactly the post-order code of that tree (`Expressions.CodeOf`), together with its line table and constant pool.
- **Programs.** `Programs.CompileProgram` lifts this to whole programs of print and expression statements.
- **Tests.** The compiler unit tests are stated in `CompilerTests` for every token stream of the shape each unit test compiles.

## Model

| member | source | states |
|---|---|---|
| Memory.GrowCapacity | src/memory.h:8 | The new capacity exceeds the old and is at least 8. It is exactly 8 below 8 and doubles from 8 on. |
| Values.ValuesEqualByTag | src/value.h:46 | Values of different tags are never equal. nil equals nil. Booleans are equal iff they hold the same truth value. |
| Values.ValuesEqualIsEquivalence | test/value_test.c:42-64 | valuesEqual is reflexive, symmetric and transitive. |
| Values.ValuesEqualStrings | test/value_test.c:61-64 | Two string values are equal iff their character contents are equal, whatever their identity. |
| Values.ValueArray.constructor | src/value.c:6-10 | initValueArray: empty contents, count 0, capacity 0. |
| Values.ValueArray.Grow | src/value.c:12-17 | The capacity becomes GROW_CAPACITY of the old one. Count and contents are kept. |
| Values.ValueArray.Append | src/value.c:19-25 | The contents become old contents + [value] and the count grows by one. The array grows exactly when the old count + 1 exceeds the capacity. |
| Values.ValueArray.Free | src/value.c:27-30 | The array is reset to the empty initial state. |
| Chunks.EncodeInjective | src/chunk.h:28-48 | Distinct opcodes have distinct byte encodings, all below 19. |
| Chunks.Chunk.constructor | src/chunk.c:9 | initChunk: empty code, lines and constant pool, with zero counts and capacities. |
| Chunks.Chunk.Grow | src/chunk.c:18 | Both buffers move to GROW_CAPACITY slots. The written code and lines are kept. |
| Chunks.Chunk.WriteChunk | src/chunk.c:27-34 | The code gets byte b and the line table gets line, at the same index. Count grows by one. Capacity grows exactly when full. Constants are unchanged. |
| Chunks.Chunk.AddConstant | src/chunk.c:37-40 | The value is appended to the pool, and its index (the old pool length) is returned. |
| Chunks.Chunk.Free | src/chunk.c:42-47 | freeChunk returns the chunk and its pool to the empty initial state. |
| Objects.GC.AddObject | src/object.c:16-21 | A new object is pushed at the head of the allocation list. |
| Objects.GC.FreeChars | src/object.c:48 | FREE_ARRAY hands the buffer back: it joins the freed buffers, and the object list is unchanged. |
| Objects.HashString | src/object.c:34-41 | The loop computes the 32-bit FNV-1a hash of the first n characters. |
| Objects.Fnv1aIsFold | src/object.c:34-41 | The recursive FNV-1a definition equals a left fold from the offset basis. |
| Objects.Fnv1aVectors | src/object.c:34-41 | The FNV-1a hash gives the published 32-bit vectors: 0x811c9dc5 for "" and 0xe40c292c for "a". |
| Objects.MatchesValid | src/table.c:125-145 | For a well-formed string with the hash of chars, the length/hash/bytes test of tableFindString holds iff its contents equal chars. |
| Objects.InternedEqualityIsIdentity | test/object_test.c:21-35 | Among interned strings, equal contents means the same object. |
| Objects.AllocateString | src/object.c:23-32 | A fresh string with the given buffer, length and hash is allocated. It is put first in the object list and bound to nil in the intern table. |
| Objects.InternNew | src/object.c:55-66 | Adding a string whose contents are not yet interned keeps the pool unique by contents and keeps every pooled string on the object list. |
| Objects.MissMeansAbsent | src/object.c:55-66 | If no pooled key matches the chars, no interned string has that content. |
| Objects.CopyString | src/object.c:55-66 | The result holds the given characters, the pool stays interned and no buffer is freed. On a hit it is the existing string, and nothing is allocated. On a miss it is a fresh string with a fresh buffer, pushed on the object list and added to the pool. |
| Objects.TakeString | src/object.c:43-53 | Like CopyString, except that the caller's buffer is handed over: on a miss the new string adopts it, and on a hit it is freed. No other buffer is freed. |
| Tables.Home | src/table.c:22-44 | hash mod capacity is a slot index. |
| Tables.Dist | src/table.c:22-44 | The probe distance from home to slot i is a d below the capacity whose probe lands on i, and no other d below the capacity does. |
| Tables.DistOfProbe | src/table.c:22-44 | The probe distance of the d-th probe is d. |
| Tables.GrowthMakesRoom | src/table.c:86-89 | After a load-factor triggered growth, count + 1 is within the 3/4 load factor of the new capacity. |
| Tables.EmptySlotExists | src/table.c:22-44 | If fewer slots are used than exist, there is an empty (non-tombstone) slot, so probing terminates. |
| Tables.FindEntry | src/table.c:22-44 | Consider a table whose probe chains are unbroken. If the key is present, the returned slot holds it. Otherwise the returned slot is the first keyless slot on the key's probe path: the first tombstone, or else the empty slot that ended the probe. |
| Tables.BindingsStore | src/table.c:85-101 | Writing a key into its own slot, or a new key into a keyless slot, updates the abstract map at that key. |
| Tables.BindingsClear | src/table.c:103-114 | Writing a tombstone over a key removes exactly that key from the abstract map. |
| Tables.StoreThroughProbe | src/table.c:85-101 | A store at the slot findEntry chose keeps keys unique and probe chains unbroken. It updates the map, and adds to the used count only when the slot was empty. |
| Tables.ClearThroughProbe | src/table.c:103-114 | A tombstone keeps the probe chains and the used count, and removes the key. |
| Tables.SetKeepsInv | src/table.c:85-101 | A set at the probed slot preserves the table invariant, counting tombstones as in tableSet. |
| Tables.DeleteKeepsInv | src/table.c:103-114 | A delete preserves the table invariant without changing the count. |
| Tables.StoreBinding | src/table.c:85-101 | The store half of tableSet. It reports a new key iff the key was absent. The map is updated at key and the invariant is kept. Exactly one slot changes, to the new entry. The used count rises by one iff that slot was truly empty: an existing key keeps the count, and a new key in a table without tombstones adds one. |
| Tables.ClearBinding | src/table.c:103-114 | The tombstone half of tableDelete. It reports found iff the key was present, and removes it. |
| Tables.RebuildDone | src/table.c:46-71 | After reinsertion, the used count equals the live count of the old array, the maps are equal, and the new array holds no tombstones. |
| Tables.Reinsert | src/table.c:56-66 | Copying every live entry into an empty array leaves the same map, with used count = live count. This models the intended null-key guard (see Findings). |
| Tables.KeysProbedAsWritten | src/table.c:57-61 | As written, the reinsertion loop passes every slot's key to findEntry, tombstones and empty slots included. |
| Tables.AsWrittenProbesNull | src/table.c:59 | Every table satisfying the invariant has a slot whose key is NULL, so the guard as written hands findEntry a NULL key. |
| Tables.Table.constructor | src/table.c:11-15 | initTable: an empty map with zero count and capacity. |
| Tables.Table.Free | src/table.c:17-20 | freeTable resets the table to the empty map. |
| Tables.Table.RoomLeft | src/table.c:22-44 | A table with entries has an empty slot, so findEntry stops. |
| Tables.Table.NoCountNoKeys | src/table.c:74-75 | A table whose count is 0 binds no key, so tableGet can answer false at once. |
| Tables.Table.AdjustCapacity | src/table.c:46-71 | The new array has the requested capacity and the same map. Count becomes the number of live entries, and the new array holds no tombstones. |
| Tables.Table.Get | src/table.c:73-83 | Returns found iff the key is bound, and then its value. |
| Tables.Table.Set | src/table.c:85-101 | The map becomes old map[key := value]. It returns true iff the key was new. Capacity grows to GROW_CAPACITY exactly when count + 1 exceeds 3/4 of it. Without growth the same array is kept. With growth the count starts from the live entries. An existing key leaves that base count unchanged. A new key adds one whenever there are no tombstones, which is always the case after growth. |
| Tables.Table.Delete | src/table.c:103-114 | The map loses the key and the count is kept, since a tombstone still counts. Returns true iff the key was bound, and then the key's slot is now a tombstone. |
| Tables.Table.FindString | src/table.c:125-145 | A non-null result is a key of the table with that length, hash and bytes. A null result means no key matches. |
| Tables.AddAll | src/table.c:116-123 | The destination's map becomes its old map overridden by every binding of the source. |
| Tables.SetTwice | test/table_test.c:30-40 | On an empty table, the first set of foo is new and grows the table to 8 slots with count 1. The second set is not new, keeps the count, and each lookup returns the value just set. |
| Tables.CrudOperations | test/table_test.c:7-50 | On a fresh table: count 0, lookup and delete of foo fail, the two sets and lookups behave as in SetTwice, the delete succeeds, and the final lookup fails. The count stays at 1 after the delete, because of the tombstone. |
| Scanning.NewlinesSplit | src/scanner.c:40-64 | Newline counts add up over adjacent ranges. |
| Scanning.CommentEnd | src/scanner.c:52-58 | A comment runs to the next newline (not consumed) or to the end. |
| Scanning.SkipEnd | src/scanner.c:40-64 | Whitespace skipping stops at the end or at a character that is neither blank nor the start of a // comment. |
| Scanning.WordEnd | src/scanner.c:93-95 | An identifier runs over a maximal run of letters and digits (isalpha or isdigit). An underscore is not part of it, so `a_b` ends the word at `_`. |
| Scanning.DigitsEnd | src/scanner.c:149-151 | A maximal digit run. |
| Scanning.NumberEnd | src/scanner.c:149-161 | A number is digits, then optionally a '.' that is followed by a digit, then digits. It never stops before a digit. |
| Scanning.StringEnd | src/scanner.c:163-176 | A string body runs to the first closing quote or to the end of the source. |
| Scanning.Scan | src/scanner.c:178-232 | scanToken skips blanks to the token start. It returns EOF iff that start is the end, and every other token consumes at least one character. |
| Scanning.ScanPunct | src/scanner.c:192-231 | Punctuation takes one or two characters on the current line and is never EOF. |
| Scanning.TokensFrom | src/scanner.c:178-232 | The token stream of a source is non-empty. |
| Scanning.CheckKeywordMeans | src/scanner.c:84-91 | checkKeyword yields the keyword iff the lexeme is the prefix followed by exactly the rest, and yields Identifier otherwise. |
| Scanning.TrieOnlyKeywords | src/scanner.c:93-147 | The trie answers Identifier or a keyword, and answers a keyword only for that keyword's exact spelling. |
| Scanning.TrieAcceptsKeywords | src/scanner.c:93-147 | Each of the 16 keywords' spellings is classified as that keyword. |
| Scanning.KeywordsExactly | test/scanner_test.c:46-63 | A lexeme is keyword k iff it is k's spelling. It is an identifier iff it spells no keyword. |
| Scanning.NearKeywordsAreIdentifiers | src/scanner.c:93-147 | Prefixes and extensions of keywords ("f", "fo", "classy") are identifiers. |
| Scanning.ScanCountsLines | src/scanner.c:40-64 | After a token, the line is the old line plus the newlines consumed (in blanks, comments and strings). The token carries that line. |
| Scanning.ScanAtCountsLines | src/scanner.c:163-176 | The same line accounting, for a token that starts at a non-blank character. |
| Scanning.StringCountsLines | src/scanner.c:163-176 | A string token counts the newlines inside it, whether or not it is terminated. |
| Scanning.ScanLexemeIsSlice | src/scanner.c:66-82 | A non-error token's text is exactly the source slice it consumed. An error token's text is one of the two messages. |
| Scanning.ScanEofSticky | src/scanner.c:182-183 | At the end of the source, EOF has empty text and scanning again returns the same EOF. |
| Scanning.ScanAdvances | src/scanner.c:178-185 | A non-EOF token starts after the skipped blanks and comments and is non-empty. |
| Scanning.ScanWord | src/scanner.c:187-188 | A word token is a maximal alphanumeric run. Its kind is keyword k iff the run spells k, and it is always an identifier or a keyword. |
| Scanning.ScanNumber | src/scanner.c:189-190 | A digit starts a Number token with the maximal digits-with-fraction extent. |
| Scanning.ScanOperator | src/scanner.c:217-228 | '!', '=', '<' and '>' take the two-character kind iff the next character is '='. Otherwise they take the single kind. |
| Scanning.ScanString | src/scanner.c:163-176 | A quote starts a string. At the end of the source without a closing quote, the token is "Unterminated string.". Otherwise the token is the quoted slice, including both quotes. |
| Scanning.ScanUnexpected | src/scanner.c:229-230 | Any other character gives "Unexpected character." and consumes exactly one character. |
| Scanning.TokensFromValid | src/scanner.c:178-232 | The stream ends with exactly one EOF token, which is its last element. |
| Scanning.Scanner.constructor | src/scanner.c:13-17 | initScanner: start and cursor at 0, line 1. |
| Scanning.Scanner.SkipWhitespace | src/scanner.c:40-64 | The cursor moves to SkipEnd and the line advances by the newlines skipped. |
| Scanning.Scanner.SkipComment | src/scanner.c:52-58 | The cursor moves to the end of the comment line. |
| Scanning.Scanner.SkipWord | src/scanner.c:93-95 | The cursor moves to the end of the identifier. |
| Scanning.Scanner.SkipDigits | src/scanner.c:149-151 | The cursor moves to the end of the digit run. |
| Scanning.Scanner.IdentifierOrKeyword | src/scanner.c:93-147 | The token has the word's text, and its kind is the trie's classification of that text. |
| Scanning.Scanner.NumberToken | src/scanner.c:149-161 | The token is a Number whose text runs to NumberEnd. |
| Scanning.Scanner.StringToken | src/scanner.c:163-176 | The line advances by the newlines inside the string. The token is an error at the end of the source, and otherwise the quoted slice. |
| Scanning.Scanner.ScanToken | src/scanner.c:178-232 | The token, new cursor and line are exactly those of Scan on the old cursor and line. |
| Scanning.Scanner.TokenAt | src/scanner.c:185-231 | The dispatch after skipping blanks agrees with ScanAt. |
| Scanning.Scanner.PunctToken | src/scanner.c:192-231 | The punctuation switch agrees with ScanPunct. |
| ParseRules.GetRule | src/compiler.c:215-266 | A token has the binary infix rule iff it is one of the ten binary operators. It has a precedence above NONE iff it has an infix rule. Every precedence is below UNARY. |
| ParseRules.PrefixRules | src/compiler.c:215-264 | Exactly '(', '-', '!', the three literals, strings and numbers have prefix rules, each with its own parse function. |
| ParseRules.OperatorOrder | src/compiler.c:215-264 | Factor operators bind tighter than term operators, which bind tighter than comparisons, which bind tighter than equality. Operators within a level are equal. Identifiers, EOF and errors have no rule. |
| CompilerSpec.StreamOkMeans | src/compiler.c:116-122 | A compilable stream is a valid scanner stream all of whose string tokens hold their two quotes. |
| CompilerSpec.ErrorAt | src/compiler.c:15-31 | In panic mode nothing changes. Otherwise one diagnostic (line, location, message) is appended, and panic mode and the error flag are set. |
| CompilerSpec.ErrorAtPrevious | src/compiler.c:37-39 | In panic mode nothing changes. Otherwise one diagnostic is appended, with the previous token's line and location, and the parser enters panic mode with the error flag set. Tokens and output are unchanged. |
| CompilerSpec.NextToken | src/compiler.c:41-52 | Pulls the next token, and stays at EOF once there. |
| CompilerSpec.SkipErrors | src/compiler.c:44-51 | Error tokens are reported and skipped until a non-error token is current. |
| CompilerSpec.Advance | src/compiler.c:41-52 | The previous token becomes the old current, the current token is never an error, and the output is unchanged. |
| CompilerSpec.Consume | src/compiler.c:54-60 | On the expected kind it advances. Otherwise it reports the message at the current token. |
| CompilerSpec.EmitByte | src/compiler.c:74-76 | One byte is appended with the previous token's line. Nothing else changes. |
| CompilerSpec.EmitBytes | src/compiler.c:78-81 | Two bytes are appended, both with the previous token's line. |
| CompilerSpec.EmitConstant | src/compiler.c:83-92 | The constant is appended to the pool, and OP_CONSTANT is emitted with its index, both bytes on the previous token's line. While the index fits a byte nothing else changes. Past 255, the operand is 0 and "Too many constants in one chunk." is reported at the previous token (unless already in panic mode), leaving the parser in panic mode. |
| CompilerSpec.NumberLiteralEmits | src/compiler.c:111-114 | The number's lexeme is appended to the pool, and OP_CONSTANT with its index is emitted on the token's line. Tokens are unchanged, and while the index fits a byte nothing else changes; past 255 an error is reported. |
| CompilerSpec.StringContents | src/compiler.c:116-122 | The constant's text is the lexeme without its surrounding quotes. |
| CompilerSpec.StringLiteralEmits | src/compiler.c:116-122 | The text between the quotes is appended to the pool, and OP_CONSTANT with its index is emitted on the token's line. Tokens are unchanged, and while the index fits a byte nothing else changes; past 255 an error is reported. |
| CompilerSpec.RepresentsEquality | src/compiler.c:111-122 | A pool constant stands for the value number and string put in the chunk: a boolean, nil, a number, or a string object with the constant's text. Two represented values are valuesEqual iff their constants are equal. |
| CompilerSpec.Literal | src/compiler.c:188-202 | true, false and nil emit their one opcode with the token's line. |
| CompilerSpec.ParsePrecedence | src/compiler.c:325-340 | Output only grows, and the stream advances unless it is already at EOF. |
| CompilerSpec.Match | src/compiler.c:66-72 | Matches iff the current token has the kind. Without a match the state is unchanged. On a match the current token becomes previous, the new current is not an error token, and no output is emitted. |
| CompilerSpec.SkipToSyncPoint | src/compiler.c:275-297 | Tokens are skipped, without output, to a statement boundary. |
| CompilerSpec.Synchronize | src/compiler.c:275-297 | Panic mode is switched off and tokens are skipped to a synchronisation point (after ';', before a statement keyword, or at EOF). No output is added. Error tokens skipped on the way are reported again, which puts the parser back in panic mode; when it ends out of panic mode, no diagnostic was added. |
| CompilerSpec.Declaration | src/compiler.c:299-304 | Output and diagnostics only grow, and the stream advances. |
| CompilerSpec.Declarations | src/compiler.c:357-359 | Declarations are compiled until EOF is both previous and current. |
| CompilerSpec.Start | src/compiler.c:344-355 | The parser starts with no error, not in panic mode and with no diagnostics, on the given chunk. |
| CompilerSpec.Compile | src/compiler.c:343-364 | The chunk's old code and pool are prefixes of the result, and the code ends with OP_RETURN. compile succeeds iff no diagnostic was reported. |
| CompilerSpec.EndCompiler | src/compiler.c:94-101 | Exactly one OP_RETURN is appended. |
| Expressions.EmittedIsPostOrder | src/compiler.c:124-186 | Emitting an expression one instruction at a time gives its post-order code, lines and constants. Operands come first and the operator after them; constant operands are pool indices. |
| Expressions.PrimarySplit | src/compiler.c:325-340 | An expression's tokens are those of its leftmost operand followed by the rest. |
| Expressions.TokensPlain | src/scanner.c:178-232 | The tokens of a well-formed expression contain no EOF or error token. |
| PrattParsing.ParseTree | src/compiler.c:325-340 | parsePrecedence on the tokens of a well-formed tree, at any precedence up to the tree's own, followed by a looser token, emits exactly the tree's post-order output and leaves that token current. So precedence climbing is correct and equal precedence associates left. |
| PrattParsing.PrimaryParse | src/compiler.c:111-127 | A number, string, literal or parenthesised tree is parsed by its prefix rule. |
| PrattParsing.UnopParse | src/compiler.c:129-142 | A unary operator parses its operand at UNARY precedence, then emits its opcode. |
| PrattParsing.ParenParse | src/compiler.c:124-127 | Grouping parses the inner expression and consumes ')', emitting nothing of its own. |
| PrattParsing.SpineStep | src/compiler.c:335-339 | One round of the infix loop turns `l op r` into its tree. |
| Programs.StmtIsPostOrder | src/compiler.c:306-316 | A statement emits its value's code, then OP_PRINT or OP_POP with the ';' line. |
| Programs.StatementParse | src/compiler.c:299-323 | declaration on a print or expression statement emits exactly that statement's output. |
| Programs.DeclarationsParse | src/compiler.c:357-359 | The declaration loop over a program's tokens emits every statement's output in order and stops at EOF. |
| Programs.CompileProgram | src/compiler.c:343-364 | compile of any well-formed program of at most 256 constants succeeds, with no diagnostic. It emits the statements' post-order code followed by OP_RETURN, with the matching lines and pool. |
| Compiler.ScannedStringsQuoted | src/scanner.c:163-176 | Every string token the scanner produces holds its two quotes. |
| Compiler.ScannedStreamOk | src/compiler.c:343-364 | Every scanner output is a stream the compiler can read. |
| Compiler.Parser.constructor | src/compiler.c:344-353 | The parser state is the initial state of the specification on the scanner's remaining tokens. |
| Compiler.Parser.ErrorAt | src/compiler.c:15-31 | The state becomes CompilerSpec.ErrorAt of the old state. |
| Compiler.Parser.ErrorAtCurrent | src/compiler.c:33-35 | The error is reported at the current token. |
| Compiler.Parser.Error | src/compiler.c:37-39 | The error is reported at the previous token. |
| Compiler.Parser.NextToken | src/compiler.c:45 | The scanner's next token becomes current, as NextToken specifies. |
| Compiler.Parser.Advance | src/compiler.c:41-52 | The loop reports and skips error tokens, with the state equal to CompilerSpec.Advance of the old state. |
| Compiler.Parser.Consume | src/compiler.c:54-60 | The state becomes CompilerSpec.Consume of the old state. |
| Compiler.Parser.Match | src/compiler.c:66-72 | The result and new state are those of CompilerSpec.Match. |
| Compiler.Parser.EmitByte | src/compiler.c:74-76 | The state becomes CompilerSpec.EmitByte of the old state. |
| Compiler.Parser.EmitBytes | src/compiler.c:78-81 | The state becomes CompilerSpec.EmitBytes of the old state. |
| Compiler.Parser.EmitConstant | src/compiler.c:83-92 | The state becomes CompilerSpec.EmitConstant of the old state. |
| Compiler.Parser.EndCompiler | src/compiler.c:94-101 | The state becomes CompilerSpec.EndCompiler of the old state. |
| Compiler.Parser.Number | src/compiler.c:111-114 | The state becomes NumberLiteral of the old state. |
| Compiler.Parser.StringConstant | src/compiler.c:116-122 | The state becomes StringLiteral of the old state. |
| Compiler.Parser.Literal | src/compiler.c:188-202 | The state becomes CompilerSpec.Literal of the old state. |
| Compiler.Parser.Grouping | src/compiler.c:124-127 | The state becomes CompilerSpec.Grouping of the old state. |
| Compiler.Parser.Unary | src/compiler.c:129-142 | The state becomes CompilerSpec.Unary of the old state. |
| Compiler.Parser.Binary | src/compiler.c:144-186 | The state becomes CompilerSpec.Binary of the old state. |
| Compiler.Parser.CallPrefix | src/compiler.c:333 | The prefix dispatch through the rule table agrees with CompilerSpec.Prefix. |
| Compiler.Parser.Expression | src/compiler.c:268-270 | The state becomes CompilerSpec.Expression of the old state. |
| Compiler.Parser.ParsePrecedence | src/compiler.c:325-340 | The state becomes CompilerSpec.ParsePrecedence of the old state. By PrattParsing.ParseTree, that emits a tree's post-order output. |
| Compiler.Parser.InfixRules | src/compiler.c:335-339 | The infix loop's state becomes InfixLoop of the old state. |
| Compiler.Parser.PrintStatement | src/compiler.c:306-310 | The state becomes CompilerSpec.PrintStatement of the old state. |
| Compiler.Parser.ExpressionStatement | src/compiler.c:312-316 | The state becomes CompilerSpec.ExpressionStatement of the old state. |
| Compiler.Parser.Statement | src/compiler.c:318-323 | The state becomes CompilerSpec.Statement of the old state. |
| Compiler.Parser.Synchronize | src/compiler.c:275-297 | The skipping loop's state becomes CompilerSpec.Synchronize of the old state. |
| Compiler.Parser.Declaration | src/compiler.c:299-304 | The state becomes CompilerSpec.Declaration of the old state. |
| Compiler.CompileSource | src/compiler.c:343-364 | compile scans the source and returns CompilerSpec.Compile's verdict, code, lines, pool and diagnostics for the source's token stream. |
| CompilerTests.SingleStatement | test/compiler_test.c:43-239 | A one-statement program compiled into a fresh chunk succeeds. It gives the value's post-order code, then OP_POP or OP_PRINT, then OP_RETURN. |
| CompilerTests.LiteralStatement | test/compiler_test.c:43-47 | `true;`, `false;` and `nil;` compile to the literal opcode, OP_POP and OP_RETURN. |
| CompilerTests.BangStatement | test/compiler_test.c:49-63 | `!true;` compiles to OP_TRUE, OP_NOT, OP_POP, OP_RETURN. |
| CompilerTests.NumberStatement | test/compiler_test.c:65-86 | A number compiles to OP_CONSTANT 0, with the number in the pool. |
| CompilerTests.NegationStatement | test/compiler_test.c:88-111 | `-n;` compiles to OP_CONSTANT 0, then OP_NEGATE. |
| CompilerTests.GroupedStatement | test/compiler_test.c:112-134 | `(n);` compiles like `n;`. |
| CompilerTests.BinaryStatement | test/compiler_test.c:135-199 | `a op b;` compiles to two constants and then the operator's opcode, all on line 1. |
| CompilerTests.StringStatement | test/compiler_test.c:201-219 | A string literal's constant is its text without the quotes. |
| CompilerTests.PrintStringStatement | test/compiler_test.c:221-239 | `print "…";` compiles to the constant followed by OP_PRINT. |
| CompilerTests.OperatorChain | src/compiler.c:325-340 | `a op1 b op2 c;` computes the left pair first when op1 binds at least as tightly as op2, and the right pair first otherwise. |
| CompilerTests.MissingExpression | src/compiler.c:328-331 | A statement starting with a token that has no prefix rule reports "Expect expression." once, at that token, and the compile fails. |

## Left out

- The virtual machine (vm.c), the disassembler (debug.c), main.c's REPL and file loading, and gc.c's teardown are not part of this model.
- src/memory.c's realloc is modelled as fresh arrays. Allocation failure and `exit` are not modelled.
- Numbers are kept as their lexeme text. strtod, doubles and printValue are not modelled, so numeric equality is equality of that text.
- The compiler's diagnostics are collected as a list of (line, location, message). The fprintf to stderr is not modelled.
- Compiler.Parser: emitted bytes, lines and constants are kept in sequence fields of the parser. The compiler's calls to writeChunk and addConstant are not modelled; those operations are proved separately on `Chunks.Chunk`.
- Compiler.Parser: a string constant is kept as its text (CString), and `CompilerSpec.Represents` relates each constant to the runtime value it stands for. The compiler's copyString call, its interning and the gc object list are modelled separately in `Objects`.
- Compiler.Parser: the parser tokens are uninitialised in C before the first advance. They are modelled as a fixed placeholder token.
- The compiler in this source has no variables, locals, scopes or assignment. The `Compiler`/`Local` structs and the `canAssign` flag are not part of this model.
- Tables.AddAll: the source and destination must be different tables with different slot arrays. tableAddAll has no such guard, but adding a table to itself is not modelled.
- Tables.CrudOperations: the test's copyString of "foo" and its string pool are left to `Objects.CopyString`; here foo is any string object. NUMBER_VAL(6.9) is the lexeme "6.9".
- Compiler.Parser.InfixRules: parsePrecedence's infix loop is a method of its own, called at the point where the loop stands.
- The theorems about parsing (`PrattParsing.ParseTree`, `Programs.CompileProgram`) require at most 256 constants. The error path past 255 is described by CompilerSpec.EmitConstant.
- One Dafny `char` stands for one C byte throughout: the scanner's source text, the characters hashed by `Objects.HashString` (`Values.ByteOf` keeps the code point mod 256) and an `ObjString`'s length. Text is meant as bytes below 256, so non-ASCII text given as Unicode code points is not modelled. For example "é" is one char here but two UTF-8 bytes in C, which the C scanner reports as two unexpected characters.
- valuesEqual is declared in src/value.h but has no definition in the C sources modelled here. `Values.ValuesEqual` follows the declaration's tests in test/value_test.c.

## Findings

| source | as written | input that shows it | evidently intended | confidence | as-written member | corrected member |
|---|---|---|---|---|---|---|
| src/table.c:59 | adjustCapacity's guard tests whether the entry's address is NULL, which it never is. So every empty slot and tombstone of the old array reaches findEntry with a NULL key, and `key->hash` dereferences NULL. | growing any table, e.g. the 7th tableSet of distinct keys into a table of capacity 8 (6 + 1 > 8 * 0.75) | skip slots whose key is NULL and reinsert only live entries | not executed | Tables.AsWrittenProbesNull | Tables.Reinsert |
