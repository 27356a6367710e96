# Rat25S front end in Dafny

A model of the front end of the Rat25S teaching-language tools. It has two parts.

The **tokenizer** (`src/lexer.py`) has these pieces:

- a whitespace and `[* ... *]` comment skipper;
- an identifier/keyword scanner with case-insensitive keyword classification;
- an integer/real scanner with one character of lookahead on `.`;
- a table-driven step for multi- and single-character operators and separators;
- a step that groups a run of unrecognised characters into one `unknown` token;
- the driver `tokenize`, which stamps line numbers and closes the sequence with exactly one `eof` token.

The **recursive-descent recogniser** (`src/parser.py`) has one procedure per non-terminal of the factored grammar, rules R1 to R28. It chooses productions by one token of lookahead on kind and lexeme. It consumes tokens with `expect` and `advance`, and it stops at the first mismatch.

Modules, one per file:

| file | module | contents |
|---|---|---|
| `wrappers.dfy` | `Wrappers` | `Option` and `Result` (with `:-` propagation) |
| `chars.dfy` | `Chars` | character classes, lower-casing, line-break counting |
| `tokens.dfy` | `Tokens` | `TokenKind`, `Token` |
| `lexer.dfy` | `Lexer` | the scanners and the driver as pure index-walking functions |
| `lexer_proofs.dfy` | `LexerProofs` | properties of the skipper, the scanners and the driver, and worked examples |
| `parser.dfy` | `Parser` | the parser state (cursor plus parse log), `Expect`/`Advance`/`Prod`, and one function per grammar procedure |
| `parser_proofs.dfy` | `ParserProofs` | the parse log, exact acceptance and failure conditions, and worked examples |
| `syntax.dfy` | `Syntax` | syntax trees for expressions, conditions, statements, declarations, parameters, functions and whole programs, with their well-formedness and their yields (the token sequences they spell): a grammar-level description of R1–R28 |
| `expression_proofs.dfy` | `ExpressionProofs` | `Expression` accepts exactly the yields of well-formed expression trees |
| `statement_proofs.dfy` | `StatementProofs` | each statement procedure, `Condition`, `StatementList` and `Body` accepts exactly the yields of its trees |
| `program_proofs.dfy` | `ProgramProofs` | the same for declarations, parameters, functions and whole programs, up to `Parse` itself |

How the model represents the parser:

- Every procedure is a function from the token sequence and a `State` (cursor and log) to `Result<State, SyntaxError>`.
- Python's `error` (print to stderr, then `sys.exit(1)`) becomes a `Failure`. It carries:
  - the index and token where the parse stopped;
  - the complaint, whose `Text` is the message the parser prints;
  - the log written so far.
- The log written by `advance` and `prod` is kept abstract: an entry per production applied and per token consumed.
- Termination is by the lexicographic measure (tokens left, procedure rank).

## Model

| member | source | states |
|---|---|---|
| Chars.Lower | src/lexer.py:86-88 | lower-casing keeps the length and maps each character to its lower-case form, leaving non-capitals unchanged |
| Lexer.CommentEnd | src/lexer.py:113-117 | the index just past the first `*]` at or after `i`, with no `*]` before it; or none when no `*]` follows |
| Lexer.SkipWsAndComments | src/lexer.py:92-124 | skipping stays within `[i, |src|]`; an unclosed comment gives index `|src|` and the `unknown "unterminated comment"` token; otherwise it stops at the end or at a character that is neither whitespace nor a `[*` opener |
| Lexer.WordEnd | src/lexer.py:143-144 | the first index from `i` that is not a letter, digit or `_`, with every index before it one |
| Lexer.DigitsEnd | src/lexer.py:153-154 | the first index from `i` that is not a digit, with every index before it a digit |
| Lexer.LexWord | src/lexer.py:140-146 | one letter, then the longest run of letters, digits and `_`; the lexeme is exactly the consumed slice; the kind is keyword exactly when the lower-cased lexeme is a keyword, else identifier |
| Lexer.LexNumber | src/lexer.py:150-162 | an integer is a maximal digit run not followed by `.` and a digit; a real is digits, `.`, digits; no digit follows the lexeme; the lexeme is the consumed slice |
| Lexer.MultiCharAt | src/lexer.py:164-169 | a token exactly when a two-character operator or separator starts at `i`; its lexeme is those two characters and its kind is the table it is in |
| Lexer.UnknownRunEnd | src/lexer.py:179-188 | the first index from `i` that is the end of the text or a character that can start a legal token or a blank, with no such index before it |
| Lexer.LexUnknown | src/lexer.py:177-190 | an `unknown` token of at least one character; when the first character cannot start a legal token, it is the maximal run of such characters |
| Lexer.LexAt | src/lexer.py:136-190 | at a significant character the scanners always consume at least one character and the lexeme is the consumed slice; the kind is never `eof`; no consumed character is a blank or a comment opener |
| Lexer.LexAtClassified | src/lexer.py:136-190 | the kind `LexAt` gives belongs to the scanner that claims the first character: a letter starts a word (keyword or identifier), a digit a number (integer or real), a two-character operator or separator comes before the one-character tables, operators before separators, and anything else is unknown; an operator or separator is two characters long exactly when a two-character entry starts there |
| Lexer.LexToken | src/lexer.py:128-190 | `eof` exactly when only blanks remain; the unclosed-comment token when skipping runs into one; otherwise the lexeme is the slice after the blanks, the index advances, and the kind belongs to the scanner that claims the first character after the blanks, as `Lexer.LexAtClassified` states for `LexAt` |
| Lexer.IsKeyword | src/lexer.py:86-88 | a lexeme is a keyword exactly when it equals one of the fourteen reserved words up to the case of its letters |
| Lexer.Tokenize | src/lexer.py:194-248 | the token sequence is never empty and ends with an `eof` whose lexeme is empty |
| Lexer.TokenizeFrom | src/lexer.py:200-246 | from any index and line count, the rest of the sequence is never empty and ends with an empty `eof` |
| Lexer.LoopBody | src/lexer.py:202-238 | one turn of the driver loop, with the rest of the text after it, yields a sequence that ends with an empty `eof` |
| Lexer.TokenizeAt | src/lexer.py:225-238 | a turn that scans a token yields at least that token and the closing empty `eof` |
| LexerProofs.KeywordIgnoresCase | src/lexer.py:86-88 | two lexemes that differ only in letter case are both keywords or both not |
| LexerProofs.IfInAnyCaseIsKeyword | src/lexer.py:140-146 | `IF`, `If` and `if` each scan as one keyword token spanning the input, with the original spelling kept |
| LexerProofs.IfSpelledIsKeyword | src/lexer.py:140-146 | the same for one spelling of `if` |
| LexerProofs.SkipIdempotent | src/lexer.py:103-124 | skipping again from where skipping stopped stops at once and reports nothing |
| LexerProofs.UnclosedCommentReported | src/lexer.py:110-120 | a `[*` with no `*]` after it swallows the rest of the text and yields the unclosed-comment token |
| LexerProofs.BracketStarBracketIsUnclosed | src/lexer.py:110-120 | `[*]` is unclosed, because the search for `*]` starts after the opener |
| LexerProofs.MultiCharTablesDisjoint | src/lexer.py:69-70 | no two-character literal is in both the operator and separator tables, so table order does not matter |
| LexerProofs.MaximalMunch | src/lexer.py:164-175 | where a two-character literal starts, the scanner returns it whole, never its one-character prefix |
| LexerProofs.SkipDropsOnlyBlanks | src/lexer.py:92-124 | the skipper drops only characters that removing whitespace and comments drops |
| LexerProofs.LexAtIsNotCommentError | src/lexer.py:136-190 | a scanned token is never mistaken for the unclosed-comment report |
| LexerProofs.LexTokenAtTokenStart | src/lexer.py:128-135 | at a significant character, skipping does nothing and `lex_token` runs the scanners right there |
| LexerProofs.DriverCallsLexToken | src/lexer.py:222-226 | where the driver calls `lex_token` after its own skip, the result is a scanned token and never `eof` |
| LexerProofs.TurnCommentError | src/lexer.py:215-219 | an unclosed comment during a turn ends the sequence: the report on the turn's line, then `eof` on the final line |
| LexerProofs.TurnBlanksToEnd | src/lexer.py:221-223 | only blanks left: the sequence is a single `eof` on the final line |
| LexerProofs.LastTurn | src/lexer.py:215-223 | a turn that scans no token ends the sequence with `eof`, after the unclosed-comment report when there is one |
| LexerProofs.TurnToken | src/lexer.py:225-238 | the scanned token is stamped with the line the turn started on, and the driver continues after it with the line breaks of the blanks and of the token counted |
| LexerProofs.TokenTurn | src/lexer.py:225-238 | a token turn puts one non-`eof`, non-report token, stamped with the turn's line, in front of the rest; stripping the text keeps exactly its lexeme |
| LexerProofs.TokenizeFromSpellsText | src/lexer.py:200-238 | from any index, the token lexemes run together equal the text with whitespace and comments removed |
| LexerProofs.TokenizeSpellsText | src/lexer.py:194-248 | every character outside whitespace and comments is in exactly one lexeme, in order |
| LexerProofs.TokenizeFromLines | src/lexer.py:200-246 | from any index, stamps lie between the starting line and the final count, never decrease, and `eof` carries the start plus the remaining line breaks |
| LexerProofs.TokenizeLines | src/lexer.py:194-248 | line stamps start at 1 and never decrease; `eof` is on line 1 plus the number of `\n` |
| LexerProofs.EofOnlyAtEnd | src/lexer.py:200-246 | from any index, no token but the last is `eof` |
| LexerProofs.TokenizeEofOnlyAtEnd | src/lexer.py:244-246 | the sequence ends with `eof` and has no other `eof` |
| LexerProofs.CommentErrorIsLast | src/lexer.py:215-219 | an unclosed-comment report can only be the token just before `eof` |
| LexerProofs.RelexNumber | src/lexer.py:150-162 | scanning a number lexeme on its own gives back the same token and consumes it all |
| LexerProofs.RelexUnknown | src/lexer.py:178-190 | scanning an unknown run on its own gives back the same token and consumes it all |
| LexerProofs.RelexAt | src/lexer.py:136-190 | every scanned token is self-delimiting: `lex_token` on its lexeme alone reproduces it and consumes it all |
| LexerProofs.TurnAtEnd | src/lexer.py:244-246 | at the end of the text the driver produces just the closing `eof` on the current line |
| LexerProofs.LessEqualIsOneToken | src/lexer.py:165-169 | `<=` tokenizes as one operator token, then `eof` |
| LexerProofs.TrailingDotSplits | src/lexer.py:156-162 | `123.` tokenizes as integer `123`, unknown `.`, then `eof` |
| LexerProofs.IllegalRunGrouped | src/lexer.py:178-190 | `@@@` tokenizes as one unknown token, then `eof` |
| LexerProofs.UnclosedCommentExample | src/lexer.py:110-120 | `[* abc` tokenizes as the unclosed-comment report, then `eof` |
| LexerProofs.LineStampedBeforeBlanks | src/lexer.py:200-235 | in `a\nb`, `b` is stamped with line 1 (the line before the break) and `eof` with line 2 |
| LexerProofs.FourDelimitersTokenize | src/lexer.py:194-248 | `$$ $$ $$ $$` tokenizes as four `$$` separators, then `eof`, all on line 1 |
| LexerProofs.OneAssignmentTokenize | src/lexer.py:194-248 | `$$ $$ $$ x = 1 ; $$` tokenizes as three `$$`, identifier `x`, operator `=`, integer `1`, separator `;`, `$$`, then `eof`, all on line 1 |
| ParserProofs.CurrentIsLookahead | src/parser.py:13-14 | the lookahead is the very token that `advance` then logs as consumed and that `error` reports (`src/parser.py:22-24`, `src/parser.py:33-35`) |
| Parser.Advance | src/parser.py:16-25 | the cursor moves by one and the consumed token is logged |
| Parser.Prod | src/parser.py:38-40 | the production is logged and the cursor does not move |
| Parser.Fail | src/parser.py:33-36 | the parse stops at the current token with the given complaint |
| Parser.Text | src/parser.py:27-31 | a message starts with `expected ` exactly when it reports a failed `expect`; it then names the token kind, and ends with a blank and the lexeme when a non-empty lexeme was asked for, with nothing after the kind otherwise |
| Parser.Expect | src/parser.py:27-31 | succeeds exactly when the kind matches and, if a lexeme is given, the lexeme matches; then it moves one token and logs it; otherwise it fails right there, naming what it expected |
| Parser.Rat25S | src/parser.py:45-54 | on success the cursor has moved and sits just past an `eof` |
| Parser.StatementSection | src/parser.py:52-54 | the statement list, `$$`, then `eof`: on success the cursor sits just past an `eof` |
| Parser.OptFunctionDefinitions | src/parser.py:57-62 | never moves the cursor backwards and stays on a token |
| Parser.FunctionDefinitions | src/parser.py:65-69 | consumes at least one token |
| Parser.Function | src/parser.py:72-80 | consumes at least one token |
| Parser.OptParameterList | src/parser.py:83-88 | never moves the cursor backwards |
| Parser.ParameterList | src/parser.py:90-95 | consumes at least one token |
| Parser.Parameter | src/parser.py:97-100 | consumes at least one token |
| Parser.Qualifier | src/parser.py:102-107 | succeeds exactly on lexeme `integer`, `boolean` or `real`, whatever the kind, consuming one token; otherwise fails there with the qualifier complaint |
| Parser.Body | src/parser.py:110-114 | consumes at least one token |
| Parser.OptDeclarationList | src/parser.py:117-122 | never moves the cursor backwards |
| Parser.DeclarationList | src/parser.py:124-129 | consumes at least one token |
| Parser.Declaration | src/parser.py:131-134 | consumes at least one token |
| Parser.IDs | src/parser.py:136-141 | consumes at least one token |
| Parser.StatementList | src/parser.py:144-158 | consumes at least one token |
| Parser.StatementListRest | src/parser.py:149-158 | on success the lookahead starts no statement |
| Parser.Statement | src/parser.py:160-187 | consumes at least one token |
| Parser.Compound | src/parser.py:190-194 | consumes at least one token |
| Parser.Assign | src/parser.py:197-202 | consumes at least one token |
| Parser.If | src/parser.py:205-215 | consumes at least one token |
| Parser.Else | src/parser.py:212-214 | the branch is taken exactly when the lookahead lexeme is `else`: without it nothing happens; with it, a token spelled `else` that is not a keyword fails right there with "expected keyword else", and success needs the `else` keyword and at least one more token |
| Parser.Return | src/parser.py:218-223 | consumes at least one token |
| Parser.Print | src/parser.py:226-232 | consumes at least one token |
| Parser.Scan | src/parser.py:234-240 | consumes at least one token |
| Parser.While | src/parser.py:243-250 | consumes at least one token |
| Parser.Condition | src/parser.py:253-257 | consumes at least one token |
| Parser.Relop | src/parser.py:260-266 | succeeds exactly on an operator token `==`, `!=`, `<`, `>`, `<=` or `=>`, consuming one token; otherwise fails there with the relational-operator complaint |
| Parser.Expression | src/parser.py:269-272 | consumes at least one token |
| Parser.ExpressionPrime | src/parser.py:274-281 | never moves the cursor backwards |
| Parser.Term | src/parser.py:283-286 | consumes at least one token |
| Parser.TermPrime | src/parser.py:288-295 | never moves the cursor backwards |
| Parser.Factor | src/parser.py:297-304 | consumes at least one token |
| Parser.Primary | src/parser.py:307-331 | consumes at least one token |
| Parser.CallPrimary | src/parser.py:310-315 | a call consumes at least four tokens, and any failure comes after the identifier |
| Parser.ParenthesizedPrimary | src/parser.py:325-329 | a parenthesised primary consumes at least three tokens, and any failure comes after the `(` |
| Parser.Parse | src/parser.py:334-341 | on success the cursor sits just past an `eof` of the tokenized text; the log of any result records exactly the tokens before its position |
| ParserProofs.RecordsIsShifted | src/parser.py:16-25 | the entry-by-entry log invariant holds exactly when the tokens the log consumed are the first `n` tokens |
| ParserProofs.ParseLogsEveryToken | src/parser.py:334-341 | a successful parse ends exactly at the end of the tokens and logs every one, in order; a failed one logs exactly the tokens before the one it stopped at |
| ParserProofs.IDsAcceptsIdList | src/parser.py:136-141 | what `IDs` accepts is identifiers separated by `,` separators, and the next token is not `,` |
| ParserProofs.IdListAcceptedByIDs | src/parser.py:136-141 | every identifier list not followed by `,` is accepted by `IDs`, which stops right after it |
| ParserProofs.StatementCommits | src/parser.py:160-187 | once a statement's first token matches, any failure lies beyond that token |
| ParserProofs.CompoundCommits | src/parser.py:190-194 | at `{`, any failure of a compound statement lies beyond it |
| ParserProofs.AssignCommits | src/parser.py:197-202 | at an identifier, any failure of an assignment lies beyond it |
| ParserProofs.IfCommits | src/parser.py:205-215 | at `if`, any failure of the statement lies beyond it |
| ParserProofs.WhileCommits | src/parser.py:243-250 | at `while`, any failure of the statement lies beyond it |
| ParserProofs.ReturnCommits | src/parser.py:218-223 | at `return`, any failure of the statement lies beyond it |
| ParserProofs.PrintCommits | src/parser.py:226-232 | at `print`, any failure of the statement lies beyond it |
| ParserProofs.ScanCommits | src/parser.py:234-240 | at `scan`, any failure of the statement lies beyond it |
| ParserProofs.StatementFailsAtStartIff | src/parser.py:160-187 | a statement fails at its first token exactly when that token starts no statement; the complaint is "unexpected keyword" for a keyword, "invalid statement start" otherwise |
| ParserProofs.StatementListRestStopsIff | src/parser.py:149-158 | the statement loop stops without consuming exactly when the lookahead is not `{`, an identifier, or `if`/`while`/`return`/`scan`/`print` |
| ParserProofs.StatementListNeedsOne | src/parser.py:144-146 | a statement list whose first token starts no statement fails right there |
| ParserProofs.UpperCaseKeywordInStatement | src/parser.py:168-185 | a keyword token spelled `IF` in statement position fails with "unexpected keyword in statement" |
| ParserProofs.CapitalisedQualifier | src/parser.py:102-122 | `Integer` is no qualifier, and the optional declaration list is empty on it |
| ParserProofs.ReturnWithoutExpression | src/parser.py:218-223 | after `return`, a `;` lexeme ends the statement: it succeeds after two tokens exactly when that `;` is a separator |
| ParserProofs.ReturnWithExpression | src/parser.py:218-223 | after `return`, any other lookahead is parsed as an expression, so success takes at least three tokens |
| ParserProofs.IfEndsWithEndif | src/parser.py:205-215 | a successful `if` ends with the keyword `endif`, with or without `else` |
| ParserProofs.WhileEndsWithEndwhile | src/parser.py:243-250 | a successful `while` ends with the keyword `endwhile` |
| ParserProofs.GreaterEqualIsNoRelop | src/parser.py:260-266 | the lexer's `>=` and `<>` are operators, but `Relop` rejects them with "relational operator expected" |
| ParserProofs.PrimaryFailsAtStartIff | src/parser.py:307-331 | a primary fails at its first token exactly when that token starts none of its four forms, and then with "invalid primary" |
| ParserProofs.BareIdentifierPrimary | src/parser.py:316-318 | an identifier not followed by `(` is a primary on its own, consuming one token |
| ParserProofs.PrimaryCallShape | src/parser.py:309-315 | an identifier followed by `(` is a call: on success the arguments are an identifier list closed by a `)` separator |
| ParserProofs.CallPrimaryShape | src/parser.py:310-315 | a successful call is identifier, `(` separator, an identifier list, `)` separator |
| ParserProofs.EmptyStatementSectionRejected | src/parser.py:45-54 | four `$$` in a row fail at the fourth with "invalid statement start" |
| ParserProofs.StatementTakesTwo | src/parser.py:160-250 | a statement never spans fewer than two tokens; the shortest is `return ;` |
| ParserProofs.Rat25SFramed | src/parser.py:45-54 | a successful program opens with `$$`, ends with `$$` then `eof`, and spans at least seven tokens, as `$$ $$ $$ return ; $$` plus `eof` does |
| ParserProofs.FourDelimitersRejected | src/parser.py:334-341 | the text `$$ $$ $$ $$` fails to parse at token index 3 with "invalid statement start" |
| ExpressionProofs.ExpressionSound | src/parser.py:269-281 | whatever `Expression` accepts is the yield of a well-formed expression tree, and the stop token cannot extend it |
| ExpressionProofs.ExpressionPrimeSound | src/parser.py:274-281 | `ExpressionPrime` extends an expression by `+`/`-` terms, nesting to the left |
| ExpressionProofs.ExpressionPrimeMoreSound | src/parser.py:275-279 | one `+`/`-` turn adds the next term on the right of the tree |
| ExpressionProofs.TermSound | src/parser.py:283-295 | whatever `Term` accepts is the yield of a well-formed term tree, and the stop token continues no term |
| ExpressionProofs.TermPrimeSound | src/parser.py:288-295 | `TermPrime` extends a term by `*`/`/` factors, nesting to the left |
| ExpressionProofs.TermPrimeMoreSound | src/parser.py:289-293 | one `*`/`/` turn adds the next factor on the right of the tree |
| ExpressionProofs.FactorSound | src/parser.py:297-304 | whatever `Factor` accepts is an optionally negated well-formed primary |
| ExpressionProofs.PrimarySound | src/parser.py:307-331 | whatever `Primary` accepts is the yield of a well-formed primary, and a bare identifier is not followed by `(` |
| ExpressionProofs.CallSound | src/parser.py:309-315 | the call form yields a call tree |
| ExpressionProofs.ParenthesizedSound | src/parser.py:325-329 | the parenthesised form yields a parenthesised tree |
| ExpressionProofs.PrimaryComplete | src/parser.py:307-331 | every well-formed primary is accepted whole, provided a bare identifier is not followed by `(` |
| ExpressionProofs.CallComplete | src/parser.py:309-315 | every well-formed call is accepted whole |
| ExpressionProofs.ParenthesizedComplete | src/parser.py:325-329 | every well-formed parenthesised expression is accepted whole |
| ExpressionProofs.ParenthesizedUnfolds | src/parser.py:325-329 | at `(`, `Primary` is `(`, an expression, then `)` |
| ExpressionProofs.FactorComplete | src/parser.py:297-304 | every well-formed factor is accepted whole, under the same proviso |
| ExpressionProofs.TermUnfolds | src/parser.py:283-286 | `Term` is its first factor, then `TermPrime` |
| ExpressionProofs.TermPrimeStep | src/parser.py:288-293 | at `*`/`/`, `TermPrime` takes one factor and then runs again |
| ExpressionProofs.ExpressionUnfolds | src/parser.py:269-272 | `Expression` is its first term, then `ExpressionPrime` |
| ExpressionProofs.ExpressionPrimeStep | src/parser.py:274-279 | at `+`/`-`, `ExpressionPrime` takes one term and then runs again |
| ExpressionProofs.TermRuns | src/parser.py:283-295 | over a well-formed term, `Term` reaches `TermPrime` at the token just after it |
| ExpressionProofs.TermRunsOp | src/parser.py:283-295 | the same for a term ending in `*`/`/` and a factor |
| ExpressionProofs.TermPrimeRuns | src/parser.py:288-293 | `TermPrime` over `*`/`/` and a well-formed factor takes one turn over them |
| ExpressionProofs.TermComplete | src/parser.py:283-295 | every well-formed term not followed by `*`/`/` is accepted whole |
| ExpressionProofs.ExpressionRuns | src/parser.py:269-281 | over a well-formed expression, `Expression` reaches `ExpressionPrime` at the token just after it |
| ExpressionProofs.ExpressionRunsOp | src/parser.py:269-281 | the same for an expression ending in `+`/`-` and a term |
| ExpressionProofs.ExpressionPrimeRuns | src/parser.py:274-279 | `ExpressionPrime` over `+`/`-` and a well-formed term takes one turn over them |
| ExpressionProofs.ExpressionComplete | src/parser.py:269-281 | every well-formed expression that the next token ends is accepted whole |
| ExpressionProofs.ExpressionExact | src/parser.py:269-331 | `Expression` succeeds and stops at `j` exactly when the tokens up to `j` are the yield of a well-formed expression tree that the token at `j` ends |
| StatementProofs.ConditionSound | src/parser.py:253-257 | a successful `Condition` spells an expression, a relational operator and an expression, and the token after it ends the right expression |
| StatementProofs.ConditionComplete | src/parser.py:253-257 | every well-formed condition whose right expression the next token ends is accepted whole |
| StatementProofs.ConditionExact | src/parser.py:253-257 | `Condition` succeeds and stops at `j` exactly when the tokens up to `j` are expression, relational operator, expression, and the token at `j` ends the last expression |
| StatementProofs.StatementSound | src/parser.py:160-187 | whatever `Statement` accepts is the yield of a well-formed statement tree of one of the seven forms |
| StatementProofs.StatementComplete | src/parser.py:160-187 | every well-formed statement is accepted whole |
| StatementProofs.StatementExact | src/parser.py:160-187 | `Statement` succeeds and stops at `j` exactly when the tokens up to `j` spell a well-formed statement |
| StatementProofs.CompoundSound | src/parser.py:190-194 | whatever `Compound` accepts is `{`, a well-formed statement list, then `}` |
| StatementProofs.CompoundComplete | src/parser.py:190-194 | every well-formed block is accepted whole |
| StatementProofs.CompoundExact | src/parser.py:190-194 | `Compound` stops at `j` exactly when the tokens up to `j` spell `{`, a statement list and `}` |
| StatementProofs.AssignSound | src/parser.py:197-202 | whatever `Assign` accepts is an identifier, the operator `=`, an expression and the separator `;` |
| StatementProofs.AssignComplete | src/parser.py:197-202 | every well-formed assignment is accepted whole |
| StatementProofs.AssignExact | src/parser.py:197-202 | `Assign` stops at `j` exactly when the tokens up to `j` spell `<Identifier> = <Expression> ;` |
| StatementProofs.ElseSound | src/parser.py:212-214 | whatever the `else` branch accepts is the keyword `else` followed by the yield of a well-formed statement |
| StatementProofs.ElseComplete | src/parser.py:212-214 | at an `else` keyword, the branch accepts every well-formed statement that follows it, whole |
| StatementProofs.IfSound | src/parser.py:205-215 | whatever `If` accepts is `if ( <Condition> ) <Statement>`, optionally `else <Statement>`, then `endif` |
| StatementProofs.IfComplete | src/parser.py:205-215 | every well-formed `if`, with or without `else`, is accepted whole |
| StatementProofs.IfExact | src/parser.py:205-215 | `If` stops at `j` exactly when the tokens up to `j` spell an `if` statement with or without an `else` part |
| StatementProofs.WhileSound | src/parser.py:243-250 | whatever `While` accepts is `while ( <Condition> ) <Statement> endwhile` |
| StatementProofs.WhileComplete | src/parser.py:243-250 | every well-formed `while` is accepted whole |
| StatementProofs.WhileExact | src/parser.py:243-250 | `While` stops at `j` exactly when the tokens up to `j` spell a `while` statement |
| StatementProofs.ReturnSound | src/parser.py:218-223 | whatever `Return` accepts is `return ;` or `return <Expression> ;` |
| StatementProofs.ReturnComplete | src/parser.py:218-223 | every well-formed `return`, with or without a value, is accepted whole |
| StatementProofs.ReturnExact | src/parser.py:218-223 | `Return` stops at `j` exactly when the tokens up to `j` spell `return ;` or `return <Expression> ;` |
| StatementProofs.PrintSound | src/parser.py:226-232 | whatever `Print` accepts is `print ( <Expression> ) ;` |
| StatementProofs.PrintComplete | src/parser.py:226-232 | every well-formed `print` is accepted whole |
| StatementProofs.PrintExact | src/parser.py:226-232 | `Print` stops at `j` exactly when the tokens up to `j` spell `print ( <Expression> ) ;` |
| StatementProofs.ScanSound | src/parser.py:234-240 | whatever `Scan` accepts is `scan ( <IDs> ) ;` |
| StatementProofs.ScanComplete | src/parser.py:234-240 | every well-formed `scan` is accepted whole |
| StatementProofs.ScanExact | src/parser.py:234-240 | `Scan` stops at `j` exactly when the tokens up to `j` spell `scan ( <IDs> ) ;` |
| StatementProofs.StatementListSound | src/parser.py:144-158 | whatever `StatementList` accepts is one or more well-formed statements, and the token after them starts no statement |
| StatementProofs.StatementListRestSound | src/parser.py:149-158 | the loop consumes nothing or a list of well-formed statements |
| StatementProofs.StatementListComplete | src/parser.py:144-158 | every statement list followed by a token that starts no statement is accepted whole |
| StatementProofs.StatementListRestComplete | src/parser.py:149-158 | the loop runs over every statement of such a list |
| StatementProofs.StatementListExact | src/parser.py:144-158 | `StatementList` stops at `j` exactly when the tokens up to `j` spell one or more statements and the token at `j` starts no statement |
| StatementProofs.BodySound | src/parser.py:110-114 | whatever `Body` accepts is `{`, a statement list, then `}` |
| StatementProofs.BodyComplete | src/parser.py:110-114 | every well-formed block is accepted whole as a body |
| StatementProofs.BodyExact | src/parser.py:110-114 | `Body` stops at `j` exactly when the tokens up to `j` spell `{ <StatementList> }` |
| ProgramProofs.DeclarationSound | src/parser.py:131-134 | whatever `Declaration` accepts is a qualifier and an identifier list, and the token after it is no `,` |
| ProgramProofs.DeclarationComplete | src/parser.py:131-134 | every qualifier with an identifier list, followed by a token that is no `,`, is accepted whole |
| ProgramProofs.DeclarationExact | src/parser.py:131-134 | `Declaration` stops at `j` exactly when the tokens up to `j` spell `<Qualifier> <IDs>` and the token at `j` is no `,` |
| ProgramProofs.DeclarationListSound | src/parser.py:124-129 | whatever `DeclarationList` accepts is declarations each closed by `;`, and the token after them is no qualifier |
| ProgramProofs.DeclarationListComplete | src/parser.py:124-129 | every such list followed by a token that is no qualifier is accepted whole |
| ProgramProofs.DeclarationListExact | src/parser.py:124-129 | `DeclarationList` stops at `j` exactly when the tokens up to `j` spell one or more `<Declaration> ;` and the token at `j` is no qualifier |
| ProgramProofs.OptDeclarationListSound | src/parser.py:117-122 | whatever `OptDeclarationList` accepts is nothing or a declaration list, and the token after it is no qualifier |
| ProgramProofs.OptDeclarationListComplete | src/parser.py:117-122 | nothing, or a declaration list, followed by a token that is no qualifier is accepted whole |
| ProgramProofs.OptDeclarationListExact | src/parser.py:117-122 | `OptDeclarationList` stops at `j` exactly when the tokens up to `j` spell an empty or non-empty declaration list and the token at `j` is no qualifier |
| ProgramProofs.ParameterSound | src/parser.py:97-100 | whatever `Parameter` accepts is an identifier list and a qualifier |
| ProgramProofs.ParameterComplete | src/parser.py:97-100 | every identifier list followed by a qualifier is accepted whole |
| ProgramProofs.ParameterExact | src/parser.py:97-100 | `Parameter` stops at `j` exactly when the tokens up to `j` spell `<IDs> <Qualifier>` |
| ProgramProofs.ParameterListSound | src/parser.py:90-95 | whatever `ParameterList` accepts is parameters separated by `,` separators, and the token after them is no `,` |
| ProgramProofs.ParameterListComplete | src/parser.py:90-95 | every such list followed by a token that is no `,` is accepted whole |
| ProgramProofs.ParameterListExact | src/parser.py:90-95 | `ParameterList` stops at `j` exactly when the tokens up to `j` spell parameters separated by `,` and the token at `j` is no `,` |
| ProgramProofs.OptParameterListSound | src/parser.py:83-88 | whatever `OptParameterList` accepts is nothing, when the token there is no identifier, or a parameter list not followed by `,` |
| ProgramProofs.OptParameterListComplete | src/parser.py:83-88 | nothing before a token that is no identifier, or a parameter list before a token that is no `,`, is accepted whole |
| ProgramProofs.OptParameterListExact | src/parser.py:83-88 | `OptParameterList` stops at `j` exactly when the tokens up to `j` are empty and the token at `j` is no identifier, or spell a parameter list and the token at `j` is no `,` |
| ProgramProofs.FunctionSound | src/parser.py:72-80 | whatever `Function` accepts is `function`, an identifier, `(`, optional parameters, `)`, optional declarations and a body |
| ProgramProofs.FunctionComplete | src/parser.py:72-80 | every well-formed function definition is accepted whole |
| ProgramProofs.FunctionExact | src/parser.py:72-80 | `Function` stops at `j` exactly when the tokens up to `j` spell a function definition |
| ProgramProofs.FunctionDefinitionsSound | src/parser.py:65-69 | whatever `FunctionDefinitions` accepts is one or more function definitions, and the token after them is no `function` |
| ProgramProofs.FunctionDefinitionsComplete | src/parser.py:65-69 | every such list followed by a token that is no `function` is accepted whole |
| ProgramProofs.FunctionDefinitionsExact | src/parser.py:65-69 | `FunctionDefinitions` stops at `j` exactly when the tokens up to `j` spell one or more function definitions and the token at `j` is no `function` |
| ProgramProofs.OptFunctionDefinitionsSound | src/parser.py:57-62 | whatever `OptFunctionDefinitions` accepts is nothing or a list of function definitions, and the token after it is no `function` |
| ProgramProofs.OptFunctionDefinitionsComplete | src/parser.py:57-62 | nothing, or a list of function definitions, followed by a token that is no `function` is accepted whole |
| ProgramProofs.OptFunctionDefinitionsExact | src/parser.py:57-62 | `OptFunctionDefinitions` stops at `j` exactly when the tokens up to `j` spell an empty or non-empty list of function definitions and the token at `j` is no `function` |
| ProgramProofs.Rat25SSound | src/parser.py:45-54 | whatever `Rat25S` accepts is `$$`, optional functions, `$$`, optional declarations, `$$`, statements, `$$` and `eof` |
| ProgramProofs.Rat25SComplete | src/parser.py:45-54 | every well-formed program is accepted whole |
| ProgramProofs.Rat25SExact | src/parser.py:45-54 | `Rat25S` stops at `j` exactly when the tokens up to `j` spell a whole program, closing `eof` included |
| ProgramProofs.ParseExact | src/parser.py:334-341 | a text parses exactly when its whole token sequence spells a well-formed program |
| ProgramProofs.OneAssignmentAccepted | src/parser.py:45-54 | the tokens of `$$ $$ $$ x = 1 ; $$` form a program: `Rat25S` accepts all nine |
| ProgramProofs.OneAssignmentParses | src/parser.py:334-341 | the text `$$ $$ $$ x = 1 ; $$` parses, ending after its `eof` |

## Left out

- The command-line entry points are not modelled, because they are file and console plumbing. This covers `main` in `src/lexer.py:251-272`, the file handling and output writing in `parse`, and the `__main__` block (`src/parser.py:334-350`). `Parser.Parse` is "tokenize, start at index 0 with an empty log, run `Rat25S`".
- Printing to stderr and `sys.exit(1)` are not modelled. A syntax error is a `Failure` result carrying the message.
- The text the parser writes is not modelled. This covers `Token.__str__`, the fixed-width lines written by `advance`, and the rule strings written by `prod`. The log keeps the same information abstractly: one entry per production and per consumed token. It is held as a list that grows at its end (`Log`).
- `TRACE` and `OUTFILE` are treated as both set: every production and every consumed token is logged.
- Python's Unicode `isalpha`, `isdigit`, `isalnum` and `lower` are reduced to ASCII letters and digits, to avoid modelling the Unicode tables. Whitespace follows Python's `isspace` set.
- Set iteration order in the multi-character table loop is not modelled. At most one entry can match at an index (`LexerProofs.MultiCharTablesDisjoint`), so the order makes no difference.
- The parser functions require a token sequence that ends with `eof` and a cursor on a token. On other input the source would raise `IndexError`. `Parse` always supplies such a sequence (`Lexer.Tokenize`).
- Error recovery and error counting are not modelled: the code stops at the first mismatch, and so does the model. Panic-mode recovery, which would skip a token per mismatch and count the diagnostics, is not modelled.
- A token is stamped with the line count at the start of its turn, not the line it begins on. That count is taken before the preceding whitespace and comments are skipped (`src/lexer.py:202`, `src/lexer.py:234`). `LexerProofs.LineStampedBeforeBlanks` shows this. The unclosed-comment report is likewise stamped with the line where its turn started, not where scanning stopped.
- The parser never reads past the final `eof`, so there is no synthetic `eof` to model. `Rat25S` ends by consuming that `eof`. `Primary` looks one token past an identifier, and that is in bounds because the identifier is not the final `eof`.
- Parser.Rat25S: its own contract states only progress, bounds and the log. Which token sequences it accepts is stated by ProgramProofs.Rat25SExact.
- Parser.StatementSection: its own contract states only progress, bounds and the log. Which token sequences it accepts is stated by ProgramProofs.Rat25SExact, of which it is the tail.
- Parser.OptFunctionDefinitions: its own contract states only progress, bounds and the log. Which token sequences it accepts is stated by ProgramProofs.OptFunctionDefinitionsExact.
- Parser.FunctionDefinitions: its own contract states only progress, bounds and the log. Which token sequences it accepts is stated by ProgramProofs.FunctionDefinitionsExact.
- Parser.Function: its own contract states only progress, bounds and the log. Which token sequences it accepts is stated by ProgramProofs.FunctionExact.
- Parser.OptParameterList: its own contract states only progress, bounds and the log. Which token sequences it accepts is stated by ProgramProofs.OptParameterListExact.
- Parser.ParameterList: its own contract states only progress, bounds and the log. Which token sequences it accepts is stated by ProgramProofs.ParameterListExact.
- Parser.Parameter: its own contract states only progress, bounds and the log. Which token sequences it accepts is stated by ProgramProofs.ParameterExact.
- Parser.Body: its own contract states only progress, bounds and the log. Which token sequences it accepts is stated by StatementProofs.BodyExact.
- Parser.OptDeclarationList: its own contract states only progress, bounds and the log. Which token sequences it accepts is stated by ProgramProofs.OptDeclarationListExact.
- Parser.DeclarationList: its own contract states only progress, bounds and the log. Which token sequences it accepts is stated by ProgramProofs.DeclarationListExact.
- Parser.Declaration: its own contract states only progress, bounds and the log. Which token sequences it accepts is stated by ProgramProofs.DeclarationExact.
- Parser.IDs: its own contract states only progress, bounds and the log. Which token sequences it accepts is stated by ParserProofs.IDsAcceptsIdList and ParserProofs.IdListAcceptedByIDs.
- Parser.StatementList: its own contract states only progress, bounds and the log. Which token sequences it accepts is stated by StatementProofs.StatementListExact.
- Parser.StatementListRest: its own contract states only progress, bounds and the log. Which token sequences it accepts is stated by StatementProofs.StatementListRestSound and StatementProofs.StatementListRestComplete.
- Parser.Statement: its own contract states only progress, bounds and the log. Which token sequences it accepts is stated by StatementProofs.StatementExact.
- Parser.Compound: its own contract states only progress, bounds and the log. Which token sequences it accepts is stated by StatementProofs.CompoundExact.
- Parser.Assign: its own contract states only progress, bounds and the log. Which token sequences it accepts is stated by StatementProofs.AssignExact.
- Parser.If: its own contract states only progress, bounds and the log. Which token sequences it accepts is stated by StatementProofs.IfExact.
- Parser.Return: its own contract states only progress, bounds and the log. Which token sequences it accepts is stated by StatementProofs.ReturnExact.
- Parser.Print: its own contract states only progress, bounds and the log. Which token sequences it accepts is stated by StatementProofs.PrintExact.
- Parser.Scan: its own contract states only progress, bounds and the log. Which token sequences it accepts is stated by StatementProofs.ScanExact.
- Parser.While: its own contract states only progress, bounds and the log. Which token sequences it accepts is stated by StatementProofs.WhileExact.
- Parser.Condition: its own contract states only progress, bounds and the log. Which token sequences it accepts is stated by StatementProofs.ConditionExact.
- Parser.Expression: its own contract states only progress, bounds and the log. Which token sequences it accepts is stated by ExpressionProofs.ExpressionExact.
- Parser.ExpressionPrime: its own contract states only progress, bounds and the log. Which token sequences it accepts is stated by ExpressionProofs.ExpressionExact.
- Parser.Term: its own contract states only progress, bounds and the log. Which token sequences it accepts is stated by ExpressionProofs.ExpressionExact.
- Parser.TermPrime: its own contract states only progress, bounds and the log. Which token sequences it accepts is stated by ExpressionProofs.ExpressionExact.
- Parser.Factor: its own contract states only progress, bounds and the log. Which token sequences it accepts is stated by ExpressionProofs.ExpressionExact.
- Parser.Primary: its own contract states only progress, bounds and the log. Which token sequences it accepts is stated by ExpressionProofs.ExpressionExact.
- Parser.CallPrimary: its own contract states only progress, bounds and the log. Which token sequences it accepts is stated by ParserProofs.CallPrimaryShape, ExpressionProofs.CallSound and ExpressionProofs.CallComplete.
- Parser.ParenthesizedPrimary: its own contract states only progress, bounds and the log. Which token sequences it accepts is stated by ExpressionProofs.ParenthesizedSound and ExpressionProofs.ParenthesizedComplete.
- Parser.Else: its own contract states which branch is taken, the in-place failure on a non-keyword `else` and progress. That a statement follows `else` is stated by StatementProofs.ElseSound and StatementProofs.ElseComplete, and the whole `if` by StatementProofs.IfExact.
- Lexer.LexAt: its own contract does not name the kind of the token, to keep the tokenizer proofs that unfold it small. `Lexer.LexAtClassified` states the kind for every input.
- Lexer.Tokenize: its own contract states only that the sequence ends with an empty `eof`. What the tokens spell is stated by LexerProofs.TokenizeSpellsText, LexerProofs.TokenizeLines and LexerProofs.TokenizeEofOnlyAtEnd.
- Lexer.TokenizeFrom: its own contract states only that the sequence ends with an empty `eof`. What the tokens spell is stated by the lemmas about Lexer.Tokenize.
- Lexer.LoopBody: its own contract states only that the sequence ends with an empty `eof`. What the tokens spell is stated by the lemmas about Lexer.Tokenize.
- Lexer.TokenizeAt: its own contract states only that the sequence ends with an empty `eof`. What the tokens spell is stated by the lemmas about Lexer.Tokenize.
