/**
  The Rat25S recursive-descent recogniser. There is one function per
  non-terminal of the factored grammar (rules R1 to R28); each takes the
  token sequence and a parser state (the cursor and the log written so
  far) and returns the state after the non-terminal, or the first syntax
  error. The parser chooses productions by one token of lookahead on kind
  and lexeme, and it stops at the first mismatch: there is no recovery.
 */
module Parser {
  import opened Wrappers
  import opened Tokens
  import Lexer

  /** The productions the parser logs, one per alternative it can choose. */
  datatype Production =
    | Rat25SRule
    | OptFunctionDefinitionsSome | OptFunctionDefinitionsEmpty
    | FunctionDefinitionsRule | FunctionRule
    | OptParameterListSome | OptParameterListEmpty
    | ParameterListRule | ParameterRule | QualifierRule | BodyRule
    | OptDeclarationListSome | OptDeclarationListEmpty
    | DeclarationListRule | DeclarationRule | IDsRule
    | StatementListRule
    | StatementCompound | StatementAssign | StatementIf | StatementWhile
    | StatementReturn | StatementPrint | StatementScan
    | CompoundRule | AssignRule | IfRule | ReturnRule | PrintRule | ScanRule | WhileRule
    | ConditionRule | RelopRule
    | ExpressionRule | ExpressionPrimeMore | ExpressionPrimeEmpty
    | TermRule | TermPrimeMore | TermPrimeEmpty
    | FactorNegated | FactorPlain
    | PrimaryCall | PrimaryIdentifier | PrimaryLiteral | PrimaryBoolean | PrimaryParenthesized

  /** One line of the parse log: a production applied, or a token consumed. */
  datatype Entry = Apply(rule: Production) | Shift(token: Token)

  /** The parse log, oldest entry innermost: `Snoc(log, e)` is `log` with `e` written after it. */
  datatype Log = Empty | Snoc(init: Log, last: Entry)

  /** The cursor into the token sequence and the log written so far. */
  datatype State = State(pos: nat, trace: Log)

  /** Why the parse stopped; `Text` gives the message the parser reports. */
  datatype Complaint =
    | Expected(kind: TokenKind, lexeme: Option<string>)
    | QualifierExpected
    | UnexpectedKeyword
    | InvalidStatementStart
    | RelopExpected
    | InvalidPrimary

  /** The first mismatch: its index, the token found there, the complaint, and the log written before it. */
  datatype SyntaxError = SyntaxError(pos: nat, at: Token, complaint: Complaint, trace: Log)

  type ParseResult = Result<State, SyntaxError>

  /** The shape the tokenizer guarantees: a non-empty sequence closed by an `Eof` with an empty lexeme. */
  predicate EndsWithEof(toks: seq<Token>) {
    |toks| > 0 && toks[|toks| - 1].kind == Eof && toks[|toks| - 1].lexeme == ""
  }

  /** A state a grammar procedure may start from: the cursor is on a token. */
  predicate Valid(toks: seq<Token>, s: State) {
    EndsWithEof(toks) && s.pos < |toks|
  }

  /** The tokens a log records as consumed, in order. */
  function Shifted(trace: Log): seq<Token> {
    match trace
    case Empty => []
    case Snoc(init, Shift(t)) => Shifted(init) + [t]
    case Snoc(init, Apply(_)) => Shifted(init)
  }

  /**
    `trace` logs exactly the tokens `toks[..n]`, in order, between its
    production entries. This is `Shifted(trace) == toks[..n]` stated entry
    by entry (ParserProofs.RecordsIsShifted).
   */
  predicate Records(trace: Log, toks: seq<Token>, n: nat) {
    match trace
    case Empty => n == 0
    case Snoc(init, Apply(_)) => Records(init, toks, n)
    case Snoc(init, Shift(t)) => 0 < n <= |toks| && toks[n - 1] == t && Records(init, toks, n - 1)
  }

  /** The log records exactly the tokens before the cursor. */
  predicate Logged(toks: seq<Token>, s: State) {
    s.pos <= |toks| && Records(s.trace, toks, s.pos)
  }

  /** The same for a result; an error also names the token it stopped at. */
  predicate LoggedResult(toks: seq<Token>, r: ParseResult) {
    match r
    case Success(s) => Logged(toks, s)
    case Failure(e) => e.pos < |toks| && e.at == toks[e.pos] && Records(e.trace, toks, e.pos)
  }

  /** The lookahead: the token `Advance` consumes and logs, and the one a failure reports (ParserProofs.CurrentIsLookahead). */
  function Current(toks: seq<Token>, s: State): Token
    requires s.pos < |toks|
  {
    toks[s.pos]
  }

  /** Consumes the current token and logs it. */
  function Advance(toks: seq<Token>, s: State): (r: State)
    requires s.pos < |toks|
    ensures r.pos == s.pos + 1
    ensures r.trace == Snoc(s.trace, Shift(toks[s.pos]))
    ensures Logged(toks, s) ==> Logged(toks, r)
  {
    State(s.pos + 1, Snoc(s.trace, Shift(toks[s.pos])))
  }

  /** Logs a production; the cursor does not move. */
  function Prod(s: State, rule: Production): (r: State)
    ensures r.pos == s.pos && r.trace == Snoc(s.trace, Apply(rule))
    ensures forall toks :: Logged(toks, s) ==> Logged(toks, r)
  {
    State(s.pos, Snoc(s.trace, Apply(rule)))
  }

  /** Stops the parse at the current token. */
  function Fail(toks: seq<Token>, s: State, complaint: Complaint): (r: ParseResult)
    requires s.pos < |toks|
    ensures r.Failure? && r.error.pos == s.pos && r.error.complaint == complaint
    ensures Logged(toks, s) ==> LoggedResult(toks, r)
  {
    Failure(SyntaxError(s.pos, toks[s.pos], complaint, s.trace))
  }

  /**
    The message text of a complaint. A failed `Expect` names the kind and
    then, when one was asked for and it is not empty, the lexeme.
   */
  function Text(c: Complaint): (r: string)
    ensures c.Expected? <==> |r| >= 9 && r[..9] == "expected "
    ensures c.Expected? ==> |r| >= 9 + |KindName(c.kind)| && r[9..9 + |KindName(c.kind)|] == KindName(c.kind)
    ensures c.Expected? && c.lexeme.Some? && c.lexeme.value != "" ==>
              |r| == 10 + |KindName(c.kind)| + |c.lexeme.value| && r[|r| - |c.lexeme.value| - 1..] == " " + c.lexeme.value
    ensures c.Expected? && (c.lexeme.None? || c.lexeme.value == "") ==> |r| == 9 + |KindName(c.kind)|
  {
    var r := match c
      case Expected(kind, lexeme) =>
        "expected " + KindName(kind) + (if lexeme.Some? && lexeme.value != "" then " " + lexeme.value else "")
      case QualifierExpected => "qualifier (integer/boolean/real) expected"
      case UnexpectedKeyword => "unexpected keyword in statement"
      case InvalidStatementStart => "invalid statement start"
      case RelopExpected => "relational operator expected"
      case InvalidPrimary => "invalid primary";
    assert !c.Expected? ==> r[0] != 'e' && r[..9][0] == r[0];
    r
  }

  /** Consumes the current token if it has the kind and, when one is given, the exact lexeme; otherwise fails. */
  function Expect(toks: seq<Token>, s: State, kind: TokenKind, lexeme: Option<string>): (r: ParseResult)
    requires Valid(toks, s)
    ensures r.Success? <==> toks[s.pos].kind == kind && (lexeme.None? || toks[s.pos].lexeme == lexeme.value)
    ensures r.Success? ==> r.value.pos == s.pos + 1 && (kind != Eof ==> r.value.pos < |toks|)
    ensures r.Success? ==> r.value.trace == Snoc(s.trace, Shift(toks[s.pos]))
    ensures r.Failure? ==> r.error == SyntaxError(s.pos, toks[s.pos], Expected(kind, lexeme), s.trace)
    ensures Logged(toks, s) ==> LoggedResult(toks, r)
  {
    var tok := Current(toks, s);
    if tok.kind != kind || (lexeme.Some? && tok.lexeme != lexeme.value) then
      Fail(toks, s, Expected(kind, lexeme))
    else
      Success(Advance(toks, s))
  }

  /** The keywords that start a statement after the first one of a list. */
  predicate IsStatementKeyword(lexeme: string) {
    lexeme == "if" || lexeme == "while" || lexeme == "return" || lexeme == "scan" || lexeme == "print"
  }

  /** The lookahead that keeps a statement list going: `{`, an identifier, or a statement keyword. */
  predicate StartsStatement(tok: Token) {
    || (tok.kind == Separator && tok.lexeme == "{")
    || tok.kind == Identifier
    || (tok.kind == Keyword && IsStatementKeyword(tok.lexeme))
  }

  // ---------------------------------------------------------------------------
  // R1: the program
  // ---------------------------------------------------------------------------

  /** `$$ <OptFunctionDefinitions> $$ <OptDeclarationList> $$ <StatementList> $$`, then `Eof`. */
  function Rat25S(toks: seq<Token>, s: State): (r: ParseResult)
    requires Valid(toks, s)
    ensures r.Success? ==> s.pos < r.value.pos <= |toks| && toks[r.value.pos - 1].kind == Eof
    ensures r.Failure? ==> s.pos <= r.error.pos
    ensures Logged(toks, s) ==> LoggedResult(toks, r)
  {
    var s0 := Prod(s, Rat25SRule);
    var s1 :- Expect(toks, s0, Separator, Some("$$"));
    var s2 :- OptFunctionDefinitions(toks, s1);
    var s3 :- Expect(toks, s2, Separator, Some("$$"));
    var s4 :- OptDeclarationList(toks, s3);
    var s5 :- Expect(toks, s4, Separator, Some("$$"));
    StatementSection(toks, s5)
  }

  /** The tail of R1 after the third `$$`: `<StatementList> $$`, then `Eof`. */
  function StatementSection(toks: seq<Token>, s: State): (r: ParseResult)
    requires Valid(toks, s)
    ensures r.Success? ==> s.pos < r.value.pos <= |toks| && toks[r.value.pos - 1].kind == Eof
    ensures r.Failure? ==> s.pos <= r.error.pos
    ensures Logged(toks, s) ==> LoggedResult(toks, r)
  {
    var s1 :- StatementList(toks, s);
    var s2 :- Expect(toks, s1, Separator, Some("$$"));
    Expect(toks, s2, Eof, None)
  }

  // ---------------------------------------------------------------------------
  // R2 to R8: functions and parameters
  // ---------------------------------------------------------------------------

  function OptFunctionDefinitions(toks: seq<Token>, s: State): (r: ParseResult)
    requires Valid(toks, s)
    ensures r.Success? ==> s.pos <= r.value.pos < |toks|
    ensures r.Failure? ==> s.pos <= r.error.pos
    ensures Logged(toks, s) ==> LoggedResult(toks, r)
  {
    if Current(toks, s).lexeme == "function" then
      FunctionDefinitions(toks, Prod(s, OptFunctionDefinitionsSome))
    else
      Success(Prod(s, OptFunctionDefinitionsEmpty))
  }

  function FunctionDefinitions(toks: seq<Token>, s: State): (r: ParseResult)
    requires Valid(toks, s)
    ensures r.Success? ==> s.pos < r.value.pos < |toks|
    ensures r.Failure? ==> s.pos <= r.error.pos
    ensures Logged(toks, s) ==> LoggedResult(toks, r)
    decreases |toks| - s.pos, 1
  {
    var s1 :- Function(toks, Prod(s, FunctionDefinitionsRule));
    if Current(toks, s1).lexeme == "function" then FunctionDefinitions(toks, s1) else Success(s1)
  }

  function Function(toks: seq<Token>, s: State): (r: ParseResult)
    requires Valid(toks, s)
    ensures r.Success? ==> s.pos < r.value.pos < |toks|
    ensures r.Failure? ==> s.pos <= r.error.pos
    ensures Logged(toks, s) ==> LoggedResult(toks, r)
    decreases |toks| - s.pos, 0
  {
    var s0 := Prod(s, FunctionRule);
    var s1 :- Expect(toks, s0, Keyword, Some("function"));
    var s2 :- Expect(toks, s1, Identifier, None);
    var s3 :- Expect(toks, s2, Separator, Some("("));
    var s4 :- OptParameterList(toks, s3);
    var s5 :- Expect(toks, s4, Separator, Some(")"));
    var s6 :- OptDeclarationList(toks, s5);
    Body(toks, s6)
  }

  function OptParameterList(toks: seq<Token>, s: State): (r: ParseResult)
    requires Valid(toks, s)
    ensures r.Success? ==> s.pos <= r.value.pos < |toks|
    ensures r.Failure? ==> s.pos <= r.error.pos
    ensures Logged(toks, s) ==> LoggedResult(toks, r)
  {
    if Current(toks, s).kind == Identifier then
      ParameterList(toks, Prod(s, OptParameterListSome))
    else
      Success(Prod(s, OptParameterListEmpty))
  }

  function ParameterList(toks: seq<Token>, s: State): (r: ParseResult)
    requires Valid(toks, s)
    ensures r.Success? ==> s.pos < r.value.pos < |toks|
    ensures r.Failure? ==> s.pos <= r.error.pos
    ensures Logged(toks, s) ==> LoggedResult(toks, r)
    decreases |toks| - s.pos
  {
    var s1 :- Parameter(toks, Prod(s, ParameterListRule));
    if Current(toks, s1).lexeme == "," then
      var s2 :- Expect(toks, s1, Separator, Some(","));
      ParameterList(toks, s2)
    else
      Success(s1)
  }

  function Parameter(toks: seq<Token>, s: State): (r: ParseResult)
    requires Valid(toks, s)
    ensures r.Success? ==> s.pos < r.value.pos < |toks|
    ensures r.Failure? ==> s.pos <= r.error.pos
    ensures Logged(toks, s) ==> LoggedResult(toks, r)
  {
    var s1 :- IDs(toks, Prod(s, ParameterRule));
    Qualifier(toks, s1)
  }

  /** A qualifier is recognised by its lexeme alone, whatever the token's kind. */
  function Qualifier(toks: seq<Token>, s: State): (r: ParseResult)
    requires Valid(toks, s)
    ensures r.Success? <==> IsQualifier(toks[s.pos].lexeme)
    ensures r.Success? ==> r.value.pos == s.pos + 1 < |toks|
    ensures r.Failure? ==> r.error.pos == s.pos && r.error.complaint == QualifierExpected
    ensures Logged(toks, s) ==> LoggedResult(toks, r)
  {
    var s1 := Prod(s, QualifierRule);
    if IsQualifier(Current(toks, s1).lexeme) then Success(Advance(toks, s1))
    else Fail(toks, s1, QualifierExpected)
  }

  /** `{ <StatementList> }` */
  function Body(toks: seq<Token>, s: State): (r: ParseResult)
    requires Valid(toks, s)
    ensures r.Success? ==> s.pos < r.value.pos < |toks|
    ensures r.Failure? ==> s.pos <= r.error.pos
    ensures Logged(toks, s) ==> LoggedResult(toks, r)
  {
    var s0 := Prod(s, BodyRule);
    var s1 :- Expect(toks, s0, Separator, Some("{"));
    var s2 :- StatementList(toks, s1);
    Expect(toks, s2, Separator, Some("}"))
  }

  // ---------------------------------------------------------------------------
  // R10 to R13: declarations
  // ---------------------------------------------------------------------------

  function OptDeclarationList(toks: seq<Token>, s: State): (r: ParseResult)
    requires Valid(toks, s)
    ensures r.Success? ==> s.pos <= r.value.pos < |toks|
    ensures r.Failure? ==> s.pos <= r.error.pos
    ensures Logged(toks, s) ==> LoggedResult(toks, r)
  {
    if IsQualifier(Current(toks, s).lexeme) then
      DeclarationList(toks, Prod(s, OptDeclarationListSome))
    else
      Success(Prod(s, OptDeclarationListEmpty))
  }

  function DeclarationList(toks: seq<Token>, s: State): (r: ParseResult)
    requires Valid(toks, s)
    ensures r.Success? ==> s.pos < r.value.pos < |toks|
    ensures r.Failure? ==> s.pos <= r.error.pos
    ensures Logged(toks, s) ==> LoggedResult(toks, r)
    decreases |toks| - s.pos
  {
    var s1 :- Declaration(toks, Prod(s, DeclarationListRule));
    var s2 :- Expect(toks, s1, Separator, Some(";"));
    if IsQualifier(Current(toks, s2).lexeme) then DeclarationList(toks, s2) else Success(s2)
  }

  function Declaration(toks: seq<Token>, s: State): (r: ParseResult)
    requires Valid(toks, s)
    ensures r.Success? ==> s.pos < r.value.pos < |toks|
    ensures r.Failure? ==> s.pos <= r.error.pos
    ensures Logged(toks, s) ==> LoggedResult(toks, r)
  {
    var s1 :- Qualifier(toks, Prod(s, DeclarationRule));
    IDs(toks, s1)
  }

  /** `id [ , <IDs> ]`: an identifier, and more after each `,`. */
  function IDs(toks: seq<Token>, s: State): (r: ParseResult)
    requires Valid(toks, s)
    ensures r.Success? ==> s.pos < r.value.pos < |toks|
    ensures r.Failure? ==> s.pos <= r.error.pos
    ensures Logged(toks, s) ==> LoggedResult(toks, r)
    decreases |toks| - s.pos
  {
    var s0 := Prod(s, IDsRule);
    var s1 :- Expect(toks, s0, Identifier, None);
    if Current(toks, s1).lexeme == "," then
      var s2 :- Expect(toks, s1, Separator, Some(","));
      IDs(toks, s2)
    else
      Success(s1)
  }

  // ---------------------------------------------------------------------------
  // R14 to R22: statements
  // ---------------------------------------------------------------------------

  /** At least one statement, then more while the lookahead can start one. */
  function StatementList(toks: seq<Token>, s: State): (r: ParseResult)
    requires Valid(toks, s)
    ensures r.Success? ==> s.pos < r.value.pos < |toks|
    ensures r.Failure? ==> s.pos <= r.error.pos
    ensures Logged(toks, s) ==> LoggedResult(toks, r)
    decreases |toks| - s.pos, 3
  {
    var s1 :- Statement(toks, Prod(s, StatementListRule));
    StatementListRest(toks, s1)
  }

  /** The loop after the first statement of a list: one more statement while the lookahead starts one. */
  function StatementListRest(toks: seq<Token>, s: State): (r: ParseResult)
    requires Valid(toks, s)
    ensures r.Success? ==> s.pos <= r.value.pos < |toks| && !StartsStatement(toks[r.value.pos])
    ensures r.Failure? ==> s.pos <= r.error.pos
    ensures Logged(toks, s) ==> LoggedResult(toks, r)
    decreases |toks| - s.pos, 2
  {
    if StartsStatement(Current(toks, s)) then
      var s1 :- Statement(toks, s);
      StatementListRest(toks, s1)
    else
      Success(s)
  }

  /** Chooses the statement form by the current token; any other start is an error. */
  function Statement(toks: seq<Token>, s: State): (r: ParseResult)
    requires Valid(toks, s)
    ensures r.Success? ==> s.pos < r.value.pos < |toks|
    ensures r.Failure? ==> s.pos <= r.error.pos
    ensures Logged(toks, s) ==> LoggedResult(toks, r)
    decreases |toks| - s.pos, 1
  {
    var tok := Current(toks, s);
    if tok.kind == Separator && tok.lexeme == "{" then Compound(toks, Prod(s, StatementCompound))
    else if tok.kind == Identifier then Assign(toks, Prod(s, StatementAssign))
    else if tok.kind == Keyword then
      if tok.lexeme == "if" then If(toks, Prod(s, StatementIf))
      else if tok.lexeme == "while" then While(toks, Prod(s, StatementWhile))
      else if tok.lexeme == "return" then Return(toks, Prod(s, StatementReturn))
      else if tok.lexeme == "print" then Print(toks, Prod(s, StatementPrint))
      else if tok.lexeme == "scan" then Scan(toks, Prod(s, StatementScan))
      else Fail(toks, s, UnexpectedKeyword)
    else
      Fail(toks, s, InvalidStatementStart)
  }

  /** `{ <StatementList> }` */
  function Compound(toks: seq<Token>, s: State): (r: ParseResult)
    requires Valid(toks, s)
    ensures r.Success? ==> s.pos < r.value.pos < |toks|
    ensures r.Failure? ==> s.pos <= r.error.pos
    ensures Logged(toks, s) ==> LoggedResult(toks, r)
    decreases |toks| - s.pos, 0
  {
    var s0 := Prod(s, CompoundRule);
    var s1 :- Expect(toks, s0, Separator, Some("{"));
    var s2 :- StatementList(toks, s1);
    Expect(toks, s2, Separator, Some("}"))
  }

  /** `id = <Expression> ;` */
  function Assign(toks: seq<Token>, s: State): (r: ParseResult)
    requires Valid(toks, s)
    ensures r.Success? ==> s.pos < r.value.pos < |toks|
    ensures r.Failure? ==> s.pos <= r.error.pos
    ensures Logged(toks, s) ==> LoggedResult(toks, r)
  {
    var s0 := Prod(s, AssignRule);
    var s1 :- Expect(toks, s0, Identifier, None);
    var s2 :- Expect(toks, s1, Operator, Some("="));
    var s3 :- Expression(toks, s2);
    Expect(toks, s3, Separator, Some(";"))
  }

  /** `if ( <Condition> ) <Statement> [else <Statement>] endif` */
  function If(toks: seq<Token>, s: State): (r: ParseResult)
    requires Valid(toks, s)
    ensures r.Success? ==> s.pos < r.value.pos < |toks|
    ensures r.Failure? ==> s.pos <= r.error.pos
    ensures Logged(toks, s) ==> LoggedResult(toks, r)
    decreases |toks| - s.pos, 0
  {
    var s0 := Prod(s, IfRule);
    var s1 :- Expect(toks, s0, Keyword, Some("if"));
    var s2 :- Expect(toks, s1, Separator, Some("("));
    var s3 :- Condition(toks, s2);
    var s4 :- Expect(toks, s3, Separator, Some(")"));
    var s5 :- Statement(toks, s4);
    var s6 :- Else(toks, s5);
    Expect(toks, s6, Keyword, Some("endif"))
  }

  /** The optional `else <Statement>` of an `if`, taken exactly when the lookahead lexeme is `else`. */
  function Else(toks: seq<Token>, s: State): (r: ParseResult)
    requires Valid(toks, s)
    ensures r.Success? ==> s.pos <= r.value.pos < |toks|
    ensures r.Failure? ==> s.pos <= r.error.pos
    ensures Current(toks, s).lexeme != "else" ==> r == Success(s)
    ensures Current(toks, s).lexeme == "else" && r.Success? ==>
              toks[s.pos].kind == Keyword && s.pos + 2 <= r.value.pos
    ensures Current(toks, s).lexeme == "else" && toks[s.pos].kind != Keyword ==>
              r == Failure(SyntaxError(s.pos, toks[s.pos], Expected(Keyword, Some("else")), s.trace))
    ensures Logged(toks, s) ==> LoggedResult(toks, r)
    decreases |toks| - s.pos, 0
  {
    if Current(toks, s).lexeme == "else" then
      var s1 :- Expect(toks, s, Keyword, Some("else"));
      Statement(toks, s1)
    else
      Success(s)
  }

  /** `return ;` or `return <Expression> ;`, told apart by whether the lookahead is `;`. */
  function Return(toks: seq<Token>, s: State): (r: ParseResult)
    requires Valid(toks, s)
    ensures r.Success? ==> s.pos < r.value.pos < |toks|
    ensures r.Failure? ==> s.pos <= r.error.pos
    ensures Logged(toks, s) ==> LoggedResult(toks, r)
  {
    var s0 := Prod(s, ReturnRule);
    var s1 :- Expect(toks, s0, Keyword, Some("return"));
    var s2 :- if Current(toks, s1).lexeme != ";" then Expression(toks, s1) else Success(s1);
    Expect(toks, s2, Separator, Some(";"))
  }

  /** `print ( <Expression> ) ;` */
  function Print(toks: seq<Token>, s: State): (r: ParseResult)
    requires Valid(toks, s)
    ensures r.Success? ==> s.pos < r.value.pos < |toks|
    ensures r.Failure? ==> s.pos <= r.error.pos
    ensures Logged(toks, s) ==> LoggedResult(toks, r)
  {
    var s0 := Prod(s, PrintRule);
    var s1 :- Expect(toks, s0, Keyword, Some("print"));
    var s2 :- Expect(toks, s1, Separator, Some("("));
    var s3 :- Expression(toks, s2);
    var s4 :- Expect(toks, s3, Separator, Some(")"));
    Expect(toks, s4, Separator, Some(";"))
  }

  /** `scan ( <IDs> ) ;` */
  function Scan(toks: seq<Token>, s: State): (r: ParseResult)
    requires Valid(toks, s)
    ensures r.Success? ==> s.pos < r.value.pos < |toks|
    ensures r.Failure? ==> s.pos <= r.error.pos
    ensures Logged(toks, s) ==> LoggedResult(toks, r)
  {
    var s0 := Prod(s, ScanRule);
    var s1 :- Expect(toks, s0, Keyword, Some("scan"));
    var s2 :- Expect(toks, s1, Separator, Some("("));
    var s3 :- IDs(toks, s2);
    var s4 :- Expect(toks, s3, Separator, Some(")"));
    Expect(toks, s4, Separator, Some(";"))
  }

  /** `while ( <Condition> ) <Statement> endwhile` */
  function While(toks: seq<Token>, s: State): (r: ParseResult)
    requires Valid(toks, s)
    ensures r.Success? ==> s.pos < r.value.pos < |toks|
    ensures r.Failure? ==> s.pos <= r.error.pos
    ensures Logged(toks, s) ==> LoggedResult(toks, r)
    decreases |toks| - s.pos, 0
  {
    var s0 := Prod(s, WhileRule);
    var s1 :- Expect(toks, s0, Keyword, Some("while"));
    var s2 :- Expect(toks, s1, Separator, Some("("));
    var s3 :- Condition(toks, s2);
    var s4 :- Expect(toks, s3, Separator, Some(")"));
    var s5 :- Statement(toks, s4);
    Expect(toks, s5, Keyword, Some("endwhile"))
  }

  // ---------------------------------------------------------------------------
  // R23 to R28: conditions and expressions
  // ---------------------------------------------------------------------------

  /** `<Expression> <Relop> <Expression>` */
  function Condition(toks: seq<Token>, s: State): (r: ParseResult)
    requires Valid(toks, s)
    ensures r.Success? ==> s.pos < r.value.pos < |toks|
    ensures r.Failure? ==> s.pos <= r.error.pos
    ensures Logged(toks, s) ==> LoggedResult(toks, r)
  {
    var s1 :- Expression(toks, Prod(s, ConditionRule));
    var s2 :- Relop(toks, s1);
    Expression(toks, s2)
  }

  /** One operator token among `==`, `!=`, `<`, `>`, `<=`, `=>`. */
  function Relop(toks: seq<Token>, s: State): (r: ParseResult)
    requires Valid(toks, s)
    ensures r.Success? <==> toks[s.pos].kind == Operator && IsRelationalOperator(toks[s.pos].lexeme)
    ensures r.Success? ==> r.value.pos == s.pos + 1 < |toks|
    ensures r.Failure? ==> r.error.pos == s.pos && r.error.complaint == RelopExpected
    ensures Logged(toks, s) ==> LoggedResult(toks, r)
  {
    var s1 := Prod(s, RelopRule);
    var tok := Current(toks, s1);
    if tok.kind == Operator && IsRelationalOperator(tok.lexeme) then Success(Advance(toks, s1))
    else Fail(toks, s1, RelopExpected)
  }

  /** `<Term> <ExpressionPrime>` */
  function Expression(toks: seq<Token>, s: State): (r: ParseResult)
    requires Valid(toks, s)
    ensures r.Success? ==> s.pos < r.value.pos < |toks|
    ensures r.Failure? ==> s.pos <= r.error.pos
    ensures Logged(toks, s) ==> LoggedResult(toks, r)
    decreases |toks| - s.pos, 4
  {
    var s1 :- Term(toks, Prod(s, ExpressionRule));
    ExpressionPrime(toks, s1)
  }

  /** `(+|-) <Term> <ExpressionPrime>` when the lookahead is a `+` or `-` operator, else nothing. */
  function ExpressionPrime(toks: seq<Token>, s: State): (r: ParseResult)
    requires Valid(toks, s)
    ensures r.Success? ==> s.pos <= r.value.pos < |toks|
    ensures r.Failure? ==> s.pos <= r.error.pos
    ensures Logged(toks, s) ==> LoggedResult(toks, r)
    decreases |toks| - s.pos, 4
  {
    var tok := Current(toks, s);
    if tok.kind == Operator && (tok.lexeme == "+" || tok.lexeme == "-") then
      var s1 := Advance(toks, Prod(s, ExpressionPrimeMore));
      var s2 :- Term(toks, s1);
      ExpressionPrime(toks, s2)
    else
      Success(Prod(s, ExpressionPrimeEmpty))
  }

  /** `<Factor> <TermPrime>` */
  function Term(toks: seq<Token>, s: State): (r: ParseResult)
    requires Valid(toks, s)
    ensures r.Success? ==> s.pos < r.value.pos < |toks|
    ensures r.Failure? ==> s.pos <= r.error.pos
    ensures Logged(toks, s) ==> LoggedResult(toks, r)
    decreases |toks| - s.pos, 3
  {
    var s1 :- Factor(toks, Prod(s, TermRule));
    TermPrime(toks, s1)
  }

  /** `(*|/) <Factor> <TermPrime>` when the lookahead is a `*` or `/` operator, else nothing. */
  function TermPrime(toks: seq<Token>, s: State): (r: ParseResult)
    requires Valid(toks, s)
    ensures r.Success? ==> s.pos <= r.value.pos < |toks|
    ensures r.Failure? ==> s.pos <= r.error.pos
    ensures Logged(toks, s) ==> LoggedResult(toks, r)
    decreases |toks| - s.pos, 3
  {
    var tok := Current(toks, s);
    if tok.kind == Operator && (tok.lexeme == "*" || tok.lexeme == "/") then
      var s1 := Advance(toks, Prod(s, TermPrimeMore));
      var s2 :- Factor(toks, s1);
      TermPrime(toks, s2)
    else
      Success(Prod(s, TermPrimeEmpty))
  }

  /** `- <Primary>` when the lookahead lexeme is `-`, else `<Primary>`. */
  function Factor(toks: seq<Token>, s: State): (r: ParseResult)
    requires Valid(toks, s)
    ensures r.Success? ==> s.pos < r.value.pos < |toks|
    ensures r.Failure? ==> s.pos <= r.error.pos
    ensures Logged(toks, s) ==> LoggedResult(toks, r)
    decreases |toks| - s.pos, 2
  {
    if Current(toks, s).lexeme == "-" then
      Primary(toks, Advance(toks, Prod(s, FactorNegated)))
    else
      Primary(toks, Prod(s, FactorPlain))
  }

  /**
    A call `id ( <IDs> )` when an identifier is followed by `(`, a bare
    identifier, an integer or real literal, `true` or `false`, or a
    parenthesised expression.
   */
  function Primary(toks: seq<Token>, s: State): (r: ParseResult)
    requires Valid(toks, s)
    ensures r.Success? ==> s.pos < r.value.pos < |toks|
    ensures r.Failure? ==> s.pos <= r.error.pos
    ensures Logged(toks, s) ==> LoggedResult(toks, r)
    decreases |toks| - s.pos, 1
  {
    var tok := Current(toks, s);
    if tok.kind == Identifier then
      if toks[s.pos + 1].lexeme == "(" then CallPrimary(toks, s)
      else Expect(toks, Prod(s, PrimaryIdentifier), Identifier, None)
    else if tok.kind == Integer || tok.kind == Real then
      Success(Advance(toks, Prod(s, PrimaryLiteral)))
    else if tok.kind == Keyword && (tok.lexeme == "true" || tok.lexeme == "false") then
      Success(Advance(toks, Prod(s, PrimaryBoolean)))
    else if tok.kind == Separator && tok.lexeme == "(" then
      ParenthesizedPrimary(toks, s)
    else
      Fail(toks, s, InvalidPrimary)
  }

  /** The call form of `Primary`, chosen when an identifier is followed by a `(` lexeme. */
  function CallPrimary(toks: seq<Token>, s: State): (r: ParseResult)
    requires Valid(toks, s) && toks[s.pos].kind == Identifier
    ensures r.Success? ==> s.pos + 3 < r.value.pos < |toks|
    ensures r.Failure? ==> s.pos + 1 <= r.error.pos
    ensures Logged(toks, s) ==> LoggedResult(toks, r)
  {
    // The first `Expect` cannot fail: the caller checked the token.
    var s1 := Expect(toks, Prod(s, PrimaryCall), Identifier, None).value;
    var s2 :- Expect(toks, s1, Separator, Some("("));
    var s3 :- IDs(toks, s2);
    Expect(toks, s3, Separator, Some(")"))
  }

  /** The parenthesised form of `Primary`, chosen at a `(` separator. */
  function ParenthesizedPrimary(toks: seq<Token>, s: State): (r: ParseResult)
    requires Valid(toks, s) && toks[s.pos].kind == Separator && toks[s.pos].lexeme == "("
    ensures r.Success? ==> s.pos + 2 < r.value.pos < |toks|
    ensures r.Failure? ==> s.pos + 1 <= r.error.pos
    ensures Logged(toks, s) ==> LoggedResult(toks, r)
    decreases |toks| - s.pos, 0
  {
    var s1 := Expect(toks, Prod(s, PrimaryParenthesized), Separator, Some("(")).value;
    var s2 :- Expression(toks, s1);
    Expect(toks, s2, Separator, Some(")"))
  }

  // ---------------------------------------------------------------------------
  // The driver
  // ---------------------------------------------------------------------------

  /** Tokenizes the text and runs `Rat25S` from the first token with an empty log. */
  function Parse(text: string): (r: ParseResult)
    ensures var toks := Lexer.Tokenize(text);
            r.Success? ==> 0 < r.value.pos <= |toks| && toks[r.value.pos - 1].kind == Eof
    ensures LoggedResult(Lexer.Tokenize(text), r)
  {
    var toks := Lexer.Tokenize(text);
    assert Logged(toks, State(0, Empty));
    Rat25S(toks, State(0, Empty))
  }
}
