/** Properties of the recogniser: the log, exact acceptance conditions, and the error paths. */
module ParserProofs {
  import opened Wrappers
  import opened Tokens
  import opened Parser
  import Lexer
  import LexerProofs

  // ---------------------------------------------------------------------------
  // The log
  // ---------------------------------------------------------------------------

  /** The lookahead is the token that `Advance` then logs as consumed, and the token every failure there reports. */
  lemma CurrentIsLookahead(toks: seq<Token>, s: State)
    requires s.pos < |toks|
    ensures Advance(toks, s).trace == Snoc(s.trace, Shift(Current(toks, s)))
    ensures forall c :: Fail(toks, s, c).error.at == Current(toks, s)
  {
  }

  /** The entry-by-entry invariant is the same as "the consumed tokens of the log are `toks[..n]`". */
  lemma {:induction false} RecordsIsShifted(trace: Log, toks: seq<Token>, n: nat)
    requires n <= |toks|
    ensures Records(trace, toks, n) <==> Shifted(trace) == toks[..n]
  {
    match trace
    case Empty =>
    case Snoc(init, Apply(_)) =>
      RecordsIsShifted(init, toks, n);
    case Snoc(init, Shift(t)) =>
      if n > 0 {
        RecordsIsShifted(init, toks, n - 1);
        assert toks[..n] == toks[..n - 1] + [toks[n - 1]];
        if Shifted(trace) == toks[..n] {
          assert Shifted(init) + [t] == toks[..n];
          assert Shifted(init) == toks[..n][..n - 1];
        }
      }
  }

  /**
    Parsing a text ends, on success, exactly past the `Eof` the tokenizer
    appended, with every token logged once and in order; on failure the log
    holds exactly the tokens before the one the parse stopped at.
   */
  lemma ParseLogsEveryToken(text: string)
    ensures var toks := Lexer.Tokenize(text);
            var r := Parse(text);
            && (r.Success? ==> r.value.pos == |toks| && Shifted(r.value.trace) == toks)
            && (r.Failure? ==> r.error.pos < |toks| && r.error.at == toks[r.error.pos]
                               && Shifted(r.error.trace) == toks[..r.error.pos])
  {
    var toks := Lexer.Tokenize(text);
    var r := Parse(text);
    LexerProofs.TokenizeEofOnlyAtEnd(text);
    match r
    case Success(s) =>
      RecordsIsShifted(s.trace, toks, s.pos);
      assert s.pos == |toks|;
      assert toks[..s.pos] == toks;
    case Failure(e) =>
      RecordsIsShifted(e.trace, toks, e.pos);
  }

  // ---------------------------------------------------------------------------
  // Identifier lists
  // ---------------------------------------------------------------------------

  /** `toks[i..j]` is `id` or `id , <IdList>`: identifiers separated by `,` separators. */
  predicate IsIdList(toks: seq<Token>, i: nat, j: nat)
    requires i < j <= |toks|
    decreases j - i
  {
    && toks[i].kind == Identifier
    && (j == i + 1
        || (i + 3 <= j && toks[i + 1].kind == Separator && toks[i + 1].lexeme == "," && IsIdList(toks, i + 2, j)))
  }

  /** What `IDs` accepts is an identifier list, and the token after it is not a `,`. */
  lemma {:induction false} IDsAcceptsIdList(toks: seq<Token>, s: State)
    requires Valid(toks, s)
    ensures var r := IDs(toks, s);
            r.Success? ==> IsIdList(toks, s.pos, r.value.pos) && toks[r.value.pos].lexeme != ","
    decreases |toks| - s.pos
  {
    var r := IDs(toks, s);
    if r.Success? {
      var s1 := Expect(toks, Prod(s, IDsRule), Identifier, None).value;
      if toks[s1.pos].lexeme == "," {
        var s2 := Expect(toks, s1, Separator, Some(",")).value;
        IDsAcceptsIdList(toks, s2);
      }
    }
  }

  /** Every identifier list not followed by a `,` is accepted by `IDs`, which stops right after it. */
  lemma {:induction false} IdListAcceptedByIDs(toks: seq<Token>, s: State, j: nat)
    requires Valid(toks, s) && s.pos < j < |toks|
    requires IsIdList(toks, s.pos, j) && toks[j].lexeme != ","
    ensures IDs(toks, s).Success? && IDs(toks, s).value.pos == j
    decreases |toks| - s.pos
  {
    var s1 := Expect(toks, Prod(s, IDsRule), Identifier, None).value;
    if j > s.pos + 1 {
      var s2 := Expect(toks, s1, Separator, Some(",")).value;
      IdListAcceptedByIDs(toks, s2, j);
    }
  }

  // ---------------------------------------------------------------------------
  // Statements
  // ---------------------------------------------------------------------------

  /** Once the first token of a statement form matches, any failure lies beyond it. */
  lemma StatementCommits(toks: seq<Token>, s: State)
    requires Valid(toks, s) && StartsStatement(toks[s.pos])
    ensures Statement(toks, s).Failure? ==> s.pos < Statement(toks, s).error.pos
  {
    var tok := toks[s.pos];
    if tok.kind == Separator && tok.lexeme == "{" {
      CompoundCommits(toks, Prod(s, StatementCompound));
    } else if tok.kind == Identifier {
      AssignCommits(toks, Prod(s, StatementAssign));
    } else if tok.lexeme == "if" {
      IfCommits(toks, Prod(s, StatementIf));
    } else if tok.lexeme == "while" {
      WhileCommits(toks, Prod(s, StatementWhile));
    } else if tok.lexeme == "return" {
      ReturnCommits(toks, Prod(s, StatementReturn));
    } else if tok.lexeme == "print" {
      PrintCommits(toks, Prod(s, StatementPrint));
    } else {
      ScanCommits(toks, Prod(s, StatementScan));
    }
  }

  lemma CompoundCommits(toks: seq<Token>, s: State)
    requires Valid(toks, s) && toks[s.pos].kind == Separator && toks[s.pos].lexeme == "{"
    ensures Compound(toks, s).Failure? ==> s.pos < Compound(toks, s).error.pos
  {
    assert Expect(toks, Prod(s, CompoundRule), Separator, Some("{")).Success?;
  }

  lemma AssignCommits(toks: seq<Token>, s: State)
    requires Valid(toks, s) && toks[s.pos].kind == Identifier
    ensures Assign(toks, s).Failure? ==> s.pos < Assign(toks, s).error.pos
  {
    assert Expect(toks, Prod(s, AssignRule), Identifier, None).Success?;
  }

  lemma IfCommits(toks: seq<Token>, s: State)
    requires Valid(toks, s) && toks[s.pos].kind == Keyword && toks[s.pos].lexeme == "if"
    ensures If(toks, s).Failure? ==> s.pos < If(toks, s).error.pos
  {
    assert Expect(toks, Prod(s, IfRule), Keyword, Some("if")).Success?;
  }

  lemma WhileCommits(toks: seq<Token>, s: State)
    requires Valid(toks, s) && toks[s.pos].kind == Keyword && toks[s.pos].lexeme == "while"
    ensures While(toks, s).Failure? ==> s.pos < While(toks, s).error.pos
  {
    assert Expect(toks, Prod(s, WhileRule), Keyword, Some("while")).Success?;
  }

  lemma ReturnCommits(toks: seq<Token>, s: State)
    requires Valid(toks, s) && toks[s.pos].kind == Keyword && toks[s.pos].lexeme == "return"
    ensures Return(toks, s).Failure? ==> s.pos < Return(toks, s).error.pos
  {
    assert Expect(toks, Prod(s, ReturnRule), Keyword, Some("return")).Success?;
  }

  lemma PrintCommits(toks: seq<Token>, s: State)
    requires Valid(toks, s) && toks[s.pos].kind == Keyword && toks[s.pos].lexeme == "print"
    ensures Print(toks, s).Failure? ==> s.pos < Print(toks, s).error.pos
  {
    assert Expect(toks, Prod(s, PrintRule), Keyword, Some("print")).Success?;
  }

  lemma ScanCommits(toks: seq<Token>, s: State)
    requires Valid(toks, s) && toks[s.pos].kind == Keyword && toks[s.pos].lexeme == "scan"
    ensures Scan(toks, s).Failure? ==> s.pos < Scan(toks, s).error.pos
  {
    assert Expect(toks, Prod(s, ScanRule), Keyword, Some("scan")).Success?;
  }

  /**
    A statement fails on its very first token exactly when that token can
    start no statement; the complaint then tells a keyword from anything else.
   */
  lemma StatementFailsAtStartIff(toks: seq<Token>, s: State)
    requires Valid(toks, s)
    ensures var r := Statement(toks, s);
            (r.Failure? && r.error.pos == s.pos) <==> !StartsStatement(toks[s.pos])
    ensures !StartsStatement(toks[s.pos]) ==>
              Statement(toks, s).error.complaint
              == (if toks[s.pos].kind == Keyword then UnexpectedKeyword else InvalidStatementStart)
  {
    if StartsStatement(toks[s.pos]) {
      StatementCommits(toks, s);
    }
  }

  /** The statement loop stops where it starts exactly when the lookahead starts no statement. */
  lemma StatementListRestStopsIff(toks: seq<Token>, s: State)
    requires Valid(toks, s)
    ensures StatementListRest(toks, s) == Success(s) <==> !StartsStatement(toks[s.pos])
  {
  }

  /** The list needs a first statement: a list that starts with no statement fails right there. */
  lemma StatementListNeedsOne(toks: seq<Token>, s: State)
    requires Valid(toks, s) && !StartsStatement(toks[s.pos])
    ensures var r := StatementList(toks, s);
            r.Failure? && r.error.pos == s.pos
            && r.error.complaint == (if toks[s.pos].kind == Keyword then UnexpectedKeyword else InvalidStatementStart)
  {
    StatementFailsAtStartIff(toks, Prod(s, StatementListRule));
  }

  /** No statement is shorter than two tokens: `return ;` is the shortest form. */
  lemma StatementTakesTwo(toks: seq<Token>, s: State)
    requires Valid(toks, s) && Statement(toks, s).Success?
    ensures s.pos + 2 <= Statement(toks, s).value.pos
  {
    var tok := toks[s.pos];
    if tok.kind == Separator && tok.lexeme == "{" {
      assert Statement(toks, s) == Compound(toks, Prod(s, StatementCompound));
      CompoundTakesTwo(toks, Prod(s, StatementCompound));
    } else if tok.kind == Identifier {
      assert Statement(toks, s) == Assign(toks, Prod(s, StatementAssign));
      AssignTakesTwo(toks, Prod(s, StatementAssign));
    } else if tok.lexeme == "if" {
      assert Statement(toks, s) == If(toks, Prod(s, StatementIf));
      IfTakesTwo(toks, Prod(s, StatementIf));
    } else if tok.lexeme == "while" {
      assert Statement(toks, s) == While(toks, Prod(s, StatementWhile));
      WhileTakesTwo(toks, Prod(s, StatementWhile));
    } else if tok.lexeme == "return" {
      assert Statement(toks, s) == Return(toks, Prod(s, StatementReturn));
      ReturnTakesTwo(toks, Prod(s, StatementReturn));
    } else if tok.lexeme == "print" {
      assert Statement(toks, s) == Print(toks, Prod(s, StatementPrint));
      PrintTakesTwo(toks, Prod(s, StatementPrint));
    } else {
      assert Statement(toks, s) == Scan(toks, Prod(s, StatementScan));
      ScanTakesTwo(toks, Prod(s, StatementScan));
    }
  }

  /** Each statement form spells at least its first two tokens. */
  lemma CompoundTakesTwo(toks: seq<Token>, s: State)
    requires Valid(toks, s) && Compound(toks, s).Success?
    ensures s.pos + 2 <= Compound(toks, s).value.pos
  {
    var s1 := Expect(toks, Prod(s, CompoundRule), Separator, Some("{")).value;
    assert s1.pos == s.pos + 1;
  }

  lemma AssignTakesTwo(toks: seq<Token>, s: State)
    requires Valid(toks, s) && Assign(toks, s).Success?
    ensures s.pos + 2 <= Assign(toks, s).value.pos
  {
    var s1 := Expect(toks, Prod(s, AssignRule), Identifier, None).value;
    assert s1.pos == s.pos + 1;
  }

  lemma IfTakesTwo(toks: seq<Token>, s: State)
    requires Valid(toks, s) && If(toks, s).Success?
    ensures s.pos + 2 <= If(toks, s).value.pos
  {
    var s1 := Expect(toks, Prod(s, IfRule), Keyword, Some("if")).value;
    assert s1.pos == s.pos + 1;
  }

  lemma WhileTakesTwo(toks: seq<Token>, s: State)
    requires Valid(toks, s) && While(toks, s).Success?
    ensures s.pos + 2 <= While(toks, s).value.pos
  {
    var s1 := Expect(toks, Prod(s, WhileRule), Keyword, Some("while")).value;
    assert s1.pos == s.pos + 1;
  }

  lemma ReturnTakesTwo(toks: seq<Token>, s: State)
    requires Valid(toks, s) && Return(toks, s).Success?
    ensures s.pos + 2 <= Return(toks, s).value.pos
  {
    var s1 := Expect(toks, Prod(s, ReturnRule), Keyword, Some("return")).value;
    assert s1.pos == s.pos + 1;
  }

  lemma PrintTakesTwo(toks: seq<Token>, s: State)
    requires Valid(toks, s) && Print(toks, s).Success?
    ensures s.pos + 2 <= Print(toks, s).value.pos
  {
    var s1 := Expect(toks, Prod(s, PrintRule), Keyword, Some("print")).value;
    assert s1.pos == s.pos + 1;
  }

  lemma ScanTakesTwo(toks: seq<Token>, s: State)
    requires Valid(toks, s) && Scan(toks, s).Success?
    ensures s.pos + 2 <= Scan(toks, s).value.pos
  {
    var s1 := Expect(toks, Prod(s, ScanRule), Keyword, Some("scan")).value;
    assert s1.pos == s.pos + 1;
  }

  /** Hence a statement list takes at least two tokens too. */
  lemma StatementListTakesTwo(toks: seq<Token>, s: State)
    requires Valid(toks, s) && StatementList(toks, s).Success?
    ensures s.pos + 2 <= StatementList(toks, s).value.pos
  {
    var s0 := Prod(s, StatementListRule);
    StatementTakesTwo(toks, s0);
    var s1 := Statement(toks, s0).value;
    assert StatementList(toks, s) == StatementListRest(toks, s1);
  }

  /** Keywords are matched by exact lexeme: a keyword token spelled `IF` cannot start a statement. */
  lemma UpperCaseKeywordInStatement(toks: seq<Token>, s: State)
    requires Valid(toks, s) && toks[s.pos] == Token(Keyword, "IF", toks[s.pos].line)
    ensures Statement(toks, s) == Failure(SyntaxError(s.pos, toks[s.pos], UnexpectedKeyword, s.trace))
  {
  }

  /** `Integer` is no qualifier, and a declaration list is not entered on it. */
  lemma CapitalisedQualifier(toks: seq<Token>, s: State)
    requires Valid(toks, s) && toks[s.pos].lexeme == "Integer"
    ensures Qualifier(toks, s).Failure? && Qualifier(toks, s).error.complaint == QualifierExpected
    ensures OptDeclarationList(toks, s) == Success(Prod(s, OptDeclarationListEmpty))
  {
  }

  /** `return ;` is the whole return statement when the lookahead after `return` is a `;` separator. */
  lemma ReturnWithoutExpression(toks: seq<Token>, s: State)
    requires Valid(toks, s) && s.pos + 1 < |toks|
    requires toks[s.pos].kind == Keyword && toks[s.pos].lexeme == "return"
    requires toks[s.pos + 1].lexeme == ";"
    ensures var r := Return(toks, s);
            (r.Success? <==> toks[s.pos + 1].kind == Separator)
            && (r.Success? ==> r.value.pos == s.pos + 2)
            && (r.Failure? ==> r.error.pos == s.pos + 1 && r.error.complaint == Expected(Separator, Some(";")))
  {
  }

  /** Any other lookahead after `return` starts an expression, so a successful return is longer. */
  lemma ReturnWithExpression(toks: seq<Token>, s: State)
    requires Valid(toks, s) && s.pos + 1 < |toks|
    requires toks[s.pos + 1].lexeme != ";"
    ensures var r := Return(toks, s);
            r.Success? ==> s.pos + 3 <= r.value.pos
  {
  }

  /** A successful `if` statement always ends with `endif`, whether or not it took the `else` branch. */
  lemma IfEndsWithEndif(toks: seq<Token>, s: State)
    requires Valid(toks, s)
    ensures var r := If(toks, s);
            r.Success? ==> toks[r.value.pos - 1].kind == Keyword && toks[r.value.pos - 1].lexeme == "endif"
  {
    var r := If(toks, s);
    if r.Success? {
      var s1 := Expect(toks, Prod(s, IfRule), Keyword, Some("if")).value;
      var s2 := Expect(toks, s1, Separator, Some("(")).value;
      var s3 := Condition(toks, s2).value;
      var s4 := Expect(toks, s3, Separator, Some(")")).value;
      var s5 := Statement(toks, s4).value;
      var s6 := Else(toks, s5).value;
      assert r == Expect(toks, s6, Keyword, Some("endif"));
    }
  }

  /** A successful `while` statement always ends with `endwhile`. */
  lemma WhileEndsWithEndwhile(toks: seq<Token>, s: State)
    requires Valid(toks, s)
    ensures var r := While(toks, s);
            r.Success? ==> toks[r.value.pos - 1].kind == Keyword && toks[r.value.pos - 1].lexeme == "endwhile"
  {
    var r := While(toks, s);
    if r.Success? {
      var s1 := Expect(toks, Prod(s, WhileRule), Keyword, Some("while")).value;
      var s2 := Expect(toks, s1, Separator, Some("(")).value;
      var s3 := Condition(toks, s2).value;
      var s4 := Expect(toks, s3, Separator, Some(")")).value;
      var s5 := Statement(toks, s4).value;
      assert r == Expect(toks, s5, Keyword, Some("endwhile"));
    }
  }

  // ---------------------------------------------------------------------------
  // Conditions and expressions
  // ---------------------------------------------------------------------------

  /** The lexer's `>=` and `<>` are operators, but no relational operator of the grammar. */
  lemma GreaterEqualIsNoRelop(toks: seq<Token>, s: State)
    requires Valid(toks, s) && toks[s.pos].kind == Operator
    requires toks[s.pos].lexeme == ">=" || toks[s.pos].lexeme == "<>"
    ensures Lexer.IsMultiCharOperator(('>', '=')) && Lexer.IsMultiCharOperator(('<', '>'))
    ensures Relop(toks, s).Failure? && Relop(toks, s).error.complaint == RelopExpected
  {
  }

  /** The tokens that begin one of the four forms of a primary. */
  predicate StartsPrimary(tok: Token) {
    || tok.kind == Identifier
    || tok.kind == Integer || tok.kind == Real
    || (tok.kind == Keyword && (tok.lexeme == "true" || tok.lexeme == "false"))
    || (tok.kind == Separator && tok.lexeme == "(")
  }

  /** A primary fails on its very first token exactly when that token begins none of its forms. */
  lemma PrimaryFailsAtStartIff(toks: seq<Token>, s: State)
    requires Valid(toks, s)
    ensures var r := Primary(toks, s);
            (r.Failure? && r.error.pos == s.pos) <==> !StartsPrimary(toks[s.pos])
    ensures !StartsPrimary(toks[s.pos]) ==> Primary(toks, s).error.complaint == InvalidPrimary
  {
  }

  /** An identifier not followed by `(` is a primary by itself. */
  lemma BareIdentifierPrimary(toks: seq<Token>, s: State)
    requires Valid(toks, s) && toks[s.pos].kind == Identifier && toks[s.pos + 1].lexeme != "("
    ensures var r := Primary(toks, s);
            r.Success? && r.value.pos == s.pos + 1
            && r.value.trace == Snoc(Prod(s, PrimaryIdentifier).trace, Shift(toks[s.pos]))
  {
  }

  /**
    An identifier followed by `(` is a call: on success the arguments form
    an identifier list and a `)` separator closes them.
   */
  lemma PrimaryCallShape(toks: seq<Token>, s: State)
    requires Valid(toks, s) && toks[s.pos].kind == Identifier && toks[s.pos + 1].lexeme == "("
    ensures var r := Primary(toks, s);
            r.Success? ==>
              && s.pos + 3 < r.value.pos
              && toks[s.pos + 1].kind == Separator
              && IsIdList(toks, s.pos + 2, r.value.pos - 1)
              && toks[r.value.pos - 1].kind == Separator && toks[r.value.pos - 1].lexeme == ")"
  {
    assert Primary(toks, s) == CallPrimary(toks, s);
    CallPrimaryShape(toks, s);
  }

  lemma CallPrimaryShape(toks: seq<Token>, s: State)
    requires Valid(toks, s) && toks[s.pos].kind == Identifier
    ensures var r := CallPrimary(toks, s);
            r.Success? ==>
              && s.pos + 3 < r.value.pos
              && toks[s.pos + 1].kind == Separator && toks[s.pos + 1].lexeme == "("
              && IsIdList(toks, s.pos + 2, r.value.pos - 1)
              && toks[r.value.pos - 1].kind == Separator && toks[r.value.pos - 1].lexeme == ")"
  {
    var s1 := Expect(toks, Prod(s, PrimaryCall), Identifier, None).value;
    var e2 := Expect(toks, s1, Separator, Some("("));
    if e2.Success? {
      var s2 := e2.value;
      IDsAcceptsIdList(toks, s2);
      var e3 := IDs(toks, s2);
      if e3.Success? {
        var s3 := e3.value;
        assert IsIdList(toks, s.pos + 2, s3.pos);
        assert CallPrimary(toks, s) == Expect(toks, s3, Separator, Some(")"));
      }
    }
  }

  // ---------------------------------------------------------------------------
  // Whole programs
  // ---------------------------------------------------------------------------

  /** A `$$` separator token. */
  predicate IsDelimiter(tok: Token) {
    tok.kind == Separator && tok.lexeme == "$$"
  }

  /**
    Four `$$` in a row leave the statement section empty; the statement
    list needs one statement, so the parse fails at the fourth `$$`.
   */
  lemma EmptyStatementSectionRejected(toks: seq<Token>, s: State)
    requires Valid(toks, s) && s.pos + 3 < |toks|
    requires forall k :: s.pos <= k <= s.pos + 3 ==> IsDelimiter(toks[k])
    ensures var r := Rat25S(toks, s);
            r.Failure? && r.error.pos == s.pos + 3 && Text(r.error.complaint) == "invalid statement start"
  {
    assert IsDelimiter(toks[s.pos]) && IsDelimiter(toks[s.pos + 1]);
    assert IsDelimiter(toks[s.pos + 2]) && IsDelimiter(toks[s.pos + 3]);
    var e1 := Expect(toks, Prod(s, Rat25SRule), Separator, Some("$$"));
    assert e1.Success?;
    var s2 := Prod(e1.value, OptFunctionDefinitionsEmpty);
    assert OptFunctionDefinitions(toks, e1.value) == Success(s2);
    var e3 := Expect(toks, s2, Separator, Some("$$"));
    assert e3.Success?;
    var s4 := Prod(e3.value, OptDeclarationListEmpty);
    assert OptDeclarationList(toks, e3.value) == Success(s4);
    var e5 := Expect(toks, s4, Separator, Some("$$"));
    assert e5.Success? && e5.value.pos == s.pos + 3;
    StatementListNeedsOne(toks, e5.value);
    assert Rat25S(toks, s) == StatementSection(toks, e5.value);
  }

  /**
    A program that parses opens with `$$`, and its last two tokens are the
    closing `$$` and `Eof`; with the two inner `$$` and a statement of at
    least two tokens it spans at least seven. (What lies in between is
    characterised by `ProgramProofs.Rat25SExact`.)
   */
  lemma Rat25SFramed(toks: seq<Token>, s: State)
    requires Valid(toks, s)
    ensures var r := Rat25S(toks, s);
            r.Success? ==>
              && s.pos + 7 <= r.value.pos
              && IsDelimiter(toks[s.pos])
              && IsDelimiter(toks[r.value.pos - 2])
              && toks[r.value.pos - 1].kind == Eof
  {
    var r := Rat25S(toks, s);
    if r.Success? {
      var s1 := Expect(toks, Prod(s, Rat25SRule), Separator, Some("$$")).value;
      var s2 := OptFunctionDefinitions(toks, s1).value;
      var s3 := Expect(toks, s2, Separator, Some("$$")).value;
      var s4 := OptDeclarationList(toks, s3).value;
      var s5 := Expect(toks, s4, Separator, Some("$$")).value;
      assert r == StatementSection(toks, s5);
      var s6 := StatementList(toks, s5).value;
      StatementListTakesTwo(toks, s5);
      var s7 := Expect(toks, s6, Separator, Some("$$")).value;
      assert r == Expect(toks, s7, Eof, None);
    }
  }

  /** The same for the text `$$ $$ $$ $$`, from tokenizing to the parse. */
  lemma FourDelimitersRejected(text: string)
    requires text == "$$ $$ $$ $$"
    ensures var r := Parse(text);
            r.Failure? && r.error.pos == 3 && Text(r.error.complaint) == "invalid statement start"
  {
    LexerProofs.FourDelimitersTokenize(text);
    EmptyStatementSectionRejected(Lexer.Tokenize(text), State(0, Empty));
  }
}
