/**
  Conditions and statements against the syntax trees of module `Syntax`.
  Soundness: whatever `Condition`, `Statement`, `StatementList` or one of
  the statement forms accepts is the yield of a well-formed tree.
  Completeness: every such yield is accepted, ending right after it; a
  statement list also needs the token after it to start no statement.
  The `Exact` lemmas put the two directions together.
 */
module StatementProofs {
  import opened Wrappers
  import opened Tokens
  import opened Syntax
  import opened Parser
  import opened ParserProofs
  import opened ExpressionProofs

  // ---------------------------------------------------------------------------
  // Slices
  // ---------------------------------------------------------------------------

  /** Adjacent slices spelling `a` and `b` spell `a + b` together. */
  lemma {:induction false} Glue(toks: seq<Token>, i: nat, m: nat, k: nat, a: seq<Token>, b: seq<Token>)
    requires i <= m <= k <= |toks| && toks[i..m] == a && toks[m..k] == b
    ensures toks[i..k] == a + b
  {
    assert toks[i..k] == toks[i..m] + toks[m..k];
  }

  /** Appending the token at `m` to a slice ending at `m`. */
  lemma {:induction false} GlueToken(toks: seq<Token>, i: nat, m: nat, a: seq<Token>)
    requires i <= m < |toks| && toks[i..m] == a
    ensures toks[i..m + 1] == a + [toks[m]]
  {
    Glue(toks, i, m, m + 1, a, [toks[m]]);
  }

  lemma {:induction false} OneToken(toks: seq<Token>, i: nat)
    requires i < |toks|
    ensures toks[i..i + 1] == [toks[i]]
  {
  }

  lemma {:induction false} TwoTokens(toks: seq<Token>, i: nat)
    requires i + 2 <= |toks|
    ensures toks[i..i + 2] == [toks[i], toks[i + 1]]
  {
  }

  /** A one-token yield spelled at `i` is the token there. */
  lemma {:induction false} SpansToken(t: Token, toks: seq<Token>, i: nat)
    requires Spans([t], toks, i)
    ensures toks[i] == t
  {
    assert toks[i..i + 1][0] == toks[i];
  }

  /** A yield `a` followed by one token `t`: `a` is spelled from `i` and `t` right after it. */
  lemma {:induction false} SpansThenToken(a: seq<Token>, t: Token, toks: seq<Token>, i: nat)
    requires Spans(a + [t], toks, i)
    ensures Spans(a, toks, i) && toks[i + |a|] == t
  {
    SpansSplit(a, [t], toks, i);
    SpansToken(t, toks, i + |a|);
  }

  /** The same for two leading tokens `x` and `y` followed by `b`. */
  lemma {:induction false} SpansTwoThen(x: Token, y: Token, b: seq<Token>, toks: seq<Token>, i: nat)
    requires Spans([x, y] + b, toks, i)
    ensures toks[i] == x && toks[i + 1] == y && Spans(b, toks, i + 2)
  {
    SpansSplit([x, y], b, toks, i);
    assert toks[i..i + 2][0] == toks[i] && toks[i..i + 2][1] == toks[i + 1];
  }

  /** A spelled yield starts with the token at its first index. */
  lemma {:induction false} SpansFirst(ys: seq<Token>, toks: seq<Token>, i: nat)
    requires Spans(ys, toks, i) && |ys| > 0
    ensures toks[i] == ys[0]
  {
    assert toks[i..i + |ys|][0] == toks[i];
  }

  /** What a soundness lemma returns when the parse fails; it stands for nothing. */
  function Blank(t: Token): StmtTree {
    SReturn(t, t)
  }

  // ---------------------------------------------------------------------------
  // First tokens
  // ---------------------------------------------------------------------------

  lemma {:induction false} FirstOfFactorYield(f: FactorTree)
    ensures |FactorYield(f)| > 0 && FactorYield(f)[0] == FirstOfFactor(f)
  {
    FirstOfYield(f.primary);
  }

  lemma {:induction false} FirstOfTermYield(t: TermTree)
    ensures |TermYield(t)| > 0 && TermYield(t)[0] == FirstOfTerm(t)
  {
    match t
    case TFactor(f) => FirstOfFactorYield(f);
    case TOp(l, _, _) => FirstOfTermYield(l);
  }

  /** An expression's yield starts with `FirstOfExpr`. */
  lemma {:induction false} FirstOfExprYield(e: ExprTree)
    ensures |ExprYield(e)| > 0 && ExprYield(e)[0] == FirstOfExpr(e)
  {
    match e
    case ETerm(t) => FirstOfTermYield(t);
    case EOp(l, _, _) => FirstOfExprYield(l);
  }

  /** The token after an expression in a condition, an assignment, a `print` or a `return` always ends it. */
  lemma {:induction false} ClosersEndExpressions(e: ExprTree, next: Token)
    requires next.lexeme == ";" || next.lexeme == ")" || (next.kind == Operator && IsRelationalOperator(next.lexeme))
    ensures EndsExpression(e, next)
  {
  }

  // ---------------------------------------------------------------------------
  // Conditions
  // ---------------------------------------------------------------------------

  /** A successful `Condition` spans the yield of a well-formed condition whose right expression its stop token ends. */
  lemma {:induction false} ConditionSound(toks: seq<Token>, s: State) returns (c: CondTree)
    requires Valid(toks, s)
    ensures var r := Condition(toks, s);
            r.Success? ==> WfCond(c) && CondYield(c) == toks[s.pos..r.value.pos] && EndsExpression(c.right, toks[r.value.pos])
  {
    c := Cond(ETerm(TFactor(FPlain(PIdent(toks[s.pos])))), toks[s.pos], ETerm(TFactor(FPlain(PIdent(toks[s.pos])))));
    var r := Condition(toks, s);
    if r.Success? {
      var s0 := Prod(s, ConditionRule);
      var s1 := Expression(toks, s0).value;
      var s2 := Relop(toks, s1).value;
      assert r == Expression(toks, s2);
      var left := ExpressionSound(toks, s0);
      var right := ExpressionSound(toks, s2);
      c := Cond(left, toks[s1.pos], right);
      JoinAround(toks, s.pos, s1.pos, r.value.pos);
    }
  }

  /** Every well-formed condition is accepted whole when the token after it ends its right expression. */
  lemma {:induction false} ConditionComplete(toks: seq<Token>, s: State, c: CondTree)
    requires Valid(toks, s) && WfCond(c) && Spans(CondYield(c), toks, s.pos)
    requires EndsExpression(c.right, toks[s.pos + |CondYield(c)|])
    ensures Condition(toks, s).Success? && Condition(toks, s).value.pos == s.pos + |CondYield(c)|
  {
    SpansAround(ExprYield(c.left), c.op, ExprYield(c.right), toks, s.pos);
    var m := s.pos + |ExprYield(c.left)|;
    ClosersEndExpressions(c.left, c.op);
    var s0 := Prod(s, ConditionRule);
    ExpressionComplete(toks, s0, c.left);
    var s1 := Expression(toks, s0).value;
    assert s1.pos == m;
    var s2 := Relop(toks, s1).value;
    ExpressionComplete(toks, s2, c.right);
  }

  /**
    `Condition` from `s.pos` succeeds and stops at `j` exactly when
    `toks[s.pos..j]` is an expression, a relational operator and an
    expression, the last one ended by `toks[j]`.
   */
  lemma {:induction false} ConditionExact(toks: seq<Token>, s: State, j: nat)
    requires Valid(toks, s) && s.pos <= j < |toks|
    ensures (Condition(toks, s).Success? && Condition(toks, s).value.pos == j)
            <==> exists c :: WfCond(c) && CondYield(c) == toks[s.pos..j] && EndsExpression(c.right, toks[j])
  {
    if Condition(toks, s).Success? && Condition(toks, s).value.pos == j {
      var c := ConditionSound(toks, s);
      assert WfCond(c) && CondYield(c) == toks[s.pos..j] && EndsExpression(c.right, toks[j]);
    }
    if exists c :: WfCond(c) && CondYield(c) == toks[s.pos..j] && EndsExpression(c.right, toks[j]) {
      var c :| WfCond(c) && CondYield(c) == toks[s.pos..j] && EndsExpression(c.right, toks[j]);
      ConditionComplete(toks, s, c);
    }
  }

  // ---------------------------------------------------------------------------
  // Soundness of statements
  // ---------------------------------------------------------------------------

  /** A successful `Statement` spans the yield of a well-formed statement tree. */
  lemma {:induction false} StatementSound(toks: seq<Token>, s: State) returns (st: StmtTree)
    requires Valid(toks, s)
    ensures var r := Statement(toks, s);
            r.Success? ==> WfStmt(st) && StmtYield(st) == toks[s.pos..r.value.pos]
    decreases |toks| - s.pos, 1
  {
    st := Blank(toks[s.pos]);
    var tok := toks[s.pos];
    if tok.kind == Separator && tok.lexeme == "{" {
      var b := CompoundSound(toks, Prod(s, StatementCompound));
      st := SCompound(b);
    } else if tok.kind == Identifier {
      st := AssignSound(toks, Prod(s, StatementAssign));
    } else if tok.kind == Keyword && tok.lexeme == "if" {
      st := IfSound(toks, Prod(s, StatementIf));
    } else if tok.kind == Keyword && tok.lexeme == "while" {
      st := WhileSound(toks, Prod(s, StatementWhile));
    } else if tok.kind == Keyword && tok.lexeme == "return" {
      st := ReturnSound(toks, Prod(s, StatementReturn));
    } else if tok.kind == Keyword && tok.lexeme == "print" {
      st := PrintSound(toks, Prod(s, StatementPrint));
    } else if tok.kind == Keyword && tok.lexeme == "scan" {
      st := ScanSound(toks, Prod(s, StatementScan));
    }
  }

  /** A successful `Compound` spans the yield of a well-formed block. */
  lemma {:induction false} CompoundSound(toks: seq<Token>, s: State) returns (b: BlockTree)
    requires Valid(toks, s)
    ensures var r := Compound(toks, s);
            r.Success? ==> WfBlock(b) && BlockYield(b) == toks[s.pos..r.value.pos]
    decreases |toks| - s.pos, 0
  {
    b := Block(toks[s.pos], LastStmt(Blank(toks[s.pos])), toks[s.pos]);
    var r := Compound(toks, s);
    if r.Success? {
      var s1 := Expect(toks, Prod(s, CompoundRule), Separator, Some("{")).value;
      var s2 := StatementList(toks, s1).value;
      assert r == Expect(toks, s2, Separator, Some("}"));
      var l := StatementListSound(toks, s1);
      b := Block(toks[s.pos], l, toks[s2.pos]);
      OneToken(toks, s.pos);
      Glue(toks, s.pos, s1.pos, s2.pos, [toks[s.pos]], StmtsYield(l));
      GlueToken(toks, s.pos, s2.pos, [toks[s.pos]] + StmtsYield(l));
    }
  }

  lemma {:induction false} AssignSound(toks: seq<Token>, s: State) returns (st: StmtTree)
    requires Valid(toks, s)
    ensures var r := Assign(toks, s);
            r.Success? ==> st.SAssign? && WfStmt(st) && StmtYield(st) == toks[s.pos..r.value.pos]
  {
    st := Blank(toks[s.pos]);
    var r := Assign(toks, s);
    if r.Success? {
      var s1 := Expect(toks, Prod(s, AssignRule), Identifier, None).value;
      var s2 := Expect(toks, s1, Operator, Some("=")).value;
      var s3 := Expression(toks, s2).value;
      assert r == Expect(toks, s3, Separator, Some(";"));
      var e := ExpressionSound(toks, s2);
      st := SAssign(toks[s.pos], toks[s.pos + 1], e, toks[s3.pos]);
      TwoTokens(toks, s.pos);
      Glue(toks, s.pos, s2.pos, s3.pos, [toks[s.pos], toks[s.pos + 1]], ExprYield(e));
      GlueToken(toks, s.pos, s3.pos, [toks[s.pos], toks[s.pos + 1]] + ExprYield(e));
    }
  }

  /** The part of an `if` or `while` up to its `)`: `kw ( <Condition> )` spelled by `toks[i..k]`. */
  lemma {:induction false} HeadSpelled(toks: seq<Token>, i: nat, m: nat, c: CondTree)
    requires i + 2 <= m < |toks| && CondYield(c) == toks[i + 2..m]
    ensures toks[i..m + 1] == [toks[i], toks[i + 1]] + CondYield(c) + [toks[m]]
  {
    TwoTokens(toks, i);
    Glue(toks, i, i + 2, m, [toks[i], toks[i + 1]], CondYield(c));
    GlueToken(toks, i, m, [toks[i], toks[i + 1]] + CondYield(c));
  }

  /**
    `if ( <Condition> ) <Statement> [else <Statement>] endif` spelled by
    `toks[i..n + 1]`: the condition ends at `m`, the first statement at `k`
    and the `else` part, when there is one, runs from `k` to `n`.
   */
  lemma {:induction false} IfTree(toks: seq<Token>, i: nat, m: nat, k: nat, n: nat, c: CondTree, t: StmtTree, e: Option<StmtTree>)
    returns (st: StmtTree)
    requires i + 2 <= m < k <= n < |toks| && CondYield(c) == toks[i + 2..m] && StmtYield(t) == toks[m + 1..k]
    requires e.None? ==> n == k
    requires e.Some? ==> k < n && StmtYield(e.value) == toks[k + 1..n]
    requires IsKw(toks[i], "if") && IsSep(toks[i + 1], "(") && WfCond(c) && IsSep(toks[m], ")") && WfStmt(t)
    requires e.Some? ==> IsKw(toks[k], "else") && WfStmt(e.value)
    requires IsKw(toks[n], "endif")
    ensures (st.SIf? || st.SIfElse?) && WfStmt(st) && StmtYield(st) == toks[i..n + 1]
  {
    HeadSpelled(toks, i, m, c);
    var head := [toks[i], toks[i + 1]] + CondYield(c) + [toks[m]];
    Glue(toks, i, m + 1, k, head, StmtYield(t));
    if e.None? {
      st := SIf(toks[i], toks[i + 1], c, toks[m], t, toks[n]);
      GlueToken(toks, i, k, head + StmtYield(t));
    } else {
      st := SIfElse(toks[i], toks[i + 1], c, toks[m], t, toks[k], e.value, toks[n]);
      GlueToken(toks, i, k, head + StmtYield(t));
      Glue(toks, i, k + 1, n, head + StmtYield(t) + [toks[k]], StmtYield(e.value));
      GlueToken(toks, i, n, head + StmtYield(t) + [toks[k]] + StmtYield(e.value));
    }
  }

  /** The steps of a successful `If`: the condition from `s2`, the `)`, the statement from `s4` and the `else` part from `s5`. */
  lemma {:induction false} IfSteps(toks: seq<Token>, s: State) returns (s2: State, s3: State, s4: State, s5: State)
    requires Valid(toks, s) && If(toks, s).Success?
    ensures IsKw(toks[s.pos], "if") && IsSep(toks[s.pos + 1], "(") && s2.pos == s.pos + 2 && Valid(toks, s2)
    ensures Condition(toks, s2) == Success(s3) && IsSep(toks[s3.pos], ")") && s4.pos == s3.pos + 1 && Valid(toks, s4)
    ensures Statement(toks, s4) == Success(s5) && Valid(toks, s5) && Else(toks, s5).Success?
    ensures var n := Else(toks, s5).value.pos;
            IsKw(toks[n], "endif") && If(toks, s).value.pos == n + 1
  {
    var s1 := Expect(toks, Prod(s, IfRule), Keyword, Some("if")).value;
    s2 := Expect(toks, s1, Separator, Some("(")).value;
    s3 := Condition(toks, s2).value;
    s4 := Expect(toks, s3, Separator, Some(")")).value;
    s5 := Statement(toks, s4).value;
    var s6 := Else(toks, s5).value;
    assert If(toks, s) == Expect(toks, s6, Keyword, Some("endif"));
  }

  /** A successful `Else` at an `else` lexeme is that keyword and then a statement. */
  lemma {:induction false} ElseSteps(toks: seq<Token>, s: State) returns (s1: State)
    requires Valid(toks, s) && Else(toks, s).Success? && toks[s.pos].lexeme == "else"
    ensures IsKw(toks[s.pos], "else") && s1.pos == s.pos + 1 && Valid(toks, s1) && Statement(toks, s1) == Else(toks, s)
  {
    s1 := Expect(toks, s, Keyword, Some("else")).value;
  }

  /** What the `else` branch accepts is the keyword `else` and the yield of a well-formed statement. */
  lemma {:induction false} ElseSound(toks: seq<Token>, s: State) returns (st: StmtTree)
    requires Valid(toks, s) && toks[s.pos].lexeme == "else"
    ensures var r := Else(toks, s);
            r.Success? ==> IsKw(toks[s.pos], "else") && WfStmt(st) && StmtYield(st) == toks[s.pos + 1..r.value.pos]
  {
    st := SReturn(toks[s.pos], toks[s.pos]);
    if Else(toks, s).Success? {
      var s1 := ElseSteps(toks, s);
      st := StatementSound(toks, s1);
    }
  }

  lemma {:induction false} IfSound(toks: seq<Token>, s: State) returns (st: StmtTree)
    requires Valid(toks, s)
    ensures var r := If(toks, s);
            r.Success? ==> (st.SIf? || st.SIfElse?) && WfStmt(st) && StmtYield(st) == toks[s.pos..r.value.pos]
    decreases |toks| - s.pos, 0
  {
    st := Blank(toks[s.pos]);
    if If(toks, s).Success? {
      var s2, s3, s4, s5 := IfSteps(toks, s);
      st := IfPartsSound(toks, s.pos, s2, s3, s4, s5, Else(toks, s5).value.pos);
    }
  }

  /** The trees of the parts `IfSteps` finds make up an `if` statement ending with the `endif` at `n`. */
  lemma {:induction false} IfPartsSound(toks: seq<Token>, i: nat, s2: State, s3: State, s4: State, s5: State, n: nat) returns (st: StmtTree)
    requires s2.pos == i + 2 && Valid(toks, s2) && IsKw(toks[i], "if") && IsSep(toks[i + 1], "(")
    requires Condition(toks, s2) == Success(s3) && IsSep(toks[s3.pos], ")") && s4.pos == s3.pos + 1 && Valid(toks, s4)
    requires Statement(toks, s4) == Success(s5) && Valid(toks, s5)
    requires Else(toks, s5).Success? && Else(toks, s5).value.pos == n && n < |toks| && IsKw(toks[n], "endif")
    ensures (st.SIf? || st.SIfElse?) && WfStmt(st) && StmtYield(st) == toks[i..n + 1]
    decreases |toks| - s2.pos, 1
  {
    var c := ConditionSound(toks, s2);
    var t := StatementSound(toks, s4);
    var e: Option<StmtTree> := None;
    if toks[s5.pos].lexeme == "else" {
      var s7 := ElseSteps(toks, s5);
      var x := StatementSound(toks, s7);
      e := Some(x);
    }
    st := IfTree(toks, i, s3.pos, s5.pos, n, c, t, e);
  }

  /** `while ( <Condition> ) <Statement> endwhile` spelled by `toks[i..k + 1]`, the condition ending at `m`. */
  lemma {:induction false} WhileTree(toks: seq<Token>, i: nat, m: nat, k: nat, c: CondTree, b: StmtTree) returns (st: StmtTree)
    requires i + 2 <= m < k < |toks| && CondYield(c) == toks[i + 2..m] && StmtYield(b) == toks[m + 1..k]
    requires IsKw(toks[i], "while") && IsSep(toks[i + 1], "(") && WfCond(c) && IsSep(toks[m], ")") && WfStmt(b)
    requires IsKw(toks[k], "endwhile")
    ensures st.SWhile? && WfStmt(st) && StmtYield(st) == toks[i..k + 1]
  {
    HeadSpelled(toks, i, m, c);
    var head := [toks[i], toks[i + 1]] + CondYield(c) + [toks[m]];
    Glue(toks, i, m + 1, k, head, StmtYield(b));
    GlueToken(toks, i, k, head + StmtYield(b));
    st := SWhile(toks[i], toks[i + 1], c, toks[m], b, toks[k]);
  }

  lemma {:induction false} WhileSound(toks: seq<Token>, s: State) returns (st: StmtTree)
    requires Valid(toks, s)
    ensures var r := While(toks, s);
            r.Success? ==> st.SWhile? && WfStmt(st) && StmtYield(st) == toks[s.pos..r.value.pos]
    decreases |toks| - s.pos, 0
  {
    st := Blank(toks[s.pos]);
    var r := While(toks, s);
    if r.Success? {
      var s1 := Expect(toks, Prod(s, WhileRule), Keyword, Some("while")).value;
      var s2 := Expect(toks, s1, Separator, Some("(")).value;
      var s3 := Condition(toks, s2).value;
      var s4 := Expect(toks, s3, Separator, Some(")")).value;
      var s5 := Statement(toks, s4).value;
      assert r == Expect(toks, s5, Keyword, Some("endwhile"));
      var c := ConditionSound(toks, s2);
      var b := StatementSound(toks, s4);
      st := WhileTree(toks, s.pos, s3.pos, s5.pos, c, b);
    }
  }

  lemma {:induction false} ReturnSound(toks: seq<Token>, s: State) returns (st: StmtTree)
    requires Valid(toks, s)
    ensures var r := Return(toks, s);
            r.Success? ==> (st.SReturn? || st.SReturnValue?) && WfStmt(st) && StmtYield(st) == toks[s.pos..r.value.pos]
  {
    st := Blank(toks[s.pos]);
    var r := Return(toks, s);
    if r.Success? {
      var s1 := Expect(toks, Prod(s, ReturnRule), Keyword, Some("return")).value;
      if toks[s1.pos].lexeme != ";" {
        var s2 := Expression(toks, s1).value;
        assert r == Expect(toks, s2, Separator, Some(";"));
        var e := ExpressionSound(toks, s1);
        FirstOfExprYield(e);
        st := SReturnValue(toks[s.pos], e, toks[s2.pos]);
        OneToken(toks, s.pos);
        Glue(toks, s.pos, s1.pos, s2.pos, [toks[s.pos]], ExprYield(e));
        GlueToken(toks, s.pos, s2.pos, [toks[s.pos]] + ExprYield(e));
      } else {
        assert r == Expect(toks, s1, Separator, Some(";"));
        st := SReturn(toks[s.pos], toks[s1.pos]);
        TwoTokens(toks, s.pos);
      }
    }
  }

  lemma {:induction false} PrintSound(toks: seq<Token>, s: State) returns (st: StmtTree)
    requires Valid(toks, s)
    ensures var r := Print(toks, s);
            r.Success? ==> st.SPrint? && WfStmt(st) && StmtYield(st) == toks[s.pos..r.value.pos]
  {
    st := Blank(toks[s.pos]);
    var r := Print(toks, s);
    if r.Success? {
      var s1 := Expect(toks, Prod(s, PrintRule), Keyword, Some("print")).value;
      var s2 := Expect(toks, s1, Separator, Some("(")).value;
      var s3 := Expression(toks, s2).value;
      var s4 := Expect(toks, s3, Separator, Some(")")).value;
      assert r == Expect(toks, s4, Separator, Some(";"));
      var e := ExpressionSound(toks, s2);
      st := SPrint(toks[s.pos], toks[s.pos + 1], e, toks[s3.pos], toks[s4.pos]);
      TwoTokens(toks, s.pos);
      TwoTokens(toks, s3.pos);
      Glue(toks, s.pos, s2.pos, s3.pos, [toks[s.pos], toks[s.pos + 1]], ExprYield(e));
      Glue(toks, s.pos, s3.pos, s4.pos + 1, [toks[s.pos], toks[s.pos + 1]] + ExprYield(e), [toks[s3.pos], toks[s4.pos]]);
    }
  }

  lemma {:induction false} ScanSound(toks: seq<Token>, s: State) returns (st: StmtTree)
    requires Valid(toks, s)
    ensures var r := Scan(toks, s);
            r.Success? ==> st.SScan? && WfStmt(st) && StmtYield(st) == toks[s.pos..r.value.pos]
  {
    st := Blank(toks[s.pos]);
    var r := Scan(toks, s);
    if r.Success? {
      var s1 := Expect(toks, Prod(s, ScanRule), Keyword, Some("scan")).value;
      var s2 := Expect(toks, s1, Separator, Some("(")).value;
      var s3 := IDs(toks, s2).value;
      var s4 := Expect(toks, s3, Separator, Some(")")).value;
      assert r == Expect(toks, s4, Separator, Some(";"));
      IDsAcceptsIdList(toks, s2);
      IdListOfSlice(toks, s2.pos, s3.pos);
      var ids := toks[s2.pos..s3.pos];
      st := SScan(toks[s.pos], toks[s.pos + 1], ids, toks[s3.pos], toks[s4.pos]);
      TwoTokens(toks, s.pos);
      TwoTokens(toks, s3.pos);
      Glue(toks, s.pos, s2.pos, s3.pos, [toks[s.pos], toks[s.pos + 1]], ids);
      Glue(toks, s.pos, s3.pos, s4.pos + 1, [toks[s.pos], toks[s.pos + 1]] + ids, [toks[s3.pos], toks[s4.pos]]);
    }
  }

  /** A successful `StatementList` spans the yield of a well-formed list, and its stop token starts no statement. */
  lemma {:induction false} StatementListSound(toks: seq<Token>, s: State) returns (l: StmtList)
    requires Valid(toks, s)
    ensures var r := StatementList(toks, s);
            r.Success? ==> WfStmts(l) && StmtsYield(l) == toks[s.pos..r.value.pos] && !StartsStatement(toks[r.value.pos])
    decreases |toks| - s.pos, 3
  {
    l := LastStmt(Blank(toks[s.pos]));
    var s0 := Prod(s, StatementListRule);
    var r1 := Statement(toks, s0);
    if r1.Success? {
      var st := StatementSound(toks, s0);
      var rest := StatementListRestSound(toks, r1.value);
      l := if rest.None? then LastStmt(st) else ConsStmt(st, rest.value);
      var r := StatementList(toks, s);
      assert r == StatementListRest(toks, r1.value);
      if r.Success? && rest.Some? {
        Glue(toks, s.pos, r1.value.pos, r.value.pos, StmtYield(st), StmtsYield(rest.value));
      }
    }
  }

  /**
    The loop of `StatementList`: nothing when the lookahead starts no
    statement, otherwise the list of the statements it runs over.
   */
  lemma {:induction false} StatementListRestSound(toks: seq<Token>, s: State) returns (o: Option<StmtList>)
    requires Valid(toks, s)
    ensures var r := StatementListRest(toks, s);
            r.Success? ==>
              && (o.None? <==> r.value.pos == s.pos)
              && (o.Some? ==> WfStmts(o.value) && StmtsYield(o.value) == toks[s.pos..r.value.pos])
    decreases |toks| - s.pos, 2
  {
    o := None;
    if StartsStatement(toks[s.pos]) {
      var r1 := Statement(toks, s);
      if r1.Success? {
        var st := StatementSound(toks, s);
        var rest := StatementListRestSound(toks, r1.value);
        o := Some(if rest.None? then LastStmt(st) else ConsStmt(st, rest.value));
        var r := StatementListRest(toks, s);
        assert r == StatementListRest(toks, r1.value);
        if r.Success? && rest.Some? {
          Glue(toks, s.pos, r1.value.pos, r.value.pos, StmtYield(st), StmtsYield(rest.value));
        }
      }
    }
  }

  /** A successful `Body` spans the yield of a well-formed block. */
  lemma {:induction false} BodySound(toks: seq<Token>, s: State) returns (b: BlockTree)
    requires Valid(toks, s)
    ensures var r := Body(toks, s);
            r.Success? ==> WfBlock(b) && BlockYield(b) == toks[s.pos..r.value.pos]
  {
    b := Block(toks[s.pos], LastStmt(Blank(toks[s.pos])), toks[s.pos]);
    var r := Body(toks, s);
    if r.Success? {
      var s1 := Expect(toks, Prod(s, BodyRule), Separator, Some("{")).value;
      var s2 := StatementList(toks, s1).value;
      assert r == Expect(toks, s2, Separator, Some("}"));
      var l := StatementListSound(toks, s1);
      b := Block(toks[s.pos], l, toks[s2.pos]);
      OneToken(toks, s.pos);
      Glue(toks, s.pos, s1.pos, s2.pos, [toks[s.pos]], StmtsYield(l));
      GlueToken(toks, s.pos, s2.pos, [toks[s.pos]] + StmtsYield(l));
    }
  }

  // ---------------------------------------------------------------------------
  // Completeness of statements
  // ---------------------------------------------------------------------------

  /** Every well-formed statement starts with a token `Statement` dispatches on. */
  lemma {:induction false} StmtStarts(st: StmtTree)
    requires WfStmt(st)
    ensures |StmtYield(st)| > 0 && StartsStatement(StmtYield(st)[0])
  {
  }

  /** A well-formed statement spelled from `s.pos` is accepted whole. */
  lemma {:induction false} StatementComplete(toks: seq<Token>, s: State, st: StmtTree)
    requires Valid(toks, s) && WfStmt(st) && Spans(StmtYield(st), toks, s.pos)
    ensures Statement(toks, s).Success? && Statement(toks, s).value.pos == s.pos + |StmtYield(st)|
    decreases st, 3
  {
    StmtStarts(st);
    SpansFirst(StmtYield(st), toks, s.pos);
    match st
    case SCompound(b) => CompoundComplete(toks, Prod(s, StatementCompound), b);
    case SAssign(_, _, _, _) => AssignComplete(toks, Prod(s, StatementAssign), st);
    case SIf(_, _, _, _, _, _) => IfComplete(toks, Prod(s, StatementIf), st);
    case SIfElse(_, _, _, _, _, _, _, _) => IfComplete(toks, Prod(s, StatementIf), st);
    case SWhile(_, _, _, _, _, _) => WhileComplete(toks, Prod(s, StatementWhile), st);
    case SReturn(_, _) => ReturnComplete(toks, Prod(s, StatementReturn), st);
    case SReturnValue(_, _, _) => ReturnComplete(toks, Prod(s, StatementReturn), st);
    case SPrint(_, _, _, _, _) => PrintComplete(toks, Prod(s, StatementPrint), st);
    case SScan(_, _, _, _, _) => ScanComplete(toks, Prod(s, StatementScan), st);
  }

  /** `{`, a statement list, `}`: the list ends at the `}`, which starts no statement. */
  lemma {:induction false} BlockParts(toks: seq<Token>, i: nat, b: BlockTree)
    requires WfBlock(b) && Spans(BlockYield(b), toks, i)
    ensures toks[i] == b.open && Spans(StmtsYield(b.stmts), toks, i + 1)
    ensures toks[i + 1 + |StmtsYield(b.stmts)|] == b.close && !StartsStatement(b.close)
  {
    SpansThenToken([b.open] + StmtsYield(b.stmts), b.close, toks, i);
    SpansSplit([b.open], StmtsYield(b.stmts), toks, i);
    SpansToken(b.open, toks, i);
  }

  lemma {:induction false} CompoundComplete(toks: seq<Token>, s: State, b: BlockTree)
    requires Valid(toks, s) && WfBlock(b) && Spans(BlockYield(b), toks, s.pos)
    ensures Compound(toks, s).Success? && Compound(toks, s).value.pos == s.pos + |BlockYield(b)|
    decreases b, 2
  {
    BlockParts(toks, s.pos, b);
    var s1 := Expect(toks, Prod(s, CompoundRule), Separator, Some("{")).value;
    StatementListComplete(toks, s1, b.stmts);
  }

  lemma {:induction false} AssignComplete(toks: seq<Token>, s: State, st: StmtTree)
    requires Valid(toks, s) && st.SAssign? && WfStmt(st) && Spans(StmtYield(st), toks, s.pos)
    ensures Assign(toks, s).Success? && Assign(toks, s).value.pos == s.pos + |StmtYield(st)|
  {
    var e := st.expr;
    SpansThenToken([st.name, st.eq] + ExprYield(e), st.semi, toks, s.pos);
    SpansTwoThen(st.name, st.eq, ExprYield(e), toks, s.pos);
    var s1 := Expect(toks, Prod(s, AssignRule), Identifier, None).value;
    var s2 := Expect(toks, s1, Operator, Some("=")).value;
    ClosersEndExpressions(e, st.semi);
    ExpressionComplete(toks, s2, e);
  }

  /** `kw ( <Condition> )` then `rest`: the parts lie where they should. */
  lemma {:induction false} HeadParts(kw: Token, o: Token, c: CondTree, cl: Token, rest: seq<Token>, toks: seq<Token>, i: nat)
    requires Spans([kw, o] + CondYield(c) + [cl] + rest, toks, i)
    ensures toks[i] == kw && toks[i + 1] == o && Spans(CondYield(c), toks, i + 2)
    ensures toks[i + 2 + |CondYield(c)|] == cl && Spans(rest, toks, i + 3 + |CondYield(c)|)
  {
    SpansSplit([kw, o] + CondYield(c) + [cl], rest, toks, i);
    SpansThenToken([kw, o] + CondYield(c), cl, toks, i);
    SpansTwoThen(kw, o, CondYield(c), toks, i);
  }

  /** `kw ( c ) t end` spelled from `i`, with the `)` at `m` and `end` at `k`: where each part lies. */
  lemma {:induction false} IfThenParts(kw: Token, o: Token, c: seq<Token>, cl: Token, t: seq<Token>, end: Token,
                    toks: seq<Token>, i: nat, m: nat, k: nat)
    requires Spans([kw, o] + c + [cl] + t + [end], toks, i) && m == i + 2 + |c| && k == m + 1 + |t|
    ensures toks[i] == kw && toks[i + 1] == o && Spans(c, toks, i + 2) && toks[m] == cl
    ensures Spans(t, toks, m + 1) && toks[k] == end
  {
    SpansThenToken([kw, o] + c + [cl] + t, end, toks, i);
    SpansSplit([kw, o] + c + [cl], t, toks, i);
    SpansThenToken([kw, o] + c, cl, toks, i);
    SpansTwoThen(kw, o, c, toks, i);
  }

  /** `kw ( c ) t el e end` spelled from `i`, with the `)` at `m` and `el` at `k`: where each part lies. */
  lemma {:induction false} IfElseParts(kw: Token, o: Token, c: seq<Token>, cl: Token, t: seq<Token>, el: Token, e: seq<Token>, end: Token,
                    toks: seq<Token>, i: nat, m: nat, k: nat)
    requires Spans([kw, o] + c + [cl] + t + [el] + e + [end], toks, i) && m == i + 2 + |c| && k == m + 1 + |t|
    ensures toks[i] == kw && toks[i + 1] == o && Spans(c, toks, i + 2) && toks[m] == cl
    ensures Spans(t, toks, m + 1) && toks[k] == el && Spans(e, toks, k + 1) && toks[k + 1 + |e|] == end
  {
    SpansThenToken([kw, o] + c + [cl] + t + [el] + e, end, toks, i);
    SpansSplit([kw, o] + c + [cl] + t + [el], e, toks, i);
    SpansThenToken([kw, o] + c + [cl] + t, el, toks, i);
    SpansSplit([kw, o] + c + [cl], t, toks, i);
    SpansThenToken([kw, o] + c, cl, toks, i);
    SpansTwoThen(kw, o, c, toks, i);
  }

  /** What well-formedness says about the parts of an `if`. */
  lemma {:induction false} WfIfParts(st: StmtTree)
    requires (st.SIf? || st.SIfElse?) && WfStmt(st)
    ensures IsKw(st.kw, "if") && IsSep(st.open, "(") && WfCond(st.cond) && IsSep(st.close, ")")
    ensures WfStmt(st.thenPart) && IsKw(st.endKw, "endif")
    ensures st.SIfElse? ==> IsKw(st.elseKw, "else") && WfStmt(st.elsePart)
  {
  }

  lemma {:induction false} IfComplete(toks: seq<Token>, s: State, st: StmtTree)
    requires Valid(toks, s) && (st.SIf? || st.SIfElse?) && WfStmt(st) && Spans(StmtYield(st), toks, s.pos)
    ensures If(toks, s).Success? && If(toks, s).value.pos == s.pos + |StmtYield(st)|
    decreases st, 2
  {
    WfIfParts(st);
    if st.SIf? {
      IfThenComplete(toks, s, st);
    } else {
      IfElseComplete(toks, s, st);
    }
  }

  lemma {:induction false} IfThenComplete(toks: seq<Token>, s: State, st: StmtTree)
    requires Valid(toks, s) && st.SIf? && WfStmt(st) && Spans(StmtYield(st), toks, s.pos)
    ensures If(toks, s).Success? && If(toks, s).value.pos == s.pos + |StmtYield(st)|
    decreases st, 1
  {
    WfIfParts(st);
    var c := CondYield(st.cond);
    var t := StmtYield(st.thenPart);
    var m := s.pos + 2 + |c|;
    var k := m + 1 + |t|;
    IfThenParts(st.kw, st.open, c, st.close, t, st.endKw, toks, s.pos, m, k);
    var s2, s4 := IfHeadComplete(toks, s, st.cond, m);
    assert Spans(t, toks, s4.pos);
    StatementComplete(toks, s4, st.thenPart);
    var s5 := Statement(toks, s4).value;
    assert s5.pos == k && IsKw(toks[k], "endif");
    assert Else(toks, s5) == Success(s5);
    IfRuns(toks, s, s2, s4, k);
  }

  lemma {:induction false} IfElseComplete(toks: seq<Token>, s: State, st: StmtTree)
    requires Valid(toks, s) && st.SIfElse? && WfStmt(st) && Spans(StmtYield(st), toks, s.pos)
    ensures If(toks, s).Success? && If(toks, s).value.pos == s.pos + |StmtYield(st)|
    decreases st, 1
  {
    WfIfParts(st);
    var c := CondYield(st.cond);
    var t := StmtYield(st.thenPart);
    var m := s.pos + 2 + |c|;
    var k := m + 1 + |t|;
    var e := StmtYield(st.elsePart);
    IfElseParts(st.kw, st.open, c, st.close, t, st.elseKw, e, st.endKw, toks, s.pos, m, k);
    var n := k + 1 + |e|;
    assert n < |toks| && IsKw(toks[n], "endif");
    var s2, s4 := IfHeadComplete(toks, s, st.cond, m);
    assert Spans(t, toks, s4.pos);
    StatementComplete(toks, s4, st.thenPart);
    var s5 := Statement(toks, s4).value;
    assert s5.pos == k;
    assert IsKw(toks[s5.pos], "else") && Spans(e, toks, s5.pos + 1);
    ElseComplete(toks, s5, st);
    assert Else(toks, s5).value.pos == n;
    IfRuns(toks, s, s2, s4, n);
  }

  /** `if ( <Condition> )` is accepted: `s2` is the state after `if (` and `s4` the one after the `)` at `m`. */
  lemma {:induction false} IfHeadComplete(toks: seq<Token>, s: State, c: CondTree, m: nat) returns (s2: State, s4: State)
    requires Valid(toks, s) && s.pos + 1 < |toks| && IsKw(toks[s.pos], "if") && IsSep(toks[s.pos + 1], "(")
    requires WfCond(c) && Spans(CondYield(c), toks, s.pos + 2) && m == s.pos + 2 + |CondYield(c)| && IsSep(toks[m], ")")
    ensures s2 == Expect(toks, Expect(toks, Prod(s, IfRule), Keyword, Some("if")).value, Separator, Some("(")).value
    ensures Valid(toks, s2) && Condition(toks, s2).Success? && Condition(toks, s2).value.pos == m
    ensures s4 == Expect(toks, Condition(toks, s2).value, Separator, Some(")")).value
    ensures s4.pos == m + 1 && Valid(toks, s4)
  {
    s2 := Expect(toks, Expect(toks, Prod(s, IfRule), Keyword, Some("if")).value, Separator, Some("(")).value;
    ClosersEndExpressions(c.right, toks[m]);
    ConditionComplete(toks, s2, c);
    s4 := Expect(toks, Condition(toks, s2).value, Separator, Some(")")).value;
  }

  /** `If` runs through its steps when each of them succeeds, the `endif` being at `n`. */
  lemma {:induction false} IfRuns(toks: seq<Token>, s: State, s2: State, s4: State, n: nat)
    requires Valid(toks, s) && s.pos + 1 < |toks| && IsKw(toks[s.pos], "if") && IsSep(toks[s.pos + 1], "(")
    requires s2 == Expect(toks, Expect(toks, Prod(s, IfRule), Keyword, Some("if")).value, Separator, Some("(")).value
    requires Valid(toks, s2) && Condition(toks, s2).Success? && IsSep(toks[Condition(toks, s2).value.pos], ")")
    requires s4 == Expect(toks, Condition(toks, s2).value, Separator, Some(")")).value
    requires Valid(toks, s4) && Statement(toks, s4).Success? && Else(toks, Statement(toks, s4).value).Success?
    requires Else(toks, Statement(toks, s4).value).value.pos == n && n < |toks| && IsKw(toks[n], "endif")
    ensures If(toks, s).Success? && If(toks, s).value.pos == n + 1
  {
  }

  /** The `else` part of a spelled `if`, from the `else` at `s.pos`, is accepted up to the `endif`. */
  lemma {:induction false} ElseComplete(toks: seq<Token>, s: State, st: StmtTree)
    requires Valid(toks, s) && st.SIfElse? && IsKw(toks[s.pos], "else") && WfStmt(st.elsePart)
    requires Spans(StmtYield(st.elsePart), toks, s.pos + 1)
    ensures Else(toks, s).Success? && Else(toks, s).value.pos == s.pos + 1 + |StmtYield(st.elsePart)|
    decreases st, 0
  {
    var s1 := Expect(toks, s, Keyword, Some("else")).value;
    StatementComplete(toks, s1, st.elsePart);
  }

  lemma {:induction false} WhileComplete(toks: seq<Token>, s: State, st: StmtTree)
    requires Valid(toks, s) && st.SWhile? && WfStmt(st) && Spans(StmtYield(st), toks, s.pos)
    ensures While(toks, s).Success? && While(toks, s).value.pos == s.pos + |StmtYield(st)|
    decreases st, 1
  {
    var c := CondYield(st.cond);
    var b := StmtYield(st.loopBody);
    var m := s.pos + 2 + |c|;
    var k := m + 1 + |b|;
    IfThenParts(st.kw, st.open, c, st.close, b, st.endKw, toks, s.pos, m, k);
    assert IsKw(toks[k], "endwhile");
    var s2, s4 := WhileHeadComplete(toks, s, st.cond, m);
    assert Spans(b, toks, s4.pos);
    StatementComplete(toks, s4, st.loopBody);
    assert Statement(toks, s4).value.pos == k;
    WhileRuns(toks, s, s2, s4);
  }

  /** `while ( <Condition> )` is accepted: `s2` is the state after `while (` and `s4` the one after the `)` at `m`. */
  lemma {:induction false} WhileHeadComplete(toks: seq<Token>, s: State, c: CondTree, m: nat) returns (s2: State, s4: State)
    requires Valid(toks, s) && s.pos + 1 < |toks| && IsKw(toks[s.pos], "while") && IsSep(toks[s.pos + 1], "(")
    requires WfCond(c) && Spans(CondYield(c), toks, s.pos + 2) && m == s.pos + 2 + |CondYield(c)| && IsSep(toks[m], ")")
    ensures s2 == Expect(toks, Expect(toks, Prod(s, WhileRule), Keyword, Some("while")).value, Separator, Some("(")).value
    ensures Valid(toks, s2) && Condition(toks, s2).Success? && Condition(toks, s2).value.pos == m
    ensures s4 == Expect(toks, Condition(toks, s2).value, Separator, Some(")")).value
    ensures s4.pos == m + 1 && Valid(toks, s4)
  {
    s2 := Expect(toks, Expect(toks, Prod(s, WhileRule), Keyword, Some("while")).value, Separator, Some("(")).value;
    ClosersEndExpressions(c.right, toks[m]);
    ConditionComplete(toks, s2, c);
    s4 := Expect(toks, Condition(toks, s2).value, Separator, Some(")")).value;
  }

  /** `While` runs through its steps when each of them succeeds. */
  lemma {:induction false} WhileRuns(toks: seq<Token>, s: State, s2: State, s4: State)
    requires Valid(toks, s) && s.pos + 1 < |toks| && IsKw(toks[s.pos], "while") && IsSep(toks[s.pos + 1], "(")
    requires s2 == Expect(toks, Expect(toks, Prod(s, WhileRule), Keyword, Some("while")).value, Separator, Some("(")).value
    requires Valid(toks, s2) && Condition(toks, s2).Success? && IsSep(toks[Condition(toks, s2).value.pos], ")")
    requires s4 == Expect(toks, Condition(toks, s2).value, Separator, Some(")")).value
    requires Valid(toks, s4) && Statement(toks, s4).Success? && IsKw(toks[Statement(toks, s4).value.pos], "endwhile")
    ensures While(toks, s).Success? && While(toks, s).value.pos == Statement(toks, s4).value.pos + 1
  {
  }

  lemma {:induction false} ReturnComplete(toks: seq<Token>, s: State, st: StmtTree)
    requires Valid(toks, s) && (st.SReturn? || st.SReturnValue?) && WfStmt(st) && Spans(StmtYield(st), toks, s.pos)
    ensures Return(toks, s).Success? && Return(toks, s).value.pos == s.pos + |StmtYield(st)|
  {
    if st.SReturn? {
      SpansTwoThen(st.kw, st.semi, [], toks, s.pos);
    } else {
      SpansThenToken([st.kw] + ExprYield(st.expr), st.semi, toks, s.pos);
      SpansSplit([st.kw], ExprYield(st.expr), toks, s.pos);
      SpansToken(st.kw, toks, s.pos);
      FirstOfExprYield(st.expr);
      SpansFirst(ExprYield(st.expr), toks, s.pos + 1);
      var s1 := Expect(toks, Prod(s, ReturnRule), Keyword, Some("return")).value;
      ClosersEndExpressions(st.expr, st.semi);
      ExpressionComplete(toks, s1, st.expr);
    }
  }

  /** `kw (`, a middle part and then `) ;`: where each part lies. */
  lemma {:induction false} WrappedParts(kw: Token, o: Token, mid: seq<Token>, cl: Token, semi: Token, toks: seq<Token>, i: nat)
    requires Spans([kw, o] + mid + [cl, semi], toks, i)
    ensures toks[i] == kw && toks[i + 1] == o && Spans(mid, toks, i + 2)
    ensures toks[i + 2 + |mid|] == cl && toks[i + 3 + |mid|] == semi
  {
    SpansSplit([kw, o] + mid, [cl, semi], toks, i);
    SpansTwoThen(kw, o, mid, toks, i);
    SpansTwoThen(cl, semi, [], toks, i + 2 + |mid|);
  }

  lemma {:induction false} PrintComplete(toks: seq<Token>, s: State, st: StmtTree)
    requires Valid(toks, s) && st.SPrint? && WfStmt(st) && Spans(StmtYield(st), toks, s.pos)
    ensures Print(toks, s).Success? && Print(toks, s).value.pos == s.pos + |StmtYield(st)|
  {
    WrappedParts(st.kw, st.open, ExprYield(st.expr), st.close, st.semi, toks, s.pos);
    var s2 := Expect(toks, Expect(toks, Prod(s, PrintRule), Keyword, Some("print")).value, Separator, Some("(")).value;
    ClosersEndExpressions(st.expr, st.close);
    ExpressionComplete(toks, s2, st.expr);
  }

  lemma {:induction false} ScanComplete(toks: seq<Token>, s: State, st: StmtTree)
    requires Valid(toks, s) && st.SScan? && WfStmt(st) && Spans(StmtYield(st), toks, s.pos)
    ensures Scan(toks, s).Success? && Scan(toks, s).value.pos == s.pos + |StmtYield(st)|
  {
    WrappedParts(st.kw, st.open, st.ids, st.close, st.semi, toks, s.pos);
    var s2 := Expect(toks, Expect(toks, Prod(s, ScanRule), Keyword, Some("scan")).value, Separator, Some("(")).value;
    var m := s2.pos + |st.ids|;
    SliceOfIdList(toks, s2.pos, m);
    IdListAcceptedByIDs(toks, s2, m);
  }

  /** A statement list spelled from `s.pos` and followed by a token that starts no statement is accepted whole. */
  lemma {:induction false} StatementListComplete(toks: seq<Token>, s: State, l: StmtList)
    requires Valid(toks, s) && WfStmts(l) && Spans(StmtsYield(l), toks, s.pos)
    requires !StartsStatement(toks[s.pos + |StmtsYield(l)|])
    ensures StatementList(toks, s).Success? && StatementList(toks, s).value.pos == s.pos + |StmtsYield(l)|
    decreases l, 1
  {
    StmtStarts(l.stmt);
    SpansFirst(StmtsYield(l), toks, s.pos);
    StatementListRestComplete(toks, Prod(s, StatementListRule), l, s.pos + |StmtsYield(l)|);
  }

  /** The loop of `StatementList` runs over every statement of such a list. */
  lemma {:induction false} StatementListRestComplete(toks: seq<Token>, s: State, l: StmtList, e: nat)
    requires Valid(toks, s) && WfStmts(l) && Spans(StmtsYield(l), toks, s.pos)
    requires e == s.pos + |StmtsYield(l)| && !StartsStatement(toks[e])
    ensures StatementListRest(toks, s).Success? && StatementListRest(toks, s).value.pos == e
    decreases l, 0
  {
    if l.ConsStmt? {
      StmtsSplit(l, toks, s.pos);
    }
    var s1 := StatementListRestStep(toks, s, l.stmt);
    if l.ConsStmt? {
      StatementListRestComplete(toks, s1, l.rest, e);
    } else {
      assert s1.pos == e;
    }
  }

  /** Where the first statement of a spelled list and the rest of the list lie. */
  lemma {:induction false} StmtsSplit(l: StmtList, toks: seq<Token>, i: nat)
    requires l.ConsStmt? && WfStmts(l) && Spans(StmtsYield(l), toks, i)
    ensures WfStmt(l.stmt) && Spans(StmtYield(l.stmt), toks, i)
    ensures WfStmts(l.rest) && Spans(StmtsYield(l.rest), toks, i + |StmtYield(l.stmt)|)
    ensures |StmtsYield(l)| == |StmtYield(l.stmt)| + |StmtsYield(l.rest)|
  {
    SpansSplit(StmtYield(l.stmt), StmtsYield(l.rest), toks, i);
  }

  /** One turn of the loop over a spelled statement: the loop goes on right after it. */
  lemma {:induction false} StatementListRestStep(toks: seq<Token>, s: State, st: StmtTree) returns (s1: State)
    requires Valid(toks, s) && WfStmt(st) && Spans(StmtYield(st), toks, s.pos)
    ensures s1.pos == s.pos + |StmtYield(st)| && Valid(toks, s1)
    ensures StatementListRest(toks, s) == StatementListRest(toks, s1)
    decreases st, 4
  {
    StmtStarts(st);
    SpansFirst(StmtYield(st), toks, s.pos);
    StatementComplete(toks, s, st);
    s1 := Statement(toks, s).value;
    RestStep(toks, s);
  }

  /** One turn of the loop: a statement, then the loop again from where it ended. */
  lemma {:induction false} RestStep(toks: seq<Token>, s: State)
    requires Valid(toks, s) && StartsStatement(toks[s.pos]) && Statement(toks, s).Success?
    ensures StatementListRest(toks, s) == StatementListRest(toks, Statement(toks, s).value)
  {
  }

  lemma {:induction false} BodyComplete(toks: seq<Token>, s: State, b: BlockTree)
    requires Valid(toks, s) && WfBlock(b) && Spans(BlockYield(b), toks, s.pos)
    ensures Body(toks, s).Success? && Body(toks, s).value.pos == s.pos + |BlockYield(b)|
  {
    BlockParts(toks, s.pos, b);
    var s1 := Expect(toks, Prod(s, BodyRule), Separator, Some("{")).value;
    StatementListComplete(toks, s1, b.stmts);
  }

  // ---------------------------------------------------------------------------
  // Each statement procedure accepts exactly the spellings of its rule
  // ---------------------------------------------------------------------------

  /** `Statement` stops at `j` exactly when `toks[s.pos..j]` spells some statement. */
  lemma {:induction false} StatementExact(toks: seq<Token>, s: State, j: nat)
    requires Valid(toks, s) && s.pos <= j < |toks|
    ensures (Statement(toks, s).Success? && Statement(toks, s).value.pos == j)
            <==> exists st: StmtTree :: WfStmt(st) && StmtYield(st) == toks[s.pos..j]
  {
    if Statement(toks, s).Success? && Statement(toks, s).value.pos == j {
      var st := StatementSound(toks, s);
      assert WfStmt(st) && StmtYield(st) == toks[s.pos..j];
    }
    if exists st: StmtTree :: WfStmt(st) && StmtYield(st) == toks[s.pos..j] {
      var st: StmtTree :| WfStmt(st) && StmtYield(st) == toks[s.pos..j];
      assert Spans(StmtYield(st), toks, s.pos);
      StatementComplete(toks, s, st);
    }
  }

  /** `Compound` stops at `j` exactly when `toks[s.pos..j]` spells `{ <StatementList> }`. */
  lemma {:induction false} CompoundExact(toks: seq<Token>, s: State, j: nat)
    requires Valid(toks, s) && s.pos <= j < |toks|
    ensures (Compound(toks, s).Success? && Compound(toks, s).value.pos == j)
            <==> exists b: BlockTree :: WfBlock(b) && BlockYield(b) == toks[s.pos..j]
  {
    if Compound(toks, s).Success? && Compound(toks, s).value.pos == j {
      var b := CompoundSound(toks, s);
      assert WfBlock(b) && BlockYield(b) == toks[s.pos..j];
    }
    if exists b: BlockTree :: WfBlock(b) && BlockYield(b) == toks[s.pos..j] {
      var b: BlockTree :| WfBlock(b) && BlockYield(b) == toks[s.pos..j];
      assert Spans(BlockYield(b), toks, s.pos);
      CompoundComplete(toks, s, b);
    }
  }

  /** `Assign` stops at `j` exactly when `toks[s.pos..j]` spells `<Identifier> = <Expression> ;`. */
  lemma {:induction false} AssignExact(toks: seq<Token>, s: State, j: nat)
    requires Valid(toks, s) && s.pos <= j < |toks|
    ensures (Assign(toks, s).Success? && Assign(toks, s).value.pos == j)
            <==> exists st: StmtTree :: st.SAssign? && WfStmt(st) && StmtYield(st) == toks[s.pos..j]
  {
    if Assign(toks, s).Success? && Assign(toks, s).value.pos == j {
      var st := AssignSound(toks, s);
      assert st.SAssign? && WfStmt(st) && StmtYield(st) == toks[s.pos..j];
    }
    if exists st: StmtTree :: st.SAssign? && WfStmt(st) && StmtYield(st) == toks[s.pos..j] {
      var st: StmtTree :| st.SAssign? && WfStmt(st) && StmtYield(st) == toks[s.pos..j];
      assert Spans(StmtYield(st), toks, s.pos);
      AssignComplete(toks, s, st);
    }
  }

  /** `If` stops at `j` exactly when `toks[s.pos..j]` spells an `if` with or without an `else` part. */
  lemma {:induction false} IfExact(toks: seq<Token>, s: State, j: nat)
    requires Valid(toks, s) && s.pos <= j < |toks|
    ensures (If(toks, s).Success? && If(toks, s).value.pos == j)
            <==> exists st: StmtTree :: (st.SIf? || st.SIfElse?) && WfStmt(st) && StmtYield(st) == toks[s.pos..j]
  {
    if If(toks, s).Success? && If(toks, s).value.pos == j {
      var st := IfSound(toks, s);
      assert (st.SIf? || st.SIfElse?) && WfStmt(st) && StmtYield(st) == toks[s.pos..j];
    }
    if exists st: StmtTree :: (st.SIf? || st.SIfElse?) && WfStmt(st) && StmtYield(st) == toks[s.pos..j] {
      var st: StmtTree :| (st.SIf? || st.SIfElse?) && WfStmt(st) && StmtYield(st) == toks[s.pos..j];
      assert Spans(StmtYield(st), toks, s.pos);
      IfComplete(toks, s, st);
    }
  }

  /** `While` stops at `j` exactly when `toks[s.pos..j]` spells `while ( <Condition> ) <Statement>`. */
  lemma {:induction false} WhileExact(toks: seq<Token>, s: State, j: nat)
    requires Valid(toks, s) && s.pos <= j < |toks|
    ensures (While(toks, s).Success? && While(toks, s).value.pos == j)
            <==> exists st: StmtTree :: st.SWhile? && WfStmt(st) && StmtYield(st) == toks[s.pos..j]
  {
    if While(toks, s).Success? && While(toks, s).value.pos == j {
      var st := WhileSound(toks, s);
      assert st.SWhile? && WfStmt(st) && StmtYield(st) == toks[s.pos..j];
    }
    if exists st: StmtTree :: st.SWhile? && WfStmt(st) && StmtYield(st) == toks[s.pos..j] {
      var st: StmtTree :| st.SWhile? && WfStmt(st) && StmtYield(st) == toks[s.pos..j];
      assert Spans(StmtYield(st), toks, s.pos);
      WhileComplete(toks, s, st);
    }
  }

  /** `Return` stops at `j` exactly when `toks[s.pos..j]` spells `return ;` or `return <Expression> ;`. */
  lemma {:induction false} ReturnExact(toks: seq<Token>, s: State, j: nat)
    requires Valid(toks, s) && s.pos <= j < |toks|
    ensures (Return(toks, s).Success? && Return(toks, s).value.pos == j)
            <==> exists st: StmtTree :: (st.SReturn? || st.SReturnValue?) && WfStmt(st) && StmtYield(st) == toks[s.pos..j]
  {
    if Return(toks, s).Success? && Return(toks, s).value.pos == j {
      var st := ReturnSound(toks, s);
      assert (st.SReturn? || st.SReturnValue?) && WfStmt(st) && StmtYield(st) == toks[s.pos..j];
    }
    if exists st: StmtTree :: (st.SReturn? || st.SReturnValue?) && WfStmt(st) && StmtYield(st) == toks[s.pos..j] {
      var st: StmtTree :| (st.SReturn? || st.SReturnValue?) && WfStmt(st) && StmtYield(st) == toks[s.pos..j];
      assert Spans(StmtYield(st), toks, s.pos);
      ReturnComplete(toks, s, st);
    }
  }

  /** `Print` stops at `j` exactly when `toks[s.pos..j]` spells `print ( <Expression> ) ;`. */
  lemma {:induction false} PrintExact(toks: seq<Token>, s: State, j: nat)
    requires Valid(toks, s) && s.pos <= j < |toks|
    ensures (Print(toks, s).Success? && Print(toks, s).value.pos == j)
            <==> exists st: StmtTree :: st.SPrint? && WfStmt(st) && StmtYield(st) == toks[s.pos..j]
  {
    if Print(toks, s).Success? && Print(toks, s).value.pos == j {
      var st := PrintSound(toks, s);
      assert st.SPrint? && WfStmt(st) && StmtYield(st) == toks[s.pos..j];
    }
    if exists st: StmtTree :: st.SPrint? && WfStmt(st) && StmtYield(st) == toks[s.pos..j] {
      var st: StmtTree :| st.SPrint? && WfStmt(st) && StmtYield(st) == toks[s.pos..j];
      assert Spans(StmtYield(st), toks, s.pos);
      PrintComplete(toks, s, st);
    }
  }

  /** `Scan` stops at `j` exactly when `toks[s.pos..j]` spells `scan ( <IDs> ) ;`. */
  lemma {:induction false} ScanExact(toks: seq<Token>, s: State, j: nat)
    requires Valid(toks, s) && s.pos <= j < |toks|
    ensures (Scan(toks, s).Success? && Scan(toks, s).value.pos == j)
            <==> exists st: StmtTree :: st.SScan? && WfStmt(st) && StmtYield(st) == toks[s.pos..j]
  {
    if Scan(toks, s).Success? && Scan(toks, s).value.pos == j {
      var st := ScanSound(toks, s);
      assert st.SScan? && WfStmt(st) && StmtYield(st) == toks[s.pos..j];
    }
    if exists st: StmtTree :: st.SScan? && WfStmt(st) && StmtYield(st) == toks[s.pos..j] {
      var st: StmtTree :| st.SScan? && WfStmt(st) && StmtYield(st) == toks[s.pos..j];
      assert Spans(StmtYield(st), toks, s.pos);
      ScanComplete(toks, s, st);
    }
  }

  /** `StatementList` stops at `j` exactly when `toks[s.pos..j]` spells one or more statements and `toks[j]` cannot start another. */
  lemma {:induction false} StatementListExact(toks: seq<Token>, s: State, j: nat)
    requires Valid(toks, s) && s.pos <= j < |toks|
    ensures (StatementList(toks, s).Success? && StatementList(toks, s).value.pos == j)
            <==> (exists l: StmtList :: WfStmts(l) && StmtsYield(l) == toks[s.pos..j]) && !StartsStatement(toks[j])
  {
    if StatementList(toks, s).Success? && StatementList(toks, s).value.pos == j {
      var l := StatementListSound(toks, s);
      assert WfStmts(l) && StmtsYield(l) == toks[s.pos..j];
    }
    if (exists l: StmtList :: WfStmts(l) && StmtsYield(l) == toks[s.pos..j]) && !StartsStatement(toks[j]) {
      var l: StmtList :| WfStmts(l) && StmtsYield(l) == toks[s.pos..j];
      assert Spans(StmtsYield(l), toks, s.pos);
      StatementListComplete(toks, s, l);
    }
  }

  /** `Body` stops at `j` exactly when `toks[s.pos..j]` spells `{ <StatementList> }`. */
  lemma {:induction false} BodyExact(toks: seq<Token>, s: State, j: nat)
    requires Valid(toks, s) && s.pos <= j < |toks|
    ensures (Body(toks, s).Success? && Body(toks, s).value.pos == j)
            <==> exists b: BlockTree :: WfBlock(b) && BlockYield(b) == toks[s.pos..j]
  {
    if Body(toks, s).Success? && Body(toks, s).value.pos == j {
      var b := BodySound(toks, s);
      assert WfBlock(b) && BlockYield(b) == toks[s.pos..j];
    }
    if exists b: BlockTree :: WfBlock(b) && BlockYield(b) == toks[s.pos..j] {
      var b: BlockTree :| WfBlock(b) && BlockYield(b) == toks[s.pos..j];
      assert Spans(BlockYield(b), toks, s.pos);
      BodyComplete(toks, s, b);
    }
  }
}
