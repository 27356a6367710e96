/**
  The expression procedures against the syntax trees of module `Syntax`.
  Soundness: whatever `Expression`, `Term`, `Factor` or `Primary` accepts
  is the yield of a well-formed tree, and the token it stops at cannot
  extend that tree. Completeness: every such yield is accepted, ending at
  exactly that token. Together they characterise `Expression` exactly.
 */
module ExpressionProofs {
  import opened Wrappers
  import opened Tokens
  import opened Syntax
  import opened Parser
  import opened ParserProofs

  // ---------------------------------------------------------------------------
  // Slices
  // ---------------------------------------------------------------------------

  /** The index-based identifier list of the parser proofs is an `IdList` of the slice. */
  lemma {:induction false} IdListOfSlice(toks: seq<Token>, i: nat, j: nat)
    requires i < j <= |toks| && IsIdList(toks, i, j)
    ensures IdList(toks[i..j])
    decreases j - i
  {
    if j > i + 1 {
      IdListOfSlice(toks, i + 2, j);
      assert toks[i..j][2..] == toks[i + 2..j];
    }
  }

  /** And back. */
  lemma {:induction false} SliceOfIdList(toks: seq<Token>, i: nat, j: nat)
    requires i < j <= |toks| && IdList(toks[i..j])
    ensures IsIdList(toks, i, j)
    decreases j - i
  {
    var ts := toks[i..j];
    assert ts[0] == toks[i];
    if j > i + 1 {
      assert ts[1] == toks[i + 1];
      assert ts[2..] == toks[i + 2..j];
      SliceOfIdList(toks, i + 2, j);
    }
  }

  /** Adjacent slices around one token join up. */
  lemma JoinAround(toks: seq<Token>, i: nat, m: nat, k: nat)
    requires i <= m < k <= |toks|
    ensures toks[i..k] == toks[i..m] + [toks[m]] + toks[m + 1..k]
  {
  }

  /** `ys` is spelled by `toks` from index `i`, and a token follows it. */
  predicate Spans(ys: seq<Token>, toks: seq<Token>, i: nat) {
    i + |ys| < |toks| && toks[i..i + |ys|] == ys
  }

  lemma SpansSplit(a: seq<Token>, b: seq<Token>, toks: seq<Token>, i: nat)
    requires Spans(a + b, toks, i)
    ensures Spans(a, toks, i) && Spans(b, toks, i + |a|)
  {
    assert toks[i..i + |a|] == (a + b)[..|a|];
    assert toks[i + |a|..i + |a| + |b|] == (a + b)[|a|..];
  }

  /** A yield `a`, one token `x`, then `b`: each part is spelled where it should be. */
  lemma SpansAround(a: seq<Token>, x: Token, b: seq<Token>, toks: seq<Token>, i: nat)
    requires Spans(a + [x] + b, toks, i)
    ensures Spans(a, toks, i) && toks[i + |a|] == x && Spans(b, toks, i + |a| + 1)
  {
    SpansSplit(a + [x], b, toks, i);
    SpansSplit(a, [x], toks, i);
  }

  /** `id ( <IdList> )` spelled by `toks[i..j]` is the yield of a call tree. */
  lemma CallTree(toks: seq<Token>, i: nat, j: nat) returns (p: PrimaryTree)
    requires i + 3 < j <= |toks| && toks[i].kind == Identifier && IsSep(toks[i + 1], "(")
    requires IsIdList(toks, i + 2, j - 1) && IsSep(toks[j - 1], ")")
    ensures p.PCall? && WfPrim(p) && PrimYield(p) == toks[i..j]
  {
    IdListOfSlice(toks, i + 2, j - 1);
    p := PCall(toks[i], toks[i + 1], toks[i + 2..j - 1], toks[j - 1]);
    assert toks[i..j] == [toks[i], toks[i + 1]] + toks[i + 2..j - 1] + [toks[j - 1]];
  }

  /** `( <expression> )` spelled by `toks[i..j]` is the yield of a parenthesised tree. */
  lemma ParenTree(toks: seq<Token>, i: nat, j: nat, inner: ExprTree) returns (p: PrimaryTree)
    requires i + 1 < j <= |toks| && IsSep(toks[i], "(") && IsSep(toks[j - 1], ")")
    requires WfExpr(inner) && ExprYield(inner) == toks[i + 1..j - 1]
    ensures p.PParen? && WfPrim(p) && PrimYield(p) == toks[i..j]
  {
    p := PParen(toks[i], inner, toks[j - 1]);
    assert toks[i..j] == [toks[i]] + toks[i + 1..j - 1] + [toks[j - 1]];
  }

  /** A `-` lexeme at `i` followed by the yield of a primary is the yield of a negated factor. */
  lemma NegTree(toks: seq<Token>, i: nat, j: nat, p: PrimaryTree) returns (f: FactorTree)
    requires i < j <= |toks| && toks[i].lexeme == "-" && WfPrim(p) && PrimYield(p) == toks[i + 1..j]
    ensures WfFactor(f) && f.primary == p && FactorYield(f) == toks[i..j]
  {
    f := FNeg(toks[i], p);
    assert toks[i..j] == [toks[i]] + toks[i + 1..j];
  }

  lemma FirstOfYield(p: PrimaryTree)
    ensures |PrimYield(p)| > 0 && PrimYield(p)[0] == FirstToken(p)
  {
  }

  // ---------------------------------------------------------------------------
  // Soundness
  // ---------------------------------------------------------------------------

  /** A successful `Expression` spans the yield of a well-formed expression tree that its stop token ends. */
  lemma ExpressionSound(toks: seq<Token>, s: State) returns (e: ExprTree)
    requires Valid(toks, s)
    ensures var r := Expression(toks, s);
            r.Success? ==>
              && WfExpr(e) && ExprYield(e) == toks[s.pos..r.value.pos]
              && EndsExpression(e, toks[r.value.pos])
    decreases |toks| - s.pos, 4
  {
    e := ETerm(TFactor(FPlain(PIdent(toks[s.pos]))));
    var rt := Term(toks, Prod(s, ExpressionRule));
    if rt.Success? {
      var t := TermSound(toks, Prod(s, ExpressionRule));
      e := ExpressionPrimeSound(toks, rt.value, s.pos, ETerm(t));
    }
  }

  /**
    `ExpressionPrime` extends an expression already spanning
    `toks[i..s.pos]` by further `+`/`-` terms, nesting to the left.
   */
  lemma ExpressionPrimeSound(toks: seq<Token>, s: State, i: nat, left: ExprTree) returns (e: ExprTree)
    requires Valid(toks, s) && i <= s.pos
    requires WfExpr(left) && ExprYield(left) == toks[i..s.pos]
    requires ClosedBy(LastOfExpr(left), toks[s.pos]) && !ContinuesTerm(toks[s.pos])
    ensures var r := ExpressionPrime(toks, s);
            r.Success? ==>
              && WfExpr(e) && ExprYield(e) == toks[i..r.value.pos]
              && EndsExpression(e, toks[r.value.pos])
    decreases |toks| - s.pos, 4
  {
    e := left;
    if ContinuesExpr(toks[s.pos]) {
      e := ExpressionPrimeMoreSound(toks, s, i, left);
    }
  }

  /** One turn of `ExpressionPrime` at a `+` or `-`: the term after it joins the tree on the right. */
  lemma ExpressionPrimeMoreSound(toks: seq<Token>, s: State, i: nat, left: ExprTree) returns (e: ExprTree)
    requires Valid(toks, s) && i <= s.pos && ContinuesExpr(toks[s.pos])
    requires WfExpr(left) && ExprYield(left) == toks[i..s.pos]
    ensures var r := ExpressionPrime(toks, s);
            r.Success? ==>
              && WfExpr(e) && ExprYield(e) == toks[i..r.value.pos]
              && EndsExpression(e, toks[r.value.pos])
    decreases |toks| - s.pos, 3
  {
    e := left;
    var s1 := Advance(toks, Prod(s, ExpressionPrimeMore));
    var rt := Term(toks, s1);
    if rt.Success? {
      var t := TermSound(toks, s1);
      var grown := ExtendExpr(toks, i, s.pos, rt.value.pos, left, t);
      e := ExpressionPrimeSound(toks, rt.value, i, grown);
    }
  }

  /** An expression, a `+`/`-` and a term spelled one after another spell a longer expression. */
  lemma ExtendExpr(toks: seq<Token>, i: nat, m: nat, k: nat, left: ExprTree, t: TermTree) returns (e: ExprTree)
    requires i <= m < k <= |toks| && ContinuesExpr(toks[m])
    requires WfExpr(left) && ExprYield(left) == toks[i..m]
    requires WfTerm(t) && TermYield(t) == toks[m + 1..k]
    ensures WfExpr(e) && ExprYield(e) == toks[i..k] && LastOfExpr(e) == LastOfTerm(t)
  {
    e := EOp(left, toks[m], t);
    JoinAround(toks, i, m, k);
  }

  /** A term, a `*`/`/` and a factor spelled one after another spell a longer term. */
  lemma ExtendTerm(toks: seq<Token>, i: nat, m: nat, k: nat, left: TermTree, f: FactorTree) returns (t: TermTree)
    requires i <= m < k <= |toks| && ContinuesTerm(toks[m])
    requires WfTerm(left) && TermYield(left) == toks[i..m]
    requires WfFactor(f) && FactorYield(f) == toks[m + 1..k]
    ensures WfTerm(t) && TermYield(t) == toks[i..k] && LastOfTerm(t) == f.primary
  {
    t := TOp(left, toks[m], f);
    JoinAround(toks, i, m, k);
  }

  /** A successful `Term` spans the yield of a well-formed term tree; its stop token continues no term. */
  lemma TermSound(toks: seq<Token>, s: State) returns (t: TermTree)
    requires Valid(toks, s)
    ensures var r := Term(toks, s);
            r.Success? ==>
              && WfTerm(t) && TermYield(t) == toks[s.pos..r.value.pos]
              && ClosedBy(LastOfTerm(t), toks[r.value.pos]) && !ContinuesTerm(toks[r.value.pos])
    decreases |toks| - s.pos, 3
  {
    t := TFactor(FPlain(PIdent(toks[s.pos])));
    var rf := Factor(toks, Prod(s, TermRule));
    if rf.Success? {
      var f := FactorSound(toks, Prod(s, TermRule));
      t := TermPrimeSound(toks, rf.value, s.pos, TFactor(f));
    }
  }

  /** `TermPrime` extends a term spanning `toks[i..s.pos]` by further `*`/`/` factors. */
  lemma TermPrimeSound(toks: seq<Token>, s: State, i: nat, left: TermTree) returns (t: TermTree)
    requires Valid(toks, s) && i <= s.pos
    requires WfTerm(left) && TermYield(left) == toks[i..s.pos]
    requires ClosedBy(LastOfTerm(left), toks[s.pos])
    ensures var r := TermPrime(toks, s);
            r.Success? ==>
              && WfTerm(t) && TermYield(t) == toks[i..r.value.pos]
              && ClosedBy(LastOfTerm(t), toks[r.value.pos]) && !ContinuesTerm(toks[r.value.pos])
    decreases |toks| - s.pos, 3
  {
    t := left;
    if ContinuesTerm(toks[s.pos]) {
      t := TermPrimeMoreSound(toks, s, i, left);
    }
  }

  /** One turn of `TermPrime` at a `*` or `/`: the factor after it joins the tree on the right. */
  lemma TermPrimeMoreSound(toks: seq<Token>, s: State, i: nat, left: TermTree) returns (t: TermTree)
    requires Valid(toks, s) && i <= s.pos && ContinuesTerm(toks[s.pos])
    requires WfTerm(left) && TermYield(left) == toks[i..s.pos]
    ensures var r := TermPrime(toks, s);
            r.Success? ==>
              && WfTerm(t) && TermYield(t) == toks[i..r.value.pos]
              && ClosedBy(LastOfTerm(t), toks[r.value.pos]) && !ContinuesTerm(toks[r.value.pos])
    decreases |toks| - s.pos, 2
  {
    t := left;
    var s1 := Advance(toks, Prod(s, TermPrimeMore));
    var rf := Factor(toks, s1);
    if rf.Success? {
      var f := FactorSound(toks, s1);
      var grown := ExtendTerm(toks, i, s.pos, rf.value.pos, left, f);
      t := TermPrimeSound(toks, rf.value, i, grown);
    }
  }

  /** A successful `Factor` spans the yield of a well-formed factor tree. */
  lemma FactorSound(toks: seq<Token>, s: State) returns (f: FactorTree)
    requires Valid(toks, s)
    ensures var r := Factor(toks, s);
            r.Success? ==>
              && WfFactor(f) && FactorYield(f) == toks[s.pos..r.value.pos]
              && ClosedBy(f.primary, toks[r.value.pos])
    decreases |toks| - s.pos, 2
  {
    if toks[s.pos].lexeme == "-" {
      var s1 := Advance(toks, Prod(s, FactorNegated));
      var p := PrimarySound(toks, s1);
      f := FNeg(toks[s.pos], p);
      var r := Primary(toks, s1);
      if r.Success? {
        f := NegTree(toks, s.pos, r.value.pos, p);
      }
    } else {
      var p := PrimarySound(toks, Prod(s, FactorPlain));
      f := FPlain(p);
      FirstOfYield(p);
    }
  }

  /** A successful `Primary` spans the yield of a well-formed primary tree. */
  lemma PrimarySound(toks: seq<Token>, s: State) returns (p: PrimaryTree)
    requires Valid(toks, s)
    ensures var r := Primary(toks, s);
            r.Success? ==>
              && WfPrim(p) && PrimYield(p) == toks[s.pos..r.value.pos]
              && ClosedBy(p, toks[r.value.pos])
    decreases |toks| - s.pos, 1
  {
    var tok := toks[s.pos];
    if tok.kind == Identifier && toks[s.pos + 1].lexeme == "(" {
      p := CallSound(toks, s);
    } else if tok.kind == Separator && tok.lexeme == "(" {
      p := ParenthesizedSound(toks, s);
    } else {
      p := if tok.kind == Identifier then PIdent(tok) else PLiteral(tok);
      var r := Primary(toks, s);
      if r.Success? {
        assert r.value.pos == s.pos + 1;
        assert toks[s.pos..s.pos + 1] == [tok];
      }
    }
  }

  /** The call form of `Primary`: `id ( <IDs> )`. */
  lemma CallSound(toks: seq<Token>, s: State) returns (p: PrimaryTree)
    requires Valid(toks, s) && toks[s.pos].kind == Identifier && toks[s.pos + 1].lexeme == "("
    ensures var r := Primary(toks, s);
            r.Success? ==> WfPrim(p) && PrimYield(p) == toks[s.pos..r.value.pos] && !p.PIdent?
  {
    p := PLiteral(toks[s.pos]);
    var r := Primary(toks, s);
    if r.Success? {
      PrimaryCallShape(toks, s);
      p := CallTree(toks, s.pos, r.value.pos);
    }
  }

  /** The parenthesised form of `Primary`: `( <Expression> )`. */
  lemma ParenthesizedSound(toks: seq<Token>, s: State) returns (p: PrimaryTree)
    requires Valid(toks, s) && toks[s.pos].kind == Separator && toks[s.pos].lexeme == "("
    ensures var r := Primary(toks, s);
            r.Success? ==> WfPrim(p) && PrimYield(p) == toks[s.pos..r.value.pos] && !p.PIdent?
    decreases |toks| - s.pos, 0
  {
    var tok := toks[s.pos];
    p := PLiteral(tok);
    var r := ParenthesizedPrimary(toks, s);
    assert Primary(toks, s) == r;
    if r.Success? {
      var s1 := Expect(toks, Prod(s, PrimaryParenthesized), Separator, Some("(")).value;
      var e2 := Expression(toks, s1);
      assert e2.Success?;
      var s2 := e2.value;
      assert r == Expect(toks, s2, Separator, Some(")"));
      var inner := ExpressionSound(toks, s1);
      p := ParenTree(toks, s.pos, r.value.pos, inner);
    }
  }

  // ---------------------------------------------------------------------------
  // Completeness
  // ---------------------------------------------------------------------------

  /** Every well-formed primary is accepted whole, provided a bare identifier is not followed by `(`. */
  lemma PrimaryComplete(toks: seq<Token>, s: State, p: PrimaryTree)
    requires Valid(toks, s) && WfPrim(p) && Spans(PrimYield(p), toks, s.pos)
    requires ClosedBy(p, toks[s.pos + |PrimYield(p)|])
    ensures Primary(toks, s).Success? && Primary(toks, s).value.pos == s.pos + |PrimYield(p)|
    decreases |PrimYield(p)|, 1
  {
    assert toks[s.pos] == PrimYield(p)[0];
    match p
    case PIdent(_) =>
      assert toks[s.pos + 1].lexeme != "(";
    case PLiteral(_) =>
    case PCall(_, _, _, _) =>
      CallComplete(toks, s, p);
    case PParen(_, _, _) =>
      ParenthesizedComplete(toks, s, p);
  }

  lemma CallComplete(toks: seq<Token>, s: State, p: PrimaryTree)
    requires Valid(toks, s) && p.PCall? && WfPrim(p) && Spans(PrimYield(p), toks, s.pos)
    ensures Primary(toks, s).Success? && Primary(toks, s).value.pos == s.pos + |PrimYield(p)|
  {
    var k := s.pos + 2 + |p.args|;
    SpansSplit([p.name, p.open] + p.args, [p.close], toks, s.pos);
    SpansSplit([p.name, p.open], p.args, toks, s.pos);
    assert toks[s.pos] == p.name && toks[s.pos + 1] == p.open;
    assert toks[s.pos + 2..k] == p.args;
    assert toks[k] == p.close;
    var s1 := Expect(toks, Prod(s, PrimaryCall), Identifier, None).value;
    var e2 := Expect(toks, s1, Separator, Some("("));
    assert e2.Success?;
    SliceOfIdList(toks, s.pos + 2, k);
    IdListAcceptedByIDs(toks, e2.value, k);
    var s3 := IDs(toks, e2.value).value;
    assert Expect(toks, s3, Separator, Some(")")).Success?;
  }

  lemma ParenthesizedComplete(toks: seq<Token>, s: State, p: PrimaryTree)
    requires Valid(toks, s) && p.PParen? && WfPrim(p) && Spans(PrimYield(p), toks, s.pos)
    ensures Primary(toks, s).Success? && Primary(toks, s).value.pos == s.pos + |PrimYield(p)|
    decreases |PrimYield(p)|, 0
  {
    assert PrimYield(p) == [] + [p.open] + (ExprYield(p.inner) + [p.close]);
    SpansAround([], p.open, ExprYield(p.inner) + [p.close], toks, s.pos);
    SpansAround(ExprYield(p.inner), p.close, [], toks, s.pos + 1);
    var n := s.pos + 1 + |ExprYield(p.inner)|;
    assert toks[n] == p.close && n + 1 == s.pos + |PrimYield(p)|;
    var s1 := Expect(toks, Prod(s, PrimaryParenthesized), Separator, Some("(")).value;
    ExpressionComplete(toks, s1, p.inner);
    var s2 := Expression(toks, s1).value;
    assert s2.pos == n;
    ParenthesizedUnfolds(toks, s);
    assert Primary(toks, s) == Expect(toks, s2, Separator, Some(")"));
  }

  /** At a `(`, `Primary` is an `Expression` after it and then a `)`. */
  lemma ParenthesizedUnfolds(toks: seq<Token>, s: State)
    requires Valid(toks, s) && IsSep(toks[s.pos], "(")
    requires Expression(toks, Expect(toks, Prod(s, PrimaryParenthesized), Separator, Some("(")).value).Success?
    ensures var s1 := Expect(toks, Prod(s, PrimaryParenthesized), Separator, Some("(")).value;
            Primary(toks, s) == Expect(toks, Expression(toks, s1).value, Separator, Some(")"))
  {
    assert Primary(toks, s) == ParenthesizedPrimary(toks, s);
  }

  /** Every well-formed factor is accepted whole under the same proviso. */
  lemma FactorComplete(toks: seq<Token>, s: State, f: FactorTree)
    requires Valid(toks, s) && WfFactor(f) && Spans(FactorYield(f), toks, s.pos)
    requires ClosedBy(f.primary, toks[s.pos + |FactorYield(f)|])
    ensures Factor(toks, s).Success? && Factor(toks, s).value.pos == s.pos + |FactorYield(f)|
    decreases |FactorYield(f)|, 2
  {
    match f
    case FNeg(m, p) =>
      SpansSplit([m], PrimYield(p), toks, s.pos);
      assert toks[s.pos] == m;
      PrimaryComplete(toks, Advance(toks, Prod(s, FactorNegated)), p);
    case FPlain(p) =>
      FirstOfYield(p);
      assert toks[s.pos] == FirstToken(p);
      PrimaryComplete(toks, Prod(s, FactorPlain), p);
  }

  /** `Term` is its first factor followed by `TermPrime`. */
  lemma TermUnfolds(toks: seq<Token>, s: State)
    requires Valid(toks, s) && Factor(toks, Prod(s, TermRule)).Success?
    ensures Term(toks, s) == TermPrime(toks, Factor(toks, Prod(s, TermRule)).value)
  {
  }

  /** `TermPrime` at a `*` or `/`: one more factor, then `TermPrime` again. */
  lemma TermPrimeStep(toks: seq<Token>, s: State, s1: State, r: State)
    requires Valid(toks, s) && ContinuesTerm(toks[s.pos])
    requires s1 == Advance(toks, Prod(s, TermPrimeMore)) && s1.pos < |toks| && Factor(toks, s1) == Success(r)
    ensures Valid(toks, r) && TermPrime(toks, s) == TermPrime(toks, r)
  {
  }

  /** `Expression` is its first term followed by `ExpressionPrime`. */
  lemma ExpressionUnfolds(toks: seq<Token>, s: State)
    requires Valid(toks, s) && Term(toks, Prod(s, ExpressionRule)).Success?
    ensures Expression(toks, s) == ExpressionPrime(toks, Term(toks, Prod(s, ExpressionRule)).value)
  {
  }

  /** `ExpressionPrime` at a `+` or `-`: one more term, then `ExpressionPrime` again. */
  lemma ExpressionPrimeStep(toks: seq<Token>, s: State, s1: State, r: State)
    requires Valid(toks, s) && ContinuesExpr(toks[s.pos])
    requires s1 == Advance(toks, Prod(s, ExpressionPrimeMore)) && s1.pos < |toks| && Term(toks, s1) == Success(r)
    ensures Valid(toks, r) && ExpressionPrime(toks, s) == ExpressionPrime(toks, r)
  {
  }

  /** The pieces of a well-formed `<term> (*|/) <factor>` spelled from index `i`, each followed by its stop token. */
  lemma TermOpParts(toks: seq<Token>, i: nat, t: TermTree)
    requires t.TOp? && WfTerm(t) && Spans(TermYield(t), toks, i)
    requires ClosedBy(LastOfTerm(t), toks[i + |TermYield(t)|])
    ensures var m := i + |TermYield(t.left)|;
            && Spans(TermYield(t.left), toks, i) && ClosedBy(LastOfTerm(t.left), toks[m])
            && toks[m] == t.op && ContinuesTerm(t.op)
            && Spans(FactorYield(t.right), toks, m + 1)
            && ClosedBy(t.right.primary, toks[m + 1 + |FactorYield(t.right)|])
            && m + 1 + |FactorYield(t.right)| == i + |TermYield(t)|
  {
    assert TermYield(t) == TermYield(t.left) + [t.op] + FactorYield(t.right);
    SpansAround(TermYield(t.left), t.op, FactorYield(t.right), toks, i);
  }

  /** The same for a well-formed `<expression> (+|-) <term>`. */
  lemma ExprOpParts(toks: seq<Token>, i: nat, e: ExprTree)
    requires e.EOp? && WfExpr(e) && Spans(ExprYield(e), toks, i)
    requires ClosedBy(LastOfExpr(e), toks[i + |ExprYield(e)|]) && !ContinuesTerm(toks[i + |ExprYield(e)|])
    ensures var m := i + |ExprYield(e.left)|;
            && Spans(ExprYield(e.left), toks, i)
            && ClosedBy(LastOfExpr(e.left), toks[m]) && !ContinuesTerm(toks[m])
            && toks[m] == e.op && ContinuesExpr(e.op)
            && Spans(TermYield(e.right), toks, m + 1)
            && ClosedBy(LastOfTerm(e.right), toks[m + 1 + |TermYield(e.right)|])
            && !ContinuesTerm(toks[m + 1 + |TermYield(e.right)|])
            && m + 1 + |TermYield(e.right)| == i + |ExprYield(e)|
  {
    assert ExprYield(e) == ExprYield(e.left) + [e.op] + TermYield(e.right);
    SpansAround(ExprYield(e.left), e.op, TermYield(e.right), toks, i);
  }

  /**
    Running `Term` over a well-formed term leaves `TermPrime` at the token
    after it, in state `r`: the rest of the run is that call.
   */
  lemma TermRuns(toks: seq<Token>, s: State, t: TermTree) returns (r: State)
    requires Valid(toks, s) && WfTerm(t) && Spans(TermYield(t), toks, s.pos)
    requires ClosedBy(LastOfTerm(t), toks[s.pos + |TermYield(t)|])
    ensures r.pos == s.pos + |TermYield(t)| && Valid(toks, r)
    ensures Term(toks, s) == TermPrime(toks, r)
    decreases |TermYield(t)|, 4
  {
    match t
    case TFactor(f) =>
      FactorComplete(toks, Prod(s, TermRule), f);
      r := Factor(toks, Prod(s, TermRule)).value;
      TermUnfolds(toks, s);
    case TOp(_, _, _) =>
      r := TermRunsOp(toks, s, t);
  }

  /** The `<term> (*|/) <factor>` case: the left term runs, then one turn of `TermPrime`. */
  lemma TermRunsOp(toks: seq<Token>, s: State, t: TermTree) returns (r: State)
    requires Valid(toks, s) && t.TOp? && WfTerm(t) && Spans(TermYield(t), toks, s.pos)
    requires ClosedBy(LastOfTerm(t), toks[s.pos + |TermYield(t)|])
    ensures r.pos == s.pos + |TermYield(t)| && Valid(toks, r)
    ensures Term(toks, s) == TermPrime(toks, r)
    decreases |TermYield(t)|, 3
  {
    TermOpParts(toks, s.pos, t);
    var m := s.pos + |TermYield(t.left)|;
    assert ContinuesTerm(toks[m]) && Spans(FactorYield(t.right), toks, m + 1);
    var r1 := TermRuns(toks, s, t.left);
    r := TermPrimeRuns(toks, r1, m, t.right);
  }

  /** `TermPrime` at a `*` or `/` followed by a well-formed factor takes one turn over them. */
  lemma TermPrimeRuns(toks: seq<Token>, s: State, i: nat, f: FactorTree) returns (r: State)
    requires Valid(toks, s) && s.pos == i
    requires ContinuesTerm(toks[i]) && WfFactor(f) && Spans(FactorYield(f), toks, i + 1)
    requires ClosedBy(f.primary, toks[i + 1 + |FactorYield(f)|])
    ensures r.pos == i + 1 + |FactorYield(f)| && Valid(toks, r)
    ensures TermPrime(toks, s) == TermPrime(toks, r)
    decreases |FactorYield(f)|, 3
  {
    var s1 := Advance(toks, Prod(s, TermPrimeMore));
    FactorComplete(toks, s1, f);
    r := Factor(toks, s1).value;
    TermPrimeStep(toks, s, s1, r);
  }

  /** Every well-formed term is accepted whole when the next token continues no term. */
  lemma TermComplete(toks: seq<Token>, s: State, t: TermTree)
    requires Valid(toks, s) && WfTerm(t) && Spans(TermYield(t), toks, s.pos)
    requires ClosedBy(LastOfTerm(t), toks[s.pos + |TermYield(t)|])
    requires !ContinuesTerm(toks[s.pos + |TermYield(t)|])
    ensures Term(toks, s).Success? && Term(toks, s).value.pos == s.pos + |TermYield(t)|
    decreases |TermYield(t)|, 5
  {
    var r := TermRuns(toks, s, t);
  }

  /** Running `Expression` over a well-formed expression leaves `ExpressionPrime` at the token after it. */
  lemma ExpressionRuns(toks: seq<Token>, s: State, e: ExprTree) returns (r: State)
    requires Valid(toks, s) && WfExpr(e) && Spans(ExprYield(e), toks, s.pos)
    requires ClosedBy(LastOfExpr(e), toks[s.pos + |ExprYield(e)|])
    requires !ContinuesTerm(toks[s.pos + |ExprYield(e)|])
    ensures r.pos == s.pos + |ExprYield(e)| && Valid(toks, r)
    ensures Expression(toks, s) == ExpressionPrime(toks, r)
    decreases |ExprYield(e)|, 7
  {
    match e
    case ETerm(t) =>
      TermComplete(toks, Prod(s, ExpressionRule), t);
      r := Term(toks, Prod(s, ExpressionRule)).value;
      ExpressionUnfolds(toks, s);
    case EOp(_, _, _) =>
      r := ExpressionRunsOp(toks, s, e);
  }

  /** The `<expression> (+|-) <term>` case: the left expression runs, then one turn of `ExpressionPrime`. */
  lemma ExpressionRunsOp(toks: seq<Token>, s: State, e: ExprTree) returns (r: State)
    requires Valid(toks, s) && e.EOp? && WfExpr(e) && Spans(ExprYield(e), toks, s.pos)
    requires ClosedBy(LastOfExpr(e), toks[s.pos + |ExprYield(e)|])
    requires !ContinuesTerm(toks[s.pos + |ExprYield(e)|])
    ensures r.pos == s.pos + |ExprYield(e)| && Valid(toks, r)
    ensures Expression(toks, s) == ExpressionPrime(toks, r)
    decreases |ExprYield(e)|, 6
  {
    ExprOpParts(toks, s.pos, e);
    var m := s.pos + |ExprYield(e.left)|;
    assert ContinuesExpr(toks[m]) && Spans(TermYield(e.right), toks, m + 1);
    var r1 := ExpressionRuns(toks, s, e.left);
    r := ExpressionPrimeRuns(toks, r1, m, e.right);
  }

  /** `ExpressionPrime` at a `+` or `-` followed by a well-formed term takes one turn over them. */
  lemma ExpressionPrimeRuns(toks: seq<Token>, s: State, i: nat, t: TermTree) returns (r: State)
    requires Valid(toks, s) && s.pos == i
    requires ContinuesExpr(toks[i]) && WfTerm(t) && Spans(TermYield(t), toks, i + 1)
    requires ClosedBy(LastOfTerm(t), toks[i + 1 + |TermYield(t)|])
    requires !ContinuesTerm(toks[i + 1 + |TermYield(t)|])
    ensures r.pos == i + 1 + |TermYield(t)| && Valid(toks, r)
    ensures ExpressionPrime(toks, s) == ExpressionPrime(toks, r)
    decreases |TermYield(t)|, 6
  {
    var s1 := Advance(toks, Prod(s, ExpressionPrimeMore));
    TermComplete(toks, s1, t);
    r := Term(toks, s1).value;
    ExpressionPrimeStep(toks, s, s1, r);
  }

  /** Every well-formed expression is accepted whole when the next token ends it. */
  lemma ExpressionComplete(toks: seq<Token>, s: State, e: ExprTree)
    requires Valid(toks, s) && WfExpr(e) && Spans(ExprYield(e), toks, s.pos)
    requires EndsExpression(e, toks[s.pos + |ExprYield(e)|])
    ensures Expression(toks, s).Success? && Expression(toks, s).value.pos == s.pos + |ExprYield(e)|
    decreases |ExprYield(e)|, 8
  {
    var r := ExpressionRuns(toks, s, e);
  }

  // ---------------------------------------------------------------------------
  // Both directions
  // ---------------------------------------------------------------------------

  /**
    `Expression` from `s.pos` succeeds and stops at `j` exactly when
    `toks[s.pos..j]` is the yield of a well-formed expression tree that
    `toks[j]` ends.
   */
  lemma ExpressionExact(toks: seq<Token>, s: State, j: nat)
    requires Valid(toks, s) && s.pos <= j < |toks|
    ensures (Expression(toks, s).Success? && Expression(toks, s).value.pos == j)
            <==> exists e :: WfExpr(e) && ExprYield(e) == toks[s.pos..j] && EndsExpression(e, toks[j])
  {
    if Expression(toks, s).Success? && Expression(toks, s).value.pos == j {
      var e := ExpressionSound(toks, s);
      assert WfExpr(e) && ExprYield(e) == toks[s.pos..j] && EndsExpression(e, toks[j]);
    }
    if exists e :: WfExpr(e) && ExprYield(e) == toks[s.pos..j] && EndsExpression(e, toks[j]) {
      var e :| WfExpr(e) && ExprYield(e) == toks[s.pos..j] && EndsExpression(e, toks[j]);
      ExpressionComplete(toks, s, e);
    }
  }
}
