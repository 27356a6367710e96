/**
  Declarations, parameters, functions and whole programs against the
  syntax trees of module `Syntax`, in the style of `StatementProofs`:
  a `Sound` lemma builds the tree of what a procedure accepted, a
  `Complete` lemma shows that every well-formed yield is accepted and
  ends right after it, and an `Exact` lemma puts the two together.
  Lists that loop while the lookahead allows need that lookahead to stop
  them: a declaration list is followed by a token that is no qualifier,
  a parameter list by one that is no `,`, a function list by one that is
  no `function`.
 */
module ProgramProofs {
  import opened Wrappers
  import opened Tokens
  import opened Syntax
  import opened Parser
  import opened ParserProofs
  import opened ExpressionProofs
  import opened StatementProofs
  import Lexer
  import LexerProofs

  /** A slice from `i` to `j`, with a token after it, is spelled from `i`. */
  lemma {:induction false} SliceSpans(ys: seq<Token>, toks: seq<Token>, i: nat, j: nat)
    requires i <= j < |toks| && ys == toks[i..j]
    ensures Spans(ys, toks, i) && i + |ys| == j
  {
  }

  // ---------------------------------------------------------------------------
  // First tokens
  // ---------------------------------------------------------------------------

  /** A declaration list starts with its first qualifier. */
  lemma {:induction false} DeclsFirst(l: DeclList)
    requires WfDecls(l)
    ensures |DeclsYield(l)| > 0 && DeclsYield(l)[0] == l.decl.qualifier && IsQualifier(DeclsYield(l)[0].lexeme)
  {
    assert DeclYield(l.decl)[0] == l.decl.qualifier;
  }

  /** A well-formed parameter list starts with an identifier. */
  lemma {:induction false} ParamsFirst(l: ParamList)
    requires WfParams(l)
    ensures |ParamsYield(l)| > 0 && ParamsYield(l)[0].kind == Identifier
  {
    assert ParamYield(l.param)[0] == l.param.ids[0];
  }

  /** A function list starts with its first `function` keyword. */
  lemma {:induction false} FuncsFirst(l: FuncList)
    requires WfFuncs(l)
    ensures |FuncsYield(l)| > 0 && FuncsYield(l)[0] == l.func.kw && FuncsYield(l)[0].lexeme == "function"
  {
    assert FuncYield(l.func)[0] == l.func.kw;
  }

  // ---------------------------------------------------------------------------
  // Declarations (R11 to R13)
  // ---------------------------------------------------------------------------

  /** A successful `Declaration` spells a qualifier and an identifier list, and stops before a token that is no `,`. */
  lemma {:induction false} DeclarationSound(toks: seq<Token>, s: State) returns (d: DeclTree)
    requires Valid(toks, s)
    ensures var r := Declaration(toks, s);
            r.Success? ==> WfDecl(d) && DeclYield(d) == toks[s.pos..r.value.pos] && toks[r.value.pos].lexeme != ","
  {
    d := Decl(toks[s.pos], [toks[s.pos]]);
    var r := Declaration(toks, s);
    if r.Success? {
      var s1 := Qualifier(toks, Prod(s, DeclarationRule)).value;
      assert r == IDs(toks, s1);
      IDsAcceptsIdList(toks, s1);
      IdListOfSlice(toks, s1.pos, r.value.pos);
      d := Decl(toks[s.pos], toks[s1.pos..r.value.pos]);
      OneToken(toks, s.pos);
      Glue(toks, s.pos, s1.pos, r.value.pos, [toks[s.pos]], toks[s1.pos..r.value.pos]);
    }
  }

  lemma {:induction false} DeclarationComplete(toks: seq<Token>, s: State, d: DeclTree)
    requires Valid(toks, s) && WfDecl(d) && Spans(DeclYield(d), toks, s.pos)
    requires toks[s.pos + |DeclYield(d)|].lexeme != ","
    ensures Declaration(toks, s).Success? && Declaration(toks, s).value.pos == s.pos + |DeclYield(d)|
  {
    SpansSplit([d.qualifier], d.ids, toks, s.pos);
    SpansToken(d.qualifier, toks, s.pos);
    var s1 := Qualifier(toks, Prod(s, DeclarationRule)).value;
    var j := s1.pos + |d.ids|;
    SliceOfIdList(toks, s1.pos, j);
    IdListAcceptedByIDs(toks, s1, j);
  }

  /** `Declaration` stops at `j` exactly when `toks[s.pos..j]` spells a declaration and `toks[j]` is no `,`. */
  lemma {:induction false} DeclarationExact(toks: seq<Token>, s: State, j: nat)
    requires Valid(toks, s) && s.pos <= j < |toks|
    ensures (Declaration(toks, s).Success? && Declaration(toks, s).value.pos == j)
            <==> (exists d: DeclTree :: WfDecl(d) && DeclYield(d) == toks[s.pos..j]) && toks[j].lexeme != ","
  {
    if Declaration(toks, s).Success? && Declaration(toks, s).value.pos == j {
      var d := DeclarationSound(toks, s);
      assert WfDecl(d) && DeclYield(d) == toks[s.pos..j];
    }
    if (exists d: DeclTree :: WfDecl(d) && DeclYield(d) == toks[s.pos..j]) && toks[j].lexeme != "," {
      var d: DeclTree :| WfDecl(d) && DeclYield(d) == toks[s.pos..j];
      DeclarationCompleteAt(toks, s, d, j);
    }
  }

  /** `DeclarationComplete` for a yield given as the slice up to `j`. */
  lemma {:induction false} DeclarationCompleteAt(toks: seq<Token>, s: State, d: DeclTree, j: nat)
    requires Valid(toks, s) && s.pos <= j < |toks| && WfDecl(d) && DeclYield(d) == toks[s.pos..j]
    requires toks[j].lexeme != ","
    ensures Declaration(toks, s).Success? && Declaration(toks, s).value.pos == j
  {
    SliceSpans(DeclYield(d), toks, s.pos, j);
    assert toks[s.pos + |DeclYield(d)|] == toks[j];
    DeclarationComplete(toks, s, d);
  }

  /** A successful `DeclarationList` spells declarations each closed by `;`, and stops before a token that is no qualifier. */
  lemma {:induction false} DeclarationListSound(toks: seq<Token>, s: State) returns (l: DeclList)
    requires Valid(toks, s)
    ensures var r := DeclarationList(toks, s);
            r.Success? ==> WfDecls(l) && DeclsYield(l) == toks[s.pos..r.value.pos] && !IsQualifier(toks[r.value.pos].lexeme)
    decreases |toks| - s.pos
  {
    l := LastDecl(Decl(toks[s.pos], [toks[s.pos]]), toks[s.pos]);
    var r := DeclarationList(toks, s);
    if r.Success? {
      var s0 := Prod(s, DeclarationListRule);
      var s1 := Declaration(toks, s0).value;
      var s2 := Expect(toks, s1, Separator, Some(";")).value;
      var d := DeclarationSound(toks, s0);
      GlueToken(toks, s.pos, s1.pos, DeclYield(d));
      if IsQualifier(toks[s2.pos].lexeme) {
        assert r == DeclarationList(toks, s2);
        var rest := DeclarationListSound(toks, s2);
        l := ConsDecl(d, toks[s1.pos], rest);
        Glue(toks, s.pos, s2.pos, r.value.pos, DeclYield(d) + [toks[s1.pos]], DeclsYield(rest));
      } else {
        assert r == Success(s2);
        l := LastDecl(d, toks[s1.pos]);
      }
    }
  }

  /** The last turn of the declaration loop: a declaration, its `;`, and no qualifier after. */
  lemma {:induction false} DeclarationListLast(toks: seq<Token>, s: State, d: DeclTree, semi: Token)
    requires Valid(toks, s) && WfDecl(d) && IsSep(semi, ";") && Spans(DeclYield(d) + [semi], toks, s.pos)
    requires !IsQualifier(toks[s.pos + |DeclYield(d)| + 1].lexeme)
    ensures DeclarationList(toks, s).Success? && DeclarationList(toks, s).value.pos == s.pos + |DeclYield(d)| + 1
  {
    SpansThenToken(DeclYield(d), semi, toks, s.pos);
    var s0 := Prod(s, DeclarationListRule);
    DeclarationComplete(toks, s0, d);
  }

  /** The yield of two or more declarations, cut after the first `;`. */
  lemma {:induction false} DeclsSplit(l: DeclList, toks: seq<Token>, i: nat)
    requires l.ConsDecl? && WfDecls(l) && Spans(DeclsYield(l), toks, i)
    ensures WfDecl(l.decl) && Spans(DeclYield(l.decl) + [l.semi], toks, i) && IsSep(l.semi, ";")
    ensures WfDecls(l.rest) && Spans(DeclsYield(l.rest), toks, i + |DeclYield(l.decl)| + 1)
    ensures |DeclsYield(l)| == |DeclYield(l.decl)| + 1 + |DeclsYield(l.rest)|
    ensures IsQualifier(toks[i + |DeclYield(l.decl)| + 1].lexeme)
  {
    assert DeclsYield(l) == DeclYield(l.decl) + [l.semi] + DeclsYield(l.rest);
    SpansSplit(DeclYield(l.decl) + [l.semi], DeclsYield(l.rest), toks, i);
    DeclsFirst(l.rest);
    SpansFirst(DeclsYield(l.rest), toks, i + |DeclYield(l.decl)| + 1);
  }

  /** A turn of the declaration loop that goes on: the loop continues where the next declaration starts. */
  lemma {:induction false} DeclarationListCons(toks: seq<Token>, s: State, l: DeclList) returns (s2: State)
    requires Valid(toks, s) && l.ConsDecl? && WfDecls(l) && Spans(DeclsYield(l), toks, s.pos)
    ensures s2.pos + |DeclsYield(l.rest)| == s.pos + |DeclsYield(l)| && Valid(toks, s2)
    ensures WfDecls(l.rest) && Spans(DeclsYield(l.rest), toks, s2.pos)
    ensures DeclarationList(toks, s) == DeclarationList(toks, s2)
  {
    DeclsSplit(l, toks, s.pos);
    SpansThenToken(DeclYield(l.decl), l.semi, toks, s.pos);
    var s0 := Prod(s, DeclarationListRule);
    DeclarationComplete(toks, s0, l.decl);
    var s1 := Declaration(toks, s0).value;
    s2 := Expect(toks, s1, Separator, Some(";")).value;
    assert s2.pos == s.pos + |DeclYield(l.decl)| + 1;
    DeclarationListGoesOn(toks, s, s1, s2);
  }

  /** After a declaration, its `;` and at another qualifier, the loop starts over. */
  lemma {:induction false} DeclarationListGoesOn(toks: seq<Token>, s: State, s1: State, s2: State)
    requires Valid(toks, s) && Declaration(toks, Prod(s, DeclarationListRule)) == Success(s1)
    requires Valid(toks, s1) && Expect(toks, s1, Separator, Some(";")) == Success(s2)
    requires Valid(toks, s2) && IsQualifier(Current(toks, s2).lexeme)
    ensures DeclarationList(toks, s) == DeclarationList(toks, s2)
  {
  }

  lemma {:induction false} DeclarationListComplete(toks: seq<Token>, s: State, l: DeclList)
    requires Valid(toks, s) && WfDecls(l) && Spans(DeclsYield(l), toks, s.pos)
    requires !IsQualifier(toks[s.pos + |DeclsYield(l)|].lexeme)
    ensures DeclarationList(toks, s).Success? && DeclarationList(toks, s).value.pos == s.pos + |DeclsYield(l)|
  {
    DeclarationListCompleteTo(toks, s, l, s.pos + |DeclsYield(l)|);
  }

  /** `DeclarationListComplete` with the end `e` of the list named. */
  lemma {:induction false} DeclarationListCompleteTo(toks: seq<Token>, s: State, l: DeclList, e: nat)
    requires Valid(toks, s) && WfDecls(l) && Spans(DeclsYield(l), toks, s.pos)
    requires e == s.pos + |DeclsYield(l)| && !IsQualifier(toks[e].lexeme)
    ensures DeclarationList(toks, s).Success? && DeclarationList(toks, s).value.pos == e
    decreases l
  {
    if l.LastDecl? {
      assert DeclsYield(l) == DeclYield(l.decl) + [l.semi];
      DeclarationListLast(toks, s, l.decl, l.semi);
    } else {
      var s2 := DeclarationListCons(toks, s, l);
      DeclarationListCompleteTo(toks, s2, l.rest, e);
    }
  }

  /** `DeclarationList` stops at `j` exactly when `toks[s.pos..j]` spells a declaration list and `toks[j]` is no qualifier. */
  lemma {:induction false} DeclarationListExact(toks: seq<Token>, s: State, j: nat)
    requires Valid(toks, s) && s.pos <= j < |toks|
    ensures (DeclarationList(toks, s).Success? && DeclarationList(toks, s).value.pos == j)
            <==> (exists l: DeclList :: WfDecls(l) && DeclsYield(l) == toks[s.pos..j]) && !IsQualifier(toks[j].lexeme)
  {
    if DeclarationList(toks, s).Success? && DeclarationList(toks, s).value.pos == j {
      var l := DeclarationListSound(toks, s);
      assert WfDecls(l) && DeclsYield(l) == toks[s.pos..j];
    }
    if (exists l: DeclList :: WfDecls(l) && DeclsYield(l) == toks[s.pos..j]) && !IsQualifier(toks[j].lexeme) {
      var l: DeclList :| WfDecls(l) && DeclsYield(l) == toks[s.pos..j];
      DeclarationListCompleteAt(toks, s, l, j);
    }
  }

  /** `DeclarationListComplete` for a yield given as the slice up to `j`. */
  lemma {:induction false} DeclarationListCompleteAt(toks: seq<Token>, s: State, l: DeclList, j: nat)
    requires Valid(toks, s) && s.pos <= j < |toks| && WfDecls(l) && DeclsYield(l) == toks[s.pos..j]
    requires !IsQualifier(toks[j].lexeme)
    ensures DeclarationList(toks, s).Success? && DeclarationList(toks, s).value.pos == j
  {
    SliceSpans(DeclsYield(l), toks, s.pos, j);
    assert toks[s.pos + |DeclsYield(l)|] == toks[j];
    DeclarationListComplete(toks, s, l);
  }

  /** A successful `OptDeclarationList` spells an optional declaration list and stops before a token that is no qualifier. */
  lemma {:induction false} OptDeclarationListSound(toks: seq<Token>, s: State) returns (o: Option<DeclList>)
    requires Valid(toks, s)
    ensures var r := OptDeclarationList(toks, s);
            r.Success? ==> WfOptDecls(o) && OptDeclsYield(o) == toks[s.pos..r.value.pos] && !IsQualifier(toks[r.value.pos].lexeme)
  {
    o := None;
    if IsQualifier(toks[s.pos].lexeme) {
      var l := DeclarationListSound(toks, Prod(s, OptDeclarationListSome));
      o := Some(l);
    }
  }

  lemma {:induction false} OptDeclarationListComplete(toks: seq<Token>, s: State, o: Option<DeclList>)
    requires Valid(toks, s) && WfOptDecls(o) && Spans(OptDeclsYield(o), toks, s.pos)
    requires !IsQualifier(toks[s.pos + |OptDeclsYield(o)|].lexeme)
    ensures OptDeclarationList(toks, s).Success?
    ensures OptDeclarationList(toks, s).value.pos == s.pos + |OptDeclsYield(o)|
  {
    if o.Some? {
      assert Spans(DeclsYield(o.value), toks, s.pos);
      DeclsFirst(o.value);
      SpansFirst(DeclsYield(o.value), toks, s.pos);
      DeclarationListComplete(toks, Prod(s, OptDeclarationListSome), o.value);
    }
  }

  /**
    `OptDeclarationList` stops at `j` exactly when `toks[s.pos..j]` spells
    no declarations or a declaration list, and `toks[j]` is no qualifier.
   */
  lemma {:induction false} OptDeclarationListExact(toks: seq<Token>, s: State, j: nat)
    requires Valid(toks, s) && s.pos <= j < |toks|
    ensures (OptDeclarationList(toks, s).Success? && OptDeclarationList(toks, s).value.pos == j)
            <==> (exists o: Option<DeclList> :: WfOptDecls(o) && OptDeclsYield(o) == toks[s.pos..j])
                 && !IsQualifier(toks[j].lexeme)
  {
    if OptDeclarationList(toks, s).Success? && OptDeclarationList(toks, s).value.pos == j {
      var o := OptDeclarationListSound(toks, s);
      assert WfOptDecls(o) && OptDeclsYield(o) == toks[s.pos..j];
    }
    if (exists o: Option<DeclList> :: WfOptDecls(o) && OptDeclsYield(o) == toks[s.pos..j]) && !IsQualifier(toks[j].lexeme) {
      var o: Option<DeclList> :| WfOptDecls(o) && OptDeclsYield(o) == toks[s.pos..j];
      OptDeclarationListCompleteAt(toks, s, o, j);
    }
  }

  /** `OptDeclarationListComplete` for a yield given as the slice up to `j`. */
  lemma {:induction false} OptDeclarationListCompleteAt(toks: seq<Token>, s: State, o: Option<DeclList>, j: nat)
    requires Valid(toks, s) && s.pos <= j < |toks| && WfOptDecls(o) && OptDeclsYield(o) == toks[s.pos..j]
    requires !IsQualifier(toks[j].lexeme)
    ensures OptDeclarationList(toks, s).Success? && OptDeclarationList(toks, s).value.pos == j
  {
    SliceSpans(OptDeclsYield(o), toks, s.pos, j);
    assert toks[s.pos + |OptDeclsYield(o)|] == toks[j];
    OptDeclarationListComplete(toks, s, o);
  }

  // ---------------------------------------------------------------------------
  // Parameters (R5 to R8)
  // ---------------------------------------------------------------------------

  /** A successful `Parameter` spells an identifier list and a qualifier. */
  lemma {:induction false} ParameterSound(toks: seq<Token>, s: State) returns (p: ParamTree)
    requires Valid(toks, s)
    ensures var r := Parameter(toks, s);
            r.Success? ==> WfParam(p) && ParamYield(p) == toks[s.pos..r.value.pos]
  {
    p := Param([toks[s.pos]], toks[s.pos]);
    var r := Parameter(toks, s);
    if r.Success? {
      var s0 := Prod(s, ParameterRule);
      var s1 := IDs(toks, s0).value;
      assert r == Qualifier(toks, s1);
      IDsAcceptsIdList(toks, s0);
      IdListOfSlice(toks, s.pos, s1.pos);
      p := Param(toks[s.pos..s1.pos], toks[s1.pos]);
      GlueToken(toks, s.pos, s1.pos, toks[s.pos..s1.pos]);
    }
  }

  lemma {:induction false} ParameterComplete(toks: seq<Token>, s: State, p: ParamTree)
    requires Valid(toks, s) && WfParam(p) && Spans(ParamYield(p), toks, s.pos)
    ensures Parameter(toks, s).Success? && Parameter(toks, s).value.pos == s.pos + |ParamYield(p)|
  {
    SpansThenToken(p.ids, p.qualifier, toks, s.pos);
    var j := s.pos + |p.ids|;
    SliceOfIdList(toks, s.pos, j);
    IdListAcceptedByIDs(toks, Prod(s, ParameterRule), j);
  }

  /** `Parameter` stops at `j` exactly when `toks[s.pos..j]` spells a parameter. */
  lemma {:induction false} ParameterExact(toks: seq<Token>, s: State, j: nat)
    requires Valid(toks, s) && s.pos <= j < |toks|
    ensures (Parameter(toks, s).Success? && Parameter(toks, s).value.pos == j)
            <==> exists p: ParamTree :: WfParam(p) && ParamYield(p) == toks[s.pos..j]
  {
    if Parameter(toks, s).Success? && Parameter(toks, s).value.pos == j {
      var p := ParameterSound(toks, s);
      assert WfParam(p) && ParamYield(p) == toks[s.pos..j];
    }
    if exists p: ParamTree :: WfParam(p) && ParamYield(p) == toks[s.pos..j] {
      var p: ParamTree :| WfParam(p) && ParamYield(p) == toks[s.pos..j];
      ParameterCompleteAt(toks, s, p, j);
    }
  }

  /** `ParameterComplete` for a yield given as the slice up to `j`. */
  lemma {:induction false} ParameterCompleteAt(toks: seq<Token>, s: State, p: ParamTree, j: nat)
    requires Valid(toks, s) && s.pos <= j < |toks| && WfParam(p) && ParamYield(p) == toks[s.pos..j]
    ensures Parameter(toks, s).Success? && Parameter(toks, s).value.pos == j
  {
    SliceSpans(ParamYield(p), toks, s.pos, j);
    ParameterComplete(toks, s, p);
  }

  /** A successful `ParameterList` spells parameters separated by `,`, and stops before a token that is no `,`. */
  lemma {:induction false} ParameterListSound(toks: seq<Token>, s: State) returns (l: ParamList)
    requires Valid(toks, s)
    ensures var r := ParameterList(toks, s);
            r.Success? ==> WfParams(l) && ParamsYield(l) == toks[s.pos..r.value.pos] && toks[r.value.pos].lexeme != ","
    decreases |toks| - s.pos
  {
    l := LastParam(Param([toks[s.pos]], toks[s.pos]));
    var r := ParameterList(toks, s);
    if r.Success? {
      var s0 := Prod(s, ParameterListRule);
      var s1 := Parameter(toks, s0).value;
      var p := ParameterSound(toks, s0);
      if toks[s1.pos].lexeme == "," {
        var s2 := Expect(toks, s1, Separator, Some(",")).value;
        assert r == ParameterList(toks, s2);
        var rest := ParameterListSound(toks, s2);
        l := ConsParam(p, toks[s1.pos], rest);
        GlueToken(toks, s.pos, s1.pos, ParamYield(p));
        Glue(toks, s.pos, s2.pos, r.value.pos, ParamYield(p) + [toks[s1.pos]], ParamsYield(rest));
      } else {
        assert r == Success(s1);
        l := LastParam(p);
      }
    }
  }

  /** The last turn of the parameter loop: a parameter and no `,` after. */
  lemma {:induction false} ParameterListLast(toks: seq<Token>, s: State, p: ParamTree)
    requires Valid(toks, s) && WfParam(p) && Spans(ParamYield(p), toks, s.pos)
    requires toks[s.pos + |ParamYield(p)|].lexeme != ","
    ensures ParameterList(toks, s).Success? && ParameterList(toks, s).value.pos == s.pos + |ParamYield(p)|
  {
    ParameterComplete(toks, Prod(s, ParameterListRule), p);
  }

  /** The yield of two or more parameters, cut around the first `,`. */
  lemma {:induction false} ParamsSplit(l: ParamList, toks: seq<Token>, i: nat)
    requires l.ConsParam? && WfParams(l) && Spans(ParamsYield(l), toks, i)
    ensures WfParam(l.param) && Spans(ParamYield(l.param), toks, i)
    ensures toks[i + |ParamYield(l.param)|] == l.comma && IsSep(l.comma, ",")
    ensures WfParams(l.rest) && Spans(ParamsYield(l.rest), toks, i + |ParamYield(l.param)| + 1)
    ensures |ParamsYield(l)| == |ParamYield(l.param)| + 1 + |ParamsYield(l.rest)|
  {
    assert ParamsYield(l) == ParamYield(l.param) + [l.comma] + ParamsYield(l.rest);
    SpansAround(ParamYield(l.param), l.comma, ParamsYield(l.rest), toks, i);
  }

  /** A turn of the parameter loop that goes on: the loop continues after the `,`. */
  lemma {:induction false} ParameterListCons(toks: seq<Token>, s: State, l: ParamList) returns (s2: State)
    requires Valid(toks, s) && l.ConsParam? && WfParams(l) && Spans(ParamsYield(l), toks, s.pos)
    ensures s2.pos + |ParamsYield(l.rest)| == s.pos + |ParamsYield(l)| && Valid(toks, s2)
    ensures WfParams(l.rest) && Spans(ParamsYield(l.rest), toks, s2.pos)
    ensures ParameterList(toks, s) == ParameterList(toks, s2)
  {
    ParamsSplit(l, toks, s.pos);
    var s0 := Prod(s, ParameterListRule);
    ParameterComplete(toks, s0, l.param);
    var s1 := Parameter(toks, s0).value;
    assert Current(toks, s1) == l.comma;
    s2 := Expect(toks, s1, Separator, Some(",")).value;
    assert s2.pos == s.pos + |ParamYield(l.param)| + 1;
    ParameterListGoesOn(toks, s, s1, s2);
  }

  /** After a parameter and at a `,`, the loop starts over past the `,`. */
  lemma {:induction false} ParameterListGoesOn(toks: seq<Token>, s: State, s1: State, s2: State)
    requires Valid(toks, s) && Parameter(toks, Prod(s, ParameterListRule)) == Success(s1)
    requires Valid(toks, s1) && Current(toks, s1).lexeme == "," && Expect(toks, s1, Separator, Some(",")) == Success(s2)
    ensures Valid(toks, s2) && ParameterList(toks, s) == ParameterList(toks, s2)
  {
  }

  lemma {:induction false} ParameterListComplete(toks: seq<Token>, s: State, l: ParamList)
    requires Valid(toks, s) && WfParams(l) && Spans(ParamsYield(l), toks, s.pos)
    requires toks[s.pos + |ParamsYield(l)|].lexeme != ","
    ensures ParameterList(toks, s).Success? && ParameterList(toks, s).value.pos == s.pos + |ParamsYield(l)|
  {
    ParameterListCompleteTo(toks, s, l, s.pos + |ParamsYield(l)|);
  }

  /** `ParameterListComplete` with the end `e` of the list named. */
  lemma {:induction false} ParameterListCompleteTo(toks: seq<Token>, s: State, l: ParamList, e: nat)
    requires Valid(toks, s) && WfParams(l) && Spans(ParamsYield(l), toks, s.pos)
    requires e == s.pos + |ParamsYield(l)| && toks[e].lexeme != ","
    ensures ParameterList(toks, s).Success? && ParameterList(toks, s).value.pos == e
    decreases l
  {
    if l.LastParam? {
      assert ParamsYield(l) == ParamYield(l.param);
      ParameterListLast(toks, s, l.param);
    } else {
      var s2 := ParameterListCons(toks, s, l);
      ParameterListCompleteTo(toks, s2, l.rest, e);
    }
  }

  /** `ParameterList` stops at `j` exactly when `toks[s.pos..j]` spells a parameter list and `toks[j]` is no `,`. */
  lemma {:induction false} ParameterListExact(toks: seq<Token>, s: State, j: nat)
    requires Valid(toks, s) && s.pos <= j < |toks|
    ensures (ParameterList(toks, s).Success? && ParameterList(toks, s).value.pos == j)
            <==> (exists l: ParamList :: WfParams(l) && ParamsYield(l) == toks[s.pos..j]) && toks[j].lexeme != ","
  {
    if ParameterList(toks, s).Success? && ParameterList(toks, s).value.pos == j {
      var l := ParameterListSound(toks, s);
      assert WfParams(l) && ParamsYield(l) == toks[s.pos..j];
    }
    if (exists l: ParamList :: WfParams(l) && ParamsYield(l) == toks[s.pos..j]) && toks[j].lexeme != "," {
      var l: ParamList :| WfParams(l) && ParamsYield(l) == toks[s.pos..j];
      ParameterListCompleteAt(toks, s, l, j);
    }
  }

  /** `ParameterListComplete` for a yield given as the slice up to `j`. */
  lemma {:induction false} ParameterListCompleteAt(toks: seq<Token>, s: State, l: ParamList, j: nat)
    requires Valid(toks, s) && s.pos <= j < |toks| && WfParams(l) && ParamsYield(l) == toks[s.pos..j]
    requires toks[j].lexeme != ","
    ensures ParameterList(toks, s).Success? && ParameterList(toks, s).value.pos == j
  {
    SliceSpans(ParamsYield(l), toks, s.pos, j);
    assert toks[s.pos + |ParamsYield(l)|] == toks[j];
    ParameterListComplete(toks, s, l);
  }

  /**
    What may follow an optional parameter list: after parameters, a token
    that is no `,`; after none, a token that is no identifier, since an
    identifier would have started a parameter.
   */
  predicate EndsParams(o: Option<ParamList>, next: Token) {
    if o.Some? then next.lexeme != "," else next.kind != Identifier
  }

  lemma {:induction false} OptParameterListSound(toks: seq<Token>, s: State) returns (o: Option<ParamList>)
    requires Valid(toks, s)
    ensures var r := OptParameterList(toks, s);
            r.Success? ==> WfOptParams(o) && OptParamsYield(o) == toks[s.pos..r.value.pos] && EndsParams(o, toks[r.value.pos])
  {
    o := None;
    if toks[s.pos].kind == Identifier {
      var l := ParameterListSound(toks, Prod(s, OptParameterListSome));
      o := Some(l);
    }
  }

  lemma {:induction false} OptParameterListComplete(toks: seq<Token>, s: State, o: Option<ParamList>)
    requires Valid(toks, s) && WfOptParams(o) && Spans(OptParamsYield(o), toks, s.pos)
    requires EndsParams(o, toks[s.pos + |OptParamsYield(o)|])
    ensures OptParameterList(toks, s).Success?
    ensures OptParameterList(toks, s).value.pos == s.pos + |OptParamsYield(o)|
  {
    if o.Some? {
      assert Spans(ParamsYield(o.value), toks, s.pos);
      ParamsFirst(o.value);
      SpansFirst(ParamsYield(o.value), toks, s.pos);
      ParameterListComplete(toks, Prod(s, OptParameterListSome), o.value);
    }
  }

  /**
    `OptParameterList` stops at `j` exactly when `toks[s.pos..j]` spells no
    parameters or a parameter list, followed as `EndsParams` says.
   */
  lemma {:induction false} OptParameterListExact(toks: seq<Token>, s: State, j: nat)
    requires Valid(toks, s) && s.pos <= j < |toks|
    ensures (OptParameterList(toks, s).Success? && OptParameterList(toks, s).value.pos == j)
            <==> exists o: Option<ParamList> :: WfOptParams(o) && OptParamsYield(o) == toks[s.pos..j] && EndsParams(o, toks[j])
  {
    if OptParameterList(toks, s).Success? && OptParameterList(toks, s).value.pos == j {
      var o := OptParameterListSound(toks, s);
      assert WfOptParams(o) && OptParamsYield(o) == toks[s.pos..j] && EndsParams(o, toks[j]);
    }
    if exists o: Option<ParamList> :: WfOptParams(o) && OptParamsYield(o) == toks[s.pos..j] && EndsParams(o, toks[j]) {
      var o: Option<ParamList> :| WfOptParams(o) && OptParamsYield(o) == toks[s.pos..j] && EndsParams(o, toks[j]);
      OptParameterListCompleteAt(toks, s, o, j);
    }
  }

  /** `OptParameterListComplete` for a yield given as the slice up to `j`. */
  lemma {:induction false} OptParameterListCompleteAt(toks: seq<Token>, s: State, o: Option<ParamList>, j: nat)
    requires Valid(toks, s) && s.pos <= j < |toks| && WfOptParams(o) && OptParamsYield(o) == toks[s.pos..j] && EndsParams(o, toks[j])
    ensures OptParameterList(toks, s).Success? && OptParameterList(toks, s).value.pos == j
  {
    SliceSpans(OptParamsYield(o), toks, s.pos, j);
    OptParameterListComplete(toks, s, o);
  }

  // ---------------------------------------------------------------------------
  // Functions (R2 to R4)
  // ---------------------------------------------------------------------------

  /** What a soundness lemma returns when the parse fails; it stands for nothing. */
  function BlankFunc(t: Token): FuncTree {
    Func(t, t, t, None, t, None, Block(t, LastStmt(Blank(t)), t))
  }

  /** The states a successful `Function` passes through, and the tokens it checked on the way. */
  lemma {:induction false} FunctionSteps(toks: seq<Token>, s: State) returns (s3: State, s4: State, s5: State, s6: State)
    requires Valid(toks, s) && Function(toks, s).Success?
    ensures IsKw(toks[s.pos], "function") && toks[s.pos + 1].kind == Identifier && IsSep(toks[s.pos + 2], "(")
    ensures s3.pos == s.pos + 3 && Valid(toks, s3)
    ensures OptParameterList(toks, s3) == Success(s4) && IsSep(toks[s4.pos], ")") && s5.pos == s4.pos + 1 && Valid(toks, s5)
    ensures OptDeclarationList(toks, s5) == Success(s6) && Valid(toks, s6) && Body(toks, s6) == Function(toks, s)
  {
    var s1 := Expect(toks, Prod(s, FunctionRule), Keyword, Some("function")).value;
    var s2 := Expect(toks, s1, Identifier, None).value;
    s3 := Expect(toks, s2, Separator, Some("(")).value;
    s4 := OptParameterList(toks, s3).value;
    s5 := Expect(toks, s4, Separator, Some(")")).value;
    s6 := OptDeclarationList(toks, s5).value;
  }

  /** The parts of a function, spelled one after the other from `i`, spell the function. */
  lemma {:induction false} FuncSpelled(toks: seq<Token>, i: nat, m: nat, k: nat, n: nat, f: FuncTree)
    requires i + 3 <= m < k <= n <= |toks|
    requires f.kw == toks[i] && f.name == toks[i + 1] && f.open == toks[i + 2]
    requires OptParamsYield(f.params) == toks[i + 3..m] && f.close == toks[m]
    requires OptDeclsYield(f.decls) == toks[m + 1..k] && BlockYield(f.body) == toks[k..n]
    ensures FuncYield(f) == toks[i..n]
  {
    var head := [f.kw, f.name, f.open];
    assert toks[i..i + 3] == head;
    Glue(toks, i, i + 3, m, head, OptParamsYield(f.params));
    GlueToken(toks, i, m, head + OptParamsYield(f.params));
    Glue(toks, i, m + 1, k, head + OptParamsYield(f.params) + [f.close], OptDeclsYield(f.decls));
    Glue(toks, i, k, n, head + OptParamsYield(f.params) + [f.close] + OptDeclsYield(f.decls), BlockYield(f.body));
  }

  /** A successful `Function` spells a well-formed function definition. */
  lemma {:induction false} FunctionSound(toks: seq<Token>, s: State) returns (f: FuncTree)
    requires Valid(toks, s)
    ensures var r := Function(toks, s);
            r.Success? ==> WfFunc(f) && FuncYield(f) == toks[s.pos..r.value.pos]
  {
    f := BlankFunc(toks[s.pos]);
    if Function(toks, s).Success? {
      var s3, s4, s5, s6 := FunctionSteps(toks, s);
      f := FunctionFromParts(toks, s.pos, s3, s4, s5, s6);
    }
  }

  /** The trees the sub-procedures of `Function` recognise, put together. */
  lemma {:induction false} FunctionFromParts(toks: seq<Token>, i: nat, s3: State, s4: State, s5: State, s6: State) returns (f: FuncTree)
    requires i + 2 < |toks| && IsKw(toks[i], "function") && toks[i + 1].kind == Identifier && IsSep(toks[i + 2], "(")
    requires s3.pos == i + 3 && Valid(toks, s3)
    requires OptParameterList(toks, s3) == Success(s4) && IsSep(toks[s4.pos], ")") && s5.pos == s4.pos + 1 && Valid(toks, s5)
    requires OptDeclarationList(toks, s5) == Success(s6) && Valid(toks, s6) && Body(toks, s6).Success?
    ensures WfFunc(f) && FuncYield(f) == toks[i..Body(toks, s6).value.pos]
  {
    var s7 := Body(toks, s6).value;
    var ps := ParamsPart(toks, s3, s4);
    var ds := DeclsPart(toks, s5, s6);
    var b := BodyPart(toks, s6, s7);
    f := FunctionBuilt(toks, i, s4.pos, s6.pos, s7.pos, ps, ds, b);
  }

  /** The parameters of a function, as a tree. */
  lemma {:induction false} ParamsPart(toks: seq<Token>, s: State, s2: State) returns (o: Option<ParamList>)
    requires Valid(toks, s) && OptParameterList(toks, s) == Success(s2)
    ensures WfOptParams(o) && OptParamsYield(o) == toks[s.pos..s2.pos]
  {
    o := OptParameterListSound(toks, s);
  }

  /** The body of a function, as a tree. */
  lemma {:induction false} BodyPart(toks: seq<Token>, s: State, s2: State) returns (b: BlockTree)
    requires Valid(toks, s) && Body(toks, s) == Success(s2)
    ensures WfBlock(b) && BlockYield(b) == toks[s.pos..s2.pos]
  {
    b := BodySound(toks, s);
  }

  /** A function tree assembled from parts that are well formed and spelled one after the other from `i`. */
  lemma {:induction false} FunctionBuilt(toks: seq<Token>, i: nat, m: nat, k: nat, n: nat,
                                         ps: Option<ParamList>, ds: Option<DeclList>, b: BlockTree) returns (f: FuncTree)
    requires i + 3 <= m < k <= n <= |toks|
    requires IsKw(toks[i], "function") && toks[i + 1].kind == Identifier && IsSep(toks[i + 2], "(") && IsSep(toks[m], ")")
    requires WfOptParams(ps) && OptParamsYield(ps) == toks[i + 3..m]
    requires WfOptDecls(ds) && OptDeclsYield(ds) == toks[m + 1..k]
    requires WfBlock(b) && BlockYield(b) == toks[k..n]
    ensures WfFunc(f) && FuncYield(f) == toks[i..n]
  {
    f := Func(toks[i], toks[i + 1], toks[i + 2], ps, toks[m], ds, b);
    FuncSpelled(toks, i, m, k, n, f);
  }

  /** Where the parts of a spelled function lie. */
  lemma {:induction false} FuncParts(f: FuncTree, toks: seq<Token>, i: nat)
    requires Spans(FuncYield(f), toks, i)
    ensures toks[i] == f.kw && toks[i + 1] == f.name && toks[i + 2] == f.open
    ensures Spans(OptParamsYield(f.params), toks, i + 3)
    ensures toks[i + 3 + |OptParamsYield(f.params)|] == f.close
    ensures Spans(OptDeclsYield(f.decls), toks, i + 4 + |OptParamsYield(f.params)|)
    ensures Spans(BlockYield(f.body), toks, i + 4 + |OptParamsYield(f.params)| + |OptDeclsYield(f.decls)|)
  {
    var head := [f.kw, f.name, f.open];
    var a := head + OptParamsYield(f.params);
    SpansSplit(a + [f.close] + OptDeclsYield(f.decls), BlockYield(f.body), toks, i);
    SpansSplit(a + [f.close], OptDeclsYield(f.decls), toks, i);
    SpansThenToken(a, f.close, toks, i);
    SpansSplit(head, OptParamsYield(f.params), toks, i);
    assert toks[i..i + 3][0] == toks[i] && toks[i..i + 3][1] == toks[i + 1] && toks[i..i + 3][2] == toks[i + 2];
  }

  /** The head `function id (` and the optional parameters of a spelled function. */
  lemma {:induction false} FunctionHeadComplete(toks: seq<Token>, s: State, f: FuncTree, m: nat) returns (s3: State)
    requires Valid(toks, s) && s.pos + 2 < |toks| && IsKw(toks[s.pos], "function") && toks[s.pos + 1].kind == Identifier
    requires IsSep(toks[s.pos + 2], "(") && WfOptParams(f.params) && Spans(OptParamsYield(f.params), toks, s.pos + 3)
    requires m == s.pos + 3 + |OptParamsYield(f.params)| && IsSep(toks[m], ")")
    ensures s3 == Expect(toks, Expect(toks, Expect(toks, Prod(s, FunctionRule), Keyword, Some("function")).value,
                                      Identifier, None).value, Separator, Some("(")).value
    ensures Valid(toks, s3) && OptParameterList(toks, s3).Success? && OptParameterList(toks, s3).value.pos == m
  {
    var s1 := Expect(toks, Prod(s, FunctionRule), Keyword, Some("function")).value;
    var s2 := Expect(toks, s1, Identifier, None).value;
    s3 := Expect(toks, s2, Separator, Some("(")).value;
    assert s3.pos == s.pos + 3;
    OptParameterListComplete(toks, s3, f.params);
  }

  /** `Function` runs through its steps when each of them succeeds where the next begins. */
  lemma {:induction false} FunctionRuns(toks: seq<Token>, s: State, s3: State, m: nat, k: nat, n: nat)
    requires Valid(toks, s) && s.pos + 2 < |toks| && IsKw(toks[s.pos], "function") && toks[s.pos + 1].kind == Identifier
    requires IsSep(toks[s.pos + 2], "(")
    requires s3 == Expect(toks, Expect(toks, Expect(toks, Prod(s, FunctionRule), Keyword, Some("function")).value,
                                       Identifier, None).value, Separator, Some("(")).value
    requires Valid(toks, s3) && OptParameterList(toks, s3).Success? && OptParameterList(toks, s3).value.pos == m
    requires IsSep(toks[m], ")")
    requires var s5 := Expect(toks, OptParameterList(toks, s3).value, Separator, Some(")")).value;
             && Valid(toks, s5) && OptDeclarationList(toks, s5).Success? && OptDeclarationList(toks, s5).value.pos == k
             && var s6 := OptDeclarationList(toks, s5).value;
                Valid(toks, s6) && Body(toks, s6).Success? && Body(toks, s6).value.pos == n
    ensures Function(toks, s).Success? && Function(toks, s).value.pos == n
  {
  }

  lemma {:induction false} FunctionComplete(toks: seq<Token>, s: State, f: FuncTree)
    requires Valid(toks, s) && WfFunc(f) && Spans(FuncYield(f), toks, s.pos)
    ensures Function(toks, s).Success? && Function(toks, s).value.pos == s.pos + |FuncYield(f)|
  {
    FuncParts(f, toks, s.pos);
    var m := s.pos + 3 + |OptParamsYield(f.params)|;
    var k := m + 1 + |OptDeclsYield(f.decls)|;
    var n := k + |BlockYield(f.body)|;
    assert n == s.pos + |FuncYield(f)|;
    BlockParts(toks, k, f.body);
    assert IsSep(toks[k], "{");
    var s3 := FunctionHeadComplete(toks, s, f, m);
    var s5 := Expect(toks, OptParameterList(toks, s3).value, Separator, Some(")")).value;
    assert s5.pos == m + 1;
    OptDeclarationListComplete(toks, s5, f.decls);
    var s6 := OptDeclarationList(toks, s5).value;
    assert s6.pos == k;
    BodyComplete(toks, s6, f.body);
    FunctionRuns(toks, s, s3, m, k, n);
  }

  /** `Function` stops at `j` exactly when `toks[s.pos..j]` spells a function definition. */
  lemma {:induction false} FunctionExact(toks: seq<Token>, s: State, j: nat)
    requires Valid(toks, s) && s.pos <= j < |toks|
    ensures (Function(toks, s).Success? && Function(toks, s).value.pos == j)
            <==> exists f: FuncTree :: WfFunc(f) && FuncYield(f) == toks[s.pos..j]
  {
    if Function(toks, s).Success? && Function(toks, s).value.pos == j {
      var f := FunctionSound(toks, s);
      assert WfFunc(f) && FuncYield(f) == toks[s.pos..j];
    }
    if exists f: FuncTree :: WfFunc(f) && FuncYield(f) == toks[s.pos..j] {
      var f: FuncTree :| WfFunc(f) && FuncYield(f) == toks[s.pos..j];
      FunctionCompleteAt(toks, s, f, j);
    }
  }

  /** `FunctionComplete` for a yield given as the slice up to `j`. */
  lemma {:induction false} FunctionCompleteAt(toks: seq<Token>, s: State, f: FuncTree, j: nat)
    requires Valid(toks, s) && s.pos <= j < |toks| && WfFunc(f) && FuncYield(f) == toks[s.pos..j]
    ensures Function(toks, s).Success? && Function(toks, s).value.pos == j
  {
    SliceSpans(FuncYield(f), toks, s.pos, j);
    FunctionComplete(toks, s, f);
  }

  /** A successful `FunctionDefinitions` spells function definitions and stops before a token that is no `function`. */
  lemma {:induction false} FunctionDefinitionsSound(toks: seq<Token>, s: State) returns (l: FuncList)
    requires Valid(toks, s)
    ensures var r := FunctionDefinitions(toks, s);
            r.Success? ==> WfFuncs(l) && FuncsYield(l) == toks[s.pos..r.value.pos] && toks[r.value.pos].lexeme != "function"
    decreases |toks| - s.pos
  {
    l := LastFunc(BlankFunc(toks[s.pos]));
    var r := FunctionDefinitions(toks, s);
    if r.Success? {
      var s0 := Prod(s, FunctionDefinitionsRule);
      var s1 := Function(toks, s0).value;
      var f := FunctionSound(toks, s0);
      if toks[s1.pos].lexeme == "function" {
        assert r == FunctionDefinitions(toks, s1);
        var rest := FunctionDefinitionsSound(toks, s1);
        l := ConsFunc(f, rest);
        Glue(toks, s.pos, s1.pos, r.value.pos, FuncYield(f), FuncsYield(rest));
      } else {
        assert r == Success(s1);
        l := LastFunc(f);
      }
    }
  }

  /** The last turn of the function loop: a function and no `function` after. */
  lemma {:induction false} FunctionDefinitionsLast(toks: seq<Token>, s: State, f: FuncTree)
    requires Valid(toks, s) && WfFunc(f) && Spans(FuncYield(f), toks, s.pos)
    requires toks[s.pos + |FuncYield(f)|].lexeme != "function"
    ensures FunctionDefinitions(toks, s).Success? && FunctionDefinitions(toks, s).value.pos == s.pos + |FuncYield(f)|
  {
    FunctionComplete(toks, Prod(s, FunctionDefinitionsRule), f);
  }

  /** The yield of two or more functions, cut after the first one. */
  lemma {:induction false} FuncsSplit(l: FuncList, toks: seq<Token>, i: nat)
    requires l.ConsFunc? && WfFuncs(l) && Spans(FuncsYield(l), toks, i)
    ensures WfFunc(l.func) && Spans(FuncYield(l.func), toks, i)
    ensures WfFuncs(l.rest) && Spans(FuncsYield(l.rest), toks, i + |FuncYield(l.func)|)
    ensures |FuncsYield(l)| == |FuncYield(l.func)| + |FuncsYield(l.rest)|
    ensures toks[i + |FuncYield(l.func)|].lexeme == "function"
  {
    assert FuncsYield(l) == FuncYield(l.func) + FuncsYield(l.rest);
    SpansSplit(FuncYield(l.func), FuncsYield(l.rest), toks, i);
    FuncsFirst(l.rest);
    SpansFirst(FuncsYield(l.rest), toks, i + |FuncYield(l.func)|);
  }

  /** A turn of the function loop that goes on: the loop continues at the next `function`. */
  lemma {:induction false} FunctionDefinitionsCons(toks: seq<Token>, s: State, l: FuncList) returns (s1: State)
    requires Valid(toks, s) && l.ConsFunc? && WfFuncs(l) && Spans(FuncsYield(l), toks, s.pos)
    ensures s1.pos + |FuncsYield(l.rest)| == s.pos + |FuncsYield(l)| && Valid(toks, s1)
    ensures WfFuncs(l.rest) && Spans(FuncsYield(l.rest), toks, s1.pos)
    ensures FunctionDefinitions(toks, s) == FunctionDefinitions(toks, s1)
  {
    FuncsSplit(l, toks, s.pos);
    var s0 := Prod(s, FunctionDefinitionsRule);
    FunctionComplete(toks, s0, l.func);
    s1 := Function(toks, s0).value;
    assert s1.pos == s.pos + |FuncYield(l.func)|;
    FunctionDefinitionsGoesOn(toks, s, s1);
  }

  /** After a function and at another `function`, the loop starts over. */
  lemma {:induction false} FunctionDefinitionsGoesOn(toks: seq<Token>, s: State, s1: State)
    requires Valid(toks, s) && Function(toks, Prod(s, FunctionDefinitionsRule)) == Success(s1)
    requires Current(toks, s1).lexeme == "function"
    ensures Valid(toks, s1) && FunctionDefinitions(toks, s) == FunctionDefinitions(toks, s1)
  {
  }

  lemma {:induction false} FunctionDefinitionsComplete(toks: seq<Token>, s: State, l: FuncList)
    requires Valid(toks, s) && WfFuncs(l) && Spans(FuncsYield(l), toks, s.pos)
    requires toks[s.pos + |FuncsYield(l)|].lexeme != "function"
    ensures FunctionDefinitions(toks, s).Success?
    ensures FunctionDefinitions(toks, s).value.pos == s.pos + |FuncsYield(l)|
  {
    FunctionDefinitionsCompleteTo(toks, s, l, s.pos + |FuncsYield(l)|);
  }

  /** `FunctionDefinitionsComplete` with the end `e` of the list named. */
  lemma {:induction false} FunctionDefinitionsCompleteTo(toks: seq<Token>, s: State, l: FuncList, e: nat)
    requires Valid(toks, s) && WfFuncs(l) && Spans(FuncsYield(l), toks, s.pos)
    requires e == s.pos + |FuncsYield(l)| && toks[e].lexeme != "function"
    ensures FunctionDefinitions(toks, s).Success? && FunctionDefinitions(toks, s).value.pos == e
    decreases l
  {
    if l.LastFunc? {
      assert FuncsYield(l) == FuncYield(l.func);
      FunctionDefinitionsLast(toks, s, l.func);
    } else {
      var s1 := FunctionDefinitionsCons(toks, s, l);
      FunctionDefinitionsCompleteTo(toks, s1, l.rest, e);
    }
  }

  /**
    `FunctionDefinitions` stops at `j` exactly when `toks[s.pos..j]` spells
    function definitions and `toks[j]` is no `function`.
   */
  lemma {:induction false} FunctionDefinitionsExact(toks: seq<Token>, s: State, j: nat)
    requires Valid(toks, s) && s.pos <= j < |toks|
    ensures (FunctionDefinitions(toks, s).Success? && FunctionDefinitions(toks, s).value.pos == j)
            <==> (exists l: FuncList :: WfFuncs(l) && FuncsYield(l) == toks[s.pos..j]) && toks[j].lexeme != "function"
  {
    if FunctionDefinitions(toks, s).Success? && FunctionDefinitions(toks, s).value.pos == j {
      var l := FunctionDefinitionsSound(toks, s);
      assert WfFuncs(l) && FuncsYield(l) == toks[s.pos..j];
    }
    if (exists l: FuncList :: WfFuncs(l) && FuncsYield(l) == toks[s.pos..j]) && toks[j].lexeme != "function" {
      var l: FuncList :| WfFuncs(l) && FuncsYield(l) == toks[s.pos..j];
      FunctionDefinitionsCompleteAt(toks, s, l, j);
    }
  }

  /** `FunctionDefinitionsComplete` for a yield given as the slice up to `j`. */
  lemma {:induction false} FunctionDefinitionsCompleteAt(toks: seq<Token>, s: State, l: FuncList, j: nat)
    requires Valid(toks, s) && s.pos <= j < |toks| && WfFuncs(l) && FuncsYield(l) == toks[s.pos..j]
    requires toks[j].lexeme != "function"
    ensures FunctionDefinitions(toks, s).Success? && FunctionDefinitions(toks, s).value.pos == j
  {
    SliceSpans(FuncsYield(l), toks, s.pos, j);
    assert toks[s.pos + |FuncsYield(l)|] == toks[j];
    FunctionDefinitionsComplete(toks, s, l);
  }

  lemma {:induction false} OptFunctionDefinitionsSound(toks: seq<Token>, s: State) returns (o: Option<FuncList>)
    requires Valid(toks, s)
    ensures var r := OptFunctionDefinitions(toks, s);
            r.Success? ==> WfOptFuncs(o) && OptFuncsYield(o) == toks[s.pos..r.value.pos] && toks[r.value.pos].lexeme != "function"
  {
    o := None;
    if toks[s.pos].lexeme == "function" {
      var l := FunctionDefinitionsSound(toks, Prod(s, OptFunctionDefinitionsSome));
      o := Some(l);
    }
  }

  lemma {:induction false} OptFunctionDefinitionsComplete(toks: seq<Token>, s: State, o: Option<FuncList>)
    requires Valid(toks, s) && WfOptFuncs(o) && Spans(OptFuncsYield(o), toks, s.pos)
    requires toks[s.pos + |OptFuncsYield(o)|].lexeme != "function"
    ensures OptFunctionDefinitions(toks, s).Success?
    ensures OptFunctionDefinitions(toks, s).value.pos == s.pos + |OptFuncsYield(o)|
  {
    if o.Some? {
      assert Spans(FuncsYield(o.value), toks, s.pos);
      FuncsFirst(o.value);
      SpansFirst(FuncsYield(o.value), toks, s.pos);
      FunctionDefinitionsComplete(toks, Prod(s, OptFunctionDefinitionsSome), o.value);
    }
  }

  /**
    `OptFunctionDefinitions` stops at `j` exactly when `toks[s.pos..j]`
    spells no function definitions or some, and `toks[j]` is no `function`.
   */
  lemma {:induction false} OptFunctionDefinitionsExact(toks: seq<Token>, s: State, j: nat)
    requires Valid(toks, s) && s.pos <= j < |toks|
    ensures (OptFunctionDefinitions(toks, s).Success? && OptFunctionDefinitions(toks, s).value.pos == j)
            <==> (exists o: Option<FuncList> :: WfOptFuncs(o) && OptFuncsYield(o) == toks[s.pos..j])
                 && toks[j].lexeme != "function"
  {
    if OptFunctionDefinitions(toks, s).Success? && OptFunctionDefinitions(toks, s).value.pos == j {
      var o := OptFunctionDefinitionsSound(toks, s);
      assert WfOptFuncs(o) && OptFuncsYield(o) == toks[s.pos..j];
    }
    if (exists o: Option<FuncList> :: WfOptFuncs(o) && OptFuncsYield(o) == toks[s.pos..j]) && toks[j].lexeme != "function" {
      var o: Option<FuncList> :| WfOptFuncs(o) && OptFuncsYield(o) == toks[s.pos..j];
      OptFunctionDefinitionsCompleteAt(toks, s, o, j);
    }
  }

  /** `OptFunctionDefinitionsComplete` for a yield given as the slice up to `j`. */
  lemma {:induction false} OptFunctionDefinitionsCompleteAt(toks: seq<Token>, s: State, o: Option<FuncList>, j: nat)
    requires Valid(toks, s) && s.pos <= j < |toks| && WfOptFuncs(o) && OptFuncsYield(o) == toks[s.pos..j]
    requires toks[j].lexeme != "function"
    ensures OptFunctionDefinitions(toks, s).Success? && OptFunctionDefinitions(toks, s).value.pos == j
  {
    SliceSpans(OptFuncsYield(o), toks, s.pos, j);
    assert toks[s.pos + |OptFuncsYield(o)|] == toks[j];
    OptFunctionDefinitionsComplete(toks, s, o);
  }

  // ---------------------------------------------------------------------------
  // Whole programs (R1)
  // ---------------------------------------------------------------------------

  /** What a soundness lemma returns when the parse fails; it stands for nothing. */
  function BlankProgram(t: Token): ProgramTree {
    Program(t, None, t, None, t, LastStmt(Blank(t)), t, t)
  }

  /** The states a successful `Rat25S` passes through, and the delimiters it checked on the way. */
  lemma {:induction false} Rat25SSteps(toks: seq<Token>, s: State) returns (s1: State, s2: State, s3: State, s4: State, s5: State)
    requires Valid(toks, s) && Rat25S(toks, s).Success?
    ensures IsSep(toks[s.pos], "$$") && s1.pos == s.pos + 1 && Valid(toks, s1)
    ensures OptFunctionDefinitions(toks, s1) == Success(s2) && IsSep(toks[s2.pos], "$$") && s3.pos == s2.pos + 1 && Valid(toks, s3)
    ensures OptDeclarationList(toks, s3) == Success(s4) && IsSep(toks[s4.pos], "$$") && s5.pos == s4.pos + 1 && Valid(toks, s5)
    ensures StatementSection(toks, s5) == Rat25S(toks, s)
  {
    s1 := Expect(toks, Prod(s, Rat25SRule), Separator, Some("$$")).value;
    s2 := OptFunctionDefinitions(toks, s1).value;
    s3 := Expect(toks, s2, Separator, Some("$$")).value;
    s4 := OptDeclarationList(toks, s3).value;
    s5 := Expect(toks, s4, Separator, Some("$$")).value;
  }

  /** The states a successful `StatementSection` passes through. */
  lemma {:induction false} StatementSectionSteps(toks: seq<Token>, s: State) returns (s1: State)
    requires Valid(toks, s) && StatementSection(toks, s).Success?
    ensures StatementList(toks, s) == Success(s1) && s1.pos + 1 < |toks|
    ensures IsSep(toks[s1.pos], "$$") && toks[s1.pos + 1].kind == Eof && StatementSection(toks, s).value.pos == s1.pos + 2
  {
    s1 := StatementList(toks, s).value;
    var s2 := Expect(toks, s1, Separator, Some("$$")).value;
    assert StatementSection(toks, s) == Expect(toks, s2, Eof, None);
  }

  /** The parts of a program, spelled one after the other from `i`, spell the program. */
  lemma {:induction false} ProgramSpelled(toks: seq<Token>, i: nat, b: nat, c: nat, d: nat, p: ProgramTree)
    requires i < b < c < d && d + 2 <= |toks|
    requires p.open == toks[i] && OptFuncsYield(p.funcs) == toks[i + 1..b] && p.mid1 == toks[b]
    requires OptDeclsYield(p.decls) == toks[b + 1..c] && p.mid2 == toks[c] && StmtsYield(p.stmts) == toks[c + 1..d]
    requires p.close == toks[d] && p.eof == toks[d + 1]
    ensures ProgramYield(p) == toks[i..d + 2]
  {
    OneToken(toks, i);
    Glue(toks, i, i + 1, b, [p.open], OptFuncsYield(p.funcs));
    var a1 := [p.open] + OptFuncsYield(p.funcs);
    GlueToken(toks, i, b, a1);
    Glue(toks, i, b + 1, c, a1 + [p.mid1], OptDeclsYield(p.decls));
    var a2 := a1 + [p.mid1] + OptDeclsYield(p.decls);
    GlueToken(toks, i, c, a2);
    Glue(toks, i, c + 1, d, a2 + [p.mid2], StmtsYield(p.stmts));
    var a3 := a2 + [p.mid2] + StmtsYield(p.stmts);
    TwoTokens(toks, d);
    Glue(toks, i, d, d + 2, a3, [p.close, p.eof]);
  }

  /** A successful `Rat25S` spells a well-formed program, its end marker included. */
  lemma {:induction false} Rat25SSound(toks: seq<Token>, s: State) returns (p: ProgramTree)
    requires Valid(toks, s)
    ensures var r := Rat25S(toks, s);
            r.Success? ==> WfProgram(p) && ProgramYield(p) == toks[s.pos..r.value.pos]
  {
    p := BlankProgram(toks[s.pos]);
    if Rat25S(toks, s).Success? {
      var s1, s2, s3, s4, s5 := Rat25SSteps(toks, s);
      var s6 := StatementSectionSteps(toks, s5);
      p := ProgramFromParts(toks, s.pos, s1, s2, s3, s4, s5, s6);
    }
  }

  /** The trees the sub-procedures of `Rat25S` recognise, put together. */
  lemma {:induction false} ProgramFromParts(toks: seq<Token>, i: nat, s1: State, s2: State, s3: State, s4: State, s5: State, s6: State)
    returns (p: ProgramTree)
    requires i < |toks| && IsSep(toks[i], "$$") && s1.pos == i + 1 && Valid(toks, s1)
    requires OptFunctionDefinitions(toks, s1) == Success(s2) && IsSep(toks[s2.pos], "$$") && s3.pos == s2.pos + 1 && Valid(toks, s3)
    requires OptDeclarationList(toks, s3) == Success(s4) && IsSep(toks[s4.pos], "$$") && s5.pos == s4.pos + 1 && Valid(toks, s5)
    requires StatementList(toks, s5) == Success(s6) && s6.pos + 1 < |toks|
    requires IsSep(toks[s6.pos], "$$") && toks[s6.pos + 1].kind == Eof
    ensures WfProgram(p) && ProgramYield(p) == toks[i..s6.pos + 2]
  {
    var fs := FuncsPart(toks, s1, s2);
    var ds := DeclsPart(toks, s3, s4);
    var l := StmtsPart(toks, s5, s6);
    p := ProgramBuilt(toks, i, s2.pos, s4.pos, s6.pos, fs, ds, l);
  }

  /** The function definitions of a program, as a tree. */
  lemma {:induction false} FuncsPart(toks: seq<Token>, s: State, s2: State) returns (o: Option<FuncList>)
    requires Valid(toks, s) && OptFunctionDefinitions(toks, s) == Success(s2)
    ensures WfOptFuncs(o) && OptFuncsYield(o) == toks[s.pos..s2.pos]
  {
    o := OptFunctionDefinitionsSound(toks, s);
  }

  /** The declarations of a program, as a tree. */
  lemma {:induction false} DeclsPart(toks: seq<Token>, s: State, s2: State) returns (o: Option<DeclList>)
    requires Valid(toks, s) && OptDeclarationList(toks, s) == Success(s2)
    ensures WfOptDecls(o) && OptDeclsYield(o) == toks[s.pos..s2.pos]
  {
    o := OptDeclarationListSound(toks, s);
  }

  /** The statements of a program, as a tree. */
  lemma {:induction false} StmtsPart(toks: seq<Token>, s: State, s2: State) returns (l: StmtList)
    requires Valid(toks, s) && StatementList(toks, s) == Success(s2)
    ensures WfStmts(l) && StmtsYield(l) == toks[s.pos..s2.pos]
  {
    l := StatementListSound(toks, s);
  }

  /** A program tree assembled from parts that are well formed and spelled one after the other from `i`. */
  lemma {:induction false} ProgramBuilt(toks: seq<Token>, i: nat, b: nat, c: nat, d: nat,
                                        fs: Option<FuncList>, ds: Option<DeclList>, l: StmtList) returns (p: ProgramTree)
    requires i < b < c < d && d + 2 <= |toks|
    requires IsSep(toks[i], "$$") && IsSep(toks[b], "$$") && IsSep(toks[c], "$$") && IsSep(toks[d], "$$") && toks[d + 1].kind == Eof
    requires WfOptFuncs(fs) && OptFuncsYield(fs) == toks[i + 1..b]
    requires WfOptDecls(ds) && OptDeclsYield(ds) == toks[b + 1..c]
    requires WfStmts(l) && StmtsYield(l) == toks[c + 1..d]
    ensures WfProgram(p) && ProgramYield(p) == toks[i..d + 2]
  {
    p := Program(toks[i], fs, toks[b], ds, toks[c], l, toks[d], toks[d + 1]);
    ProgramSpelled(toks, i, b, c, d, p);
  }

  /** Where the parts of a spelled program lie: its middle delimiters at `b` and `c`, its last at `d`. */
  lemma {:induction false} ProgramParts(p: ProgramTree, toks: seq<Token>, i: nat) returns (b: nat, c: nat, d: nat)
    requires i + |ProgramYield(p)| <= |toks| && toks[i..i + |ProgramYield(p)|] == ProgramYield(p)
    ensures toks[i] == p.open && Spans(OptFuncsYield(p.funcs), toks, i + 1)
    ensures b == i + 1 + |OptFuncsYield(p.funcs)| && toks[b] == p.mid1 && Spans(OptDeclsYield(p.decls), toks, b + 1)
    ensures c == b + 1 + |OptDeclsYield(p.decls)| && toks[c] == p.mid2 && Spans(StmtsYield(p.stmts), toks, c + 1)
    ensures d == c + 1 + |StmtsYield(p.stmts)| && d + 2 == i + |ProgramYield(p)| && toks[d] == p.close && toks[d + 1] == p.eof
  {
    var a1 := [p.open] + OptFuncsYield(p.funcs);
    var a2 := a1 + [p.mid1] + OptDeclsYield(p.decls);
    var a3 := a2 + [p.mid2] + StmtsYield(p.stmts);
    b := i + 1 + |OptFuncsYield(p.funcs)|;
    c := b + 1 + |OptDeclsYield(p.decls)|;
    d := i + |a3|;
    assert ProgramYield(p) == a3 + [p.close, p.eof];
    assert toks[i..d] == a3 by {
      assert toks[i..d] == toks[i..i + |ProgramYield(p)|][..|a3|];
    }
    assert toks[d] == ProgramYield(p)[|a3|] && toks[d + 1] == ProgramYield(p)[|a3| + 1];
    assert Spans(a3, toks, i);
    SpansSplit(a2 + [p.mid2], StmtsYield(p.stmts), toks, i);
    SpansThenToken(a2, p.mid2, toks, i);
    SpansSplit(a1 + [p.mid1], OptDeclsYield(p.decls), toks, i);
    SpansThenToken(a1, p.mid1, toks, i);
    SpansSplit([p.open], OptFuncsYield(p.funcs), toks, i);
    SpansToken(p.open, toks, i);
  }

  /** The statement section of a spelled program: statements, then `$$` and the end marker at `d`. */
  lemma {:induction false} StatementSectionComplete(toks: seq<Token>, s: State, l: StmtList, d: nat)
    requires Valid(toks, s) && WfStmts(l) && Spans(StmtsYield(l), toks, s.pos) && d == s.pos + |StmtsYield(l)|
    requires d + 1 < |toks| && IsSep(toks[d], "$$") && toks[d + 1].kind == Eof
    ensures StatementSection(toks, s).Success? && StatementSection(toks, s).value.pos == d + 2
  {
    StatementListComplete(toks, s, l);
  }

  /** The part of a spelled program before its statements, up to the third `$$` at `c`. */
  lemma {:induction false} ProgramHeadComplete(toks: seq<Token>, s: State, p: ProgramTree, b: nat, c: nat) returns (s5: State)
    requires Valid(toks, s) && WfProgram(p)
    requires toks[s.pos] == p.open && Spans(OptFuncsYield(p.funcs), toks, s.pos + 1)
    requires b == s.pos + 1 + |OptFuncsYield(p.funcs)| && toks[b] == p.mid1 && Spans(OptDeclsYield(p.decls), toks, b + 1)
    requires c == b + 1 + |OptDeclsYield(p.decls)| && toks[c] == p.mid2 && c + 1 < |toks|
    ensures s5.pos == c + 1 && Valid(toks, s5)
    ensures Rat25S(toks, s) == StatementSection(toks, s5)
  {
    var s1 := Expect(toks, Prod(s, Rat25SRule), Separator, Some("$$")).value;
    assert s1.pos + |OptFuncsYield(p.funcs)| == b;
    OptFunctionDefinitionsComplete(toks, s1, p.funcs);
    var s2 := OptFunctionDefinitions(toks, s1).value;
    assert s2.pos == b;
    var s3 := Expect(toks, s2, Separator, Some("$$")).value;
    assert s3.pos + |OptDeclsYield(p.decls)| == c;
    OptDeclarationListComplete(toks, s3, p.decls);
    var s4 := OptDeclarationList(toks, s3).value;
    assert s4.pos == c;
    s5 := Expect(toks, s4, Separator, Some("$$")).value;
  }

  lemma {:induction false} Rat25SComplete(toks: seq<Token>, s: State, p: ProgramTree)
    requires Valid(toks, s) && WfProgram(p) && s.pos + |ProgramYield(p)| <= |toks|
    requires toks[s.pos..s.pos + |ProgramYield(p)|] == ProgramYield(p)
    ensures Rat25S(toks, s).Success? && Rat25S(toks, s).value.pos == s.pos + |ProgramYield(p)|
  {
    var b, c, d := ProgramParts(p, toks, s.pos);
    var s5 := ProgramHeadComplete(toks, s, p, b, c);
    StatementSectionComplete(toks, s5, p.stmts, d);
  }

  /** `Rat25S` stops at `j` exactly when `toks[s.pos..j]` spells a whole program. */
  lemma {:induction false} Rat25SExact(toks: seq<Token>, s: State, j: nat)
    requires Valid(toks, s) && s.pos <= j <= |toks|
    ensures (Rat25S(toks, s).Success? && Rat25S(toks, s).value.pos == j)
            <==> exists p: ProgramTree :: WfProgram(p) && ProgramYield(p) == toks[s.pos..j]
  {
    if Rat25S(toks, s).Success? && Rat25S(toks, s).value.pos == j {
      var p := Rat25SSound(toks, s);
      assert WfProgram(p) && ProgramYield(p) == toks[s.pos..j];
    }
    if exists p: ProgramTree :: WfProgram(p) && ProgramYield(p) == toks[s.pos..j] {
      var p: ProgramTree :| WfProgram(p) && ProgramYield(p) == toks[s.pos..j];
      Rat25SCompleteAt(toks, s, p, j);
    }
  }

  /** `Rat25SComplete` for a yield given as the slice up to `j`. */
  lemma {:induction false} Rat25SCompleteAt(toks: seq<Token>, s: State, p: ProgramTree, j: nat)
    requires Valid(toks, s) && s.pos <= j <= |toks| && WfProgram(p) && ProgramYield(p) == toks[s.pos..j]
    ensures Rat25S(toks, s).Success? && Rat25S(toks, s).value.pos == j
  {
    assert s.pos + |ProgramYield(p)| == j;
    Rat25SComplete(toks, s, p);
  }

  /** A text parses exactly when its whole token sequence is the yield of a well-formed program. */
  lemma {:induction false} ParseExact(text: string)
    ensures Parse(text).Success? <==> exists p: ProgramTree :: WfProgram(p) && ProgramYield(p) == Lexer.Tokenize(text)
  {
    var toks := Lexer.Tokenize(text);
    ParseLogsEveryToken(text);
    LexerProofs.TokenizeEofOnlyAtEnd(text);
    var s := State(0, Empty);
    assert Valid(toks, s);
    assert Parse(text) == Rat25S(toks, s);
    assert toks[0..|toks|] == toks;
    Rat25SExact(toks, s, |toks|);
  }

  /** The tokens of `$$ $$ $$ x = 1 ; $$`: no functions, no declarations and one assignment make a program. */
  lemma OneAssignmentAccepted(toks: seq<Token>)
    requires toks == LexerProofs.OneAssignmentTokens
    ensures Rat25S(toks, State(0, Empty)).Success? && Rat25S(toks, State(0, Empty)).value.pos == 9
  {
    var d := toks[0];
    var e := ETerm(TFactor(FPlain(PLiteral(toks[5]))));
    var p := Program(d, None, d, None, d, LastStmt(SAssign(toks[3], toks[4], e, toks[6])), d, toks[8]);
    assert ProgramYield(p) == toks;
    assert toks[0..9] == toks;
    Rat25SComplete(toks, State(0, Empty), p);
  }

  /** The text `$$ $$ $$ x = 1 ; $$` parses, from tokenizing to the closing `Eof`. */
  lemma OneAssignmentParses(text: string)
    requires text == LexerProofs.OneAssignment
    ensures Parse(text).Success? && Parse(text).value.pos == 9
  {
    LexerProofs.OneAssignmentTokenize(text);
    OneAssignmentAccepted(Lexer.Tokenize(text));
  }
}
