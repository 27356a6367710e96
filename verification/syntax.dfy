/**
  Rat25S programs as syntax trees: a declarative description of the token
  strings the grammar (rules R1 to R28) derives, independent of the
  recursive descent that recognises them. `+`/`-` and `*`/`/` chains are
  kept left-nested, as a reader of the grammar would build them. Lists
  (statements, declarations, parameters, functions) are built the way the
  factored rules recur: an element, then optionally the rest.
 */
module Syntax {
  import opened Wrappers
  import opened Tokens

  datatype ExprTree =
    | ETerm(term: TermTree)
    | EOp(left: ExprTree, op: Token, right: TermTree)

  datatype TermTree =
    | TFactor(factor: FactorTree)
    | TOp(left: TermTree, op: Token, right: FactorTree)

  datatype FactorTree =
    | FNeg(minus: Token, primary: PrimaryTree)
    | FPlain(primary: PrimaryTree)

  /** A call keeps its argument tokens as one flat identifier list. */
  datatype PrimaryTree =
    | PCall(name: Token, open: Token, args: seq<Token>, close: Token)
    | PIdent(name: Token)
    | PLiteral(value: Token)
    | PParen(open: Token, inner: ExprTree, close: Token)

  predicate IsSep(t: Token, lexeme: string) {
    t.kind == Separator && t.lexeme == lexeme
  }

  /** `id` or `id , <IdList>`. */
  predicate IdList(ts: seq<Token>)
    decreases |ts|
  {
    && |ts| >= 1
    && ts[0].kind == Identifier
    && (|ts| == 1 || (|ts| >= 3 && IsSep(ts[1], ",") && IdList(ts[2..])))
  }

  predicate WfExpr(e: ExprTree) {
    match e
    case ETerm(t) => WfTerm(t)
    case EOp(l, op, r) =>
      WfExpr(l) && op.kind == Operator && (op.lexeme == "+" || op.lexeme == "-") && WfTerm(r)
  }

  predicate WfTerm(t: TermTree) {
    match t
    case TFactor(f) => WfFactor(f)
    case TOp(l, op, r) =>
      WfTerm(l) && op.kind == Operator && (op.lexeme == "*" || op.lexeme == "/") && WfFactor(r)
  }

  /**
    Unary minus is recognised by its lexeme alone, whatever the token's
    kind; so a primary left without a minus must not start with a `-` lexeme.
   */
  predicate WfFactor(f: FactorTree) {
    match f
    case FNeg(m, p) => m.lexeme == "-" && WfPrim(p)
    case FPlain(p) => FirstToken(p).lexeme != "-" && WfPrim(p)
  }

  predicate WfPrim(p: PrimaryTree) {
    match p
    case PCall(n, o, args, c) => n.kind == Identifier && IsSep(o, "(") && IdList(args) && IsSep(c, ")")
    case PIdent(n) => n.kind == Identifier
    case PLiteral(v) =>
      || v.kind == Integer || v.kind == Real
      || (v.kind == Keyword && (v.lexeme == "true" || v.lexeme == "false"))
    case PParen(o, inner, c) => IsSep(o, "(") && WfExpr(inner) && IsSep(c, ")")
  }

  /** The token a primary starts with. */
  function FirstToken(p: PrimaryTree): Token {
    match p
    case PCall(n, _, _, _) => n
    case PIdent(n) => n
    case PLiteral(v) => v
    case PParen(o, _, _) => o
  }

  /** The right-most primary of a tree: the one a following token could extend. */
  function LastOfTerm(t: TermTree): PrimaryTree {
    match t
    case TFactor(f) => f.primary
    case TOp(_, _, f) => f.primary
  }

  function LastOfExpr(e: ExprTree): PrimaryTree {
    match e
    case ETerm(t) => LastOfTerm(t)
    case EOp(_, _, t) => LastOfTerm(t)
  }

  /** A token that makes a term go on: a `*` or `/` operator. */
  predicate ContinuesTerm(next: Token) {
    next.kind == Operator && (next.lexeme == "*" || next.lexeme == "/")
  }

  /** A token that makes an expression go on: a `+` or `-` operator. */
  predicate ContinuesExpr(next: Token) {
    next.kind == Operator && (next.lexeme == "+" || next.lexeme == "-")
  }

  /** A bare identifier followed by a `(` lexeme would be read as a call instead. */
  predicate ClosedBy(p: PrimaryTree, next: Token) {
    p.PIdent? ==> next.lexeme != "("
  }

  /** `next` ends an expression `e`: it neither extends its last primary nor continues a term or a sum. */
  predicate EndsExpression(e: ExprTree, next: Token) {
    ClosedBy(LastOfExpr(e), next) && !ContinuesTerm(next) && !ContinuesExpr(next)
  }

  /** The tokens a tree spells, left to right. */
  function ExprYield(e: ExprTree): seq<Token> {
    match e
    case ETerm(t) => TermYield(t)
    case EOp(l, op, r) => ExprYield(l) + [op] + TermYield(r)
  }

  function TermYield(t: TermTree): seq<Token> {
    match t
    case TFactor(f) => FactorYield(f)
    case TOp(l, op, r) => TermYield(l) + [op] + FactorYield(r)
  }

  function FactorYield(f: FactorTree): seq<Token> {
    match f
    case FNeg(m, p) => [m] + PrimYield(p)
    case FPlain(p) => PrimYield(p)
  }

  function PrimYield(p: PrimaryTree): seq<Token> {
    match p
    case PCall(n, o, args, c) => [n, o] + args + [c]
    case PIdent(n) => [n]
    case PLiteral(v) => [v]
    case PParen(o, inner, c) => [o] + ExprYield(inner) + [c]
  }

  // ---------------------------------------------------------------------------
  // Statements (rules R14 to R24)
  // ---------------------------------------------------------------------------

  /** `<Expression> <Relop> <Expression>` */
  datatype CondTree = Cond(left: ExprTree, op: Token, right: ExprTree)

  /** `{ <StatementList> }`: a compound statement, and also the body of a function. */
  datatype BlockTree = Block(open: Token, stmts: StmtList, close: Token)

  /** The seven statement forms; `if` with and without `else`, and `return` with and without a value, are told apart. */
  datatype StmtTree =
    | SCompound(block: BlockTree)
    | SAssign(name: Token, eq: Token, expr: ExprTree, semi: Token)
    | SIf(kw: Token, open: Token, cond: CondTree, close: Token, thenPart: StmtTree, endKw: Token)
    | SIfElse(kw: Token, open: Token, cond: CondTree, close: Token, thenPart: StmtTree,
              elseKw: Token, elsePart: StmtTree, endKw: Token)
    | SReturn(kw: Token, semi: Token)
    | SReturnValue(kw: Token, expr: ExprTree, semi: Token)
    | SPrint(kw: Token, open: Token, expr: ExprTree, close: Token, semi: Token)
    | SScan(kw: Token, open: Token, ids: seq<Token>, close: Token, semi: Token)
    | SWhile(kw: Token, open: Token, cond: CondTree, close: Token, loopBody: StmtTree, endKw: Token)

  /** One or more statements. */
  datatype StmtList = LastStmt(stmt: StmtTree) | ConsStmt(stmt: StmtTree, rest: StmtList)

  predicate IsKw(t: Token, lexeme: string) {
    t.kind == Keyword && t.lexeme == lexeme
  }

  /** The token an expression starts with. */
  function FirstOfExpr(e: ExprTree): Token {
    match e
    case ETerm(t) => FirstOfTerm(t)
    case EOp(l, _, _) => FirstOfExpr(l)
  }

  function FirstOfTerm(t: TermTree): Token {
    match t
    case TFactor(f) => FirstOfFactor(f)
    case TOp(l, _, _) => FirstOfTerm(l)
  }

  function FirstOfFactor(f: FactorTree): Token {
    match f
    case FNeg(m, _) => m
    case FPlain(p) => FirstToken(p)
  }

  predicate WfCond(c: CondTree) {
    WfExpr(c.left) && c.op.kind == Operator && IsRelationalOperator(c.op.lexeme) && WfExpr(c.right)
  }

  predicate WfBlock(b: BlockTree) {
    IsSep(b.open, "{") && WfStmts(b.stmts) && IsSep(b.close, "}")
  }

  /**
    `return` takes a value exactly when the token after it is not a `;`
    lexeme, so a returned expression must not start with one.
   */
  predicate WfStmt(st: StmtTree) {
    match st
    case SCompound(b) => WfBlock(b)
    case SAssign(n, eq, e, semi) =>
      n.kind == Identifier && eq.kind == Operator && eq.lexeme == "=" && WfExpr(e) && IsSep(semi, ";")
    case SIf(kw, o, c, cl, t, end) =>
      IsKw(kw, "if") && IsSep(o, "(") && WfCond(c) && IsSep(cl, ")") && WfStmt(t) && IsKw(end, "endif")
    case SIfElse(kw, o, c, cl, t, el, e, end) =>
      && IsKw(kw, "if") && IsSep(o, "(") && WfCond(c) && IsSep(cl, ")") && WfStmt(t)
      && IsKw(el, "else") && WfStmt(e) && IsKw(end, "endif")
    case SReturn(kw, semi) => IsKw(kw, "return") && IsSep(semi, ";")
    case SReturnValue(kw, e, semi) =>
      IsKw(kw, "return") && WfExpr(e) && FirstOfExpr(e).lexeme != ";" && IsSep(semi, ";")
    case SPrint(kw, o, e, cl, semi) =>
      IsKw(kw, "print") && IsSep(o, "(") && WfExpr(e) && IsSep(cl, ")") && IsSep(semi, ";")
    case SScan(kw, o, ids, cl, semi) =>
      IsKw(kw, "scan") && IsSep(o, "(") && IdList(ids) && IsSep(cl, ")") && IsSep(semi, ";")
    case SWhile(kw, o, c, cl, b, end) =>
      IsKw(kw, "while") && IsSep(o, "(") && WfCond(c) && IsSep(cl, ")") && WfStmt(b) && IsKw(end, "endwhile")
  }

  predicate WfStmts(l: StmtList) {
    match l
    case LastStmt(st) => WfStmt(st)
    case ConsStmt(st, rest) => WfStmt(st) && WfStmts(rest)
  }

  function CondYield(c: CondTree): seq<Token> {
    ExprYield(c.left) + [c.op] + ExprYield(c.right)
  }

  function BlockYield(b: BlockTree): seq<Token> {
    [b.open] + StmtsYield(b.stmts) + [b.close]
  }

  function StmtYield(st: StmtTree): seq<Token> {
    match st
    case SCompound(b) => BlockYield(b)
    case SAssign(n, eq, e, semi) => [n, eq] + ExprYield(e) + [semi]
    case SIf(kw, o, c, cl, t, end) => [kw, o] + CondYield(c) + [cl] + StmtYield(t) + [end]
    case SIfElse(kw, o, c, cl, t, el, e, end) =>
      [kw, o] + CondYield(c) + [cl] + StmtYield(t) + [el] + StmtYield(e) + [end]
    case SReturn(kw, semi) => [kw, semi]
    case SReturnValue(kw, e, semi) => [kw] + ExprYield(e) + [semi]
    case SPrint(kw, o, e, cl, semi) => [kw, o] + ExprYield(e) + [cl, semi]
    case SScan(kw, o, ids, cl, semi) => [kw, o] + ids + [cl, semi]
    case SWhile(kw, o, c, cl, b, end) => [kw, o] + CondYield(c) + [cl] + StmtYield(b) + [end]
  }

  function StmtsYield(l: StmtList): seq<Token> {
    match l
    case LastStmt(st) => StmtYield(st)
    case ConsStmt(st, rest) => StmtYield(st) + StmtsYield(rest)
  }

  // ---------------------------------------------------------------------------
  // Declarations, parameters and functions (rules R2 to R13)
  // ---------------------------------------------------------------------------

  /** `<Qualifier> <IDs>` */
  datatype DeclTree = Decl(qualifier: Token, ids: seq<Token>)

  /** `<Declaration> ;`, then optionally more. */
  datatype DeclList = LastDecl(decl: DeclTree, semi: Token) | ConsDecl(decl: DeclTree, semi: Token, rest: DeclList)

  /** `<IDs> <Qualifier>` */
  datatype ParamTree = Param(ids: seq<Token>, qualifier: Token)

  /** `<Parameter>`, then optionally `,` and more. */
  datatype ParamList = LastParam(param: ParamTree) | ConsParam(param: ParamTree, comma: Token, rest: ParamList)

  /** `function id ( <OptParameterList> ) <OptDeclarationList> <Body>` */
  datatype FuncTree = Func(kw: Token, name: Token, open: Token, params: Option<ParamList>, close: Token,
                           decls: Option<DeclList>, body: BlockTree)

  /** `<Function>`, then optionally more. */
  datatype FuncList = LastFunc(func: FuncTree) | ConsFunc(func: FuncTree, rest: FuncList)

  /** `$$ <OptFunctionDefinitions> $$ <OptDeclarationList> $$ <StatementList> $$`, then the end marker. */
  datatype ProgramTree = Program(open: Token, funcs: Option<FuncList>, mid1: Token, decls: Option<DeclList>,
                                 mid2: Token, stmts: StmtList, close: Token, eof: Token)

  predicate WfDecl(d: DeclTree) {
    IsQualifier(d.qualifier.lexeme) && IdList(d.ids)
  }

  predicate WfDecls(l: DeclList) {
    match l
    case LastDecl(d, semi) => WfDecl(d) && IsSep(semi, ";")
    case ConsDecl(d, semi, rest) => WfDecl(d) && IsSep(semi, ";") && WfDecls(rest)
  }

  predicate WfParam(p: ParamTree) {
    IdList(p.ids) && IsQualifier(p.qualifier.lexeme)
  }

  predicate WfParams(l: ParamList) {
    match l
    case LastParam(p) => WfParam(p)
    case ConsParam(p, comma, rest) => WfParam(p) && IsSep(comma, ",") && WfParams(rest)
  }

  /** An optional part is well formed when it is absent or well formed. */
  predicate WfOptParams(o: Option<ParamList>) {
    o.Some? ==> WfParams(o.value)
  }

  predicate WfOptDecls(o: Option<DeclList>) {
    o.Some? ==> WfDecls(o.value)
  }

  predicate WfFunc(f: FuncTree) {
    && IsKw(f.kw, "function") && f.name.kind == Identifier && IsSep(f.open, "(")
    && WfOptParams(f.params) && IsSep(f.close, ")")
    && WfOptDecls(f.decls) && WfBlock(f.body)
  }

  predicate WfFuncs(l: FuncList) {
    match l
    case LastFunc(f) => WfFunc(f)
    case ConsFunc(f, rest) => WfFunc(f) && WfFuncs(rest)
  }

  predicate WfOptFuncs(o: Option<FuncList>) {
    o.Some? ==> WfFuncs(o.value)
  }

  predicate WfProgram(p: ProgramTree) {
    && IsSep(p.open, "$$") && WfOptFuncs(p.funcs)
    && IsSep(p.mid1, "$$") && WfOptDecls(p.decls)
    && IsSep(p.mid2, "$$") && WfStmts(p.stmts) && IsSep(p.close, "$$") && p.eof.kind == Eof
  }

  function DeclYield(d: DeclTree): seq<Token> {
    [d.qualifier] + d.ids
  }

  function DeclsYield(l: DeclList): seq<Token> {
    match l
    case LastDecl(d, semi) => DeclYield(d) + [semi]
    case ConsDecl(d, semi, rest) => DeclYield(d) + [semi] + DeclsYield(rest)
  }

  function ParamYield(p: ParamTree): seq<Token> {
    p.ids + [p.qualifier]
  }

  function ParamsYield(l: ParamList): seq<Token> {
    match l
    case LastParam(p) => ParamYield(p)
    case ConsParam(p, comma, rest) => ParamYield(p) + [comma] + ParamsYield(rest)
  }

  /** An absent optional part spells nothing. */
  function OptParamsYield(o: Option<ParamList>): seq<Token> {
    if o.Some? then ParamsYield(o.value) else []
  }

  function OptDeclsYield(o: Option<DeclList>): seq<Token> {
    if o.Some? then DeclsYield(o.value) else []
  }

  function FuncYield(f: FuncTree): seq<Token> {
    [f.kw, f.name, f.open] + OptParamsYield(f.params) + [f.close] + OptDeclsYield(f.decls) + BlockYield(f.body)
  }

  function FuncsYield(l: FuncList): seq<Token> {
    match l
    case LastFunc(f) => FuncYield(f)
    case ConsFunc(f, rest) => FuncYield(f) + FuncsYield(rest)
  }

  function OptFuncsYield(o: Option<FuncList>): seq<Token> {
    if o.Some? then FuncsYield(o.value) else []
  }

  function ProgramYield(p: ProgramTree): seq<Token> {
    [p.open] + OptFuncsYield(p.funcs) + [p.mid1] + OptDeclsYield(p.decls) + [p.mid2]
    + StmtsYield(p.stmts) + [p.close, p.eof]
  }
}
