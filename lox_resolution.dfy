/**
 * What Resolver.java computes, as functions of the resolver's state: the
 * stack of scopes (name -> defined yet?), the kind of function and class
 * being resolved, the errors reported through Lox.error, and the calls
 * made to interpreter.resolve(expr, depth), in order. The Resolver class
 * (LoxResolver) is proved to follow these functions step by step.
 */
module LoxResolution {
  import opened Wrappers
  import opened LoxTokens
  import opened LoxAst

  datatype FunctionType = NoFunction | InFunction | InMethod

  datatype ClassType = NoClass | InClass

  /** One call of interpreter.resolve(expr, depth). */
  datatype Resolution = Resolution(expr: Expr, depth: nat)

  datatype RState = RState(
    scopes: seq<map<string, bool>>,
    currentFunction: FunctionType,
    currentClass: ClassType,
    errors: seq<Report>,
    locals: seq<Resolution>)

  // The messages Resolver.java reports.
  const AlreadyDeclared := "Already a variable with this name in this scope."
  const ThisOutsideClass := "Can't use 'this' outside of a class."
  const OwnInitializer := "Can't read local variable in its own initializer."
  const TopLevelReturn := "Can't return from top-level code."

  // ---------------------------------------------------------------------
  // Trees the resolver can walk: Java's resolve(stmt) fails on a null
  // statement, so every statement slot of a list must be filled.

  predicate StmtFilled(s: Stmt)
    decreases s
  {
    match s
    case Block(ss) => StmtsFilled(ss)
    case Class(_, _, methods) => MethodsFilled(methods)
    case Function(f) => StmtsFilled(f.body)
    case If(_, t, e) => StmtFilled(t) && (e.Some? ==> StmtFilled(e.value))
    case While(_, b) => StmtFilled(b)
    case _ => true
  }

  predicate StmtsFilled(ss: seq<Option<Stmt>>)
    decreases ss
  {
    forall i :: 0 <= i < |ss| ==> SlotFilled(ss[i])
  }

  predicate SlotFilled(o: Option<Stmt>)
    decreases o
  {
    match o
    case None => false
    case Some(s) => StmtFilled(s)
  }

  predicate MethodsFilled(fs: seq<FunctionDecl>)
    decreases fs
  {
    forall i :: 0 <= i < |fs| ==> StmtsFilled(fs[i].body)
  }

  // ---------------------------------------------------------------------
  // The scope stack

  function BeginScope(st: RState): (r: RState)
    ensures r.scopes == st.scopes + [map[]]
  {
    st.(scopes := st.scopes + [map[]])
  }

  function EndScope(st: RState): (r: RState)
    requires |st.scopes| > 0
    ensures r.scopes == st.scopes[..|st.scopes| - 1]
  {
    st.(scopes := st.scopes[..|st.scopes| - 1])
  }

  /** scopes.peek().put(name, defined): only the innermost scope changes. */
  function Put(st: RState, name: string, defined: bool): RState
    requires |st.scopes| > 0
  {
    var n := |st.scopes|;
    st.(scopes := st.scopes[..n - 1] + [st.scopes[n - 1][name := defined]])
  }

  function Error(st: RState, token: Token, message: string): RState {
    st.(errors := st.errors + [Report(token, message)])
  }

  /** declare(): nothing at global scope; a redeclaration in the same scope is reported, then the name is marked not ready. */
  function Declare(st: RState, name: Token): (r: RState)
    ensures |st.scopes| == 0 ==> r == st
    ensures |st.scopes| > 0 ==>
      var n := |st.scopes|;
      |r.scopes| == n && r.scopes[..n - 1] == st.scopes[..n - 1] && r.scopes[n - 1] == st.scopes[n - 1][name.lexeme := false]
      && r.errors == st.errors + (if name.lexeme in st.scopes[n - 1] then [Report(name, AlreadyDeclared)] else [])
    ensures r.locals == st.locals && r.currentFunction == st.currentFunction && r.currentClass == st.currentClass
  {
    if |st.scopes| == 0 then st
    else
      var reported := if name.lexeme in st.scopes[|st.scopes| - 1] then Error(st, name, AlreadyDeclared) else st;
      Put(reported, name.lexeme, false)
  }

  /** define(): nothing at global scope; otherwise the name is marked ready. */
  function Define(st: RState, name: Token): (r: RState)
    ensures |st.scopes| == 0 ==> r == st
    ensures |st.scopes| > 0 ==>
      var n := |st.scopes|;
      |r.scopes| == n && r.scopes[..n - 1] == st.scopes[..n - 1] && r.scopes[n - 1] == st.scopes[n - 1][name.lexeme := true]
    ensures r.errors == st.errors && r.locals == st.locals
    ensures r.currentFunction == st.currentFunction && r.currentClass == st.currentClass
  {
    if |st.scopes| == 0 then st else Put(st, name.lexeme, true)
  }

  /** The distance from the innermost scope to the innermost one at or below index i that holds the name. */
  function FindScope(scopes: seq<map<string, bool>>, name: string, i: int): (r: Option<nat>)
    requires i < |scopes|
    decreases i + 1
  {
    if i < 0 then None
    else if name in scopes[i] then Some(|scopes| - 1 - i)
    else FindScope(scopes, name, i - 1)
  }

  /** How many scopes out from the innermost the name is declared; None for a global. */
  function Distance(scopes: seq<map<string, bool>>, name: string): Option<nat> {
    FindScope(scopes, name, |scopes| - 1)
  }

  /** resolveLocal(): tell the interpreter the distance, or nothing for a global. */
  function ResolveLocal(st: RState, e: Expr, name: Token): (r: RState)
    ensures r.(locals := st.locals) == st
    ensures |st.scopes| == 0 ==> r == st
    ensures r.locals == st.locals || (|r.locals| == |st.locals| + 1 && r.locals[..|st.locals|] == st.locals && r.locals[|st.locals|].expr == e)
  {
    match Distance(st.scopes, name.lexeme)
    case Some(d) => st.(locals := st.locals + [Resolution(e, d)])
    case None => st
  }

  // ---------------------------------------------------------------------
  // Expressions: they report errors and record resolutions, and change
  // nothing else.

  predicate Grows(st: RState, r: RState) {
    st.errors <= r.errors && st.locals <= r.locals
  }

  predicate SameScopes(st: RState, r: RState) {
    r.scopes == st.scopes && r.currentFunction == st.currentFunction && r.currentClass == st.currentClass
  }

  function ResolveExpr(st: RState, e: Expr): (r: RState)
    ensures SameScopes(st, r) && Grows(st, r)
    decreases e, 1
  {
    match e
    case Assign(name, value) => ResolveLocal(ResolveExpr(st, value), e, name)
    case Binary(left, _, right) => ResolveExpr(ResolveExpr(st, left), right)
    case Call(callee, _, arguments) => ResolveExprs(ResolveExpr(st, callee), arguments)
    case Get(obj, _) => ResolveExpr(st, obj)
    case Grouping(inner) => ResolveExpr(st, inner)
    case Literal(_) => st
    case Set(obj, _, value) => ResolveExpr(ResolveExpr(st, value), obj)
    case Super(_, _) => st
    case This(keyword) => ResolveThis(st, e, keyword)
    case Logical(left, _, right) => ResolveExpr(ResolveExpr(st, left), right)
    case Unary(_, right) => ResolveExpr(st, right)
    case Ternary(check, ifExpr, elseExpr) => ResolveExpr(ResolveExpr(ResolveExpr(st, check), ifExpr), elseExpr)
    case Variable(name) => ResolveVariable(st, e, name)
  }

  /** The arguments of a call, left to right. */
  function ResolveExprs(st: RState, es: seq<Expr>): (r: RState)
    ensures SameScopes(st, r) && Grows(st, r)
    decreases es, 0
  {
    if |es| == 0 then st else ResolveExprs(ResolveExpr(st, es[0]), es[1..])
  }

  /** visitThisExpr(): an error outside a class, otherwise resolved like a variable named `this`. */
  function ResolveThis(st: RState, e: Expr, keyword: Token): (r: RState)
    ensures r.scopes == st.scopes && r.currentFunction == st.currentFunction && r.currentClass == st.currentClass
    ensures st.currentClass == NoClass ==> r.errors == st.errors + [Report(keyword, ThisOutsideClass)] && r.locals == st.locals
    ensures st.currentClass != NoClass ==> r.errors == st.errors
  {
    if st.currentClass == NoClass then Error(st, keyword, ThisOutsideClass)
    else ResolveLocal(st, e, keyword)
  }

  /** visitVariableExpr(): reading a name the innermost scope has declared but not yet defined is an error. */
  function ResolveVariable(st: RState, e: Expr, name: Token): (r: RState)
    ensures r.scopes == st.scopes && r.currentFunction == st.currentFunction && r.currentClass == st.currentClass
    ensures var n := |st.scopes|;
      r.errors == st.errors + (if n > 0 && name.lexeme in st.scopes[n - 1] && !st.scopes[n - 1][name.lexeme] then [Report(name, OwnInitializer)] else [])
  {
    var n := |st.scopes|;
    var reported :=
      if n > 0 && name.lexeme in st.scopes[n - 1] && !st.scopes[n - 1][name.lexeme]
      then Error(st, name, OwnInitializer)
      else st;
    ResolveLocal(reported, e, name)
  }

  // ---------------------------------------------------------------------
  // Statements: they may declare names in the innermost scope, and leave
  // the stack at its height and the enclosing function and class kinds as
  // they found them.

  /** Only the innermost scope may differ, and the function and class kinds are restored. */
  predicate Restored(st: RState, r: RState) {
    |r.scopes| == |st.scopes|
    && (|st.scopes| > 0 ==> r.scopes[..|st.scopes| - 1] == st.scopes[..|st.scopes| - 1])
    && r.currentFunction == st.currentFunction && r.currentClass == st.currentClass
  }

  function ResolveStmt(st: RState, s: Stmt): (r: RState)
    requires StmtFilled(s)
    ensures Restored(st, r) && Grows(st, r)
    decreases s, 3
  {
    match s
    case Block(ss) => EndScope(ResolveStmts(BeginScope(st), ss))
    case Class(name, _, methods) => ResolveClass(st, name, methods)
    case Expression(e) => ResolveExpr(st, e)
    case Function(f) => ResolveFunctionStmt(st, f)
    case If(_, _, _) => ResolveIf(st, s)
    case Print(e) => ResolveExpr(st, e)
    case Return(keyword, value) => ResolveReturn(st, keyword, value)
    case Var(name, init) => ResolveVar(st, name, init)
    case While(c, b) => ResolveStmt(ResolveExpr(st, c), b)
  }

  /** visitFunctionStmt(): a named function is declared and defined before its body is resolved. */
  function ResolveFunctionStmt(st: RState, f: FunctionDecl): (r: RState)
    requires StmtsFilled(f.body)
    ensures Restored(st, r) && Grows(st, r)
    decreases f, 1
  {
    var named := if f.name.Some? then Define(Declare(st, f.name.value), f.name.value) else st;
    ResolveFunction(named, f, InFunction)
  }

  /** visitIfStmt(): the condition, the then branch, and the else branch when there is one. */
  function ResolveIf(st: RState, s: Stmt): (r: RState)
    requires s.If? && StmtFilled(s)
    ensures Restored(st, r) && Grows(st, r)
    decreases s, 2
  {
    var branch := ResolveStmt(ResolveExpr(st, s.condition), s.thenBranch);
    if s.elseBranch.Some? then ResolveStmt(branch, s.elseBranch.value) else branch
  }

  /** visitReturnStmt(): a return outside any function is an error; the value is resolved anyway. */
  function ResolveReturn(st: RState, keyword: Token, value: Option<Expr>): (r: RState)
    ensures Restored(st, r) && Grows(st, r)
  {
    var reported := if st.currentFunction == NoFunction then Error(st, keyword, TopLevelReturn) else st;
    if value.Some? then ResolveExpr(reported, value.value) else reported
  }

  /** visitVarStmt(): declared (not ready) while the initializer is resolved, defined afterwards. */
  function ResolveVar(st: RState, name: Token, init: Option<Expr>): (r: RState)
    ensures Restored(st, r) && Grows(st, r)
  {
    var declared := Declare(st, name);
    Define(if init.Some? then ResolveExpr(declared, init.value) else declared, name)
  }

  /** resolve(List<Stmt>): each statement in order. */
  function ResolveStmts(st: RState, ss: seq<Option<Stmt>>): (r: RState)
    requires StmtsFilled(ss)
    ensures Restored(st, r) && Grows(st, r)
    decreases ss, 2
  {
    if |ss| == 0 then st else ResolveStmts(ResolveSlot(st, ss[0]), ss[1..])
  }

  function ResolveSlot(st: RState, o: Option<Stmt>): (r: RState)
    requires SlotFilled(o)
    ensures Restored(st, r) && Grows(st, r)
    decreases o, 4
  {
    ResolveStmt(st, o.value)
  }

  /**
   * visitClassStmt(): the class name is declared in the enclosing scope,
   * then the methods are resolved inside a scope that holds `this`.
   */
  function ResolveClass(st: RState, name: Token, methods: seq<FunctionDecl>): (r: RState)
    requires MethodsFilled(methods)
    ensures Restored(st, r) && Grows(st, r)
    decreases methods, 2
  {
    var resolved := ResolveMethods(ClassBody(st, name), methods);
    EndScope(resolved).(currentClass := st.currentClass)
  }

  /** The state visitClassStmt() resolves the methods in: the name defined, then a scope holding `this`. */
  function ClassBody(st: RState, name: Token): RState {
    var named := Define(Declare(st.(currentClass := InClass), name), name);
    Put(BeginScope(named), "this", true)
  }

  function ResolveMethods(st: RState, methods: seq<FunctionDecl>): (r: RState)
    requires MethodsFilled(methods)
    ensures Restored(st, r) && Grows(st, r)
    decreases methods, 1
  {
    if |methods| == 0 then st else ResolveMethods(ResolveFunction(st, methods[0], InMethod), methods[1..])
  }

  /** resolveFunction(): parameters and body in one fresh scope, with the function kind set for the body. */
  function ResolveFunction(st: RState, f: FunctionDecl, kind: FunctionType): (r: RState)
    requires StmtsFilled(f.body)
    ensures Restored(st, r) && Grows(st, r)
    decreases f, 0
  {
    var entered := DeclareParams(BeginScope(st.(currentFunction := kind)), f.params);
    var resolved := ResolveStmts(entered, f.body);
    EndScope(resolved).(currentFunction := st.currentFunction)
  }

  /** The parameter loop of resolveFunction(): declare and define each. */
  function DeclareParams(st: RState, params: seq<Token>): (r: RState)
    ensures Restored(st, r) && st.locals == r.locals && st.errors <= r.errors
    decreases params
  {
    if |params| == 0 then st else DeclareParams(Define(Declare(st, params[0]), params[0]), params[1..])
  }
}
