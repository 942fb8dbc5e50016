/**
 * What the resolver promises the interpreter and the user: a local's depth
 * names the innermost enclosing scope that declares it, globals are left
 * to the interpreter's global environment, block and function scopes
 * disappear when they end, and each of the four scope errors is reported
 * exactly where Lox forbids it.
 */
module LoxResolutionProps {
  import opened Wrappers
  import opened LoxTokens
  import opened LoxAst
  import opened LoxResolution

  // ---------------------------------------------------------------------
  // Lookup

  lemma {:induction false} FindScopeInnermost(scopes: seq<map<string, bool>>, name: string, i: int)
    requires -1 <= i < |scopes|
    ensures match FindScope(scopes, name, i)
      case Some(d) =>
        d < |scopes| && 0 <= |scopes| - 1 - d <= i && name in scopes[|scopes| - 1 - d]
        && forall j :: |scopes| - 1 - d < j <= i ==> name !in scopes[j]
      case None => forall j :: 0 <= j <= i ==> name !in scopes[j]
    decreases i + 1
  {
    if i >= 0 && name !in scopes[i] {
      FindScopeInnermost(scopes, name, i - 1);
    }
  }

  /**
   * resolveLocal()'s search: the distance is that of the innermost scope
   * declaring the name, and there is none exactly when no scope declares
   * it (the variable is global).
   */
  lemma DistanceInnermost(scopes: seq<map<string, bool>>, name: string)
    ensures match Distance(scopes, name)
      case Some(d) =>
        d < |scopes| && name in scopes[|scopes| - 1 - d]
        && forall j :: |scopes| - 1 - d < j < |scopes| ==> name !in scopes[j]
      case None => forall j :: 0 <= j < |scopes| ==> name !in scopes[j]
  {
    FindScopeInnermost(scopes, name, |scopes| - 1);
  }

  // ---------------------------------------------------------------------
  // What resolving an expression can add

  /** The messages an expression can report. */
  predicate ExprMessage(m: string) {
    m == ThisOutsideClass || m == OwnInitializer
  }

  /**
   * From st to r: every new resolution names one of st's scopes, and every
   * new error is one an expression can report.
   */
  predicate ExprEffects(st: RState, r: RState) {
    (forall k :: |st.locals| <= k < |r.locals| ==> r.locals[k].depth < |st.scopes|)
    && (forall k :: |st.errors| <= k < |r.errors| ==> ExprMessage(r.errors[k].message))
  }

  lemma EffectsTrans(st: RState, m: RState, r: RState)
    requires ExprEffects(st, m) && ExprEffects(m, r) && SameScopes(st, m) && Grows(st, m) && Grows(m, r)
    ensures ExprEffects(st, r)
  {
    forall k | |st.locals| <= k < |r.locals|
      ensures r.locals[k].depth < |st.scopes|
    {
      if k < |m.locals| {
        assert r.locals[k] == m.locals[k];
      }
    }
    forall k | |st.errors| <= k < |r.errors|
      ensures ExprMessage(r.errors[k].message)
    {
      if k < |m.errors| {
        assert r.errors[k] == m.errors[k];
      }
    }
  }

  lemma LocalEffects(st: RState, e: Expr, name: Token)
    ensures ExprEffects(st, ResolveLocal(st, e, name))
  {
    DistanceInnermost(st.scopes, name.lexeme);
  }

  lemma {:induction false} ExprEffectsHold(st: RState, e: Expr)
    ensures ExprEffects(st, ResolveExpr(st, e))
    decreases e, 1
  {
    match e
    case Assign(name, value) =>
      ExprEffectsHold(st, value);
      var m := ResolveExpr(st, value);
      LocalEffects(m, e, name);
      EffectsTrans(st, m, ResolveLocal(m, e, name));
    case Binary(left, _, right) =>
      ExprEffectsHold(st, left);
      ExprEffectsHold(ResolveExpr(st, left), right);
      EffectsTrans(st, ResolveExpr(st, left), ResolveExpr(ResolveExpr(st, left), right));
    case Call(callee, _, arguments) =>
      ExprEffectsHold(st, callee);
      ExprsEffectsHold(ResolveExpr(st, callee), arguments);
      EffectsTrans(st, ResolveExpr(st, callee), ResolveExprs(ResolveExpr(st, callee), arguments));
    case Get(obj, _) => ExprEffectsHold(st, obj);
    case Grouping(inner) => ExprEffectsHold(st, inner);
    case Literal(_) =>
    case Set(obj, _, value) =>
      ExprEffectsHold(st, value);
      ExprEffectsHold(ResolveExpr(st, value), obj);
      EffectsTrans(st, ResolveExpr(st, value), ResolveExpr(ResolveExpr(st, value), obj));
    case Super(_, _) =>
    case This(keyword) =>
      if st.currentClass != NoClass {
        LocalEffects(st, e, keyword);
      }
    case Logical(left, _, right) =>
      ExprEffectsHold(st, left);
      ExprEffectsHold(ResolveExpr(st, left), right);
      EffectsTrans(st, ResolveExpr(st, left), ResolveExpr(ResolveExpr(st, left), right));
    case Unary(_, right) => ExprEffectsHold(st, right);
    case Ternary(check, ifExpr, elseExpr) =>
      var m1 := ResolveExpr(st, check);
      var m2 := ResolveExpr(m1, ifExpr);
      ExprEffectsHold(st, check);
      ExprEffectsHold(m1, ifExpr);
      ExprEffectsHold(m2, elseExpr);
      EffectsTrans(st, m1, m2);
      EffectsTrans(st, m2, ResolveExpr(m2, elseExpr));
    case Variable(name) =>
      var n := |st.scopes|;
      var reported :=
        if n > 0 && name.lexeme in st.scopes[n - 1] && !st.scopes[n - 1][name.lexeme]
        then Error(st, name, OwnInitializer)
        else st;
      LocalEffects(reported, e, name);
      EffectsTrans(st, reported, ResolveLocal(reported, e, name));
  }

  lemma {:induction false} ExprsEffectsHold(st: RState, es: seq<Expr>)
    ensures ExprEffects(st, ResolveExprs(st, es))
    decreases es, 0
  {
    if |es| > 0 {
      var m := ResolveExpr(st, es[0]);
      ExprEffectsHold(st, es[0]);
      ExprsEffectsHold(m, es[1..]);
      EffectsTrans(st, m, ResolveExprs(m, es[1..]));
    }
  }

  /** Every depth handed to interpreter.resolve() names one of the scopes in force. */
  lemma DepthsInRange(st: RState, e: Expr)
    ensures var r := ResolveExpr(st, e);
      forall k :: |st.locals| <= k < |r.locals| ==> r.locals[k].depth < |st.scopes|
  {
    ExprEffectsHold(st, e);
  }

  /** At global scope nothing is resolved: globals are looked up dynamically. */
  lemma GlobalsUnresolved(st: RState, e: Expr)
    requires |st.scopes| == 0
    ensures ResolveExpr(st, e).locals == st.locals
  {
    var r := ResolveExpr(st, e);
    ExprEffectsHold(st, e);
    var k := |st.locals|;
    assert k < |r.locals| ==> r.locals[k].depth < |st.scopes|;
    assert r.locals[..k] == st.locals;
  }

  // ---------------------------------------------------------------------
  // The four errors

  /** A return statement is reported exactly when it is not inside a function. */
  lemma ReturnReported(st: RState, keyword: Token, value: Option<Expr>)
    ensures var r := ResolveReturn(st, keyword, value);
      st.currentFunction == NoFunction
      <==> |r.errors| > |st.errors| && r.errors[|st.errors|].message == TopLevelReturn
  {
    var r := ResolveReturn(st, keyword, value);
    if st.currentFunction == NoFunction {
      var reported := Error(st, keyword, TopLevelReturn);
      assert reported.errors[|st.errors|].message == TopLevelReturn;
      assert r.errors[..|reported.errors|] == reported.errors;
    } else if value.Some? {
      ExprEffectsHold(st, value.value);
      if |r.errors| > |st.errors| {
        assert ExprMessage(r.errors[|st.errors|].message);
        assert TopLevelReturn[6] != ThisOutsideClass[6] && TopLevelReturn[8] != OwnInitializer[8];
      }
    }
  }

  /** `this` is reported exactly when it is not inside a class. */
  lemma ThisReported(st: RState, e: Expr, keyword: Token)
    ensures var r := ResolveThis(st, e, keyword);
      st.currentClass == NoClass <==> r.errors == st.errors + [Report(keyword, ThisOutsideClass)]
  {
  }

  /**
   * `var a = a;` in a local scope reports the read of a in its own
   * initializer; at global scope it is allowed and resolves nothing.
   */
  lemma OwnInitializerReported(st: RState, name: Token, ref: Token)
    requires ref.lexeme == name.lexeme
    ensures var r := ResolveVar(st, name, Some(Variable(ref)));
      (|st.scopes| > 0 ==> Report(ref, OwnInitializer) in r.errors)
      && (|st.scopes| == 0 ==> r == st)
  {
    if |st.scopes| > 0 {
      var n := |st.scopes|;
      var declared := Declare(st, name);
      assert declared.scopes[n - 1][name.lexeme] == false;
      var read := ResolveExpr(declared, Variable(ref));
      assert read.errors[|declared.errors|] == Report(ref, OwnInitializer);
    }
  }

  /** Declaring a name twice in the same local scope is reported. */
  lemma RedeclarationReported(st: RState, a: Token, b: Token)
    requires |st.scopes| > 0 && a.lexeme == b.lexeme
    ensures Report(b, AlreadyDeclared) in ResolveVar(ResolveVar(st, a, None), b, None).errors
  {
    var first := ResolveVar(st, a, None);
    assert b.lexeme in first.scopes[|first.scopes| - 1];
  }

  /** Shadowing is allowed: `{ var a; }` reports nothing, whatever the enclosing scopes declare. */
  lemma ShadowingAllowed(st: RState, a: Token)
    ensures StmtFilled(Block([Some(Stmt.Var(a, None))]))
      && ResolveStmt(st, Block([Some(Stmt.Var(a, None))])).errors == st.errors
  {
    var inner := BeginScope(st);
    var ss := [Some(Stmt.Var(a, None))];
    assert SlotFilled(ss[0]);
    assert ss[1..] == [];
    var declared := ResolveSlot(inner, ss[0]);
    assert ss[0].value == Stmt.Var(a, None);
    assert ResolveStmt(inner, Stmt.Var(a, None)) == ResolveVar(inner, a, None);
    assert declared == ResolveVar(inner, a, None);
    assert ResolveStmts(inner, ss) == ResolveStmts(declared, []);
  }

  // ---------------------------------------------------------------------
  // Scopes that end

  /** Everything a block declares disappears when it ends. */
  lemma BlockScopesKept(st: RState, ss: seq<Option<Stmt>>)
    requires StmtsFilled(ss)
    ensures ResolveStmt(st, Block(ss)).scopes == st.scopes
  {
    var inner := BeginScope(st);
    var r := ResolveStmts(inner, ss);
    assert r.scopes[..|st.scopes|] == inner.scopes[..|st.scopes|] == st.scopes;
  }

  /** The parameters and locals of a function live in its own scope only. */
  lemma FunctionScopesKept(st: RState, f: FunctionDecl, kind: FunctionType)
    requires StmtsFilled(f.body)
    ensures ResolveFunction(st, f, kind).scopes == st.scopes
  {
    var entered := DeclareParams(BeginScope(st.(currentFunction := kind)), f.params);
    var r := ResolveStmts(entered, f.body);
    var n := |st.scopes|;
    assert entered.scopes[..n] == (st.scopes + [map[]])[..n] == st.scopes;
    assert r.scopes[..n] == entered.scopes[..n];
  }

  /**
   * A named function is defined in the enclosing local scope before its
   * body is resolved, so it can call itself; afterwards the scope holds
   * it as defined and nothing else changed.
   */
  lemma FunctionNameDefined(st: RState, f: FunctionDecl)
    requires StmtsFilled(f.body) && f.name.Some? && |st.scopes| > 0
    ensures var r := ResolveFunctionStmt(st, f); var n := |st.scopes|;
      r.scopes == st.scopes[..n - 1] + [st.scopes[n - 1][f.name.value.lexeme := true]]
  {
    var named := Define(Declare(st, f.name.value), f.name.value);
    NameDefined(st, f.name.value);
    FunctionScopesKept(named, f, InFunction);
  }

  /** declare() then define(): the innermost scope maps the name to true. */
  lemma NameDefined(st: RState, name: Token)
    requires |st.scopes| > 0
    ensures var n := |st.scopes|;
      Define(Declare(st, name), name).scopes == st.scopes[..n - 1] + [st.scopes[n - 1][name.lexeme := true]]
  {
    var n := |st.scopes|;
    var declared := Declare(st, name);
    assert declared.scopes[..n - 1] == st.scopes[..n - 1];
    assert declared.scopes[n - 1] == st.scopes[n - 1][name.lexeme := false];
    assert declared.scopes[n - 1][name.lexeme := true] == st.scopes[n - 1][name.lexeme := true];
  }

  /**
   * A class's name is defined in the enclosing local scope; its methods are
   * resolved one scope further in, a scope that holds only `this`, defined,
   * with the class kind set; and after the class the stack is back to the
   * enclosing scopes (with the name) and the class kind is restored.
   */
  lemma ClassNameDefined(st: RState, name: Token, methods: seq<FunctionDecl>)
    requires MethodsFilled(methods) && |st.scopes| > 0
    ensures var n := |st.scopes|; var body := ClassBody(st, name);
      body.scopes == st.scopes[..n - 1] + [st.scopes[n - 1][name.lexeme := true], map["this" := true]]
      && body.currentClass == InClass && body.currentFunction == st.currentFunction
    ensures var r := ResolveClass(st, name, methods); var n := |st.scopes|;
      r.scopes == st.scopes[..n - 1] + [st.scopes[n - 1][name.lexeme := true]] && r.currentClass == st.currentClass
  {
    var n := |st.scopes|;
    var named := Define(Declare(st.(currentClass := InClass), name), name);
    NameDefined(st.(currentClass := InClass), name);
    var withThis := ClassBody(st, name);
    assert withThis.scopes == named.scopes + [map["this" := true]];
    var resolved := ResolveMethods(withThis, methods);
    assert resolved.scopes[..n] == withThis.scopes[..n] == named.scopes;
  }

  /** Inside a method body (one scope in from the class's), `this` resolves one scope out, unless the body's scope shadows it. */
  lemma ThisInMethod(st: RState, name: Token, e: Expr, keyword: Token, locals: map<string, bool>)
    requires |st.scopes| > 0 && keyword.lexeme == "this" && "this" !in locals
    ensures var body := ClassBody(st, name);
      var inMethod := body.(scopes := body.scopes + [locals]);
      ResolveThis(inMethod, e, keyword) == inMethod.(locals := inMethod.locals + [Resolution(e, 1)])
  {
    var body := ClassBody(st, name);
    ClassNameDefined(st, name, []);
    var inMethod := body.(scopes := body.scopes + [locals]);
    var k := |inMethod.scopes|;
    assert "this" in inMethod.scopes[k - 2];
    assert FindScope(inMethod.scopes, "this", k - 1) == FindScope(inMethod.scopes, "this", k - 2) == Some(1);
  }
}
