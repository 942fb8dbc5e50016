/**
 * jlox's Resolver (Resolver.java): a static pass over the syntax tree that
 * keeps a stack of block scopes, reports scope errors through Lox.error and
 * tells the interpreter how far out each local variable lives. Every method
 * is proved to leave the resolver in the state the matching function of
 * LoxResolution computes.
 */
module LoxResolver {
  import opened Wrappers
  import opened LoxTokens
  import opened LoxAst
  import opened LoxResolution

  class Resolver {
    /** The block scopes, innermost last; each maps a name to whether it is defined yet. */
    var scopes: seq<map<string, bool>>
    var currentFunction: FunctionType
    var currentClass: ClassType
    /** The calls made to Lox.error, in order. */
    var errors: seq<Report>
    /** The calls made to interpreter.resolve(expr, depth), in order. */
    var locals: seq<Resolution>

    constructor ()
      ensures State() == RState([], NoFunction, NoClass, [], [])
    {
      scopes := [];
      currentFunction := NoFunction;
      currentClass := NoClass;
      errors := [];
      locals := [];
    }

    function State(): RState
      reads this
    {
      RState(scopes, currentFunction, currentClass, errors, locals)
    }

    /** resolve(List<Stmt>): each statement in order. */
    method Resolve(statements: seq<Option<Stmt>>)
      requires StmtsFilled(statements)
      modifies this
      ensures State() == ResolveStmts(old(State()), statements)
      decreases statements, 2
    {
      for i := 0 to |statements|
        invariant ResolveStmts(State(), statements[i..]) == ResolveStmts(old(State()), statements)
      {
        assert statements[i..][0] == statements[i] && statements[i..][1..] == statements[i + 1..];
        ResolveSlot(statements[i]);
      }
    }

    /** One filled slot of a statement list. */
    method ResolveSlot(o: Option<Stmt>)
      requires SlotFilled(o)
      modifies this
      ensures State() == LoxResolution.ResolveSlot(old(State()), o)
      decreases o, 4
    {
      ResolveStatement(o.value);
    }

    method ResolveStatement(s: Stmt)
      requires StmtFilled(s)
      modifies this
      ensures State() == ResolveStmt(old(State()), s)
      decreases s, 3
    {
      match s
      case Block(statements) =>
        BeginScope();
        Resolve(statements);
        EndScope();
      case Class(name, _, methods) => VisitClass(name, methods);
      case Expression(e) => ResolveExpression(e);
      case Function(f) => VisitFunction(f);
      case If(_, _, _) => VisitIf(s);
      case Print(e) => ResolveExpression(e);
      case Return(keyword, value) => VisitReturn(keyword, value);
      case Var(name, init) => VisitVar(name, init);
      case While(condition, body) =>
        ResolveExpression(condition);
        ResolveStatement(body);
    }

    method ResolveExpression(e: Expr)
      modifies this
      ensures State() == ResolveExpr(old(State()), e)
      decreases e, 1
    {
      match e
      case Assign(name, value) =>
        ResolveExpression(value);
        ResolveLocal(e, name);
      case Binary(left, _, right) =>
        ResolveExpression(left);
        ResolveExpression(right);
      case Call(callee, _, arguments) =>
        ResolveExpression(callee);
        ResolveArguments(arguments);
      case Get(obj, _) => ResolveExpression(obj);
      case Grouping(inner) => ResolveExpression(inner);
      case Literal(_) =>
      case Set(obj, _, value) =>
        ResolveExpression(value);
        ResolveExpression(obj);
      case Super(_, _) =>
      case This(keyword) => VisitThis(e, keyword);
      case Logical(left, _, right) =>
        ResolveExpression(left);
        ResolveExpression(right);
      case Unary(_, right) => ResolveExpression(right);
      case Ternary(check, ifExpr, elseExpr) =>
        ResolveExpression(check);
        ResolveExpression(ifExpr);
        ResolveExpression(elseExpr);
      case Variable(name) => VisitVariable(e, name);
    }

    /** The argument loop of visitCallExpr(). */
    method ResolveArguments(arguments: seq<Expr>)
      modifies this
      ensures State() == ResolveExprs(old(State()), arguments)
      decreases arguments, 0
    {
      for i := 0 to |arguments|
        invariant ResolveExprs(State(), arguments[i..]) == ResolveExprs(old(State()), arguments)
      {
        assert arguments[i..][0] == arguments[i] && arguments[i..][1..] == arguments[i + 1..];
        ResolveExpression(arguments[i]);
      }
    }

    method VisitThis(e: Expr, keyword: Token)
      modifies this
      ensures State() == ResolveThis(old(State()), e, keyword)
    {
      if currentClass == NoClass {
        LoxError(keyword, ThisOutsideClass);
        return;
      }
      ResolveLocal(e, keyword);
    }

    method VisitVariable(e: Expr, name: Token)
      modifies this
      ensures State() == ResolveVariable(old(State()), e, name)
    {
      if |scopes| > 0 && name.lexeme in scopes[|scopes| - 1] && !scopes[|scopes| - 1][name.lexeme] {
        LoxError(name, OwnInitializer);
      }
      ResolveLocal(e, name);
    }

    method VisitClass(name: Token, methods: seq<FunctionDecl>)
      requires MethodsFilled(methods)
      modifies this
      ensures State() == ResolveClass(old(State()), name, methods)
      decreases methods, 2
    {
      var enclosingClass := currentClass;
      currentClass := InClass;
      Declare(name);
      Define(name);
      BeginScope();
      scopes := scopes[..|scopes| - 1] + [scopes[|scopes| - 1]["this" := true]];
      ghost var withThis := State();
      for i := 0 to |methods|
        invariant ResolveMethods(State(), methods[i..]) == ResolveMethods(withThis, methods)
      {
        assert methods[i..][0] == methods[i] && methods[i..][1..] == methods[i + 1..];
        ResolveFunction(methods[i], InMethod);
      }
      EndScope();
      currentClass := enclosingClass;
    }

    method VisitFunction(f: FunctionDecl)
      requires StmtsFilled(f.body)
      modifies this
      ensures State() == ResolveFunctionStmt(old(State()), f)
      decreases f, 1
    {
      if f.name.Some? {
        Declare(f.name.value);
        Define(f.name.value);
      }
      ResolveFunction(f, InFunction);
    }

    method VisitIf(s: Stmt)
      requires s.If? && StmtFilled(s)
      modifies this
      ensures State() == ResolveIf(old(State()), s)
      decreases s, 2
    {
      ResolveExpression(s.condition);
      ResolveStatement(s.thenBranch);
      if s.elseBranch.Some? {
        ResolveStatement(s.elseBranch.value);
      }
    }

    method VisitReturn(keyword: Token, value: Option<Expr>)
      modifies this
      ensures State() == ResolveReturn(old(State()), keyword, value)
    {
      if currentFunction == NoFunction {
        LoxError(keyword, TopLevelReturn);
      }
      if value.Some? {
        ResolveExpression(value.value);
      }
    }

    method VisitVar(name: Token, init: Option<Expr>)
      modifies this
      ensures State() == ResolveVar(old(State()), name, init)
    {
      Declare(name);
      if init.Some? {
        ResolveExpression(init.value);
      }
      Define(name);
    }

    method BeginScope()
      modifies this
      ensures State() == LoxResolution.BeginScope(old(State()))
    {
      scopes := scopes + [map[]];
    }

    method EndScope()
      requires |scopes| > 0
      modifies this
      ensures State() == LoxResolution.EndScope(old(State()))
    {
      scopes := scopes[..|scopes| - 1];
    }

    /** Lox.error(token, message). */
    method LoxError(token: Token, message: string)
      modifies this
      ensures State() == Error(old(State()), token, message)
    {
      errors := errors + [Report(token, message)];
    }

    method Declare(name: Token)
      modifies this
      ensures State() == LoxResolution.Declare(old(State()), name)
    {
      if |scopes| == 0 {
        return;
      }
      var scope := scopes[|scopes| - 1];
      if name.lexeme in scope {
        LoxError(name, AlreadyDeclared);
      }
      scopes := scopes[..|scopes| - 1] + [scope[name.lexeme := false]];
    }

    method Define(name: Token)
      modifies this
      ensures State() == LoxResolution.Define(old(State()), name)
    {
      if |scopes| == 0 {
        return;
      }
      scopes := scopes[..|scopes| - 1] + [scopes[|scopes| - 1][name.lexeme := true]];
    }

    /** resolveLocal(): search from the innermost scope outwards. */
    method ResolveLocal(e: Expr, name: Token)
      modifies this
      ensures State() == LoxResolution.ResolveLocal(old(State()), e, name)
    {
      var i := |scopes| - 1;
      while i >= 0
        invariant -1 <= i < |scopes| && State() == old(State())
        invariant FindScope(scopes, name.lexeme, i) == Distance(scopes, name.lexeme)
        decreases i + 1
      {
        if name.lexeme in scopes[i] {
          locals := locals + [Resolution(e, |scopes| - 1 - i)];
          return;
        }
        i := i - 1;
      }
    }

    /** resolveFunction(): parameters and body in one fresh scope, with the function kind set for the body. */
    method ResolveFunction(f: FunctionDecl, kind: FunctionType)
      requires StmtsFilled(f.body)
      modifies this
      ensures State() == LoxResolution.ResolveFunction(old(State()), f, kind)
      decreases f, 0
    {
      var enclosingFunction := currentFunction;
      currentFunction := kind;
      BeginScope();
      ghost var entered := State();
      for i := 0 to |f.params|
        invariant DeclareParams(State(), f.params[i..]) == DeclareParams(entered, f.params)
      {
        assert f.params[i..][0] == f.params[i] && f.params[i..][1..] == f.params[i + 1..];
        Declare(f.params[i]);
        Define(f.params[i]);
      }
      Resolve(f.body);
      EndScope();
      currentFunction := enclosingFunction;
    }
  }
}
