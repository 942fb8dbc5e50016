/**
 * What Parser.java computes, rule by rule, as functions of the token list
 * and the parser's state (the index of the next token and the errors
 * reported through Lox.error so far, in order). A rule's outcome is the node
 * it built, or None when it threw a ParseError, together with the state at that moment.
 */
module LoxGrammar {
  import opened Wrappers
  import opened LoxTokens
  import opened LoxAst

  /** The index of the next token and the errors reported so far, oldest first. */
  datatype PState = PState(pos: nat, errors: seq<Report>)

  /** A rule's outcome: the node built, or None for a thrown ParseError, and the state then. */
  datatype Out<T> = Out(value: Option<T>, st: PState)

  /** The outcome of declaration(): a statement, or null after a recovered error. */
  datatype Declared = Declared(stmt: Option<Stmt>, st: PState)

  /** A token list the parser can walk: it ends with EOF. */
  predicate Wellformed(toks: seq<Token>) {
    |toks| > 0 && toks[|toks| - 1].tokenType == Eof
  }

  predicate Ready(toks: seq<Token>, st: PState) {
    Wellformed(toks) && st.pos < |toks|
  }

  /** `next` is a later state of the same parse: never behind, and the earlier reports kept as they were. */
  predicate Follows(toks: seq<Token>, st: PState, next: PState) {
    Ready(toks, next) && st.pos <= next.pos && st.errors <= next.errors
  }

  /** A rule that threw has reported at least one error on the way. */
  predicate Reported<T>(st: PState, r: Out<T>) {
    r.value.None? ==> |st.errors| < |r.st.errors|
  }

  /** The outcome of a rule that consumes at least one token when it succeeds. */
  predicate Advances<T>(toks: seq<Token>, st: PState, r: Out<T>) {
    Continues(toks, st, r) && (r.value.Some? ==> r.st.pos > st.pos)
  }

  /** The outcome of any rule: a later state, with a report for every throw. */
  predicate Continues<T>(toks: seq<Token>, st: PState, r: Out<T>) {
    Follows(toks, st, r.st) && Reported(st, r)
  }

  predicate AtEnd(toks: seq<Token>, pos: nat)
    requires pos < |toks|
  {
    toks[pos].tokenType == Eof
  }

  /** check(): the next token has type `t` (and is not EOF). */
  predicate Check(toks: seq<Token>, pos: nat, t: TokenType)
    requires pos < |toks|
  {
    !AtEnd(toks, pos) && toks[pos].tokenType == t
  }

  /** match()'s test: the next token has one of the types. */
  predicate CheckAny(toks: seq<Token>, pos: nat, types: seq<TokenType>)
    requires pos < |toks|
  {
    !AtEnd(toks, pos) && toks[pos].tokenType in types
  }

  /** advance(): step past the next token unless it is EOF. */
  function Advance(toks: seq<Token>, st: PState): (r: PState)
    requires Ready(toks, st)
    ensures Follows(toks, st, r) && r.errors == st.errors
    ensures r.pos == if AtEnd(toks, st.pos) then st.pos else st.pos + 1
  {
    if AtEnd(toks, st.pos) then st else PState(st.pos + 1, st.errors)
  }

  /**
   * error(token, message) without a throw: Lox.error receives the token
   * and the message, and parsing goes on.
   */
  function Log(st: PState, token: Token, message: string): PState {
    PState(st.pos, st.errors + [Report(token, message)])
  }

  /** error(peek(), message) thrown. */
  function Fail<T>(toks: seq<Token>, st: PState, message: string): Out<T>
    requires st.pos < |toks|
  {
    Out(None, Log(st, toks[st.pos], message))
  }

  /** consume(): the expected token, or a thrown error naming the next token. */
  function Consume(toks: seq<Token>, st: PState, t: TokenType, message: string): (r: Out<Token>)
    requires Ready(toks, st)
    ensures Continues(toks, st, r)
    ensures r.value.Some? ==> r.st.pos == st.pos + 1
  {
    if Check(toks, st.pos, t) then Out(Some(toks[st.pos]), Advance(toks, st)) else Fail(toks, st, message)
  }

  // ---------------------------------------------------------------------
  // Expressions. The second component of each `decreases` orders the rules
  // that call one another without consuming a token in between.

  function ExpressionRule(toks: seq<Token>, st: PState): (r: Out<Expr>)
    requires Ready(toks, st)
    ensures Advances(toks, st, r)
    decreases |toks| - st.pos, 18
  {
    AssignmentRule(toks, st)
  }

  /** assignment(): right-associative; a variable target makes Assign, a property target makes Set. */
  function AssignmentRule(toks: seq<Token>, st: PState): (r: Out<Expr>)
    requires Ready(toks, st)
    ensures Advances(toks, st, r)
    decreases |toks| - st.pos, 17
  {
    var lhs := TernaryRule(toks, st);
    if lhs.value.None? then lhs
    else if CheckAny(toks, lhs.st.pos, [Equal]) then
      var afterEquals := Advance(toks, lhs.st);
      var equals := toks[lhs.st.pos];
      var rhs := AssignmentRule(toks, afterEquals);
      if rhs.value.None? then rhs
      else match lhs.value.value
        case Variable(name) => Out(Some(Assign(name, rhs.value.value)), rhs.st)
        case Get(obj, name) => Out(Some(Set(obj, name, rhs.value.value)), rhs.st)
        case _ => Out(lhs.value, Log(rhs.st, equals, "Invalid assignment target."))
    else lhs
  }

  /** ternary(): `c ? t : e` with both branches parsed as ternaries again. */
  function TernaryRule(toks: seq<Token>, st: PState): (r: Out<Expr>)
    requires Ready(toks, st)
    ensures Advances(toks, st, r)
    decreases |toks| - st.pos, 16
  {
    var cond := OrRule(toks, st);
    if cond.value.None? || !CheckAny(toks, cond.st.pos, [Question]) then cond
    else TernaryBranches(toks, Advance(toks, cond.st), cond.value.value)
  }

  /** The two branches of a ternary, after its `?`. */
  function TernaryBranches(toks: seq<Token>, st: PState, cond: Expr): (r: Out<Expr>)
    requires Ready(toks, st)
    ensures Advances(toks, st, r)
    decreases |toks| - st.pos, 17
  {
    var ifExpr := TernaryRule(toks, st);
    if ifExpr.value.None? then ifExpr
    else
      var colon := Consume(toks, ifExpr.st, Colon, "Expect ':' in ternary expression.");
      if colon.value.None? then Out(None, colon.st)
      else
        var elseExpr := TernaryRule(toks, colon.st);
        if elseExpr.value.None? then elseExpr
        else Out(Some(Ternary(cond, ifExpr.value.value, elseExpr.value.value)), elseExpr.st)
  }

  /** or(): operands separated by `or`, folded to the left into Logical nodes. */
  function OrRule(toks: seq<Token>, st: PState): (r: Out<Expr>)
    requires Ready(toks, st)
    ensures Advances(toks, st, r)
    decreases |toks| - st.pos, 15
  {
    var first := AndRule(toks, st);
    if first.value.None? then first else OrLoop(toks, first.st, first.value.value)
  }

  /** The while loop of or(): each operator and operand folds into the left operand. */
  function OrLoop(toks: seq<Token>, st: PState, left: Expr): (r: Out<Expr>)
    requires Ready(toks, st)
    ensures Continues(toks, st, r)
    decreases |toks| - st.pos, 15
  {
    if !CheckAny(toks, st.pos, [Or]) then Out(Some(left), st)
    else
      var operator := toks[st.pos];
      var right := AndRule(toks, Advance(toks, st));
      if right.value.None? then right else OrLoop(toks, right.st, Logical(left, operator, right.value.value))
  }

  /** and(): operands separated by `and`, folded to the left into Logical nodes. */
  function AndRule(toks: seq<Token>, st: PState): (r: Out<Expr>)
    requires Ready(toks, st)
    ensures Advances(toks, st, r)
    decreases |toks| - st.pos, 13
  {
    var first := EqualityRule(toks, st);
    if first.value.None? then first else AndLoop(toks, first.st, first.value.value)
  }

  /** The while loop of and(): each operator and operand folds into the left operand. */
  function AndLoop(toks: seq<Token>, st: PState, left: Expr): (r: Out<Expr>)
    requires Ready(toks, st)
    ensures Continues(toks, st, r)
    decreases |toks| - st.pos, 13
  {
    if !CheckAny(toks, st.pos, [And]) then Out(Some(left), st)
    else
      var operator := toks[st.pos];
      var right := EqualityRule(toks, Advance(toks, st));
      if right.value.None? then right else AndLoop(toks, right.st, Logical(left, operator, right.value.value))
  }

  /** equality(): operands separated by `!=` or `==`, folded to the left. */
  function EqualityRule(toks: seq<Token>, st: PState): (r: Out<Expr>)
    requires Ready(toks, st)
    ensures Advances(toks, st, r)
    decreases |toks| - st.pos, 11
  {
    var first := ComparisonRule(toks, st);
    if first.value.None? then first else EqualityLoop(toks, first.st, first.value.value)
  }

  /** The while loop of equality(): each operator and operand folds into the left operand. */
  function EqualityLoop(toks: seq<Token>, st: PState, left: Expr): (r: Out<Expr>)
    requires Ready(toks, st)
    ensures Continues(toks, st, r)
    decreases |toks| - st.pos, 11
  {
    if !CheckAny(toks, st.pos, [BangEqual, EqualEqual]) then Out(Some(left), st)
    else
      var operator := toks[st.pos];
      var right := ComparisonRule(toks, Advance(toks, st));
      if right.value.None? then right else EqualityLoop(toks, right.st, Binary(left, operator, right.value.value))
  }

  /** comparison(): operands separated by `>`, `>=`, `<` or `<=`, folded to the left. */
  function ComparisonRule(toks: seq<Token>, st: PState): (r: Out<Expr>)
    requires Ready(toks, st)
    ensures Advances(toks, st, r)
    decreases |toks| - st.pos, 9
  {
    var first := TermRule(toks, st);
    if first.value.None? then first else ComparisonLoop(toks, first.st, first.value.value)
  }

  /** The while loop of comparison(): each operator and operand folds into the left operand. */
  function ComparisonLoop(toks: seq<Token>, st: PState, left: Expr): (r: Out<Expr>)
    requires Ready(toks, st)
    ensures Continues(toks, st, r)
    decreases |toks| - st.pos, 9
  {
    if !CheckAny(toks, st.pos, [Greater, GreaterEqual, Less, LessEqual]) then Out(Some(left), st)
    else
      var operator := toks[st.pos];
      var right := TermRule(toks, Advance(toks, st));
      if right.value.None? then right else ComparisonLoop(toks, right.st, Binary(left, operator, right.value.value))
  }

  /** term(): operands separated by `-` or `+`, folded to the left. */
  function TermRule(toks: seq<Token>, st: PState): (r: Out<Expr>)
    requires Ready(toks, st)
    ensures Advances(toks, st, r)
    decreases |toks| - st.pos, 7
  {
    var first := FactorRule(toks, st);
    if first.value.None? then first else TermLoop(toks, first.st, first.value.value)
  }

  /** The while loop of term(): each operator and operand folds into the left operand. */
  function TermLoop(toks: seq<Token>, st: PState, left: Expr): (r: Out<Expr>)
    requires Ready(toks, st)
    ensures Continues(toks, st, r)
    decreases |toks| - st.pos, 7
  {
    if !CheckAny(toks, st.pos, [Minus, Plus]) then Out(Some(left), st)
    else
      var operator := toks[st.pos];
      var right := FactorRule(toks, Advance(toks, st));
      if right.value.None? then right else TermLoop(toks, right.st, Binary(left, operator, right.value.value))
  }

  /** factor(): operands separated by `/` or `*`, folded to the left. */
  function FactorRule(toks: seq<Token>, st: PState): (r: Out<Expr>)
    requires Ready(toks, st)
    ensures Advances(toks, st, r)
    decreases |toks| - st.pos, 5
  {
    var first := UnaryRule(toks, st);
    if first.value.None? then first else FactorLoop(toks, first.st, first.value.value)
  }

  /** The while loop of factor(): each operator and operand folds into the left operand. */
  function FactorLoop(toks: seq<Token>, st: PState, left: Expr): (r: Out<Expr>)
    requires Ready(toks, st)
    ensures Continues(toks, st, r)
    decreases |toks| - st.pos, 5
  {
    if !CheckAny(toks, st.pos, [Slash, Star]) then Out(Some(left), st)
    else
      var operator := toks[st.pos];
      var right := UnaryRule(toks, Advance(toks, st));
      if right.value.None? then right else FactorLoop(toks, right.st, Binary(left, operator, right.value.value))
  }

  /** unary(): prefix `!` and `-` nest to the right; otherwise a call. */
  function UnaryRule(toks: seq<Token>, st: PState): (r: Out<Expr>)
    requires Ready(toks, st)
    ensures Advances(toks, st, r)
    decreases |toks| - st.pos, 3
  {
    if CheckAny(toks, st.pos, [Bang, Minus]) then
      var operator := toks[st.pos];
      var right := UnaryRule(toks, Advance(toks, st));
      if right.value.None? then right else Out(Some(Unary(operator, right.value.value)), right.st)
    else CallRule(toks, st)
  }

  /** call(): a primary, then any number of argument lists and property accesses. */
  function CallRule(toks: seq<Token>, st: PState): (r: Out<Expr>)
    requires Ready(toks, st)
    ensures Advances(toks, st, r)
    decreases |toks| - st.pos, 2
  {
    var callee := PrimaryRule(toks, st);
    if callee.value.None? then callee else CallLoop(toks, callee.st, callee.value.value)
  }

  function CallLoop(toks: seq<Token>, st: PState, expr: Expr): (r: Out<Expr>)
    requires Ready(toks, st)
    ensures Continues(toks, st, r)
    decreases |toks| - st.pos, 2
  {
    if CheckAny(toks, st.pos, [LeftParen]) then
      var call := FinishCallRule(toks, Advance(toks, st), expr);
      if call.value.None? then call else CallLoop(toks, call.st, call.value.value)
    else if CheckAny(toks, st.pos, [Dot]) then
      var name := Consume(toks, Advance(toks, st), Identifier, "Expect property name after '.'.");
      if name.value.None? then Out(None, name.st) else CallLoop(toks, name.st, Get(expr, name.value.value))
    else Out(Some(expr), st)
  }

  /** finishCall(): the arguments after `(` and the closing paren. */
  function FinishCallRule(toks: seq<Token>, st: PState, callee: Expr): (r: Out<Expr>)
    requires Ready(toks, st)
    ensures Advances(toks, st, r)
    decreases |toks| - st.pos, 20
  {
    var args := if Check(toks, st.pos, RightParen) then Out(Some([]), st) else ArgumentsRule(toks, st, []);
    if args.value.None? then Out(None, args.st)
    else
      var paren := Consume(toks, args.st, RightParen, "Expect ')' after arguments");
      if paren.value.None? then Out(None, paren.st)
      else Out(Some(Call(callee, paren.value.value, args.value.value)), paren.st)
  }

  /** The do-while loop of finishCall(): a 256th argument is reported without a throw. */
  function ArgumentsRule(toks: seq<Token>, st: PState, args: seq<Expr>): (r: Out<seq<Expr>>)
    requires Ready(toks, st)
    ensures Continues(toks, st, r)
    ensures r.value.Some? ==> r.st.pos > st.pos && args <= r.value.value
    decreases |toks| - st.pos, 19
  {
    var checked := if |args| >= 255 then Log(st, toks[st.pos], "Can't have more than 255 arguments.") else st;
    var arg := ExpressionRule(toks, checked);
    if arg.value.None? then Out(None, arg.st)
    else if CheckAny(toks, arg.st.pos, [Comma]) then ArgumentsRule(toks, Advance(toks, arg.st), args + [arg.value.value])
    else Out(Some(args + [arg.value.value]), arg.st)
  }

  /** primary(): a literal, a variable, or a parenthesised expression; anything else is an error. */
  function PrimaryRule(toks: seq<Token>, st: PState): (r: Out<Expr>)
    requires Ready(toks, st)
    ensures Advances(toks, st, r)
    decreases |toks| - st.pos, 1
  {
    if CheckAny(toks, st.pos, [False]) then Out(Some(Literal(BoolValue(false))), Advance(toks, st))
    else if CheckAny(toks, st.pos, [True]) then Out(Some(Literal(BoolValue(true))), Advance(toks, st))
    else if CheckAny(toks, st.pos, [Nil]) then Out(Some(Literal(NoValue)), Advance(toks, st))
    else if CheckAny(toks, st.pos, [NumberTok, StringTok]) then Out(Some(Literal(toks[st.pos].literal)), Advance(toks, st))
    else if CheckAny(toks, st.pos, [Identifier]) then Out(Some(Variable(toks[st.pos])), Advance(toks, st))
    else if CheckAny(toks, st.pos, [LeftParen]) then
      var inner := ExpressionRule(toks, Advance(toks, st));
      if inner.value.None? then inner
      else
        var paren := Consume(toks, inner.st, RightParen, "Expect ')' after expression.");
        if paren.value.None? then Out(None, paren.st) else Out(Some(Grouping(inner.value.value)), paren.st)
    else Fail(toks, st, "Expect expression.")
  }

  // ---------------------------------------------------------------------
  // Statements

  /** The keywords synchronize() stops before. */
  predicate StartsStatement(t: TokenType) {
    t in {TokenType.Class, Fun, TokenType.Var, For, TokenType.If, TokenType.While, TokenType.Print, TokenType.Return}
  }

  /** synchronize(): skip at least one token, then stop after a `;`, before a statement keyword, or at EOF. */
  function Synchronize(toks: seq<Token>, st: PState): (r: PState)
    requires Ready(toks, st) && (st.pos > 0 || !AtEnd(toks, st.pos))
    ensures Follows(toks, st, r) && r.errors == st.errors
  {
    SyncLoop(toks, Advance(toks, st))
  }

  function SyncLoop(toks: seq<Token>, st: PState): (r: PState)
    requires Ready(toks, st) && st.pos > 0
    ensures Follows(toks, st, r) && r.errors == st.errors
    decreases |toks| - st.pos
  {
    if AtEnd(toks, st.pos) || toks[st.pos - 1].tokenType == Semicolon || StartsStatement(toks[st.pos].tokenType) then st
    else SyncLoop(toks, Advance(toks, st))
  }

  /** declaration(): a class, function or variable declaration, or a statement; after a ParseError, null. */
  function DeclarationRule(toks: seq<Token>, st: PState): (r: Declared)
    requires Ready(toks, st) && !AtEnd(toks, st.pos)
    ensures Follows(toks, st, r.st) && r.st.pos > st.pos && (r.stmt.None? ==> st.errors < r.st.errors)
    decreases |toks| - st.pos, 24
  {
    var inner := DeclarationBody(toks, st);
    if inner.value.Some? then Declared(inner.value, inner.st) else Declared(None, Synchronize(toks, inner.st))
  }

  /** The try block of declaration(): dispatch on `class`, `fun` and `var`. */
  function DeclarationBody(toks: seq<Token>, st: PState): (r: Out<Stmt>)
    requires Ready(toks, st)
    ensures Advances(toks, st, r)
    decreases |toks| - st.pos, 23
  {
    if CheckAny(toks, st.pos, [TokenType.Class]) then ClassRule(toks, Advance(toks, st))
    else if CheckAny(toks, st.pos, [Fun]) then
      var f := FunctionRule(toks, Advance(toks, st), "function");
      if f.value.None? then Out(None, f.st) else Out(Some(Stmt.Function(f.value.value)), f.st)
    else if CheckAny(toks, st.pos, [TokenType.Var]) then VarDeclarationRule(toks, Advance(toks, st))
    else StatementRule(toks, st)
  }

  /** classDeclaration(): name, `{`, methods up to `}`; there is no superclass. */
  function ClassRule(toks: seq<Token>, st: PState): (r: Out<Stmt>)
    requires Ready(toks, st)
    ensures Advances(toks, st, r)
    decreases |toks| - st.pos, 23
  {
    var name := Consume(toks, st, Identifier, "Expect class name.");
    if name.value.None? then Out(None, name.st)
    else
      var brace := Consume(toks, name.st, LeftBrace, "Expect '{' before class body.");
      if brace.value.None? then Out(None, brace.st)
      else
        var methods := MethodsRule(toks, brace.st, []);
        if methods.value.None? then Out(None, methods.st)
        else
          var close := Consume(toks, methods.st, RightBrace, "Expect '}' after class body.");
          if close.value.None? then Out(None, close.st)
          else Out(Some(Stmt.Class(name.value.value, None, methods.value.value)), close.st)
  }

  function MethodsRule(toks: seq<Token>, st: PState, methods: seq<FunctionDecl>): (r: Out<seq<FunctionDecl>>)
    requires Ready(toks, st)
    ensures Follows(toks, st, r.st) && (r.value.Some? ==> methods <= r.value.value) && Reported(st, r)
    decreases |toks| - st.pos, 24
  {
    if Check(toks, st.pos, RightBrace) || AtEnd(toks, st.pos) then Out(Some(methods), st)
    else
      var f := FunctionRule(toks, st, "method");
      if f.value.None? then Out(None, f.st) else MethodsRule(toks, f.st, methods + [f.value.value])
  }

  /** function(kind): name, parameter list, and block body; a 256th parameter is reported without a throw. */
  function FunctionRule(toks: seq<Token>, st: PState, kind: string): (r: Out<FunctionDecl>)
    requires Ready(toks, st)
    ensures Advances(toks, st, r)
    decreases |toks| - st.pos, 23
  {
    var name := Consume(toks, st, Identifier, "Expect " + kind + " name.");
    if name.value.None? then Out(None, name.st)
    else
      var paren := Consume(toks, name.st, LeftParen, "Expect '(' after " + kind + " name.");
      if paren.value.None? then Out(None, paren.st)
      else
        FunctionParameters(toks, paren.st, kind, name.value.value)
  }

  /** The parameter list of function(kind), after its `(`, and the rest of the declaration. */
  function FunctionParameters(toks: seq<Token>, st: PState, kind: string, name: Token): (r: Out<FunctionDecl>)
    requires Ready(toks, st)
    ensures Advances(toks, st, r)
    decreases |toks| - st.pos, 23
  {
    var params := if Check(toks, st.pos, RightParen) then Out(Some([]), st) else ParametersRule(toks, st, []);
    if params.value.None? then Out(None, params.st)
    else FunctionBody(toks, params.st, kind, name, params.value.value)
  }

  /** The end of function(kind): `)`, `{` and the body, once the name and parameters are read. */
  function FunctionBody(toks: seq<Token>, st: PState, kind: string, name: Token, params: seq<Token>): (r: Out<FunctionDecl>)
    requires Ready(toks, st)
    ensures Advances(toks, st, r)
    decreases |toks| - st.pos, 22
  {
    var close := Consume(toks, st, RightParen, "Expect ')' after parameters.");
    if close.value.None? then Out(None, close.st)
    else
      var brace := Consume(toks, close.st, LeftBrace, "Expect '{' before " + kind + " body.");
      if brace.value.None? then Out(None, brace.st)
      else
        var body := BlockRule(toks, brace.st);
        if body.value.None? then Out(None, body.st)
        else Out(Some(FunctionDecl(Some(name), params, body.value.value)), body.st)
  }

  function ParametersRule(toks: seq<Token>, st: PState, params: seq<Token>): (r: Out<seq<Token>>)
    requires Ready(toks, st)
    ensures Follows(toks, st, r.st) && (r.value.Some? ==> params <= r.value.value) && Reported(st, r)
    decreases |toks| - st.pos, 0
  {
    var checked := if |params| >= 255 then Log(st, toks[st.pos], "Can't have more than 255 parameters.") else st;
    var param := Consume(toks, checked, Identifier, "Expect parameter name.");
    if param.value.None? then Out(None, param.st)
    else if CheckAny(toks, param.st.pos, [Comma]) then ParametersRule(toks, Advance(toks, param.st), params + [param.value.value])
    else Out(Some(params + [param.value.value]), param.st)
  }

  /** varDeclaration(): name, optional `= initializer`, `;`. */
  function VarDeclarationRule(toks: seq<Token>, st: PState): (r: Out<Stmt>)
    requires Ready(toks, st)
    ensures Advances(toks, st, r)
    decreases |toks| - st.pos, 21
  {
    var name := Consume(toks, st, Identifier, "Expect variable name.");
    if name.value.None? then Out(None, name.st)
    else
      var init := if CheckAny(toks, name.st.pos, [Equal]) then OptionalExpression(toks, Advance(toks, name.st)) else Out(Some(None), name.st);
      if init.value.None? then Out(None, init.st)
      else
        var semi := Consume(toks, init.st, Semicolon, "Expect ';' after variable declaration.");
        if semi.value.None? then Out(None, semi.st) else Out(Some(Stmt.Var(name.value.value, init.value.value)), semi.st)
  }

  /** statement(): dispatch on the first token; anything else is an expression statement. */
  function StatementRule(toks: seq<Token>, st: PState): (r: Out<Stmt>)
    requires Ready(toks, st)
    ensures Advances(toks, st, r)
    decreases |toks| - st.pos, 22
  {
    if CheckAny(toks, st.pos, [For]) then ForRule(toks, Advance(toks, st))
    else if CheckAny(toks, st.pos, [TokenType.If]) then IfRule(toks, Advance(toks, st))
    else if CheckAny(toks, st.pos, [TokenType.Print]) then PrintRule(toks, Advance(toks, st))
    else if CheckAny(toks, st.pos, [TokenType.Return]) then ReturnRule(toks, Advance(toks, st))
    else if CheckAny(toks, st.pos, [TokenType.While]) then WhileRule(toks, Advance(toks, st))
    else if CheckAny(toks, st.pos, [LeftBrace]) then
      var body := BlockRule(toks, Advance(toks, st));
      if body.value.None? then Out(None, body.st) else Out(Some(Block(body.value.value)), body.st)
    else ExpressionStatementRule(toks, st)
  }

  /** The while loop a for statement stands for, with its initializer and increment in blocks when present. */
  function Desugar(init: Option<Stmt>, cond: Option<Expr>, incr: Option<Expr>, body: Stmt): Stmt {
    var looped := if incr.Some? then Block([Some(body), Some(Expression(incr.value))]) else body;
    var loop := Stmt.While(if cond.Some? then cond.value else Literal(BoolValue(true)), looped);
    if init.Some? then Block([Some(init.value), Some(loop)]) else loop
  }

  /** forStatement(): the three clauses, each optional, and the body, desugared to a while loop. */
  function ForRule(toks: seq<Token>, st: PState): (r: Out<Stmt>)
    requires Ready(toks, st)
    ensures Advances(toks, st, r)
    decreases |toks| - st.pos, 21
  {
    var paren := Consume(toks, st, LeftParen, "Expect '(' after 'for'.");
    if paren.value.None? then Out(None, paren.st)
    else
      var init := ForInitializer(toks, paren.st);
      if init.value.None? then Out(None, init.st) else ForCondition(toks, init.st, init.value.value)
  }

  /** The first clause of a for: nothing before `;`, a variable declaration, or an expression statement. */
  function ForInitializer(toks: seq<Token>, st: PState): (r: Out<Option<Stmt>>)
    requires Ready(toks, st)
    ensures Advances(toks, st, r)
    decreases |toks| - st.pos, 22
  {
    if CheckAny(toks, st.pos, [Semicolon]) then Out(Some(None), Advance(toks, st))
    else
      var s := if CheckAny(toks, st.pos, [TokenType.Var]) then VarDeclarationRule(toks, Advance(toks, st))
               else ExpressionStatementRule(toks, st);
      if s.value.None? then Out(None, s.st) else Out(Some(s.value), s.st)
  }

  /** The second clause of a for: an optional condition and its `;`. */
  function ForCondition(toks: seq<Token>, st: PState, init: Option<Stmt>): (r: Out<Stmt>)
    requires Ready(toks, st)
    ensures Advances(toks, st, r)
    decreases |toks| - st.pos, 21
  {
    var cond := if Check(toks, st.pos, Semicolon) then Out(Some(None), st) else OptionalExpression(toks, st);
    if cond.value.None? then Out(None, cond.st)
    else
      var semi := Consume(toks, cond.st, Semicolon, "Expect ';' after loop condition.");
      if semi.value.None? then Out(None, semi.st) else ForIncrement(toks, semi.st, init, cond.value.value)
  }

  /** The third clause of a for: an optional increment, `)`, and the body. */
  function ForIncrement(toks: seq<Token>, st: PState, init: Option<Stmt>, cond: Option<Expr>): (r: Out<Stmt>)
    requires Ready(toks, st)
    ensures Advances(toks, st, r)
    decreases |toks| - st.pos, 21
  {
    var incr := if Check(toks, st.pos, RightParen) then Out(Some(None), st) else OptionalExpression(toks, st);
    if incr.value.None? then Out(None, incr.st)
    else
      var close := Consume(toks, incr.st, RightParen, "Expect ')' after for clauses.");
      if close.value.None? then Out(None, close.st)
      else
        var body := StatementRule(toks, close.st);
        if body.value.None? then body
        else Out(Some(Desugar(init, cond, incr.value.value, body.value.value)), body.st)
  }

  /** An expression that fills an optional slot. */
  function OptionalExpression(toks: seq<Token>, st: PState): (r: Out<Option<Expr>>)
    requires Ready(toks, st)
    ensures Follows(toks, st, r.st) && (r.value.Some? ==> r.st.pos > st.pos && r.value.value.Some?) && Reported(st, r)
    decreases |toks| - st.pos, 19
  {
    var e := ExpressionRule(toks, st);
    if e.value.None? then Out(None, e.st) else Out(Some(e.value), e.st)
  }

  /** ifStatement(): the else branch, if any, belongs to this (the nearest) if. */
  function IfRule(toks: seq<Token>, st: PState): (r: Out<Stmt>)
    requires Ready(toks, st)
    ensures Advances(toks, st, r)
    decreases |toks| - st.pos, 21
  {
    var paren := Consume(toks, st, LeftParen, "Expect '(' after 'if'.");
    if paren.value.None? then Out(None, paren.st)
    else
      var cond := ExpressionRule(toks, paren.st);
      if cond.value.None? then Out(None, cond.st)
      else
        var close := Consume(toks, cond.st, RightParen, "Expect ')' after if condition.");
        if close.value.None? then Out(None, close.st) else IfBranches(toks, close.st, cond.value.value)
  }

  /** The branches of an if: a statement, then an else branch when `else` follows it at once. */
  function IfBranches(toks: seq<Token>, st: PState, cond: Expr): (r: Out<Stmt>)
    requires Ready(toks, st)
    ensures Advances(toks, st, r)
    decreases |toks| - st.pos, 23
  {
    var thenBranch := StatementRule(toks, st);
    if thenBranch.value.None? then thenBranch
    else if CheckAny(toks, thenBranch.st.pos, [Else]) then
      var elseBranch := StatementRule(toks, Advance(toks, thenBranch.st));
      if elseBranch.value.None? then elseBranch
      else Out(Some(Stmt.If(cond, thenBranch.value.value, elseBranch.value)), elseBranch.st)
    else Out(Some(Stmt.If(cond, thenBranch.value.value, None)), thenBranch.st)
  }

  /** printStatement(): an expression and `;`. */
  function PrintRule(toks: seq<Token>, st: PState): (r: Out<Stmt>)
    requires Ready(toks, st)
    ensures Advances(toks, st, r)
    decreases |toks| - st.pos, 21
  {
    var value := ExpressionRule(toks, st);
    if value.value.None? then Out(None, value.st)
    else
      var semi := Consume(toks, value.st, Semicolon, "Expect ';' after value.");
      if semi.value.None? then Out(None, semi.st) else Out(Some(Stmt.Print(value.value.value)), semi.st)
  }

  /** returnStatement(): the `return` keyword just consumed, an optional value, and `;`. */
  function ReturnRule(toks: seq<Token>, st: PState): (r: Out<Stmt>)
    requires Ready(toks, st) && st.pos > 0
    ensures Advances(toks, st, r)
    decreases |toks| - st.pos, 21
  {
    var keyword := toks[st.pos - 1];
    var value := if Check(toks, st.pos, Semicolon) then Out(Some(None), st) else OptionalExpression(toks, st);
    if value.value.None? then Out(None, value.st)
    else
      var semi := Consume(toks, value.st, Semicolon, "Expect ';' after return value.");
      if semi.value.None? then Out(None, semi.st) else Out(Some(Stmt.Return(keyword, value.value.value)), semi.st)
  }

  /** whileStatement(): a parenthesised condition and a body. */
  function WhileRule(toks: seq<Token>, st: PState): (r: Out<Stmt>)
    requires Ready(toks, st)
    ensures Advances(toks, st, r)
    decreases |toks| - st.pos, 21
  {
    var paren := Consume(toks, st, LeftParen, "Expect '(' after 'while'.");
    if paren.value.None? then Out(None, paren.st)
    else
      var cond := ExpressionRule(toks, paren.st);
      if cond.value.None? then Out(None, cond.st)
      else
        var close := Consume(toks, cond.st, RightParen, "Expect ')' after condition.");
        if close.value.None? then Out(None, close.st)
        else
          var body := StatementRule(toks, close.st);
          if body.value.None? then body else Out(Some(Stmt.While(cond.value.value, body.value.value)), body.st)
  }

  /** block(): declarations up to `}` (or EOF, which the closing consume then reports). */
  function BlockRule(toks: seq<Token>, st: PState): (r: Out<seq<Option<Stmt>>>)
    requires Ready(toks, st)
    ensures Advances(toks, st, r)
    decreases |toks| - st.pos, 26
  {
    BlockLoop(toks, st, [])
  }

  function BlockLoop(toks: seq<Token>, st: PState, stmts: seq<Option<Stmt>>): (r: Out<seq<Option<Stmt>>>)
    requires Ready(toks, st)
    ensures Advances(toks, st, r)
    decreases |toks| - st.pos, 25
  {
    if !Check(toks, st.pos, RightBrace) && !AtEnd(toks, st.pos) then
      var d := DeclarationRule(toks, st);
      BlockLoop(toks, d.st, stmts + [d.stmt])
    else
      var close := Consume(toks, st, RightBrace, "Expect '}' after block.");
      if close.value.None? then Out(None, close.st) else Out(Some(stmts), close.st)
  }

  /** expressionStatement(): an expression and `;`. */
  function ExpressionStatementRule(toks: seq<Token>, st: PState): (r: Out<Stmt>)
    requires Ready(toks, st)
    ensures Advances(toks, st, r)
    decreases |toks| - st.pos, 21
  {
    var e := ExpressionRule(toks, st);
    if e.value.None? then Out(None, e.st)
    else
      var semi := Consume(toks, e.st, Semicolon, "Expect ';' after expression.");
      if semi.value.None? then Out(None, semi.st) else Out(Some(Expression(e.value.value)), semi.st)
  }

  /** parse(): one entry per declaration until EOF, null for each declaration abandoned after an error. */
  function ParseLoop(toks: seq<Token>, st: PState, stmts: seq<Option<Stmt>>): (r: (seq<Option<Stmt>>, PState))
    requires Ready(toks, st)
    ensures Follows(toks, st, r.1) && AtEnd(toks, r.1.pos) && stmts <= r.0
    decreases |toks| - st.pos
  {
    if AtEnd(toks, st.pos) then (stmts, st)
    else
      var d := DeclarationRule(toks, st);
      ParseLoop(toks, d.st, stmts + [d.stmt])
  }

  /** parse() on a fresh parser: the statements and the reports; a token list that is only EOF gives no statement. */
  function ParseRule(toks: seq<Token>): (r: (seq<Option<Stmt>>, seq<Report>))
    requires Wellformed(toks)
    ensures r.0 == [] <==> toks[0].tokenType == Eof
  {
    var (stmts, st) := ParseLoop(toks, PState(0, []), []);
    (stmts, st.errors)
  }
}
