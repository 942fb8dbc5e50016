/**
 * jlox's Parser: a recursive-descent parser that walks a token list with a
 * cursor and reports errors as it goes (Parser.java). Every method is proved
 * to leave the parser in the state, and to return the node, that the
 * matching rule of LoxGrammar computes; a ParseError thrown by the Java code
 * is a None result, passed up with `:-` until declaration() catches it.
 */
module LoxParser {
  import opened Wrappers
  import opened LoxTokens
  import opened LoxAst
  import opened LoxGrammar

  class Parser {
    const tokens: seq<Token>
    /** The index of the next token. */
    var current: nat
    /** The errors reported through Lox.error, oldest first. */
    var errors: seq<Report>

    constructor (tokens: seq<Token>)
      requires Wellformed(tokens)
      ensures this.tokens == tokens && State() == PState(0, []) && Valid()
    {
      this.tokens := tokens;
      current := 0;
      errors := [];
    }

    function State(): PState
      reads this
    {
      PState(current, errors)
    }

    predicate Valid()
      reads this
    {
      Ready(tokens, State())
    }

    /** isAtEnd(): the cursor is on EOF, as it always is on the last token. */
    predicate IsAtEnd()
      requires Valid()
      reads this
      ensures IsAtEnd() <==> AtEnd(tokens, current)
      ensures current == |tokens| - 1 ==> IsAtEnd()
    {
      tokens[current].tokenType == Eof
    }

    /** check(type): the next token has the type; never true of EOF. */
    predicate Check(t: TokenType)
      requires Valid()
      reads this
      ensures Check(t) <==> LoxGrammar.Check(tokens, current, t)
      ensures t == Eof ==> !Check(t)
    {
      !IsAtEnd() && tokens[current].tokenType == t
    }

    /** peek(): the token under the cursor, which is EOF exactly at the end. */
    function Peek(): (r: Token)
      requires Valid()
      reads this
      ensures r == tokens[current] && (r.tokenType == Eof <==> IsAtEnd())
    {
      tokens[current]
    }

    /** previous(): the token consumed last, the one just behind the cursor. */
    function Previous(): (r: Token)
      requires Valid() && current > 0
      reads this
      ensures tokens[..current] == tokens[..current - 1] + [r]
    {
      tokens[current - 1]
    }

    /** advance(): it reads previous(), so it needs a token behind the cursor once it stops at EOF. */
    method Advance() returns (previous: Token)
      requires Valid() && (current > 0 || !IsAtEnd())
      modifies this
      ensures State() == LoxGrammar.Advance(tokens, old(State())) && Valid()
      ensures current > 0 && previous == tokens[current - 1]
    {
      if !IsAtEnd() {
        current := current + 1;
      }
      previous := Previous();
    }

    /** match(): the first of `types` the next token has is stepped past. */
    method Match(types: seq<TokenType>) returns (matched: bool)
      requires Valid()
      modifies this
      ensures matched == CheckAny(tokens, old(current), types)
      ensures matched ==> State() == PState(old(current) + 1, old(errors)) && State() == LoxGrammar.Advance(tokens, old(State()))
      ensures !matched ==> State() == old(State())
    {
      var i := 0;
      while i < |types|
        invariant 0 <= i <= |types| && State() == old(State())
        invariant forall k :: 0 <= k < i ==> !Check(types[k])
      {
        if Check(types[i]) {
          var _ := Advance();
          return true;
        }
        i := i + 1;
      }
      return false;
    }

    /** error(token, message): Lox.error receives the token and the message. */
    method Error(token: Token, message: string)
      modifies this
      ensures State() == Log(old(State()), token, message)
    {
      errors := errors + [Report(token, message)];
    }

    method Consume(t: TokenType, message: string) returns (r: Option<Token>)
      requires Valid()
      modifies this
      ensures Out(r, State()) == LoxGrammar.Consume(tokens, old(State()), t, message)
    {
      if Check(t) {
        var token := Advance();
        return Some(token);
      }
      Error(Peek(), message);
      return None;
    }

    // -----------------------------------------------------------------
    // Expressions

    method Expression() returns (r: Option<Expr>)
      requires Valid()
      modifies this
      ensures Out(r, State()) == ExpressionRule(tokens, old(State()))
      decreases |tokens| - current, 18
    {
      r := Assignment();
    }

    method Assignment() returns (r: Option<Expr>)
      requires Valid()
      modifies this
      ensures Out(r, State()) == AssignmentRule(tokens, old(State()))
      decreases |tokens| - current, 17
    {
      var expr :- Ternary();
      var isAssign := Match([Equal]);
      if isAssign {
        var equals := Previous();
        var value :- Assignment();
        match expr
        case Variable(name) => return Some(Assign(name, value));
        case Get(obj, name) => return Some(Expr.Set(obj, name, value));
        case _ => Error(equals, "Invalid assignment target.");
      }
      return Some(expr);
    }

    method Ternary() returns (r: Option<Expr>)
      requires Valid()
      modifies this
      ensures Out(r, State()) == TernaryRule(tokens, old(State()))
      decreases |tokens| - current, 16
    {
      var expr :- Or();
      var isTernary := Match([Question]);
      if isTernary {
        var ifExpr :- Ternary();
        var _ :- Consume(Colon, "Expect ':' in ternary expression.");
        var elseExpr :- Ternary();
        expr := Expr.Ternary(expr, ifExpr, elseExpr);
      }
      return Some(expr);
    }

    /** or() */
    method Or() returns (r: Option<Expr>)
      requires Valid()
      modifies this
      ensures Out(r, State()) == OrRule(tokens, old(State()))
      decreases |tokens| - current, 15
    {
      var expr :- And();
      while true
        invariant Valid() && current > old(current)
        invariant OrLoop(tokens, State(), expr) == OrRule(tokens, old(State()))
        decreases |tokens| - current
      {
        var more := Match([TokenType.Or]);
        if !more {
          break;
        }
        var operator := Previous();
        var right :- And();
        expr := Logical(expr, operator, right);
      }
      return Some(expr);
    }

    /** and() */
    method And() returns (r: Option<Expr>)
      requires Valid()
      modifies this
      ensures Out(r, State()) == AndRule(tokens, old(State()))
      decreases |tokens| - current, 13
    {
      var expr :- Equality();
      while true
        invariant Valid() && current > old(current)
        invariant AndLoop(tokens, State(), expr) == AndRule(tokens, old(State()))
        decreases |tokens| - current
      {
        var more := Match([TokenType.And]);
        if !more {
          break;
        }
        var operator := Previous();
        var right :- Equality();
        expr := Logical(expr, operator, right);
      }
      return Some(expr);
    }

    /** equality() */
    method Equality() returns (r: Option<Expr>)
      requires Valid()
      modifies this
      ensures Out(r, State()) == EqualityRule(tokens, old(State()))
      decreases |tokens| - current, 11
    {
      var expr :- Comparison();
      while true
        invariant Valid() && current > old(current)
        invariant EqualityLoop(tokens, State(), expr) == EqualityRule(tokens, old(State()))
        decreases |tokens| - current
      {
        var more := Match([BangEqual, EqualEqual]);
        if !more {
          break;
        }
        var operator := Previous();
        var right :- Comparison();
        expr := Expr.Binary(expr, operator, right);
      }
      return Some(expr);
    }

    /** comparison() */
    method Comparison() returns (r: Option<Expr>)
      requires Valid()
      modifies this
      ensures Out(r, State()) == ComparisonRule(tokens, old(State()))
      decreases |tokens| - current, 9
    {
      var expr :- Term();
      while true
        invariant Valid() && current > old(current)
        invariant ComparisonLoop(tokens, State(), expr) == ComparisonRule(tokens, old(State()))
        decreases |tokens| - current
      {
        var more := Match([Greater, GreaterEqual, Less, LessEqual]);
        if !more {
          break;
        }
        var operator := Previous();
        var right :- Term();
        expr := Expr.Binary(expr, operator, right);
      }
      return Some(expr);
    }

    /** term() */
    method Term() returns (r: Option<Expr>)
      requires Valid()
      modifies this
      ensures Out(r, State()) == TermRule(tokens, old(State()))
      decreases |tokens| - current, 7
    {
      var expr :- Factor();
      while true
        invariant Valid() && current > old(current)
        invariant TermLoop(tokens, State(), expr) == TermRule(tokens, old(State()))
        decreases |tokens| - current
      {
        var more := Match([Minus, Plus]);
        if !more {
          break;
        }
        var operator := Previous();
        var right :- Factor();
        expr := Expr.Binary(expr, operator, right);
      }
      return Some(expr);
    }

    /** factor() */
    method Factor() returns (r: Option<Expr>)
      requires Valid()
      modifies this
      ensures Out(r, State()) == FactorRule(tokens, old(State()))
      decreases |tokens| - current, 5
    {
      var expr :- Unary();
      while true
        invariant Valid() && current > old(current)
        invariant FactorLoop(tokens, State(), expr) == FactorRule(tokens, old(State()))
        decreases |tokens| - current
      {
        var more := Match([Slash, Star]);
        if !more {
          break;
        }
        var operator := Previous();
        var right :- Unary();
        expr := Expr.Binary(expr, operator, right);
      }
      return Some(expr);
    }

    method Unary() returns (r: Option<Expr>)
      requires Valid()
      modifies this
      ensures Out(r, State()) == UnaryRule(tokens, old(State()))
      decreases |tokens| - current, 3
    {
      var isUnary := Match([Bang, Minus]);
      if isUnary {
        var operator := Previous();
        var right :- Unary();
        return Some(Expr.Unary(operator, right));
      }
      r := Call();
    }

    method Call() returns (r: Option<Expr>)
      requires Valid()
      modifies this
      ensures Out(r, State()) == CallRule(tokens, old(State()))
      decreases |tokens| - current, 2
    {
      var expr :- Primary();
      while true
        invariant Valid() && current > old(current)
        invariant CallLoop(tokens, State(), expr) == CallRule(tokens, old(State()))
        decreases |tokens| - current
      {
        var isCall := Match([LeftParen]);
        if isCall {
          expr :- FinishCall(expr);
        } else {
          var isGet := Match([Dot]);
          if !isGet {
            break;
          }
          var name :- Consume(Identifier, "Expect property name after '.'.");
          expr := Get(expr, name);
        }
      }
      return Some(expr);
    }

    method FinishCall(callee: Expr) returns (r: Option<Expr>)
      requires Valid()
      modifies this
      ensures Out(r, State()) == FinishCallRule(tokens, old(State()), callee)
      decreases |tokens| - current, 20
    {
      var arguments: seq<Expr> := [];
      if !Check(RightParen) {
        arguments :- Arguments();
      }
      var paren :- Consume(RightParen, "Expect ')' after arguments");
      return Some(Expr.Call(callee, paren, arguments));
    }

    /** The do-while loop of finishCall(): comma-separated arguments, the 256th one reported. */
    method Arguments() returns (r: Option<seq<Expr>>)
      requires Valid()
      modifies this
      ensures Out(r, State()) == ArgumentsRule(tokens, old(State()), [])
      decreases |tokens| - current, 19
    {
      var arguments: seq<Expr> := [];
      while true
        invariant Valid() && current >= old(current)
        invariant ArgumentsRule(tokens, State(), arguments) == ArgumentsRule(tokens, old(State()), [])
        decreases |tokens| - current
      {
        if |arguments| >= 255 {
          Error(Peek(), "Can't have more than 255 arguments.");
        }
        var argument :- Expression();
        arguments := arguments + [argument];
        var more := Match([Comma]);
        if !more {
          break;
        }
      }
      return Some(arguments);
    }

    method Primary() returns (r: Option<Expr>)
      requires Valid()
      modifies this
      ensures Out(r, State()) == PrimaryRule(tokens, old(State()))
      decreases |tokens| - current, 1
    {
      var m := Match([False]);
      if m {
        return Some(Literal(BoolValue(false)));
      }
      m := Match([True]);
      if m {
        return Some(Literal(BoolValue(true)));
      }
      m := Match([Nil]);
      if m {
        return Some(Literal(NoValue));
      }
      m := Match([NumberTok, StringTok]);
      if m {
        return Some(Literal(Previous().literal));
      }
      m := Match([Identifier]);
      if m {
        return Some(Variable(Previous()));
      }
      m := Match([LeftParen]);
      if m {
        var expr :- Expression();
        var _ :- Consume(RightParen, "Expect ')' after expression.");
        return Some(Grouping(expr));
      }
      Error(Peek(), "Expect expression.");
      return None;
    }
  
    // -----------------------------------------------------------------
    // Statements

    /** parse(): declarations until EOF, one entry each. */
    method Parse() returns (statements: seq<Option<Stmt>>)
      requires Valid()
      modifies this
      ensures (statements, State()) == ParseLoop(tokens, old(State()), [])
    {
      statements := [];
      while !IsAtEnd()
        invariant Valid() && ParseLoop(tokens, State(), statements) == ParseLoop(tokens, old(State()), [])
        decreases |tokens| - current
      {
        var declaration := Declaration();
        statements := statements + [declaration];
      }
    }

    /** declaration(): a ParseError thrown below is caught here, followed by synchronize() and a null entry. */
    method Declaration() returns (r: Option<Stmt>)
      requires Valid() && !IsAtEnd()
      modifies this
      ensures Declared(r, State()) == DeclarationRule(tokens, old(State()))
      decreases |tokens| - current, 24
    {
      var m := Match([TokenType.Class]);
      if m {
        r := ClassDeclaration();
      } else {
        m := Match([Fun]);
        if m {
          var f := Function("function");
          r := if f.Some? then Some(Stmt.Function(f.value)) else None;
        } else {
          m := Match([TokenType.Var]);
          if m {
            r := VarDeclaration();
          } else {
            r := Statement();
          }
        }
      }
      if r.None? {
        Synchronize();
      }
    }

    method ClassDeclaration() returns (r: Option<Stmt>)
      requires Valid()
      modifies this
      ensures Out(r, State()) == ClassRule(tokens, old(State()))
      decreases |tokens| - current, 23
    {
      var name :- Consume(Identifier, "Expect class name.");
      var _ :- Consume(LeftBrace, "Expect '{' before class body.");
      var methods: seq<FunctionDecl> := [];
      ghost var loopStart := State();
      while !Check(RightBrace) && !IsAtEnd()
        invariant Valid() && current >= loopStart.pos && current > old(current)
        invariant MethodsRule(tokens, State(), methods) == MethodsRule(tokens, loopStart, [])
        decreases |tokens| - current
      {
        var decl :- Function("method");
        methods := methods + [decl];
      }
      var _ :- Consume(RightBrace, "Expect '}' after class body.");
      return Some(Stmt.Class(name, None, methods));
    }

    /** function(kind): the declaration of a function or, inside a class, a method. */
    method Function(kind: string) returns (r: Option<FunctionDecl>)
      requires Valid()
      modifies this
      ensures Out(r, State()) == FunctionRule(tokens, old(State()), kind)
      decreases |tokens| - current, 23
    {
      var name :- Consume(Identifier, "Expect " + kind + " name.");
      var _ :- Consume(LeftParen, "Expect '(' after " + kind + " name.");
      assert FunctionRule(tokens, old(State()), kind) == FunctionParameters(tokens, State(), kind, name);
      ghost var afterParen := State();
      var parameters: seq<Token> := [];
      if !Check(RightParen) {
        parameters :- Parameters();
      }
      assert FunctionParameters(tokens, afterParen, kind, name) == FunctionBody(tokens, State(), kind, name, parameters);
      var _ :- Consume(RightParen, "Expect ')' after parameters.");
      var _ :- Consume(LeftBrace, "Expect '{' before " + kind + " body.");
      var body :- Block();
      return Some(FunctionDecl(Some(name), parameters, body));
    }

    /** The do-while loop of function(): comma-separated names, the 256th one reported. */
    method Parameters() returns (r: Option<seq<Token>>)
      requires Valid()
      modifies this
      ensures Out(r, State()) == ParametersRule(tokens, old(State()), [])
      decreases |tokens| - current, 0
    {
      var parameters: seq<Token> := [];
      while true
        invariant Valid() && current >= old(current)
        invariant ParametersRule(tokens, State(), parameters) == ParametersRule(tokens, old(State()), [])
        decreases |tokens| - current
      {
        if |parameters| >= 255 {
          Error(Peek(), "Can't have more than 255 parameters.");
        }
        var parameter :- Consume(Identifier, "Expect parameter name.");
        parameters := parameters + [parameter];
        var more := Match([Comma]);
        if !more {
          break;
        }
      }
      return Some(parameters);
    }

    method VarDeclaration() returns (r: Option<Stmt>)
      requires Valid()
      modifies this
      ensures Out(r, State()) == VarDeclarationRule(tokens, old(State()))
      decreases |tokens| - current, 21
    {
      var name :- Consume(Identifier, "Expect variable name.");
      var initializer: Option<Expr> := None;
      var m := Match([Equal]);
      if m {
        var e :- Expression();
        initializer := Some(e);
      }
      var _ :- Consume(Semicolon, "Expect ';' after variable declaration.");
      return Some(Stmt.Var(name, initializer));
    }

    method Statement() returns (r: Option<Stmt>)
      requires Valid()
      modifies this
      ensures Out(r, State()) == StatementRule(tokens, old(State()))
      decreases |tokens| - current, 22
    {
      var m := Match([For]);
      if m {
        r := ForStatement();
        return;
      }
      m := Match([TokenType.If]);
      if m {
        r := IfStatement();
        return;
      }
      m := Match([TokenType.Print]);
      if m {
        r := PrintStatement();
        return;
      }
      m := Match([TokenType.Return]);
      if m {
        r := ReturnStatement();
        return;
      }
      m := Match([TokenType.While]);
      if m {
        r := WhileStatement();
        return;
      }
      m := Match([LeftBrace]);
      if m {
        var statements :- Block();
        return Some(Stmt.Block(statements));
      }
      r := ExpressionStatement();
    }

    /** forStatement(): the for loop comes back as the while loop it stands for. */
    method ForStatement() returns (r: Option<Stmt>)
      requires Valid()
      modifies this
      ensures Out(r, State()) == ForRule(tokens, old(State()))
      decreases |tokens| - current, 21
    {
      var _ :- Consume(LeftParen, "Expect '(' after 'for'.");
      var initializer :- ForInitializer();
      r := ForCondition(initializer);
    }

    /** The first clause of forStatement(). */
    method ForInitializer() returns (r: Option<Option<Stmt>>)
      requires Valid()
      modifies this
      ensures Out(r, State()) == LoxGrammar.ForInitializer(tokens, old(State()))
      decreases |tokens| - current, 22
    {
      var m := Match([Semicolon]);
      if m {
        return Some(None);
      }
      m := Match([TokenType.Var]);
      var s;
      if m {
        s :- VarDeclaration();
      } else {
        s :- ExpressionStatement();
      }
      return Some(Some(s));
    }

    /** The second clause of forStatement(), then the rest. */
    method ForCondition(initializer: Option<Stmt>) returns (r: Option<Stmt>)
      requires Valid()
      modifies this
      ensures Out(r, State()) == LoxGrammar.ForCondition(tokens, old(State()), initializer)
      decreases |tokens| - current, 21
    {
      var condition: Option<Expr> := None;
      if !Check(Semicolon) {
        var e :- Expression();
        condition := Some(e);
      }
      assert Out(Some(condition), State())
        == if LoxGrammar.Check(tokens, old(current), Semicolon) then Out(Some(None), old(State())) else OptionalExpression(tokens, old(State()));
      var _ :- Consume(Semicolon, "Expect ';' after loop condition.");
      r := ForIncrement(initializer, condition);
    }

    /** The third clause of forStatement(), the body, and the desugaring. */
    method ForIncrement(initializer: Option<Stmt>, condition: Option<Expr>) returns (r: Option<Stmt>)
      requires Valid()
      modifies this
      ensures Out(r, State()) == LoxGrammar.ForIncrement(tokens, old(State()), initializer, condition)
      decreases |tokens| - current, 21
    {
      var increment: Option<Expr> := None;
      if !Check(RightParen) {
        var e :- Expression();
        increment := Some(e);
      }
      var _ :- Consume(RightParen, "Expect ')' after for clauses.");
      var body :- Statement();
      if increment.Some? {
        body := Stmt.Block([Some(body), Some(Stmt.Expression(increment.value))]);
      }
      body := Stmt.While(if condition.Some? then condition.value else Literal(BoolValue(true)), body);
      if initializer.Some? {
        body := Stmt.Block([initializer, Some(body)]);
      }
      return Some(body);
    }

    method IfStatement() returns (r: Option<Stmt>)
      requires Valid()
      modifies this
      ensures Out(r, State()) == IfRule(tokens, old(State()))
      decreases |tokens| - current, 21
    {
      var _ :- Consume(LeftParen, "Expect '(' after 'if'.");
      var condition :- Expression();
      var _ :- Consume(RightParen, "Expect ')' after if condition.");
      var thenBranch :- Statement();
      var elseBranch: Option<Stmt> := None;
      var m := Match([Else]);
      if m {
        var s :- Statement();
        elseBranch := Some(s);
      }
      return Some(Stmt.If(condition, thenBranch, elseBranch));
    }

    method PrintStatement() returns (r: Option<Stmt>)
      requires Valid()
      modifies this
      ensures Out(r, State()) == PrintRule(tokens, old(State()))
      decreases |tokens| - current, 21
    {
      var value :- Expression();
      var _ :- Consume(Semicolon, "Expect ';' after value.");
      return Some(Stmt.Print(value));
    }

    /** returnStatement(): the keyword is the token just matched. */
    method ReturnStatement() returns (r: Option<Stmt>)
      requires Valid() && current > 0
      modifies this
      ensures Out(r, State()) == ReturnRule(tokens, old(State()))
      decreases |tokens| - current, 21
    {
      var keyword := Previous();
      var value: Option<Expr> := None;
      if !Check(Semicolon) {
        var e :- Expression();
        value := Some(e);
      }
      var _ :- Consume(Semicolon, "Expect ';' after return value.");
      return Some(Stmt.Return(keyword, value));
    }

    method WhileStatement() returns (r: Option<Stmt>)
      requires Valid()
      modifies this
      ensures Out(r, State()) == WhileRule(tokens, old(State()))
      decreases |tokens| - current, 21
    {
      var _ :- Consume(LeftParen, "Expect '(' after 'while'.");
      var condition :- Expression();
      var _ :- Consume(RightParen, "Expect ')' after condition.");
      var body :- Statement();
      return Some(Stmt.While(condition, body));
    }

    method Block() returns (r: Option<seq<Option<Stmt>>>)
      requires Valid()
      modifies this
      ensures Out(r, State()) == BlockRule(tokens, old(State()))
      decreases |tokens| - current, 26
    {
      var statements: seq<Option<Stmt>> := [];
      while !Check(RightBrace) && !IsAtEnd()
        invariant Valid() && current >= old(current)
        invariant BlockLoop(tokens, State(), statements) == BlockRule(tokens, old(State()))
        decreases |tokens| - current
      {
        var declaration := Declaration();
        statements := statements + [declaration];
      }
      var _ :- Consume(RightBrace, "Expect '}' after block.");
      return Some(statements);
    }

    method ExpressionStatement() returns (r: Option<Stmt>)
      requires Valid()
      modifies this
      ensures Out(r, State()) == ExpressionStatementRule(tokens, old(State()))
      decreases |tokens| - current, 21
    {
      var expr :- Expression();
      var _ :- Consume(Semicolon, "Expect ';' after expression.");
      return Some(Stmt.Expression(expr));
    }

    /** synchronize(): skip tokens to the start of the next statement. */
    method Synchronize()
      requires Valid() && (current > 0 || !IsAtEnd())
      modifies this
      ensures State() == LoxGrammar.Synchronize(tokens, old(State()))
    {
      var _ := Advance();
      while !IsAtEnd()
        invariant Valid() && current > 0
        invariant SyncLoop(tokens, State()) == LoxGrammar.Synchronize(tokens, old(State()))
        decreases |tokens| - current
      {
        if Previous().tokenType == Semicolon {
          return;
        }
        if StartsStatement(Peek().tokenType) {
          return;
        }
        var _ := Advance();
      }
    }
  }
}
