/**
 * Properties of the jlox grammar (LoxGrammar, and so of the Parser class
 * proved equal to it): the shape of the trees the expression rules build
 * (precedence and associativity), the dangling else, panic-mode recovery,
 * the 255 limits, and what parse() returns.
 */
module LoxGrammarProps {
  import opened Wrappers
  import opened LoxTokens
  import opened LoxAst
  import opened LoxGrammar
  import opened LoxGrammarLog

  // ---------------------------------------------------------------------
  // Expression shapes. Each level's shape says that the level's operator
  // nodes lean to the left and that their right operands come from the
  // next tighter level, which is what left associativity and the
  // precedence order factor > term > comparison > equality > and > or mean.

  /** What unary() can build: a prefix operator, a call or property access, or a primary. */
  predicate IsOperand(e: Expr) {
    e.Unary? || e.Call? || e.Get? || e.Literal? || e.Variable? || e.Grouping?
  }

  predicate FactorShape(e: Expr) {
    IsOperand(e) || (e.Binary? && e.operator.tokenType in [Slash, Star] && FactorShape(e.left) && IsOperand(e.right))
  }

  predicate TermShape(e: Expr) {
    FactorShape(e) || (e.Binary? && e.operator.tokenType in [Minus, Plus] && TermShape(e.left) && FactorShape(e.right))
  }

  predicate ComparisonShape(e: Expr) {
    TermShape(e)
    || (e.Binary? && e.operator.tokenType in [Greater, GreaterEqual, Less, LessEqual]
        && ComparisonShape(e.left) && TermShape(e.right))
  }

  predicate EqualityShape(e: Expr) {
    ComparisonShape(e)
    || (e.Binary? && e.operator.tokenType in [BangEqual, EqualEqual] && EqualityShape(e.left) && ComparisonShape(e.right))
  }

  predicate AndShape(e: Expr) {
    EqualityShape(e) || (e.Logical? && e.operator.tokenType == And && AndShape(e.left) && EqualityShape(e.right))
  }

  predicate OrShape(e: Expr) {
    AndShape(e) || (e.Logical? && e.operator.tokenType == Or && OrShape(e.left) && AndShape(e.right))
  }

  /** A ternary's condition is an or-expression; both branches may be ternaries again, so nesting goes right. */
  predicate TernaryShape(e: Expr) {
    OrShape(e) || (e.Ternary? && OrShape(e.check) && TernaryShape(e.ifExpr) && TernaryShape(e.elseExpr))
  }

  /** An assignment's value may be an assignment again: assignment is right-associative. */
  predicate AssignmentShape(e: Expr) {
    TernaryShape(e) || (e.Assign? && AssignmentShape(e.value)) || (e.Set? && AssignmentShape(e.value))
  }

  /** The argument lists and property accesses of call() wrap an operand in an operand. */
  lemma {:induction false} CallLoopShape(toks: seq<Token>, st: PState, expr: Expr)
    requires Ready(toks, st) && IsOperand(expr)
    ensures var r := CallLoop(toks, st, expr); r.value.Some? ==> IsOperand(r.value.value)
    decreases |toks| - st.pos
  {
    if CheckAny(toks, st.pos, [LeftParen]) {
      var call := FinishCallRule(toks, Advance(toks, st), expr);
      if call.value.Some? {
        CallLoopShape(toks, call.st, call.value.value);
      }
    } else if CheckAny(toks, st.pos, [Dot]) {
      var name := Consume(toks, Advance(toks, st), Identifier, "Expect property name after '.'.");
      if name.value.Some? {
        CallLoopShape(toks, name.st, Get(expr, name.value.value));
      }
    }
  }

  lemma UnaryRuleShape(toks: seq<Token>, st: PState)
    requires Ready(toks, st)
    ensures var r := UnaryRule(toks, st); r.value.Some? ==> IsOperand(r.value.value)
  {
    if !CheckAny(toks, st.pos, [Bang, Minus]) {
      var callee := PrimaryRule(toks, st);
      if callee.value.Some? {
        CallLoopShape(toks, callee.st, callee.value.value);
      }
    }
  }

  lemma {:induction false} FactorLoopShape(toks: seq<Token>, st: PState, left: Expr)
    requires Ready(toks, st) && FactorShape(left)
    ensures var r := FactorLoop(toks, st, left); r.value.Some? ==> FactorShape(r.value.value)
    decreases |toks| - st.pos
  {
    if CheckAny(toks, st.pos, [Slash, Star]) {
      var right := UnaryRule(toks, Advance(toks, st));
      UnaryRuleShape(toks, Advance(toks, st));
      if right.value.Some? {
        FactorLoopShape(toks, right.st, Binary(left, toks[st.pos], right.value.value));
      }
    }
  }

  lemma FactorRuleShape(toks: seq<Token>, st: PState)
    requires Ready(toks, st)
    ensures var r := FactorRule(toks, st); r.value.Some? ==> FactorShape(r.value.value)
  {
    var first := UnaryRule(toks, st);
    UnaryRuleShape(toks, st);
    if first.value.Some? {
      FactorLoopShape(toks, first.st, first.value.value);
    }
  }

  lemma {:induction false} TermLoopShape(toks: seq<Token>, st: PState, left: Expr)
    requires Ready(toks, st) && TermShape(left)
    ensures var r := TermLoop(toks, st, left); r.value.Some? ==> TermShape(r.value.value)
    decreases |toks| - st.pos
  {
    if CheckAny(toks, st.pos, [Minus, Plus]) {
      var right := FactorRule(toks, Advance(toks, st));
      FactorRuleShape(toks, Advance(toks, st));
      if right.value.Some? {
        TermLoopShape(toks, right.st, Binary(left, toks[st.pos], right.value.value));
      }
    }
  }

  lemma TermRuleShape(toks: seq<Token>, st: PState)
    requires Ready(toks, st)
    ensures var r := TermRule(toks, st); r.value.Some? ==> TermShape(r.value.value)
  {
    var first := FactorRule(toks, st);
    FactorRuleShape(toks, st);
    if first.value.Some? {
      TermLoopShape(toks, first.st, first.value.value);
    }
  }

  lemma {:induction false} ComparisonLoopShape(toks: seq<Token>, st: PState, left: Expr)
    requires Ready(toks, st) && ComparisonShape(left)
    ensures var r := ComparisonLoop(toks, st, left); r.value.Some? ==> ComparisonShape(r.value.value)
    decreases |toks| - st.pos
  {
    if CheckAny(toks, st.pos, [Greater, GreaterEqual, Less, LessEqual]) {
      var right := TermRule(toks, Advance(toks, st));
      TermRuleShape(toks, Advance(toks, st));
      if right.value.Some? {
        ComparisonLoopShape(toks, right.st, Binary(left, toks[st.pos], right.value.value));
      }
    }
  }

  lemma ComparisonRuleShape(toks: seq<Token>, st: PState)
    requires Ready(toks, st)
    ensures var r := ComparisonRule(toks, st); r.value.Some? ==> ComparisonShape(r.value.value)
  {
    var first := TermRule(toks, st);
    TermRuleShape(toks, st);
    if first.value.Some? {
      ComparisonLoopShape(toks, first.st, first.value.value);
    }
  }

  lemma {:induction false} EqualityLoopShape(toks: seq<Token>, st: PState, left: Expr)
    requires Ready(toks, st) && EqualityShape(left)
    ensures var r := EqualityLoop(toks, st, left); r.value.Some? ==> EqualityShape(r.value.value)
    decreases |toks| - st.pos
  {
    if CheckAny(toks, st.pos, [BangEqual, EqualEqual]) {
      var right := ComparisonRule(toks, Advance(toks, st));
      ComparisonRuleShape(toks, Advance(toks, st));
      if right.value.Some? {
        EqualityLoopShape(toks, right.st, Binary(left, toks[st.pos], right.value.value));
      }
    }
  }

  lemma EqualityRuleShape(toks: seq<Token>, st: PState)
    requires Ready(toks, st)
    ensures var r := EqualityRule(toks, st); r.value.Some? ==> EqualityShape(r.value.value)
  {
    var first := ComparisonRule(toks, st);
    ComparisonRuleShape(toks, st);
    if first.value.Some? {
      EqualityLoopShape(toks, first.st, first.value.value);
    }
  }

  lemma {:induction false} AndLoopShape(toks: seq<Token>, st: PState, left: Expr)
    requires Ready(toks, st) && AndShape(left)
    ensures var r := AndLoop(toks, st, left); r.value.Some? ==> AndShape(r.value.value)
    decreases |toks| - st.pos
  {
    if CheckAny(toks, st.pos, [And]) {
      var right := EqualityRule(toks, Advance(toks, st));
      EqualityRuleShape(toks, Advance(toks, st));
      if right.value.Some? {
        AndLoopShape(toks, right.st, Logical(left, toks[st.pos], right.value.value));
      }
    }
  }

  lemma AndRuleShape(toks: seq<Token>, st: PState)
    requires Ready(toks, st)
    ensures var r := AndRule(toks, st); r.value.Some? ==> AndShape(r.value.value)
  {
    var first := EqualityRule(toks, st);
    EqualityRuleShape(toks, st);
    if first.value.Some? {
      AndLoopShape(toks, first.st, first.value.value);
    }
  }

  lemma {:induction false} OrLoopShape(toks: seq<Token>, st: PState, left: Expr)
    requires Ready(toks, st) && OrShape(left)
    ensures var r := OrLoop(toks, st, left); r.value.Some? ==> OrShape(r.value.value)
    decreases |toks| - st.pos
  {
    if CheckAny(toks, st.pos, [Or]) {
      var right := AndRule(toks, Advance(toks, st));
      AndRuleShape(toks, Advance(toks, st));
      if right.value.Some? {
        OrLoopShape(toks, right.st, Logical(left, toks[st.pos], right.value.value));
      }
    }
  }

  lemma OrRuleShape(toks: seq<Token>, st: PState)
    requires Ready(toks, st)
    ensures var r := OrRule(toks, st); r.value.Some? ==> OrShape(r.value.value)
  {
    var first := AndRule(toks, st);
    AndRuleShape(toks, st);
    if first.value.Some? {
      OrLoopShape(toks, first.st, first.value.value);
    }
  }

  lemma {:induction false} TernaryRuleShape(toks: seq<Token>, st: PState)
    requires Ready(toks, st)
    ensures var r := TernaryRule(toks, st); r.value.Some? ==> TernaryShape(r.value.value)
    decreases |toks| - st.pos, 0
  {
    var cond := OrRule(toks, st);
    OrRuleShape(toks, st);
    if cond.value.Some? && CheckAny(toks, cond.st.pos, [Question]) {
      TernaryBranchesShape(toks, Advance(toks, cond.st), cond.value.value);
    }
  }

  lemma {:induction false} TernaryBranchesShape(toks: seq<Token>, st: PState, cond: Expr)
    requires Ready(toks, st) && OrShape(cond)
    ensures var r := TernaryBranches(toks, st, cond); r.value.Some? ==> TernaryShape(r.value.value)
    decreases |toks| - st.pos, 1
  {
    var ifExpr := TernaryRule(toks, st);
    TernaryRuleShape(toks, st);
    if ifExpr.value.Some? {
      var colon := Consume(toks, ifExpr.st, Colon, "Expect ':' in ternary expression.");
      if colon.value.Some? {
        TernaryRuleShape(toks, colon.st);
      }
    }
  }

  /** Every expression the parser builds has the shapes above, level by level. */
  lemma {:induction false} AssignmentRuleShape(toks: seq<Token>, st: PState)
    requires Ready(toks, st)
    ensures var r := AssignmentRule(toks, st); r.value.Some? ==> AssignmentShape(r.value.value)
    decreases |toks| - st.pos
  {
    var lhs := TernaryRule(toks, st);
    TernaryRuleShape(toks, st);
    if lhs.value.Some? && CheckAny(toks, lhs.st.pos, [Equal]) {
      AssignmentRuleShape(toks, Advance(toks, lhs.st));
    }
  }

  // ---------------------------------------------------------------------
  // The errors the expression rules report

  /** The token types primary() accepts, and the prefix operators unary() accepts before it. */
  predicate StartsExpression(toks: seq<Token>, pos: nat)
    requires pos < |toks|
  {
    CheckAny(toks, pos, [Bang, Minus, False, True, Nil, NumberTok, StringTok, Identifier, LeftParen])
  }

  /** A primary that cannot start throws "Expect expression." at the next token, having consumed nothing. */
  lemma PrimaryExpectExpression(toks: seq<Token>, st: PState)
    requires Ready(toks, st) && !StartsExpression(toks, st.pos)
    ensures PrimaryRule(toks, st) == Out(None, PState(st.pos, st.errors + [Report(toks[st.pos], "Expect expression.")]))
  {
  }

  /**
   * An expression whose first token cannot start one throws exactly one
   * error, "Expect expression." at that token, from primary() up through
   * every level of the grammar, and the cursor stays where it was.
   */
  lemma ExpectExpressionReported(toks: seq<Token>, st: PState)
    requires Ready(toks, st) && !StartsExpression(toks, st.pos)
    ensures ExpressionRule(toks, st) == Out(None, PState(st.pos, st.errors + [Report(toks[st.pos], "Expect expression.")]))
  {
    var failed: Out<Expr> := Out(None, PState(st.pos, st.errors + [Report(toks[st.pos], "Expect expression.")]));
    PrimaryExpectExpression(toks, st);
    assert CallRule(toks, st) == failed;
    assert UnaryRule(toks, st) == failed;
    assert FactorRule(toks, st) == failed;
    assert TermRule(toks, st) == failed;
    assert ComparisonRule(toks, st) == failed;
    assert EqualityRule(toks, st) == failed;
    assert AndRule(toks, st) == failed;
    assert OrRule(toks, st) == failed;
    assert TernaryRule(toks, st) == failed;
    assert AssignmentRule(toks, st) == failed;
  }

  /**
   * A ternary whose condition and `?` and then-branch parsed, but whose
   * next token is not `:`, throws "Expect ':' in ternary expression." at
   * that token, right after the then-branch.
   */
  lemma TernaryColonReported(toks: seq<Token>, st: PState)
    requires Ready(toks, st)
    ensures var cond := OrRule(toks, st);
      cond.value.Some? && CheckAny(toks, cond.st.pos, [Question]) ==>
        var thenBranch := TernaryRule(toks, Advance(toks, cond.st));
        thenBranch.value.Some? && !Check(toks, thenBranch.st.pos, Colon) ==>
          TernaryRule(toks, st) ==
            Out(None, PState(thenBranch.st.pos, thenBranch.st.errors + [Report(toks[thenBranch.st.pos], "Expect ':' in ternary expression.")]))
  {
  }

  /**
   * After `lhs =`, with the right-hand side parsed: a variable target
   * becomes Assign, a property target becomes Set, and any other target is
   * reported as "Invalid assignment target." at the `=` token while the
   * left-hand side is returned and parsing goes on (no throw).
   */
  lemma AssignmentTargets(toks: seq<Token>, st: PState)
    requires Ready(toks, st)
    ensures var lhs := TernaryRule(toks, st);
      lhs.value.Some? && CheckAny(toks, lhs.st.pos, [Equal]) ==>
        var rhs := AssignmentRule(toks, Advance(toks, lhs.st));
        var r := AssignmentRule(toks, st);
        (rhs.value.None? ==> r == rhs) &&
        (rhs.value.Some? ==>
          match lhs.value.value
          case Variable(name) => r == Out(Some(Assign(name, rhs.value.value)), rhs.st)
          case Get(obj, name) => r == Out(Some(Set(obj, name, rhs.value.value)), rhs.st)
          case _ =>
            r.value == lhs.value && r.st.pos == rhs.st.pos &&
            r.st.errors == rhs.st.errors + [Report(toks[lhs.st.pos], "Invalid assignment target.")] &&
            toks[lhs.st.pos].tokenType == Equal)
  {
  }

  // ---------------------------------------------------------------------
  // The dangling else

  /** A statement parsed as an if without an else is not followed by `else`. */
  lemma StatementIfWithoutElse(toks: seq<Token>, st: PState)
    requires Ready(toks, st)
    ensures var r := StatementRule(toks, st);
      r.value.Some? && r.value.value.If? && r.value.value.elseBranch.None? ==> !CheckAny(toks, r.st.pos, [Else])
  {
    if CheckAny(toks, st.pos, [For]) {
      ForNeverIf(toks, Advance(toks, st));
    } else if CheckAny(toks, st.pos, [TokenType.If]) {
      IfRuleWithoutElse(toks, Advance(toks, st));
    }
  }

  lemma IfRuleWithoutElse(toks: seq<Token>, st: PState)
    requires Ready(toks, st)
    ensures var r := IfRule(toks, st);
      r.value.Some? && r.value.value.If? && r.value.value.elseBranch.None? ==> !CheckAny(toks, r.st.pos, [Else])
  {
    var paren := Consume(toks, st, LeftParen, "Expect '(' after 'if'.");
    if paren.value.Some? {
      var cond := ExpressionRule(toks, paren.st);
      if cond.value.Some? {
        var close := Consume(toks, cond.st, RightParen, "Expect ')' after if condition.");
        if close.value.Some? {
          IfBranchesWithoutElse(toks, close.st, cond.value.value);
        }
      }
    }
  }

  lemma IfBranchesWithoutElse(toks: seq<Token>, st: PState, cond: Expr)
    requires Ready(toks, st)
    ensures var r := IfBranches(toks, st, cond);
      r.value.Some? && r.value.value.If? && r.value.value.elseBranch.None? ==> !CheckAny(toks, r.st.pos, [Else])
  {
  }

  /** A desugared for loop is a block or a while loop, never an if. */
  lemma ForNeverIf(toks: seq<Token>, st: PState)
    requires Ready(toks, st)
    ensures var r := ForRule(toks, st); r.value.Some? ==> r.value.value.Block? || r.value.value.While?
  {
    var paren := Consume(toks, st, LeftParen, "Expect '(' after 'for'.");
    if paren.value.Some? {
      var init := ForInitializer(toks, paren.st);
      if init.value.Some? {
        ForConditionNeverIf(toks, init.st, init.value.value);
      }
    }
  }

  lemma ForConditionNeverIf(toks: seq<Token>, st: PState, init: Option<Stmt>)
    requires Ready(toks, st)
    ensures var r := ForCondition(toks, st, init); r.value.Some? ==> r.value.value.Block? || r.value.value.While?
  {
    var cond := if Check(toks, st.pos, Semicolon) then Out(Some(None), st) else OptionalExpression(toks, st);
    if cond.value.Some? {
      var semi := Consume(toks, cond.st, Semicolon, "Expect ';' after loop condition.");
      if semi.value.Some? {
        ForIncrementNeverIf(toks, semi.st, init, cond.value.value);
      }
    }
  }

  lemma ForIncrementNeverIf(toks: seq<Token>, st: PState, init: Option<Stmt>, cond: Option<Expr>)
    requires Ready(toks, st)
    ensures var r := ForIncrement(toks, st, init, cond); r.value.Some? ==> r.value.value.Block? || r.value.value.While?
  {
  }

  /** The else after two nested ifs belongs to the inner (the nearest) one. */
  lemma DanglingElse(toks: seq<Token>, st: PState, cond: Expr)
    requires Ready(toks, st)
    ensures var r := IfBranches(toks, st, cond);
      r.value.Some? && r.value.value.elseBranch.Some? ==> !(r.value.value.thenBranch.If? && r.value.value.thenBranch.elseBranch.None?)
  {
    StatementIfWithoutElse(toks, st);
  }

  // ---------------------------------------------------------------------
  // Panic-mode recovery

  /** Where synchronize() may stop: after a `;`, before a statement keyword, or at EOF. */
  predicate Boundary(toks: seq<Token>, pos: nat)
    requires 0 < pos < |toks|
  {
    AtEnd(toks, pos) || toks[pos - 1].tokenType == Semicolon || StartsStatement(toks[pos].tokenType)
  }

  lemma {:induction false} SyncLoopStops(toks: seq<Token>, st: PState)
    requires Ready(toks, st) && st.pos > 0
    ensures var r := SyncLoop(toks, st);
      Boundary(toks, r.pos) && forall k :: st.pos <= k < r.pos ==> !Boundary(toks, k)
    decreases |toks| - st.pos
  {
    if !Boundary(toks, st.pos) {
      SyncLoopStops(toks, Advance(toks, st));
    }
  }

  /**
   * synchronize() steps over at least one token (none only at EOF, where
   * advance() stays put) and stops at the first boundary after that.
   */
  lemma SynchronizeStops(toks: seq<Token>, st: PState)
    requires Ready(toks, st) && (st.pos > 0 || !AtEnd(toks, st.pos))
    ensures var r := Synchronize(toks, st);
      r.errors == st.errors && (r.pos > st.pos || AtEnd(toks, st.pos)) && 0 < r.pos &&
      Boundary(toks, r.pos) && forall k :: st.pos < k < r.pos ==> !Boundary(toks, k)
  {
    SyncLoopStops(toks, Advance(toks, st));
  }

  // ---------------------------------------------------------------------
  // The 255 limits

  /** How many of the positions from..to-1 lie at or past 255. */
  function Excess(from: nat, to: nat): nat {
    if to <= from then 0 else if to <= 255 then 0 else if from >= 255 then to - from else to - 255
  }

  /** How many reports in the log carry exactly this message. */
  function Count(log: seq<Report>, message: string): (n: nat)
    ensures n <= |log|
  {
    if |log| == 0 then 0 else Count(log[..|log| - 1], message) + (if log[|log| - 1].message == message then 1 else 0)
  }

  lemma {:induction false} CountAppend(a: seq<Report>, b: seq<Report>, message: string)
    ensures Count(a + b, message) == Count(a, message) + Count(b, message)
    decreases |b|
  {
    if |b| > 0 {
      assert (a + b)[..|a + b| - 1] == a + b[..|b| - 1];
      CountAppend(a, b[..|b| - 1], message);
    } else {
      assert a + b == a;
    }
  }

  /** finishCall()'s do-while loop with the limit check taken out. */
  function ArgumentsUnchecked(toks: seq<Token>, st: PState, args: seq<Expr>): (r: Out<seq<Expr>>)
    requires Ready(toks, st)
    ensures Continues(toks, st, r)
    ensures r.value.Some? ==> r.st.pos > st.pos && args < r.value.value
    decreases |toks| - st.pos
  {
    var arg := ExpressionRule(toks, st);
    if arg.value.None? then Out(None, arg.st)
    else if CheckAny(toks, arg.st.pos, [Comma]) then ArgumentsUnchecked(toks, Advance(toks, arg.st), args + [arg.value.value])
    else Out(Some(args + [arg.value.value]), arg.st)
  }

  /** function()'s parameter loop with the limit check taken out. */
  function ParametersUnchecked(toks: seq<Token>, st: PState, params: seq<Token>): (r: Out<seq<Token>>)
    requires Ready(toks, st)
    ensures Continues(toks, st, r)
    ensures r.value.Some? ==> r.st.pos > st.pos && params < r.value.value
    decreases |toks| - st.pos
  {
    var param := Consume(toks, st, Identifier, "Expect parameter name.");
    if param.value.None? then Out(None, param.st)
    else if CheckAny(toks, param.st.pos, [Comma]) then ParametersUnchecked(toks, Advance(toks, param.st), params + [param.value.value])
    else Out(Some(params + [param.value.value]), param.st)
  }

  /** One more position, at or past 255 or not. */
  lemma ExcessStep(from: nat, to: nat)
    requires from < to
    ensures Excess(from, to) == (if from >= 255 then 1 else 0) + Excess(from + 1, to)
  {
  }

  /** The limit's report, if any, counted once in front of the state. */
  lemma CheckedCount(st: PState, token: Token, message: string, over: bool)
    ensures var checked := if over then Log(st, token, message) else st;
      checked.pos == st.pos && checked.errors + [] == checked.errors &&
      Count(checked.errors, message) == Count(st.errors, message) + (if over then 1 else 0)
  {
    if over {
      assert st.errors + [Report(token, message)] == (st.errors + [Report(token, message)]) + [];
      assert Count([Report(token, message)], message) == 1;
      CountAppend(st.errors, [Report(token, message)], message);
    }
  }

  /** consume() on any report log is consume() on an empty one, behind that log. */
  lemma ConsumeFresh(toks: seq<Token>, st: PState, t: TokenType, message: string)
    requires Ready(toks, st)
    ensures Consume(toks, st, t, message) == Rebase(st.errors, Consume(toks, PState(st.pos, []), t, message))
  {
    assert st.errors + [] == st.errors;
    ConsumeLog(toks, PState(st.pos, []), st.errors, t, message);
  }

  /**
   * The checked and the unchecked argument loop, started at the same token
   * behind any two report logs, end alike; on success the checked one has
   * logged one limit report more for each argument past the 255th.
   */
  lemma {:induction false} ArgumentsLimit(toks: seq<Token>, sr: PState, su: PState, args: seq<Expr>)
    requires Ready(toks, sr) && su.pos == sr.pos
    ensures var r, u := ArgumentsRule(toks, sr, args), ArgumentsUnchecked(toks, su, args);
      var m := "Can't have more than 255 arguments.";
      r.value == u.value && r.st.pos == u.st.pos &&
      (r.value.Some? ==> Count(r.st.errors, m) - Count(sr.errors, m) == Count(u.st.errors, m) - Count(su.errors, m) + Excess(|args|, |r.value.value|))
    decreases |toks| - sr.pos
  {
    var m := "Can't have more than 255 arguments.";
    var checked := if |args| >= 255 then Log(sr, toks[sr.pos], m) else sr;
    CheckedCount(sr, toks[sr.pos], m, |args| >= 255);
    var e := ExpressionRule(toks, PState(sr.pos, []));
    ExpressionRuleLog(toks, PState(sr.pos, []), checked.errors);
    ExpressionRuleLog(toks, PState(sr.pos, []), su.errors);
    assert su.errors + [] == su.errors;
    var argR, argU := ExpressionRule(toks, checked), ExpressionRule(toks, su);
    assert argR == Rebase(checked.errors, e) && argU == Rebase(su.errors, e);
    CountAppend(checked.errors, e.st.errors, m);
    CountAppend(su.errors, e.st.errors, m);
    if e.value.Some? {
      ExcessStep(|args|, |args| + 1);
      if CheckAny(toks, e.st.pos, [Comma]) {
        var r := ArgumentsRule(toks, Advance(toks, argR.st), args + [e.value.value]);
        ArgumentsLimit(toks, Advance(toks, argR.st), Advance(toks, argU.st), args + [e.value.value]);
        if r.value.Some? {
          ExcessStep(|args|, |r.value.value|);
        }
      }
    }
  }

  /** One pass of the parameter loop, with and without the check, from the same token. */
  lemma ParametersStep(toks: seq<Token>, sr: PState, su: PState, params: seq<Token>)
    requires Ready(toks, sr) && su.pos == sr.pos
    ensures var m := "Can't have more than 255 parameters.";
      var checked := if |params| >= 255 then Log(sr, toks[sr.pos], m) else sr;
      var paramR, paramU := Consume(toks, checked, Identifier, "Expect parameter name."), Consume(toks, su, Identifier, "Expect parameter name.");
      paramR.value == paramU.value && paramR.st.pos == paramU.st.pos &&
      Count(paramR.st.errors, m) - Count(sr.errors, m) == Count(paramU.st.errors, m) - Count(su.errors, m) + (if |params| >= 255 then 1 else 0)
  {
    var m := "Can't have more than 255 parameters.";
    var checked := if |params| >= 255 then Log(sr, toks[sr.pos], m) else sr;
    CheckedCount(sr, toks[sr.pos], m, |params| >= 255);
    var e := Consume(toks, PState(sr.pos, []), Identifier, "Expect parameter name.");
    ConsumeFresh(toks, checked, Identifier, "Expect parameter name.");
    ConsumeFresh(toks, su, Identifier, "Expect parameter name.");
    CountAppend(checked.errors, e.st.errors, m);
    CountAppend(su.errors, e.st.errors, m);
  }

  /** The same for the parameter loop of function(). */
  lemma {:induction false} ParametersLimit(toks: seq<Token>, sr: PState, su: PState, params: seq<Token>)
    requires Ready(toks, sr) && su.pos == sr.pos
    ensures var r, u := ParametersRule(toks, sr, params), ParametersUnchecked(toks, su, params);
      var m := "Can't have more than 255 parameters.";
      r.value == u.value && r.st.pos == u.st.pos &&
      (r.value.Some? ==> Count(r.st.errors, m) - Count(sr.errors, m) == Count(u.st.errors, m) - Count(su.errors, m) + Excess(|params|, |r.value.value|))
    decreases |toks| - sr.pos
  {
    var checked := if |params| >= 255 then Log(sr, toks[sr.pos], "Can't have more than 255 parameters.") else sr;
    var paramR := Consume(toks, checked, Identifier, "Expect parameter name.");
    var paramU := Consume(toks, su, Identifier, "Expect parameter name.");
    ParametersStep(toks, sr, su, params);
    if paramR.value.Some? {
      ExcessStep(|params|, |params| + 1);
      if CheckAny(toks, paramR.st.pos, [Comma]) {
        var r := ParametersRule(toks, Advance(toks, paramR.st), params + [paramR.value.value]);
        ParametersLimit(toks, Advance(toks, paramR.st), Advance(toks, paramU.st), params + [paramR.value.value]);
        if r.value.Some? {
          ExcessStep(|params|, |r.value.value|);
        }
      }
    }
  }

  /**
   * The argument limit never changes what finishCall() parses or where it
   * stops: the list and the position are those of the loop without the
   * check. On success every argument past the 255th adds exactly one
   * "Can't have more than 255 arguments." report, and none is dropped.
   */
  lemma ArgumentsOverLimit(toks: seq<Token>, st: PState, args: seq<Expr>)
    requires Ready(toks, st)
    ensures var r, u := ArgumentsRule(toks, st, args), ArgumentsUnchecked(toks, st, args);
      var m := "Can't have more than 255 arguments.";
      r.value == u.value && r.st.pos == u.st.pos &&
      (r.value.Some? ==>
        |r.value.value| > |args| && |r.st.errors| >= |st.errors| + Excess(|args|, |r.value.value|) &&
        Count(r.st.errors, m) == Count(u.st.errors, m) + Excess(|args|, |r.value.value|))
  {
    ArgumentsLimit(toks, st, st, args);
    ArgumentsReportCount(toks, st, args);
  }

  /**
   * The parameter limit never changes what function() parses or where it
   * stops. On success every parameter past the 255th adds exactly one
   * "Can't have more than 255 parameters." report, and none is dropped.
   */
  lemma ParametersOverLimit(toks: seq<Token>, st: PState, params: seq<Token>)
    requires Ready(toks, st)
    ensures var r, u := ParametersRule(toks, st, params), ParametersUnchecked(toks, st, params);
      var m := "Can't have more than 255 parameters.";
      r.value == u.value && r.st.pos == u.st.pos &&
      (r.value.Some? ==>
        |r.value.value| > |params| && |r.st.errors| >= |st.errors| + Excess(|params|, |r.value.value|) &&
        Count(r.st.errors, m) == Count(u.st.errors, m) + Excess(|params|, |r.value.value|))
  {
    ParametersLimit(toks, st, st, params);
    ParametersReportCount(toks, st, params);
  }

  lemma {:induction false} ArgumentsReportCount(toks: seq<Token>, st: PState, args: seq<Expr>)
    requires Ready(toks, st)
    ensures var r := ArgumentsRule(toks, st, args);
      r.value.Some? ==> |r.value.value| > |args| && |r.st.errors| >= |st.errors| + Excess(|args|, |r.value.value|)
    decreases |toks| - st.pos
  {
    var checked := if |args| >= 255 then Log(st, toks[st.pos], "Can't have more than 255 arguments.") else st;
    var arg := ExpressionRule(toks, checked);
    if arg.value.Some? && CheckAny(toks, arg.st.pos, [Comma]) {
      ArgumentsReportCount(toks, Advance(toks, arg.st), args + [arg.value.value]);
    }
  }

  lemma {:induction false} ParametersReportCount(toks: seq<Token>, st: PState, params: seq<Token>)
    requires Ready(toks, st)
    ensures var r := ParametersRule(toks, st, params);
      r.value.Some? ==> |r.value.value| > |params| && |r.st.errors| >= |st.errors| + Excess(|params|, |r.value.value|)
    decreases |toks| - st.pos
  {
    var checked := if |params| >= 255 then Log(st, toks[st.pos], "Can't have more than 255 parameters.") else st;
    var param := Consume(toks, checked, Identifier, "Expect parameter name.");
    if param.value.Some? && CheckAny(toks, param.st.pos, [Comma]) {
      ParametersReportCount(toks, Advance(toks, param.st), params + [param.value.value]);
    }
  }

  // ---------------------------------------------------------------------
  // parse()

  function CountNulls(stmts: seq<Option<Stmt>>): nat {
    if |stmts| == 0 then 0 else CountNulls(stmts[..|stmts| - 1]) + (if stmts[|stmts| - 1].None? then 1 else 0)
  }

  /** Each entry consumed at least one token, and each null entry has its own report. */
  lemma {:induction false} ParseLoopCounts(toks: seq<Token>, st: PState, stmts: seq<Option<Stmt>>)
    requires Ready(toks, st)
    ensures var r := ParseLoop(toks, st, stmts);
      |r.0| - |stmts| <= r.1.pos - st.pos && CountNulls(r.0) - CountNulls(stmts) <= |r.1.errors| - |st.errors|
    decreases |toks| - st.pos
  {
    if !AtEnd(toks, st.pos) {
      var d := DeclarationRule(toks, st);
      var next := stmts + [d.stmt];
      assert next[..|next| - 1] == stmts;
      ParseLoopCounts(toks, d.st, next);
    }
  }

  /**
   * parse() returns at most one entry per token before EOF, and a list
   * with a null entry only when an error was reported.
   */
  lemma ParseCounts(toks: seq<Token>)
    requires Wellformed(toks)
    ensures var (stmts, errors) := ParseRule(toks);
      |stmts| < |toks| && CountNulls(stmts) <= |errors|
  {
    ParseLoopCounts(toks, PState(0, []), []);
  }
}
