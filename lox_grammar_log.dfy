/**
 * The parser's reports form a log. What a rule of Parser.java parses, and
 * where it stops, never depend on the errors reported before it was
 * entered, and the errors it reports are appended after them. The
 * 255-argument and 255-parameter checks rely on this: their report is
 * logged, not thrown, so the parse carries on exactly as it would have
 * without it.
 */
module LoxGrammarLog {
  import opened Wrappers
  import opened LoxTokens
  import opened LoxAst
  import opened LoxGrammar

  /** The state `st` with the reports `pre` logged before its own. */
  function Behind(pre: seq<Report>, st: PState): (r: PState)
    ensures r.pos == st.pos && |r.errors| == |pre| + |st.errors| && pre <= r.errors
  {
    PState(st.pos, pre + st.errors)
  }

  /** The outcome `r` with the reports `pre` logged before its own. */
  function Rebase<T>(pre: seq<Report>, r: Out<T>): (o: Out<T>)
    ensures o.value == r.value && o.st.pos == r.st.pos && pre <= o.st.errors
  {
    Out(r.value, Behind(pre, r.st))
  }

  lemma AdvanceLog(toks: seq<Token>, st: PState, pre: seq<Report>)
    requires Ready(toks, st)
    ensures Advance(toks, Behind(pre, st)) == Behind(pre, Advance(toks, st))
  {
  }

  lemma LogLog(st: PState, pre: seq<Report>, token: Token, message: string)
    ensures Log(Behind(pre, st), token, message) == Behind(pre, Log(st, token, message))
  {
    assert (pre + st.errors) + [Report(token, message)] == pre + (st.errors + [Report(token, message)]);
  }

  /** consume() is the same behind earlier reports. */
  lemma ConsumeLog(toks: seq<Token>, st: PState, pre: seq<Report>, t: TokenType, message: string)
    requires Ready(toks, st)
    ensures Consume(toks, Behind(pre, st), t, message) == Rebase(pre, Consume(toks, st, t, message))
  {
    if !Check(toks, st.pos, t) {
      LogLog(st, pre, toks[st.pos], message);
    }
  }

  // ---------------------------------------------------------------------
  // One lemma per expression rule, following the rule's own recursion.

  /**
   * expression(), started behind any earlier reports, builds the same
   * expression, stops at the same token, and appends the same reports.
   */
  lemma {:induction false} ExpressionRuleLog(toks: seq<Token>, st: PState, pre: seq<Report>)
    requires Ready(toks, st)
    ensures ExpressionRule(toks, Behind(pre, st)) == Rebase(pre, ExpressionRule(toks, st))
    decreases |toks| - st.pos, 18
  {
    AssignmentRuleLog(toks, st, pre);
  }

  lemma {:induction false} AssignmentRuleLog(toks: seq<Token>, st: PState, pre: seq<Report>)
    requires Ready(toks, st)
    ensures AssignmentRule(toks, Behind(pre, st)) == Rebase(pre, AssignmentRule(toks, st))
    decreases |toks| - st.pos, 17
  {
    var lhs := TernaryRule(toks, st);
    TernaryRuleLog(toks, st, pre);
    if lhs.value.Some? && CheckAny(toks, lhs.st.pos, [Equal]) {
      AdvanceLog(toks, lhs.st, pre);
      var rhs := AssignmentRule(toks, Advance(toks, lhs.st));
      AssignmentRuleLog(toks, Advance(toks, lhs.st), pre);
      if rhs.value.Some? {
        LogLog(rhs.st, pre, toks[lhs.st.pos], "Invalid assignment target.");
      }
    }
  }

  lemma {:induction false} TernaryRuleLog(toks: seq<Token>, st: PState, pre: seq<Report>)
    requires Ready(toks, st)
    ensures TernaryRule(toks, Behind(pre, st)) == Rebase(pre, TernaryRule(toks, st))
    decreases |toks| - st.pos, 16
  {
    var cond := OrRule(toks, st);
    OrRuleLog(toks, st, pre);
    if cond.value.Some? && CheckAny(toks, cond.st.pos, [Question]) {
      AdvanceLog(toks, cond.st, pre);
      TernaryBranchesLog(toks, Advance(toks, cond.st), pre, cond.value.value);
    }
  }

  lemma {:induction false} TernaryBranchesLog(toks: seq<Token>, st: PState, pre: seq<Report>, cond: Expr)
    requires Ready(toks, st)
    ensures TernaryBranches(toks, Behind(pre, st), cond) == Rebase(pre, TernaryBranches(toks, st, cond))
    decreases |toks| - st.pos, 17
  {
    var ifExpr := TernaryRule(toks, st);
    TernaryRuleLog(toks, st, pre);
    if ifExpr.value.Some? {
      var colon := Consume(toks, ifExpr.st, Colon, "Expect ':' in ternary expression.");
      ConsumeLog(toks, ifExpr.st, pre, Colon, "Expect ':' in ternary expression.");
      if colon.value.Some? {
        TernaryRuleLog(toks, colon.st, pre);
      }
    }
  }

  lemma {:induction false} OrRuleLog(toks: seq<Token>, st: PState, pre: seq<Report>)
    requires Ready(toks, st)
    ensures OrRule(toks, Behind(pre, st)) == Rebase(pre, OrRule(toks, st))
    decreases |toks| - st.pos, 15
  {
    var first := AndRule(toks, st);
    AndRuleLog(toks, st, pre);
    if first.value.Some? {
      OrLoopLog(toks, first.st, pre, first.value.value);
    }
  }

  lemma {:induction false} OrLoopLog(toks: seq<Token>, st: PState, pre: seq<Report>, left: Expr)
    requires Ready(toks, st)
    ensures OrLoop(toks, Behind(pre, st), left) == Rebase(pre, OrLoop(toks, st, left))
    decreases |toks| - st.pos, 15
  {
    if CheckAny(toks, st.pos, [Or]) {
      AdvanceLog(toks, st, pre);
      var right := AndRule(toks, Advance(toks, st));
      AndRuleLog(toks, Advance(toks, st), pre);
      if right.value.Some? {
        OrLoopLog(toks, right.st, pre, Logical(left, toks[st.pos], right.value.value));
      }
    }
  }

  lemma {:induction false} AndRuleLog(toks: seq<Token>, st: PState, pre: seq<Report>)
    requires Ready(toks, st)
    ensures AndRule(toks, Behind(pre, st)) == Rebase(pre, AndRule(toks, st))
    decreases |toks| - st.pos, 13
  {
    var first := EqualityRule(toks, st);
    EqualityRuleLog(toks, st, pre);
    if first.value.Some? {
      AndLoopLog(toks, first.st, pre, first.value.value);
    }
  }

  lemma {:induction false} AndLoopLog(toks: seq<Token>, st: PState, pre: seq<Report>, left: Expr)
    requires Ready(toks, st)
    ensures AndLoop(toks, Behind(pre, st), left) == Rebase(pre, AndLoop(toks, st, left))
    decreases |toks| - st.pos, 13
  {
    if CheckAny(toks, st.pos, [And]) {
      AdvanceLog(toks, st, pre);
      var right := EqualityRule(toks, Advance(toks, st));
      EqualityRuleLog(toks, Advance(toks, st), pre);
      if right.value.Some? {
        AndLoopLog(toks, right.st, pre, Logical(left, toks[st.pos], right.value.value));
      }
    }
  }

  lemma {:induction false} EqualityRuleLog(toks: seq<Token>, st: PState, pre: seq<Report>)
    requires Ready(toks, st)
    ensures EqualityRule(toks, Behind(pre, st)) == Rebase(pre, EqualityRule(toks, st))
    decreases |toks| - st.pos, 11
  {
    var first := ComparisonRule(toks, st);
    ComparisonRuleLog(toks, st, pre);
    if first.value.Some? {
      EqualityLoopLog(toks, first.st, pre, first.value.value);
    }
  }

  lemma {:induction false} EqualityLoopLog(toks: seq<Token>, st: PState, pre: seq<Report>, left: Expr)
    requires Ready(toks, st)
    ensures EqualityLoop(toks, Behind(pre, st), left) == Rebase(pre, EqualityLoop(toks, st, left))
    decreases |toks| - st.pos, 11
  {
    if CheckAny(toks, st.pos, [BangEqual, EqualEqual]) {
      AdvanceLog(toks, st, pre);
      var right := ComparisonRule(toks, Advance(toks, st));
      ComparisonRuleLog(toks, Advance(toks, st), pre);
      if right.value.Some? {
        EqualityLoopLog(toks, right.st, pre, Binary(left, toks[st.pos], right.value.value));
      }
    }
  }

  lemma {:induction false} ComparisonRuleLog(toks: seq<Token>, st: PState, pre: seq<Report>)
    requires Ready(toks, st)
    ensures ComparisonRule(toks, Behind(pre, st)) == Rebase(pre, ComparisonRule(toks, st))
    decreases |toks| - st.pos, 9
  {
    var first := TermRule(toks, st);
    TermRuleLog(toks, st, pre);
    if first.value.Some? {
      ComparisonLoopLog(toks, first.st, pre, first.value.value);
    }
  }

  lemma {:induction false} ComparisonLoopLog(toks: seq<Token>, st: PState, pre: seq<Report>, left: Expr)
    requires Ready(toks, st)
    ensures ComparisonLoop(toks, Behind(pre, st), left) == Rebase(pre, ComparisonLoop(toks, st, left))
    decreases |toks| - st.pos, 9
  {
    if CheckAny(toks, st.pos, [Greater, GreaterEqual, Less, LessEqual]) {
      AdvanceLog(toks, st, pre);
      var right := TermRule(toks, Advance(toks, st));
      TermRuleLog(toks, Advance(toks, st), pre);
      if right.value.Some? {
        ComparisonLoopLog(toks, right.st, pre, Binary(left, toks[st.pos], right.value.value));
      }
    }
  }

  lemma {:induction false} TermRuleLog(toks: seq<Token>, st: PState, pre: seq<Report>)
    requires Ready(toks, st)
    ensures TermRule(toks, Behind(pre, st)) == Rebase(pre, TermRule(toks, st))
    decreases |toks| - st.pos, 7
  {
    var first := FactorRule(toks, st);
    FactorRuleLog(toks, st, pre);
    if first.value.Some? {
      TermLoopLog(toks, first.st, pre, first.value.value);
    }
  }

  lemma {:induction false} TermLoopLog(toks: seq<Token>, st: PState, pre: seq<Report>, left: Expr)
    requires Ready(toks, st)
    ensures TermLoop(toks, Behind(pre, st), left) == Rebase(pre, TermLoop(toks, st, left))
    decreases |toks| - st.pos, 7
  {
    if CheckAny(toks, st.pos, [Minus, Plus]) {
      AdvanceLog(toks, st, pre);
      var right := FactorRule(toks, Advance(toks, st));
      FactorRuleLog(toks, Advance(toks, st), pre);
      if right.value.Some? {
        TermLoopLog(toks, right.st, pre, Binary(left, toks[st.pos], right.value.value));
      }
    }
  }

  lemma {:induction false} FactorRuleLog(toks: seq<Token>, st: PState, pre: seq<Report>)
    requires Ready(toks, st)
    ensures FactorRule(toks, Behind(pre, st)) == Rebase(pre, FactorRule(toks, st))
    decreases |toks| - st.pos, 5
  {
    var first := UnaryRule(toks, st);
    UnaryRuleLog(toks, st, pre);
    if first.value.Some? {
      FactorLoopLog(toks, first.st, pre, first.value.value);
    }
  }

  lemma {:induction false} FactorLoopLog(toks: seq<Token>, st: PState, pre: seq<Report>, left: Expr)
    requires Ready(toks, st)
    ensures FactorLoop(toks, Behind(pre, st), left) == Rebase(pre, FactorLoop(toks, st, left))
    decreases |toks| - st.pos, 5
  {
    if CheckAny(toks, st.pos, [Slash, Star]) {
      AdvanceLog(toks, st, pre);
      var right := UnaryRule(toks, Advance(toks, st));
      UnaryRuleLog(toks, Advance(toks, st), pre);
      if right.value.Some? {
        FactorLoopLog(toks, right.st, pre, Binary(left, toks[st.pos], right.value.value));
      }
    }
  }

  lemma {:induction false} UnaryRuleLog(toks: seq<Token>, st: PState, pre: seq<Report>)
    requires Ready(toks, st)
    ensures UnaryRule(toks, Behind(pre, st)) == Rebase(pre, UnaryRule(toks, st))
    decreases |toks| - st.pos, 3
  {
    if CheckAny(toks, st.pos, [Bang, Minus]) {
      AdvanceLog(toks, st, pre);
      UnaryRuleLog(toks, Advance(toks, st), pre);
    } else {
      CallRuleLog(toks, st, pre);
    }
  }

  lemma {:induction false} CallRuleLog(toks: seq<Token>, st: PState, pre: seq<Report>)
    requires Ready(toks, st)
    ensures CallRule(toks, Behind(pre, st)) == Rebase(pre, CallRule(toks, st))
    decreases |toks| - st.pos, 2
  {
    var callee := PrimaryRule(toks, st);
    PrimaryRuleLog(toks, st, pre);
    if callee.value.Some? {
      CallLoopLog(toks, callee.st, pre, callee.value.value);
    }
  }

  lemma {:induction false} CallLoopLog(toks: seq<Token>, st: PState, pre: seq<Report>, expr: Expr)
    requires Ready(toks, st)
    ensures CallLoop(toks, Behind(pre, st), expr) == Rebase(pre, CallLoop(toks, st, expr))
    decreases |toks| - st.pos, 2
  {
    if CheckAny(toks, st.pos, [LeftParen]) {
      AdvanceLog(toks, st, pre);
      var call := FinishCallRule(toks, Advance(toks, st), expr);
      FinishCallRuleLog(toks, Advance(toks, st), pre, expr);
      if call.value.Some? {
        CallLoopLog(toks, call.st, pre, call.value.value);
      }
    } else if CheckAny(toks, st.pos, [Dot]) {
      AdvanceLog(toks, st, pre);
      var name := Consume(toks, Advance(toks, st), Identifier, "Expect property name after '.'.");
      ConsumeLog(toks, Advance(toks, st), pre, Identifier, "Expect property name after '.'.");
      if name.value.Some? {
        CallLoopLog(toks, name.st, pre, Get(expr, name.value.value));
      }
    }
  }

  lemma {:induction false} FinishCallRuleLog(toks: seq<Token>, st: PState, pre: seq<Report>, callee: Expr)
    requires Ready(toks, st)
    ensures FinishCallRule(toks, Behind(pre, st), callee) == Rebase(pre, FinishCallRule(toks, st, callee))
    decreases |toks| - st.pos, 20
  {
    if !Check(toks, st.pos, RightParen) {
      ArgumentsRuleLog(toks, st, pre, []);
    }
    var args := if Check(toks, st.pos, RightParen) then Out(Some([]), st) else ArgumentsRule(toks, st, []);
    if args.value.Some? {
      ConsumeLog(toks, args.st, pre, RightParen, "Expect ')' after arguments");
    }
  }

  /** The argument list of a call, including its limit check, is the same behind earlier reports. */
  lemma {:induction false} ArgumentsRuleLog(toks: seq<Token>, st: PState, pre: seq<Report>, args: seq<Expr>)
    requires Ready(toks, st)
    ensures ArgumentsRule(toks, Behind(pre, st), args) == Rebase(pre, ArgumentsRule(toks, st, args))
    decreases |toks| - st.pos, 19
  {
    var checked := if |args| >= 255 then Log(st, toks[st.pos], "Can't have more than 255 arguments.") else st;
    if |args| >= 255 {
      LogLog(st, pre, toks[st.pos], "Can't have more than 255 arguments.");
    }
    var arg := ExpressionRule(toks, checked);
    ExpressionRuleLog(toks, checked, pre);
    if arg.value.Some? && CheckAny(toks, arg.st.pos, [Comma]) {
      AdvanceLog(toks, arg.st, pre);
      ArgumentsRuleLog(toks, Advance(toks, arg.st), pre, args + [arg.value.value]);
    }
  }

  lemma {:induction false} PrimaryRuleLog(toks: seq<Token>, st: PState, pre: seq<Report>)
    requires Ready(toks, st)
    ensures PrimaryRule(toks, Behind(pre, st)) == Rebase(pre, PrimaryRule(toks, st))
    decreases |toks| - st.pos, 1
  {
    AdvanceLog(toks, st, pre);
    if CheckAny(toks, st.pos, [False, True, Nil, NumberTok, StringTok, Identifier]) {
    } else if CheckAny(toks, st.pos, [LeftParen]) {
      var inner := ExpressionRule(toks, Advance(toks, st));
      ExpressionRuleLog(toks, Advance(toks, st), pre);
      if inner.value.Some? {
        ConsumeLog(toks, inner.st, pre, RightParen, "Expect ')' after expression.");
      }
    } else {
      LogLog(st, pre, toks[st.pos], "Expect expression.");
    }
  }
}
