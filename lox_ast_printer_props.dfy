/**
 * What AstPrinter's output looks like: parenthesize() is the name and the
 * printed children joined by single spaces inside one pair of
 * parentheses, an if statement's branches are printed without surrounding
 * whitespace, and the printer's expected outputs for the trees the parser
 * builds from "4 + 5 * 2" and "-!!123".
 */
module LoxAstPrinterProps {
  import opened Wrappers
  import opened LoxTokens
  import opened LoxAst
  import opened LoxText
  import opened LoxAstPrinter

  /** parenthesize(name, e1..en) == "(" + (name e1 .. en joined by single spaces) + ")". */
  lemma ParenthesizeJoin(name: string, parts: seq<string>)
    ensures Parenthesize(name, parts) == "(" + JoinSpaces([name] + parts) + ")"
  {
    SpacedIsJoin(parts);
    if |parts| > 0 {
      JoinAppend([name], parts);
    }
  }

  /** A binary or logical node prints as (op left right), with single spaces. */
  lemma BinaryPrefix(e: Expr, show: Renderers)
    requires (e.Binary? || e.Logical?) && PrintableExpr(e)
    ensures PrintExpr(e, show) == "(" + JoinSpaces([e.operator.lexeme, PrintExpr(e.left, show), PrintExpr(e.right, show)]) + ")"
  {
    ParenthesizeJoin(e.operator.lexeme, [PrintExpr(e.left, show), PrintExpr(e.right, show)]);
    assert [e.operator.lexeme] + [PrintExpr(e.left, show), PrintExpr(e.right, show)]
      == [e.operator.lexeme, PrintExpr(e.left, show), PrintExpr(e.right, show)];
  }

  /**
   * visitIfStmt strips the printed branches: the text between "(if <cond> "
   * and ");\n" neither starts nor ends with whitespace when the statement
   * has no else branch.
   */
  lemma IfBranchStripped(s: Stmt, show: Renderers)
    requires s.If? && s.elseBranch.None? && PrintableStmt(s)
    ensures var head := "(if " + PrintExpr(s.condition, show) + " ";
      var r := PrintStmt(s, show);
      var branch := Strip(PrintStmt(s.thenBranch, show));
      r == head + branch + ");\n"
      && (|branch| > 0 ==> !IsWhitespace(branch[0]) && !IsWhitespace(branch[|branch| - 1]))
  {
    StripSpec(PrintStmt(s.thenBranch, show));
  }

  const PlusToken := Token(Plus, "+", NoValue, 1)
  const StarToken := Token(Star, "*", NoValue, 1)
  const MinusToken := Token(Minus, "-", NoValue, 1)
  const BangToken := Token(Bang, "!", NoValue, 1)

  /** A unary node prints as (op operand). */
  lemma UnaryForm(operator: Token, right: Expr, show: Renderers)
    requires PrintableExpr(right)
    ensures PrintExpr(Unary(operator, right), show) == "(" + operator.lexeme + " " + PrintExpr(right, show) + ")"
  {
    assert PrintExpr(Unary(operator, right), show) == Parenthesize(operator.lexeme, [PrintExpr(right, show)]);
    ParenthesizeOne(operator.lexeme, PrintExpr(right, show));
  }

  lemma GroupingForm(inner: Expr, show: Renderers)
    requires PrintableExpr(inner)
    ensures PrintExpr(Grouping(inner), show) == "(" + "group" + " " + PrintExpr(inner, show) + ")"
  {
    assert PrintExpr(Grouping(inner), show) == Parenthesize("group", [PrintExpr(inner, show)]);
    ParenthesizeOne("group", PrintExpr(inner, show));
  }

  lemma BinaryForm(left: Expr, operator: Token, right: Expr, show: Renderers)
    requires PrintableExpr(left) && PrintableExpr(right)
    ensures PrintExpr(Binary(left, operator, right), show)
      == "(" + operator.lexeme + " " + PrintExpr(left, show) + " " + PrintExpr(right, show) + ")"
  {
    assert PrintExpr(Binary(left, operator, right), show) == Parenthesize(operator.lexeme, [PrintExpr(left, show), PrintExpr(right, show)]);
    ParenthesizeTwo(operator.lexeme, PrintExpr(left, show), PrintExpr(right, show));
  }

  lemma TernaryForm(check: Expr, ifExpr: Expr, elseExpr: Expr, show: Renderers)
    requires PrintableExpr(check) && PrintableExpr(ifExpr) && PrintableExpr(elseExpr)
    ensures PrintExpr(Ternary(check, ifExpr, elseExpr), show)
      == "(" + "?:" + " " + PrintExpr(check, show) + " " + PrintExpr(ifExpr, show) + " " + PrintExpr(elseExpr, show) + ")"
  {
    var c, i, e := PrintExpr(check, show), PrintExpr(ifExpr, show), PrintExpr(elseExpr, show);
    assert PrintExpr(Ternary(check, ifExpr, elseExpr), show) == Parenthesize("?:", [c, i, e]);
    ParenthesizeThree("?:", c, i, e);
  }

  lemma ParenthesizeOne(name: string, a: string)
    ensures Parenthesize(name, [a]) == "(" + name + " " + a + ")"
  {
    SpacedOne(a);
  }

  lemma ParenthesizeTwo(name: string, a: string, b: string)
    ensures Parenthesize(name, [a, b]) == "(" + name + " " + a + " " + b + ")"
  {
    SpacedTwo(a, b);
  }

  lemma ParenthesizeThree(name: string, a: string, b: string, c: string)
    ensures Parenthesize(name, [a, b, c]) == "(" + name + " " + a + " " + b + " " + c + ")"
  {
    SpacedThree(a, b, c);
  }

  /** The tree for "4 + 5 * 2", as printed with Double.toString giving "4.0", "5.0", "2.0". */
  lemma FactorOverTermPrinted(show: Renderers)
    requires show.number("4") == "4.0" && show.number("5") == "5.0" && show.number("2") == "2.0"
    ensures PrintExpr(Binary(Literal(NumberValue("4")), PlusToken,
      Binary(Literal(NumberValue("5")), StarToken, Literal(NumberValue("2")))), show) == "(+ 4.0 (* 5.0 2.0))"
  {
    var product := Binary(Literal(NumberValue("5")), StarToken, Literal(NumberValue("2")));
    BinaryForm(Literal(NumberValue("5")), StarToken, Literal(NumberValue("2")), show);
    BinaryForm(Literal(NumberValue("4")), PlusToken, product, show);
    FactorOverTermText();
  }

  lemma FactorOverTermText()
    ensures "(" + "*" + " " + "5.0" + " " + "2.0" + ")" == "(* 5.0 2.0)"
    ensures "(" + "+" + " " + "4.0" + " " + "(* 5.0 2.0)" + ")" == "(+ 4.0 (* 5.0 2.0))"
  {
  }

  /** The tree for "-!!123": (- (! (! 123.0))). */
  lemma RecursiveUnaryPrinted(show: Renderers)
    requires show.number("123") == "123.0"
    ensures PrintExpr(Unary(MinusToken, Unary(BangToken, Unary(BangToken, Literal(NumberValue("123"))))), show)
      == "(- (! (! 123.0)))"
  {
    var inner := Unary(BangToken, Literal(NumberValue("123")));
    UnaryForm(BangToken, Literal(NumberValue("123")), show);
    UnaryForm(BangToken, inner, show);
    UnaryForm(MinusToken, Unary(BangToken, inner), show);
    RecursiveUnaryText();
  }

  lemma RecursiveUnaryText()
    ensures "(" + "!" + " " + "123.0" + ")" == "(! 123.0)"
    ensures "(" + "!" + " " + "(! 123.0)" + ")" == "(! (! 123.0))"
    ensures "(" + "-" + " " + "(! (! 123.0))" + ")" == "(- (! (! 123.0)))"
  {
  }

  /** Whether a string literal occurs in the expression (outside calls). */
  predicate HasString(e: Expr)
    decreases e
  {
    match e
    case Literal(v) => v.StringValue?
    case Assign(_, value) => HasString(value)
    case Binary(left, _, right) => HasString(left) || HasString(right)
    case Logical(left, _, right) => HasString(left) || HasString(right)
    case Unary(_, right) => HasString(right)
    case Grouping(inner) => HasString(inner)
    case Ternary(check, ifExpr, elseExpr) => HasString(check) || HasString(ifExpr) || HasString(elseExpr)
    case _ => false
  }

  /** A string literal is printed between double quotes, so a quote appears in the output. */
  lemma {:induction false} QuotesKept(e: Expr, show: Renderers)
    requires PrintableExpr(e) && HasString(e)
    ensures '"' in PrintExpr(e, show)
    decreases e
  {
    match e
    case Literal(v) =>
      assert PrintExpr(e, show)[0] == '"';
    case Assign(_, value) =>
      QuotesKept(value, show);
    case Binary(left, operator, right) =>
      if HasString(left) { QuotesKept(left, show); } else { QuotesKept(right, show); }
      BinaryForm(left, operator, right, show);
    case Logical(left, operator, right) =>
      if HasString(left) { QuotesKept(left, show); } else { QuotesKept(right, show); }
      ParenthesizeTwo(operator.lexeme, PrintExpr(left, show), PrintExpr(right, show));
    case Unary(operator, right) =>
      QuotesKept(right, show);
      UnaryForm(operator, right, show);
    case Grouping(inner) =>
      QuotesKept(inner, show);
      GroupingForm(inner, show);
    case Ternary(check, ifExpr, elseExpr) =>
      if HasString(check) { QuotesKept(check, show); }
      else if HasString(ifExpr) { QuotesKept(ifExpr, show); }
      else { QuotesKept(elseExpr, show); }
      TernaryForm(check, ifExpr, elseExpr, show);
  }

  /**
   * The pretty-printing example tree as the printer prints it (the literal
   * 123 is a Java Integer, printed "123"): its string literal keeps its
   * quotes, so the output is two characters longer than the unquoted text
   * the accompanying test expects.
   */
  const NotReached := Ternary(Literal(BoolValue(true)), Literal(NumberValue("123")), Literal(StringValue("not reached")))
  const PrettyExample := Binary(Unary(MinusToken, Literal(NumberValue("123"))), StarToken, Grouping(NotReached))

  lemma StringLiteralQuoted(show: Renderers)
    requires show.number("123") == "123"
    ensures PrintableExpr(PrettyExample)
    ensures var expected := "(* (- 123) (group (?: true 123 not reached)))";
      '"' in PrintExpr(PrettyExample, show) && |PrintExpr(PrettyExample, show)| == |expected| + 2
      && PrintExpr(PrettyExample, show) != expected
  {
    assert PrintableExpr(NotReached);
    QuotesKept(PrettyExample, show);
    ExampleLength(show);
  }

  lemma ExampleLength(show: Renderers)
    requires show.number("123") == "123"
    ensures PrintableExpr(PrettyExample) && |PrintExpr(PrettyExample, show)| == 47
  {
    var negated := Unary(MinusToken, Literal(NumberValue("123")));
    NotReachedLength(show);
    UnaryForm(MinusToken, Literal(NumberValue("123")), show);
    GroupingForm(NotReached, show);
    BinaryForm(negated, StarToken, Grouping(NotReached), show);
  }

  lemma NotReachedLength(show: Renderers)
    requires show.number("123") == "123"
    ensures PrintableExpr(NotReached) && |PrintExpr(NotReached, show)| == 27
  {
    TernaryForm(Literal(BoolValue(true)), Literal(NumberValue("123")), Literal(StringValue("not reached")), show);
  }

  lemma SpacedOne(a: string)
    ensures Spaced([a]) == " " + a
  {
    assert [a][1..] == [];
  }

  lemma SpacedTwo(a: string, b: string)
    ensures Spaced([a, b]) == " " + a + " " + b
  {
    assert [a, b][1..] == [b];
    SpacedOne(b);
  }

  lemma SpacedThree(a: string, b: string, c: string)
    ensures Spaced([a, b, c]) == " " + a + " " + b + " " + c
  {
    assert [a, b, c][1..] == [b, c];
    SpacedTwo(b, c);
  }
}
