/**
 * jlox's RpnPrinter (RpnPrinter.java): prints an arithmetic expression in
 * reverse Polish notation. The printer has visitors for Binary, Unary,
 * Literal and Grouping only; a literal is printed with toString(), which
 * for a number is Double.toString and is a parameter here.
 */
module LoxRpnPrinter {
  import opened LoxTokens
  import opened LoxAst
  import opened LoxText

  /**
   * What the printer can print: the four node kinds it visits, and no nil
   * literal (toString() on Java's null throws).
   */
  predicate RpnPrintable(e: Expr)
    decreases e
  {
    match e
    case Binary(left, _, right) => RpnPrintable(left) && RpnPrintable(right)
    case Unary(_, right) => RpnPrintable(right)
    case Grouping(inner) => RpnPrintable(inner)
    case Literal(v) => !v.NoValue?
    case _ => false
  }

  /** toString() of a literal's value: a string is printed without quotes. */
  function RpnLiteral(v: LiteralValue, number: string -> string): string {
    match v
    case StringValue(s) => s
    case BoolValue(b) => if b then "true" else "false"
    case NumberValue(text) => number(text)
    case NoValue => ""
  }

  /** A negation prints as "~", so that it cannot be read as a subtraction; other operators print as written. */
  function UnaryOperator(operator: Token): (s: string)
    ensures s != "-" && (operator.lexeme != "-" ==> s == operator.lexeme)
  {
    if operator.lexeme == "-" then "~" else operator.lexeme
  }

  /** The printer's output: a node's operator comes last, after a space and after both operands. */
  function RpnPrint(e: Expr, number: string -> string): (r: string)
    requires RpnPrintable(e)
    ensures e.Binary? ==> var op := e.operator.lexeme;
      |r| > |op| && r[|r| - |op|..] == op && r[|r| - |op| - 1] == ' '
    ensures e.Unary? ==> var op := UnaryOperator(e.operator);
      |r| > |op| && r[|r| - |op|..] == op && r[|r| - |op| - 1] == ' '
    decreases e
  {
    match e
    case Binary(left, operator, right) => RpnPrint(left, number) + " " + RpnPrint(right, number) + " " + operator.lexeme
    case Unary(operator, right) => RpnPrint(right, number) + " " + UnaryOperator(operator)
    case Literal(v) => RpnLiteral(v, number)
    case Grouping(inner) => RpnPrint(inner, number)
  }

  // ---------------------------------------------------------------------
  // Reference: the post-order list of operands and operators

  /** The tree's leaves and operators in post-order, groupings dropped. */
  function PostOrder(e: Expr, number: string -> string): (r: seq<string>)
    requires RpnPrintable(e)
    ensures |r| > 0
    decreases e
  {
    match e
    case Binary(left, operator, right) => PostOrder(left, number) + PostOrder(right, number) + [operator.lexeme]
    case Unary(operator, right) => PostOrder(right, number) + [UnaryOperator(operator)]
    case Literal(v) => [RpnLiteral(v, number)]
    case Grouping(inner) => PostOrder(inner, number)
  }

  /** The printer's output is the post-order list joined by single spaces. */
  lemma {:induction false} RpnIsPostfix(e: Expr, number: string -> string)
    requires RpnPrintable(e)
    ensures RpnPrint(e, number) == JoinSpaces(PostOrder(e, number))
    decreases e
  {
    match e
    case Binary(left, operator, right) =>
      var l, r := PostOrder(left, number), PostOrder(right, number);
      RpnIsPostfix(left, number);
      RpnIsPostfix(right, number);
      JoinAppend(r, [operator.lexeme]);
      JoinAppend(l, r + [operator.lexeme]);
      assert l + r + [operator.lexeme] == l + (r + [operator.lexeme]);
    case Unary(operator, right) =>
      RpnIsPostfix(right, number);
      JoinAppend(PostOrder(right, number), [UnaryOperator(operator)]);
    case Literal(_) =>
    case Grouping(inner) =>
      RpnIsPostfix(inner, number);
  }

  // ---------------------------------------------------------------------
  // No parentheses

  predicate ParenFree(s: string) {
    forall k :: 0 <= k < |s| ==> s[k] != '(' && s[k] != ')'
  }

  /** Every operator lexeme and every printed literal of the tree is free of parentheses. */
  predicate PiecesParenFree(e: Expr, number: string -> string)
    requires RpnPrintable(e)
    decreases e
  {
    match e
    case Binary(left, operator, right) =>
      PiecesParenFree(left, number) && PiecesParenFree(right, number) && ParenFree(operator.lexeme)
    case Unary(operator, right) => PiecesParenFree(right, number) && ParenFree(operator.lexeme)
    case Literal(v) => ParenFree(RpnLiteral(v, number))
    case Grouping(inner) => PiecesParenFree(inner, number)
  }

  lemma ParenFreeJoin(a: string, b: string)
    requires ParenFree(a) && ParenFree(b)
    ensures ParenFree(a + " " + b)
  {
    assert forall k :: 0 <= k < |a| ==> (a + " " + b)[k] == a[k];
    assert forall k :: |a| + 1 <= k < |a| + 1 + |b| ==> (a + " " + b)[k] == b[k - |a| - 1];
  }

  /**
   * The output is purely postfix: a grouping adds no parentheses, so the
   * output has one only where an operator or a printed literal has one.
   */
  lemma {:induction false} NoParens(e: Expr, number: string -> string)
    requires RpnPrintable(e) && PiecesParenFree(e, number)
    ensures ParenFree(RpnPrint(e, number))
    decreases e
  {
    match e
    case Binary(left, operator, right) =>
      NoParens(left, number);
      NoParens(right, number);
      ParenFreeJoin(RpnPrint(left, number), RpnPrint(right, number));
      ParenFreeJoin(RpnPrint(left, number) + " " + RpnPrint(right, number), operator.lexeme);
    case Unary(operator, right) =>
      NoParens(right, number);
      ParenFreeJoin(RpnPrint(right, number), UnaryOperator(operator));
    case Literal(_) =>
    case Grouping(inner) =>
      NoParens(inner, number);
  }

  // ---------------------------------------------------------------------
  // Groupings are transparent

  /** The tree with every grouping node removed. */
  function Ungroup(e: Expr): (r: Expr)
    requires RpnPrintable(e)
    ensures RpnPrintable(r) && !r.Grouping?
    decreases e
  {
    match e
    case Binary(left, operator, right) => Binary(Ungroup(left), operator, Ungroup(right))
    case Unary(operator, right) => Unary(operator, Ungroup(right))
    case Literal(v) => Literal(v)
    case Grouping(inner) => Ungroup(inner)
  }

  /** Removing every grouping leaves the output unchanged. */
  lemma {:induction false} GroupingTransparent(e: Expr, number: string -> string)
    requires RpnPrintable(e)
    ensures RpnPrint(Ungroup(e), number) == RpnPrint(e, number)
    decreases e
  {
    match e
    case Binary(left, _, right) =>
      GroupingTransparent(left, number);
      GroupingTransparent(right, number);
    case Unary(_, right) =>
      GroupingTransparent(right, number);
    case Literal(_) =>
    case Grouping(inner) =>
      GroupingTransparent(inner, number);
  }

  // ---------------------------------------------------------------------
  // The printer's example

  /** (-123) * ("str"), with the Integer 123 printed "123": "123 ~ str *". */
  lemma NegationTimesString(number: string -> string)
    requires number("123") == "123"
    ensures RpnPrint(Binary(Unary(Token(Minus, "-", NoValue, 1), Literal(NumberValue("123"))),
      Token(Star, "*", NoValue, 1), Grouping(Literal(StringValue("str")))), number) == "123 ~ str *"
  {
    ExampleText();
  }

  lemma ExampleText()
    ensures "123" + " " + "~" + " " + "str" + " " + "*" == "123 ~ str *"
  {
  }
}
