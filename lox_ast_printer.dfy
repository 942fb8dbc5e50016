/**
 * jlox's AstPrinter (AstPrinter.java): prints expressions as prefix
 * s-expressions and statements as parenthesised forms ending in ";\n".
 * Double.toString and Token.toString are called for number literals and
 * variables; this model takes them as parameters.
 */
module LoxAstPrinter {
  import opened Wrappers
  import opened LoxTokens
  import opened LoxAst
  import opened LoxText

  /** The library calls the printer makes and this model leaves uninterpreted. */
  datatype Renderers = Renderers(number: string -> string, token: Token -> string)

  // ---------------------------------------------------------------------
  // What the printer can print. AstPrinter.java has no visitor for Get,
  // Set, Super, This or Class, and calls accept() on null (a missing
  // initializer or return value, a statement abandoned by the parser),
  // which throws.

  predicate PrintableExpr(e: Expr)
    decreases e
  {
    match e
    case Assign(_, value) => PrintableExpr(value)
    case Binary(left, _, right) => PrintableExpr(left) && PrintableExpr(right)
    case Call(callee, _, arguments) => PrintableExpr(callee) && forall i :: 0 <= i < |arguments| ==> PrintableExpr(arguments[i])
    case Grouping(inner) => PrintableExpr(inner)
    case Literal(_) => true
    case Logical(left, _, right) => PrintableExpr(left) && PrintableExpr(right)
    case Unary(_, right) => PrintableExpr(right)
    case Ternary(check, ifExpr, elseExpr) => PrintableExpr(check) && PrintableExpr(ifExpr) && PrintableExpr(elseExpr)
    case Variable(_) => true
    case _ => false
  }

  predicate PrintableStmt(s: Stmt)
    decreases s
  {
    match s
    case Block(statements) => PrintableSlots(statements)
    case Class(_, _, _) => false
    case Expression(e) => PrintableExpr(e)
    case Function(f) => PrintableSlots(f.body)
    case If(condition, thenBranch, elseBranch) =>
      PrintableExpr(condition) && PrintableStmt(thenBranch) && (elseBranch.Some? ==> PrintableStmt(elseBranch.value))
    case Print(e) => PrintableExpr(e)
    case Return(_, value) => value.Some? && PrintableExpr(value.value)
    case Var(_, initializer) => initializer.Some? && PrintableExpr(initializer.value)
    case While(condition, body) => PrintableExpr(condition) && PrintableStmt(body)
  }

  predicate PrintableSlots(ss: seq<Option<Stmt>>)
    decreases ss
  {
    forall i :: 0 <= i < |ss| ==> PrintableSlot(ss[i])
  }

  predicate PrintableSlot(o: Option<Stmt>)
    decreases o
  {
    match o
    case None => false
    case Some(s) => PrintableStmt(s)
  }

  // ---------------------------------------------------------------------
  // The printer

  /** parenthesize(name, exprs...): "(" name, then " " and each part, then ")". */
  function Parenthesize(name: string, parts: seq<string>): (r: string)
    ensures |r| >= |name| + 2 && r[0] == '(' && r[1..|name| + 1] == name && r[|r| - 1] == ')'
  {
    "(" + name + Spaced(parts) + ")"
  }

  function LiteralText(v: LiteralValue, show: Renderers): string {
    match v
    case NoValue => "nil"
    case StringValue(s) => "\"" + s + "\""
    case BoolValue(b) => if b then "true" else "false"
    case NumberValue(text) => show.number(text)
  }

  /** Whether an expression prints as a parenthesised form. */
  predicate Compound(e: Expr) {
    !e.Literal? && !e.Variable?
  }

  function PrintExpr(e: Expr, show: Renderers): (r: string)
    requires PrintableExpr(e)
    ensures Compound(e) ==> |r| >= 2 && r[0] == '(' && r[|r| - 1] == ')'
    decreases e, 1
  {
    match e
    case Assign(name, value) => "(= " + name.lexeme + " " + PrintExpr(value, show) + ")"
    case Ternary(check, ifExpr, elseExpr) =>
      Parenthesize("?:", [PrintExpr(check, show), PrintExpr(ifExpr, show), PrintExpr(elseExpr, show)])
    case Binary(left, operator, right) => Parenthesize(operator.lexeme, [PrintExpr(left, show), PrintExpr(right, show)])
    case Call(callee, _, arguments) => "(call" + PrintExpr(callee, show) + Spaced(PrintExprs(arguments, show)) + ")"
    case Grouping(inner) => Parenthesize("group", [PrintExpr(inner, show)])
    case Literal(v) => LiteralText(v, show)
    case Logical(left, operator, right) => Parenthesize(operator.lexeme, [PrintExpr(left, show), PrintExpr(right, show)])
    case Unary(operator, right) => Parenthesize(operator.lexeme, [PrintExpr(right, show)])
    case Variable(name) => show.token(name)
  }

  function PrintExprs(es: seq<Expr>, show: Renderers): (r: seq<string>)
    requires forall i :: 0 <= i < |es| ==> PrintableExpr(es[i])
    ensures |r| == |es| && forall i :: 0 <= i < |es| ==> r[i] == PrintExpr(es[i], show)
    decreases es, 0
  {
    if |es| == 0 then [] else [PrintExpr(es[0], show)] + PrintExprs(es[1..], show)
  }

  /** Whether a statement prints as a line ending in ";\n" (otherwise it ends with ")"). */
  predicate LineForm(s: Stmt) {
    s.Expression? || s.If? || s.Print? || s.Var? || s.While?
  }

  function PrintStmt(s: Stmt, show: Renderers): (r: string)
    requires PrintableStmt(s)
    ensures LineForm(s) ==> |r| >= 2 && r[|r| - 2] == ';' && r[|r| - 1] == '\n'
    ensures !LineForm(s) ==> |r| >= 2 && r[0] == '(' && r[|r| - 1] == ')'
    decreases s, 1
  {
    match s
    case Block(statements) => "(block " + Concat(PrintSlots(statements, show)) + ")"
    case Expression(e) => PrintExpr(e, show) + ";\n"
    case Function(f) =>
      "(func (params " + Spaced(Lexemes(f.params)) + ") (body " + Spaced(PrintSlots(f.body, show)) + "))"
    case If(_, _, _) => PrintIf(s, show)
    case Print(e) => "(print " + PrintExpr(e, show) + ");\n"
    case Return(keyword, value) => Parenthesize(keyword.lexeme, [PrintExpr(value.value, show)])
    case Var(name, initializer) => "(var " + name.lexeme + " " + PrintExpr(initializer.value, show) + ");\n"
    case While(condition, body) => "(while " + PrintExpr(condition, show) + " " + PrintStmt(body, show) + ");\n"
  }

  /** visitIfStmt: each branch printed and stripped of surrounding whitespace. */
  function PrintIf(s: Stmt, show: Renderers): (r: string)
    requires s.If? && PrintableStmt(s)
    ensures |r| >= 2 && r[|r| - 2] == ';' && r[|r| - 1] == '\n'
    decreases s, 0
  {
    "(if " + PrintExpr(s.condition, show) + " " + Strip(PrintStmt(s.thenBranch, show))
    + (if s.elseBranch.None? then "" else " " + Strip(PrintStmt(s.elseBranch.value, show))) + ");\n"
  }

  function PrintSlots(ss: seq<Option<Stmt>>, show: Renderers): (r: seq<string>)
    requires PrintableSlots(ss)
    ensures |r| == |ss|
    decreases ss, 0
  {
    if |ss| == 0 then [] else [PrintSlot(ss[0], show)] + PrintSlots(ss[1..], show)
  }

  function PrintSlot(o: Option<Stmt>, show: Renderers): string
    requires PrintableSlot(o)
    decreases o, 2
  {
    PrintStmt(o.value, show)
  }

  function Lexemes(params: seq<Token>): (r: seq<string>)
    ensures |r| == |params| && forall i :: 0 <= i < |params| ==> r[i] == params[i].lexeme
  {
    if |params| == 0 then [] else [params[0].lexeme] + Lexemes(params[1..])
  }
}
