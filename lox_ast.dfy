/**
 * The jlox syntax tree: the expression and statement nodes listed in
 * GenerateAst.java. A statement slot that holds Java's null (a
 * declaration abandoned after a parse error, a missing else branch or
 * initializer) is an Option.
 */
module LoxAst {
  import opened Wrappers
  import opened LoxTokens

  datatype Expr =
    | Assign(name: Token, value: Expr)
    | Binary(left: Expr, operator: Token, right: Expr)
    | Call(callee: Expr, paren: Token, arguments: seq<Expr>)
    | Get(obj: Expr, name: Token)
    | Grouping(expression: Expr)
    | Literal(literal: LiteralValue)
    | Set(obj: Expr, name: Token, value: Expr)
    | Super(keyword: Token, methodName: Token)
    | This(keyword: Token)
    | Logical(left: Expr, operator: Token, right: Expr)
    | Unary(operator: Token, right: Expr)
    | Ternary(check: Expr, ifExpr: Expr, elseExpr: Expr)
    | Variable(name: Token)

  /** Stmt.Function's fields; a class keeps its methods as a list of these. */
  datatype FunctionDecl = FunctionDecl(name: Option<Token>, params: seq<Token>, body: seq<Option<Stmt>>)

  datatype Stmt =
    | Block(statements: seq<Option<Stmt>>)
    | Class(name: Token, superclass: Option<Expr>, methods: seq<FunctionDecl>)
    | Expression(expression: Expr)
    | Function(decl: FunctionDecl)
    | If(condition: Expr, thenBranch: Stmt, elseBranch: Option<Stmt>)
    | Print(expression: Expr)
    | Return(keyword: Token, value: Option<Expr>)
    | Var(name: Token, initializer: Option<Expr>)
    | While(condition: Expr, body: Stmt)
}
