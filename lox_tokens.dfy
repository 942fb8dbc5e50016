/**
 * jlox tokens: the token types the scanner and the parser use, the
 * literal values a token can carry, and the table of reserved words
 * (Scanner.java).
 */
module LoxTokens {
  import opened Wrappers

  datatype TokenType =
    // One-character tokens
    | LeftParen | RightParen | LeftBrace | RightBrace
    | Comma | Dot | Minus | Plus | Semicolon | Slash | Star
    | Question | Colon
    // One- or two-character tokens
    | Bang | BangEqual | Equal | EqualEqual
    | Greater | GreaterEqual | Less | LessEqual
    // Literals
    | Identifier | StringTok | NumberTok
    // Keywords
    | And | Class | Else | False | Fun | For | If | Nil | Or
    | Print | Return | Super | This | True | Var | While
    | Eof

  /**
   * The value a token or a literal node carries. `NoValue` is Java's
   * null (which is also Lox's nil); a number is kept as the decimal text
   * Double.parseDouble reads.
   */
  datatype LiteralValue = NoValue | BoolValue(b: bool) | NumberValue(text: string) | StringValue(s: string)

  datatype Token = Token(tokenType: TokenType, lexeme: string, literal: LiteralValue, line: int)

  /** One call of Lox.error(token, message), by the parser or the resolver. */
  datatype Report = Report(token: Token, message: string)

  /** The keyword table: the type of a reserved word, None for any other text. */
  function KeywordType(text: string): (r: Option<TokenType>)
    ensures r.Some? ==> IsKeywordType(r.value)
  {
    match text
    case "and" => Some(And)
    case "class" => Some(Class)
    case "else" => Some(Else)
    case "false" => Some(False)
    case "for" => Some(For)
    case "fun" => Some(Fun)
    case "if" => Some(If)
    case "nil" => Some(Nil)
    case "or" => Some(Or)
    case "print" => Some(Print)
    case "return" => Some(Return)
    case "super" => Some(Super)
    case "this" => Some(This)
    case "true" => Some(True)
    case "var" => Some(Var)
    case "while" => Some(While)
    case _ => None
  }

  predicate IsKeywordType(t: TokenType) {
    t in {And, Class, Else, False, Fun, For, If, Nil, Or, Print, Return, Super, This, True, Var, While}
  }

  /** The reserved word of a keyword type. */
  function KeywordText(t: TokenType): string
    requires IsKeywordType(t)
  {
    match t
    case And => "and" case Class => "class" case Else => "else" case False => "false"
    case For => "for" case Fun => "fun" case If => "if" case Nil => "nil"
    case Or => "or" case Print => "print" case Return => "return" case Super => "super"
    case This => "this" case True => "true" case Var => "var" case While => "while"
  }

  /** Every keyword type is found in the table under its reserved word. */
  lemma KeywordFound(t: TokenType)
    requires IsKeywordType(t)
    ensures KeywordType(KeywordText(t)) == Some(t)
  {
  }

  /** A word found in the table is the reserved word of the keyword type found. */
  lemma KeywordOnlyReserved(text: string)
    requires KeywordType(text).Some?
    ensures IsKeywordType(KeywordType(text).value) && text == KeywordText(KeywordType(text).value)
  {
  }
}
