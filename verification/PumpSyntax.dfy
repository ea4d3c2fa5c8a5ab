/** Tokens and trees of Pump, the meta-programming language of pump.py. */
module PumpSyntax {
  import opened Wrappers

  datatype TokenType =
    | KwVar | KwElif | KwElse | KwFor | KwIf | KwRange
    | DollarId | EscapedDollar | Dollar
    | Open | Close
    | CodeText | Ident | Equals | Expression | DotDot

  /** A position in a text, as line and column. */
  datatype Cursor = Cursor(line: int, column: int)

  datatype Token = Token(start: Cursor, end: Cursor, value: string, tokenType: TokenType)

  /** What ATOMIC_CODE becomes. An identifier and a parenthesised expression both become an Exp. */
  datatype Node =
    | Var(id: Token, body: Node)
    | Range(id: Token, lower: Token, upper: Token)
    | For(id: Token, sep: Option<Token>, code: seq<Node>)
    | If(cond: Token, thenCode: seq<Node>, elseCode: Alternative)
    | RawCode(token: Token)
    | LiteralDollar(token: Token)
    | Exp(token: Token)
    | Block(code: seq<Node>)

  datatype Alternative = NoAlternative | Alternative(code: seq<Node>)
}
