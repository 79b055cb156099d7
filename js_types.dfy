/**
 * The node taxonomy of the programming-language grammar (packages/javascript/src/types.ts):
 * its token variants and its syntax node variants, each seen through the base contract.
 */
module JsTypes {
  import opened Wrappers
  import opened Core

  /**
   * The leaf variants. An identifier's, keyword's, comment's and punctuator's content is its
   * `text`. A numeric literal's value is a host float; here it is an integer.
   */
  datatype JsToken =
    | Identifier(text: string, position: Position)
    | Keyword(text: string, position: Position)
    | Comment(text: string, position: Position)
    | Punctuator(text: string, position: Position)
    | NumericLiteral(text: string, position: Position, numericValue: int)
    | StringLiteral(text: string, position: Position, stringValue: string)
    | RegexLiteral(text: string, position: Position, pattern: string, flags: string)
  {
    /** The variant's `type` tag. */
    function Kind(): string {
      match this
      case Identifier(_, _) => "Identifier"
      case Keyword(_, _) => "Keyword"
      case Comment(_, _) => "Comment"
      case Punctuator(_, _) => "Punctuator"
      case NumericLiteral(_, _, _) => "NumericLiteral"
      case StringLiteral(_, _, _) => "StringLiteral"
      case RegexLiteral(_, _, _, _) => "RegexLiteral"
    }

    /** The token seen through the base contract: a leaf, with the token's own text and span. */
    function ToCst(): (n: CstNode)
      ensures n.IsToken()
      ensures n.kind == Kind() && n.text == text && n.position == position
    {
      CstNode(Kind(), text, position, None)
    }
  }

  /** The declaration keywords a variable declaration may carry. */
  datatype DeclarationKind = Var | Let | Const {
    function Text(): (s: string)
      ensures s == "var" || s == "let" || s == "const"
    {
      match this
      case Var => "var"
      case Let => "let"
      case Const => "const"
    }
  }

  function DeclarationKindFromText(s: string): (r: Option<DeclarationKind>)
    ensures r.Some? <==> (s == "var" || s == "let" || s == "const")
    ensures r.Some? ==> r.value.Text() == s
  {
    if s == "var" then Some(Var)
    else if s == "let" then Some(Let)
    else if s == "const" then Some(Const)
    else None
  }

  lemma DeclarationKindRoundTrip(k: DeclarationKind)
    ensures DeclarationKindFromText(k.Text()) == Some(k)
  {
  }

  /** The decoded value of a literal: a string, a number, a boolean, null or a regular expression. */
  datatype LiteralValue =
    | StringValue(s: string)
    | NumberValue(n: int)
    | BooleanValue(b: bool)
    | NullValue
    | RegExpValue(source: string, regexFlags: string)

  /** An identifier used as an expression or a pattern; `name` is the identifier's name. */
  datatype AstIdentifier = AstIdentifier(text: string, position: Position, name: string)

  /** A literal expression; `raw` is the optional original text. */
  datatype AstLiteral = AstLiteral(text: string, position: Position, value: LiteralValue, raw: Option<string>)

  /** The expression variants defined so far. */
  datatype Expression =
    | IdentifierExpression(identifier: AstIdentifier)
    | LiteralExpression(literal: AstLiteral)
  {
    function Kind(): string {
      if IdentifierExpression? then "Identifier" else "Literal"
    }
  }

  /** The pattern variants defined so far: an identifier is both an expression and a pattern. */
  datatype Pattern = IdentifierPattern(identifier: AstIdentifier)

  /** One declarator of a declaration: a pattern `id` and an initialiser that may be null. */
  datatype VariableDeclarator = VariableDeclarator(text: string, position: Position, id: Pattern, init: Option<Expression>)

  /**
   * The statement variants: the two defined ones and the sentinel the builder produces for any
   * statement form it does not handle. An expression statement always carries an expression.
   * `kind` is a string because the builder fills it by an unchecked cast.
   */
  datatype Statement =
    | ExpressionStatement(text: string, position: Position, expression: Expression)
    | VariableDeclaration(text: string, position: Position, declarations: seq<VariableDeclarator>, kind: string)
    | UnsupportedStatement(text: string, position: Position)
  {
    function Kind(): string {
      match this
      case ExpressionStatement(_, _, _) => "ExpressionStatement"
      case VariableDeclaration(_, _, _, _) => "VariableDeclaration"
      case UnsupportedStatement(_, _) => "UnsupportedStatement"
    }

    /** A declaration's kind is one of the three declaration keywords. */
    predicate WellFormed() {
      VariableDeclaration? ==> DeclarationKindFromText(kind).Some?
    }
  }

  /** The root: an ordered sequence of statements. */
  datatype Program = Program(text: string, position: Position, body: seq<Statement>) {
    predicate WellFormed() {
      forall i :: 0 <= i < |body| ==> body[i].WellFormed()
    }
  }

  /** Any node of this grammar. */
  datatype JsNode =
    | ProgramNode(program: Program)
    | StatementNode(statement: Statement)
    | DeclaratorNode(declarator: VariableDeclarator)
    | ExpressionNode(expression: Expression)
    | PatternNode(pattern: Pattern)
  {
    function Kind(): string {
      match this
      case ProgramNode(_) => "Program"
      case StatementNode(s) => s.Kind()
      case DeclaratorNode(_) => "VariableDeclarator"
      case ExpressionNode(e) => e.Kind()
      case PatternNode(_) => "Identifier"
    }

    function NodeText(): string {
      match this
      case ProgramNode(p) => p.text
      case StatementNode(s) => s.text
      case DeclaratorNode(d) => d.text
      case ExpressionNode(e) => if e.IdentifierExpression? then e.identifier.text else e.literal.text
      case PatternNode(p) => p.identifier.text
    }

    function NodePosition(): Position {
      match this
      case ProgramNode(p) => p.position
      case StatementNode(s) => s.position
      case DeclaratorNode(d) => d.position
      case ExpressionNode(e) => if e.IdentifierExpression? then e.identifier.position else e.literal.position
      case PatternNode(p) => p.identifier.position
    }

    /**
     * The node seen through the base contract. None of these variants declares `children`,
     * so the view has none; the typed fields (`body`, `declarations`, ...) carry the structure.
     */
    function ToCst(): (n: CstNode)
      ensures n.kind == Kind() && n.text == NodeText() && n.position == NodePosition()
      ensures n.IsToken()
    {
      CstNode(Kind(), NodeText(), NodePosition(), None)
    }
  }
}
