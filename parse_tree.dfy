/**
 * The external parser's tree, as far as the builder reads it. The generated parser is not part
 * of this model; each rule context is reduced to its matched text, its token bounds and the
 * child accessors the builder calls.
 */
module ParseTree {
  import opened Wrappers

  /**
   * The token bounds of a matched rule: the start token's inclusive `startIndex`, and the stop
   * token's inclusive `stopIndex` when a stop token exists.
   */
  datatype RuleBounds = RuleBounds(startIndex: int, stopIndex: Option<int>)

  /** `var ...;` — `varKeyword` is the text of the `Var` terminal when the match has one. */
  datatype VariableStatementContext = VariableStatementContext(text: string, bounds: RuleBounds, varKeyword: Option<string>)

  datatype ExpressionStatementContext = ExpressionStatementContext(text: string, bounds: RuleBounds)

  /** A statement, with the two alternatives the builder looks for; both are absent for other forms. */
  datatype StatementContext = StatementContext(
    text: string,
    bounds: RuleBounds,
    variableStatement: Option<VariableStatementContext>,
    expressionStatement: Option<ExpressionStatementContext>)

  /** A source element: a statement, or another form the builder has no visit function for. */
  datatype SourceElementContext =
    | StatementElement(statement: StatementContext)
    | OtherElement(text: string, bounds: RuleBounds)

  /** The root; `sourceElements` is absent for a program with no source elements. */
  datatype ProgramContext = ProgramContext(text: string, bounds: RuleBounds, sourceElements: Option<seq<SourceElementContext>>)
}
