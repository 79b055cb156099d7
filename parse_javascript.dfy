/**
 * The public entry point (packages/javascript/src/index.ts). The lexer, token stream and parser
 * are one opaque step from the source text to either a program tree or a thrown failure; the
 * result is then handed to the builder.
 */
module JavaScriptParser {
  import opened Wrappers
  import opened JsTypes
  import opened ParseTree
  import AstBuilder

  /** What the external parse step gives back: the program's tree, or an exception. */
  datatype ParseOutcome = Parsed(tree: ProgramContext) | Threw

  /** `visitor.visit(tree)` on the root: the program context dispatches to the program visit. */
  function BuildTree(tree: ProgramContext): (r: Option<JsNode>)
    ensures r.Some? && r.value.ProgramNode?
    ensures r.value.program.text == tree.text
  {
    match AstBuilder.VisitProgram(tree)
    case Some(program) => Some(ProgramNode(program))
    case None => None
  }

  /**
   * Parses source text: null for empty text (the parser is not consulted), null when the parse
   * step throws, and otherwise the builder's result on the tree.
   */
  function ParseJavaScript(text: string, parseProgram: string -> ParseOutcome): (r: Option<JsNode>)
    ensures text == [] ==> r.None?
    ensures text != [] && parseProgram(text).Threw? ==> r.None?
    ensures text != [] && parseProgram(text).Parsed? ==> r == BuildTree(parseProgram(text).tree)
  {
    if text == [] then
      None
    else
      match parseProgram(text)
      case Threw => None
      case Parsed(tree) => BuildTree(tree)
  }

  /** The result is null exactly for empty text or a failed parse. */
  lemma NullExactlyOnEmptyOrFailure(text: string, parseProgram: string -> ParseOutcome)
    ensures ParseJavaScript(text, parseProgram).None? <==> text == [] || parseProgram(text).Threw?
  {
  }

  /** Empty text gives null whatever the parser would have done. */
  lemma EmptyInputIgnoresParser(first: string -> ParseOutcome, second: string -> ParseOutcome)
    ensures ParseJavaScript([], first) == ParseJavaScript([], second) == None
  {
  }

  /** A successful parse of non-empty text yields a `Program` root over the whole tree. */
  lemma ParsedRootIsProgram(text: string, parseProgram: string -> ParseOutcome)
    requires text != [] && parseProgram(text).Parsed?
    ensures var r := ParseJavaScript(text, parseProgram);
      && r.Some? && r.value.Kind() == "Program" && r.value.ToCst().kind == "Program"
      && r.value == ProgramNode(AstBuilder.VisitProgram(parseProgram(text).tree).value)
  {
  }
}
