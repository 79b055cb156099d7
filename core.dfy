/**
 * The language-independent base contract of the syntax tree (packages/core/src/index.ts):
 * points, positions, the generic CST node, and the token and rule node variants of the
 * markup grammar.
 */
module Core {
  import opened Wrappers

  /** A location in the source: a 0-based character index. Positions no longer use it. */
  datatype Point = Point(offset: int)

  /** A span of source text: `startOffset` is the first 0-based index, `endOffset` is exclusive. */
  datatype Position = Position(startOffset: int, endOffset: int) {

    /** A span that lies in the text and does not run backwards. */
    predicate WellFormed() {
      0 <= startOffset <= endOffset
    }

    /** The character index `offset` lies inside the span; the end is exclusive. */
    predicate Covers(offset: int) {
      startOffset <= offset < endOffset
    }

    /** Number of characters spanned. */
    function Length(): int {
      endOffset - startOffset
    }

    /** The span `inner` lies inside this one. */
    predicate Contains(inner: Position) {
      startOffset <= inner.startOffset && inner.endOffset <= endOffset
    }

    /** This span ends at or before `later` starts, so the two do not overlap. */
    predicate Precedes(later: Position) {
      endOffset <= later.startOffset
    }
  }

  /**
   * The base contract every node of every grammar satisfies: a `type` tag (here `kind`), the
   * exact text covered, its position, and children when it is a rule node. A token is a node
   * whose `children` field is absent.
   */
  datatype CstNode = CstNode(kind: string, text: string, position: Position, children: Option<seq<CstNode>>) {
    predicate IsToken() {
      children.None?
    }
  }

  /** Depth of a heading marker: the number of `#` characters, one to six. */
  type HeadingDepth = d: int | 1 <= d <= 6 witness 1

  /** The characters an emphasis marker may be. */
  datatype EmphasisChar = Asterisk | Underscore {
    function Text(): (s: string)
      ensures s == "*" || s == "_"
    {
      match this
      case Asterisk => "*"
      case Underscore => "_"
    }
  }

  function EmphasisCharFromText(s: string): (r: Option<EmphasisChar>)
    ensures r.Some? <==> (s == "*" || s == "_")
    ensures r.Some? ==> r.value.Text() == s
  {
    if s == "*" then Some(Asterisk)
    else if s == "_" then Some(Underscore)
    else None
  }

  /** The two delimiters of code: a single backtick (code span) or a triple-backtick fence. */
  datatype CodeFence = SingleBacktick | TripleBacktick {
    function Text(): (s: string)
      ensures s == "`" || s == "```"
    {
      match this
      case SingleBacktick => "`"
      case TripleBacktick => "```"
    }
  }

  function CodeFenceFromText(s: string): (r: Option<CodeFence>)
    ensures r.Some? <==> (s == "`" || s == "```")
    ensures r.Some? ==> r.value.Text() == s
  {
    if s == "`" then Some(SingleBacktick)
    else if s == "```" then Some(TripleBacktick)
    else None
  }

  /** The marker kinds of a list item: three bullets and two ordered-list delimiters. */
  datatype ListMarkerKind = Star | Dash | Plus | Dot | Paren {
    function Text(): (s: string)
      ensures |s| == 1
      ensures s == "*" || s == "-" || s == "+" || s == "." || s == ")"
    {
      match this
      case Star => "*"
      case Dash => "-"
      case Plus => "+"
      case Dot => "."
      case Paren => ")"
    }
  }

  function ListMarkerKindFromText(s: string): (r: Option<ListMarkerKind>)
    ensures r.Some? <==> (s == "*" || s == "-" || s == "+" || s == "." || s == ")")
    ensures r.Some? ==> r.value.Text() == s
  {
    if s == "*" then Some(Star)
    else if s == "-" then Some(Dash)
    else if s == "+" then Some(Plus)
    else if s == "." then Some(Dot)
    else if s == ")" then Some(Paren)
    else None
  }

  /** Each literal-union field type is exactly its enumeration: text and back is the identity. */
  lemma MarkerTextRoundTrip(e: EmphasisChar, c: CodeFence, l: ListMarkerKind)
    ensures EmphasisCharFromText(e.Text()) == Some(e)
    ensures CodeFenceFromText(c.Text()) == Some(c)
    ensures ListMarkerKindFromText(l.Text()) == Some(l)
  {
  }

  /** The leaf variants: the common tokens (whitespace to punctuation) and the markup-specific ones. */
  datatype MarkdownToken =
    | Whitespace(text: string, position: Position)
    | Newline(text: string, position: Position)
    | Word(text: string, position: Position)
    | Punctuation(text: string, position: Position)
    | HeadingMarker(text: string, position: Position, depth: HeadingDepth)
    | ListItemMarker(text: string, position: Position, markerType: ListMarkerKind)
    | EmphasisMarker(text: string, position: Position, marker: EmphasisChar)
    | CodeDelimiter(text: string, position: Position, codeMarker: CodeFence)
    | LinkLabelStart(text: string, position: Position)
    | LinkLabelEnd(text: string, position: Position)
    | LinkUrlStart(text: string, position: Position)
    | LinkUrlEnd(text: string, position: Position)
  {
    /** The variant's `type` tag. */
    function Kind(): string {
      match this
      case Whitespace(_, _) => "Whitespace"
      case Newline(_, _) => "Newline"
      case Word(_, _) => "Word"
      case Punctuation(_, _) => "Punctuation"
      case HeadingMarker(_, _, _) => "HeadingMarker"
      case ListItemMarker(_, _, _) => "ListItemMarker"
      case EmphasisMarker(_, _, _) => "EmphasisMarker"
      case CodeDelimiter(_, _, _) => "CodeDelimiter"
      case LinkLabelStart(_, _) => "LinkLabelStart"
      case LinkLabelEnd(_, _) => "LinkLabelEnd"
      case LinkUrlStart(_, _) => "LinkUrlStart"
      case LinkUrlEnd(_, _) => "LinkUrlEnd"
    }

    /** The token seen through the base contract: a leaf, with the token's own text and span. */
    function ToCst(): (n: CstNode)
      ensures n.IsToken()
      ensures n.kind == Kind() && n.text == text && n.position == position
    {
      CstNode(Kind(), text, position, None)
    }
  }

  /** A list item: a rule node holding its marker, whitespace and block content. */
  datatype ListItem = ListItem(text: string, position: Position, children: seq<CstNode>) {
    function ToCst(): (n: CstNode)
      ensures n.kind == "ListItem" && n.children == Some(children)
      ensures n.text == text && n.position == position
    {
      CstNode("ListItem", text, position, Some(children))
    }
  }

  /** The rule variants of the markup grammar. A list's children are list items by type. */
  datatype MarkdownRule =
    | Paragraph(text: string, position: Position, children: seq<CstNode>)
    | Heading(text: string, position: Position, children: seq<CstNode>)
    | Emphasis(text: string, position: Position, children: seq<CstNode>)
    | Strong(text: string, position: Position, children: seq<CstNode>)
    | CodeSpan(text: string, position: Position, children: seq<CstNode>)
    | CodeBlock(text: string, position: Position, children: seq<CstNode>)
    | ListItemNode(item: ListItem)
    | List(text: string, position: Position, items: seq<ListItem>)
  {
    /** The variant's `type` tag. */
    function Kind(): string {
      match this
      case Paragraph(_, _, _) => "Paragraph"
      case Heading(_, _, _) => "Heading"
      case Emphasis(_, _, _) => "Emphasis"
      case Strong(_, _, _) => "Strong"
      case CodeSpan(_, _, _) => "CodeSpan"
      case CodeBlock(_, _, _) => "CodeBlock"
      case ListItemNode(_) => "ListItem"
      case List(_, _, _) => "List"
    }

    /** The rule node seen through the base contract. */
    function ToCst(): (n: CstNode)
      ensures n.kind == Kind()
      ensures !n.IsToken()
      ensures !List? && !ListItemNode? ==> n.children == Some(children)
      ensures ListItemNode? ==> n == item.ToCst()
      ensures List? ==> |n.children.value| == |items|
      ensures List? ==> forall i :: 0 <= i < |items| ==> n.children.value[i] == items[i].ToCst()
    {
      match this
      case ListItemNode(item) => item.ToCst()
      case List(text, position, items) =>
        CstNode("List", text, position, Some(seq(|items|, i requires 0 <= i < |items| => items[i].ToCst())))
      case _ => CstNode(Kind(), text, position, Some(children))
    }
  }

  /** Through the base contract, every child of a list is a rule node tagged `ListItem`. */
  lemma ListChildrenAreListItems(r: MarkdownRule, c: CstNode)
    requires r.List? && r.ToCst().children.Some?
    requires c in r.ToCst().children.value
    ensures c.kind == "ListItem" && !c.IsToken()
  {
    var cs := r.ToCst().children.value;
    var i :| 0 <= i < |cs| && cs[i] == c;
    assert c == r.items[i].ToCst();
  }

  /** The `type` tag separates leaves from rule nodes: no token shares a tag with a rule node. */
  lemma TokenAndRuleKindsDiffer(t: MarkdownToken, r: MarkdownRule)
    ensures t.Kind() != r.Kind()
  {
  }
}
