# A verified model of the sylphlab/ast translation layer

This project is a Dafny model of the layer that turns the tree from an external, grammar-driven
parser into typed syntax nodes. It has four parts:

- **The base contract and the markup taxonomy** (module `Core`). A point and a position are
  0-based character offsets, and a position's end is exclusive. The generic `CstNode` has a
  `type` tag (`kind` here), its text, its position and optional children. A token is a node
  without children. The markup grammar's token variants and rule variants are datatypes, and
  `ToCst` shows each one through the base contract. The literal-union field types are
  enumerations: emphasis marker `*`/`_`, code delimiter a backtick or a triple-backtick fence,
  list marker `*`, `-`, `+`, `.` or `)`. The heading depth is the subset type `1..6`. A list's
  children are list items by their type.
- **The programming-language taxonomy** (module `JsTypes`). It covers the token variants
  (identifier, keyword, comment, punctuator, numeric, string and regex literal), the declaration
  kinds `var`/`let`/`const`, literal values, identifiers, expressions, patterns, declarators,
  the three statement variants and the program.
- **The tree builder** (module `AstBuilder`). `CreatePosition` turns inclusive token bounds into
  an exclusive-end position. The visitor has no state, so each visit method is a function of its
  rule context: program, statement dispatch, variable statement, expression statement, and the
  default result for contexts with no visit method. The rule contexts of the external parser are
  reduced to what the builder reads (module `ParseTree`).
- **The entry point** (module `JavaScriptParser`). `ParseJavaScript` returns null for empty
  text and null when the parse step throws. Otherwise it returns the builder's result. The parse
  step is a function parameter from the source text to a tree or a failure.

The main results are these:
- The body of a program is exactly the non-null results of its source elements, in source order.
- No expression statement ever reaches a body.
- A statement form the builder does not handle becomes the `UnsupportedStatement` sentinel.
- The parse result is null exactly for empty text or a failed parse.
- If the parser's bounds are nested and ordered, the body's spans lie inside the program's span
  and do not overlap.

Where the design description of the system and the code disagree, the model follows the code:
- With no stop token, the end offset is `startIndex + 1` (a one-character span), not
  `startIndex` (packages/javascript/src/AstBuilderVisitor.ts:34-37).
- The only sentinel is `UnsupportedStatement`, and it applies to statements alone.
- A source element whose result is null is dropped from the body
  (packages/javascript/src/AstBuilderVisitor.ts:52). It is not propagated as a failure.
- A variable declaration has no declarators yet, and its kind is the text of the `Var`
  keyword, cast without a check, or `"var"` (packages/javascript/src/AstBuilderVisitor.ts:87-95).
  `VarStatementExample` shows this for `var a = 1;`.
- An expression statement always yields null (packages/javascript/src/AstBuilderVisitor.ts:102-104),
  so `1;` gives an empty body (`ExpressionStatementExample`).
- Nothing builds an invalid-span error, a diagnostics log or a literal decoder.

## Model

| member | source | states |
|---|---|---|
| `Core.EmphasisChar.Text` | packages/core/src/index.ts:86-89 | an emphasis marker is `*` or `_` |
| `Core.EmphasisCharFromText` | packages/core/src/index.ts:86-89 | a string is a marker exactly when it is `*` or `_`, and reading it back gives the same text |
| `Core.CodeFence.Text` | packages/core/src/index.ts:91-95 | a code delimiter is a single backtick or a triple-backtick fence |
| `Core.CodeFenceFromText` | packages/core/src/index.ts:91-95 | a string is a code delimiter exactly when it is one of the two fences; it reads back to the same text |
| `Core.ListMarkerKind.Text` | packages/core/src/index.ts:80-84 | a list marker type is one character among `*`, `-`, `+`, `.`, `)` |
| `Core.ListMarkerKindFromText` | packages/core/src/index.ts:80-84 | a string is a marker type exactly when it is one of the five; it reads back to the same text |
| `Core.MarkerTextRoundTrip` | packages/core/src/index.ts:80-95 | each enumeration matches its literal union exactly: text and back is the identity |
| `Core.MarkdownToken.ToCst` | packages/core/src/index.ts:50-100 | every token variant, common or markup-specific, is a node without children, with its own tag, text and position |
| `Core.ListItem.ToCst` | packages/core/src/index.ts:135-138 | a list item is a rule node tagged `ListItem` that carries its (possibly empty) children |
| `Core.MarkdownRule.ToCst` | packages/core/src/index.ts:105-143 | paragraph, heading, emphasis, strong, code span, code block and list item always carry their children; a list's children are its items' views |
| `Core.ListChildrenAreListItems` | packages/core/src/index.ts:140-143 | every child of a list node is a rule node tagged `ListItem` |
| `Core.TokenAndRuleKindsDiffer` | packages/core/src/index.ts:57-143 | no token variant shares its `type` tag with a rule variant |
| `JsTypes.JsToken.ToCst` | packages/javascript/src/types.ts:10-51 | every JS token, the regex literal with its pattern and flags included, is a node without children, with its own tag, text and position |
| `JsTypes.DeclarationKind.Text` | packages/javascript/src/types.ts:83-87 | a declaration kind is `var`, `let` or `const` |
| `JsTypes.DeclarationKindFromText` | packages/javascript/src/types.ts:83-87 | a string is a declaration kind exactly when it is one of the three keywords; it reads back to the same text |
| `JsTypes.DeclarationKindRoundTrip` | packages/javascript/src/types.ts:83-87 | the enumeration matches the literal union: text and back is the identity |
| `JsTypes.JsNode.ToCst` | packages/javascript/src/types.ts:61-111 | every JS node satisfies the base contract with its own tag, text and position; no JS node variant sets `children` |
| `AstBuilder.CreatePosition` | packages/javascript/src/AstBuilderVisitor.ts:32-39 | start offset is the start index; the covered offsets are exactly the inclusive range up to the stop index (or the start index); the end is the stop index + 1, or start + 1 without a stop token, a length of 1 |
| `AstBuilder.CreatePositionWellFormed` | packages/javascript/src/AstBuilderVisitor.ts:32-39 | the position is well formed (0 <= start <= end) exactly when the start index is not negative and the stop index is at least start - 1 |
| `AstBuilder.CreatePositionMonotone` | packages/javascript/src/AstBuilderVisitor.ts:32-39 | nested token bounds give contained positions |
| `AstBuilder.FilterNonNull` | packages/javascript/src/AstBuilderVisitor.ts:52 | filtering out nulls never lengthens the sequence |
| `AstBuilder.FilterNonNullPicks` | packages/javascript/src/AstBuilderVisitor.ts:52 | the filter keeps exactly the non-null entries, each one, in their original order |
| `AstBuilder.FilterNonNullMembers` | packages/javascript/src/AstBuilderVisitor.ts:52 | every kept value came from a non-null entry |
| `AstBuilder.FilterNonNullAllNull` | packages/javascript/src/AstBuilderVisitor.ts:52 | a sequence of nulls filters to nothing |
| `AstBuilder.FilterNonNullAppend` | packages/javascript/src/AstBuilderVisitor.ts:52 | filtering distributes over concatenation |
| `AstBuilder.DefaultResult` | packages/javascript/src/AstBuilderVisitor.ts:125-127 | a context with no visit method yields null |
| `AstBuilder.VisitVariableStatement` | packages/javascript/src/AstBuilderVisitor.ts:83-96 | never null; a `VariableDeclaration` with the context's text and position, no declarators, and kind the `Var` keyword's text when present, else `var` |
| `AstBuilder.VariableDeclarationKindValid` | packages/javascript/src/AstBuilderVisitor.ts:87 | the declaration's kind is one of var/let/const exactly when the `Var` keyword is absent or its text is one of them (the cast is unchecked) |
| `AstBuilder.VisitExpressionStatement` | packages/javascript/src/AstBuilderVisitor.ts:98-112 | always null: the expression is a placeholder that is never built |
| `AstBuilder.VisitStatement` | packages/javascript/src/AstBuilderVisitor.ts:64-81 | a variable statement wins over an expression statement; the result is null exactly for an expression-only statement; it is `UnsupportedStatement` with the statement's text and position exactly when neither alternative is present; never an expression statement |
| `AstBuilder.VisitSourceElement` | packages/javascript/src/AstBuilderVisitor.ts:125-127 | a statement element yields its statement's result; any other element yields the default null |
| `AstBuilder.VisitEach` | packages/javascript/src/AstBuilderVisitor.ts:52 | one result per source element, in order, each the element's visit result |
| `AstBuilder.VisitProgram` | packages/javascript/src/AstBuilderVisitor.ts:48-61 | never null; carries the context's text and position; empty body without source elements; never more body entries than source elements |
| `AstBuilder.BodyIsNonNullResultsInOrder` | packages/javascript/src/AstBuilderVisitor.ts:50-53 | the body is exactly the non-null results of visiting the source elements, in source order |
| `AstBuilder.BodyHasNoExpressionStatement` | packages/javascript/src/AstBuilderVisitor.ts:51-53 | every body entry is a variable declaration or the unsupported sentinel, never an expression statement |
| `AstBuilder.ExpressionOnlyProgramHasEmptyBody` | packages/javascript/src/AstBuilderVisitor.ts:98-104 | a program made only of expression statements has an empty body |
| `AstBuilder.ProgramKindsWellFormed` | packages/javascript/src/AstBuilderVisitor.ts:87-94 | if every `Var` keyword text is a declaration keyword, every declaration in the body has kind var, let or const |
| `AstBuilder.StatementResultBounds` | packages/javascript/src/AstBuilderVisitor.ts:66-91 | a non-null result comes from a statement element, positioned at its variable statement's bounds or else its own |
| `AstBuilder.BodySpansNestedAndOrdered` | packages/javascript/src/AstBuilderVisitor.ts:51-59 | given nested, ordered parser bounds, each body span lies inside the program span and the body spans follow one another without overlap |
| `AstBuilder.VarStatementExample` | packages/javascript/src/AstBuilderVisitor.ts:87-95 | `var a = 1;` builds one `var` declaration spanning 0..10 with no declarators |
| `AstBuilder.ExpressionStatementExample` | packages/javascript/src/AstBuilderVisitor.ts:102-104 | `1;` builds an empty body |
| `JavaScriptParser.BuildTree` | packages/javascript/src/index.ts:43-45 | visiting the root tree always gives a `Program` node with the tree's text |
| `JavaScriptParser.ParseJavaScript` | packages/javascript/src/index.ts:15-54 | empty text gives null; a thrown parse gives null; otherwise the result is the builder's result on the tree |
| `JavaScriptParser.NullExactlyOnEmptyOrFailure` | packages/javascript/src/index.ts:16-19 | the result is null exactly when the text is empty or the parse step throws |
| `JavaScriptParser.EmptyInputIgnoresParser` | packages/javascript/src/index.test.ts:24-28 | empty text gives null whatever the parser does, so it is never consulted |
| `JavaScriptParser.ParsedRootIsProgram` | packages/javascript/src/index.test.ts:7-15 | a successful parse of non-empty text has a root whose `type` is `Program` and which is the builder's program for the tree |

## Left out

- The lexer, token stream and parser that the external parser generator produces, and their
  runtime (packages/javascript/src/index.ts:23-39). They are foreign code. One function
  parameter from the text to a tree or a failure stands for them, and the rule contexts are
  reduced to their text, token bounds and the child accessors the builder calls.
- JavaScriptParser.ParseJavaScript: exceptions thrown inside the builder are not modelled. The
  modelled builder is total, so the only failure comes from the parse step. An exception from
  the runtime's context accessors would also become null in the source.
- The default child aggregation of the runtime's visitor. When a source element is not a
  statement, the model gives it the default result (null); the runtime would return its last
  child's result.
- The `console.log`/`warn`/`error` calls. They are output only.
- JS `number` float semantics. `NumericLiteral`'s value and numeric `AstLiteral` values are
  integers, and a `RegExp` value is its pattern and flags. The code decodes no literals.
- The open `Statement`, `Expression` and `Pattern` base interfaces. Only the variants the source
  defines are modelled: identifiers and literals as expressions, and identifiers as patterns.
- The commented-out incremental-parse code and the `version` constants. The first is dead; the
  second is data.
- The build and lint configuration (packages/core/tsup.config.ts, eslint.config.js).
- `Point` is declared but unused, as in the source, where positions no longer use points.
