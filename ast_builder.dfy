/**
 * The tree builder for the programming-language grammar (packages/javascript/src/AstBuilderVisitor.ts).
 * The visitor keeps no state, so each of its visit methods is a function of the rule context it
 * is given.
 */
module AstBuilder {
  import opened Wrappers
  import opened Core
  import opened JsTypes
  import opened ParseTree

  /* ---------- Span arithmetic ---------- */

  /** The last character a rule covers: its stop token's inclusive end, or its start index without one. */
  function LastIndex(b: RuleBounds): int {
    match b.stopIndex
    case Some(stop) => stop
    case None => b.startIndex
  }

  /**
   * Turns the parser's inclusive token bounds into a position with an exclusive end. The covered
   * offsets are exactly the inclusive range from the start index to the last index; without a
   * stop token the span is one character long.
   */
  function CreatePosition(b: RuleBounds): (p: Position)
    ensures p.startOffset == b.startIndex
    ensures forall i :: p.Covers(i) <==> b.startIndex <= i <= LastIndex(b)
    ensures b.stopIndex.Some? ==> p.endOffset == b.stopIndex.value + 1
    ensures b.stopIndex.None? ==> p.endOffset == b.startIndex + 1 && p.Length() == 1
  {
    Position(b.startIndex, LastIndex(b) + 1)
  }

  /** The position is well formed exactly when the start is not negative and the stop does not lie before start-1. */
  lemma CreatePositionWellFormed(b: RuleBounds)
    ensures CreatePosition(b).WellFormed()
        <==> 0 <= b.startIndex && (b.stopIndex.None? || b.startIndex <= b.stopIndex.value + 1)
  {
  }

  /** Bounds nested in other bounds give a position contained in the other's position. */
  ghost predicate BoundsWithin(inner: RuleBounds, outer: RuleBounds) {
    outer.startIndex <= inner.startIndex && LastIndex(inner) <= LastIndex(outer)
  }

  lemma CreatePositionMonotone(inner: RuleBounds, outer: RuleBounds)
    requires BoundsWithin(inner, outer)
    ensures CreatePosition(outer).Contains(CreatePosition(inner))
  {
  }

  /* ---------- Filtering null results ---------- */

  /** The values of the non-null entries, in order: `filter(s => s !== null)`. */
  function FilterNonNull<T>(xs: seq<Option<T>>): (ys: seq<T>)
    ensures |ys| <= |xs|
  {
    if xs == [] then []
    else (if xs[0].Some? then [xs[0].value] else []) + FilterNonNull(xs[1..])
  }

  /** `ys` is made of the non-null entries of `xs`, all of them, in their order; `idx` says where each came from. */
  ghost predicate PicksNonNullInOrder<T>(xs: seq<Option<T>>, ys: seq<T>, idx: seq<int>) {
    && |idx| == |ys|
    && (forall k :: 0 <= k < |idx| ==> 0 <= idx[k] < |xs| && xs[idx[k]] == Some(ys[k]))
    && (forall k, l :: 0 <= k < l < |idx| ==> idx[k] < idx[l])
    && (forall i :: 0 <= i < |xs| && xs[i].Some? ==> i in idx)
  }

  /** The indices of the non-null entries of `xs` from `from` on, in increasing order. */
  ghost function NonNullIndices<T>(xs: seq<Option<T>>, from: nat): seq<int>
    requires from <= |xs|
    decreases |xs| - from
  {
    if from == |xs| then []
    else (if xs[from].Some? then [from] else []) + NonNullIndices(xs, from + 1)
  }

  lemma {:induction false} NonNullIndicesMatch<T>(xs: seq<Option<T>>, from: nat)
    requires from <= |xs|
    ensures var idx, ys := NonNullIndices(xs, from), FilterNonNull(xs[from..]);
      && |idx| == |ys|
      && forall k :: 0 <= k < |idx| ==> from <= idx[k] < |xs| && xs[idx[k]] == Some(ys[k])
    decreases |xs| - from
  {
    if from < |xs| {
      NonNullIndicesMatch(xs, from + 1);
      var rest, tail := NonNullIndices(xs, from + 1), FilterNonNull(xs[from + 1..]);
      assert xs[from..][1..] == xs[from + 1..];
      assert xs[from..][0] == xs[from];
      if xs[from].Some? {
        assert NonNullIndices(xs, from) == [from] + rest;
        assert FilterNonNull(xs[from..]) == [xs[from].value] + tail;
      } else {
        assert NonNullIndices(xs, from) == rest;
        assert FilterNonNull(xs[from..]) == tail;
      }
    }
  }

  lemma {:induction false} NonNullIndicesFrom<T>(xs: seq<Option<T>>, from: nat)
    requires from <= |xs|
    ensures forall k :: 0 <= k < |NonNullIndices(xs, from)| ==> from <= NonNullIndices(xs, from)[k]
    decreases |xs| - from
  {
    if from < |xs| {
      NonNullIndicesFrom(xs, from + 1);
    }
  }

  lemma {:induction false} NonNullIndicesIncreasing<T>(xs: seq<Option<T>>, from: nat)
    requires from <= |xs|
    ensures forall k, l :: 0 <= k < l < |NonNullIndices(xs, from)| ==>
              NonNullIndices(xs, from)[k] < NonNullIndices(xs, from)[l]
    decreases |xs| - from
  {
    if from < |xs| {
      NonNullIndicesIncreasing(xs, from + 1);
      var rest := NonNullIndices(xs, from + 1);
      if xs[from].Some? {
        NonNullIndicesFrom(xs, from + 1);
        assert NonNullIndices(xs, from) == [from] + rest;
      } else {
        assert NonNullIndices(xs, from) == rest;
      }
    }
  }

  lemma {:induction false} NonNullIndicesComplete<T>(xs: seq<Option<T>>, from: nat)
    requires from <= |xs|
    ensures forall i :: from <= i < |xs| && xs[i].Some? ==> i in NonNullIndices(xs, from)
    decreases |xs| - from
  {
    if from < |xs| {
      NonNullIndicesComplete(xs, from + 1);
    }
  }

  lemma FilterNonNullPicks<T>(xs: seq<Option<T>>) returns (idx: seq<int>)
    ensures PicksNonNullInOrder(xs, FilterNonNull(xs), idx)
  {
    idx := NonNullIndices(xs, 0);
    assert xs[0..] == xs;
    NonNullIndicesMatch(xs, 0);
    NonNullIndicesFrom(xs, 0);
    NonNullIndicesIncreasing(xs, 0);
    NonNullIndicesComplete(xs, 0);
  }

  /** Every value kept came from a non-null entry. */
  lemma {:induction false} FilterNonNullMembers<T>(xs: seq<Option<T>>)
    ensures forall y :: y in FilterNonNull(xs) ==> Some(y) in xs
  {
    if xs != [] {
      FilterNonNullMembers(xs[1..]);
      assert forall z :: z in xs[1..] ==> z in xs;
    }
  }

  /** Nothing survives filtering a sequence of nulls. */
  lemma {:induction false} FilterNonNullAllNull<T>(xs: seq<Option<T>>)
    requires forall i :: 0 <= i < |xs| ==> xs[i].None?
    ensures FilterNonNull(xs) == []
  {
    if xs != [] {
      FilterNonNullAllNull(xs[1..]);
    }
  }

  /** Filtering distributes over concatenation. */
  lemma {:induction false} FilterNonNullAppend<T>(xs: seq<Option<T>>, ys: seq<Option<T>>)
    ensures FilterNonNull(xs + ys) == FilterNonNull(xs) + FilterNonNull(ys)
  {
    if xs == [] {
      assert xs + ys == ys;
    } else {
      var head := if xs[0].Some? then [xs[0].value] else [];
      assert (xs + ys)[0] == xs[0];
      assert (xs + ys)[1..] == xs[1..] + ys;
      assert FilterNonNull(xs + ys) == head + FilterNonNull(xs[1..] + ys);
      FilterNonNullAppend(xs[1..], ys);
      assert FilterNonNull(xs) == head + FilterNonNull(xs[1..]);
    }
  }

  /* ---------- The visit methods ---------- */

  /** The visitor's result for any context it has no visit method for: null. */
  function DefaultResult<T>(): (r: Option<T>)
    ensures r.None?
  {
    None
  }

  /**
   * A variable statement becomes a declaration with no declarators yet. Its kind is the text of
   * the `Var` keyword when present (cast, not checked), else "var".
   */
  function VisitVariableStatement(ctx: VariableStatementContext): (r: Option<Statement>)
    ensures r.Some? && r.value.VariableDeclaration?
    ensures r.value.text == ctx.text && r.value.position == CreatePosition(ctx.bounds)
    ensures r.value.declarations == []
    ensures ctx.varKeyword.Some? ==> r.value.kind == ctx.varKeyword.value
    ensures ctx.varKeyword.None? ==> r.value.kind == "var"
  {
    var kind := match ctx.varKeyword case Some(keyword) => keyword case None => "var";
    Some(VariableDeclaration(ctx.text, CreatePosition(ctx.bounds), [], kind))
  }

  /** The declaration's kind is one of the three keywords exactly when the `Var` text, if any, is one. */
  lemma VariableDeclarationKindValid(ctx: VariableStatementContext)
    ensures VisitVariableStatement(ctx).value.WellFormed()
        <==> (ctx.varKeyword.None? || DeclarationKindFromText(ctx.varKeyword.value).Some?)
  {
  }

  /** The expression statement is still a placeholder: its expression is never built, so the result is null. */
  function VisitExpressionStatement(ctx: ExpressionStatementContext): (r: Option<Statement>)
    ensures r.None?
  {
    var expression: Option<Expression> := None;
    match expression
    case None => None
    case Some(e) => Some(ExpressionStatement(ctx.text, CreatePosition(ctx.bounds), e))
  }

  /**
   * The statement dispatcher: a variable statement first, then an expression statement, and
   * the `UnsupportedStatement` sentinel for every other form.
   */
  function VisitStatement(ctx: StatementContext): (r: Option<Statement>)
    ensures ctx.variableStatement.Some? ==> r == VisitVariableStatement(ctx.variableStatement.value)
    ensures r.None? <==> ctx.variableStatement.None? && ctx.expressionStatement.Some?
    ensures (r.Some? && r.value.VariableDeclaration?) <==> ctx.variableStatement.Some?
    ensures (r.Some? && r.value.UnsupportedStatement?)
        <==> ctx.variableStatement.None? && ctx.expressionStatement.None?
    ensures r.Some? && r.value.UnsupportedStatement?
        ==> r.value.text == ctx.text && r.value.position == CreatePosition(ctx.bounds)
    ensures r.Some? ==> !r.value.ExpressionStatement?
  {
    if ctx.variableStatement.Some? then
      VisitVariableStatement(ctx.variableStatement.value)
    else if ctx.expressionStatement.Some? then
      VisitExpressionStatement(ctx.expressionStatement.value)
    else
      Some(UnsupportedStatement(ctx.text, CreatePosition(ctx.bounds)))
  }

  /** A source element has no visit method: a statement yields its statement's result, anything else the default. */
  function VisitSourceElement(el: SourceElementContext): (r: Option<Statement>)
    ensures el.OtherElement? ==> r.None?
    ensures el.StatementElement? ==> r == VisitStatement(el.statement)
  {
    match el
    case StatementElement(statement) => VisitStatement(statement)
    case OtherElement(_, _) => DefaultResult()
  }

  /** `sourceElement().map(el => this.visit(el))`. */
  function VisitEach(els: seq<SourceElementContext>): (rs: seq<Option<Statement>>)
    ensures |rs| == |els|
    ensures forall i :: 0 <= i < |els| ==> rs[i] == VisitSourceElement(els[i])
  {
    seq(|els|, i requires 0 <= i < |els| => VisitSourceElement(els[i]))
  }

  /** The program's body: its source elements' non-null results, or empty without source elements. */
  function ProgramBody(ctx: ProgramContext): seq<Statement> {
    match ctx.sourceElements
    case Some(els) => FilterNonNull(VisitEach(els))
    case None => []
  }

  /** The entry point: always a `Program` node carrying the context's text and position. */
  function VisitProgram(ctx: ProgramContext): (r: Option<Program>)
    ensures r.Some?
    ensures r.value.text == ctx.text && r.value.position == CreatePosition(ctx.bounds)
    ensures ctx.sourceElements.None? ==> r.value.body == []
    ensures ctx.sourceElements.Some? ==> |r.value.body| <= |ctx.sourceElements.value|
  {
    Some(Program(ctx.text, CreatePosition(ctx.bounds), ProgramBody(ctx)))
  }

  /* ---------- Properties of the program body ---------- */

  /** The body holds exactly the non-null results of visiting the source elements, in source order. */
  lemma BodyIsNonNullResultsInOrder(ctx: ProgramContext) returns (idx: seq<int>)
    requires ctx.sourceElements.Some?
    ensures PicksNonNullInOrder(VisitEach(ctx.sourceElements.value), VisitProgram(ctx).value.body, idx)
  {
    idx := FilterNonNullPicks(VisitEach(ctx.sourceElements.value));
  }

  /** No expression statement ever reaches a body: each entry is a declaration or the sentinel. */
  lemma BodyHasNoExpressionStatement(ctx: ProgramContext)
    ensures forall s :: s in VisitProgram(ctx).value.body ==>
              s.VariableDeclaration? || s.UnsupportedStatement?
  {
    if ctx.sourceElements.Some? {
      var rs := VisitEach(ctx.sourceElements.value);
      FilterNonNullMembers(rs);
      forall s | s in VisitProgram(ctx).value.body
        ensures s.VariableDeclaration? || s.UnsupportedStatement?
      {
        assert Some(s) in rs;
      }
    }
  }

  /** A statement that is only an expression statement contributes nothing. */
  predicate IsExpressionOnly(el: SourceElementContext) {
    el.StatementElement? && el.statement.variableStatement.None? && el.statement.expressionStatement.Some?
  }

  lemma ExpressionOnlyProgramHasEmptyBody(ctx: ProgramContext)
    requires ctx.sourceElements.Some?
    requires forall i :: 0 <= i < |ctx.sourceElements.value| ==> IsExpressionOnly(ctx.sourceElements.value[i])
    ensures VisitProgram(ctx).value.body == []
  {
    var rs := VisitEach(ctx.sourceElements.value);
    FilterNonNullAllNull(rs);
  }

  /** Every variable statement of the program has no `Var` keyword or one of the three keywords. */
  predicate KeywordsValid(ctx: ProgramContext) {
    ctx.sourceElements.Some? ==>
      forall i :: 0 <= i < |ctx.sourceElements.value| ==>
        var el := ctx.sourceElements.value[i];
        el.StatementElement? && el.statement.variableStatement.Some? ==>
          var keyword := el.statement.variableStatement.value.varKeyword;
          keyword.None? || DeclarationKindFromText(keyword.value).Some?
  }

  /** With valid keywords, every declaration in the body has one of the three kinds. */
  lemma ProgramKindsWellFormed(ctx: ProgramContext)
    requires KeywordsValid(ctx)
    ensures VisitProgram(ctx).value.WellFormed()
  {
    var body := VisitProgram(ctx).value.body;
    if ctx.sourceElements.Some? {
      var els := ctx.sourceElements.value;
      var rs := VisitEach(els);
      FilterNonNullMembers(rs);
      forall k | 0 <= k < |body| ensures body[k].WellFormed() {
        assert body[k] in body;
        var i :| 0 <= i < |rs| && rs[i] == Some(body[k]);
        assert els[i].StatementElement?;
        if els[i].statement.variableStatement.Some? {
          VariableDeclarationKindValid(els[i].statement.variableStatement.value);
        }
      }
    }
  }

  /* ---------- Spans of the body ---------- */

  /** The bounds a source element's context reports. */
  function ElementBounds(el: SourceElementContext): RuleBounds {
    match el
    case StatementElement(s) => s.bounds
    case OtherElement(_, b) => b
  }

  /** The bounds whose position a statement's result carries. */
  function ResultBounds(s: StatementContext): RuleBounds {
    if s.variableStatement.Some? then s.variableStatement.value.bounds else s.bounds
  }

  /**
   * The parser's nesting contract, stated on the contexts: each source element lies inside the
   * program, a variable statement inside its statement, and the elements come in order without
   * overlapping.
   */
  ghost predicate ProgramNested(ctx: ProgramContext) {
    ctx.sourceElements.Some? ==>
      var els := ctx.sourceElements.value;
      && (forall i :: 0 <= i < |els| ==> BoundsWithin(ElementBounds(els[i]), ctx.bounds))
      && (forall i :: 0 <= i < |els| && els[i].StatementElement? ==>
            BoundsWithin(ResultBounds(els[i].statement), els[i].statement.bounds))
      && (forall i, j :: 0 <= i < j < |els| ==> LastIndex(ElementBounds(els[i])) < ElementBounds(els[j]).startIndex)
  }

  lemma StatementResultBounds(el: SourceElementContext)
    requires VisitSourceElement(el).Some?
    ensures el.StatementElement?
    ensures VisitSourceElement(el).value.position == CreatePosition(ResultBounds(el.statement))
  {
  }

  /**
   * Given the parser's nesting contract, the body's spans lie inside the program's span and
   * follow one another without overlapping.
   */
  lemma BodySpansNestedAndOrdered(ctx: ProgramContext)
    requires ProgramNested(ctx)
    ensures var p := VisitProgram(ctx).value;
      forall k :: 0 <= k < |p.body| ==> p.position.Contains(p.body[k].position)
    ensures var p := VisitProgram(ctx).value;
      forall k, l :: 0 <= k < l < |p.body| ==> p.body[k].position.Precedes(p.body[l].position)
  {
    var p := VisitProgram(ctx).value;
    if ctx.sourceElements.Some? {
      var els := ctx.sourceElements.value;
      var rs := VisitEach(els);
      var idx := BodyIsNonNullResultsInOrder(ctx);
      forall k | 0 <= k < |p.body|
        ensures BoundsWithin(ResultBounds(els[idx[k]].statement), ctx.bounds)
        ensures p.body[k].position == CreatePosition(ResultBounds(els[idx[k]].statement))
      {
        var el := els[idx[k]];
        StatementResultBounds(el);
      }
      forall k | 0 <= k < |p.body| ensures p.position.Contains(p.body[k].position) {
        CreatePositionMonotone(ResultBounds(els[idx[k]].statement), ctx.bounds);
      }
      forall k, l | 0 <= k < l < |p.body| ensures p.body[k].position.Precedes(p.body[l].position) {
        assert idx[k] < idx[l];
      }
    }
  }

  /* ---------- Two programs, as the builder treats them today ---------- */

  /** `var a = 1;`: one declaration of kind "var", with no declarator built yet. */
  lemma VarStatementExample()
    ensures var stmt := VariableStatementContext("var a = 1;", RuleBounds(0, Some(9)), Some("var"));
      var ctx := ProgramContext("var a = 1;", RuleBounds(0, Some(9)),
        Some([StatementElement(StatementContext("var a = 1;", RuleBounds(0, Some(9)), Some(stmt), None))]));
      VisitProgram(ctx).value.body == [VariableDeclaration("var a = 1;", Position(0, 10), [], "var")]
  {
  }

  /** `1;`: the expression statement is dropped, so the body is empty. */
  lemma ExpressionStatementExample()
    ensures var stmt := ExpressionStatementContext("1;", RuleBounds(0, Some(1)));
      var ctx := ProgramContext("1;", RuleBounds(0, Some(1)),
        Some([StatementElement(StatementContext("1;", RuleBounds(0, Some(1)), None, Some(stmt)))]));
      VisitProgram(ctx).value.body == []
  {
  }
}
