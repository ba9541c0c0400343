/** `ddb_expression` as the driver runs it, updating one allocator in place. */
module FilterWriter {
  import opened Wrappers
  import opened Values
  import opened DynamoValue
  import opened FilterAttrs
  import opened ConditionGrammar
  import opened FilterReading
  import opened FilterExpr

  method ColumnAliasOf(sc: Scope, attrs: ExprAttrs, index: nat) returns (r: Option<seq<Token>>)
    modifies attrs
    ensures Wrote(RenderColumn(sc, old(attrs.State()), index), attrs.State(), r)
  {
    if index >= |sc.cx.names| {
      return None;
    }
    var alias := attrs.Column((sc.cx.table, index), sc.cx.names[index]);
    r := Some([Name(alias)]);
  }

  /** The rendering succeeded just when the text was written, and left these tables. */
  predicate Wrote(spec: Rendered, state: Attrs, r: Option<seq<Token>>) {
    match spec
    case None => r == None
    case Some((b, ts)) => r == Some(ts) && state == b
  }

  method DocumentPath(sc: Scope, attrs: ExprAttrs, base: Expr, path: seq<string>) returns (r: Option<seq<Token>>)
    modifies attrs
    ensures Wrote(RenderPath(sc, old(attrs.State()), base, path), attrs.State(), r)
  {
    if !base.Column? {
      return None;
    }
    var column := ColumnAliasOf(sc, attrs, base.index);
    if column == None {
      return None;
    }
    ghost var start := attrs.State();
    var segments: seq<Token> := [];
    for i := 0 to |path|
      invariant (attrs.State(), segments) == RenderSegments(start, path, i)
    {
      var alias := attrs.DocumentSegment(path[i]);
      segments := segments + [Dot, Name(alias)];
    }
    r := Some(column.value + segments);
  }

  method WriteValue(attrs: ExprAttrs, v: Value) returns (r: Option<seq<Token>>)
    modifies attrs
    ensures Wrote(RenderValue(old(attrs.State()), v), attrs.State(), r)
  {
    var attr := ToDdb(v);
    if attr == None {
      return None;
    }
    var alias := attrs.DdbValue(attr.value);
    r := Some([Val(alias)]);
  }

  /** The values between the brackets of IN. */
  method WriteValues(attrs: ExprAttrs, vals: seq<Value>) returns (r: Option<seq<Token>>)
    modifies attrs
    ensures Wrote(RenderChoicesOf(old(attrs.State()), vals), attrs.State(), r)
  {
    ghost var start := attrs.State();
    var parts: seq<seq<Token>> := [];
    for i := 0 to |vals|
      invariant RenderValues(start, vals, i) == Some((attrs.State(), parts))
    {
      var part := WriteValue(attrs, vals[i]);
      if part == None {
        ValuesStop(start, vals, i + 1, |vals|);
        return None;
      }
      parts := parts + [part.value];
    }
    r := Some(Join(parts, Comma));
  }

  function RenderChoicesOf(a: Attrs, vals: seq<Value>): Rendered {
    var (b, parts) :- RenderValues(a, vals, |vals|);
    Some((b, Join(parts, Comma)))
  }

  /** A list that failed at one item fails as a whole. */
  lemma {:induction false} ValuesStop(a: Attrs, vals: seq<Value>, m: nat, n: nat)
    requires m <= n <= |vals| && RenderValues(a, vals, m) == None
    ensures RenderValues(a, vals, n) == None
    decreases n
  {
    if m < n {
      ValuesStop(a, vals, m, n - 1);
    }
  }

  lemma {:induction false} OperandsStop(sc: Scope, a: Attrs, primary: bool, operands: seq<Expr>, m: nat, n: nat)
    requires m <= n <= |operands| && RenderOperands(sc, a, primary, operands, m) == None
    ensures RenderOperands(sc, a, primary, operands, n) == None
    decreases n
  {
    if m < n {
      OperandsStop(sc, a, primary, operands, m, n - 1);
    }
  }

  /** The operands of AND or OR, joined. */
  method WriteOperands(sc: Scope, attrs: ExprAttrs, primary: bool, operands: seq<Expr>, separator: Token)
      returns (r: Option<seq<Token>>)
    modifies attrs
    ensures Wrote(RenderJoined(sc, old(attrs.State()), primary, operands, separator), attrs.State(), r)
    decreases operands, 0
  {
    ghost var start := attrs.State();
    var parts: seq<seq<Token>> := [];
    for i := 0 to |operands|
      invariant RenderOperands(sc, start, primary, operands, i) == Some((attrs.State(), parts))
    {
      var part := DdbExpression(sc, attrs, primary, operands[i]);
      if part == None {
        OperandsStop(sc, start, primary, operands, i + 1, |operands|);
        return None;
      }
      parts := parts + [part.value];
    }
    r := Some(Join(parts, separator));
  }

  function RenderJoined(sc: Scope, a: Attrs, primary: bool, operands: seq<Expr>, separator: Token): Rendered {
    var (b, parts) :- RenderOperands(sc, a, primary, operands, |operands|);
    Some((b, Join(parts, separator)))
  }

  /** A bare path, or any other expression. */
  method WritePresence(sc: Scope, attrs: ExprAttrs, primary: bool, x: Expr) returns (r: Option<seq<Token>>)
    modifies attrs
    ensures Wrote(RenderPresence(sc, old(attrs.State()), primary, x), attrs.State(), r)
    decreases x, 2
  {
    match x
    case Column(index) => r := ColumnAliasOf(sc, attrs, index);
    case JsonExtract(base, path, _) => r := DocumentPath(sc, attrs, base, path);
    case _ => r := DdbExpression(sc, attrs, primary, x);
  }

  method WriteChoices(sc: Scope, attrs: ExprAttrs, primary: bool, list: Expr) returns (r: Option<seq<Token>>)
    modifies attrs
    ensures Wrote(RenderChoices(sc, old(attrs.State()), primary, list), attrs.State(), r)
    decreases list, 2
  {
    if list.Literal? && list.value.List? {
      r := WriteValues(attrs, list.value.items);
    } else {
      r := DdbExpression(sc, attrs, primary, list);
    }
  }

  /** The text, or `None` where the driver panics. */
  method DdbExpression(sc: Scope, attrs: ExprAttrs, primary: bool, e: Expr) returns (r: Option<seq<Token>>)
    modifies attrs
    ensures Wrote(Render(sc, old(attrs.State()), primary, e), attrs.State(), r)
    decreases e, 1
  {
    match e
    case BetweenExpr(x, low, high) =>
      var field :- DdbExpression(sc, attrs, primary, x);
      var from :- DdbExpression(sc, attrs, primary, low);
      var to :- DdbExpression(sc, attrs, primary, high);
      r := Some(field + ([Between] + from) + ([And] + to));
    case Binary(op, lhs, rhs) =>
      var left :- DdbExpression(sc, attrs, primary, lhs);
      var right :- DdbExpression(sc, attrs, primary, rhs);
      var comparator :- ComparatorOf(op, primary);
      r := Some(left + [Cmp(comparator)] + right);
    case Column(index) =>
      var column :- ColumnAliasOf(sc, attrs, index);
      r := Predicate(attrs, column, index in sc.bools);
    case Literal(value) => r := WriteValue(attrs, value);
    case JsonExtract(base, path, isBool) =>
      var leaf :- DocumentPath(sc, attrs, base, path);
      r := Predicate(attrs, leaf, isBool);
    case AndExpr(operands) => r := WriteOperands(sc, attrs, primary, operands, And);
    case OrExpr(operands) =>
      var inner :- WriteOperands(sc, attrs, primary, operands, Or);
      r := Some([LParen] + inner + [RParen]);
    case NotExpr(x) =>
      var inner :- DdbExpression(sc, attrs, primary, x);
      r := Some([LParen, Not] + inner + [RParen]);
    case Like => r := None;
    case Other => r := None;
    case _ => r := DdbTest(sc, attrs, primary, e);
  }

  /** The forms that put one operand to a test, or wrap it in a function. */
  method DdbTest(sc: Scope, attrs: ExprAttrs, primary: bool, e: Expr) returns (r: Option<seq<Token>>)
    requires e.InList? || e.IsNull? || e.StartsWithExpr? || e.AnyOp? || e.Length? || e.Cast?
    modifies attrs
    ensures Wrote(Render(sc, old(attrs.State()), primary, e), attrs.State(), r)
    decreases e, 0
  {
    match e
    case InList(x, list) =>
      var field :- DdbExpression(sc, attrs, primary, x);
      var choices :- WriteChoices(sc, attrs, primary, list);
      r := Some(field + ([In, LParen] + choices) + [RParen]);
    case IsNull(x, negated) =>
      var inner :- WritePresence(sc, attrs, primary, x);
      r := Some([Fn(if negated then AttributeExists else AttributeNotExists), LParen] + inner + [RParen]);
    case StartsWithExpr(x, prefix) =>
      var field :- DdbExpression(sc, attrs, primary, x);
      var text :- DdbExpression(sc, attrs, primary, prefix);
      r := Some(([Fn(BeginsWith), LParen] + field) + ([Comma] + text) + [RParen]);
    case AnyOp(op, lhs, rhs) =>
      if op != BinaryOp.Eq {
        return None;
      }
      var value :- DdbExpression(sc, attrs, primary, lhs);
      var path :- DdbExpression(sc, attrs, primary, rhs);
      r := Some(([Fn(Contains), LParen] + path) + ([Comma] + value) + [RParen]);
    case Length(x) =>
      var inner :- DdbExpression(sc, attrs, primary, x);
      r := Some([Fn(Size), LParen] + inner + [RParen]);
    case Cast(x, toBool) =>
      if !toBool {
        return None;
      }
      var inner :- DdbExpression(sc, attrs, primary, x);
      var alias := attrs.DdbValue(N("1"));
      r := Some(inner + [Cmp(Comparator.Eq), Val(alias)]);
  }

  /** A boolean path is compared with a registered `true`. */
  method Predicate(attrs: ExprAttrs, text: seq<Token>, isBool: bool) returns (r: Option<seq<Token>>)
    modifies attrs
    ensures Wrote(Some(Predicated((old(attrs.State()), text), isBool)), attrs.State(), r)
  {
    if isBool {
      var alias := attrs.DdbValue(BoolAttr(true));
      r := Some(text + [Cmp(Comparator.Eq), Val(alias)]);
    } else {
      r := Some(text);
    }
  }
}
