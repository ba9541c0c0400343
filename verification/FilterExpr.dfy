/** `ddb_expression`: filter expressions rendered as DynamoDB condition text, threading the
    placeholder allocator. */
module FilterExpr {
  import opened Wrappers
  import opened Values
  import opened DynamoValue
  import opened FilterAttrs
  import opened ConditionGrammar
  import opened FilterReading

  datatype BinaryOp = Eq | Ne | Gt | Ge | Lt | Le | Add | Sub

  /** The engine's filter expressions; `Other` stands for the forms the driver does not know. */
  datatype Expr =
    | BetweenExpr(x: Expr, low: Expr, high: Expr)
    | Binary(op: BinaryOp, lhs: Expr, rhs: Expr)
    | Column(index: nat)
    | Literal(value: Value)
    | JsonExtract(base: Expr, path: seq<string>, isBool: bool)
    | AndExpr(operands: seq<Expr>)
    | OrExpr(operands: seq<Expr>)
    | InList(x: Expr, list: Expr)
    | IsNull(x: Expr, negated: bool)
    | NotExpr(x: Expr)
    | StartsWithExpr(x: Expr, prefix: Expr)
    | Like
    | AnyOp(op: BinaryOp, lhs: Expr, rhs: Expr)
    | Length(x: Expr)
    | Cast(x: Expr, toBool: bool)
    | Other

  /** The table the expression is about, and which of its columns are boolean. */
  datatype Scope = Scope(cx: TableColumns, bools: set<nat>)

  type Rendered = Option<(Attrs, seq<Token>)>

  /** What the engine's operator says of two values. */
  predicate Compares(op: BinaryOp, m: int, n: int) {
    match op
    case Eq => m == n
    case Ne => !(m == n)
    case Gt => n < m
    case Ge => !(m < n)
    case Lt => m < n
    case Le => !(n < m)
    case Add => false
    case Sub => false
  }

  /** The operators a filter may compare by: a key condition takes no inequality. */
  predicate Comparable(op: BinaryOp, primary: bool) {
    op != BinaryOp.Add && op != BinaryOp.Sub && !(primary && op == BinaryOp.Ne)
  }

  /** The comparator that says what the operator says, unless the driver gives up on the operator. */
  function ComparatorOf(op: BinaryOp, primary: bool): (c: Option<Comparator>)
    ensures c.Some? <==> Comparable(op, primary)
    ensures c.Some? ==> forall m, n :: Satisfied(c.value, m, n) <==> Compares(op, m, n)
  {
    match op
    case Eq => Some(Comparator.Eq)
    case Ne => if primary then None else Some(Comparator.Ne)
    case Gt => Some(Comparator.Gt)
    case Ge => Some(Comparator.Ge)
    case Lt => Some(Comparator.Lt)
    case Le => Some(Comparator.Le)
    case Add => None
    case Sub => None
  }

  function RenderColumn(sc: Scope, a: Attrs, index: nat): Rendered {
    if index < |sc.cx.names| then
      var b := AddColumn(a, (sc.cx.table, index), sc.cx.names[index]);
      Some((b, [Name(b.columns[(sc.cx.table, index)])]))
    else None
  }

  /** The first `n` segments, each behind a dot. */
  function RenderSegments(a: Attrs, path: seq<string>, n: nat): (Attrs, seq<Token>)
    requires n <= |path|
  {
    if n == 0 then (a, [])
    else
      var (b, ts) := RenderSegments(a, path, n - 1);
      var c := AddSegment(b, path[n - 1]);
      (c, ts + [Dot, Name(c.segments[path[n - 1]])])
  }

  function RenderPath(sc: Scope, a: Attrs, base: Expr, path: seq<string>): Rendered {
    if !base.Column? then None
    else
      var (b, column) :- RenderColumn(sc, a, base.index);
      var (c, segments) := RenderSegments(b, path, |path|);
      Some((c, column + segments))
  }

  function RenderValue(a: Attrs, v: Value): Rendered {
    var attr :- ToDdb(v);
    Some((AddValue(a, attr), [Val(ValueAlias(|a.values|))]))
  }

  /** `text = :v` with a fresh value. */
  function EqualTo(r: (Attrs, seq<Token>), attr: Attr): (Attrs, seq<Token>) {
    (AddValue(r.0, attr), r.1 + [Cmp(Comparator.Eq), Val(ValueAlias(|r.0.values|))])
  }

  /** A boolean path in predicate position is spelled out as a comparison. */
  function Predicated(r: (Attrs, seq<Token>), isBool: bool): (Attrs, seq<Token>) {
    if isBool then EqualTo(r, BoolAttr(true)) else r
  }

  /** The first `n` values of a literal list. */
  function RenderValues(a: Attrs, vals: seq<Value>, n: nat): Option<(Attrs, seq<seq<Token>>)>
    requires n <= |vals|
  {
    if n == 0 then Some((a, []))
    else
      var (b, parts) :- RenderValues(a, vals, n - 1);
      var (c, part) :- RenderValue(b, vals[n - 1]);
      Some((c, parts + [part]))
  }

  /** The first `n` operands. */
  function RenderOperands(sc: Scope, a: Attrs, primary: bool, operands: seq<Expr>, n: nat)
      : Option<(Attrs, seq<seq<Token>>)>
    requires n <= |operands|
    decreases operands, n
  {
    if n == 0 then Some((a, []))
    else
      var (b, parts) :- RenderOperands(sc, a, primary, operands, n - 1);
      var (c, part) :- Render(sc, b, primary, operands[n - 1]);
      Some((c, parts + [part]))
  }

  /** What may stand between the brackets of IN: the values of a literal list, or one expression. */
  function RenderChoices(sc: Scope, a: Attrs, primary: bool, list: Expr): Rendered
    decreases list, 1
  {
    if list.Literal? && list.value.List? then
      var (b, parts) :- RenderValues(a, list.value.items, |list.value.items|);
      Some((b, Join(parts, Comma)))
    else Render(sc, a, primary, list)
  }

  /** The bare path a presence test takes. */
  function RenderPresence(sc: Scope, a: Attrs, primary: bool, x: Expr): Rendered
    decreases x, 1
  {
    match x
    case Column(index) => RenderColumn(sc, a, index)
    case JsonExtract(base, path, _) => RenderPath(sc, a, base, path)
    case _ => Render(sc, a, primary, x)
  }

  /** `None` where the driver panics. */
  function Render(sc: Scope, a: Attrs, primary: bool, e: Expr): Rendered
    decreases e, 0
  {
    match e
    case BetweenExpr(x, low, high) =>
      var (b, field) :- Render(sc, a, primary, x);
      var (c, from) :- Render(sc, b, primary, low);
      var (d, to) :- Render(sc, c, primary, high);
      Some((d, field + ([Between] + from) + ([And] + to)))
    case Binary(op, lhs, rhs) =>
      var (b, left) :- Render(sc, a, primary, lhs);
      var (c, right) :- Render(sc, b, primary, rhs);
      var comparator :- ComparatorOf(op, primary);
      Some((c, left + [Cmp(comparator)] + right))
    case Column(index) =>
      var column :- RenderColumn(sc, a, index);
      Some(Predicated(column, index in sc.bools))
    case Literal(value) => RenderValue(a, value)
    case JsonExtract(base, path, isBool) =>
      var leaf :- RenderPath(sc, a, base, path);
      Some(Predicated(leaf, isBool))
    case AndExpr(operands) =>
      var (b, parts) :- RenderOperands(sc, a, primary, operands, |operands|);
      Some((b, Join(parts, And)))
    case OrExpr(operands) =>
      var (b, parts) :- RenderOperands(sc, a, primary, operands, |operands|);
      Some((b, [LParen] + Join(parts, Or) + [RParen]))
    case InList(x, list) =>
      var (b, field) :- Render(sc, a, primary, x);
      var (c, choices) :- RenderChoices(sc, b, primary, list);
      Some((c, field + ([In, LParen] + choices) + [RParen]))
    case IsNull(x, negated) =>
      var (b, inner) :- RenderPresence(sc, a, primary, x);
      Some((b, [Fn(if negated then AttributeExists else AttributeNotExists), LParen] + inner + [RParen]))
    case NotExpr(x) =>
      var (b, inner) :- Render(sc, a, primary, x);
      Some((b, [LParen, Not] + inner + [RParen]))
    case StartsWithExpr(x, prefix) =>
      var (b, field) :- Render(sc, a, primary, x);
      var (c, text) :- Render(sc, b, primary, prefix);
      Some((c, ([Fn(BeginsWith), LParen] + field) + ([Comma] + text) + [RParen]))
    case Like => None
    case AnyOp(op, lhs, rhs) =>
      if op != BinaryOp.Eq then None
      else
        var (b, value) :- Render(sc, a, primary, lhs);
        var (c, path) :- Render(sc, b, primary, rhs);
        Some((c, ([Fn(Contains), LParen] + path) + ([Comma] + value) + [RParen]))
    case Length(x) =>
      var (b, inner) :- Render(sc, a, primary, x);
      Some((b, [Fn(Size), LParen] + inner + [RParen]))
    case Cast(x, toBool) =>
      if !toBool then None
      else
        var inner :- Render(sc, a, primary, x);
        Some(EqualTo(inner, N("1")))
    case Other => None
  }
}
