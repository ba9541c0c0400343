/** Rendering only ever adds placeholders: whatever was handed out before still stands. */
module FilterGrowth {
  import opened Wrappers
  import opened Values
  import opened DynamoValue
  import opened FilterAttrs
  import opened FilterExpr

  ghost predicate Grows(cx: TableColumns, a: Attrs, b: Attrs) {
    AttrsOk(cx, a) ==> AttrsOk(cx, b) && Extends(a, b)
  }

  lemma GrowsTransitive(cx: TableColumns, a: Attrs, b: Attrs, c: Attrs)
    requires Grows(cx, a, b) && Grows(cx, b, c)
    ensures Grows(cx, a, c)
  {
    if AttrsOk(cx, a) {
      ExtendsTransitive(a, b, c);
    }
  }

  lemma ValueGrows(cx: TableColumns, a: Attrs, value: Attr)
    ensures Grows(cx, a, AddValue(a, value))
  {
    if AttrsOk(cx, a) {
      AddValueKeeps(cx, a, value);
    }
  }

  lemma ColumnGrows(sc: Scope, a: Attrs, index: nat)
    requires RenderColumn(sc, a, index).Some?
    ensures Grows(sc.cx, a, RenderColumn(sc, a, index).value.0)
  {
    if AttrsOk(sc.cx, a) {
      AddColumnKeeps(sc.cx, a, index);
    }
  }

  lemma {:induction false} SegmentsGrow(cx: TableColumns, a: Attrs, path: seq<string>, n: nat)
    requires n <= |path|
    ensures Grows(cx, a, RenderSegments(a, path, n).0)
  {
    if n > 0 {
      var b := RenderSegments(a, path, n - 1).0;
      var c := AddSegment(b, path[n - 1]);
      SegmentsGrow(cx, a, path, n - 1);
      assert Grows(cx, b, c) by {
        if AttrsOk(cx, b) {
          AddSegmentKeeps(cx, b, path[n - 1]);
        }
      }
      GrowsTransitive(cx, a, b, c);
    }
  }

  lemma PathGrows(sc: Scope, a: Attrs, base: Expr, path: seq<string>)
    requires RenderPath(sc, a, base, path).Some?
    ensures Grows(sc.cx, a, RenderPath(sc, a, base, path).value.0)
  {
    var b := RenderColumn(sc, a, base.index).value.0;
    ColumnGrows(sc, a, base.index);
    SegmentsGrow(sc.cx, b, path, |path|);
    GrowsTransitive(sc.cx, a, b, RenderSegments(b, path, |path|).0);
  }

  lemma PredicatedGrows(cx: TableColumns, a: Attrs, r: (Attrs, seq<ConditionGrammar.Token>), isBool: bool)
    requires Grows(cx, a, r.0)
    ensures Grows(cx, a, Predicated(r, isBool).0)
  {
    if isBool {
      ValueGrows(cx, r.0, BoolAttr(true));
      GrowsTransitive(cx, a, r.0, AddValue(r.0, BoolAttr(true)));
    }
  }

  lemma {:induction false} ValuesGrow(cx: TableColumns, a: Attrs, vals: seq<Value>, n: nat)
    requires n <= |vals| && RenderValues(a, vals, n).Some?
    ensures Grows(cx, a, RenderValues(a, vals, n).value.0)
  {
    if n > 0 {
      ValuesGrow(cx, a, vals, n - 1);
      var b := RenderValues(a, vals, n - 1).value.0;
      ValueGrows(cx, b, ToDdb(vals[n - 1]).value);
      GrowsTransitive(cx, a, b, AddValue(b, ToDdb(vals[n - 1]).value));
    }
  }

  lemma {:induction false} OperandsGrow(sc: Scope, a: Attrs, primary: bool, operands: seq<Expr>, n: nat)
    requires n <= |operands| && RenderOperands(sc, a, primary, operands, n).Some?
    ensures Grows(sc.cx, a, RenderOperands(sc, a, primary, operands, n).value.0)
    decreases operands, n
  {
    if n > 0 {
      OperandsGrow(sc, a, primary, operands, n - 1);
      var b := RenderOperands(sc, a, primary, operands, n - 1).value.0;
      RenderGrows(sc, b, primary, operands[n - 1]);
      GrowsTransitive(sc.cx, a, b, Render(sc, b, primary, operands[n - 1]).value.0);
    }
  }

  lemma {:induction false} RenderGrows(sc: Scope, a: Attrs, primary: bool, e: Expr)
    requires Render(sc, a, primary, e).Some?
    ensures Grows(sc.cx, a, Render(sc, a, primary, e).value.0)
    decreases e, 1
  {
    match e
    case BetweenExpr(x, low, high) =>
      var b := Render(sc, a, primary, x).value.0;
      var c := Render(sc, b, primary, low).value.0;
      RenderGrows(sc, a, primary, x);
      RenderGrows(sc, b, primary, low);
      GrowsTransitive(sc.cx, a, b, c);
      RenderGrows(sc, c, primary, high);
      GrowsTransitive(sc.cx, a, c, Render(sc, c, primary, high).value.0);
    case Binary(_, lhs, rhs) => PairGrows(sc, a, primary, e, lhs, rhs);
    case Column(index) =>
      ColumnGrows(sc, a, index);
      PredicatedGrows(sc.cx, a, RenderColumn(sc, a, index).value, index in sc.bools);
    case Literal(value) => ValueGrows(sc.cx, a, ToDdb(value).value);
    case JsonExtract(base, path, isBool) =>
      PathGrows(sc, a, base, path);
      PredicatedGrows(sc.cx, a, RenderPath(sc, a, base, path).value, isBool);
    case AndExpr(operands) => OperandsGrow(sc, a, primary, operands, |operands|);
    case OrExpr(operands) => OperandsGrow(sc, a, primary, operands, |operands|);
    case InList(x, list) =>
      var b := Render(sc, a, primary, x).value.0;
      RenderGrows(sc, a, primary, x);
      ChoicesGrow(sc, b, primary, list);
      GrowsTransitive(sc.cx, a, b, RenderChoices(sc, b, primary, list).value.0);
    case IsNull(x, _) => PresenceGrows(sc, a, primary, x);
    case NotExpr(x) => RenderGrows(sc, a, primary, x);
    case StartsWithExpr(x, prefix) => PairGrows(sc, a, primary, e, x, prefix);
    case Like =>
    case AnyOp(_, lhs, rhs) => PairGrows(sc, a, primary, e, lhs, rhs);
    case Length(x) => RenderGrows(sc, a, primary, x);
    case Cast(x, _) =>
      var b := Render(sc, a, primary, x).value.0;
      RenderGrows(sc, a, primary, x);
      ValueGrows(sc.cx, b, N("1"));
      GrowsTransitive(sc.cx, a, b, AddValue(b, N("1")));
    case Other =>
  }

  /** Two expressions rendered one after the other. */
  lemma {:induction false} PairGrows(sc: Scope, a: Attrs, primary: bool, e: Expr, x: Expr, y: Expr)
    requires x < e && y < e
    requires Render(sc, a, primary, x).Some? && Render(sc, Render(sc, a, primary, x).value.0, primary, y).Some?
    ensures Grows(sc.cx, a, Render(sc, Render(sc, a, primary, x).value.0, primary, y).value.0)
    decreases e, 0
  {
    var b := Render(sc, a, primary, x).value.0;
    RenderGrows(sc, a, primary, x);
    RenderGrows(sc, b, primary, y);
    GrowsTransitive(sc.cx, a, b, Render(sc, b, primary, y).value.0);
  }

  lemma {:induction false} ChoicesGrow(sc: Scope, a: Attrs, primary: bool, list: Expr)
    requires RenderChoices(sc, a, primary, list).Some?
    ensures Grows(sc.cx, a, RenderChoices(sc, a, primary, list).value.0)
    decreases list, 2
  {
    if list.Literal? && list.value.List? {
      ValuesGrow(sc.cx, a, list.value.items, |list.value.items|);
    } else {
      RenderGrows(sc, a, primary, list);
    }
  }

  lemma {:induction false} PresenceGrows(sc: Scope, a: Attrs, primary: bool, x: Expr)
    requires RenderPresence(sc, a, primary, x).Some?
    ensures Grows(sc.cx, a, RenderPresence(sc, a, primary, x).value.0)
    decreases x, 2
  {
    match x
    case Column(index) => ColumnGrows(sc, a, index);
    case JsonExtract(base, path, _) => PathGrows(sc, a, base, path);
    case _ => RenderGrows(sc, a, primary, x);
  }

  // ---- The same, from tables in order ----

  lemma SegmentsKeep(cx: TableColumns, a: Attrs, path: seq<string>, n: nat)
    requires n <= |path| && AttrsOk(cx, a)
    ensures AttrsOk(cx, RenderSegments(a, path, n).0) && Extends(a, RenderSegments(a, path, n).0)
  {
    SegmentsGrow(cx, a, path, n);
  }

  lemma ValuesKeep(cx: TableColumns, a: Attrs, vals: seq<Value>, n: nat)
    requires n <= |vals| && RenderValues(a, vals, n).Some? && AttrsOk(cx, a)
    ensures AttrsOk(cx, RenderValues(a, vals, n).value.0) && Extends(a, RenderValues(a, vals, n).value.0)
  {
    ValuesGrow(cx, a, vals, n);
  }

  lemma OperandsKeep(sc: Scope, a: Attrs, primary: bool, operands: seq<Expr>, n: nat)
    requires n <= |operands| && RenderOperands(sc, a, primary, operands, n).Some? && AttrsOk(sc.cx, a)
    ensures AttrsOk(sc.cx, RenderOperands(sc, a, primary, operands, n).value.0)
    ensures Extends(a, RenderOperands(sc, a, primary, operands, n).value.0)
  {
    OperandsGrow(sc, a, primary, operands, n);
  }

  /** Whatever was handed out before an expression was rendered still stands after it. */
  lemma RenderKeeps(sc: Scope, a: Attrs, primary: bool, e: Expr)
    requires Render(sc, a, primary, e).Some? && AttrsOk(sc.cx, a)
    ensures AttrsOk(sc.cx, Render(sc, a, primary, e).value.0) && Extends(a, Render(sc, a, primary, e).value.0)
  {
    RenderGrows(sc, a, primary, e);
  }

  lemma ChoicesKeep(sc: Scope, a: Attrs, primary: bool, list: Expr)
    requires RenderChoices(sc, a, primary, list).Some? && AttrsOk(sc.cx, a)
    ensures AttrsOk(sc.cx, RenderChoices(sc, a, primary, list).value.0)
    ensures Extends(a, RenderChoices(sc, a, primary, list).value.0)
  {
    ChoicesGrow(sc, a, primary, list);
  }

  lemma PathKeeps(sc: Scope, a: Attrs, base: Expr, path: seq<string>)
    requires RenderPath(sc, a, base, path).Some? && AttrsOk(sc.cx, a)
    ensures AttrsOk(sc.cx, RenderPath(sc, a, base, path).value.0)
    ensures Extends(a, RenderPath(sc, a, base, path).value.0)
  {
    PathGrows(sc, a, base, path);
  }
}
