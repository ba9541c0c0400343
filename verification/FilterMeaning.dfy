/** What a rendered filter says when it is read by DynamoDB's precedence, against what it means. */
module FilterMeaning {
  import opened Wrappers
  import opened Values
  import opened DynamoValue
  import opened FilterAttrs
  import opened ConditionGrammar
  import opened FilterReading
  import opened FilterExpr
  import opened FilterGrowth

  // ---- The expressions a filter may be ----

  predicate IsPath(sc: Scope, e: Expr) {
    match e
    case Column(index) => index < |sc.cx.names|
    case JsonExtract(base, _, _) => base.Column? && base.index < |sc.cx.names|
    case _ => false
  }

  /** Whether the path stands for a boolean, and so only for a predicate. */
  predicate IsBoolPath(sc: Scope, e: Expr) {
    match e
    case Column(index) => index in sc.bools
    case JsonExtract(_, _, isBool) => isBool
    case _ => false
  }

  predicate PlainPath(sc: Scope, e: Expr) {
    IsPath(sc, e) && !IsBoolPath(sc, e)
  }

  predicate IsOperand(sc: Scope, e: Expr) {
    || PlainPath(sc, e)
    || (e.Literal? && ToDdb(e.value).Some?)
    || (e.Length? && PlainPath(sc, e.x))
  }

  predicate IsChoices(sc: Scope, list: Expr) {
    if list.Literal? && list.value.List? then
      list.value.items != [] && forall v <- list.value.items :: ToDdb(v).Some?
    else IsOperand(sc, list)
  }

  predicate IsAtom(sc: Scope, primary: bool, e: Expr) {
    match e
    case BetweenExpr(x, low, high) => IsOperand(sc, x) && IsOperand(sc, low) && IsOperand(sc, high)
    case Binary(op, lhs, rhs) => Comparable(op, primary) && IsOperand(sc, lhs) && IsOperand(sc, rhs)
    case Column(_) => IsPath(sc, e) && IsBoolPath(sc, e)
    case JsonExtract(_, _, _) => IsPath(sc, e) && IsBoolPath(sc, e)
    case InList(x, list) => IsOperand(sc, x) && IsChoices(sc, list)
    case IsNull(x, _) => IsPath(sc, x)
    case StartsWithExpr(x, prefix) => PlainPath(sc, x) && IsOperand(sc, prefix)
    case AnyOp(op, lhs, rhs) => op == BinaryOp.Eq && IsOperand(sc, lhs) && PlainPath(sc, rhs)
    case Cast(x, toBool) => toBool && IsOperand(sc, x)
    case _ => false
  }

  /** Supported filters: non-empty operand lists, operands where operands go, booleans as predicates. */
  predicate IsCondition(sc: Scope, primary: bool, e: Expr) {
    if e.AndExpr? || e.OrExpr? then
      e.operands != [] && forall i :: 0 <= i < |e.operands| ==> IsCondition(sc, primary, e.operands[i])
    else if e.NotExpr? then IsCondition(sc, primary, e.x)
    else IsAtom(sc, primary, e)
  }

  // ---- What they mean ----

  function PathOf(sc: Scope, e: Expr): DocPath
    requires IsPath(sc, e)
  {
    match e
    case Column(index) => DocPath(sc.cx.names[index], [])
    case JsonExtract(base, path, _) => DocPath(sc.cx.names[base.index], path)
  }

  function OperandOf(sc: Scope, e: Expr): Operand
    requires IsOperand(sc, e)
  {
    match e
    case Literal(value) => ValOp(ToDdb(value).value)
    case Length(x) => SizeOp(PathOf(sc, x))
    case _ => PathOp(PathOf(sc, e))
  }

  function ChoicesOf(sc: Scope, list: Expr): seq<Operand>
    requires IsChoices(sc, list)
  {
    if list.Literal? && list.value.List? then ValueOps(list.value.items) else [OperandOf(sc, list)]
  }

  function ValueOps(vals: seq<Value>): (ops: seq<Operand>)
    requires forall v <- vals :: ToDdb(v).Some?
    ensures |ops| == |vals|
    ensures forall k :: 0 <= k < |ops| ==> ops[k] == ValOp(ToDdb(vals[k]).value)
  {
    seq(|vals|, k requires 0 <= k < |vals| => ValOp(ToDdb(vals[k]).value))
  }

  function AtomOf(sc: Scope, primary: bool, e: Expr): Atom
    requires IsAtom(sc, primary, e)
  {
    match e
    case BetweenExpr(x, low, high) => InRange(OperandOf(sc, x), OperandOf(sc, low), OperandOf(sc, high))
    case Binary(op, lhs, rhs) => Compare(ComparatorOf(op, primary).value, OperandOf(sc, lhs), OperandOf(sc, rhs))
    case Column(_) => Compare(Comparator.Eq, PathOp(PathOf(sc, e)), ValOp(BoolAttr(true)))
    case JsonExtract(_, _, _) => Compare(Comparator.Eq, PathOp(PathOf(sc, e)), ValOp(BoolAttr(true)))
    case InList(x, list) => OneOf(OperandOf(sc, x), ChoicesOf(sc, list))
    case IsNull(x, negated) => if negated then Exists(PathOf(sc, x)) else NotExists(PathOf(sc, x))
    case StartsWithExpr(x, prefix) => StartsWith(PathOf(sc, x), OperandOf(sc, prefix))
    case AnyOp(_, lhs, rhs) => Has(PathOf(sc, rhs), OperandOf(sc, lhs))
    case Cast(x, _) => Compare(Comparator.Eq, OperandOf(sc, x), ValOp(N("1")))
  }

  /** The engine's meaning: AND, OR and NOT of the atoms. */
  predicate Means(sc: Scope, primary: bool, e: Expr, interp: Interp)
    requires IsCondition(sc, primary, e)
  {
    if e.AndExpr? then forall i :: 0 <= i < |e.operands| ==> Means(sc, primary, e.operands[i], interp)
    else if e.OrExpr? then exists i :: 0 <= i < |e.operands| && Means(sc, primary, e.operands[i], interp)
    else if e.NotExpr? then !Means(sc, primary, e.x, interp)
    else interp(AtomOf(sc, primary, e))
  }

  // ---- What the rendered text says ----

  /** The conditions the text joins by AND at its top level. */
  function Says(sc: Scope, primary: bool, e: Expr): (cs: seq<Cond>)
    requires IsCondition(sc, primary, e)
    ensures cs != []
    decreases e, 0
  {
    if e.AndExpr? then Flat(SaysEach(sc, primary, e.operands))
    else if e.OrExpr? then [Group(Cases(SaysEach(sc, primary, e.operands)))]
    else if e.NotExpr? then [Group([Case(NegateFirst(Says(sc, primary, e.x)))])]
    else [Test(AtomOf(sc, primary, e))]
  }

  /** NOT in front of conditions joined by AND takes the first of them. */
  function NegateFirst(cs: seq<Cond>): (negated: seq<Cond>)
    requires cs != []
    ensures negated != []
  {
    [Negated(cs[0])] + cs[1..]
  }

  function SaysEach(sc: Scope, primary: bool, operands: seq<Expr>): (groups: seq<seq<Cond>>)
    requires forall i :: 0 <= i < |operands| ==> IsCondition(sc, primary, operands[i])
    ensures |groups| == |operands|
    ensures groups != [] ==> Flat(groups) != []
    decreases operands, 1
  {
    if operands == [] then [] else [Says(sc, primary, operands[0])] + SaysEach(sc, primary, operands[1..])
  }

  lemma {:induction false} SaysAt(sc: Scope, primary: bool, operands: seq<Expr>, k: nat)
    requires forall i :: 0 <= i < |operands| ==> IsCondition(sc, primary, operands[i])
    requires k < |operands|
    ensures SaysEach(sc, primary, operands)[k] == Says(sc, primary, operands[k])
  {
    if k > 0 {
      SaysAt(sc, primary, operands[1..], k - 1);
    }
  }

  // ---- Operands read back ----

  /** A segment's placeholder stands for it from then on. */
  lemma SegmentStands(cx: TableColumns, b: Attrs, name: string, f: Attrs)
    requires AttrsOk(cx, b) && Extends(AddSegment(b, name), f)
    ensures AddSegment(b, name).segments[name] in f.names && f.names[AddSegment(b, name).segments[name]] == name
    ensures Extends(b, f)
  {
    AddSegmentKeeps(cx, b, name);
    ExtendsTransitive(b, AddSegment(b, name), f);
    StillThere(AddSegment(b, name).names, f.names, AddSegment(b, name).segments[name]);
  }

  /** Dotted placeholders that stand for the first `n` names. */
  predicate Dotted(f: Attrs, ts: seq<Token>, path: seq<string>, n: nat)
    requires n <= |path|
  {
    if n == 0 then ts == []
    else
      && |ts| >= 2 && ts[|ts| - 2] == Dot && ts[|ts| - 1].Name?
      && ts[|ts| - 1].placeholder in f.names && f.names[ts[|ts| - 1].placeholder] == path[n - 1]
      && Dotted(f, ts[..|ts| - 2], path, n - 1)
  }

  lemma OneMoreDotted(f: Attrs, ts: seq<Token>, path: seq<string>, n: nat, p: Placeholder)
    requires n < |path| && Dotted(f, ts, path, n) && p in f.names && f.names[p] == path[n]
    ensures Dotted(f, ts + [Dot, Name(p)], path, n + 1)
  {
    var more := ts + [Dot, Name(p)];
    assert more[..|more| - 2] == ts;
  }

  lemma {:induction false} SegmentsDotted(cx: TableColumns, a: Attrs, path: seq<string>, n: nat, f: Attrs)
    requires n <= |path| && AttrsOk(cx, a) && Extends(RenderSegments(a, path, n).0, f)
    ensures Dotted(f, RenderSegments(a, path, n).1, path, n)
  {
    if n > 0 {
      var (b, ts) := RenderSegments(a, path, n - 1);
      LastSegmentStands(cx, a, path, n, f);
      SegmentsDotted(cx, a, path, n - 1, f);
      OneMoreDotted(f, ts, path, n - 1, AddSegment(b, path[n - 1]).segments[path[n - 1]]);
    }
  }

  lemma LastSegmentStands(cx: TableColumns, a: Attrs, path: seq<string>, n: nat, f: Attrs)
    requires 0 < n <= |path| && AttrsOk(cx, a) && Extends(RenderSegments(a, path, n).0, f)
    ensures
      var b := RenderSegments(a, path, n - 1).0;
      var p := AddSegment(b, path[n - 1]).segments[path[n - 1]];
      Extends(b, f) && p in f.names && f.names[p] == path[n - 1]
  {
    SegmentsKeep(cx, a, path, n - 1);
    SegmentStands(cx, RenderSegments(a, path, n - 1).0, path[n - 1], f);
  }

  lemma {:induction false} DottedReads(f: Attrs, ts: seq<Token>, path: seq<string>, n: nat, rest: seq<Token>)
    requires n <= |path| && Dotted(f, ts, path, n)
    ensures ParseSegments(f, ts + rest) == More(path[..n], ParseSegments(f, rest))
  {
    if n == 0 {
      assert ts + rest == rest && path[..0] == [];
      MoreNothing(ParseSegments(f, rest));
    } else {
      var init, p := ts[..|ts| - 2], ts[|ts| - 1].placeholder;
      assert ts == init + [Dot, Name(p)];
      DottedReads(f, init, path, n - 1, [Dot, Name(p)] + rest);
      OneMoreSegment(f, init, path[..n - 1], path[n - 1], p, rest);
      assert path[..n] == path[..n - 1] + [path[n - 1]];
    }
  }

  lemma OneMoreSegment(f: Attrs, ts: seq<Token>, names: seq<string>, name: string, p: Placeholder, rest: seq<Token>)
    requires p in f.names && f.names[p] == name
    requires ParseSegments(f, ts + ([Dot, Name(p)] + rest)) == More(names, ParseSegments(f, [Dot, Name(p)] + rest))
    ensures ParseSegments(f, ts + [Dot, Name(p)] + rest) == More(names + [name], ParseSegments(f, rest))
  {
    assert ts + [Dot, Name(p)] + rest == ts + ([Dot, Name(p)] + rest);
    SegmentsRead(f, name, p, rest);
    MoreTwice(names, name, ParseSegments(f, rest));
  }

  lemma ColumnStands(sc: Scope, a: Attrs, index: nat, f: Attrs)
    requires AttrsOk(sc.cx, a) && index < |sc.cx.names| && Extends(RenderColumn(sc, a, index).value.0, f)
    ensures RenderColumn(sc, a, index).value.1 == [Name(ColumnAlias(index))]
    ensures ColumnAlias(index) in f.names && f.names[ColumnAlias(index)] == sc.cx.names[index]
  {
    AddColumnKeeps(sc.cx, a, index);
    StillThere(RenderColumn(sc, a, index).value.0.names, f.names, ColumnAlias(index));
  }

  lemma ColumnReads(sc: Scope, a: Attrs, index: nat, f: Attrs)
    requires AttrsOk(sc.cx, a) && index < |sc.cx.names| && Extends(RenderColumn(sc, a, index).value.0, f)
    ensures ReadsPath(f, RenderColumn(sc, a, index).value.1, DocPath(sc.cx.names[index], []))
  {
    ColumnStands(sc, a, index, f);
    forall rest | NoDot(rest)
      ensures ParsePath(f, [Name(ColumnAlias(index))] + rest) == Some((DocPath(sc.cx.names[index], []), rest))
    {
      Peel(Name(ColumnAlias(index)), rest);
    }
  }

  lemma JsonPathReads(sc: Scope, a: Attrs, base: Expr, path: seq<string>, f: Attrs)
    requires AttrsOk(sc.cx, a) && base.Column? && base.index < |sc.cx.names|
    requires Extends(RenderPath(sc, a, base, path).value.0, f)
    ensures ReadsPath(f, RenderPath(sc, a, base, path).value.1, DocPath(sc.cx.names[base.index], path))
  {
    var b := RenderColumn(sc, a, base.index).value.0;
    var segments := RenderSegments(b, path, |path|).1;
    assert AttrsOk(sc.cx, b) by { AddColumnKeeps(sc.cx, a, base.index); }
    PathStands(sc.cx, b, path, f);
    ColumnStands(sc, a, base.index, f);
    var column := [Name(ColumnAlias(base.index))];
    forall rest | NoDot(rest)
      ensures ParsePath(f, column + segments + rest) == Some((DocPath(sc.cx.names[base.index], path), rest))
    {
      DottedReads(f, segments, path, |path|, rest);
      assert path[..|path|] == path && path + [] == path;
      PathThen(f, ColumnAlias(base.index), segments, path, rest);
    }
  }

  lemma PathStands(cx: TableColumns, b: Attrs, path: seq<string>, f: Attrs)
    requires AttrsOk(cx, b) && Extends(RenderSegments(b, path, |path|).0, f)
    ensures Extends(b, f) && Dotted(f, RenderSegments(b, path, |path|).1, path, |path|)
  {
    SegmentsKeep(cx, b, path, |path|);
    ExtendsTransitive(b, RenderSegments(b, path, |path|).0, f);
    SegmentsDotted(cx, b, path, |path|, f);
  }

  lemma PathThen(f: Attrs, p: Placeholder, segments: seq<Token>, path: seq<string>, rest: seq<Token>)
    requires p in f.names && ParseSegments(f, segments + rest) == Some((path, rest))
    ensures ParsePath(f, [Name(p)] + segments + rest) == Some((DocPath(f.names[p], path), rest))
  {
    assert [Name(p)] + segments + rest == [Name(p)] + (segments + rest);
    Peel(Name(p), segments + rest);
  }

  /** A path without its predicate: what presence tests and function arguments render. */
  lemma PathReads(sc: Scope, a: Attrs, primary: bool, e: Expr, f: Attrs)
    requires AttrsOk(sc.cx, a) && IsPath(sc, e) && Extends(RenderPresence(sc, a, primary, e).value.0, f)
    ensures ReadsPath(f, RenderPresence(sc, a, primary, e).value.1, PathOf(sc, e))
  {
    match e
    case Column(index) => ColumnReads(sc, a, index, f);
    case JsonExtract(base, path, _) => JsonPathReads(sc, a, base, path, f);
  }

  lemma PlainPathRender(sc: Scope, a: Attrs, primary: bool, e: Expr)
    requires PlainPath(sc, e)
    ensures Render(sc, a, primary, e) == RenderPresence(sc, a, primary, e)
    ensures Render(sc, a, primary, e).Some?
  {
  }

  lemma PlainPathReads(sc: Scope, a: Attrs, primary: bool, e: Expr, f: Attrs)
    requires AttrsOk(sc.cx, a) && PlainPath(sc, e)
    requires Render(sc, a, primary, e).Some? && Extends(Render(sc, a, primary, e).value.0, f)
    ensures ReadsPath(f, Render(sc, a, primary, e).value.1, PathOf(sc, e))
  {
    PlainPathRender(sc, a, primary, e);
    PathReads(sc, a, primary, e, f);
  }

  lemma LiteralReads(sc: Scope, a: Attrs, attr: Attr, f: Attrs)
    requires AttrsOk(sc.cx, a) && Extends(AddValue(a, attr), f)
    ensures ReadsOperand(f, [Val(ValueAlias(|a.values|))], ValOp(attr))
  {
    AddValueKeeps(sc.cx, a, attr);
    StillThere(AddValue(a, attr).values, f.values, ValueAlias(|a.values|));
    ValueReads(f, ValueAlias(|a.values|));
  }

  lemma OperandReads(sc: Scope, a: Attrs, primary: bool, e: Expr, f: Attrs)
    requires AttrsOk(sc.cx, a) && IsOperand(sc, e)
    requires Render(sc, a, primary, e).Some? && Extends(Render(sc, a, primary, e).value.0, f)
    ensures ReadsOperand(f, Render(sc, a, primary, e).value.1, OperandOf(sc, e))
  {
    if e.Literal? {
      LiteralReads(sc, a, ToDdb(e.value).value, f);
    } else if e.Length? {
      PlainPathRender(sc, a, primary, e.x);
      PlainPathReads(sc, a, primary, e.x, f);
      SizeReads(f, Render(sc, a, primary, e.x).value.1, PathOf(sc, e.x));
    } else {
      PlainPathReads(sc, a, primary, e, f);
      PathIsOperand(f, Render(sc, a, primary, e).value.1, PathOf(sc, e));
    }
  }
}
