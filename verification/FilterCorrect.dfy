/** Rendered filters keep their meaning, exactly as far as NOT has one condition to negate. */
module FilterCorrect {
  import opened Wrappers
  import opened Values
  import opened DynamoValue
  import opened FilterAttrs
  import opened ConditionGrammar
  import opened FilterReading
  import opened FilterExpr
  import opened FilterGrowth
  import opened FilterMeaning

  // ---- Supported filters render ----

  lemma OperandRenders(sc: Scope, a: Attrs, primary: bool, e: Expr)
    requires IsOperand(sc, e)
    ensures Render(sc, a, primary, e).Some?
  {
  }

  lemma {:induction false} ValuesRender(a: Attrs, vals: seq<Value>, n: nat)
    requires n <= |vals| && forall v <- vals :: ToDdb(v).Some?
    ensures RenderValues(a, vals, n).Some? && |RenderValues(a, vals, n).value.1| == n
  {
    if n > 0 {
      ValuesRender(a, vals, n - 1);
    }
  }

  lemma ChoicesRender(sc: Scope, a: Attrs, primary: bool, list: Expr)
    requires IsChoices(sc, list)
    ensures RenderChoices(sc, a, primary, list).Some?
  {
    if list.Literal? && list.value.List? {
      ValuesRender(a, list.value.items, |list.value.items|);
    } else {
      OperandRenders(sc, a, primary, list);
    }
  }

  lemma AtomRenders(sc: Scope, a: Attrs, primary: bool, e: Expr)
    requires IsAtom(sc, primary, e)
    ensures Render(sc, a, primary, e).Some?
  {
    match e
    case BetweenExpr(x, low, high) =>
      OperandRenders(sc, a, primary, x);
      var b := Render(sc, a, primary, x).value.0;
      OperandRenders(sc, b, primary, low);
      OperandRenders(sc, Render(sc, b, primary, low).value.0, primary, high);
    case Binary(_, lhs, rhs) =>
      OperandRenders(sc, a, primary, lhs);
      OperandRenders(sc, Render(sc, a, primary, lhs).value.0, primary, rhs);
    case InList(x, list) =>
      OperandRenders(sc, a, primary, x);
      ChoicesRender(sc, Render(sc, a, primary, x).value.0, primary, list);
    case StartsWithExpr(x, prefix) =>
      PlainPathRender(sc, a, primary, x);
      OperandRenders(sc, Render(sc, a, primary, x).value.0, primary, prefix);
    case AnyOp(_, lhs, rhs) =>
      OperandRenders(sc, a, primary, lhs);
      PlainPathRender(sc, Render(sc, a, primary, lhs).value.0, primary, rhs);
    case Cast(x, _) => OperandRenders(sc, a, primary, x);
    case _ =>
  }

  lemma {:induction false} ConditionRenders(sc: Scope, a: Attrs, primary: bool, e: Expr)
    requires IsCondition(sc, primary, e)
    ensures Render(sc, a, primary, e).Some?
    decreases e, 0
  {
    if e.AndExpr? || e.OrExpr? {
      OperandsRender(sc, a, primary, e.operands, |e.operands|);
    } else if e.NotExpr? {
      ConditionRenders(sc, a, primary, e.x);
    } else {
      AtomRenders(sc, a, primary, e);
    }
  }

  lemma {:induction false} OperandsRender(sc: Scope, a: Attrs, primary: bool, operands: seq<Expr>, n: nat)
    requires forall i :: 0 <= i < |operands| ==> IsCondition(sc, primary, operands[i])
    requires n <= |operands|
    ensures RenderOperands(sc, a, primary, operands, n).Some?
    ensures |RenderOperands(sc, a, primary, operands, n).value.1| == n
    decreases operands, n
  {
    if n > 0 {
      OperandsRender(sc, a, primary, operands, n - 1);
      ConditionRenders(sc, RenderOperands(sc, a, primary, operands, n - 1).value.0, primary, operands[n - 1]);
    }
  }

  // ---- Atoms read back ----

  /** The first of two renderings stands as long as the second does. */
  lemma FirstStands(sc: Scope, b: Attrs, primary: bool, y: Expr, f: Attrs)
    requires AttrsOk(sc.cx, b) && Render(sc, b, primary, y).Some? && Extends(Render(sc, b, primary, y).value.0, f)
    ensures Extends(b, f)
  {
    RenderKeeps(sc, b, primary, y);
    ExtendsTransitive(b, Render(sc, b, primary, y).value.0, f);
  }

  lemma TwoOperands(sc: Scope, a: Attrs, primary: bool, x: Expr, y: Expr, f: Attrs)
    requires AttrsOk(sc.cx, a) && IsOperand(sc, x) && IsOperand(sc, y)
    requires Render(sc, a, primary, x).Some? && Render(sc, Render(sc, a, primary, x).value.0, primary, y).Some?
    requires Extends(Render(sc, Render(sc, a, primary, x).value.0, primary, y).value.0, f)
    ensures
      var (b, left) := Render(sc, a, primary, x).value;
      && AttrsOk(sc.cx, b) && Extends(b, f)
      && ReadsOperand(f, left, OperandOf(sc, x))
      && ReadsOperand(f, Render(sc, b, primary, y).value.1, OperandOf(sc, y))
  {
    var b := Render(sc, a, primary, x).value.0;
    RenderKeeps(sc, a, primary, x);
    FirstStands(sc, b, primary, y, f);
    OperandReads(sc, a, primary, x, f);
    OperandReads(sc, b, primary, y, f);
  }

  lemma BetweenAtom(sc: Scope, a: Attrs, primary: bool, e: Expr, f: Attrs)
    requires AttrsOk(sc.cx, a) && e.BetweenExpr? && IsAtom(sc, primary, e)
    requires Render(sc, a, primary, e).Some? && Extends(Render(sc, a, primary, e).value.0, f)
    ensures ReadsAtom(f, Render(sc, a, primary, e).value.1, AtomOf(sc, primary, e))
  {
    var (b, field) := Render(sc, a, primary, e.x).value;
    var (c, from) := Render(sc, b, primary, e.low).value;
    var (d, to) := Render(sc, c, primary, e.high).value;
    RenderKeeps(sc, a, primary, e.x);
    RenderKeeps(sc, b, primary, e.low);
    FirstStands(sc, c, primary, e.high, f);
    TwoOperands(sc, a, primary, e.x, e.low, f);
    OperandReads(sc, c, primary, e.high, f);
    BetweenReads(f, field, OperandOf(sc, e.x), from, OperandOf(sc, e.low), to, OperandOf(sc, e.high));
  }

  lemma BinaryAtom(sc: Scope, a: Attrs, primary: bool, e: Expr, f: Attrs)
    requires AttrsOk(sc.cx, a) && e.Binary? && IsAtom(sc, primary, e)
    requires Render(sc, a, primary, e).Some? && Extends(Render(sc, a, primary, e).value.0, f)
    ensures ReadsAtom(f, Render(sc, a, primary, e).value.1, AtomOf(sc, primary, e))
  {
    var (b, left) := Render(sc, a, primary, e.lhs).value;
    var right := Render(sc, b, primary, e.rhs).value.1;
    TwoOperands(sc, a, primary, e.lhs, e.rhs, f);
    CompareReads(f, left, OperandOf(sc, e.lhs), ComparatorOf(e.op, primary).value, right, OperandOf(sc, e.rhs));
  }

  /** `= value` behind an operand's text. */
  lemma EqualToReads(sc: Scope, r: (Attrs, seq<Token>), x: Operand, attr: Attr, f: Attrs)
    requires AttrsOk(sc.cx, r.0) && Extends(EqualTo(r, attr).0, f) && ReadsOperand(f, r.1, x)
    ensures ReadsAtom(f, EqualTo(r, attr).1, Compare(Comparator.Eq, x, ValOp(attr)))
  {
    var value := [Val(ValueAlias(|r.0.values|))];
    LiteralReads(sc, r.0, attr, f);
    CompareReads(f, r.1, x, Comparator.Eq, value, ValOp(attr));
    assert r.1 + [Cmp(Comparator.Eq)] + value == r.1 + [Cmp(Comparator.Eq), Val(ValueAlias(|r.0.values|))];
  }

  lemma ValueStands(cx: TableColumns, a: Attrs, attr: Attr, f: Attrs)
    requires AttrsOk(cx, a) && Extends(AddValue(a, attr), f)
    ensures Extends(a, f)
  {
    AddValueKeeps(cx, a, attr);
    ExtendsTransitive(a, AddValue(a, attr), f);
  }

  lemma BoolPathAtom(sc: Scope, a: Attrs, primary: bool, e: Expr, f: Attrs)
    requires AttrsOk(sc.cx, a) && (e.Column? || e.JsonExtract?) && IsAtom(sc, primary, e)
    requires Render(sc, a, primary, e).Some? && Extends(Render(sc, a, primary, e).value.0, f)
    ensures ReadsAtom(f, Render(sc, a, primary, e).value.1, AtomOf(sc, primary, e))
  {
    var r := RenderPresence(sc, a, primary, e).value;
    assert Render(sc, a, primary, e).value == EqualTo(r, BoolAttr(true));
    assert AttrsOk(sc.cx, r.0) by {
      if e.Column? { AddColumnKeeps(sc.cx, a, e.index); } else { PathKeeps(sc, a, e.base, e.path); }
    }
    ValueStands(sc.cx, r.0, BoolAttr(true), f);
    PathReads(sc, a, primary, e, f);
    PathIsOperand(f, r.1, PathOf(sc, e));
    EqualToReads(sc, r, PathOp(PathOf(sc, e)), BoolAttr(true), f);
  }

  lemma CastAtom(sc: Scope, a: Attrs, primary: bool, e: Expr, f: Attrs)
    requires AttrsOk(sc.cx, a) && e.Cast? && IsAtom(sc, primary, e)
    requires Render(sc, a, primary, e).Some? && Extends(Render(sc, a, primary, e).value.0, f)
    ensures ReadsAtom(f, Render(sc, a, primary, e).value.1, AtomOf(sc, primary, e))
  {
    var r := Render(sc, a, primary, e.x).value;
    RenderKeeps(sc, a, primary, e.x);
    ValueStands(sc.cx, r.0, N("1"), f);
    OperandReads(sc, a, primary, e.x, f);
    EqualToReads(sc, r, OperandOf(sc, e.x), N("1"), f);
  }

  lemma PresenceAtom(sc: Scope, a: Attrs, primary: bool, e: Expr, f: Attrs)
    requires AttrsOk(sc.cx, a) && e.IsNull? && IsAtom(sc, primary, e)
    requires Render(sc, a, primary, e).Some? && Extends(Render(sc, a, primary, e).value.0, f)
    ensures ReadsAtom(f, Render(sc, a, primary, e).value.1, AtomOf(sc, primary, e))
  {
    PathReads(sc, a, primary, e.x, f);
    PresenceReads(f, if e.negated then AttributeExists else AttributeNotExists,
      RenderPresence(sc, a, primary, e.x).value.1, PathOf(sc, e.x));
  }

  lemma StartsWithAtom(sc: Scope, a: Attrs, primary: bool, e: Expr, f: Attrs)
    requires AttrsOk(sc.cx, a) && e.StartsWithExpr? && IsAtom(sc, primary, e)
    requires Render(sc, a, primary, e).Some? && Extends(Render(sc, a, primary, e).value.0, f)
    ensures ReadsAtom(f, Render(sc, a, primary, e).value.1, AtomOf(sc, primary, e))
  {
    var (b, field) := Render(sc, a, primary, e.x).value;
    TwoOperands(sc, a, primary, e.x, e.prefix, f);
    PlainPathReads(sc, a, primary, e.x, f);
    CallReads(f, BeginsWith, field, PathOf(sc, e.x), Render(sc, b, primary, e.prefix).value.1, OperandOf(sc, e.prefix));
  }

  lemma AnyOpAtom(sc: Scope, a: Attrs, primary: bool, e: Expr, f: Attrs)
    requires AttrsOk(sc.cx, a) && e.AnyOp? && IsAtom(sc, primary, e)
    requires Render(sc, a, primary, e).Some? && Extends(Render(sc, a, primary, e).value.0, f)
    ensures ReadsAtom(f, Render(sc, a, primary, e).value.1, AtomOf(sc, primary, e))
  {
    var (b, value) := Render(sc, a, primary, e.lhs).value;
    TwoOperands(sc, a, primary, e.lhs, e.rhs, f);
    PlainPathReads(sc, b, primary, e.rhs, f);
    CallReads(f, Contains, Render(sc, b, primary, e.rhs).value.1, PathOf(sc, e.rhs), value, OperandOf(sc, e.lhs));
  }

  /** The parts read as the first `n` values. */
  ghost predicate ValuePartsRead(f: Attrs, vals: seq<Value>, parts: seq<seq<Token>>, n: nat)
    requires n <= |vals| && forall v <- vals :: ToDdb(v).Some?
  {
    |parts| == n && forall k :: 0 <= k < n ==> ReadsOperand(f, parts[k], ValOp(ToDdb(vals[k]).value))
  }

  lemma OneValueMore(f: Attrs, vals: seq<Value>, parts: seq<seq<Token>>, n: nat, part: seq<Token>)
    requires n < |vals| && (forall v <- vals :: ToDdb(v).Some?) && ValuePartsRead(f, vals, parts, n)
    requires ReadsOperand(f, part, ValOp(ToDdb(vals[n]).value))
    ensures ValuePartsRead(f, vals, parts + [part], n + 1)
  {
  }

  lemma {:induction false} ValuesRead(sc: Scope, a: Attrs, vals: seq<Value>, n: nat, f: Attrs)
    requires AttrsOk(sc.cx, a) && n <= |vals| && (forall v <- vals :: ToDdb(v).Some?)
    requires RenderValues(a, vals, n).Some? && Extends(RenderValues(a, vals, n).value.0, f)
    ensures ValuePartsRead(f, vals, RenderValues(a, vals, n).value.1, n)
  {
    if n > 0 {
      var (b, parts) := RenderValues(a, vals, n - 1).value;
      var attr := ToDdb(vals[n - 1]).value;
      ValuesKeep(sc.cx, a, vals, n - 1);
      ValueStands(sc.cx, b, attr, f);
      ValuesRead(sc, a, vals, n - 1, f);
      LiteralReads(sc, b, attr, f);
      OneValueMore(f, vals, parts, n - 1, [Val(ValueAlias(|b.values|))]);
    }
  }

  lemma ListReads(sc: Scope, a: Attrs, primary: bool, list: Expr, f: Attrs)
    requires AttrsOk(sc.cx, a) && IsChoices(sc, list)
    requires RenderChoices(sc, a, primary, list).Some? && Extends(RenderChoices(sc, a, primary, list).value.0, f)
    ensures ReadsChoices(f, RenderChoices(sc, a, primary, list).value.1, ChoicesOf(sc, list))
  {
    if list.Literal? && list.value.List? {
      var vals := list.value.items;
      ValuesRead(sc, a, vals, |vals|, f);
      ChoicesRead(f, RenderValues(a, vals, |vals|).value.1, ValueOps(vals));
    } else {
      var text := Render(sc, a, primary, list).value.1;
      OperandReads(sc, a, primary, list, f);
      ChoicesRead(f, [text], [OperandOf(sc, list)]);
    }
  }

  lemma InListAtom(sc: Scope, a: Attrs, primary: bool, e: Expr, f: Attrs)
    requires AttrsOk(sc.cx, a) && e.InList? && IsAtom(sc, primary, e)
    requires Render(sc, a, primary, e).Some? && Extends(Render(sc, a, primary, e).value.0, f)
    ensures ReadsAtom(f, Render(sc, a, primary, e).value.1, AtomOf(sc, primary, e))
  {
    var (b, field) := Render(sc, a, primary, e.x).value;
    var (c, choices) := RenderChoices(sc, b, primary, e.list).value;
    RenderKeeps(sc, a, primary, e.x);
    ChoicesKeep(sc, b, primary, e.list);
    ExtendsTransitive(b, c, f);
    OperandReads(sc, a, primary, e.x, f);
    ListReads(sc, b, primary, e.list, f);
    InReads(f, field, OperandOf(sc, e.x), choices, ChoicesOf(sc, e.list));
  }

  lemma AtomReadsBack(sc: Scope, a: Attrs, primary: bool, e: Expr, f: Attrs)
    requires AttrsOk(sc.cx, a) && IsAtom(sc, primary, e)
    requires Render(sc, a, primary, e).Some? && Extends(Render(sc, a, primary, e).value.0, f)
    ensures ReadsAtom(f, Render(sc, a, primary, e).value.1, AtomOf(sc, primary, e))
  {
    match e
    case BetweenExpr(_, _, _) => BetweenAtom(sc, a, primary, e, f);
    case Binary(_, _, _) => BinaryAtom(sc, a, primary, e, f);
    case Column(_) => BoolPathAtom(sc, a, primary, e, f);
    case JsonExtract(_, _, _) => BoolPathAtom(sc, a, primary, e, f);
    case InList(_, _) => InListAtom(sc, a, primary, e, f);
    case IsNull(_, _) => PresenceAtom(sc, a, primary, e, f);
    case StartsWithExpr(_, _) => StartsWithAtom(sc, a, primary, e, f);
    case AnyOp(_, _, _) => AnyOpAtom(sc, a, primary, e, f);
    case Cast(_, _) => CastAtom(sc, a, primary, e, f);
  }

  // ---- Conditions read back ----

  predicate AllConditions(sc: Scope, primary: bool, operands: seq<Expr>) {
    forall i :: 0 <= i < |operands| ==> IsCondition(sc, primary, operands[i])
  }

  /** The first `n` parts read as what their operands say. */
  ghost predicate PartsRead(
      sc: Scope, primary: bool, f: Attrs, operands: seq<Expr>, parts: seq<seq<Token>>, n: nat)
    requires n <= |operands| && AllConditions(sc, primary, operands)
  {
    && |parts| == n
    && forall k :: 0 <= k < n ==> ReadsAll(f, parts[k], Says(sc, primary, operands[k]))
  }

  lemma OnePartMore(
      sc: Scope, primary: bool, f: Attrs, operands: seq<Expr>, parts: seq<seq<Token>>, n: nat, part: seq<Token>)
    requires n < |operands| && AllConditions(sc, primary, operands)
    requires PartsRead(sc, primary, f, operands, parts, n)
    requires ReadsAll(f, part, Says(sc, primary, operands[n]))
    ensures PartsRead(sc, primary, f, operands, parts + [part], n + 1)
  {
  }

  lemma {:induction false} OperandsReadBack(
      sc: Scope, a: Attrs, primary: bool, operands: seq<Expr>, n: nat, f: Attrs)
    requires AttrsOk(sc.cx, a) && n <= |operands| && AllConditions(sc, primary, operands)
    requires RenderOperands(sc, a, primary, operands, n).Some?
    requires Extends(RenderOperands(sc, a, primary, operands, n).value.0, f)
    ensures PartsRead(sc, primary, f, operands, RenderOperands(sc, a, primary, operands, n).value.1, n)
    decreases operands, n
  {
    if n > 0 {
      var (b, parts) := RenderOperands(sc, a, primary, operands, n - 1).value;
      var part := Render(sc, b, primary, operands[n - 1]).value.1;
      OperandsKeep(sc, a, primary, operands, n - 1);
      FirstStands(sc, b, primary, operands[n - 1], f);
      OperandsReadBack(sc, a, primary, operands, n - 1, f);
      ReadsBack(sc, b, primary, operands[n - 1], f);
      OnePartMore(sc, primary, f, operands, parts, n - 1, part);
    }
  }

  lemma GroupsRead(sc: Scope, primary: bool, f: Attrs, operands: seq<Expr>, parts: seq<seq<Token>>)
    requires AllConditions(sc, primary, operands)
    requires PartsRead(sc, primary, f, operands, parts, |operands|)
    ensures forall k :: 0 <= k < |operands| ==> ReadsAll(f, parts[k], SaysEach(sc, primary, operands)[k])
  {
    forall k | 0 <= k < |operands|
      ensures ReadsAll(f, parts[k], SaysEach(sc, primary, operands)[k])
    {
      SaysAt(sc, primary, operands, k);
    }
  }

  lemma JoinedReads(sc: Scope, primary: bool, f: Attrs, e: Expr, parts: seq<seq<Token>>)
    requires IsCondition(sc, primary, e) && (e.AndExpr? || e.OrExpr?)
    requires PartsRead(sc, primary, f, e.operands, parts, |e.operands|)
    ensures e.AndExpr? ==> ReadsAll(f, Join(parts, And), Says(sc, primary, e))
    ensures e.OrExpr? ==> ReadsAll(f, [LParen] + Join(parts, Or) + [RParen], Says(sc, primary, e))
  {
    var groups := SaysEach(sc, primary, e.operands);
    GroupsRead(sc, primary, f, e.operands, parts);
    if e.AndExpr? {
      AllRead(f, parts, groups);
    } else {
      CasesRead(f, parts, groups);
      GroupReads(f, Join(parts, Or), Cases(groups));
    }
  }

  lemma NegatedReads(sc: Scope, primary: bool, f: Attrs, e: Expr, inner: seq<Token>)
    requires IsCondition(sc, primary, e) && e.NotExpr? && ReadsAll(f, inner, Says(sc, primary, e.x))
    ensures ReadsAll(f, [LParen, Not] + inner + [RParen], Says(sc, primary, e))
  {
    NotReads(f, inner, Says(sc, primary, e.x));
    GroupReads(f, [Not] + inner, [Case(NegateFirst(Says(sc, primary, e.x)))]);
    assert [LParen, Not] + inner + [RParen] == [LParen] + ([Not] + inner) + [RParen];
  }

  /** The rendered text reads as the conditions it says, whatever may follow it. */
  lemma {:induction false} ReadsBack(sc: Scope, a: Attrs, primary: bool, e: Expr, f: Attrs)
    requires AttrsOk(sc.cx, a) && IsCondition(sc, primary, e)
    requires Render(sc, a, primary, e).Some? && Extends(Render(sc, a, primary, e).value.0, f)
    ensures ReadsAll(f, Render(sc, a, primary, e).value.1, Says(sc, primary, e))
    decreases e, 0
  {
    if e.AndExpr? || e.OrExpr? {
      OperandsReadBack(sc, a, primary, e.operands, |e.operands|, f);
      JoinedReads(sc, primary, f, e, RenderOperands(sc, a, primary, e.operands, |e.operands|).value.1);
    } else if e.NotExpr? {
      ReadsBack(sc, a, primary, e.x, f);
      NegatedReads(sc, primary, f, e, Render(sc, a, primary, e.x).value.1);
    } else {
      AtomReadsBack(sc, a, primary, e, f);
      AtomReads(f, Render(sc, a, primary, e).value.1, AtomOf(sc, primary, e));
    }
  }

  /** Every supported filter renders, and reading the text by DynamoDB's precedence against the
      finished tables gives exactly what `Says` spells out. */
  lemma FilterParses(sc: Scope, a: Attrs, primary: bool, e: Expr)
    requires AttrsOk(sc.cx, a) && IsCondition(sc, primary, e)
    ensures Render(sc, a, primary, e).Some?
    ensures
      var (b, ts) := Render(sc, a, primary, e).value;
      ParseFilter(b, ts) == Some([Case(Says(sc, primary, e))])
  {
    ConditionRenders(sc, a, primary, e);
    var (b, ts) := Render(sc, a, primary, e).value;
    ReadsBack(sc, a, primary, e, b);
    AllIsCase(b, ts, Says(sc, primary, e));
    assert ts + [] == ts;
    assert ParseCases(b, ts + []) == Some(([Case(Says(sc, primary, e))], []));
  }
}
