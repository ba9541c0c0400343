/** Filters judged on a stored item: what the engine's own operators say of it, and what DynamoDB reads in
    the text that was rendered for them. */
module FilterWorld {
  import opened Wrappers
  import opened DynamoValue
  import opened FilterAttrs
  import opened ConditionGrammar
  import opened FilterExpr
  import opened FilterMeaning
  import opened FilterTruth
  import opened FilterFold

  /** An item as filters see it: where the values at its paths and the given values stand in the order,
      how large the values at its paths are, which paths are there, and what begins with or has what. */
  datatype World = World(
    at: DocPath -> int,
    given: Attr -> int,
    size: DocPath -> int,
    present: DocPath -> bool,
    begins: (DocPath, int) -> bool,
    has: (DocPath, int) -> bool)

  // ---- What DynamoDB reads ----

  function OperandValue(w: World, x: Operand): int {
    match x
    case PathOp(path) => w.at(path)
    case ValOp(value) => w.given(value)
    case SizeOp(path) => w.size(path)
  }

  predicate AtomTruth(w: World, atom: Atom) {
    match atom
    case Compare(op, left, right) => Satisfied(op, OperandValue(w, left), OperandValue(w, right))
    case InRange(x, low, high) => OperandValue(w, low) <= OperandValue(w, x) <= OperandValue(w, high)
    case OneOf(x, choices) => exists c <- choices :: OperandValue(w, c) == OperandValue(w, x)
    case Exists(path) => w.present(path)
    case NotExists(path) => !w.present(path)
    case StartsWith(path, prefix) => w.begins(path, OperandValue(w, prefix))
    case Has(path, item) => w.has(path, OperandValue(w, item))
  }

  function Reading(w: World): Interp {
    (atom: Atom) => AtomTruth(w, atom)
  }

  // ---- What the engine means ----

  /** The value an operand has on the item. */
  function ValueOf(sc: Scope, w: World, e: Expr): int
    requires IsOperand(sc, e)
  {
    match e
    case Literal(value) => w.given(ToDdb(value).value)
    case Length(x) => w.size(PathOf(sc, x))
    case _ => w.at(PathOf(sc, e))
  }

  /** Whether a value is one of the list's. */
  predicate Among(sc: Scope, w: World, list: Expr, n: int)
    requires IsChoices(sc, list)
  {
    if list.Literal? && list.value.List? then exists v <- list.value.items :: w.given(ToDdb(v).value) == n
    else ValueOf(sc, w, list) == n
  }

  /** The engine's own operators on an item. */
  predicate EngineSays(sc: Scope, w: World, primary: bool, e: Expr)
    requires IsCondition(sc, primary, e)
  {
    match e
    case AndExpr(operands) =>
      forall i :: 0 <= i < |operands| ==> EngineSays(sc, w, primary, operands[i])
    case OrExpr(operands) =>
      exists i :: 0 <= i < |operands| && EngineSays(sc, w, primary, operands[i])
    case NotExpr(x) => !EngineSays(sc, w, primary, x)
    case BetweenExpr(x, low, high) =>
      ValueOf(sc, w, low) <= ValueOf(sc, w, x) && ValueOf(sc, w, x) <= ValueOf(sc, w, high)
    case Binary(op, lhs, rhs) => Compares(op, ValueOf(sc, w, lhs), ValueOf(sc, w, rhs))
    case Column(_) => w.at(PathOf(sc, e)) == w.given(BoolAttr(true))
    case JsonExtract(_, _, _) => w.at(PathOf(sc, e)) == w.given(BoolAttr(true))
    case InList(x, list) => Among(sc, w, list, ValueOf(sc, w, x))
    case IsNull(x, negated) => w.present(PathOf(sc, x)) == negated
    case StartsWithExpr(x, prefix) => w.begins(PathOf(sc, x), ValueOf(sc, w, prefix))
    case AnyOp(_, lhs, rhs) => w.has(PathOf(sc, rhs), ValueOf(sc, w, lhs))
    case Cast(x, _) => ValueOf(sc, w, x) == w.given(N("1"))
  }

  // ---- The two agree ----

  lemma OperandAgrees(sc: Scope, w: World, e: Expr)
    requires IsOperand(sc, e)
    ensures OperandValue(w, OperandOf(sc, e)) == ValueOf(sc, w, e)
  {
  }

  lemma ChoicesAgree(sc: Scope, w: World, list: Expr, n: int)
    requires IsChoices(sc, list)
    ensures Among(sc, w, list, n) <==> exists c <- ChoicesOf(sc, list) :: OperandValue(w, c) == n
  {
    if list.Literal? && list.value.List? {
      var vals := list.value.items;
      var ops := ValueOps(vals);
      assert forall k :: 0 <= k < |ops| ==> OperandValue(w, ops[k]) == w.given(ToDdb(vals[k]).value);
      if v :| v in vals && w.given(ToDdb(v).value) == n {
        var k :| 0 <= k < |vals| && vals[k] == v;
        assert ops[k] in ops;
      }
      if c :| c in ops && OperandValue(w, c) == n {
        var k :| 0 <= k < |ops| && ops[k] == c;
        assert vals[k] in vals;
      }
    } else {
      var x := OperandOf(sc, list);
      assert ChoicesOf(sc, list) == [x] && x in [x];
    }
  }

  /** An atom is true of an item just when the engine's operator is. */
  lemma AtomAgrees(sc: Scope, w: World, primary: bool, e: Expr)
    requires IsCondition(sc, primary, e) && IsAtom(sc, primary, e)
    ensures AtomTruth(w, AtomOf(sc, primary, e)) <==> EngineSays(sc, w, primary, e)
  {
    if e.InList? {
      ChoicesAgree(sc, w, e.list, ValueOf(sc, w, e.x));
    }
  }

  lemma {:induction false} MeansAgrees(sc: Scope, w: World, primary: bool, e: Expr)
    requires IsCondition(sc, primary, e)
    ensures Means(sc, primary, e, Reading(w)) <==> EngineSays(sc, w, primary, e)
  {
    if e.AndExpr? || e.OrExpr? {
      forall i | 0 <= i < |e.operands|
        ensures Means(sc, primary, e.operands[i], Reading(w)) <==> EngineSays(sc, w, primary, e.operands[i])
      {
        MeansAgrees(sc, w, primary, e.operands[i]);
      }
    } else if e.NotExpr? {
      MeansAgrees(sc, w, primary, e.x);
    } else {
      AtomAgrees(sc, w, primary, e);
    }
  }

  /** The text of a supported filter with safe NOTs is true of an item just when the engine's own
      operators are. */
  lemma TextSaysWhatEngineSays(sc: Scope, a: Attrs, w: World, primary: bool, e: Expr)
    requires AttrsOk(sc.cx, a) && IsCondition(sc, primary, e) && NotSafe(e)
    ensures Render(sc, a, primary, e).Some?
    ensures
      var (b, ts) := Render(sc, a, primary, e).value;
      && ParseFilter(b, ts).Some?
      && (SomeCase(ParseFilter(b, ts).value, Reading(w)) <==> EngineSays(sc, w, primary, e))
  {
    MeaningPreserved(sc, a, primary, e, Reading(w));
    MeansAgrees(sc, w, primary, e);
  }

  /** And the text of any supported filter, once the engine has folded it. */
  lemma FoldedTextSaysWhatEngineSays(sc: Scope, a: Attrs, w: World, primary: bool, e: Expr)
    requires AttrsOk(sc.cx, a) && IsCondition(sc, primary, e)
    ensures Render(sc, a, primary, Folded(e, false)).Some?
    ensures
      var (b, ts) := Render(sc, a, primary, Folded(e, false)).value;
      && ParseFilter(b, ts).Some?
      && (SomeCase(ParseFilter(b, ts).value, Reading(w)) <==> EngineSays(sc, w, primary, e))
  {
    FoldedFiltersAreRight(sc, a, primary, e, Reading(w));
    MeansAgrees(sc, w, primary, e);
  }
}
