/** How the engine folds NOT before a filter reaches the driver, and why no filter folded so has a NOT
    over several conditions. */
module FilterFold {
  import opened FilterAttrs
  import opened ConditionGrammar
  import opened FilterExpr
  import opened FilterMeaning
  import opened FilterTruth

  /** An expression, or its negation, with every NOT moved inwards through AND, OR and NOT as far as it
      goes: what the rules for NOT lead to when they are applied until none is left. */
  function Folded(e: Expr, negate: bool): Expr
    decreases e, 0
  {
    match e
    case AndExpr(operands) =>
      var folded := FoldedEach(operands, negate);
      if negate then Joined(folded, false) else AndExpr(folded)
    case OrExpr(operands) =>
      var folded := FoldedEach(operands, negate);
      if negate then Joined(folded, true) else OrExpr(folded)
    case NotExpr(x) => Folded(x, !negate)
    case _ => if negate then NotExpr(e) else e
  }

  function FoldedEach(operands: seq<Expr>, negate: bool): (folded: seq<Expr>)
    ensures |folded| == |operands|
    decreases operands, 1
  {
    if operands == [] then [] else [Folded(operands[0], negate)] + FoldedEach(operands[1..], negate)
  }

  /** `and_from_vec` and `or_from_vec`, of one or more operands. */
  function Joined(operands: seq<Expr>, all: bool): Expr {
    if |operands| == 1 then operands[0] else if all then AndExpr(operands) else OrExpr(operands)
  }

  lemma {:induction false} FoldedAt(operands: seq<Expr>, negate: bool, i: nat)
    requires i < |operands|
    ensures FoldedEach(operands, negate)[i] == Folded(operands[i], negate)
  {
    if i > 0 {
      FoldedAt(operands[1..], negate, i - 1);
    }
  }

  /** No NOT stands over AND, OR or NOT. */
  predicate NotsInside(e: Expr) {
    if e.AndExpr? || e.OrExpr? then forall i :: 0 <= i < |e.operands| ==> NotsInside(e.operands[i])
    else if e.NotExpr? then !e.x.AndExpr? && !e.x.OrExpr? && !e.x.NotExpr?
    else true
  }

  lemma {:induction false} FoldMovesNots(e: Expr, negate: bool)
    ensures NotsInside(Folded(e, negate))
    decreases e
  {
    match e
    case AndExpr(operands) => FoldMovesAllNots(operands, negate);
    case OrExpr(operands) => FoldMovesAllNots(operands, negate);
    case NotExpr(x) => FoldMovesNots(x, !negate);
    case _ =>
  }

  lemma {:induction false} FoldMovesAllNots(operands: seq<Expr>, negate: bool)
    ensures forall i :: 0 <= i < |operands| ==> NotsInside(FoldedEach(operands, negate)[i])
    decreases operands
  {
    forall i | 0 <= i < |operands|
      ensures NotsInside(FoldedEach(operands, negate)[i])
    {
      FoldedAt(operands, negate, i);
      FoldMovesNots(operands[i], negate);
    }
  }

  lemma {:induction false} InsideIsSafe(e: Expr)
    requires NotsInside(e)
    ensures NotSafe(e)
    decreases e
  {
    if e.AndExpr? || e.OrExpr? {
      forall i | 0 <= i < |e.operands|
        ensures NotSafe(e.operands[i])
      {
        InsideIsSafe(e.operands[i]);
      }
    }
  }

  /** Folding keeps a filter supported and means what the filter means. */
  lemma {:induction false} FoldKeepsMeaning(sc: Scope, primary: bool, e: Expr, negate: bool, interp: Interp)
    requires IsCondition(sc, primary, e)
    ensures IsCondition(sc, primary, Folded(e, negate))
    ensures Means(sc, primary, Folded(e, negate), interp) <==> Means(sc, primary, e, interp) != negate
    decreases e, 1
  {
    match e
    case AndExpr(operands) => FoldKeepsAll(sc, primary, operands, negate, interp);
    case OrExpr(operands) => FoldKeepsAll(sc, primary, operands, negate, interp);
    case NotExpr(x) => FoldKeepsMeaning(sc, primary, x, !negate, interp);
    case _ =>
  }

  lemma {:induction false} FoldKeepsAll(
    sc: Scope, primary: bool, operands: seq<Expr>, negate: bool, interp: Interp)
    requires forall i :: 0 <= i < |operands| ==> IsCondition(sc, primary, operands[i])
    ensures forall i :: 0 <= i < |operands| ==>
      && IsCondition(sc, primary, FoldedEach(operands, negate)[i])
      && (Means(sc, primary, FoldedEach(operands, negate)[i], interp)
          <==> Means(sc, primary, operands[i], interp) != negate)
    decreases operands, 0
  {
    forall i | 0 <= i < |operands|
      ensures IsCondition(sc, primary, FoldedEach(operands, negate)[i])
      ensures Means(sc, primary, FoldedEach(operands, negate)[i], interp)
         <==> Means(sc, primary, operands[i], interp) != negate
    {
      FoldedAt(operands, negate, i);
      FoldKeepsMeaning(sc, primary, operands[i], negate, interp);
    }
  }

  /** So a filter the engine has folded says in DynamoDB what it said before, NOTs and all. */
  lemma FoldedFiltersAreRight(sc: Scope, a: Attrs, primary: bool, e: Expr, interp: Interp)
    requires AttrsOk(sc.cx, a) && IsCondition(sc, primary, e)
    ensures IsCondition(sc, primary, Folded(e, false)) && NotSafe(Folded(e, false))
    ensures Render(sc, a, primary, Folded(e, false)).Some?
    ensures
      var (b, ts) := Render(sc, a, primary, Folded(e, false)).value;
      && ParseFilter(b, ts).Some?
      && (SomeCase(ParseFilter(b, ts).value, interp) <==> Means(sc, primary, e, interp))
  {
    FoldMovesNots(e, false);
    InsideIsSafe(Folded(e, false));
    FoldKeepsMeaning(sc, primary, e, false, interp);
    MeaningPreserved(sc, a, primary, Folded(e, false), interp);
  }
}
