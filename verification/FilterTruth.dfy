/** A rendered filter keeps its truth value, exactly as far as each NOT has one condition to negate. */
module FilterTruth {
  import opened Wrappers
  import opened FilterAttrs
  import opened ConditionGrammar
  import opened FilterReading
  import opened FilterExpr
  import opened FilterMeaning
  import opened FilterCorrect

  /** How many conditions the expression puts side by side, unbracketed: those of nested ANDs. */
  function Width(e: Expr): nat
    decreases e, 0
  {
    if e.AndExpr? then Widths(e.operands) else 1
  }

  function Widths(operands: seq<Expr>): nat
    decreases operands, 1
  {
    if operands == [] then 0 else Width(operands[0]) + Widths(operands[1..])
  }

  /** No NOT stands in front of more than one condition. */
  predicate NotSafe(e: Expr) {
    if e.AndExpr? || e.OrExpr? then forall i :: 0 <= i < |e.operands| ==> NotSafe(e.operands[i])
    else if e.NotExpr? then Width(e.x) == 1 && NotSafe(e.x)
    else true
  }

  lemma {:induction false} SaysWidth(sc: Scope, primary: bool, e: Expr)
    requires IsCondition(sc, primary, e)
    ensures |Says(sc, primary, e)| == Width(e)
    decreases e, 0
  {
    if e.AndExpr? {
      SaysWidths(sc, primary, e.operands);
    }
  }

  lemma {:induction false} SaysWidths(sc: Scope, primary: bool, operands: seq<Expr>)
    requires AllConditions(sc, primary, operands)
    ensures |Flat(SaysEach(sc, primary, operands))| == Widths(operands)
    decreases operands, 1
  {
    if operands != [] {
      SaysWidth(sc, primary, operands[0]);
      SaysWidths(sc, primary, operands[1..]);
      assert SaysEach(sc, primary, operands)[1..] == SaysEach(sc, primary, operands[1..]);
    }
  }

  // ---- The tree as meant ----

  /** What the text would say with brackets behind every NOT that needs them. */
  function Bracketed(sc: Scope, primary: bool, e: Expr): (cs: seq<Cond>)
    requires IsCondition(sc, primary, e)
    ensures |cs| == Width(e)
    decreases e, 0
  {
    if e.AndExpr? then Flat(BracketedEach(sc, primary, e.operands))
    else if e.OrExpr? then [Group(Cases(BracketedEach(sc, primary, e.operands)))]
    else if e.NotExpr? then
      var cs := Bracketed(sc, primary, e.x);
      [Group([Case([Negated(if |cs| == 1 then cs[0] else Group([Case(cs)]))])])]
    else [Test(AtomOf(sc, primary, e))]
  }

  function BracketedEach(sc: Scope, primary: bool, operands: seq<Expr>): (groups: seq<seq<Cond>>)
    requires AllConditions(sc, primary, operands)
    ensures |groups| == |operands| && |Flat(groups)| == Widths(operands)
    decreases operands, 1
  {
    if operands == [] then []
    else [Bracketed(sc, primary, operands[0])] + BracketedEach(sc, primary, operands[1..])
  }

  /** The text reads as the tree that is meant if and only if its NOTs are safe. */
  lemma {:induction false} TreeAsMeant(sc: Scope, primary: bool, e: Expr)
    requires IsCondition(sc, primary, e)
    ensures Says(sc, primary, e) == Bracketed(sc, primary, e) <==> NotSafe(e)
    decreases e, 0
  {
    SaysWidth(sc, primary, e);
    if e.AndExpr? || e.OrExpr? {
      TreesAsMeant(sc, primary, e.operands);
      if e.OrExpr? {
        CasesInjective(SaysEach(sc, primary, e.operands), BracketedEach(sc, primary, e.operands));
      }
    } else if e.NotExpr? {
      TreeAsMeant(sc, primary, e.x);
      var said, meant := Says(sc, primary, e.x), Bracketed(sc, primary, e.x);
      SaysWidth(sc, primary, e.x);
      if |said| == 1 {
        assert NegateFirst(said) == [Negated(said[0])];
        assert said == [said[0]] && meant == [meant[0]];
      } else {
        assert |NegateFirst(said)| != 1;
      }
    }
  }

  lemma {:induction false} TreesAsMeant(sc: Scope, primary: bool, operands: seq<Expr>)
    requires AllConditions(sc, primary, operands)
    ensures
      var said, meant := SaysEach(sc, primary, operands), BracketedEach(sc, primary, operands);
      && (said == meant <==> forall i :: 0 <= i < |operands| ==> NotSafe(operands[i]))
      && (Flat(said) == Flat(meant) <==> said == meant)
    decreases operands, 1
  {
    if operands != [] {
      var said, meant := SaysEach(sc, primary, operands), BracketedEach(sc, primary, operands);
      var rest := operands[1..];
      TreeAsMeant(sc, primary, operands[0]);
      TreesAsMeant(sc, primary, rest);
      SaysWidth(sc, primary, operands[0]);
      assert said[1..] == SaysEach(sc, primary, rest) && meant[1..] == BracketedEach(sc, primary, rest);
      assert said == [said[0]] + said[1..] && meant == [meant[0]] + meant[1..];
      AppendInjective(said[0], Flat(said[1..]), meant[0], Flat(meant[1..]));
      assert forall i :: 0 <= i < |rest| ==> rest[i] == operands[i + 1];
      assert forall i :: 0 < i < |operands| ==> operands[i] == rest[i - 1];
    }
  }

  lemma AppendInjective(a: seq<Cond>, b: seq<Cond>, c: seq<Cond>, d: seq<Cond>)
    requires |a| == |c|
    ensures a + b == c + d <==> a == c && b == d
  {
    if a + b == c + d {
      assert a == (a + b)[..|a|] && c == (c + d)[..|a|];
      assert b == (a + b)[|a|..] && d == (c + d)[|a|..];
    }
  }

  lemma CasesInjective(a: seq<seq<Cond>>, b: seq<seq<Cond>>)
    requires |a| == |b|
    ensures Cases(a) == Cases(b) <==> a == b
  {
    if Cases(a) == Cases(b) {
      forall k | 0 <= k < |a|
        ensures a[k] == b[k]
      {
        assert Cases(a)[k] == Case(a[k]) && Cases(b)[k] == Case(b[k]);
      }
    }
  }

  // ---- Truth of lists ----

  lemma {:induction false} AllHoldAppend(cs: seq<Cond>, ds: seq<Cond>, interp: Interp)
    ensures AllHold(cs + ds, interp) <==> AllHold(cs, interp) && AllHold(ds, interp)
  {
    if cs == [] {
      assert cs + ds == ds;
    } else {
      AllHoldAppend(cs[1..], ds, interp);
      assert (cs + ds)[1..] == cs[1..] + ds;
    }
  }

  lemma {:induction false} TruthOfAll(sc: Scope, primary: bool, operands: seq<Expr>, interp: Interp)
    requires AllConditions(sc, primary, operands)
    requires forall i :: 0 <= i < |operands| ==> IsRight(sc, primary, operands[i], interp)
    ensures AllHold(Flat(BracketedEach(sc, primary, operands)), interp) <==>
      forall i :: 0 <= i < |operands| ==> Means(sc, primary, operands[i], interp)
  {
    var groups := BracketedEach(sc, primary, operands);
    if operands != [] {
      var rest := operands[1..];
      TruthOfAll(sc, primary, rest, interp);
      assert groups[1..] == BracketedEach(sc, primary, rest);
      AllHoldAppend(groups[0], Flat(groups[1..]), interp);
      assert IsRight(sc, primary, operands[0], interp);
      assert forall i :: 0 <= i < |rest| ==> rest[i] == operands[i + 1];
      assert forall i :: 0 < i < |operands| ==> operands[i] == rest[i - 1];
    }
  }

  lemma {:induction false} TruthOfSome(sc: Scope, primary: bool, operands: seq<Expr>, interp: Interp)
    requires AllConditions(sc, primary, operands)
    requires forall i :: 0 <= i < |operands| ==> IsRight(sc, primary, operands[i], interp)
    ensures SomeCase(Cases(BracketedEach(sc, primary, operands)), interp) <==>
      exists i :: 0 <= i < |operands| && Means(sc, primary, operands[i], interp)
  {
    var groups := BracketedEach(sc, primary, operands);
    if operands != [] {
      var rest := operands[1..];
      TruthOfSome(sc, primary, rest, interp);
      assert groups[1..] == BracketedEach(sc, primary, rest);
      assert Cases(groups)[1..] == Cases(groups[1..]);
      assert IsRight(sc, primary, operands[0], interp);
      assert forall i :: 0 <= i < |rest| ==> rest[i] == operands[i + 1];
      assert forall i :: 0 < i < |operands| ==> operands[i] == rest[i - 1];
    }
  }

  ghost predicate IsRight(sc: Scope, primary: bool, e: Expr, interp: Interp)
    requires IsCondition(sc, primary, e)
  {
    AllHold(Bracketed(sc, primary, e), interp) <==> Means(sc, primary, e, interp)
  }

  /** What the text says is true just when the expression is. */
  ghost predicate Agrees(sc: Scope, primary: bool, e: Expr, interp: Interp)
    requires IsCondition(sc, primary, e)
  {
    AllHold(Says(sc, primary, e), interp) <==> Means(sc, primary, e, interp)
  }

  lemma OneCase(cs: seq<Cond>, interp: Interp)
    ensures AllHold([Group([Case(cs)])], interp) <==> AllHold(cs, interp)
  {
    assert AllHold([], interp);
    assert !SomeCase([], interp);
    assert SomeCase([Case(cs)], interp) <==> AllHold(cs, interp);
    assert Holds(Group([Case(cs)]), interp) <==> AllHold(cs, interp);
  }

  /** `NOT c AND rest` against `NOT (c AND rest)`. */
  lemma NegatedTruth(sc: Scope, primary: bool, e: Expr, interp: Interp)
    requires IsCondition(sc, primary, e) && e.NotExpr?
    ensures
      var cs := Says(sc, primary, e.x);
      AllHold(Says(sc, primary, e), interp) <==> !Holds(cs[0], interp) && AllHold(cs[1..], interp)
  {
    var cs := Says(sc, primary, e.x);
    var negated := NegateFirst(cs);
    OneCase(negated, interp);
    assert negated[1..] == cs[1..];
    assert Holds(negated[0], interp) <==> !Holds(cs[0], interp);
  }

  /** With its brackets, every filter says what it means. */
  lemma {:induction false} BracketedIsRight(sc: Scope, primary: bool, e: Expr, interp: Interp)
    requires IsCondition(sc, primary, e)
    ensures IsRight(sc, primary, e, interp)
  {
    var cs := Bracketed(sc, primary, e);
    if e.AndExpr? || e.OrExpr? {
      forall i | 0 <= i < |e.operands|
        ensures IsRight(sc, primary, e.operands[i], interp)
      {
        BracketedIsRight(sc, primary, e.operands[i], interp);
      }
      if e.AndExpr? {
        TruthOfAll(sc, primary, e.operands, interp);
      } else {
        TruthOfSome(sc, primary, e.operands, interp);
        OneGroup(Cases(BracketedEach(sc, primary, e.operands)), interp);
      }
    } else if e.NotExpr? {
      var inner := Bracketed(sc, primary, e.x);
      BracketedIsRight(sc, primary, e.x, interp);
      var negated := if |inner| == 1 then inner[0] else Group([Case(inner)]);
      OneCase([Negated(negated)], interp);
      OnlyOne([Negated(negated)], interp);
      if |inner| == 1 {
        OnlyOne(inner, interp);
      } else {
        OneCase(inner, interp);
        OnlyOne([Group([Case(inner)])], interp);
      }
    } else {
      OnlyOne(cs, interp);
    }
  }

  /** The text of a filter whose NOTs are safe is true just when the filter is. */
  lemma TruthKept(sc: Scope, primary: bool, e: Expr, interp: Interp)
    requires IsCondition(sc, primary, e) && NotSafe(e)
    ensures Agrees(sc, primary, e, interp)
  {
    TreeAsMeant(sc, primary, e);
    BracketedIsRight(sc, primary, e, interp);
  }

  lemma OneGroup(cases: seq<Case>, interp: Interp)
    ensures AllHold([Group(cases)], interp) <==> SomeCase(cases, interp)
  {
    OnlyOne([Group(cases)], interp);
  }

  lemma OnlyOne(cs: seq<Cond>, interp: Interp)
    requires |cs| == 1
    ensures AllHold(cs, interp) <==> Holds(cs[0], interp)
    ensures AllHold(cs[1..], interp)
  {
    assert cs[1..] == [];
  }

  /** Rendering preserves meaning: a supported filter with safe NOTs renders, and its text, read by
      DynamoDB's precedence and evaluated, gives the filter's own truth value under every
      interpretation of its atoms. */
  lemma MeaningPreserved(sc: Scope, a: Attrs, primary: bool, e: Expr, interp: Interp)
    requires AttrsOk(sc.cx, a) && IsCondition(sc, primary, e) && NotSafe(e)
    ensures Render(sc, a, primary, e).Some?
    ensures
      var (b, ts) := Render(sc, a, primary, e).value;
      && ParseFilter(b, ts).Some?
      && (SomeCase(ParseFilter(b, ts).value, interp) <==> Means(sc, primary, e, interp))
  {
    FilterParses(sc, a, primary, e);
    TruthKept(sc, primary, e, interp);
    OneCase(Says(sc, primary, e), interp);
    OneGroup([Case(Says(sc, primary, e))], interp);
  }

  /** Where NOT has several conditions in front of it the text is right only under the
      interpretations that make all of them but the first true. */
  lemma NotRightExactlyWhen(sc: Scope, primary: bool, e: Expr, interp: Interp)
    requires IsCondition(sc, primary, e) && e.NotExpr? && NotSafe(e.x)
    ensures Agrees(sc, primary, e, interp) <==> AllHold(Says(sc, primary, e.x)[1..], interp)
  {
    var cs := Says(sc, primary, e.x);
    TruthKept(sc, primary, e.x, interp);
    NegatedTruth(sc, primary, e, interp);
    assert AllHold(cs, interp) <==> Holds(cs[0], interp) && AllHold(cs[1..], interp);
  }

  /** NOT over two boolean columns: with both false the filter is true and its text is false. */
  lemma UnsafeNotFails(sc: Scope, a: Attrs)
    requires AttrsOk(sc.cx, a) && |sc.cx.names| >= 2 && {0, 1} <= sc.bools
    ensures
      var e := NotExpr(AndExpr([Column(0), Column(1)]));
      var interp := (atom: Atom) => false;
      && IsCondition(sc, false, e) && !NotSafe(e)
      && Render(sc, a, false, e).Some?
      && Means(sc, false, e, interp)
      && ParseFilter(Render(sc, a, false, e).value.0, Render(sc, a, false, e).value.1).Some?
      && !SomeCase(ParseFilter(Render(sc, a, false, e).value.0, Render(sc, a, false, e).value.1).value, interp)
  {
    var operands := [Column(0), Column(1)];
    var e := NotExpr(AndExpr(operands));
    var interp := (atom: Atom) => false;
    assert IsCondition(sc, false, operands[0]) && IsCondition(sc, false, operands[1]);
    FilterParses(sc, a, false, e);
    assert NotSafe(operands[0]) && NotSafe(operands[1]);
    assert !Means(sc, false, operands[0], interp);
    assert !Means(sc, false, AndExpr(operands), interp);
    SaysWidth(sc, false, e.x);
    assert Widths(operands[1..]) == 1 by { assert Widths(operands[1..][1..]) == 0; }
    var cs := Says(sc, false, e.x);
    SecondFails(sc, interp);
    NotRightExactlyWhen(sc, false, e, interp);
    OneCase(Says(sc, false, e), interp);
    OneGroup([Case(Says(sc, false, e))], interp);
  }

  lemma SecondFails(sc: Scope, interp: Interp)
    requires |sc.cx.names| >= 2 && {0, 1} <= sc.bools
    requires IsCondition(sc, false, AndExpr([Column(0), Column(1)]))
    requires forall atom :: !interp(atom)
    ensures !AllHold(Says(sc, false, AndExpr([Column(0), Column(1)]))[1..], interp)
  {
    var operands := [Column(0), Column(1)];
    var groups := SaysEach(sc, false, operands);
    assert operands[1..] == [Column(1)];
    var second := Test(AtomOf(sc, false, Column(1)));
    assert groups[1..] == SaysEach(sc, false, operands[1..]);
    assert SaysEach(sc, false, operands[1..])[0] == [second];
    assert Flat(groups)[1..] == Flat(groups[1..]);
    assert Flat(groups[1..])[0] == second;
  }
}
