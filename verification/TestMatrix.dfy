/** The integration-test matrix: expansions of a test, filtered at compile time by a predicate over
    capabilities that are not known yet. */
module TestMatrix {
  import opened Wrappers

  // ---- Three-valued logic ----

  datatype Bool3 = True | False | Unknown {
    function Or(other: Bool3): Bool3 {
      if this == True || other == True then True
      else if this == False && other == False then False
      else Unknown
    }

    function And(other: Bool3): Bool3 {
      if this == False || other == False then False
      else if this == True && other == True then True
      else Unknown
    }

    function Not(): Bool3 {
      match this
      case True => False
      case False => True
      case Unknown => Unknown
    }
  }

  datatype BoolExpr =
    | Ident(name: string)
    | AnyOf(exprs: seq<BoolExpr>)
    | AllOf(exprs: seq<BoolExpr>)
    | Negation(e: BoolExpr)

  datatype Variant = IdU64 | IdUuid

  function NameOf(v: Variant): string {
    match v
    case IdU64 => "id_u64"
    case IdUuid => "id_uuid"
  }

  datatype Expansion = Expansion(variant: Option<Variant>, matrix: map<string, bool>, requirement: Option<BoolExpr>)

  type Lookup = string -> Bool3

  /** What the expansion itself fixes: matrix values first, then the names of the id variants. */
  function Fixed(x: Expansion, name: string): (fixed: Bool3)
    ensures fixed != Unknown <==> name in x.matrix || (x.variant.Some? && name in {NameOf(IdU64), NameOf(IdUuid)})
    ensures fixed == True
       <==> if name in x.matrix then x.matrix[name] else x.variant.Some? && name == NameOf(x.variant.value)
  {
    assert NameOf(IdU64) != NameOf(IdUuid);
    assert x.variant.Some? ==> x.variant.value == IdU64 || x.variant.value == IdUuid;
    if name in x.matrix then if x.matrix[name] then True else False
    else if x.variant == Some(IdU64) && name == "id_u64" then True
    else if x.variant == Some(IdUuid) && name == "id_uuid" then True
    else if x.variant == Some(IdU64) && name == "id_uuid" then False
    else if x.variant == Some(IdUuid) && name == "id_u64" then False
    else Unknown
  }

  function Eval(x: Expansion, e: BoolExpr, get: Lookup): Bool3
    decreases e, 0
  {
    match e
    case Ident(name) => if Fixed(x, name) != Unknown then Fixed(x, name) else get(name)
    case AnyOf(exprs) => EvalAny(x, exprs, |exprs|, get)
    case AllOf(exprs) => EvalAll(x, exprs, |exprs|, get)
    case Negation(inner) => Eval(x, inner, get).Not()
  }

  /** The first `n` folded with OR. */
  function EvalAny(x: Expansion, exprs: seq<BoolExpr>, n: nat, get: Lookup): Bool3
    requires n <= |exprs|
    decreases exprs, n
  {
    if n == 0 then False else EvalAny(x, exprs, n - 1, get).Or(Eval(x, exprs[n - 1], get))
  }

  function EvalAll(x: Expansion, exprs: seq<BoolExpr>, n: nat, get: Lookup): Bool3
    requires n <= |exprs|
    decreases exprs, n
  {
    if n == 0 then True else EvalAll(x, exprs, n - 1, get).And(Eval(x, exprs[n - 1], get))
  }

  function ShouldInclude(x: Expansion, get: Lookup): bool {
    x.requirement.Some? ==> Eval(x, x.requirement.value, get) != False
  }

  // ---- Definite values never contradict unknown ones ----

  ghost predicate Refines(get: Lookup, finer: Lookup) {
    forall name :: get(name) != Unknown ==> finer(name) == get(name)
  }

  /** Replacing unknowns by anything never flips a definite result. */
  lemma {:induction false} DefiniteStays(x: Expansion, e: BoolExpr, get: Lookup, finer: Lookup)
    requires Refines(get, finer)
    ensures Eval(x, e, get) != Unknown ==> Eval(x, e, finer) == Eval(x, e, get)
    decreases e, 0
  {
    match e
    case Ident(name) =>
    case AnyOf(exprs) => DefiniteListStays(x, exprs, |exprs|, get, finer);
    case AllOf(exprs) => DefiniteListStays(x, exprs, |exprs|, get, finer);
    case Negation(inner) => DefiniteStays(x, inner, get, finer);
  }

  lemma {:induction false} DefiniteListStays(x: Expansion, exprs: seq<BoolExpr>, n: nat, get: Lookup, finer: Lookup)
    requires Refines(get, finer) && n <= |exprs|
    ensures EvalAny(x, exprs, n, get) != Unknown ==> EvalAny(x, exprs, n, finer) == EvalAny(x, exprs, n, get)
    ensures EvalAll(x, exprs, n, get) != Unknown ==> EvalAll(x, exprs, n, finer) == EvalAll(x, exprs, n, get)
    decreases exprs, n
  {
    if n > 0 {
      DefiniteListStays(x, exprs, n - 1, get, finer);
      DefiniteStays(x, exprs[n - 1], get, finer);
    }
  }

  // ---- Two-valued truth ----

  /** Whether a name holds, given the capabilities that do. */
  predicate NameHolds(x: Expansion, capabilities: set<string>, name: string) {
    if Fixed(x, name) == Unknown then name in capabilities else Fixed(x, name) == True
  }

  predicate Holds(x: Expansion, e: BoolExpr, capabilities: set<string>) {
    match e
    case Ident(name) => NameHolds(x, capabilities, name)
    case AnyOf(exprs) => exists i :: 0 <= i < |exprs| && Holds(x, exprs[i], capabilities)
    case AllOf(exprs) => forall i :: 0 <= i < |exprs| ==> Holds(x, exprs[i], capabilities)
    case Negation(inner) => !Holds(x, inner, capabilities)
  }

  function Definite(capabilities: set<string>): Lookup {
    (name: string) => if name in capabilities then True else False
  }

  function Truth(b: bool): Bool3 {
    if b then True else False
  }

  /** With every capability known, evaluation is two-valued logic. */
  lemma {:induction false} DefiniteIsTruth(x: Expansion, e: BoolExpr, capabilities: set<string>)
    ensures Eval(x, e, Definite(capabilities)) == Truth(Holds(x, e, capabilities))
    decreases e, 0
  {
    match e
    case Ident(name) =>
    case AnyOf(exprs) => DefiniteLists(x, exprs, |exprs|, capabilities);
    case AllOf(exprs) => DefiniteLists(x, exprs, |exprs|, capabilities);
    case Negation(inner) => DefiniteIsTruth(x, inner, capabilities);
  }

  lemma {:induction false} DefiniteLists(x: Expansion, exprs: seq<BoolExpr>, n: nat, capabilities: set<string>)
    requires n <= |exprs|
    ensures EvalAny(x, exprs, n, Definite(capabilities)) ==
      Truth(exists i :: 0 <= i < n && Holds(x, exprs[i], capabilities))
    ensures EvalAll(x, exprs, n, Definite(capabilities)) ==
      Truth(forall i :: 0 <= i < n ==> Holds(x, exprs[i], capabilities))
    decreases exprs, n
  {
    if n > 0 {
      DefiniteLists(x, exprs, n - 1, capabilities);
      DefiniteIsTruth(x, exprs[n - 1], capabilities);
    }
  }

  function AllUnknown(): Lookup {
    (name: string) => Unknown
  }

  /** An expansion the filter drops fails its predicate under every set of capabilities. */
  lemma DroppedNeverHolds(x: Expansion, capabilities: set<string>)
    requires !ShouldInclude(x, AllUnknown())
    ensures !Holds(x, x.requirement.value, capabilities)
  {
    DefiniteStays(x, x.requirement.value, AllUnknown(), Definite(capabilities));
    DefiniteIsTruth(x, x.requirement.value, capabilities);
  }

  /** The other way round it can err: an expansion that never holds is kept. */
  lemma KeptThoughNeverHolds(name: string, capabilities: set<string>)
    ensures
      var e := AllOf([Ident(name), Negation(Ident(name))]);
      var x := Expansion(None, map[], Some(e));
      ShouldInclude(x, AllUnknown()) && !Holds(x, e, capabilities)
  {
    var exprs := [Ident(name), Negation(Ident(name))];
    var x := Expansion(None, map[], Some(AllOf(exprs)));
    assert EvalAll(x, exprs, 1, AllUnknown()) == Unknown;
    assert Eval(x, exprs[1], AllUnknown()) == Unknown;
    assert Holds(x, exprs[1], capabilities) <==> !Holds(x, exprs[0], capabilities);
  }

  // ---- Exact where no capability is named twice ----

  /** The capabilities an expression depends on. */
  function Free(x: Expansion, e: BoolExpr): set<string>
    decreases e, 0
  {
    match e
    case Ident(name) => if Fixed(x, name) == Unknown then {name} else {}
    case AnyOf(exprs) => FreeIn(x, exprs, |exprs|)
    case AllOf(exprs) => FreeIn(x, exprs, |exprs|)
    case Negation(inner) => Free(x, inner)
  }

  function FreeIn(x: Expansion, exprs: seq<BoolExpr>, n: nat): set<string>
    requires n <= |exprs|
    decreases exprs, n
  {
    if n == 0 then {} else FreeIn(x, exprs, n - 1) + Free(x, exprs[n - 1])
  }

  predicate ReadOnce(x: Expansion, e: BoolExpr)
    decreases e, 0
  {
    match e
    case Ident(_) => true
    case AnyOf(exprs) => AllReadOnce(x, exprs, |exprs|)
    case AllOf(exprs) => AllReadOnce(x, exprs, |exprs|)
    case Negation(inner) => ReadOnce(x, inner)
  }

  predicate AllReadOnce(x: Expansion, exprs: seq<BoolExpr>, n: nat)
    requires n <= |exprs|
    decreases exprs, n
  {
    n == 0 || (
      && AllReadOnce(x, exprs, n - 1) && ReadOnce(x, exprs[n - 1])
      && FreeIn(x, exprs, n - 1) !! Free(x, exprs[n - 1]))
  }

  /** Capabilities an expression does not name do not matter. */
  lemma {:induction false} OthersDoNotMatter(x: Expansion, e: BoolExpr, a: set<string>, b: set<string>)
    requires a * Free(x, e) == b * Free(x, e)
    ensures Holds(x, e, a) <==> Holds(x, e, b)
    decreases e, 0
  {
    match e
    case Ident(name) =>
      assert Fixed(x, name) == Unknown ==>
        (name in a <==> name in a * Free(x, e)) && (name in b <==> name in b * Free(x, e));
    case AnyOf(exprs) => OthersDoNotMatterIn(x, exprs, |exprs|, a, b);
    case AllOf(exprs) => OthersDoNotMatterIn(x, exprs, |exprs|, a, b);
    case Negation(inner) => OthersDoNotMatter(x, inner, a, b);
  }

  lemma {:induction false} OthersDoNotMatterIn(
    x: Expansion, exprs: seq<BoolExpr>, n: nat, a: set<string>, b: set<string>)
    requires n <= |exprs| && a * FreeIn(x, exprs, n) == b * FreeIn(x, exprs, n)
    ensures forall i :: 0 <= i < n ==> (Holds(x, exprs[i], a) <==> Holds(x, exprs[i], b))
    decreases exprs, n
  {
    if n > 0 {
      var all := FreeIn(x, exprs, n);
      assert forall s: set<string> :: s * FreeIn(x, exprs, n - 1) == (s * all) * FreeIn(x, exprs, n - 1);
      assert forall s: set<string> :: s * Free(x, exprs[n - 1]) == (s * all) * Free(x, exprs[n - 1]);
      OthersDoNotMatterIn(x, exprs, n - 1, a, b);
      OthersDoNotMatter(x, exprs[n - 1], a, b);
    }
  }

  /** Capabilities among those named that give the expression the wanted truth value, where the
      three-valued result leaves it open. */
  lemma {:induction false} Attainable(x: Expansion, e: BoolExpr, wanted: bool) returns (capabilities: set<string>)
    requires ReadOnce(x, e) && Eval(x, e, AllUnknown()) != Truth(!wanted)
    ensures capabilities <= Free(x, e) && (Holds(x, e, capabilities) <==> wanted)
    decreases e, 0
  {
    match e
    case Ident(name) => capabilities := if wanted && Fixed(x, name) == Unknown then {name} else {};
    case AnyOf(exprs) =>
      if wanted {
        var i;
        i, capabilities := SomeAttainable(x, exprs, |exprs|, true);
      } else {
        capabilities := AllAttainable(x, exprs, |exprs|, false);
      }
    case AllOf(exprs) =>
      if wanted {
        capabilities := AllAttainable(x, exprs, |exprs|, true);
      } else {
        var i;
        i, capabilities := SomeAttainable(x, exprs, |exprs|, false);
      }
    case Negation(inner) => capabilities := Attainable(x, inner, !wanted);
  }

  lemma {:induction false} SomeAttainable(x: Expansion, exprs: seq<BoolExpr>, n: nat, wanted: bool)
      returns (i: nat, capabilities: set<string>)
    requires n <= |exprs| && AllReadOnce(x, exprs, n)
    requires if wanted then EvalAny(x, exprs, n, AllUnknown()) != False else EvalAll(x, exprs, n, AllUnknown()) != True
    ensures i < n && capabilities <= FreeIn(x, exprs, n) && (Holds(x, exprs[i], capabilities) <==> wanted)
    decreases exprs, n
  {
    if Eval(x, exprs[n - 1], AllUnknown()) != Truth(!wanted) {
      i := n - 1;
      capabilities := Attainable(x, exprs[n - 1], wanted);
    } else {
      i, capabilities := SomeAttainable(x, exprs, n - 1, wanted);
    }
  }

  lemma {:induction false} AllAttainable(x: Expansion, exprs: seq<BoolExpr>, n: nat, wanted: bool)
      returns (capabilities: set<string>)
    requires n <= |exprs| && AllReadOnce(x, exprs, n)
    requires if wanted then EvalAll(x, exprs, n, AllUnknown()) != False else EvalAny(x, exprs, n, AllUnknown()) != True
    ensures capabilities <= FreeIn(x, exprs, n)
    ensures forall i :: 0 <= i < n ==> (Holds(x, exprs[i], capabilities) <==> wanted)
    decreases exprs, n
  {
    if n == 0 {
      capabilities := {};
    } else {
      var before := AllAttainable(x, exprs, n - 1, wanted);
      var last := Attainable(x, exprs[n - 1], wanted);
      capabilities := before + last;
      assert capabilities * FreeIn(x, exprs, n - 1) == before * FreeIn(x, exprs, n - 1);
      assert capabilities * Free(x, exprs[n - 1]) == last * Free(x, exprs[n - 1]);
      OthersDoNotMatterIn(x, exprs, n - 1, capabilities, before);
      OthersDoNotMatter(x, exprs[n - 1], capabilities, last);
    }
  }

  /** Where no capability is named twice the filter is exact: it drops an expansion if and only if no
      set of capabilities satisfies the predicate. */
  lemma FilterExact(x: Expansion)
    requires x.requirement.Some? && ReadOnce(x, x.requirement.value)
    ensures ShouldInclude(x, AllUnknown()) <==> exists capabilities :: Holds(x, x.requirement.value, capabilities)
  {
    if ShouldInclude(x, AllUnknown()) {
      var capabilities := Attainable(x, x.requirement.value, true);
    } else {
      forall capabilities
        ensures !Holds(x, x.requirement.value, capabilities)
      {
        DroppedNeverHolds(x, capabilities);
      }
    }
  }

  // ---- Generating the expansions ----

  datatype Attr = Attr(idIdent: Option<string>, matrix: seq<string>, requirement: Option<BoolExpr>)

  /** The first `n` keys inserted, with only the `i`-th true; a repeated key keeps its last value. */
  function Combination(matrix: seq<string>, i: nat, n: nat): map<string, bool>
    requires n <= |matrix|
  {
    if n == 0 then map[] else Combination(matrix, i, n - 1)[matrix[n - 1] := i == n - 1]
  }

  /** Where a key stands last among the first `n`. */
  predicate LastAt(matrix: seq<string>, key: string, i: nat, n: nat)
    requires n <= |matrix|
  {
    i < n && matrix[i] == key && forall j :: i < j < n ==> matrix[j] != key
  }

  lemma {:induction false} CombinationIs(matrix: seq<string>, i: nat, n: nat, key: string)
    requires n <= |matrix|
    ensures key in Combination(matrix, i, n) <==> exists j :: 0 <= j < n && matrix[j] == key
    ensures key in Combination(matrix, i, n) ==> (Combination(matrix, i, n)[key] <==> LastAt(matrix, key, i, n))
  {
    if n > 0 {
      CombinationIs(matrix, i, n - 1, key);
      if matrix[n - 1] != key {
        assert key in Combination(matrix, i, n) <==> key in Combination(matrix, i, n - 1);
      } else {
        assert LastAt(matrix, key, n - 1, n);
      }
    }
  }

  /** With distinct keys, every combination names all of them and makes exactly its own true. */
  lemma OneTrueKey(matrix: seq<string>, i: nat, j: nat)
    requires i < |matrix| && j < |matrix|
    requires forall a, b :: 0 <= a < b < |matrix| ==> matrix[a] != matrix[b]
    ensures
      var combination := Combination(matrix, i, |matrix|);
      && (forall key :: key in combination <==> key in matrix)
      && (combination[matrix[j]] <==> i == j)
  {
    forall key
      ensures key in Combination(matrix, i, |matrix|) <==> key in matrix
    {
      CombinationIs(matrix, i, |matrix|, key);
    }
    CombinationIs(matrix, i, |matrix|, matrix[j]);
    assert LastAt(matrix, matrix[j], j, |matrix|);
  }

  function Combinations(matrix: seq<string>): (combinations: seq<map<string, bool>>)
    ensures |combinations| == if matrix == [] then 1 else |matrix|
  {
    if matrix == [] then [map[]]
    else seq(|matrix|, i requires 0 <= i < |matrix| => Combination(matrix, i, |matrix|))
  }

  method GenerateMatrixCombinations(matrix: seq<string>) returns (combinations: seq<map<string, bool>>)
    ensures combinations == Combinations(matrix)
  {
    if matrix == [] {
      return [map[]];
    }
    combinations := [];
    for i := 0 to |matrix|
      invariant |combinations| == i
      invariant forall k :: 0 <= k < i ==> combinations[k] == Combination(matrix, k, |matrix|)
    {
      var combination: map<string, bool> := map[];
      for j := 0 to |matrix|
        invariant combination == Combination(matrix, i, j)
      {
        combination := combination[matrix[j] := i == j];
      }
      combinations := combinations + [combination];
    }
  }

  function Variants(attr: Attr): seq<Option<Variant>> {
    if attr.idIdent.Some? then [Some(IdU64), Some(IdUuid)] else [None]
  }

  /** Integer ids need auto-increment on top of what the test asks for. */
  function Requirement(attr: Attr, variant: Option<Variant>): Option<BoolExpr> {
    if variant == Some(IdU64) then
      match attr.requirement
      case None => Some(Ident("auto_increment"))
      case Some(e) => Some(AllOf([e, Ident("auto_increment")]))
    else attr.requirement
  }

  function Build(attr: Attr, variant: Option<Variant>, combination: map<string, bool>): Expansion {
    Expansion(variant, combination, Requirement(attr, variant))
  }

  /** The kept expansions of one variant, over the first `n` combinations. */
  function KeptOf(attr: Attr, variant: Option<Variant>, combinations: seq<map<string, bool>>, n: nat): seq<Expansion>
    requires n <= |combinations|
  {
    if n == 0 then []
    else
      var x := Build(attr, variant, combinations[n - 1]);
      KeptOf(attr, variant, combinations, n - 1) + if ShouldInclude(x, AllUnknown()) then [x] else []
  }

  /** The kept expansions of the first `m` variants. */
  function Kept(
    attr: Attr, variants: seq<Option<Variant>>, combinations: seq<map<string, bool>>, m: nat): seq<Expansion>
    requires m <= |variants|
  {
    if m == 0 then []
    else Kept(attr, variants, combinations, m - 1) + KeptOf(attr, variants[m - 1], combinations, |combinations|)
  }

  function Generated(attr: Attr): seq<Expansion> {
    Kept(attr, Variants(attr), Combinations(attr.matrix), |Variants(attr)|)
  }

  /** Without arguments the shortcut gives what the general way would. */
  lemma NoArguments()
    ensures Generated(Attr(None, [], None)) == [Expansion(None, map[], None)]
  {
    var attr := Attr(None, [], None);
    assert KeptOf(attr, None, [map[]], 1) == [Build(attr, None, map[])];
    assert Kept(attr, [None], [map[]], 1) == [Build(attr, None, map[])];
  }

  method GenerateExpansions(attr: Attr) returns (expansions: seq<Expansion>)
    ensures expansions == Generated(attr)
  {
    if attr.idIdent == None && attr.matrix == [] && attr.requirement == None {
      NoArguments();
      return [Expansion(None, map[], None)];
    }
    expansions := [];
    var variants := Variants(attr);
    var combinations := GenerateMatrixCombinations(attr.matrix);
    for m := 0 to |variants|
      invariant expansions == Kept(attr, variants, combinations, m)
    {
      ghost var before := expansions;
      for n := 0 to |combinations|
        invariant expansions == before + KeptOf(attr, variants[m], combinations, n)
      {
        var x := Build(attr, variants[m], combinations[n]);
        if ShouldInclude(x, AllUnknown()) {
          expansions := expansions + [x];
        }
      }
    }
  }

  lemma {:induction false} InKeptOf(
      attr: Attr, variant: Option<Variant>, combinations: seq<map<string, bool>>, n: nat, x: Expansion)
    requires n <= |combinations|
    ensures x in KeptOf(attr, variant, combinations, n) <==>
      ShouldInclude(x, AllUnknown()) && exists k :: 0 <= k < n && x == Build(attr, variant, combinations[k])
  {
    if n > 0 {
      InKeptOf(attr, variant, combinations, n - 1, x);
      var y := Build(attr, variant, combinations[n - 1]);
      var before := KeptOf(attr, variant, combinations, n - 1);
      var last := if ShouldInclude(y, AllUnknown()) then [y] else [];
      assert x in before + last <==> x in before || x in last;
    }
  }

  lemma {:induction false} InKept(
      attr: Attr, variants: seq<Option<Variant>>, combinations: seq<map<string, bool>>, m: nat, x: Expansion)
    requires m <= |variants|
    ensures x in Kept(attr, variants, combinations, m) <==>
      exists v :: 0 <= v < m && x in KeptOf(attr, variants[v], combinations, |combinations|)
  {
    if m > 0 {
      var k: nat := m - 1;
      InKept(attr, variants, combinations, k, x);
      var before := Kept(attr, variants, combinations, k);
      var last := KeptOf(attr, variants[k], combinations, |combinations|);
      assert x in before + last <==> x in before || x in last;
    }
  }

  /** What an expansion has to meet: the test's own requirement and, with integer ids, auto-increment. */
  predicate Runnable(attr: Attr, x: Expansion, capabilities: set<string>) {
    && (attr.requirement.Some? ==> Holds(x, attr.requirement.value, capabilities))
    && (x.variant == Some(IdU64) ==> NameHolds(x, capabilities, "auto_increment"))
  }

  /** The requirement an expansion is built with is met exactly where both are. */
  lemma RequirementMeans(
    attr: Attr, variant: Option<Variant>, combination: map<string, bool>, capabilities: set<string>)
    ensures
      var x := Build(attr, variant, combination);
      (x.requirement.Some? ==> Holds(x, x.requirement.value, capabilities)) <==> Runnable(attr, x, capabilities)
  {
    var x := Build(attr, variant, combination);
    if variant == Some(IdU64) && attr.requirement.Some? {
      var both := [attr.requirement.value, Ident("auto_increment")];
      assert x.requirement.value == AllOf(both);
      assert Holds(x, AllOf(both), capabilities) <==>
        Holds(x, both[0], capabilities) && Holds(x, both[1], capabilities);
    }
  }

  /** Every combination of a variant and matrix values is generated unless no set of capabilities lets it
      run: it fails the test's requirement or, with integer ids, auto-increment. */
  lemma NothingRunnableDropped(attr: Attr, variant: Option<Variant>, k: nat, capabilities: set<string>)
    requires (variant.Some? <==> attr.idIdent.Some?) && k < |Combinations(attr.matrix)|
    ensures
      var x := Build(attr, variant, Combinations(attr.matrix)[k]);
      && x.variant == variant && x.matrix == Combinations(attr.matrix)[k]
      && (x in Generated(attr) || !Runnable(attr, x, capabilities))
  {
    var combinations := Combinations(attr.matrix);
    var v: nat := if variant == Some(IdUuid) then 1 else 0;
    assert Variants(attr)[v] == variant by {
      if variant.Some? {
        assert variant.value == IdU64 || variant.value == IdUuid;
      }
    }
    var x := Build(attr, variant, combinations[k]);
    if ShouldInclude(x, AllUnknown()) {
      InKeptOf(attr, Variants(attr)[v], combinations, |combinations|, x);
      InKept(attr, Variants(attr), combinations, |Variants(attr)|, x);
    } else {
      DroppedNeverHolds(x, capabilities);
      RequirementMeans(attr, Variants(attr)[v], combinations[k], capabilities);
    }
  }
}
