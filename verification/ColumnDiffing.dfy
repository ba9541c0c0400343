/** The diff of two column lists under rename hints, and why the hints the loop collects make it one
    that the migration results can start from. */
module ColumnDiffing {
  import opened Wrappers
  import opened DbSchema
  import opened ColumnLineage
  import opened RenameMatching
  import opened RenameHints

  type ColumnHints = map<ColumnId, ColumnId>

  function TargetOf(hints: ColumnHints, next: seq<Column>, p: Column): Option<ColumnId> {
    Target(hints, ColumnItems(next), Item(p.id, p.name))
  }

  function WithId(columns: seq<Column>, id: ColumnId): (c: Option<Column>)
    ensures c.Some? ==> c.value in columns && c.value.id == id
    ensures c.None? ==> !HasId(ColumnItems(columns), id)
  {
    if columns == [] then None
    else if columns[0].id == id then Some(columns[0])
    else
      assert forall i :: 0 < i < |columns| ==> ColumnItems(columns)[i] == ColumnItems(columns[1..])[i - 1];
      WithId(columns[1..], id)
  }

  /** The column a previous one has become. */
  function NextOf(hints: ColumnHints, next: seq<Column>, p: Column): Option<Column> {
    var id :- TargetOf(hints, next, p);
    WithId(next, id)
  }

  /** What the loop pushes for one previous column. */
  function ChangeOf(hints: ColumnHints, next: seq<Column>, p: Column): seq<ColumnDiff> {
    match NextOf(hints, next, p)
    case None => [ColumnDiff.Drop(p)]
    case Some(q) => if SameColumn(p, q) then [] else [ColumnDiff.Alter(p, q)]
  }

  function Changes(hints: ColumnHints, previous: seq<Column>, next: seq<Column>, n: nat): seq<ColumnDiff>
    requires n <= |previous|
  {
    if n == 0 then []
    else Changes(hints, previous, next, n - 1) + ChangeOf(hints, next, previous[n - 1])
  }

  predicate IsNew(hints: ColumnHints, previous: seq<Column>, next: seq<Column>, q: Column) {
    q in next && !Taken(hints, ColumnItems(previous), ColumnItems(next), q.id)
  }

  /** Each new column once, in any order: they come out of a hash set. */
  predicate AddsAll(hints: ColumnHints, previous: seq<Column>, next: seq<Column>, adds: seq<ColumnDiff>) {
    && (forall i :: 0 <= i < |adds| ==> adds[i].Add? && IsNew(hints, previous, next, adds[i].column))
    && (forall i, j :: 0 <= i < j < |adds| ==> adds[i] != adds[j])
    && (forall q <- next :: IsNew(hints, previous, next, q) ==> ColumnDiff.Add(q) in adds)
  }

  ghost predicate IsDiff(hints: ColumnHints, previous: seq<Column>, next: seq<Column>, diff: seq<ColumnDiff>) {
    var changes := Changes(hints, previous, next, |previous|);
    changes <= diff && AddsAll(hints, previous, next, diff[|changes|..])
  }

  /** The columns left over, in the order the set gives them out. */
  method AddNew(next: seq<Column>, created: set<ColumnId>) returns (adds: seq<ColumnDiff>)
    requires DistinctColumns(next) && forall id <- created :: HasId(ColumnItems(next), id)
    ensures forall i :: 0 <= i < |adds| ==>
      adds[i].Add? && adds[i].column in next && adds[i].column.id in created
    ensures forall i, j :: 0 <= i < j < |adds| ==> adds[i] != adds[j]
    ensures forall q <- next :: q.id in created ==> ColumnDiff.Add(q) in adds
  {
    adds := [];
    var addIds := created;
    while addIds != {}
      invariant addIds <= created
      invariant forall i :: 0 <= i < |adds| ==>
        adds[i].Add? && adds[i].column in next && adds[i].column.id in created - addIds
      invariant forall i, j :: 0 <= i < j < |adds| ==> adds[i] != adds[j]
      invariant forall q <- next :: q.id in created - addIds ==> ColumnDiff.Add(q) in adds
      decreases addIds
    {
      var id :| id in addIds;
      var q := WithId(next, id);
      OnlyOneWithId(next, q.value);
      addIds := addIds - {id};
      adds := adds + [ColumnDiff.Add(q.value)];
    }
  }

  /** The diff as it is computed. */
  method Diff(hints: ColumnHints, previous: seq<Column>, next: seq<Column>) returns (diff: seq<ColumnDiff>)
    requires DistinctColumns(next)
    ensures IsDiff(hints, previous, next, diff)
  {
    diff := [];
    var created := CreatedIds(hints, ColumnItems(previous), ColumnItems(next));
    for n := 0 to |previous|
      invariant diff == Changes(hints, previous, next, n)
    {
      diff := diff + ChangeOf(hints, next, previous[n]);
    }
    var adds := AddNew(next, created);
    forall q | q in next && IsNew(hints, previous, next, q)
      ensures ColumnDiff.Add(q) in adds
    {
      InHasId(next, q);
    }
    diff := diff + adds;
    assert diff[|Changes(hints, previous, next, |previous|)|..] == adds;
  }

  lemma InHasId(columns: seq<Column>, q: Column)
    requires q in columns
    ensures HasId(ColumnItems(columns), q.id)
  {
    var i :| 0 <= i < |columns| && columns[i] == q;
    assert ColumnItems(columns)[i].id == q.id;
  }

  lemma OnlyOneWithId(columns: seq<Column>, q: Column)
    requires DistinctColumns(columns) && q in columns
    ensures forall c <- columns :: c.id == q.id ==> c == q
    ensures forall c <- columns :: c.name == q.name ==> c == q
  {
    var i: nat :| i < |columns| && columns[i] == q;
    forall c | c in columns && (c.id == q.id || c.name == q.name)
      ensures c == q
    {
      var j: nat :| j < |columns| && columns[j] == c;
      assert i < j || j < i || i == j;
    }
  }

  // ---- Why it is coherent ----

  lemma Appended(all: seq<ColumnDiff>, before: seq<ColumnDiff>, last: seq<ColumnDiff>)
    requires all == before + last
    ensures forall k :: 0 <= k < |before| ==> all[k] == before[k]
    ensures |last| == 1 ==> |all| == |before| + 1 && all[|before|] == last[0]
  {
  }

  /** The changes of the first `n` columns are each about one of them. */
  lemma {:induction false} ChangesFrom(
      hints: ColumnHints, previous: seq<Column>, next: seq<Column>, n: nat, k: nat) returns (i: nat)
    requires n <= |previous| && k < |Changes(hints, previous, next, n)|
    ensures i < n && ChangeOf(hints, next, previous[i]) == [Changes(hints, previous, next, n)[k]]
  {
    var before := Changes(hints, previous, next, n - 1);
    if k < |before| {
      i := ChangesFrom(hints, previous, next, n - 1, k);
    } else {
      i := n - 1;
    }
  }

  /** Changes at different places are about different columns, in order. */
  lemma {:induction false} ChangesApart(
      hints: ColumnHints, previous: seq<Column>, next: seq<Column>, n: nat, k: nat, l: nat)
      returns (i: nat, j: nat)
    requires n <= |previous| && k < l < |Changes(hints, previous, next, n)|
    ensures i < j < n
    ensures ChangeOf(hints, next, previous[i]) == [Changes(hints, previous, next, n)[k]]
    ensures ChangeOf(hints, next, previous[j]) == [Changes(hints, previous, next, n)[l]]
  {
    var before := Changes(hints, previous, next, n - 1);
    Appended(Changes(hints, previous, next, n), before, ChangeOf(hints, next, previous[n - 1]));
    if l < |before| {
      i, j := ChangesApart(hints, previous, next, n - 1, k, l);
    } else {
      i := ChangesFrom(hints, previous, next, n - 1, k);
      j := n - 1;
    }
  }

  lemma {:induction false} ChangePosition(
      hints: ColumnHints, previous: seq<Column>, next: seq<Column>, n: nat, i: nat, d: ColumnDiff) returns (k: nat)
    requires i < n <= |previous| && ChangeOf(hints, next, previous[i]) == [d]
    ensures k < |Changes(hints, previous, next, n)| && Changes(hints, previous, next, n)[k] == d
  {
    var before := Changes(hints, previous, next, n - 1);
    Appended(Changes(hints, previous, next, n), before, ChangeOf(hints, next, previous[n - 1]));
    if i < n - 1 {
      k := ChangePosition(hints, previous, next, n - 1, i, d);
    } else {
      k := |before|;
    }
  }

  ghost predicate Paired(hints: ColumnHints, previous: seq<Column>, next: seq<Column>) {
    && DistinctColumns(previous) && DistinctColumns(next)
    && Matched(hints, ColumnItems(previous), ColumnItems(next))
  }

  /** Different previous columns have become different next ones. */
  lemma NextApart(hints: ColumnHints, previous: seq<Column>, next: seq<Column>, i: nat, j: nat)
    requires Paired(hints, previous, next) && i < |previous| && j < |previous| && i != j
    requires NextOf(hints, next, previous[i]).Some? && NextOf(hints, next, previous[j]).Some?
    ensures NextOf(hints, next, previous[i]) != NextOf(hints, next, previous[j])
  {
    assert i < j || j < i;
    assert ColumnItems(previous)[i] == Item(previous[i].id, previous[i].name);
    assert ColumnItems(previous)[j] == Item(previous[j].id, previous[j].name);
  }

  /** A next column nothing has become is new, and the other way round. */
  lemma NewOrNext(hints: ColumnHints, previous: seq<Column>, next: seq<Column>, q: Column)
    requires Paired(hints, previous, next) && q in next
    ensures IsNew(hints, previous, next, q) <==>
      forall i :: 0 <= i < |previous| ==> NextOf(hints, next, previous[i]) != Some(q)
  {
    InHasId(next, q);
    forall i | 0 <= i < |previous|
      ensures NextOf(hints, next, previous[i]) == Some(q) <==>
        Target(hints, ColumnItems(next), ColumnItems(previous)[i]) == Some(q.id)
    {
      assert ColumnItems(previous)[i] == Item(previous[i].id, previous[i].name);
      OnlyOneWithId(next, q);
    }
  }

  /** Where a change in the diff comes from: a previous column, or nothing (`None`) for an addition. */
  lemma ChangeSource(
      hints: ColumnHints, previous: seq<Column>, next: seq<Column>, diff: seq<ColumnDiff>, k: nat)
      returns (source: Option<nat>)
    requires IsDiff(hints, previous, next, diff) && k < |diff|
    ensures source.Some? ==>
      source.value < |previous| && ChangeOf(hints, next, previous[source.value]) == [diff[k]]
    ensures source.None? ==> diff[k].Add? && IsNew(hints, previous, next, diff[k].column)
    ensures source.Some? <==> k < |Changes(hints, previous, next, |previous|)|
  {
    var changes := Changes(hints, previous, next, |previous|);
    if k < |changes| {
      var i := ChangesFrom(hints, previous, next, |previous|, k);
      source := Some(i);
    } else {
      source := None;
      assert diff[k] == diff[|changes|..][k - |changes|];
    }
  }

  /** Every change speaks of columns that exist. */
  lemma ChangeExists(hints: ColumnHints, previous: seq<Column>, next: seq<Column>, diff: seq<ColumnDiff>, k: nat)
    requires IsDiff(hints, previous, next, diff) && k < |diff|
    ensures Consumed(diff[k]).Some? ==> Consumed(diff[k]).value in previous
    ensures Produced(diff[k]).Some? ==> Produced(diff[k]).value in next
  {
    var source := ChangeSource(hints, previous, next, diff, k);
    if source.Some? {
      assert previous[source.value] in previous;
    }
  }

  lemma TwoChanges(
      hints: ColumnHints, previous: seq<Column>, next: seq<Column>, i: nat, j: nat, d: ColumnDiff, e: ColumnDiff)
    requires Paired(hints, previous, next) && i < j < |previous|
    requires ChangeOf(hints, next, previous[i]) == [d] && ChangeOf(hints, next, previous[j]) == [e]
    ensures Consumed(d) != Consumed(e)
    ensures Produced(d).Some? ==> Produced(d) != Produced(e)
  {
    assert previous[i].name != previous[j].name;
    if NextOf(hints, next, previous[i]).Some? && NextOf(hints, next, previous[j]).Some? {
      NextApart(hints, previous, next, i, j);
    }
  }

  /** No column is spoken of twice. */
  lemma ChangesDiffer(
      hints: ColumnHints, previous: seq<Column>, next: seq<Column>, diff: seq<ColumnDiff>, k: nat, l: nat)
    requires Paired(hints, previous, next) && IsDiff(hints, previous, next, diff) && k < l < |diff|
    ensures Consumed(diff[k]).Some? ==> Consumed(diff[k]) != Consumed(diff[l])
    ensures Produced(diff[k]).Some? ==> Produced(diff[k]) != Produced(diff[l])
  {
    if l < |Changes(hints, previous, next, |previous|)| {
      var i, j := ChangesApart(hints, previous, next, |previous|, k, l);
      TwoChanges(hints, previous, next, i, j, diff[k], diff[l]);
    } else {
      AdditionDiffers(hints, previous, next, diff, k, l);
    }
  }

  lemma AdditionDiffers(
      hints: ColumnHints, previous: seq<Column>, next: seq<Column>, diff: seq<ColumnDiff>, k: nat, l: nat)
    requires Paired(hints, previous, next) && IsDiff(hints, previous, next, diff)
    requires k < l < |diff| && l >= |Changes(hints, previous, next, |previous|)|
    ensures Consumed(diff[k]).Some? ==> Consumed(diff[k]) != Consumed(diff[l])
    ensures Produced(diff[k]).Some? ==> Produced(diff[k]) != Produced(diff[l])
  {
    var n := |Changes(hints, previous, next, |previous|)|;
    var second := ChangeSource(hints, previous, next, diff, l);
    var first := ChangeSource(hints, previous, next, diff, k);
    if first.None? {
      assert diff[k] == diff[n..][k - n] && diff[l] == diff[n..][l - n];
    } else {
      NewOrNext(hints, previous, next, diff[l].column);
      assert NextOf(hints, next, previous[first.value]) != Some(diff[l].column);
    }
  }

  lemma ListedIn(
      hints: ColumnHints, previous: seq<Column>, next: seq<Column>, diff: seq<ColumnDiff>, i: nat, d: ColumnDiff)
      returns (k: nat)
    requires IsDiff(hints, previous, next, diff) && i < |previous| && ChangeOf(hints, next, previous[i]) == [d]
    ensures k < |diff| && diff[k] == d
  {
    k := ChangePosition(hints, previous, next, |previous|, i, d);
  }

  /** A previous column is mentioned exactly when it is dropped or differs from what it has become. */
  lemma TouchedExactly(hints: ColumnHints, previous: seq<Column>, next: seq<Column>, diff: seq<ColumnDiff>, i: nat)
    requires Paired(hints, previous, next) && IsDiff(hints, previous, next, diff) && i < |previous|
    ensures Touched(diff, |diff|, previous[i]) <==> ChangeOf(hints, next, previous[i]) != []
  {
    var p := previous[i];
    if ChangeOf(hints, next, p) != [] {
      var k := ListedIn(hints, previous, next, diff, i, ChangeOf(hints, next, p)[0]);
      assert Consumed(diff[k]) == Some(p);
    }
    if Touched(diff, |diff|, p) {
      var k: nat :| k < |diff| && Consumed(diff[k]) == Some(p);
      var source := ChangeSource(hints, previous, next, diff, k);
      assert previous[source.value] == p;
    }
  }

  lemma NewIsMade(hints: ColumnHints, previous: seq<Column>, next: seq<Column>, diff: seq<ColumnDiff>, q: Column)
    requires IsDiff(hints, previous, next, diff) && IsNew(hints, previous, next, q)
    ensures Made(diff, q)
  {
    var n := |Changes(hints, previous, next, |previous|)|;
    var k: nat :| k < |diff[n..]| && diff[n..][k] == ColumnDiff.Add(q);
    assert Produced(diff[n + k]) == Some(q);
  }

  lemma OtherIsMade(hints: ColumnHints, previous: seq<Column>, next: seq<Column>, diff: seq<ColumnDiff>, q: Column)
    requires IsDiff(hints, previous, next, diff) && BecomesOther(hints, previous, next, q)
    ensures Made(diff, q)
  {
    var i: nat :| i < |previous| && ChangeOf(hints, next, previous[i]) == [ColumnDiff.Alter(previous[i], q)];
    var k := ListedIn(hints, previous, next, diff, i, ColumnDiff.Alter(previous[i], q));
    assert Produced(diff[k]) == Some(q);
  }

  lemma MadeComesFrom(hints: ColumnHints, previous: seq<Column>, next: seq<Column>, diff: seq<ColumnDiff>, q: Column)
    requires IsDiff(hints, previous, next, diff) && Made(diff, q)
    ensures IsNew(hints, previous, next, q) || BecomesOther(hints, previous, next, q)
  {
    var k: nat :| k < |diff| && Produced(diff[k]) == Some(q);
    var source := ChangeSource(hints, previous, next, diff, k);
    if source.Some? {
      assert diff[k] == ColumnDiff.Alter(previous[source.value], q);
    }
  }

  /** A next column is mentioned exactly when it is new or differs from what became it. */
  lemma MadeExactly(hints: ColumnHints, previous: seq<Column>, next: seq<Column>, diff: seq<ColumnDiff>, q: Column)
    requires IsDiff(hints, previous, next, diff)
    ensures Made(diff, q) <==> IsNew(hints, previous, next, q) || BecomesOther(hints, previous, next, q)
  {
    if Made(diff, q) {
      MadeComesFrom(hints, previous, next, diff, q);
    }
    if IsNew(hints, previous, next, q) {
      NewIsMade(hints, previous, next, diff, q);
    }
    if BecomesOther(hints, previous, next, q) {
      OtherIsMade(hints, previous, next, diff, q);
    }
  }

  predicate BecomesOther(hints: ColumnHints, previous: seq<Column>, next: seq<Column>, q: Column) {
    exists i :: 0 <= i < |previous| && ChangeOf(hints, next, previous[i]) == [ColumnDiff.Alter(previous[i], q)]
  }

  lemma NotOther(hints: ColumnHints, previous: seq<Column>, next: seq<Column>, i: nat, q: Column)
    requires Paired(hints, previous, next) && i < |previous|
    requires NextOf(hints, next, previous[i]) == Some(q) && ChangeOf(hints, next, previous[i]) == []
    ensures !BecomesOther(hints, previous, next, q)
  {
    forall j | 0 <= j < |previous|
      ensures ChangeOf(hints, next, previous[j]) != [ColumnDiff.Alter(previous[j], q)]
    {
      if j != i && NextOf(hints, next, previous[j]).Some? {
        NextApart(hints, previous, next, i, j);
      }
    }
  }

  /** The columns the diff leaves out pair up. */
  lemma UntouchedBecomes(
      hints: ColumnHints, previous: seq<Column>, next: seq<Column>, diff: seq<ColumnDiff>, i: nat)
    requires Paired(hints, previous, next) && IsDiff(hints, previous, next, diff)
    requires i < |previous| && !Touched(diff, |diff|, previous[i])
    ensures
      var q := NextOf(hints, next, previous[i]);
      q.Some? && q.value in next && SameColumn(previous[i], q.value) && !Made(diff, q.value)
  {
    TouchedExactly(hints, previous, next, diff, i);
    var q := NextOf(hints, next, previous[i]).value;
    MadeExactly(hints, previous, next, diff, q);
    NewOrNext(hints, previous, next, q);
    NotOther(hints, previous, next, i, q);
  }

  lemma UnmadeComes(
      hints: ColumnHints, previous: seq<Column>, next: seq<Column>, diff: seq<ColumnDiff>, q: Column)
      returns (i: nat)
    requires Paired(hints, previous, next) && IsDiff(hints, previous, next, diff)
    requires q in next && !Made(diff, q)
    ensures i < |previous| && !Touched(diff, |diff|, previous[i]) && NextOf(hints, next, previous[i]) == Some(q)
    ensures SameColumn(previous[i], q)
  {
    MadeExactly(hints, previous, next, diff, q);
    NewOrNext(hints, previous, next, q);
    i :| i < |previous| && NextOf(hints, next, previous[i]) == Some(q);
    TouchedExactly(hints, previous, next, diff, i);
  }

  lemma NamesPairUp(hints: ColumnHints, previous: seq<Column>, next: seq<Column>, diff: seq<ColumnDiff>)
    requires Paired(hints, previous, next) && IsDiff(hints, previous, next, diff)
    ensures UntouchedNames(previous, diff) == UnmadeNames(next, diff)
  {
    forall p | p in previous && !Touched(diff, |diff|, p)
      ensures p.name in UnmadeNames(next, diff)
    {
      var i: nat :| i < |previous| && previous[i] == p;
      UntouchedBecomes(hints, previous, next, diff, i);
      var q := NextOf(hints, next, p).value;
      assert q in next && !Made(diff, q) && q.name == p.name;
    }
    forall q | q in next && !Made(diff, q)
      ensures q.name in UntouchedNames(previous, diff)
    {
      var i := UnmadeComes(hints, previous, next, diff, q);
      assert previous[i] in previous && previous[i].name == q.name;
    }
  }

  lemma PairsAgree(
      hints: ColumnHints, previous: seq<Column>, next: seq<Column>, diff: seq<ColumnDiff>, p: Column, q: Column)
    requires Paired(hints, previous, next) && IsDiff(hints, previous, next, diff)
    requires p in previous && q in next && p.name == q.name
    requires !Touched(diff, |diff|, p) && !Made(diff, q)
    ensures SameColumn(p, q)
  {
    var i: nat :| i < |previous| && previous[i] == p;
    UntouchedBecomes(hints, previous, next, diff, i);
    OnlyOneWithId(next, q);
  }

  /** Under hints that match columns one to one, the computed diff is coherent: the migration results
      apply to it. */
  lemma DiffIsCoherent(hints: ColumnHints, previous: seq<Column>, next: seq<Column>, diff: seq<ColumnDiff>)
    requires Paired(hints, previous, next) && IsDiff(hints, previous, next, diff)
    ensures Coherent(previous, next, diff)
  {
    forall k | 0 <= k < |diff|
      ensures Consumed(diff[k]).Some? ==> Consumed(diff[k]).value in previous
      ensures Produced(diff[k]).Some? ==> Produced(diff[k]).value in next
    {
      ChangeExists(hints, previous, next, diff, k);
    }
    forall k, l | 0 <= k < l < |diff|
      ensures Consumed(diff[k]).Some? ==> Consumed(diff[k]) != Consumed(diff[l])
      ensures Produced(diff[k]).Some? ==> Produced(diff[k]) != Produced(diff[l])
    {
      ChangesDiffer(hints, previous, next, diff, k, l);
    }
    NamesPairUp(hints, previous, next, diff);
    forall p, q | p in previous && q in next && p.name == q.name && !Touched(diff, |diff|, p) && !Made(diff, q)
      ensures SameColumn(p, q)
    {
      PairsAgree(hints, previous, next, diff, p, q);
    }
  }

  /** What a column has become is its next version, mentioned in the diff or not. */
  lemma NextIsKept(
      hints: ColumnHints, previous: seq<Column>, next: seq<Column>, diff: seq<ColumnDiff>, i: nat, q: Column)
    requires Paired(hints, previous, next) && IsDiff(hints, previous, next, diff)
    requires i < |previous| && NextOf(hints, next, previous[i]) == Some(q)
    ensures Kept(previous, next, diff, previous[i], q)
  {
    TouchedExactly(hints, previous, next, diff, i);
    if ChangeOf(hints, next, previous[i]) != [] {
      var k := ListedIn(hints, previous, next, diff, i, ColumnDiff.Alter(previous[i], q));
    } else {
      UntouchedBecomes(hints, previous, next, diff, i);
    }
  }

  /** The hints the loop collects give coherent column diffs for every table that stays. */
  lemma CollectedHintsAreCoherent(
      previous: Schema, next: Schema, h: HintMaps, t: nat, n: nat, diff: seq<ColumnDiff>)
    requires SchemaOk(previous) && SchemaOk(next) && HintsOk(previous, next, h)
    requires t < |previous.tables| && TableTarget(previous, next, h, t) == Some(n) && n < |next.tables|
    requires IsDiff(h.columns, previous.tables[t].columns, next.tables[n].columns, diff)
    ensures Coherent(previous.tables[t].columns, next.tables[n].columns, diff)
  {
    assert ItemsOk(previous.tables[t], t) && ItemsOk(next.tables[n], n) && WithinOk(previous, next, h, t);
    ItemsDistinct(previous.tables[t].columns);
    ItemsDistinct(next.tables[n].columns);
    DiffIsCoherent(h.columns, previous.tables[t].columns, next.tables[n].columns, diff);
  }

  lemma ItemsDistinct(columns: seq<Column>)
    requires DistinctItems(ColumnItems(columns))
    ensures DistinctColumns(columns)
  {
    forall i, j | 0 <= i < j < |columns|
      ensures columns[i].name != columns[j].name && columns[i].id != columns[j].id
    {
      assert ColumnItems(columns)[i].name != ColumnItems(columns)[j].name;
    }
  }
}
