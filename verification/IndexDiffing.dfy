/** The diff of two tables' indices under rename hints. */
module IndexDiffing {
  import opened Wrappers
  import opened DbSchema
  import opened RenameMatching
  import opened RenameHints

  /** Every id says where its item stands, and indices and keys are over columns of their own table. */
  predicate PlacesOk(s: Schema) {
    forall t :: 0 <= t < |s.tables| ==> TablePlacesOk(s.tables[t], t)
  }

  predicate TablePlacesOk(t: Table, id: nat) {
    && (forall i :: 0 <= i < |t.columns| ==> t.columns[i].id == ColumnId(id, i))
    && (forall k :: 0 <= k < |t.indices| ==>
          && t.indices[k].id == IndexId(id, k) && t.indices[k].on == id
          && OwnColumns(t, id, t.indices[k].columns))
    && OwnColumns(t, id, t.primaryKey)
  }

  predicate OwnColumns(t: Table, id: nat, ids: seq<ColumnId>) {
    forall j :: 0 <= j < |ids| ==> ids[j].table == id && ids[j].index < |t.columns|
  }

  /** Two versions of an indexed column: as hinted, else by name. */
  predicate SameIndexed(h: HintMaps, p: Table, q: Table, a: ColumnId, b: ColumnId)
    requires a.index < |p.columns| && b.index < |q.columns|
  {
    if a in h.columns then h.columns[a] == b else p.columns[a.index].name == q.columns[b.index].name
  }

  predicate SameColumns(h: HintMaps, p: Table, q: Table, a: seq<ColumnId>, b: seq<ColumnId>) {
    |a| == |b| && forall j :: 0 <= j < |a| ==>
      a[j].index < |p.columns| && b[j].index < |q.columns| && SameIndexed(h, p, q, a[j], b[j])
  }

  /** Nothing about the index has changed. */
  predicate SameIndex(h: HintMaps, p: Table, q: Table, x: Index, y: Index) {
    && x.name == y.name && x.unique == y.unique && x.primaryKey == y.primaryKey
    && SameColumns(h, p, q, x.columns, y.columns)
  }

  /** The indices differ in nothing but where they and their columns are. */
  lemma SameIndexExactly(h: HintMaps, p: Table, q: Table, x: Index, y: Index)
    ensures SameIndex(h, p, q, x, y)
       <==> x.(id := y.id, on := y.on, columns := y.columns) == y && SameColumns(h, p, q, x.columns, y.columns)
  {
  }

  function IndexTarget(h: HintMaps, q: Table, x: Index): Option<IndexId> {
    Target(h.indices, IndexItems(q.indices), Item(x.id, x.name))
  }

  /** What the loop pushes for one previous index. */
  function IndexChange(h: HintMaps, p: Table, q: Table, x: Index): Option<IndexDiff> {
    match IndexTarget(h, q, x)
    case None => Some(IndexDiff.Drop(x))
    case Some(id) =>
      if id.index >= |q.indices| || SameIndex(h, p, q, x, q.indices[id.index]) then None
      else Some(IndexDiff.Alter(x, q.indices[id.index]))
  }

  predicate IsNewIndex(h: HintMaps, p: Table, q: Table, k: nat) {
    k < |q.indices| && !Taken(h.indices, IndexItems(p.indices), IndexItems(q.indices), q.indices[k].id)
  }

  /** The changes of the first `n` previous indices, in order: entry `k` is about index `from[k]`. */
  predicate AreIndexChanges(h: HintMaps, p: Table, q: Table, changes: seq<IndexDiff>, from: seq<nat>, n: nat)
    requires n <= |p.indices|
  {
    && |changes| == |from|
    && (forall k :: 0 <= k < |from| ==>
          from[k] < n && IndexChange(h, p, q, p.indices[from[k]]) == Some(changes[k]))
    && (forall k, l :: 0 <= k < l < |from| ==> from[k] < from[l])
    && (forall i :: 0 <= i < n && IndexChange(h, p, q, p.indices[i]).Some? ==> i in from)
  }

  /** Every index nothing has become, once, in any order. */
  predicate AreIndexCreations(h: HintMaps, p: Table, q: Table, creations: seq<IndexDiff>) {
    && (forall k :: 0 <= k < |creations| ==>
          && creations[k].Create? && IsNewIndex(h, p, q, creations[k].index.id.index)
          && creations[k].index == q.indices[creations[k].index.id.index])
    && (forall k, l :: 0 <= k < l < |creations| ==> creations[k] != creations[l])
    && (forall i :: 0 <= i < |q.indices| && IsNewIndex(h, p, q, i) ==>
          IndexDiff.Create(q.indices[i]) in creations)
  }

  predicate IsSplitDiff(h: HintMaps, p: Table, q: Table, diff: seq<IndexDiff>, from: seq<nat>) {
    && |from| <= |diff|
    && AreIndexChanges(h, p, q, diff[..|from|], from, |p.indices|)
    && AreIndexCreations(h, p, q, diff[|from|..])
  }

  ghost predicate IsIndexDiff(h: HintMaps, p: Table, q: Table, diff: seq<IndexDiff>) {
    exists from: seq<nat> :: IsSplitDiff(h, p, q, diff, from)
  }

  /** The hints match the indices one to one, and ids are places. */
  predicate IndicesPaired(h: HintMaps, p: Table, q: Table) {
    && DistinctItems(IndexItems(p.indices)) && DistinctItems(IndexItems(q.indices))
    && Matched(h.indices, IndexItems(p.indices), IndexItems(q.indices))
    && TablePlacesOk(p, p.id) && TablePlacesOk(q, q.id)
  }

  lemma TargetIndex(h: HintMaps, p: Table, q: Table, i: nat)
    requires IndicesPaired(h, p, q) && i < |p.indices|
    ensures
      var id := IndexTarget(h, q, p.indices[i]);
      id.Some? ==> id.value.index < |q.indices| && q.indices[id.value.index].id == id.value
  {
    assert IndexItems(p.indices)[i] == Item(p.indices[i].id, p.indices[i].name);
  }

  /** The diff as it is computed. */
  method Diff(h: HintMaps, p: Table, q: Table) returns (diff: seq<IndexDiff>)
    requires IndicesPaired(h, p, q)
    ensures IsIndexDiff(h, p, q, diff)
  {
    diff := [];
    var created := CreatedIds(h.indices, IndexItems(p.indices), IndexItems(q.indices));
    ghost var from: seq<nat> := [];
    for i := 0 to |p.indices|
      invariant AreIndexChanges(h, p, q, diff, from, i)
    {
      TargetIndex(h, p, q, i);
      var x := p.indices[i];
      var target := IndexTarget(h, q, x);
      if target == None {
        OneMoreIndexChange(h, p, q, diff, from, i, IndexDiff.Drop(x));
        diff, from := diff + [IndexDiff.Drop(x)], from + [i];
      } else if !SameIndex(h, p, q, x, q.indices[target.value.index]) {
        var alter := IndexDiff.Alter(x, q.indices[target.value.index]);
        OneMoreIndexChange(h, p, q, diff, from, i, alter);
        diff, from := diff + [alter], from + [i];
      }
    }
    forall id | id in created
      ensures id.index < |q.indices| && q.indices[id.index].id == id
    {
      IdIsPlace(q, id);
    }
    var creations := Creations(q, created);
    forall i | 0 <= i < |q.indices| && IsNewIndex(h, p, q, i)
      ensures q.indices[i].id in created
    {
      assert IndexItems(q.indices)[i].id == q.indices[i].id;
    }
    ghost var changes := diff;
    diff := diff + creations;
    assert diff[..|from|] == changes && diff[|from|..] == creations;
    assert IsSplitDiff(h, p, q, diff, from);
  }

  lemma IdIsPlace(q: Table, id: IndexId)
    requires TablePlacesOk(q, q.id) && HasId(IndexItems(q.indices), id)
    ensures id.index < |q.indices| && q.indices[id.index].id == id
  {
    var k :| 0 <= k < |q.indices| && IndexItems(q.indices)[k].id == id;
  }

  lemma OneMoreIndexChange(
      h: HintMaps, p: Table, q: Table, changes: seq<IndexDiff>, from: seq<nat>, i: nat, d: IndexDiff)
    requires i < |p.indices| && AreIndexChanges(h, p, q, changes, from, i)
    requires IndexChange(h, p, q, p.indices[i]) == Some(d)
    ensures AreIndexChanges(h, p, q, changes + [d], from + [i], i + 1)
  {
    var more := from + [i];
    assert more[|from|] == i;
    forall j | 0 <= j < i + 1 && IndexChange(h, p, q, p.indices[j]).Some?
      ensures j in more
    {
      if j < i {
        assert j in from;
      }
    }
  }

  /** The indices left over, in the order the set gives them out. */
  method Creations(q: Table, created: set<IndexId>) returns (creations: seq<IndexDiff>)
    requires forall id <- created :: id.index < |q.indices| && q.indices[id.index].id == id
    ensures forall k :: 0 <= k < |creations| ==>
      && creations[k].Create? && creations[k].index.id in created
      && creations[k].index == q.indices[creations[k].index.id.index]
    ensures forall k, l :: 0 <= k < l < |creations| ==> creations[k] != creations[l]
    ensures forall id <- created :: IndexDiff.Create(q.indices[id.index]) in creations
  {
    creations := [];
    var ids := created;
    while ids != {}
      invariant ids <= created
      invariant forall k :: 0 <= k < |creations| ==>
        && creations[k].Create? && creations[k].index.id in created - ids
        && creations[k].index == q.indices[creations[k].index.id.index]
      invariant forall k, l :: 0 <= k < l < |creations| ==> creations[k] != creations[l]
      invariant forall id <- created - ids :: IndexDiff.Create(q.indices[id.index]) in creations
      decreases ids
    {
      var id :| id in ids;
      ids := ids - {id};
      creations := creations + [IndexDiff.Create(q.indices[id.index])];
    }
  }

  // ---- What the diff says of each index ----

  predicate DropsIndex(diff: seq<IndexDiff>, x: Index) {
    exists k :: 0 <= k < |diff| && diff[k].Dropped() == Some(x)
  }

  predicate CreatesIndex(diff: seq<IndexDiff>, y: Index) {
    exists k :: 0 <= k < |diff| && diff[k].Created() == Some(y)
  }

  /** Each change drops indices of the previous table and creates indices of the next one. */
  lemma ChangesKnown(h: HintMaps, p: Table, q: Table, diff: seq<IndexDiff>, k: nat)
    requires IndicesPaired(h, p, q) && IsIndexDiff(h, p, q, diff) && k < |diff|
    ensures diff[k].Dropped().Some? ==> diff[k].Dropped().value in p.indices
    ensures diff[k].Created().Some? ==> diff[k].Created().value in q.indices
  {
    var from :| IsSplitDiff(h, p, q, diff, from);
    if k < |from| {
      assert diff[..|from|][k] == diff[k];
    } else {
      assert diff[|from|..][k - |from|] == diff[k];
    }
  }

  /** A previous index is dropped exactly when it became nothing or something that differs from it. */
  lemma DroppedExactly(h: HintMaps, p: Table, q: Table, diff: seq<IndexDiff>, i: nat)
    requires IndicesPaired(h, p, q) && IsIndexDiff(h, p, q, diff) && i < |p.indices|
    ensures DropsIndex(diff, p.indices[i]) <==> IndexChange(h, p, q, p.indices[i]).Some?
  {
    var from :| IsSplitDiff(h, p, q, diff, from);
    if IndexChange(h, p, q, p.indices[i]).Some? {
      var k :| 0 <= k < |from| && from[k] == i;
      assert diff[..|from|][k] == diff[k];
      assert diff[k].Dropped() == Some(p.indices[i]);
    }
    if DropsIndex(diff, p.indices[i]) {
      var k :| 0 <= k < |diff| && diff[k].Dropped() == Some(p.indices[i]);
      if k < |from| {
        assert diff[..|from|][k] == diff[k];
        assert p.indices[from[k]] == p.indices[i];
      } else {
        assert diff[|from|..][k - |from|] == diff[k];
      }
    }
  }

  /** The previous index that became `y`, unchanged. */
  ghost predicate KeptIndex(h: HintMaps, p: Table, q: Table, diff: seq<IndexDiff>, x: Index, y: Index) {
    x in p.indices && y in q.indices && !DropsIndex(diff, x) && !CreatesIndex(diff, y) && SameIndex(h, p, q, x, y)
  }

  lemma NewIsCreated(h: HintMaps, p: Table, q: Table, diff: seq<IndexDiff>, k: nat)
    requires IsIndexDiff(h, p, q, diff) && IsNewIndex(h, p, q, k)
    ensures CreatesIndex(diff, q.indices[k])
  {
    var from :| IsSplitDiff(h, p, q, diff, from);
    var l: nat :| l < |diff[|from|..]| && diff[|from|..][l] == IndexDiff.Create(q.indices[k]);
    assert diff[|from| + l].Created() == Some(q.indices[k]);
  }

  lemma ChangedIsCreated(h: HintMaps, p: Table, q: Table, diff: seq<IndexDiff>, i: nat, y: Index)
    requires IsIndexDiff(h, p, q, diff) && i < |p.indices|
    requires IndexChange(h, p, q, p.indices[i]) == Some(IndexDiff.Alter(p.indices[i], y))
    ensures CreatesIndex(diff, y)
  {
    var from :| IsSplitDiff(h, p, q, diff, from);
    var m :| 0 <= m < |from| && from[m] == i;
    assert diff[..|from|][m] == diff[m];
    assert diff[m].Created() == Some(y);
  }

  /** The previous index that became `y`, which the diff does not create. */
  lemma BecameKept(h: HintMaps, p: Table, q: Table, diff: seq<IndexDiff>, i: nat, y: Index)
    requires IndicesPaired(h, p, q) && IsIndexDiff(h, p, q, diff) && i < |p.indices|
    requires y in q.indices && !CreatesIndex(diff, y) && IndexTarget(h, q, p.indices[i]) == Some(y.id)
    ensures KeptIndex(h, p, q, diff, p.indices[i], y)
  {
    TargetIndex(h, p, q, i);
    if IndexChange(h, p, q, p.indices[i]).Some? {
      ChangedIsCreated(h, p, q, diff, i, y);
    } else {
      DroppedExactly(h, p, q, diff, i);
    }
  }

  /** A next index the diff does not create is a previous one it does not drop. */
  lemma NotCreatedIsKept(h: HintMaps, p: Table, q: Table, diff: seq<IndexDiff>, y: Index) returns (x: Index)
    requires IndicesPaired(h, p, q) && IsIndexDiff(h, p, q, diff)
    requires y in q.indices && !CreatesIndex(diff, y)
    ensures KeptIndex(h, p, q, diff, x, y)
  {
    var i := SourceOf(h, p, q, diff, y);
    x := p.indices[i];
    BecameKept(h, p, q, diff, i, y);
  }

  lemma SourceOf(h: HintMaps, p: Table, q: Table, diff: seq<IndexDiff>, y: Index) returns (i: nat)
    requires IndicesPaired(h, p, q) && IsIndexDiff(h, p, q, diff)
    requires y in q.indices && !CreatesIndex(diff, y)
    ensures i < |p.indices| && IndexTarget(h, q, p.indices[i]) == Some(y.id)
  {
    var k: nat :| k < |q.indices| && q.indices[k] == y;
    if IsNewIndex(h, p, q, k) {
      NewIsCreated(h, p, q, diff, k);
    } else {
      i :| i < |p.indices| && Target(h.indices, IndexItems(q.indices), IndexItems(p.indices)[i]) == Some(y.id);
    }
  }

  lemma CreatedIsChange(h: HintMaps, p: Table, q: Table, diff: seq<IndexDiff>, y: Index)
    requires IndicesPaired(h, p, q) && IsIndexDiff(h, p, q, diff) && y in q.indices && CreatesIndex(diff, y)
    ensures IsNewIndex(h, p, q, y.id.index) || BecomesIndex(h, p, q, y)
  {
    var from :| IsSplitDiff(h, p, q, diff, from);
    var k :| 0 <= k < |diff| && diff[k].Created() == Some(y);
    if k < |from| {
      assert diff[..|from|][k] == diff[k];
      assert IndexChange(h, p, q, p.indices[from[k]]) == Some(IndexDiff.Alter(p.indices[from[k]], y));
    } else {
      assert diff[|from|..][k - |from|] == diff[k];
    }
  }

  /** `y` is what some previous index became with a difference. */
  predicate BecomesIndex(h: HintMaps, p: Table, q: Table, y: Index) {
    exists i :: 0 <= i < |p.indices| && IndexChange(h, p, q, p.indices[i]) == Some(IndexDiff.Alter(p.indices[i], y))
  }

  /** A previous index the diff does not drop is a next one it does not create. */
  lemma NotDroppedIsKept(h: HintMaps, p: Table, q: Table, diff: seq<IndexDiff>, x: Index) returns (y: Index)
    requires IndicesPaired(h, p, q) && IsIndexDiff(h, p, q, diff)
    requires x in p.indices && !DropsIndex(diff, x)
    ensures KeptIndex(h, p, q, diff, x, y)
  {
    var i: nat :| i < |p.indices| && p.indices[i] == x;
    DroppedExactly(h, p, q, diff, i);
    TargetIndex(h, p, q, i);
    y := q.indices[IndexTarget(h, q, x).value.index];
    if CreatesIndex(diff, y) {
      CreatedIsChange(h, p, q, diff, y);
      AlreadyTaken(h, p, q, i, y);
    }
  }

  /** What one previous index became, no other one did. */
  lemma AlreadyTaken(h: HintMaps, p: Table, q: Table, i: nat, y: Index)
    requires IndicesPaired(h, p, q) && i < |p.indices| && y in q.indices
    requires IndexTarget(h, q, p.indices[i]) == Some(y.id) && IndexChange(h, p, q, p.indices[i]) == None
    ensures !IsNewIndex(h, p, q, y.id.index) && !BecomesIndex(h, p, q, y)
  {
    var items := IndexItems(p.indices);
    assert Target(h.indices, IndexItems(q.indices), items[i]) == Some(y.id);
    forall j | 0 <= j < |p.indices| && j != i
      ensures IndexChange(h, p, q, p.indices[j]) != Some(IndexDiff.Alter(p.indices[j], y))
    {
      assert i < j || j < i;
      TargetIndex(h, p, q, j);
      assert Target(h.indices, IndexItems(q.indices), items[j]) != Some(y.id);
    }
  }
}
