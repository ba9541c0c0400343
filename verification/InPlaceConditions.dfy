/** When in-place changes go through, said of the diff and the table as it is to begin with. */
module InPlaceConditions {
  import opened Wrappers
  import opened DbSchema
  import opened MigrationPlan
  import opened Database
  import opened ColumnLineage
  import opened TableInPlace
  import opened InPlaceMigration

  /** Every previous column of the name has been renamed away or dropped before change `i`. */
  predicate NameFree(previous: seq<Column>, columns: seq<ColumnDiff>, i: nat, name: string)
    requires i <= |columns|
  {
    forall p <- previous :: p.name == name ==> Touched(columns, i, p)
  }

  /** How many columns the table has before change `i`. */
  function ColumnCount(previous: seq<Column>, columns: seq<ColumnDiff>, i: nat): int
    requires i <= |columns|
  {
    if i == 0 then |previous|
    else
      ColumnCount(previous, columns, i - 1)
      + (if columns[i - 1].Add? then 1 else if columns[i - 1].Drop? then -1 else 0)
  }

  /** Nothing stands in the way of change `i`: an added or renamed column finds its name free, an added one
      that may not be NULL finds no rows, a dropped one is neither held nor the last, and one that may not
      be NULL any more is filled in every row. */
  predicate Unhindered(s: Setting, previous: seq<Column>, columns: seq<ColumnDiff>, i: nat)
    requires s.Valid() && i < |columns|
  {
    match columns[i]
    case Add(c) => NameFree(previous, columns, i, c.name) && (c.nullable || s.Rows() == [])
    case Drop(c) => !Blocked(s.start, s.table, c.name) && ColumnCount(previous, columns, i) != 1
    case Alter(p, q) =>
      || OnType(p, q, s.capability, s.renamed)
      || (&& (p.name != q.name ==> NameFree(previous, columns, i, q.name))
          && (p.nullable && !q.nullable ==> forall k :: 0 <= k < |s.Rows()| ==> p.name in s.Rows()[k]))
  }

  /** A name is free when no slot has it. */
  lemma FreeExactly(
    s: Setting, previous: seq<Column>, next: seq<Column>, columns: seq<ColumnDiff>, i: nat, slots: Slots)
    requires Coherent(previous, next, columns) && i < |columns| && Lineage(s, previous, columns, i, slots)
    requires Produced(columns[i]).Some?
    requires columns[i].Alter? ==> columns[i].previous.name != columns[i].next.name
    ensures Produced(columns[i]).value.name !in slots
       <==> NameFree(previous, columns, i, Produced(columns[i]).value.name)
  {
    var name := Produced(columns[i]).value.name;
    if name in slots {
      TakenName(s, previous, next, columns, i, slots);
    }
    if p :| p in previous && p.name == name && !Touched(columns, i, p) {
      assert p.name in slots;
    }
  }

  lemma TakenName(
    s: Setting, previous: seq<Column>, next: seq<Column>, columns: seq<ColumnDiff>, i: nat, slots: Slots)
    requires Coherent(previous, next, columns) && i < |columns| && Lineage(s, previous, columns, i, slots)
    requires Produced(columns[i]).Some? && Produced(columns[i]).value.name in slots
    ensures !NameFree(previous, columns, i, Produced(columns[i]).value.name)
  {
    var name := Produced(columns[i]).value.name;
    assert Accounted(s, previous, columns, i, name, slots[name]);
    forall j | 0 <= j < i
      ensures Outcome(s, columns[j]) != Some((name, slots[name]))
    {
      if Produced(columns[j]).Some? {
        ProducedApart(previous, next, columns, j, i);
      }
    }
  }

  lemma ProducedApart(previous: seq<Column>, next: seq<Column>, columns: seq<ColumnDiff>, j: nat, i: nat)
    requires Coherent(previous, next, columns) && j < i < |columns|
    requires Produced(columns[j]).Some? && Produced(columns[i]).Some?
    ensures Produced(columns[j]).value.name != Produced(columns[i]).value.name
  {
    var a, b := Produced(columns[j]).value, Produced(columns[i]).value;
    assert a in next && b in next && a != b;
    var k: nat :| k < |next| && next[k] == a;
    var l: nat :| l < |next| && next[l] == b;
    assert k < l || l < k;
  }

  /** A column not yet touched is in view exactly where its row has it. */
  lemma InView(slots: Slots, p: Column, row: Row)
    requires p.name in slots && slots[p.name].source == Some(p.name)
    ensures p.name in View(slots, row) <==> p.name in row
  {
  }

  lemma AlterExactly(
    s: Setting, previous: seq<Column>, next: seq<Column>, columns: seq<ColumnDiff>, i: nat, slots: Slots)
    requires s.Valid() && Coherent(previous, next, columns) && i < |columns| && columns[i].Alter?
    requires Lineage(s, previous, columns, i, slots) && AsStarted(s, slots, columns[i])
    ensures Allowed(s, slots, columns[i]) <==> Unhindered(s, previous, columns, i)
  {
    var p, q := columns[i].previous, columns[i].next;
    if p.name != q.name {
      FreeExactly(s, previous, next, columns, i, slots);
    }
    forall k | 0 <= k < |s.Rows()|
      ensures p.name in View(slots, s.Rows()[k]) <==> p.name in s.Rows()[k]
    {
      InView(slots, p, s.Rows()[k]);
    }
  }

  lemma OneExactly(
    s: Setting, previous: seq<Column>, next: seq<Column>, columns: seq<ColumnDiff>, i: nat, slots: Slots)
    requires s.Valid() && Coherent(previous, next, columns) && i < |columns|
    requires Lineage(s, previous, columns, i, slots) && AsStarted(s, slots, columns[i])
    requires |slots| == ColumnCount(previous, columns, i)
    ensures Allowed(s, slots, columns[i]) <==> Unhindered(s, previous, columns, i)
  {
    match columns[i]
    case Add(_) => FreeExactly(s, previous, next, columns, i, slots);
    case Drop(_) =>
    case Alter(_, _) => AlterExactly(s, previous, next, columns, i, slots);
  }

  lemma StartKeys(previous: seq<Column>, capability: Capability, renamed: RenamedTypes)
    requires DistinctColumns(previous)
    ensures StartSlots(previous, capability, renamed).Keys == NamesOf(DefsOf(previous, capability))
  {
    var defs := DefsOf(previous, capability);
    forall i | 0 <= i < |previous|
      ensures previous[i].name in NamesOf(defs)
    {
      assert defs[i].name == previous[i].name;
    }
  }

  lemma KeyCount(slots: Slots)
    ensures |slots| == |slots.Keys|
  {
  }

  lemma StartCount(previous: seq<Column>, capability: Capability, renamed: RenamedTypes)
    requires DistinctColumns(previous)
    ensures |StartSlots(previous, capability, renamed)| == |previous|
  {
    StartKeys(previous, capability, renamed);
    NamesCounted(DefsOf(previous, capability));
    KeyCount(StartSlots(previous, capability, renamed));
  }

  lemma RemovedCount(slots: Slots, name: string)
    requires name in slots
    ensures |slots - {name}| == |slots| - 1
  {
    KeyCount(slots);
    KeyCount(slots - {name});
    assert (slots - {name}).Keys == slots.Keys - {name};
  }

  lemma AddedCount(slots: Slots, name: string, slot: Slot)
    requires name !in slots
    ensures |slots[name := slot]| == |slots| + 1
  {
    KeyCount(slots);
    KeyCount(slots[name := slot]);
    assert slots[name := slot].Keys == slots.Keys + {name};
  }

  lemma UpdatedCount(s: Setting, slots: Slots, d: ColumnDiff)
    requires s.Valid() && AsStarted(s, slots, d) && Allowed(s, slots, d)
    ensures |ItemSlots(s, slots, d)| == |slots| + (if d.Add? then 1 else if d.Drop? then -1 else 0)
  {
    ItemIsUpdate(s, slots, d);
    if Consumed(d).Some? {
      RemovedCount(slots, Consumed(d).value.name);
    }
    if Outcome(s, d).Some? {
      AddedCount(WithoutConsumed(slots, d), Outcome(s, d).value.0, Outcome(s, d).value.1);
    }
  }

  lemma StartedAt(s: Setting, previous: seq<Column>, next: seq<Column>, columns: seq<ColumnDiff>, n: nat)
    requires s.Valid() && Coherent(previous, next, columns) && n < |columns|
    requires AllAllowed(s, previous, columns, n)
    ensures Lineage(s, previous, columns, n, SlotsAfter(s, previous, columns, n))
    ensures AsStarted(s, SlotsAfter(s, previous, columns, n), columns[n])
  {
    LineageHolds(s, previous, next, columns, n);
    if Consumed(columns[n]).Some? {
      ConsumedUntouched(previous, next, columns, n);
    }
  }

  lemma {:induction false} SlotsCount(
    s: Setting, previous: seq<Column>, next: seq<Column>, columns: seq<ColumnDiff>, n: nat)
    requires s.Valid() && Coherent(previous, next, columns) && n <= |columns|
    requires AllAllowed(s, previous, columns, n)
    ensures |SlotsAfter(s, previous, columns, n)| == ColumnCount(previous, columns, n)
  {
    if n == 0 {
      StartCount(previous, s.capability, s.renamed);
    } else {
      var k: nat := n - 1;
      SlotsCount(s, previous, next, columns, k);
      StartedAt(s, previous, next, columns, k);
      UpdatedCount(s, SlotsAfter(s, previous, columns, k), columns[k]);
    }
  }

  predicate AllUnhindered(s: Setting, previous: seq<Column>, columns: seq<ColumnDiff>, n: nat)
    requires s.Valid() && n <= |columns|
  {
    forall i :: 0 <= i < n ==> Unhindered(s, previous, columns, i)
  }

  /** Each change is allowed where it stands exactly when nothing stands in its way to begin with. */
  lemma {:induction false} AllowedExactly(
    s: Setting, previous: seq<Column>, next: seq<Column>, columns: seq<ColumnDiff>, n: nat)
    requires s.Valid() && Coherent(previous, next, columns) && n <= |columns|
    ensures AllAllowed(s, previous, columns, n) <==> AllUnhindered(s, previous, columns, n)
  {
    if n > 0 {
      var k: nat := n - 1;
      AllowedExactly(s, previous, next, columns, k);
      LastUnhindered(s, previous, columns, k);
      if AllAllowed(s, previous, columns, k) {
        LastExactly(s, previous, next, columns, k);
      }
    }
  }

  lemma LastUnhindered(s: Setting, previous: seq<Column>, columns: seq<ColumnDiff>, n: nat)
    requires s.Valid() && n < |columns|
    ensures AllUnhindered(s, previous, columns, n + 1)
       <==> AllUnhindered(s, previous, columns, n) && Unhindered(s, previous, columns, n)
  {
  }

  lemma LastExactly(s: Setting, previous: seq<Column>, next: seq<Column>, columns: seq<ColumnDiff>, n: nat)
    requires s.Valid() && Coherent(previous, next, columns) && n < |columns|
    requires AllAllowed(s, previous, columns, n)
    ensures Allowed(s, SlotsAfter(s, previous, columns, n), columns[n]) <==> Unhindered(s, previous, columns, n)
  {
    StartedAt(s, previous, next, columns, n);
    SlotsCount(s, previous, next, columns, n);
    OneExactly(s, previous, next, columns, n, SlotsAfter(s, previous, columns, n));
  }

  /** So in-place changes go through if and only if nothing stands in the way of any of them. */
  lemma InPlaceRunsExactly(s: Setting, previous: seq<Column>, next: seq<Column>, columns: seq<ColumnDiff>)
    requires s.Valid() && Coherent(previous, next, columns)
    requires forall i :: 0 <= i < |previous| ==> previous[i].id.table == s.id
    requires Holds(s.start, s.table, previous, s.capability, s.renamed)
    ensures Run(ColumnChangeStatements(columns, |columns|, s.schema, s.id, s.capability, s.renamed), s.start).Some?
       <==> AllUnhindered(s, previous, columns, |columns|)
  {
    InPlaceReachesNext(s, previous, next, columns);
    AllowedExactly(s, previous, next, columns, |columns|);
  }
}
