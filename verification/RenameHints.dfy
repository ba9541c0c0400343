/** Rename hints: adding one for a dropped and a created item keeps previous and next items paired one to
    one, and leaves one item fewer to ask about. */
module RenameHints {
  import opened Wrappers
  import opened DbSchema
  import opened RenameMatching

  function TableItems(tables: seq<Table>): (items: seq<Item<nat>>)
    ensures |items| == |tables|
    ensures forall i :: 0 <= i < |items| ==> items[i] == Item(tables[i].id, tables[i].name)
  {
    seq(|tables|, i requires 0 <= i < |tables| => Item(tables[i].id, tables[i].name))
  }

  function ColumnItems(columns: seq<Column>): (items: seq<Item<ColumnId>>)
    ensures |items| == |columns|
    ensures forall i :: 0 <= i < |items| ==> items[i] == Item(columns[i].id, columns[i].name)
  {
    seq(|columns|, i requires 0 <= i < |columns| => Item(columns[i].id, columns[i].name))
  }

  function IndexItems(indices: seq<Index>): (items: seq<Item<IndexId>>)
    ensures |items| == |indices|
    ensures forall i :: 0 <= i < |items| ==> items[i] == Item(indices[i].id, indices[i].name)
  {
    seq(|indices|, i requires 0 <= i < |indices| => Item(indices[i].id, indices[i].name))
  }

  /** Ids are positions, within their table where they belong to one, and names are distinct. */
  predicate ItemsOk(t: Table, id: nat) {
    && t.id == id
    && DistinctItems(ColumnItems(t.columns)) && DistinctItems(IndexItems(t.indices))
    && (forall i :: 0 <= i < |t.columns| ==> t.columns[i].id.table == id)
    && (forall i :: 0 <= i < |t.indices| ==> t.indices[i].id.table == id)
  }

  predicate SchemaOk(s: Schema) {
    && DistinctItems(TableItems(s.tables))
    && forall i :: 0 <= i < |s.tables| ==> ItemsOk(s.tables[i], i)
  }

  datatype HintMaps = HintMaps(
    tables: map<nat, nat>, columns: map<ColumnId, ColumnId>, indices: map<IndexId, IndexId>)

  /** The hints, inserted in place. */
  class Hints {
    var tables: map<nat, nat>
    var columns: map<ColumnId, ColumnId>
    var indices: map<IndexId, IndexId>

    constructor ()
      ensures Maps() == HintMaps(map[], map[], map[])
    {
      tables, columns, indices := map[], map[], map[];
    }

    function Maps(): HintMaps
      reads this
    {
      HintMaps(tables, columns, indices)
    }

    method AddTableHint(from: nat, to: nat)
      modifies this
      ensures Maps() == old(Maps()).(tables := old(tables)[from := to])
    {
      tables := tables[from := to];
    }

    method AddColumnHint(from: ColumnId, to: ColumnId)
      modifies this
      ensures Maps() == old(Maps()).(columns := old(columns)[from := to])
    {
      columns := columns[from := to];
    }

    method AddIndexHint(from: IndexId, to: IndexId)
      modifies this
      ensures Maps() == old(Maps()).(indices := old(indices)[from := to])
    {
      indices := indices[from := to];
    }
  }

  // ---- What the hints satisfy ----

  function TableTarget(previous: Schema, next: Schema, h: HintMaps, t: nat): Option<nat>
    requires t < |previous.tables|
  {
    Target(h.tables, TableItems(next.tables), TableItems(previous.tables)[t])
  }

  /** The columns and indices of a table that stays are matched one to one with those it becomes;
      those of a table that goes have no hints. */
  predicate WithinOk(previous: Schema, next: Schema, h: HintMaps, t: nat)
    requires t < |previous.tables|
  {
    var p := previous.tables[t];
    match TableTarget(previous, next, h, t)
    case Some(n) =>
      && n < |next.tables|
      && Matched(h.columns, ColumnItems(p.columns), ColumnItems(next.tables[n].columns))
      && Matched(h.indices, IndexItems(p.indices), IndexItems(next.tables[n].indices))
    case None =>
      && (forall i :: 0 <= i < |p.columns| ==> p.columns[i].id !in h.columns)
      && (forall i :: 0 <= i < |p.indices| ==> p.indices[i].id !in h.indices)
  }

  ghost predicate HintsOk(previous: Schema, next: Schema, h: HintMaps) {
    && Matched(h.tables, TableItems(previous.tables), TableItems(next.tables))
    && forall t :: 0 <= t < |previous.tables| ==> WithinOk(previous, next, h, t)
  }

  lemma NoHintsOk(previous: Schema, next: Schema)
    requires SchemaOk(previous) && SchemaOk(next)
    ensures HintsOk(previous, next, HintMaps(map[], map[], map[]))
  {
    var h := HintMaps(map[], map[], map[]);
    NamesMatch(h.tables, TableItems(previous.tables), TableItems(next.tables));
    forall t | 0 <= t < |previous.tables|
      ensures WithinOk(previous, next, h, t)
    {
      if TableTarget(previous, next, h, t).Some? {
        FreshTable(previous, next, h, t, TableTarget(previous, next, h, t).value);
      }
    }
  }

  /** Without hints of its own, a table's columns and indices are matched by name. */
  lemma FreshTable(previous: Schema, next: Schema, h: HintMaps, t: nat, n: nat)
    requires SchemaOk(previous) && SchemaOk(next) && t < |previous.tables|
    requires HasId(TableItems(next.tables), n)
    requires forall i :: 0 <= i < |previous.tables[t].columns| ==> previous.tables[t].columns[i].id !in h.columns
    requires forall i :: 0 <= i < |previous.tables[t].indices| ==> previous.tables[t].indices[i].id !in h.indices
    ensures n < |next.tables|
    ensures Matched(h.columns, ColumnItems(previous.tables[t].columns), ColumnItems(next.tables[n].columns))
    ensures Matched(h.indices, IndexItems(previous.tables[t].indices), IndexItems(next.tables[n].indices))
  {
    var k :| 0 <= k < |next.tables| && TableItems(next.tables)[k].id == n;
    assert ItemsOk(next.tables[k], k) && ItemsOk(previous.tables[t], t);
    NamesMatch(h.columns, ColumnItems(previous.tables[t].columns), ColumnItems(next.tables[n].columns));
    NamesMatch(h.indices, IndexItems(previous.tables[t].indices), IndexItems(next.tables[n].indices));
  }

  lemma TableHintOk(previous: Schema, next: Schema, h: HintMaps, d: nat, to: nat)
    requires SchemaOk(previous) && SchemaOk(next) && HintsOk(previous, next, h)
    requires d < |previous.tables| && TableTarget(previous, next, h, d) == None
    requires HasId(TableItems(next.tables), to)
    requires !Taken(h.tables, TableItems(previous.tables), TableItems(next.tables), to)
    ensures HintsOk(previous, next, h.(tables := h.tables[d := to]))
  {
    var more := h.(tables := h.tables[d := to]);
    assert ItemsOk(previous.tables[d], d);
    HintKeepsMatched(h.tables, TableItems(previous.tables), TableItems(next.tables), d, to);
    forall t | 0 <= t < |previous.tables|
      ensures WithinOk(previous, next, more, t)
    {
      assert WithinOk(previous, next, h, t);
      if t == d {
        FreshTable(previous, next, more, t, to);
      }
    }
  }

  /** Hints about another table's columns and indices leave this one's matching alone. */
  lemma WithinUnaffected(previous: Schema, next: Schema, h: HintMaps, more: HintMaps, t: nat)
    requires SchemaOk(previous) && t < |previous.tables| && WithinOk(previous, next, h, t)
    requires more.tables == h.tables
    requires forall id: ColumnId :: id.table == t ==> (id in h.columns <==> id in more.columns)
    requires forall id: ColumnId :: id.table == t && id in h.columns && id in more.columns ==>
      h.columns[id] == more.columns[id]
    requires forall id: IndexId :: id.table == t ==> (id in h.indices <==> id in more.indices)
    requires forall id: IndexId :: id.table == t && id in h.indices && id in more.indices ==>
      h.indices[id] == more.indices[id]
    ensures WithinOk(previous, next, more, t)
  {
    var p := previous.tables[t];
    assert ItemsOk(p, t);
    if TableTarget(previous, next, h, t).Some? {
      var q := next.tables[TableTarget(previous, next, h, t).value];
      OtherHintsMatched(h.columns, more.columns, ColumnItems(p.columns), ColumnItems(q.columns));
      OtherHintsMatched(h.indices, more.indices, IndexItems(p.indices), IndexItems(q.indices));
    }
  }

  lemma ColumnHintOk(previous: Schema, next: Schema, h: HintMaps, t: nat, n: nat, d: nat, to: ColumnId)
    requires SchemaOk(previous) && HintsOk(previous, next, h)
    requires t < |previous.tables| && TableTarget(previous, next, h, t) == Some(n) && n < |next.tables|
    requires
      var p, q := ColumnItems(previous.tables[t].columns), ColumnItems(next.tables[n].columns);
      && d < |p| && Target(h.columns, q, p[d]) == None && HasId(q, to) && !Taken(h.columns, p, q, to)
    ensures HintsOk(previous, next, h.(columns := h.columns[previous.tables[t].columns[d].id := to]))
  {
    var more := h.(columns := h.columns[previous.tables[t].columns[d].id := to]);
    assert ItemsOk(previous.tables[t], t) && WithinOk(previous, next, h, t);
    HintKeepsMatched(h.columns, ColumnItems(previous.tables[t].columns), ColumnItems(next.tables[n].columns), d, to);
    forall u | 0 <= u < |previous.tables|
      ensures WithinOk(previous, next, more, u)
    {
      assert WithinOk(previous, next, h, u);
      if u != t {
        WithinUnaffected(previous, next, h, more, u);
      }
    }
  }

  lemma IndexHintOk(previous: Schema, next: Schema, h: HintMaps, t: nat, n: nat, d: nat, to: IndexId)
    requires SchemaOk(previous) && HintsOk(previous, next, h)
    requires t < |previous.tables| && TableTarget(previous, next, h, t) == Some(n) && n < |next.tables|
    requires
      var p, q := IndexItems(previous.tables[t].indices), IndexItems(next.tables[n].indices);
      && d < |p| && Target(h.indices, q, p[d]) == None && HasId(q, to) && !Taken(h.indices, p, q, to)
    ensures HintsOk(previous, next, h.(indices := h.indices[previous.tables[t].indices[d].id := to]))
  {
    var more := h.(indices := h.indices[previous.tables[t].indices[d].id := to]);
    assert ItemsOk(previous.tables[t], t) && WithinOk(previous, next, h, t);
    HintKeepsMatched(h.indices, IndexItems(previous.tables[t].indices), IndexItems(next.tables[n].indices), d, to);
    forall u | 0 <= u < |previous.tables|
      ensures WithinOk(previous, next, more, u)
    {
      assert WithinOk(previous, next, h, u);
      if u != t {
        WithinUnaffected(previous, next, h, more, u);
      }
    }
  }

  // ---- Termination ----

  function TableIds(s: Schema): set<nat> {
    set t <- s.tables :: t.id
  }

  function ColumnIds(s: Schema): set<ColumnId> {
    set t, i | 0 <= t < |s.tables| && 0 <= i < |s.tables[t].columns| :: s.tables[t].columns[i].id
  }

  function IndexIds(s: Schema): set<IndexId> {
    set t, i | 0 <= t < |s.tables| && 0 <= i < |s.tables[t].indices| :: s.tables[t].indices[i].id
  }

  /** How many previous tables, columns and indices have no hint yet. */
  function Unhinted(previous: Schema, h: HintMaps): nat {
    |TableIds(previous) - h.tables.Keys| + |ColumnIds(previous) - h.columns.Keys|
    + |IndexIds(previous) - h.indices.Keys|
  }

  lemma OneLess<I>(ids: set<I>, hints: map<I, I>, d: I, to: I)
    requires d in ids && d !in hints
    ensures |ids - hints[d := to].Keys| < |ids - hints.Keys|
  {
    assert ids - hints[d := to].Keys == (ids - hints.Keys) - {d};
  }

  // ---- What the hints are, as maps ----

  /** Every hint comes from a previous item. */
  ghost predicate FromPrevious(previous: Schema, h: HintMaps) {
    && h.tables.Keys <= TableIds(previous)
    && h.columns.Keys <= ColumnIds(previous)
    && h.indices.Keys <= IndexIds(previous)
  }

  ghost predicate Injective<I(!new)>(hints: map<I, I>) {
    forall a, b :: a in hints && b in hints && a != b ==> hints[a] != hints[b]
  }

  lemma HintsApart<I(!new)>(hints: map<I, I>, previous: seq<Item<I>>, next: seq<Item<I>>, i: nat, j: nat)
    requires Matched(hints, previous, next) && i < |previous| && j < |previous| && i != j
    requires previous[i].id in hints && previous[j].id in hints
    ensures hints[previous[i].id] != hints[previous[j].id]
  {
    assert Target(hints, next, previous[i]) == Some(hints[previous[i].id]);
    assert Target(hints, next, previous[j]) == Some(hints[previous[j].id]);
    assert i < j || j < i;
  }

  lemma TableHintsInjective(previous: Schema, next: Schema, h: HintMaps)
    requires SchemaOk(previous) && HintsOk(previous, next, h) && FromPrevious(previous, h)
    ensures Injective(h.tables)
  {
    forall a, b | a in h.tables && b in h.tables && a != b
      ensures h.tables[a] != h.tables[b]
    {
      var i := TablePosition(previous, a);
      var j := TablePosition(previous, b);
      HintsApart(h.tables, TableItems(previous.tables), TableItems(next.tables), i, j);
    }
  }

  lemma TablePosition(s: Schema, id: nat) returns (i: nat)
    requires id in TableIds(s)
    ensures i < |s.tables| && s.tables[i].id == id
  {
    var t :| t in s.tables && t.id == id;
    i :| i < |s.tables| && s.tables[i] == t;
  }

  /** Where a column hint leads: to a column of the table its table becomes. */
  lemma ColumnHintLands(previous: Schema, next: Schema, h: HintMaps, t: nat, i: nat)
    requires SchemaOk(previous) && SchemaOk(next) && HintsOk(previous, next, h)
    requires t < |previous.tables| && i < |previous.tables[t].columns|
    requires previous.tables[t].columns[i].id in h.columns
    ensures TableTarget(previous, next, h, t) == Some(h.columns[previous.tables[t].columns[i].id].table)
  {
    assert WithinOk(previous, next, h, t);
    var n := TableTarget(previous, next, h, t).value;
    var p, q := ColumnItems(previous.tables[t].columns), ColumnItems(next.tables[n].columns);
    assert Target(h.columns, q, p[i]).Some?;
    var k :| 0 <= k < |q| && q[k].id == h.columns[previous.tables[t].columns[i].id];
    assert ItemsOk(next.tables[n], n);
  }

  lemma ColumnHintsApart(previous: Schema, next: Schema, h: HintMaps, t: nat, i: nat, u: nat, j: nat)
    requires SchemaOk(previous) && SchemaOk(next) && HintsOk(previous, next, h)
    requires t < |previous.tables| && i < |previous.tables[t].columns|
    requires u < |previous.tables| && j < |previous.tables[u].columns|
    requires previous.tables[t].columns[i].id in h.columns && previous.tables[u].columns[j].id in h.columns
    requires t != u || i != j
    ensures h.columns[previous.tables[t].columns[i].id] != h.columns[previous.tables[u].columns[j].id]
  {
    ColumnHintLands(previous, next, h, t, i);
    ColumnHintLands(previous, next, h, u, j);
    if t == u {
      assert WithinOk(previous, next, h, t);
      var n := TableTarget(previous, next, h, t).value;
      HintsApart(
        h.columns, ColumnItems(previous.tables[t].columns), ColumnItems(next.tables[n].columns), i, j);
    } else {
      assert t < u || u < t;
    }
  }

  lemma ColumnHintsInjective(previous: Schema, next: Schema, h: HintMaps)
    requires SchemaOk(previous) && SchemaOk(next) && HintsOk(previous, next, h) && FromPrevious(previous, h)
    ensures Injective(h.columns)
  {
    forall a, b | a in h.columns && b in h.columns && a != b
      ensures h.columns[a] != h.columns[b]
    {
      var t, i := ColumnPosition(previous, a);
      var u, j := ColumnPosition(previous, b);
      ColumnHintsApart(previous, next, h, t, i, u, j);
    }
  }

  lemma ColumnPosition(s: Schema, id: ColumnId) returns (t: nat, i: nat)
    requires id in ColumnIds(s)
    ensures t < |s.tables| && i < |s.tables[t].columns| && s.tables[t].columns[i].id == id
  {
    t, i :| t < |s.tables| && i < |s.tables[t].columns| && s.tables[t].columns[i].id == id;
  }

  lemma IndexHintLands(previous: Schema, next: Schema, h: HintMaps, t: nat, i: nat)
    requires SchemaOk(previous) && SchemaOk(next) && HintsOk(previous, next, h)
    requires t < |previous.tables| && i < |previous.tables[t].indices|
    requires previous.tables[t].indices[i].id in h.indices
    ensures TableTarget(previous, next, h, t) == Some(h.indices[previous.tables[t].indices[i].id].table)
  {
    assert WithinOk(previous, next, h, t);
    var n := TableTarget(previous, next, h, t).value;
    var p, q := IndexItems(previous.tables[t].indices), IndexItems(next.tables[n].indices);
    assert Target(h.indices, q, p[i]).Some?;
    var k :| 0 <= k < |q| && q[k].id == h.indices[previous.tables[t].indices[i].id];
    assert ItemsOk(next.tables[n], n);
  }

  lemma IndexHintsApart(previous: Schema, next: Schema, h: HintMaps, t: nat, i: nat, u: nat, j: nat)
    requires SchemaOk(previous) && SchemaOk(next) && HintsOk(previous, next, h)
    requires t < |previous.tables| && i < |previous.tables[t].indices|
    requires u < |previous.tables| && j < |previous.tables[u].indices|
    requires previous.tables[t].indices[i].id in h.indices && previous.tables[u].indices[j].id in h.indices
    requires t != u || i != j
    ensures h.indices[previous.tables[t].indices[i].id] != h.indices[previous.tables[u].indices[j].id]
  {
    IndexHintLands(previous, next, h, t, i);
    IndexHintLands(previous, next, h, u, j);
    if t == u {
      assert WithinOk(previous, next, h, t);
      var n := TableTarget(previous, next, h, t).value;
      HintsApart(
        h.indices, IndexItems(previous.tables[t].indices), IndexItems(next.tables[n].indices), i, j);
    } else {
      assert t < u || u < t;
    }
  }

  lemma IndexHintsInjective(previous: Schema, next: Schema, h: HintMaps)
    requires SchemaOk(previous) && SchemaOk(next) && HintsOk(previous, next, h) && FromPrevious(previous, h)
    ensures Injective(h.indices)
  {
    forall a, b | a in h.indices && b in h.indices && a != b
      ensures h.indices[a] != h.indices[b]
    {
      var t, i := IndexPosition(previous, a);
      var u, j := IndexPosition(previous, b);
      IndexHintsApart(previous, next, h, t, i, u, j);
    }
  }

  lemma IndexPosition(s: Schema, id: IndexId) returns (t: nat, i: nat)
    requires id in IndexIds(s)
    ensures t < |s.tables| && i < |s.tables[t].indices| && s.tables[t].indices[i].id == id
  {
    t, i :| t < |s.tables| && i < |s.tables[t].indices| && s.tables[t].indices[i].id == id;
  }
}
