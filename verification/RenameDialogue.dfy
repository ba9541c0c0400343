/** The rename-hint loop of `generate`: it ends whatever the user answers, and collects as hints exactly the
    renames that were answered. */
module RenameDialogue {
  import opened Wrappers
  import opened DbSchema
  import opened RenameMatching
  import opened RenameHints

  datatype Ignored = Ignored(tables: set<nat>, columns: set<ColumnId>, indices: set<IndexId>)

  /** Nothing left to ask about the columns and indices of a table that stays. */
  ghost predicate WithinSettled(previous: Schema, next: Schema, h: HintMaps, ignored: Ignored, t: nat)
    requires t < |previous.tables|
  {
    var p := previous.tables[t];
    match TableTarget(previous, next, h, t)
    case None => true
    case Some(n) =>
      n < |next.tables|
      && Settled(h.columns, ColumnItems(p.columns), ColumnItems(next.tables[n].columns), ignored.columns)
      && Settled(h.indices, IndexItems(p.indices), IndexItems(next.tables[n].indices), ignored.indices)
  }

  ghost predicate AllSettled(previous: Schema, next: Schema, h: HintMaps, ignored: Ignored) {
    && Settled(h.tables, TableItems(previous.tables), TableItems(next.tables), ignored.tables)
    && SettledUpTo(previous, next, h, ignored, |previous.tables|)
  }

  /** A rename was answered: one previous item fewer without a hint. */
  ghost predicate Hinted(previous: Schema, next: Schema, before: HintMaps, h: HintMaps) {
    && HintsOk(previous, next, h) && Unhinted(previous, h) < Unhinted(previous, before)
    && (FromPrevious(previous, before) ==> FromPrevious(previous, h))
  }

  ghost predicate SettledUpTo(previous: Schema, next: Schema, h: HintMaps, ignored: Ignored, n: nat)
    requires n <= |previous.tables|
  {
    forall t :: 0 <= t < n ==> WithinSettled(previous, next, h, ignored, t)
  }

  lemma SettledStays(previous: Schema, next: Schema, h: HintMaps, ignored: Ignored, more: Ignored, n: nat)
    requires n <= |previous.tables| && ignored.columns <= more.columns && ignored.indices <= more.indices
    requires SettledUpTo(previous, next, h, ignored, n)
    ensures SettledUpTo(previous, next, h, more, n)
  {
    forall u | 0 <= u < n
      ensures WithinSettled(previous, next, h, more, u)
    {
      assert WithinSettled(previous, next, h, ignored, u);
    }
  }

  lemma OneMoreSettled(previous: Schema, next: Schema, h: HintMaps, ignored: Ignored, more: Ignored, t: nat)
    requires t < |previous.tables| && ignored.columns <= more.columns && ignored.indices <= more.indices
    requires SettledUpTo(previous, next, h, ignored, t) && WithinSettled(previous, next, h, more, t)
    ensures SettledUpTo(previous, next, h, more, t + 1)
  {
    SettledStays(previous, next, h, ignored, more, t);
  }

  // ---- The dialogue ----

  /** The user, by the answer to each question. */
  datatype User = User(table: Answers<nat>, column: Answers<ColumnId>, index: Answers<IndexId>)

  /** A question and its answer; one about a column or an index belongs to a table. */
  datatype Asked =
    | OfTable(table: Question<nat>)
    | OfColumn(t: nat, column: Question<ColumnId>)
    | OfIndex(t: nat, index: Question<IndexId>)

  /** A rename adds its hint. */
  function Hinting(h: HintMaps, e: Asked): HintMaps {
    match e
    case OfTable(q) => if q.answer.Some? then h.(tables := h.tables[q.item := q.answer.value]) else h
    case OfColumn(_, q) => if q.answer.Some? then h.(columns := h.columns[q.item := q.answer.value]) else h
    case OfIndex(_, q) => if q.answer.Some? then h.(indices := h.indices[q.item := q.answer.value]) else h
  }

  /** A drop is not asked about again. */
  function Ignoring(ignored: Ignored, e: Asked): Ignored {
    match e
    case OfTable(q) => if q.answer.None? then ignored.(tables := ignored.tables + {q.item}) else ignored
    case OfColumn(_, q) => if q.answer.None? then ignored.(columns := ignored.columns + {q.item}) else ignored
    case OfIndex(_, q) => if q.answer.None? then ignored.(indices := ignored.indices + {q.item}) else ignored
  }

  function HintsAfter(log: seq<Asked>, n: nat): HintMaps
    requires n <= |log|
  {
    if n == 0 then HintMaps(map[], map[], map[]) else Hinting(HintsAfter(log, n - 1), log[n - 1])
  }

  function IgnoredAfter(log: seq<Asked>, n: nat): Ignored
    requires n <= |log|
  {
    if n == 0 then Ignored({}, {}, {}) else Ignoring(IgnoredAfter(log, n - 1), log[n - 1])
  }

  /** The tables come first, and then each table that stays in turn, its columns before its indices. */
  ghost predicate InTurn(previous: Schema, next: Schema, h: HintMaps, ignored: Ignored, t: nat, n: nat) {
    && Settled(h.tables, TableItems(previous.tables), TableItems(next.tables), ignored.tables)
    && t < |previous.tables| && SettledUpTo(previous, next, h, ignored, t)
    && TableTarget(previous, next, h, t) == Some(n) && n < |next.tables|
  }

  ghost predicate AskedRight(user: User, previous: Schema, next: Schema, h: HintMaps, ignored: Ignored, e: Asked) {
    match e
    case OfTable(q) =>
      QuestionRight(user.table, h.tables, TableItems(previous.tables), TableItems(next.tables), ignored.tables, q)
    case OfColumn(t, q) =>
      exists n: nat :: ColumnAskedRight(user, previous, next, h, ignored, t, n, q)
    case OfIndex(t, q) =>
      exists n: nat :: IndexAskedRight(user, previous, next, h, ignored, t, n, q)
  }

  ghost predicate ColumnAskedRight(
    user: User, previous: Schema, next: Schema, h: HintMaps, ignored: Ignored, t: nat, n: nat, q: Question<ColumnId>)
  {
    && InTurn(previous, next, h, ignored, t, n)
    && var (p, q') := (ColumnItems(previous.tables[t].columns), ColumnItems(next.tables[n].columns));
       QuestionRight(user.column, h.columns, p, q', ignored.columns, q)
  }

  ghost predicate IndexAskedRight(
    user: User, previous: Schema, next: Schema, h: HintMaps, ignored: Ignored, t: nat, n: nat, q: Question<IndexId>)
  {
    && InTurn(previous, next, h, ignored, t, n)
    && Settled(
         h.columns, ColumnItems(previous.tables[t].columns), ColumnItems(next.tables[n].columns), ignored.columns)
    && var (p, q') := (IndexItems(previous.tables[t].indices), IndexItems(next.tables[n].indices));
       QuestionRight(user.index, h.indices, p, q', ignored.indices, q)
  }

  ghost predicate AllAskedRight(user: User, previous: Schema, next: Schema, log: seq<Asked>) {
    forall k :: 0 <= k < |log| ==>
      AskedRight(user, previous, next, HintsAfter(log, k), IgnoredAfter(log, k), log[k])
  }

  /** The hints and the drops are those of the dialogue, in which every question was the next one to ask and
      has the user's answer. */
  ghost predicate Told(
    user: User, previous: Schema, next: Schema, log: seq<Asked>, h: HintMaps, ignored: Ignored)
  {
    && AllAskedRight(user, previous, next, log)
    && HintsAfter(log, |log|) == h && IgnoredAfter(log, |log|) == ignored
  }

  lemma {:induction false} AfterPrefix(log: seq<Asked>, e: Asked, n: nat)
    requires n <= |log|
    ensures HintsAfter(log + [e], n) == HintsAfter(log, n) && IgnoredAfter(log + [e], n) == IgnoredAfter(log, n)
  {
    if n > 0 {
      AfterPrefix(log, e, n - 1);
      assert (log + [e])[n - 1] == log[n - 1];
    }
  }

  lemma ToldMore(
    user: User, previous: Schema, next: Schema, log: seq<Asked>, h: HintMaps, ignored: Ignored, e: Asked)
    requires Told(user, previous, next, log, h, ignored) && AskedRight(user, previous, next, h, ignored, e)
    ensures Told(user, previous, next, log + [e], Hinting(h, e), Ignoring(ignored, e))
  {
    var all := log + [e];
    assert all[|log|] == e;
    AfterPrefix(log, e, |log|);
    forall k | 0 <= k < |all|
      ensures AskedRight(user, previous, next, HintsAfter(all, k), IgnoredAfter(all, k), all[k])
    {
      AfterPrefix(log, e, k);
      if k < |log| {
        assert all[k] == log[k];
      }
    }
  }

  /** A round's rename as a hint: it is what the last question was answered with. */
  function Renamed<I(==)>(hints: map<I, I>, asked: seq<Question<I>>, n: nat): map<I, I>
    requires n <= |asked|
  {
    if n > 0 && asked[n - 1].answer.Some? then hints[asked[n - 1].item := asked[n - 1].answer.value] else hints
  }

  lemma DropsNext<I>(asked: seq<Question<I>>, n: nat)
    requires n < |asked|
    ensures Drops(asked, n + 1) == Drops(asked, n) + if asked[n].answer == None then {asked[n].item} else {}
  {
  }

  lemma {:induction false} TablesTold(
    user: User, previous: Schema, next: Schema, log: seq<Asked>, h: HintMaps, ignored: Ignored,
    asked: seq<Question<nat>>, n: nat) returns (told: seq<Asked>)
    requires Told(user, previous, next, log, h, ignored) && n <= |asked|
    requires RoundRight(
      user.table, h.tables, TableItems(previous.tables), TableItems(next.tables), ignored.tables, asked)
    ensures Told(
      user, previous, next, told, h.(tables := Renamed(h.tables, asked, n)),
      ignored.(tables := ignored.tables + Drops(asked, n)))
  {
    if n == 0 {
      assert ignored.tables + Drops(asked, 0) == ignored.tables;
      told := log;
    } else {
      var k: nat := n - 1;
      var before := TablesTold(user, previous, next, log, h, ignored, asked, k);
      var mid := ignored.(tables := ignored.tables + Drops(asked, k));
      DropsNext(asked, k);
      ToldMore(user, previous, next, before, h, mid, OfTable(asked[k]));
      assert Ignoring(mid, OfTable(asked[k])).tables == ignored.tables + Drops(asked, n);
      told := before + [OfTable(asked[k])];
    }
  }

  /** The questions about a table's columns, and its indices, keep the turn. */
  lemma InTurnStill(
    previous: Schema, next: Schema, h: HintMaps, ignored: Ignored, more: Ignored, t: nat, n: nat)
    requires InTurn(previous, next, h, ignored, t, n) && more.tables == ignored.tables
    requires ignored.columns <= more.columns && ignored.indices <= more.indices
    ensures InTurn(previous, next, h, more, t, n)
  {
    SettledStays(previous, next, h, ignored, more, t);
  }

  lemma ColumnTold(
    user: User, previous: Schema, next: Schema, log: seq<Asked>, h: HintMaps, ignored: Ignored, t: nat, m: nat,
    q: Question<ColumnId>)
    requires Told(user, previous, next, log, h, ignored)
    requires ColumnAskedRight(user, previous, next, h, ignored, t, m, q)
    ensures Told(
      user, previous, next, log + [OfColumn(t, q)], Hinting(h, OfColumn(t, q)), Ignoring(ignored, OfColumn(t, q)))
  {
    ToldMore(user, previous, next, log, h, ignored, OfColumn(t, q));
  }

  lemma IndexTold(
    user: User, previous: Schema, next: Schema, log: seq<Asked>, h: HintMaps, ignored: Ignored, t: nat, m: nat,
    q: Question<IndexId>)
    requires Told(user, previous, next, log, h, ignored)
    requires IndexAskedRight(user, previous, next, h, ignored, t, m, q)
    ensures Told(
      user, previous, next, log + [OfIndex(t, q)], Hinting(h, OfIndex(t, q)), Ignoring(ignored, OfIndex(t, q)))
  {
    ToldMore(user, previous, next, log, h, ignored, OfIndex(t, q));
  }

  lemma {:induction false} ColumnsTold(
    user: User, previous: Schema, next: Schema, log: seq<Asked>, h: HintMaps, ignored: Ignored, t: nat, m: nat,
    asked: seq<Question<ColumnId>>, n: nat) returns (told: seq<Asked>)
    requires Told(user, previous, next, log, h, ignored) && n <= |asked|
    requires InTurn(previous, next, h, ignored, t, m)
    requires RoundRight(
      user.column, h.columns, ColumnItems(previous.tables[t].columns), ColumnItems(next.tables[m].columns),
      ignored.columns, asked)
    ensures Told(
      user, previous, next, told, h.(columns := Renamed(h.columns, asked, n)),
      ignored.(columns := ignored.columns + Drops(asked, n)))
  {
    if n == 0 {
      assert ignored.columns + Drops(asked, 0) == ignored.columns;
      told := log;
    } else {
      var k: nat := n - 1;
      var before := ColumnsTold(user, previous, next, log, h, ignored, t, m, asked, k);
      told := NextColumnTold(user, previous, next, before, h, ignored, t, m, asked, k);
    }
  }

  lemma NextColumnTold(
    user: User, previous: Schema, next: Schema, log: seq<Asked>, h: HintMaps, ignored: Ignored, t: nat, m: nat,
    asked: seq<Question<ColumnId>>, k: nat) returns (told: seq<Asked>)
    requires k < |asked| && InTurn(previous, next, h, ignored, t, m)
    requires RoundRight(
      user.column, h.columns, ColumnItems(previous.tables[t].columns), ColumnItems(next.tables[m].columns),
      ignored.columns, asked)
    requires Told(
      user, previous, next, log, h.(columns := Renamed(h.columns, asked, k)),
      ignored.(columns := ignored.columns + Drops(asked, k)))
    ensures Told(
      user, previous, next, told, h.(columns := Renamed(h.columns, asked, k + 1)),
      ignored.(columns := ignored.columns + Drops(asked, k + 1)))
  {
    var mid := ignored.(columns := ignored.columns + Drops(asked, k));
    DropsNext(asked, k);
    InTurnStill(previous, next, h, ignored, mid, t, m);
    ColumnTold(user, previous, next, log, h, mid, t, m, asked[k]);
    assert Ignoring(mid, OfColumn(t, asked[k])).columns == ignored.columns + Drops(asked, k + 1);
    told := log + [OfColumn(t, asked[k])];
  }

  lemma {:induction false} IndicesTold(
    user: User, previous: Schema, next: Schema, log: seq<Asked>, h: HintMaps, ignored: Ignored, t: nat, m: nat,
    asked: seq<Question<IndexId>>, n: nat) returns (told: seq<Asked>)
    requires Told(user, previous, next, log, h, ignored) && n <= |asked|
    requires InTurn(previous, next, h, ignored, t, m)
    requires Settled(
      h.columns, ColumnItems(previous.tables[t].columns), ColumnItems(next.tables[m].columns), ignored.columns)
    requires RoundRight(
      user.index, h.indices, IndexItems(previous.tables[t].indices), IndexItems(next.tables[m].indices),
      ignored.indices, asked)
    ensures Told(
      user, previous, next, told, h.(indices := Renamed(h.indices, asked, n)),
      ignored.(indices := ignored.indices + Drops(asked, n)))
  {
    if n == 0 {
      assert ignored.indices + Drops(asked, 0) == ignored.indices;
      told := log;
    } else {
      var k: nat := n - 1;
      var before := IndicesTold(user, previous, next, log, h, ignored, t, m, asked, k);
      told := NextIndexTold(user, previous, next, before, h, ignored, t, m, asked, k);
    }
  }

  lemma NextIndexTold(
    user: User, previous: Schema, next: Schema, log: seq<Asked>, h: HintMaps, ignored: Ignored, t: nat, m: nat,
    asked: seq<Question<IndexId>>, k: nat) returns (told: seq<Asked>)
    requires k < |asked| && InTurn(previous, next, h, ignored, t, m)
    requires Settled(
      h.columns, ColumnItems(previous.tables[t].columns), ColumnItems(next.tables[m].columns), ignored.columns)
    requires RoundRight(
      user.index, h.indices, IndexItems(previous.tables[t].indices), IndexItems(next.tables[m].indices),
      ignored.indices, asked)
    requires Told(
      user, previous, next, log, h.(indices := Renamed(h.indices, asked, k)),
      ignored.(indices := ignored.indices + Drops(asked, k)))
    ensures Told(
      user, previous, next, told, h.(indices := Renamed(h.indices, asked, k + 1)),
      ignored.(indices := ignored.indices + Drops(asked, k + 1)))
  {
    var mid := ignored.(indices := ignored.indices + Drops(asked, k));
    DropsNext(asked, k);
    InTurnStill(previous, next, h, ignored, mid, t, m);
    IndexTold(user, previous, next, log, h, mid, t, m, asked[k]);
    assert Ignoring(mid, OfIndex(t, asked[k])).indices == ignored.indices + Drops(asked, k + 1);
    told := log + [OfIndex(t, asked[k])];
  }

  // ---- The rounds ----

  /** A round over tables that ends with a rename leaves one item fewer without a hint. */
  lemma TableRenamed(
    user: User, previous: Schema, next: Schema, h: HintMaps, ignored: set<nat>, asked: seq<Question<nat>>)
    requires SchemaOk(previous) && SchemaOk(next) && HintsOk(previous, next, h) && RenameOf(asked).Some?
    requires RoundRight(user.table, h.tables, TableItems(previous.tables), TableItems(next.tables), ignored, asked)
    ensures Hinted(previous, next, h, h.(tables := Renamed(h.tables, asked, |asked|)))
  {
    var k: nat := |asked| - 1;
    var d := RenameFounded(
      user.table, h.tables, TableItems(previous.tables), TableItems(next.tables), ignored + Drops(asked, k), asked[k]);
    assert ItemsOk(previous.tables[d], d);
    TableHintOk(previous, next, h, d, asked[k].answer.value);
    OneLess(TableIds(previous), h.tables, asked[k].item, asked[k].answer.value);
  }

  lemma ColumnRenamed(
    user: User, previous: Schema, next: Schema, h: HintMaps, t: nat, n: nat, ignored: set<ColumnId>,
    asked: seq<Question<ColumnId>>)
    requires SchemaOk(previous) && HintsOk(previous, next, h) && RenameOf(asked).Some?
    requires t < |previous.tables| && TableTarget(previous, next, h, t) == Some(n) && n < |next.tables|
    requires RoundRight(
      user.column, h.columns, ColumnItems(previous.tables[t].columns), ColumnItems(next.tables[n].columns), ignored,
      asked)
    ensures Hinted(previous, next, h, h.(columns := Renamed(h.columns, asked, |asked|)))
  {
    var k: nat := |asked| - 1;
    var d := RenameFounded(
      user.column, h.columns, ColumnItems(previous.tables[t].columns), ColumnItems(next.tables[n].columns),
      ignored + Drops(asked, k), asked[k]);
    ColumnHintOk(previous, next, h, t, n, d, asked[k].answer.value);
    OneLess(ColumnIds(previous), h.columns, asked[k].item, asked[k].answer.value);
  }

  lemma IndexRenamed(
    user: User, previous: Schema, next: Schema, h: HintMaps, t: nat, n: nat, ignored: set<IndexId>,
    asked: seq<Question<IndexId>>)
    requires SchemaOk(previous) && HintsOk(previous, next, h) && RenameOf(asked).Some?
    requires t < |previous.tables| && TableTarget(previous, next, h, t) == Some(n) && n < |next.tables|
    requires RoundRight(
      user.index, h.indices, IndexItems(previous.tables[t].indices), IndexItems(next.tables[n].indices), ignored,
      asked)
    ensures Hinted(previous, next, h, h.(indices := Renamed(h.indices, asked, |asked|)))
  {
    var k: nat := |asked| - 1;
    var d := RenameFounded(
      user.index, h.indices, IndexItems(previous.tables[t].indices), IndexItems(next.tables[n].indices),
      ignored + Drops(asked, k), asked[k]);
    IndexHintOk(previous, next, h, t, n, d, asked[k].answer.value);
    OneLess(IndexIds(previous), h.indices, asked[k].item, asked[k].answer.value);
  }

  method AskColumns(
      user: User, previous: Schema, next: Schema, hints: Hints, t: nat, n: nat, ignored: set<ColumnId>,
      ghost log: seq<Asked>, ghost all: Ignored)
      returns (renamed: bool, settled: set<ColumnId>, ghost told: seq<Asked>)
    requires SchemaOk(previous) && HintsOk(previous, next, hints.Maps())
    requires Told(user, previous, next, log, hints.Maps(), all) && all.columns == ignored
    requires InTurn(previous, next, hints.Maps(), all, t, n)
    modifies hints
    ensures renamed ==> Hinted(previous, next, old(hints.Maps()), hints.Maps())
    ensures !renamed ==> hints.Maps() == old(hints.Maps())
    ensures ignored <= settled && Told(user, previous, next, told, hints.Maps(), all.(columns := settled))
    ensures !renamed ==>
      Settled(hints.columns, ColumnItems(previous.tables[t].columns), ColumnItems(next.tables[n].columns), settled)
  {
    ghost var h := hints.Maps();
    var p, q := ColumnItems(previous.tables[t].columns), ColumnItems(next.tables[n].columns);
    assert ItemsOk(previous.tables[t], t);
    var rename;
    ghost var asked;
    rename, settled, asked := Ask(user.column, hints.columns, p, q, ignored);
    renamed := rename.Some?;
    told := ColumnsTold(user, previous, next, log, h, all, t, n, asked, |asked|);
    if renamed {
      var (item, to) := rename.value;
      hints.AddColumnHint(item, to);
      ColumnRenamed(user, previous, next, h, t, n, ignored, asked);
    }
  }

  method AskIndices(
      user: User, previous: Schema, next: Schema, hints: Hints, t: nat, n: nat, ignored: set<IndexId>,
      ghost log: seq<Asked>, ghost all: Ignored)
      returns (renamed: bool, settled: set<IndexId>, ghost told: seq<Asked>)
    requires SchemaOk(previous) && HintsOk(previous, next, hints.Maps())
    requires Told(user, previous, next, log, hints.Maps(), all) && all.indices == ignored
    requires InTurn(previous, next, hints.Maps(), all, t, n)
    requires Settled(
      hints.columns, ColumnItems(previous.tables[t].columns), ColumnItems(next.tables[n].columns), all.columns)
    modifies hints
    ensures renamed ==> Hinted(previous, next, old(hints.Maps()), hints.Maps())
    ensures !renamed ==> hints.Maps() == old(hints.Maps())
    ensures ignored <= settled && Told(user, previous, next, told, hints.Maps(), all.(indices := settled))
    ensures !renamed ==>
      Settled(hints.indices, IndexItems(previous.tables[t].indices), IndexItems(next.tables[n].indices), settled)
  {
    ghost var h := hints.Maps();
    var p, q := IndexItems(previous.tables[t].indices), IndexItems(next.tables[n].indices);
    assert ItemsOk(previous.tables[t], t);
    var rename;
    ghost var asked;
    rename, settled, asked := Ask(user.index, hints.indices, p, q, ignored);
    renamed := rename.Some?;
    told := IndicesTold(user, previous, next, log, h, all, t, n, asked, |asked|);
    if renamed {
      var (item, to) := rename.value;
      hints.AddIndexHint(item, to);
      IndexRenamed(user, previous, next, h, t, n, ignored, asked);
    }
  }

  method AskTables(
      user: User, previous: Schema, next: Schema, hints: Hints, ignored: set<nat>, ghost log: seq<Asked>,
      ghost all: Ignored)
      returns (renamed: bool, settled: set<nat>, ghost told: seq<Asked>)
    requires SchemaOk(previous) && SchemaOk(next) && HintsOk(previous, next, hints.Maps())
    requires Told(user, previous, next, log, hints.Maps(), all) && all.tables == ignored
    modifies hints
    ensures renamed ==> Hinted(previous, next, old(hints.Maps()), hints.Maps())
    ensures !renamed ==> hints.Maps() == old(hints.Maps())
    ensures ignored <= settled && Told(user, previous, next, told, hints.Maps(), all.(tables := settled))
    ensures !renamed ==>
      Settled(hints.tables, TableItems(previous.tables), TableItems(next.tables), settled)
  {
    ghost var h := hints.Maps();
    var p, q := TableItems(previous.tables), TableItems(next.tables);
    var rename;
    ghost var asked;
    rename, settled, asked := Ask(user.table, hints.tables, p, q, ignored);
    renamed := rename.Some?;
    told := TablesTold(user, previous, next, log, h, all, asked, |asked|);
    if renamed {
      var (item, to) := rename.value;
      hints.AddTableHint(item, to);
      TableRenamed(user, previous, next, h, ignored, asked);
    }
  }

  /** The columns of one table that stays, then its indices; ends at the first rename. */
  method AskTable(
      user: User, previous: Schema, next: Schema, hints: Hints, t: nat, columns: set<ColumnId>,
      indices: set<IndexId>, ghost log: seq<Asked>, ghost tables: set<nat>)
      returns (renamed: bool, ignoredColumns: set<ColumnId>, ignoredIndices: set<IndexId>, ghost told: seq<Asked>)
    requires SchemaOk(previous) && HintsOk(previous, next, hints.Maps()) && t < |previous.tables|
    requires Told(user, previous, next, log, hints.Maps(), Ignored(tables, columns, indices))
    requires Settled(hints.tables, TableItems(previous.tables), TableItems(next.tables), tables)
    requires SettledUpTo(previous, next, hints.Maps(), Ignored(tables, columns, indices), t)
    modifies hints
    ensures renamed ==> Hinted(previous, next, old(hints.Maps()), hints.Maps())
    ensures !renamed ==> hints.Maps() == old(hints.Maps())
    ensures columns <= ignoredColumns && indices <= ignoredIndices
    ensures Told(user, previous, next, told, hints.Maps(), Ignored(tables, ignoredColumns, ignoredIndices))
    ensures !renamed ==>
      SettledUpTo(previous, next, hints.Maps(), Ignored(tables, ignoredColumns, ignoredIndices), t + 1)
  {
    ignoredColumns, ignoredIndices, renamed, told := columns, indices, false, log;
    ghost var h, all := hints.Maps(), Ignored(tables, columns, indices);
    assert WithinOk(previous, next, h, t);
    var target := Target(hints.tables, TableItems(next.tables), TableItems(previous.tables)[t]);
    if target.Some? {
      renamed, ignoredColumns, told :=
        AskColumns(user, previous, next, hints, t, target.value, ignoredColumns, told, all);
      if !renamed {
        InTurnStill(previous, next, h, all, all.(columns := ignoredColumns), t, target.value);
        renamed, ignoredIndices, told := AskIndices(
          user, previous, next, hints, t, target.value, ignoredIndices, told, all.(columns := ignoredColumns));
      }
    }
    if !renamed {
      OneMoreSettled(previous, next, h, all, Ignored(tables, ignoredColumns, ignoredIndices), t);
    }
  }

  /** One pass over the tables that stay; ends at the first rename. */
  method AskWithin(
      user: User, previous: Schema, next: Schema, hints: Hints, columns: set<ColumnId>, indices: set<IndexId>,
      ghost log: seq<Asked>, ghost tables: set<nat>)
      returns (renamed: bool, ignoredColumns: set<ColumnId>, ignoredIndices: set<IndexId>, ghost told: seq<Asked>)
    requires SchemaOk(previous) && HintsOk(previous, next, hints.Maps())
    requires Told(user, previous, next, log, hints.Maps(), Ignored(tables, columns, indices))
    requires Settled(hints.tables, TableItems(previous.tables), TableItems(next.tables), tables)
    modifies hints
    ensures renamed ==> Hinted(previous, next, old(hints.Maps()), hints.Maps())
    ensures !renamed ==> hints.Maps() == old(hints.Maps())
    ensures Told(user, previous, next, told, hints.Maps(), Ignored(tables, ignoredColumns, ignoredIndices))
    ensures !renamed ==> SettledUpTo(
      previous, next, hints.Maps(), Ignored(tables, ignoredColumns, ignoredIndices), |previous.tables|)
  {
    ignoredColumns, ignoredIndices, told := columns, indices, log;
    renamed := false;
    for t := 0 to |previous.tables|
      invariant hints.Maps() == old(hints.Maps()) && !renamed
      invariant Told(user, previous, next, told, hints.Maps(), Ignored(tables, ignoredColumns, ignoredIndices))
      invariant SettledUpTo(previous, next, hints.Maps(), Ignored(tables, ignoredColumns, ignoredIndices), t)
    {
      renamed, ignoredColumns, ignoredIndices, told :=
        AskTable(user, previous, next, hints, t, ignoredColumns, ignoredIndices, told, tables);
      if renamed {
        return;
      }
    }
  }

  /** Asks until a whole round brings no rename. Whatever the answers, that happens; the hints are then the
      renames that were answered, they pair items one to one, and nothing is left to ask. */
  method CollectRenameHints(user: User, previous: Schema, next: Schema)
      returns (hints: Hints, ghost log: seq<Asked>, ghost ignored: Ignored)
    requires SchemaOk(previous) && SchemaOk(next)
    ensures fresh(hints)
    ensures Told(user, previous, next, log, hints.Maps(), ignored)
    ensures HintsOk(previous, next, hints.Maps()) && FromPrevious(previous, hints.Maps())
    ensures Injective(hints.tables) && Injective(hints.columns) && Injective(hints.indices)
    ensures AllSettled(previous, next, hints.Maps(), ignored)
  {
    hints := new Hints();
    NoHintsOk(previous, next);
    var ignoredTables: set<nat>, ignoredColumns: set<ColumnId>, ignoredIndices: set<IndexId> := {}, {}, {};
    log, ignored := [], Ignored({}, {}, {});
    while true
      invariant fresh(hints) && HintsOk(previous, next, hints.Maps()) && FromPrevious(previous, hints.Maps())
      invariant ignored == Ignored(ignoredTables, ignoredColumns, ignoredIndices)
      invariant Told(user, previous, next, log, hints.Maps(), ignored)
      decreases Unhinted(previous, hints.Maps())
    {
      var renamed;
      renamed, ignoredTables, log := AskTables(user, previous, next, hints, ignoredTables, log, ignored);
      ignored := ignored.(tables := ignoredTables);
      if renamed {
        continue;
      }
      renamed, ignoredColumns, ignoredIndices, log :=
        AskWithin(user, previous, next, hints, ignoredColumns, ignoredIndices, log, ignoredTables);
      ignored := Ignored(ignoredTables, ignoredColumns, ignoredIndices);
      if !renamed {
        break;
      }
    }
    TableHintsInjective(previous, next, hints.Maps());
    ColumnHintsInjective(previous, next, hints.Maps());
    IndexHintsInjective(previous, next, hints.Maps());
  }

  // ---- Questions and hints ----

  predicate TableAnswered(log: seq<Asked>, n: nat, q: Question<nat>)
    requires n <= |log|
  {
    exists k :: 0 <= k < n && log[k].OfTable? && log[k].table == q
  }

  predicate ColumnAnswered(log: seq<Asked>, n: nat, q: Question<ColumnId>)
    requires n <= |log|
  {
    exists k :: 0 <= k < n && log[k].OfColumn? && log[k].column == q
  }

  predicate IndexAnswered(log: seq<Asked>, n: nat, q: Question<IndexId>)
    requires n <= |log|
  {
    exists k :: 0 <= k < n && log[k].OfIndex? && log[k].index == q
  }

  predicate AsksOpen(h: HintMaps, ignored: Ignored, e: Asked) {
    match e
    case OfTable(q) => q.item !in h.tables && q.item !in ignored.tables
    case OfColumn(_, q) => q.item !in h.columns && q.item !in ignored.columns
    case OfIndex(_, q) => q.item !in h.indices && q.item !in ignored.indices
  }

  /** What is asked about has no hint and is not ignored. */
  predicate AllOpen(log: seq<Asked>) {
    forall k :: 0 <= k < |log| ==> AsksOpen(HintsAfter(log, k), IgnoredAfter(log, k), log[k])
  }

  lemma AskedIsOpen(user: User, previous: Schema, next: Schema, log: seq<Asked>)
    requires AllAskedRight(user, previous, next, log)
    ensures AllOpen(log)
  {
    forall k | 0 <= k < |log|
      ensures AsksOpen(HintsAfter(log, k), IgnoredAfter(log, k), log[k])
    {
      var h, ignored := HintsAfter(log, k), IgnoredAfter(log, k);
      assert AskedRight(user, previous, next, h, ignored, log[k]);
      match log[k]
      case OfTable(q) =>
      case OfColumn(t, q) => var n: nat :| ColumnAskedRight(user, previous, next, h, ignored, t, n, q);
      case OfIndex(t, q) => var n: nat :| IndexAskedRight(user, previous, next, h, ignored, t, n, q);
    }
  }

  /** After the first `n` answers the hint of an item is the rename answered for it, if any, and it is ignored
      if it was to be dropped. */
  lemma {:induction false} TableAnswersKept(log: seq<Asked>, n: nat, id: nat, to: nat)
    requires AllOpen(log) && n <= |log|
    ensures HintsTo(HintsAfter(log, n).tables, id, to) <==> TableAnswered(log, n, Question(id, Some(to)))
    ensures id in IgnoredAfter(log, n).tables <==> TableAnswered(log, n, Question(id, None))
  {
    if n > 0 {
      var k: nat := n - 1;
      TableAnswersKept(log, k, id, to);
      assert AsksOpen(HintsAfter(log, k), IgnoredAfter(log, k), log[k]);
      TableAnswersNext(log, k, Question(id, Some(to)));
      TableAnswersNext(log, k, Question(id, None));
    }
  }

  predicate HintsTo<I(==)>(hints: map<I, I>, id: I, to: I) {
    id in hints && hints[id] == to
  }

  lemma TableAnswersNext(log: seq<Asked>, k: nat, q: Question<nat>)
    requires k < |log|
    ensures TableAnswered(log, k + 1, q) <==> TableAnswered(log, k, q) || (log[k].OfTable? && log[k].table == q)
  {
  }

  lemma {:induction false} ColumnAnswersKept(log: seq<Asked>, n: nat, id: ColumnId, to: ColumnId)
    requires AllOpen(log) && n <= |log|
    ensures HintsTo(HintsAfter(log, n).columns, id, to) <==> ColumnAnswered(log, n, Question(id, Some(to)))
    ensures id in IgnoredAfter(log, n).columns <==> ColumnAnswered(log, n, Question(id, None))
  {
    if n > 0 {
      var k: nat := n - 1;
      ColumnAnswersKept(log, k, id, to);
      assert AsksOpen(HintsAfter(log, k), IgnoredAfter(log, k), log[k]);
      ColumnAnswersNext(log, k, Question(id, Some(to)));
      ColumnAnswersNext(log, k, Question(id, None));
    }
  }

  lemma ColumnAnswersNext(log: seq<Asked>, k: nat, q: Question<ColumnId>)
    requires k < |log|
    ensures ColumnAnswered(log, k + 1, q) <==> ColumnAnswered(log, k, q) || (log[k].OfColumn? && log[k].column == q)
  {
  }

  lemma {:induction false} IndexAnswersKept(log: seq<Asked>, n: nat, id: IndexId, to: IndexId)
    requires AllOpen(log) && n <= |log|
    ensures HintsTo(HintsAfter(log, n).indices, id, to) <==> IndexAnswered(log, n, Question(id, Some(to)))
    ensures id in IgnoredAfter(log, n).indices <==> IndexAnswered(log, n, Question(id, None))
  {
    if n > 0 {
      var k: nat := n - 1;
      IndexAnswersKept(log, k, id, to);
      assert AsksOpen(HintsAfter(log, k), IgnoredAfter(log, k), log[k]);
      IndexAnswersNext(log, k, Question(id, Some(to)));
      IndexAnswersNext(log, k, Question(id, None));
    }
  }

  lemma IndexAnswersNext(log: seq<Asked>, k: nat, q: Question<IndexId>)
    requires k < |log|
    ensures IndexAnswered(log, k + 1, q) <==> IndexAnswered(log, k, q) || (log[k].OfIndex? && log[k].index == q)
  {
  }

  /** The hints collected are exactly the renames that were answered: table, column and index alike. */
  lemma HintsAreAnswers(
    user: User, previous: Schema, next: Schema, log: seq<Asked>, h: HintMaps, ignored: Ignored,
    table: (nat, nat), column: (ColumnId, ColumnId), index: (IndexId, IndexId))
    requires Told(user, previous, next, log, h, ignored)
    ensures HintsTo(h.tables, table.0, table.1) <==> TableAnswered(log, |log|, Question(table.0, Some(table.1)))
    ensures HintsTo(h.columns, column.0, column.1)
       <==> ColumnAnswered(log, |log|, Question(column.0, Some(column.1)))
    ensures HintsTo(h.indices, index.0, index.1) <==> IndexAnswered(log, |log|, Question(index.0, Some(index.1)))
  {
    AskedIsOpen(user, previous, next, log);
    TableAnswersKept(log, |log|, table.0, table.1);
    ColumnAnswersKept(log, |log|, column.0, column.1);
    IndexAnswersKept(log, |log|, index.0, index.1);
  }

  predicate SameSubject(a: Asked, b: Asked) {
    || (a.OfTable? && b.OfTable? && a.table.item == b.table.item)
    || (a.OfColumn? && b.OfColumn? && a.column.item == b.column.item)
    || (a.OfIndex? && b.OfIndex? && a.index.item == b.index.item)
  }

  /** Nothing is asked about twice. */
  lemma AskedOnce(user: User, previous: Schema, next: Schema, log: seq<Asked>, j: nat, k: nat)
    requires AllAskedRight(user, previous, next, log) && j < k < |log|
    ensures !SameSubject(log[j], log[k])
  {
    AskedIsOpen(user, previous, next, log);
    assert AsksOpen(HintsAfter(log, k), IgnoredAfter(log, k), log[k]);
    match log[j]
    case OfTable(q) => TableAnswersKept(log, k, q.item, q.answer.UnwrapOr(q.item));
    case OfColumn(_, q) => ColumnAnswersKept(log, k, q.item, q.answer.UnwrapOr(q.item));
    case OfIndex(_, q) => IndexAnswersKept(log, k, q.item, q.answer.UnwrapOr(q.item));
  }
}
