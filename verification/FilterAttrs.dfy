/** The placeholder allocator of filter expressions: `#col_i`, `#doc_n` and `:v_n`. */
module FilterAttrs {
  import Decimal
  import opened DynamoValue

  type ColumnKey = (nat, nat)

  datatype Placeholder = ColumnAlias(index: nat) | SegmentAlias(n: nat) | ValueAlias(n: nat) {
    /** What is written into the expression. */
    function Text(): string {
      match this
      case ColumnAlias(index) => "#col_" + Decimal.OfNat(index)
      case SegmentAlias(n) => "#doc_" + Decimal.OfNat(n)
      case ValueAlias(n) => ":v_" + Decimal.OfNat(n)
    }
  }

  /** No two placeholders are written alike. */
  lemma TextsDiffer(p: Placeholder, q: Placeholder)
    requires p.Text() == q.Text()
    ensures p == q
  {
    assert p.Text()[0] == (if p.ValueAlias? then ':' else '#');
    assert q.Text()[0] == (if q.ValueAlias? then ':' else '#');
    assert p.ColumnAlias? ==> p.Text()[1] == 'c' && p.Text()[5..] == Decimal.OfNat(p.index);
    assert p.SegmentAlias? ==> p.Text()[1] == 'd' && p.Text()[5..] == Decimal.OfNat(p.n);
    assert p.ValueAlias? ==> p.Text()[3..] == Decimal.OfNat(p.n);
    assert q.ColumnAlias? ==> q.Text()[1] == 'c' && q.Text()[5..] == Decimal.OfNat(q.index);
    assert q.SegmentAlias? ==> q.Text()[1] == 'd' && q.Text()[5..] == Decimal.OfNat(q.n);
    assert q.ValueAlias? ==> q.Text()[3..] == Decimal.OfNat(q.n);
    Decimal.OfNatInjective(
      if p.ColumnAlias? then p.index else p.n, if q.ColumnAlias? then q.index else q.n);
  }

  /** The four tables of the allocator. */
  datatype Attrs = Attrs(
    columns: map<ColumnKey, Placeholder>, segments: map<string, Placeholder>,
    names: map<Placeholder, string>, values: map<Placeholder, Attr>)

  const NoAttrs := Attrs(map[], map[], map[], map[])

  // ---- The requests, as functions ----

  function AddColumn(a: Attrs, key: ColumnKey, name: string): Attrs {
    if key in a.columns then a
    else
      var placeholder := ColumnAlias(key.1);
      a.(columns := a.columns[key := placeholder], names := a.names[placeholder := name])
  }

  function AddSegment(a: Attrs, name: string): Attrs {
    if name in a.segments then a
    else
      var placeholder := SegmentAlias(|a.names|);
      a.(segments := a.segments[name := placeholder], names := a.names[placeholder := name])
  }

  function AddValue(a: Attrs, value: Attr): Attrs {
    a.(values := a.values[ValueAlias(|a.values|) := value])
  }

  /** The allocator's state, updated in place. */
  class ExprAttrs {
    var columns: map<ColumnKey, Placeholder>
    var segments: map<string, Placeholder>
    var names: map<Placeholder, string>
    var values: map<Placeholder, Attr>

    constructor ()
      ensures State() == NoAttrs
    {
      columns, segments, names, values := map[], map[], map[], map[];
    }

    function State(): Attrs
      reads this
    {
      Attrs(columns, segments, names, values)
    }

    method Column(key: ColumnKey, name: string) returns (placeholder: Placeholder)
      modifies this
      ensures State() == AddColumn(old(State()), key, name)
      ensures key in columns && placeholder == columns[key]
    {
      if key !in columns {
        var alias := ColumnAlias(key.1);
        names := names[alias := name];
        columns := columns[key := alias];
      }
      placeholder := columns[key];
    }

    method DocumentSegment(name: string) returns (placeholder: Placeholder)
      modifies this
      ensures State() == AddSegment(old(State()), name)
      ensures name in segments && placeholder == segments[name]
    {
      if name !in segments {
        var alias := SegmentAlias(|names|);
        names := names[alias := name];
        segments := segments[name := alias];
      }
      placeholder := segments[name];
    }

    method DdbValue(value: Attr) returns (placeholder: Placeholder)
      modifies this
      ensures State() == AddValue(old(State()), value)
      ensures placeholder == ValueAlias(|old(values)|)
    {
      placeholder := ValueAlias(|values|);
      values := values[placeholder := value];
    }
  }

  // ---- What every request keeps ----

  /** A table and the names of its columns: what column references resolve against. */
  datatype TableColumns = TableColumns(table: nat, names: seq<string>)

  predicate ColumnsOk(cx: TableColumns, a: Attrs) {
    forall key <- a.columns ::
      && key.0 == cx.table && key.1 < |cx.names|
      && a.columns[key] == ColumnAlias(key.1)
      && a.columns[key] in a.names && a.names[a.columns[key]] == cx.names[key.1]
  }

  predicate SegmentsOk(a: Attrs) {
    forall name <- a.segments ::
      && a.segments[name].SegmentAlias?
      && a.segments[name] in a.names && a.names[a.segments[name]] == name
  }

  /** Placeholders not yet handed out are unused, and names are those of columns or segments. */
  ghost predicate FreshOk(cx: TableColumns, a: Attrs) {
    && (forall n: nat :: n >= |a.names| ==> SegmentAlias(n) !in a.names)
    && (forall n: nat :: ColumnAlias(n) in a.names ==> (cx.table, n) in a.columns)
    && (forall n: nat :: n >= |a.values| ==> ValueAlias(n) !in a.values)
  }

  ghost predicate AttrsOk(cx: TableColumns, a: Attrs) {
    ColumnsOk(cx, a) && SegmentsOk(a) && FreshOk(cx, a)
  }

  /** Everything handed out in `a` still stands in `b`. */
  ghost predicate Extends(a: Attrs, b: Attrs) {
    && a.columns.Items <= b.columns.Items
    && a.segments.Items <= b.segments.Items
    && a.names.Items <= b.names.Items
    && a.values.Items <= b.values.Items
  }

  lemma StillThere<K, V>(m: map<K, V>, n: map<K, V>, k: K)
    requires m.Items <= n.Items && k in m
    ensures k in n && n[k] == m[k]
  {
    assert (k, m[k]) in m.Items;
  }

  lemma Added<K, V>(m: map<K, V>, k: K, v: V)
    requires k !in m
    ensures m.Items <= m[k := v].Items
  {
  }

  lemma AddColumnKeeps(cx: TableColumns, a: Attrs, index: nat)
    requires AttrsOk(cx, a) && index < |cx.names|
    ensures
      var b := AddColumn(a, (cx.table, index), cx.names[index]);
      && AttrsOk(cx, b) && Extends(a, b)
      && (cx.table, index) in b.columns && b.columns[(cx.table, index)] == ColumnAlias(index)
      && ColumnAlias(index) in b.names && b.names[ColumnAlias(index)] == cx.names[index]
  {
    if (cx.table, index) !in a.columns {
      Added(a.columns, (cx.table, index), ColumnAlias(index));
      Added(a.names, ColumnAlias(index), cx.names[index]);
    }
  }

  lemma AddSegmentKeeps(cx: TableColumns, a: Attrs, name: string)
    requires AttrsOk(cx, a)
    ensures
      var b := AddSegment(a, name);
      && AttrsOk(cx, b) && Extends(a, b)
      && name in b.segments && b.segments[name] in b.names && b.names[b.segments[name]] == name
  {
    if name !in a.segments {
      Added(a.segments, name, SegmentAlias(|a.names|));
      Added(a.names, SegmentAlias(|a.names|), name);
    }
  }

  lemma AddValueKeeps(cx: TableColumns, a: Attrs, value: Attr)
    requires AttrsOk(cx, a)
    ensures
      var b := AddValue(a, value);
      && AttrsOk(cx, b) && Extends(a, b)
      && ValueAlias(|a.values|) !in a.values
      && ValueAlias(|a.values|) in b.values && b.values[ValueAlias(|a.values|)] == value
  {
    Added(a.values, ValueAlias(|a.values|), value);
  }

  // ---- Any sequence of requests ----

  datatype Request =
    | ColumnRequest(index: nat, column: string)
    | SegmentRequest(name: string)
    | ValueRequest(value: Attr)

  function Serve(table: nat, a: Attrs, r: Request): Attrs {
    match r
    case ColumnRequest(index, column) => AddColumn(a, (table, index), column)
    case SegmentRequest(name) => AddSegment(a, name)
    case ValueRequest(value) => AddValue(a, value)
  }

  /** The placeholder a request is answered with. */
  function Answer(table: nat, a: Attrs, r: Request): Placeholder {
    match r
    case ColumnRequest(index, column) => AddColumn(a, (table, index), column).columns[(table, index)]
    case SegmentRequest(name) => AddSegment(a, name).segments[name]
    case ValueRequest(_) => ValueAlias(|a.values|)
  }

  /** A column request names a column of the table. */
  predicate InScope(cx: TableColumns, r: Request) {
    r.ColumnRequest? ==> r.index < |cx.names| && cx.names[r.index] == r.column
  }

  predicate AllInScope(cx: TableColumns, requests: seq<Request>) {
    forall r <- requests :: InScope(cx, r)
  }

  /** The tables before the first request and after each one. */
  predicate IsRun(table: nat, requests: seq<Request>, states: seq<Attrs>) {
    && |states| == |requests| + 1 && states[0] == NoAttrs
    && forall i :: 0 <= i < |requests| ==> ServedAt(table, requests, states, i)
  }

  predicate ServedAt(table: nat, requests: seq<Request>, states: seq<Attrs>, i: nat)
    requires i < |requests| && |states| == |requests| + 1
  {
    states[i + 1] == Serve(table, states[i], requests[i])
  }

  /** The placeholder stands for what was requested. */
  predicate Resolves(cx: TableColumns, a: Attrs, r: Request, placeholder: Placeholder) {
    match r
    case ColumnRequest(index, column) =>
      && placeholder in a.names && a.names[placeholder] == column
      && (cx.table, index) in a.columns && a.columns[(cx.table, index)] == placeholder
      && placeholder == ColumnAlias(index)
    case SegmentRequest(name) =>
      && placeholder in a.names && a.names[placeholder] == name
      && name in a.segments && a.segments[name] == placeholder
    case ValueRequest(value) => placeholder in a.values && a.values[placeholder] == value
  }

  lemma ServeKeeps(cx: TableColumns, a: Attrs, r: Request)
    requires AttrsOk(cx, a) && InScope(cx, r)
    ensures AttrsOk(cx, Serve(cx.table, a, r)) && Extends(a, Serve(cx.table, a, r))
    ensures Resolves(cx, Serve(cx.table, a, r), r, Answer(cx.table, a, r))
  {
    match r
    case ColumnRequest(index, _) => AddColumnKeeps(cx, a, index);
    case SegmentRequest(name) => AddSegmentKeeps(cx, a, name);
    case ValueRequest(value) => AddValueKeeps(cx, a, value);
  }

  lemma ExtendsTransitive(a: Attrs, b: Attrs, c: Attrs)
    requires Extends(a, b) && Extends(b, c)
    ensures Extends(a, c)
  {
  }

  /** One more request keeps the tables in order and what stood before. */
  lemma StepKeeps(cx: TableColumns, a: Attrs, b: Attrs, r: Request)
    requires AttrsOk(cx, a) && InScope(cx, r)
    requires b == Serve(cx.table, a, r)
    ensures AttrsOk(cx, b) && Extends(a, b)
  {
    ServeKeeps(cx, a, r);
  }

  lemma ResolvesLater(cx: TableColumns, a: Attrs, b: Attrs, r: Request, placeholder: Placeholder)
    requires Resolves(cx, a, r, placeholder) && Extends(a, b)
    ensures Resolves(cx, b, r, placeholder)
  {
    match r
    case ColumnRequest(index, _) =>
      StillThere(a.names, b.names, placeholder);
      StillThere(a.columns, b.columns, (cx.table, index));
    case SegmentRequest(name) =>
      StillThere(a.names, b.names, placeholder);
      StillThere(a.segments, b.segments, name);
    case ValueRequest(_) => StillThere(a.values, b.values, placeholder);
  }

  lemma {:induction false} RunOk(cx: TableColumns, requests: seq<Request>, states: seq<Attrs>, n: nat)
    requires n <= |requests| && AllInScope(cx, requests) && IsRun(cx.table, requests, states)
    ensures AttrsOk(cx, states[n])
  {
    if n > 0 {
      RunOk(cx, requests, states, n - 1);
      StepKeeps(cx, states[n - 1], states[n], requests[n - 1]) by {
        assert ServedAt(cx.table, requests, states, n - 1);
      }
    }
  }

  lemma {:induction false} ExtendsChain(states: seq<Attrs>, m: nat, n: nat)
    requires m <= n < |states|
    requires forall i :: m <= i < n ==> Extends(states[i], states[i + 1])
    ensures Extends(states[m], states[n])
    decreases n
  {
    if m < n {
      ExtendsChain(states, m, n - 1);
      ExtendsTransitive(states[m], states[n - 1], states[n]);
    }
  }

  lemma StepExtends(cx: TableColumns, requests: seq<Request>, states: seq<Attrs>, i: nat)
    requires i < |requests| && AllInScope(cx, requests) && IsRun(cx.table, requests, states)
    ensures Extends(states[i], states[i + 1])
  {
    RunOk(cx, requests, states, i);
    StepKeeps(cx, states[i], states[i + 1], requests[i]) by { assert ServedAt(cx.table, requests, states, i); }
  }

  /** Nothing handed out is ever overwritten. */
  lemma NothingOverwritten(cx: TableColumns, requests: seq<Request>, states: seq<Attrs>, m: nat, n: nat)
    requires m <= n <= |requests| && AllInScope(cx, requests) && IsRun(cx.table, requests, states)
    ensures Extends(states[m], states[n])
  {
    forall i | m <= i < n
      ensures Extends(states[i], states[i + 1])
    {
      StepExtends(cx, requests, states, i);
    }
    ExtendsChain(states, m, n);
  }

  /** Two requests share a placeholder: the same column, or the same segment. */
  predicate SameRequest(r: Request, s: Request) {
    !r.ValueRequest? && r == s
  }

  /** The kind of a request shows in its placeholder. */
  predicate KindShows(r: Request, placeholder: Placeholder) {
    && (r.ColumnRequest? ==> placeholder == ColumnAlias(r.index))
    && (r.SegmentRequest? ==> placeholder.SegmentAlias?)
    && (r.ValueRequest? ==> placeholder.ValueAlias?)
  }

  lemma AnswerKind(cx: TableColumns, a: Attrs, r: Request)
    requires AttrsOk(cx, a) && InScope(cx, r)
    ensures KindShows(r, Answer(cx.table, a, r))
  {
    ServeKeeps(cx, a, r);
  }

  /** A request is answered with the placeholder of an earlier one only if it asks for the same. */
  lemma AnswersDiffer(cx: TableColumns, a: Attrs, r: Request, placeholder: Placeholder, s: Request)
    requires AttrsOk(cx, a) && Resolves(cx, a, r, placeholder) && KindShows(r, placeholder)
    requires InScope(cx, s)
    ensures Answer(cx.table, a, s) == placeholder <==> SameRequest(r, s)
  {
    AnswerKind(cx, a, s);
    ServeKeeps(cx, a, s);
  }

  lemma AnswerStands(cx: TableColumns, requests: seq<Request>, states: seq<Attrs>, i: nat, n: nat)
    requires AllInScope(cx, requests) && IsRun(cx.table, requests, states) && i < n <= |requests|
    ensures Resolves(cx, states[n], requests[i], Answer(cx.table, states[i], requests[i]))
  {
    RunOk(cx, requests, states, i);
    ResolvesNext(cx, states[i], states[i + 1], requests[i]) by { assert ServedAt(cx.table, requests, states, i); }
    NothingOverwritten(cx, requests, states, i + 1, n);
    ResolvesLater(cx, states[i + 1], states[n], requests[i], Answer(cx.table, states[i], requests[i]));
  }

  lemma ResolvesNext(cx: TableColumns, a: Attrs, b: Attrs, r: Request)
    requires AttrsOk(cx, a) && InScope(cx, r) && b == Serve(cx.table, a, r)
    ensures Resolves(cx, b, r, Answer(cx.table, a, r))
  {
    ServeKeeps(cx, a, r);
  }

  /** After any requests over one table, each placeholder handed out resolves to what it was asked
      for, and two requests got the same one exactly when they ask for the same column or segment. */
  lemma PlaceholdersStand(cx: TableColumns, requests: seq<Request>, states: seq<Attrs>, i: nat, j: nat)
    requires AllInScope(cx, requests) && IsRun(cx.table, requests, states) && i < j < |requests|
    ensures Resolves(cx, states[|requests|], requests[i], Answer(cx.table, states[i], requests[i]))
    ensures
      var first := Answer(cx.table, states[i], requests[i]);
      var second := Answer(cx.table, states[j], requests[j]);
      first == second <==> SameRequest(requests[i], requests[j])
  {
    AnswerStands(cx, requests, states, i, |requests|);
    AnswerStands(cx, requests, states, i, j);
    RunOk(cx, requests, states, i);
    AnswerKind(cx, states[i], requests[i]);
    RunOk(cx, requests, states, j);
    AnswersDiffer(cx, states[j], requests[i], Answer(cx.table, states[i], requests[i]), requests[j]);
  }

  /** Over two tables it fails: the placeholder of a column leaves its table out, so columns of the
      same index share one, and the second takes it over. */
  lemma TwoTablesCollide(first: string, second: string)
    requires first != second
    ensures
      var a := AddColumn(NoAttrs, (0, 3), first);
      var b := AddColumn(a, (1, 3), second);
      && b.columns[(0, 3)] == b.columns[(1, 3)]
      && a.names[a.columns[(0, 3)]] == first && b.names[b.columns[(0, 3)]] == second
  {
  }
}
