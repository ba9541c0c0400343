/** The schema builder's check of `#[document]` fields: which schemas it accepts, and when acceptance
    means that every value of a document field encodes as JSON. */
module DocumentCheck {
  import opened Wrappers
  import opened Values

  /** Field types, as far as the check tells them apart; models by their position in the schema. */
  datatype Ty = Model(id: nat) | Many(elem: Ty) | Zoned | Blob | Scalar(ty: Type)

  datatype FieldTy = Primitive(ty: Ty) | Embedded(target: nat) | Relation

  datatype Field = Field(name: Option<string>, storage: Option<string>, ty: FieldTy)

  datatype ModelDef = Root(fields: seq<Field>) | EmbeddedStruct(fields: seq<Field>) | EmbeddedEnum

  type App = seq<ModelDef>

  datatype Problem = NoSuchModel | NotAStruct | Unnamed | Renamed | UnsupportedLeaf | IsRelation

  datatype Verdict = Accepted | Rejected(problem: Problem)

  // ---- The check ----

  /** What a type is a list of, however many lists it is. */
  function Innermost(ty: Ty): Ty {
    if ty.Many? then Innermost(ty.elem) else ty
  }

  function Lists(ty: Ty): nat {
    if ty.Many? then 1 + Lists(ty.elem) else 0
  }

  predicate HasUnsupportedLeaf(ty: Ty)
    ensures HasUnsupportedLeaf(ty) <==> Innermost(ty) == Zoned || Innermost(ty) == Blob
  {
    match ty
    case Zoned => true
    case Blob => true
    case Many(elem) => HasUnsupportedLeaf(elem)
    case _ => false
  }

  /** The embed a type stores, however many lists are around it. */
  function Core(ty: Ty): (id: Option<nat>)
    ensures id == if Innermost(ty).Model? then Some(Innermost(ty).id) else None
  {
    match ty
    case Model(id) => Some(id)
    case Many(elem) => Core(elem)
    case _ => None
  }

  /** The embed a document column stores, as the check sees it: bare, or in one list. */
  function EmbedId(ty: Ty): (id: Option<nat>)
    ensures id == if Lists(ty) <= 1 then Core(ty) else None
  {
    match ty
    case Model(id) => Some(id)
    case Many(Model(id)) => Some(id)
    case _ => None
  }

  /** The model a field stores values of, if any. */
  function Stored(f: Field): Option<nat> {
    match f.ty
    case Primitive(ty) => Core(ty)
    case Embedded(target) => Some(target)
    case Relation => None
  }

  /** No embed contains itself: stored models rank below those that store them. */
  predicate Ranked(app: App, rank: seq<nat>) {
    && |rank| == |app|
    && forall id, i ::
      0 <= id < |app| && app[id].EmbeddedStruct? && 0 <= i < |app[id].fields|
      ==> RanksBelow(rank, Stored(app[id].fields[i]), id)
  }

  predicate RanksBelow(rank: seq<nat>, target: Option<nat>, id: nat)
    requires id < |rank|
  {
    target.Some? && target.value < |rank| ==> rank[target.value] < rank[id]
  }

  function RankOf(rank: seq<nat>, id: nat): nat {
    if id < |rank| then rank[id] else 0
  }

  /** The first problem of the embed and everything nested in it. */
  function VerifyEmbed(app: App, rank: seq<nat>, id: nat): Verdict
    requires Ranked(app, rank)
    decreases RankOf(rank, id), 3, 0
  {
    if id >= |app| then Rejected(NoSuchModel)
    else if !app[id].EmbeddedStruct? then Rejected(NotAStruct)
    else VerifyFields(app, rank, id, |app[id].fields|)
  }

  /** The first problem among the first `n` fields. */
  function VerifyFields(app: App, rank: seq<nat>, id: nat, n: nat): Verdict
    requires Ranked(app, rank) && id < |app| && app[id].EmbeddedStruct? && n <= |app[id].fields|
    decreases RankOf(rank, id), 2, n
  {
    if n == 0 then Accepted
    else
      var before := VerifyFields(app, rank, id, n - 1);
      if before.Rejected? then before else VerifyField(app, rank, id, n - 1)
  }

  function VerifyField(app: App, rank: seq<nat>, id: nat, i: nat): Verdict
    requires Ranked(app, rank) && id < |app| && app[id].EmbeddedStruct? && i < |app[id].fields|
    decreases RankOf(rank, id), 1, 0
  {
    var f := app[id].fields[i];
    assert RanksBelow(rank, Stored(f), id);
    if f.name == None then Rejected(Unnamed)
    else if f.storage != None then Rejected(Renamed)
    else
      match f.ty
      case Primitive(ty) =>
        if EmbedId(ty).Some? then VerifyNested(app, rank, id, EmbedId(ty).value)
        else if HasUnsupportedLeaf(ty) then Rejected(UnsupportedLeaf)
        else Accepted
      case Embedded(target) => VerifyNested(app, rank, id, target)
      case Relation => Rejected(IsRelation)
  }

  function VerifyNested(app: App, rank: seq<nat>, id: nat, nested: nat): Verdict
    requires Ranked(app, rank) && id < |app| && RanksBelow(rank, Some(nested), id)
    decreases RankOf(rank, id), 0, 0
  {
    if nested >= |app| then Rejected(NoSuchModel) else VerifyEmbed(app, rank, nested)
  }

  // ---- What it accepts ----

  /** The nested document the check sees in a field. */
  function Nested(f: Field): Option<nat> {
    match f.ty
    case Primitive(ty) => EmbedId(ty)
    case Embedded(target) => Some(target)
    case Relation => None
  }

  /** Named, not renamed, not a relation, and a nested document or a supported leaf. */
  predicate GoodField(f: Field) {
    && f.name.Some? && f.storage.None?
    && match f.ty {
      case Primitive(ty) => EmbedId(ty).Some? || !HasUnsupportedLeaf(ty)
      case Embedded(_) => true
      case Relation => false
    }
  }

  predicate GoodEmbed(app: App, id: nat) {
    && id < |app| && app[id].EmbeddedStruct?
    && forall i :: 0 <= i < |app[id].fields| ==> GoodField(app[id].fields[i])
  }

  /** Whether `b` is nested in `a`. */
  predicate NestsIn(app: App, a: nat, b: nat) {
    && a < |app| && app[a].EmbeddedStruct?
    && exists i :: 0 <= i < |app[a].fields| && Nested(app[a].fields[i]) == Some(b)
  }

  /** A way down through nested documents. */
  predicate Path(app: App, path: seq<nat>) {
    path != [] && forall k :: 0 < k < |path| ==> NestsIn(app, path[k - 1], path[k])
  }

  predicate FieldOk(app: App, rank: seq<nat>, id: nat, i: nat)
    requires Ranked(app, rank) && id < |app| && app[id].EmbeddedStruct? && i < |app[id].fields|
  {
    VerifyField(app, rank, id, i).Accepted?
  }

  lemma {:induction false} FieldsAccepted(app: App, rank: seq<nat>, id: nat, n: nat)
    requires Ranked(app, rank) && id < |app| && app[id].EmbeddedStruct? && n <= |app[id].fields|
    ensures VerifyFields(app, rank, id, n).Accepted? <==>
      forall i :: 0 <= i < n ==> FieldOk(app, rank, id, i)
  {
    if n > 0 {
      FieldsAccepted(app, rank, id, n - 1);
      assert VerifyFields(app, rank, id, n).Accepted? <==>
        VerifyFields(app, rank, id, n - 1).Accepted? && FieldOk(app, rank, id, n - 1);
    }
  }

  lemma FieldAccepted(app: App, rank: seq<nat>, id: nat, i: nat)
    requires Ranked(app, rank) && id < |app| && app[id].EmbeddedStruct? && i < |app[id].fields|
    ensures
      var f := app[id].fields[i];
      FieldOk(app, rank, id, i) <==>
      GoodField(f) && (Nested(f).Some? ==> VerifyEmbed(app, rank, Nested(f).value).Accepted?)
  {
    var f := app[id].fields[i];
    assert RanksBelow(rank, Stored(f), id);
    if Nested(f).Some? {
      assert VerifyNested(app, rank, id, Nested(f).value).Accepted? <==>
        VerifyEmbed(app, rank, Nested(f).value).Accepted?;
    }
  }

  /** Accepted embeds nest accepted embeds only. */
  lemma AcceptedNests(app: App, rank: seq<nat>, a: nat, b: nat)
    requires Ranked(app, rank) && VerifyEmbed(app, rank, a).Accepted? && NestsIn(app, a, b)
    ensures VerifyEmbed(app, rank, b).Accepted?
  {
    var i :| 0 <= i < |app[a].fields| && Nested(app[a].fields[i]) == Some(b);
    FieldsAccepted(app, rank, a, |app[a].fields|);
    assert FieldOk(app, rank, a, i);
    FieldAccepted(app, rank, a, i);
  }

  lemma AcceptedIsGood(app: App, rank: seq<nat>, id: nat)
    requires Ranked(app, rank) && VerifyEmbed(app, rank, id).Accepted?
    ensures GoodEmbed(app, id)
  {
    FieldsAccepted(app, rank, id, |app[id].fields|);
    forall i | 0 <= i < |app[id].fields|
      ensures GoodField(app[id].fields[i])
    {
      assert FieldOk(app, rank, id, i);
      FieldAccepted(app, rank, id, i);
    }
  }

  lemma {:induction false} AcceptedAlong(app: App, rank: seq<nat>, path: seq<nat>, k: nat)
    requires Ranked(app, rank) && Path(app, path) && VerifyEmbed(app, rank, path[0]).Accepted? && k < |path|
    ensures VerifyEmbed(app, rank, path[k]).Accepted?
  {
    if k > 0 {
      AcceptedAlong(app, rank, path, k - 1);
      assert NestsIn(app, path[k - 1], path[k]);
      AcceptedNests(app, rank, path[k - 1], path[k]);
    }
  }

  /** Every embed on a way down from here is good. */
  ghost predicate GoodFrom(app: App, id: nat) {
    forall path | Path(app, path) && path[0] == id :: GoodEmbed(app, path[|path| - 1])
  }

  lemma GoodFromNested(app: App, a: nat, b: nat)
    requires GoodFrom(app, a) && NestsIn(app, a, b)
    ensures GoodFrom(app, b)
  {
    forall path | Path(app, path) && path[0] == b
      ensures GoodEmbed(app, path[|path| - 1])
    {
      var longer := [a] + path;
      forall k | 0 < k < |longer|
        ensures NestsIn(app, longer[k - 1], longer[k])
      {
        if k > 1 {
          assert NestsIn(app, path[k - 2], path[k - 1]);
        }
      }
      assert Path(app, longer) && longer[0] == a;
      assert longer[|longer| - 1] == path[|path| - 1];
    }
  }

  lemma {:induction false} GoodIsAccepted(app: App, rank: seq<nat>, id: nat)
    requires Ranked(app, rank) && GoodFrom(app, id)
    ensures VerifyEmbed(app, rank, id).Accepted?
    decreases RankOf(rank, id)
  {
    assert Path(app, [id]);
    assert GoodEmbed(app, id);
    forall i | 0 <= i < |app[id].fields|
      ensures FieldOk(app, rank, id, i)
    {
      var f := app[id].fields[i];
      FieldAccepted(app, rank, id, i);
      if Nested(f).Some? {
        GoodNestedIsAccepted(app, rank, id, i, Nested(f).value);
      }
    }
    FieldsAccepted(app, rank, id, |app[id].fields|);
  }

  lemma {:induction false} GoodNestedIsAccepted(app: App, rank: seq<nat>, id: nat, i: nat, nested: nat)
    requires Ranked(app, rank) && GoodFrom(app, id) && GoodEmbed(app, id)
    requires i < |app[id].fields| && Nested(app[id].fields[i]) == Some(nested)
    ensures VerifyEmbed(app, rank, nested).Accepted?
    decreases RankOf(rank, id), 0
  {
    assert NestsIn(app, id, nested);
    GoodFromNested(app, id, nested);
    assert Path(app, [nested]) && GoodEmbed(app, nested);
    assert RanksBelow(rank, Stored(app[id].fields[i]), id);
    GoodIsAccepted(app, rank, nested);
  }

  // ---- The whole schema ----

  /** Whether a root or embedded struct has a document column of the embed. */
  predicate StoresDocument(app: App, id: nat) {
    exists m, i :: 0 <= m < |app| && !app[m].EmbeddedEnum? && 0 <= i < |app[m].fields| && ColumnOf(app[m].fields[i], id)
  }

  predicate ColumnOf(f: Field, id: nat) {
    f.ty.Primitive? && EmbedId(f.ty.ty) == Some(id)
  }

  /** The verdict on one column. */
  function VerifyColumn(app: App, rank: seq<nat>, f: Field): Verdict
    requires Ranked(app, rank)
  {
    if f.ty.Primitive? && EmbedId(f.ty.ty).Some? then VerifyEmbed(app, rank, EmbedId(f.ty.ty).value) else Accepted
  }

  function VerifyColumns(app: App, rank: seq<nat>, fields: seq<Field>, n: nat): Verdict
    requires Ranked(app, rank) && n <= |fields|
  {
    if n == 0 then Accepted
    else
      var before := VerifyColumns(app, rank, fields, n - 1);
      if before.Rejected? then before else VerifyColumn(app, rank, fields[n - 1])
  }

  /** The first problem in the document columns of the first `n` models. */
  function VerifyModels(app: App, rank: seq<nat>, n: nat): Verdict
    requires Ranked(app, rank) && n <= |app|
  {
    if n == 0 then Accepted
    else
      var before := VerifyModels(app, rank, n - 1);
      if before.Rejected? || app[n - 1].EmbeddedEnum? then before
      else VerifyColumns(app, rank, app[n - 1].fields, |app[n - 1].fields|)
  }

  lemma {:induction false} ColumnsAccepted(app: App, rank: seq<nat>, fields: seq<Field>, n: nat)
    requires Ranked(app, rank) && n <= |fields|
    ensures VerifyColumns(app, rank, fields, n).Accepted? <==>
      forall i :: 0 <= i < n ==> VerifyColumn(app, rank, fields[i]).Accepted?
  {
    if n > 0 {
      ColumnsAccepted(app, rank, fields, n - 1);
    }
  }

  lemma {:induction false} ModelsAccepted(app: App, rank: seq<nat>, n: nat)
    requires Ranked(app, rank) && n <= |app|
    ensures VerifyModels(app, rank, n).Accepted? <==>
      forall m, i :: 0 <= m < n && !app[m].EmbeddedEnum? && 0 <= i < |app[m].fields|
        ==> VerifyColumn(app, rank, app[m].fields[i]).Accepted?
  {
    if n > 0 {
      ModelsAccepted(app, rank, n - 1);
      if !app[n - 1].EmbeddedEnum? {
        ColumnsAccepted(app, rank, app[n - 1].fields, |app[n - 1].fields|);
      }
    }
  }

  /** A schema is accepted exactly when every embed reachable from a document column, through bare,
      listed and column-expanded nesting, is a struct whose fields are named, not renamed, no relations
      and of supported leaves. */
  lemma AcceptedExactly(app: App, rank: seq<nat>)
    requires Ranked(app, rank)
    ensures VerifyModels(app, rank, |app|).Accepted? <==>
      forall path | Path(app, path) && StoresDocument(app, path[0]) :: GoodEmbed(app, path[|path| - 1])
  {
    ModelsAccepted(app, rank, |app|);
    if VerifyModels(app, rank, |app|).Accepted? {
      forall path | Path(app, path) && StoresDocument(app, path[0])
        ensures GoodEmbed(app, path[|path| - 1])
      {
        var m, i :| 0 <= m < |app| && !app[m].EmbeddedEnum? && 0 <= i < |app[m].fields|
          && ColumnOf(app[m].fields[i], path[0]);
        assert VerifyColumn(app, rank, app[m].fields[i]).Accepted?;
        AcceptedAlong(app, rank, path, |path| - 1);
        AcceptedIsGood(app, rank, path[|path| - 1]);
      }
    }
    if forall path | Path(app, path) && StoresDocument(app, path[0]) :: GoodEmbed(app, path[|path| - 1]) {
      forall m, i | 0 <= m < |app| && !app[m].EmbeddedEnum? && 0 <= i < |app[m].fields|
        ensures VerifyColumn(app, rank, app[m].fields[i]).Accepted?
      {
        var f := app[m].fields[i];
        if f.ty.Primitive? && EmbedId(f.ty.ty).Some? {
          var id := EmbedId(f.ty.ty).value;
          assert ColumnOf(f, id) && StoresDocument(app, id);
          assert GoodFrom(app, id);
          GoodIsAccepted(app, rank, id);
        }
      }
    }
  }

  // ---- The check as it runs ----

  method VerifyDocumentEmbed(app: App, ghost rank: seq<nat>, id: nat) returns (r: Verdict)
    requires Ranked(app, rank)
    ensures r == VerifyEmbed(app, rank, id)
    decreases RankOf(rank, id), 1
  {
    if id >= |app| {
      return Rejected(NoSuchModel);
    }
    if !app[id].EmbeddedStruct? {
      return Rejected(NotAStruct);
    }
    var fields := app[id].fields;
    for i := 0 to |fields|
      invariant VerifyFields(app, rank, id, i) == Accepted
    {
      var verdict := VerifyDocumentField(app, rank, id, i);
      if verdict.Rejected? {
        FirstProblem(app, rank, id, i + 1, |fields|);
        return verdict;
      }
    }
    r := Accepted;
  }

  method VerifyDocumentField(app: App, ghost rank: seq<nat>, id: nat, i: nat) returns (r: Verdict)
    requires Ranked(app, rank) && id < |app| && app[id].EmbeddedStruct? && i < |app[id].fields|
    ensures r == VerifyField(app, rank, id, i)
    decreases RankOf(rank, id), 0
  {
    var f := app[id].fields[i];
    assert RanksBelow(rank, Stored(f), id);
    if f.name == None {
      return Rejected(Unnamed);
    }
    if f.storage != None {
      return Rejected(Renamed);
    }
    match f.ty
    case Primitive(ty) =>
      var nested := EmbedId(ty);
      if nested.Some? {
        if nested.value >= |app| {
          return Rejected(NoSuchModel);
        }
        r := VerifyDocumentEmbed(app, rank, nested.value);
      } else {
        r := if HasUnsupportedLeaf(ty) then Rejected(UnsupportedLeaf) else Accepted;
      }
    case Embedded(target) =>
      if target >= |app| {
        return Rejected(NoSuchModel);
      }
      r := VerifyDocumentEmbed(app, rank, target);
    case Relation => r := Rejected(IsRelation);
  }

  /** An error found early is the verdict. */
  lemma {:induction false} FirstProblem(app: App, rank: seq<nat>, id: nat, m: nat, n: nat)
    requires Ranked(app, rank) && id < |app| && app[id].EmbeddedStruct? && m <= n <= |app[id].fields|
    requires VerifyFields(app, rank, id, m).Rejected?
    ensures VerifyFields(app, rank, id, n) == VerifyFields(app, rank, id, m)
    decreases n
  {
    if m < n {
      FirstProblem(app, rank, id, m, n - 1);
    }
  }

  lemma {:induction false} FirstColumnProblem(app: App, rank: seq<nat>, fields: seq<Field>, m: nat, n: nat)
    requires Ranked(app, rank) && m <= n <= |fields| && VerifyColumns(app, rank, fields, m).Rejected?
    ensures VerifyColumns(app, rank, fields, n) == VerifyColumns(app, rank, fields, m)
    decreases n
  {
    if m < n {
      FirstColumnProblem(app, rank, fields, m, n - 1);
    }
  }

  lemma {:induction false} FirstModelProblem(app: App, rank: seq<nat>, m: nat, n: nat)
    requires Ranked(app, rank) && m <= n <= |app| && VerifyModels(app, rank, m).Rejected?
    ensures VerifyModels(app, rank, n) == VerifyModels(app, rank, m)
    decreases n
  {
    if m < n {
      FirstModelProblem(app, rank, m, n - 1);
    }
  }

  /** Every document column of every root and embedded struct, up to the first problem. */
  method VerifyDocumentTypes(app: App, ghost rank: seq<nat>) returns (r: Verdict)
    requires Ranked(app, rank)
    ensures r == VerifyModels(app, rank, |app|)
  {
    for m := 0 to |app|
      invariant VerifyModels(app, rank, m) == Accepted
    {
      if !app[m].EmbeddedEnum? {
        var fields := app[m].fields;
        for i := 0 to |fields|
          invariant VerifyColumns(app, rank, fields, i) == Accepted
        {
          if fields[i].ty.Primitive? && EmbedId(fields[i].ty.ty).Some? {
            var verdict := VerifyDocumentEmbed(app, rank, EmbedId(fields[i].ty.ty).value);
            if verdict.Rejected? {
              FirstColumnProblem(app, rank, fields, i + 1, |fields|);
              FirstModelProblem(app, rank, m + 1, |app|);
              return verdict;
            }
          }
        }
      }
    }
    r := Accepted;
  }
}
