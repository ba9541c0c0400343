/** Any number of apply runs against one database, interleaved statement by statement and cut off
    anywhere: a state machine whose steps are those of the drivers' `apply_migration`. */
module ApplyProtocol {
  import opened Wrappers
  import opened Database

  /** A statement, as what it does to the database; `None` where the database refuses it. */
  type Sql = Db -> Option<Db>

  datatype Entry = Entry(id: int, statements: seq<Sql>)

  /** A run: between migrations, with a transaction begun, with the write lock and a working copy of
      the database, or with the id inserted into that copy as well. Stopped runs are idle again. */
  datatype Runner =
    | Idle
    | Between(pending: seq<Entry>)
    | Begun(pending: seq<Entry>)
    | Writing(pending: seq<Entry>, executed: nat, work: Db)
    | Inserted(pending: seq<Entry>, work: Db)

  /** What is committed, and the runs. */
  datatype State = State(content: Db, recorded: seq<int>, runners: seq<Runner>)

  predicate HoldsLock(r: Runner) {
    r.Writing? || r.Inserted?
  }

  predicate Unlocked(s: State) {
    forall i :: 0 <= i < |s.runners| ==> !HoldsLock(s.runners[i])
  }

  /** The entries among the first `n` that were not recorded when the run looked. */
  function Pending(history: seq<Entry>, recorded: seq<int>, n: nat): (pending: seq<Entry>)
    requires n <= |history|
    ensures |pending| <= n
  {
    if n == 0 then []
    else
      var rest := Pending(history, recorded, n - 1);
      if history[n - 1].id in recorded then rest else rest + [history[n - 1]]
  }

  // ---- Steps ----

  /** A step inside the run that commits nothing. */
  ghost predicate PrivateStep(history: seq<Entry>, s: State, r: Runner, x: Runner) {
    // Failure, rollback or a cut-off, at any point.
    || x == Idle
    // A new run reads the recorded ids.
    || (r.Idle? && x == Between(Pending(history, s.recorded, |history|)))
    || (r.Between? && r.pending != [] && x == Begun(r.pending))
    // A busy database: the transaction is tried again.
    || (r.Begun? && x == Between(r.pending))
    // The first write takes the lock, and sees what is committed.
    || (r.Begun? && r.pending != [] && Unlocked(s) && x == Writing(r.pending, 0, s.content))
    || (r.Writing? && r.pending != [] && r.executed < |r.pending[0].statements|
        && r.pending[0].statements[r.executed](r.work).Some?
        && x == Writing(r.pending, r.executed + 1, r.pending[0].statements[r.executed](r.work).value))
    // The id is a primary key: the insert goes through only where it is new.
    || (r.Writing? && r.pending != [] && r.executed == |r.pending[0].statements|
        && r.pending[0].id !in s.recorded && x == Inserted(r.pending, r.work))
  }

  ghost predicate CommitStep(s: State, t: State, i: nat)
    requires i < |s.runners|
  {
    var r := s.runners[i];
    && r.Inserted? && r.pending != []
    && t == State(r.work, s.recorded + [r.pending[0].id], s.runners[i := Between(r.pending[1..])])
  }

  ghost predicate StepOf(history: seq<Entry>, s: State, t: State, i: nat)
    requires i < |s.runners|
  {
    || CommitStep(s, t, i)
    || (exists x :: PrivateStep(history, s, s.runners[i], x) && t == s.(runners := s.runners[i := x]))
  }

  ghost predicate Step(history: seq<Entry>, s: State, t: State) {
    exists i: nat :: i < |s.runners| && StepOf(history, s, t, i)
  }

  predicate Start(s: State) {
    Distinct(s.recorded) && forall i :: 0 <= i < |s.runners| ==> s.runners[i] == Idle
  }

  /** A run of the whole system: a start, and steps of any of its runs. */
  ghost predicate Execution(history: seq<Entry>, states: seq<State>) {
    && states != [] && Start(states[0])
    && forall k :: 0 < k < |states| ==> Step(history, states[k - 1], states[k])
  }

  predicate DistinctIds(history: seq<Entry>) {
    forall i, j :: 0 <= i < j < |history| ==> history[i].id != history[j].id
  }

  // ---- What the recorded ids stand for ----

  /** The first `n` statements, in order. */
  function RunSql(statements: seq<Sql>, n: nat, db: Db): Option<Db>
    requires n <= |statements|
  {
    if n == 0 then Some(db)
    else
      var mid :- RunSql(statements, n - 1, db);
      statements[n - 1](mid)
  }

  function EntryOf(history: seq<Entry>, id: int): Option<Entry> {
    if history == [] then None
    else if history[0].id == id then Some(history[0])
    else EntryOf(history[1..], id)
  }

  /** The recorded migrations from position `from` to `n` run on `db`, in the order recorded. */
  function Replay(history: seq<Entry>, recorded: seq<int>, from: nat, n: nat, db: Db): Option<Db>
    requires from <= n <= |recorded|
  {
    if n == from then Some(db)
    else
      var mid :- Replay(history, recorded, from, n - 1, db);
      var entry :- EntryOf(history, recorded[n - 1]);
      RunSql(entry.statements, |entry.statements|, mid)
  }

  lemma {:induction false} EntryFound(history: seq<Entry>, k: nat)
    requires k < |history| && DistinctIds(history)
    ensures EntryOf(history, history[k].id) == Some(history[k])
  {
    if k > 0 {
      assert history[0].id != history[k].id;
      EntryFound(history[1..], k - 1);
    }
  }

  /** Recording one more id leaves the earlier ones standing for the same. */
  lemma {:induction false} ReplayPrefix(
      history: seq<Entry>, recorded: seq<int>, longer: seq<int>, from: nat, n: nat, db: Db)
    requires recorded <= longer && from <= n <= |recorded|
    ensures Replay(history, recorded, from, n, db) == Replay(history, longer, from, n, db)
  {
    if n > from {
      ReplayPrefix(history, recorded, longer, from, n - 1, db);
    }
  }

  // ---- The invariant ----

  /** Where a run stands, against what is committed. */
  ghost predicate RunnerOk(history: seq<Entry>, content: Db, recorded: seq<int>, r: Runner) {
    match r
    case Idle => true
    case Between(pending) => FromHistory(history, pending)
    case Begun(pending) => FromHistory(history, pending) && pending != []
    case Writing(pending, executed, work) =>
      && FromHistory(history, pending) && pending != []
      && executed <= |pending[0].statements|
      && RunSql(pending[0].statements, executed, content) == Some(work)
    case Inserted(pending, work) =>
      && FromHistory(history, pending) && pending != []
      && pending[0].id !in recorded
      && RunSql(pending[0].statements, |pending[0].statements|, content) == Some(work)
  }

  ghost predicate FromHistory(history: seq<Entry>, pending: seq<Entry>) {
    forall i :: 0 <= i < |pending| ==> InHistory(history, pending[i])
  }

  ghost predicate InHistory(history: seq<Entry>, e: Entry) {
    EntryOf(history, e.id).Some? && EntryOf(history, e.id).value.statements == e.statements
  }

  /** At most one run holds the write lock. */
  predicate OneWriter(s: State) {
    forall i, j :: 0 <= i < j < |s.runners| ==> !HoldsLock(s.runners[i]) || !HoldsLock(s.runners[j])
  }

  ghost predicate Consistent(history: seq<Entry>, start: State, s: State) {
    && Distinct(s.recorded) && start.recorded <= s.recorded
    && Replay(history, s.recorded, |start.recorded|, |s.recorded|, start.content) == Some(s.content)
    && OneWriter(s)
    && forall i :: 0 <= i < |s.runners| ==> RunnerOk(history, s.content, s.recorded, s.runners[i])
  }

  lemma {:induction false} PendingFromHistory(history: seq<Entry>, recorded: seq<int>, n: nat)
    requires n <= |history| && DistinctIds(history)
    ensures FromHistory(history, Pending(history, recorded, n))
  {
    if n > 0 {
      PendingFromHistory(history, recorded, n - 1);
      EntryFound(history, n - 1);
    }
  }

  lemma PrivateStepKeeps(history: seq<Entry>, start: State, s: State, i: nat, x: Runner)
    requires DistinctIds(history) && Consistent(history, start, s) && i < |s.runners|
    requires PrivateStep(history, s, s.runners[i], x)
    ensures Consistent(history, start, s.(runners := s.runners[i := x]))
  {
    PendingFromHistory(history, s.recorded, |history|);
    assert RunnerOk(history, s.content, s.recorded, s.runners[i]);
    assert RunnerOk(history, s.content, s.recorded, x);
  }

  lemma CommitKeeps(history: seq<Entry>, start: State, s: State, t: State, i: nat)
    requires Consistent(history, start, s) && i < |s.runners| && CommitStep(s, t, i)
    ensures Consistent(history, start, t)
  {
    var r := s.runners[i];
    assert RunnerOk(history, s.content, s.recorded, r);
    var e := r.pending[0];
    assert InHistory(history, e);
    CommitReplays(history, start, s, e, r.work);
    forall j | 0 <= j < |t.runners|
      ensures RunnerOk(history, t.content, t.recorded, t.runners[j])
    {
      if j != i {
        assert t.runners[j] == s.runners[j];
        assert !HoldsLock(s.runners[j]);
        assert RunnerOk(history, s.content, s.recorded, s.runners[j]);
      }
    }
  }

  lemma CommitReplays(history: seq<Entry>, start: State, s: State, e: Entry, work: Db)
    requires start.recorded <= s.recorded
    requires Replay(history, s.recorded, |start.recorded|, |s.recorded|, start.content) == Some(s.content)
    requires InHistory(history, e) && RunSql(e.statements, |e.statements|, s.content) == Some(work)
    ensures
      var longer := s.recorded + [e.id];
      Replay(history, longer, |start.recorded|, |longer|, start.content) == Some(work)
  {
    var longer := s.recorded + [e.id];
    ReplayPrefix(history, s.recorded, longer, |start.recorded|, |s.recorded|, start.content);
    assert longer[|longer| - 1] == e.id;
  }

  lemma StepKeeps(history: seq<Entry>, start: State, s: State, t: State)
    requires DistinctIds(history) && Consistent(history, start, s) && Step(history, s, t)
    ensures Consistent(history, start, t)
  {
    var i: nat :| i < |s.runners| && StepOf(history, s, t, i);
    if CommitStep(s, t, i) {
      CommitKeeps(history, start, s, t, i);
    } else {
      var x :| PrivateStep(history, s, s.runners[i], x) && t == s.(runners := s.runners[i := x]);
      PrivateStepKeeps(history, start, s, i, x);
    }
  }

  /** Exactly once: however many runs interleave and wherever each is cut off, no id is recorded
      twice, nothing recorded is lost, and the database is what the recorded migrations, run whole and
      in the order recorded, make of the database at the start. */
  lemma {:induction false} ExactlyOnce(history: seq<Entry>, states: seq<State>, k: nat)
    requires DistinctIds(history) && Execution(history, states) && k < |states|
    ensures Consistent(history, states[0], states[k])
  {
    if k > 0 {
      ExactlyOnce(history, states, k - 1);
      StepKeeps(history, states[0], states[k - 1], states[k]);
    }
  }

  // ---- History order ----

  predicate IsPrefix(history: seq<Entry>, recorded: seq<int>) {
    && |recorded| <= |history|
    && forall i :: 0 <= i < |recorded| ==> recorded[i] == history[i].id
  }

  /** The run has the rest of the history before it, from no later than the first unrecorded entry. */
  ghost predicate InOrder(history: seq<Entry>, recorded: seq<int>, r: Runner) {
    r.Idle? || (
      && |r.pending| <= |history| && |history| - |r.pending| <= |recorded|
      && r.pending == history[|history| - |r.pending|..])
  }

  ghost predicate Ordered(history: seq<Entry>, s: State) {
    && IsPrefix(history, s.recorded)
    && forall i :: 0 <= i < |s.runners| ==> InOrder(history, s.recorded, s.runners[i])
  }

  lemma {:induction false} PendingIsRest(history: seq<Entry>, recorded: seq<int>, n: nat)
    requires DistinctIds(history) && IsPrefix(history, recorded) && n <= |history|
    ensures Pending(history, recorded, n) == if n <= |recorded| then [] else history[|recorded|..n]
  {
    if n > 0 {
      PendingIsRest(history, recorded, n - 1);
      if n <= |recorded| {
        assert recorded[n - 1] == history[n - 1].id;
      } else {
        assert history[n - 1].id !in recorded;
        assert history[|recorded|..n] == history[|recorded|..n - 1] + [history[n - 1]];
      }
    }
  }

  lemma PrivateStepOrdered(history: seq<Entry>, s: State, i: nat, x: Runner)
    requires DistinctIds(history) && Ordered(history, s) && i < |s.runners|
    requires PrivateStep(history, s, s.runners[i], x)
    ensures Ordered(history, s.(runners := s.runners[i := x]))
  {
    PendingIsRest(history, s.recorded, |history|);
    assert history[|history|..] == [] && history[|s.recorded|..|history|] == history[|s.recorded|..];
    assert InOrder(history, s.recorded, s.runners[i]);
    assert InOrder(history, s.recorded, x);
  }

  lemma NotAmongFirst(history: seq<Entry>, recorded: seq<int>, k: nat)
    requires IsPrefix(history, recorded) && k < |history| && history[k].id !in recorded
    ensures |recorded| <= k
  {
    assert forall j :: 0 <= j < |recorded| ==> recorded[j] in recorded;
  }

  /** The primary key leaves one place for the next id: right after those recorded. */
  lemma CommitOrdered(history: seq<Entry>, start: State, s: State, t: State, i: nat)
    requires DistinctIds(history) && Consistent(history, start, s) && Ordered(history, s)
    requires i < |s.runners| && CommitStep(s, t, i)
    ensures Ordered(history, t)
  {
    var r := s.runners[i];
    assert RunnerOk(history, s.content, s.recorded, r) && InOrder(history, s.recorded, r);
    var k := |history| - |r.pending|;
    assert r.pending[0] == history[k];
    NotAmongFirst(history, s.recorded, k);
    assert r.pending[1..] == history[k + 1..];
    forall j | 0 <= j < |t.runners|
      ensures InOrder(history, t.recorded, t.runners[j])
    {
      assert j != i ==> InOrder(history, s.recorded, s.runners[j]);
    }
  }

  lemma StepOrdered(history: seq<Entry>, start: State, s: State, t: State)
    requires DistinctIds(history) && Consistent(history, start, s) && Ordered(history, s)
    requires Step(history, s, t)
    ensures Ordered(history, t)
  {
    var i: nat :| i < |s.runners| && StepOf(history, s, t, i);
    if CommitStep(s, t, i) {
      CommitOrdered(history, start, s, t, i);
    } else {
      var x :| PrivateStep(history, s, s.runners[i], x) && t == s.(runners := s.runners[i := x]);
      PrivateStepOrdered(history, s, i, x);
    }
  }

  lemma {:induction false} StaysOrdered(history: seq<Entry>, states: seq<State>, k: nat)
    requires DistinctIds(history) && Execution(history, states) && k < |states|
    requires IsPrefix(history, states[0].recorded)
    ensures Ordered(history, states[k])
  {
    if k > 0 {
      StaysOrdered(history, states, k - 1);
      ExactlyOnce(history, states, k - 1);
      StepOrdered(history, states[0], states[k - 1], states[k]);
    }
  }

  /** The history's entries from `from` to `n`, in history order. */
  function Fold(history: seq<Entry>, from: nat, n: nat, db: Db): Option<Db>
    requires from <= n <= |history|
  {
    if n == from then Some(db)
    else
      var mid :- Fold(history, from, n - 1, db);
      RunSql(history[n - 1].statements, |history[n - 1].statements|, mid)
  }

  lemma {:induction false} ReplayIsFold(history: seq<Entry>, recorded: seq<int>, from: nat, n: nat, db: Db)
    requires DistinctIds(history) && IsPrefix(history, recorded) && from <= n <= |recorded|
    ensures Replay(history, recorded, from, n, db) == Fold(history, from, n, db)
  {
    if n > from {
      ReplayIsFold(history, recorded, from, n - 1, db);
      EntryFound(history, n - 1);
    }
  }

  /** Started from a prefix of the history, the recorded ids stay one, and the database is what the
      history's migrations up to there make of it, in history order. */
  lemma AppliedInOrder(history: seq<Entry>, states: seq<State>, k: nat)
    requires DistinctIds(history) && Execution(history, states) && k < |states|
    requires IsPrefix(history, states[0].recorded)
    ensures IsPrefix(history, states[k].recorded) && states[0].recorded <= states[k].recorded
    ensures
      Fold(history, |states[0].recorded|, |states[k].recorded|, states[0].content) == Some(states[k].content)
  {
    ExactlyOnce(history, states, k);
    StaysOrdered(history, states, k);
    ReplayIsFold(history, states[k].recorded, |states[0].recorded|, |states[k].recorded|, states[0].content);
  }

  // ---- One run to its end ----

  function Ids(entries: seq<Entry>): (ids: seq<int>)
    ensures |ids| == |entries|
    ensures forall i :: 0 <= i < |ids| ==> ids[i] == entries[i].id
  {
    seq(|entries|, i requires 0 <= i < |entries| => entries[i].id)
  }

  /** A run that applies everything it found pending completes the history. */
  lemma PendingCompletes(history: seq<Entry>, recorded: seq<int>)
    requires DistinctIds(history) && IsPrefix(history, recorded)
    ensures recorded + Ids(Pending(history, recorded, |history|)) == Ids(history)
  {
    PendingIsRest(history, recorded, |history|);
    assert history[|recorded|..|history|] == history[|recorded|..];
  }

  // ---- A run on its own, as steps ----

  ghost predicate Steps(history: seq<Entry>, states: seq<State>) {
    states != [] && forall k :: 0 < k < |states| ==> Step(history, states[k - 1], states[k])
  }

  /** `states` leads from `s` to `t`. */
  ghost predicate Leads(history: seq<Entry>, states: seq<State>, s: State, t: State) {
    Steps(history, states) && states[0] == s && states[|states| - 1] == t
  }

  lemma LeadsOn(history: seq<Entry>, a: seq<State>, b: seq<State>, s: State, t: State, u: State)
    requires Leads(history, a, s, t) && Leads(history, b, t, u)
    ensures Leads(history, a + b[1..], s, u)
  {
    var all := a + b[1..];
    forall k | 0 < k < |all|
      ensures Step(history, all[k - 1], all[k])
    {
      if k >= |a| {
        assert all[k] == b[k - |a| + 1] && all[k - 1] == b[k - |a|];
      }
    }
  }

  /** One step of the only run. */
  lemma AloneSteps(history: seq<Entry>, s: State, x: Runner)
    requires |s.runners| == 1 && PrivateStep(history, s, s.runners[0], x)
    ensures Leads(history, [s, s.(runners := [x])], s, s.(runners := [x]))
  {
    assert s.runners[0 := x] == [x];
    assert StepOf(history, s, s.(runners := [x]), 0);
  }

  /** The statements of a migration, one step each. */
  lemma {:induction false} StatementSteps(
    history: seq<Entry>, content: Db, recorded: seq<int>, pending: seq<Entry>, n: nat) returns (states: seq<State>)
    requires pending != [] && n <= |pending[0].statements|
    requires RunSql(pending[0].statements, n, content).Some?
    ensures Leads(
      history, states, State(content, recorded, [Begun(pending)]),
      State(content, recorded, [Writing(pending, n, RunSql(pending[0].statements, n, content).value)]))
  {
    if n == 0 {
      var s := State(content, recorded, [Begun(pending)]);
      AloneSteps(history, s, Writing(pending, 0, content));
      states := [s, s.(runners := [Writing(pending, 0, content)])];
    } else {
      var k: nat := n - 1;
      var before := StatementSteps(history, content, recorded, pending, k);
      var start, mid := State(content, recorded, [Begun(pending)]),
        State(content, recorded, [Writing(pending, k, RunSql(pending[0].statements, k, content).value)]);
      var x := Writing(pending, n, RunSql(pending[0].statements, n, content).value);
      AloneSteps(history, mid, x);
      LeadsOn(history, before, [mid, mid.(runners := [x])], start, mid, mid.(runners := [x]));
      states := before + [mid, mid.(runners := [x])][1..];
    }
  }

  /** A migration applied from beginning to end is a run of steps. */
  lemma MigrationSteps(
    history: seq<Entry>, content: Db, recorded: seq<int>, pending: seq<Entry>, after: Db)
    returns (states: seq<State>)
    requires pending != [] && pending[0].id !in recorded
    requires RunSql(pending[0].statements, |pending[0].statements|, content) == Some(after)
    ensures Leads(
      history, states, State(content, recorded, [Between(pending)]),
      State(after, recorded + [pending[0].id], [Between(pending[1..])]))
  {
    var s := State(content, recorded, [Between(pending)]);
    var begun := s.(runners := [Begun(pending)]);
    var written := s.(runners := [Writing(pending, |pending[0].statements|, after)]);
    var inserted := s.(runners := [Inserted(pending, after)]);
    var done := State(after, recorded + [pending[0].id], [Between(pending[1..])]);
    AloneSteps(history, s, Begun(pending));
    states := StatementSteps(history, content, recorded, pending, |pending[0].statements|);
    LeadsOn(history, [s, begun], states, s, begun, written);
    states := [s, begun] + states[1..];
    AloneSteps(history, written, Inserted(pending, after));
    LeadsOn(history, states, [written, inserted], s, written, inserted);
    states := states + [written, inserted][1..];
    CommitLeads(history, inserted, done);
    LeadsOn(history, states, [inserted, done], s, inserted, done);
    states := states + [inserted, done][1..];
  }

  lemma CommitLeads(history: seq<Entry>, s: State, t: State)
    requires |s.runners| == 1 && s.runners[0].Inserted? && s.runners[0].pending != []
    requires t == State(
      s.runners[0].work, s.recorded + [s.runners[0].pending[0].id], [Between(s.runners[0].pending[1..])])
    ensures Leads(history, [s, t], s, t)
  {
    assert s.runners[0 := t.runners[0]] == t.runners;
    assert StepOf(history, s, t, 0);
  }

  /** Looking up what is pending is the first step. */
  lemma LookUpSteps(history: seq<Entry>, content: Db, recorded: seq<int>)
    ensures
      var s := State(content, recorded, [Idle]);
      var t := State(content, recorded, [Between(Pending(history, recorded, |history|))]);
      Leads(history, [s, t], s, t)
  {
    AloneSteps(
      history, State(content, recorded, [Idle]), Between(Pending(history, recorded, |history|)));
  }
}
