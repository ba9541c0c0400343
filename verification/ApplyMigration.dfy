/** The drivers' `apply_migration` and the command's apply loop, run against a connection that may
    fail at any statement. */
module ApplyMigration {
  import opened Wrappers
  import opened Database
  import opened ApplyProtocol

  datatype Failure = Busy | Refused | Lost

  datatype Step = Opening | Executing | Recording | Committing | RollingBack

  /** A call to the database and what it answered. */
  datatype Call = Call(step: Step, failure: Option<Failure>)

  function Answer(step: Step, r: Result<(), Failure>): Call {
    Call(step, if r.Ok? then None else Some(r.error))
  }

  // ---- Which calls a migration makes ----

  /** The steps of a migration of `n` statements, in order. */
  function StepAt(n: nat, k: nat): Step {
    if k == 0 then Opening else if k <= n then Executing else if k == n + 1 then Recording else Committing
  }

  /** The first `k` calls are the first steps, all answered well. */
  predicate WentThrough(made: seq<Call>, n: nat, k: nat) {
    k <= |made| && forall i :: 0 <= i < k ==> made[i] == Call(StepAt(n, i), None)
  }

  /** All of a migration's steps, all answered well. */
  predicate AllWell(made: seq<Call>, n: nat) {
    |made| == n + 3 && WentThrough(made, n, n + 3)
  }

  /** Step `k` is the first to fail. */
  predicate FailedAt(made: seq<Call>, n: nat, k: nat, failure: Failure) {
    k < n + 3 && k < |made| && WentThrough(made, n, k) && made[k] == Call(StepAt(n, k), Some(failure))
  }

  /** One rollback behind step `k`; the transaction stays open if and only if it failed. */
  predicate RolledBackAfter(made: seq<Call>, k: nat, open: bool) {
    |made| == k + 2 && made[k + 1].step == RollingBack && (open <==> made[k + 1].failure.Some?)
  }

  /** Turso: whatever fails after BEGIN is rolled back, and its failure is the batch's. BEGIN is refused just
      when a transaction is open. */
  predicate BatchFailed(made: seq<Call>, n: nat, k: nat, failure: Failure, before: bool, open: bool) {
    && FailedAt(made, n, k, failure)
    && if k == 0 then |made| == 1 && open == before && (failure == Refused <==> before)
       else RolledBackAfter(made, k, open)
  }

  /** SQLite: a failed statement or insert is rolled back, and a failed rollback hides what it failed over; a
      failed COMMIT is not, and leaves the transaction open. */
  predicate SqliteFailed(made: seq<Call>, n: nat, k: nat, failure: Failure, before: bool, open: bool) {
    if k == 0 then FailedAt(made, n, k, failure) && |made| == 1 && open == before && (failure == Refused <==> before)
    else if k == n + 2 then FailedAt(made, n, k, failure) && |made| == k + 1 && open
    else
      && RolledBackAfter(made, k, open)
      && exists first :: FailedAt(made, n, k, first) && failure == if open then made[k + 1].failure.value else first
  }

  ghost predicate SomeCallFailed(made: seq<Call>, failure: Failure) {
    exists step :: Call(step, Some(failure)) in made
  }

  ghost predicate RollbackFailed(made: seq<Call>) {
    exists failure :: Call(RollingBack, Some(failure)) in made
  }

  predicate EndsWith(calls: seq<Call>, made: seq<Call>) {
    |made| <= |calls| && calls[|calls| - |made|..] == made
  }

  /** A BEGIN was refused: it met an open transaction. */
  predicate MetOpen(made: seq<Call>) {
    Call(Opening, Some(Refused)) in made
  }

  /** The migration cannot go through: a statement fails on the content, or the id is recorded. */
  predicate Impossible(entry: Entry, content: Db, recorded: seq<int>) {
    RunSql(entry.statements, |entry.statements|, content) == None || entry.id in recorded
  }

  /** What a Turso batch comes to: all its calls went well, or one failed and that is what it reports; and a
      refusal is the migration's own, unless a transaction was open before. */
  ghost predicate BatchReport(
    entry: Entry, made: seq<Call>, r: Result<(), Failure>, before: bool, open: bool, content: Db, recorded: seq<int>)
  {
    && (r.Ok? ==> AllWell(made, |entry.statements|) && !open)
    && (r.Err? ==> exists k: nat :: BatchFailed(made, |entry.statements|, k, r.error, before, open))
    && (r == Err(Refused) ==> before || Impossible(entry, content, recorded))
  }

  /** The same of a migration on SQLite. */
  ghost predicate SqliteReport(
    entry: Entry, made: seq<Call>, r: Result<(), Failure>, before: bool, open: bool, content: Db, recorded: seq<int>)
  {
    && (r.Ok? ==> AllWell(made, |entry.statements|) && !open)
    && (r.Err? ==> exists k: nat :: SqliteFailed(made, |entry.statements|, k, r.error, before, open))
    && (r == Err(Refused) ==> before || Impossible(entry, content, recorded))
  }

  lemma {:induction false} FailsOn(statements: seq<Sql>, k: nat, n: nat, db: Db)
    requires k <= n <= |statements| && RunSql(statements, k, db) == None
    ensures RunSql(statements, n, db) == None
  {
    if k < n {
      FailsOn(statements, k, n - 1, db);
    }
  }

  /** A failed BEGIN is all there is. */
  lemma NotOpened(made: seq<Call>, n: nat, r: Result<(), Failure>, before: bool)
    requires r.Err? && made == [Answer(Opening, r)] && (r.error == Refused <==> before)
    ensures BatchFailed(made, n, 0, r.error, before, before)
    ensures SqliteFailed(made, n, 0, r.error, before, before)
  {
  }

  /** Step `k` failed and was rolled back. */
  lemma Undone(
    made: seq<Call>, n: nat, k: nat, r: Result<(), Failure>, rolledBack: Result<(), Failure>, before: bool)
    requires 0 < k < n + 3 && |made| == k && WentThrough(made, n, k) && r.Err?
    ensures
      var all := made + [Answer(StepAt(n, k), r), Answer(RollingBack, rolledBack)];
      && BatchFailed(all, n, k, r.error, before, rolledBack.Err?)
      && (k < n + 2 ==>
            SqliteFailed(all, n, k, if rolledBack.Err? then rolledBack.error else r.error, before, rolledBack.Err?))
  {
    var all := made + [Answer(StepAt(n, k), r), Answer(RollingBack, rolledBack)];
    assert all[k + 1] == Answer(RollingBack, rolledBack);
    assert FailedAt(all, n, k, r.error);
  }

  /** The end of a migration whose statements and insert went through. */
  lemma NotCommitted(made: seq<Call>, n: nat, r: Result<(), Failure>, before: bool)
    requires |made| == n + 1 && WentThrough(made, n, n + 1)
    ensures
      var all := made + [Call(Recording, None), Answer(Committing, r)];
      if r.Ok? then AllWell(all, n) else SqliteFailed(all, n, n + 2, r.error, before, true)
  {
    var all := made + [Call(Recording, None), Answer(Committing, r)];
    assert forall i :: 0 <= i < n + 1 ==> all[i] == made[i];
  }

  /** A refused statement fails whatever the rest would do. */
  lemma StatementFails(entry: Entry, i: nat, content: Db, r: Result<(), Failure>)
    requires i < |entry.statements|
    requires r == Err(Refused) ==> RunSql(entry.statements, i + 1, content) == None
    ensures r == Err(Refused) ==> RunSql(entry.statements, |entry.statements|, content) == None
  {
    if r == Err(Refused) {
      FailsOn(entry.statements, i + 1, |entry.statements|, content);
    }
  }

  /** What tries of a batch, the last of which came to `r`, leave behind: a failure is one of their calls',
      and unless a rollback failed, they leave no transaction open and met none, and a refusal is the
      migration's own. */
  ghost predicate Tried(
    entry: Entry, made: seq<Call>, r: Result<(), Failure>, before: bool, open: bool, content: Db, recorded: seq<int>)
  {
    && (r.Err? ==> SomeCallFailed(made, r.error))
    && (!before && !RollbackFailed(made) ==>
          !open && !MetOpen(made) && (r == Err(Refused) ==> Impossible(entry, content, recorded)))
  }

  /** One try. */
  lemma TriedOnce(
    entry: Entry, made: seq<Call>, r: Result<(), Failure>, before: bool, open: bool, content: Db, recorded: seq<int>)
    requires BatchReport(entry, made, r, before, open, content, recorded)
    ensures Tried(entry, made, r, before, open, content, recorded)
  {
    if r.Err? {
      var k: nat :| BatchFailed(made, |entry.statements|, k, r.error, before, open);
      assert made[k] == Call(StepAt(|entry.statements|, k), Some(r.error));
      if open && k > 0 {
        assert made[k + 1] == Call(RollingBack, Some(made[k + 1].failure.value));
      }
    }
  }

  /** One more. */
  lemma TriedAgain(
    entry: Entry, tried: seq<Call>, made: seq<Call>, r: Result<(), Failure>, before: bool, mid: bool, open: bool,
    content: Db, recorded: seq<int>)
    requires Tried(entry, tried, Err(Busy), before, mid, content, recorded)
    requires BatchReport(entry, made, r, mid, open, content, recorded)
    ensures Tried(entry, tried + made, r, before, open, content, recorded)
  {
    TriedOnce(entry, made, r, mid, open, content, recorded);
    MoreCalls(tried, made);
  }

  lemma Associative(a: seq<Call>, b: seq<Call>, c: seq<Call>)
    ensures (a + b) + c == a + (b + c)
  {
  }

  lemma MoreCalls(a: seq<Call>, b: seq<Call>)
    ensures RollbackFailed(a + b) <==> RollbackFailed(a) || RollbackFailed(b)
    ensures MetOpen(a + b) <==> MetOpen(a) || MetOpen(b)
    ensures forall failure :: SomeCallFailed(b, failure) ==> SomeCallFailed(a + b, failure)
  {
  }

  /** What is committed, the open transaction's working copy of it, and the calls made so far. */
  class Connection {
    var content: Db
    var recorded: seq<int>
    var transaction: Option<(Db, seq<int>)>
    ghost var calls: seq<Call>

    constructor (content: Db, recorded: seq<int>)
      ensures this.content == content && this.recorded == recorded && transaction == None && calls == []
    {
      this.content, this.recorded, transaction, calls := content, recorded, None, [];
    }

    /** Nothing of a failed transaction shows. */
    twostate predicate NothingApplied()
      reads this
    {
      content == old(content) && recorded == old(recorded)
    }

    /** The whole migration and its id show. */
    twostate predicate Applied(entry: Entry)
      reads this
    {
      && entry.id !in old(recorded) && recorded == old(recorded) + [entry.id]
      && RunSql(entry.statements, |entry.statements|, old(content)) == Some(content)
    }

    method Begin() returns (r: Result<(), Failure>)
      modifies this`transaction, this`calls
      ensures r.Ok? ==> old(transaction) == None && transaction == Some((content, recorded))
      ensures r.Err? ==> transaction == old(transaction)
      ensures r == Err(Refused) <==> old(transaction).Some?
      ensures calls == old(calls) + [Answer(Opening, r)]
    {
      if transaction.Some? {
        r := Err(Refused);
      } else if * {
        r := Err(Busy);
      } else if * {
        r := Err(Lost);
      } else {
        transaction := Some((content, recorded));
        r := Ok(());
      }
      calls := calls + [Answer(Opening, r)];
    }

    method Execute(sql: Sql) returns (r: Result<(), Failure>)
      requires transaction.Some?
      modifies this`transaction, this`calls
      ensures r.Ok? ==>
        && sql(old(transaction).value.0).Some?
        && transaction == Some((sql(old(transaction).value.0).value, old(transaction).value.1))
      ensures r.Err? ==> transaction == old(transaction)
      ensures r == Err(Refused) ==> sql(old(transaction).value.0) == None
      ensures calls == old(calls) + [Answer(Executing, r)]
    {
      var after := sql(transaction.value.0);
      if * {
        r := Err(Lost);
      } else if * {
        r := Err(Busy);
      } else if after == None {
        r := Err(Refused);
      } else {
        transaction := Some((after.value, transaction.value.1));
        r := Ok(());
      }
      calls := calls + [Answer(Executing, r)];
    }

    /** The bookkeeping row: its id is a primary key. */
    method Insert(id: int) returns (r: Result<(), Failure>)
      requires transaction.Some?
      modifies this`transaction, this`calls
      ensures r.Ok? ==>
        && id !in old(transaction).value.1
        && transaction == Some((old(transaction).value.0, old(transaction).value.1 + [id]))
      ensures r.Err? ==> transaction == old(transaction)
      ensures r == Err(Refused) ==> id in old(transaction).value.1
      ensures calls == old(calls) + [Answer(Recording, r)]
    {
      if * {
        r := Err(Lost);
      } else if * {
        r := Err(Busy);
      } else if id in transaction.value.1 {
        r := Err(Refused);
      } else {
        transaction := Some((transaction.value.0, transaction.value.1 + [id]));
        r := Ok(());
      }
      calls := calls + [Answer(Recording, r)];
    }

    method Commit() returns (r: Result<(), Failure>)
      requires transaction.Some?
      modifies this
      ensures r.Ok? ==>
        && (content, recorded) == old(transaction).value && transaction == None
      ensures r.Err? ==> content == old(content) && recorded == old(recorded) && transaction == old(transaction)
      ensures r != Err(Refused)
      ensures calls == old(calls) + [Answer(Committing, r)]
    {
      if * {
        r := Err(Busy);
      } else if * {
        r := Err(Lost);
      } else {
        content, recorded := transaction.value.0, transaction.value.1;
        transaction := None;
        r := Ok(());
      }
      calls := calls + [Answer(Committing, r)];
    }

    method Rollback() returns (r: Result<(), Failure>)
      modifies this`transaction, this`calls
      ensures r.Ok? ==> transaction == None
      ensures r.Err? ==> transaction == old(transaction)
      ensures r != Err(Refused)
      ensures calls == old(calls) + [Answer(RollingBack, r)]
    {
      if * {
        r := Err(Lost);
      } else {
        transaction := None;
        r := Ok(());
      }
      calls := calls + [Answer(RollingBack, r)];
    }

    /** SQLite: every step may fail, and the first failure ends the migration. */
    method ApplySqlite(entry: Entry) returns (r: Result<(), Failure>, ghost made: seq<Call>)
      modifies this
      ensures r.Ok? ==> Applied(entry) && transaction == None
      ensures r.Err? ==> NothingApplied()
      ensures calls == old(calls) + made
      ensures SqliteReport(entry, made, r, old(transaction).Some?, transaction.Some?, old(content), old(recorded))
    {
      ghost var n := |entry.statements|;
      var begun := Begin();
      made := [Answer(Opening, begun)];
      if begun.Err? {
        NotOpened(made, n, begun, old(transaction).Some?);
        return begun, made;
      }
      for i := 0 to |entry.statements|
        invariant content == old(content) && recorded == old(recorded)
        invariant transaction.Some? && transaction.value.1 == recorded
        invariant RunSql(entry.statements, i, content) == Some(transaction.value.0)
        invariant calls == old(calls) + made && |made| == i + 1 && WentThrough(made, n, i + 1)
      {
        var executed := Execute(entry.statements[i]);
        if executed.Err? {
          var rolledBack := Rollback();
          Undone(made, n, i + 1, executed, rolledBack, old(transaction).Some?);
          StatementFails(entry, i, content, executed);
          made := made + [Answer(Executing, executed), Answer(RollingBack, rolledBack)];
          return if rolledBack.Err? then rolledBack else executed, made;
        }
        made := made + [Answer(Executing, executed)];
      }
      var inserted := Insert(entry.id);
      if inserted.Err? {
        var rolledBack := Rollback();
        Undone(made, n, n + 1, inserted, rolledBack, old(transaction).Some?);
        made := made + [Answer(Recording, inserted), Answer(RollingBack, rolledBack)];
        return if rolledBack.Err? then rolledBack else inserted, made;
      }
      r := Commit();
      NotCommitted(made, n, r, old(transaction).Some?);
      made := made + [Answer(Recording, inserted), Answer(Committing, r)];
    }

    /** Turso: the statements and the insert are one batch, and any failure rolls it back. */
    method TransactionalBatch(entry: Entry) returns (r: Result<(), Failure>, ghost made: seq<Call>)
      modifies this
      ensures r.Ok? ==> Applied(entry) && transaction == None
      ensures r.Err? ==> NothingApplied()
      ensures calls == old(calls) + made
      ensures BatchReport(entry, made, r, old(transaction).Some?, transaction.Some?, old(content), old(recorded))
    {
      ghost var n := |entry.statements|;
      var begun := Begin();
      made := [Answer(Opening, begun)];
      if begun.Err? {
        NotOpened(made, n, begun, old(transaction).Some?);
        return begun, made;
      }
      for i := 0 to |entry.statements|
        invariant content == old(content) && recorded == old(recorded)
        invariant transaction.Some? && transaction.value.1 == recorded
        invariant RunSql(entry.statements, i, content) == Some(transaction.value.0)
        invariant calls == old(calls) + made && |made| == i + 1 && WentThrough(made, n, i + 1)
      {
        var executed := Execute(entry.statements[i]);
        if executed.Err? {
          var rolledBack := Rollback();
          Undone(made, n, i + 1, executed, rolledBack, old(transaction).Some?);
          StatementFails(entry, i, content, executed);
          made := made + [Answer(Executing, executed), Answer(RollingBack, rolledBack)];
          return executed, made;
        }
        made := made + [Answer(Executing, executed)];
      }
      var inserted := Insert(entry.id);
      if inserted.Err? {
        var rolledBack := Rollback();
        Undone(made, n, n + 1, inserted, rolledBack, old(transaction).Some?);
        made := made + [Answer(Recording, inserted), Answer(RollingBack, rolledBack)];
        return inserted, made;
      }
      made := made + [Answer(Recording, inserted)];
      r := Commit();
      if r.Err? {
        var rolledBack := Rollback();
        Undone(made, n, n + 2, r, rolledBack, old(transaction).Some?);
        made := made + [Answer(Committing, r), Answer(RollingBack, rolledBack)];
      } else {
        made := made + [Answer(Committing, r)];
      }
    }

    /** Tries the batch again while the database is busy, for ten seconds: a batch that failed left
        nothing behind, so one success is one application. Unless a rollback failed, no try meets the
        transaction of the one before. */
    method ApplyTurso(entry: Entry, clock: Clock) returns (r: Result<(), Failure>, ghost made: seq<Call>)
      modifies this, clock
      ensures r.Ok? ==> Applied(entry) && transaction == None
      ensures r.Err? ==> NothingApplied()
      ensures r == Err(Busy) ==> clock.now >= old(clock.now) + RETRY_FOR
      ensures calls == old(calls) + made
      ensures Tried(entry, made, r, old(transaction).Some?, transaction.Some?, old(content), old(recorded))
      ensures exists n: nat :: clock.slept == Backoffs(old(clock.slept), n)
    {
      var deadline := clock.now + RETRY_FOR;
      var delay := 10;
      ghost var sleeps: nat := 0;
      r, made := TransactionalBatch(entry);
      TriedOnce(entry, made, r, old(transaction).Some?, transaction.Some?, old(content), old(recorded));
      while r == Err(Busy) && clock.now < deadline
        invariant r.Ok? ==> Applied(entry) && transaction == None
        invariant r.Err? ==> NothingApplied()
        invariant calls == old(calls) + made
        invariant Tried(entry, made, r, old(transaction).Some?, transaction.Some?, old(content), old(recorded))
        invariant clock.now >= old(clock.now) && clock.slept == Backoffs(old(clock.slept), sleeps)
        invariant delay == Backoff(sleeps)
        decreases deadline - clock.now
      {
        clock.Sleep(delay);
        delay := if delay * 2 < 250 then delay * 2 else 250;
        sleeps := sleeps + 1;
        ghost var mid := transaction.Some?;
        ghost var more;
        r, more := TransactionalBatch(entry);
        TriedAgain(entry, made, more, r, old(transaction).Some?, mid, transaction.Some?, old(content), old(recorded));
        Associative(old(calls), made, more);
        made := made + more;
      }
    }

    /** The command's loop: what the recorded ids left pending, one migration each, up to the first
        failure. `applied` migrations went through, whole; on success that is all of them; otherwise `made`
        are the calls the next one failed with, and its report is the loop's. What the loop does is an
        execution of the protocol, by a single run. */
    method ApplyMigrations(history: seq<Entry>)
        returns (r: Result<(), Failure>, applied: nat, ghost states: seq<State>, ghost made: seq<Call>)
      modifies this
      ensures
        var pending := Pending(history, old(recorded), |history|);
        && applied <= |pending|
        && recorded == old(recorded) + Ids(pending[..applied])
        && Fold(pending, 0, applied, old(content)) == Some(content)
        && (r.Ok? ==> applied == |pending|)
        && Leads(
             history, states, State(old(content), old(recorded), [Idle]),
             State(content, recorded, [Between(pending[applied..])]))
      ensures Distinct(old(recorded)) ==> Execution(history, states)
      ensures old(transaction) == None && r.Ok? ==> transaction == None
      ensures old(transaction) == None && r.Err? ==>
        var pending := Pending(history, old(recorded), |history|);
        && applied < |pending| && EndsWith(calls, made)
        && SqliteReport(pending[applied], made, r, false, transaction.Some?, content, recorded)
    {
      var pending := PendingEntries(history);
      applied, made := 0, [];
      r := Ok(());
      ghost var start := State(content, recorded, [Idle]);
      LookUpSteps(history, content, recorded);
      states := [start, State(content, recorded, [Between(pending)])];
      assert pending[0..] == pending;
      while applied < |pending|
        invariant applied <= |pending|
        invariant recorded == old(recorded) + Ids(pending[..applied])
        invariant Fold(pending, 0, applied, old(content)) == Some(content)
        invariant old(transaction) == None ==> transaction == None
        invariant r.Ok?
        invariant Leads(history, states, start, State(content, recorded, [Between(pending[applied..])]))
      {
        ghost var before := State(content, recorded, [Between(pending[applied..])]);
        r, made := ApplySqlite(pending[applied]);
        if r.Err? {
          return;
        }
        ghost var more := MigrationSteps(history, before.content, before.recorded, pending[applied..], content);
        assert pending[applied..][1..] == pending[applied + 1..];
        LeadsOn(
          history, states, more, start, before, State(content, recorded, [Between(pending[applied + 1..])]));
        states := states + more[1..];
        assert Ids(pending[..applied + 1]) == Ids(pending[..applied]) + [pending[applied].id];
        applied := applied + 1;
      }
    }

    /** The history's entries that are not recorded yet. */
    method PendingEntries(history: seq<Entry>) returns (pending: seq<Entry>)
      ensures pending == Pending(history, recorded, |history|)
    {
      pending := [];
      for i := 0 to |history|
        invariant pending == Pending(history, recorded, i)
      {
        if history[i].id !in recorded {
          pending := pending + [history[i]];
        }
      }
    }
  }

  const RETRY_FOR := 10000

  /** The delay after `n` others: twice the one before, up to a quarter of a second. */
  function Backoff(n: nat): (delay: nat)
    ensures 10 <= delay <= 250
  {
    if n == 0 then 10 else if Backoff(n - 1) * 2 < 250 then Backoff(n - 1) * 2 else 250
  }

  /** The first `n` delays, behind what was slept before. */
  function Backoffs(before: seq<nat>, n: nat): seq<nat> {
    if n == 0 then before else Backoffs(before, n - 1) + [Backoff(n - 1)]
  }

  /** Wall time in milliseconds, and the sleeps asked for; a sleep lasts at least as long as asked. */
  class Clock {
    var now: nat
    ghost var slept: seq<nat>

    method Sleep(delay: nat)
      modifies this
      ensures now >= old(now) + delay
      ensures slept == old(slept) + [delay]
    {
      var late :| 0 <= late;
      now := now + delay + late;
      slept := slept + [delay];
    }
  }
}
