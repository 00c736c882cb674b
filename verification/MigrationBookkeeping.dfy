/** What the two bookkeeping tables of the migration runner say about the runs so far. */
module MigrationBookkeeping {
  import opened MigrationRunner

  function FailedExecutions(trace: seq<Execution>, name: string): nat {
    if trace == [] then 0
    else (if trace[|trace| - 1] == Execution(name, true) then 1 else 0) + FailedExecutions(trace[..|trace| - 1], name)
  }

  predicate Disjoint(db: Db) {
    forall name | name in db.failures :: name !in db.applied
  }

  /** A successful execution is a migration's last one. */
  predicate NeverAgain(trace: seq<Execution>) {
    forall i, j | 0 <= i < j < |trace| && trace[i].name == trace[j].name :: trace[i].failed
  }

  predicate SuccessIsApplied(db: Db) {
    forall i | 0 <= i < |db.trace| && !db.trace[i].failed :: db.trace[i].name in db.applied
  }

  ghost predicate Kept(db: Db) {
    Disjoint(db) && NeverAgain(db.trace) && SuccessIsApplied(db) && Counted(db)
  }

  ghost predicate Counted(db: Db) {
    forall name: string | name !in db.applied ::
      FailedExecutions(db.trace, name) == if name in db.failures then db.failures[name] else 0
  }

  /** No bookkeeping query of the run fails: a fault can only strike one of the migration's own statements. */
  predicate BookkeepingWorks(m: Migration, plan: Plan) {
    !plan.selectFails && plan.record.Written? && (plan.fault.Fault? ==> plan.fault.at < |m.statements|)
  }

  predicate AllBookkeepingWorks(list: seq<Migration>, plans: seq<Plan>) {
    |plans| == |list| && forall i | 0 <= i < |list| :: BookkeepingWorks(list[i], plans[i])
  }

  /** A fault is met at its own query, or is still to come. */
  lemma {:induction false} FaultIsMetInOrder(s: Schema, statements: seq<Statement>, fault: Fault)
    requires Through(s, statements, fault).1
    ensures fault.NoFault? ==> Through(s, statements, fault).2 == NoFault
    ensures fault.Fault? ==>
      fault.at >= |statements| && Through(s, statements, fault).2 == Fault(fault.at - |statements|, fault.took)
    decreases statements
  {
    hide Attempt, Execute;
    if statements != [] {
      FaultIsMetInOrder(Attempt(s, statements[0]).value, statements[1..], Later(fault));
    }
  }

  /** With working bookkeeping, one migration ends up applied and cleared, or counted as failed once more. */
  lemma OneOutcome(db: Db, m: Migration, plan: Plan)
    requires BookkeepingWorks(m, plan) && m.name !in db.applied
    ensures
      var (next, alive) := RunOne(db, m, plan);
      alive &&
      ((next.applied == db.applied + {m.name} && next.failures == db.failures - {m.name} &&
        next.trace == db.trace + [Execution(m.name, false)]) ||
       (next.applied == db.applied && next.failures == CountedFailure(db.failures, m.name) &&
        next.trace == db.trace + [Execution(m.name, true)]))
  {
    hide Through;
    if Through(db.schema, m.statements, plan.fault).1 {
      FaultIsMetInOrder(db.schema, m.statements, plan.fault);
    }
  }

  lemma RunOneKeeps(db: Db, m: Migration, plan: Plan)
    requires BookkeepingWorks(m, plan) && Kept(db)
    ensures
      var (next, alive) := RunOne(db, m, plan);
      alive && Kept(next) && Known(next, m.name) && db.applied <= next.applied &&
      forall name | Known(db, name) :: Known(next, name)
  {
    if m.name !in db.applied {
      OneOutcome(db, m, plan);
      hide RunOne;
      var next := RunOne(db, m, plan).0;
      var last := next.trace[|db.trace|];
      assert next.trace[..|db.trace|] == db.trace && last.name == m.name;
      forall name: string ensures FailedExecutions(next.trace, name) ==
        FailedExecutions(db.trace, name) + (if last == Execution(name, true) then 1 else 0)
      {
      }
      forall i, j | 0 <= i < j < |next.trace| && next.trace[i].name == next.trace[j].name ensures next.trace[i].failed {
        assert next.trace[i] == db.trace[i];
      }
    }
  }

  predicate Known(db: Db, name: string) {
    name in db.applied || name in db.failures
  }

  lemma {:induction false} RunKeeps(db: Db, list: seq<Migration>, plans: seq<Plan>)
    requires AllBookkeepingWorks(list, plans) && Kept(db)
    ensures
      var next := Run(db, list, plans);
      Kept(next) && (forall m | m in list :: Known(next, m.name)) && db.applied <= next.applied &&
      forall name | Known(db, name) :: Known(next, name)
    decreases list
  {
    hide Kept, RunOne, Known;
    if list != [] {
      RunOneKeeps(db, list[0], plans[0]);
      var next := RunOne(db, list[0], plans[0]).0;
      assert forall i | 0 <= i < |list[1..]| :: list[1..][i] == list[i + 1] && plans[1..][i] == plans[i + 1];
      RunKeeps(next, list[1..], plans[1..]);
      assert forall m | m in list :: m == list[0] || m in list[1..];
    }
  }

  lemma {:induction false} RunsKeep(db: Db, list: seq<Migration>, runs: seq<seq<Plan>>)
    requires (forall r | r in runs :: |r| == |list| && AllBookkeepingWorks(list, r)) && Kept(db)
    ensures
      var next := Runs(db, list, runs);
      Kept(next) && (runs != [] ==> forall m | m in list :: Known(next, m.name)) && db.applied <= next.applied
    decreases runs
  {
    hide Kept, Run, Known;
    if runs != [] {
      RunKeeps(db, list, runs[0]);
      RunsKeep(Run(db, list, runs[0]), list, runs[1..]);
      KnownStays(Run(db, list, runs[0]), list, runs[1..]);
    }
  }

  lemma {:induction false} KnownStays(db: Db, list: seq<Migration>, runs: seq<seq<Plan>>)
    requires (forall r | r in runs :: |r| == |list| && AllBookkeepingWorks(list, r)) && Kept(db)
    ensures forall name | Known(db, name) :: Known(Runs(db, list, runs), name)
    decreases runs
  {
    hide Kept, Run, Known;
    if runs != [] {
      RunKeeps(db, list, runs[0]);
      KnownStays(Run(db, list, runs[0]), list, runs[1..]);
    }
  }

  /** A database before its first run. */
  predicate Untouched(db: Db) {
    db.failures == map[] && db.trace == []
  }

  /**
   After any runs whose bookkeeping works: applied and failed names are disjoint, every listed migration is one or
   the other, an applied one is never executed again, and `attempts` counts the failed executions.
   */
  lemma BookkeepingIsRight(db0: Db, list: seq<Migration>, runs: seq<seq<Plan>>)
    requires Untouched(db0) && runs != [] && forall r | r in runs :: |r| == |list| && AllBookkeepingWorks(list, r)
    ensures
      var db := Runs(db0, list, runs);
      Disjoint(db) && NeverAgain(db.trace) && SuccessIsApplied(db) &&
      (forall m | m in list :: m.name in db.applied || m.name in db.failures) &&
      (forall name | name in db.failures :: db.failures[name] == FailedExecutions(db.trace, name))
  {
    assert Kept(db0);
    RunsKeep(db0, list, runs);
  }

  function FailedNames(names: seq<string>, failures: map<string, nat>): seq<string> {
    if names == [] then []
    else (if names[0] in failures then [names[0]] else []) + FailedNames(names[1..], failures)
  }

  /** The pending names of the status are the listed failed names, in list order. */
  lemma {:induction false} PendingIsFailed(db: Db, names: seq<string>)
    requires Disjoint(db) && forall name | name in names :: name in db.applied || name in db.failures
    ensures PendingNames(names, db.applied) == FailedNames(names, db.failures)
  {
    if names != [] {
      assert names[0] in names && forall name | name in names[1..] :: name in names;
      PendingIsFailed(db, names[1..]);
    }
  }

  // ---------- When a bookkeeping write fails ----------

  predicate Both(db: Db, name: string) {
    name in db.applied && name in db.failures
  }

  /**
   A migration becomes both applied and failed exactly when all its statements pass, then the applied row is written
   under an error or the deletion of its failure row fails, and a failure row is written or an old one is left.
   */
  lemma AppliedAndFailedExactly(db: Db, m: Migration, plan: Plan)
    requires Disjoint(db)
    ensures
      var n := |m.statements|;
      Both(RunOne(db, m, plan).0, m.name) <==>
      (!plan.selectFails && m.name !in db.applied && Through(db.schema, m.statements, plan.fault).1 &&
       plan.fault.Fault? && ((plan.fault.at == n && plan.fault.took) || plan.fault.at == n + 1) &&
       (!plan.record.Lost? || (m.name in db.failures && (plan.fault.at == n || !plan.fault.took))))
  {
    hide Through;
    if Through(db.schema, m.statements, plan.fault).1 {
      FaultIsMetInOrder(db.schema, m.statements, plan.fault);
    }
  }

  /** No later run ever clears such a name: the migration is skipped, and its failure row stays. */
  lemma {:induction false} BothForever(db: Db, list: seq<Migration>, plans: seq<Plan>, name: string)
    requires |plans| == |list| && Both(db, name)
    ensures Both(Run(db, list, plans), name)
    decreases list
  {
    hide Through;
    if list != [] {
      var (next, alive) := RunOne(db, list[0], plans[0]);
      assert Both(next, name);
      if alive {
        BothForever(next, list[1..], plans[1..], name);
      }
    }
  }
}
