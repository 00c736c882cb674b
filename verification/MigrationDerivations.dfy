/** Which derivations decide whether retries reach the rows of an uninterrupted run. */
module MigrationDerivations {
  import opened MigrationConvergence
  import opened MigrationGrowth
  import opened MigrationRunner

  /** The row is there, or some statement makes it at its turn. */
  predicate Made(there: set<Object>, xs: seq<Statement>, o: Object) {
    o in there || exists i | 0 <= i < |xs| :: Derives(there, xs, i, o)
  }

  /**
   A derivation that has its sources at its turn in the uninterrupted run, and whose row is neither there now nor made
   by a pending statement, although its sources all are or come: it was applied without them, or now comes before them.
   */
  predicate MissesSources(db0: Db, db: Db, list: seq<Migration>) {
    var xs := Statements(list, db0.applied);
    exists i, r | 0 <= i < |xs| && xs[i].InsertIgnore? && r in xs[i].rules ::
      Missed(RowsIn(db0.schema), xs, i, r, RowsIn(db.schema), Statements(list, db.applied))
  }

  predicate Missed(start: set<Object>, xs: seq<Statement>, i: nat, r: Derivation, there: set<Object>,
        pending: seq<Statement>)
    requires i < |xs| && xs[i].InsertIgnore?
  {
    Ready(r, xs[i].from, Gather(start, xs[..i])) && Ready(r, xs[i].from, Gather(there, pending)) &&
    !Made(there, pending, Row(xs[i].table, r.key))
  }

  /**
   A derivation whose sources the uninterrupted run gets only after its turn, so that it never makes the row, and whose
   row is there now or made by a pending statement.
   */
  predicate FindsLateSources(db0: Db, db: Db, list: seq<Migration>) {
    var xs := Statements(list, db0.applied);
    exists x, r | x in xs && x.InsertIgnore? && r in x.rules ::
      Late(RowsIn(db0.schema), xs, x, r) && Made(RowsIn(db.schema), Statements(list, db.applied), Row(x.table, r.key))
  }

  predicate Late(start: set<Object>, xs: seq<Statement>, x: Statement, r: Derivation)
    requires x.InsertIgnore?
  {
    Ready(r, x.from, Gather(start, xs)) && !Made(start, xs, Row(x.table, r.key))
  }

  lemma MadeIsGathered(there: set<Object>, xs: seq<Statement>, o: Object)
    ensures Made(there, xs, o) <==> o in Gather(there, xs)
  {
    hide Derives;
    ComesExactly(there, xs, o);
  }

  lemma MoreReady(r: Derivation, from: set<string>, a: set<Object>, b: set<Object>)
    requires Ready(r, from, a) && a <= b
    ensures Ready(r, from, b)
  {
  }

  lemma {:induction false} GatherKeeps(there: set<Object>, xs: seq<Statement>)
    ensures there <= Gather(there, xs)
    decreases xs
  {
    hide Yield;
    if xs != [] {
      GatherKeeps(there + Yield(xs[0], there), xs[1..]);
    }
  }

  // ---------- Rows lost ----------

  /** Without a missed derivation, whatever the uninterrupted run has gathered by any turn comes here too. */
  lemma {:induction false} NoneMissed(start: set<Object>, xs: seq<Statement>, there: set<Object>,
        pending: seq<Statement>, n: nat)
    requires n <= |xs| && start <= there
    requires forall i, r | 0 <= i < |xs| && xs[i].InsertIgnore? && r in xs[i].rules ::
      !Missed(start, xs, i, r, there, pending)
    ensures Gather(start, xs[..n]) <= Gather(there, pending)
  {
    hide Ready, Made, Yield;
    GatherKeeps(there, pending);
    if n > 0 {
      NoneMissed(start, xs, there, pending, n - 1);
      assert xs[..n] == xs[..n - 1] + [xs[n - 1]];
      GatherChains(start, xs[..n - 1], [xs[n - 1]]);
      OneGather(Gather(start, xs[..n - 1]), xs[n - 1]);
      YieldsCome(start, xs, there, pending, n - 1);
    } else {
      assert xs[..0] == [];
    }
  }

  lemma YieldsCome(start: set<Object>, xs: seq<Statement>, there: set<Object>, pending: seq<Statement>, i: nat)
    requires i < |xs| && Gather(start, xs[..i]) <= Gather(there, pending)
    requires xs[i].InsertIgnore? ==> forall r | r in xs[i].rules :: !Missed(start, xs, i, r, there, pending)
    ensures Yield(xs[i], Gather(start, xs[..i])) <= Gather(there, pending)
  {
    hide Ready, Made, Gather;
    var x, so := xs[i], Gather(start, xs[..i]);
    forall o | o in Yield(x, so) ensures o in Gather(there, pending) {
      var r :| r in x.rules && Ready(r, x.from, so) && Row(x.table, r.key) == o;
      MoreReady(r, x.from, so, Gather(there, pending));
      assert !Missed(start, xs, i, r, there, pending);
      MadeIsGathered(there, pending, o);
    }
  }

  lemma MissedIsLost(start: set<Object>, xs: seq<Statement>, i: nat, r: Derivation, there: set<Object>,
        pending: seq<Statement>)
    requires i < |xs| && xs[i].InsertIgnore? && r in xs[i].rules && Missed(start, xs, i, r, there, pending)
    ensures Row(xs[i].table, r.key) in Gather(start, xs) && Row(xs[i].table, r.key) !in Gather(there, pending)
  {
    hide Ready, Gather;
    var o := Row(xs[i].table, r.key);
    assert Derives(start, xs, i, o);
    MadeIsGathered(start, xs, o);
    MadeIsGathered(there, pending, o);
  }

  /** A row is lost exactly when some derivation misses its sources. */
  lemma LosesExactly(db0: Db, db: Db, list: seq<Migration>)
    requires RowsIn(db0.schema) <= RowsIn(db.schema)
    ensures LosesARow(db0, db, list) <==> MissesSources(db0, db, list)
  {
    hide Statements, RowsIn, Missed, Gather;
    var start, xs, there, pending :=
      RowsIn(db0.schema), Statements(list, db0.applied), RowsIn(db.schema), Statements(list, db.applied);
    if MissesSources(db0, db, list) {
      var i, r :| 0 <= i < |xs| && xs[i].InsertIgnore? && r in xs[i].rules && Missed(start, xs, i, r, there, pending);
      MissedIsLost(start, xs, i, r, there, pending);
      assert Row(xs[i].table, r.key) in Arriving(db0, list);
    } else {
      NoneMissed(start, xs, there, pending, |xs|);
      assert xs[..|xs|] == xs;
    }
  }

  // ---------- Rows gained ----------

  /** No statement makes, out of rows of `a`, a row of `b` outside `a`. */
  predicate Shut(xs: seq<Statement>, a: set<Object>, b: set<Object>) {
    forall x, r | x in xs && x.InsertIgnore? && r in x.rules && Ready(r, x.from, a) && Row(x.table, r.key) in b ::
      Row(x.table, r.key) in a
  }

  lemma YieldIsShut(xs: seq<Statement>, x: Statement, there: set<Object>, a: set<Object>, b: set<Object>)
    requires Shut(xs, a, b) && x in xs && there <= a && there + Yield(x, there) <= b
    ensures there + Yield(x, there) <= a
  {
    hide Ready;
    forall o | o in Yield(x, there) ensures o in a {
      var r :| r in x.rules && Ready(r, x.from, there) && Row(x.table, r.key) == o;
      MoreReady(r, x.from, there, a);
    }
  }

  lemma {:induction false} GatherIsShut(xs: seq<Statement>, there: set<Object>, ys: seq<Statement>, a: set<Object>,
        b: set<Object>)
    requires Shut(xs, a, b) && (forall y | y in ys :: y in xs) && there <= a && Gather(there, ys) <= b
    ensures Gather(there, ys) <= a
    decreases ys
  {
    hide Shut, Yield;
    if ys != [] {
      GatherKeeps(there + Yield(ys[0], there), ys[1..]);
      YieldIsShut(xs, ys[0], there, a, b);
      GatherIsShut(xs, there + Yield(ys[0], there), ys[1..], a, b);
    }
  }

  /** Whatever a statement does, with or without an error, it leaves its rows or none. */
  lemma StepRows(s: Schema, x: Statement)
    ensures RowsIn(Next(s, x)) == RowsIn(s) || RowsIn(Next(s, x)) == RowsIn(s) + Yield(x, RowsIn(s))
  {
    hide RowsIn, Yield;
    StepYields(s, x);
  }

  lemma {:induction false} ThroughIsShut(xs: seq<Statement>, s: Schema, statements: seq<Statement>, fault: Fault,
        a: set<Object>, b: set<Object>)
    requires Shut(xs, a, b) && (forall x | x in statements :: x in xs) && RowsIn(s) <= a
    ensures RowsIn(s) <= RowsIn(Through(s, statements, fault).0)
    ensures RowsIn(Through(s, statements, fault).0) <= b ==> RowsIn(Through(s, statements, fault).0) <= a
    decreases statements
  {
    hide Shut, Yield, RowsIn, Execute, Attempt, Next;
    if statements != [] {
      var x := statements[0];
      StepRows(s, x);
      NextIs(s, x);
      if RowsIn(Next(s, x)) <= b {
        YieldOrNothing(xs, x, RowsIn(s), RowsIn(Next(s, x)), a, b);
      }
      if !(fault.Fault? && fault.at == 0) && Attempt(s, x).Success? {
        ThroughAdds(Next(s, x), statements[1..], Later(fault));
        if RowsIn(Next(s, x)) <= b {
          ThroughIsShut(xs, Next(s, x), statements[1..], Later(fault), a, b);
        }
      }
    }
  }

  lemma YieldOrNothing(xs: seq<Statement>, x: Statement, there: set<Object>, next: set<Object>, a: set<Object>,
        b: set<Object>)
    requires Shut(xs, a, b) && x in xs && there <= a && next <= b && (next == there || next == there + Yield(x, there))
    ensures next <= a
  {
    hide Shut, Yield;
    if next != there {
      YieldIsShut(xs, x, there, a, b);
    }
  }

  lemma NextIs(s: Schema, x: Statement)
    ensures Next(s, x) == if Execute(s, x).Success? then Execute(s, x).value else s
    ensures Attempt(s, x).Success? ==> Attempt(s, x).value == Next(s, x)
  {
  }

  lemma {:induction false} ThroughAdds(s: Schema, statements: seq<Statement>, fault: Fault)
    ensures RowsIn(s) <= RowsIn(Through(s, statements, fault).0)
    decreases statements
  {
    hide Yield, RowsIn, Execute, Attempt, Next;
    if statements != [] {
      var x := statements[0];
      StepRows(s, x);
      NextIs(s, x);
      if !(fault.Fault? && fault.at == 0) && Attempt(s, x).Success? {
        ThroughAdds(Next(s, x), statements[1..], Later(fault));
      }
    }
  }

  /** Every statement of a migration that is not in `skip` is one of `xs`. */
  predicate Covered(list: seq<Migration>, skip: set<string>, xs: seq<Statement>) {
    forall m, x | m in list && m.name !in skip && x in m.statements :: x in xs
  }

  lemma RunOneIsShut(list: seq<Migration>, skip: set<string>, xs: seq<Statement>, db: Db, m: Migration, plan: Plan,
        a: set<Object>, b: set<Object>)
    requires Shut(xs, a, b) && Covered(list, skip, xs) && m in list && skip <= db.applied && RowsIn(db.schema) <= a
    ensures
      var next := RunOne(db, m, plan).0;
      skip <= next.applied && RowsIn(db.schema) <= RowsIn(next.schema) &&
      (RowsIn(next.schema) <= b ==> RowsIn(next.schema) <= a)
  {
    hide Shut, Through, RowsIn;
    if !plan.selectFails && m.name !in db.applied {
      ThroughIsShut(xs, db.schema, m.statements, plan.fault, a, b);
    }
  }

  lemma RunOneAdds(db: Db, m: Migration, plan: Plan)
    ensures RowsIn(db.schema) <= RowsIn(RunOne(db, m, plan).0.schema)
  {
    hide Through, RowsIn;
    if !plan.selectFails && m.name !in db.applied {
      ThroughAdds(db.schema, m.statements, plan.fault);
    }
  }

  lemma {:induction false} RunAdds(db: Db, rest: seq<Migration>, plans: seq<Plan>)
    requires |plans| == |rest|
    ensures RowsIn(db.schema) <= RowsIn(Run(db, rest, plans).schema)
    decreases rest
  {
    hide RunOne, RowsIn;
    if rest != [] {
      RunOneAdds(db, rest[0], plans[0]);
      var (next, alive) := RunOne(db, rest[0], plans[0]);
      if alive {
        RunAdds(next, rest[1..], plans[1..]);
      }
    }
  }

  lemma {:induction false} RunsAdd(db: Db, list: seq<Migration>, runs: seq<seq<Plan>>)
    requires forall r | r in runs :: |r| == |list|
    ensures RowsIn(db.schema) <= RowsIn(Runs(db, list, runs).schema)
    decreases runs
  {
    hide Run, RowsIn;
    if runs != [] {
      RunAdds(db, list, runs[0]);
      RunsAdd(Run(db, list, runs[0]), list, runs[1..]);
    }
  }

  lemma {:induction false} RunIsShut(list: seq<Migration>, skip: set<string>, xs: seq<Statement>, db: Db,
        rest: seq<Migration>, plans: seq<Plan>, a: set<Object>, b: set<Object>)
    requires Shut(xs, a, b) && Covered(list, skip, xs) && |plans| == |rest| && forall m | m in rest :: m in list
    requires skip <= db.applied && RowsIn(db.schema) <= a
    ensures
      var next := Run(db, rest, plans);
      skip <= next.applied && (RowsIn(next.schema) <= b ==> RowsIn(next.schema) <= a)
    decreases rest
  {
    hide Shut, Covered, RunOne, RowsIn;
    if rest != [] {
      RunOneIsShut(list, skip, xs, db, rest[0], plans[0], a, b);
      var (next, alive) := RunOne(db, rest[0], plans[0]);
      if alive {
        RunAdds(next, rest[1..], plans[1..]);
        RunAppliedGrows(next, rest[1..], plans[1..]);
        if RowsIn(next.schema) <= b {
          RunIsShut(list, skip, xs, next, rest[1..], plans[1..], a, b);
        }
      }
    }
  }

  lemma {:induction false} RunAppliedGrows(db: Db, rest: seq<Migration>, plans: seq<Plan>)
    requires |plans| == |rest|
    ensures db.applied <= Run(db, rest, plans).applied
    decreases rest
  {
    hide Through;
    if rest != [] {
      var (next, alive) := RunOne(db, rest[0], plans[0]);
      if alive {
        RunAppliedGrows(next, rest[1..], plans[1..]);
      }
    }
  }

  lemma {:induction false} RunsAreShut(list: seq<Migration>, skip: set<string>, xs: seq<Statement>, db: Db,
        runs: seq<seq<Plan>>, a: set<Object>, b: set<Object>)
    requires Shut(xs, a, b) && Covered(list, skip, xs) && forall r | r in runs :: |r| == |list|
    requires skip <= db.applied && RowsIn(db.schema) <= a && RowsIn(Runs(db, list, runs).schema) <= b
    ensures RowsIn(Runs(db, list, runs).schema) <= a
    decreases runs
  {
    hide Shut, Covered, Run, RowsIn;
    if runs != [] {
      var next := Run(db, list, runs[0]);
      RunsAdd(next, list, runs[1..]);
      RunIsShut(list, skip, xs, db, list, runs[0], a, b);
      RunsAreShut(list, skip, xs, next, runs[1..], a, b);
    }
  }

  lemma {:induction false} RunsAppliedGrow(db: Db, list: seq<Migration>, runs: seq<seq<Plan>>)
    requires forall r | r in runs :: |r| == |list|
    ensures db.applied <= Runs(db, list, runs).applied
    decreases runs
  {
    hide Run;
    if runs != [] {
      RunAppliedGrows(db, list, runs[0]);
      RunsAppliedGrow(Run(db, list, runs[0]), list, runs[1..]);
    }
  }

  lemma PendingIsCovered(list: seq<Migration>, skip: set<string>, applied: set<string>)
    requires skip <= applied
    ensures Covered(list, skip, Statements(list, skip))
    ensures forall x | x in Statements(list, applied) :: x in Statements(list, skip)
  {
    hide Statements;
    forall m, x | m in list && m.name !in skip && x in m.statements ensures x in Statements(list, skip) {
      StatementsOf(list, skip, x);
    }
    forall x | x in Statements(list, applied) ensures x in Statements(list, skip) {
      StatementsOf(list, applied, x);
      StatementsOf(list, skip, x);
    }
  }

  lemma ShutExactly(start: set<Object>, xs: seq<Statement>, there: set<Object>, pending: seq<Statement>)
    ensures Shut(xs, Gather(start, xs), Gather(there, pending)) <==>
            !exists x, r | x in xs && x.InsertIgnore? && r in x.rules ::
               Late(start, xs, x, r) && Made(there, pending, Row(x.table, r.key))
  {
    hide Ready, Made, Gather;
    forall o ensures Made(start, xs, o) <==> o in Gather(start, xs) {
      MadeIsGathered(start, xs, o);
    }
    forall o ensures Made(there, pending, o) <==> o in Gather(there, pending) {
      MadeIsGathered(there, pending, o);
    }
  }

  /** A row is gained exactly when some derivation finds sources that the uninterrupted run has too late for it. */
  lemma GainsExactly(db0: Db, list: seq<Migration>, runs: seq<seq<Plan>>)
    requires forall r | r in runs :: |r| == |list|
    ensures
      var db := Runs(db0, list, runs);
      GainsARow(db0, db, list) <==> FindsLateSources(db0, db, list)
  {
    hide Statements, RowsIn, Shut, Gather, Runs, Late, Made, Covered;
    var db := Runs(db0, list, runs);
    var start, xs, there, pending :=
      RowsIn(db0.schema), Statements(list, db0.applied), RowsIn(db.schema), Statements(list, db.applied);
    ShutExactly(start, xs, there, pending);
    if FindsLateSources(db0, db, list) {
      var x, r :| x in xs && x.InsertIgnore? && r in x.rules &&
                  Late(start, xs, x, r) && Made(there, pending, Row(x.table, r.key));
      LateIsGained(start, xs, x, r, there, pending);
      assert Row(x.table, r.key) in Arriving(db, list);
    } else {
      RunsAppliedGrow(db0, list, runs);
      PendingIsCovered(list, db0.applied, db.applied);
      GatherKeeps(start, xs);
      GatherKeeps(there, pending);
      RunsAreShut(list, db0.applied, xs, db0, runs, Gather(start, xs), Gather(there, pending));
      GatherIsShut(xs, there, pending, Gather(start, xs), Gather(there, pending));
    }
  }

  lemma LateIsGained(start: set<Object>, xs: seq<Statement>, x: Statement, r: Derivation, there: set<Object>,
        pending: seq<Statement>)
    requires x.InsertIgnore? && Late(start, xs, x, r) && Made(there, pending, Row(x.table, r.key))
    ensures Row(x.table, r.key) !in Gather(start, xs) && Row(x.table, r.key) in Gather(there, pending)
  {
    hide Ready, Gather, Made;
    MadeIsGathered(start, xs, Row(x.table, r.key));
    MadeIsGathered(there, pending, Row(x.table, r.key));
  }

  /**
   Any faulty runs and then a clean one reach the uninterrupted schema exactly when no index is lost, no derivation has
   missed its sources or now comes before them, and none has found or will find sources that are too late for it in the
   uninterrupted run.
   */
  lemma RetryConvergesByDerivations(db0: Db, list: seq<Migration>, runs: seq<seq<Plan>>)
    requires Distinct(list) && Sensible(CourseOf(db0, list)) && forall r | r in runs :: |r| == |list|
    ensures
      var db := Runs(db0, list, runs);
      Run(db, list, Smooth(|list|)).schema == Run(db0, list, Smooth(|list|)).schema <==>
      !LosesAnIndex(db0.applied, db, list) && !MissesSources(db0, db, list) && !FindsLateSources(db0, db, list)
  {
    hide *;
    RetryConvergesExactly(db0, list, runs);
    RunsAdd(db0, list, runs);
    LosesExactly(db0, Runs(db0, list, runs), list);
    GainsExactly(db0, list, runs);
  }

  /** When every derivation has its sources at its turn or never, no faults ever gain a row. */
  lemma InOrderNeverGains(db0: Db, list: seq<Migration>, runs: seq<seq<Plan>>)
    requires forall r | r in runs :: |r| == |list|
    requires
      var xs := Statements(list, db0.applied);
      forall x, r | x in xs && x.InsertIgnore? && r in x.rules :: !Late(RowsIn(db0.schema), xs, x, r)
    ensures !GainsARow(db0, Runs(db0, list, runs), list)
  {
    hide Statements, RowsIn, Late, GainsARow, Runs;
    GainsExactly(db0, list, runs);
  }
}
