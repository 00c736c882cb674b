/** What retries of the migrations lose or gain for good, with the runs that do. */
module MigrationLosses {
  import opened Wrappers
  import opened MigrationRunner
  import opened MigrationConvergence
  import opened MigrationGrowth

  // ---------- Gone for good ----------

  /** An index of a table that is there, or a row, that is not there and that no pending migration asks for. */
  predicate GoneFor(db: Db, list: seq<Migration>, o: Object) {
    Absent(db.schema, o) && forall m | m in list && m.name !in db.applied :: !AskedFor(m.statements, o)
  }

  predicate Absent(s: Schema, o: Object) {
    o !in s && (o.Row? || (o.Index? && Table(o.table) in s))
  }

  lemma StepLeavesOut(s: Schema, x: Statement, o: Object)
    requires Absent(s, o) && !Asks(x, o)
    ensures Absent(Next(s, x), o)
    ensures Attempt(s, x).Success? ==> Attempt(s, x).value == Next(s, x)
  {
    if x.InsertIgnore? {
      hide Inserted;
      InsertedRows(s.Keys, s, x.table, x.from, x.rules);
    }
  }

  lemma {:induction false} ThroughLeavesOut(s: Schema, statements: seq<Statement>, fault: Fault, o: Object)
    requires Absent(s, o) && !AskedFor(statements, o)
    ensures Absent(Through(s, statements, fault).0, o)
    decreases statements
  {
    if statements != [] {
      hide Next, Attempt, Execute, Absent, Asks;
      var x := statements[0];
      assert x in statements && forall y | y in statements[1..] :: y in statements;
      StepLeavesOut(s, x, o);
      NextIsEffect(s, x);
      if Attempt(s, x).Success? {
        ThroughLeavesOut(Next(s, x), statements[1..], Later(fault), o);
      }
    }
  }

  lemma NextIsEffect(s: Schema, x: Statement)
    ensures Next(s, x) == if Execute(s, x).Success? then Execute(s, x).value else s
  {
  }

  lemma RunOneLeavesOut(db: Db, list: seq<Migration>, m: Migration, plan: Plan, o: Object)
    requires GoneFor(db, list, o) && m in list
    ensures GoneFor(RunOne(db, m, plan).0, list, o)
  {
    hide Through, AskedFor, Absent;
    if !plan.selectFails && m.name !in db.applied {
      ThroughLeavesOut(db.schema, m.statements, plan.fault, o);
    }
  }

  lemma {:induction false} RunLeavesOut(db: Db, list: seq<Migration>, rest: seq<Migration>, plans: seq<Plan>, o: Object)
    requires GoneFor(db, list, o) && |plans| == |rest| && forall m | m in rest :: m in list
    ensures GoneFor(Run(db, rest, plans), list, o)
    decreases rest
  {
    hide GoneFor, RunOne;
    if rest != [] {
      RunOneLeavesOut(db, list, rest[0], plans[0], o);
      var (next, alive) := RunOne(db, rest[0], plans[0]);
      if alive {
        RunLeavesOut(next, list, rest[1..], plans[1..], o);
      }
    }
  }

  /** An index or row that is gone stays gone over any later runs, clean or faulty. */
  lemma {:induction false} GoneForGood(db: Db, list: seq<Migration>, runs: seq<seq<Plan>>, o: Object)
    requires GoneFor(db, list, o) && forall r | r in runs :: |r| == |list|
    ensures GoneFor(Runs(db, list, runs), list, o)
    decreases runs
  {
    hide GoneFor, Run;
    if runs != [] {
      RunLeavesOut(db, list, list, runs[0], o);
      GoneForGood(Run(db, list, runs[0]), list, runs[1..], o);
    }
  }

  /** Lost indexes are gone in that sense: once one is lost, no later runs of any kind bring it back. */
  lemma LostIsGoneForGood(db0: Db, list: seq<Migration>, runs: seq<seq<Plan>>, later: seq<seq<Plan>>, x: Statement)
    requires Distinct(list) && Sensible(CourseOf(db0, list)) && (forall r | r in runs :: |r| == |list|)
    requires forall r | r in later :: |r| == |list|
    requires x in Statements(list, db0.applied) && x.AddIndex? && Target(x) !in Runs(db0, list, runs).schema
    requires !AskedFor(Statements(list, Runs(db0, list, runs).applied), Target(x))
    ensures Target(x) !in Runs(Runs(db0, list, runs), list, later).schema
    ensures Target(x) in Run(db0, list, Smooth(|list|)).schema
  {
    hide Statements, Fine, Fold, Run, Runs, Sensible, Listed, Kept, AskedFor, CourseOf;
    var c, db := CourseOf(db0, list), Runs(db0, list, runs);
    StartIsSound(db0, list, false);
    ListedStatements(db0, list);
    RunsKeep(c, list, db0, db0.applied, runs, false);
    LostIsGone(c, db0, list, db, x);
    GoneForGood(db, list, later, Target(x));
    UninterruptedHas(db0, list, x);
  }

  lemma LostIsGone(c: Course, db0: Db, list: seq<Migration>, db: Db, x: Statement)
    requires Sound(c, list, db, db0.applied, false) && x.AddIndex? && Target(x) !in db.schema
    requires x in Statements(list, db0.applied) && !AskedFor(Statements(list, db.applied), Target(x))
    ensures GoneFor(db, list, Target(x))
  {
    hide Statements, Kept;
    StatementsOf(list, db0.applied, x);
    StatementsOf(list, db.applied, x);
    var m :| m in list && m.name !in db0.applied && x in m.statements;
    assert Asks(x, Target(x));
    assert x !in Statements(list, db.applied);
    assert m.name in db.applied;
    assert Settled(db.schema, x);
    forall p | p in list && p.name !in db.applied ensures !AskedFor(p.statements, Target(x)) {
      PendingAsks(list, db.applied, p, Target(x));
    }
  }

  lemma PendingAsks(list: seq<Migration>, applied: set<string>, m: Migration, o: Object)
    requires m in list && m.name !in applied
    ensures AskedFor(m.statements, o) ==> AskedFor(Statements(list, applied), o)
  {
    hide Statements, Asks;
    if y :| y in m.statements && Asks(y, o) {
      StatementsOf(list, applied, y);
    }
  }

  lemma UninterruptedHas(db0: Db, list: seq<Migration>, x: Statement)
    requires Distinct(list) && Sensible(CourseOf(db0, list)) && x in Statements(list, db0.applied) && x.AddIndex?
    ensures Target(x) in Run(db0, list, Smooth(|list|)).schema
  {
    hide Statements, Fine, Fold;
    EndIsGrown(CourseOf(db0, list));
    SensibleParts(CourseOf(db0, list));
    CleanRunIsFold(db0, list);
    assert Present(CourseOf(db0, list).End(), x);
  }

  // ---------- Nothing runs again ----------

  /**
   Once every listed migration is applied, no later runs of any kind change the schema: losses and gains are final.
   */
  lemma {:induction false} AppliedIsFinal(db: Db, list: seq<Migration>, runs: seq<seq<Plan>>)
    requires Names(list) <= db.applied && forall r | r in runs :: |r| == |list|
    ensures Runs(db, list, runs) == db
    decreases runs
  {
    hide Run;
    if runs != [] {
      NothingPending(db, list, runs[0]);
      AppliedIsFinal(db, list, runs[1..]);
    }
  }

  lemma {:induction false} NothingPending(db: Db, list: seq<Migration>, plans: seq<Plan>)
    requires Names(list) <= db.applied && |plans| == |list|
    ensures Run(db, list, plans) == db
    decreases list
  {
    hide Through;
    if list != [] {
      assert list[0].name in Names(list) && Names(list[1..]) <= Names(list);
      NothingPending(db, list[1..], plans[1..]);
    }
  }

  // ---------- Runs that lose or gain ----------

  /** An object that a faulty first run loses. */
  predicate NeverComesBack(db0: Db, list: seq<Migration>, run: seq<Plan>, o: Object, later: seq<seq<Plan>>)
    requires |run| == |list|
  {
    (forall r | r in later :: |r| == |list|) ==> o !in Runs(Run(db0, list, run), list, later).schema
  }

  /** The first migration fails before its one statement takes effect; the second goes through. */
  function FirstFails(): seq<Plan> {
    [Plan(false, Fault(0, false), Written), SMOOTH]
  }

  lemma FirstFailsRun(db0: Db, a: Migration, b: Migration)
    requires db0.applied == {} && a.name != b.name && |a.statements| == |b.statements| == 1
    requires Attempt(db0.schema, b.statements[0]).Success?
    ensures
      var db := Run(db0, [a, b], FirstFails());
      db.schema == Attempt(db0.schema, b.statements[0]).value && db.applied == {b.name} &&
      Statements([a, b], db.applied) == a.statements
  {
    hide Attempt, Execute;
    var plans := FirstFails();
    assert [a, b][1..] == [b] && [b][1..] == [] && plans[1..] == [SMOOTH] && b.statements[1..] == [];
    var (d1, alive) := RunOne(db0, a, plans[0]);
    assert alive && d1.schema == db0.schema && d1.applied == {};
    var after := Attempt(d1.schema, b.statements[0]).value;
    assert Through(after, [], NoFault) == (after, true, NoFault);
    assert Through(d1.schema, b.statements, NoFault) == (after, true, NoFault);
    var (d2, on) := RunOne(d1, b, SMOOTH);
    assert Run(d1, [b], [SMOOTH]) == d2;
    assert Statements([b], {b.name}) == [] && a.statements + [] == a.statements;
  }

  lemma TwoStatements(a: Migration, b: Migration)
    requires |a.statements| == |b.statements| == 1
    ensures Statements([a, b], {}) == [a.statements[0], b.statements[0]]
  {
    assert [a, b][1..] == [b] && [b][1..] == [];
    assert Statements([b], {}) == b.statements + [];
  }

  lemma OneRun(db: Db, list: seq<Migration>, plans: seq<Plan>)
    requires |plans| == |list|
    ensures Runs(db, list, [plans]) == Run(db, list, plans)
  {
    hide Run;
    assert [plans][1..] == [] && forall r | r in [plans] :: |r| == |list|;
    assert Runs(Run(db, list, plans), list, []) == Run(db, list, plans);
  }

  /**
   A column added by one migration and indexed by a later one: when the first fails, the later one is applied
   without its index, and no later runs of any kind bring the index back, although an uninterrupted run has it.
   */
  lemma IndexIsLost()
    ensures exists db0: Db, list: seq<Migration>, run: seq<Plan>, o: Object ::
      Distinct(list) && Sensible(CourseOf(db0, list)) && |run| == |list| &&
      o in Run(db0, list, Smooth(|list|)).schema && forall later: seq<seq<Plan>> ::
        NeverComesBack(db0, list, run, o, later)
  {
    hide *;
    var x, y := AddColumn("t", "c", "INT"), AddIndex("t", "i", ["c"]);
    var a, b := Migration("a", [x]), Migration("b", [y]);
    var db0 := Db(map[Table("t") := Text("")], {}, map[], []);
    var list, run, o := [a, b], FirstFails(), Index("t", "i");
    IndexCourse(db0, a, b, x, y);
    IndexFails(db0, x, y);
    FirstFailsRun(db0, a, b);
    FailuresFit();
    IndexTarget();
    forall later: seq<seq<Plan>> ensures NeverComesBack(db0, list, run, o, later) {
      OneLoss(db0, list, run, x, y, later);
    }
    UninterruptedHas(db0, list, y);
    assert Distinct(list) && Sensible(CourseOf(db0, list)) && |run| == |list| &&
           o in Run(db0, list, Smooth(|list|)).schema &&
           forall later: seq<seq<Plan>> :: NeverComesBack(db0, list, run, o, later);
  }

  lemma FailuresFit()
    ensures |FirstFails()| == 2
  {
  }

  lemma IndexTarget()
    ensures Target(AddIndex("t", "i", ["c"])) == Index("t", "i")
  {
  }

  lemma OneLoss(db0: Db, list: seq<Migration>, run: seq<Plan>, x: Statement, y: Statement, later: seq<seq<Plan>>)
    requires Distinct(list) && Sensible(CourseOf(db0, list)) && |run| == |list| && x.AddColumn? && y.AddIndex?
    requires Statements(list, db0.applied) == [x, y] && Statements(list, Run(db0, list, run).applied) == [x]
    requires Target(y) !in Run(db0, list, run).schema
    ensures NeverComesBack(db0, list, run, Target(y), later)
  {
    hide Run, Runs, Statements, Sensible;
    OneRun(db0, list, run);
    if forall r | r in later :: |r| == |list| {
      assert y in Statements(list, db0.applied) && forall r | r in [run] :: |r| == |list|;
      LostIsGoneForGood(db0, list, [run], later, y);
    }
  }

  lemma IndexCourse(db0: Db, a: Migration, b: Migration, x: Statement, y: Statement)
    requires x == AddColumn("t", "c", "INT") && y == AddIndex("t", "i", ["c"])
    requires a == Migration("a", [x]) && b == Migration("b", [y])
    requires db0 == Db(map[Table("t") := Text("")], {}, map[], [])
    ensures Distinct([a, b]) && Sensible(CourseOf(db0, [a, b])) && Statements([a, b], {}) == [x, y]
  {
    TwoStatements(a, b);
    assert [x, y][1..] == [y] && [y][1..] == [];
    var s := db0.schema;
    assert Indexes(s, "t") == {};
    var s' := Next(s, x);
    assert s' == s[Column("t", "c") := Text("INT")];
    assert Indexes(s', "t") == {};
    assert Plain(s', y);
    assert Fine(s', [y]);
  }

  lemma IndexFails(db0: Db, x: Statement, y: Statement)
    requires x == AddColumn("t", "c", "INT") && y == AddIndex("t", "i", ["c"])
    requires db0 == Db(map[Table("t") := Text("")], {}, map[], [])
    ensures Attempt(db0.schema, y) == Success(db0.schema) && Index("t", "i") !in db0.schema
  {
    assert "c" in y.columns;
  }

  // ---------- Grants ----------

  const PERMISSION := Row("Permission", "tickets.view")
  const ROLE := Row("Role", "technician")
  const GRANT := Row("RolePermission", "technician tickets.view")

  /**
   `INSERT IGNORE INTO Permission ... VALUES`, and `INSERT IGNORE INTO RolePermission ... SELECT FROM Role JOIN
   Permission`.
   */
  const SEED := InsertIgnore("Permission", {}, [Derivation({}, "tickets.view", "")])
  const SELECT :=
    InsertIgnore("RolePermission", {"Role", "Permission"},
      [Derivation({ROLE, PERMISSION}, "technician tickets.view", "")])

  const TABLES: Schema :=
    map[Table("Role") := Text(""), Table("Permission") := Text(""), Table("RolePermission") := Text(""),
      ROLE := Text("")]

  function Fresh(): Db {
    Db(TABLES, {}, map[], [])
  }

  lemma SeedRuns(s: Schema)
    requires Table("Permission") in s && PERMISSION !in s
    ensures Execute(s, SEED) == Success(s[PERMISSION := Text("")])
  {
    assert SEED.rules[1..] == [];
    assert Ready(SEED.rules[0], {}, s.Keys);
  }

  lemma SelectRuns(s: Schema)
    requires Table("Role") in s && Table("Permission") in s && Table("RolePermission") in s && ROLE in s && GRANT !in s
    ensures Execute(s, SELECT) == Success(if PERMISSION in s then s[GRANT := Text("")] else s)
  {
    var rules := SELECT.rules;
    assert rules[1..] == [];
    assert Ready(rules[0], SELECT.from, s.Keys) <==> PERMISSION in s by {
      assert PERMISSION in rules[0].sources && ROLE in rules[0].sources;
    }
    assert Execute(s, SELECT) == Success(Inserted(s.Keys, s, "RolePermission", SELECT.from, rules));
    var next := if PERMISSION in s then s[GRANT := Text("")] else s;
    assert Inserted(s.Keys, next, "RolePermission", SELECT.from, []) == next;
  }

  lemma GrantsAreLegal(xs: seq<Statement>)
    requires xs == [SEED, SELECT] || xs == [SELECT, SEED]
    ensures Legal(TABLES) && Consistent(xs)
  {
    forall o | o in TABLES ensures Indexes(TABLES, o.table) == {} {
    }
  }

  lemma GrantCourse(xs: seq<Statement>)
    requires xs == [SEED, SELECT] || xs == [SELECT, SEED]
    ensures Sensible(Course(TABLES, xs))
    ensures GRANT in Fold(TABLES, xs) <==> xs == [SEED, SELECT]
  {
    hide Inserted, Execute, Consistent, Legal;
    GrantsAreLegal(xs);
    SeedRuns(TABLES);
    SelectRuns(TABLES);
    SelectRuns(TABLES[PERMISSION := Text("")]);
    assert xs[1..] == [xs[1]] && xs[1..][1..] == [];
    var s := Next(TABLES, xs[0]);
    assert Fold(s, xs[1..]) == Fold(Next(s, xs[1]), []) && Fine(s, xs[1..]);
  }

  /**
   A permission seeded by one migration and granted by a later one: when the first fails, the later one is applied
   without the grant, and no later runs of any kind make it, although an uninterrupted run does and there are no
   indexes at all.
   */
  lemma GrantIsLost()
    ensures
      var list := [Migration("024", [SEED]), Migration("025", [SELECT])];
      Distinct(list) && Sensible(CourseOf(Fresh(), list)) && |FirstFails()| == |list| &&
      GRANT in Run(Fresh(), list, Smooth(|list|)).schema &&
      forall later: seq<seq<Plan>> :: NeverComesBack(Fresh(), list, FirstFails(), GRANT, later)
  {
    hide Run, Runs, Execute, Attempt, Sensible, Fold, Fine;
    var a, b := Migration("024", [SEED]), Migration("025", [SELECT]);
    var list, run := [a, b], FirstFails();
    TwoStatements(a, b);
    GrantCourse([SEED, SELECT]);
    SensibleParts(CourseOf(Fresh(), list));
    CleanRunIsFold(Fresh(), list);
    SelectRuns(TABLES);
    AttemptIsExecute(TABLES, SELECT);
    FirstFailsRun(Fresh(), a, b);
    var db := Run(Fresh(), list, run);
    assert GoneFor(db, list, GRANT) by {
      assert a in list && b in list;
      assert !Asks(SEED, GRANT);
    }
    forall later: seq<seq<Plan>> ensures NeverComesBack(Fresh(), list, run, GRANT, later) {
      if forall r | r in later :: |r| == |list| {
        GoneForGood(db, list, later, GRANT);
      }
    }
  }

  lemma AttemptIsExecute(s: Schema, x: Statement)
    requires Execute(s, x).Success?
    ensures Attempt(s, x) == Execute(s, x)
  {
  }

  /**
   A grant that selects a permission which only a later migration seeds: when the first fails and is retried, the grant
   is made, for good, although an uninterrupted run never makes it.
   */
  lemma GrantIsGained()
    ensures
      var list := [Migration("025", [SELECT]), Migration("027", [SEED])];
      Distinct(list) && Sensible(CourseOf(Fresh(), list)) && |FirstFails()| == |list| &&
      GRANT !in Run(Fresh(), list, Smooth(|list|)).schema &&
      GRANT in Run(Run(Fresh(), list, FirstFails()), list, Smooth(|list|)).schema
  {
    hide Run, Runs, Execute, Attempt, Sensible, Fold, Fine;
    var a, b := Migration("025", [SELECT]), Migration("027", [SEED]);
    var list := [a, b];
    TwoStatements(a, b);
    GrantCourse([SELECT, SEED]);
    SensibleParts(CourseOf(Fresh(), list));
    CleanRunIsFold(Fresh(), list);
    SeedRuns(TABLES);
    AttemptIsExecute(TABLES, SEED);
    FirstFailsRun(Fresh(), a, b);
    var db := Run(Fresh(), list, FirstFails());
    SelectRuns(db.schema);
    LoneFold(db.schema, SELECT);
    CleanRunIsFold(db, list);
  }

  lemma LoneFold(s: Schema, x: Statement)
    requires Execute(s, x).Success?
    ensures Fine(s, [x]) && Fold(s, [x]) == Execute(s, x).value
  {
    hide Execute;
    assert [x][1..] == [];
    assert Fold(Next(s, x), []) == Next(s, x);
  }
}
