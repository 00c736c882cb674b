/**
 Retrying until one run is clean reaches the schema of an uninterrupted run, exactly when no index was lost to a
 tolerated error on the way and the rows that statements select from other rows come out the same.
 */
module MigrationConvergence {
  import opened MigrationGrowth
  import opened MigrationRunner

  // ---------- The clean run that follows ----------

  /** Every table and column. */
  predicate Covers(v: Schema, u: Schema) {
    forall o | o in u && !o.Index? && !o.Row? :: o in v
  }

  /** A statement of the uninterrupted run, executed at `u` there and at `v` in the clean run. */
  lemma CatchUpOne(c: Course, u: Schema, v: Schema, x: Statement)
    requires Sensible(c) && Kept(c, v) && Within(c.start, u) && Covers(v, u) && x in c.xs && Plain(u, x)
    ensures Plain(v, x) && Kept(c, Next(v, x)) && Within(v, Next(v, x)) && Present(Next(v, x), x)
    ensures Within(c.start, Next(u, x)) && Covers(Next(v, x), Next(u, x))
  {
    hide Fold, Fine, RowsAsMeant, Closed, Parts, Inserted, Inside;
    StepKeeps(c, v, x);
    StartStays(c, u, x);
    StepCovers(c, u, v, x);
    if x.AddIndex? && Target(x) !in v {
      IndexLimitIsFar(c, v, x);
    }
  }

  lemma StepCovers(c: Course, u: Schema, v: Schema, x: Statement)
    requires Kept(c, v) && Within(c.start, u) && Covers(v, u) && x in c.xs && Plain(u, x)
    ensures Covers(Next(v, x), Next(u, x))
  {
    hide RowsAsMeant, Inside, Parts;
    if x.CreateTable? && Table(x.table) !in u && Table(x.table) in v {
      assert Within(Parts(x), v);
    }
    if x.InsertIgnore? {
      hide Inserted;
      InsertedRows(u.Keys, u, x.table, x.from, x.rules);
      InsertedRows(v.Keys, v, x.table, x.from, x.rules);
    }
  }

  lemma StartStays(c: Course, u: Schema, x: Statement)
    requires Within(c.start, u) && (x.CreateTable? ==> Rooted(c.start))
    ensures Within(c.start, Next(u, x))
  {
    if x.InsertIgnore? {
      hide Inserted;
      InsertedRows(u.Keys, u, x.table, x.from, x.rules);
    }
  }

  /** The same when the clean run skips the statement because its migration is applied. */
  lemma SkipOne(c: Course, u: Schema, v: Schema, x: Statement)
    requires Rooted(c.start) && Kept(c, v) && Within(c.start, u) && Covers(v, u) && x in c.xs && Settled(v, x)
    ensures Within(c.start, Next(u, x)) && Covers(v, Next(u, x))
  {
    hide Inserted, RowsAsMeant, Inside;
    StartStays(c, u, x);
    if x.InsertIgnore? {
      InsertedRows(u.Keys, u, x.table, x.from, x.rules);
    }
    if x.CreateTable? && Table(x.table) !in u {
      assert Within(Parts(x), v);
    }
  }

  lemma {:induction false} CatchUpMigration(c: Course, u: Schema, v: Schema, xs: seq<Statement>)
    requires Sensible(c) && Kept(c, v) && Within(c.start, u) && Covers(v, u) && Fine(u, xs) && forall x | x in xs ::
        x in c.xs
    ensures Fine(v, xs) && Kept(c, Fold(v, xs)) && Within(v, Fold(v, xs)) && AllPresent(Fold(v, xs), xs)
    ensures Within(c.start, Fold(u, xs)) && Covers(Fold(v, xs), Fold(u, xs))
    decreases xs
  {
    hide Sensible, Kept, Within, Covers, Plain, Next, Present;
    WithinItself(v);
    if xs != [] {
      CatchUpOne(c, u, v, xs[0]);
      CatchUpMigration(c, Next(u, xs[0]), Next(v, xs[0]), xs[1..]);
      WithinChains(v, Next(v, xs[0]), Fold(v, xs));
      PresentStays(Next(v, xs[0]), Fold(v, xs), [xs[0]]);
      assert xs[0] in [xs[0]];
    }
  }

  lemma {:induction false} SkipMigration(c: Course, u: Schema, v: Schema, xs: seq<Statement>)
    requires Rooted(c.start) && Kept(c, v) && Within(c.start, u) && Covers(v, u) && AllSettled(c, v, xs, false)
    requires forall x | x in xs :: x in c.xs
    ensures Within(c.start, Fold(u, xs)) && Covers(v, Fold(u, xs))
    decreases xs
  {
    hide Kept, Within, Covers, Next, Rooted, Settled;
    if xs != [] {
      SkipOne(c, u, v, xs[0]);
      SkipMigration(c, Next(u, xs[0]), v, xs[1..]);
    }
  }

  lemma {:induction false} CatchUp(c: Course, list: seq<Migration>, skip: set<string>, applied: set<string>, u: Schema,
        v: Schema)
    requires Sensible(c) && Kept(c, v) && Within(c.start, u) && Covers(v, u) && skip <= applied
    requires Fine(u, Statements(list, skip)) && forall x | x in Statements(list, skip) :: x in c.xs
    requires forall m | m in list && m.name !in skip && m.name in applied :: AllSettled(c, v, m.statements, false)
    ensures
      var end := Fold(v, Statements(list, applied));
      Fine(v, Statements(list, applied)) && Kept(c, end) && Within(v, end) &&
      Covers(end, Fold(u, Statements(list, skip))) && AllPresent(end, Statements(list, applied))
    decreases list
  {
    hide Sensible, Kept, Within, Covers, Fine, Fold, AllSettled, AllPresent;
    NoStatements(v);
    NoStatements(u);
    WithinItself(v);
    if list != [] {
      var m, tail := list[0], list[1..];
      var own, mine := if m.name in skip then [] else m.statements, if m.name in applied then [] else m.statements;
      assert Statements(list, skip) == own + Statements(tail, skip) &&
             Statements(list, applied) == mine + Statements(tail, applied);
      FoldChains(u, own, Statements(tail, skip));
      var u', v' := Fold(u, own), Fold(v, mine);
      if m.name !in applied {
        CatchUpMigration(c, u, v, own);
      } else if m.name !in skip {
        SensibleStart(c);
        SkipMigration(c, u, v, own);
      }
      forall other | other in tail && other.name !in skip && other.name in applied
        ensures AllSettled(c, v', other.statements, false)
      {
        SettledStays(c, v, v', other.statements, false);
      }
      CatchUp(c, tail, skip, applied, u', v');
      FoldChains(v, mine, Statements(tail, applied));
      WithinChains(v, v', Fold(v, Statements(list, applied)));
      PresentStays(v', Fold(v, Statements(list, applied)), mine);
      PresentJoin(Fold(v, Statements(list, applied)), mine, Statements(tail, applied));
    }
  }

  lemma NoStatements(s: Schema)
    ensures Fold(s, []) == s && Fine(s, []) && AllPresent(s, [])
  {
  }

  lemma PresentJoin(s: Schema, a: seq<Statement>, b: seq<Statement>)
    requires AllPresent(s, a) && AllPresent(s, b)
    ensures AllPresent(s, a + b)
  {
    hide Present;
  }

  lemma SensibleStart(c: Course)
    requires Sensible(c)
    ensures Rooted(c.start) && Legal(c.start)
  {
  }

  lemma {:induction false} FineGoesThrough(s: Schema, xs: seq<Statement>)
    requires Fine(s, xs)
    ensures Through(s, xs, NoFault) == (Fold(s, xs), true, NoFault)
    decreases xs
  {
    hide Execute;
    if xs != [] {
      FineGoesThrough(Next(s, xs[0]), xs[1..]);
    }
  }

  function Names(list: seq<Migration>): set<string> {
    set m | m in list :: m.name
  }

  lemma {:induction false} OthersIgnoreName(list: seq<Migration>, applied: set<string>, name: string)
    requires name !in Names(list)
    ensures Statements(list, applied + {name}) == Statements(list, applied)
  {
    if list != [] {
      assert list[0] in list;
      OthersIgnoreName(list[1..], applied, name);
    }
  }

  /** A clean run executes the pending statements in order and applies every listed migration. */
  lemma {:induction false} CleanRunIsFold(db: Db, list: seq<Migration>)
    requires Distinct(list) && Fine(db.schema, Statements(list, db.applied))
    ensures
      var end := Run(db, list, Smooth(|list|));
      end.schema == Fold(db.schema, Statements(list, db.applied)) && end.applied == db.applied + Names(list)
    decreases list
  {
    hide Fine, Fold, Through;
    if list == [] {
      NoStatements(db.schema);
    } else {
      var m, tail := list[0], list[1..];
      assert Smooth(|list|)[1..] == Smooth(|tail|);
      var own := if m.name in db.applied then [] else m.statements;
      FoldChains(db.schema, own, Statements(tail, db.applied));
      FineGoesThrough(db.schema, own);
      NoStatements(db.schema);
      var (next, alive) := RunOne(db, m, SMOOTH);
      assert m.name !in Names(tail);
      OthersIgnoreName(tail, db.applied, m.name);
      assert next.applied == db.applied + {m.name} && next.schema == Fold(db.schema, own);
      CleanRunIsFold(next, tail);
      assert Names(list) == {m.name} + Names(tail);
    }
  }

  // ---------- Convergence ----------

  function CourseOf(db: Db, list: seq<Migration>): Course {
    Course(db.schema, Statements(list, db.applied))
  }

  /** Some applied migration asked for an index that is not there and that no pending migration asks for again. */
  predicate LosesAnIndex(skip: set<string>, db: Db, list: seq<Migration>) {
    exists x | x in Statements(list, skip) && x.AddIndex? ::
      Target(x) !in db.schema && !AskedFor(Statements(list, db.applied), Target(x))
  }

  lemma IndexIsAsked(s: Schema, x: Statement, o: Object)
    requires o.Index? && Table(o.table) in s && o !in s && o in Next(s, x)
    ensures Asks(x, o)
  {
    if x.InsertIgnore? {
      hide Inserted;
      InsertedRows(s.Keys, s, x.table, x.from, x.rules);
    }
  }

  lemma TableStays(s: Schema, x: Statement, table: string)
    requires Table(table) in s
    ensures Table(table) in Next(s, x)
  {
    if x.InsertIgnore? {
      hide Inserted;
      InsertedRows(s.Keys, s, x.table, x.from, x.rules);
    }
  }

  lemma {:induction false} IndexComesFrom(s: Schema, xs: seq<Statement>, o: Object)
    requires o.Index? && Table(o.table) in s && o !in s && o in Fold(s, xs)
    ensures AskedFor(xs, o)
    decreases xs
  {
    hide Next, Asks;
    var next := Next(s, xs[0]);
    if o !in next {
      TableStays(s, xs[0], o.table);
      IndexComesFrom(next, xs[1..], o);
      var y :| y in xs[1..] && Asks(y, o);
      assert y in xs;
    } else {
      IndexIsAsked(s, xs[0], o);
      assert xs[0] in xs;
    }
  }

  /** The rows that a clean run from here would leave, read off the rows here and the statements still pending. */
  function Arriving(db: Db, list: seq<Migration>): set<Object> {
    Gather(RowsIn(db.schema), Statements(list, db.applied))
  }

  /** Some row of the uninterrupted run will not come any more. */
  predicate LosesARow(db0: Db, db: Db, list: seq<Migration>) {
    exists o | o in Arriving(db0, list) :: o !in Arriving(db, list)
  }

  /** Some row is there, or will come, that the uninterrupted run does not make. */
  predicate GainsARow(db0: Db, db: Db, list: seq<Migration>) {
    exists o | o in Arriving(db, list) :: o !in Arriving(db0, list)
  }

  lemma {:induction false} StatementsOf(list: seq<Migration>, skip: set<string>, x: Statement)
    ensures x in Statements(list, skip) <==> exists m | m in list && m.name !in skip :: x in m.statements
  {
    if list != [] {
      StatementsOf(list[1..], skip, x);
      assert list[0] in list && forall m | m in list[1..] :: m in list;
      if m :| m in list && m.name !in skip && x in m.statements {
        assert m == list[0] || m in list[1..];
      }
    }
  }

  lemma ListedStatements(db: Db, list: seq<Migration>)
    requires Distinct(list)
    ensures Listed(CourseOf(db, list), list, db.applied, false)
  {
    forall m, x | m in list && m.name !in db.applied && x in m.statements ensures x in Statements(list, db.applied) {
      StatementsOf(list, db.applied, x);
    }
  }

  lemma StartIsSound(db: Db, list: seq<Migration>, strict: bool)
    requires Sensible(CourseOf(db, list))
    ensures Sound(CourseOf(db, list), list, db, db.applied, strict)
  {
    EndIsGrown(CourseOf(db, list));
  }

  /** The clean run after any faulty runs has no error but "already there", and misses nothing except lost indexes. */
  lemma CleanRunCatchesUp(db0: Db, list: seq<Migration>, db: Db)
    requires Distinct(list) && Sensible(CourseOf(db0, list)) && Sound(CourseOf(db0, list), list, db, db0.applied, false)
    ensures
      var c, end := CourseOf(db0, list), Fold(db.schema, Statements(list, db.applied));
      Fine(db.schema, Statements(list, db.applied)) && Kept(c, end) && Within(db.schema, end) && Covers(end, c.End()) &&
      AllPresent(end, Statements(list, db.applied))
  {
    hide Fine, Fold, Statements, Kept;
    var c := CourseOf(db0, list);
    SensibleParts(c);
    StartCovers(c, db.schema);
    CatchUp(c, list, db0.applied, db.applied, c.start, db.schema);
  }

  lemma SensibleParts(c: Course)
    requires Sensible(c)
    ensures Fine(c.start, c.xs) && c.End() == Fold(c.start, c.xs) && Within(c.start, c.start)
  {
  }

  lemma StartCovers(c: Course, v: Schema)
    requires Kept(c, v)
    ensures Covers(v, c.start)
  {
  }

  /** What one index needs for both schemas to agree on it. */
  lemma IndexArrives(c: Course, v: Schema, end: Schema, o: Object)
    requires Sensible(c) && Kept(c, v) && Within(v, end) && Kept(c, end) && Covers(end, c.End()) && o in c.End() &&
        o.Index?
    requires forall x | x in c.xs && x.AddIndex? && Target(x) == o :: o in end
    ensures o in end
  {
    hide Sensible, Fold, RowsAsMeant, Rooted, Inside, Created, Added, Closed, Parts, Within;
    EndIsGrown(c);
    if o in c.start {
      WithinHas(c.start, end, o);
    }
    if Created(c, c.End(), o) {
      CreatedComes(c, c.End(), end, o);
    } else if Added(c, c.End(), o) {
      AddedBy(c, c.End(), o);
    }
  }

  lemma WithinHas(a: Schema, b: Schema, o: Object)
    requires Within(a, b) && o in a
    ensures o in b
  {
  }

  lemma AddedBy(c: Course, s: Schema, o: Object)
    requires o in s && o.Index? && Added(c, s, o)
    ensures exists x | x in c.xs && x.AddIndex? :: Target(x) == o
  {
  }

  lemma CreatedComes(c: Course, u: Schema, v: Schema, o: Object)
    requires o in u && Created(c, u, o) && Closed(c, v) && Covers(v, u) && Rooted(u)
    ensures o in v
  {
    var x :| x in c.xs && x.CreateTable? && Table(x.table) !in c.start && o in Parts(x) && Parts(x)[o] == u[o];
    assert Table(x.table) in u;
    assert Within(Parts(x), v);
  }

  lemma LostStaysLost(db0: Db, list: seq<Migration>, db: Db)
    requires Distinct(list) && Sensible(CourseOf(db0, list)) && Sound(CourseOf(db0, list), list, db, db0.applied, false)
    requires LosesAnIndex(db0.applied, db, list)
    ensures Fold(db.schema, Statements(list, db.applied)) != CourseOf(db0, list).End()
  {
    hide Fold, Kept, Statements, Fine;
    var c := CourseOf(db0, list);
    var x :| x in c.xs && x.AddIndex? && Target(x) !in db.schema && !AskedFor(Statements(list, db.applied), Target(x));
    EndIsGrown(c);
    assert Present(c.End(), x);
    StatementsOf(list, db0.applied, x);
    StatementsOf(list, db.applied, x);
    var m :| m in list && m.name !in db0.applied && x in m.statements;
    assert m.name in db.applied;
    assert Settled(db.schema, x);
    if Target(x) in Fold(db.schema, Statements(list, db.applied)) {
      IndexComesFrom(db.schema, Statements(list, db.applied), Target(x));
    }
  }

  lemma NothingLost(db0: Db, list: seq<Migration>, db: Db)
    requires Distinct(list) && Sensible(CourseOf(db0, list)) && Sound(CourseOf(db0, list), list, db, db0.applied, false)
    requires !LosesAnIndex(db0.applied, db, list)
    ensures Inside(CourseOf(db0, list).End(), Fold(db.schema, Statements(list, db.applied)))
  {
    hide Fold, Statements, Fine, Grown, Parts, RowsAsMeant, Asks, Closed;
    var c, end := CourseOf(db0, list), Fold(db.schema, Statements(list, db.applied));
    CleanRunCatchesUp(db0, list, db);
    forall o | o in c.End() && !o.Row? ensures o in end {
      if o.Index? {
        forall x | x in c.xs && x.AddIndex? && Target(x) == o ensures o in end {
          if o !in db.schema {
            assert AskedFor(Statements(list, db.applied), o);
            var y :| y in Statements(list, db.applied) && Asks(y, o);
            AskedIndex(y, o);
            assert Present(end, y);
          }
        }
        IndexArrives(c, db.schema, end, o);
      }
    }
  }

  lemma AskedIndex(y: Statement, o: Object)
    requires Asks(y, o) && o.Index?
    ensures y.AddIndex? && Target(y) == o
  {
  }

  /** The clean run leaves the rows read off those before it. */
  lemma RowsOfTheCleanRun(db0: Db, list: seq<Migration>, db: Db)
    requires Distinct(list) && Sensible(CourseOf(db0, list)) && Sound(CourseOf(db0, list), list, db, db0.applied, false)
    ensures RowsIn(Fold(db.schema, Statements(list, db.applied))) == Arriving(db, list)
    ensures RowsIn(CourseOf(db0, list).End()) == Arriving(db0, list)
  {
    hide Fold, Statements, Fine, Kept, Gather;
    CleanRunCatchesUp(db0, list, db);
    FoldGathers(db.schema, Statements(list, db.applied));
    SensibleParts(CourseOf(db0, list));
    FoldGathers(db0.schema, Statements(list, db0.applied));
  }

  /** Schemas of one course with the same objects are the same. */
  lemma SameSchema(c: Course, a: Schema, b: Schema)
    requires Consistent(c.xs) && Within(c.start, a) && Within(c.start, b) && RowsAsMeant(c, a) && RowsAsMeant(c, b)
    requires Inside(a, b) && Inside(b, a) && RowsIn(a) == RowsIn(b)
    ensures a == b
  {
    forall o | o in a ensures o in b && a[o] == b[o] {
      if o.Row? {
        assert o in RowsIn(b);
        if o !in c.start {
          SeededOnce(c, o, a[o], b[o]);
        }
      }
    }
    assert forall o | o in b :: o.Row? ==> o in RowsIn(a);
    assert a.Keys == b.Keys;
  }

  lemma SeededOnce(c: Course, o: Object, d: Definition, e: Definition)
    requires Consistent(c.xs) && Seeded(c, o, d) && Seeded(c, o, e)
    ensures d == e
  {
    hide Live;
    var x :| x in c.xs && Seeds(c, x, o, d);
    var y :| y in c.xs && Seeds(c, y, o, e);
    assert OneContent(x, y);
  }

  lemma GrownIsKept(c: Course)
    requires Sensible(c)
    ensures Kept(c, c.End())
  {
    hide Fold, RowsAsMeant, Closed, Explained;
    EndIsGrown(c);
  }

  /**
   Any faulty runs followed by one clean run apply every listed migration and reach the schema of one uninterrupted run
   exactly when no index is lost by then, and the rows there by then let every statement still pending make the rows,
   and no others, that an uninterrupted run makes.
   */
  lemma RetryConvergesExactly(db0: Db, list: seq<Migration>, runs: seq<seq<Plan>>)
    requires Distinct(list) && Sensible(CourseOf(db0, list)) && forall r | r in runs :: |r| == |list|
    ensures
      var db := Runs(db0, list, runs);
      var last, whole := Run(db, list, Smooth(|list|)), Run(db0, list, Smooth(|list|));
      last.applied == db.applied + Names(list) &&
      (last.schema == whole.schema <==>
       !LosesAnIndex(db0.applied, db, list) && !LosesARow(db0, db, list) && !GainsARow(db0, db, list))
  {
    hide Statements, Fine, Fold, Kept, Run, Runs, Names, LosesAnIndex, Arriving;
    var c, db := CourseOf(db0, list), Runs(db0, list, runs);
    SensibleParts(c);
    StartIsSound(db0, list, false);
    ListedStatements(db0, list);
    RunsKeep(c, list, db0, db0.applied, runs, false);
    CleanRunCatchesUp(db0, list, db);
    CleanRunIsFold(db, list);
    CleanRunIsFold(db0, list);
    RowsOfTheCleanRun(db0, list, db);
    if LosesAnIndex(db0.applied, db, list) {
      LostStaysLost(db0, list, db);
    } else {
      NothingLost(db0, list, db);
      GrownIsKept(c);
      AgreeOnRows(c, db0, db, list, Fold(db.schema, Statements(list, db.applied)));
    }
  }

  lemma AgreeOnRows(c: Course, db0: Db, db: Db, list: seq<Migration>, end: Schema)
    requires Sensible(c) && Kept(c, end) && Kept(c, c.End()) && Inside(c.End(), end)
    requires RowsIn(end) == Arriving(db, list) && RowsIn(c.End()) == Arriving(db0, list)
    ensures end == c.End() <==> !LosesARow(db0, db, list) && !GainsARow(db0, db, list)
  {
    hide Fold, RowsAsMeant, Closed, RowsIn, Fine, Arriving, Legal;
    if !LosesARow(db0, db, list) && !GainsARow(db0, db, list) {
      assert RowsIn(end) == RowsIn(c.End());
      SameSchema(c, end, c.End());
    }
  }

  /** Every index has its columns, and every row its sources, at hand within its own migration. */
  predicate AllOwnAtHand(db: Db, list: seq<Migration>) {
    forall m | m in list && m.name !in db.applied :: AllAtHand(CourseOf(db, list), [], m.statements)
  }

  /** All rows that some statement can ever make. */
  function Makeable(c: Course): set<Object> {
    RowsIn(c.start) + set x, r | x in c.xs && x.InsertIgnore? && r in x.rules && Live(c, x, r) :: Row(x.table, r.key)
  }

  /** Then applying everything, by whatever runs, makes all of them. */
  lemma AllApplied(c: Course, list: seq<Migration>, db: Db, skip: set<string>)
    requires Sound(c, list, db, skip, true) && Names(list) <= db.applied && c.xs == Statements(list, skip)
    ensures RowsIn(db.schema) == Makeable(c)
  {
    hide Statements, Closed, Live, AskedFor, Fold;
    forall o | o in RowsIn(db.schema) && o !in c.start ensures o in Makeable(c) {
      assert Seeded(c, o, db.schema[o]);
    }
    forall x, r | x in c.xs && x.InsertIgnore? && r in x.rules && Live(c, x, r)
      ensures Row(x.table, r.key) in db.schema
    {
      StatementsOf(list, skip, x);
      var m :| m in list && m.name !in skip && x in m.statements;
      assert m.name in Names(list);
      assert Granted(c, db.schema, x);
    }
  }

  /** Then nothing is ever lost or gained: every retry converges. */
  lemma RetryConverges(db0: Db, list: seq<Migration>, runs: seq<seq<Plan>>)
    requires Distinct(list) && Sensible(CourseOf(db0, list)) && forall r | r in runs :: |r| == |list|
    requires AllOwnAtHand(db0, list)
    ensures Run(Runs(db0, list, runs), list, Smooth(|list|)).schema == Run(db0, list, Smooth(|list|)).schema
  {
    hide Statements, Fine, Fold, Kept, Run, Runs, Names, Arriving, Makeable;
    var c, db := CourseOf(db0, list), Runs(db0, list, runs);
    StartIsSound(db0, list, true);
    ListedStatements(db0, list);
    RunsKeep(c, list, db0, db0.applied, runs, true);
    RunKeeps(c, list, db, db0.applied, list, Smooth(|list|), true);
    RunKeeps(c, list, db0, db0.applied, list, Smooth(|list|), true);
    StrictIsSound(c, list, db, db0.applied);
    NoIndexLost(db0, list, db);
    RetryConvergesExactly(db0, list, runs);
    SensibleParts(c);
    CleanRunCatchesUp(db0, list, db);
    CleanRunIsFold(db, list);
    CleanRunIsFold(db0, list);
    AllApplied(c, list, Run(db, list, Smooth(|list|)), db0.applied);
    AllApplied(c, list, Run(db0, list, Smooth(|list|)), db0.applied);
    RowsOfTheCleanRun(db0, list, db);
  }

  lemma StrictIsSound(c: Course, list: seq<Migration>, db: Db, skip: set<string>)
    requires Sound(c, list, db, skip, true)
    ensures Sound(c, list, db, skip, false)
  {
    hide Kept, Granted;
  }

  lemma NoIndexLost(db0: Db, list: seq<Migration>, db: Db)
    requires Sound(CourseOf(db0, list), list, db, db0.applied, true)
    ensures !LosesAnIndex(db0.applied, db, list)
  {
    hide Statements, Kept, Granted;
    forall x | x in Statements(list, db0.applied) && x.AddIndex? && Target(x) !in db.schema
      ensures AskedFor(Statements(list, db.applied), Target(x))
    {
      StatementsOf(list, db0.applied, x);
      StatementsOf(list, db.applied, x);
      assert Asks(x, Target(x));
    }
  }
}
