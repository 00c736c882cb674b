/** What each kind of statement does, with the error numbers and limits written out, and migrations of indexes alone. */
module MigrationStatements {
  import opened Wrappers
  import opened MigrationRunner
  import opened MigrationGrowth
  import opened MigrationConvergence

  // ---------- One statement ----------

  /** The columns of an index are there. */
  predicate HasColumns(s: Schema, table: string, columns: seq<string>) {
    forall i | 0 <= i < |columns| :: Column(table, columns[i]) in s
  }

  /** How many indexes a table has. */
  function IndexCount(s: Schema, table: string): nat {
    |set o | o in s && o.Index? && o.table == table|
  }

  lemma CountIsIndexes(s: Schema, table: string, columns: seq<string>)
    ensures IndexCount(s, table) == |Indexes(s, table)|
    ensures HasColumns(s, table, columns) <==> ColumnsExist(s, table, columns)
  {
    assert (set o | o in s && o.Index? && o.table == table) == Indexes(s, table);
    assert forall c :: c in columns <==> exists i | 0 <= i < |columns| :: columns[i] == c;
  }

  /** An index statement on a table that is there: added, or passed over without an error. */
  function WithIndex(s: Schema, table: string, index: string, columns: seq<string>): Schema {
    if HasColumns(s, table, columns) && Index(table, index) !in s && IndexCount(s, table) < 64
    then s[Index(table, index) := Over(columns)]
    else s
  }

  /**
   On a table that is there an index statement never fails, and adds the index exactly when its columns exist, it is
   absent, and the table has fewer than 64; on any other table it fails.
   */
  lemma IndexStatement(s: Schema, table: string, index: string, columns: seq<string>)
    ensures Table(table) in s ==>
      Attempt(s, AddIndex(table, index, columns)) == Success(WithIndex(s, table, index, columns))
    ensures Table(table) !in s ==> Attempt(s, AddIndex(table, index, columns)) == Failure(1146)
  {
    CountIsIndexes(s, table, columns);
  }

  /** The errors behind the silence: 1060 for a column that is there, 1061, 1072 and 1069 for an index. */
  lemma ErrorNumbers(s: Schema, table: string, name: string, columnType: string, columns: seq<string>)
    requires Table(table) in s
    ensures Column(table, name) in s ==> Execute(s, AddColumn(table, name, columnType)) == Failure(1060)
    ensures
      var there, fits := HasColumns(s, table, columns), IndexCount(s, table) < 64;
      var answer := Execute(s, AddIndex(table, name, columns));
      (!there ==> answer == Failure(1072)) && (there && Index(table, name) in s ==> answer == Failure(1061)) &&
      (there && Index(table, name) !in s && !fits ==> answer == Failure(1069)) &&
      (there && Index(table, name) !in s && fits ==> answer.Success?)
  {
    CountIsIndexes(s, table, columns);
  }

  /** A column is added unless it is there; without the table the statement fails. */
  lemma ColumnStatement(s: Schema, table: string, column: string, columnType: string)
    ensures Table(table) in s ==>
      Attempt(s, AddColumn(table, column, columnType)) ==
      Success(if Column(table, column) in s then s else s[Column(table, column) := Text(columnType)])
    ensures Table(table) !in s ==> Attempt(s, AddColumn(table, column, columnType)) == Failure(1146)
  {
  }

  /** A table that is there is left alone, a new one comes with its parts, and one refused for its own indexes fails. */
  lemma TableStatement(s: Schema, table: string, parts: Schema)
    ensures Table(table) in s ==> Attempt(s, CreateTable(table, parts)) == Success(s)
    ensures Table(table) !in s ==>
      var own := map o | o in parts && o.table == table && (o.Column? || o.Index?) :: parts[o];
      var columnsMissing := exists o | o in own ::
        o.Index? && own[o].Over? && !HasColumns(own, table, own[o].columns);
      Attempt(s, CreateTable(table, parts)) ==
      if columnsMissing then Failure(1072)
      else if IndexCount(own, table) > 64 then Failure(1069)
      else Success(s + own[Table(table) := Text("")])
  {
    if Table(table) !in s {
      var own := map o | o in parts && o.table == table && (o.Column? || o.Index?) :: parts[o];
      var x := CreateTable(table, parts);
      OwnParts(x, own);
      assert own[Table(table) := Text("")] == Parts(x);
    }
  }

  lemma OwnParts(x: Statement, own: Schema)
    requires x.CreateTable?
    requires own == map o | o in x.parts && o.table == x.table && (o.Column? || o.Index?) :: x.parts[o]
    ensures Parts(x) == own[Table(x.table) := Text("")]
    ensures IndexCount(own, x.table) == |Indexes(Parts(x), x.table)|
    ensures (exists o | o in own :: o.Index? && own[o].Over? && !HasColumns(own, x.table, own[o].columns)) <==>
            exists o | o in Parts(x) ::
              o.Index? && Parts(x)[o].Over? && !ColumnsExist(Parts(x), x.table, Parts(x)[o].columns)
  {
    TablePartsApart(x, own);
    assert (set o | o in own && o.Index? && o.table == x.table) == Indexes(Parts(x), x.table);
    forall columns: seq<string>
      ensures HasColumns(own, x.table, columns) <==> ColumnsExist(Parts(x), x.table, columns)
    {
      assert forall c :: Column(x.table, c) in own <==> Column(x.table, c) in Parts(x);
      CountIsIndexes(own, x.table, columns);
    }
  }

  lemma TablePartsApart(x: Statement, own: Schema)
    requires x.CreateTable?
    requires own == map o | o in x.parts && o.table == x.table && (o.Column? || o.Index?) :: x.parts[o]
    ensures Parts(x) == own[Table(x.table) := Text("")]
  {
    forall o ensures o in Parts(x) <==> o in own[Table(x.table) := Text("")] {
    }
  }

  /** A row whose derivation finds every row it joins among those there, in the tables that the statement reads. */
  predicate Derived(s: Schema, table: string, from: set<string>, rules: seq<Derivation>, o: Object) {
    exists i | 0 <= i < |rules| ::
      Row(table, rules[i].key) == o && forall q | q in rules[i].sources :: q.Row? && q.table in from && q in s
  }

  /** Rows are added exactly as derived and none is changed; without one of its tables the statement fails. */
  lemma InsertStatement(s: Schema, table: string, from: set<string>, rules: seq<Derivation>)
    ensures
      var x := InsertIgnore(table, from, rules);
      if Table(table) !in s || exists t | t in from :: Table(t) !in s then Attempt(s, x) == Failure(1146)
      else
        Attempt(s, x).Success? &&
        (forall o :: o in Attempt(s, x).value <==> o in s || Derived(s, table, from, rules, o)) &&
        forall o | o in s :: Attempt(s, x).value[o] == s[o]
  {
    hide Inserted;
    InsertedRows(s.Keys, s, table, from, rules);
    forall r | r in rules && Ready(r, from, s.Keys) ensures Derived(s, table, from, rules, Row(table, r.key)) {
      var i :| 0 <= i < |rules| && rules[i] == r;
    }
    forall o | Derived(s, table, from, rules, o)
      ensures exists r | r in rules && Ready(r, from, s.Keys) :: Row(table, r.key) == o
    {
      var i :| 0 <= i < |rules| && Row(table, rules[i].key) == o &&
               forall q | q in rules[i].sources :: q.Row? && q.table in from && q in s;
      assert rules[i] in rules && Ready(rules[i], from, s.Keys);
    }
  }

  // ---------- Migrations of indexes alone ----------

  predicate IndexesOnly(m: Migration) {
    forall x | x in m.statements :: x.AddIndex?
  }

  predicate OnTables(s: Schema, m: Migration) {
    forall x | x in m.statements :: Table(x.table) in s
  }

  function WithIndexes(s: Schema, statements: seq<Statement>): Schema
    requires forall x | x in statements :: x.AddIndex?
    decreases statements
  {
    if statements == [] then s
    else
      var x := statements[0];
      WithIndexes(WithIndex(s, x.table, x.index, x.columns), statements[1..])
  }

  function AllWithIndexes(s: Schema, list: seq<Migration>, applied: set<string>): Schema
    requires forall m | m in list && m.name !in applied :: IndexesOnly(m)
    decreases list
  {
    if list == [] then s
    else
      assert list[0].name in applied || IndexesOnly(list[0]);
      var next := if list[0].name in applied then s else WithIndexes(s, list[0].statements);
      AllWithIndexes(next, list[1..], applied + {list[0].name})
  }

  lemma {:induction false} IndexesPass(s: Schema, statements: seq<Statement>)
    requires forall x | x in statements :: x.AddIndex? && Table(x.table) in s
    ensures Through(s, statements, NoFault) == (WithIndexes(s, statements), true, NoFault)
    ensures forall table :: Table(table) in s ==> Table(table) in WithIndexes(s, statements)
    decreases statements
  {
    hide Attempt, HasColumns, IndexCount;
    if statements != [] {
      var x := statements[0];
      assert x in statements && x == AddIndex(x.table, x.index, x.columns);
      IndexStatement(s, x.table, x.index, x.columns);
      IndexesPass(WithIndex(s, x.table, x.index, x.columns), statements[1..]);
    }
  }

  /**
   A run without faults over migrations of index statements on tables that are there applies every one of them, with no
   failure left, however many indexes the tables have and whichever columns are there; each index is added or passed
   over by itself.
   */
  lemma {:induction false} IndexMigrationsPass(db: Db, list: seq<Migration>)
    requires forall m | m in list && m.name !in db.applied :: IndexesOnly(m) && OnTables(db.schema, m)
    ensures
      var end := Run(db, list, Smooth(|list|));
      end.applied == db.applied + Names(list) && end.schema == AllWithIndexes(db.schema, list, db.applied) &&
      forall m | m in list && m.name !in db.applied :: m.name !in end.failures
    decreases list
  {
    hide Through, WithIndexes;
    if list != [] {
      var m, tail := list[0], list[1..];
      assert Smooth(|list|)[1..] == Smooth(|tail|);
      assert m in list && forall other | other in tail :: other in list;
      if m.name !in db.applied {
        IndexesPass(db.schema, m.statements);
      }
      var (next, alive) := RunOne(db, m, SMOOTH);
      assert alive && next.applied == db.applied + {m.name};
      IndexMigrationsPass(next, tail);
      FailuresStayAway(next, tail, m.name);
      assert Names(list) == {m.name} + Names(tail);
    }
  }

  /** No later migration of the run marks an applied one as failed. */
  lemma {:induction false} FailuresStayAway(db: Db, list: seq<Migration>, name: string)
    requires name in db.applied
    ensures name !in db.failures ==> name !in Run(db, list, Smooth(|list|)).failures
    decreases list
  {
    hide Through;
    if list != [] {
      assert Smooth(|list|)[1..] == Smooth(|list[1..]|);
      FailuresStayAway(RunOne(db, list[0], SMOOTH).0, list[1..], name);
    }
  }
}
