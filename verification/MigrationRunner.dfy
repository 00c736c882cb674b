/**
 The migration runner: statements without rollback, errors that count as "already there", two bookkeeping tables,
 and faults that may strike any query, before or after it took effect.
 */
module MigrationRunner {
  import opened Wrappers

  datatype Object =
    | Table(table: string)
    | Column(table: string, column: string)
    | Index(table: string, index: string)
    | Row(table: string, key: string)

  datatype Definition = Text(text: string) | Over(columns: seq<string>)

  /** What a database holds: its tables, columns, indexes and the seeded rows, each with its definition. */
  type Schema = map<Object, Definition>

  /**
   One row that an INSERT IGNORE makes when all of some other rows are there: none for VALUES, the joined ones for
   SELECT.
   */
  datatype Derivation = Derivation(sources: set<Object>, key: string, content: string)

  datatype Statement =
    | CreateTable(table: string, parts: Schema)                           // CREATE TABLE IF NOT EXISTS
    | AddColumn(table: string, column: string, columnType: string)
    | AddIndex(table: string, index: string, columns: seq<string>)
    | InsertIgnore(table: string, from: set<string>, rules: seq<Derivation>)   // VALUES, or SELECT from the tables read

  const NO_SUCH_TABLE := 1146
  const DUPLICATE_COLUMN := 1060
  const DUPLICATE_KEY_NAME := 1061
  const TOO_MANY_KEYS := 1069
  const KEY_COLUMN_MISSING := 1072
  const MAX_INDEXES := 64

  /** The table, columns and indexes that a CREATE TABLE makes at once. */
  function Parts(x: Statement): Schema
    requires x.CreateTable?
  {
    (map o | o in x.parts && o.table == x.table && !o.Row? :: x.parts[o])[Table(x.table) := Text("")]
  }

  predicate Adds(x: Statement) {
    x.AddColumn? || x.AddIndex?
  }

  /** What an ALTER TABLE adds. */
  function Target(x: Statement): Object
    requires Adds(x)
  {
    match x
    case AddColumn(table, column, _) => Column(table, column)
    case AddIndex(table, index, _) => Index(table, index)
  }

  function Meant(x: Statement): Definition
    requires Adds(x)
  {
    match x
    case AddColumn(_, _, columnType) => Text(columnType)
    case AddIndex(_, _, columns) => Over(columns)
  }

  /** Every row that the derivation joins is there, in a table that the statement reads. */
  predicate Ready(rule: Derivation, from: set<string>, there: set<Object>) {
    forall q | q in rule.sources :: q in there && q.Row? && q.table in from
  }

  /** The rows of an INSERT IGNORE beside those of `s`, read off what was there before it; rows that are there stay. */
  function Inserted(there: set<Object>, s: Schema, table: string, from: set<string>, rules: seq<Derivation>): Schema
    decreases rules
  {
    if rules == [] then s
    else
      var o := Row(table, rules[0].key);
      var next := if Ready(rules[0], from, there) && o !in s then s[o := Text(rules[0].content)] else s;
      Inserted(there, next, table, from, rules[1..])
  }

  predicate ColumnsExist(schema: Schema, table: string, columns: seq<string>) {
    forall c | c in columns :: Column(table, c) in schema
  }

  function Indexes(schema: Schema, table: string): set<Object> {
    set o | o in schema && o.Index? && o.table == table
  }

  /** A CREATE TABLE that the database refuses because of its own indexes. */
  function Refusal(x: Statement): Option<nat>
    requires x.CreateTable?
  {
    var parts := Parts(x);
    if exists o | o in parts :: o.Index? && parts[o].Over? && !ColumnsExist(parts, x.table, parts[o].columns)
    then Some(KEY_COLUMN_MISSING)
    else if |Indexes(parts, x.table)| > MAX_INDEXES then Some(TOO_MANY_KEYS)
    else None
  }

  /** One statement in the database: the new schema, or an error number and no change. */
  function Execute(schema: Schema, x: Statement): Result<Schema, nat> {
    if x.CreateTable? then
      if Table(x.table) in schema then Success(schema)
      else if Refusal(x).Some? then Failure(Refusal(x).value)
      else Success(schema + Parts(x))
    else if Table(x.table) !in schema then Failure(NO_SUCH_TABLE)
    else if x.InsertIgnore? then
      if exists t | t in x.from :: Table(t) !in schema then Failure(NO_SUCH_TABLE)
      else Success(Inserted(schema.Keys, schema, x.table, x.from, x.rules))
    else if x.AddIndex? && !ColumnsExist(schema, x.table, x.columns) then Failure(KEY_COLUMN_MISSING)
    else if Target(x) in schema then
      Failure(if x.AddColumn? then DUPLICATE_COLUMN else DUPLICATE_KEY_NAME)
    else if x.AddIndex? && |Indexes(schema, x.table)| >= MAX_INDEXES then Failure(TOO_MANY_KEYS)
    else Success(schema[Target(x) := Meant(x)])
  }

  predicate Tolerated(x: Statement, errno: nat) {
    errno in {DUPLICATE_COLUMN, DUPLICATE_KEY_NAME} || (errno in {KEY_COLUMN_MISSING, TOO_MANY_KEYS} && x.AddIndex?)
  }

  /** `executeMigrationStatement`: tolerated errors pass silently. */
  function Attempt(schema: Schema, x: Statement): Result<Schema, nat> {
    match Execute(schema, x)
    case Success(after) => Success(after)
    case Failure(errno) => if Tolerated(x, errno) then Success(schema) else Failure(errno)
  }

  // ---------- Runs with faults ----------

  datatype Migration = Migration(name: string, statements: seq<Statement>)

  /** A query of one migration that fails, counted from its first statement; `took` says the effect stayed. */
  datatype Fault = NoFault | Fault(at: nat, took: bool)

  /** What becomes of the failure record: written, or failing before or after it took effect. */
  datatype Record = Written | Lost | WrittenUnderError

  /** What goes wrong while one migration is handled. A failing SELECT or failure record ends the whole run. */
  datatype Plan = Plan(selectFails: bool, fault: Fault, record: Record)

  const SMOOTH := Plan(false, NoFault, Written)

  datatype Execution = Execution(name: string, failed: bool)

  /** The two bookkeeping tables beside the schema; `trace` lists the executions so far. */
  datatype Db = Db(schema: Schema, applied: set<string>, failures: map<string, nat>, trace: seq<Execution>)

  function Later(fault: Fault): Fault {
    if fault.Fault? && fault.at > 0 then Fault(fault.at - 1, fault.took) else NoFault
  }

  /** The schema after a migration's statements, whether all went through, and the fault still to come. */
  function Through(schema: Schema, statements: seq<Statement>, fault: Fault): (Schema, bool, Fault)
    decreases statements
  {
    if statements == [] then (schema, true, fault)
    else if fault.Fault? && fault.at == 0 then
      var taken := fault.took && Execute(schema, statements[0]).Success?;
      (if taken then Execute(schema, statements[0]).value else schema, false, NoFault)
    else
      match Attempt(schema, statements[0])
      case Failure(_) => (schema, false, NoFault)
      case Success(after) => Through(after, statements[1..], Later(fault))
  }

  function CountedFailure(failures: map<string, nat>, name: string): map<string, nat> {
    failures[name := if name in failures then failures[name] + 1 else 1]
  }

  /** One migration of a run; the flag says whether the run goes on. */
  function RunOne(db: Db, m: Migration, plan: Plan): (Db, bool) {
    if plan.selectFails then (db, false)
    else if m.name in db.applied then (db, true)
    else
      var (schema, complete, rest) := Through(db.schema, m.statements, plan.fault);
      var inserted := complete && (rest.Fault? && rest.at == 0 ==> rest.took);
      var passed := complete && !(rest.Fault? && rest.at == 0);
      var deleted := passed && (rest.Fault? && rest.at == 1 ==> rest.took);
      var failed := !passed || (rest.Fault? && rest.at == 1);
      var applied := if inserted then db.applied + {m.name} else db.applied;
      var failures := if deleted then db.failures - {m.name} else db.failures;
      var counted := if failed && !plan.record.Lost? then CountedFailure(failures, m.name) else failures;
      (Db(schema, applied, counted, db.trace + [Execution(m.name, failed)]), !failed || plan.record.Written?)
  }

  function Run(db: Db, list: seq<Migration>, plans: seq<Plan>): Db
    requires |plans| == |list|
    decreases list
  {
    if list == [] then db
    else
      var (next, alive) := RunOne(db, list[0], plans[0]);
      if alive then Run(next, list[1..], plans[1..]) else next
  }

  function Runs(db: Db, list: seq<Migration>, runs: seq<seq<Plan>>): Db
    requires forall r | r in runs :: |r| == |list|
    decreases runs
  {
    if runs == [] then db else Runs(Run(db, list, runs[0]), list, runs[1..])
  }

  function Smooth(n: nat): (r: seq<Plan>)
    ensures |r| == n && forall i :: 0 <= i < n ==> r[i] == SMOOTH
  {
    seq(n, i => SMOOTH)
  }

  // ---------- The service as it runs ----------

  datatype Status = Status(applied: nat, pending: seq<string>, failed: map<string, nat>)

  function PendingNames(names: seq<string>, applied: set<string>): seq<string> {
    if names == [] then []
    else (if names[0] in applied then [] else [names[0]]) + PendingNames(names[1..], applied)
  }

  class MigrationsService {
    var schema: Schema
    var applied: set<string>
    var failures: map<string, nat>
    ghost var trace: seq<Execution>

    ghost function Database(): Db
      reads this
    {
      Db(schema, applied, failures, trace)
    }

    constructor (schema: Schema)
      ensures Database() == Db(schema, {}, map[], [])
    {
      this.schema, applied, failures, trace := schema, {}, map[], [];
    }

    method ExecuteMigrationStatement(x: Statement) returns (ok: bool)
      modifies this`schema
      ensures ok == Attempt(old(schema), x).Success?
      ensures schema == if ok then Attempt(old(schema), x).value else old(schema)
    {
      match Execute(schema, x) {
        case Success(after) =>
          schema := after;
          ok := true;
        case Failure(errno) =>
          ok := Tolerated(x, errno);
      }
    }

    method RecordMigrationFailure(name: string)
      modifies this`failures
      ensures failures == CountedFailure(old(failures), name)
    {
      failures := failures[name := if name in failures then failures[name] + 1 else 1];
    }

    /** The `try` block: statements, then the two bookkeeping writes; `false` is a thrown error. */
    method Apply(m: Migration, fault: Fault) returns (ok: bool)
      modifies this`schema, this`applied, this`failures
      ensures
        var (after, complete, rest) := Through(old(schema), m.statements, fault);
        schema == after &&
        ok == (complete && !(rest.Fault? && (rest.at == 0 || rest.at == 1))) &&
        applied == (if complete && (rest.Fault? && rest.at == 0 ==> rest.took) then old(applied) + {m.name}
          else old(applied)) &&
        failures == if complete && !(rest.Fault? && rest.at == 0) && (rest.Fault? && rest.at == 1 ==> rest.took)
                    then old(failures) - {m.name} else old(failures)
    {
      hide Execute, Attempt;
      var i := 0;
      var rest := fault;
      while i < |m.statements|
        invariant 0 <= i <= |m.statements|
        invariant Through(old(schema), m.statements, fault) == Through(schema, m.statements[i..], rest)
        invariant applied == old(applied) && failures == old(failures)
      {
        var x := m.statements[i];
        assert m.statements[i..][0] == x && m.statements[i..][1..] == m.statements[i + 1..];
        if rest.Fault? && rest.at == 0 {
          if rest.took && Execute(schema, x).Success? {
            schema := Execute(schema, x).value;
          }
          return false;
        }
        var done := ExecuteMigrationStatement(x);
        if !done {
          return false;
        }
        rest := Later(rest);
        i := i + 1;
      }
      if !(rest.Fault? && rest.at == 0) || rest.took {
        applied := applied + {m.name};
      }
      if rest.Fault? && rest.at == 0 {
        return false;
      }
      if !(rest.Fault? && rest.at == 1) || rest.took {
        failures := failures - {m.name};
      }
      return !(rest.Fault? && rest.at == 1);
    }

    method RunMigrations(list: seq<Migration>, plans: seq<Plan>)
      requires |plans| == |list|
      modifies this
      ensures Database() == Run(old(Database()), list, plans)
    {
      hide Through;
      var i := 0;
      while i < |list|
        invariant 0 <= i <= |list|
        invariant Run(old(Database()), list, plans) == Run(Database(), list[i..], plans[i..])
      {
        var m, plan := list[i], plans[i];
        assert list[i..][0] == m && list[i..][1..] == list[i + 1..];
        assert plans[i..][0] == plan && plans[i..][1..] == plans[i + 1..];
        if plan.selectFails {
          return;
        }
        if m.name !in applied {
          var ok := Apply(m, plan.fault);
          trace := trace + [Execution(m.name, !ok)];
          if !ok {
            if !plan.record.Lost? {
              RecordMigrationFailure(m.name);
            }
            if !plan.record.Written? {
              return;
            }
          }
        }
        i := i + 1;
      }
    }

    method ReadMigrationStatus(names: seq<string>) returns (status: Status)
      ensures status == Status(|applied|, PendingNames(names, applied), failures)
    {
      var pending: seq<string> := [];
      var i := 0;
      while i < |names|
        invariant 0 <= i <= |names|
        invariant pending + PendingNames(names[i..], applied) == PendingNames(names, applied)
      {
        assert names[i..][0] == names[i] && names[i..][1..] == names[i + 1..];
        if names[i] !in applied {
          pending := pending + [names[i]];
        }
        i := i + 1;
      }
      assert pending + [] == pending;
      return Status(|applied|, pending, failures);
    }
  }
}
