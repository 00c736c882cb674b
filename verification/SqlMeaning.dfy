/** Three-valued truth of a WHERE tree for one row, under any comparison rules of the database. */
module SqlMeaning {
  import opened WhereObjects
  import opened SqlText

  type Row = map<string, Json>
  type Database = map<string, seq<Row>>

  /** How the database compares two values that are not NULL: its collation and its LIKE. */
  datatype Comparisons = Comparisons(
    equal: (Json, Json) -> bool,
    atMost: (Json, Json) -> bool,
    contains: (Json, Json) -> bool)

  /** A bound value: as given, or wrapped as `%value%`. */
  datatype Parameter = Raw(value: Json) | Pattern(body: Json)

  datatype World = World(compare: Comparisons, database: Database, params: seq<Parameter>)

  datatype Truth = Yes | No | Unknown

  function Cell(row: Row, column: string): Json {
    if column in row then row[column] else Null
  }

  function Rows(database: Database, table: string): seq<Row> {
    if table in database then database[table] else []
  }

  function And3(a: Truth, b: Truth): Truth {
    if a == No || b == No then No else if a == Yes && b == Yes then Yes else Unknown
  }

  function Or3(a: Truth, b: Truth): Truth {
    if a == Yes || b == Yes then Yes else if a == No && b == No then No else Unknown
  }

  /** FALSE, unknown and TRUE in this order. */
  function Rank(t: Truth): nat {
    match t
    case No => 0
    case Unknown => 1
    case Yes => 2
  }

  /** AND is the lesser and OR the greater of two truth values. */
  lemma ThreeValues(a: Truth, b: Truth)
    ensures Rank(And3(a, b)) == if Rank(a) <= Rank(b) then Rank(a) else Rank(b)
    ensures Rank(Or3(a, b)) == if Rank(a) <= Rank(b) then Rank(b) else Rank(a)
  {
  }

  function Lift(b: bool): Truth {
    if b then Yes else No
  }

  predicate Holds(compare: Comparisons, op: Operator, cell: Json, value: Json) {
    match op
    case Eq => compare.equal(cell, value)
    case Ne => !compare.equal(cell, value)
    case Ge => compare.atMost(value, cell)
    case Le => compare.atMost(cell, value)
    case Like => compare.contains(cell, value)
  }

  /** A comparison with NULL on either side is unknown; a pattern is never NULL. */
  function Test(compare: Comparisons, op: Operator, cell: Json, param: Parameter): Truth {
    if cell.Null? || (param.Raw? && param.value.Null?) then Unknown
    else Lift(Holds(compare, op, cell, if param.Raw? then param.value else param.body))
  }

  function TestAny(compare: Comparisons, cell: Json, params: seq<Parameter>): Truth {
    if params == [] then No
    else Or3(Test(compare, Eq, cell, params[0]), TestAny(compare, cell, params[1..]))
  }

  /** A placeholder without a bound value reads as NULL. */
  function Param(world: World, hole: nat): Parameter {
    if hole < |world.params| then world.params[hole] else Raw(Null)
  }

  function ParamRange(world: World, first: nat, count: nat): (r: seq<Parameter>)
    ensures |r| == count
    ensures forall i :: 0 <= i < count ==> r[i] == Param(world, first + i)
  {
    seq(count, i requires 0 <= i < count => Param(world, first + i))
  }

  /** `scope` holds the current row of every enclosing table; unqualified columns belong to `table`. */
  function Eval(world: World, scope: map<string, Row>, table: string, tree: Sql): Truth
    decreases tree
  {
    var row := if table in scope then scope[table] else map[];
    match tree
    case Comparison(column, op, hole) => Test(world.compare, op, Cell(row, column), Param(world, hole))
    case Missing(column) => Lift(Cell(row, column).Null?)
    case Present(column) => Lift(!Cell(row, column).Null?)
    case OneOf(column, first, count) => TestAny(world.compare, Cell(row, column), ParamRange(world, first, count))
    case Impossible => No
    case Joined(inner, outer, key) =>
      if inner in scope && outer in scope
      then Test(world.compare, Eq, Cell(scope[inner], "id"), Raw(Cell(scope[outer], key)))
      else Unknown
    case Group(body) => Eval(world, scope, table, body)
    case All(terms) => EvalAll(world, scope, table, terms)
    case Any(terms) => EvalAny(world, scope, table, terms)
    case Exists(inner, condition) =>
      var rows := Rows(world.database, inner);
      Lift(exists i | 0 <= i < |rows| :: Eval(world, scope[inner := rows[i]], inner, condition) == Yes)
  }

  function EvalAll(world: World, scope: map<string, Row>, table: string, terms: seq<Sql>): Truth
    decreases terms
  {
    if terms == [] then Yes
    else And3(Eval(world, scope, table, terms[0]), EvalAll(world, scope, table, terms[1..]))
  }

  function EvalAny(world: World, scope: map<string, Row>, table: string, terms: seq<Sql>): Truth
    decreases terms
  {
    if terms == [] then No
    else Or3(Eval(world, scope, table, terms[0]), EvalAny(world, scope, table, terms[1..]))
  }

  /** Whether a row of `table` passes the tree: only TRUE selects. */
  predicate Selects(world: World, table: string, row: Row, tree: Sql) {
    Eval(world, map[table := row], table, tree) == Yes
  }

  lemma {:induction false} AllIsEvery(world: World, scope: map<string, Row>, table: string, terms: seq<Sql>)
    ensures EvalAll(world, scope, table, terms) == Yes <==>
            forall i | 0 <= i < |terms| :: Eval(world, scope, table, terms[i]) == Yes
  {
    if terms != [] {
      AllIsEvery(world, scope, table, terms[1..]);
      assert forall i | 0 < i < |terms| :: terms[i] == terms[1..][i - 1];
    }
  }

  lemma {:induction false} AnyIsSome(world: World, scope: map<string, Row>, table: string, terms: seq<Sql>)
    ensures EvalAny(world, scope, table, terms) == Yes <==>
            exists i | 0 <= i < |terms| :: Eval(world, scope, table, terms[i]) == Yes
  {
    if terms != [] {
      AnyIsSome(world, scope, table, terms[1..]);
      assert forall i | 0 < i < |terms| :: terms[i] == terms[1..][i - 1];
      if i :| 0 <= i < |terms| && Eval(world, scope, table, terms[i]) == Yes {
        assert i == 0 || terms[i] == terms[1..][i - 1];
      }
      if Eval(world, scope, table, terms[0]) != Yes && EvalAny(world, scope, table, terms[1..]) == Yes {
        var i :| 0 <= i < |terms[1..]| && Eval(world, scope, table, terms[1..][i]) == Yes;
        assert terms[i + 1] == terms[1..][i];
      }
    }
  }

  /** An IN list is TRUE exactly when a listed value that is not NULL equals the cell. */
  lemma {:induction false} InListIsMembership(compare: Comparisons, cell: Json, params: seq<Parameter>)
    ensures TestAny(compare, cell, params) == Yes <==>
            exists i | 0 <= i < |params| :: Test(compare, Eq, cell, params[i]) == Yes
  {
    if params != [] {
      InListIsMembership(compare, cell, params[1..]);
      assert forall i | 0 < i < |params| :: params[i] == params[1..][i - 1];
      if i :| 0 <= i < |params| && Test(compare, Eq, cell, params[i]) == Yes {
        assert i == 0 || params[i] == params[1..][i - 1];
      }
      if Test(compare, Eq, cell, params[0]) != Yes && TestAny(compare, cell, params[1..]) == Yes {
        var i :| 0 <= i < |params[1..]| && Test(compare, Eq, cell, params[1..][i]) == Yes;
        assert params[i + 1] == params[1..][i];
      }
    }
  }
}
