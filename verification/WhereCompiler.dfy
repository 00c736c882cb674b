/**
 `buildWhereClauses`: filter objects compiled to WHERE text with anonymous placeholders and a list of
 bound values, and what the compiled text selects.
 */
module WhereCompiler {
  import opened Wrappers
  import opened WhereObjects
  import opened SqlText
  import opened SqlMeaning

  datatype WhereError = InvalidIdentifier(name: string) | NotARecord

  datatype Compiled = Compiled(clauses: seq<seq<Token>>, params: seq<Parameter>)

  type Outcome = Result<Compiled, WhereError>

  const NOTHING := Compiled([], [])

  /** The array that the compilers push bound values onto. */
  class ValueList {
    var items: seq<Parameter>

    constructor ()
      ensures items == []
    {
      items := [];
    }

    method Push(values: seq<Parameter>)
      modifies this
      ensures items == old(items) + values
    {
      items := items + values;
    }
  }

  predicate IsLetter(c: char) {
    'a' <= c <= 'z' || 'A' <= c <= 'Z' || c == '_'
  }

  predicate IsIdentifier(name: string) {
    name != [] && IsLetter(name[0]) && forall i | 0 < i < |name| :: IsLetter(name[i]) || '0' <= name[i] <= '9'
  }

  function NormalizeColumn(table: string, column: string): string {
    if table == "Permission" && column == "group" then "grp" else column
  }

  /** The table and the foreign key behind a relational key. */
  function Relation(table: string, key: string): Option<(string, string)> {
    if table == "TicketTimeline" && key == "ticket" then Some(("Ticket", "ticketId"))
    else if table == "Ticket" && key == "createdBy" then Some(("User", "createdById"))
    else None
  }

  predicate IsOr(e: Entry) {
    e.key == "OR" && e.value.List?
  }

  predicate IsRelational(table: string, e: Entry) {
    Relation(table, e.key).Some? && (e.value.Object? || e.value.List?)
  }

  // ---------- Compilation ----------

  datatype Condition =
    | Absent
    | Existing
    | Compared(op: Operator, param: Parameter)
    | Among(items: seq<Json>)

  /** The condition a column's value stands for: the first operator found wins. */
  function Chosen(value: Json): Condition {
    if value.Null? then Absent
    else if value.Object? then
      var contains, gte, lte, not, among := Property(value.entries, "contains"), Property(value.entries, "gte"),
          Property(value.entries, "lte"), Property(value.entries, "not"), Property(value.entries, "in");
      if contains.Some? then Compared(Like, Pattern(contains.value))
      else if gte.Some? then Compared(Ge, Raw(gte.value))
      else if lte.Some? then Compared(Le, Raw(lte.value))
      else if not.Some? then if not.value.Null? then Existing else Compared(Ne, Raw(not.value))
      else if among.Some? && among.value.List? then Among(among.value.items)
      else Compared(Eq, Raw(value))
    else Compared(Eq, Raw(value))
  }

  function Raws(items: seq<Json>): (r: seq<Parameter>)
    ensures |r| == |items| && forall i :: 0 <= i < |items| ==> r[i] == Raw(items[i])
  {
    seq(|items|, i requires 0 <= i < |items| => Raw(items[i]))
  }

  /** The clause for one column; an empty IN list needs no column at all. */
  function CompileCondition(column: string, condition: Condition): Outcome {
    if condition == Among([]) then Success(Compiled([[Never]], []))
    else if !IsIdentifier(column) then Failure(InvalidIdentifier(column))
    else
      match condition
      case Absent => Success(Compiled([[Column(column), IsNull]], []))
      case Existing => Success(Compiled([[Column(column), IsNotNull]], []))
      case Compared(op, param) => Success(Compiled([[Column(column), SqlText.Token.Compare(op), Hole]], [param]))
      case Among(items) =>
        Success(Compiled([[Column(column), In, Open] + HoleList(|items|) + [Close]], Raws(items)))
  }

  function Append(a: Compiled, b: Outcome): Outcome {
    if b.Failure? then b else Success(Compiled(a.clauses + b.value.clauses, a.params + b.value.params))
  }

  lemma AppendLaws(a: Compiled, b: Compiled, c: Outcome)
    ensures Append(NOTHING, c) == c
    ensures Append(a, Append(b, c)) == Append(Compiled(a.clauses + b.clauses, a.params + b.params), c)
  {
    if c.Success? {
      assert [] + c.value.clauses == c.value.clauses && [] + c.value.params == c.value.params;
      assert a.clauses + (b.clauses + c.value.clauses) == (a.clauses + b.clauses) + c.value.clauses;
      assert a.params + (b.params + c.value.params) == (a.params + b.params) + c.value.params;
    }
  }

  function CompileEntry(table: string, e: Entry): Outcome
    decreases e, 0
  {
    if IsOr(e) then
      var inner :- CompileAlternatives(table, e.value.items);
      Success(Compiled(if inner.clauses == [] then [] else [[Open] + Join(inner.clauses, Or) + [Close]], inner.params))
    else if IsRelational(table, e) then
      if e.value.List? then Failure(NotARecord)
      else
        var (inner, foreignKey) := Relation(table, e.key).value;
        var body :- CompileEntries(inner, e.value.entries);
        Success(Compiled([[ExistsIn(inner), Link(inner, table, foreignKey), And] + Join(body.clauses, And) + [Close]],
                         body.params))
    else
      CompileCondition(NormalizeColumn(table, e.key), Chosen(e.value))
  }

  function CompileEntries(table: string, entries: seq<Entry>): Outcome
    decreases entries, 0
  {
    if entries == [] then Success(NOTHING)
    else
      var first :- CompileEntry(table, entries[0]);
      Append(first, CompileEntries(table, entries[1..]))
  }

  function CompileAlternatives(table: string, items: seq<Json>): Outcome
    decreases items, 0
  {
    if items == [] then Success(NOTHING)
    else if !items[0].Object? then Failure(NotARecord)
    else
      var first :- CompileEntries(table, items[0].entries);
      Append(first, CompileAlternatives(table, items[1..]))
  }

  // ---------- The compiler as it runs: loops pushing onto one shared list ----------

  method BuildWhereClauses(table: string, where: seq<Entry>, values: ValueList)
    returns (r: Result<seq<seq<Token>>, WhereError>)
    modifies values
    ensures r.Failure? ==> CompileEntries(table, where) == Failure(r.error)
    ensures r.Success? ==> CompileEntries(table, where).Success?
    ensures r.Success? ==> r.value == CompileEntries(table, where).value.clauses
    ensures r.Success? ==> values.items == old(values.items) + CompileEntries(table, where).value.params
    decreases where, 1
  {
    var clauses: seq<seq<Token>> := [];
    ghost var pushed: seq<Parameter> := [];
    var i := 0;
    AppendLaws(NOTHING, NOTHING, CompileEntries(table, where));
    while i < |where|
      invariant 0 <= i <= |where|
      invariant values.items == old(values.items) + pushed
      invariant CompileEntries(table, where) == Append(Compiled(clauses, pushed), CompileEntries(table, where[i..]))
    {
      assert where[i..][0] == where[i] && where[i..][1..] == where[i + 1..];
      var entry := BuildEntry(table, where[i], values);
      if entry.Failure? {
        return Failure(entry.error);
      }
      AppendLaws(Compiled(clauses, pushed), CompileEntry(table, where[i]).value, CompileEntries(table, where[i + 1..]));
      clauses := clauses + entry.value;
      pushed := pushed + CompileEntry(table, where[i]).value.params;
      assert values.items == old(values.items) + pushed;
      i := i + 1;
    }
    assert where[i..] == [] && clauses + [] == clauses && pushed + [] == pushed;
    return Success(clauses);
  }

  method BuildAlternatives(table: string, items: seq<Json>, values: ValueList)
    returns (r: Result<seq<seq<Token>>, WhereError>)
    modifies values
    ensures r.Failure? ==> CompileAlternatives(table, items) == Failure(r.error)
    ensures r.Success? ==> CompileAlternatives(table, items).Success?
    ensures r.Success? ==> r.value == CompileAlternatives(table, items).value.clauses
    ensures r.Success? ==> values.items == old(values.items) + CompileAlternatives(table, items).value.params
    decreases items, 0
  {
    var clauses: seq<seq<Token>> := [];
    ghost var pushed: seq<Parameter> := [];
    AppendLaws(NOTHING, NOTHING, CompileAlternatives(table, items));
    var i := 0;
    while i < |items|
      invariant 0 <= i <= |items|
      invariant values.items == old(values.items) + pushed
      invariant CompileAlternatives(table, items) ==
        Append(Compiled(clauses, pushed), CompileAlternatives(table, items[i..]))
    {
      assert items[i..][0] == items[i] && items[i..][1..] == items[i + 1..];
      if !items[i].Object? {
        return Failure(NotARecord);
      }
      var alternative := BuildWhereClauses(table, items[i].entries, values);
      if alternative.Failure? {
        return Failure(alternative.error);
      }
      AppendLaws(Compiled(clauses, pushed), CompileEntries(table, items[i].entries).value,
        CompileAlternatives(table, items[i + 1..]));
      clauses := clauses + alternative.value;
      pushed := pushed + CompileEntries(table, items[i].entries).value.params;
      assert values.items == old(values.items) + pushed;
      i := i + 1;
    }
    assert items[i..] == [] && clauses + [] == clauses && pushed + [] == pushed;
    return Success(clauses);
  }

  method BuildEntry(table: string, e: Entry, values: ValueList) returns (r: Result<seq<seq<Token>>, WhereError>)
    modifies values
    ensures r.Failure? ==> CompileEntry(table, e) == Failure(r.error)
    ensures r.Success? ==> CompileEntry(table, e).Success?
    ensures r.Success? ==> r.value == CompileEntry(table, e).value.clauses
    ensures r.Success? ==> values.items == old(values.items) + CompileEntry(table, e).value.params
    decreases e, 0
  {
    if IsOr(e) {
      var inner := BuildAlternatives(table, e.value.items, values);
      if inner.Failure? {
        return Failure(inner.error);
      }
      return Success(if inner.value == [] then [] else [[Open] + Join(inner.value, Or) + [Close]]);
    }
    if IsRelational(table, e) {
      if e.value.List? {
        return Failure(NotARecord);
      }
      var (inner, foreignKey) := Relation(table, e.key).value;
      var innerValues := new ValueList();
      var body := BuildWhereClauses(inner, e.value.entries, innerValues);
      if body.Failure? {
        return Failure(body.error);
      }
      values.Push(innerValues.items);
      return Success([[ExistsIn(inner), Link(inner, table, foreignKey), And] + Join(body.value, And) + [Close]]);
    }
    var column := CompileCondition(NormalizeColumn(table, e.key), Chosen(e.value));
    if column.Failure? {
      return Failure(column.error);
    }
    values.Push(column.value.params);
    return Success(column.value.clauses);
  }
}
