/** The queries built on compiled filters: which rows come back, how many, and when the text is no SQL at all. */
module WhereQueries {
  import opened Wrappers
  import opened WhereObjects
  import opened SqlText
  import opened SqlMeaning
  import opened WhereCompiler
  import opened WhereCorrectness
  import opened WhereAcceptance

  datatype QueryError = Rejected(reason: WhereError) | SyntaxError

  /** `SELECT * FROM table WHERE text` with bound values. */
  function RunSelect(s: Setting, table: string, text: seq<Token>, params: seq<Parameter>)
    : Result<seq<Row>, QueryError>
  {
    match ReadWhere(text)
    case None => Failure(SyntaxError)
    case Some(tree) => Success(Selected(World(s.compare, s.database, params), table, tree, Rows(s.database, table)))
  }

  function Selected(world: World, table: string, tree: Sql, rows: seq<Row>): seq<Row> {
    if rows == [] then []
    else (if Selects(world, table, rows[0], tree) then [rows[0]] else []) + Selected(world, table, tree, rows[1..])
  }

  /** The rows a filter object describes, in table order. */
  function Described(s: Setting, table: string, where: seq<Entry>, rows: seq<Row>): (r: seq<Row>)
    ensures forall row :: row in r <==> row in rows && Satisfies(s, table, row, where)
  {
    if rows == [] then []
    else (if Satisfies(s, table, rows[0], where) then [rows[0]] else []) + Described(s, table, where, rows[1..])
  }

  /** The fragment on which the compiler keeps the intended meaning; every part is visible in the filter. */
  predicate Supported(table: string, where: seq<Entry>) {
    where != [] && AllGrounded(table, where) && !AllBlank(where) && AllUnmixed(table, where) && AllSimple(table, where)
  }

  /** What an unpaged list query answers: its text run with its values, or no WHERE for no keys. */
  function GenericList(s: Setting, table: string, where: seq<Entry>): Result<seq<Row>, QueryError> {
    if where == [] then Success(Rows(s.database, table))
    else if CompileEntries(table, where).Failure? then Failure(Rejected(CompileEntries(table, where).error))
    else
      var compiled := CompileEntries(table, where).value;
      RunSelect(s, table, Join(compiled.clauses, And), compiled.params)
  }

  /** The answer against the filter alone: its first refusal, or on the supported fragment the described rows. */
  lemma ListIsDescribed(s: Setting, table: string, where: seq<Entry>)
    ensures RefusalIn(table, where).Some? ==>
      GenericList(s, table, where) == Failure(Rejected(RefusalIn(table, where).value))
    ensures !SomeUnfit(table, where) && Supported(table, where) ==>
      GenericList(s, table, where) == Success(Described(s, table, where, Rows(s.database, table)))
  {
    hide CompileEntries, SomeUnfit, RefusalIn, Supported, RunSelect, Described;
    FilterRefusal(table, where);
    CompilesExactly(table, where);
    EmptyIsFit(table);
    if !SomeUnfit(table, where) && Supported(table, where) {
      SupportedSpeaks(table, where);
      CompiledFilterIsExact(s, table, where);
    }
  }

  lemma EmptyIsFit(table: string)
    ensures RefusalIn(table, []) == None
  {
  }

  lemma SupportedSpeaks(table: string, where: seq<Entry>)
    requires Supported(table, where)
    ensures where != []
  {
  }

  /** An unpaged findMany. */
  method FindMany(s: Setting, table: string, where: seq<Entry>) returns (r: Result<seq<Row>, QueryError>)
    ensures r == GenericList(s, table, where)
    ensures RefusalIn(table, where).Some? ==> r == Failure(Rejected(RefusalIn(table, where).value))
    ensures !SomeUnfit(table, where) && Supported(table, where) ==>
      r == Success(Described(s, table, where, Rows(s.database, table)))
    ensures where == [] ==> r == Success(Rows(s.database, table))
  {
    hide RunSelect, Supported, Described, SomeUnfit, RefusalIn;
    ListIsDescribed(s, table, where);
    if where == [] {
      return Success(Rows(s.database, table));
    }
    var values := new ValueList();
    var clauses := BuildWhereClauses(table, where, values);
    if clauses.Failure? {
      return Failure(Rejected(clauses.error));
    }
    assert [] + CompileEntries(table, where).value.params == CompileEntries(table, where).value.params;
    r := RunSelect(s, table, Join(clauses.value, And), values.items);
  }

  function LengthOf(rows: Result<seq<Row>, QueryError>): Result<nat, QueryError> {
    if rows.Failure? then Failure(rows.error) else Success(|rows.value|)
  }

  /** `SELECT COUNT(*)` over the same text: refused like the list, and otherwise the number of its rows. */
  method GenericCount(s: Setting, table: string, where: seq<Entry>) returns (r: Result<nat, QueryError>)
    ensures r == LengthOf(GenericList(s, table, where))
    ensures RefusalIn(table, where).Some? ==> r == Failure(Rejected(RefusalIn(table, where).value))
    ensures !SomeUnfit(table, where) && Supported(table, where) ==>
      r == Success(|Described(s, table, where, Rows(s.database, table))|)
    ensures where == [] ==> r == Success(|Rows(s.database, table)|)
  {
    hide RunSelect, Supported, Described, SomeUnfit, RefusalIn;
    ListIsDescribed(s, table, where);
    if where == [] {
      return Success(|Rows(s.database, table)|);
    }
    var values := new ValueList();
    var clauses := BuildWhereClauses(table, where, values);
    if clauses.Failure? {
      return Failure(Rejected(clauses.error));
    }
    assert [] + CompileEntries(table, where).value.params == CompileEntries(table, where).value.params;
    var rows := RunSelect(s, table, Join(clauses.value, And), values.items);
    r := LengthOf(rows);
  }

  /**
   The compiled text is read as one tree whose placeholders are numbered like the pushed values, and a row
   makes it TRUE exactly when the compiler's reading of the filter asks for the row.
   */
  lemma CompiledTextMeans(s: Setting, table: string, where: seq<Entry>, row: Row)
    requires CompileEntries(table, where).Success? && AllGrounded(table, where) && !AllBlank(where)
    ensures
      var compiled := CompileEntries(table, where).value;
      var read := ReadWhere(Join(compiled.clauses, And));
      read.Some? && CleanBody(read.value, 0) && Holes(read.value) == |compiled.params| &&
      (Selects(World(s.compare, s.database, compiled.params), table, row, read.value) <==>
        AsksAll(s, table, row, where))
  {
    hide Eval, EvalAll, CleanAll, CleanBody, Holes, HolesAll, ReadAny, Write, WriteAll, Join, AsksAll, AllGrounded,
         AllBlank, EntriesTerms, CompileEntries;
    var compiled := CompileEntries(table, where).value;
    var terms := EntriesTerms(table, where, 0);
    EntriesWritten(table, where, 0);
    BlankEntries(table, where, 0);
    JoinWritten(terms, And);
    CleanChain(terms, 0);
    ReadBack(AllOf(terms));
    assert BoundAt(compiled.params, 0, compiled.params);
    EntriesMeaning(s, compiled.params, map[table := row], table, row, where, 0);
    EvalOne(World(s.compare, s.database, compiled.params), map[table := row], table, terms);
  }

  /** No row that meets the filter is ever lost, and simple filters select no other row. */
  lemma CompiledTextIsMeant(s: Setting, table: string, where: seq<Entry>, row: Row)
    requires CompileEntries(table, where).Success? && AllGrounded(table, where) && !AllBlank(where) &&
        AllUnmixed(table, where)
    ensures
      var compiled := CompileEntries(table, where).value;
      var read := ReadWhere(Join(compiled.clauses, And));
      read.Some? &&
      var selected := Selects(World(s.compare, s.database, compiled.params), table, row, read.value);
      (Satisfies(s, table, row, where) ==> selected) &&
      (AllSimple(table, where) && selected ==> Satisfies(s, table, row, where))
  {
    CompiledTextMeans(s, table, where, row);
    AllAskedIsMeant(s, table, row, where);
  }

  /** The rows that come back are the described rows, in table order, none twice. */
  lemma CompiledFilterIsExact(s: Setting, table: string, where: seq<Entry>)
    requires CompileEntries(table, where).Success? && Supported(table, where)
    ensures
      var compiled := CompileEntries(table, where).value;
      RunSelect(s, table, Join(compiled.clauses, And), compiled.params) ==
      Success(Described(s, table, where, Rows(s.database, table)))
  {
    CompiledTextIsMeant(s, table, where, map[]);
    var compiled := CompileEntries(table, where).value;
    SelectedIsDescribed(s, table, where, ReadWhere(Join(compiled.clauses, And)).value, Rows(s.database, table));
  }

  lemma {:induction false} SelectedIsDescribed(s: Setting, table: string, where: seq<Entry>, tree: Sql, rows: seq<Row>)
    requires CompileEntries(table, where).Success? && Supported(table, where)
    requires ReadWhere(Join(CompileEntries(table, where).value.clauses, And)) == Some(tree)
    ensures Selected(World(s.compare, s.database, CompileEntries(table, where).value.params), table, tree, rows) ==
            Described(s, table, where, rows)
  {
    hide Selects, Satisfies, CompileEntries, AllGrounded, AllBlank, AllUnmixed, AllSimple, ReadWhere, Join;
    if rows != [] {
      CompiledTextIsMeant(s, table, where, rows[0]);
      SelectedIsDescribed(s, table, where, tree, rows[1..]);
    }
  }

  // ---------- Where the compiled text departs from the intended meaning ----------

  /** The query compiled from a filter runs, and the row passes it. */
  predicate CompiledSelects(s: Setting, table: string, row: Row, where: seq<Entry>) {
    CompileEntries(table, where).Success? &&
    var compiled := CompileEntries(table, where).value;
    var read := ReadWhere(Join(compiled.clauses, And));
    read.Some? && Selects(World(s.compare, s.database, compiled.params), table, row, read.value)
  }

  /**
   Two keys in one OR alternative become two alternatives: a row that meets only one of the keys is selected.
   */
  lemma TwoKeyAlternativeWidens(s: Setting)
    requires !s.compare.equal(Atom(Number(3)), Atom(Number(2))) && s.compare.equal(Atom(Number(1)), Atom(Number(1)))
    ensures
      var both := Object([Entry("a", Atom(Number(1))), Entry("b", Atom(Number(2)))]);
      var where := [Entry("OR", List([both]))];
      var row: Row := map["a" := Atom(Number(1)), "b" := Atom(Number(3))];
      !Satisfies(s, "Ticket", row, where) && CompiledSelects(s, "Ticket", row, where)
  {
    var both := Object([Entry("a", Atom(Number(1))), Entry("b", Atom(Number(2)))]);
    var e := Entry("OR", List([both]));
    var row: Row := map["a" := Atom(Number(1)), "b" := Atom(Number(3))];
    assert !Meets(s, "Ticket", row, both.entries[1]);
    assert !Satisfies(s, "Ticket", row, both.entries);
    assert !Meets(s, "Ticket", row, e);
    assert [e][0] == e;
    assert Asks(s, "Ticket", row, both.entries[0]) && !Blank(both.entries[0]);
    assert AsksSome(s, "Ticket", row, both.entries);
    assert e.value.items[0] == both;
    assert Asks(s, "Ticket", row, e);
    TwoKeysCompile(both);
    CompiledTextMeans(s, "Ticket", [e], row);
  }

  lemma TwoKeysCompile(both: Json)
    requires both == Object([Entry("a", Atom(Number(1))), Entry("b", Atom(Number(2)))])
    ensures
      var where := [Entry("OR", List([both]))];
      CompileEntries("Ticket", where).Success? && AllGrounded("Ticket", where) && !AllBlank(where)
  {
    var e := Entry("OR", List([both]));
    assert both.entries[1..] == [Entry("b", Atom(Number(2)))] && both.entries[1..][1..] == [] && [both][1..] == [] &&
           [e][1..] == [];
    assert CompileEntries("Ticket", both.entries).Success?;
    assert CompileAlternatives("Ticket", [both]).Success?;
    assert CompileEntry("Ticket", e).Success?;
    assert e.value.items[0] == both && [e][0] == e;
    assert !Blank(both.entries[0]);
    assert !AllBlank(both.entries);
    assert !Blank(e);
  }

  /** The first operator found is a comparison with null, which no row passes. */
  predicate FirstComparesNull(value: Json) {
    Chosen(value).Compared? && Chosen(value).param == Raw(Null)
  }

  /**
   An operator object keeps its meaning, for every cell under every comparison rule, exactly when it carries
   at most one operator, or when the first of its operators compares with null and so selects nothing.
   */
  lemma OperatorObjectKeepsItsMeaningExactly(value: Json)
    ensures (forall compare: Comparisons, cell: Json :: MeetsCell(compare, cell, value) <==>
        MeetsChosen(compare, cell, Chosen(value)))
            <==> OneOperator(value) || FirstComparesNull(value)
  {
    if !OneOperator(value) && !FirstComparesNull(value) {
      SecondOperatorIsIgnored(value);
    }
    forall compare: Comparisons, cell: Json
      ensures OneOperator(value) || FirstComparesNull(value) ==>
              (MeetsCell(compare, cell, value) <==> MeetsChosen(compare, cell, Chosen(value)))
    {
      ChosenIsOneOperator(compare, cell, value);
    }
  }

  lemma SecondOperatorIsIgnored(value: Json)
    requires !OneOperator(value) && !FirstComparesNull(value)
    ensures exists compare: Comparisons, cell: Json ::
      MeetsChosen(compare, cell, Chosen(value)) && !MeetsCell(compare, cell, value)
  {
    var entries := value.entries;
    var first := FirstOperator(entries);
    var second: OperatorName :| HasOperator(entries, second) && second != first &&
      !(second.NotEqual? && Property(entries, second.Key()).value.Null?);
    var operand := Property(entries, first.Key()).value;
    var cell := if operand == Atom(Number(0)) then Atom(Number(1)) else Atom(Number(0));
    var compare := Comparisons(
      (x: Json, y: Json) => second == NotEqual,
      (x: Json, y: Json) => first == AtMost || (first == AtLeast && x == operand),
      (x: Json, y: Json) => true);
    FirstIsChosen(compare, cell, value);
    assert MeetsOperator(compare, cell, first, operand);
    assert !MeetsOperator(compare, cell, second, Property(entries, second.Key()).value);
    assert !MeetsCell(compare, cell, value);
  }

  lemma FirstIsChosen(compare: Comparisons, cell: Json, value: Json)
    requires IsOperatorObject(value)
    ensures
      var first := FirstOperator(value.entries);
      HasOperator(value.entries, first) &&
      (MeetsChosen(compare, cell, Chosen(value)) <==>
       MeetsOperator(compare, cell, first, Property(value.entries, first.Key()).value))
  {
    var entries := value.entries;
    assert HasOperator(entries, ContainsText) <==> Property(entries, "contains").Some?;
    assert HasOperator(entries, AtLeast) <==> Property(entries, "gte").Some?;
    assert HasOperator(entries, AtMost) <==> Property(entries, "lte").Some?;
    assert HasOperator(entries, NotEqual) <==> Property(entries, "not").Some?;
    assert HasOperator(entries, MemberOf) <==> Property(entries, "in").Some? && Property(entries, "in").value.List?;
  }

  /** Of a range given as one operator object only the lower bound is compiled. */
  lemma UpperBoundIsIgnored(s: Setting)
    requires s.compare.atMost(Atom(Number(1)), Atom(Number(9))) && !s.compare.atMost(Atom(Number(9)), Atom(Number(5)))
    ensures
      var range := Object([Entry("gte", Atom(Number(1))), Entry("lte", Atom(Number(5)))]);
      var where := [Entry("n", range)];
      var row: Row := map["n" := Atom(Number(9))];
      !Satisfies(s, "Ticket", row, where) && CompiledSelects(s, "Ticket", row, where)
  {
    var range := Object([Entry("gte", Atom(Number(1))), Entry("lte", Atom(Number(5)))]);
    var row: Row := map["n" := Atom(Number(9))];
    assert Property(range.entries[1..], "lte") == Some(Atom(Number(5)));
    assert Property(range.entries, "gte") == Some(Atom(Number(1)));
    assert Property(range.entries, "contains") == Property(range.entries[1..], "contains") == Property([], "contains");
    assert HasOperator(range.entries, AtMost) && !MeetsOperator(s.compare, Atom(Number(9)), AtMost, Atom(Number(5)));
    assert !MeetsCell(s.compare, Atom(Number(9)), range);
    assert [Entry("n", range)][0].value == range;
    assert !Meets(s, "Ticket", row, Entry("n", range));
    assert Chosen(range) == Compared(Ge, Raw(Atom(Number(1))));
    assert Asks(s, "Ticket", row, Entry("n", range));
    assert [Entry("n", range)][1..] == [];
    assert CompileEntry("Ticket", Entry("n", range)).Success?;
    assert CompileEntries("Ticket", [Entry("n", range)]).Success?;
    CompiledTextMeans(s, "Ticket", [Entry("n", range)], row);
  }
}
