/** List queries with their tables and columns named: one column, and the two filters that reach into another table. */
module WhereLinks {
  import opened Wrappers
  import opened WhereObjects
  import opened SqlMeaning
  import opened WhereCorrectness
  import opened WhereAcceptance
  import opened WhereQueries

  /** The rows that pass a test, in table order. */
  function Passing(rows: seq<Row>, test: Row -> bool): (r: seq<Row>)
    ensures forall row :: row in r <==> row in rows && test(row)
  {
    if rows == [] then [] else (if test(rows[0]) then [rows[0]] else []) + Passing(rows[1..], test)
  }

  lemma {:induction false} DescribedIsPassing(s: Setting, table: string, where: seq<Entry>, rows: seq<Row>,
                                              test: Row -> bool)
    requires forall row: Row :: Satisfies(s, table, row, where) <==> test(row)
    ensures Described(s, table, where, rows) == Passing(rows, test)
  {
    hide Satisfies;
    if rows != [] {
      DescribedIsPassing(s, table, where, rows[1..], test);
    }
  }

  /** The column behind a key: `group` of Permission is stored as `grp`. */
  function ColumnOf(table: string, key: string): string {
    if table == "Permission" && key == "group" then "grp" else key
  }

  predicate IsColumn(table: string, e: Entry) {
    !IsOrList(e) && !IsLink(table, e)
  }

  /**
   A query on one column, by a plain value, null, or one operator, answers the rows whose cell of that column meets the
   value.
   */
  lemma ColumnQueryAnswers(s: Setting, table: string, key: string, value: Json)
    requires IsColumn(table, Entry(key, value)) && Named(key) && OneOperator(value)
    ensures GenericList(s, table, [Entry(key, value)]) ==
            Success(Passing(Rows(s.database, table),
                            (row: Row) => MeetsCell(s.compare, Cell(row, ColumnOf(table, key)), value)))
  {
    hide MeetsCell, OneOperator, Named, AsksNothing, GenericList;
    var e := Entry(key, value);
    var where := [e];
    assert where[0] == e;
    LinksAre(table, e);
    forall row: Row
      ensures Satisfies(s, table, row, where) <==> MeetsCell(s.compare, Cell(row, ColumnOf(table, key)), value)
    {
    }
    assert !Unfit(table, e) && Grounded(table, e) && !Blank(e) && Unmixed(table, e) && Simple(table, e);
    ListIsDescribed(s, table, where);
    DescribedIsPassing(s, table, where, Rows(s.database, table),
                       (row: Row) => MeetsCell(s.compare, Cell(row, ColumnOf(table, key)), value));
  }

  /** Permissions by their group: the cell read is `grp`. */
  lemma GroupAnswers(s: Setting, value: Json)
    requires OneOperator(value)
    ensures GenericList(s, "Permission", [Entry("group", value)]) ==
            Success(Passing(Rows(s.database, "Permission"),
                            (row: Row) => MeetsCell(s.compare, Cell(row, "grp"), value)))
  {
    hide GenericList, MeetsCell, OneOperator;
    ColumnQueryAnswers(s, "Permission", "group", value);
  }

  /** A row of the other table has the id and meets the filter. */
  predicate SomeLinked(s: Setting, table: string, sub: seq<Entry>, id: Json) {
    exists i | 0 <= i < |Rows(s.database, table)| ::
      var row := Rows(s.database, table)[i];
      !id.Null? && !Cell(row, "id").Null? && s.compare.equal(Cell(row, "id"), id) && Satisfies(s, table, row, sub)
  }

  /** Tickets by their creator: those whose `createdById` is the id of a user meeting the filter. */
  lemma CreatedByAnswers(s: Setting, sub: seq<Entry>)
    requires !SomeUnfit("User", sub) && Supported("User", sub)
    ensures GenericList(s, "Ticket", [Entry("createdBy", Object(sub))]) ==
            Success(Passing(Rows(s.database, "Ticket"),
                            (row: Row) => SomeLinked(s, "User", sub, Cell(row, "createdById"))))
  {
    LinkAnswers(s, "Ticket", "createdBy", "User", "createdById", sub);
  }

  /** Timeline entries by their ticket: those whose `ticketId` is the id of a ticket meeting the filter. */
  lemma TicketAnswers(s: Setting, sub: seq<Entry>)
    requires !SomeUnfit("Ticket", sub) && Supported("Ticket", sub)
    ensures GenericList(s, "TicketTimeline", [Entry("ticket", Object(sub))]) ==
            Success(Passing(Rows(s.database, "TicketTimeline"),
                            (row: Row) => SomeLinked(s, "Ticket", sub, Cell(row, "ticketId"))))
  {
    LinkAnswers(s, "TicketTimeline", "ticket", "Ticket", "ticketId", sub);
  }

  lemma LinkAnswers(s: Setting, table: string, key: string, inner: string, foreignKey: string, sub: seq<Entry>)
    requires
      (table == "Ticket" && key == "createdBy" && inner == "User" && foreignKey == "createdById") ||
      (table == "TicketTimeline" && key == "ticket" && inner == "Ticket" && foreignKey == "ticketId")
    requires !SomeUnfit(inner, sub) && Supported(inner, sub)
    ensures GenericList(s, table, [Entry(key, Object(sub))]) ==
            Success(Passing(Rows(s.database, table), (row: Row) => SomeLinked(s, inner, sub, Cell(row, foreignKey))))
  {
    var e := Entry(key, Object(sub));
    var where := [e];
    assert where[0] == e;
    LinkMeets(s, table, key, inner, foreignKey, sub);
    LinkIsSupported(table, key, inner, foreignKey, sub);
    hide *;
    ListIsDescribed(s, table, where);
    DescribedIsPassing(s, table, where, Rows(s.database, table),
                       (row: Row) => SomeLinked(s, inner, sub, Cell(row, foreignKey)));
  }

  lemma LinkMeets(s: Setting, table: string, key: string, inner: string, foreignKey: string, sub: seq<Entry>)
    requires
      (table == "Ticket" && key == "createdBy" && inner == "User" && foreignKey == "createdById") ||
      (table == "TicketTimeline" && key == "ticket" && inner == "Ticket" && foreignKey == "ticketId")
    ensures forall row: Row ::
      Satisfies(s, table, row, [Entry(key, Object(sub))]) <==> SomeLinked(s, inner, sub, Cell(row, foreignKey))
  {
    var e := Entry(key, Object(sub));
    assert [e][0] == e;
    forall row: Row ensures Satisfies(s, table, row, [e]) <==> SomeLinked(s, inner, sub, Cell(row, foreignKey)) {
      assert Satisfies(s, table, row, [e]) <==> Meets(s, table, row, e);
      assert e.value.entries == sub;
      var rows := Rows(s.database, inner);
      assert Meets(s, table, row, e) <==>
        exists i | 0 <= i < |rows| ::
          References(s.compare, row, rows[i], foreignKey) && Satisfies(s, inner, rows[i], sub);
    }
  }

  lemma LinkIsSupported(table: string, key: string, inner: string, foreignKey: string, sub: seq<Entry>)
    requires
      (table == "Ticket" && key == "createdBy" && inner == "User" && foreignKey == "createdById") ||
      (table == "TicketTimeline" && key == "ticket" && inner == "Ticket" && foreignKey == "ticketId")
    requires !SomeUnfit(inner, sub) && Supported(inner, sub)
    ensures
      var where := [Entry(key, Object(sub))];
      !SomeUnfit(table, where) && Supported(table, where)
  {
    var e := Entry(key, Object(sub));
    assert [e][0] == e && e.value.entries == sub;
    hide AllGrounded, AllBlank, AllUnmixed, AllSimple;
    assert !Unfit(table, e) && Grounded(table, e) && !Blank(e) && Unmixed(table, e) && Simple(table, e);
    OneEntry(table, e);
  }

  lemma OneEntry(table: string, e: Entry)
    ensures AllGrounded(table, [e]) <==> Grounded(table, e)
    ensures AllBlank([e]) <==> Blank(e)
    ensures AllUnmixed(table, [e]) <==> Unmixed(table, e)
    ensures AllSimple(table, [e]) <==> Simple(table, e)
  {
    assert [e][0] == e;
  }
}
