/** Which filters compile: the refusals read off the filter alone, with the character classes and links written out. */
module WhereAcceptance {
  import opened Wrappers
  import opened WhereObjects
  import opened WhereCompiler

  /** `[a-zA-Z_]` */
  predicate Initial(c: char) {
    'a' <= c <= 'z' || 'A' <= c <= 'Z' || c == '_'
  }

  /** `^[a-zA-Z_][a-zA-Z0-9_]*$` */
  predicate Named(name: string) {
    name != "" && Initial(name[0]) && forall i | 0 < i < |name| :: Initial(name[i]) || '0' <= name[i] <= '9'
  }

  /** A key whose value is a filter on the rows of another table. */
  predicate IsLink(table: string, e: Entry) {
    ((table == "TicketTimeline" && e.key == "ticket") || (table == "Ticket" && e.key == "createdBy")) &&
    (e.value.Object? || e.value.List?)
  }

  function Linked(table: string): string {
    if table == "Ticket" then "User" else "Ticket"
  }

  predicate IsOrList(e: Entry) {
    e.key == "OR" && e.value.List?
  }

  /** `in: []` and no other operator: no row is asked for, whatever the column. */
  predicate AsksNothing(value: Json) {
    value.Object? && Property(value.entries, "in") == Some(List([])) &&
    forall key | key in ["contains", "gte", "lte", "not"] :: Property(value.entries, key).None?
  }

  /** The first thing in an entry that the compiler refuses. */
  function Refusal(table: string, e: Entry): Option<WhereError>
    decreases e, 0
  {
    if IsOrList(e) then RefusalInItems(table, e.value.items)
    else if IsLink(table, e) then
      if e.value.List? then Some(NotARecord) else RefusalIn(Linked(table), e.value.entries)
    else if AsksNothing(e.value) || Named(e.key) then None
    else Some(InvalidIdentifier(e.key))
  }

  function RefusalIn(table: string, where: seq<Entry>): Option<WhereError>
    decreases where, 0
  {
    if where == [] then None
    else if Refusal(table, where[0]).Some? then Refusal(table, where[0])
    else RefusalIn(table, where[1..])
  }

  function RefusalInItems(table: string, items: seq<Json>): Option<WhereError>
    decreases items, 0
  {
    if items == [] then None
    else if !items[0].Object? then Some(NotARecord)
    else if RefusalIn(table, items[0].entries).Some? then RefusalIn(table, items[0].entries)
    else RefusalInItems(table, items[1..])
  }

  /** The compiler fails with the refusal, or does not fail. */
  predicate Refuses(outcome: Outcome, refusal: Option<WhereError>) {
    match refusal
    case None => outcome.Success?
    case Some(error) => outcome == Failure(error)
  }

  lemma ColumnRefusal(table: string, key: string, value: Json)
    ensures Refuses(CompileCondition(NormalizeColumn(table, key), Chosen(value)),
                    if AsksNothing(value) || Named(key) then None else Some(InvalidIdentifier(key)))
  {
    ChosenAmongNone(value);
    IdentifierIsNamed(key);
    IdentifierIsNamed("grp");
  }

  lemma ChosenAmongNone(value: Json)
    ensures Chosen(value) == Among([]) <==> AsksNothing(value)
  {
    var keys := ["contains", "gte", "lte", "not"];
    assert keys[0] in keys && keys[1] in keys && keys[2] in keys && keys[3] in keys;
    assert forall key | key in keys :: key == "contains" || key == "gte" || key == "lte" || key == "not";
  }

  lemma IdentifierIsNamed(name: string)
    ensures IsIdentifier(name) <==> Named(name)
  {
  }

  lemma LinksAre(table: string, e: Entry)
    ensures IsRelational(table, e) <==> IsLink(table, e)
    ensures IsLink(table, e) ==>
      Relation(table, e.key).Some? && Relation(table, e.key).value.0 == Linked(table) &&
      (e.value.Object? || e.value.List?)
    ensures IsOr(e) <==> IsOrList(e)
  {
  }

  lemma {:induction false} EntryRefusal(table: string, e: Entry)
    ensures Refuses(CompileEntry(table, e), Refusal(table, e))
    decreases e, 0
  {
    LinksAre(table, e);
    hide IsRelational, Relation, NormalizeColumn, Chosen, IsLink, Named, AsksNothing, CompileCondition;
    if IsOrList(e) {
      ItemsRefusal(table, e.value.items);
    } else if IsLink(table, e) {
      if e.value.Object? {
        FilterRefusal(Linked(table), e.value.entries);
      }
    } else {
      ColumnRefusal(table, e.key, e.value);
    }
  }

  /**
   A filter fails to compile exactly on its first refusal: an OR alternative or a linked filter that is no object, or a
   column, asked for something, whose name is not letters, digits and underscores with no digit first.
   */
  lemma {:induction false} FilterRefusal(table: string, where: seq<Entry>)
    ensures Refuses(CompileEntries(table, where), RefusalIn(table, where))
    decreases where, 0
  {
    hide CompileEntry, Refusal;
    if where != [] {
      EntryRefusal(table, where[0]);
      FilterRefusal(table, where[1..]);
    }
  }

  lemma {:induction false} ItemsRefusal(table: string, items: seq<Json>)
    ensures Refuses(CompileAlternatives(table, items), RefusalInItems(table, items))
    decreases items, 0
  {
    hide CompileEntries, RefusalIn;
    if items != [] && items[0].Object? {
      FilterRefusal(table, items[0].entries);
      ItemsRefusal(table, items[1..]);
    }
  }

  // ---------- The same without an order ----------

  /** Some part of the entry is refused. */
  predicate Unfit(table: string, e: Entry)
    decreases e, 0
  {
    if IsOrList(e) then
      exists i | 0 <= i < |e.value.items| :: !e.value.items[i].Object? || SomeUnfit(table, e.value.items[i].entries)
    else if IsLink(table, e) then e.value.List? || SomeUnfit(Linked(table), e.value.entries)
    else !AsksNothing(e.value) && !Named(e.key)
  }

  predicate SomeUnfit(table: string, where: seq<Entry>)
    decreases where, 0
  {
    exists i | 0 <= i < |where| :: Unfit(table, where[i])
  }

  lemma {:induction false} UnfitIsRefused(table: string, e: Entry)
    ensures Unfit(table, e) <==> Refusal(table, e).Some?
    decreases e, 0
  {
    LinksAre(table, e);
    hide IsLink, Named, AsksNothing;
    if IsOrList(e) {
      ItemsUnfit(table, e.value.items);
    } else if IsLink(table, e) && e.value.Object? {
      SomeUnfitIsRefused(Linked(table), e.value.entries);
    }
  }

  lemma {:induction false} SomeUnfitIsRefused(table: string, where: seq<Entry>)
    ensures SomeUnfit(table, where) <==> RefusalIn(table, where).Some?
    decreases where, 0
  {
    hide Unfit, Refusal;
    if where != [] {
      UnfitIsRefused(table, where[0]);
      SomeUnfitIsRefused(table, where[1..]);
      assert forall i | 0 <= i < |where[1..]| :: where[1..][i] == where[i + 1];
      if SomeUnfit(table, where) {
        var i :| 0 <= i < |where| && Unfit(table, where[i]);
        assert i == 0 || where[1..][i - 1] == where[i];
      }
    }
  }

  lemma {:induction false} ItemsUnfit(table: string, items: seq<Json>)
    ensures (exists i | 0 <= i < |items| :: !items[i].Object? || SomeUnfit(table, items[i].entries)) <==>
            RefusalInItems(table, items).Some?
    decreases items, 0
  {
    hide SomeUnfit, RefusalIn;
    if items != [] {
      if items[0].Object? {
        SomeUnfitIsRefused(table, items[0].entries);
      }
      ItemsUnfit(table, items[1..]);
      assert forall i | 0 <= i < |items[1..]| :: items[1..][i] == items[i + 1];
      assert forall i | 0 < i < |items| :: items[i] == items[1..][i - 1];
    }
  }

  /** A filter compiles exactly when no part of it is refused. */
  lemma CompilesExactly(table: string, where: seq<Entry>)
    ensures CompileEntries(table, where).Success? <==> !SomeUnfit(table, where)
  {
    hide CompileEntries, SomeUnfit, RefusalIn;
    FilterRefusal(table, where);
    SomeUnfitIsRefused(table, where);
  }
}
