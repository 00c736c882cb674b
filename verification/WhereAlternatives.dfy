/** Exactly when flattening the alternatives of an OR list into one list of conditions keeps its meaning. */
module WhereAlternatives {
  import opened WhereObjects
  import opened SqlMeaning
  import opened WhereCompiler
  import opened WhereCorrectness
  import opened Probing

  /** Nulls, plain values, `contains`, `in` lists, `gte` and `lte` on columns. */
  predicate PlainCondition(table: string, e: Entry) {
    Comparison(e.value) && !IsRelational(table, e)
  }

  predicate PlainAlternatives(table: string, items: seq<Json>) {
    forall i | 0 <= i < |items| :: items[i].Object? && forall e | e in items[i].entries :: PlainCondition(table, e)
  }

  predicate HasEmpty(items: seq<Json>) {
    exists i | 0 <= i < |items| :: items[i] == Object([])
  }

  predicate HasCondition(items: seq<Json>) {
    exists i | 0 <= i < |items| :: items[i].Object? && items[i].entries != []
  }

  /** One way of meeting a condition: the column is NULL, or one probe holds of it. */
  datatype Choice = IsNull(column: string) | Holds(column: string, probe: Probe)

  predicate ChoiceOf(table: string, e: Entry, choice: Choice)
    requires Comparison(e.value)
  {
    choice.column == NormalizeColumn(table, e.key) &&
    if e.value.Null? then choice.IsNull? else choice.Holds? && choice.probe in ProbesOf(e.value)
  }

  predicate Realised(compare: Comparisons, row: Row, choice: Choice) {
    match choice
    case IsNull(column) => Cell(row, column).Null?
    case Holds(column, probe) => ProbeHolds(compare, Cell(row, column), probe)
  }

  predicate ComparisonsOnly(entries: seq<Entry>) {
    forall e | e in entries :: Comparison(e.value)
  }

  /** The choice alone meets all conditions of an alternative. */
  predicate MeetsWhole(table: string, entries: seq<Entry>, choice: Choice)
    requires ComparisonsOnly(entries)
  {
    forall e | e in entries :: ChoiceOf(table, e, choice)
  }

  predicate StandsAlone(table: string, items: seq<Json>, choice: Choice) {
    exists k | 0 <= k < |items| :: items[k].Object? && ComparisonsOnly(items[k].entries) &&
      MeetsWhole(table, items[k].entries, choice)
  }

  /** Whatever meets one condition of one alternative meets a whole alternative. */
  ghost predicate EachStandsAlone(table: string, items: seq<Json>)
    requires PlainAlternatives(table, items)
  {
    forall i, e, choice: Choice | 0 <= i < |items| && e in items[i].entries && ChoiceOf(table, e, choice) ::
      StandsAlone(table, items, choice)
  }

  predicate CellMet(s: Setting, table: string, row: Row, e: Entry) {
    MeetsCell(s.compare, Cell(row, NormalizeColumn(table, e.key)), e.value)
  }

  lemma PlainIsOneOperator(value: Json)
    requires Comparison(value)
    ensures OneOperator(value)
  {
    if IsContains(value) {
      ContainsProperty(value);
    } else if IsInList(value) {
      InListProperty(value);
    } else if IsRange(value) {
      RangeProperty(value);
    }
  }

  lemma PlainConditionMeans(s: Setting, table: string, row: Row, e: Entry)
    requires PlainCondition(table, e)
    ensures Meets(s, table, row, e) <==> CellMet(s, table, row, e)
    ensures Asks(s, table, row, e) <==> CellMet(s, table, row, e)
    ensures !Blank(e)
  {
    PlainIsOneOperator(e.value);
    ChosenIsOneOperator(s.compare, Cell(row, NormalizeColumn(table, e.key)), e.value);
    hide MeetsCell, MeetsChosen, Chosen, Property, OneOperator;
    assert !IsOr(e);
  }

  lemma CellMetByChoice(s: Setting, table: string, row: Row, e: Entry)
    requires PlainCondition(table, e)
    ensures CellMet(s, table, row, e) <==> exists choice: Choice ::
        ChoiceOf(table, e, choice) && Realised(s.compare, row, choice)
  {
    var column := NormalizeColumn(table, e.key);
    PlainMeans(s.compare, Cell(row, column), e.value);
    hide MeetsCell, Comparison, ProbesOf;
    if CellMet(s, table, row, e) {
      if e.value.Null? {
        assert ChoiceOf(table, e, IsNull(column)) && Realised(s.compare, row, IsNull(column));
      } else {
        var p :| p in ProbesOf(e.value) && ProbeHolds(s.compare, Cell(row, column), p);
        assert ChoiceOf(table, e, Holds(column, p)) && Realised(s.compare, row, Holds(column, p));
      }
    }
    if choice: Choice :| ChoiceOf(table, e, choice) && Realised(s.compare, row, choice) {
      if !e.value.Null? {
        assert choice.probe in ProbesOf(e.value) && ProbeHolds(s.compare, Cell(row, column), choice.probe);
      }
    }
  }

  predicate SomeAlternativeMet(s: Setting, table: string, row: Row, items: seq<Json>) {
    exists i | 0 <= i < |items| :: items[i].Object? && forall e | e in items[i].entries :: CellMet(s, table, row, e)
  }

  predicate SomeConditionMet(s: Setting, table: string, row: Row, items: seq<Json>) {
    exists i, e | 0 <= i < |items| && items[i].Object? && e in items[i].entries :: CellMet(s, table, row, e)
  }

  lemma AlternativeMeans(s: Setting, table: string, row: Row, entries: seq<Entry>)
    requires forall e | e in entries :: PlainCondition(table, e)
    ensures Satisfies(s, table, row, entries) <==> forall e | e in entries :: CellMet(s, table, row, e)
    ensures AsksSome(s, table, row, entries) <==> exists e | e in entries :: CellMet(s, table, row, e)
    ensures AllBlank(entries) <==> entries == []
  {
    hide Meets, Asks, Blank, CellMet, PlainCondition;
    forall i | 0 <= i < |entries|
      ensures Meets(s, table, row, entries[i]) <==> CellMet(s, table, row, entries[i])
      ensures Asks(s, table, row, entries[i]) <==> CellMet(s, table, row, entries[i])
      ensures !Blank(entries[i])
    {
      assert entries[i] in entries;
      PlainConditionMeans(s, table, row, entries[i]);
    }
    if Satisfies(s, table, row, entries) {
      forall e | e in entries ensures CellMet(s, table, row, e) {
        var i :| 0 <= i < |entries| && entries[i] == e;
      }
    }
    if e :| e in entries && CellMet(s, table, row, e) {
      var i :| 0 <= i < |entries| && entries[i] == e;
    }
    if entries != [] {
      assert !Blank(entries[0]);
    }
  }

  function OrOf(items: seq<Json>): Entry {
    Entry("OR", List(items))
  }

  lemma OrMeans(s: Setting, table: string, row: Row, items: seq<Json>)
    requires PlainAlternatives(table, items)
    ensures Meets(s, table, row, OrOf(items)) <==> items == [] || SomeAlternativeMet(s, table, row, items)
    ensures Asks(s, table, row, OrOf(items)) <==> !HasCondition(items) || SomeConditionMet(s, table, row, items)
  {
    forall i | 0 <= i < |items|
      ensures Satisfies(s, table, row, items[i].entries) <==> forall e | e in items[i].entries ::
          CellMet(s, table, row, e)
      ensures AsksSome(s, table, row, items[i].entries) <==> exists e | e in items[i].entries ::
          CellMet(s, table, row, e)
      ensures AllBlank(items[i].entries) <==> items[i].entries == []
    {
      AlternativeMeans(s, table, row, items[i].entries);
    }
    hide Satisfies, AsksSome, AllBlank, CellMet, PlainCondition;
    OrBlank(items);
  }

  lemma OrBlank(items: seq<Json>)
    requires forall i | 0 <= i < |items| :: items[i].Object? && (AllBlank(items[i].entries) <==> items[i].entries == [])
    ensures Blank(OrOf(items)) <==> !HasCondition(items)
  {
    hide AllBlank;
  }

  predicate OrIsSame(s: Setting, table: string, row: Row, items: seq<Json>) {
    Meets(s, table, row, OrOf(items)) <==> Asks(s, table, row, OrOf(items))
  }

  /**
   An OR list of nulls, plain values, `contains`, `in` lists, `gte` and `lte` keeps its meaning, for every row of every
   database under every comparison rule, exactly when its alternatives are all empty, or none is and each way of
   meeting one of their conditions meets a whole alternative.
   */
  lemma AlternativesKeepTheirMeaningExactly(table: string, items: seq<Json>)
    requires PlainAlternatives(table, items)
    ensures (forall s: Setting, row: Row :: OrIsSame(s, table, row, items)) <==>
            !HasCondition(items) || (!HasEmpty(items) && EachStandsAlone(table, items))
  {
    hide OrIsSame, HasCondition, HasEmpty, ChoiceOf, StandsAlone;
    if !HasCondition(items) {
      forall s: Setting, row: Row ensures OrIsSame(s, table, row, items) {
        EmptyIsSame(s, table, row, items);
      }
    } else if HasEmpty(items) {
      EmptyDeparts(table, items);
    } else if EachStandsAlone(table, items) {
      forall s: Setting, row: Row ensures OrIsSame(s, table, row, items) {
        AloneIsSame(s, table, row, items);
      }
    } else {
      var i, e, choice: Choice :| 0 <= i < |items| && e in items[i].entries && ChoiceOf(table, e, choice) &&
                                  !StandsAlone(table, items, choice);
      var s, row := NotAloneDeparts(table, items, i, e, choice);
    }
  }

  lemma EmptyIsSame(s: Setting, table: string, row: Row, items: seq<Json>)
    requires PlainAlternatives(table, items) && !HasCondition(items)
    ensures OrIsSame(s, table, row, items)
  {
    hide Meets, Asks, CellMet;
    OrMeans(s, table, row, items);
    if items != [] {
      assert items[0].entries == [];
      assert SomeAlternativeMet(s, table, row, items);
    }
  }

  /** A row without NULLs for which every comparison fails meets an empty alternative and no condition. */
  lemma EmptyDeparts(table: string, items: seq<Json>)
    requires PlainAlternatives(table, items) && HasEmpty(items) && HasCondition(items)
    ensures exists s: Setting, row: Row :: !OrIsSame(s, table, row, items)
  {
    hide Meets, Asks, Comparison, IsRelational, HasCondition;
    var s := Setting(Rules(false, false, false), map[]);
    var row := Tagged(Columns(table, items));
    OrMeans(s, table, row, items);
    var i :| 0 <= i < |items| && items[i] == Object([]);
    assert SomeAlternativeMet(s, table, row, items);
    forall k, e | 0 <= k < |items| && e in items[k].entries ensures !CellMet(s, table, row, e) {
      FilledColumn(table, items, k, e);
      PlainMeans(s.compare, Cell(row, NormalizeColumn(table, e.key)), e.value);
    }
    assert !OrIsSame(s, table, row, items);
  }

  function Columns(table: string, items: seq<Json>): set<string> {
    set i, e | 0 <= i < |items| && items[i].Object? && e in items[i].entries :: NormalizeColumn(table, e.key)
  }

  lemma FilledColumn(table: string, items: seq<Json>, i: nat, e: Entry)
    requires i < |items| && items[i].Object? && e in items[i].entries
    ensures NormalizeColumn(table, e.key) in Columns(table, items)
  {
  }

  lemma AloneIsSame(s: Setting, table: string, row: Row, items: seq<Json>)
    requires PlainAlternatives(table, items) && HasCondition(items) && !HasEmpty(items) && EachStandsAlone(table, items)
    ensures OrIsSame(s, table, row, items)
  {
    hide Meets, Asks, CellMet, ChoiceOf, Realised, PlainCondition, HasCondition;
    OrMeans(s, table, row, items);
    assert items != [] by {
      if items == [] {
        NoCondition();
      }
    }
    if i :| 0 <= i < |items| && items[i].Object? && forall e | e in items[i].entries :: CellMet(s, table, row, e) {
      assert items[i] == Object(items[i].entries) && items[i].entries[0] in items[i].entries;
      assert SomeConditionMet(s, table, row, items);
    }
    if SomeConditionMet(s, table, row, items) {
      var i, e :| 0 <= i < |items| && items[i].Object? && e in items[i].entries && CellMet(s, table, row, e);
      CellMetByChoice(s, table, row, e);
      IsPlain(table, items, i, e);
      var choice: Choice :| ChoiceOf(table, e, choice) && Realised(s.compare, row, choice);
      assert StandsAlone(table, items, choice);
      var k :| 0 <= k < |items| && items[k].Object? && ComparisonsOnly(items[k].entries) &&
        MeetsWhole(table, items[k].entries, choice);
      forall other | other in items[k].entries ensures CellMet(s, table, row, other) {
        CellMetByChoice(s, table, row, other);
      }
    }
  }

  lemma IsPlain(table: string, items: seq<Json>, i: nat, e: Entry)
    requires PlainAlternatives(table, items) && i < |items| && e in items[i].entries
    ensures PlainCondition(table, e) && Comparison(e.value)
  {
  }

  lemma NoCondition()
    ensures !HasCondition([])
  {
  }

  /** A row and a rule that realise one choice and no other. */
  lemma NotAloneDeparts(table: string, items: seq<Json>, i: nat, e: Entry, choice: Choice)
    returns (s: Setting, row: Row)
    requires PlainAlternatives(table, items) && i < |items| && e in items[i].entries
    requires Comparison(e.value) && ChoiceOf(table, e, choice) && !StandsAlone(table, items, choice)
    ensures !OrIsSame(s, table, row, items)
  {
    hide Meets, Asks, IsRelational, Comparison, CellMet, Realised, ChoiceOf, HasCondition, Columns;
    if choice.IsNull? {
      s, row := Setting(Rules(false, false, false), map[]), Tagged(Columns(table, items) - {choice.column});
    } else {
      s, row := Setting(OnlyProbe(choice.column, choice.probe), map[]), Tagged(Columns(table, items));
    }
    ChoiceIsRealised(table, items, i, e, choice, s.compare, row);
    OrMeans(s, table, row, items);
    IsPlain(table, items, i, e);
    CellMetByChoice(s, table, row, e);
    ChoiceHasPlainBound(table, e, choice);
    assert SomeConditionMet(s, table, row, items);
    forall k | 0 <= k < |items| ensures exists other | other in items[k].entries :: !CellMet(s, table, row, other) {
      var other := Unlike(table, items, k, choice);
      OnlyThisChoice(s, table, row, items, k, other, choice);
    }
    NonEmpty(items, i, e);
  }

  lemma ChoiceHasPlainBound(table: string, e: Entry, choice: Choice)
    requires Comparison(e.value) && ChoiceOf(table, e, choice)
    ensures (choice.Holds? && (choice.probe.NoLess? || choice.probe.NoMore?)) ==> choice.probe.bound.Atom?
  {
    if !e.value.Null? {
      BoundsArePlain(e.value);
    }
  }

  lemma ChoiceIsRealised(table: string, items: seq<Json>, i: nat, e: Entry, choice: Choice, compare: Comparisons,
        row: Row)
    requires i < |items| && items[i].Object? && e in items[i].entries && Comparison(e.value) &&
        ChoiceOf(table, e, choice)
    requires compare == if choice.IsNull? then Rules(false, false, false) else OnlyProbe(choice.column, choice.probe)
    requires row == Tagged(if choice.IsNull? then Columns(table, items) - {choice.column} else Columns(table, items))
    ensures Realised(compare, row, choice)
  {
    hide Comparison, ProbesOf, Columns;
    FilledColumn(table, items, i, e);
  }

  lemma NonEmpty(items: seq<Json>, i: nat, e: Entry)
    requires i < |items| && items[i].Object? && e in items[i].entries
    ensures items != [] && HasCondition(items)
  {
  }

  lemma Unlike(table: string, items: seq<Json>, k: nat, choice: Choice) returns (other: Entry)
    requires PlainAlternatives(table, items) && k < |items| && !StandsAlone(table, items, choice)
    ensures other in items[k].entries && PlainCondition(table, other) && !ChoiceOf(table, other, choice)
  {
    hide Comparison, ChoiceOf;
    assert ComparisonsOnly(items[k].entries);
    assert !MeetsWhole(table, items[k].entries, choice);
    other :| other in items[k].entries && !ChoiceOf(table, other, choice);
  }

  lemma TagIsNoNull(column: string)
    ensures !Tag(column).Null?
  {
  }

  lemma NoRuleHolds(cell: Json, p: Probe)
    ensures !ProbeHolds(Rules(false, false, false), cell, p)
  {
  }

  lemma OnlyThisChoice(s: Setting, table: string, row: Row, items: seq<Json>, k: nat, other: Entry, choice: Choice)
    requires (choice.Holds? && (choice.probe.NoLess? || choice.probe.NoMore?)) ==> choice.probe.bound.Atom?
    requires k < |items| && items[k].Object? && other in items[k].entries
    requires PlainCondition(table, other) && !ChoiceOf(table, other, choice)
    requires s.compare == if choice.IsNull? then Rules(false, false, false) else OnlyProbe(choice.column, choice.probe)
    requires row == Tagged(if choice.IsNull? then Columns(table, items) - {choice.column} else Columns(table, items))
    ensures !CellMet(s, table, row, other)
  {
    hide Comparison, ProbesOf, MeetsCell, Columns, OnlyProbe, Tag, ProbeHolds;
    var column := NormalizeColumn(table, other.key);
    FilledColumn(table, items, k, other);
    PlainMeans(s.compare, Cell(row, column), other.value);
    TagIsNoNull(column);
    if !other.value.Null? {
      BoundsArePlain(other.value);
      forall p | p in ProbesOf(other.value) ensures !ProbeHolds(s.compare, Cell(row, column), p) {
        if choice.IsNull? {
          NoRuleHolds(Cell(row, column), p);
        } else {
          TagsDiffer(column, choice.column);
          OnlyThisProbe(choice.column, Cell(row, column), choice.probe, p);
        }
      }
    }
  }
}
