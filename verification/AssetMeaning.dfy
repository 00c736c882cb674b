/** Exactly when the asset compiler keeps the meaning of a value, position by position, and of a whole OR list. */
module AssetMeaning {
  import opened Wrappers
  import opened WhereObjects
  import opened SqlMeaning
  import opened WhereCorrectness
  import opened AssetQueries
  import opened Probing

  // ---------- One value in one position ----------

  predicate NothingListed(items: seq<Json>) {
    forall i | 0 <= i < |items| :: items[i].Null?
  }

  predicate BoundedByNull(entries: seq<Entry>) {
    Property(entries, "gte") == Some(Null) || Property(entries, "lte") == Some(Null)
  }

  /**
   Null is known at the top and in AND lists, `contains` everywhere, `in` only in AND lists, and no other operator
   anywhere; what remains keeps its meaning only where that meaning and the compiled one are both never met.
   */
  predicate KeptAt(position: Position, value: Json) {
    if value.Null? then position != InOr
    else if !value.Object? then true
    else
      var among := Property(value.entries, "in");
      if Property(value.entries, "contains").Some? then OnlyOperator(value.entries, ContainsText)
      else if position == InAnd && among.Some? then
        if among.value.List? then OnlyOperator(value.entries, MemberOf) || NothingListed(among.value.items)
        else among.value.Null? && BoundedByNull(value.entries)
      else !IsOperatorObject(value)
  }

  predicate SameAt(compare: Comparisons, cell: Json, position: Position, value: Json) {
    MeetsCell(compare, cell, value) <==> MeetsChosen(compare, cell, AssetCondition(position, value))
  }

  /**
   In each position a value keeps its meaning, for every cell under every comparison rule, exactly when it is known
   there.
   */
  lemma PositionKeepsMeaningExactly(position: Position, value: Json)
    ensures (forall compare: Comparisons, cell: Json :: SameAt(compare, cell, position, value)) <==>
        KeptAt(position, value)
  {
    hide SameAt, KeptAt;
    if KeptAt(position, value) {
      forall compare: Comparisons, cell: Json ensures SameAt(compare, cell, position, value) {
        KeptIsSame(compare, cell, position, value);
      }
    } else {
      var compare, cell := Departs(position, value);
    }
  }

  lemma KeptIsSame(compare: Comparisons, cell: Json, position: Position, value: Json)
    requires KeptAt(position, value)
    ensures SameAt(compare, cell, position, value)
  {
    if value.Object? {
      OperatorsAre(value.entries);
      hide Property, MeetsCell, OnlyOperator;
      var among := Property(value.entries, "in");
      if Property(value.entries, "contains").Some? {
        OneInCharge(compare, cell, value, ContainsText);
      } else if position == InAnd && among.Some? && among.value.List? {
        if OnlyOperator(value.entries, MemberOf) {
          OneInCharge(compare, cell, value, MemberOf);
        } else {
          NeverListed(compare, cell, value);
        }
      } else if position == InAnd && among.Some? {
        NeverBounded(compare, cell, value);
      } else {
        PlainEquality(compare, cell, value);
      }
    }
  }

  lemma NeverListed(compare: Comparisons, cell: Json, value: Json)
    requires value.Object? && HasOperator(value.entries, MemberOf) &&
        NothingListed(Property(value.entries, "in").value.items)
    ensures !MeetsCell(compare, cell, value) && !ListHas(compare, cell, Property(value.entries, "in").value.items)
  {
    hide Property;
    assert IsOperatorObject(value);
    assert !MeetsOperator(compare, cell, MemberOf, Property(value.entries, MemberOf.Key()).value);
  }

  lemma NeverBounded(compare: Comparisons, cell: Json, value: Json)
    requires value.Object? && BoundedByNull(value.entries)
    ensures !MeetsCell(compare, cell, value)
  {
    OperatorsAre(value.entries);
    hide Property;
    var op := if Property(value.entries, "gte") == Some(Null) then AtLeast else AtMost;
    assert HasOperator(value.entries, op) && IsOperatorObject(value);
    assert !MeetsOperator(compare, cell, op, Property(value.entries, op.Key()).value);
  }

  lemma PlainEquality(compare: Comparisons, cell: Json, value: Json)
    requires value.Object? && !IsOperatorObject(value)
    ensures MeetsCell(compare, cell, value) <==> !cell.Null? && compare.equal(cell, value)
  {
  }

  const CELL := Atom(Number(0))

  /** A cell and a rule under which the compiled condition is met and one given operator is not. */
  lemma Unmet(value: Json, operator: OperatorName, compare: Comparisons)
    requires value.Object? && HasOperator(value.entries, operator)
    requires !MeetsOperator(compare, CELL, operator, Property(value.entries, operator.Key()).value)
    ensures !MeetsCell(compare, CELL, value)
  {
    hide Property;
    assert IsOperatorObject(value);
  }

  lemma Departs(position: Position, value: Json) returns (compare: Comparisons, cell: Json)
    requires !KeptAt(position, value)
    ensures !SameAt(compare, cell, position, value)
  {
    cell := CELL;
    if value.Null? {
      compare, cell := Rules(true, true, true), Null;
    } else {
      var among := Property(value.entries, "in");
      if Property(value.entries, "contains").Some? {
        compare := SecondUnmet(value, ContainsText);
      } else if position == InAnd && among.Some? && among.value.List? {
        compare := SecondUnmet(value, MemberOf);
        var i :| 0 <= i < |among.value.items| && !among.value.items[i].Null?;
      } else if position == InAnd && among.Some? {
        compare := LoneInValue(value);
      } else {
        compare := OperatorAsValue(value);
      }
    }
  }

  /** A second operator fails while the one in charge holds. */
  lemma SecondUnmet(value: Json, first: OperatorName) returns (compare: Comparisons)
    requires value.Object? && HasOperator(value.entries, first) && !OnlyOperator(value.entries, first)
    requires first == ContainsText || (first == MemberOf && !HasOperator(value.entries, ContainsText))
    ensures !MeetsCell(compare, CELL, value)
    ensures first == ContainsText ==> forall text: Json :: compare.contains(CELL, text)
    ensures first == MemberOf ==> forall item: Json :: compare.equal(CELL, item)
  {
    var second: OperatorName :| HasOperator(value.entries, second) && second != first &&
      !(second.NotEqual? && Property(value.entries, second.Key()).value.Null?);
    hide Property;
    compare := Rules(first == MemberOf || second == NotEqual, false, true);
    Unmet(value, second, compare);
  }

  /** `in` with something that is no list is compiled to membership of a one-element list. */
  lemma LoneInValue(value: Json) returns (compare: Comparisons)
    requires value.Object? && Property(value.entries, "contains").None? && Property(value.entries, "in").Some?
    requires !Property(value.entries, "in").value.List?
    requires !(Property(value.entries, "in").value.Null? && BoundedByNull(value.entries))
    ensures MeetsCell(compare, CELL, value) <==> !ListHas(compare, CELL, [Property(value.entries, "in").value])
  {
    OperatorsAre(value.entries);
    var only := Property(value.entries, "in").value;
    InsideIsSmaller(value.entries, "in");
    hide Property;
    assert [only][0] == only;
    if HasOperator(value.entries, AtLeast) && !only.Null? {
      compare := Rules(true, false, true);
      Unmet(value, AtLeast, compare);
    } else if HasOperator(value.entries, AtMost) && !only.Null? {
      compare := Rules(true, false, true);
      Unmet(value, AtMost, compare);
    } else if IsOperatorObject(value) {
      compare := Rules(false, true, true);
    } else {
      compare := Comparisons((a: Json, b: Json) => b == value, (a: Json, b: Json) => true, (a: Json, b: Json) => true);
    }
  }

  /** An operator object compared as a value. */
  lemma OperatorAsValue(value: Json) returns (compare: Comparisons)
    requires value.Object? && Property(value.entries, "contains").None? && IsOperatorObject(value)
    ensures MeetsCell(compare, CELL, value) <==> !compare.equal(CELL, value)
  {
    OperatorsAre(value.entries);
    if Property(value.entries, "in").Some? {
      InsideIsSmaller(value.entries, "in");
    }
    hide Property;
    if HasOperator(value.entries, AtLeast) {
      compare := Rules(true, false, true);
      Unmet(value, AtLeast, compare);
    } else if HasOperator(value.entries, AtMost) {
      compare := Rules(true, false, true);
      Unmet(value, AtMost, compare);
    } else if HasOperator(value.entries, MemberOf) {
      compare := Comparisons((a: Json, b: Json) => b == value, (a: Json, b: Json) => true, (a: Json, b: Json) => true);
      Unmet(value, MemberOf, compare);
    } else {
      compare := Rules(false, true, true);
    }
  }

  // ---------- OR lists ----------

  lemma ProbeIsAsked(compare: Comparisons, cell: Json, value: Json, position: Position)
    requires IsProbe(value)
    ensures MeetsChosen(compare, cell, AssetCondition(position, value)) <==> ProbeHolds(compare, cell, ProbeOf(value))
  {
    if value.Object? {
      ContainsProperty(value);
    }
  }

  /** Alternatives of nulls, plain values and `contains`. */
  predicate PlainOr(items: seq<Json>) {
    forall i | 0 <= i < |items| :: items[i].Object? && forall e | e in items[i].entries ::
      e.value.Null? || IsProbe(e.value)
  }

  /** The meaning of an OR list: one alternative with all its entries met; an empty list asks for nothing. */
  predicate SomeAlternativeMet(compare: Comparisons, row: Row, items: seq<Json>) {
    items == [] || exists i | 0 <= i < |items| :: items[i].Object? && AllMet(compare, row, items[i].entries)
  }

  predicate OrAsks(compare: Comparisons, row: Row, items: seq<Json>) {
    AssetAsks(compare, row, Entry("OR", List(items)))
  }

  predicate AllAlternativesEmpty(items: seq<Json>) {
    forall i | 0 <= i < |items| :: items[i] == Object([])
  }

  /** An alternative that compares nothing: empty, or asking for nulls only. */
  predicate Testless(items: seq<Json>, i: nat)
    requires i < |items|
  {
    items[i].Object? && forall e | e in items[i].entries :: e.value.Null?
  }

  predicate StandsAlone(items: seq<Json>, x: Entry) {
    exists k | 0 <= k < |items| :: items[k].Object? && forall e | e in items[k].entries :: e == x
  }

  predicate EachStandsAlone(items: seq<Json>) {
    forall i | 0 <= i < |items| && items[i].Object? :: forall e | e in items[i].entries && !e.value.Null? ::
      StandsAlone(items, e)
  }

  predicate OrIsKept(items: seq<Json>) {
    AllAlternativesEmpty(items) || (EachStandsAlone(items) && forall i | 0 <= i < |items| :: !Testless(items, i))
  }

  /** The compiled OR list asks for one comparison of any alternative; nulls add nothing. */
  predicate SomeProbeMet(compare: Comparisons, row: Row, items: seq<Json>) {
    exists i, e | 0 <= i < |items| && items[i].Object? && e in items[i].entries ::
      !e.value.Null? && MeetsCell(compare, Cell(row, e.key), e.value)
  }

  lemma InOrMeans(compare: Comparisons, row: Row, e: Entry)
    requires e.value.Null? || IsProbe(e.value)
    ensures FlatAsks(compare, row, InOr, e) <==> !e.value.Null? && MeetsCell(compare, Cell(row, e.key), e.value)
  {
    if !e.value.Null? {
      ProbeMeans(compare, Cell(row, e.key), e.value);
      ProbeIsAsked(compare, Cell(row, e.key), e.value, InOr);
    }
  }

  lemma OrAsksIsProbe(compare: Comparisons, row: Row, items: seq<Json>)
    requires PlainOr(items)
    ensures OrAsks(compare, row, items) <==> AllAlternativesEmpty(items) || SomeProbeMet(compare, row, items)
  {
    hide FlatAsks, MeetsCell, IsProbe, Flattened;
    FlattenedMembers(items);
    var flat := Flattened(items).value;
    forall x | x in flat
      ensures FlatAsks(compare, row, InOr, x) <==> !x.value.Null? && MeetsCell(compare, Cell(row, x.key), x.value)
    {
      InOrMeans(compare, row, x);
    }
    EmptyFlat(items, flat);
    if flat != [] && OrAsks(compare, row, items) {
      var k :| 0 <= k < |flat| && FlatAsks(compare, row, InOr, flat[k]);
      assert flat[k] in flat;
    }
    if SomeProbeMet(compare, row, items) {
      var i, e :| 0 <= i < |items| && items[i].Object? && e in items[i].entries &&
                  !e.value.Null? && MeetsCell(compare, Cell(row, e.key), e.value);
      assert e in flat;
      var k :| 0 <= k < |flat| && flat[k] == e;
      assert FlatAsks(compare, row, InOr, flat[k]);
    }
  }

  lemma EmptyFlat(items: seq<Json>, flat: seq<Entry>)
    requires forall i | 0 <= i < |items| :: items[i].Object?
    requires forall x :: x in flat <==> exists i | 0 <= i < |items| :: x in items[i].entries
    ensures flat == [] <==> AllAlternativesEmpty(items)
  {
    if flat != [] {
      assert flat[0] in flat;
    }
    forall i | 0 <= i < |items| && items[i].entries != [] ensures flat != [] {
      assert items[i].entries[0] in items[i].entries && items[i].entries[0] in flat;
    }
    forall i | 0 <= i < |items| && flat == [] ensures items[i] == Object([]) {
      assert items[i].entries == [];
    }
  }

  predicate OrIsSame(compare: Comparisons, row: Row, items: seq<Json>) {
    SomeAlternativeMet(compare, row, items) <==> OrAsks(compare, row, items)
  }

  /**
   An asset OR list of nulls, plain values and `contains` keeps its meaning, for every row under every comparison rule,
   exactly when its alternatives are all empty, or none is empty or asks for nulls only and each comparison in them is
   also an alternative by itself.
   */
  lemma AssetOrKeepsItsMeaningExactly(items: seq<Json>)
    requires PlainOr(items)
    ensures (forall compare: Comparisons, row: Row :: OrIsSame(compare, row, items)) <==> OrIsKept(items)
  {
    hide OrIsSame;
    if OrIsKept(items) {
      forall compare: Comparisons, row: Row ensures OrIsSame(compare, row, items) {
        KeptOrIsSame(compare, row, items);
      }
    } else if i :| 0 <= i < |items| && Testless(items, i) {
      TestlessDeparts(items, i);
    } else {
      var i, x :| 0 <= i < |items| && items[i].Object? && x in items[i].entries && !x.value.Null? &&
        !StandsAlone(items, x);
      var compare, row := NotAloneDeparts(items, i, x);
    }
  }

  lemma KeptOrIsSame(compare: Comparisons, row: Row, items: seq<Json>)
    requires PlainOr(items) && OrIsKept(items)
    ensures OrIsSame(compare, row, items)
  {
    hide OrAsks, MeetsCell, IsProbe;
    OrAsksIsProbe(compare, row, items);
    if AllAlternativesEmpty(items) {
      if items != [] {
        assert items[0] == Object([]) && AllMet(compare, row, items[0].entries);
      }
    } else {
      if i :| 0 <= i < |items| && items[i].Object? && AllMet(compare, row, items[i].entries) {
        assert !Testless(items, i);
        var e :| e in items[i].entries && !e.value.Null?;
        assert SomeProbeMet(compare, row, items);
      }
      if SomeProbeMet(compare, row, items) {
        var i, e :| 0 <= i < |items| && items[i].Object? && e in items[i].entries &&
                    !e.value.Null? && MeetsCell(compare, Cell(row, e.key), e.value);
        assert StandsAlone(items, e);
        var k :| 0 <= k < |items| && items[k].Object? && forall other | other in items[k].entries :: other == e;
        assert AllMet(compare, row, items[k].entries);
      }
    }
  }

  /** A row of NULLs meets an alternative without comparisons, and no comparison. */
  lemma TestlessDeparts(items: seq<Json>, i: nat)
    requires PlainOr(items) && i < |items| && Testless(items, i) && !AllAlternativesEmpty(items)
    ensures !OrIsSame(Rules(true, true, true), map[], items)
  {
    hide OrAsks, IsProbe;
    var compare, row: Row := Rules(true, true, true), map[];
    OrAsksIsProbe(compare, row, items);
    assert AllMet(compare, row, items[i].entries);
    forall k, e | 0 <= k < |items| && items[k].Object? && e in items[k].entries && !e.value.Null?
      ensures !MeetsCell(compare, Cell(row, e.key), e.value)
    {
      ProbeMeans(compare, Cell(row, e.key), e.value);
    }
  }

  lemma ThisProbe(column: string, probe: Probe)
    requires probe.EqualTo? || probe.Containing?
    ensures ProbeHolds(OnlyProbe(column, probe), Tag(column), probe)
  {
  }

  lemma PlainKinds(value: Json)
    requires IsProbe(value)
    ensures ProbeOf(value).EqualTo? || ProbeOf(value).Containing?
  {
  }

  lemma OtherFails(x: Entry, e: Entry)
    requires IsProbe(x.value) && (e.value.Null? || IsProbe(e.value)) && e != x
    ensures !MeetsCell(OnlyProbe(x.key, ProbeOf(x.value)), Tag(e.key), e.value)
  {
    if !e.value.Null? {
      hide MeetsCell, ProbeHolds, OnlyProbe, IsProbe, Tag;
      ProbeMeans(OnlyProbe(x.key, ProbeOf(x.value)), Tag(e.key), e.value);
      PlainKinds(x.value);
      PlainKinds(e.value);
      if ProbeOf(e.value) == ProbeOf(x.value) {
        SameProbe(e.value, x.value);
      }
      TagsDiffer(e.key, x.key);
      OnlyThisProbe(x.key, Tag(e.key), ProbeOf(x.value), ProbeOf(e.value));
    }
  }

  lemma NotAloneDeparts(items: seq<Json>, i: nat, x: Entry) returns (compare: Comparisons, row: Row)
    requires PlainOr(items) && i < |items| && x in items[i].entries && !x.value.Null? && !StandsAlone(items, x)
    ensures !OrIsSame(compare, row, items)
  {
    hide OrAsks, MeetsCell, ProbeHolds, OnlyProbe, IsProbe;
    FlattenedMembers(items);
    var flat := Flattened(items).value;
    compare, row := OnlyProbe(x.key, ProbeOf(x.value)), Tagged(set e | e in flat :: e.key);
    OrAsksIsProbe(compare, row, items);
    assert x in flat && Cell(row, x.key) == Tag(x.key);
    ProbeMeans(compare, Cell(row, x.key), x.value);
    PlainKinds(x.value);
    ThisProbe(x.key, ProbeOf(x.value));
    assert SomeProbeMet(compare, row, items);
    forall k, e | 0 <= k < |items| && e in items[k].entries && e != x
      ensures !MeetsCell(compare, Cell(row, e.key), e.value)
    {
      assert e in flat && Cell(row, e.key) == Tag(e.key);
      OtherFails(x, e);
    }
    forall k | 0 <= k < |items| ensures !AllMet(compare, row, items[k].entries) {
      assert exists e | e in items[k].entries :: e != x;
    }
  }
}
