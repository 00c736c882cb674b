/** What plain values, `contains`, `in` lists and one-sided ranges ask of a cell, as sets of single comparisons. */
module Probing {
  import opened Wrappers
  import opened WhereObjects
  import opened SqlMeaning
  import opened WhereCorrectness

  // ---------- Operator objects ----------

  /** Every other operator is a `not: null`, which the given one implies. */
  predicate OnlyOperator(entries: seq<Entry>, operator: OperatorName) {
    forall op: OperatorName | HasOperator(entries, op) && op != operator ::
      op.NotEqual? && Property(entries, op.Key()).value.Null?
  }

  lemma OperatorsAre(entries: seq<Entry>)
    ensures HasOperator(entries, ContainsText) <==> Property(entries, "contains").Some?
    ensures HasOperator(entries, AtLeast) <==> Property(entries, "gte").Some?
    ensures HasOperator(entries, AtMost) <==> Property(entries, "lte").Some?
    ensures HasOperator(entries, NotEqual) <==> Property(entries, "not").Some?
    ensures HasOperator(entries, MemberOf) <==> Property(entries, "in").Some? && Property(entries, "in").value.List?
  {
  }

  /** With one operator in charge, meeting it is meeting them all. */
  lemma OneInCharge(compare: Comparisons, cell: Json, value: Json, operator: OperatorName)
    requires value.Object? && HasOperator(value.entries, operator) && OnlyOperator(value.entries, operator)
    ensures MeetsCell(compare, cell, value) <==>
            MeetsOperator(compare, cell, operator, Property(value.entries, operator.Key()).value)
  {
    hide Property;
    assert IsOperatorObject(value);
  }

  /** No value is found inside itself. */
  lemma {:induction false} InsideIsSmaller(entries: seq<Entry>, key: string)
    requires Property(entries, key).Some?
    ensures
      var inner := Property(entries, key).value;
      inner != Object(entries) && (inner.List? ==> Object(entries) !in inner.items)
  {
    var value := Object(entries);
    var i := PropertyIsEntry(entries, key);
    var inner := value.entries[i].value;
    assert inner < value;
    if inner.List? {
      forall j | 0 <= j < |inner.items| ensures inner.items[j] != value {
        assert inner.items[j] < inner;
      }
    }
  }

  lemma {:induction false} PropertyIsEntry(entries: seq<Entry>, key: string) returns (i: nat)
    requires Property(entries, key).Some?
    ensures i < |entries| && entries[i].key == key && entries[i].value == Property(entries, key).value
  {
    if entries[0].key == key {
      i := 0;
    } else {
      i := PropertyIsEntry(entries[1..], key);
      i := i + 1;
    }
  }

  // ---------- Probes ----------

  datatype Probe = EqualTo(value: Json) | Containing(text: Json) | NoLess(bound: Json) | NoMore(bound: Json)

  predicate ProbeHolds(compare: Comparisons, cell: Json, probe: Probe) {
    !cell.Null? &&
    match probe
    case EqualTo(value) => compare.equal(cell, value)
    case Containing(text) => compare.contains(cell, text)
    case NoLess(bound) => compare.atMost(bound, cell)
    case NoMore(bound) => compare.atMost(cell, bound)
  }

  predicate IsContains(value: Json) {
    value.Object? && |value.entries| == 1 && value.entries[0].key == "contains"
  }

  /** A plain value or a `contains`. */
  predicate IsProbe(value: Json) {
    value.Atom? || IsContains(value)
  }

  function ProbeOf(value: Json): Probe
    requires IsProbe(value)
  {
    if value.Atom? then EqualTo(value) else Containing(value.entries[0].value)
  }

  lemma ContainsProperty(value: Json)
    requires IsContains(value)
    ensures Property(value.entries, "contains") == Some(value.entries[0].value)
    ensures forall key: string | key != "contains" :: Property(value.entries, key) == None
  {
    assert value.entries[1..] == [];
  }

  lemma ProbeMeans(compare: Comparisons, cell: Json, value: Json)
    requires IsProbe(value)
    ensures MeetsCell(compare, cell, value) <==> ProbeHolds(compare, cell, ProbeOf(value))
  {
    if value.Object? {
      ContainsProperty(value);
      OperatorsAre(value.entries);
      OneInCharge(compare, cell, value, ContainsText);
    }
  }

  lemma SameProbe(a: Json, b: Json)
    requires IsProbe(a) && IsProbe(b) && ProbeOf(a) == ProbeOf(b)
    ensures a == b
  {
    if a.Object? {
      assert a.entries == [a.entries[0]] && b.entries == [b.entries[0]];
    }
  }

  /** A row with one distinct cell for each of some columns, and NULL elsewhere. */
  function Tagged(columns: set<string>): Row {
    map column | column in columns :: Tag(column)
  }

  /** No value that a range compares with is a list. */
  function Tag(column: string): Json {
    List([Atom(Text(column))])
  }

  lemma TagsDiffer(a: string, b: string)
    ensures Tag(a) == Tag(b) ==> a == b
  {
    assert Tag(a).items[0] == Atom(Text(a)) && Tag(b).items[0] == Atom(Text(b));
  }

  predicate IsInList(value: Json) {
    value.Object? && |value.entries| == 1 && value.entries[0].key == "in" && value.entries[0].value.List?
  }

  predicate PlainValue(value: Json) {
    value.Null? || IsProbe(value) || IsInList(value)
  }

  /** A `gte` or a `lte` with a plain value, or with null, which nothing meets. */
  predicate IsRange(value: Json) {
    value.Object? && |value.entries| == 1 && value.entries[0].key in {"gte", "lte"} &&
    (value.entries[0].value.Null? || value.entries[0].value.Atom?)
  }

  predicate Comparison(value: Json) {
    PlainValue(value) || IsRange(value)
  }

  /** The probes of which a value that is not null asks for one. */
  function ProbesOf(value: Json): set<Probe>
    requires Comparison(value) && !value.Null?
  {
    if IsProbe(value) then {ProbeOf(value)}
    else if IsRange(value) then
      var bound := value.entries[0].value;
      if bound.Null? then {} else if value.entries[0].key == "gte" then {NoLess(bound)} else {NoMore(bound)}
    else set item | item in value.entries[0].value.items && !item.Null? :: EqualTo(item)
  }

  predicate SomeProbeHolds(compare: Comparisons, cell: Json, probes: set<Probe>) {
    exists p | p in probes :: ProbeHolds(compare, cell, p)
  }

  lemma InListProperty(value: Json)
    requires IsInList(value)
    ensures Property(value.entries, "in") == Some(value.entries[0].value)
    ensures forall key: string | key != "in" :: Property(value.entries, key) == None
  {
    assert value.entries[1..] == [];
  }

  lemma InListMeans(compare: Comparisons, cell: Json, value: Json)
    requires IsInList(value)
    ensures MeetsCell(compare, cell, value) <==> SomeProbeHolds(compare, cell, ProbesOf(value))
  {
    InListProperty(value);
    OperatorsAre(value.entries);
    OneInCharge(compare, cell, value, MemberOf);
    hide MeetsCell, Property;
    var items := value.entries[0].value.items;
    assert !IsProbe(value);
    if i :| 0 <= i < |items| && !items[i].Null? && compare.equal(cell, items[i]) {
      assert items[i] in items && EqualTo(items[i]) in ProbesOf(value);
      assert !cell.Null? ==> ProbeHolds(compare, cell, EqualTo(items[i]));
    }
    if SomeProbeHolds(compare, cell, ProbesOf(value)) {
      var p :| p in ProbesOf(value) && ProbeHolds(compare, cell, p);
      var item :| item in items && !item.Null? && p == EqualTo(item);
      var i :| 0 <= i < |items| && items[i] == item;
      assert ListHas(compare, cell, items);
    }
  }

  lemma RangeProperty(value: Json)
    requires IsRange(value)
    ensures Property(value.entries, value.entries[0].key) == Some(value.entries[0].value)
    ensures forall key: string | key != value.entries[0].key :: Property(value.entries, key) == None
  {
    assert value.entries[1..] == [];
  }

  lemma RangeMeans(compare: Comparisons, cell: Json, value: Json)
    requires IsRange(value)
    ensures MeetsCell(compare, cell, value) <==> SomeProbeHolds(compare, cell, ProbesOf(value))
  {
    RangeProperty(value);
    OperatorsAre(value.entries);
    var bound := value.entries[0].value;
    OneInCharge(compare, cell, value, if value.entries[0].key == "gte" then AtLeast else AtMost);
    hide MeetsCell, Property;
    if !bound.Null? {
      OneProbe(compare, cell, if value.entries[0].key == "gte" then NoLess(bound) else NoMore(bound));
    }
  }

  lemma PlainProbes(value: Json)
    requires PlainValue(value) && !value.Null?
    ensures forall p | p in ProbesOf(value) :: p.EqualTo? || p.Containing?
  {
  }

  lemma BoundsArePlain(value: Json)
    requires Comparison(value) && !value.Null?
    ensures forall p | p in ProbesOf(value) :: (p.NoLess? || p.NoMore?) ==> p.bound.Atom?
  {
  }

  /** The rule for one probe meets no other with a plain bound. */
  lemma OnlyThisProbe(column: string, cell: Json, probe: Probe, other: Probe)
    requires other != probe || cell != Tag(column)
    requires (probe.NoLess? || probe.NoMore?) ==> probe.bound.Atom?
    requires (other.NoLess? || other.NoMore?) ==> other.bound.Atom?
    ensures !ProbeHolds(OnlyProbe(column, probe), cell, other)
  {
  }

  /** A comparison asks for NULL, or for one of its probes. */
  lemma PlainMeans(compare: Comparisons, cell: Json, value: Json)
    requires Comparison(value)
    ensures MeetsCell(compare, cell, value) <==> if value.Null? then cell.Null?
        else SomeProbeHolds(compare, cell, ProbesOf(value))
  {
    hide IsProbe, IsInList, IsRange, ProbeOf, SomeProbeHolds;
    if !value.Null? {
      if IsProbe(value) {
        ProbeMeans(compare, cell, value);
        OneProbe(compare, cell, ProbeOf(value));
      } else if IsRange(value) {
        RangeMeans(compare, cell, value);
      } else {
        InListMeans(compare, cell, value);
      }
    }
  }

  lemma OneProbe(compare: Comparisons, cell: Json, p: Probe)
    ensures SomeProbeHolds(compare, cell, {p}) <==> ProbeHolds(compare, cell, p)
  {
    assert p in {p};
  }

  predicate PlainEntries(entries: seq<Entry>) {
    forall e | e in entries :: PlainValue(e.value)
  }

  predicate AllMet(compare: Comparisons, row: Row, entries: seq<Entry>) {
    forall e | e in entries :: MeetsCell(compare, Cell(row, e.key), e.value)
  }

  // ---------- Rules for telling conditions apart ----------

  /** Every comparison true or false by kind. */
  function Rules(equal: bool, atMost: bool, contains: bool): Comparisons {
    Comparisons((a: Json, b: Json) => equal, (a: Json, b: Json) => atMost, (a: Json, b: Json) => contains)
  }

  /** The rule that meets one comparison on one column's cell and nothing else. */
  function OnlyProbe(column: string, probe: Probe): Comparisons {
    Comparisons((cell: Json, value: Json) => cell == Tag(column) && probe == EqualTo(value),
                (a: Json, b: Json) => (b == Tag(column) && probe == NoLess(a)) ||
                  (a == Tag(column) && probe == NoMore(b)),
                (cell: Json, text: Json) => cell == Tag(column) && probe == Containing(text))
  }
}
