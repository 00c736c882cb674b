/**
 The flattened OR list again, under the laws that every database's comparisons obey: which conditions then follow from
 others, and exactly which lists keep their meaning.
 */
module WhereOrders {
  import opened WhereObjects
  import opened SqlMeaning
  import opened WhereCompiler
  import opened WhereCorrectness
  import opened Probing
  import opened WhereAlternatives

  // ---------- The laws ----------

  function Num(n: int): Json {
    Atom(Number(n))
  }

  function Time(ms: int): Json {
    Atom(Instant(ms))
  }

  ghost predicate EqualityLaws(compare: Comparisons) {
    (forall a: Json :: compare.equal(a, a)) &&
    (forall a: Json, b: Json :: compare.equal(a, b) ==> compare.equal(b, a)) &&
    forall a: Json, b: Json, c: Json :: compare.equal(a, b) && compare.equal(b, c) ==> compare.equal(a, c)
  }

  ghost predicate OrderLaws(compare: Comparisons) {
    (forall a: Json, b: Json :: compare.equal(a, b) ==> compare.atMost(a, b)) &&
    forall a: Json, b: Json, c: Json :: compare.atMost(a, b) && compare.atMost(b, c) ==> compare.atMost(a, c)
  }

  ghost predicate ByValue(compare: Comparisons) {
    (forall m: int, n: int :: compare.equal(Num(m), Num(n)) <==> m == n) &&
    (forall m: int, n: int :: compare.atMost(Num(m), Num(n)) <==> m <= n) &&
    (forall m: int, n: int :: compare.equal(Time(m), Time(n)) <==> m == n) &&
    (forall m: int, n: int :: compare.atMost(Time(m), Time(n)) <==> m <= n)
  }

  /** Equality is an equivalence, the order is transitive and contains it, and numbers and instants compare by value. */
  ghost predicate Lawful(compare: Comparisons) {
    EqualityLaws(compare) && OrderLaws(compare) && ByValue(compare)
  }

  /** One value is at most the other in every lawful order. */
  predicate Below(a: Json, b: Json) {
    a == b ||
    (a.Atom? && b.Atom? &&
     match (a.scalar, b.scalar)
     case (Number(m), Number(n)) => m <= n
     case (Instant(m), Instant(n)) => m <= n
     case _ => false)
  }

  lemma BelowHolds(compare: Comparisons, a: Json, b: Json)
    requires Lawful(compare) && Below(a, b)
    ensures compare.atMost(a, b)
  {
    if a == b {
      assert compare.equal(a, a);
    } else if a.scalar.Number? {
      assert compare.atMost(Num(a.scalar.number), Num(b.scalar.number));
    } else {
      assert compare.atMost(Time(a.scalar.ms), Time(b.scalar.ms));
    }
  }

  /** Whatever meets the first probe meets the second. */
  predicate Follows(p: Probe, q: Probe) {
    p == q ||
    match q
    case NoLess(b) => (p.EqualTo? && Below(b, p.value)) || (p.NoLess? && Below(b, p.bound))
    case NoMore(b) => (p.EqualTo? && Below(p.value, b)) || (p.NoMore? && Below(p.bound, b))
    case _ => false
  }

  lemma FollowsHolds(compare: Comparisons, cell: Json, p: Probe, q: Probe)
    requires Lawful(compare) && Follows(p, q) && ProbeHolds(compare, cell, p)
    ensures ProbeHolds(compare, cell, q)
  {
    if p != q {
      var bound := q.bound;
      if q.NoLess? {
        var v := if p.EqualTo? then p.value else p.bound;
        BelowHolds(compare, bound, v);
        assert compare.atMost(v, cell) by {
          if p.EqualTo? {
            assert compare.equal(v, cell);
          }
        }
      } else {
        var v := if p.EqualTo? then p.value else p.bound;
        BelowHolds(compare, v, bound);
        assert compare.atMost(cell, v);
      }
    }
  }

  // ---------- Alternatives that a choice meets ----------

  /** The choice meets the condition under every lawful comparison. */
  predicate Serves(table: string, e: Entry, choice: Choice)
    requires Comparison(e.value)
  {
    choice.column == NormalizeColumn(table, e.key) &&
    if e.value.Null? then choice.IsNull?
    else choice.Holds? && exists q | q in ProbesOf(e.value) :: Follows(choice.probe, q)
  }

  predicate ServesWhole(table: string, entries: seq<Entry>, choice: Choice)
    requires ComparisonsOnly(entries)
  {
    forall e | e in entries :: Serves(table, e, choice)
  }

  predicate Suffices(table: string, items: seq<Json>, choice: Choice) {
    exists k | 0 <= k < |items| ::
      items[k].Object? && ComparisonsOnly(items[k].entries) && ServesWhole(table, items[k].entries, choice)
  }

  /** Whatever meets one condition of one alternative meets a whole alternative, under every lawful comparison. */
  ghost predicate EachSuffices(table: string, items: seq<Json>)
    requires PlainAlternatives(table, items)
  {
    forall i, e, choice: Choice | 0 <= i < |items| && e in items[i].entries && ChoiceOf(table, e, choice) ::
      Suffices(table, items, choice)
  }

  lemma ServedIsMet(s: Setting, table: string, row: Row, e: Entry, choice: Choice)
    requires Lawful(s.compare) && PlainCondition(table, e)
    requires Serves(table, e, choice) && Realised(s.compare, row, choice)
    ensures CellMet(s, table, row, e)
  {
    hide Lawful, Follows, ProbeHolds, IsRelational, NormalizeColumn, MeetsCell, ProbesOf;
    var column := NormalizeColumn(table, e.key);
    PlainMeans(s.compare, Cell(row, column), e.value);
    if !e.value.Null? {
      var q :| q in ProbesOf(e.value) && Follows(choice.probe, q);
      FollowsHolds(s.compare, Cell(row, column), choice.probe, q);
    }
  }

  lemma SufficesIsSame(s: Setting, table: string, row: Row, items: seq<Json>)
    requires Lawful(s.compare) && PlainAlternatives(table, items) && HasCondition(items) && !HasEmpty(items)
    requires EachSuffices(table, items)
    ensures OrIsSame(s, table, row, items)
  {
    hide Meets, Asks, CellMet, ChoiceOf, Realised, PlainCondition, HasCondition, Lawful, Serves;
    OrMeans(s, table, row, items);
    assert items != [] by {
      if items == [] {
        NoCondition();
      }
    }
    if i :| 0 <= i < |items| && items[i].Object? && forall e | e in items[i].entries :: CellMet(s, table, row, e) {
      assert items[i] == Object(items[i].entries) && items[i].entries[0] in items[i].entries;
      assert SomeConditionMet(s, table, row, items);
    }
    if SomeConditionMet(s, table, row, items) {
      var i, e :| 0 <= i < |items| && items[i].Object? && e in items[i].entries && CellMet(s, table, row, e);
      CellMetByChoice(s, table, row, e);
      IsPlain(table, items, i, e);
      var choice: Choice :| ChoiceOf(table, e, choice) && Realised(s.compare, row, choice);
      assert Suffices(table, items, choice);
      var k :| 0 <= k < |items| && items[k].Object? && ComparisonsOnly(items[k].entries) &&
               ServesWhole(table, items[k].entries, choice);
      forall other | other in items[k].entries ensures CellMet(s, table, row, other) {
        ServedIsMet(s, table, row, other, choice);
      }
    }
  }

  // ---------- A lawful comparison that meets one choice and what follows from it ----------

  /** A cell that holds the whole filter occurs nowhere in it. */
  function Mark(column: string, items: seq<Json>): Json {
    List([Atom(Text(column)), List(items)])
  }

  function Marked(columns: set<string>, items: seq<Json>): Row {
    map column | column in columns :: Mark(column, items)
  }

  function Operand(p: Probe): Json {
    match p
    case EqualTo(value) => value
    case Containing(text) => text
    case NoLess(bound) => bound
    case NoMore(bound) => bound
  }

  /** A value inside the filter is no mark. */
  lemma OperandIsNoMark(items: seq<Json>, k: nat, e: Entry, p: Probe, column: string)
    requires k < |items| && items[k].Object? && e in items[k].entries && Comparison(e.value) && !e.value.Null?
    requires p in ProbesOf(e.value)
    ensures Operand(p) != Mark(column, items)
  {
    var i :| 0 <= i < |items[k].entries| && items[k].entries[i] == e;
    OperandIsInside(e.value, p);
    var mark, whole := Mark(column, items), List(items);
    assert mark.items[1] == whole && whole < mark;
    assert whole.items[k] == items[k] && whole.items[k] < whole;
    assert items[k].entries[i].value < items[k];
  }

  lemma OperandIsInside(value: Json, p: Probe)
    requires Comparison(value) && !value.Null? && p in ProbesOf(value)
    ensures Operand(p) == value || Operand(p) < value
  {
    if value.Object? {
      var inner := value.entries[0].value;
      assert inner < value;
      if IsInList(value) {
        var i :| 0 <= i < |inner.items| && inner.items[i] == Operand(p);
        assert inner.items[i] < inner;
      }
    }
  }

  function Rep(mark: Json, value: Json, a: Json): Json {
    if a == mark then value else a
  }

  /** The plainest lawful comparison. */
  function Plainest(): Comparisons {
    Comparisons((a: Json, b: Json) => a == b, (a: Json, b: Json) => Below(a, b), (a: Json, b: Json) => false)
  }

  /** The plainest one bent to let the probe hold of the mark. */
  function Bent(mark: Json, probe: Probe): Comparisons {
    match probe
    case EqualTo(v) =>
      Comparisons((a: Json, b: Json) => Rep(mark, v, a) == Rep(mark, v, b),
                  (a: Json, b: Json) => Below(Rep(mark, v, a), Rep(mark, v, b)), (a: Json, b: Json) => false)
    case Containing(v) =>
      Plainest().(contains := (cell: Json, text: Json) => cell == mark && text == v)
    case NoLess(v) =>
      Plainest().(atMost := (a: Json, b: Json) => if b == mark then a == mark || Below(a, v) else Below(a, b))
    case NoMore(v) =>
      Plainest().(atMost := (a: Json, b: Json) => if a == mark then b == mark || Below(v, b) else Below(a, b))
  }

  lemma BelowChains(a: Json, b: Json, c: Json)
    requires Below(a, b) && Below(b, c)
    ensures Below(a, c)
  {
  }

  lemma BelowLists(a: Json, b: Json)
    requires a.List? || b.List?
    ensures Below(a, b) <==> a == b
  {
  }

  lemma BelowByValue()
    ensures forall m: int, n: int :: (Below(Num(m), Num(n)) <==> m <= n) && (Below(Time(m), Time(n)) <==> m <= n)
    ensures forall a: Json :: Below(a, a)
  {
  }

  lemma PlainestIsLawful()
    ensures Lawful(Plainest())
  {
    hide Below;
    BelowByValue();
    forall a, b, c | Below(a, b) && Below(b, c) ensures Below(a, c) {
      BelowChains(a, b, c);
    }
  }

  lemma BentIsLawful(mark: Json, probe: Probe)
    requires mark.List? && Operand(probe) != mark
    ensures Lawful(Bent(mark, probe))
  {
    hide Lawful, Bent;
    match probe
    case EqualTo(v) => BentEqualIsLawful(mark, v);
    case Containing(v) => BentContainsIsLawful(mark, v);
    case NoLess(v) => BentNoLessIsLawful(mark, v);
    case NoMore(v) => BentNoMoreIsLawful(mark, v);
  }

  lemma BentContainsIsLawful(mark: Json, v: Json)
    ensures Lawful(Bent(mark, Containing(v)))
  {
    hide Below;
    BelowByValue();
    forall a, b, c | Below(a, b) && Below(b, c) ensures Below(a, c) {
      BelowChains(a, b, c);
    }
  }

  lemma BentEqualIsLawful(mark: Json, v: Json)
    requires mark.List?
    ensures Lawful(Bent(mark, EqualTo(v)))
  {
    hide EqualityLaws, OrderLaws, ByValue, Bent;
    BentEqualEquality(mark, v);
    BentEqualOrder(mark, v);
    BentEqualValues(mark, v);
  }

  lemma BentEqualIs(mark: Json, v: Json, a: Json, b: Json)
    ensures Bent(mark, EqualTo(v)).equal(a, b) <==> Rep(mark, v, a) == Rep(mark, v, b)
    ensures Bent(mark, EqualTo(v)).atMost(a, b) <==> Below(Rep(mark, v, a), Rep(mark, v, b))
  {
    hide Below, Rep;
  }

  lemma BentEqualEquality(mark: Json, v: Json)
    ensures EqualityLaws(Bent(mark, EqualTo(v)))
  {
    hide Below, Rep;
  }

  lemma BentEqualOrder(mark: Json, v: Json)
    ensures OrderLaws(Bent(mark, EqualTo(v)))
  {
    hide Below, Rep, Bent;
    var compare := Bent(mark, EqualTo(v));
    forall a, b | compare.equal(a, b) ensures compare.atMost(a, b) {
      BentEqualIs(mark, v, a, b);
      BelowItself(Rep(mark, v, a));
    }
    forall a, b, c | compare.atMost(a, b) && compare.atMost(b, c) ensures compare.atMost(a, c) {
      BentEqualIs(mark, v, a, b);
      BentEqualIs(mark, v, b, c);
      BentEqualIs(mark, v, a, c);
      BelowChains(Rep(mark, v, a), Rep(mark, v, b), Rep(mark, v, c));
    }
  }

  lemma BelowItself(a: Json)
    ensures Below(a, a)
  {
  }

  lemma BentEqualValues(mark: Json, v: Json)
    requires mark.List?
    ensures ByValue(Bent(mark, EqualTo(v)))
  {
    hide Below, Rep, Bent, Num, Time;
    var compare := Bent(mark, EqualTo(v));
    BelowByValue();
    forall m: int, n: int
      ensures (compare.equal(Num(m), Num(n)) <==> m == n) && (compare.atMost(Num(m), Num(n)) <==> m <= n)
      ensures (compare.equal(Time(m), Time(n)) <==> m == n) && (compare.atMost(Time(m), Time(n)) <==> m <= n)
    {
      BentEqualIs(mark, v, Num(m), Num(n));
      BentEqualIs(mark, v, Time(m), Time(n));
      RepOfValue(mark, v, m);
      RepOfValue(mark, v, n);
      ValuesDiffer(m, n);
    }
  }

  lemma RepOfValue(mark: Json, v: Json, n: int)
    requires mark.List?
    ensures Rep(mark, v, Num(n)) == Num(n) && Rep(mark, v, Time(n)) == Time(n)
  {
  }

  lemma ValuesDiffer(m: int, n: int)
    ensures (Num(m) == Num(n) <==> m == n) && (Time(m) == Time(n) <==> m == n)
  {
  }

  lemma BentNoLessIsLawful(mark: Json, v: Json)
    requires mark.List? && v != mark
    ensures Lawful(Bent(mark, NoLess(v)))
  {
    hide EqualityLaws, OrderLaws, ByValue;
    BentOrderEquality(mark, NoLess(v));
    BentNoLessOrder(mark, v);
    BentOrderValues(mark, NoLess(v));
  }

  lemma BentNoMoreIsLawful(mark: Json, v: Json)
    requires mark.List? && v != mark
    ensures Lawful(Bent(mark, NoMore(v)))
  {
    hide EqualityLaws, OrderLaws, ByValue;
    BentOrderEquality(mark, NoMore(v));
    BentNoMoreOrder(mark, v);
    BentOrderValues(mark, NoMore(v));
  }

  lemma BentOrderEquality(mark: Json, probe: Probe)
    requires probe.NoLess? || probe.NoMore?
    ensures EqualityLaws(Bent(mark, probe))
  {
    hide Below;
  }

  lemma BentOrderValues(mark: Json, probe: Probe)
    requires mark.List? && (probe.NoLess? || probe.NoMore?)
    ensures ByValue(Bent(mark, probe))
  {
    BelowByValue();
    hide Below;
  }

  lemma BentNoLessOrder(mark: Json, v: Json)
    requires mark.List? && v != mark
    ensures OrderLaws(Bent(mark, NoLess(v)))
  {
    hide Below;
    var compare := Bent(mark, NoLess(v));
    forall a, b | compare.equal(a, b) ensures compare.atMost(a, b) {
      BelowItself(a);
    }
    forall a, b, c | compare.atMost(a, b) && compare.atMost(b, c) ensures compare.atMost(a, c) {
      BelowLists(mark, b);
      BelowLists(mark, c);
      BelowLists(mark, v);
      if c == mark && b != mark {
        BelowChains(a, b, v);
      } else if c != mark && b != mark {
        BelowChains(a, b, c);
      }
    }
  }

  lemma BentNoMoreOrder(mark: Json, v: Json)
    requires mark.List? && v != mark
    ensures OrderLaws(Bent(mark, NoMore(v)))
  {
    hide Below;
    var compare := Bent(mark, NoMore(v));
    forall a, b | compare.equal(a, b) ensures compare.atMost(a, b) {
      BelowItself(a);
    }
    forall a, b, c | compare.atMost(a, b) && compare.atMost(b, c) ensures compare.atMost(a, c) {
      BelowLists(a, mark);
      BelowLists(b, mark);
      BelowLists(v, mark);
      if a == mark && b != mark {
        BelowChains(v, b, c);
      } else if a != mark && b != mark {
        BelowChains(a, b, c);
      }
    }
  }

  /** It holds of the mark, and of no such cell does anything else hold but what follows. */
  predicate MeetsOnly(mark: Json, probe: Probe, cell: Json, q: Probe) {
    ProbeHolds(Bent(mark, probe), mark, probe) &&
    (ProbeHolds(Bent(mark, probe), cell, q) ==> cell == mark && Follows(probe, q))
  }

  lemma BentMeetsOnly(items: seq<Json>, column: string, probe: Probe, other: string, q: Probe)
    requires forall c: string :: Operand(probe) != Mark(c, items) && Operand(q) != Mark(c, items)
    ensures ProbeHolds(Bent(Mark(column, items), probe), Mark(column, items), probe)
    ensures ProbeHolds(Bent(Mark(column, items), probe), Mark(other, items), q) ==> other == column && Follows(probe, q)
  {
    hide Mark, Bent, ProbeHolds, Follows;
    var mark, cell := Mark(column, items), Mark(other, items);
    MarkIsList(column, items);
    MarkIsList(other, items);
    MarksDiffer(column, other, items);
    assert Operand(probe) != mark && Operand(probe) != cell && Operand(q) != mark && Operand(q) != cell;
    match probe
    case EqualTo(v) => EqualMeetsOnly(mark, probe, cell, q);
    case Containing(v) => ContainsMeetsOnly(mark, probe, cell, q);
    case NoLess(v) => NoLessMeetsOnly(mark, probe, cell, q);
    case NoMore(v) => NoMoreMeetsOnly(mark, probe, cell, q);
  }

  lemma EqualMeetsOnly(mark: Json, probe: Probe, cell: Json, q: Probe)
    requires mark.List? && cell.List? && probe.EqualTo? && probe.value != mark && probe.value != cell
    requires Operand(q) != mark && Operand(q) != cell
    ensures MeetsOnly(mark, probe, cell, q)
  {
    hide Below;
    BelowLists(Operand(q), cell);
    BelowLists(cell, Operand(q));
  }

  lemma ContainsMeetsOnly(mark: Json, probe: Probe, cell: Json, q: Probe)
    requires mark.List? && cell.List? && probe.Containing? && Operand(q) != cell
    ensures MeetsOnly(mark, probe, cell, q)
  {
    hide Below;
    BelowLists(Operand(q), cell);
    BelowLists(cell, Operand(q));
  }

  lemma NoLessMeetsOnly(mark: Json, probe: Probe, cell: Json, q: Probe)
    requires mark.List? && cell.List? && probe.NoLess? && Operand(q) != mark && Operand(q) != cell
    ensures MeetsOnly(mark, probe, cell, q)
  {
    hide Below;
    BelowByValue();
    BelowLists(Operand(q), cell);
    BelowLists(cell, Operand(q));
  }

  lemma NoMoreMeetsOnly(mark: Json, probe: Probe, cell: Json, q: Probe)
    requires mark.List? && cell.List? && probe.NoMore? && Operand(q) != mark && Operand(q) != cell
    ensures MeetsOnly(mark, probe, cell, q)
  {
    hide Below;
    BelowByValue();
    BelowLists(Operand(q), cell);
    BelowLists(cell, Operand(q));
  }

  lemma PlainestMeetsNone(items: seq<Json>, column: string, q: Probe)
    requires Operand(q) != Mark(column, items)
    ensures !ProbeHolds(Plainest(), Mark(column, items), q)
  {
  }

  /** The comparison and the row that realise one choice and what follows from it. */
  function Witness(choice: Choice, items: seq<Json>): Comparisons {
    match choice
    case IsNull(_) => Plainest()
    case Holds(column, probe) => Bent(Mark(column, items), probe)
  }

  function WitnessRow(table: string, choice: Choice, items: seq<Json>): Row {
    Marked(if choice.IsNull? then Columns(table, items) - {choice.column} else Columns(table, items), items)
  }

  lemma ProbeIsNoMark(table: string, items: seq<Json>, i: nat, e: Entry, choice: Choice)
    requires i < |items| && items[i].Object? && e in items[i].entries
    requires Comparison(e.value) && ChoiceOf(table, e, choice)
    ensures choice.Holds? ==> forall c: string :: Operand(choice.probe) != Mark(c, items)
  {
    hide Comparison, ProbesOf, Mark, Operand;
    if choice.Holds? {
      forall c: string ensures Operand(choice.probe) != Mark(c, items) {
        OperandIsNoMark(items, i, e, choice.probe, c);
      }
    }
  }

  lemma WitnessIsLawful(table: string, items: seq<Json>, i: nat, e: Entry, choice: Choice)
    requires i < |items| && items[i].Object? && e in items[i].entries
    requires Comparison(e.value) && ChoiceOf(table, e, choice)
    ensures Lawful(Witness(choice, items)) && Realised(Witness(choice, items), WitnessRow(table, choice, items), choice)
  {
    hide Lawful, Comparison, ProbesOf, Columns, Bent, Plainest, Mark, ProbeHolds, Operand;
    ProbeIsNoMark(table, items, i, e, choice);
    FilledColumn(table, items, i, e);
    PlainestIsLawful();
    if choice.Holds? {
      MarkIsList(choice.column, items);
      BentIsLawful(Mark(choice.column, items), choice.probe);
      BentMeetsOnly(items, choice.column, choice.probe, choice.column, choice.probe);
    }
  }

  lemma MarksDiffer(a: string, b: string, items: seq<Json>)
    ensures Mark(a, items) == Mark(b, items) ==> a == b
  {
    assert Mark(a, items).items[0] == Atom(Text(a)) && Mark(b, items).items[0] == Atom(Text(b));
  }

  lemma MarkIsList(column: string, items: seq<Json>)
    ensures Mark(column, items).List?
  {
  }

  /** What the choice does not serve is not met. */
  lemma UnservedIsUnmet(table: string, items: seq<Json>, i: nat, e: Entry, choice: Choice, k: nat, other: Entry)
    requires i < |items| && items[i].Object? && e in items[i].entries
    requires Comparison(e.value) && ChoiceOf(table, e, choice)
    requires k < |items| && items[k].Object? && other in items[k].entries && PlainCondition(table, other)
    requires !Serves(table, other, choice)
    ensures !CellMet(Setting(Witness(choice, items), map[]), table, WitnessRow(table, choice, items), other)
  {
    hide Comparison, ProbesOf, Columns, Bent, Plainest, Mark, ProbeHolds, Operand, MeetsCell, Follows;
    var compare, row := Witness(choice, items), WitnessRow(table, choice, items);
    var column := NormalizeColumn(table, other.key);
    ProbeIsNoMark(table, items, i, e, choice);
    FilledColumn(table, items, k, other);
    PlainMeans(compare, Cell(row, column), other.value);
    MarkIsList(column, items);
    if !other.value.Null? && Cell(row, column) == Mark(column, items) {
      forall q | q in ProbesOf(other.value) ensures !ProbeHolds(compare, Cell(row, column), q) {
        forall c: string ensures Operand(q) != Mark(c, items) {
          OperandIsNoMark(items, k, other, q, c);
        }
        if choice.Holds? {
          BentMeetsOnly(items, choice.column, choice.probe, column, q);
        } else {
          PlainestMeetsNone(items, column, q);
        }
      }
    } else if !other.value.Null? {
      NullMeetsNone(compare, Cell(row, column), other.value);
    }
  }

  lemma NullMeetsNone(compare: Comparisons, cell: Json, value: Json)
    requires Comparison(value) && !value.Null? && cell.Null?
    ensures !SomeProbeHolds(compare, cell, ProbesOf(value))
  {
    hide ProbesOf;
  }

  lemma InsufficientDeparts(table: string, items: seq<Json>, i: nat, e: Entry, choice: Choice)
    returns (s: Setting, row: Row)
    requires PlainAlternatives(table, items) && i < |items| && e in items[i].entries
    requires Comparison(e.value) && ChoiceOf(table, e, choice) && !Suffices(table, items, choice)
    ensures Lawful(s.compare) && !OrIsSame(s, table, row, items)
  {
    hide Meets, Asks, IsRelational, Comparison, CellMet, Realised, ChoiceOf, HasCondition, Columns, Lawful, Witness,
         WitnessRow, Serves;
    s, row := Setting(Witness(choice, items), map[]), WitnessRow(table, choice, items);
    WitnessIsLawful(table, items, i, e, choice);
    OrMeans(s, table, row, items);
    IsPlain(table, items, i, e);
    CellMetByChoice(s, table, row, e);
    assert SomeConditionMet(s, table, row, items);
    forall k | 0 <= k < |items| ensures exists other | other in items[k].entries :: !CellMet(s, table, row, other) {
      var other := Unserved(table, items, k, choice);
      UnservedIsUnmet(table, items, i, e, choice, k, other);
    }
    NonEmpty(items, i, e);
  }

  lemma Unserved(table: string, items: seq<Json>, k: nat, choice: Choice) returns (other: Entry)
    requires PlainAlternatives(table, items) && k < |items| && !Suffices(table, items, choice)
    ensures other in items[k].entries && PlainCondition(table, other) && !Serves(table, other, choice)
  {
    hide Comparison, Serves;
    assert ComparisonsOnly(items[k].entries);
    assert !ServesWhole(table, items[k].entries, choice);
    other :| other in items[k].entries && !Serves(table, other, choice);
  }

  /** A marked row meets an empty alternative and, under the plainest comparison, no condition. */
  lemma EmptyDepartsLawfully(table: string, items: seq<Json>) returns (s: Setting, row: Row)
    requires PlainAlternatives(table, items) && HasEmpty(items) && HasCondition(items)
    ensures Lawful(s.compare) && !OrIsSame(s, table, row, items)
  {
    hide Meets, Asks, Comparison, IsRelational, HasCondition, Lawful, Plainest, Columns, CellMet, Mark;
    s, row := Setting(Plainest(), map[]), Marked(Columns(table, items), items);
    PlainestIsLawful();
    OrMeans(s, table, row, items);
    var i :| 0 <= i < |items| && items[i] == Object([]);
    assert SomeAlternativeMet(s, table, row, items);
    forall k, e | 0 <= k < |items| && e in items[k].entries ensures !CellMet(s, table, row, e) {
      IsPlain(table, items, k, e);
      MarkedUnmet(table, items, k, e);
    }
  }

  lemma MarkedUnmet(table: string, items: seq<Json>, k: nat, e: Entry)
    requires k < |items| && items[k].Object? && e in items[k].entries && PlainCondition(table, e)
    ensures !CellMet(Setting(Plainest(), map[]), table, Marked(Columns(table, items), items), e)
  {
    hide Comparison, ProbesOf, Columns, Plainest, Mark, ProbeHolds, Operand, MeetsCell;
    var row, column := Marked(Columns(table, items), items), NormalizeColumn(table, e.key);
    FilledColumn(table, items, k, e);
    PlainMeans(Plainest(), Cell(row, column), e.value);
    MarkIsList(column, items);
    if !e.value.Null? {
      forall q | q in ProbesOf(e.value) ensures !ProbeHolds(Plainest(), Cell(row, column), q) {
        OperandIsNoMark(items, k, e, q, column);
        PlainestMeetsNone(items, column, q);
      }
    }
  }

  /**
   An OR list of nulls, plain values, `contains`, `in` lists, `gte` and `lte` keeps its meaning, for every row of every
   database whose comparisons obey the laws, exactly when its alternatives are all empty, or none is and each way of
   meeting one of their conditions meets a whole alternative by these laws.
   */
  lemma AlternativesKeepTheirMeaningLawfully(table: string, items: seq<Json>)
    requires PlainAlternatives(table, items)
    ensures (forall s: Setting, row: Row | Lawful(s.compare) :: OrIsSame(s, table, row, items)) <==>
            !HasCondition(items) || (!HasEmpty(items) && EachSuffices(table, items))
  {
    hide OrIsSame, HasCondition, HasEmpty, ChoiceOf, Suffices, Lawful;
    if !HasCondition(items) {
      forall s: Setting, row: Row | Lawful(s.compare) ensures OrIsSame(s, table, row, items) {
        EmptyIsSame(s, table, row, items);
      }
    } else if HasEmpty(items) {
      var s, row := EmptyDepartsLawfully(table, items);
    } else if EachSuffices(table, items) {
      forall s: Setting, row: Row | Lawful(s.compare) ensures OrIsSame(s, table, row, items) {
        SufficesIsSame(s, table, row, items);
      }
    } else {
      var i, e, choice: Choice :| 0 <= i < |items| && e in items[i].entries && ChoiceOf(table, e, choice) &&
                                  !Suffices(table, items, choice);
      var s, row := InsufficientDeparts(table, items, i, e, choice);
    }
  }

  /** `[{ x: { gte: 1 } }, { y: 1 }, { x: { gte: 3 }, y: 1 }]` */
  function Ranges(): seq<Json> {
    [Object([Entry("x", Object([Entry("gte", Num(1))]))]),
     Object([Entry("y", Num(1))]),
     Object([Entry("x", Object([Entry("gte", Num(3))])), Entry("y", Num(1))])]
  }

  /** These ranges keep their meaning under the laws, because 1 is below 3, and not under every comparison rule. */
  lemma LawsSaveRanges()
    ensures forall s: Setting, row: Row | Lawful(s.compare) :: OrIsSame(s, "t", row, Ranges())
    ensures exists s: Setting, row: Row :: !OrIsSame(s, "t", row, Ranges())
  {
    hide OrIsSame, Lawful;
    var items := Ranges();
    RangesArePlain();
    assert items[0].entries != [];
    AlternativesKeepTheirMeaningLawfully("t", items);
    AlternativesKeepTheirMeaningExactly("t", items);
    forall i, e, choice: Choice | 0 <= i < |items| && e in items[i].entries && ChoiceOf("t", e, choice)
      ensures Suffices("t", items, choice)
    {
      RangesSuffice(i, e, choice);
    }
    RangesStandNotAlone();
  }

  lemma RangesArePlain()
    ensures PlainAlternatives("t", Ranges()) && !HasEmpty(Ranges())
  {
  }

  lemma RangesSuffice(i: nat, e: Entry, choice: Choice)
    requires i < 3 && e in Ranges()[i].entries && Comparison(e.value) && ChoiceOf("t", e, choice)
    ensures Suffices("t", Ranges(), choice)
  {
    var items := Ranges();
    if e.key == "x" {
      var first := items[0].entries[0];
      assert NoLess(Num(1)) in ProbesOf(first.value) && Follows(choice.probe, NoLess(Num(1)));
      assert ServesWhole("t", items[0].entries, choice);
    } else {
      assert choice.probe in ProbesOf(items[1].entries[0].value) && Follows(choice.probe, choice.probe);
      assert ServesWhole("t", items[1].entries, choice);
    }
  }

  lemma RangesStandNotAlone()
    ensures !EachStandsAlone("t", Ranges()) && HasCondition(Ranges())
  {
    var items, choice := Ranges(), Holds("x", NoLess(Num(3)));
    var e := items[2].entries[0];
    assert e in items[2].entries && ChoiceOf("t", e, choice);
    assert !ChoiceOf("t", items[0].entries[0], choice);
    assert !ChoiceOf("t", items[1].entries[0], choice);
    assert !ChoiceOf("t", items[2].entries[1], choice);
    assert items[0].entries[0] in items[0].entries && items[1].entries[0] in items[1].entries;
    assert items[2].entries[1] in items[2].entries;
    assert !StandsAlone("t", items, choice);
  }
}
