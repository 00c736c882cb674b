/** Exactly when merged scopes, compiled for assets, select the intersection of the scopes. */
module ScopeMerging {
  import opened Wrappers
  import opened WhereObjects
  import opened SqlMeaning
  import opened WhereCompiler
  import opened WhereCorrectness
  import opened WhereQueries
  import opened AssetQueries
  import opened Probing
  import opened QueryScopes

  // ---------- When some conditions imply another ----------

  /** No row can meet all: a column asked for null and for a value, or for one of no values. */
  predicate Contradictory(kept: seq<Entry>)
    requires PlainEntries(kept)
  {
    (exists a, b | a in kept && b in kept :: a.key == b.key && a.value.Null? && !b.value.Null?) ||
    (exists a | a in kept :: !a.value.Null? && ProbesOf(a.value) == {})
  }

  /** One kept condition on the same column asks for no more choices. */
  predicate Repeated(kept: seq<Entry>, t: Entry)
    requires PlainEntries(kept) && PlainValue(t.value)
  {
    exists k | k in kept :: k.key == t.key &&
      if t.value.Null? then k.value.Null? else !k.value.Null? && ProbesOf(k.value) <= ProbesOf(t.value)
  }

  predicate Implied(kept: seq<Entry>, t: Entry)
    requires PlainEntries(kept) && PlainValue(t.value)
  {
    Contradictory(kept) || Repeated(kept, t)
  }

  predicate Met(compare: Comparisons, row: Row, e: Entry) {
    MeetsCell(compare, Cell(row, e.key), e.value)
  }

  predicate ImpliesAt(compare: Comparisons, row: Row, kept: seq<Entry>, t: Entry) {
    AllMet(compare, row, kept) ==> Met(compare, row, t)
  }

  lemma ImpliedHolds(compare: Comparisons, row: Row, kept: seq<Entry>, t: Entry)
    requires PlainEntries(kept) && PlainValue(t.value) && Implied(kept, t)
    ensures ImpliesAt(compare, row, kept, t)
  {
    hide MeetsCell, PlainValue, ProbesOf;
    if AllMet(compare, row, kept) {
      PlainMeans(compare, Cell(row, t.key), t.value);
      forall k | k in kept
        ensures if k.value.Null? then Cell(row, k.key).Null?
            else SomeProbeHolds(compare, Cell(row, k.key), ProbesOf(k.value))
      {
        PlainMeans(compare, Cell(row, k.key), k.value);
      }
    }
  }

  /** Columns that have to hold a value: those asked for one, and the given one unless it is asked for null. */
  function FilledColumns(kept: seq<Entry>, column: string): set<string> {
    (set e | e in kept && !e.value.Null? :: e.key) +
    (if exists e | e in kept :: e.key == column && e.value.Null? then {} else {column})
  }

  /** On one column the given probes fail; everything else holds. */
  function AllBut(column: string, probes: set<Probe>): Comparisons {
    Comparisons((cell: Json, value: Json) => !(cell == Tag(column) && EqualTo(value) in probes),
                (a: Json, b: Json) => true,
                (cell: Json, text: Json) => !(cell == Tag(column) && Containing(text) in probes))
  }

  lemma NotImpliedFails(kept: seq<Entry>, t: Entry) returns (compare: Comparisons, row: Row)
    requires PlainEntries(kept) && PlainValue(t.value) && !Implied(kept, t)
    ensures !ImpliesAt(compare, row, kept, t)
  {
    hide MeetsCell, PlainValue, ProbesOf;
    var probes := if t.value.Null? then {} else ProbesOf(t.value);
    compare, row := AllBut(t.key, probes), Tagged(FilledColumns(kept, t.key));
    forall k | k in kept ensures Met(compare, row, k) {
      PlainMeans(compare, Cell(row, k.key), k.value);
      if !k.value.Null? {
        assert Cell(row, k.key) == Tag(k.key) && ProbesOf(k.value) != {};
        var p: Probe;
        if k.key == t.key && !t.value.Null? {
          p :| p in ProbesOf(k.value) && p !in probes;
        } else {
          p :| p in ProbesOf(k.value);
        }
        assert ProbeHolds(compare, Cell(row, k.key), p);
      }
    }
    PlainMeans(compare, Cell(row, t.key), t.value);
    if !t.value.Null? {
      PlainProbes(t.value);
    }
  }

  /**
   Plain conditions imply another one, for every row under every comparison rule, exactly when they contradict each
   other or one of them repeats it.
   */
  lemma ImpliedExactly(kept: seq<Entry>, t: Entry)
    requires PlainEntries(kept) && PlainValue(t.value)
    ensures (forall compare: Comparisons, row: Row :: ImpliesAt(compare, row, kept, t)) <==> Implied(kept, t)
  {
    hide ImpliesAt, Implied, PlainValue;
    if Implied(kept, t) {
      forall compare: Comparisons, row: Row ensures ImpliesAt(compare, row, kept, t) {
        ImpliedHolds(compare, row, kept, t);
      }
    } else {
      var compare, row := NotImpliedFails(kept, t);
    }
  }

  // ---------- What merging keeps and drops ----------

  /** An object holds a key once. */
  predicate DistinctKeys(entries: seq<Entry>) {
    forall i, j | 0 <= i < j < |entries| :: entries[i].key != entries[j].key
  }

  predicate PlainConditions(items: seq<Json>) {
    forall i | 0 <= i < |items| :: items[i].Object? && DistinctKeys(items[i].entries) && PlainEntries(items[i].entries)
  }

  /** A scope of plain conditions, some of them in an AND list. */
  predicate PlainScope(scope: Scope) {
    DistinctKeys(scope) &&
    forall e | e in scope :: if IsAnd(e) then PlainConditions(e.value.items) else PlainValue(e.value)
  }

  predicate PlainScopes(scopes: seq<Scope>) {
    forall i | 0 <= i < |scopes| :: PlainScope(scopes[i])
  }

  predicate HasAnd(scope: Scope) {
    exists e | e in scope :: IsAnd(e)
  }

  function Others(scope: Scope): seq<Entry> {
    if scope == [] then [] else (if IsAnd(scope[0]) then [] else [scope[0]]) + Others(scope[1..])
  }

  /** The conditions beside an AND list. */
  function Dropped(scope: Scope): seq<Entry> {
    if HasAnd(scope) then Others(scope) else []
  }

  function AllDropped(scopes: seq<Scope>): seq<Entry> {
    if scopes == [] then [] else Dropped(scopes[0]) + AllDropped(scopes[1..])
  }

  /** All conditions that merging keeps. */
  function Kept(scopes: seq<Scope>): seq<Entry> {
    var flat := Flattened(Contributions(scopes));
    if flat.Success? then flat.value else []
  }

  lemma {:induction false} OthersAre(scope: Scope)
    ensures forall e :: e in Others(scope) <==> e in scope && !IsAnd(e)
  {
    if scope != [] {
      OthersAre(scope[1..]);
    }
  }

  lemma {:induction false} AndProperty(scope: Scope, e: Entry)
    requires DistinctKeys(scope) && e in scope && IsAnd(e)
    ensures Property(scope, "AND") == Some(e.value)
    ensures forall other | other in scope && IsAnd(other) :: other == e
  {
    var i :| 0 <= i < |scope| && scope[i] == e;
    if i > 0 {
      assert scope[0].key != "AND" && scope[1..][i - 1] == e;
      AndProperty(scope[1..], e);
    }
    forall other | other in scope && IsAnd(other) ensures other == e {
      var j :| 0 <= j < |scope| && scope[j] == other;
      assert i == j;
    }
  }

  lemma {:induction false} AbsentAnd(scope: Scope)
    requires !HasAnd(scope)
    ensures Property(scope, "AND").None? || !Property(scope, "AND").value.List?
  {
    if scope != [] {
      assert scope[0] in scope && forall e | e in scope[1..] :: e in scope;
      if scope[0].key != "AND" {
        AbsentAnd(scope[1..]);
      }
    }
  }

  lemma ConditionsAre(compare: Comparisons, row: Row, items: seq<Json>)
    requires forall i | 0 <= i < |items| :: items[i].Object?
    ensures ConditionsMeet(compare, row, items) <==>
        Flattened(items).Success? && AllMet(compare, row, Flattened(items).value)
  {
    hide MeetsCell, Flattened;
    FlattenedMembers(items);
    if ConditionsMeet(compare, row, items) {
      forall e | e in Flattened(items).value ensures MeetsCell(compare, Cell(row, e.key), e.value) {
        var i :| 0 <= i < |items| && e in items[i].entries;
        var j :| 0 <= j < |items[i].entries| && items[i].entries[j] == e;
        assert EntriesMeet(compare, row, items[i].entries);
      }
    }
    if AllMet(compare, row, Flattened(items).value) {
      forall i, j | 0 <= i < |items| && 0 <= j < |items[i].entries|
        ensures MeetsCell(compare, Cell(row, items[i].entries[j].key), items[i].entries[j].value)
      {
        assert items[i].entries[j] in items[i].entries && items[i].entries[j] in Flattened(items).value;
      }
    }
  }

  /** A scope is met exactly when what it contributes and what is dropped from it are met. */
  lemma ScopeSplits(compare: Comparisons, row: Row, scope: Scope)
    requires PlainScope(scope)
    ensures PlainConditions(Contribution(scope))
    ensures ScopeMeets(compare, row, scope) <==>
            ConditionsMeet(compare, row, Contribution(scope)) && AllMet(compare, row, Dropped(scope))
  {
    hide MeetsCell, PlainConditions, ConditionsMeet, Property, PlainValue;
    OthersAre(scope);
    ScopeMembers(compare, row, scope);
    if HasAnd(scope) {
      var a :| a in scope && IsAnd(a);
      AndProperty(scope, a);
      assert Contribution(scope) == a.value.items;
    } else {
      AbsentAnd(scope);
      if scope != [] {
        assert Contribution(scope) == [Object(scope)];
        LoneObject(compare, row, scope);
      } else {
        assert Contribution(scope) == [];
        EmptyConditions(compare, row);
        NoConditions();
      }
    }
  }

  lemma NoConditions()
    ensures PlainConditions([])
  {
  }

  lemma ScopeMembers(compare: Comparisons, row: Row, scope: Scope)
    ensures ScopeMeets(compare, row, scope) <==>
      forall e | e in scope :: if IsAnd(e) then ConditionsMeet(compare, row, e.value.items) else Met(compare, row, e)
  {
    hide MeetsCell, ConditionsMeet;
    if ScopeMeets(compare, row, scope) {
      forall e | e in scope
        ensures if IsAnd(e) then ConditionsMeet(compare, row, e.value.items) else Met(compare, row, e)
      {
        var i :| 0 <= i < |scope| && scope[i] == e;
      }
    }
  }

  lemma LoneObject(compare: Comparisons, row: Row, scope: Scope)
    requires PlainScope(scope) && !HasAnd(scope)
    ensures PlainConditions([Object(scope)])
    ensures ConditionsMeet(compare, row, [Object(scope)]) <==> forall e | e in scope :: Met(compare, row, e)
  {
    hide MeetsCell, PlainValue;
    assert [Object(scope)][0] == Object(scope);
    if ConditionsMeet(compare, row, [Object(scope)]) {
      assert EntriesMeet(compare, row, scope);
      forall e | e in scope ensures Met(compare, row, e) {
        var i :| 0 <= i < |scope| && scope[i] == e;
      }
    }
  }

  lemma {:induction false} ScopesSplit(compare: Comparisons, row: Row, scopes: seq<Scope>)
    requires PlainScopes(scopes)
    ensures PlainConditions(Contributions(scopes))
    ensures AllScopesMeet(compare, row, scopes) <==>
            ConditionsMeet(compare, row, Contributions(scopes)) && AllMet(compare, row, AllDropped(scopes))
  {
    hide MeetsCell, PlainScope, PlainConditions, ConditionsMeet, ScopeMeets, Contribution, Dropped;
    if scopes == [] {
      EmptyConditions(compare, row);
      NoConditions();
    } else {
      assert forall i | 0 <= i < |scopes[1..]| :: scopes[1..][i] == scopes[i + 1];
      assert forall i | 0 < i < |scopes| :: scopes[i] == scopes[1..][i - 1];
      ScopeSplits(compare, row, scopes[0]);
      ScopesSplit(compare, row, scopes[1..]);
      ConditionsChain(compare, row, Contribution(scopes[0]), Contributions(scopes[1..]));
      PlainChain(Contribution(scopes[0]), Contributions(scopes[1..]));
    }
  }

  lemma PlainChain(a: seq<Json>, b: seq<Json>)
    requires PlainConditions(a) && PlainConditions(b)
    ensures PlainConditions(a + b)
  {
    hide PlainEntries, DistinctKeys;
  }

  // ---------- A lone merged condition ----------

  predicate LoneIn(conditions: seq<Json>) {
    |conditions| == 1 && conditions[0].Object? && exists e | e in conditions[0].entries :: IsInList(e.value)
  }

  lemma PlainIsFlat(e: Entry)
    requires PlainValue(e.value)
    ensures FlatValue(e.value) && !IsAnd(e) && !IsOr(e) && (HasIn(e.value) <==> IsInList(e.value))
  {
    if IsContains(e.value) {
      ContainsProperty(e.value);
    } else if IsInList(e.value) {
      InListProperty(e.value);
    }
  }

  lemma PlainConditionsAreFlat(items: seq<Json>)
    requires PlainConditions(items)
    ensures FlatConditions(items)
    ensures forall i, j | 0 <= i < |items| && 0 <= j < |items[i].entries| ::
      HasIn(items[i].entries[j].value) <==> IsInList(items[i].entries[j].value)
  {
    hide PlainValue, FlatValue, HasIn, IsInList, IsAnd, IsOr;
    forall i, j | 0 <= i < |items| && 0 <= j < |items[i].entries|
      ensures FlatValue(items[i].entries[j].value) && !IsAnd(items[i].entries[j]) && !IsOr(items[i].entries[j])
      ensures HasIn(items[i].entries[j].value) <==> IsInList(items[i].entries[j].value)
    {
      assert items[i].entries[j] in items[i].entries;
      PlainIsFlat(items[i].entries[j]);
    }
  }

  /** Without a lone `in`, what is merged asks for exactly the kept conditions. */
  lemma MergedIsKept(compare: Comparisons, row: Row, scopes: seq<Scope>)
    requires PlainScopes(scopes) && !LoneIn(Contributions(scopes))
    ensures AssetAsksAll(compare, row, Merged(Contributions(scopes))) <==>
        ConditionsMeet(compare, row, Contributions(scopes))
  {
    hide MeetsCell, PlainConditions, ConditionsMeet, AssetAsksAll, Merged, Contributions, AllScopesMeet, HasIn,
         IsInList;
    var conditions := Contributions(scopes);
    ScopesSplit(compare, row, scopes);
    PlainConditionsAreFlat(conditions);
    if |conditions| == 1 {
      forall i | 0 <= i < |conditions[0].entries| ensures !HasIn(conditions[0].entries[i].value) {
        assert conditions[0].entries[i] in conditions[0].entries;
      }
    }
    MergedMeets(compare, row, conditions);
  }

  /** Each column equals only the value compared with it. */
  function Literally(entries: seq<Entry>): Comparisons {
    Comparisons((cell: Json, value: Json) => exists e | e in entries :: cell == Tag(e.key) && value == e.value,
                (a: Json, b: Json) => true, (a: Json, b: Json) => true)
  }

  /** A row met by the lone condition as it is compiled, and not by its `in`. */
  lemma LoneInDeparts(entries: seq<Entry>, x: Entry) returns (compare: Comparisons, row: Row)
    requires DistinctKeys(entries) && PlainEntries(entries) && x in entries && IsInList(x.value)
    ensures AssetAsksAll(compare, row, entries) && !AllMet(compare, row, entries)
  {
    compare, row := Literally(entries), Tagged(set e | e in entries && !e.value.Null? :: e.key);
    forall i | 0 <= i < |entries| ensures AssetAsks(compare, row, entries[i]) {
      assert entries[i] in entries;
      LiterallyAsked(entries, i, compare, row);
    }
    InListIsNotLiteral(entries, x);
    PlainMeans(compare, Cell(row, x.key), x.value);
  }

  lemma UniqueKey(entries: seq<Entry>, a: Entry, b: Entry)
    requires DistinctKeys(entries) && a in entries && b in entries && a.key == b.key
    ensures a == b
  {
    var i :| 0 <= i < |entries| && entries[i] == a;
    var j :| 0 <= j < |entries| && entries[j] == b;
    assert i == j;
  }

  lemma LiterallyAsked(entries: seq<Entry>, i: nat, compare: Comparisons, row: Row)
    requires DistinctKeys(entries) && PlainEntries(entries) && i < |entries|
    requires compare == Literally(entries) && row == Tagged(set e | e in entries && !e.value.Null? :: e.key)
    ensures AssetAsks(compare, row, entries[i])
  {
    var e := entries[i];
    assert e in entries;
    PlainIsFlat(e);
    if e.value.Null? {
      forall other | other in entries && other.key == e.key ensures other == e {
        UniqueKey(entries, other, e);
      }
      assert Cell(row, e.key).Null?;
    } else {
      assert Cell(row, e.key) == Tag(e.key) && compare.equal(Tag(e.key), e.value);
    }
  }

  lemma InListIsNotLiteral(entries: seq<Entry>, x: Entry)
    requires DistinctKeys(entries) && x in entries && IsInList(x.value) && PlainValue(x.value)
    ensures !SomeProbeHolds(Literally(entries), Tag(x.key), ProbesOf(x.value))
  {
    hide PlainValue;
    InListProperty(x.value);
    InsideIsSmaller(x.value.entries, "in");
    assert x.value == Object(x.value.entries);
    forall item | item in x.value.entries[0].value.items ensures !Literally(entries).equal(Tag(x.key), item) {
      if e :| e in entries && Tag(x.key) == Tag(e.key) && item == e.value {
        UniqueKey(entries, e, x);
      }
    }
  }

  // ---------- The intersection ----------

  predicate MergesTo(compare: Comparisons, row: Row, scopes: seq<Scope>) {
    AssetAsksAll(compare, row, Merged(Contributions(scopes))) <==> AllScopesMeet(compare, row, scopes)
  }

  predicate NothingLost(scopes: seq<Scope>)
    requires PlainEntries(Kept(scopes)) && PlainEntries(AllDropped(scopes))
  {
    forall d | d in AllDropped(scopes) :: Implied(Kept(scopes), d)
  }

  lemma KeptArePlain(scopes: seq<Scope>)
    requires PlainScopes(scopes)
    ensures PlainEntries(Kept(scopes)) && PlainEntries(AllDropped(scopes))
    ensures Flattened(Contributions(scopes)).Success?
  {
    hide PlainValue, MeetsCell, Contributions, PlainScope;
    ScopesSplit(Rules(true, true, true), map[], scopes);
    FlattenedMembers(Contributions(scopes));
    DroppedArePlain(scopes);
  }

  lemma {:induction false} DroppedArePlain(scopes: seq<Scope>)
    requires PlainScopes(scopes)
    ensures PlainEntries(AllDropped(scopes))
  {
    hide PlainValue;
    if scopes != [] {
      assert forall i | 0 <= i < |scopes[1..]| :: scopes[1..][i] == scopes[i + 1];
      DroppedArePlain(scopes[1..]);
      OthersAre(scopes[0]);
    }
  }

  /** Row by row: merged scopes ask for their intersection exactly without a lone `in` and with nothing lost. */
  lemma MergesToExactly(scopes: seq<Scope>)
    requires PlainScopes(scopes)
    ensures PlainEntries(Kept(scopes)) && PlainEntries(AllDropped(scopes))
    ensures (forall compare: Comparisons, row: Row :: MergesTo(compare, row, scopes)) <==>
            !LoneIn(Contributions(scopes)) && NothingLost(scopes)
  {
    KeptArePlain(scopes);
    hide *;
    if LoneIn(Contributions(scopes)) {
      LoneInSeparates(scopes);
    } else if !NothingLost(scopes) {
      LossSeparates(scopes);
    } else {
      forall compare: Comparisons, row: Row ensures MergesTo(compare, row, scopes) {
        NothingLostMerges(compare, row, scopes);
      }
    }
  }

  lemma KeptIsConditions(compare: Comparisons, row: Row, scopes: seq<Scope>)
    requires PlainScopes(scopes)
    ensures ConditionsMeet(compare, row, Contributions(scopes)) <==> AllMet(compare, row, Kept(scopes))
  {
    hide MeetsCell, Contributions, PlainScope, ConditionsMeet, AllMet;
    ScopesSplit(compare, row, scopes);
    ConditionsAre(compare, row, Contributions(scopes));
    KeptArePlain(scopes);
  }

  lemma NothingLostMerges(compare: Comparisons, row: Row, scopes: seq<Scope>)
    requires PlainScopes(scopes) && PlainEntries(Kept(scopes)) && PlainEntries(AllDropped(scopes))
    requires !LoneIn(Contributions(scopes)) && NothingLost(scopes)
    ensures MergesTo(compare, row, scopes)
  {
    hide MeetsCell, Contributions, PlainScope, ConditionsMeet, AssetAsksAll, Merged, AllScopesMeet, LoneIn, Implied,
         Kept, AllDropped, PlainValue;
    MergedIsKept(compare, row, scopes);
    ScopesSplit(compare, row, scopes);
    KeptIsConditions(compare, row, scopes);
    forall d | d in AllDropped(scopes) ensures ImpliesAt(compare, row, Kept(scopes), d) {
      ImpliedHolds(compare, row, Kept(scopes), d);
    }
  }

  lemma LossSeparates(scopes: seq<Scope>)
    requires PlainScopes(scopes) && PlainEntries(Kept(scopes)) && PlainEntries(AllDropped(scopes))
    requires !LoneIn(Contributions(scopes)) && !NothingLost(scopes)
    ensures exists compare: Comparisons, row: Row :: !MergesTo(compare, row, scopes)
  {
    hide MeetsCell, Contributions, PlainScope, ConditionsMeet, AssetAsksAll, Merged, AllScopesMeet, LoneIn, Implied,
         Kept, AllDropped, PlainValue;
    var d :| d in AllDropped(scopes) && !Implied(Kept(scopes), d);
    var compare, row := NotImpliedFails(Kept(scopes), d);
    MergedIsKept(compare, row, scopes);
    ScopesSplit(compare, row, scopes);
    KeptIsConditions(compare, row, scopes);
    assert !AllMet(compare, row, AllDropped(scopes));
    assert !MergesTo(compare, row, scopes);
  }

  lemma LoneInSeparates(scopes: seq<Scope>)
    requires PlainScopes(scopes) && LoneIn(Contributions(scopes))
    ensures exists compare: Comparisons, row: Row :: !MergesTo(compare, row, scopes)
  {
    hide MeetsCell, Contributions, PlainScope, AssetAsksAll, AllScopesMeet, IsInList, PlainValue;
    ScopesSplit(Rules(true, true, true), map[], scopes);
    var entries := Contributions(scopes)[0].entries;
    var x :| x in entries && IsInList(x.value);
    var compare, row := LoneInDeparts(entries, x);
    ScopesSplit(compare, row, scopes);
    ConditionsAre(compare, row, Contributions(scopes));
    LoneFlattened(Contributions(scopes));
    assert !MergesTo(compare, row, scopes);
  }

  lemma LoneFlattened(conditions: seq<Json>)
    requires |conditions| == 1 && conditions[0].Object?
    ensures Flattened(conditions) == Success(conditions[0].entries)
  {
    assert conditions[1..] == [];
    assert conditions[0].entries + [] == conditions[0].entries;
  }

  // ---------- The query ----------

  /** The rows meeting every scope, in table order. */
  function Intersection(compare: Comparisons, scopes: seq<Scope>, rows: seq<Row>): (r: seq<Row>)
    ensures forall row :: row in r <==> row in rows && AllScopesMeet(compare, row, scopes)
  {
    if rows == [] then []
    else (if AllScopesMeet(compare, rows[0], scopes) then [rows[0]] else []) + Intersection(compare, scopes, rows[1..])
  }

  predicate AnswersIntersection(s: Setting, scopes: seq<Scope>) {
    AssetList(s, Merged(Contributions(scopes))) == Success(Intersection(s.compare, scopes, Rows(s.database, "Asset")))
  }

  /** An `in` without values compiles to no column. */
  predicate EmptyIn(value: Json) {
    IsInList(value) && value.entries[0].value.items == []
  }

  /** Every column that reaches the text is an identifier. */
  predicate NamesColumns(kept: seq<Entry>) {
    forall e | e in kept :: IsIdentifier(e.key) || EmptyIn(e.value)
  }

  /** Several merged conditions of nothing make a WHERE without a clause. */
  predicate Speaks(scopes: seq<Scope>) {
    Merged(Contributions(scopes)) == [] || Kept(scopes) != []
  }

  lemma PlainCompiles(position: Position, key: string, value: Json)
    requires PlainValue(value) && position != InOr && (position == Top ==> !IsInList(value))
    ensures CompileCondition(key, AssetCondition(position, value)).Success? <==> IsIdentifier(key) || EmptyIn(value)
  {
    hide IsIdentifier;
    if IsContains(value) {
      ContainsProperty(value);
    } else if IsInList(value) {
      InListProperty(value);
    }
  }

  lemma {:induction false} FlatCompiles(entries: seq<Entry>)
    requires PlainEntries(entries)
    ensures CompileFlat(InAnd, entries).Success? <==> NamesColumns(entries)
  {
    hide IsIdentifier, PlainValue, EmptyIn, CompileCondition, AssetCondition;
    if entries != [] {
      PlainCompiles(InAnd, entries[0].key, entries[0].value);
      FlatCompiles(entries[1..]);
      assert forall e :: e in entries <==> e == entries[0] || e in entries[1..];
    }
  }

  lemma {:induction false} LoneCompiles(entries: seq<Entry>)
    requires PlainEntries(entries) && forall e | e in entries :: !IsInList(e.value)
    ensures CompileAsset(entries).Success? <==> NamesColumns(entries)
  {
    hide IsIdentifier, PlainValue, EmptyIn, CompileCondition, AssetCondition, IsInList;
    if entries != [] {
      assert entries[0] in entries;
      PlainIsFlat(entries[0]);
      PlainIsNoList(entries[0].value);
      PlainCompiles(Top, entries[0].key, entries[0].value);
      LoneCompiles(entries[1..]);
      assert forall e :: e in entries <==> e == entries[0] || e in entries[1..];
    }
  }

  lemma PlainIsNoList(value: Json)
    requires PlainValue(value)
    ensures !value.List?
  {
  }

  /** The merged filter compiles exactly when it names columns, and emits something exactly when something is kept. */
  lemma MergedCompiles(scopes: seq<Scope>)
    requires PlainScopes(scopes) && !LoneIn(Contributions(scopes))
    ensures
      var merged := Merged(Contributions(scopes));
      (CompileAsset(merged).Success? <==> NamesColumns(Kept(scopes))) && (AllEmpty(merged) <==> Kept(scopes) == [])
  {
    hide PlainScope, Contributions, CompileFlat, NamesColumns, PlainValue, IsInList, Flattened;
    var conditions := Contributions(scopes);
    KeptArePlain(scopes);
    ScopesSplit(Rules(true, true, true), map[], scopes);
    if conditions == [] {
      NothingKept();
    } else if |conditions| == 1 {
      LoneFlattened(conditions);
      var entries := conditions[0].entries;
      LoneCompiles(entries);
      forall i | 0 <= i < |entries| ensures !Empty(entries[i]) {
        assert entries[i] in entries;
        PlainIsNoList(entries[i].value);
      }
    } else {
      FlatCompiles(Kept(scopes));
      AndCompiles(conditions);
    }
  }

  lemma NothingKept()
    ensures Flattened([]) == Success([]) && NamesColumns([])
  {
  }

  lemma AndCompiles(conditions: seq<Json>)
    requires Flattened(conditions).Success?
    ensures
      var merged := [Entry("AND", List(conditions))];
      (CompileAsset(merged).Success? <==> CompileFlat(InAnd, Flattened(conditions).value).Success?) &&
      (AllEmpty(merged) <==> Flattened(conditions).value == [])
  {
    hide CompileFlat, Flattened;
    var merged := [Entry("AND", List(conditions))];
    assert merged[0] == Entry("AND", List(conditions)) && merged[1..] == [];
  }

  lemma {:induction false} SameRows(compare: Comparisons, scopes: seq<Scope>, rows: seq<Row>)
    requires forall row: Row :: MergesTo(compare, row, scopes)
    ensures AskedRows(compare, Merged(Contributions(scopes)), rows) == Intersection(compare, scopes, rows)
  {
    hide AssetAsksAll, AllScopesMeet, Merged, Contributions;
    if rows != [] {
      assert MergesTo(compare, rows[0], scopes);
      SameRows(compare, scopes, rows[1..]);
    }
  }

  lemma {:induction false} UnfilteredRows(compare: Comparisons, rows: seq<Row>)
    ensures AskedRows(compare, [], rows) == rows
  {
    if rows != [] {
      UnfilteredRows(compare, rows[1..]);
    }
  }

  /** The answer to the merged filter: refused, a syntax error, or the rows it asks for. */
  lemma MergedAnswers(s: Setting, scopes: seq<Scope>)
    ensures
      var merged := Merged(Contributions(scopes));
      var answer := AssetList(s, merged);
      answer == if merged != [] && CompileAsset(merged).Failure? then Failure(Rejected(CompileAsset(merged).error))
                else if merged != [] && AllEmpty(merged) then Failure(SyntaxError)
                else Success(AskedRows(s.compare, merged, Rows(s.database, "Asset")))
  {
    hide Merged, Contributions, CompileAsset, AllEmpty, Rows, RunSelect;
    var merged := Merged(Contributions(scopes));
    if merged == [] {
      UnfilteredRows(s.compare, Rows(s.database, "Asset"));
    } else if CompileAsset(merged).Success? {
      AssetRunIsAsked(s, merged);
    }
  }

  /** A table of the one row on which merging departs. */
  lemma SeparatedAnswer(compare: Comparisons, row: Row, scopes: seq<Scope>)
    requires !MergesTo(compare, row, scopes)
    ensures !AnswersIntersection(Setting(compare, map["Asset" := [row]]), scopes)
  {
    hide Merged, Contributions, CompileAsset, AllEmpty, AssetList, AssetAsksAll, AllScopesMeet;
    var s := Setting(compare, map["Asset" := [row]]);
    MergedAnswers(s, scopes);
    assert Rows(s.database, "Asset") == [row];
    var asked := AskedRows(compare, Merged(Contributions(scopes)), [row]);
    var meeting := Intersection(compare, scopes, [row]);
    assert row in asked <==> AssetAsksAll(compare, row, Merged(Contributions(scopes)));
    assert row in meeting <==> AllScopesMeet(compare, row, scopes);
    assert asked != meeting;
  }

  lemma AnswerDeparts(scopes: seq<Scope>) returns (s: Setting)
    requires PlainScopes(scopes) && PlainEntries(Kept(scopes)) && PlainEntries(AllDropped(scopes))
    requires LoneIn(Contributions(scopes)) || !NothingLost(scopes)
    ensures !AnswersIntersection(s, scopes)
  {
    hide *;
    MergesToExactly(scopes);
    var compare: Comparisons, row: Row :| !MergesTo(compare, row, scopes);
    s := Setting(compare, map["Asset" := [row]]);
    SeparatedAnswer(compare, row, scopes);
  }

  lemma IntersectionAnswered(s: Setting, scopes: seq<Scope>)
    requires PlainScopes(scopes) && PlainEntries(Kept(scopes)) && PlainEntries(AllDropped(scopes))
    requires !LoneIn(Contributions(scopes)) && NothingLost(scopes) && NamesColumns(Kept(scopes)) && Speaks(scopes)
    ensures AnswersIntersection(s, scopes)
  {
    hide LoneIn, NothingLost, NamesColumns, PlainScope, Kept, AllDropped, Contributions, MergesTo, CompileAsset,
         AllEmpty, Rows, AssetList, Merged;
    MergesToExactly(scopes);
    MergedCompiles(scopes);
    MergedAnswers(s, scopes);
    SameRows(s.compare, scopes, Rows(s.database, "Asset"));
  }

  /**
   The asset query on merged scopes of nulls, plain values, `contains` and `in` lists, with conditions in AND lists and
   beside them, answers their intersection in table order, on every database under every comparison rule, exactly when
   no lone merged condition holds an `in`, every condition beside an AND list is implied by the merged ones, every
   column that reaches the text is an identifier, and something reaches it unless nothing was merged.
   */
  lemma MergeKeepsIntersectionExactly(scopes: seq<Scope>)
    requires PlainScopes(scopes)
    ensures PlainEntries(Kept(scopes)) && PlainEntries(AllDropped(scopes))
    ensures (forall s: Setting :: AnswersIntersection(s, scopes)) <==>
            !LoneIn(Contributions(scopes)) && NothingLost(scopes) && NamesColumns(Kept(scopes)) && Speaks(scopes)
  {
    KeptArePlain(scopes);
    hide *;
    if LoneIn(Contributions(scopes)) || !NothingLost(scopes) {
      var s := AnswerDeparts(scopes);
    } else if !NamesColumns(Kept(scopes)) || !Speaks(scopes) {
      RefusedEverywhere(Setting(Rules(true, true, true), map[]), scopes);
    } else {
      forall s: Setting ensures AnswersIntersection(s, scopes) {
        IntersectionAnswered(s, scopes);
      }
    }
  }

  lemma RefusedEverywhere(s: Setting, scopes: seq<Scope>)
    requires PlainScopes(scopes) && !LoneIn(Contributions(scopes)) && (!NamesColumns(Kept(scopes)) || !Speaks(scopes))
    ensures !AnswersIntersection(s, scopes)
  {
    hide LoneIn, PlainScope, Kept, Contributions, CompileAsset, AllEmpty, AssetList, Merged, NamesColumns;
    MergedCompiles(scopes);
    MergedAnswers(s, scopes);
    if Merged(Contributions(scopes)) == [] {
      NothingCompiles();
    }
  }

  lemma NothingCompiles()
    ensures CompileAsset([]).Success?
  {
  }

  /** Two empty conditions in AND lists are merged into a filter that is no SQL. */
  lemma EmptyConditionsAreNoSql(s: Setting)
    ensures AssetList(s, Merged(Contributions([[Entry("AND", List([Object([]), Object([])]))]]))) ==
        Failure(SyntaxError)
  {
    var scope: Scope := [Entry("AND", List([Object([]), Object([])]))];
    var scopes := [scope];
    assert scope[0] == Entry("AND", List([Object([]), Object([])])) && scopes[1..] == [];
    assert Property(scope, "AND") == Some(scope[0].value);
    var items := [Object([]), Object([])];
    assert Contributions(scopes) == items;
    LoneFlattened(items[1..]);
    AndCompiles(items);
    assert CompileFlat(InAnd, []).Success?;
    MergedAnswers(s, scopes);
  }
}
