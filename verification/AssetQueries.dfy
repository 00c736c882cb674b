/**
 The inline compiler of `asset.findMany` and `asset.count`: a flat filter with one level of OR and AND lists,
 each position with its own conditions.
 */
module AssetQueries {
  import opened Wrappers
  import opened WhereObjects
  import opened SqlText
  import opened SqlMeaning
  import opened WhereCompiler
  import opened WhereCorrectness
  import opened WhereAcceptance
  import opened WhereQueries

  datatype Position = Top | InOr | InAnd

  predicate IsAnd(e: Entry) {
    e.key == "AND" && e.value.List?
  }

  /** Null is tested with IS NULL except inside OR; IN is known only inside AND. */
  function AssetCondition(position: Position, value: Json): Condition {
    var contains := if value.Object? then Property(value.entries, "contains") else None;
    var among := if value.Object? then Property(value.entries, "in") else None;
    if contains.Some? then Compared(Like, Pattern(contains.value))
    else if position != InOr && value.Null? then Absent
    else if position == InAnd && among.Some? then Among(if among.value.List? then among.value.items else [among.value])
    else Compared(Eq, Raw(value))
  }

  /** All entries of all conditions, in order. */
  function Flattened(items: seq<Json>): Result<seq<Entry>, WhereError> {
    if items == [] then Success([])
    else if !items[0].Object? then Failure(NotARecord)
    else
      var rest :- Flattened(items[1..]);
      Success(items[0].entries + rest)
  }

  /** Flattening keeps exactly the entries of the conditions. */
  lemma {:induction false} FlattenedMembers(items: seq<Json>)
    requires forall i | 0 <= i < |items| :: items[i].Object?
    ensures Flattened(items).Success?
    ensures forall x :: x in Flattened(items).value <==> exists i | 0 <= i < |items| :: x in items[i].entries
  {
    if items != [] {
      FlattenedMembers(items[1..]);
      forall x ensures x in Flattened(items).value <==> exists i | 0 <= i < |items| :: x in items[i].entries {
        if i :| 0 <= i < |items| && x in items[i].entries {
          assert i == 0 || x in items[1..][i - 1].entries;
        }
        if x in Flattened(items[1..]).value {
          var i :| 0 <= i < |items[1..]| && x in items[1..][i].entries;
          assert items[i + 1] == items[1..][i];
        }
      }
    }
  }

  function CompileFlat(position: Position, entries: seq<Entry>): Outcome {
    if entries == [] then Success(NOTHING)
    else
      var first :- CompileCondition(entries[0].key, AssetCondition(position, entries[0].value));
      Append(first, CompileFlat(position, entries[1..]))
  }

  function CompileAssetEntry(e: Entry): Outcome {
    if IsOr(e) || IsAnd(e) then
      var flat :- Flattened(e.value.items);
      var inner :- CompileFlat(if IsOr(e) then InOr else InAnd, flat);
      Success(Compiled(if inner.clauses == [] then []
                       else [[Open] + Join(inner.clauses, if IsOr(e) then Or else And) + [Close]], inner.params))
    else
      CompileCondition(e.key, AssetCondition(Top, e.value))
  }

  function CompileAsset(where: seq<Entry>): Outcome {
    if where == [] then Success(NOTHING)
    else
      var first :- CompileAssetEntry(where[0]);
      Append(first, CompileAsset(where[1..]))
  }

  // ---------- The loops, pushing onto the shared value list ----------

  method BuildFlat(position: Position, entries: seq<Entry>, values: ValueList)
    returns (r: Result<seq<seq<Token>>, WhereError>)
    modifies values
    ensures r.Failure? ==> CompileFlat(position, entries) == Failure(r.error)
    ensures r.Success? ==> CompileFlat(position, entries).Success?
    ensures r.Success? ==> r.value == CompileFlat(position, entries).value.clauses
    ensures r.Success? ==> values.items == old(values.items) + CompileFlat(position, entries).value.params
  {
    hide CompileCondition, AssetCondition;
    var clauses: seq<seq<Token>> := [];
    ghost var pushed: seq<Parameter> := [];
    AppendLaws(NOTHING, NOTHING, CompileFlat(position, entries));
    var i := 0;
    while i < |entries|
      invariant 0 <= i <= |entries|
      invariant values.items == old(values.items) + pushed
      invariant CompileFlat(position, entries) == Append(Compiled(clauses, pushed), CompileFlat(position, entries[i..]))
    {
      assert entries[i..][0] == entries[i] && entries[i..][1..] == entries[i + 1..];
      var one := CompileCondition(entries[i].key, AssetCondition(position, entries[i].value));
      if one.Failure? {
        return Failure(one.error);
      }
      values.Push(one.value.params);
      AppendLaws(Compiled(clauses, pushed), one.value, CompileFlat(position, entries[i + 1..]));
      clauses := clauses + one.value.clauses;
      pushed := pushed + one.value.params;
      i := i + 1;
    }
    assert entries[i..] == [] && clauses + [] == clauses && pushed + [] == pushed;
    return Success(clauses);
  }

  method BuildAssetEntry(e: Entry, values: ValueList) returns (r: Result<seq<seq<Token>>, WhereError>)
    modifies values
    ensures r.Failure? ==> CompileAssetEntry(e) == Failure(r.error)
    ensures r.Success? ==> CompileAssetEntry(e).Success?
    ensures r.Success? ==> r.value == CompileAssetEntry(e).value.clauses
    ensures r.Success? ==> values.items == old(values.items) + CompileAssetEntry(e).value.params
  {
    if IsOr(e) || IsAnd(e) {
      var flat := Flattened(e.value.items);
      if flat.Failure? {
        return Failure(flat.error);
      }
      var inner := BuildFlat(if IsOr(e) then InOr else InAnd, flat.value, values);
      if inner.Failure? {
        return Failure(inner.error);
      }
      return Success(if inner.value == [] then []
                     else [[Open] + Join(inner.value, if IsOr(e) then Or else And) + [Close]]);
    }
    var one := CompileCondition(e.key, AssetCondition(Top, e.value));
    if one.Failure? {
      return Failure(one.error);
    }
    values.Push(one.value.params);
    return Success(one.value.clauses);
  }

  method BuildAssetClauses(where: seq<Entry>, values: ValueList) returns (r: Result<seq<seq<Token>>, WhereError>)
    modifies values
    ensures r.Failure? ==> CompileAsset(where) == Failure(r.error)
    ensures r.Success? ==> CompileAsset(where).Success?
    ensures r.Success? ==> r.value == CompileAsset(where).value.clauses
    ensures r.Success? ==> values.items == old(values.items) + CompileAsset(where).value.params
  {
    hide CompileAssetEntry;
    var clauses: seq<seq<Token>> := [];
    ghost var pushed: seq<Parameter> := [];
    AppendLaws(NOTHING, NOTHING, CompileAsset(where));
    var i := 0;
    while i < |where|
      invariant 0 <= i <= |where|
      invariant values.items == old(values.items) + pushed
      invariant CompileAsset(where) == Append(Compiled(clauses, pushed), CompileAsset(where[i..]))
    {
      assert where[i..][0] == where[i] && where[i..][1..] == where[i + 1..];
      var text := BuildAssetEntry(where[i], values);
      if text.Failure? {
        return Failure(text.error);
      }
      AppendLaws(Compiled(clauses, pushed), CompileAssetEntry(where[i]).value, CompileAsset(where[i + 1..]));
      clauses := clauses + text.value;
      pushed := pushed + CompileAssetEntry(where[i]).value.params;
      assert values.items == old(values.items) + pushed;
      i := i + 1;
    }
    assert where[i..] == [] && clauses + [] == clauses && pushed + [] == pushed;
    return Success(clauses);
  }

  // ---------- What the text asks for ----------

  predicate FlatAsks(compare: Comparisons, row: Row, position: Position, e: Entry) {
    MeetsChosen(compare, Cell(row, e.key), AssetCondition(position, e.value))
  }

  predicate AssetAsks(compare: Comparisons, row: Row, e: Entry) {
    if IsOr(e) then
      Flattened(e.value.items).Success? &&
      var flat := Flattened(e.value.items).value;
      flat == [] || exists i | 0 <= i < |flat| :: FlatAsks(compare, row, InOr, flat[i])
    else if IsAnd(e) then
      Flattened(e.value.items).Success? &&
      var flat := Flattened(e.value.items).value;
      forall i | 0 <= i < |flat| :: FlatAsks(compare, row, InAnd, flat[i])
    else
      FlatAsks(compare, row, Top, e)
  }

  predicate AssetAsksAll(compare: Comparisons, row: Row, where: seq<Entry>) {
    forall i | 0 <= i < |where| :: AssetAsks(compare, row, where[i])
  }

  /** Entries that emit nothing: empty lists. */
  predicate Empty(e: Entry) {
    (IsOr(e) || IsAnd(e)) && Flattened(e.value.items) == Success([])
  }

  predicate AllEmpty(where: seq<Entry>) {
    forall i | 0 <= i < |where| :: Empty(where[i])
  }

  function FlatTerms(position: Position, entries: seq<Entry>, next: nat): seq<Sql> {
    if entries == [] then []
    else
      var first := ConditionTerm(entries[0].key, AssetCondition(position, entries[0].value), next);
      [first] + FlatTerms(position, entries[1..], next + Holes(first))
  }

  function AssetTerm(e: Entry, next: nat): seq<Sql> {
    if IsOr(e) || IsAnd(e) then
      if Flattened(e.value.items).Failure? then []
      else
        var terms := FlatTerms(if IsOr(e) then InOr else InAnd, Flattened(e.value.items).value, next);
        if terms == [] then [] else [Group(if IsOr(e) then AnyOf(terms) else AllOf(terms))]
    else [ConditionTerm(e.key, AssetCondition(Top, e.value), next)]
  }

  function AssetTerms(where: seq<Entry>, next: nat): seq<Sql> {
    if where == [] then []
    else
      var first := AssetTerm(where[0], next);
      first + AssetTerms(where[1..], next + HolesAll(first))
  }

  lemma OneHole(term: Sql)
    ensures HolesAll([term]) == Holes(term)
  {
    assert [term][1..] == [];
  }

  /** Each term of a flat list is TRUE exactly for the rows its entry asks for. */
  predicate TermsAsk(world: World, scope: map<string, Row>, table: string, row: Row, position: Position,
        entries: seq<Entry>, terms: seq<Sql>)
  {
    |terms| == |entries| &&
    forall i | 0 <= i < |entries| :: TermAsks(world, scope, table, row, position, entries[i], terms[i])
  }

  lemma {:induction false} FlatMeaning(world: World, scope: map<string, Row>, table: string, row: Row,
        position: Position, entries: seq<Entry>, next: nat)
    requires CompileFlat(position, entries).Success? && table in scope && scope[table] == row
    ensures Written(CompileFlat(position, entries).value, FlatTerms(position, entries, next), next)
    ensures |FlatTerms(position, entries, next)| == |entries|
    ensures BoundAt(world.params, next, CompileFlat(position, entries).value.params) ==>
            TermsAsk(world, scope, table, row, position, entries, FlatTerms(position, entries, next))
  {
    hide *;
    FlatUnfolds(world, scope, table, row, position, entries, next);
    if entries != [] {
      var condition := AssetCondition(position, entries[0].value);
      var first := ConditionTerm(entries[0].key, condition, next);
      var compiled, rest := CompileCondition(entries[0].key, condition).value,
        CompileFlat(position, entries[1..]).value;
      var tail := FlatTerms(position, entries[1..], next + Holes(first));
      ConditionWritten(entries[0].key, condition, next);
      OneHole(first);
      FlatMeaning(world, scope, table, row, position, entries[1..], next + Holes(first));
      WrittenChains(compiled, [first], rest, tail, next);
      if BoundAt(world.params, next, compiled.params + rest.params) {
        BoundSplits(world.params, next, compiled.params, rest.params);
        WrittenHoles(compiled, [first], next);
        FirstTermAsks(world, scope, table, row, position, entries[0], next);
        TermsAskHead(world, scope, table, row, position, entries, first, tail);
      }
    }
  }

  lemma FlatUnfolds(world: World, scope: map<string, Row>, table: string, row: Row, position: Position,
        entries: seq<Entry>, next: nat)
    requires CompileFlat(position, entries).Success?
    ensures entries == [] ==>
      Written(CompileFlat(position, entries).value, FlatTerms(position, entries, next), next) &&
      FlatTerms(position, entries, next) == [] && TermsAsk(world, scope, table, row, position, entries, [])
    ensures entries != [] ==>
      var condition := AssetCondition(position, entries[0].value);
      var first := ConditionTerm(entries[0].key, condition, next);
      CompileCondition(entries[0].key, condition).Success? && CompileFlat(position, entries[1..]).Success? &&
      var compiled, rest := CompileCondition(entries[0].key, condition).value,
        CompileFlat(position, entries[1..]).value;
      CompileFlat(position, entries).value == Compiled(compiled.clauses + rest.clauses,
        compiled.params + rest.params) &&
      FlatTerms(position, entries, next) == [first] + FlatTerms(position, entries[1..], next + Holes(first))
  {
    hide AssetCondition, ConditionTerm, CompileCondition, Eval;
    assert WriteEach([]) == [];
  }

  /** The property of one term of a flat list. */
  predicate TermAsks(world: World, scope: map<string, Row>, table: string, row: Row, position: Position, e: Entry,
        term: Sql)
  {
    Eval(world, scope, table, term) == Yes <==> FlatAsks(world.compare, row, position, e)
  }

  lemma TermsAskHead(world: World, scope: map<string, Row>, table: string, row: Row, position: Position,
        entries: seq<Entry>, first: Sql, tail: seq<Sql>)
    requires entries != [] && TermsAsk(world, scope, table, row, position, entries[1..], tail)
    requires TermAsks(world, scope, table, row, position, entries[0], first)
    ensures TermsAsk(world, scope, table, row, position, entries, [first] + tail)
  {
    hide TermAsks;
    var terms := [first] + tail;
    forall i | 0 <= i < |entries| ensures TermAsks(world, scope, table, row, position, entries[i], terms[i]) {
      if i > 0 {
        assert entries[i] == entries[1..][i - 1] && terms[i] == tail[i - 1];
      }
    }
  }

  lemma FirstTermAsks(world: World, scope: map<string, Row>, table: string, row: Row, position: Position, e: Entry,
        next: nat)
    requires
      var condition := AssetCondition(position, e.value);
      CompileCondition(e.key, condition).Success? && table in scope && scope[table] == row &&
      BoundAt(world.params, next, CompileCondition(e.key, condition).value.params)
    ensures TermAsks(world, scope, table, row, position, e,
        ConditionTerm(e.key, AssetCondition(position, e.value), next))
  {
    hide Eval, MeetsChosen, AssetCondition, CompileCondition, ConditionTerm, BoundAt;
    ConditionMeaning(world, scope, table, row, e.key, AssetCondition(position, e.value), next);
  }

  lemma WrittenHoles(compiled: Compiled, terms: seq<Sql>, next: nat)
    requires Written(compiled, terms, next)
    ensures HolesAll(terms) == |compiled.params|
  {
  }

  lemma AssetEntryMeaning(world: World, scope: map<string, Row>, table: string, row: Row, e: Entry, next: nat)
    requires CompileAssetEntry(e).Success? && table in scope && scope[table] == row
    ensures Written(CompileAssetEntry(e).value, AssetTerm(e, next), next)
    ensures AssetTerm(e, next) == [] <==> Empty(e)
    ensures BoundAt(world.params, next, CompileAssetEntry(e).value.params) ==>
      (EvalAll(world, scope, table, AssetTerm(e, next)) == Yes <==> AssetAsks(world.compare, row, e))
  {
    hide Eval, EvalAll, EvalAny, CompileFlat, FlatTerms, FlatAsks, Written, BoundAt, CompileCondition, ConditionTerm,
         Flattened, Join;
    EvalNone(world, scope, table);
    if IsOr(e) || IsAnd(e) {
      var flat := Flattened(e.value.items).value;
      var position := if IsOr(e) then InOr else InAnd;
      var terms := FlatTerms(position, flat, next);
      FlatMeaning(world, scope, table, row, position, flat, next);
      NothingWritten(CompileFlat(position, flat).value, terms, next);
      if terms != [] {
        ChainWritten(CompileFlat(position, flat).value, terms, if IsOr(e) then Or else And, next);
        EvalOne(world, scope, table, terms);
        EvalOne(world, scope, table, AssetTerm(e, next));
        AnyIsSome(world, scope, table, terms);
        AllIsEvery(world, scope, table, terms);
        GroupIsBody(world, scope, table, if IsOr(e) then AnyOf(terms) else AllOf(terms));
      }
    } else {
      ConditionWritten(e.key, AssetCondition(Top, e.value), next);
      EvalOne(world, scope, table, AssetTerm(e, next));
      if BoundAt(world.params, next, CompileAssetEntry(e).value.params) {
        ConditionMeaning(world, scope, table, row, e.key, AssetCondition(Top, e.value), next);
      }
      FlatAsksIs(world.compare, row, e);
    }
  }

  lemma GroupIsBody(world: World, scope: map<string, Row>, table: string, body: Sql)
    ensures Eval(world, scope, table, Group(body)) == Eval(world, scope, table, body)
  {
  }

  lemma FlatAsksIs(compare: Comparisons, row: Row, e: Entry)
    ensures FlatAsks(compare, row, Top, e) == MeetsChosen(compare, Cell(row, e.key), AssetCondition(Top, e.value))
  {
  }

  lemma NothingWritten(compiled: Compiled, terms: seq<Sql>, next: nat)
    requires Written(compiled, terms, next)
    ensures compiled.clauses == [] <==> terms == []
    ensures terms == [] ==> compiled == Compiled([], []) && Written(Compiled([], []), [], next)
  {
  }

  lemma ChainWritten(body: Compiled, terms: seq<Sql>, separator: Token, next: nat)
    requires Written(body, terms, next) && terms != [] && separator in [And, Or]
    ensures Written(Compiled([[Open] + Join(body.clauses, separator) + [Close]], body.params),
                    [Group(if separator == Or then AnyOf(terms) else AllOf(terms))], next)
  {
    JoinWritten(terms, separator);
    CleanChain(terms, next);
    WrittenOne([Open] + Join(body.clauses, separator) + [Close], body.params,
               Group(if separator == Or then AnyOf(terms) else AllOf(terms)), next);
  }

  lemma {:induction false} AssetMeaning(world: World, scope: map<string, Row>, table: string, row: Row,
        where: seq<Entry>, next: nat)
    requires CompileAsset(where).Success? && table in scope && scope[table] == row
    ensures Written(CompileAsset(where).value, AssetTerms(where, next), next)
    ensures AssetTerms(where, next) == [] <==> AllEmpty(where)
    ensures BoundAt(world.params, next, CompileAsset(where).value.params) ==>
      (EvalAll(world, scope, table, AssetTerms(where, next)) == Yes <==> AssetAsksAll(world.compare, row, where))
  {
    hide *;
    AssetUnfolds(world, scope, table, row, where, next);
    if where != [] {
      var compiled, rest := CompileAssetEntry(where[0]).value, CompileAsset(where[1..]).value;
      var first := AssetTerm(where[0], next);
      var after := next + HolesAll(first);
      AssetEntryMeaning(world, scope, table, row, where[0], next);
      AssetMeaning(world, scope, table, row, where[1..], after);
      WrittenChains(compiled, first, rest, AssetTerms(where[1..], after), next);
      EvalChains(world, scope, table, first, AssetTerms(where[1..], after));
      WrittenHoles(compiled, first, next);
      if BoundAt(world.params, next, compiled.params + rest.params) {
        BoundSplits(world.params, next, compiled.params, rest.params);
      }
      AssetHead(world.compare, row, where);
    }
  }

  lemma AssetUnfolds(world: World, scope: map<string, Row>, table: string, row: Row, where: seq<Entry>, next: nat)
    requires CompileAsset(where).Success?
    ensures where == [] ==>
      Written(CompileAsset(where).value, AssetTerms(where, next), next) && AssetTerms(where, next) == [] &&
        AllEmpty(where) &&
      EvalAll(world, scope, table, AssetTerms(where, next)) == Yes && AssetAsksAll(world.compare, row, where)
    ensures where != [] ==>
      CompileAssetEntry(where[0]).Success? && CompileAsset(where[1..]).Success? &&
      var compiled, rest := CompileAssetEntry(where[0]).value, CompileAsset(where[1..]).value;
      var first := AssetTerm(where[0], next);
      CompileAsset(where).value == Compiled(compiled.clauses + rest.clauses, compiled.params + rest.params) &&
      AssetTerms(where, next) == first + AssetTerms(where[1..], next + HolesAll(first))
  {
    hide CompileAssetEntry, AssetTerm, Eval, AssetAsks, Empty;
    assert WriteEach([]) == [];
  }

  lemma AssetHead(compare: Comparisons, row: Row, where: seq<Entry>)
    requires where != []
    ensures AssetAsksAll(compare, row, where) <==>
        AssetAsks(compare, row, where[0]) && AssetAsksAll(compare, row, where[1..])
    ensures AllEmpty(where) <==> Empty(where[0]) && AllEmpty(where[1..])
  {
    hide AssetAsks, Empty;
    assert forall i | 0 < i < |where| :: where[i] == where[1..][i - 1];
    assert forall i | 0 <= i < |where[1..]| :: where[1..][i] == where[i + 1];
  }

  /**
   The asset query runs exactly when some entry emits a clause, and then a row passes it exactly when every entry,
   as compiled, asks for the row.
   */
  lemma AssetTextMeans(s: Setting, where: seq<Entry>, row: Row)
    requires CompileAsset(where).Success?
    ensures
      var compiled := CompileAsset(where).value;
      var read := ReadWhere(Join(compiled.clauses, And));
      (read.Some? <==> !AllEmpty(where)) &&
      (read.Some? ==> Holes(read.value) == |compiled.params|) &&
      (read.Some? ==>
        (Selects(World(s.compare, s.database, compiled.params), "Asset", row, read.value) <==>
         AssetAsksAll(s.compare, row, where)))
  {
    hide Eval, EvalAll, CleanAll, Holes, HolesAll, ReadAny, Write, WriteAll, AssetTerms, CompileAsset, AssetAsksAll,
         AllEmpty;
    var compiled := CompileAsset(where).value;
    var world := World(s.compare, s.database, compiled.params);
    var terms := AssetTerms(where, 0);
    AssetMeaning(world, map["Asset" := row], "Asset", row, where, 0);
    assert BoundAt(compiled.params, 0, compiled.params);
    if terms == [] {
      assert compiled.clauses == [];
      EmptyTextIsNoSql();
    } else {
      JoinWritten(terms, And);
      CleanChain(terms, 0);
      ReadBack(AllOf(terms));
      EvalOne(world, map["Asset" := row], "Asset", terms);
    }
  }

  lemma EmptyTextIsNoSql()
    ensures ReadWhere(Join([], And)) == None
  {
  }

  // ---------- Which asset filters compile ----------

  /** `in: []` inside an AND list needs no column, unless `contains` comes first. */
  predicate AsksNothingInAnd(value: Json) {
    value.Object? && Property(value.entries, "contains").None? && Property(value.entries, "in") == Some(List([]))
  }

  predicate ConditionUnfit(position: Position, e: Entry) {
    !Named(e.key) && !(position == InAnd && AsksNothingInAnd(e.value))
  }

  predicate ItemsUnfitAt(position: Position, items: seq<Json>) {
    exists i | 0 <= i < |items| :: !items[i].Object? || SomeConditionUnfit(position, items[i].entries)
  }

  predicate SomeConditionUnfit(position: Position, entries: seq<Entry>) {
    exists e | e in entries :: ConditionUnfit(position, e)
  }

  /** A list item that is no object, or a column that is asked for something and has no proper name. */
  predicate AssetUnfit(e: Entry) {
    if e.key == "OR" && e.value.List? then ItemsUnfitAt(InOr, e.value.items)
    else if e.key == "AND" && e.value.List? then ItemsUnfitAt(InAnd, e.value.items)
    else !Named(e.key)
  }

  lemma ConditionCompiles(position: Position, e: Entry)
    ensures CompileCondition(e.key, AssetCondition(position, e.value)).Success? <==> !ConditionUnfit(position, e)
  {
    hide Named;
    IdentifierIsNamed(e.key);
  }

  lemma {:induction false} FlatCompiles(position: Position, entries: seq<Entry>)
    ensures CompileFlat(position, entries).Success? <==> !SomeConditionUnfit(position, entries)
  {
    hide ConditionUnfit, CompileCondition, AssetCondition;
    if entries != [] {
      ConditionCompiles(position, entries[0]);
      FlatCompiles(position, entries[1..]);
      assert forall e :: e in entries <==> e == entries[0] || e in entries[1..];
    }
  }

  lemma {:induction false} FlattenedExactly(items: seq<Json>)
    ensures Flattened(items).Success? <==> forall i | 0 <= i < |items| :: items[i].Object?
  {
    if items != [] {
      FlattenedExactly(items[1..]);
      assert forall i | 0 <= i < |items[1..]| :: items[1..][i] == items[i + 1];
      assert forall i | 0 < i < |items| :: items[i] == items[1..][i - 1];
    }
  }

  lemma ListCompiles(position: Position, items: seq<Json>)
    ensures Flattened(items).Success? && CompileFlat(position, Flattened(items).value).Success? <==>
            !ItemsUnfitAt(position, items)
  {
    hide ConditionUnfit, CompileFlat, Flattened;
    FlattenedExactly(items);
    if Flattened(items).Success? {
      FlattenedMembers(items);
      var flat := Flattened(items).value;
      FlatCompiles(position, flat);
      if e :| e in flat && ConditionUnfit(position, e) {
        var i :| 0 <= i < |items| && e in items[i].entries;
        assert SomeConditionUnfit(position, items[i].entries);
      }
      if i :| 0 <= i < |items| && SomeConditionUnfit(position, items[i].entries) {
        var e :| e in items[i].entries && ConditionUnfit(position, e);
        assert e in flat;
      }
    }
  }

  lemma AssetEntryCompiles(e: Entry)
    ensures CompileAssetEntry(e).Success? <==> !AssetUnfit(e)
  {
    hide ItemsUnfitAt, CompileFlat, Flattened, Named;
    if IsOr(e) || IsAnd(e) {
      ListCompiles(if IsOr(e) then InOr else InAnd, e.value.items);
    } else {
      ConditionCompiles(Top, e);
    }
  }

  /** An asset filter compiles exactly when no entry of it is refused. */
  lemma {:induction false} AssetCompilesExactly(where: seq<Entry>)
    ensures CompileAsset(where).Success? <==> forall e | e in where :: !AssetUnfit(e)
  {
    hide CompileAssetEntry, AssetUnfit;
    if where != [] {
      AssetEntryCompiles(where[0]);
      AssetCompilesExactly(where[1..]);
      assert forall e :: e in where <==> e == where[0] || e in where[1..];
    }
  }

  // ---------- The two asset queries ----------

  function AskedRows(compare: Comparisons, where: seq<Entry>, rows: seq<Row>): (r: seq<Row>)
    ensures forall row :: row in r <==> row in rows && AssetAsksAll(compare, row, where)
  {
    if rows == [] then []
    else (if AssetAsksAll(compare, rows[0], where) then [rows[0]] else []) + AskedRows(compare, where, rows[1..])
  }

  lemma {:induction false} SelectedIsAsked(s: Setting, where: seq<Entry>, tree: Sql, rows: seq<Row>)
    requires CompileAsset(where).Success? && ReadWhere(Join(CompileAsset(where).value.clauses, And)) == Some(tree)
    ensures Selected(World(s.compare, s.database, CompileAsset(where).value.params), "Asset", tree, rows) ==
            AskedRows(s.compare, where, rows)
  {
    hide Selects, CompileAsset, AssetAsksAll, ReadWhere, Join, AllEmpty;
    if rows != [] {
      AssetTextMeans(s, where, rows[0]);
      SelectedIsAsked(s, where, tree, rows[1..]);
    }
  }

  lemma AssetRunIsAsked(s: Setting, where: seq<Entry>)
    requires CompileAsset(where).Success?
    ensures
      var compiled := CompileAsset(where).value;
      RunSelect(s, "Asset", Join(compiled.clauses, And), compiled.params) ==
      if AllEmpty(where) then Failure(SyntaxError) else Success(AskedRows(s.compare, where, Rows(s.database, "Asset")))
  {
    var compiled := CompileAsset(where).value;
    AssetTextMeans(s, where, map[]);
    if !AllEmpty(where) {
      SelectedIsAsked(s, where, ReadWhere(Join(compiled.clauses, And)).value, Rows(s.database, "Asset"));
    }
  }

  /** What the unpaged list query answers: its text run with its values. */
  function AssetList(s: Setting, where: seq<Entry>): Result<seq<Row>, QueryError> {
    if where == [] then Success(Rows(s.database, "Asset"))
    else if CompileAsset(where).Failure? then Failure(Rejected(CompileAsset(where).error))
    else RunSelect(s, "Asset", Join(CompileAsset(where).value.clauses, And), CompileAsset(where).value.params)
  }

  /** The unpaged `asset.findMany`; a filter of empty lists alone is a syntax error. */
  method AssetFindMany(s: Setting, where: seq<Entry>) returns (r: Result<seq<Row>, QueryError>)
    ensures r == AssetList(s, where)
    ensures where == [] ==> r == Success(Rows(s.database, "Asset"))
    ensures where != [] && CompileAsset(where).Failure? ==> r == Failure(Rejected(CompileAsset(where).error))
    ensures where != [] && CompileAsset(where).Success? ==>
      r == if AllEmpty(where) then Failure(SyntaxError)
        else Success(AskedRows(s.compare, where, Rows(s.database, "Asset")))
    ensures where != [] && (exists e | e in where :: AssetUnfit(e)) ==> r.Failure? && r.error.Rejected?
    ensures where != [] && (forall e | e in where :: !AssetUnfit(e)) ==>
      r == if AllEmpty(where) then Failure(SyntaxError)
        else Success(AskedRows(s.compare, where, Rows(s.database, "Asset")))
  {
    AssetCompilesExactly(where);
    if where == [] {
      return Success(Rows(s.database, "Asset"));
    }
    var values := new ValueList();
    var clauses := BuildAssetClauses(where, values);
    if clauses.Failure? {
      return Failure(Rejected(clauses.error));
    }
    assert [] + CompileAsset(where).value.params == CompileAsset(where).value.params;
    AssetRunIsAsked(s, where);
    r := RunSelect(s, "Asset", Join(clauses.value, And), values.items);
  }

  /** `asset.count` for the same filter. */
  method AssetCount(s: Setting, where: seq<Entry>) returns (r: Result<nat, QueryError>)
    ensures where == [] ==> r == Success(|Rows(s.database, "Asset")|)
    ensures where != [] && CompileAsset(where).Failure? ==> r == Failure(Rejected(CompileAsset(where).error))
    ensures where != [] && CompileAsset(where).Success? ==>
      r == if AllEmpty(where) then Failure(SyntaxError)
        else Success(|AskedRows(s.compare, where, Rows(s.database, "Asset"))|)
    ensures where != [] && (exists e | e in where :: AssetUnfit(e)) ==> r.Failure? && r.error.Rejected?
    ensures where != [] && (forall e | e in where :: !AssetUnfit(e)) ==>
      r == if AllEmpty(where) then Failure(SyntaxError)
        else Success(|AskedRows(s.compare, where, Rows(s.database, "Asset"))|)
  {
    AssetCompilesExactly(where);
    if where == [] {
      return Success(|Rows(s.database, "Asset")|);
    }
    var values := new ValueList();
    var clauses := BuildAssetClauses(where, values);
    if clauses.Failure? {
      return Failure(Rejected(clauses.error));
    }
    assert [] + CompileAsset(where).value.params == CompileAsset(where).value.params;
    AssetRunIsAsked(s, where);
    var rows := RunSelect(s, "Asset", Join(clauses.value, And), values.items);
    r := if rows.Failure? then Failure(rows.error) else Success(|rows.value|);
  }

  /**
   Counting and listing agree on every filter: same refusals, and the count is the length of the list. Both are given
   the one compiler whose text the source repeats in each.
   */
  method CountAndList(s: Setting, where: seq<Entry>)
    returns (list: Result<seq<Row>, QueryError>, count: Result<nat, QueryError>)
    ensures list.Success? <==> count.Success?
    ensures list.Success? ==> count.value == |list.value|
    ensures list.Failure? ==> count.error == list.error
  {
    list := AssetFindMany(s, where);
    count := AssetCount(s, where);
  }

  /** One column compared with a plain value: the assets whose cell equals it. */
  lemma AssetColumnAnswers(s: Setting, key: string, value: Scalar)
    requires Named(key)
    ensures
      var assets := AssetList(s, [Entry(key, Atom(value))]);
      assets.Success? &&
      forall row :: row in assets.value <==>
        row in Rows(s.database, "Asset") && !Cell(row, key).Null? && s.compare.equal(Cell(row, key), Atom(value))
  {
    hide Named, RunSelect;
    var e := Entry(key, Atom(value));
    var where := [e];
    assert where[0] == e;
    AssetCompilesExactly(where);
    AssetRunIsAsked(s, where);
    forall row: Row
      ensures AssetAsksAll(s.compare, row, where) <==>
              !Cell(row, key).Null? && s.compare.equal(Cell(row, key), Atom(value))
    {
    }
    assert !Empty(e);
  }

  /** Values that the asset compiler knows in an AND list: null, plain values, `contains` and `in` with a list. */
  predicate FlatValue(value: Json) {
    value.Object? ==>
      Property(value.entries, "gte").None? && Property(value.entries, "lte").None? &&
        Property(value.entries, "not").None? &&
      (Property(value.entries, "contains").None? || Property(value.entries, "in").None?) &&
      (Property(value.entries, "in").Some? ==> Property(value.entries, "in").value.List?)
  }

  predicate HasIn(value: Json) {
    value.Object? && Property(value.entries, "in").Some?
  }

  lemma FlatConditionMeans(compare: Comparisons, cell: Json, value: Json)
    requires FlatValue(value)
    ensures MeetsChosen(compare, cell, AssetCondition(InAnd, value)) <==> MeetsCell(compare, cell, value)
    ensures !HasIn(value) ==> (MeetsChosen(compare, cell, AssetCondition(Top, value)) <==>
        MeetsCell(compare, cell, value))
    ensures !HasIn(value) && !value.Null? ==>
      (MeetsChosen(compare, cell, AssetCondition(InOr, value)) <==> MeetsCell(compare, cell, value))
  {
    if value.Object? {
      assert !HasOperator(value.entries, AtLeast) && !HasOperator(value.entries, AtMost) &&
             !HasOperator(value.entries, NotEqual);
      assert HasOperator(value.entries, ContainsText) <==> Property(value.entries, "contains").Some?;
      assert HasOperator(value.entries, MemberOf) <==> Property(value.entries, "in").Some?;
    }
  }
}
