/** What a filter object means, and that the compiled text selects exactly the rows it describes. */
module WhereCorrectness {
  import opened WhereObjects
  import opened SqlText
  import opened SqlMeaning
  import opened WhereCompiler

  // ---------- The meaning of a filter object, without SQL ----------

  datatype Setting = Setting(compare: Comparisons, database: Database)

  datatype OperatorName = ContainsText | AtLeast | AtMost | NotEqual | MemberOf {
    function Key(): string {
      match this
      case ContainsText => "contains"
      case AtLeast => "gte"
      case AtMost => "lte"
      case NotEqual => "not"
      case MemberOf => "in"
    }
  }

  /** Whether one operator is present in an operator object; `in` counts only with a list. */
  predicate HasOperator(entries: seq<Entry>, operator: OperatorName) {
    var operand := Property(entries, operator.Key());
    operand.Some? && (operator.MemberOf? ==> operand.value.List?)
  }

  predicate IsOperatorObject(value: Json) {
    value.Object? && exists op: OperatorName :: HasOperator(value.entries, op)
  }

  predicate MeetsOperator(compare: Comparisons, cell: Json, operator: OperatorName, operand: Json) {
    !cell.Null? &&
    match operator
    case ContainsText => compare.contains(cell, operand)
    case AtLeast => !operand.Null? && compare.atMost(operand, cell)
    case AtMost => !operand.Null? && compare.atMost(cell, operand)
    case NotEqual => operand.Null? || !compare.equal(cell, operand)
    case MemberOf => operand.List? && ListHas(compare, cell, operand.items)
  }

  predicate ListHas(compare: Comparisons, cell: Json, items: seq<Json>) {
    exists i | 0 <= i < |items| :: !items[i].Null? && compare.equal(cell, items[i])
  }

  /** Every operator present must be met; anything else asks for equality, and null for NULL. */
  predicate MeetsCell(compare: Comparisons, cell: Json, value: Json) {
    if value.Null? then cell.Null?
    else if IsOperatorObject(value) then
      forall op: OperatorName | HasOperator(value.entries, op) ::
        MeetsOperator(compare, cell, op, Property(value.entries, op.Key()).value)
    else !cell.Null? && compare.equal(cell, value)
  }

  predicate References(compare: Comparisons, child: Row, parent: Row, foreignKey: string) {
    var key := Cell(child, foreignKey);
    !key.Null? && !Cell(parent, "id").Null? && compare.equal(Cell(parent, "id"), key)
  }

  /** An OR list asks for one satisfied alternative; an empty one asks for nothing. */
  predicate Meets(s: Setting, table: string, row: Row, e: Entry)
    decreases e, 0
  {
    if IsOr(e) then
      e.value.items == [] ||
      exists i | 0 <= i < |e.value.items| ::
        e.value.items[i].Object? && Satisfies(s, table, row, e.value.items[i].entries)
    else if IsRelational(table, e) then
      e.value.Object? &&
      var (inner, foreignKey) := Relation(table, e.key).value;
      var rows := Rows(s.database, inner);
      exists i | 0 <= i < |rows| ::
        References(s.compare, row, rows[i], foreignKey) && Satisfies(s, inner, rows[i], e.value.entries)
    else
      MeetsCell(s.compare, Cell(row, NormalizeColumn(table, e.key)), e.value)
  }

  predicate Satisfies(s: Setting, table: string, row: Row, where: seq<Entry>)
    decreases where, 0
  {
    forall i | 0 <= i < |where| :: Meets(s, table, row, where[i])
  }

  // ---------- The fragment the compiler gives that meaning to ----------

  /** An entry that asks for nothing: an OR list of empty alternatives. */
  predicate Blank(e: Entry)
    decreases e, 0
  {
    IsOr(e) && forall i | 0 <= i < |e.value.items| :: e.value.items[i].Object? && AllBlank(e.value.items[i].entries)
  }

  predicate AllBlank(where: seq<Entry>)
    decreases where, 0
  {
    forall i | 0 <= i < |where| :: Blank(where[i])
  }

  /** Every relational subfilter asks for something, so that its EXISTS has a condition to write. */
  predicate Grounded(table: string, e: Entry)
    decreases e, 0
  {
    if IsOr(e) then
      forall i | 0 <= i < |e.value.items| :: e.value.items[i].Object? && AllGrounded(table, e.value.items[i].entries)
    else if IsRelational(table, e) then
      e.value.Object? && AllGrounded(Relation(table, e.key).value.0, e.value.entries) && !AllBlank(e.value.entries)
    else true
  }

  predicate AllGrounded(table: string, where: seq<Entry>)
    decreases where, 0
  {
    forall i | 0 <= i < |where| :: Grounded(table, where[i])
  }

  /** No OR list mixes empty alternatives with others. */
  predicate Unmixed(table: string, e: Entry)
    decreases e, 0
  {
    if IsOr(e) then
      (forall i | 0 <= i < |e.value.items| :: e.value.items[i].Object? &&
        AllUnmixed(table, e.value.items[i].entries)) &&
      (Blank(e) || forall i | 0 <= i < |e.value.items| :: !AllBlank(e.value.items[i].entries))
    else if IsRelational(table, e) then
      e.value.Object? && AllUnmixed(Relation(table, e.key).value.0, e.value.entries)
    else true
  }

  predicate AllUnmixed(table: string, where: seq<Entry>)
    decreases where, 0
  {
    forall i | 0 <= i < |where| :: Unmixed(table, where[i])
  }

  function FirstOperator(entries: seq<Entry>): OperatorName {
    if HasOperator(entries, ContainsText) then ContainsText
    else if HasOperator(entries, AtLeast) then AtLeast
    else if HasOperator(entries, AtMost) then AtMost
    else if HasOperator(entries, NotEqual) then NotEqual
    else MemberOf
  }

  /** At most one operator, not counting a `not: null` after it, which the first one implies. */
  predicate OneOperator(value: Json) {
    value.Object? ==>
      forall op: OperatorName | HasOperator(value.entries, op) && op != FirstOperator(value.entries) ::
        op.NotEqual? && Property(value.entries, op.Key()).value.Null?
  }

  /** One operator per operator object, one condition per OR alternative. */
  predicate Simple(table: string, e: Entry)
    decreases e, 0
  {
    if IsOr(e) then
      forall i | 0 <= i < |e.value.items| :: e.value.items[i].Object? &&
        |e.value.items[i].entries| <= 1 && AllSimple(table, e.value.items[i].entries)
    else if IsRelational(table, e) then
      e.value.Object? && AllSimple(Relation(table, e.key).value.0, e.value.entries)
    else OneOperator(e.value)
  }

  predicate AllSimple(table: string, where: seq<Entry>)
    decreases where, 0
  {
    forall i | 0 <= i < |where| :: Simple(table, where[i])
  }

  // ---------- The trees behind the emitted text ----------

  function ConditionTerm(column: string, condition: Condition, next: nat): Sql {
    match condition
    case Absent => Missing(column)
    case Existing => Present(column)
    case Compared(op, _) => Comparison(column, op, next)
    case Among(items) => if items == [] then Impossible else OneOf(column, next, |items|)
  }

  function EntryTerms(table: string, e: Entry, next: nat): seq<Sql>
    decreases e, 0
  {
    if IsOr(e) then
      var terms := AlternativeTerms(table, e.value.items, next);
      if terms == [] then [] else [Group(AnyOf(terms))]
    else if IsRelational(table, e) then
      if e.value.List? then []
      else
        var (inner, foreignKey) := Relation(table, e.key).value;
        [Exists(inner, AllOf([Joined(inner, table, foreignKey)] + EntriesTerms(inner, e.value.entries, next)))]
    else [ConditionTerm(NormalizeColumn(table, e.key), Chosen(e.value), next)]
  }

  function EntriesTerms(table: string, where: seq<Entry>, next: nat): seq<Sql>
    decreases where, 0
  {
    if where == [] then []
    else
      var first := EntryTerms(table, where[0], next);
      first + EntriesTerms(table, where[1..], next + HolesAll(first))
  }

  function AlternativeTerms(table: string, items: seq<Json>, next: nat): seq<Sql>
    decreases items, 0
  {
    if items == [] || !items[0].Object? then []
    else
      var first := EntriesTerms(table, items[0].entries, next);
      first + AlternativeTerms(table, items[1..], next + HolesAll(first))
  }

  function WriteEach(terms: seq<Sql>): (r: seq<seq<Token>>)
    ensures |r| == |terms|
  {
    seq(|terms|, i requires 0 <= i < |terms| => Write(terms[i]))
  }

  lemma {:induction false} JoinWritten(terms: seq<Sql>, separator: Token)
    ensures Join(WriteEach(terms), separator) == WriteAll(terms, separator)
  {
    if |terms| > 1 {
      JoinWritten(terms[1..], separator);
      assert WriteEach(terms)[1..] == WriteEach(terms[1..]);
    }
  }

  lemma {:induction false} CleanChains(a: seq<Sql>, b: seq<Sql>, next: nat)
    requires CleanAll(a, next) && CleanAll(b, next + HolesAll(a))
    ensures CleanAll(a + b, next) && HolesAll(a + b) == HolesAll(a) + HolesAll(b)
    ensures WriteEach(a + b) == WriteEach(a) + WriteEach(b)
  {
    hide Clean, Holes, Write;
    if a == [] {
      assert a + b == b;
    } else {
      CleanChains(a[1..], b, next + Holes(a[0]));
      assert (a + b)[1..] == a[1..] + b;
    }
  }

  /** A compilation agrees with its trees: same text, clean numbering, one value for each placeholder. */
  ghost predicate Written(compiled: Compiled, terms: seq<Sql>, next: nat) {
    compiled.clauses == WriteEach(terms) && CleanAll(terms, next) && HolesAll(terms) == |compiled.params|
  }

  lemma WrittenChains(a: Compiled, ta: seq<Sql>, b: Compiled, tb: seq<Sql>, next: nat)
    requires Written(a, ta, next) && Written(b, tb, next + HolesAll(ta))
    ensures Written(Compiled(a.clauses + b.clauses, a.params + b.params), ta + tb, next)
  {
    CleanChains(ta, tb, next);
  }

  lemma WrittenOne(text: seq<Token>, params: seq<Parameter>, term: Sql, next: nat)
    requires text == Write(term) && Clean(term, next) && Holes(term) == |params|
    ensures Written(Compiled([text], params), [term], next)
  {
    assert [term][1..] == [];
    assert WriteEach([term]) == [text];
  }

  lemma GroupWritten(body: Compiled, terms: seq<Sql>, next: nat)
    requires Written(body, terms, next) && terms != []
    ensures Written(Compiled([[Open] + Join(body.clauses, Or) + [Close]], body.params), [Group(AnyOf(terms))], next)
  {
    JoinWritten(terms, Or);
    CleanChain(terms, next);
    WrittenOne([Open] + Join(body.clauses, Or) + [Close], body.params, Group(AnyOf(terms)), next);
  }

  lemma ExistsWritten(inner: string, outer: string, foreignKey: string, body: Compiled, terms: seq<Sql>, next: nat)
    requires Written(body, terms, next) && terms != []
    ensures Written(Compiled([[ExistsIn(inner), Link(inner, outer, foreignKey), And] + Join(body.clauses, And) +
                              [Close]], body.params),
                    [Exists(inner, AllOf([Joined(inner, outer, foreignKey)] + terms))], next)
  {
    var link := Joined(inner, outer, foreignKey);
    var chain := [link] + terms;
    JoinWritten(terms, And);
    ChainStarts(link, terms, next);
    CleanChain(chain, next);
    hide CleanAll, CleanBody, Join, WriteAll, HolesAll, AllOf;
    WrittenOne([ExistsIn(inner), Link(inner, outer, foreignKey), And] + Join(body.clauses, And) + [Close], body.params,
               Exists(inner, AllOf(chain)), next);
  }

  lemma ChainStarts(link: Sql, terms: seq<Sql>, next: nat)
    requires link.Joined? && terms != [] && CleanAll(terms, next)
    ensures CleanAll([link] + terms, next) && HolesAll([link] + terms) == HolesAll(terms)
    ensures WriteAll([link] + terms, And) == [Link(link.inner, link.outer, link.foreignKey), And] + WriteAll(terms, And)
  {
    var chain := [link] + terms;
    assert chain[0] == link && chain[1..] == terms && Holes(link) == 0;
  }

  /** Exactly the blank entries emit nothing. */
  lemma {:induction false} BlankEmitsNothing(table: string, e: Entry, next: nat)
    requires Grounded(table, e)
    ensures EntryTerms(table, e, next) == [] <==> Blank(e)
    decreases e, 0
  {
    if IsOr(e) {
      BlankAlternatives(table, e.value.items, next);
    }
  }

  lemma {:induction false} BlankEntries(table: string, where: seq<Entry>, next: nat)
    requires AllGrounded(table, where)
    ensures EntriesTerms(table, where, next) == [] <==> AllBlank(where)
    decreases where, 0
  {
    if where != [] {
      BlankEmitsNothing(table, where[0], next);
      BlankEntries(table, where[1..], next + HolesAll(EntryTerms(table, where[0], next)));
      assert forall i | 0 < i < |where| :: where[i] == where[1..][i - 1];
    }
  }

  lemma {:induction false} BlankAlternatives(table: string, items: seq<Json>, next: nat)
    requires forall i | 0 <= i < |items| :: items[i].Object? && AllGrounded(table, items[i].entries)
    ensures AlternativeTerms(table, items, next) == [] <==> forall i | 0 <= i < |items| :: AllBlank(items[i].entries)
    decreases items, 0
  {
    if items != [] {
      BlankEntries(table, items[0].entries, next);
      BlankAlternatives(table, items[1..], next + HolesAll(EntriesTerms(table, items[0].entries, next)));
      assert forall i | 0 < i < |items| :: items[i] == items[1..][i - 1];
    }
  }

  lemma {:induction false} EntryWritten(table: string, e: Entry, next: nat)
    requires CompileEntry(table, e).Success? && Grounded(table, e)
    ensures Written(CompileEntry(table, e).value, EntryTerms(table, e, next), next)
    decreases e, 0
  {
    if IsOr(e) {
      AlternativesWritten(table, e.value.items, next);
      var terms := AlternativeTerms(table, e.value.items, next);
      if terms != [] {
        GroupWritten(CompileAlternatives(table, e.value.items).value, terms, next);
      }
    } else if IsRelational(table, e) {
      var (inner, foreignKey) := Relation(table, e.key).value;
      EntriesWritten(inner, e.value.entries, next);
      BlankEntries(inner, e.value.entries, next);
      ExistsWritten(inner, table, foreignKey, CompileEntries(inner, e.value.entries).value,
                    EntriesTerms(inner, e.value.entries, next), next);
    } else {
      ConditionWritten(NormalizeColumn(table, e.key), Chosen(e.value), next);
    }
  }

  lemma ConditionWritten(column: string, condition: Condition, next: nat)
    requires CompileCondition(column, condition).Success?
    ensures Written(CompileCondition(column, condition).value, [ConditionTerm(column, condition, next)], next)
  {
    var compiled := CompileCondition(column, condition).value;
    WrittenOne(compiled.clauses[0], compiled.params, ConditionTerm(column, condition, next), next);
  }

  lemma {:induction false} EntriesWritten(table: string, where: seq<Entry>, next: nat)
    requires CompileEntries(table, where).Success? && AllGrounded(table, where)
    ensures Written(CompileEntries(table, where).value, EntriesTerms(table, where, next), next)
    decreases where, 0
  {
    if where != [] {
      EntryWritten(table, where[0], next);
      var first := EntryTerms(table, where[0], next);
      EntriesWritten(table, where[1..], next + HolesAll(first));
      WrittenChains(CompileEntry(table, where[0]).value, first, CompileEntries(table, where[1..]).value,
                    EntriesTerms(table, where[1..], next + HolesAll(first)), next);
    }
  }

  lemma {:induction false} AlternativesWritten(table: string, items: seq<Json>, next: nat)
    requires CompileAlternatives(table, items).Success?
    requires forall i | 0 <= i < |items| :: items[i].Object? && AllGrounded(table, items[i].entries)
    ensures Written(CompileAlternatives(table, items).value, AlternativeTerms(table, items, next), next)
    decreases items, 0
  {
    if items != [] {
      AlternativesHead(table, items);
      hide Written, EntriesTerms, HolesAll, AllGrounded, CompileEntries;
      EntriesWritten(table, items[0].entries, next);
      var first := EntriesTerms(table, items[0].entries, next);
      AlternativesWritten(table, items[1..], next + HolesAll(first));
      WrittenChains(CompileEntries(table, items[0].entries).value, first, CompileAlternatives(table, items[1..]).value,
                    AlternativeTerms(table, items[1..], next + HolesAll(first)), next);
    } else {
      assert WriteEach([]) == [];
    }
  }

  // ---------- Evaluation of the trees ----------

  /** The values pushed for one part stand at the part's own placeholders. */
  predicate BoundAt(params: seq<Parameter>, next: nat, own: seq<Parameter>) {
    next + |own| <= |params| && params[next..next + |own|] == own
  }

  lemma BoundSplits(params: seq<Parameter>, next: nat, a: seq<Parameter>, b: seq<Parameter>)
    requires BoundAt(params, next, a + b)
    ensures BoundAt(params, next, a) && BoundAt(params, next + |a|, b)
  {
    var own := params[next..next + |a + b|];
    assert params[next..next + |a|] == own[..|a|] == a;
    assert params[next + |a|..next + |a| + |b|] == own[|a|..] == b;
  }

  lemma {:induction false} EvalChains(world: World, scope: map<string, Row>, table: string, a: seq<Sql>, b: seq<Sql>)
    ensures EvalAll(world, scope, table, a + b) == Yes <==>
            EvalAll(world, scope, table, a) == Yes && EvalAll(world, scope, table, b) == Yes
    ensures EvalAny(world, scope, table, a + b) == Yes <==>
            EvalAny(world, scope, table, a) == Yes || EvalAny(world, scope, table, b) == Yes
  {
    if a == [] {
      assert a + b == b;
    } else {
      assert (a + b)[1..] == a[1..] + b;
      EvalChains(world, scope, table, a[1..], b);
    }
  }

  lemma EvalOne(world: World, scope: map<string, Row>, table: string, terms: seq<Sql>)
    requires terms != []
    ensures EvalAll(world, scope, table, terms) == Yes ==> EvalAny(world, scope, table, terms) == Yes
    ensures |terms| == 1 ==>
      (EvalAny(world, scope, table, terms) == Yes <==> EvalAll(world, scope, table, terms) == Yes)
    ensures Eval(world, scope, table, AnyOf(terms)) == Yes <==> EvalAny(world, scope, table, terms) == Yes
    ensures Eval(world, scope, table, AllOf(terms)) == Yes <==> EvalAll(world, scope, table, terms) == Yes
  {
    if |terms| == 1 {
      assert terms[1..] == [];
    }
  }

  lemma AmongMeaning(world: World, cell: Json, items: seq<Json>, next: nat)
    requires BoundAt(world.params, next, Raws(items))
    ensures TestAny(world.compare, cell, ParamRange(world, next, |items|)) == Yes <==>
            !cell.Null? && ListHas(world.compare, cell, items)
  {
    var range := ParamRange(world, next, |items|);
    InListIsMembership(world.compare, cell, range);
    forall i | 0 <= i < |items| ensures range[i] == Raw(items[i]) {
      assert world.params[next..next + |items|][i] == Raws(items)[i];
    }
    if i :| 0 <= i < |range| && Test(world.compare, Eq, cell, range[i]) == Yes {
      assert !items[i].Null? && world.compare.equal(cell, items[i]);
    }
    if !cell.Null? {
      if i :| 0 <= i < |items| && !items[i].Null? && world.compare.equal(cell, items[i]) {
        assert Test(world.compare, Eq, cell, range[i]) == Yes;
      }
    }
  }

  /** The condition the compiler chose, without SQL. */
  predicate MeetsChosen(compare: Comparisons, cell: Json, condition: Condition) {
    match condition
    case Absent => cell.Null?
    case Existing => !cell.Null?
    case Compared(op, param) => Test(compare, op, cell, param) == Yes
    case Among(items) => !cell.Null? && ListHas(compare, cell, items)
  }

  /**
   What the compiled text asks for, without SQL: all entries of all alternatives of an OR list form one
   list of alternatives, and only the first operator of an operator object counts.
   */
  predicate Asks(s: Setting, table: string, row: Row, e: Entry)
    decreases e, 0
  {
    if IsOr(e) then
      Blank(e) ||
      exists i | 0 <= i < |e.value.items| :: e.value.items[i].Object? &&
        AsksSome(s, table, row, e.value.items[i].entries)
    else if IsRelational(table, e) then
      e.value.Object? &&
      var (inner, foreignKey) := Relation(table, e.key).value;
      var rows := Rows(s.database, inner);
      exists i | 0 <= i < |rows| ::
        References(s.compare, row, rows[i], foreignKey) && AsksAll(s, inner, rows[i], e.value.entries)
    else
      MeetsChosen(s.compare, Cell(row, NormalizeColumn(table, e.key)), Chosen(e.value))
  }

  predicate AsksAll(s: Setting, table: string, row: Row, where: seq<Entry>)
    decreases where, 0
  {
    forall i | 0 <= i < |where| :: Asks(s, table, row, where[i])
  }

  predicate AsksSome(s: Setting, table: string, row: Row, where: seq<Entry>)
    decreases where, 0
  {
    exists i | 0 <= i < |where| :: !Blank(where[i]) && Asks(s, table, row, where[i])
  }

  lemma ConditionMeaning(world: World, scope: map<string, Row>, table: string, row: Row, column: string,
        condition: Condition, next: nat)
    requires CompileCondition(column, condition).Success? && table in scope && scope[table] == row
    requires BoundAt(world.params, next, CompileCondition(column, condition).value.params)
    ensures Eval(world, scope, table, ConditionTerm(column, condition, next)) == Yes <==>
            MeetsChosen(world.compare, Cell(row, column), condition)
  {
    var own := CompileCondition(column, condition).value.params;
    match condition
    case Compared(op, param) => assert world.params[next..next + 1][0] == own[0];
    case Among(items) =>
      if items != [] {
        AmongMeaning(world, Cell(row, column), items, next);
      }
    case _ =>
  }

  /** The terms of an entry are TRUE exactly for the rows the entry asks for. */
  lemma {:induction false} EntryMeaning(s: Setting, params: seq<Parameter>, scope: map<string, Row>, table: string,
        row: Row, e: Entry, next: nat)
    requires CompileEntry(table, e).Success? && Grounded(table, e) && table in scope && scope[table] == row
    requires BoundAt(params, next, CompileEntry(table, e).value.params)
    ensures EvalAll(World(s.compare, s.database, params), scope, table, EntryTerms(table, e, next)) == Yes <==>
            Asks(s, table, row, e)
    decreases e, 0
  {
    hide EvalAll, EvalAny, AsksAll, AsksSome, CompileEntries, CompileAlternatives, EntriesTerms, AlternativeTerms,
         AllGrounded, HolesAll, AllBlank;
    var world := World(s.compare, s.database, params);
    var terms := EntryTerms(table, e, next);
    BlankEmitsNothing(table, e, next);
    EvalNone(world, scope, table);
    if IsOr(e) {
      AlternativesMeaning(s, params, scope, table, row, e.value.items, next);
      if !Blank(e) {
        EvalOne(world, scope, table, AlternativeTerms(table, e.value.items, next));
        EvalOne(world, scope, table, terms);
      }
    } else if IsRelational(table, e) {
      var inner := Relation(table, e.key).value.0;
      forall i | 0 <= i < |Rows(s.database, inner)|
        ensures LinkedMeaning(s, params, scope, table, e, Rows(s.database, inner)[i], next)
      {
        EntriesMeaning(s, params, scope[inner := Rows(s.database, inner)[i]], inner, Rows(s.database, inner)[i],
          e.value.entries, next);
      }
      RelationMeaning(s, params, scope, table, row, e, next);
      EvalOne(world, scope, table, terms);
    } else {
      ConditionMeaning(world, scope, table, row, NormalizeColumn(table, e.key), Chosen(e.value), next);
      EvalOne(world, scope, table, terms);
    }
  }

  predicate LinkedMeaning(s: Setting, params: seq<Parameter>, scope: map<string, Row>, table: string, e: Entry,
        parent: Row, next: nat)
    requires Relation(table, e.key).Some? && e.value.Object?
  {
    var inner := Relation(table, e.key).value.0;
    EvalAll(World(s.compare, s.database, params), scope[inner := parent], inner,
      EntriesTerms(inner, e.value.entries, next)) == Yes
    <==> AsksAll(s, inner, parent, e.value.entries)
  }

  /** The subquery is TRUE exactly when a row of the inner table is linked and passes the subfilter. */
  lemma RelationMeaning(s: Setting, params: seq<Parameter>, scope: map<string, Row>, table: string, row: Row, e: Entry,
        next: nat)
    requires !IsOr(e) && IsRelational(table, e) && e.value.Object? && table in scope && scope[table] == row
    requires forall i | 0 <= i < |Rows(s.database, Relation(table, e.key).value.0)| ::
      LinkedMeaning(s, params, scope, table, e, Rows(s.database, Relation(table, e.key).value.0)[i], next)
    ensures Eval(World(s.compare, s.database, params), scope, table, EntryTerms(table, e, next)[0]) == Yes <==>
            Asks(s, table, row, e)
  {
    hide EvalAll, AsksAll, EntriesTerms, HolesAll, References;
    var world := World(s.compare, s.database, params);
    var (inner, foreignKey) := Relation(table, e.key).value;
    var rows := Rows(s.database, inner);
    var terms := EntriesTerms(inner, e.value.entries, next);
    var chain := [Joined(inner, table, foreignKey)] + terms;
    forall i | 0 <= i < |rows|
      ensures Eval(world, scope[inner := rows[i]], inner, AllOf(chain)) == Yes <==>
              References(s.compare, row, rows[i], foreignKey) && AsksAll(s, inner, rows[i], e.value.entries)
    {
      assert LinkedMeaning(s, params, scope, table, e, rows[i], next);
      LinkIsReference(world, scope, inner, table, foreignKey, row, rows[i], terms);
    }
  }

  lemma LinkIsReference(world: World, scope: map<string, Row>, inner: string, outer: string, foreignKey: string,
        row: Row, parent: Row, terms: seq<Sql>)
    requires inner != outer && outer in scope && scope[outer] == row
    ensures
      var within := scope[inner := parent];
      Eval(world, within, inner, AllOf([Joined(inner, outer, foreignKey)] + terms)) == Yes <==>
      References(world.compare, row, parent, foreignKey) && EvalAll(world, within, inner, terms) == Yes
  {
    var within := scope[inner := parent];
    var link := Joined(inner, outer, foreignKey);
    EvalOne(world, within, inner, [link] + terms);
    EvalChains(world, within, inner, [link], terms);
    EvalOne(world, within, inner, [link]);
  }

  lemma {:induction false} EntriesMeaning(s: Setting, params: seq<Parameter>, scope: map<string, Row>, table: string,
        row: Row, where: seq<Entry>, next: nat)
    requires CompileEntries(table, where).Success? && AllGrounded(table, where) && table in scope && scope[table] == row
    requires BoundAt(params, next, CompileEntries(table, where).value.params)
    ensures
      var world, terms := World(s.compare, s.database, params), EntriesTerms(table, where, next);
      (EvalAll(world, scope, table, terms) == Yes <==> AsksAll(s, table, row, where)) &&
      (EvalAny(world, scope, table, terms) == Yes <==> AsksSome(s, table, row, where))
    decreases where, 0
  {
    hide *;
    var world := World(s.compare, s.database, params);
    if where == [] {
      NothingAsked(s, world, scope, table, row, next);
    } else {
      var head, tail := where[0], where[1..];
      EntriesHead(table, where);
      var first, rest := CompileEntry(table, head).value, CompileEntries(table, tail).value;
      BoundSplits(params, next, first.params, rest.params);
      EntryHoles(table, head, next);
      EntryMeaning(s, params, scope, table, row, head, next);
      EntriesMeaning(s, params, scope, table, row, tail, next + |first.params|);
      EntriesStep(s, world, scope, table, row, where, next);
    }
  }

  lemma NothingAsked(s: Setting, world: World, scope: map<string, Row>, table: string, row: Row, next: nat)
    ensures EvalAll(world, scope, table, EntriesTerms(table, [], next)) == Yes && AsksAll(s, table, row, [])
    ensures EvalAny(world, scope, table, EntriesTerms(table, [], next)) != Yes && !AsksSome(s, table, row, [])
  {
  }

  lemma EntriesHead(table: string, where: seq<Entry>)
    requires where != [] && CompileEntries(table, where).Success? && AllGrounded(table, where)
    ensures CompileEntry(table, where[0]).Success? && CompileEntries(table, where[1..]).Success?
    ensures CompileEntries(table, where).value.params ==
            CompileEntry(table, where[0]).value.params + CompileEntries(table, where[1..]).value.params
    ensures Grounded(table, where[0]) && AllGrounded(table, where[1..])
  {
    assert forall i | 0 <= i < |where[1..]| :: where[1..][i] == where[i + 1];
  }

  lemma EntryHoles(table: string, e: Entry, next: nat)
    requires CompileEntry(table, e).Success? && Grounded(table, e)
    ensures HolesAll(EntryTerms(table, e, next)) == |CompileEntry(table, e).value.params|
    ensures |EntryTerms(table, e, next)| <= 1
    ensures EntryTerms(table, e, next) == [] <==> Blank(e)
  {
    EntryWritten(table, e, next);
    BlankEmitsNothing(table, e, next);
  }

  lemma EntriesStep(s: Setting, world: World, scope: map<string, Row>, table: string, row: Row, where: seq<Entry>,
        next: nat)
    requires where != [] && |EntryTerms(table, where[0], next)| <= 1
    requires EntryTerms(table, where[0], next) == [] <==> Blank(where[0])
    requires EvalAll(world, scope, table, EntryTerms(table, where[0], next)) == Yes <==> Asks(s, table, row, where[0])
    requires
      var tail := EntriesTerms(table, where[1..], next + HolesAll(EntryTerms(table, where[0], next)));
      (EvalAll(world, scope, table, tail) == Yes <==> AsksAll(s, table, row, where[1..])) &&
      (EvalAny(world, scope, table, tail) == Yes <==> AsksSome(s, table, row, where[1..]))
    ensures
      var terms := EntriesTerms(table, where, next);
      (EvalAll(world, scope, table, terms) == Yes <==> AsksAll(s, table, row, where)) &&
      (EvalAny(world, scope, table, terms) == Yes <==> AsksSome(s, table, row, where))
  {
    hide *;
    var first := EntryTerms(table, where[0], next);
    EntriesTermsHead(table, where, next);
    EvalChains(world, scope, table, first, EntriesTerms(table, where[1..], next + HolesAll(first)));
    if first == [] {
      EvalNone(world, scope, table);
    } else {
      EvalOne(world, scope, table, first);
    }
    AsksHead(s, table, row, where);
  }

  lemma EvalNone(world: World, scope: map<string, Row>, table: string)
    ensures EvalAny(world, scope, table, []) == No && EvalAll(world, scope, table, []) == Yes
  {
  }

  lemma EntriesTermsHead(table: string, where: seq<Entry>, next: nat)
    requires where != []
    ensures
      var first := EntryTerms(table, where[0], next);
      EntriesTerms(table, where, next) == first + EntriesTerms(table, where[1..], next + HolesAll(first))
  {
  }

  lemma AsksHead(s: Setting, table: string, row: Row, where: seq<Entry>)
    requires where != []
    ensures AsksAll(s, table, row, where) <==> Asks(s, table, row, where[0]) && AsksAll(s, table, row, where[1..])
    ensures AsksSome(s, table, row, where) <==>
            (!Blank(where[0]) && Asks(s, table, row, where[0])) || AsksSome(s, table, row, where[1..])
  {
    hide Asks, Blank;
    assert forall i | 0 < i < |where| :: where[i] == where[1..][i - 1];
    assert forall i | 0 <= i < |where[1..]| :: where[1..][i] == where[i + 1];
  }

  predicate AsksOne(s: Setting, table: string, row: Row, items: seq<Json>) {
    exists i | 0 <= i < |items| :: items[i].Object? && AsksSome(s, table, row, items[i].entries)
  }

  lemma {:induction false} AlternativesMeaning(s: Setting, params: seq<Parameter>, scope: map<string, Row>,
        table: string, row: Row, items: seq<Json>, next: nat)
    requires CompileAlternatives(table, items).Success? && table in scope && scope[table] == row
    requires forall i | 0 <= i < |items| :: items[i].Object? && AllGrounded(table, items[i].entries)
    requires BoundAt(params, next, CompileAlternatives(table, items).value.params)
    ensures EvalAny(World(s.compare, s.database, params), scope, table, AlternativeTerms(table, items, next)) == Yes
            <==>
            AsksOne(s, table, row, items)
    decreases items, 0
  {
    hide *;
    var world := World(s.compare, s.database, params);
    if items == [] {
      NoAlternatives(s, world, scope, table, row, next);
    } else {
      var entries, tail := items[0].entries, items[1..];
      AlternativesHead(table, items);
      var first, rest := CompileEntries(table, entries).value, CompileAlternatives(table, tail).value;
      BoundSplits(params, next, first.params, rest.params);
      EntriesHoles(table, entries, next);
      EntriesMeaning(s, params, scope, table, row, entries, next);
      AlternativesMeaning(s, params, scope, table, row, tail, next + |first.params|);
      AlternativesStep(s, world, scope, table, row, items, next);
    }
  }

  lemma NoAlternatives(s: Setting, world: World, scope: map<string, Row>, table: string, row: Row, next: nat)
    ensures EvalAny(world, scope, table, AlternativeTerms(table, [], next)) != Yes && !AsksOne(s, table, row, [])
  {
  }

  lemma AlternativesHead(table: string, items: seq<Json>)
    requires items != [] && CompileAlternatives(table, items).Success?
    requires forall i | 0 <= i < |items| :: items[i].Object? && AllGrounded(table, items[i].entries)
    ensures CompileEntries(table, items[0].entries).Success? && CompileAlternatives(table, items[1..]).Success?
    ensures CompileAlternatives(table, items).value.params ==
            CompileEntries(table, items[0].entries).value.params + CompileAlternatives(table, items[1..]).value.params
  {
  }

  lemma EntriesHoles(table: string, entries: seq<Entry>, next: nat)
    requires CompileEntries(table, entries).Success? && AllGrounded(table, entries)
    ensures HolesAll(EntriesTerms(table, entries, next)) == |CompileEntries(table, entries).value.params|
  {
    EntriesWritten(table, entries, next);
  }

  lemma AlternativesStep(s: Setting, world: World, scope: map<string, Row>, table: string, row: Row, items: seq<Json>,
        next: nat)
    requires items != [] && items[0].Object?
    requires EvalAny(world, scope, table, EntriesTerms(table, items[0].entries, next)) == Yes <==>
             AsksSome(s, table, row, items[0].entries)
    requires
      var after := next + HolesAll(EntriesTerms(table, items[0].entries, next));
      EvalAny(world, scope, table, AlternativeTerms(table, items[1..], after)) == Yes <==>
        AsksOne(s, table, row, items[1..])
    ensures EvalAny(world, scope, table, AlternativeTerms(table, items, next)) == Yes <==> AsksOne(s, table, row, items)
  {
    hide EvalAll, EvalAny, EntriesTerms, AsksSome;
    var terms := EntriesTerms(table, items[0].entries, next);
    EvalChains(world, scope, table, terms, AlternativeTerms(table, items[1..], next + HolesAll(terms)));
    assert forall i | 0 < i < |items| :: items[i] == items[1..][i - 1];
    assert forall i | 0 <= i < |items[1..]| :: items[1..][i] == items[i + 1];
  }

  // ---------- The compiled text against the intended meaning ----------

  lemma {:induction false} BlankIsMet(s: Setting, table: string, row: Row, e: Entry)
    requires Blank(e)
    ensures Meets(s, table, row, e)
    decreases e
  {
    if e.value.items != [] {
      var first := e.value.items[0];
      forall i | 0 <= i < |first.entries| ensures Meets(s, table, row, first.entries[i]) {
        BlankIsMet(s, table, row, first.entries[i]);
      }
    }
  }

  lemma ChosenIsOneOperator(compare: Comparisons, cell: Json, value: Json)
    ensures MeetsCell(compare, cell, value) ==> MeetsChosen(compare, cell, Chosen(value))
    ensures OneOperator(value) && MeetsChosen(compare, cell, Chosen(value)) ==> MeetsCell(compare, cell, value)
  {
    if value.Object? {
      forall op: OperatorName ensures HasOperator(value.entries, op) ==> Property(value.entries, op.Key()).Some? {
      }
      assert HasOperator(value.entries, ContainsText) <==> Property(value.entries, "contains").Some?;
      assert HasOperator(value.entries, AtLeast) <==> Property(value.entries, "gte").Some?;
      assert HasOperator(value.entries, AtMost) <==> Property(value.entries, "lte").Some?;
      assert HasOperator(value.entries, NotEqual) <==> Property(value.entries, "not").Some?;
      assert HasOperator(value.entries, MemberOf) <==>
             Property(value.entries, "in").Some? && Property(value.entries, "in").value.List?;
    }
  }

  /** A row that meets an unmixed entry is always asked for; for simple entries only such a row is. */
  lemma {:induction false} AskedIsMeant(s: Setting, table: string, row: Row, e: Entry)
    requires Unmixed(table, e)
    ensures Meets(s, table, row, e) ==> Asks(s, table, row, e)
    ensures Simple(table, e) && Asks(s, table, row, e) ==> Meets(s, table, row, e)
    decreases e, 0
  {
    if IsOr(e) {
      if Blank(e) {
        BlankIsMet(s, table, row, e);
      } else {
        forall i | 0 <= i < |e.value.items|
          ensures Satisfies(s, table, row, e.value.items[i].entries) ==>
              AsksSome(s, table, row, e.value.items[i].entries)
          ensures Simple(table, e) && AsksSome(s, table, row, e.value.items[i].entries) ==>
                  Satisfies(s, table, row, e.value.items[i].entries)
        {
          AlternativeIsMeant(s, table, row, e.value.items[i].entries);
        }
      }
    } else if IsRelational(table, e) {
      var inner := Relation(table, e.key).value.0;
      forall parent: Row
        ensures Satisfies(s, inner, parent, e.value.entries) ==> AsksAll(s, inner, parent, e.value.entries)
        ensures Simple(table, e) && AsksAll(s, inner, parent, e.value.entries) ==>
            Satisfies(s, inner, parent, e.value.entries)
      {
        AllAskedIsMeant(s, inner, parent, e.value.entries);
      }
    } else {
      ChosenIsOneOperator(s.compare, Cell(row, NormalizeColumn(table, e.key)), e.value);
    }
  }

  lemma {:induction false} AllAskedIsMeant(s: Setting, table: string, row: Row, where: seq<Entry>)
    requires AllUnmixed(table, where)
    ensures Satisfies(s, table, row, where) ==> AsksAll(s, table, row, where)
    ensures AllSimple(table, where) && AsksAll(s, table, row, where) ==> Satisfies(s, table, row, where)
    decreases where, 0
  {
    forall i | 0 <= i < |where|
      ensures Meets(s, table, row, where[i]) ==> Asks(s, table, row, where[i])
      ensures Simple(table, where[i]) && Asks(s, table, row, where[i]) ==> Meets(s, table, row, where[i])
    {
      AskedIsMeant(s, table, row, where[i]);
    }
  }

  lemma {:induction false} AlternativeIsMeant(s: Setting, table: string, row: Row, entries: seq<Entry>)
    requires AllUnmixed(table, entries) && !AllBlank(entries)
    ensures Satisfies(s, table, row, entries) ==> AsksSome(s, table, row, entries)
    ensures |entries| <= 1 && AllSimple(table, entries) && AsksSome(s, table, row, entries) ==>
            Satisfies(s, table, row, entries)
    decreases entries, 1
  {
    AllAskedIsMeant(s, table, row, entries);
  }
}
