/** The scope builders of `query-builders.ts`, and what merged scopes select from the assets. */
module QueryScopes {
  import opened Wrappers
  import opened WhereObjects
  import opened SqlText
  import opened SqlMeaning
  import opened WhereCompiler
  import opened WhereCorrectness
  import opened AssetQueries

  type Scope = seq<Entry>

  function TextOf(s: string): Json {
    Atom(Text(s))
  }

  /** `{ [key]: value }` */
  function Single(key: string, value: Json): Json {
    Object([Entry(key, value)])
  }

  // ---------- Builders ----------

  function ExtraConditions(extra: seq<Entry>): seq<Json> {
    if extra == [] then []
    else (if extra[0].value.Null? then [] else [Single(extra[0].key, extra[0].value)]) + ExtraConditions(extra[1..])
  }

  function CompanyScope(companyId: string, extra: seq<Entry>): Scope {
    [Entry("AND", List([Single("companyId", TextOf(companyId))] + ExtraConditions(extra)))]
  }

  method BuildCompanyScope(companyId: string, extra: seq<Entry>) returns (scope: Scope)
    ensures scope == CompanyScope(companyId, extra)
  {
    var conditions := [Single("companyId", TextOf(companyId))];
    var i := 0;
    while i < |extra|
      invariant 0 <= i <= |extra|
      invariant conditions + ExtraConditions(extra[i..]) ==
        [Single("companyId", TextOf(companyId))] + ExtraConditions(extra)
    {
      assert extra[i..][0] == extra[i] && extra[i..][1..] == extra[i + 1..];
      if !extra[i].value.Null? {
        conditions := conditions + [Single(extra[i].key, extra[i].value)];
      }
      i := i + 1;
    }
    assert conditions + [] == conditions;
    return [Entry("AND", List(conditions))];
  }

  datatype StatusFilter = AnyStatus | OneStatus(status: string) | StatusIn(statuses: seq<string>)

  /** Absent and empty strings are alike: both are falsy. */
  datatype AssetFilters = AssetFilters(
    assetType: string,
    status: StatusFilter,
    enrollmentStatus: string,
    complianceStatus: string,
    assignedUser: string,
    serialNumber: string)

  datatype TicketFilters = TicketFilters(
    status: StatusFilter,
    priority: string,
    assignedToId: string,
    ticketType: string,
    createdById: string)

  function Texts(items: seq<string>): (r: seq<Json>)
    ensures |r| == |items| && forall i :: 0 <= i < |items| ==> r[i] == TextOf(items[i])
  {
    seq(|items|, i requires 0 <= i < |items| => TextOf(items[i]))
  }

  function StatusValue(status: StatusFilter): Option<Json> {
    match status
    case AnyStatus => None
    case OneStatus(text) => if text == "" then None else Some(TextOf(text))
    case StatusIn(items) => Some(Object([Entry("in", List(Texts(items)))]))
  }

  function TextCondition(key: string, text: string): seq<Json> {
    if text == "" then [] else [Single(key, TextOf(text))]
  }

  function StatusCondition(status: StatusFilter): seq<Json> {
    var value := StatusValue(status);
    if value.None? then [] else [Single("status", value.value)]
  }

  function ContainsCondition(key: string, text: string): seq<Json> {
    if text == "" then [] else [Single(key, Object([Entry("contains", TextOf(text))]))]
  }

  function AssetConditions(companyId: string, f: AssetFilters): seq<Json> {
    [Single("companyId", TextOf(companyId))] + TextCondition("assetType", f.assetType) + StatusCondition(f.status) +
    TextCondition("enrollmentStatus", f.enrollmentStatus) + TextCondition("complianceStatus", f.complianceStatus) +
    TextCondition("assignedUser", f.assignedUser) + ContainsCondition("serialNumber", f.serialNumber)
  }

  function TicketConditions(companyId: string, f: TicketFilters): seq<Json> {
    [Single("companyId", TextOf(companyId))] + StatusCondition(f.status) + TextCondition("priority", f.priority) +
    TextCondition("assignedToId", f.assignedToId) + TextCondition("type", f.ticketType) +
    TextCondition("createdById", f.createdById)
  }

  method BuildAssetScope(companyId: string, filters: AssetFilters) returns (scope: Scope)
    ensures scope == [Entry("AND", List(AssetConditions(companyId, filters)))]
    ensures SupportedScope(scope)
    ensures forall compare: Comparisons, row: Row ::
      ScopeMeets(compare, row, scope) <==> AssetFilterMeets(compare, row, companyId, filters)
  {
    hide SupportedScope, ScopeMeets, AssetFilterMeets, Single, TextOf;
    var conditions := [Single("companyId", TextOf(companyId))];
    ghost var c0 := conditions;
    if filters.assetType != "" {
      conditions := conditions + [Single("assetType", TextOf(filters.assetType))];
    }
    ghost var c1 := c0 + TextCondition("assetType", filters.assetType);
    assert conditions == c1;
    var status := StatusValue(filters.status);
    if status.Some? {
      conditions := conditions + [Single("status", status.value)];
    }
    ghost var c2 := c1 + StatusCondition(filters.status);
    assert conditions == c2;
    if filters.enrollmentStatus != "" {
      conditions := conditions + [Single("enrollmentStatus", TextOf(filters.enrollmentStatus))];
    }
    ghost var c3 := c2 + TextCondition("enrollmentStatus", filters.enrollmentStatus);
    assert conditions == c3;
    if filters.complianceStatus != "" {
      conditions := conditions + [Single("complianceStatus", TextOf(filters.complianceStatus))];
    }
    ghost var c4 := c3 + TextCondition("complianceStatus", filters.complianceStatus);
    assert conditions == c4;
    if filters.assignedUser != "" {
      conditions := conditions + [Single("assignedUser", TextOf(filters.assignedUser))];
    }
    ghost var c5 := c4 + TextCondition("assignedUser", filters.assignedUser);
    assert conditions == c5;
    if filters.serialNumber != "" {
      conditions := conditions + [Single("serialNumber", Object([Entry("contains", TextOf(filters.serialNumber))]))];
    }
    assert conditions == c5 + ContainsCondition("serialNumber", filters.serialNumber);
    scope := [Entry("AND", List(conditions))];
    AssetScopeMeans(companyId, filters);
  }

  method BuildTicketScope(companyId: string, filters: TicketFilters) returns (scope: Scope)
    ensures scope == [Entry("AND", List(TicketConditions(companyId, filters)))]
    ensures SupportedScope(scope)
    ensures forall compare: Comparisons, row: Row ::
      ScopeMeets(compare, row, scope) <==> TicketFilterMeets(compare, row, companyId, filters)
  {
    hide SupportedScope, ScopeMeets, TicketFilterMeets, Single, TextOf;
    var conditions := [Single("companyId", TextOf(companyId))];
    ghost var c0 := conditions;
    var status := StatusValue(filters.status);
    if status.Some? {
      conditions := conditions + [Single("status", status.value)];
    }
    ghost var c1 := c0 + StatusCondition(filters.status);
    assert conditions == c1;
    if filters.priority != "" {
      conditions := conditions + [Single("priority", TextOf(filters.priority))];
    }
    ghost var c2 := c1 + TextCondition("priority", filters.priority);
    assert conditions == c2;
    if filters.assignedToId != "" {
      conditions := conditions + [Single("assignedToId", TextOf(filters.assignedToId))];
    }
    ghost var c3 := c2 + TextCondition("assignedToId", filters.assignedToId);
    assert conditions == c3;
    if filters.ticketType != "" {
      conditions := conditions + [Single("type", TextOf(filters.ticketType))];
    }
    ghost var c4 := c3 + TextCondition("type", filters.ticketType);
    assert conditions == c4;
    if filters.createdById != "" {
      conditions := conditions + [Single("createdById", TextOf(filters.createdById))];
    }
    assert conditions == c4 + TextCondition("createdById", filters.createdById);
    scope := [Entry("AND", List(conditions))];
    TicketScopeMeans(companyId, filters);
  }

  // ---------- Meaning of scopes ----------

  predicate Equals(compare: Comparisons, cell: Json, text: string) {
    !cell.Null? && compare.equal(cell, TextOf(text))
  }

  predicate StatusMeets(compare: Comparisons, cell: Json, status: StatusFilter) {
    match status
    case AnyStatus => true
    case OneStatus(text) => text == "" || Equals(compare, cell, text)
    case StatusIn(items) => exists i | 0 <= i < |items| :: Equals(compare, cell, items[i])
  }

  predicate AssetFilterMeets(compare: Comparisons, row: Row, companyId: string, f: AssetFilters) {
    Equals(compare, Cell(row, "companyId"), companyId) &&
    (f.assetType == "" || Equals(compare, Cell(row, "assetType"), f.assetType)) &&
    StatusMeets(compare, Cell(row, "status"), f.status) &&
    (f.enrollmentStatus == "" || Equals(compare, Cell(row, "enrollmentStatus"), f.enrollmentStatus)) &&
    (f.complianceStatus == "" || Equals(compare, Cell(row, "complianceStatus"), f.complianceStatus)) &&
    (f.assignedUser == "" || Equals(compare, Cell(row, "assignedUser"), f.assignedUser)) &&
    (f.serialNumber == "" ||
     (!Cell(row, "serialNumber").Null? && compare.contains(Cell(row, "serialNumber"), TextOf(f.serialNumber))))
  }

  predicate TicketFilterMeets(compare: Comparisons, row: Row, companyId: string, f: TicketFilters) {
    Equals(compare, Cell(row, "companyId"), companyId) &&
    StatusMeets(compare, Cell(row, "status"), f.status) &&
    (f.priority == "" || Equals(compare, Cell(row, "priority"), f.priority)) &&
    (f.assignedToId == "" || Equals(compare, Cell(row, "assignedToId"), f.assignedToId)) &&
    (f.ticketType == "" || Equals(compare, Cell(row, "type"), f.ticketType)) &&
    (f.createdById == "" || Equals(compare, Cell(row, "createdById"), f.createdById))
  }

  predicate EntriesMeet(compare: Comparisons, row: Row, entries: seq<Entry>) {
    forall i | 0 <= i < |entries| :: MeetsCell(compare, Cell(row, entries[i].key), entries[i].value)
  }

  predicate ConditionsMeet(compare: Comparisons, row: Row, items: seq<Json>) {
    forall i | 0 <= i < |items| :: items[i].Object? && EntriesMeet(compare, row, items[i].entries)
  }

  predicate ScopeMeets(compare: Comparisons, row: Row, scope: Scope) {
    forall i | 0 <= i < |scope| ::
      if IsAnd(scope[i]) then ConditionsMeet(compare, row, scope[i].value.items)
      else MeetsCell(compare, Cell(row, scope[i].key), scope[i].value)
  }

  predicate FlatEntries(entries: seq<Entry>) {
    forall i | 0 <= i < |entries| :: FlatValue(entries[i].value) && !IsAnd(entries[i]) && !IsOr(entries[i])
  }

  predicate FlatConditions(items: seq<Json>) {
    forall i | 0 <= i < |items| :: items[i].Object? && FlatEntries(items[i].entries)
  }

  /** A flat scope, or one AND list of flat conditions and nothing beside it. */
  predicate SupportedScope(scope: Scope) {
    if |scope| == 1 && IsAnd(scope[0]) then FlatConditions(scope[0].value.items) else FlatEntries(scope)
  }

  lemma SingleMeets(compare: Comparisons, row: Row, key: string, value: Json)
    ensures EntriesMeet(compare, row, Single(key, value).entries) <==> MeetsCell(compare, Cell(row, key), value)
  {
    assert Single(key, value).entries[0] == Entry(key, value);
  }

  lemma {:induction false} ConditionsChain(compare: Comparisons, row: Row, a: seq<Json>, b: seq<Json>)
    ensures ConditionsMeet(compare, row, a + b) <==> ConditionsMeet(compare, row, a) && ConditionsMeet(compare, row, b)
    ensures FlatConditions(a + b) <==> FlatConditions(a) && FlatConditions(b)
  {
    hide EntriesMeet, FlatEntries;
    assert forall i | 0 <= i < |a| :: (a + b)[i] == a[i];
    assert forall i | 0 <= i < |b| :: (a + b)[|a| + i] == b[i];
  }

  lemma TextConditionMeets(compare: Comparisons, row: Row, key: string, text: string)
    requires key != "AND" && key != "OR"
    ensures ConditionsMeet(compare, row, TextCondition(key, text)) <==>
        text == "" || Equals(compare, Cell(row, key), text)
    ensures FlatConditions(TextCondition(key, text))
  {
    if text != "" {
      SingleMeets(compare, row, key, TextOf(text));
      assert TextCondition(key, text)[0] == Single(key, TextOf(text));
    }
  }

  lemma StatusConditionMeets(compare: Comparisons, row: Row, status: StatusFilter)
    ensures ConditionsMeet(compare, row, StatusCondition(status)) <==> StatusMeets(compare, Cell(row, "status"), status)
    ensures FlatConditions(StatusCondition(status))
  {
    var conditions := StatusCondition(status);
    if conditions != [] {
      var value := StatusValue(status).value;
      SingleMeets(compare, row, "status", value);
      assert conditions[0] == Single("status", value);
      if status.StatusIn? {
        InValueMeets(compare, Cell(row, "status"), status.statuses);
      }
    }
  }

  lemma OneKeyOperator(op: OperatorName, operand: Json)
    requires op.MemberOf? ==> operand.List?
    ensures
      var entries := [Entry(op.Key(), operand)];
      Property(entries, op.Key()) == Some(operand) && HasOperator(entries, op) &&
      forall other: OperatorName | other != op :: Property(entries, other.Key()).None? && !HasOperator(entries, other)
  {
    var entries := [Entry(op.Key(), operand)];
    assert entries[1..] == [];
  }

  lemma InValueMeets(compare: Comparisons, cell: Json, items: seq<string>)
    ensures
      var value := Object([Entry("in", List(Texts(items)))]);
      FlatValue(value) && (MeetsCell(compare, cell, value) <==> exists i | 0 <= i < |items| ::
        Equals(compare, cell, items[i]))
  {
    var value := Object([Entry("in", List(Texts(items)))]);
    OneKeyOperator(MemberOf, List(Texts(items)));
    assert MeetsCell(compare, cell, value) <==> !cell.Null? && ListHas(compare, cell, Texts(items));
    if i :| 0 <= i < |items| && Equals(compare, cell, items[i]) {
      assert Texts(items)[i] == TextOf(items[i]);
    }
    if !cell.Null? && ListHas(compare, cell, Texts(items)) {
      var i :| 0 <= i < |Texts(items)| && !Texts(items)[i].Null? && compare.equal(cell, Texts(items)[i]);
      assert Equals(compare, cell, items[i]);
    }
  }

  lemma ContainsConditionMeets(compare: Comparisons, row: Row, key: string, text: string)
    requires key != "AND" && key != "OR"
    ensures ConditionsMeet(compare, row, ContainsCondition(key, text)) <==>
            text == "" || (!Cell(row, key).Null? && compare.contains(Cell(row, key), TextOf(text)))
    ensures FlatConditions(ContainsCondition(key, text))
  {
    if text != "" {
      var value := Object([Entry("contains", TextOf(text))]);
      ContainsValueMeets(compare, Cell(row, key), text);
      SingleMeets(compare, row, key, value);
      assert ContainsCondition(key, text)[0] == Single(key, value);
    }
  }

  lemma ContainsValueMeets(compare: Comparisons, cell: Json, text: string)
    ensures
      var value := Object([Entry("contains", TextOf(text))]);
      FlatValue(value) && (MeetsCell(compare, cell, value) <==> !cell.Null? && compare.contains(cell, TextOf(text)))
  {
    var value := Object([Entry("contains", TextOf(text))]);
    OneKeyOperator(ContainsText, TextOf(text));
    assert Property(value.entries, AtLeast.Key()).None? && Property(value.entries, AtMost.Key()).None?;
    assert Property(value.entries, NotEqual.Key()).None? && Property(value.entries, MemberOf.Key()).None?;
  }

  lemma ScopeIsConditions(compare: Comparisons, row: Row, conditions: seq<Json>)
    ensures ScopeMeets(compare, row, [Entry("AND", List(conditions))]) <==> ConditionsMeet(compare, row, conditions)
    ensures SupportedScope([Entry("AND", List(conditions))]) <==> FlatConditions(conditions)
  {
    var scope := [Entry("AND", List(conditions))];
    assert scope[0] == Entry("AND", List(conditions));
  }

  lemma AssetScopeMeans(companyId: string, f: AssetFilters)
    ensures SupportedScope([Entry("AND", List(AssetConditions(companyId, f)))])
    ensures forall compare: Comparisons, row: Row ::
      ScopeMeets(compare, row, [Entry("AND", List(AssetConditions(companyId, f)))]) <==>
      AssetFilterMeets(compare, row, companyId, f)
  {
    hide *;
    AssetScopeMeansFor(ANY_RULES, map[], companyId, f);
    forall compare: Comparisons, row: Row
      ensures ScopeMeets(compare, row, [Entry("AND", List(AssetConditions(companyId, f)))]) <==>
              AssetFilterMeets(compare, row, companyId, f)
    {
      AssetScopeMeansFor(compare, row, companyId, f);
    }
  }

  const ANY_RULES := Comparisons((a: Json, b: Json) => true, (a: Json, b: Json) => true, (a: Json, b: Json) => true)

  lemma AssetScopeMeansFor(compare: Comparisons, row: Row, companyId: string, f: AssetFilters)
    ensures SupportedScope([Entry("AND", List(AssetConditions(companyId, f)))])
    ensures ScopeMeets(compare, row, [Entry("AND", List(AssetConditions(companyId, f)))]) <==>
            AssetFilterMeets(compare, row, companyId, f)
  {
    hide ConditionsMeet, FlatConditions, Equals, StatusMeets, Cell, ScopeMeets, SupportedScope, TextCondition,
         StatusCondition, ContainsCondition, Single;
    var c0 := [Single("companyId", TextOf(companyId))];
    var c1 := c0 + TextCondition("assetType", f.assetType);
    var c2 := c1 + StatusCondition(f.status);
    var c3 := c2 + TextCondition("enrollmentStatus", f.enrollmentStatus);
    var c4 := c3 + TextCondition("complianceStatus", f.complianceStatus);
    var c5 := c4 + TextCondition("assignedUser", f.assignedUser);
    CompanyConditionMeets(compare, row, companyId);
    ConditionsChain(compare, row, c0, TextCondition("assetType", f.assetType));
    ConditionsChain(compare, row, c1, StatusCondition(f.status));
    ConditionsChain(compare, row, c2, TextCondition("enrollmentStatus", f.enrollmentStatus));
    ConditionsChain(compare, row, c3, TextCondition("complianceStatus", f.complianceStatus));
    ConditionsChain(compare, row, c4, TextCondition("assignedUser", f.assignedUser));
    ConditionsChain(compare, row, c5, ContainsCondition("serialNumber", f.serialNumber));
    TextConditionMeets(compare, row, "assetType", f.assetType);
    StatusConditionMeets(compare, row, f.status);
    TextConditionMeets(compare, row, "enrollmentStatus", f.enrollmentStatus);
    TextConditionMeets(compare, row, "complianceStatus", f.complianceStatus);
    TextConditionMeets(compare, row, "assignedUser", f.assignedUser);
    ContainsConditionMeets(compare, row, "serialNumber", f.serialNumber);
    ScopeIsConditions(compare, row, AssetConditions(companyId, f));
  }

  lemma CompanyConditionMeets(compare: Comparisons, row: Row, companyId: string)
    ensures
      var conditions := [Single("companyId", TextOf(companyId))];
      FlatConditions(conditions) &&
      (ConditionsMeet(compare, row, conditions) <==> Equals(compare, Cell(row, "companyId"), companyId))
  {
    SingleMeets(compare, row, "companyId", TextOf(companyId));
    assert [Single("companyId", TextOf(companyId))][0] == Single("companyId", TextOf(companyId));
  }

  lemma TicketScopeMeans(companyId: string, f: TicketFilters)
    ensures SupportedScope([Entry("AND", List(TicketConditions(companyId, f)))])
    ensures forall compare: Comparisons, row: Row ::
      ScopeMeets(compare, row, [Entry("AND", List(TicketConditions(companyId, f)))]) <==>
      TicketFilterMeets(compare, row, companyId, f)
  {
    hide *;
    TicketScopeMeansFor(ANY_RULES, map[], companyId, f);
    forall compare: Comparisons, row: Row
      ensures ScopeMeets(compare, row, [Entry("AND", List(TicketConditions(companyId, f)))]) <==>
              TicketFilterMeets(compare, row, companyId, f)
    {
      TicketScopeMeansFor(compare, row, companyId, f);
    }
  }

  lemma TicketScopeMeansFor(compare: Comparisons, row: Row, companyId: string, f: TicketFilters)
    ensures SupportedScope([Entry("AND", List(TicketConditions(companyId, f)))])
    ensures ScopeMeets(compare, row, [Entry("AND", List(TicketConditions(companyId, f)))]) <==>
            TicketFilterMeets(compare, row, companyId, f)
  {
    hide ConditionsMeet, FlatConditions, Equals, StatusMeets, Cell, ScopeMeets, SupportedScope, TextCondition,
         StatusCondition, Single;
    var c0 := [Single("companyId", TextOf(companyId))];
    var c1 := c0 + StatusCondition(f.status);
    var c2 := c1 + TextCondition("priority", f.priority);
    var c3 := c2 + TextCondition("assignedToId", f.assignedToId);
    var c4 := c3 + TextCondition("type", f.ticketType);
    CompanyConditionMeets(compare, row, companyId);
    ConditionsChain(compare, row, c0, StatusCondition(f.status));
    ConditionsChain(compare, row, c1, TextCondition("priority", f.priority));
    ConditionsChain(compare, row, c2, TextCondition("assignedToId", f.assignedToId));
    ConditionsChain(compare, row, c3, TextCondition("type", f.ticketType));
    ConditionsChain(compare, row, c4, TextCondition("createdById", f.createdById));
    StatusConditionMeets(compare, row, f.status);
    TextConditionMeets(compare, row, "priority", f.priority);
    TextConditionMeets(compare, row, "assignedToId", f.assignedToId);
    TextConditionMeets(compare, row, "type", f.ticketType);
    TextConditionMeets(compare, row, "createdById", f.createdById);
    ScopeIsConditions(compare, row, TicketConditions(companyId, f));
  }

  // ---------- Merging ----------

  /** What one scope contributes: its AND list if it has one, else itself unless it is empty. */
  function Contribution(scope: Scope): seq<Json> {
    var and := Property(scope, "AND");
    if and.Some? && and.value.List? then and.value.items
    else if scope != [] then [Object(scope)]
    else []
  }

  function Contributions(scopes: seq<Scope>): seq<Json> {
    if scopes == [] then [] else Contribution(scopes[0]) + Contributions(scopes[1..])
  }

  function Merged(conditions: seq<Json>): Scope {
    if conditions == [] then []
    else if |conditions| == 1 && conditions[0].Object? then conditions[0].entries
    else [Entry("AND", List(conditions))]
  }

  method MergeScopes(scopes: seq<Scope>) returns (merged: Scope)
    ensures merged == Merged(Contributions(scopes))
  {
    hide Contribution, Merged;
    var all: seq<Json> := [];
    var i := 0;
    while i < |scopes|
      invariant 0 <= i <= |scopes|
      invariant all + Contributions(scopes[i..]) == Contributions(scopes)
    {
      assert scopes[i..][0] == scopes[i] && scopes[i..][1..] == scopes[i + 1..];
      assert all + (Contribution(scopes[i]) + Contributions(scopes[i + 1..])) ==
             (all + Contribution(scopes[i])) + Contributions(scopes[i + 1..]);
      all := all + Contribution(scopes[i]);
      i := i + 1;
    }
    assert all + [] == all;
    return Merged(all);
  }

  lemma ContributionMeets(compare: Comparisons, row: Row, scope: Scope)
    requires SupportedScope(scope)
    ensures FlatConditions(Contribution(scope))
    ensures ConditionsMeet(compare, row, Contribution(scope)) <==> ScopeMeets(compare, row, scope)
  {
    if |scope| == 1 && IsAnd(scope[0]) {
      assert Property(scope, "AND") == Some(scope[0].value);
      ScopeIsConditions(compare, row, scope[0].value.items);
      assert scope == [Entry("AND", List(scope[0].value.items))];
    } else {
      NoAndProperty(scope);
    }
  }

  lemma {:induction false} NoAndProperty(scope: Scope)
    requires FlatEntries(scope)
    ensures Property(scope, "AND").None? || !Property(scope, "AND").value.List?
  {
    if scope != [] && scope[0].key != "AND" {
      assert forall i | 0 <= i < |scope[1..]| :: scope[1..][i] == scope[i + 1];
      NoAndProperty(scope[1..]);
    }
  }

  predicate AllScopesMeet(compare: Comparisons, row: Row, scopes: seq<Scope>) {
    forall i | 0 <= i < |scopes| :: ScopeMeets(compare, row, scopes[i])
  }

  lemma {:induction false} ContributionsMeet(compare: Comparisons, row: Row, scopes: seq<Scope>)
    requires forall i | 0 <= i < |scopes| :: SupportedScope(scopes[i])
    ensures FlatConditions(Contributions(scopes))
    ensures ConditionsMeet(compare, row, Contributions(scopes)) <==> AllScopesMeet(compare, row, scopes)
  {
    if scopes != [] {
      hide ConditionsMeet, FlatConditions, ScopeMeets, SupportedScope, Contribution;
      ContributionMeets(compare, row, scopes[0]);
      ContributionsMeet(compare, row, scopes[1..]);
      ConditionsChain(compare, row, Contribution(scopes[0]), Contributions(scopes[1..]));
      assert forall i | 0 < i < |scopes| :: scopes[i] == scopes[1..][i - 1];
      assert forall i | 0 <= i < |scopes[1..]| :: scopes[1..][i] == scopes[i + 1];
    } else {
      EmptyConditions(compare, row);
    }
  }

  lemma EmptyConditions(compare: Comparisons, row: Row)
    ensures FlatConditions([]) && ConditionsMeet(compare, row, [])
  {
  }

  lemma {:induction false} FlattenedMeets(compare: Comparisons, row: Row, items: seq<Json>)
    requires FlatConditions(items)
    ensures Flattened(items).Success?
    ensures
      var flat := Flattened(items).value;
      (forall i | 0 <= i < |flat| :: FlatAsks(compare, row, InAnd, flat[i])) <==> ConditionsMeet(compare, row, items)
  {
    if items != [] {
      hide FlatAsks, EntriesMeet, FlatEntries, ConditionsMeet;
      var head := items[0].entries;
      assert forall i | 0 <= i < |items[1..]| :: items[1..][i] == items[i + 1];
      FlattenedMeets(compare, row, items[1..]);
      var flat, tail := Flattened(items).value, Flattened(items[1..]).value;
      assert flat == head + tail;
      EntriesAsk(compare, row, head);
      assert forall i | 0 <= i < |head| :: flat[i] == head[i];
      assert forall i | 0 <= i < |tail| :: flat[|head| + i] == tail[i];
      ConditionsChain(compare, row, [items[0]], items[1..]);
      OneCondition(compare, row, items[0]);
      assert [items[0]] + items[1..] == items;
    } else {
      EmptyConditions(compare, row);
    }
  }

  lemma OneCondition(compare: Comparisons, row: Row, item: Json)
    requires item.Object?
    ensures ConditionsMeet(compare, row, [item]) <==> EntriesMeet(compare, row, item.entries)
  {
    assert [item][0] == item;
  }

  lemma EntriesAsk(compare: Comparisons, row: Row, entries: seq<Entry>)
    requires FlatEntries(entries)
    ensures (forall i | 0 <= i < |entries| :: FlatAsks(compare, row, InAnd, entries[i])) <==>
        EntriesMeet(compare, row, entries)
  {
    forall i | 0 <= i < |entries|
      ensures FlatAsks(compare, row, InAnd, entries[i]) <==>
          MeetsCell(compare, Cell(row, entries[i].key), entries[i].value)
    {
      FlatConditionMeans(compare, Cell(row, entries[i].key), entries[i].value);
    }
  }

  /** Merged conditions ask for exactly the rows meeting all of them, unless one lone condition holds an `in`. */
  lemma MergedMeets(compare: Comparisons, row: Row, conditions: seq<Json>)
    requires FlatConditions(conditions)
    requires |conditions| == 1 ==> forall i | 0 <= i < |conditions[0].entries| :: !HasIn(conditions[0].entries[i].value)
    ensures AssetAsksAll(compare, row, Merged(conditions)) <==> ConditionsMeet(compare, row, conditions)
  {
    var merged := Merged(conditions);
    if |conditions| == 1 {
      var entries := conditions[0].entries;
      forall i | 0 <= i < |entries|
        ensures AssetAsks(compare, row, entries[i]) <==> MeetsCell(compare, Cell(row, entries[i].key), entries[i].value)
      {
        FlatConditionMeans(compare, Cell(row, entries[i].key), entries[i].value);
      }
    } else if conditions != [] {
      FlattenedMeets(compare, row, conditions);
      assert merged[0] == Entry("AND", List(conditions));
    }
  }

  /**
   The assets selected through a company scope merged with any list of scopes are exactly the company's rows that
   meet the additional conditions and every scope.
   */
  lemma CompanyScopeSelectsIntersection(s: Setting, companyId: string, extra: seq<Entry>, scopes: seq<Scope>, row: Row)
    requires FlatEntries(extra) && forall i | 0 <= i < |scopes| :: SupportedScope(scopes[i])
    requires CompileAsset(Merged(Contributions([CompanyScope(companyId, extra)] + scopes))).Success?
    ensures
      var compiled := CompileAsset(Merged(Contributions([CompanyScope(companyId, extra)] + scopes))).value;
      var read := ReadWhere(Join(compiled.clauses, And));
      read.Some? &&
      (Selects(World(s.compare, s.database, compiled.params), "Asset", row, read.value) <==>
       Equals(s.compare, Cell(row, "companyId"), companyId) && ExtraMeet(s.compare, row, extra) &&
       AllScopesMeet(s.compare, row, scopes))
  {
    hide *;
    var conditions := Contributions([CompanyScope(companyId, extra)] + scopes);
    CompanyContributionsMeet(s.compare, row, companyId, extra, scopes);
    CompanyFirst(companyId, extra, scopes);
    LoneCompanyCondition(companyId, conditions);
    MergedMeets(s.compare, row, conditions);
    MergedSpeaks(conditions, companyId);
    AssetTextMeans(s, Merged(conditions), row);
  }

  lemma CompanyContributionsMeet(compare: Comparisons, row: Row, companyId: string, extra: seq<Entry>,
        scopes: seq<Scope>)
    requires FlatEntries(extra) && forall i | 0 <= i < |scopes| :: SupportedScope(scopes[i])
    ensures
      var conditions := Contributions([CompanyScope(companyId, extra)] + scopes);
      FlatConditions(conditions) &&
      (ConditionsMeet(compare, row, conditions) <==>
       Equals(compare, Cell(row, "companyId"), companyId) && ExtraMeet(compare, row, extra) &&
       AllScopesMeet(compare, row, scopes))
  {
    hide ScopeMeets, SupportedScope, ConditionsMeet, FlatConditions, Equals, ExtraMeet, CompanyScope, Contributions;
    var own := CompanyScope(companyId, extra);
    var all := [own] + scopes;
    CompanyScopeMeets(compare, row, companyId, extra);
    assert all[0] == own && forall i | 0 <= i < |scopes| :: all[i + 1] == scopes[i];
    ContributionsMeet(compare, row, all);
  }

  lemma LoneCompanyCondition(companyId: string, conditions: seq<Json>)
    requires conditions != [] && conditions[0] == Single("companyId", TextOf(companyId))
    ensures forall i | 0 <= i < |conditions[0].entries| :: !HasIn(conditions[0].entries[i].value)
  {
  }

  /** Every additional condition that is not null. */
  predicate ExtraMeet(compare: Comparisons, row: Row, extra: seq<Entry>) {
    forall i | 0 <= i < |extra| :: extra[i].value.Null? || MeetsCell(compare, Cell(row, extra[i].key), extra[i].value)
  }

  lemma {:induction false} ExtraConditionsMeet(compare: Comparisons, row: Row, extra: seq<Entry>)
    requires FlatEntries(extra)
    ensures FlatConditions(ExtraConditions(extra))
    ensures ConditionsMeet(compare, row, ExtraConditions(extra)) <==> ExtraMeet(compare, row, extra)
  {
    hide *;
    ExtraHead(compare, row, extra);
    if extra == [] {
      EmptyConditions(compare, row);
    } else {
      ExtraConditionsMeet(compare, row, extra[1..]);
      OneExtra(compare, row, extra[0]);
      ConditionsChain(compare, row, OneExtraCondition(extra[0]), ExtraConditions(extra[1..]));
    }
  }

  function OneExtraCondition(e: Entry): seq<Json> {
    if e.value.Null? then [] else [Single(e.key, e.value)]
  }

  lemma ExtraHead(compare: Comparisons, row: Row, extra: seq<Entry>)
    requires FlatEntries(extra)
    ensures extra == [] ==> ExtraConditions(extra) == [] && ExtraMeet(compare, row, extra)
    ensures extra != [] ==>
      ExtraConditions(extra) == OneExtraCondition(extra[0]) + ExtraConditions(extra[1..]) && FlatEntries(extra[1..]) &&
      FlatValue(extra[0].value) && !IsAnd(extra[0]) && !IsOr(extra[0]) &&
      (ExtraMeet(compare, row, extra) <==>
       (extra[0].value.Null? || MeetsCell(compare, Cell(row, extra[0].key), extra[0].value)) &&
         ExtraMeet(compare, row, extra[1..]))
  {
    hide FlatValue, MeetsCell, IsAnd, IsOr, Single, Cell;
    if extra != [] {
      assert forall i | 0 <= i < |extra[1..]| :: extra[1..][i] == extra[i + 1];
      assert forall i | 0 < i < |extra| :: extra[i] == extra[1..][i - 1];
    }
  }

  lemma OneExtra(compare: Comparisons, row: Row, e: Entry)
    requires FlatValue(e.value) && !IsAnd(e) && !IsOr(e)
    ensures FlatConditions(OneExtraCondition(e))
    ensures ConditionsMeet(compare, row, OneExtraCondition(e)) <==>
            e.value.Null? || MeetsCell(compare, Cell(row, e.key), e.value)
  {
    hide FlatValue, MeetsCell;
    if !e.value.Null? {
      SingleMeets(compare, row, e.key, e.value);
      assert OneExtraCondition(e)[0] == Single(e.key, e.value);
    }
  }

  lemma CompanyScopeMeets(compare: Comparisons, row: Row, companyId: string, extra: seq<Entry>)
    requires FlatEntries(extra)
    ensures SupportedScope(CompanyScope(companyId, extra))
    ensures ScopeMeets(compare, row, CompanyScope(companyId, extra)) <==>
            Equals(compare, Cell(row, "companyId"), companyId) && ExtraMeet(compare, row, extra)
  {
    hide ConditionsMeet, FlatConditions, ExtraMeet, FlatEntries, ExtraConditions, Equals, ScopeMeets, SupportedScope;
    var company := [Single("companyId", TextOf(companyId))];
    CompanyConditionMeets(compare, row, companyId);
    ExtraConditionsMeet(compare, row, extra);
    ConditionsChain(compare, row, company, ExtraConditions(extra));
    ScopeIsConditions(compare, row, company + ExtraConditions(extra));
  }

  lemma CompanyFirst(companyId: string, extra: seq<Entry>, scopes: seq<Scope>)
    ensures
      var conditions := Contributions([CompanyScope(companyId, extra)] + scopes);
      conditions != [] && conditions[0] == Single("companyId", TextOf(companyId))
  {
    var own := CompanyScope(companyId, extra);
    assert Property(own, "AND") == Some(own[0].value);
    assert ([own] + scopes)[0] == own;
  }

  lemma MergedSpeaks(conditions: seq<Json>, companyId: string)
    requires conditions != [] && conditions[0] == Single("companyId", TextOf(companyId))
    ensures !AllEmpty(Merged(conditions))
  {
    var merged := Merged(conditions);
    if |conditions| == 1 {
      assert !Empty(merged[0]);
    } else {
      assert merged[0] == Entry("AND", List(conditions));
      assert conditions[0].entries != [];
      assert !Empty(merged[0]);
    }
  }

  // ---------- Where merging departs from the intersection ----------

  /**
   A lone scope `{ key: { in: list } }` survives merging as it is, and the asset compiler then compares with the
   object.
   */
  lemma LoneInIsMisread(compare: Comparisons, row: Row, key: string, items: seq<Json>)
    requires key != "AND" && key != "OR"
    ensures
      var value := Object([Entry("in", List(items))]);
      var merged := Merged(Contributions([[Entry(key, value)]]));
      AssetAsksAll(compare, row, merged) <==> !Cell(row, key).Null? && compare.equal(Cell(row, key), value)
  {
    var value := Object([Entry("in", List(items))]);
    var scope: Scope := [Entry(key, value)];
    var scopes: seq<Scope> := [scope];
    assert value.entries[1..] == [] && scope[1..] == [];
    assert scopes[1..] == [];
    assert Property(value.entries, "contains").None?;
    assert Property(scope, "AND").None?;
    assert Contributions([scope]) == [Object(scope)];
    assert Merged([Object(scope)]) == scope;
    assert scope[0] == Entry(key, value);
  }
}
