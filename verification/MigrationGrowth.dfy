/** What statements, migrations and faulty runs keep of a schema on its way to the one of an uninterrupted run. */
module MigrationGrowth {
  import opened MigrationRunner

  // ---------- Statement lists without faults ----------

  /** The statements of the listed migrations that are not applied yet, in order. */
  function Statements(list: seq<Migration>, applied: set<string>): seq<Statement> {
    if list == [] then []
    else (if list[0].name in applied then [] else list[0].statements) + Statements(list[1..], applied)
  }

  /** The statement runs, or finds its column or index already there. */
  predicate Plain(s: Schema, x: Statement) {
    Execute(s, x).Success? || Execute(s, x).error in {DUPLICATE_COLUMN, DUPLICATE_KEY_NAME}
  }

  function Next(s: Schema, x: Statement): Schema {
    if Execute(s, x).Success? then Execute(s, x).value else s
  }

  predicate Fine(s: Schema, xs: seq<Statement>)
    decreases xs
  {
    xs == [] || (Plain(s, xs[0]) && Fine(Next(s, xs[0]), xs[1..]))
  }

  function Fold(s: Schema, xs: seq<Statement>): Schema
    decreases xs
  {
    if xs == [] then s else Fold(Next(s, xs[0]), xs[1..])
  }

  lemma {:induction false} FoldChains(s: Schema, a: seq<Statement>, b: seq<Statement>)
    ensures Fold(s, a + b) == Fold(Fold(s, a), b)
    ensures Fine(s, a + b) <==> Fine(s, a) && Fine(Fold(s, a), b)
    decreases a
  {
    hide Plain, Next;
    if a == [] {
      assert a + b == b;
    } else {
      assert (a + b)[1..] == a[1..] + b;
      FoldChains(Next(s, a[0]), a[1..], b);
    }
  }

  // ---------- What every schema on the way keeps ----------

  predicate Within(a: Schema, b: Schema) {
    forall o | o in a :: o in b && a[o] == b[o]
  }

  predicate Rooted(s: Schema) {
    forall o | o in s :: Table(o.table) in s
  }

  /** A schema the database itself allows. */
  predicate Legal(s: Schema) {
    Rooted(s) && forall o | o in s :: |Indexes(s, o.table)| <= MAX_INDEXES
  }

  /** One definition per created table, added column and added index, and one content per seeded row. */
  predicate Consistent(xs: seq<Statement>) {
    forall x, y | x in xs && y in xs :: (SameTarget(x, y) ==> x == y) && OneContent(x, y)
  }

  predicate SameTarget(x: Statement, y: Statement) {
    if x.CreateTable? then y.CreateTable? && x.table == y.table
    else Adds(x) && Adds(y) && Target(x) == Target(y)
  }

  predicate OneContent(x: Statement, y: Statement) {
    x.InsertIgnore? && y.InsertIgnore? && x.table == y.table ==>
      forall a, b | a in x.rules && b in y.rules :: a.key == b.key ==> a.content == b.content
  }

  predicate Present(s: Schema, x: Statement) {
    Table(x.table) in s && (Adds(x) ==> Target(x) in s)
  }

  /** What a completed statement leaves behind even when its error was tolerated: an index may be missing. */
  predicate Settled(s: Schema, x: Statement) {
    Table(x.table) in s && (x.AddColumn? ==> Target(x) in s)
  }

  /** Where the runs start, what is pending there, and what an uninterrupted run makes of it. */
  datatype Course = Course(start: Schema, xs: seq<Statement>) {
    function End(): Schema {
      Fold(start, xs)
    }
  }

  /** A table made by a run came with all its parts. */
  predicate Closed(c: Course, s: Schema) {
    forall x | x in c.xs && x.CreateTable? && Table(x.table) !in c.start && Table(x.table) in s :: Within(Parts(x), s)
  }

  predicate Created(c: Course, s: Schema, o: Object)
    requires o in s
  {
    exists x | x in c.xs && x.CreateTable? && Table(x.table) !in c.start :: o in Parts(x) && Parts(x)[o] == s[o]
  }

  predicate Added(c: Course, s: Schema, o: Object)
    requires o in s
  {
    exists x | x in c.xs && Adds(x) :: Target(x) == o && Meant(x) == s[o]
  }

  /** The statement can make the index or row. */
  predicate Asks(x: Statement, o: Object) {
    (x.AddIndex? && Target(x) == o) || (x.InsertIgnore? && exists r | r in x.rules :: Row(x.table, r.key) == o)
  }

  predicate AskedFor(xs: seq<Statement>, o: Object) {
    exists x | x in xs :: Asks(x, o)
  }

  /** A derivation all of whose sources can be there at some time. */
  predicate Live(c: Course, x: Statement, r: Derivation)
    requires x.InsertIgnore?
  {
    forall q | q in r.sources :: q.Row? && q.table in x.from && (q in c.start || AskedFor(c.xs, q))
  }

  predicate Seeds(c: Course, x: Statement, o: Object, d: Definition) {
    x.InsertIgnore? && exists r | r in x.rules && Live(c, x, r) :: Row(x.table, r.key) == o && Text(r.content) == d
  }

  predicate Seeded(c: Course, o: Object, d: Definition) {
    exists x | x in c.xs :: Seeds(c, x, o, d)
  }

  /** Every row is from the start or was seeded as meant. */
  predicate RowsAsMeant(c: Course, s: Schema) {
    forall o | o in s && o.Row? && o !in c.start :: Seeded(c, o, s[o])
  }

  /** Every table, column and index is from the start or was made as meant. */
  predicate Explained(c: Course, s: Schema) {
    forall o | o in s && !o.Row? :: o in c.start || Created(c, s, o) || Added(c, s, o)
  }

  predicate Grown(c: Course, done: seq<Statement>, s: Schema) {
    Within(c.start, s) && Legal(s) && Closed(c, s) && Explained(c, s) && RowsAsMeant(c, s) && forall x | x in done ::
      Present(s, x)
  }

  // ---------- Seeded rows ----------

  /** An INSERT IGNORE changes no row that is there, and makes exactly the rows of the derivations that are ready. */
  lemma {:induction false} InsertedRows(there: set<Object>, s: Schema, table: string, from: set<string>,
        rules: seq<Derivation>)
    ensures
      var after := Inserted(there, s, table, from, rules);
      Within(s, after) &&
      (forall r | r in rules && Ready(r, from, there) :: Row(table, r.key) in after) &&
      forall o | o in after && o !in s :: MadeBy(there, table, from, rules, o, after[o])
    decreases rules
  {
    hide Ready;
    if rules != [] {
      var o := Row(table, rules[0].key);
      var next := if Ready(rules[0], from, there) && o !in s then s[o := Text(rules[0].content)] else s;
      InsertedRows(there, next, table, from, rules[1..]);
      var after := Inserted(there, s, table, from, rules);
      forall q | q in after && q !in s ensures MadeBy(there, table, from, rules, q, after[q]) {
        if q in next {
          assert rules[0] in rules;
        } else {
          var r :| r in rules[1..] && Ready(r, from, there) && Row(table, r.key) == q && Text(r.content) == after[q];
          assert r in rules;
        }
      }
    }
  }

  predicate MadeBy(there: set<Object>, table: string, from: set<string>, rules: seq<Derivation>, o: Object,
        d: Definition)
  {
    exists r | r in rules && Ready(r, from, there) :: Row(table, r.key) == o && Text(r.content) == d
  }

  lemma InsertKeepsRows(c: Course, s: Schema, x: Statement)
    requires RowsAsMeant(c, s) && x in c.xs && x.InsertIgnore? && Execute(s, x).Success?
    ensures
      var next := Next(s, x);
      RowsAsMeant(c, next) && Within(s, next) && forall o | o in next && o !in s :: o.Row? && o.table == x.table
  {
    hide Ready, Inserted, Live, AskedFor;
    var next := Next(s, x);
    InsertedRows(s.Keys, s, x.table, x.from, x.rules);
    forall o | o in next && o !in s ensures o.Row? && o.table == x.table && Seeded(c, o, next[o]) {
      var r :| r in x.rules && Ready(r, x.from, s.Keys) && Row(x.table, r.key) == o && Text(r.content) == next[o];
      ReadyIsLive(c, s, x, r);
      assert Seeds(c, x, o, next[o]);
    }
  }

  lemma ReadyIsLive(c: Course, s: Schema, x: Statement, r: Derivation)
    requires RowsAsMeant(c, s) && x.InsertIgnore? && Ready(r, x.from, s.Keys)
    ensures Live(c, x, r)
  {
    forall q | q in r.sources ensures q in c.start || AskedFor(c.xs, q) {
      if q !in c.start {
        assert Seeded(c, q, s[q]);
      }
    }
  }

  /** The rows of a schema. */
  function RowsIn(s: Schema): set<Object> {
    set o | o in s && o.Row?
  }

  /** The rows that a statement makes out of those that are there. */
  function Yield(x: Statement, there: set<Object>): set<Object> {
    if x.InsertIgnore? then set r | r in x.rules && Ready(r, x.from, there) :: Row(x.table, r.key) else {}
  }

  /** The rows after some statements, read off their derivations and the rows before them alone. */
  function Gather(there: set<Object>, xs: seq<Statement>): set<Object>
    decreases xs
  {
    if xs == [] then there else Gather(there + Yield(xs[0], there), xs[1..])
  }

  lemma {:induction false} GatherChains(there: set<Object>, a: seq<Statement>, b: seq<Statement>)
    ensures Gather(there, a + b) == Gather(Gather(there, a), b)
    decreases a
  {
    hide Yield;
    if a == [] {
      assert a + b == b;
    } else {
      assert (a + b)[1..] == a[1..] + b;
      GatherChains(there + Yield(a[0], there), a[1..], b);
    }
  }

  /** A row comes exactly when it is there, or some statement derives it from the rows there by its turn. */
  lemma {:induction false} ComesExactly(there: set<Object>, xs: seq<Statement>, o: Object)
    ensures o in Gather(there, xs) <==> o in there || exists i | 0 <= i < |xs| :: Derives(there, xs, i, o)
    decreases xs
  {
    hide Yield;
    if xs != [] {
      var next := there + Yield(xs[0], there);
      ComesExactly(next, xs[1..], o);
      forall i | 0 < i < |xs| ensures Derives(there, xs, i, o) <==> Derives(next, xs[1..], i - 1, o) {
        assert xs[..i] == [xs[0]] + xs[1..][..i - 1];
        GatherChains(there, [xs[0]], xs[1..][..i - 1]);
        OneGather(there, xs[0]);
      }
      assert Derives(there, xs, 0, o) <==> o in Yield(xs[0], there);
      forall i | 0 <= i < |xs[1..]| && Derives(next, xs[1..], i, o) ensures Derives(there, xs, i + 1, o) {
        assert (i + 1) - 1 == i;
      }
    }
  }

  predicate Derives(there: set<Object>, xs: seq<Statement>, i: nat, o: Object)
    requires i < |xs|
  {
    o in Yield(xs[i], Gather(there, xs[..i]))
  }

  /** A statement that runs leaves the rows that were there and those it yields. */
  lemma StepYields(s: Schema, x: Statement)
    ensures Execute(s, x).Success? || !x.InsertIgnore? ==> RowsIn(Next(s, x)) == RowsIn(s) + Yield(x, RowsIn(s))
  {
    if x.InsertIgnore? && Execute(s, x).Success? {
      hide Ready, Inserted;
      InsertedRows(s.Keys, s, x.table, x.from, x.rules);
      forall r | r in x.rules ensures Ready(r, x.from, s.Keys) <==> Ready(r, x.from, RowsIn(s)) {
        ReadyReadsRows(s, x, r);
      }
    }
  }

  lemma ReadyReadsRows(s: Schema, x: Statement, r: Derivation)
    requires x.InsertIgnore?
    ensures Ready(r, x.from, s.Keys) <==> Ready(r, x.from, RowsIn(s))
  {
  }

  /** The rows of an uninterrupted run. */
  lemma {:induction false} FoldGathers(s: Schema, xs: seq<Statement>)
    requires Fine(s, xs)
    ensures RowsIn(Fold(s, xs)) == Gather(RowsIn(s), xs)
    decreases xs
  {
    hide Yield, Next, RowsIn;
    if xs != [] {
      PlainInsertRuns(s, xs[0]);
      StepYields(s, xs[0]);
      FoldGathers(Next(s, xs[0]), xs[1..]);
    }
  }

  lemma PlainInsertRuns(s: Schema, x: Statement)
    requires Plain(s, x)
    ensures Execute(s, x).Success? || !x.InsertIgnore?
  {
  }

  lemma MoreYields(x: Statement, a: set<Object>, b: set<Object>)
    requires a <= b
    ensures Yield(x, a) <= Yield(x, b)
  {
  }

  lemma GrowCreate(c: Course, done: seq<Statement>, s: Schema, x: Statement)
    requires Consistent(c.xs) && Grown(c, done, s) && x in c.xs && x.CreateTable? && Plain(s, x)
    ensures Grown(c, done + [x], Next(s, x))
  {
    hide Legal, Explained, Parts, Closed, RowsAsMeant;
    if Table(x.table) !in s {
      CreateStaysLegal(s, x);
      CreateKeepsRows(c, s, x);
      CreateStaysExplained(c, s, x);
      CreateCloses(c, s, x);
      WithinChains(c.start, s, s + Parts(x));
    }
  }

  lemma CreateKeepsRows(c: Course, s: Schema, x: Statement)
    requires RowsAsMeant(c, s) && x.CreateTable?
    ensures RowsAsMeant(c, s + Parts(x))
  {
    hide Seeded;
  }

  lemma CreateStaysLegal(s: Schema, x: Statement)
    requires Legal(s) && x.CreateTable? && Table(x.table) !in s && Refusal(x).None?
    ensures Legal(s + Parts(x)) && Within(s, s + Parts(x)) && Table(x.table) in s + Parts(x)
  {
    var next := s + Parts(x);
    forall o | o in next ensures |Indexes(next, o.table)| <= MAX_INDEXES {
      if o.table == x.table {
        assert Indexes(next, x.table) == Indexes(Parts(x), x.table);
      } else {
        assert Indexes(next, o.table) == Indexes(s, o.table);
      }
    }
  }

  lemma CreateStaysExplained(c: Course, s: Schema, x: Statement)
    requires x in c.xs && x.CreateTable? && Table(x.table) !in s
    requires Explained(c, s) && Within(c.start, s) && Within(s, s + Parts(x))
    ensures Explained(c, s + Parts(x))
  {
    hide Parts, Added;
    var next := s + Parts(x);
    forall o | o in next && !o.Row? ensures o in c.start || Created(c, next, o) || Added(c, next, o) {
      ExplainedStays(c, s, next, o);
    }
  }

  lemma CreateCloses(c: Course, s: Schema, x: Statement)
    requires Consistent(c.xs) && Closed(c, s) && x in c.xs && x.CreateTable? && Within(s, s + Parts(x))
    ensures Closed(c, s + Parts(x))
  {
    var next := s + Parts(x);
    forall y | y in c.xs && y.CreateTable? && Table(y.table) !in c.start && Table(y.table) in next
      ensures Within(Parts(y), next)
    {
      if y.table == x.table {
        assert SameTarget(x, y);
      }
    }
  }

  lemma ExplainedStays(c: Course, s: Schema, next: Schema, o: Object)
    requires Explained(c, s) && Within(s, next)
    ensures o in s && !o.Row? ==> o in c.start || Created(c, next, o) || Added(c, next, o)
  {
    if o in s && Created(c, s, o) {
      var x :| x in c.xs && x.CreateTable? && Table(x.table) !in c.start && o in Parts(x) && Parts(x)[o] == s[o];
      assert Created(c, next, o);
    } else if o in s && Added(c, s, o) {
      var x :| x in c.xs && Adds(x) && Target(x) == o && Meant(x) == s[o];
      assert Added(c, next, o);
    }
  }

  lemma GrowAdd(c: Course, done: seq<Statement>, s: Schema, x: Statement)
    requires Grown(c, done, s) && x in c.xs && Adds(x) && Plain(s, x)
    ensures Grown(c, done + [x], Next(s, x))
  {
    hide Legal, Closed, Explained, Parts, Within, RowsAsMeant;
    WithinItself(s);
    if Target(x) !in s {
      AddStaysLegal(s, x);
      AddStaysExplained(c, s, x);
      AddKeepsRows(c, s, x);
    }
    AddCloses(c, done, s, x);
  }

  lemma AddKeepsRows(c: Course, s: Schema, x: Statement)
    requires RowsAsMeant(c, s) && Adds(x)
    ensures RowsAsMeant(c, s[Target(x) := Meant(x)])
  {
    hide Seeded;
  }

  lemma AddCloses(c: Course, done: seq<Statement>, s: Schema, x: Statement)
    requires Grown(c, done, s) && x in c.xs && Adds(x) && Plain(s, x)
    ensures Within(c.start, Next(s, x)) && Closed(c, Next(s, x)) && forall y | y in done + [x] :: Present(Next(s, x), y)
  {
    hide Legal, Explained, Parts, RowsAsMeant;
  }

  lemma GrowInsert(c: Course, done: seq<Statement>, s: Schema, x: Statement)
    requires Grown(c, done, s) && x in c.xs && x.InsertIgnore? && Plain(s, x)
    ensures Grown(c, done + [x], Next(s, x))
  {
    hide RowsAsMeant, Parts, Created, Added, Inserted, Indexes;
    PlainInsertRuns(s, x);
    InsertKeepsRows(c, s, x);
    var next := Next(s, x);
    assert Table(x.table) in s;
    forall o | o in next ensures Table(o.table) in next && |Indexes(next, o.table)| <= MAX_INDEXES {
      SameIndexes(s, next, o.table);
      assert Table(o.table) in s;
    }
    forall o | o in next && !o.Row? ensures o in c.start || Created(c, next, o) || Added(c, next, o) {
      ExplainedStays(c, s, next, o);
    }
  }

  lemma SameIndexes(s: Schema, next: Schema, table: string)
    requires Within(s, next) && forall o | o in next && o !in s :: o.Row?
    ensures Indexes(next, table) == Indexes(s, table)
  {
  }

  lemma AddStaysLegal(s: Schema, x: Statement)
    requires Legal(s) && Adds(x) && Target(x) !in s && Execute(s, x).Success?
    ensures Legal(s[Target(x) := Meant(x)])
  {
    hide Execute, Indexes;
    var next := s[Target(x) := Meant(x)];
    AddNeedsRoom(s, x);
    forall o | o in next ensures |Indexes(next, o.table)| <= MAX_INDEXES {
      assert Table(o.table) in s;
      IndexesAfterAdd(s, x, o.table);
    }
  }

  lemma AddNeedsRoom(s: Schema, x: Statement)
    requires Adds(x) && Target(x) !in s && Execute(s, x).Success?
    ensures Table(x.table) in s && (x.AddIndex? ==> |Indexes(s, x.table)| < MAX_INDEXES)
  {
    hide Indexes;
  }

  /** The indexes of a table after something new was added: one more when it is an index of that table. */
  lemma IndexesAfterAdd(s: Schema, x: Statement, table: string)
    requires Adds(x) && Target(x) !in s
    ensures
      var added := if x.AddIndex? && table == x.table then {Target(x)} else {};
      Indexes(s[Target(x) := Meant(x)], table) == Indexes(s, table) + added &&
      |Indexes(s[Target(x) := Meant(x)], table)| == |Indexes(s, table)| + |added|
  {
    var next := s[Target(x) := Meant(x)];
    var added := if x.AddIndex? && table == x.table then {Target(x)} else {};
    assert Indexes(next, table) == Indexes(s, table) + added;
    assert Indexes(s, table) !! added;
  }

  lemma AddStaysExplained(c: Course, s: Schema, x: Statement)
    requires Explained(c, s) && x in c.xs && Adds(x) && Target(x) !in s
    ensures Explained(c, s[Target(x) := Meant(x)])
  {
    hide Created, Added;
    var next := s[Target(x) := Meant(x)];
    forall o | o in next && !o.Row? ensures o in c.start || Created(c, next, o) || Added(c, next, o) {
      ExplainedStays(c, s, next, o);
      if o == Target(x) {
        AddedNow(c, next, x);
      }
    }
  }

  lemma AddedNow(c: Course, next: Schema, x: Statement)
    requires x in c.xs && Adds(x) && Target(x) in next && next[Target(x)] == Meant(x)
    ensures Added(c, next, Target(x))
  {
  }

  lemma {:induction false} Grow(c: Course, done: seq<Statement>, s: Schema, rest: seq<Statement>)
    requires Consistent(c.xs) && Grown(c, done, s) && Fine(s, rest) && forall x | x in rest :: x in c.xs
    ensures Grown(c, done + rest, Fold(s, rest))
    decreases rest
  {
    hide Grown, Plain, Next, Consistent;
    if rest == [] {
      assert done + rest == done;
    } else {
      var x := rest[0];
      if x.CreateTable? {
        GrowCreate(c, done, s, x);
      } else if x.InsertIgnore? {
        GrowInsert(c, done, s, x);
      } else {
        GrowAdd(c, done, s, x);
      }
      Grow(c, done + [x], Next(s, x), rest[1..]);
      assert done + [x] + rest[1..] == done + rest;
    }
  }

  /** The assumptions about one code base and database: definitions agree, and an uninterrupted run is fine. */
  predicate Sensible(c: Course) {
    Legal(c.start) && Consistent(c.xs) && Fine(c.start, c.xs)
  }

  lemma EndIsGrown(c: Course)
    requires Sensible(c)
    ensures Grown(c, c.xs, c.End())
  {
    Grow(c, [], c.start, c.xs);
    assert [] + c.xs == c.xs;
  }

  // ---------- Faulty runs ----------

  /** Every table, column and index of `a` is in `b`. */
  predicate Inside(a: Schema, b: Schema) {
    forall o | o in a && !o.Row? :: o in b && a[o] == b[o]
  }

  predicate Kept(c: Course, s: Schema) {
    Within(c.start, s) && Inside(s, c.End()) && RowsAsMeant(c, s) && Closed(c, s) && Rooted(s)
  }

  /** A statement that still has something to add adds what the uninterrupted run has. */
  lemma MeantIsFinal(c: Course, s: Schema, x: Statement)
    requires Sensible(c) && Kept(c, s) && x in c.xs && Adds(x) && Table(x.table) in s && Target(x) !in s
    ensures Target(x) in c.End() && c.End()[Target(x)] == Meant(x)
  {
    EndIsGrown(c);
    var o := Target(x);
    assert Present(c.End(), x);
    if !Created(c, c.End(), o) {
      var y :| y in c.xs && Adds(y) && Target(y) == o && Meant(y) == c.End()[o];
      assert SameTarget(x, y);
    }
  }

  lemma StepKeeps(c: Course, s: Schema, x: Statement)
    requires Sensible(c) && Kept(c, s) && x in c.xs
    ensures Kept(c, Next(s, x)) && Within(s, Next(s, x))
    ensures Execute(s, x).Success? ==> Present(Next(s, x), x)
  {
    hide Sensible, Kept, Within, Parts, Refusal, Inserted;
    WithinItself(s);
    if x.CreateTable? {
      if Table(x.table) !in s {
        CreateKeeps(c, s, x);
      }
    } else if x.InsertIgnore? {
      if Execute(s, x).Success? {
        InsertKeeps(c, s, x);
      }
    } else if Execute(s, x).Success? && Target(x) !in s {
      MeantIsFinal(c, s, x);
      AddKeeps(c, s, x);
    }
  }

  lemma InsertKeeps(c: Course, s: Schema, x: Statement)
    requires Kept(c, s) && x in c.xs && x.InsertIgnore? && Execute(s, x).Success?
    ensures Kept(c, Next(s, x)) && Within(s, Next(s, x)) && Table(x.table) in Next(s, x)
  {
    hide RowsAsMeant, Parts, Inserted, Fold;
    InsertKeepsRows(c, s, x);
    var next := Next(s, x);
    assert Table(x.table) in s;
    WithinChains(c.start, s, next);
    forall y | y in c.xs && y.CreateTable? && Table(y.table) !in c.start && Table(y.table) in next
      ensures Within(Parts(y), next)
    {
      WithinChains(Parts(y), s, next);
    }
  }

  lemma CreateKeeps(c: Course, s: Schema, x: Statement)
    requires Sensible(c) && Kept(c, s) && x in c.xs && x.CreateTable? && Table(x.table) !in s
    ensures Kept(c, s + Parts(x)) && Within(s, s + Parts(x)) && Table(x.table) in s + Parts(x)
  {
    hide Fold, Fine, Execute, Legal, Explained, RowsAsMeant;
    EndIsGrown(c);
    CreateKeepsRows(c, s, x);
    var next := s + Parts(x);
    assert Present(c.End(), x);
    forall y | y in c.xs && y.CreateTable? && Table(y.table) !in c.start && Table(y.table) in next
      ensures Within(Parts(y), next)
    {
      if y.table == x.table {
        assert SameTarget(x, y);
      }
    }
  }

  lemma AddKeeps(c: Course, s: Schema, x: Statement)
    requires Kept(c, s) && Adds(x) && Table(x.table) in s && Target(x) !in s
    requires Target(x) in c.End() && c.End()[Target(x)] == Meant(x)
    ensures Kept(c, s[Target(x) := Meant(x)]) && Within(s, s[Target(x) := Meant(x)])
  {
    hide Fold, Parts, RowsAsMeant;
    AddKeepsRows(c, s, x);
  }

  lemma SmallerSet<T>(a: set<T>, b: set<T>, o: T)
    requires a <= b && o in b && o !in a
    ensures |a| < |b|
  {
    assert b == (b - a) + a;
    assert o in b - a;
  }

  /** On the way to a legal end no index statement meets the index limit. */
  lemma IndexLimitIsFar(c: Course, s: Schema, x: Statement)
    requires Sensible(c) && Kept(c, s) && x in c.xs && x.AddIndex? && Target(x) !in s
    ensures |Indexes(s, x.table)| < MAX_INDEXES
  {
    EndIsGrown(c);
    assert Present(c.End(), x);
    SmallerSet(Indexes(s, x.table), Indexes(c.End(), x.table), Target(x));
  }

  /**
   An index takes its columns from the start, a created table, or an earlier statement of its migration; a row takes its
   sources from the start or those statements, unless they can never all be there.
   */
  predicate AtHand(c: Course, before: seq<Statement>, x: Statement) {
    (x.AddIndex? ==> forall col | col in x.columns :: ColumnAtHand(c, before, x.table, col)) &&
    (x.InsertIgnore? ==> forall r | r in x.rules && Live(c, x, r) :: Ready(r, x.from, Gather(RowsIn(c.start), before)))
  }

  predicate ColumnAtHand(c: Course, before: seq<Statement>, table: string, column: string) {
    Column(table, column) in c.start ||
    (exists y | y in c.xs && y.CreateTable? && y.table == table && Table(table) !in c.start ::
      Column(table, column) in Parts(y)) ||
    (exists y | y in before && y.AddColumn? :: Target(y) == Column(table, column))
  }

  predicate AllAtHand(c: Course, before: seq<Statement>, statements: seq<Statement>)
    decreases statements
  {
    statements == [] || (AtHand(c, before, statements[0]) && AllAtHand(c, before + [statements[0]], statements[1..]))
  }

  lemma AtHandExists(c: Course, before: seq<Statement>, s: Schema, x: Statement)
    requires Kept(c, s) && AtHand(c, before, x) && x.AddIndex? && Table(x.table) in s && forall y | y in before ::
        Settled(s, y)
    ensures ColumnsExist(s, x.table, x.columns)
  {
    forall col | col in x.columns ensures Column(x.table, col) in s {
      assert ColumnAtHand(c, before, x.table, col);
    }
  }

  /** Every row that the statement can ever make is there. */
  predicate Granted(c: Course, s: Schema, x: Statement) {
    x.InsertIgnore? ==> forall r | r in x.rules && Live(c, x, r) :: Row(x.table, r.key) in s
  }

  /** The rows that some statements make out of the start are there. */
  predicate Gathered(c: Course, s: Schema, before: seq<Statement>) {
    Gather(RowsIn(c.start), before) <= RowsIn(s)
  }

  /** Completed statements have settled; where everything was at hand, nothing at all is missing. */
  lemma AttemptSettles(c: Course, before: seq<Statement>, s: Schema, x: Statement)
    requires Sensible(c) && Kept(c, s) && x in c.xs && Attempt(s, x).Success? && forall y | y in before :: Settled(s, y)
    requires Gathered(c, s, before)
    ensures Attempt(s, x).value == Next(s, x)
    ensures Settled(Next(s, x), x)
    ensures AtHand(c, before, x) ==> Present(Next(s, x), x) && Granted(c, Next(s, x), x)
    ensures Gathered(c, Next(s, x), before + [x])
  {
    hide Sensible, Kept, Gathered, AtHand, Granted, Parts, Inserted;
    StepKeeps(c, s, x);
    StepGathers(c, before, s, x);
    PassedInsertRuns(s, x);
    if x.AddIndex? && AtHand(c, before, x) && Target(x) !in s {
      IndexAtHandRuns(c, before, s, x);
    }
    if AtHand(c, before, x) {
      AtHandIsGranted(c, before, s, x);
    }
  }

  lemma IndexAtHandRuns(c: Course, before: seq<Statement>, s: Schema, x: Statement)
    requires Sensible(c) && Kept(c, s) && x in c.xs && Attempt(s, x).Success? && forall y | y in before :: Settled(s, y)
    requires x.AddIndex? && AtHand(c, before, x) && Target(x) !in s
    ensures Execute(s, x).Success?
  {
    hide Sensible, Kept;
    AtHandExists(c, before, s, x);
    IndexLimitIsFar(c, s, x);
  }

  lemma StepGathers(c: Course, before: seq<Statement>, s: Schema, x: Statement)
    requires Gathered(c, s, before) && Attempt(s, x).Success?
    ensures Gathered(c, Next(s, x), before + [x])
  {
    hide Yield, RowsIn;
    PassedInsertRuns(s, x);
    StepYields(s, x);
    GatherChains(RowsIn(c.start), before, [x]);
    OneGather(Gather(RowsIn(c.start), before), x);
    MoreYields(x, Gather(RowsIn(c.start), before), RowsIn(s));
  }

  lemma PassedInsertRuns(s: Schema, x: Statement)
    requires Attempt(s, x).Success?
    ensures Execute(s, x).Success? || !x.InsertIgnore?
  {
  }

  lemma OneGather(there: set<Object>, x: Statement)
    ensures Gather(there, [x]) == there + Yield(x, there)
  {
    hide Yield;
    assert [x][1..] == [];
  }

  lemma AtHandIsGranted(c: Course, before: seq<Statement>, s: Schema, x: Statement)
    requires AtHand(c, before, x) && Gathered(c, s, before) && Attempt(s, x).Success?
    ensures Granted(c, Next(s, x), x)
  {
    hide Live, Inserted, Gather;
    if x.InsertIgnore? {
      PassedInsertRuns(s, x);
      InsertedRows(s.Keys, s, x.table, x.from, x.rules);
      forall r | r in x.rules && Live(c, x, r) ensures Row(x.table, r.key) in Next(s, x) {
        assert Ready(r, x.from, Gather(RowsIn(c.start), before));
        assert Ready(r, x.from, s.Keys);
      }
    }
  }

  predicate AllPresent(s: Schema, xs: seq<Statement>) {
    forall x | x in xs :: Present(s, x)
  }

  predicate AllSettled(c: Course, s: Schema, xs: seq<Statement>, strict: bool) {
    forall x | x in xs :: if strict then Present(s, x) && Granted(c, s, x) else Settled(s, x)
  }

  lemma SettledStays(c: Course, a: Schema, b: Schema, xs: seq<Statement>, strict: bool)
    requires Within(a, b) && AllSettled(c, a, xs, strict)
    ensures AllSettled(c, b, xs, strict)
  {
    hide Live;
  }

  lemma PresentStays(a: Schema, b: Schema, xs: seq<Statement>)
    requires Within(a, b) && AllPresent(a, xs)
    ensures AllPresent(b, xs)
  {
  }

  lemma WithinChains(a: Schema, b: Schema, c: Schema)
    requires Within(a, b) && Within(b, c)
    ensures Within(a, c)
  {
  }

  lemma {:induction false} ThroughKeeps(c: Course, before: seq<Statement>, s: Schema, statements: seq<Statement>,
        fault: Fault, strict: bool)
    requires Sensible(c) && Kept(c, s) && (forall x | x in statements :: x in c.xs) && AllSettled(c, s, before, strict)
    requires Gathered(c, s, before) && (strict ==> AllAtHand(c, before, statements))
    ensures
      var (after, complete, _) := Through(s, statements, fault);
      Kept(c, after) && Within(s, after) && (complete ==> AllSettled(c, after, before + statements, strict))
    decreases statements
  {
    hide Kept, Sensible, Within, AtHand, Settled, Present, Granted, Gathered;
    WithinItself(s);
    if statements == [] {
      assert before + statements == before;
    } else {
      var x := statements[0];
      StepKeeps(c, s, x);
      if !(fault.Fault? && fault.at == 0) && Attempt(s, x).Success? {
        PresentIsSettled(c, s, before, strict);
        AttemptSettles(c, before, s, x);
        SettledStays(c, s, Next(s, x), before, strict);
        assert AllSettled(c, Next(s, x), before + [x], strict);
        ThroughKeeps(c, before + [x], Next(s, x), statements[1..], Later(fault), strict);
        assert before + [x] + statements[1..] == before + statements;
        WithinChains(s, Next(s, x), Through(Next(s, x), statements[1..], Later(fault)).0);
      }
    }
  }

  lemma WithinItself(s: Schema)
    ensures Within(s, s)
  {
  }

  lemma PresentIsSettled(c: Course, s: Schema, xs: seq<Statement>, strict: bool)
    requires AllSettled(c, s, xs, strict)
    ensures forall x | x in xs :: Settled(s, x)
  {
  }

  predicate Distinct(list: seq<Migration>) {
    forall i, j | 0 <= i < j < |list| :: list[i].name != list[j].name
  }

  predicate SettledUpTo(c: Course, list: seq<Migration>, db: Db, skip: set<string>, strict: bool) {
    forall m | m in list && m.name !in skip && m.name in db.applied :: AllSettled(c, db.schema, m.statements, strict)
  }

  /** What any number of faulty runs keeps. */
  predicate Sound(c: Course, list: seq<Migration>, db: Db, skip: set<string>, strict: bool) {
    Kept(c, db.schema) && skip <= db.applied && SettledUpTo(c, list, db, skip, strict)
  }

  predicate Listed(c: Course, list: seq<Migration>, skip: set<string>, strict: bool) {
    Distinct(list) &&
    forall m | m in list && m.name !in skip ::
      (forall x | x in m.statements :: x in c.xs) && (strict ==> AllAtHand(c, [], m.statements))
  }

  lemma RunOneKeeps(c: Course, list: seq<Migration>, db: Db, skip: set<string>, m: Migration, plan: Plan, strict: bool)
    requires Sensible(c) && Listed(c, list, skip, strict) && Sound(c, list, db, skip, strict) && m in list
    ensures Sound(c, list, RunOne(db, m, plan).0, skip, strict)
  {
    hide Sensible, Kept, AllAtHand, Through;
    if !plan.selectFails && m.name !in db.applied {
      var (after, complete, _) := Through(db.schema, m.statements, plan.fault);
      assert AllSettled(c, db.schema, [], strict);
      StartIsGathered(c, db.schema);
      ThroughKeeps(c, [], db.schema, m.statements, plan.fault, strict);
      assert [] + m.statements == m.statements;
      var next := RunOne(db, m, plan).0;
      forall other | other in list && other.name !in skip && other.name in next.applied
        ensures AllSettled(c, after, other.statements, strict)
      {
        if other.name in db.applied {
          SettledStays(c, db.schema, after, other.statements, strict);
        } else {
          SameName(list, m, other);
        }
      }
    }
  }

  lemma StartIsGathered(c: Course, s: Schema)
    requires Kept(c, s)
    ensures Gathered(c, s, [])
  {
  }

  lemma SameName(list: seq<Migration>, a: Migration, b: Migration)
    requires Distinct(list) && a in list && b in list && a.name == b.name
    ensures a == b
  {
    var i :| 0 <= i < |list| && list[i] == a;
    var j :| 0 <= j < |list| && list[j] == b;
    assert i == j;
  }

  lemma {:induction false} RunKeeps(c: Course, list: seq<Migration>, db: Db, skip: set<string>, rest: seq<Migration>,
        plans: seq<Plan>, strict: bool)
    requires Sensible(c) && Listed(c, list, skip, strict) && Sound(c, list, db, skip, strict) && |plans| == |rest|
    requires forall m | m in rest :: m in list
    ensures Sound(c, list, Run(db, rest, plans), skip, strict)
    decreases rest
  {
    hide Sensible, Listed, Sound, RunOne;
    if rest != [] {
      RunOneKeeps(c, list, db, skip, rest[0], plans[0], strict);
      var (next, alive) := RunOne(db, rest[0], plans[0]);
      if alive {
        RunKeeps(c, list, next, skip, rest[1..], plans[1..], strict);
      }
    }
  }

  lemma {:induction false} RunsKeep(c: Course, list: seq<Migration>, db: Db, skip: set<string>, runs: seq<seq<Plan>>,
        strict: bool)
    requires Sensible(c) && Listed(c, list, skip, strict) && Sound(c, list, db, skip, strict)
    requires forall r | r in runs :: |r| == |list|
    ensures Sound(c, list, Runs(db, list, runs), skip, strict)
    decreases runs
  {
    hide Sensible, Listed, Sound, Run;
    if runs != [] {
      RunKeeps(c, list, db, skip, list, runs[0], strict);
      RunsKeep(c, list, Run(db, list, runs[0]), skip, runs[1..], strict);
    }
  }
}
