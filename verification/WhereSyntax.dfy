/** Exactly when the compiled text is no SQL: an AND with nothing after it, or no condition at all. */
module WhereSyntax {
  import opened WhereObjects
  import opened SqlText
  import opened WhereCompiler
  import opened WhereCorrectness

  /** `AND )` */
  predicate Dangling(tokens: seq<Token>) {
    exists i :: 0 <= i < |tokens| - 1 && tokens[i] == And && tokens[i + 1] == Close
  }

  /** A stretch of text that a reader can have consumed. */
  predicate Whole(tokens: seq<Token>) {
    tokens != [] && tokens[0] != Close && tokens[|tokens| - 1] != And && !Dangling(tokens)
  }

  lemma ChainIsWhole(a: seq<Token>, separator: Token, b: seq<Token>)
    requires Whole(a) && Whole(b) && separator in [And, Or]
    ensures Whole(a + [separator] + b)
  {
    var all := a + [separator] + b;
    forall i | 0 <= i < |all| - 1 ensures !(all[i] == And && all[i + 1] == Close) {
      if i < |a| - 1 {
        assert all[i] == a[i] && all[i + 1] == a[i + 1];
      } else if i > |a| {
        assert all[i] == b[i - |a| - 1] && all[i + 1] == b[i - |a|];
      }
    }
  }

  lemma WrappedIsWhole(head: Token, body: seq<Token>)
    requires Whole(body) && head != And && head != Close
    ensures Whole([head] + body + [Close])
  {
    var all := [head] + body + [Close];
    forall i | 0 <= i < |all| - 1 ensures !(all[i] == And && all[i + 1] == Close) {
      if 0 < i < |body| {
        assert all[i] == body[i - 1] && all[i + 1] == body[i];
      }
    }
  }

  lemma {:induction false} HolesTaken(tokens: seq<Token>) returns (used: seq<Token>)
    requires ReadHoles(tokens).Some?
    ensures tokens == used + ReadHoles(tokens).value.rest
    ensures used != [] && And !in used && used[0] == Hole
  {
    if Starts(tokens[1..], Close) {
      used := tokens[..2];
      assert used == [Hole, Close];
    } else {
      var more := HolesTaken(tokens[2..]);
      used := [Hole, Comma] + more;
      assert tokens == [Hole, Comma] + tokens[2..];
    }
  }

  lemma LeafTaken(tokens: seq<Token>, next: nat) returns (used: seq<Token>)
    requires ReadLeaf(tokens, next).Some?
    ensures tokens == used + ReadLeaf(tokens, next).value.rest && Whole(used)
  {
    var rest := ReadLeaf(tokens, next).value.rest;
    if !tokens[0].Column? {
      used := [tokens[0]];
    } else if tokens[1].Compare? {
      used := [tokens[0], tokens[1], Hole];
      assert tokens[2..] == [Hole] + tokens[3..];
    } else if tokens[1] == In {
      var holes := HolesTaken(tokens[3..]);
      used := [tokens[0], In, Open] + holes;
      assert tokens == [tokens[0], In, Open] + tokens[3..];
    } else {
      used := [tokens[0], tokens[1]];
    }
    assert And !in used;
  }

  lemma {:induction false} TermTaken(tokens: seq<Token>, next: nat) returns (used: seq<Token>)
    requires ReadTerm(tokens, next).Some?
    ensures tokens == used + ReadTerm(tokens, next).value.rest && Whole(used)
    decreases |tokens|, 0
  {
    hide ReadLeaf, ReadAny, Dangling;
    if tokens != [] && (tokens[0] == Open || tokens[0].ExistsIn?) {
      var body := AnyTaken(tokens[1..], next);
      WrappedIsWhole(tokens[0], body);
      used := [tokens[0]] + body + [Close];
    } else {
      used := LeafTaken(tokens, next);
    }
  }

  lemma {:induction false} ConjunctsTaken(tokens: seq<Token>, next: nat) returns (used: seq<Token>)
    requires ReadConjuncts(tokens, next).Some?
    ensures tokens == used + ReadConjuncts(tokens, next).value.rest && Whole(used)
    decreases |tokens|, 1
  {
    hide ReadTerm, Whole;
    used := TermTaken(tokens, next);
    var first := ReadTerm(tokens, next).value;
    if Starts(first.rest, And) {
      var more := ConjunctsTaken(first.rest[1..], first.next);
      ChainIsWhole(used, And, more);
      assert first.rest == [And] + first.rest[1..];
      used := used + [And] + more;
    }
  }

  lemma {:induction false} AlternativesTaken(tokens: seq<Token>, next: nat) returns (used: seq<Token>)
    requires ReadAlternatives(tokens, next).Some?
    ensures tokens == used + ReadAlternatives(tokens, next).value.rest && Whole(used)
    decreases |tokens|, 2
  {
    hide ReadConjuncts, Whole;
    used := ConjunctsTaken(tokens, next);
    var first := ReadConjuncts(tokens, next).value;
    if Starts(first.rest, Or) {
      var more := AlternativesTaken(first.rest[1..], first.next);
      ChainIsWhole(used, Or, more);
      assert first.rest == [Or] + first.rest[1..];
      used := used + [Or] + more;
    }
  }

  lemma {:induction false} AnyTaken(tokens: seq<Token>, next: nat) returns (used: seq<Token>)
    requires ReadAny(tokens, next).Some?
    ensures tokens == used + ReadAny(tokens, next).value.rest && Whole(used)
    decreases |tokens|, 3
  {
    hide ReadAlternatives, Whole;
    used := AlternativesTaken(tokens, next);
  }

  /** No readable WHERE text holds an AND followed by a closing parenthesis. */
  lemma ReadableIsWhole(tokens: seq<Token>)
    requires ReadWhere(tokens).Some?
    ensures Whole(tokens)
  {
    hide ReadAny;
    var used := AnyTaken(tokens, 0);
    assert used + [] == used;
  }

  // ---------- The emitted text ----------

  lemma DanglingInside(before: seq<Token>, tokens: seq<Token>, after: seq<Token>)
    requires Dangling(tokens)
    ensures Dangling(before + tokens + after)
  {
    var i :| 0 <= i < |tokens| - 1 && tokens[i] == And && tokens[i + 1] == Close;
    var all := before + tokens + after;
    assert all[|before| + i] == And && all[|before| + i + 1] == Close;
  }

  lemma {:induction false} DanglingJoin(clauses: seq<seq<Token>>, separator: Token)
    requires exists c | c in clauses :: Dangling(c)
    ensures Dangling(Join(clauses, separator))
  {
    if |clauses| == 1 {
      assert clauses[0] in clauses;
    } else if Dangling(clauses[0]) {
      DanglingInside([], clauses[0], [separator] + Join(clauses[1..], separator));
      assert [] + clauses[0] + ([separator] + Join(clauses[1..], separator)) == Join(clauses, separator);
    } else {
      var c :| c in clauses && Dangling(c);
      assert c in clauses[1..];
      DanglingJoin(clauses[1..], separator);
      DanglingInside(clauses[0] + [separator], Join(clauses[1..], separator), []);
      assert clauses[0] + [separator] + Join(clauses[1..], separator) + [] == Join(clauses, separator);
    }
  }

  lemma {:induction false} BlankIsGrounded(table: string, e: Entry)
    requires Blank(e)
    ensures Grounded(table, e)
    decreases e
  {
    forall i, j | 0 <= i < |e.value.items| && 0 <= j < |e.value.items[i].entries|
      ensures Grounded(table, e.value.items[i].entries[j])
    {
      BlankIsGrounded(table, e.value.items[i].entries[j]);
    }
  }

  lemma BlankCompilesToNothing(table: string, where: seq<Entry>)
    requires AllBlank(where) && CompileEntries(table, where).Success?
    ensures CompileEntries(table, where).value.clauses == []
  {
    forall i | 0 <= i < |where| ensures Grounded(table, where[i]) {
      BlankIsGrounded(table, where[i]);
    }
    EntriesWritten(table, where, 0);
    BlankEntries(table, where, 0);
  }

  lemma {:induction false} UngroundedDangles(table: string, e: Entry)
    requires CompileEntry(table, e).Success? && !Grounded(table, e)
    ensures exists c | c in CompileEntry(table, e).value.clauses :: Dangling(c)
    decreases e, 0
  {
    var clauses := CompileEntry(table, e).value.clauses;
    if IsOr(e) {
      UngroundedAlternativeDangles(table, e.value.items);
      var inner := CompileAlternatives(table, e.value.items).value.clauses;
      DanglingJoin(inner, Or);
      DanglingInside([Open], Join(inner, Or), [Close]);
      assert clauses[0] in clauses;
    } else {
      var (inner, foreignKey) := Relation(table, e.key).value;
      var body := CompileEntries(inner, e.value.entries).value.clauses;
      var head := [ExistsIn(inner), Link(inner, table, foreignKey), And];
      if AllBlank(e.value.entries) {
        BlankCompilesToNothing(inner, e.value.entries);
        assert clauses[0][2] == And && clauses[0][3] == Close;
      } else {
        UngroundedEntriesDangle(inner, e.value.entries);
        DanglingJoin(body, And);
        DanglingInside(head, Join(body, And), [Close]);
      }
      assert clauses[0] in clauses;
    }
  }

  lemma {:induction false} UngroundedEntriesDangle(table: string, where: seq<Entry>)
    requires CompileEntries(table, where).Success? && !AllGrounded(table, where)
    ensures exists c | c in CompileEntries(table, where).value.clauses :: Dangling(c)
    decreases where, 0
  {
    if !Grounded(table, where[0]) {
      UngroundedDangles(table, where[0]);
      var c :| c in CompileEntry(table, where[0]).value.clauses && Dangling(c);
      assert c in CompileEntries(table, where).value.clauses;
    } else {
      assert forall i | 0 < i < |where| :: where[i] == where[1..][i - 1];
      UngroundedEntriesDangle(table, where[1..]);
      var c :| c in CompileEntries(table, where[1..]).value.clauses && Dangling(c);
      assert c in CompileEntries(table, where).value.clauses;
    }
  }

  lemma {:induction false} UngroundedAlternativeDangles(table: string, items: seq<Json>)
    requires CompileAlternatives(table, items).Success?
    requires exists i | 0 <= i < |items| :: items[i].Object? ==> !AllGrounded(table, items[i].entries)
    ensures exists c | c in CompileAlternatives(table, items).value.clauses :: Dangling(c)
    decreases items, 0
  {
    if !AllGrounded(table, items[0].entries) {
      UngroundedEntriesDangle(table, items[0].entries);
      var c :| c in CompileEntries(table, items[0].entries).value.clauses && Dangling(c);
      assert c in CompileAlternatives(table, items).value.clauses;
    } else {
      assert forall i | 0 < i < |items| :: items[i] == items[1..][i - 1];
      UngroundedAlternativeDangles(table, items[1..]);
      var c :| c in CompileAlternatives(table, items[1..]).value.clauses && Dangling(c);
      assert c in CompileAlternatives(table, items).value.clauses;
    }
  }

  /**
   The compiled filter is a WHERE text exactly when it asks for something and every relational subfilter
   in it asks for something.
   */
  lemma TextIsSqlExactlyWhenGrounded(table: string, where: seq<Entry>)
    requires CompileEntries(table, where).Success?
    ensures ReadWhere(Join(CompileEntries(table, where).value.clauses, And)).Some? <==>
            AllGrounded(table, where) && !AllBlank(where)
  {
    var clauses := CompileEntries(table, where).value.clauses;
    if !AllGrounded(table, where) {
      UngroundedEntriesDangle(table, where);
      DanglingJoin(clauses, And);
      if ReadWhere(Join(clauses, And)).Some? {
        ReadableIsWhole(Join(clauses, And));
      }
    } else if AllBlank(where) {
      BlankCompilesToNothing(table, where);
    } else {
      EntriesWritten(table, where, 0);
      BlankEntries(table, where, 0);
      var terms := EntriesTerms(table, where, 0);
      JoinWritten(terms, And);
      CleanChain(terms, 0);
      ReadBack(AllOf(terms));
    }
  }
}
