/**
 WHERE-clause text as tokens, and how the database reads it: `AND` binds tighter than `OR`,
 parentheses group, and the anonymous placeholders are numbered from left to right.
 */
module SqlText {
  import opened Wrappers

  datatype Operator = Eq | Ne | Ge | Le | Like

  datatype Token =
    | Column(name: string)
    | Compare(op: Operator)
    | IsNull
    | IsNotNull
    | In
    | Hole                                                        // ?
    | Comma
    | Open
    | Close
    | And
    | Or
    | Never                                                       // 1 = 0
    | ExistsIn(table: string)                                     // EXISTS (SELECT 1 FROM table WHERE
    | Link(inner: string, outer: string, foreignKey: string)      // inner.id = outer.foreignKey

  datatype Sql =
    | Comparison(column: string, op: Operator, hole: nat)
    | Missing(column: string)
    | Present(column: string)
    | OneOf(column: string, firstHole: nat, count: nat)
    | Impossible
    | Joined(inner: string, outer: string, foreignKey: string)
    | Group(body: Sql)
    | Any(alternatives: seq<Sql>)
    | All(conjuncts: seq<Sql>)
    | Exists(table: string, condition: Sql)

  /** A tree read from the front of a token list, what is left, and the number of the next placeholder. */
  datatype Reading<T> = Reading(tree: T, rest: seq<Token>, next: nat)

  predicate Starts(tokens: seq<Token>, token: Token) {
    tokens != [] && tokens[0] == token
  }

  function AllOf(terms: seq<Sql>): Sql
    requires terms != []
  {
    if |terms| == 1 then terms[0] else All(terms)
  }

  function AnyOf(terms: seq<Sql>): Sql
    requires terms != []
  {
    if |terms| == 1 then terms[0] else Any(terms)
  }

  /** The placeholders between the parentheses of an IN list. */
  function ReadHoles(tokens: seq<Token>): (r: Option<Reading<nat>>)
    ensures r.Some? ==> |r.value.rest| < |tokens|
  {
    if !Starts(tokens, Hole) then None
    else if Starts(tokens[1..], Close) then Some(Reading(1, tokens[2..], 0))
    else if Starts(tokens[1..], Comma) then
      var more :- ReadHoles(tokens[2..]);
      Some(Reading(1 + more.tree, more.rest, 0))
    else None
  }

  /** A term without parentheses around a sub-filter. */
  function ReadLeaf(tokens: seq<Token>, next: nat): (r: Option<Reading<Sql>>)
    ensures r.Some? ==> |r.value.rest| < |tokens|
  {
    if tokens == [] then None
    else
      match tokens[0]
      case Never => Some(Reading(Impossible, tokens[1..], next))
      case Link(inner, outer, key) => Some(Reading(Joined(inner, outer, key), tokens[1..], next))
      case Column(name) =>
        if |tokens| < 2 then None
        else (match tokens[1]
              case IsNull => Some(Reading(Missing(name), tokens[2..], next))
              case IsNotNull => Some(Reading(Present(name), tokens[2..], next))
              case Compare(op) =>
                if Starts(tokens[2..], Hole) then Some(Reading(Comparison(name, op, next), tokens[3..], next + 1))
                  else None
              case In =>
                if !Starts(tokens[2..], Open) then None
                else
                  var list :- ReadHoles(tokens[3..]);
                  Some(Reading(OneOf(name, next, list.tree), list.rest, next + list.tree))
              case _ => None)
      case _ => None
  }

  function ReadTerm(tokens: seq<Token>, next: nat): (r: Option<Reading<Sql>>)
    ensures r.Some? ==> |r.value.rest| < |tokens|
    decreases |tokens|, 0
  {
    if tokens != [] && (tokens[0] == Open || tokens[0].ExistsIn?) then
      var body :- ReadAny(tokens[1..], next);
      if !Starts(body.rest, Close) then None
      else Some(Reading(if tokens[0] == Open then Group(body.tree) else Exists(tokens[0].table, body.tree),
                        body.rest[1..], body.next))
    else
      ReadLeaf(tokens, next)
  }

  function ReadConjuncts(tokens: seq<Token>, next: nat): (r: Option<Reading<seq<Sql>>>)
    ensures r.Some? ==> |r.value.rest| < |tokens| && r.value.tree != []
    decreases |tokens|, 1
  {
    var first :- ReadTerm(tokens, next);
    if Starts(first.rest, And) then
      var more :- ReadConjuncts(first.rest[1..], first.next);
      Some(Reading([first.tree] + more.tree, more.rest, more.next))
    else
      Some(Reading([first.tree], first.rest, first.next))
  }

  function ReadAlternatives(tokens: seq<Token>, next: nat): (r: Option<Reading<seq<Sql>>>)
    ensures r.Some? ==> |r.value.rest| < |tokens| && r.value.tree != []
    decreases |tokens|, 2
  {
    var first :- ReadConjuncts(tokens, next);
    if Starts(first.rest, Or) then
      var more :- ReadAlternatives(first.rest[1..], first.next);
      Some(Reading([AllOf(first.tree)] + more.tree, more.rest, more.next))
    else
      Some(Reading([AllOf(first.tree)], first.rest, first.next))
  }

  function ReadAny(tokens: seq<Token>, next: nat): (r: Option<Reading<Sql>>)
    ensures r.Some? ==> |r.value.rest| < |tokens|
    decreases |tokens|, 3
  {
    var terms :- ReadAlternatives(tokens, next);
    Some(Reading(AnyOf(terms.tree), terms.rest, terms.next))
  }

  /** What the database makes of the text after WHERE; `None` is a syntax error. */
  function ReadWhere(tokens: seq<Token>): Option<Sql> {
    var body :- ReadAny(tokens, 0);
    if body.rest == [] then Some(body.tree) else None
  }

  /** The clauses with a separator between neighbours. */
  function Join(clauses: seq<seq<Token>>, separator: Token): seq<Token> {
    if clauses == [] then []
    else if |clauses| == 1 then clauses[0]
    else clauses[0] + [separator] + Join(clauses[1..], separator)
  }

  /** One placeholder for each listed value, with commas between. */
  function HoleList(count: nat): seq<Token> {
    if count == 0 then [] else if count == 1 then [Hole] else [Hole, Comma] + HoleList(count - 1)
  }

  // ---------- Writing a tree and reading it back ----------

  function Holes(tree: Sql): nat {
    match tree
    case Comparison(_, _, _) => 1
    case OneOf(_, _, count) => count
    case Group(body) => Holes(body)
    case Any(terms) => HolesAll(terms)
    case All(terms) => HolesAll(terms)
    case Exists(_, condition) => Holes(condition)
    case _ => 0
  }

  function HolesAll(terms: seq<Sql>): nat {
    if terms == [] then 0 else Holes(terms[0]) + HolesAll(terms[1..])
  }

  function Write(tree: Sql): seq<Token> {
    match tree
    case Comparison(column, op, _) => [Column(column), Compare(op), Hole]
    case Missing(column) => [Column(column), IsNull]
    case Present(column) => [Column(column), IsNotNull]
    case OneOf(column, _, count) => [Column(column), In, Open] + HoleList(count) + [Close]
    case Impossible => [Never]
    case Joined(inner, outer, key) => [Link(inner, outer, key)]
    case Group(body) => [Open] + Write(body) + [Close]
    case Any(terms) => WriteAll(terms, Or)
    case All(terms) => WriteAll(terms, And)
    case Exists(table, condition) => [ExistsIn(table)] + Write(condition) + [Close]
  }

  function WriteAll(terms: seq<Sql>, separator: Token): seq<Token> {
    if terms == [] then []
    else if |terms| == 1 then Write(terms[0])
    else Write(terms[0]) + [separator] + WriteAll(terms[1..], separator)
  }

  /** Trees that need no further parentheses and number their placeholders from `next`, left to right. */
  predicate Clean(tree: Sql, next: nat)
    decreases tree, 0
  {
    match tree
    case Comparison(_, _, hole) => hole == next
    case OneOf(_, first, count) => first == next && count > 0
    case Group(body) => CleanBody(body, next)
    case Exists(_, condition) => CleanBody(condition, next)
    case Any(_) => false
    case All(_) => false
    case _ => true
  }

  predicate CleanAll(terms: seq<Sql>, next: nat)
    decreases terms, 0
  {
    terms == [] || (Clean(terms[0], next) && CleanAll(terms[1..], next + Holes(terms[0])))
  }

  /** What may stand between parentheses or after WHERE: one term, or one chain of terms. */
  predicate CleanBody(tree: Sql, next: nat)
    decreases tree, 1
  {
    match tree
    case Any(terms) => |terms| > 1 && CleanAll(terms, next)
    case All(terms) => |terms| > 1 && CleanAll(terms, next)
    case _ => Clean(tree, next)
  }

  /** A chain of clean terms is a clean body, written term by term. */
  lemma CleanChain(terms: seq<Sql>, next: nat)
    requires terms != [] && CleanAll(terms, next)
    ensures CleanBody(AllOf(terms), next) && CleanBody(AnyOf(terms), next)
    ensures Holes(AllOf(terms)) == Holes(AnyOf(terms)) == HolesAll(terms)
    ensures Write(AllOf(terms)) == WriteAll(terms, And) && Write(AnyOf(terms)) == WriteAll(terms, Or)
  {
    if |terms| == 1 {
      assert terms[1..] == [];
    }
  }

  lemma {:induction false} ReadHoleList(count: nat, rest: seq<Token>)
    requires count > 0
    ensures ReadHoles(HoleList(count) + [Close] + rest) == Some(Reading(count, rest, 0))
  {
    var tokens := HoleList(count) + [Close] + rest;
    if count == 1 {
      assert tokens[1..] == [Close] + rest;
      assert tokens[2..] == rest;
    } else {
      assert tokens[1..] == [Comma] + (HoleList(count - 1) + [Close] + rest);
      assert tokens[2..] == HoleList(count - 1) + [Close] + rest;
      ReadHoleList(count - 1, rest);
    }
  }

  lemma ReadBackLeaf(tree: Sql, next: nat, rest: seq<Token>)
    requires Clean(tree, next) && !tree.Group? && !tree.Exists?
    ensures Write(tree) != [] && Write(tree)[0] != Open && !Write(tree)[0].ExistsIn?
    ensures ReadLeaf(Write(tree) + rest, next) == Some(Reading(tree, rest, next + Holes(tree)))
  {
    var tokens := Write(tree) + rest;
    if tree.OneOf? {
      assert tokens[3..] == HoleList(tree.count) + [Close] + rest;
      ReadHoleList(tree.count, rest);
    } else if tree.Comparison? {
      assert tokens[2..] == [Hole] + rest;
      assert tokens[3..] == rest;
    } else if tree.Missing? || tree.Present? {
      assert tokens[2..] == rest;
    } else {
      assert tokens[1..] == rest;
    }
  }

  lemma {:induction false} ReadBackTerm(tree: Sql, next: nat, rest: seq<Token>)
    requires Clean(tree, next)
    ensures ReadTerm(Write(tree) + rest, next) == Some(Reading(tree, rest, next + Holes(tree)))
    decreases tree, 0
  {
    hide *;
    if tree.Group? {
      GroupIsClean(tree, next);
      ReadBackBody(tree.body, next, [Close] + rest);
      GroupReads(tree, next, rest);
    } else if tree.Exists? {
      ExistsIsClean(tree, next);
      ReadBackBody(tree.condition, next, [Close] + rest);
      ExistsReads(tree, next, rest);
    } else {
      ReadBackLeaf(tree, next, rest);
      LeafReads(tree, next, rest);
    }
  }

  lemma GroupIsClean(tree: Sql, next: nat)
    requires tree.Group? && Clean(tree, next)
    ensures CleanBody(tree.body, next) && !Starts([Close], And) && !Starts([Close], Or)
    ensures forall rest: seq<Token> :: !Starts([Close] + rest, And) && !Starts([Close] + rest, Or)
  {
    hide CleanBody;
  }

  lemma ExistsIsClean(tree: Sql, next: nat)
    requires tree.Exists? && Clean(tree, next)
    ensures CleanBody(tree.condition, next)
    ensures forall rest: seq<Token> :: !Starts([Close] + rest, And) && !Starts([Close] + rest, Or)
  {
    hide CleanBody;
  }

  lemma GroupReads(tree: Sql, next: nat, rest: seq<Token>)
    requires tree.Group?
    requires ReadAny(Write(tree.body) + ([Close] + rest), next) ==
        Some(Reading(tree.body, [Close] + rest, next + Holes(tree.body)))
    ensures ReadTerm(Write(tree) + rest, next) == Some(Reading(tree, rest, next + Holes(tree)))
  {
    hide ReadAny, ReadLeaf;
    var tokens := Write(tree) + rest;
    assert tokens[1..] == Write(tree.body) + ([Close] + rest) && ([Close] + rest)[1..] == rest;
  }

  lemma ExistsReads(tree: Sql, next: nat, rest: seq<Token>)
    requires tree.Exists?
    requires ReadAny(Write(tree.condition) + ([Close] + rest), next) ==
             Some(Reading(tree.condition, [Close] + rest, next + Holes(tree.condition)))
    ensures ReadTerm(Write(tree) + rest, next) == Some(Reading(tree, rest, next + Holes(tree)))
  {
    hide ReadAny, ReadLeaf;
    var tokens := Write(tree) + rest;
    assert tokens[1..] == Write(tree.condition) + ([Close] + rest) && ([Close] + rest)[1..] == rest;
  }

  lemma LeafReads(tree: Sql, next: nat, rest: seq<Token>)
    requires Write(tree) != [] && Write(tree)[0] != Open && !Write(tree)[0].ExistsIn?
    requires ReadLeaf(Write(tree) + rest, next) == Some(Reading(tree, rest, next + Holes(tree)))
    ensures ReadTerm(Write(tree) + rest, next) == Some(Reading(tree, rest, next + Holes(tree)))
  {
    hide ReadAny, ReadLeaf, Write, Holes;
  }

  /** A chain of conjuncts is read back whole. */
  lemma {:induction false} ReadBackConjuncts(terms: seq<Sql>, next: nat, rest: seq<Token>)
    requires terms != [] && CleanAll(terms, next) && !Starts(rest, And)
    ensures ReadConjuncts(WriteAll(terms, And) + rest, next) == Some(Reading(terms, rest, next + HolesAll(terms)))
    decreases terms, 1
  {
    hide *;
    if |terms| == 1 {
      LastOfChain(terms, And, next, rest);
    } else {
      MoreOfChain(terms, And, next, rest);
      ReadBackConjuncts(terms[1..], next + Holes(terms[0]), rest);
      assert [terms[0]] + terms[1..] == terms;
    }
  }

  /** A chain of alternatives is read back whole. */
  lemma {:induction false} ReadBackAlternatives(terms: seq<Sql>, next: nat, rest: seq<Token>)
    requires terms != [] && CleanAll(terms, next) && !Starts(rest, And) && !Starts(rest, Or)
    ensures ReadAlternatives(WriteAll(terms, Or) + rest, next) == Some(Reading(terms, rest, next + HolesAll(terms)))
    decreases terms, 1
  {
    hide *;
    if |terms| == 1 {
      LastOfChain(terms, Or, next, rest);
    } else {
      MoreOfChain(terms, Or, next, rest);
      ReadBackAlternatives(terms[1..], next + Holes(terms[0]), rest);
      assert [terms[0]] + terms[1..] == terms;
    }
  }

  lemma {:induction false} LastOfChain(terms: seq<Sql>, separator: Token, next: nat, rest: seq<Token>)
    requires |terms| == 1 && CleanAll(terms, next) && !Starts(rest, And)
    ensures ReadConjuncts(WriteAll(terms, separator) + rest, next) == Some(Reading(terms, rest, next + HolesAll(terms)))
    ensures !Starts(rest, Or) ==>
      ReadAlternatives(WriteAll(terms, separator) + rest, next) == Some(Reading(terms, rest, next + HolesAll(terms)))
    decreases terms, 0
  {
    hide ReadTerm, ReadAny, Write, Clean, Holes;
    ReadBackTerm(terms[0], next, rest);
    assert terms == [terms[0]];
  }

  lemma {:induction false} MoreOfChain(terms: seq<Sql>, separator: Token, next: nat, rest: seq<Token>)
    requires |terms| > 1 && CleanAll(terms, next) && (separator == And || separator == Or)
    ensures
      var tokens, after := WriteAll(terms, separator) + rest, next + Holes(terms[0]);
      var tokens' := WriteAll(terms[1..], separator) + rest;
      var more := if separator == And then ReadConjuncts(tokens', after) else ReadAlternatives(tokens', after);
      more.Some? ==>
        (if separator == And then ReadConjuncts(tokens, next) else ReadAlternatives(tokens, next)) ==
        Some(Reading([terms[0]] + more.value.tree, more.value.rest, more.value.next))
    ensures CleanAll(terms[1..], next + Holes(terms[0])) && HolesAll(terms) == Holes(terms[0]) + HolesAll(terms[1..])
    decreases terms, 0
  {
    hide ReadTerm, ReadAny, Write, Clean, Holes;
    var more := WriteAll(terms[1..], separator) + rest;
    var tail := [separator] + more;
    assert WriteAll(terms, separator) + rest == Write(terms[0]) + tail;
    ReadBackTerm(terms[0], next, tail);
    assert tail[1..] == more;
  }

  lemma {:induction false} ReadBackBody(tree: Sql, next: nat, rest: seq<Token>)
    requires CleanBody(tree, next) && !Starts(rest, And) && !Starts(rest, Or)
    ensures ReadAny(Write(tree) + rest, next) == Some(Reading(tree, rest, next + Holes(tree)))
    decreases tree, 1
  {
    hide ReadTerm, ReadConjuncts, ReadAlternatives, ReadAny;
    if tree.Any? {
      ReadBackAlternatives(tree.alternatives, next, rest);
      WholeChain(Write(tree) + rest, next, tree.alternatives, rest, next + Holes(tree));
    } else if tree.All? {
      ReadBackConjuncts(tree.conjuncts, next, rest);
      OneAlternative(Write(tree) + rest, next, tree.conjuncts, rest, next + Holes(tree));
    } else {
      ReadBackTerm(tree, next, rest);
      OneTerm(Write(tree) + rest, next, tree, rest, next + Holes(tree));
    }
  }

  lemma WholeChain(tokens: seq<Token>, next: nat, terms: seq<Sql>, rest: seq<Token>, after: nat)
    requires terms != [] && ReadAlternatives(tokens, next) == Some(Reading(terms, rest, after))
    ensures ReadAny(tokens, next) == Some(Reading(AnyOf(terms), rest, after))
  {
    hide ReadAlternatives;
  }

  lemma OneAlternative(tokens: seq<Token>, next: nat, conjuncts: seq<Sql>, rest: seq<Token>, after: nat)
    requires conjuncts != [] && !Starts(rest, Or)
    requires ReadConjuncts(tokens, next) == Some(Reading(conjuncts, rest, after))
    ensures ReadAny(tokens, next) == Some(Reading(AllOf(conjuncts), rest, after))
  {
    hide ReadConjuncts;
  }

  lemma OneTerm(tokens: seq<Token>, next: nat, term: Sql, rest: seq<Token>, after: nat)
    requires !Starts(rest, And) && !Starts(rest, Or)
    requires ReadTerm(tokens, next) == Some(Reading(term, rest, after))
    ensures ReadAny(tokens, next) == Some(Reading(term, rest, after))
  {
    hide ReadTerm;
    assert ReadConjuncts(tokens, next) == Some(Reading([term], rest, after));
    OneAlternative(tokens, next, [term], rest, after);
  }

  /** A written filter is read back as the same tree, with the same placeholder numbers. */
  lemma {:induction false} ReadBack(tree: Sql)
    requires CleanBody(tree, 0)
    ensures ReadWhere(Write(tree)) == Some(tree)
  {
    ReadBackBody(tree, 0, []);
    assert Write(tree) + [] == Write(tree);
  }
}
