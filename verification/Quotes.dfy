/** Quote lines and totals in exact arithmetic: every amount is rounded to cents, half a cent and an epsilon up. */
module Quotes {
  import opened Wrappers

  const EPSILON: real := 1.0 / 4503599627370496.0
  const MAX_LINES := 100

  /** A line as it arrives; quantity and price are numbers, `taxable` is false only when the caller says so. */
  datatype LinePayload = LinePayload(description: string, quantity: real, unitPrice: real, taxable: bool)

  datatype Line = Line(position: nat, description: string, quantity: real, unitPrice: real, taxable: bool, total: real)

  datatype Totals = Totals(subtotal: real, taxTotal: real, total: real)

  datatype QuoteError = NoLines | DescriptionRequired | QuantityNotPositive

  function AtLeast0(x: real): real {
    if x < 0.0 then 0.0 else x
  }

  /** To cents, halves up, after adding the smallest distance of a double from one. */
  function Round(value: real): real {
    ((value + EPSILON) * 100.0 + 0.5).Floor as real / 100.0
  }

  /** What a line costs before rounding. */
  function Amount(line: LinePayload): real {
    AtLeast0(line.quantity) * AtLeast0(line.unitPrice)
  }

  function NormalizeLine(line: LinePayload, position: nat): Result<Line, QuoteError> {
    if line.description == "" then Failure(DescriptionRequired)
    else if AtLeast0(line.quantity) <= 0.0 then Failure(QuantityNotPositive)
    else Success(Line(position, line.description, AtLeast0(line.quantity), AtLeast0(line.unitPrice), line.taxable,
      Round(Amount(line))))
  }

  function NormalizeEach(lines: seq<LinePayload>, position: nat): Result<seq<Line>, QuoteError>
    decreases lines
  {
    if lines == [] then Success([])
    else
      var first :- NormalizeLine(lines[0], position);
      var rest :- NormalizeEach(lines[1..], position + 1);
      Success([first] + rest)
  }

  /** Every line is validated; the hundred first are kept. */
  function NormalizeLines(lines: seq<LinePayload>): Result<seq<Line>, QuoteError> {
    if lines == [] then Failure(NoLines)
    else
      var all :- NormalizeEach(lines, 1);
      Success(if |all| > MAX_LINES then all[..MAX_LINES] else all)
  }

  function SumTotals(lines: seq<Line>): real {
    if lines == [] then 0.0 else lines[0].total + SumTotals(lines[1..])
  }

  function Taxable(lines: seq<Line>): seq<Line> {
    if lines == [] then []
    else if lines[0].taxable then [lines[0]] + Taxable(lines[1..])
    else Taxable(lines[1..])
  }

  function Tax(base: real, taxRate: real): real {
    Round(base * (taxRate / 100.0))
  }

  function CalculateTotals(lines: seq<Line>, taxRate: real, discountTotal: real): Totals {
    var subtotal := Round(SumTotals(lines));
    var taxableSubtotal := Round(SumTotals(Taxable(lines)));
    var taxTotal := Tax(AtLeast0(taxableSubtotal - discountTotal), taxRate);
    Totals(subtotal, taxTotal, Round(AtLeast0(subtotal - discountTotal + taxTotal)))
  }

  // ---------- Rounding ----------

  predicate IsCents(x: real) {
    x * 100.0 == (x * 100.0).Floor as real
  }

  lemma RoundIsNear(value: real)
    ensures IsCents(Round(value))
    ensures value + EPSILON - 0.005 < Round(value) <= value + EPSILON + 0.005
  {
    var n := ((value + EPSILON) * 100.0 + 0.5).Floor;
    assert Round(value) * 100.0 == n as real;
    assert (n as real).Floor == n;
  }

  /** Rounding what is in cents already changes nothing. */
  lemma RoundKeepsCents(value: real)
    requires IsCents(value)
    ensures Round(value) == value
  {
    var n := (value * 100.0).Floor;
    var x := (value + EPSILON) * 100.0 + 0.5;
    assert x == n as real + (EPSILON * 100.0 + 0.5);
    assert n as real <= x < n as real + 1.0;
    assert x.Floor == n;
  }

  lemma RoundGrows(a: real, b: real)
    requires a <= b
    ensures Round(a) <= Round(b)
  {
    var x, y := (a + EPSILON) * 100.0 + 0.5, (b + EPSILON) * 100.0 + 0.5;
    assert x <= y;
    assert x.Floor <= y.Floor;
  }

  lemma RoundOfNonNegative(value: real)
    requires value >= 0.0
    ensures Round(value) >= 0.0
  {
    RoundGrows(0.0, value);
    RoundKeepsCents(0.0);
  }

  lemma CentsAdd(a: real, b: real)
    requires IsCents(a) && IsCents(b)
    ensures IsCents(a + b)
  {
    var m, n := (a * 100.0).Floor, (b * 100.0).Floor;
    assert (a + b) * 100.0 == (m + n) as real;
    assert ((m + n) as real).Floor == m + n;
  }

  // ---------- Lines ----------

  predicate Priced(lines: seq<Line>) {
    forall i | 0 <= i < |lines| :: IsCents(lines[i].total) && lines[i].total >= 0.0
  }

  lemma {:induction false} SumIsCents(lines: seq<Line>)
    requires Priced(lines)
    ensures IsCents(SumTotals(lines)) && SumTotals(lines) >= 0.0
  {
    hide IsCents;
    if lines == [] {
      ZeroIsCents();
    } else {
      SumIsCents(lines[1..]);
      CentsAdd(lines[0].total, SumTotals(lines[1..]));
    }
  }

  lemma ZeroIsCents()
    ensures IsCents(0.0)
  {
  }

  lemma {:induction false} TaxableIsPriced(lines: seq<Line>)
    requires Priced(lines)
    ensures Priced(Taxable(lines)) && SumTotals(Taxable(lines)) <= SumTotals(lines)
  {
    hide IsCents;
    if lines != [] {
      TaxableIsPriced(lines[1..]);
      if lines[0].taxable {
        assert Taxable(lines)[1..] == Taxable(lines[1..]);
      }
    }
  }

  /** What validation passes: the lines in order, numbered, each priced within half a cent. */
  lemma {:induction false} NormalizedLines(lines: seq<LinePayload>, position: nat)
    requires NormalizeEach(lines, position).Success?
    ensures
      var all := NormalizeEach(lines, position).value;
      |all| == |lines| && Priced(all) &&
      forall i | 0 <= i < |all| ::
        all[i].position == position + i && all[i].description == lines[i].description && lines[i].description != "" &&
        all[i].taxable == lines[i].taxable && all[i].quantity == lines[i].quantity && lines[i].quantity > 0.0 &&
        all[i].unitPrice == (if lines[i].unitPrice < 0.0 then 0.0 else lines[i].unitPrice) &&
        all[i].total == Round(Amount(lines[i])) && Priced(all)
    decreases lines
  {
    hide Round, IsCents, Amount;
    if lines != [] {
      RoundIsNear(Amount(lines[0]));
      AmountIsNotNegative(lines[0]);
      RoundOfNonNegative(Amount(lines[0]));
      NormalizedLines(lines[1..], position + 1);
    }
  }

  /** Each accepted line costs its quantity times its unit price, rounded. */
  lemma LinesArePriced(lines: seq<LinePayload>, position: nat, i: nat)
    requires NormalizeEach(lines, position).Success? && i < |lines|
    ensures
      var all := NormalizeEach(lines, position).value;
      |all| == |lines| && all[i].total == Round(all[i].quantity * all[i].unitPrice)
  {
    hide *;
    NormalizedLines(lines, position);
    var line := NormalizeEach(lines, position).value[i];
    LineCosts(lines[i], line.quantity, line.unitPrice);
    assert line.total == Round(Amount(lines[i]));
    assert Amount(lines[i]) == line.quantity * line.unitPrice;
    assert line.total == Round(line.quantity * line.unitPrice);
  }

  lemma LineCosts(line: LinePayload, quantity: real, unitPrice: real)
    requires line.quantity > 0.0 && quantity == line.quantity
    requires unitPrice == if line.unitPrice < 0.0 then 0.0 else line.unitPrice
    ensures Amount(line) == quantity * unitPrice
  {
  }

  lemma AmountIsNotNegative(line: LinePayload)
    ensures Amount(line) >= 0.0
  {
    ProductsGrow(0.0, AtLeast0(line.quantity), 0.0, AtLeast0(line.unitPrice));
  }

  /** Validation fails exactly on an empty list, a line without description, or a quantity that is not positive. */
  lemma {:induction false} RefusedExactly(lines: seq<LinePayload>, position: nat)
    ensures NormalizeEach(lines, position).Failure? <==>
            exists i | 0 <= i < |lines| :: lines[i].description == "" || lines[i].quantity <= 0.0
    decreases lines
  {
    if lines != [] {
      RefusedExactly(lines[1..], position + 1);
      assert forall i | 0 < i < |lines| :: lines[i] == lines[1..][i - 1];
      if i :| 0 <= i < |lines[1..]| && (lines[1..][i].description == "" || lines[1..][i].quantity <= 0.0) {
        assert lines[i + 1] == lines[1..][i];
      }
    }
  }

  // ---------- The subtotal ----------

  function Unrounded(lines: seq<LinePayload>): real {
    if lines == [] then 0.0 else Amount(lines[0]) + Unrounded(lines[1..])
  }

  /** Half a cent and the epsilon for each of `n` lines. */
  function Slack(n: nat): real {
    if n == 0 then 0.0 else Slack(n - 1) + (0.005 + EPSILON)
  }

  /** The sum of the line totals is within n half cents, and n epsilons, of the unrounded sum. */
  lemma {:induction false} SumIsNear(lines: seq<LinePayload>, position: nat)
    requires NormalizeEach(lines, position).Success?
    ensures
      var sum := SumTotals(NormalizeEach(lines, position).value);
      Unrounded(lines) - Slack(|lines|) <= sum <= Unrounded(lines) + Slack(|lines|)
    decreases lines
  {
    hide Round, Amount;
    if lines != [] {
      RoundIsNear(Amount(lines[0]));
      SumIsNear(lines[1..], position + 1);
      var all := NormalizeEach(lines, position).value;
      assert all[1..] == NormalizeEach(lines[1..], position + 1).value;
    }
  }

  /** All lines are checked, and the hundred first are kept. */
  lemma KeptLines(lines: seq<LinePayload>)
    requires NormalizeLines(lines).Success?
    ensures NormalizeEach(lines, 1).Success? && lines != []
    ensures
      var all := NormalizeEach(lines, 1).value;
      NormalizeLines(lines).value == if |all| > 100 then all[..100] else all
  {
    hide NormalizeEach;
  }

  /** Rounding the sum of rounded line totals again changes nothing. */
  lemma SubtotalIsSum(lines: seq<Line>, taxRate: real, discountTotal: real)
    requires Priced(lines)
    ensures CalculateTotals(lines, taxRate, discountTotal).subtotal == SumTotals(lines)
  {
    hide Round, IsCents, SumTotals, Taxable;
    SumIsCents(lines);
    RoundKeepsCents(SumTotals(lines));
  }

  lemma {:induction false} SumSplits(a: seq<Line>, b: seq<Line>)
    ensures SumTotals(a + b) == SumTotals(a) + SumTotals(b)
  {
    if a == [] {
      assert a + b == b;
    } else {
      assert (a + b)[1..] == a[1..] + b;
      SumSplits(a[1..], b);
    }
  }

  /** The subtotal covers every validated line exactly when the lines after the hundredth add nothing. */
  lemma SubtotalCoversAllExactly(lines: seq<LinePayload>, taxRate: real, discountTotal: real)
    requires NormalizeLines(lines).Success?
    ensures
      var all := NormalizeEach(lines, 1).value;
      CalculateTotals(NormalizeLines(lines).value, taxRate, discountTotal).subtotal == SumTotals(all) <==>
      (|all| > MAX_LINES ==> SumTotals(all[MAX_LINES..]) == 0.0)
  {
    hide Round, IsCents, NormalizeLines, NormalizeEach, CalculateTotals, Priced, Amount;
    KeptLines(lines);
    var all := NormalizeEach(lines, 1).value;
    NormalizedLines(lines, 1);
    if |all| > MAX_LINES {
      PricedPrefix(all, MAX_LINES);
      SubtotalIsSum(all[..MAX_LINES], taxRate, discountTotal);
      SumSplits(all[..MAX_LINES], all[MAX_LINES..]);
      assert all[..MAX_LINES] + all[MAX_LINES..] == all;
    } else {
      SubtotalIsSum(all, taxRate, discountTotal);
    }
  }

  lemma PricedPrefix(lines: seq<Line>, n: nat)
    requires Priced(lines) && n <= |lines|
    ensures Priced(lines[..n])
  {
    hide IsCents;
  }

  // ---------- Order ----------

  /** What a line adds to the sum of all totals, or of the taxable ones. */
  function Share(line: LinePayload, taxableOnly: bool): real {
    if taxableOnly && !line.taxable then 0.0 else Round(Amount(line))
  }

  function PayloadSum(lines: seq<LinePayload>, taxableOnly: bool): real {
    if lines == [] then 0.0 else Share(lines[0], taxableOnly) + PayloadSum(lines[1..], taxableOnly)
  }

  lemma {:induction false} SumsFromPayloads(lines: seq<LinePayload>, position: nat)
    requires NormalizeEach(lines, position).Success?
    ensures
      var all := NormalizeEach(lines, position).value;
      SumTotals(all) == PayloadSum(lines, false) && SumTotals(Taxable(all)) == PayloadSum(lines, true)
    decreases lines
  {
    hide Round, Amount;
    if lines != [] {
      SumsFromPayloads(lines[1..], position + 1);
      var all := NormalizeEach(lines, position).value;
      assert all[1..] == NormalizeEach(lines[1..], position + 1).value;
      if all[0].taxable {
        assert Taxable(all)[1..] == Taxable(all[1..]);
      }
    }
  }

  lemma {:induction false} SumWithout(lines: seq<LinePayload>, i: nat, taxableOnly: bool)
    requires i < |lines|
    ensures PayloadSum(lines, taxableOnly) ==
            Share(lines[i], taxableOnly) + PayloadSum(lines[..i] + lines[i + 1..], taxableOnly)
  {
    hide Share;
    var rest := lines[..i] + lines[i + 1..];
    if i == 0 {
      assert rest == lines[1..];
    } else {
      SumWithout(lines[1..], i - 1, taxableOnly);
      assert rest[0] == lines[0] && rest[1..] == lines[1..][..i - 1] + lines[1..][i..];
      assert PayloadSum(rest, taxableOnly) == Share(lines[0], taxableOnly) + PayloadSum(rest[1..], taxableOnly);
    }
  }

  lemma WithoutOne(b: seq<LinePayload>, i: nat)
    requires i < |b|
    ensures multiset(b) == multiset{b[i]} + multiset(b[..i] + b[i + 1..])
  {
    assert b == b[..i] + [b[i]] + b[i + 1..];
  }

  lemma {:induction false} SumIgnoresOrder(a: seq<LinePayload>, b: seq<LinePayload>, taxableOnly: bool)
    requires multiset(a) == multiset(b)
    ensures PayloadSum(a, taxableOnly) == PayloadSum(b, taxableOnly)
    decreases a
  {
    hide *;
    assert |a| == |multiset(a)| == |b|;
    if a != [] {
      assert a[0] in multiset(b);
      var i :| 0 <= i < |b| && b[i] == a[0];
      var rest := b[..i] + b[i + 1..];
      SumWithout(b, i, taxableOnly);
      SumWithout(a, 0, taxableOnly);
      assert a[..0] + a[1..] == a[1..];
      RestIsSame(a, b, i);
      SumIgnoresOrder(a[1..], rest, taxableOnly);
    } else {
      assert b == [];
    }
  }

  lemma RestIsSame(a: seq<LinePayload>, b: seq<LinePayload>, i: nat)
    requires a != [] && i < |b| && a[0] == b[i] && multiset(a) == multiset(b)
    ensures multiset(a[1..]) == multiset(b[..i] + b[i + 1..])
  {
    WithoutOne(a, 0);
    WithoutOne(b, i);
    assert a[..0] + a[1..] == a[1..];
    Cancel(multiset(a[1..]), multiset(b[..i] + b[i + 1..]), a[0]);
  }

  lemma Cancel<T>(a: multiset<T>, b: multiset<T>, x: T)
    requires multiset{x} + a == multiset{x} + b
    ensures a == b
  {
    forall y ensures a[y] == b[y] {
      assert (multiset{x} + a)[y] == (multiset{x} + b)[y];
    }
  }

  /** Up to a hundred lines, neither validity nor any total depends on the order of the lines. */
  lemma TotalsIgnoreOrder(a: seq<LinePayload>, b: seq<LinePayload>, taxRate: real, discountTotal: real)
    requires multiset(a) == multiset(b) && |a| <= MAX_LINES
    ensures NormalizeLines(a).Success? <==> NormalizeLines(b).Success?
    ensures NormalizeLines(a).Success? ==>
      CalculateTotals(NormalizeLines(a).value, taxRate, discountTotal) ==
        CalculateTotals(NormalizeLines(b).value, taxRate, discountTotal)
  {
    assert MAX_LINES == 100;
    hide *;
    assert |a| == |multiset(a)| == |b|;
    RefusedExactly(a, 1);
    RefusedExactly(b, 1);
    SameLines(a, b);
    SuccessIsEach(a);
    SuccessIsEach(b);
    if NormalizeLines(a).Success? {
      KeptLines(a);
      KeptLines(b);
      NormalizedLines(a, 1);
      NormalizedLines(b, 1);
      SumsFromPayloads(a, 1);
      SumsFromPayloads(b, 1);
      SumIgnoresOrder(a, b, false);
      SumIgnoresOrder(a, b, true);
      TotalsFromSums(NormalizeLines(a).value, NormalizeLines(b).value, taxRate, discountTotal);
    }
  }

  lemma SuccessIsEach(lines: seq<LinePayload>)
    ensures NormalizeLines(lines).Success? <==> lines != [] && NormalizeEach(lines, 1).Success?
  {
    hide NormalizeEach;
  }

  lemma TotalsFromSums(a: seq<Line>, b: seq<Line>, taxRate: real, discountTotal: real)
    requires SumTotals(a) == SumTotals(b) && SumTotals(Taxable(a)) == SumTotals(Taxable(b))
    ensures CalculateTotals(a, taxRate, discountTotal) == CalculateTotals(b, taxRate, discountTotal)
  {
    hide Round, Tax;
  }

  lemma SameLines(a: seq<LinePayload>, b: seq<LinePayload>)
    requires multiset(a) == multiset(b)
    ensures (exists i | 0 <= i < |a| :: a[i].description == "" || a[i].quantity <= 0.0) <==>
            (exists i | 0 <= i < |b| :: b[i].description == "" || b[i].quantity <= 0.0)
  {
    forall x ensures x in a <==> x in b {
      assert x in a <==> x in multiset(a);
      assert x in b <==> x in multiset(b);
    }
    if i :| 0 <= i < |a| && (a[i].description == "" || a[i].quantity <= 0.0) {
      assert a[i] in b;
    }
    if i :| 0 <= i < |b| && (b[i].description == "" || b[i].quantity <= 0.0) {
      assert b[i] in a;
    }
  }

  lemma {:induction false} NormalizePrefix(lines: seq<LinePayload>, n: nat, position: nat)
    requires n <= |lines| && NormalizeEach(lines, position).Success?
    ensures |NormalizeEach(lines, position).value| == |lines|
    ensures NormalizeEach(lines[..n], position) == Success(NormalizeEach(lines, position).value[..n])
    decreases lines
  {
    hide NormalizeLine;
    if n > 0 {
      NormalizePrefix(lines[1..], n - 1, position + 1);
      assert lines[..n][1..] == lines[1..][..n - 1] && lines[..n][0] == lines[0];
      var all, tail := NormalizeEach(lines, position).value, NormalizeEach(lines[1..], position + 1).value;
      assert all[..n] == [all[0]] + tail[..n - 1];
    } else if lines != [] {
      NormalizePrefix(lines[1..], 0, position + 1);
    }
  }

  /** What accepted lines add up to: all of them, or the taxable ones. */
  function Charged(lines: seq<LinePayload>, taxableOnly: bool): real
    requires NormalizeLines(lines).Success?
  {
    var kept := NormalizeLines(lines).value;
    SumTotals(if taxableOnly then Taxable(kept) else kept)
  }

  lemma ChargedIsFirstHundred(lines: seq<LinePayload>, taxableOnly: bool)
    requires NormalizeLines(lines).Success?
    ensures Charged(lines, taxableOnly) ==
            PayloadSum(if |lines| > MAX_LINES then lines[..MAX_LINES] else lines, taxableOnly)
  {
    hide Round, NormalizeLines, NormalizeEach, Priced, Amount, PayloadSum, SumTotals, Taxable;
    KeptLines(lines);
    NormalizedLines(lines, 1);
    if |lines| > MAX_LINES {
      NormalizePrefix(lines, MAX_LINES, 1);
      SumsFromPayloads(lines[..MAX_LINES], 1);
    } else {
      SumsFromPayloads(lines, 1);
    }
  }

  /** The subtotal of accepted lines; tax rate and discount do not enter it. */
  function Subtotal(lines: seq<LinePayload>): real
    requires NormalizeLines(lines).Success?
  {
    CalculateTotals(NormalizeLines(lines).value, 0.0, 0.0).subtotal
  }

  lemma Reordered(a: seq<LinePayload>, b: seq<LinePayload>)
    requires multiset(a) == multiset(b) && NormalizeLines(a).Success?
    ensures |a| == |b| && NormalizeLines(b).Success?
  {
    hide *;
    assert |a| == |multiset(a)| == |b|;
    RefusedExactly(a, 1);
    RefusedExactly(b, 1);
    SameLines(a, b);
    SuccessIsEach(a);
    SuccessIsEach(b);
  }

  /** The lines in another order: accepted too, with the same sum. */
  predicate SameSum(lines: seq<LinePayload>, other: seq<LinePayload>, taxableOnly: bool)
    requires NormalizeLines(lines).Success?
  {
    NormalizeLines(other).Success? && Charged(other, taxableOnly) == Charged(lines, taxableOnly)
  }

  predicate SameShare(lines: seq<LinePayload>, taxableOnly: bool) {
    forall i, j | 0 <= i < |lines| && 0 <= j < |lines| :: Share(lines[i], taxableOnly) == Share(lines[j], taxableOnly)
  }

  lemma {:induction false} EqualShares(a: seq<LinePayload>, b: seq<LinePayload>, share: real, taxableOnly: bool)
    requires |a| == |b| && (forall x | x in a :: Share(x, taxableOnly) == share)
    requires forall x | x in b :: Share(x, taxableOnly) == share
    ensures PayloadSum(a, taxableOnly) == PayloadSum(b, taxableOnly)
  {
    hide Share;
    if a != [] {
      assert a[0] in a && b[0] in b;
      assert forall x | x in a[1..] :: x in a;
      assert forall x | x in b[1..] :: x in b;
      EqualShares(a[1..], b[1..], share, taxableOnly);
    }
  }

  lemma SameShareIgnoresOrder(a: seq<LinePayload>, b: seq<LinePayload>, taxableOnly: bool)
    requires NormalizeLines(a).Success? && multiset(a) == multiset(b) && (|a| <= MAX_LINES || SameShare(a, taxableOnly))
    ensures SameSum(a, b, taxableOnly)
  {
    hide Share, NormalizeLines, Charged, PayloadSum;
    Reordered(a, b);
    ChargedIsFirstHundred(a, taxableOnly);
    ChargedIsFirstHundred(b, taxableOnly);
    if |a| <= MAX_LINES {
      SumIgnoresOrder(a, b, taxableOnly);
    } else {
      var share := Share(a[0], taxableOnly);
      forall x | x in b[..MAX_LINES] ensures Share(x, taxableOnly) == share {
        assert x in b && x in multiset(b) && x in multiset(a) && x in a;
      }
      EqualShares(a[..MAX_LINES], b[..MAX_LINES], share, taxableOnly);
    }
  }

  function Swapped(lines: seq<LinePayload>, p: nat, q: nat): (swapped: seq<LinePayload>)
    requires p < q < |lines|
    ensures |swapped| == |lines|
  {
    lines[p := lines[q]][q := lines[p]]
  }

  lemma SwapIsReordering(lines: seq<LinePayload>, p: nat, q: nat)
    requires p < q < |lines|
    ensures multiset(Swapped(lines, p, q)) == multiset(lines)
  {
  }

  /** Replacing one line changes the sum by the difference of the two shares. */
  lemma ReplaceOne(lines: seq<LinePayload>, p: nat, x: LinePayload, taxableOnly: bool)
    requires p < |lines|
    ensures PayloadSum(lines[p := x], taxableOnly) ==
            PayloadSum(lines, taxableOnly) - Share(lines[p], taxableOnly) + Share(x, taxableOnly)
  {
    hide Share, PayloadSum;
    SumWithout(lines, p, taxableOnly);
    SumWithout(lines[p := x], p, taxableOnly);
    assert lines[p := x][..p] == lines[..p] && lines[p := x][p + 1..] == lines[p + 1..];
  }

  lemma SwapChangesSum(lines: seq<LinePayload>, p: nat, q: nat, taxableOnly: bool)
    requires NormalizeLines(lines).Success? && p < MAX_LINES <= q < |lines|
    requires Share(lines[p], taxableOnly) != Share(lines[q], taxableOnly)
    ensures multiset(Swapped(lines, p, q)) == multiset(lines) && !SameSum(lines, Swapped(lines, p, q), taxableOnly)
  {
    hide Share, NormalizeLines, Charged, PayloadSum;
    var swapped := Swapped(lines, p, q);
    SwapIsReordering(lines, p, q);
    Reordered(lines, swapped);
    ChargedIsFirstHundred(lines, taxableOnly);
    ChargedIsFirstHundred(swapped, taxableOnly);
    assert swapped[..MAX_LINES] == lines[..MAX_LINES][p := lines[q]];
    ReplaceOne(lines[..MAX_LINES], p, lines[q], taxableOnly);
  }

  lemma DifferentAcrossTheCut(lines: seq<LinePayload>, taxableOnly: bool) returns (p: nat, q: nat)
    requires |lines| > MAX_LINES && !SameShare(lines, taxableOnly)
    ensures p < MAX_LINES <= q < |lines| && Share(lines[p], taxableOnly) != Share(lines[q], taxableOnly)
  {
    hide Share;
    var i, j :| 0 <= i < |lines| && 0 <= j < |lines| && Share(lines[i], taxableOnly) != Share(lines[j], taxableOnly);
    var last := |lines| - 1;
    if i < MAX_LINES && j < MAX_LINES {
      p, q := if Share(lines[i], taxableOnly) != Share(lines[last], taxableOnly) then i else j, last;
    } else if i >= MAX_LINES && j >= MAX_LINES {
      p, q := 0, if Share(lines[0], taxableOnly) != Share(lines[i], taxableOnly) then i else j;
    } else if i < MAX_LINES {
      p, q := i, j;
    } else {
      p, q := j, i;
    }
  }

  /** One sum is the same in every order exactly for at most a hundred lines or equal shares in it. */
  lemma SumIgnoresOrderExactly(lines: seq<LinePayload>, taxableOnly: bool)
    requires NormalizeLines(lines).Success?
    ensures (forall other: seq<LinePayload> | multiset(other) == multiset(lines) ::
        SameSum(lines, other, taxableOnly)) <==>
            |lines| <= MAX_LINES || SameShare(lines, taxableOnly)
  {
    hide NormalizeLines, Share, Charged, SameSum, SameShare;
    if |lines| <= MAX_LINES || SameShare(lines, taxableOnly) {
      forall other: seq<LinePayload> | multiset(other) == multiset(lines) ensures SameSum(lines, other, taxableOnly) {
        SameShareIgnoresOrder(lines, other, taxableOnly);
      }
    } else {
      var p, q := DifferentAcrossTheCut(lines, taxableOnly);
      SwapChangesSum(lines, p, q, taxableOnly);
    }
  }

  /** The lines in another order: accepted too, with the same totals at every tax rate and discount. */
  ghost predicate SameTotals(lines: seq<LinePayload>, other: seq<LinePayload>)
    requires NormalizeLines(lines).Success?
  {
    NormalizeLines(other).Success? &&
    forall taxRate: real, discountTotal: real | 0.0 <= taxRate && 0.0 <= discountTotal ::
      CalculateTotals(NormalizeLines(other).value, taxRate, discountTotal) ==
      CalculateTotals(NormalizeLines(lines).value, taxRate, discountTotal)
  }

  /** Without a discount, all of the taxable sum is due at a rate of a hundred percent. */
  lemma FullRate(lines: seq<Line>)
    requires Priced(lines)
    ensures CalculateTotals(lines, 100.0, 0.0).taxTotal == SumTotals(Taxable(lines))
  {
    hide Round, IsCents, SumTotals, Taxable, Priced;
    TaxableIsPriced(lines);
    SumIsCents(Taxable(lines));
    RoundKeepsCents(SumTotals(Taxable(lines)));
  }

  lemma KeptArePriced(lines: seq<LinePayload>)
    requires NormalizeLines(lines).Success?
    ensures Priced(NormalizeLines(lines).value)
  {
    hide Round, IsCents, NormalizeLines, NormalizeEach, Amount, Priced;
    KeptLines(lines);
    NormalizedLines(lines, 1);
    var all := NormalizeEach(lines, 1).value;
    if |all| > MAX_LINES {
      PricedPrefix(all, MAX_LINES);
    }
  }

  /** All totals agree exactly when both sums do. */
  lemma TotalsAreTheSums(lines: seq<LinePayload>, other: seq<LinePayload>)
    requires NormalizeLines(lines).Success?
    ensures SameTotals(lines, other) <==> SameSum(lines, other, false) && SameSum(lines, other, true)
  {
    hide NormalizeLines, CalculateTotals, SumTotals, Taxable, Priced;
    if NormalizeLines(other).Success? {
      var a, b := NormalizeLines(lines).value, NormalizeLines(other).value;
      KeptArePriced(lines);
      KeptArePriced(other);
      SubtotalIsSum(a, 100.0, 0.0);
      SubtotalIsSum(b, 100.0, 0.0);
      FullRate(a);
      FullRate(b);
      if SameSum(lines, other, false) && SameSum(lines, other, true) {
        forall taxRate: real, discountTotal: real | 0.0 <= taxRate && 0.0 <= discountTotal
          ensures CalculateTotals(b, taxRate, discountTotal) == CalculateTotals(a, taxRate, discountTotal)
        {
          TotalsFromSums(b, a, taxRate, discountTotal);
        }
      } else {
        assert CalculateTotals(b, 100.0, 0.0) != CalculateTotals(a, 100.0, 0.0);
      }
    }
  }

  /**
   The totals of accepted lines are the same in every order, at every tax rate and discount, exactly when there are at
   most a hundred lines, or all lines add the same to the subtotal and the same to the taxable subtotal.
   */
  lemma OrderIsIrrelevantExactly(lines: seq<LinePayload>)
    requires NormalizeLines(lines).Success?
    ensures (forall other: seq<LinePayload> | multiset(other) == multiset(lines) :: SameTotals(lines, other)) <==>
            |lines| <= MAX_LINES || (SameShare(lines, false) && SameShare(lines, true))
  {
    hide NormalizeLines, SameTotals, SameSum, SameShare;
    SumIgnoresOrderExactly(lines, false);
    SumIgnoresOrderExactly(lines, true);
    forall other: seq<LinePayload> | multiset(other) == multiset(lines)
      ensures SameTotals(lines, other) <==> SameSum(lines, other, false) && SameSum(lines, other, true)
    {
      TotalsAreTheSums(lines, other);
    }
  }

  /** The subtotal of up to a hundred lines is within n half cents, and n epsilons, of the unrounded sum. */
  lemma SubtotalIsNear(lines: seq<LinePayload>)
    requires NormalizeLines(lines).Success? && |lines| <= MAX_LINES
    ensures Unrounded(lines) - Slack(|lines|) <= Subtotal(lines) <= Unrounded(lines) + Slack(|lines|)
  {
    hide NormalizeLines, NormalizeEach, CalculateTotals, Unrounded, Slack, SumTotals, Priced, IsCents, Round, Amount;
    KeptLines(lines);
    NormalizedLines(lines, 1);
    SubtotalIsSum(NormalizeEach(lines, 1).value, 0.0, 0.0);
    SumIsNear(lines, 1);
  }

  // ---------- Total, discount and tax ----------

  /** The total is never negative, never grows with the discount and never shrinks with the tax rate. */
  lemma TotalIsMonotone(lines: seq<Line>, taxRate: real, taxRate': real, discount: real, discount': real)
    requires 0.0 <= taxRate <= taxRate' && 0.0 <= discount' <= discount
    ensures 0.0 <= CalculateTotals(lines, taxRate, discount).total <= CalculateTotals(lines, taxRate', discount').total
    ensures 0.0 <= CalculateTotals(lines, taxRate, discount).taxTotal <=
            CalculateTotals(lines, taxRate', discount').taxTotal
  {
    hide Round, Tax;
    var subtotal, taxable := Round(SumTotals(lines)), Round(SumTotals(Taxable(lines)));
    var base, base' := AtLeast0(taxable - discount), AtLeast0(taxable - discount');
    TaxGrows(base, base', taxRate, taxRate');
    var tax, tax' := Tax(base, taxRate), Tax(base', taxRate');
    RoundGrows(AtLeast0(subtotal - discount + tax), AtLeast0(subtotal - discount' + tax'));
    RoundOfNonNegative(AtLeast0(subtotal - discount + tax));
  }

  /**
   With a discount in cents the total is exactly what its parts add up to, and the tax is within a rounding of its
   rate.
   */
  lemma TotalIsSumOfParts(lines: seq<Line>, taxRate: real, discount: real)
    requires Priced(lines) && IsCents(discount)
    ensures
      var t, base := CalculateTotals(lines, taxRate, discount), AtLeast0(SumTotals(Taxable(lines)) - discount);
      t.subtotal == SumTotals(lines) && t.total == AtLeast0(t.subtotal - discount + t.taxTotal) &&
      base * (taxRate / 100.0) + EPSILON - 0.005 < t.taxTotal <= base * (taxRate / 100.0) + EPSILON + 0.005
  {
    hide Round, IsCents, Priced, Tax, AtLeast0;
    TaxableIsPriced(lines);
    SumIsCents(lines);
    SumIsCents(Taxable(lines));
    RoundKeepsCents(SumTotals(lines));
    RoundKeepsCents(SumTotals(Taxable(lines)));
    var base := AtLeast0(SumTotals(Taxable(lines)) - discount);
    TaxIsNear(base, taxRate);
    TotalInCents(SumTotals(lines), Tax(base, taxRate), discount);
  }

  lemma TotalInCents(subtotal: real, tax: real, discount: real)
    requires IsCents(subtotal) && IsCents(tax) && IsCents(discount)
    ensures Round(AtLeast0(subtotal - discount + tax)) == AtLeast0(subtotal - discount + tax)
  {
    hide Round, IsCents;
    CentsSubtract(subtotal, discount);
    CentsAdd(subtotal - discount, tax);
    ZeroIsCents();
    RoundKeepsCents(AtLeast0(subtotal - discount + tax));
  }

  lemma TaxIsNear(base: real, taxRate: real)
    ensures IsCents(Tax(base, taxRate))
    ensures base * (taxRate / 100.0) + EPSILON - 0.005 < Tax(base, taxRate) <=
            base * (taxRate / 100.0) + EPSILON + 0.005
  {
    hide Round, IsCents;
    RoundIsNear(base * (taxRate / 100.0));
  }

  lemma CentsSubtract(a: real, b: real)
    requires IsCents(a) && IsCents(b)
    ensures IsCents(a - b)
  {
    var m, n := (a * 100.0).Floor, (b * 100.0).Floor;
    assert (a - b) * 100.0 == (m - n) as real;
    assert ((m - n) as real).Floor == m - n;
  }

  lemma TaxGrows(base: real, base': real, taxRate: real, taxRate': real)
    requires 0.0 <= base <= base' && 0.0 <= taxRate <= taxRate'
    ensures 0.0 <= Tax(base, taxRate) <= Tax(base', taxRate')
  {
    hide Round;
    ProductsGrow(base, base', taxRate / 100.0, taxRate' / 100.0);
    RoundGrows(base * (taxRate / 100.0), base' * (taxRate' / 100.0));
    RoundOfNonNegative(base * (taxRate / 100.0));
  }

  lemma ProductsGrow(a: real, b: real, x: real, y: real)
    requires 0.0 <= a <= b && 0.0 <= x <= y
    ensures 0.0 <= a * x <= b * y
  {
    ProductIsNotNegative(a, x);
    ProductIsNotNegative(b - a, x);
    ProductIsNotNegative(b, y - x);
    assert b * x == a * x + (b - a) * x;
    assert b * y == b * x + b * (y - x);
  }

  lemma ProductIsNotNegative(a: real, b: real)
    requires 0.0 <= a && 0.0 <= b
    ensures 0.0 <= a * b
  {
  }
}
