/**
 CIDR matching by 32-bit shifts and masks, with JavaScript's conversions, against whole-number prefixes of addresses
 (section 3.1 of RFC 4632).
 */
module Cidr {
  import opened Wrappers

  const TWO_31 := 0x8000_0000
  const TWO_32 := 0x1_0000_0000

  // ---------- Text ----------

  /** The parts of a text between separators. */
  function Split(text: string, separator: char): (parts: seq<string>)
    ensures parts != []
  {
    if text == [] then [""]
    else
      var rest := Split(text[1..], separator);
      if text[0] == separator then [""] + rest
      else [[text[0]] + rest[0]] + rest[1..]
  }

  predicate Digits(text: string) {
    forall i | 0 <= i < |text| :: '0' <= text[i] <= '9'
  }

  function Decimal(text: string): nat
    requires Digits(text)
  {
    if text == [] then 0
    else 10 * Decimal(text[..|text| - 1]) + (text[|text| - 1] as int - '0' as int)
  }

  /** `Number(text)` for plain decimal text; empty text is zero, anything else is NaN. */
  function Number(text: string): Option<int> {
    if Digits(text) then Some(Decimal(text))
    else if text[0] == '-' && |text| > 1 && Digits(text[1..]) then Some(-(Decimal(text[1..]) as int))
    else None
  }

  // ---------- 32-bit integers ----------

  function ToUint32(n: int): (r: nat)
    ensures r < TWO_32
  {
    n % TWO_32
  }

  function ToInt32(n: int): (r: int)
    ensures -TWO_31 <= r < TWO_31
  {
    (n + TWO_31) % TWO_32 - TWO_31
  }

  /** NaN converts to zero. */
  function Value(n: Option<int>): int {
    if n.Some? then n.value else 0
  }

  function Pow2(k: nat): (p: nat)
    ensures p >= 1
  {
    if k == 0 then 1 else 2 * Pow2(k - 1)
  }

  /** `n << k`; only the low five bits of the count are used. */
  function ShiftLeft(n: int, k: int): int {
    ToInt32(ToInt32(n) * Pow2(k % 32))
  }

  /** The bits set in both numbers, of the lowest `width`. */
  function AndBits(a: nat, b: nat, width: nat): nat
    decreases width
  {
    if width == 0 then 0 else 2 * AndBits(a / 2, b / 2, width - 1) + a % 2 * (b % 2)
  }

  /** `a & b` */
  function And32(a: int, b: int): int {
    ToInt32(AndBits(ToUint32(a), ToUint32(b), 32))
  }

  // ---------- The guard's matching ----------

  /** The octets folded from the left, each shift by a byte signed; an octet that is no number makes the sum NaN. */
  function Reduced(octets: seq<string>): Option<int> {
    if octets == [] then Some(0)
    else
      var octet := Number(octets[|octets| - 1]);
      if octet.None? then None else Some(ShiftLeft(Value(Reduced(octets[..|octets| - 1])), 8) + octet.value)
  }

  function ToNumber(text: string): nat {
    ToUint32(Value(Reduced(Split(text, '.'))))
  }

  function Mask(prefix: Option<int>): nat {
    if prefix == Some(0) then 0
    else ToUint32(ShiftLeft(0xffff_ffff, if prefix.None? then 0 else 32 - prefix.value))
  }

  predicate IpMatches(ip: string, rule: string) {
    if '/' !in rule then ip == rule
    else
      var parts := Split(rule, '/');
      var prefix := if |parts| > 1 then Number(parts[1]) else None;
      if prefix.Some? && (prefix.value < 0 || prefix.value > 32) then false
      else And32(ToNumber(ip), Mask(prefix)) == And32(ToNumber(parts[0]), Mask(prefix))
  }

  // ---------- Addresses as whole numbers ----------

  predicate IsOctet(text: string) {
    text != "" && Digits(text) && Decimal(text) <= 255
  }

  predicate WellFormed(ip: string) {
    var octets := Split(ip, '.');
    |octets| == 4 && IsOctet(octets[0]) && IsOctet(octets[1]) && IsOctet(octets[2]) && IsOctet(octets[3])
  }

  function Address(ip: string): (a: nat)
    requires WellFormed(ip)
  {
    var octets := Split(ip, '.');
    Decimal(octets[0]) * 0x100_0000 + Decimal(octets[1]) * 0x1_0000 + Decimal(octets[2]) * 0x100 + Decimal(octets[3])
  }

  lemma AddressFits(ip: string)
    requires WellFormed(ip)
    ensures Address(ip) < TWO_32
  {
  }

  lemma ReducedStep(octets: seq<string>, k: nat)
    requires k < |octets| && IsOctet(octets[k])
    ensures Reduced(octets[..k + 1]) == Some(ShiftLeft(Value(Reduced(octets[..k])), 8) + Decimal(octets[k]))
  {
    hide ShiftLeft, Decimal;
    assert octets[..k + 1][..k] == octets[..k];
  }

  lemma ShiftByte(n: int)
    ensures ToUint32(ShiftLeft(n, 8)) == ToUint32(n * 256)
  {
    PowersOf8();
    SignedIsCongruent(n);
    SignedIsCongruent(ToInt32(n) * 256);
    ScaledCongruence(ToInt32(n), n, 256);
  }

  lemma PowersOf8()
    ensures Pow2(8) == 256
  {
    assert Pow2(4) == 16;
    assert Pow2(5) == 32 && Pow2(6) == 64 && Pow2(7) == 128;
  }

  lemma SignedIsCongruent(n: int)
    ensures ToUint32(ToInt32(n)) == ToUint32(n)
  {
  }

  lemma ScaledCongruence(a: int, b: int, k: nat)
    requires ToUint32(a) == ToUint32(b)
    ensures ToUint32(a * k) == ToUint32(b * k)
  {
    var q := a / TWO_32 - b / TWO_32;
    assert a == b + TWO_32 * q;
    assert a * k == b * k + TWO_32 * (q * k);
    Periodic(b * k, q * k);
  }

  lemma Periodic(n: int, q: int)
    ensures ToUint32(n + TWO_32 * q) == ToUint32(n)
  {
  }

  lemma SumCongruence(a: int, b: int, c: int)
    requires ToUint32(a) == ToUint32(b)
    ensures ToUint32(a + c) == ToUint32(b + c)
  {
  }

  /** One octet further: congruent to the address read so far. */
  lemma NextOctet(octets: seq<string>, k: nat, sofar: int)
    requires k < |octets| && IsOctet(octets[k]) && ToUint32(Value(Reduced(octets[..k]))) == ToUint32(sofar)
    ensures ToUint32(Value(Reduced(octets[..k + 1]))) == ToUint32(sofar * 256 + Decimal(octets[k]))
  {
    hide ShiftLeft, Decimal, ToUint32, Reduced, IsOctet;
    var before := Value(Reduced(octets[..k]));
    ReducedStep(octets, k);
    ShiftByte(before);
    ScaledCongruence(before, sofar, 256);
    SumCongruence(ShiftLeft(before, 8), sofar * 256, OctetValue(octets[k]));
  }

  function OctetValue(text: string): nat
    requires IsOctet(text)
  {
    Decimal(text)
  }

  /** The signed shifts and additions, read as an unsigned number, give the address. */
  lemma ToNumberIsAddress(ip: string)
    requires WellFormed(ip)
    ensures ToNumber(ip) == Address(ip)
  {
    hide ShiftLeft, Decimal, Reduced;
    var octets := Split(ip, '.');
    EmptyReduced(octets);
    NextOctet(octets, 0, 0);
    NextOctet(octets, 1, Decimal(octets[0]));
    NextOctet(octets, 2, Decimal(octets[0]) * 256 + Decimal(octets[1]));
    NextOctet(octets, 3, (Decimal(octets[0]) * 256 + Decimal(octets[1])) * 256 + Decimal(octets[2]));
    assert octets[..4] == octets;
    AddressFits(ip);
  }

  lemma EmptyReduced(octets: seq<string>)
    ensures Value(Reduced(octets[..0])) == 0
  {
    assert octets[..0] == [];
  }

  /** Octets that are no numbers: the last one makes the whole address zero, and any other only what precedes it. */
  lemma OddOctets(text: string)
    ensures
      var octets := Split(text, '.');
      var last := |octets| - 1;
      (Number(octets[last]).None? ==> ToNumber(text) == 0) &&
      (last >= 1 && Number(octets[last - 1]).None? && IsOctet(octets[last]) ==>
         ToNumber(text) == Decimal(octets[last]))
  {
    hide Split, Number, Decimal;
    var octets := Split(text, '.');
    var before := octets[..|octets| - 1];
    if |octets| >= 2 && Number(octets[|octets| - 2]).None? && IsOctet(octets[|octets| - 1]) {
      assert before[|before| - 1] == octets[|octets| - 2];
      assert Reduced(before) == None;
      ShiftedZero();
      assert Number(octets[|octets| - 1]) == Some(Decimal(octets[|octets| - 1])) by {
        NumberOfDigits(octets[|octets| - 1]);
      }
    }
  }

  lemma ShiftedZero()
    ensures ShiftLeft(0, 8) == 0
  {
    PowersOf8();
  }

  lemma NumberOfDigits(text: string)
    requires Digits(text)
    ensures Number(text) == Some(Decimal(text))
  {
  }

  // ---------- Masks ----------

  /** `a` with its lowest `k` bits cleared. */
  function Clear(a: nat, k: nat): nat {
    if k == 0 then a else 2 * Clear(a / 2, k - 1)
  }

  function Drop(a: nat, k: nat): nat {
    if k == 0 then a else Drop(a / 2, k - 1)
  }

  lemma {:induction false} DropIsDivision(a: nat, k: nat)
    ensures Drop(a, k) == a / Pow2(k)
  {
    if k > 0 {
      DropIsDivision(a / 2, k - 1);
      HalfThenDivide(a, Pow2(k - 1));
    }
  }

  lemma HalfThenDivide(a: nat, p: nat)
    requires p >= 1
    ensures a / 2 / p == a / (2 * p)
  {
    var h := a / 2;
    var q, r := h / p, h % p;
    assert h == p * q + r;
    var b := a - 2 * h;
    assert a == (2 * p) * q + (2 * r + b);
    assert 0 <= 2 * r + b < 2 * p;
    QuotientIs(a, 2 * p, q, 2 * r + b);
  }

  lemma QuotientIs(a: int, d: int, q: int, r: int)
    requires d > 0 && 0 <= r < d && a == d * q + r
    ensures a / d == q
  {
    var q', r' := a / d, a % d;
    assert a == d * q' + r';
    assert d * (q - q') == r' - r;
    if q > q' {
      Grows(d, q - q');
    } else if q < q' {
      assert d * (q' - q) == r - r';
      Grows(d, q' - q);
    }
  }

  lemma Grows(d: int, k: int)
    requires d > 0 && k >= 1
    ensures d * k >= d
  {
    assert d * k == d + d * (k - 1);
    assert d * (k - 1) >= 0;
  }

  lemma {:induction false} ClearedAlike(a: nat, b: nat, k: nat)
    ensures Clear(a, k) == Clear(b, k) <==> Drop(a, k) == Drop(b, k)
  {
    if k > 0 {
      ClearedAlike(a / 2, b / 2, k - 1);
    }
  }

  lemma {:induction false} OnesKeepAll(a: nat, width: nat)
    requires a < Pow2(width)
    ensures AndBits(a, Pow2(width) - 1, width) == a
  {
    if width > 0 {
      var ones := Pow2(width) - 1;
      assert ones / 2 == Pow2(width - 1) - 1 && ones % 2 == 1;
      OnesKeepAll(a / 2, width - 1);
    }
  }

  /** A mask of leading ones clears what lies below them. */
  lemma {:induction false} MaskClears(a: nat, k: nat, width: nat)
    requires k <= width && a < Pow2(width)
    ensures Pow2(k) <= Pow2(width) && AndBits(a, Pow2(width) - Pow2(k), width) == Clear(a, k)
  {
    if k == 0 {
      OnesKeepAll(a, width);
    } else {
      hide AndBits, Pow2;
      PowStep(width);
      PowStep(k);
      MaskClears(a / 2, k - 1, width - 1);
      EvenMask(a, Pow2(width - 1) - Pow2(k - 1), width);
    }
  }

  lemma PowStep(k: nat)
    requires k > 0
    ensures Pow2(k) == 2 * Pow2(k - 1)
  {
  }

  lemma EvenMask(a: nat, half: nat, width: nat)
    requires width > 0
    ensures AndBits(a, 2 * half, width) == 2 * AndBits(a / 2, half, width - 1)
  {
    hide AndBits;
    AndUnfolds(a, 2 * half, width);
    assert 2 * half / 2 == half && 2 * half % 2 == 0;
  }

  lemma AndUnfolds(a: nat, b: nat, width: nat)
    requires width > 0
    ensures AndBits(a, b, width) == 2 * AndBits(a / 2, b / 2, width - 1) + a % 2 * (b % 2)
  {
  }

  lemma Pow32()
    ensures Pow2(32) == TWO_32
  {
    PowersOf8();
    assert Pow2(9) == 512 && Pow2(10) == 1024;
    PowAdds(8, 8);
    PowAdds(16, 16);
  }

  lemma {:induction false} PowAdds(a: nat, b: nat)
    ensures Pow2(a + b) == Pow2(a) * Pow2(b)
  {
    if a > 0 {
      PowAdds(a - 1, b);
    }
  }

  lemma {:induction false} PowGrows(a: nat, b: nat)
    requires a <= b
    ensures Pow2(a) <= Pow2(b)
  {
    if a < b {
      PowGrows(a, b - 1);
    }
  }

  /** The shifted mask is the number with `prefix` leading ones. */
  lemma MaskIsLeadingOnes(prefix: int)
    requires 1 <= prefix <= 32
    ensures Mask(Some(prefix)) == TWO_32 - Pow2(32 - prefix)
  {
    hide Pow2;
    var k := 32 - prefix;
    PowGrows(k, 31);
    Pow31();
    assert ToInt32(0xffff_ffff) == -1;
    assert k % 32 == k;
    assert ShiftLeft(0xffff_ffff, k) == ToInt32(-1 * Pow2(k)) == -(Pow2(k) as int);
  }

  lemma Pow31()
    ensures Pow2(31) == TWO_31
  {
    Pow32();
  }

  lemma AndIsInjective(a: nat, b: nat)
    requires a < TWO_32 && b < TWO_32
    ensures ToInt32(a) == ToInt32(b) <==> a == b
  {
  }

  lemma {:induction false} AndFits(a: nat, b: nat, width: nat)
    ensures AndBits(a, b, width) < Pow2(width)
  {
    if width > 0 {
      AndFits(a / 2, b / 2, width - 1);
    }
  }

  lemma {:induction false} ZeroMask(a: nat, width: nat)
    ensures AndBits(a, 0, width) == 0
  {
    if width > 0 {
      ZeroMask(a / 2, width - 1);
    }
  }

  /** Masking two addresses with a prefix and comparing them is comparing their leading bits. */
  lemma MaskedAlike(a: nat, b: nat, prefix: int)
    requires a < TWO_32 && b < TWO_32 && 0 <= prefix <= 32
    ensures And32(a, Mask(Some(prefix))) == And32(b, Mask(Some(prefix))) <==>
        a / Pow2(32 - prefix) == b / Pow2(32 - prefix)
  {
    hide AndBits, Pow2, Mask, ToInt32;
    Pow32();
    if prefix == 0 {
      ZeroMask(a, 32);
      ZeroMask(b, 32);
      NoMask();
    } else {
      MaskIsLeadingOnes(prefix);
      LeadingOnesCompare(a, b, 32 - prefix, Mask(Some(prefix)));
    }
  }

  lemma LeadingOnesCompare(a: nat, b: nat, k: nat, m: nat)
    requires a < TWO_32 && b < TWO_32 && k <= 32 && m == TWO_32 - Pow2(k)
    ensures And32(a, m) == And32(b, m) <==> a / Pow2(k) == b / Pow2(k)
  {
    hide *;
    MaskedIsCleared(a, k, m);
    MaskedIsCleared(b, k, m);
    ClearedAlike(a, b, k);
    DropIsDivision(a, k);
    DropIsDivision(b, k);
    ClearFits(a, k, m);
    ClearFits(b, k, m);
    AndIsInjective(Clear(a, k), Clear(b, k));
  }

  lemma MaskedIsCleared(a: nat, k: nat, m: nat)
    requires a < TWO_32 && k <= 32 && m == TWO_32 - Pow2(k)
    ensures And32(a, m) == ToInt32(Clear(a, k))
  {
    hide AndBits, Pow2, ToInt32, Clear;
    Pow32();
    MaskClears(a, k, 32);
  }

  lemma ClearFits(a: nat, k: nat, m: nat)
    requires a < TWO_32 && k <= 32 && m == TWO_32 - Pow2(k)
    ensures Clear(a, k) < TWO_32
  {
    hide AndBits, Pow2, Clear;
    Pow32();
    MaskClears(a, k, 32);
    AndFits(a, m, 32);
  }

  lemma NoMask()
    ensures Mask(Some(0)) == 0
  {
  }

  // ---------- What a rule matches ----------

  /** A rule made of a network and a prefix length written in decimal. */
  predicate IsRule(rule: string, network: string, prefix: int) {
    '/' in rule && Split(rule, '/')[0] == network && |Split(rule, '/')| > 1 &&
      Number(Split(rule, '/')[1]) == Some(prefix)
  }

  /**
   For well-formed addresses a rule matches exactly the addresses that share its leading bits; a prefix beyond 32
   matches none.
   */
  lemma MatchIsSharedPrefix(ip: string, rule: string, network: string, prefix: int)
    requires WellFormed(ip) && WellFormed(network) && IsRule(rule, network, prefix)
    ensures IpMatches(ip, rule) <==>
      0 <= prefix <= 32 && Address(ip) / Pow2(32 - prefix) == Address(network) / Pow2(32 - prefix)
  {
    hide Split, Number, WellFormed, Mask, And32, Address, Pow2;
    if 0 <= prefix <= 32 {
      ToNumberIsAddress(ip);
      ToNumberIsAddress(network);
      AddressFits(ip);
      AddressFits(network);
      MaskedAlike(Address(ip), Address(network), prefix);
    }
  }

  /** A rule without a slash matches its own text and no other. */
  lemma PlainRuleIsText(ip: string, rule: string)
    requires '/' !in rule
    ensures IpMatches(ip, rule) <==> ip == rule
  {
  }

  lemma {:induction false} CoarserDivision(a: nat, b: nat, j: nat, k: nat)
    requires j <= k && a / Pow2(j) == b / Pow2(j)
    ensures a / Pow2(k) == b / Pow2(k)
  {
    if j < k {
      CoarserDivision(a, b, j, k - 1);
      DivideOnceMore(a, Pow2(k - 1));
      DivideOnceMore(b, Pow2(k - 1));
    }
  }

  lemma DivideOnceMore(a: nat, p: nat)
    requires p >= 1
    ensures a / (2 * p) == a / p / 2
  {
    var q, r := a / p, a % p;
    assert a == p * q + r;
    var h, b := q / 2, q % 2;
    assert q == 2 * h + b;
    assert p * q == (2 * p) * h + p * b by {
      assert p * q == p * (2 * h + b);
    }
    assert 0 <= p * b + r < 2 * p;
    QuotientIs(a, 2 * p, h, p * b + r);
  }

  /** A match at one prefix length is a match at every shorter one. */
  lemma ShorterPrefixMatches(ip: string, network: string, long: string, short: string, p: int, q: int)
    requires WellFormed(ip) && WellFormed(network) && IsRule(long, network, p) && IsRule(short, network, q)
    requires 0 <= q <= p && IpMatches(ip, long)
    ensures IpMatches(ip, short)
  {
    hide IpMatches, IsRule, WellFormed, Pow2, Address;
    MatchIsSharedPrefix(ip, long, network, p);
    MatchIsSharedPrefix(ip, short, network, q);
    CoarserDivision(Address(ip), Address(network), 32 - p, 32 - q);
  }

  /** At one prefix length matching is reflexive, symmetric and transitive. */
  lemma MatchingIsEquivalence(a: string, b: string, c: string, ruleA: string, ruleB: string, ruleC: string, prefix: int)
    requires WellFormed(a) && WellFormed(b) && WellFormed(c) && 0 <= prefix <= 32
    requires IsRule(ruleA, a, prefix) && IsRule(ruleB, b, prefix) && IsRule(ruleC, c, prefix)
    ensures IpMatches(a, ruleA)
    ensures IpMatches(a, ruleB) <==> IpMatches(b, ruleA)
    ensures IpMatches(a, ruleB) && IpMatches(b, ruleC) ==> IpMatches(a, ruleC)
  {
  }

  // ---------- Rules as they are written ----------

  /** A number below 1000 in decimal, without leading zeros. */
  function Shown(n: nat): string
    requires n < 1000
  {
    if n < 10 then ["0123456789"[n]] else Shown(n / 10) + ["0123456789"[n % 10]]
  }

  lemma {:induction false} ShownIsRead(n: nat)
    requires n < 1000
    ensures Shown(n) != "" && Digits(Shown(n)) && Decimal(Shown(n)) == n
  {
    if n < 10 {
      assert Shown(n)[..0] == "";
      assert forall i | 0 <= i < 10 :: "0123456789"[i] as int == '0' as int + i;
    } else {
      ShownIsRead(n / 10);
      assert Shown(n)[..|Shown(n)| - 1] == Shown(n / 10);
      assert forall i | 0 <= i < 10 :: "0123456789"[i] as int == '0' as int + i;
    }
  }

  lemma {:induction false} SplitOnce(text: string, separator: char, rest: string)
    requires separator !in text
    ensures Split(text + [separator] + rest, separator) == [text] + Split(rest, separator)
  {
    var whole := text + [separator] + rest;
    if text == [] {
      assert whole[1..] == rest;
    } else {
      assert whole[1..] == text[1..] + [separator] + rest;
      assert whole[0] == text[0] && separator !in text[1..];
      SplitOnce(text[1..], separator, rest);
      assert [text[0]] + text[1..] == text;
    }
  }

  lemma {:induction false} SplitNone(text: string, separator: char)
    requires separator !in text
    ensures Split(text, separator) == [text]
  {
    if text != [] {
      assert separator !in text[1..] && [text[0]] + text[1..] == text;
      SplitNone(text[1..], separator);
    }
  }

  /** Four octets with dots between them. */
  function Dotted(a: nat, b: nat, c: nat, d: nat): string
    requires a < 256 && b < 256 && c < 256 && d < 256
  {
    Shown(a) + "." + (Shown(b) + "." + (Shown(c) + "." + Shown(d)))
  }

  lemma NoSeparator(text: string, separator: char)
    requires Digits(text) && (separator < '0' || separator > '9')
    ensures separator !in text
  {
  }

  lemma DottedIsAddress(a: nat, b: nat, c: nat, d: nat)
    requires a < 256 && b < 256 && c < 256 && d < 256
    ensures WellFormed(Dotted(a, b, c, d)) && '/' !in Dotted(a, b, c, d)
    ensures Address(Dotted(a, b, c, d)) == a * 0x100_0000 + b * 0x1_0000 + c * 0x100 + d
  {
    hide Split, Shown, Decimal, Digits;
    forall n | n in {a, b, c, d}
      ensures IsOctet(Shown(n)) && Decimal(Shown(n)) == n && '.' !in Shown(n) && '/' !in Shown(n)
    {
      ShownIsRead(n);
      NoSeparator(Shown(n), '.');
      NoSeparator(Shown(n), '/');
    }
    SplitOnce(Shown(a), '.', Shown(b) + "." + (Shown(c) + "." + Shown(d)));
    SplitOnce(Shown(b), '.', Shown(c) + "." + Shown(d));
    SplitOnce(Shown(c), '.', Shown(d));
    SplitNone(Shown(d), '.');
    assert Split(Dotted(a, b, c, d), '.') == [Shown(a), Shown(b), Shown(c), Shown(d)];
  }

  lemma SlashIsRule(network: string, suffix: string, prefix: int)
    requires '/' !in network && '/' !in suffix && Number(suffix) == Some(prefix)
    ensures IsRule(network + "/" + suffix, network, prefix)
  {
    hide Split, Number;
    SplitOnce(network, '/', suffix);
    SplitNone(suffix, '/');
  }

  /** A dotted address matches `a.b.c.d/p` exactly when the first `p` bits of the two numbers agree. */
  lemma WrittenRulesMatchExactly(ip: (nat, nat, nat, nat), network: (nat, nat, nat, nat), prefix: nat)
    requires ip.0 < 256 && ip.1 < 256 && ip.2 < 256 && ip.3 < 256
    requires network.0 < 256 && network.1 < 256 && network.2 < 256 && network.3 < 256 && prefix <= 32
    ensures
      var address := ip.0 * 0x100_0000 + ip.1 * 0x1_0000 + ip.2 * 0x100 + ip.3;
      var base := network.0 * 0x100_0000 + network.1 * 0x1_0000 + network.2 * 0x100 + network.3;
      IpMatches(Dotted(ip.0, ip.1, ip.2, ip.3),
                Dotted(network.0, network.1, network.2, network.3) + "/" + Shown(prefix)) <==>
      address / Pow2(32 - prefix) == base / Pow2(32 - prefix)
  {
    hide IpMatches, IsRule, WellFormed, Address, Dotted, Shown, Pow2, Decimal, Digits;
    DottedIsAddress(ip.0, ip.1, ip.2, ip.3);
    DottedIsAddress(network.0, network.1, network.2, network.3);
    ShownIsRead(prefix);
    NoSeparator(Shown(prefix), '/');
    var text, rule := Dotted(network.0, network.1, network.2, network.3), Shown(prefix);
    SlashIsRule(text, rule, prefix);
    MatchIsSharedPrefix(Dotted(ip.0, ip.1, ip.2, ip.3), text + "/" + rule, text, prefix);
  }

  /**
   Behind the slash, no digits at all match every address, a signed number of one or more matches none, and text that
   is no number compares the whole addresses.
   */
  lemma OddPrefixes(ip: string, network: string, suffix: string)
    requires WellFormed(ip) && WellFormed(network) && '/' !in network && '/' !in suffix
    ensures suffix == "" ==> IpMatches(ip, network + "/" + suffix)
    ensures |suffix| > 1 && suffix[0] == '-' && Digits(suffix[1..]) && Decimal(suffix[1..]) > 0 ==>
      !IpMatches(ip, network + "/" + suffix)
    ensures !Digits(suffix) && (suffix[0] == '-' ==> |suffix| == 1 || !Digits(suffix[1..])) ==>
      (IpMatches(ip, network + "/" + suffix) <==> Address(ip) == Address(network))
  {
    hide Split, WellFormed, Address, Decimal, And32, Pow2;
    SplitOnce(network, '/', suffix);
    SplitNone(suffix, '/');
    ToNumberIsAddress(ip);
    ToNumberIsAddress(network);
    AddressFits(ip);
    AddressFits(network);
    assert (network + "/" + suffix)[|network|] == '/';
    if suffix == "" {
      NothingIsZero();
      MaskedAlike(Address(ip), Address(network), 0);
      Pow32();
    } else if Number(suffix) == None {
      MaskedAlike(Address(ip), Address(network), 32);
      NoPower();
    }
  }

  lemma NoPower()
    ensures Pow2(0) == 1
  {
  }

  lemma NothingIsZero()
    ensures Number("") == Some(0)
  {
  }
}
