/** Weighted choice by a stable hash of a seed. */
module Weights {
  datatype Target = Target(provider: string, weight: real)

  // ----- the hash -----

  /** The UTF-16 code units of a character. */
  function CodeUnits(c: char): seq<nat> {
    var n := c as int;
    if n < 0x10000 then [n] else [0xD800 + (n - 0x10000) / 0x400, 0xDC00 + (n - 0x10000) % 0x400]
  }

  function Units(s: string): seq<nat> {
    if s == "" then [] else CodeUnits(s[0]) + Units(s[1..])
  }

  const WORD: nat := 0x1_0000_0000

  const HASH_START: nat := 2166136261

  const HASH_PRIME: nat := 16777619

  function Xor(a: nat, b: nat): nat {
    if a == 0 && b == 0 then 0 else 2 * Xor(a / 2, b / 2) + (if a % 2 == b % 2 then 0 else 1)
  }

  function Mix(h: nat, unit: nat): nat {
    Xor(h, unit) * HASH_PRIME % WORD
  }

  /** 32-bit FNV-1a, over code units instead of bytes; words are kept unsigned here. */
  function Hash(units: seq<nat>): nat {
    if units == [] then HASH_START else Mix(Hash(units[..|units| - 1]), units[|units| - 1])
  }

  /** The size of a 32-bit word read as a signed number. */
  function Magnitude(h: nat): nat {
    if h < WORD / 2 || h >= WORD then h else WORD - h
  }

  /** The start value is not yet a signed word. */
  function SeedNumber(seed: string): nat {
    if seed == "" then HASH_START else Magnitude(Hash(Units(seed)))
  }

  /** n % m for a number m that need not be whole. */
  function Remainder(n: nat, m: real): real
    requires m > 0.0
  {
    n as real - Product((n as real / m).Floor as real, m)
  }

  function Product(a: real, b: real): real {
    a * b
  }

  function StableBucket(seed: string, modulo: real): real
    requires modulo > 0.0
  {
    Remainder(SeedNumber(seed), modulo)
  }

  method ComputeHash(seed: string) returns (n: nat)
    ensures n == SeedNumber(seed)
  {
    var h := HASH_START;
    var units := Units(seed);
    var i := 0;
    while i < |units|
      invariant 0 <= i <= |units| && h == Hash(units[..i])
    {
      assert units[..i] + [units[i]] == units[..i + 1];
      h := Mix(h, units[i]);
      i := i + 1;
    }
    assert units[..|units|] == units;
    n := if seed == "" then HASH_START else Magnitude(h);
  }

  /** One step of FNV-1a in 32 bits: its offset basis is 0x811C9DC5 and its prime 0x01000193. */
  lemma FnvStep(units: seq<nat>, unit: nat)
    ensures Hash([]) == 0x811C9DC5
    ensures Hash(units + [unit]) == Xor(Hash(units), unit) * 0x01000193 % 0x1_0000_0000
  {
    assert (units + [unit])[..|units|] == units;
  }

  /** The number of a seed is the size of its hash read as a signed 32-bit word; the offset basis alone is not one. */
  lemma NumberIsTheSize(seed: string)
    ensures var h := Hash(Units(seed));
      SeedNumber(seed) == if seed == "" || h < 0x8000_0000 then h else 0x1_0000_0000 - h
  {
    if seed != "" {
      var units := Units(seed);
      assert units == CodeUnits(seed[0]) + Units(seed[1..]);
    }
  }

  /** A character outside the basic plane is a pair of surrogates. */
  lemma Surrogates(c: char)
    ensures c as int < 0x10000 ==> Units([c]) == [c as int]
    ensures c as int >= 0x10000 ==>
      var units := Units([c]);
      |units| == 2 && 0xD800 <= units[0] < 0xDC00 <= units[1] < 0xE000 &&
      (units[0] - 0xD800) * 0x400 + (units[1] - 0xDC00) + 0x10000 == c as int
  {
    assert [c][1..] == "" && CodeUnits(c) + [] == CodeUnits(c);
  }

  // ----- the hash tells seeds apart that differ in their last code unit -----

  lemma {:induction false} XorCancels(a: nat, u: nat, v: nat)
    requires Xor(a, u) == Xor(a, v)
    ensures u == v
    decreases a + u + v
  {
    if a + u + v == 0 {
    } else {
      XorCancels(a / 2, u / 2, v / 2);
    }
  }

  function Power(bits: nat): (p: nat)
    ensures p > 0
  {
    if bits == 0 then 1 else 2 * Power(bits - 1)
  }

  function Bit(n: nat, k: nat): nat {
    n / Power(k) % 2
  }

  /** A bit of the result is set exactly when it is set in one of the two and not in the other. */
  lemma {:induction false} XorBits(a: nat, b: nat, k: nat)
    ensures Bit(Xor(a, b), k) == if Bit(a, k) == Bit(b, k) then 0 else 1
    decreases k
  {
    XorHalves(a, b);
    if k == 0 {
    } else {
      XorBits(a / 2, b / 2, k - 1);
      NextBit(a, k);
      NextBit(b, k);
      NextBit(Xor(a, b), k);
    }
  }

  lemma XorHalves(a: nat, b: nat)
    ensures Xor(a, b) / 2 == Xor(a / 2, b / 2)
    ensures Bit(Xor(a, b), 0) == if Bit(a, 0) == Bit(b, 0) then 0 else 1
  {
    LowestBit(a);
    LowestBit(b);
    LowestBit(Xor(a, b));
    var half := Xor(a / 2, b / 2);
    assert Xor(a, b) == 2 * half || Xor(a, b) == 2 * half + 1;
  }

  lemma LowestBit(n: nat)
    ensures Bit(n, 0) == n % 2
  {
  }

  lemma NextBit(n: nat, k: nat)
    requires k > 0
    ensures Bit(n, k) == Bit(n / 2, k - 1)
  {
    Halves(n, k);
  }

  lemma Halves(n: nat, k: nat)
    requires k > 0
    ensures n / Power(k) == n / 2 / Power(k - 1)
  {
    var p := Power(k - 1);
    var q := n / 2 / p;
    assert 0 <= n / 2 - q * p < p;
    assert 0 <= n - q * Power(k) < Power(k);
    QuotientIs(n, Power(k), q);
  }

  lemma QuotientIs(n: nat, m: nat, q: nat)
    requires m > 0 && 0 <= n - q * m < m
    ensures n / m == q
  {
    var r := n - n / m * m;
    assert (n / m - q) * m == n - q * m - r;
    OnlyZeroIsSmall(n / m - q, m);
  }

  lemma {:induction false} XorFits(a: nat, b: nat, bits: nat)
    requires a < Power(bits) && b < Power(bits)
    ensures Xor(a, b) < Power(bits)
    decreases bits
  {
    if bits == 0 {
    } else {
      XorFits(a / 2, b / 2, bits - 1);
    }
  }

  lemma {:induction false} PowerOfSum(a: nat, b: nat)
    ensures Power(a + b) == Power(a) * Power(b)
    decreases a
  {
    if a == 0 {
    } else {
      PowerOfSum(a - 1, b);
    }
  }

  lemma WordIsAPower()
    ensures Power(32) == WORD
  {
    assert Power(4) == 16;
    PowerOfSum(4, 4);
    PowerOfSum(8, 8);
    PowerOfSum(16, 16);
  }

  /** The inverse of the prime: HASH_PRIME * HASH_INVERSE leaves 1 when divided by WORD. */
  const HASH_INVERSE: nat := 899433627

  /** Multiplication by the prime loses nothing of a 32-bit word. */
  lemma PrimeCancels(x: nat)
    requires x < WORD
    ensures x * HASH_PRIME % WORD * HASH_INVERSE % WORD == x
  {
    var k := x * HASH_PRIME / WORD;
    assert x * HASH_PRIME % WORD == x * HASH_PRIME - k * WORD;
  }

  /** Two seeds that differ only in the last code unit have different hashes. */
  lemma LastUnitMatters(units: seq<nat>, u: nat, v: nat)
    requires u < 0x10000 && v < 0x10000
    ensures Hash(units + [u]) == Hash(units + [v]) <==> u == v
  {
    if Hash(units + [u]) == Hash(units + [v]) {
      var h := Hash(units);
      WordIsAPower();
      XorFits(h, u, 32);
      XorFits(h, v, 32);
      PrimeCancels(Xor(h, u));
      PrimeCancels(Xor(h, v));
      XorCancels(h, u, v);
    }
  }

  lemma ProductOrder(a: real, b: real, m: real)
    requires a <= b && m > 0.0
    ensures Product(a, m) <= Product(b, m) && (a < b ==> Product(a, m) < Product(b, m))
  {
  }

  /** A bucket lies from 0 up to the modulus. */
  lemma BucketInRange(n: nat, m: real)
    requires m > 0.0
    ensures 0.0 <= Remainder(n, m) < m
  {
    var x := n as real / m;
    var q := x.Floor as real;
    ProductOrder(q, x, m);
    ProductOrder(x, q + 1.0, m);
  }

  /** For whole numbers it is the remainder of the division. */
  lemma WholeBucket(n: nat, m: nat)
    requires m > 0
    ensures Remainder(n, m as real) == (n % m) as real
  {
    var q, r := n / m, n % m;
    BucketInRange(n, m as real);
    var k := (n as real / m as real).Floor;
    SameQuotient(k, q, m, n, r);
  }

  lemma SameQuotient(k: int, q: int, m: nat, n: int, r: int)
    requires m > 0 && 0 <= n - k * m < m && n == q * m + r && 0 <= r < m
    ensures n - k * m == r
  {
    assert (k - q) * m == r - (n - k * m);
    OnlyZeroIsSmall(k - q, m);
  }

  lemma OnlyZeroIsSmall(d: int, m: int)
    requires 0 - m < d * m < m
    ensures d == 0
  {
  }

  // ----- the choice -----

  function Sum(targets: seq<Target>): real {
    if targets == [] then 0.0 else targets[0].weight + Sum(targets[1..])
  }

  /** The first target whose share the bucket falls in; the last one if there is none. */
  function PickIndex(targets: seq<Target>, bucket: real): (i: nat)
    requires targets != []
    ensures i < |targets|
  {
    if bucket < targets[0].weight || |targets| == 1 then 0
    else 1 + PickIndex(targets[1..], bucket - targets[0].weight)
  }

  function PickWeighted(targets: seq<Target>, seed: string): string
    requires targets != []
  {
    var sum := Sum(targets);
    if sum <= 0.0 then targets[0].provider else targets[PickIndex(targets, StableBucket(seed, sum))].provider
  }

  method Pick(targets: seq<Target>, seed: string) returns (provider: string)
    requires targets != []
    ensures provider == PickWeighted(targets, seed)
  {
    var sum := ComputeSum(targets);
    if sum <= 0.0 { return targets[0].provider; }
    var n := ComputeHash(seed);
    var bucket := Remainder(n, sum);
    ghost var start := bucket;
    var i := 0;
    assert targets[0..] == targets;
    while i < |targets|
      invariant 0 <= i <= |targets|
      invariant i < |targets| ==> PickIndex(targets, start) == i + PickIndex(targets[i..], bucket)
      invariant i == |targets| ==> PickIndex(targets, start) == i - 1
    {
      assert targets[i..][1..] == targets[i + 1..];
      if bucket < targets[i].weight { return targets[i].provider; }
      bucket := bucket - targets[i].weight;
      i := i + 1;
    }
    provider := targets[|targets| - 1].provider;
  }

  method ComputeSum(targets: seq<Target>) returns (sum: real)
    ensures sum == Sum(targets)
  {
    sum := 0.0;
    var i := 0;
    assert targets[0..] == targets;
    while i < |targets|
      invariant 0 <= i <= |targets| && sum + Sum(targets[i..]) == Sum(targets)
    {
      assert targets[i..][1..] == targets[i + 1..];
      sum := sum + targets[i].weight;
      i := i + 1;
    }
  }

  ghost predicate NoNegativeWeights(targets: seq<Target>) {
    forall i :: 0 <= i < |targets| ==> targets[i].weight >= 0.0
  }

  lemma {:induction false} SumIsNotNegative(targets: seq<Target>)
    requires NoNegativeWeights(targets)
    ensures Sum(targets) >= 0.0
  {
    if targets == [] {
    } else {
      SumIsNotNegative(targets[1..]);
    }
  }

  /** Target i is picked exactly for the buckets of its share, which starts where the earlier shares end. */
  lemma {:induction false} SharesAreTheWeights(targets: seq<Target>, bucket: real, i: nat)
    requires NoNegativeWeights(targets) && targets != [] && 0.0 <= bucket < Sum(targets) && i < |targets|
    ensures PickIndex(targets, bucket) == i <==>
      Sum(targets[..i]) <= bucket < Sum(targets[..i]) + targets[i].weight
    decreases |targets|
  {
    var rest := targets[1..];
    if i == 0 {
      assert targets[..0] == [];
    } else {
      assert targets[..i][1..] == rest[..i - 1];
      SumIsNotNegative(rest[..i - 1]);
      if targets[0].weight <= bucket {
        SharesAreTheWeights(rest, bucket - targets[0].weight, i - 1);
      }
    }
  }

  predicate IsWhole(x: real) {
    x == x.Floor as real
  }

  lemma WholeSum(x: real, y: real)
    requires IsWhole(x) && IsWhole(y)
    ensures IsWhole(x + y) && (x + y).Floor == x.Floor + y.Floor
  {
  }

  ghost predicate WholeWeights(targets: seq<Target>) {
    forall i :: 0 <= i < |targets| ==> targets[i].weight >= 0.0 && IsWhole(targets[i].weight)
  }

  lemma {:induction false} SumIsWhole(targets: seq<Target>)
    requires WholeWeights(targets)
    ensures IsWhole(Sum(targets)) && Sum(targets) >= 0.0
  {
    if targets == [] {
    } else {
      SumIsWhole(targets[1..]);
      WholeSum(targets[0].weight, Sum(targets[1..]));
    }
  }

  lemma {:induction false} SplitSum(targets: seq<Target>, i: nat)
    requires i < |targets|
    ensures Sum(targets) == Sum(targets[..i]) + targets[i].weight + Sum(targets[i + 1..])
    decreases i
  {
    if i == 0 {
      assert targets[..0] == [];
    } else {
      SplitSum(targets[1..], i - 1);
      assert targets[..i][1..] == targets[1..][..i - 1];
      assert targets[1..][i..] == targets[i + 1..];
    }
  }

  predicate PicksAt(targets: seq<Target>, bucket: int, i: nat)
    requires targets != []
  {
    PickIndex(targets, bucket as real) == i
  }

  /** The whole buckets for which target i is picked. */
  ghost function BucketsOf(targets: seq<Target>, i: nat): set<int>
    requires targets != []
  {
    set b | 0 <= b < Sum(targets).Floor && PicksAt(targets, b, i)
  }

  /** With whole weights each target gets exactly its weight out of the buckets. */
  lemma EachTargetGetsItsWeight(targets: seq<Target>, i: nat)
    requires WholeWeights(targets) && i < |targets| && Sum(targets) > 0.0
    ensures |BucketsOf(targets, i)| == targets[i].weight.Floor
  {
    var from, n := Sum(targets[..i]).Floor, targets[i].weight.Floor;
    ShareBounds(targets, i);
    forall b ensures b in BucketsOf(targets, i) <==> b in Interval(from, from + n) {
      if 0 <= b < Sum(targets).Floor { WholeShare(targets, b, i); }
    }
    assert BucketsOf(targets, i) == Interval(from, from + n);
    IntervalSize(from, n);
  }

  /** Where the share of target i lies among the buckets. */
  lemma ShareBounds(targets: seq<Target>, i: nat)
    requires WholeWeights(targets) && i < |targets|
    ensures var from, n := Sum(targets[..i]).Floor, targets[i].weight.Floor;
      0 <= from && 0 <= n && from + n <= Sum(targets).Floor && from as real == Sum(targets[..i])
      && n as real == targets[i].weight && IsWhole(Sum(targets))
  {
    SumIsWhole(targets);
    SumIsWhole(targets[..i]);
    SumIsWhole(targets[i + 1..]);
    SplitSum(targets, i);
    WholeSum(Sum(targets[..i]), targets[i].weight);
    WholeSum(Sum(targets[..i]) + targets[i].weight, Sum(targets[i + 1..]));
  }

  lemma WholeShare(targets: seq<Target>, b: int, i: nat)
    requires WholeWeights(targets) && i < |targets| && 0 <= b < Sum(targets).Floor
    ensures PicksAt(targets, b, i) <==>
      b in Interval(Sum(targets[..i]).Floor, Sum(targets[..i]).Floor + targets[i].weight.Floor)
  {
    ShareBounds(targets, i);
    SharesAreTheWeights(targets, b as real, i);
  }

  predicate Between(low: int, b: int, high: int) {
    low <= b < high
  }

  ghost function Interval(low: int, high: int): set<int> {
    set b | low <= b < high && Between(low, b, high)
  }

  lemma {:induction false} IntervalSize(from: int, n: nat)
    ensures |Interval(from, from + n)| == n
    decreases n
  {
    if n == 0 {
      assert Interval(from, from + n) == {};
    } else {
      IntervalSize(from, n - 1);
      assert Interval(from, from + n) == Interval(from, from + n - 1) + {from + n - 1};
    }
  }
}
