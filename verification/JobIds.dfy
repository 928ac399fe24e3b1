/** The ids under which node jobs are queued: the run, the node id in URL-safe base64, and the attempt. */
module JobIds {

  type Octet = b: int | 0 <= b < 256 witness 0

  /** One base64url digit (table 2 of RFC 4648). */
  function Digit(n: int): (c: char)
    requires 0 <= n < 64
  {
    if n < 26 then ('A' as int + n) as char
    else if n < 52 then ('a' as int + (n - 26)) as char
    else if n < 62 then ('0' as int + (n - 52)) as char
    else if n == 62 then '-'
    else '_'
  }

  /** The digits are the capitals, the small letters, the decimal digits, - and _, in this order. */
  lemma DigitsInOrder(n: int)
    requires 0 <= n < 64
    ensures Digit(0) == 'A' && Digit(25) == 'Z' && Digit(26) == 'a' && Digit(51) == 'z'
    ensures Digit(52) == '0' && Digit(61) == '9' && Digit(62) == '-' && Digit(63) == '_'
    ensures n !in {25, 51, 61, 62, 63} ==> Digit(n + 1) as int == Digit(n) as int + 1
  {
  }

  /** base64url without padding, as Node's Buffer writes it. */
  function Base64Url(s: seq<Octet>): string {
    if |s| == 0 then ""
    else if |s| == 1 then FourDigits(s[0], 0, 0)[..2]
    else if |s| == 2 then FourDigits(s[0], s[1], 0)[..3]
    else FourDigits(s[0], s[1], s[2]) + Base64Url(s[3..])
  }

  function FourDigits(a: Octet, b: Octet, c: Octet): (digits: string)
    ensures |digits| == 4
  {
    [Digit(a / 4), Digit(a % 4 * 16 + b / 16), Digit(b % 16 * 4 + c / 64), Digit(c % 64)]
  }

  /** Four digits of six bits each hold three octets, the first one highest. */
  lemma FourDigitsHoldThreeOctets(a: Octet, b: Octet, c: Octet) returns (v: seq<int>)
    ensures |v| == 4 && forall k :: 0 <= k < 4 ==> 0 <= v[k] < 64 && FourDigits(a, b, c)[k] == Digit(v[k])
    ensures v[0] * 262144 + v[1] * 4096 + v[2] * 64 + v[3] == (a as int) * 65536 + (b as int) * 256 + c as int
  {
    v := [a / 4, a % 4 * 16 + b / 16, b % 16 * 4 + c / 64, c % 64];
  }

  /** The UTF-8 form of a character (section 3 of RFC 3629). */
  function Utf8Char(c: char): (s: seq<Octet>)
    ensures |s| > 0 && |s| == Utf8Length(s[0])
  {
    var n := c as int;
    if n < 0x80 then [n]
    else if n < 0x800 then [0xC0 + n / 64, 0x80 + n % 64]
    else if n < 0x10000 then [0xE0 + n / 4096, 0x80 + n / 64 % 64, 0x80 + n % 64]
    else [0xF0 + n / 262144, 0x80 + n / 4096 % 64, 0x80 + n / 64 % 64, 0x80 + n % 64]
  }

  /** The bits of the character, six in each octet after the first, whose high bits tell their number. */
  lemma Utf8HoldsTheCharacter(c: char) returns (v: seq<int>)
    ensures var n, s := c as int, Utf8Char(c);
      && |v| == |s| && (forall k :: 1 <= k < |s| ==> 0 <= v[k] < 64 && s[k] as int == 0x80 + v[k])
      && match |s|
         case 1 => n < 0x80 && s[0] as int == n
         case 2 => 0x80 <= n < 0x800 && s[0] as int == 0xC0 + v[0] && n == 64 * v[0] + v[1]
         case 3 => 0x800 <= n < 0x10000 && s[0] as int == 0xE0 + v[0] && n == 4096 * v[0] + 64 * v[1] + v[2]
         case 4 => 0x10000 <= n && s[0] as int == 0xF0 + v[0] && n == 262144 * v[0] + 4096 * v[1] + 64 * v[2] + v[3]
         case _ => false
  {
    var n := c as int;
    if n < 0x80 {
      v := [n];
    } else if n < 0x800 {
      v := [n / 64, n % 64];
    } else if n < 0x10000 {
      v := [n / 4096, n / 64 % 64, n % 64];
      Shifts(n);
    } else {
      v := [n / 262144, n / 4096 % 64, n / 64 % 64, n % 64];
      Shifts(n);
    }
  }

  /** The first octet tells how many there are. */
  function Utf8Length(first: Octet): nat {
    if first < 0x80 then 1 else if first < 0xE0 then 2 else if first < 0xF0 then 3 else 4
  }

  function Utf8(s: string): seq<Octet> {
    if s == "" then [] else Utf8Char(s[0]) + Utf8(s[1..])
  }

  function DecimalDigit(n: nat): char
    requires n < 10
  {
    ('0' as int + n) as char
  }

  function Decimal(n: nat): (s: string)
    ensures |s| > 0 && '-' !in s
  {
    if n < 10 then [DecimalDigit(n)] else Decimal(n / 10) + [DecimalDigit(n % 10)]
  }

  function JobId(runId: string, nodeId: string, attempt: nat): string {
    "workflow-" + runId + "-" + Base64Url(Utf8(nodeId)) + "-" + Decimal(attempt)
  }

  lemma {:induction false} DecimalInjective(m: nat, n: nat)
    requires Decimal(m) == Decimal(n)
    ensures m == n
    decreases m
  {
    var s := Decimal(m);
    var last := |s| - 1;
    if m >= 10 && n >= 10 {
      assert s[..last] == Decimal(m / 10) && s[..last] == Decimal(n / 10);
      assert s[last] == DecimalDigit(m % 10) == DecimalDigit(n % 10);
      DecimalInjective(m / 10, n / 10);
    }
  }

  lemma FirstTwoDigits(a: Octet, b: Octet, a': Octet, b': Octet)
    requires Digit(a / 4) == Digit(a' / 4)
    requires Digit(a % 4 * 16 + b / 16) == Digit(a' % 4 * 16 + b' / 16)
    ensures a == a' && b / 16 == b' / 16
  {
  }

  lemma FourDigitsInjective(a: Octet, b: Octet, c: Octet, a': Octet, b': Octet, c': Octet)
    requires FourDigits(a, b, c) == FourDigits(a', b', c')
    ensures a == a' && b == b' && c == c'
  {
    var e, f := FourDigits(a, b, c), FourDigits(a', b', c');
    assert e[0] == f[0] && e[1] == f[1] && e[2] == f[2] && e[3] == f[3];
    FirstTwoDigits(a, b, a', b');
  }

  lemma ShortGroupInjective(n: nat, a: Octet, b: Octet, a': Octet, b': Octet)
    requires 2 <= n <= 3 && FourDigits(a, b, 0)[..n] == FourDigits(a', b', 0)[..n]
    requires n == 2 ==> b == b' == 0
    ensures a == a' && b == b'
  {
    var e, f := FourDigits(a, b, 0), FourDigits(a', b', 0);
    assert e[0] == e[..n][0] == f[0] && e[1] == e[..n][1] == f[1];
    FirstTwoDigits(a, b, a', b');
    if n == 3 {
      assert e[2] == e[..n][2] == f[2];
    }
  }

  lemma {:induction false} Base64Injective(s: seq<Octet>, t: seq<Octet>)
    requires Base64Url(s) == Base64Url(t)
    ensures s == t
    decreases |s|
  {
    var e, f := Base64Url(s), Base64Url(t);
    if |s| >= 3 && |t| >= 3 {
      assert e[..4] == FourDigits(s[0], s[1], s[2]) && f[..4] == FourDigits(t[0], t[1], t[2]);
      assert e[4..] == Base64Url(s[3..]) && f[4..] == Base64Url(t[3..]);
      FourDigitsInjective(s[0], s[1], s[2], t[0], t[1], t[2]);
      Base64Injective(s[3..], t[3..]);
      assert s == s[..3] + s[3..] && t == t[..3] + t[3..];
    } else if |s| == 1 && |t| == 1 {
      ShortGroupInjective(2, s[0], 0, t[0], 0);
    } else if |s| == 2 && |t| == 2 {
      ShortGroupInjective(3, s[0], s[1], t[0], t[1]);
    }
  }

  /** A dash splits off a suffix without dashes in one way only, although base64url itself uses the dash. */
  lemma {:induction false} LastDashSplits(a: string, x: string, b: string, y: string)
    requires a + "-" + x == b + "-" + y
    requires '-' !in x && '-' !in y
    ensures a == b && x == y
  {
    var s := a + "-" + x;
    assert s[|a|] == '-' && s[|b|] == '-';
    forall i | |a| < i < |s| ensures s[i] != '-' { assert s[i] == x[i - |a| - 1]; }
    forall i | |b| < i < |s| ensures s[i] != '-' { assert s[i] == y[i - |b| - 1]; }
    assert s[..|a|] == a && (b + "-" + y)[..|b|] == b;
    assert s[|a| + 1..] == x && (b + "-" + y)[|b| + 1..] == y;
  }

  lemma Shifts(n: nat)
    ensures n / 64 / 64 == n / 4096 && n / 64 / 64 / 64 == n / 262144
  {
  }

  lemma Utf8CharInjective(c: char, d: char)
    requires Utf8Char(c) == Utf8Char(d)
    ensures c == d
  {
    assert Utf8Char(c)[0] == Utf8Char(d)[0];
    if |Utf8Char(c)| == 3 {
      ThreeOctets(c, d);
    } else if |Utf8Char(c)| == 4 {
      FourOctets(c, d);
    }
  }

  lemma ThreeOctets(c: char, d: char)
    requires Utf8Char(c) == Utf8Char(d) && |Utf8Char(c)| == 3
    ensures c == d
  {
    var m, n, s, t := c as int, d as int, Utf8Char(c), Utf8Char(d);
    assert s[0] == t[0] && s[1] == t[1] && s[2] == t[2];
    Shifts(m);
    Shifts(n);
  }

  lemma FourOctets(c: char, d: char)
    requires Utf8Char(c) == Utf8Char(d) && |Utf8Char(c)| == 4
    ensures c == d
  {
    var m, n, s, t := c as int, d as int, Utf8Char(c), Utf8Char(d);
    assert s[0] == t[0] && s[1] == t[1] && s[2] == t[2] && s[3] == t[3];
    Shifts(m);
    Shifts(n);
  }

  /** Two texts with the same UTF-8 form are the same. */
  lemma {:induction false} Utf8Injective(s: string, t: string)
    requires Utf8(s) == Utf8(t)
    ensures s == t
    decreases |s|
  {
    if s != "" && t != "" {
      var a, b := Utf8Char(s[0]), Utf8Char(t[0]);
      assert Utf8(s)[0] == a[0] && Utf8(t)[0] == b[0];
      assert a == Utf8(s)[..|a|] && b == Utf8(t)[..|b|];
      assert Utf8(s[1..]) == Utf8(s)[|a|..] && Utf8(t[1..]) == Utf8(t)[|b|..];
      Utf8CharInjective(s[0], t[0]);
      Utf8Injective(s[1..], t[1..]);
      assert s == [s[0]] + s[1..] && t == [t[0]] + t[1..];
    }
  }

  /** Distinct (node, attempt) pairs of a run have distinct job ids. */
  lemma JobIdInjective(runId: string, node: string, attempt: nat, node': string, attempt': nat)
    requires JobId(runId, node, attempt) == JobId(runId, node', attempt')
    ensures node == node' && attempt == attempt'
  {
    var prefix := "workflow-" + runId + "-";
    var id, id' := Base64Url(Utf8(node)), Base64Url(Utf8(node'));
    LastDashSplits(prefix + id, Decimal(attempt), prefix + id', Decimal(attempt'));
    assert (prefix + id)[|prefix|..] == id && (prefix + id')[|prefix|..] == id';
    Base64Injective(Utf8(node), Utf8(node'));
    Utf8Injective(node, node');
    DecimalInjective(attempt, attempt');
  }
}
