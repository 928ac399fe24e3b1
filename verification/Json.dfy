/** JSON text as JSON.stringify writes it and JSON.parse reads it (RFC 8259). Numbers are natural numbers here. */
module Json {
  import opened Options
  import opened JobIds

  datatype Json =
    | Null
    | Bool(b: bool)
    | Number(n: nat)
    | Text(s: string)
    | Object(members: Members)

  /** Written in this order; a later member of the same name hides an earlier one. */
  datatype Members = End | Member(name: string, value: Json, rest: Members)

  // ----- writing -----

  function HexDigit(n: nat): char
    requires n < 16
  {
    if n < 10 then ('0' as int + n) as char else ('a' as int + n - 10) as char
  }

  function WriteChar(c: char): string {
    if c == '"' then "\\\""
    else if c == '\\' then "\\\\"
    else if c == '\U{8}' then "\\b"
    else if c == '\t' then "\\t"
    else if c == '\n' then "\\n"
    else if c == '\U{C}' then "\\f"
    else if c == '\r' then "\\r"
    else if c < ' ' then "\\u00" + [HexDigit(c as int / 16), HexDigit(c as int % 16)]
    else [c]
  }

  function WriteChars(s: string): string {
    if s == "" then "" else WriteChar(s[0]) + WriteChars(s[1..])
  }

  function WriteText(s: string): string {
    "\"" + (WriteChars(s) + "\"")
  }

  function Write(j: Json): string {
    match j
    case Null => "null"
    case Bool(b) => if b then "true" else "false"
    case Number(n) => Decimal(n)
    case Text(s) => WriteText(s)
    case Object(members) => if members.End? then "{}" else "{" + WriteMembers(members)
  }

  /** The members up to the closing brace. */
  function WriteMembers(m: Members): string
    requires m.Member?
  {
    WriteText(m.name) + (":" + (Write(m.value) + (if m.rest.End? then "}" else "," + WriteMembers(m.rest))))
  }

  // ----- reading: a value and what is left of the text -----

  predicate IsBlank(c: char) {
    c == ' ' || c == '\t' || c == '\n' || c == '\r'
  }

  function SkipBlanks(s: string): (r: string)
    ensures |r| <= |s| && (r == "" || !IsBlank(r[0]))
  {
    if s != "" && IsBlank(s[0]) then SkipBlanks(s[1..]) else s
  }

  function HexValue(c: char): Option<nat> {
    if '0' <= c <= '9' then Some(c as int - '0' as int)
    else if 'a' <= c <= 'f' then Some(c as int - 'a' as int + 10)
    else if 'A' <= c <= 'F' then Some(c as int - 'A' as int + 10)
    else None
  }

  /** Four hexadecimal digits; surrogates are not characters of their own. */
  function FourHex(a: char, b: char, c: char, d: char): Option<char> {
    var w, x, y, z := HexValue(a), HexValue(b), HexValue(c), HexValue(d);
    if w.None? || x.None? || y.None? || z.None? then None
    else
      var n := ((w.value * 16 + x.value) * 16 + y.value) * 16 + z.value;
      if n < 0xD800 then Some(n as char) else if 0xE000 <= n < 0x10000 then Some(n as char) else None
  }

  lemma HexDigitIsRead(v: nat, s: string)
    requires v < 16 && (s == "0123456789abcdef" || s == "0123456789ABCDEF")
    ensures HexValue(s[v]) == Some(v)
  {
  }

  /** Hexadecimal digits in either case, the first one highest. */
  lemma HexDigits(w: nat, x: nat, y: nat, z: nat, s: string)
    requires w < 16 && x < 16 && y < 16 && z < 16 && (s == "0123456789abcdef" || s == "0123456789ABCDEF")
    ensures var n := w * 4096 + x * 256 + y * 16 + z;
      FourHex(s[w], s[x], s[y], s[z]) == if 0xD800 <= n < 0xE000 then None else Some(n as char)
  {
    HexDigitIsRead(w, s);
    HexDigitIsRead(x, s);
    HexDigitIsRead(y, s);
    HexDigitIsRead(z, s);
    FromHex(s[w], s[x], s[y], s[z], w, x, y, z);
  }

  lemma FromHex(a: char, b: char, c: char, d: char, w: nat, x: nat, y: nat, z: nat)
    requires HexValue(a) == Some(w) && HexValue(b) == Some(x) && HexValue(c) == Some(y) && HexValue(d) == Some(z)
    requires w < 16 && x < 16 && y < 16 && z < 16
    ensures var n := w * 4096 + x * 256 + y * 16 + z;
      FourHex(a, b, c, d) == if 0xD800 <= n < 0xE000 then None else Some(n as char)
  {
  }

  function ShortEscape(c: char): Option<char> {
    if c == '"' || c == '\\' || c == '/' then Some(c)
    else if c == 'b' then Some('\U{8}')
    else if c == 't' then Some('\t')
    else if c == 'n' then Some('\n')
    else if c == 'f' then Some('\U{C}')
    else if c == 'r' then Some('\r')
    else None
  }

  /** One written character, which is not the closing quote, and what is left. */
  function ReadChar(s: string): (r: Option<(char, string)>)
    ensures r.Some? ==> |r.value.1| < |s|
  {
    if s == "" || s[0] < ' ' then None
    else if s[0] != '\\' then Some((s[0], s[1..]))
    else if |s| < 2 then None
    else if s[1] != 'u' then
      var c := ShortEscape(s[1]);
      if c.None? then None else Some((c.value, s[2..]))
    else if |s| < 6 then None
    else
      var c := FourHex(s[2], s[3], s[4], s[5]);
      if c.None? then None else Some((c.value, s[6..]))
  }

  /** The characters up to the closing quote. */
  function ReadChars(s: string): (r: Option<(string, string)>)
    ensures r.Some? ==> |r.value.1| < |s|
    decreases |s|
  {
    if s == "" then None
    else if s[0] == '"' then Some(("", s[1..]))
    else
      var first := ReadChar(s);
      if first.None? then None
      else
        var more := ReadChars(first.value.1);
        if more.None? then None else Some(([first.value.0] + more.value.0, more.value.1))
  }

  predicate IsDigit(c: char) {
    '0' <= c <= '9'
  }

  function DigitValue(c: char): nat
    requires IsDigit(c)
  {
    c as int - '0' as int
  }

  /** Digits that continue a number of value so far. */
  function ReadDigits(s: string, sofar: nat): (r: (nat, string))
    ensures |r.1| <= |s|
    decreases |s|
  {
    if s == "" || !IsDigit(s[0]) then (sofar, s) else ReadDigits(s[1..], sofar * 10 + DigitValue(s[0]))
  }

  predicate StartsWith(s: string, word: string) {
    |word| <= |s| && s[..|word|] == word
  }

  function Read(s: string): (r: Option<(Json, string)>)
    ensures r.Some? ==> |r.value.1| < |s|
    decreases |s|, 1
  {
    if s == "" then None
    else if IsDigit(s[0]) then
      var (n, rest) := if s[0] == '0' then (0, s[1..]) else ReadDigits(s[1..], DigitValue(s[0]));
      Some((Number(n), rest))
    else if s[0] == '"' then
      var text := ReadChars(s[1..]);
      if text.None? then None else Some((Text(text.value.0), text.value.1))
    else if s[0] == '{' then
      var inside := SkipBlanks(s[1..]);
      if inside != "" && inside[0] == '}' then Some((Object(End), inside[1..]))
      else
        var members := ReadMembers(inside);
        if members.None? then None else Some((Object(members.value.0), members.value.1))
    else if StartsWith(s, "null") then Some((Null, s[4..]))
    else if StartsWith(s, "true") then Some((Bool(true), s[4..]))
    else if StartsWith(s, "false") then Some((Bool(false), s[5..]))
    else None
  }

  /** One or more members and the closing brace. */
  function ReadMembers(s: string): (r: Option<(Members, string)>)
    ensures r.Some? ==> |r.value.1| < |s| && r.value.0.Member?
    decreases |s|, 0
  {
    if s == "" || s[0] != '"' then None
    else
      var name := ReadChars(s[1..]);
      if name.None? then None
      else
        var colon := SkipBlanks(name.value.1);
        if colon == "" || colon[0] != ':' then None
        else
          var value := Read(SkipBlanks(colon[1..]));
          if value.None? then None else ReadMoreMembers(name.value.0, value.value.0, SkipBlanks(value.value.1))
  }

  /** After a member: a comma and more members, or the closing brace. */
  function ReadMoreMembers(name: string, value: Json, s: string): (r: Option<(Members, string)>)
    ensures r.Some? ==> |r.value.1| < |s| && r.value.0.Member?
    decreases |s|, 1
  {
    if s == "" then None
    else if s[0] == '}' then Some((Member(name, value, End), s[1..]))
    else if s[0] != ',' then None
    else
      var more := ReadMembers(SkipBlanks(s[1..]));
      if more.None? then None else Some((Member(name, value, more.value.0), more.value.1))
  }

  /** The value of a whole text. */
  function Parse(text: string): Option<Json> {
    var r := Read(SkipBlanks(text));
    if r.None? || SkipBlanks(r.value.1) != "" then None else Some(r.value.0)
  }

  // ----- reading undoes writing -----

  lemma OneMoreChar(c: char, text: string, more: string, rest: string)
    requires ReadChars(more) == Some((text, rest))
    ensures ReadChars(WriteChar(c) + more) == Some(([c] + text, rest))
  {
  }

  lemma Reassociate(a: string, b: string, c: string)
    ensures a + b + c == a + (b + c)
  {
  }

  lemma {:induction false} WrittenCharsReadBack(text: string, rest: string)
    ensures ReadChars(WriteChars(text) + ("\"" + rest)) == Some((text, rest))
    decreases |text|
  {
    var closing := "\"" + rest;
    if text == "" {
      assert WriteChars(text) + closing == closing;
    } else {
      var more := WriteChars(text[1..]) + closing;
      WrittenCharsReadBack(text[1..], rest);
      Reassociate(WriteChar(text[0]), WriteChars(text[1..]), closing);
      OneMoreChar(text[0], text[1..], more, rest);
      assert text == [text[0]] + text[1..];
    }
  }

  /** A number ends where no digit follows. */
  predicate EndsNumber(rest: string) {
    rest == "" || !IsDigit(rest[0])
  }

  lemma {:induction false} ReadDigitsAppends(s: string, c: char, rest: string, sofar: nat)
    requires IsDigit(c) && (forall d :: d in s ==> IsDigit(d)) && EndsNumber(rest)
    ensures ReadDigits(s + ([c] + rest), sofar) ==
      (ReadDigits(s, sofar).0 * 10 + DigitValue(c), rest)
    decreases |s|
  {
    if s == "" {
      assert s + ([c] + rest) == [c] + rest && ([c] + rest)[1..] == rest;
    } else {
      assert (s + ([c] + rest))[1..] == s[1..] + ([c] + rest);
      ReadDigitsAppends(s[1..], c, rest, sofar * 10 + DigitValue(s[0]));
    }
  }

  lemma {:induction false} DecimalIsDigits(n: nat)
    ensures forall d :: d in Decimal(n) ==> IsDigit(d)
    ensures (Decimal(n)[0] == '0') == (n == 0)
    decreases n
  {
    if n >= 10 { DecimalIsDigits(n / 10); }
  }

  lemma {:induction false} DecimalReadsBack(n: nat, rest: string)
    requires n > 0 && EndsNumber(rest)
    ensures ReadDigits((Decimal(n) + rest)[1..], DigitValueAt(n)) == (n, rest)
    decreases n
  {
    DecimalIsDigits(n);
    if n < 10 {
      assert (Decimal(n) + rest)[1..] == rest;
    } else {
      DecimalIsDigits(n / 10);
      DecimalReadsBack(n / 10, "");
      var s, c := Decimal(n / 10), DecimalDigit(n % 10);
      assert (s + "")[1..] == s[1..];
      assert (Decimal(n) + rest)[1..] == s[1..] + ([c] + rest);
      ReadDigitsAppends(s[1..], c, rest, DigitValueAt(n));
    }
  }

  /** The value of the first digit of n. */
  function DigitValueAt(n: nat): nat {
    DecimalIsDigits(n);
    DigitValue(Decimal(n)[0])
  }

  lemma NumberReadsBack(n: nat, rest: string)
    requires EndsNumber(rest)
    ensures Read(Decimal(n) + rest) == Some((Number(n), rest))
  {
    DecimalIsDigits(n);
    assert (Decimal(n) + rest)[0] == Decimal(n)[0];
    if n == 0 {
      assert (Decimal(n) + rest)[1..] == rest;
    } else {
      DecimalReadsBack(n, rest);
    }
  }

  lemma TextReadsBack(text: string, rest: string)
    ensures WriteText(text) + rest != "" && (WriteText(text) + rest)[0] == '"'
    ensures ReadChars((WriteText(text) + rest)[1..]) == Some((text, rest))
  {
    WrittenCharsReadBack(text, rest);
    assert (WriteText(text) + rest)[1..] == WriteChars(text) + ("\"" + rest);
  }

  lemma TextValueReadsBack(text: string, rest: string)
    ensures Read(WriteText(text) + rest) == Some((Text(text), rest))
  {
    TextReadsBack(text, rest);
  }

  lemma ConstantReadsBack(j: Json, rest: string)
    requires j.Null? || j.Bool?
    ensures Read(Write(j) + rest) == Some((j, rest))
  {
    assert (Write(j) + rest)[0] == Write(j)[0] && (Write(j) + rest)[|Write(j)|..] == rest;
  }

  /** Reading a written value gives it back and leaves the rest of the text. */
  lemma {:induction false} WrittenValueReadsBack(j: Json, rest: string)
    requires EndsNumber(rest)
    ensures Read(Write(j) + rest) == Some((j, rest))
    decreases j, 1
  {
    match j
    case Null => ConstantReadsBack(j, rest);
    case Bool(_) => ConstantReadsBack(j, rest);
    case Number(n) => NumberReadsBack(n, rest);
    case Text(text) => TextValueReadsBack(text, rest);
    case Object(members) =>
      if members.Member? {
        WrittenMembersReadBack(members, rest);
        Reassociate("{", WriteMembers(members), rest);
      }
  }

  function AfterValue(m: Members, rest: string): string
    requires m.Member?
  {
    (if m.rest.End? then "}" else "," + WriteMembers(m.rest)) + rest
  }

  /** A name, a colon and a value are read off, and then the rest of the members. */
  lemma FirstMemberReadsBack(name: string, value: Json, written: string, after: string, rest: string, m: Members)
    requires written != "" && !IsBlank(written[0]) && Read(written) == Some((value, after))
    requires after != "" && !IsBlank(after[0]) && ReadMoreMembers(name, value, after) == Some((m, rest))
    ensures ReadMembers(WriteText(name) + (":" + written)) == Some((m, rest))
  {
    TextReadsBack(name, ":" + written);
    assert (":" + written)[1..] == written;
  }

  lemma {:induction false} WrittenMembersReadBack(m: Members, rest: string)
    requires m.Member?
    ensures WriteMembers(m) + rest != "" && (WriteMembers(m) + rest)[0] == '"'
    ensures ReadMembers(WriteMembers(m) + rest) == Some((m, rest))
    decreases m, 1
  {
    var after := AfterValue(m, rest);
    MembersLayout(m, rest);
    WrittenValueReadsBack(m.value, after);
    MoreMembersReadBack(m, rest);
    FirstMemberReadsBack(m.name, m.value, Write(m.value) + after, after, rest, m);
  }

  lemma MembersLayout(m: Members, rest: string)
    requires m.Member?
    ensures WriteMembers(m) + rest == WriteText(m.name) + (":" + (Write(m.value) + AfterValue(m, rest)))
    ensures AfterValue(m, rest) != "" && !IsDigit(AfterValue(m, rest)[0]) && !IsBlank(AfterValue(m, rest)[0])
    ensures WriteMembers(m) + rest != "" && (WriteMembers(m) + rest)[0] == '"'
  {
  }

  lemma {:induction false} MoreMembersReadBack(m: Members, rest: string)
    requires m.Member?
    ensures ReadMoreMembers(m.name, m.value, AfterValue(m, rest)) == Some((m, rest))
    decreases m, 0
  {
    var s := AfterValue(m, rest);
    if m.rest.End? {
      assert s[1..] == rest;
    } else {
      assert s[1..] == WriteMembers(m.rest) + rest;
      WrittenMembersReadBack(m.rest, rest);
    }
  }

  /** JSON.parse undoes JSON.stringify. */
  lemma ParseUndoesWrite(j: Json)
    ensures Parse(Write(j)) == Some(j)
  {
    WrittenValueReadsBack(j, "");
    assert Write(j) + "" == Write(j);
  }
}
