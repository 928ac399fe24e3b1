/** The fields of boxes, told in bytes: what is read, and when nothing is. */
module Mp4Laws {
  import opened Options
  import opened Text
  import opened Mp4Boxes
  import opened Mp4Metadata

  // ----- numbers and headers -----

  lemma {:induction false} LastByte(s: seq<Byte>, n: nat, b: Byte)
    requires Value(s) == n
    ensures Value(s + [b]) == 256 * n + b
  {
    assert (s + [b])[..|s|] == s;
  }

  /** The first byte counts most. */
  lemma FourBytes(buf: seq<Byte>, o: nat)
    requires o + 4 <= |buf|
    ensures ReadU32(buf, o) == 0x1000000 * (buf[o] as int) + 0x10000 * (buf[o + 1] as int) +
      0x100 * (buf[o + 2] as int) + buf[o + 3] as int
  {
    var a: int, b: int, c: int := buf[o], buf[o + 1], buf[o + 2];
    LastByte([], 0, buf[o]);
    LastByte([] + [buf[o]], a, buf[o + 1]);
    LastByte([] + [buf[o]] + [buf[o + 1]], 256 * a + b, buf[o + 2]);
    LastByte([] + [buf[o]] + [buf[o + 1]] + [buf[o + 2]], 0x10000 * a + 0x100 * b + c, buf[o + 3]);
    assert buf[o..o + 4] == [] + [buf[o]] + [buf[o + 1]] + [buf[o + 2]] + [buf[o + 3]];
  }

  lemma {:induction false} ValueOfBoth(a: seq<Byte>, b: seq<Byte>)
    ensures Value(a + b) == Value(a) * Range(|b|) + Value(b)
    decreases |b|
  {
    if b == [] {
      assert a + b == a;
    } else {
      var shorter, last := b[..|b| - 1], b[|b| - 1];
      ValueOfBoth(a, shorter);
      assert a + b == (a + shorter) + [last];
      LastByte(a + shorter, Value(a + shorter), last);
      assert Value(b) == Value(shorter) * 256 + last;
      Scale(Value(a), Range(|shorter|), Value(shorter));
    }
  }

  lemma Scale(a: nat, r: nat, s: nat)
    ensures 256 * (a * r + s) == a * (256 * r) + s * 256
  {
  }

  lemma EightBytes(buf: seq<Byte>, o: nat)
    requires o + 8 <= |buf|
    ensures ReadU64(buf, o) == ReadU32(buf, o) * 0x1_0000_0000 + ReadU32(buf, o + 4)
  {
    ValueOfBoth(buf[o..o + 4], buf[o + 4..o + 8]);
    assert buf[o..o + 8] == buf[o..o + 4] + buf[o + 4..o + 8];
    WordRanges();
  }

  lemma {:induction false} LettersAreSevenBits(s: seq<Byte>, i: nat)
    requires i < |s|
    ensures AsciiText(s)[i] as int == s[i] % 128
    decreases |s|
  {
    if i == 0 {
    } else {
      LettersAreSevenBits(s[1..], i - 1);
    }
  }

  /** A whole box starts at o exactly when its header fits and its size holds the header and ends within the bounds;
      a size of 1 stands for the 64-bit size behind the type. */
  lemma WholeBoxes(buf: seq<Byte>, o: nat, end: nat)
    requires end <= |buf|
    ensures BoxAt(buf, o, end) ==
      if o + 8 <= end && 8 <= ReadU32(buf, o) && o + ReadU32(buf, o) <= end
      then Some(Visit(AsciiText(buf[o + 4..o + 8]), o + 8, o + ReadU32(buf, o)))
      else if o + 16 <= end && ReadU32(buf, o) == 1 && 16 <= ReadU64(buf, o + 8) && o + ReadU64(buf, o + 8) <= end
      then Some(Visit(AsciiText(buf[o + 4..o + 8]), o + 16, o + ReadU64(buf, o + 8)))
      else None
  {
  }

  // ----- mvhd -----

  /** In version 0 the timescale stands at 12 and the duration at 16, in version 1 they stand at 20 and 24; there is
      none in a shorter payload or under another version. */
  lemma DurationExactly(p: seq<Byte>)
    ensures |p| >= 20 && p[0] == 0 ==> IsInSeconds(MvhdDuration(p), ReadU32(p, 16), ReadU32(p, 12))
    ensures |p| >= 32 && p[0] == 1 ==> IsInSeconds(MvhdDuration(p), ReadU64(p, 24), ReadU32(p, 20))
    ensures |p| < 20 || p[0] > 1 || (p[0] == 1 && |p| < 32) ==> MvhdDuration(p) == None
  {
    if |p| >= 20 && p[0] == 0 {
      RatioIsInSeconds(ReadU32(p, 16), ReadU32(p, 12));
    } else if |p| >= 32 && p[0] == 1 {
      RatioIsInSeconds(ReadU64(p, 24), ReadU32(p, 20));
    }
  }

  // ----- stsd -----

  lemma {:induction false} OnlyNulIsDropped(a: string, b: string)
    ensures WithoutNul(a + b) == WithoutNul(a) + WithoutNul(b)
    decreases |a|
  {
    if a == "" {
      assert a + b == b;
    } else {
      OnlyNulIsDropped(a[1..], b);
      assert (a + b)[1..] == a[1..] + b;
    }
  }

  lemma NulIsDropped(c: char)
    ensures WithoutNul([c]) == if c == '\0' then "" else [c]
  {
    assert WithoutNul([c][1..]) == "";
  }

  /** The codec of an stsd box is the format of its first entry, which must be there and fit, without NUL and
      blanks; it must have three or four characters then, all of them visible. */
  lemma CodecExactly(p: seq<Byte>)
    ensures StsdCodec(p) ==
      if |p| < 16 || ReadU32(p, 4) == 0 || ReadU32(p, 8) < 8 || |p| < 8 + ReadU32(p, 8) then None
      else
        var format := Trim(WithoutNul(AsciiText(p[12..16])));
        var visible := forall i :: 0 <= i < |format| ==> 0x20 < format[i] as int < 0x7F;
        if (|format| == 3 || |format| == 4) && visible then Some(format) else None
  {
    if |p| >= 16 {
      var text := AsciiText(p[12..16]);
      var format := Trim(WithoutNul(text));
      WithoutNulIsNoLonger(text);
      TrimIsNoLonger(WithoutNul(text));
      assert |format| <= 4;
    }
  }

  lemma {:induction false} WithoutNulIsNoLonger(s: string)
    ensures |WithoutNul(s)| <= |s|
  {
    if s == "" {
    } else {
      WithoutNulIsNoLonger(s[1..]);
    }
  }

  lemma TrimIsNoLonger(s: string)
    ensures |Trim(s)| <= |s|
  {
    StartIsNoLonger(s);
    EndIsNoLonger(TrimStart(s));
  }

  lemma {:induction false} StartIsNoLonger(s: string)
    ensures |TrimStart(s)| <= |s|
    decreases |s|
  {
    if s != "" && IsSpace(s[0]) { StartIsNoLonger(s[1..]); }
  }

  lemma {:induction false} EndIsNoLonger(s: string)
    ensures |TrimEnd(s)| <= |s|
    decreases |s|
  {
    if s != "" && IsSpace(s[|s| - 1]) { EndIsNoLonger(s[..|s| - 1]); }
  }
}
