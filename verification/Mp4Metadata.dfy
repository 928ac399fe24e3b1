/** Duration and codec out of a moov box, and finding that box (ISO/IEC 14496-12 sections 8.2.2 and 8.5.2). */
module Mp4Metadata {
  import opened Options
  import opened Text
  import opened Mp4Boxes

  datatype Metadata = Metadata(duration: Option<real>, codec: Option<string>)

  // ----- single boxes -----

  function Ratio(duration: nat, timescale: nat): Option<real> {
    if timescale > 0 && duration > 0 then Some(duration as real / timescale as real) else None
  }

  /** The duration in seconds in the payload of an mvhd box, of version 0 or 1. */
  function MvhdDuration(p: seq<Byte>): Option<real> {
    if |p| < 20 then None
    else if p[0] == 0 then Ratio(ReadU32(p, 16), ReadU32(p, 12))
    else if p[0] == 1 && |p| >= 32 then Ratio(ReadU64(p, 24), ReadU32(p, 20))
    else None
  }

  function WithoutNul(s: string): string {
    if s == "" then "" else if s[0] == '\0' then WithoutNul(s[1..]) else [s[0]] + WithoutNul(s[1..])
  }

  predicate IsVisible(s: string) {
    forall i :: 0 <= i < |s| ==> '!' <= s[i] <= '~'
  }

  /** The format of the first sample entry in the payload of an stsd box. */
  function StsdCodec(p: seq<Byte>): Option<string> {
    if |p| < 16 || ReadU32(p, 4) < 1 then None
    else
      var size := ReadU32(p, 8);
      if size < 8 || 8 + size > |p| then None
      else
        var format := Trim(WithoutNul(AsciiText(p[12..16])));
        if 3 <= |format| <= 8 && IsVisible(format) then Some(format) else None
  }

  // ----- the moov box -----

  /** The boxes that lead from moov to stsd. */
  const CODEC_PATH: seq<string> := ["trak", "mdia", "minf", "stbl"]

  predicate AllWithin(buf: seq<Byte>, visits: seq<Visit>) {
    forall i :: 0 <= i < |visits| ==> visits[i].payloadStart <= visits[i].payloadEnd <= |buf|
  }

  function PayloadOf(buf: seq<Byte>, v: Visit): seq<Byte> {
    if v.payloadStart <= v.payloadEnd <= |buf| then buf[v.payloadStart..v.payloadEnd] else []
  }

  /** What one box, of this type and with this payload, makes of the duration so far. */
  type Step = (string, seq<Byte>, Option<real>) -> Option<real>

  function DurationAfter(step: Step, buf: seq<Byte>, visits: seq<Visit>, sofar: Option<real>): Option<real> {
    if visits == [] then sofar
    else DurationAfter(step, buf, visits[1..], step(visits[0].kind, PayloadOf(buf, visits[0]), sofar))
  }

  /** A later mvhd with a duration replaces an earlier one. */
  function DurationStep(kind: string, payload: seq<Byte>, sofar: Option<real>): Option<real> {
    if kind == "mvhd" && MvhdDuration(payload).Some? then MvhdDuration(payload) else sofar
  }

  function CodecStep(kind: string, payload: seq<Byte>, sofar: Option<string>): Option<string> {
    if kind == "stsd" && sofar.None? then StsdCodec(payload) else sofar
  }

  /** The first codec met on the way down the path stays. */
  function CodecAfter(buf: seq<Byte>, path: seq<string>, visits: seq<Visit>, sofar: Option<string>): Option<string>
    decreases |path|, |visits|
  {
    if visits == [] then sofar
    else
      var v := visits[0];
      var next :=
        if path == [] then CodecStep(v.kind, PayloadOf(buf, v), sofar)
        else if v.kind == path[0] then CodecAfter(buf, path[1..], Boxes(buf, v.payloadStart, v.payloadEnd), sofar)
        else sofar;
      CodecAfter(buf, path, visits[1..], next)
  }

  function MoovMetadata(moov: seq<Byte>): Metadata {
    if |moov| < 8 then Metadata(None, None)
    else
      var visits := Boxes(moov, if ReadU32(moov, 0) == 1 then 16 else 8, |moov|);
      Metadata(DurationAfter(DurationStep, moov, visits, None), CodecAfter(moov, CODEC_PATH, visits, None))
  }

  method ParseMoovBox(moov: seq<Byte>) returns (out: Metadata)
    ensures out == MoovMetadata(moov)
  {
    out := Metadata(None, None);
    if |moov| < 8 { return; }
    var header := if ReadU32(moov, 0) == 1 then 16 else 8;
    var visits := WalkChildBoxes(moov, header, |moov|);
    VisitsAreDisjointAndInBounds(moov, header, |moov|);
    var duration := CollectDuration(moov, visits);
    var codec := CollectCodec(moov, CODEC_PATH, visits, None);
    out := Metadata(duration, codec);
  }

  method CollectDuration(buf: seq<Byte>, visits: seq<Visit>) returns (duration: Option<real>)
    requires AllWithin(buf, visits)
    ensures duration == DurationAfter(DurationStep, buf, visits, None)
  {
    duration := None;
    var i := 0;
    assert visits[0..] == visits;
    while i < |visits|
      invariant 0 <= i <= |visits|
      invariant DurationAfter(DurationStep, buf, visits, None) ==
        DurationAfter(DurationStep, buf, visits[i..], duration)
    {
      assert visits[i..][0] == visits[i] && visits[i..][1..] == visits[i + 1..];
      var v := visits[i];
      if v.kind == "mvhd" {
        var seconds := MvhdDuration(buf[v.payloadStart..v.payloadEnd]);
        if seconds.Some? { duration := seconds; }
      }
      i := i + 1;
    }
  }

  /** Walks into the boxes on the path, outermost first. */
  method CollectCodec(buf: seq<Byte>, path: seq<string>, visits: seq<Visit>, sofar: Option<string>)
    returns (codec: Option<string>)
    requires AllWithin(buf, visits)
    ensures codec == CodecAfter(buf, path, visits, sofar)
    decreases |path|
  {
    codec := sofar;
    var i := 0;
    assert visits[0..] == visits;
    while i < |visits|
      invariant 0 <= i <= |visits|
      invariant CodecAfter(buf, path, visits, sofar) == CodecAfter(buf, path, visits[i..], codec)
    {
      assert visits[i..][0] == visits[i] && visits[i..][1..] == visits[i + 1..];
      var v := visits[i];
      if path == [] {
        if v.kind == "stsd" && codec.None? { codec := StsdCodec(buf[v.payloadStart..v.payloadEnd]); }
      } else if v.kind == path[0] {
        var inner := WalkChildBoxes(buf, v.payloadStart, v.payloadEnd);
        VisitsAreDisjointAndInBounds(buf, v.payloadStart, v.payloadEnd);
        codec := CollectCodec(buf, path[1..], inner, codec);
      }
      i := i + 1;
    }
  }

  /** A whole box of type moov starts at i. */
  predicate MoovAt(buf: seq<Byte>, i: nat) {
    BoxAt(buf, i, |buf|).Some? && BoxAt(buf, i, |buf|).value.kind == "moov"
  }

  /** The moov box at i, and none before it. */
  ghost predicate IsFirstMoov(buf: seq<Byte>, i: nat, box: seq<Byte>) {
    && MoovAt(buf, i) && (forall j: nat :: j < i ==> !MoovAt(buf, j))
    && box == buf[i..BoxAt(buf, i, |buf|).value.payloadEnd]
  }

  /** The first place where a whole moov box starts, with its header. */
  method FindMoovBoxInBuffer(buf: seq<Byte>) returns (r: Option<seq<Byte>>)
    ensures r.None? <==> forall i: nat :: !MoovAt(buf, i)
    ensures r.Some? ==> exists i: nat :: IsFirstMoov(buf, i, r.value)
  {
    var i := 0;
    while i + 8 <= |buf|
      invariant forall j: nat :: j < i ==> !MoovAt(buf, j)
      decreases |buf| - i
    {
      var kind := AsciiText(buf[i + 4..i + 8]);
      if kind == "moov" {
        var size := ReadU32(buf, i);
        var header := 8;
        var readable := true;
        if size == 1 {
          if i + 16 > |buf| {
            readable := false;
          } else {
            size := ReadU64(buf, i + 8);
            header := 16;
          }
        }
        if readable && size >= header && i + size <= |buf| {
          assert BoxAt(buf, i, |buf|) == Some(Visit(kind, i + header, i + size));
          assert IsFirstMoov(buf, i, buf[i..i + size]);
          return Some(buf[i..i + size]);
        }
      }
      assert !MoovAt(buf, i);
      i := i + 1;
    }
    r := None;
  }

  // ----- what is read of a moov box that was written -----

  datatype Tree =
    | Leaf(kind: string, large: bool, bytes: seq<Byte>)
    | Branch(kind: string, large: bool, children: Forest)

  datatype Forest = End | More(first: Tree, rest: Forest)

  function Size(t: Tree): nat {
    (if t.large then 16 else 8) + (if t.Leaf? then |t.bytes| else ForestSize(t.children))
  }

  function ForestSize(f: Forest): nat {
    if f.End? then 0 else Size(f.first) + ForestSize(f.rest)
  }

  predicate CanWrite(t: Tree) {
    && |t.kind| == 4 && IsAscii(t.kind) && Size(t) < (if t.large then WORD * WORD else WORD)
    && (t.Branch? ==> CanWriteAll(t.children))
  }

  predicate CanWriteAll(f: Forest) {
    f.More? ==> CanWrite(f.first) && CanWriteAll(f.rest)
  }

  function BoxOf(t: Tree): (b: Box)
    requires CanWrite(t)
    ensures Writable(b) && BoxSize(b) == Size(t) && b.kind == t.kind && b.large == t.large
    decreases t, 1
  {
    if t.Leaf? then Box(t.kind, t.large, t.bytes)
    else
      WrittenSize(BoxesOf(t.children));
      Box(t.kind, t.large, WriteBoxes(BoxesOf(t.children)))
  }

  function BoxesOf(f: Forest): (boxes: seq<Box>)
    requires CanWriteAll(f)
    ensures AllWritable(boxes) && TotalSize(boxes) == ForestSize(f)
    decreases f, 0
  {
    if f.End? then [] else [BoxOf(f.first)] + BoxesOf(f.rest)
  }

  /** The duration that the mvhd boxes of a forest give. */
  function ForestDuration(step: Step, f: Forest, sofar: Option<real>): Option<real>
    requires CanWriteAll(f)
  {
    if f.End? then sofar
    else ForestDuration(step, f.rest, step(f.first.kind, BoxOf(f.first).payload, sofar))
  }

  /** The codec that the stsd boxes at the end of the path give; boxes on the path have boxes inside. */
  function ForestCodec(path: seq<string>, f: Forest, sofar: Option<string>): Option<string>
    requires CanWriteAll(f)
    decreases f
  {
    if f.End? then sofar
    else
      var t := f.first;
      assert CanWrite(t);
      var next :=
        if path == [] then CodecStep(t.kind, BoxOf(t).payload, sofar)
        else if t.kind == path[0] && t.Branch? then ForestCodec(path[1..], t.children, sofar)
        else sofar;
      ForestCodec(path, f.rest, next)
  }

  predicate PathIsBranches(path: seq<string>, f: Forest)
    decreases f
  {
    f.More? && path != [] ==>
      && (f.first.kind == path[0] ==> f.first.Branch? && PathIsBranches(path[1..], f.first.children))
      && PathIsBranches(path, f.rest)
  }

  lemma PayloadInPlace(buf: seq<Byte>, o: nat, b: Box, v: Visit)
    requires Writable(b) && LiesAt(buf, o, WriteBox(b))
    requires v == Visit(b.kind, o + HeaderSize(b), o + BoxSize(b))
    ensures PayloadOf(buf, v) == b.payload && LiesAt(buf, v.payloadStart, b.payload) && v.payloadEnd <= |buf|
  {
    LiesAtSplit(buf, o, Header(b), b.payload);
  }

  lemma {:induction false} DurationOfForest(step: Step, buf: seq<Byte>, o: nat, f: Forest, sofar: Option<real>)
    requires CanWriteAll(f) && LaidOut(buf, o, BoxesOf(f))
    ensures DurationAfter(step, buf, Placed(BoxesOf(f), o), sofar) == ForestDuration(step, f, sofar)
    decreases f
  {
    if f.End? {
    } else {
      var b := BoxOf(f.first);
      var v := Visit(b.kind, o + HeaderSize(b), o + BoxSize(b));
      ForestFront(buf, o, f, b, v);
      PlacedForest(o, f, b, v);
      DurationOfForest(step, buf, v.payloadEnd, f.rest, step(b.kind, b.payload, sofar));
    }
  }

  /** The first box of a laid out forest, and the rest of it. */
  lemma ForestFront(buf: seq<Byte>, o: nat, f: Forest, b: Box, v: Visit)
    requires CanWriteAll(f) && f.More? && LaidOut(buf, o, BoxesOf(f)) && b == BoxOf(f.first)
    requires v == Visit(b.kind, o + HeaderSize(b), o + BoxSize(b))
    ensures LaidOut(buf, v.payloadEnd, BoxesOf(f.rest)) && v.payloadEnd <= |buf|
    ensures PayloadOf(buf, v) == b.payload && LiesAt(buf, v.payloadStart, b.payload)
  {
    PayloadInPlace(buf, o, b, v);
  }

  lemma PlacedForest(o: nat, f: Forest, b: Box, v: Visit)
    requires CanWriteAll(f) && f.More? && b == BoxOf(f.first)
    requires v == Visit(b.kind, o + HeaderSize(b), o + BoxSize(b))
    ensures Placed(BoxesOf(f), o) == [v] + Placed(BoxesOf(f.rest), v.payloadEnd)
  {
  }

  function CodecNext(buf: seq<Byte>, path: seq<string>, v: Visit, sofar: Option<string>): Option<string> {
    if path == [] then CodecStep(v.kind, PayloadOf(buf, v), sofar)
    else if v.kind == path[0] then CodecAfter(buf, path[1..], Boxes(buf, v.payloadStart, v.payloadEnd), sofar)
    else sofar
  }

  lemma {:induction false} CodecOfForest(buf: seq<Byte>, o: nat, path: seq<string>, f: Forest, sofar: Option<string>)
    requires CanWriteAll(f) && LaidOut(buf, o, BoxesOf(f)) && PathIsBranches(path, f)
    ensures CodecAfter(buf, path, Placed(BoxesOf(f), o), sofar) == ForestCodec(path, f, sofar)
    decreases f
  {
    if f.End? {
    } else {
      var t, b := f.first, BoxOf(f.first);
      var v := Visit(b.kind, o + HeaderSize(b), o + BoxSize(b));
      ForestFront(buf, o, f, b, v);
      PlacedForest(o, f, b, v);
      if path != [] && t.kind == path[0] {
        InsideBranch(buf, t, v.payloadStart, v.payloadEnd);
        CodecOfForest(buf, v.payloadStart, path[1..], t.children, sofar);
      }
      CodecOfForest(buf, v.payloadEnd, path, f.rest, CodecNext(buf, path, v, sofar));
    }
  }

  lemma InsideBranch(buf: seq<Byte>, t: Tree, start: nat, end: nat)
    requires CanWrite(t) && t.Branch? && LiesAt(buf, start, BoxOf(t).payload) && end == start + |BoxOf(t).payload|
    ensures Boxes(buf, start, end) == Placed(BoxesOf(t.children), start) && LaidOut(buf, start, BoxesOf(t.children))
  {
    WalkUndoesWrite(buf, start, BoxesOf(t.children), end);
    WrittenIsLaidOut(buf, start, BoxesOf(t.children));
  }

  /** Parsing a written moov box gives what its mvhd boxes and the stsd boxes under trak/mdia/minf/stbl say. */
  lemma ParseUndoesWrite(moov: Tree)
    requires CanWrite(moov) && moov.Branch? && PathIsBranches(CODEC_PATH, moov.children)
    ensures MoovMetadata(WriteBox(BoxOf(moov))) ==
      Metadata(ForestDuration(DurationStep, moov.children, None), ForestCodec(CODEC_PATH, moov.children, None))
  {
    var buf, b := WriteBox(BoxOf(moov)), BoxOf(moov);
    var header := HeaderSize(b);
    MoovHeader(b);
    assert LiesAt(buf, 0, WriteBox(b)) by { assert buf[0..0 + |buf|] == buf; }
    LiesAtSplit(buf, 0, Header(b), b.payload);
    InsideBranch(buf, moov, header, |buf|);
    DurationOfForest(DurationStep, buf, header, moov.children, None);
    CodecOfForest(buf, header, CODEC_PATH, moov.children, None);
  }

  lemma MoovHeader(b: Box)
    requires Writable(b)
    ensures |WriteBox(b)| >= 8 && (if ReadU32(WriteBox(b), 0) == 1 then 16 else 8) == HeaderSize(b)
  {
    var buf := WriteBox(b);
    assert LiesAt(buf, 0, WriteBox(b)) by { assert buf[0..0 + |buf|] == buf; }
    LiesAtSplit(buf, 0, Header(b), b.payload);
    if b.large {
      LargeHeaderAt(buf, 0, b);
    } else {
      LiesAtSplit(buf, 0, WriteU32(BoxSize(b)), AsciiBytes(b.kind));
      U32At(buf, 0, BoxSize(b));
    }
  }

  // ----- the fields of mvhd and stsd -----

  /** version and flags, creation and modification times, timescale, duration; and whatever follows. */
  function MvhdPayload(version: Byte, flags: seq<Byte>, times: seq<Byte>, timescale: nat, duration: nat,
      rest: seq<Byte>): (p: seq<Byte>)
    requires version <= 1 && |flags| == 3 && |times| == (if version == 1 then 16 else 8) && timescale < WORD
    requires duration < (if version == 1 then WORD * WORD else WORD)
  {
    [version] + flags + times + WriteU32(timescale)
    + (if version == 1 then WriteU64(duration) else WriteU32(duration)) + rest
  }

  /** The number of seconds that, times the timescale, is the duration; none when either is zero. */
  ghost predicate IsInSeconds(r: Option<real>, duration: nat, timescale: nat) {
    if timescale == 0 || duration == 0 then r == None
    else r.Some? && r.value * timescale as real == duration as real
  }

  lemma RatioIsInSeconds(duration: nat, timescale: nat)
    ensures IsInSeconds(Ratio(duration, timescale), duration, timescale)
  {
    if timescale > 0 { QuotientTimesDivisor(duration as real, timescale as real); }
  }

  lemma QuotientTimesDivisor(a: real, b: real)
    requires b > 0.0
    ensures a / b * b == a
  {
  }

  lemma MvhdReadsBack(version: Byte, flags: seq<Byte>, times: seq<Byte>, timescale: nat, duration: nat,
      rest: seq<Byte>)
    requires version <= 1 && |flags| == 3 && |times| == (if version == 1 then 16 else 8) && timescale < WORD
    requires duration < (if version == 1 then WORD * WORD else WORD)
    ensures IsInSeconds(
      MvhdDuration(MvhdPayload(version, flags, times, timescale, duration, rest)), duration, timescale)
  {
    var p := MvhdPayload(version, flags, times, timescale, duration, rest);
    var front := [version] + flags + times;
    U32At(p, |front|, timescale);
    assert p[0] == front[0];
    if version == 1 { U64At(p, 24, duration); } else { U32At(p, 16, duration); }
    RatioIsInSeconds(duration, timescale);
  }

  /** version and flags, the number of entries, and the first entry: its size, its format, the rest. */
  function StsdPayload(flags: seq<Byte>, count: nat, size: nat, format: string, rest: seq<Byte>): (p: seq<Byte>)
    requires |flags| == 4 && count < WORD && size < WORD && |format| == 4 && IsAscii(format)
    ensures |p| == 16 + |rest|
  {
    flags + WriteU32(count) + WriteU32(size) + AsciiBytes(format) + rest
  }

  lemma {:induction false} VisibleStays(s: string)
    requires IsVisible(s)
    ensures WithoutNul(s) == s && Trim(s) == s
    decreases |s|
  {
    if s == "" {
    } else {
      VisibleStays(s[1..]);
      assert s[0] != '\0' && s == [s[0]] + s[1..];
      assert !IsSpace(s[0]) && !IsSpace(s[|s| - 1]);
    }
  }

  /** A visible format of an entry that fits in the box is read back. */
  lemma StsdReadsBack(flags: seq<Byte>, count: nat, size: nat, format: string, rest: seq<Byte>)
    requires |flags| == 4 && 1 <= count < WORD && size < WORD && |format| == 4 && IsAscii(format) && IsVisible(format)
    requires 8 <= size <= 8 + |rest|
    ensures StsdCodec(StsdPayload(flags, count, size, format, rest)) == Some(format)
  {
    var p := StsdPayload(flags, count, size, format, rest);
    U32At(p, 4, count);
    U32At(p, 8, size);
    assert p[12..16] == AsciiBytes(format);
    AsciiReadsBack(format);
    VisibleStays(format);
  }

  // ----- which mvhd and which stsd decide -----

  ghost predicate IsFirst<T>(s: seq<Option<T>>, i: int, r: Option<T>) {
    0 <= i < |s| && s[i] == r && forall j :: 0 <= j < i ==> s[j].None?
  }

  ghost predicate IsLast<T>(s: seq<Option<T>>, i: int, r: Option<T>) {
    0 <= i < |s| && s[i] == r && forall j :: i < j < |s| ==> s[j].None?
  }

  function FirstSome<T>(s: seq<Option<T>>): (r: Option<T>)
    ensures r.None? <==> forall i :: 0 <= i < |s| ==> s[i].None?
    ensures r.Some? ==> exists i :: IsFirst(s, i, r)
  {
    if s == [] then None
    else if s[0].Some? then
      assert IsFirst(s, 0, s[0]);
      s[0]
    else
      var r := FirstSome(s[1..]);
      assert r.Some? ==> exists i :: IsFirst(s, i, r) by {
        if r.Some? {
          var i :| IsFirst(s[1..], i, r);
          assert IsFirst(s, i + 1, r);
        }
      }
      r
  }

  function LastSome<T>(s: seq<Option<T>>): (r: Option<T>)
    ensures r.None? <==> forall i :: 0 <= i < |s| ==> s[i].None?
    ensures r.Some? ==> exists i :: IsLast(s, i, r)
  {
    if s == [] then None
    else if s[|s| - 1].Some? then
      assert IsLast(s, |s| - 1, s[|s| - 1]);
      s[|s| - 1]
    else
      var r := LastSome(s[..|s| - 1]);
      assert r.Some? ==> exists i :: IsLast(s, i, r) by {
        if r.Some? {
          var i :| IsLast(s[..|s| - 1], i, r);
          assert IsLast(s, i, r);
        }
      }
      r
  }

  /** The durations of the mvhd boxes, in order. */
  function Durations(f: Forest): seq<Option<real>>
    requires CanWriteAll(f)
  {
    if f.End? then []
    else (if f.first.kind == "mvhd" then [MvhdDuration(BoxOf(f.first).payload)] else []) + Durations(f.rest)
  }

  /** The codecs of the stsd boxes at the end of the path, in order, among and inside boxes of any other types. */
  function Codecs(path: seq<string>, f: Forest): seq<Option<string>>
    requires CanWriteAll(f)
    decreases f
  {
    if f.End? then []
    else
      var t := f.first;
      assert CanWrite(t);
      var inside :=
        if path == [] then if t.kind == "stsd" then [StsdCodec(BoxOf(t).payload)] else []
        else if t.kind == path[0] && t.Branch? then Codecs(path[1..], t.children)
        else [];
      inside + Codecs(path, f.rest)
  }

  lemma {:induction false} FirstOfBoth<T>(a: seq<Option<T>>, b: seq<Option<T>>)
    ensures FirstSome(a + b) == if FirstSome(a).Some? then FirstSome(a) else FirstSome(b)
    decreases |a|
  {
    if a == [] {
      assert a + b == b;
    } else {
      FirstOfBoth(a[1..], b);
      assert (a + b)[1..] == a[1..] + b;
    }
  }

  lemma {:induction false} LastOfBoth<T>(a: seq<Option<T>>, b: seq<Option<T>>)
    ensures LastSome(a + b) == if LastSome(b).Some? then LastSome(b) else LastSome(a)
    decreases |b|
  {
    if b == [] {
      assert a + b == a;
    } else {
      LastOfBoth(a, b[..|b| - 1]);
      assert (a + b)[..|a + b| - 1] == a + b[..|b| - 1];
    }
  }

  lemma {:induction false} LastDurationDecides(f: Forest, sofar: Option<real>)
    requires CanWriteAll(f)
    ensures ForestDuration(DurationStep, f, sofar) ==
      if LastSome(Durations(f)).Some? then LastSome(Durations(f)) else sofar
    decreases f
  {
    if f.End? {
      assert Durations(f) == [];
    } else {
      var here := if f.first.kind == "mvhd" then [MvhdDuration(BoxOf(f.first).payload)] else [];
      LastDurationDecides(f.rest, DurationStep(f.first.kind, BoxOf(f.first).payload, sofar));
      LastOfBoth(here, Durations(f.rest));
    }
  }

  lemma {:induction false} FirstCodecDecides(path: seq<string>, f: Forest, sofar: Option<string>)
    requires CanWriteAll(f)
    ensures ForestCodec(path, f, sofar) == if sofar.Some? then sofar else FirstSome(Codecs(path, f))
    decreases f
  {
    if f.End? {
      assert Codecs(path, f) == [];
    } else {
      var t := f.first;
      assert CanWrite(t);
      if path == [] {
        FirstCodecDecides(path, f.rest, CodecStep(t.kind, BoxOf(t).payload, sofar));
        FirstOfBoth(if t.kind == "stsd" then [StsdCodec(BoxOf(t).payload)] else [], Codecs(path, f.rest));
      } else if t.kind == path[0] && t.Branch? {
        FirstCodecDecides(path[1..], t.children, sofar);
        FirstCodecDecides(path, f.rest, ForestCodec(path[1..], t.children, sofar));
        FirstOfBoth(Codecs(path[1..], t.children), Codecs(path, f.rest));
      } else {
        FirstCodecDecides(path, f.rest, sofar);
        assert [] + Codecs(path, f.rest) == Codecs(path, f.rest);
      }
    }
  }

  /** Of any written movie, whatever other boxes lie where, parsing gives the last duration that an mvhd box has and
      the first codec that an stsd box under trak/mdia/minf/stbl has. */
  lemma MovieReadsBack(moov: Tree)
    requires CanWrite(moov) && moov.Branch? && PathIsBranches(CODEC_PATH, moov.children)
    ensures MoovMetadata(WriteBox(BoxOf(moov))) ==
      Metadata(LastSome(Durations(moov.children)), FirstSome(Codecs(CODEC_PATH, moov.children)))
  {
    ParseUndoesWrite(moov);
    LastDurationDecides(moov.children, None);
    FirstCodecDecides(CODEC_PATH, moov.children, None);
  }

  /** A box after a box of another type, and nothing behind it. */
  function Second(other: Tree, t: Tree): Forest {
    More(other, More(t, End))
  }

  /** A usual layout, in which every box on the path comes after another one: tkhd, mdhd, vmhd and stts. */
  function UsualMoov(mvhd: seq<Byte>, tkhd: seq<Byte>, mdhd: seq<Byte>, vmhd: seq<Byte>, stts: seq<Byte>,
      stsd: seq<Byte>): Tree
  {
    var stbl := Branch("stbl", false, Second(Leaf("stts", false, stts), Leaf("stsd", false, stsd)));
    var minf := Branch("minf", false, Second(Leaf("vmhd", false, vmhd), stbl));
    var mdia := Branch("mdia", false, Second(Leaf("mdhd", false, mdhd), minf));
    var trak := Branch("trak", false, Second(Leaf("tkhd", false, tkhd), mdia));
    Branch("moov", false, Second(Leaf("mvhd", false, mvhd), trak))
  }

  lemma BothCanBeWritten(t: Tree, other: Tree, inner: Tree)
    requires CanWrite(t) && t.Branch? && t.children == Second(other, inner)
    ensures CanWrite(other) && CanWrite(inner)
  {
    var last := t.children.rest;
    assert CanWriteAll(last) && last.first == inner;
  }

  lemma OneLevelDown(path: seq<string>, rest: seq<string>, other: Tree, t: Tree)
    requires path == [t.kind] + rest && t.Branch? && other.kind != t.kind && PathIsBranches(rest, t.children)
    requires CanWrite(other) && CanWrite(t)
    ensures PathIsBranches(path, Second(other, t))
    ensures Codecs(path, Second(other, t)) == Codecs(rest, t.children)
  {
    assert path[1..] == rest;
    var last := More(t, End);
    assert PathIsBranches(path, last);
    assert Codecs(path, End) == [];
    assert Codecs(path, last) == Codecs(rest, t.children) + [];
    assert Codecs(path, Second(other, t)) == [] + Codecs(path, last);
  }

  lemma StsdInside(stts: Tree, stsd: Tree)
    requires CanWrite(stts) && CanWrite(stsd) && stts.kind == "stts" && stsd.kind == "stsd" && stsd.Leaf?
    ensures Codecs([], Second(stts, stsd)) == [StsdCodec(stsd.bytes)]
  {
    var last := More(stsd, End);
    assert Codecs([], End) == [];
    assert Codecs([], last) == [StsdCodec(stsd.bytes)];
    assert Codecs([], Second(stts, stsd)) == [] + Codecs([], last);
  }

  lemma OnlyMvhd(mvhd: Tree, trak: Tree)
    requires CanWrite(mvhd) && CanWrite(trak) && mvhd.kind == "mvhd" && trak.kind == "trak" && mvhd.Leaf?
    ensures Durations(Second(mvhd, trak)) == [MvhdDuration(mvhd.bytes)]
  {
    var last := More(trak, End);
    assert trak.kind[0] == 't' && mvhd.kind[0] == 'm';
    assert Durations(End) == [];
    assert Durations(last) == [];
    assert Durations(Second(mvhd, trak)) == [MvhdDuration(mvhd.bytes)] + Durations(last);
  }

  /** Whatever the other boxes hold, its duration and format are read back. */
  lemma UsualMovieReadsBack(mvhd: seq<Byte>, tkhd: seq<Byte>, mdhd: seq<Byte>, vmhd: seq<Byte>, stts: seq<Byte>,
      stsd: seq<Byte>)
    requires CanWrite(UsualMoov(mvhd, tkhd, mdhd, vmhd, stts, stsd))
    ensures MoovMetadata(WriteBox(BoxOf(UsualMoov(mvhd, tkhd, mdhd, vmhd, stts, stsd)))) ==
      Metadata(MvhdDuration(mvhd), StsdCodec(stsd))
  {
    var moov := UsualMoov(mvhd, tkhd, mdhd, vmhd, stts, stsd);
    var trak := moov.children.rest.first;
    var mdia := trak.children.rest.first;
    var minf := mdia.children.rest.first;
    var stbl := minf.children.rest.first;
    BothCanBeWritten(moov, moov.children.first, trak);
    BothCanBeWritten(trak, trak.children.first, mdia);
    BothCanBeWritten(mdia, mdia.children.first, minf);
    BothCanBeWritten(minf, minf.children.first, stbl);
    BothCanBeWritten(stbl, stbl.children.first, stbl.children.rest.first);
    StsdInside(stbl.children.first, stbl.children.rest.first);
    OneLevelDown(["stbl"], [], minf.children.first, stbl);
    OneLevelDown(["minf", "stbl"], ["stbl"], mdia.children.first, minf);
    OneLevelDown(["mdia", "minf", "stbl"], ["minf", "stbl"], trak.children.first, mdia);
    OneLevelDown(CODEC_PATH, ["mdia", "minf", "stbl"], moov.children.first, trak);
    OnlyMvhd(moov.children.first, trak);
    MovieReadsBack(moov);
  }

  // ----- finding a written moov box -----

  /** A written moov box is found exactly when nothing before it reads as one. */
  lemma WrittenMoovIsFound(buf: seq<Byte>, o: nat, moov: Box)
    requires Writable(moov) && moov.kind == "moov" && LiesAt(buf, o, WriteBox(moov))
    ensures IsFirstMoov(buf, o, WriteBox(moov)) <==> forall j: nat :: j < o ==> !MoovAt(buf, j)
  {
    WrittenBoxAt(buf, o, |buf|, moov);
  }

  /** A moov box without contents inside a free box is found in the place of the movie behind it. */
  lemma AnEarlierMoovIsFound(moov: Box) returns (buf: seq<Byte>, fake: seq<Byte>)
    requires Writable(moov) && moov.kind == "moov" && |moov.payload| > 0
    ensures fake == WriteBox(Box("moov", false, []))
    ensures buf == WriteBox(Box("free", false, fake)) + WriteBox(moov)
    ensures IsFirstMoov(buf, 8, fake) && !IsFirstMoov(buf, 16, WriteBox(moov))
  {
    fake := WriteBox(Box("moov", false, []));
    var free := Box("free", false, fake);
    buf := WriteBox(free) + WriteBox(moov);
    assert LiesAt(buf, 0, WriteBox(free)) by { assert buf[0..16] == WriteBox(free); }
    LiesAtSplit(buf, 0, Header(free), fake);
    WrittenBoxAt(buf, 8, |buf|, Box("moov", false, []));
    FirstBytes(buf, fake);
    FreeIsNoMoov(buf);
    assert MoovAt(buf, 8);
  }

  lemma FirstBytes(buf: seq<Byte>, fake: seq<Byte>)
    requires fake == WriteBox(Box("moov", false, [])) && LiesAt(buf, 0, WriteBox(Box("free", false, fake)))
    ensures buf[4..12] == AsciiBytes("free") + WriteU32(8)
  {
    var free := WriteBox(Box("free", false, fake));
    assert fake == WriteU32(8) + AsciiBytes("moov") + [];
    assert free == WriteU32(16) + AsciiBytes("free") + fake;
    assert buf[4..12] == free[4..12];
  }

  lemma EightInBytes()
    ensures BigEndian(8, 4) == [0, 0, 0, 8]
  {
    assert BigEndian(0, 1) == [0] && BigEndian(0, 2) == [0, 0] && BigEndian(0, 3) == [0, 0, 0];
  }

  lemma NoMoovWithoutItsLetter(buf: seq<Byte>, j: nat)
    requires j + 8 <= |buf| && buf[j + 4] % 128 != 109
    ensures !MoovAt(buf, j)
  {
    assert AsciiText(buf[j + 4..j + 8])[0] == Ascii(buf[j + 4]);
    assert "moov"[0] == 'm';
  }

  lemma FreeIsNoMoov(buf: seq<Byte>)
    requires 16 <= |buf| && buf[4..12] == AsciiBytes("free") + WriteU32(8)
    ensures forall j: nat :: j < 8 ==> !MoovAt(buf, j)
  {
    EightInBytes();
    assert AsciiBytes("free") == [102, 114, 101, 101];
    forall j: nat | j < 8 ensures !MoovAt(buf, j) {
      assert buf[j + 4] == buf[4..12][j];
      NoMoovWithoutItsLetter(buf, j);
    }
  }
}
