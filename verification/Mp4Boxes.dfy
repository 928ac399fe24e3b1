/** The boxes of an MP4 file (ISO/IEC 14496-12 section 4.2): walking them, and what walking finds of boxes written. */
module Mp4Boxes {
  import opened Options

  type Byte = b: int | 0 <= b < 256 witness 0

  const WORD: int := 0x1_0000_0000

  // ----- numbers and types -----

  /** The number of values that k bytes can take. */
  function Range(k: nat): (r: nat)
    ensures r > 0
  {
    if k == 0 then 1 else 256 * Range(k - 1)
  }

  lemma WordRanges()
    ensures Range(4) == WORD && Range(8) == WORD * WORD
  {
  }

  /** s read as one number, the first byte being the highest. */
  function Value(s: seq<Byte>): (n: nat)
    ensures n < Range(|s|)
  {
    if s == [] then 0 else Value(s[..|s| - 1]) * 256 + s[|s| - 1]
  }

  /** The last k bytes of n, the highest first. */
  function BigEndian(n: nat, k: nat): (s: seq<Byte>)
    ensures |s| == k
  {
    if k == 0 then [] else BigEndian(n / 256, k - 1) + [n % 256]
  }

  lemma {:induction false} ValueReadsBack(n: nat, k: nat)
    requires n < Range(k)
    ensures Value(BigEndian(n, k)) == n
    decreases k
  {
    if k == 0 {
    } else {
      ValueReadsBack(n / 256, k - 1);
      assert BigEndian(n, k)[..k - 1] == BigEndian(n / 256, k - 1);
    }
  }

  function ReadU32(buf: seq<Byte>, o: nat): (n: nat)
    requires o + 4 <= |buf|
    ensures n < WORD
  {
    WordRanges();
    Value(buf[o..o + 4])
  }

  function ReadU64(buf: seq<Byte>, o: nat): nat
    requires o + 8 <= |buf|
  {
    Value(buf[o..o + 8])
  }

  function WriteU32(n: nat): (s: seq<Byte>)
    requires n < WORD
    ensures |s| == 4
  {
    BigEndian(n, 4)
  }

  function WriteU64(n: nat): (s: seq<Byte>)
    requires n < WORD * WORD
    ensures |s| == 8
  {
    BigEndian(n, 8)
  }

  /** Latin letters and digits as Node's ascii decoding gives them: the high bit is dropped. */
  function Ascii(b: Byte): char {
    (b % 128) as char
  }

  function AsciiText(s: seq<Byte>): (t: string)
    ensures |t| == |s|
  {
    if s == [] then "" else [Ascii(s[0])] + AsciiText(s[1..])
  }

  predicate IsAscii(s: string) {
    forall i :: 0 <= i < |s| ==> s[i] as int < 128
  }

  function AsciiBytes(s: string): (t: seq<Byte>)
    requires IsAscii(s)
    ensures |t| == |s|
  {
    seq(|s|, i requires 0 <= i < |s| => s[i] as int)
  }

  lemma {:induction false} AsciiReadsBack(s: string)
    requires IsAscii(s)
    ensures AsciiText(AsciiBytes(s)) == s
    decreases |s|
  {
    if s == "" {
    } else {
      AsciiReadsBack(s[1..]);
      assert AsciiBytes(s)[1..] == AsciiBytes(s[1..]);
      assert s == [s[0]] + s[1..];
    }
  }

  // ----- walking -----

  datatype Visit = Visit(kind: string, payloadStart: nat, payloadEnd: nat)

  /** What a box header at o says; None when no whole box starts there. */
  function BoxAt(buf: seq<Byte>, o: nat, end: nat): (v: Option<Visit>)
    ensures v.Some? ==> FitsIn(v.value, o, end)
  {
    if o + 8 > end || end > |buf| then None
    else
      var short := ReadU32(buf, o);
      if short == 1 && o + 16 > end then None
      else
        var size := if short == 1 then ReadU64(buf, o + 8) else short;
        var header := if short == 1 then 16 else 8;
        if size < header || o + size > end then None
        else Some(Visit(AsciiText(buf[o + 4..o + 8]), o + header, o + size))
  }

  predicate FitsIn(v: Visit, o: nat, end: nat) {
    o + 8 <= v.payloadStart <= v.payloadEnd <= end && |v.kind| == 4
  }

  /** What starts at a place. */
  type Scanner = nat -> Option<Visit>

  function Scan(buf: seq<Byte>, end: nat): Scanner {
    (o: nat) => BoxAt(buf, o, end)
  }

  /** What a scanner finds from o on, up to the first place where it finds nothing. */
  function Walk(at: Scanner, o: nat, end: nat): seq<Visit>
    decreases end - o
  {
    var v := at(o);
    if v.None? || v.value.payloadEnd <= o || v.value.payloadEnd > end then []
    else [v.value] + Walk(at, v.value.payloadEnd, end)
  }

  function Boxes(buf: seq<Byte>, start: nat, end: nat): seq<Visit> {
    Walk(Scan(buf, end), start, end)
  }

  /** Visits every child box in order; the visits are what the callback is called with. */
  method WalkChildBoxes(buf: seq<Byte>, start: nat, end: nat) returns (visits: seq<Visit>)
    requires end <= |buf|
    ensures visits == Boxes(buf, start, end)
  {
    ghost var at := Scan(buf, end);
    visits := [];
    var o := start;
    while o + 8 <= end
      invariant WalkedTo(at, start, o, end, visits)
      decreases end - o
    {
      var size := ReadU32(buf, o);
      var kind := AsciiText(buf[o + 4..o + 8]);
      var header := 8;
      if size == 1 {
        if o + 16 > end { break; }
        size := ReadU64(buf, o + 8);
        header := 16;
      }
      if size < header || o + size > end { break; }
      var visit := Visit(kind, o + header, o + size);
      HeaderGives(buf, o, end, visit);
      WalkOn(at, start, o, end, visits, visit);
      visits := visits + [visit];
      o := o + size;
    }
    NoHeaderGives(buf, o, end);
    assert visits + [] == visits;
  }

  ghost predicate WalkedTo(at: Scanner, start: nat, o: nat, end: nat, visits: seq<Visit>) {
    Walk(at, start, end) == visits + Walk(at, o, end)
  }

  lemma HeaderGives(buf: seq<Byte>, o: nat, end: nat, v: Visit)
    requires BoxAt(buf, o, end) == Some(v)
    ensures Scan(buf, end)(o) == Some(v)
  {
  }

  lemma NoHeaderGives(buf: seq<Byte>, o: nat, end: nat)
    requires BoxAt(buf, o, end).None?
    ensures Scan(buf, end)(o).None?
  {
  }

  lemma WalkOn(at: Scanner, start: nat, o: nat, end: nat, visits: seq<Visit>, v: Visit)
    requires WalkedTo(at, start, o, end, visits) && at(o) == Some(v) && o < v.payloadEnd <= end
    ensures WalkedTo(at, start, v.payloadEnd, end, visits + [v])
  {
  }

  /** Inside the bounds, and each at least a header after the one before. */
  ghost predicate InOrder(visits: seq<Visit>, start: nat, end: nat) {
    && (forall i :: 0 <= i < |visits| ==> FitsIn(visits[i], start, end))
    && forall i, j :: 0 <= i < j < |visits| ==> visits[i].payloadEnd + 8 <= visits[j].payloadStart
  }

  lemma PrependVisit(v: Visit, rest: seq<Visit>, start: nat, end: nat)
    requires FitsIn(v, start, end) && InOrder(rest, v.payloadEnd, end)
    ensures InOrder([v] + rest, start, end)
  {
    var visits := [v] + rest;
    forall i | 0 <= i < |visits| ensures FitsIn(visits[i], start, end) {
      if i > 0 { assert visits[i] == rest[i - 1] && FitsIn(rest[i - 1], v.payloadEnd, end); }
    }
    forall i, j | 0 <= i < j < |visits| ensures visits[i].payloadEnd + 8 <= visits[j].payloadStart {
      assert visits[j] == rest[j - 1] && FitsIn(rest[j - 1], v.payloadEnd, end);
      if i > 0 { assert visits[i] == rest[i - 1]; }
    }
  }

  lemma {:induction false} WalkIsInOrder(at: Scanner, o: nat, end: nat)
    requires forall p :: at(p).Some? ==> FitsIn(at(p).value, p, end)
    ensures InOrder(Walk(at, o, end), o, end)
    decreases end - o
  {
    if at(o).Some? {
      WalkIsInOrder(at, at(o).value.payloadEnd, end);
      PrependVisit(at(o).value, Walk(at, at(o).value.payloadEnd, end), o, end);
    }
  }

  /** On any bytes the visits lie within the bounds, one after the other, at least a header apart. */
  lemma VisitsAreDisjointAndInBounds(buf: seq<Byte>, start: nat, end: nat)
    ensures InOrder(Boxes(buf, start, end), start, end)
  {
    WalkIsInOrder(Scan(buf, end), start, end);
  }

  // ----- writing -----

  /** large boxes carry a 64-bit size. */
  datatype Box = Box(kind: string, large: bool, payload: seq<Byte>)

  function HeaderSize(b: Box): nat {
    if b.large then 16 else 8
  }

  function BoxSize(b: Box): nat {
    HeaderSize(b) + |b.payload|
  }

  predicate Writable(b: Box) {
    && |b.kind| == 4 && IsAscii(b.kind)
    && BoxSize(b) < (if b.large then WORD * WORD else WORD)
  }

  function Header(b: Box): (s: seq<Byte>)
    requires Writable(b)
    ensures |s| == HeaderSize(b)
  {
    if b.large then WriteU32(1) + AsciiBytes(b.kind) + WriteU64(BoxSize(b))
    else WriteU32(BoxSize(b)) + AsciiBytes(b.kind)
  }

  function WriteBox(b: Box): (s: seq<Byte>)
    requires Writable(b)
    ensures |s| == BoxSize(b)
  {
    Header(b) + b.payload
  }

  ghost predicate AllWritable(boxes: seq<Box>) {
    forall i :: 0 <= i < |boxes| ==> Writable(boxes[i])
  }

  function WriteBoxes(boxes: seq<Box>): seq<Byte>
    requires forall i :: 0 <= i < |boxes| ==> Writable(boxes[i])
  {
    if boxes == [] then [] else WriteBox(boxes[0]) + WriteBoxes(boxes[1..])
  }

  /** Where the payloads of boxes written from start on lie. */
  function Placed(boxes: seq<Box>, start: nat): seq<Visit> {
    if boxes == [] then []
    else
      var b := boxes[0];
      [Visit(b.kind, start + HeaderSize(b), start + BoxSize(b))] + Placed(boxes[1..], start + BoxSize(b))
  }

  /** s lies in buf from o on. */
  predicate LiesAt(buf: seq<Byte>, o: nat, s: seq<Byte>) {
    o + |s| <= |buf| && buf[o..o + |s|] == s
  }

  lemma LiesAtSplit(buf: seq<Byte>, o: nat, a: seq<Byte>, b: seq<Byte>)
    requires LiesAt(buf, o, a + b)
    ensures LiesAt(buf, o, a) && LiesAt(buf, o + |a|, b)
  {
    var whole := buf[o..o + |a + b|];
    assert whole[..|a|] == a && whole[|a|..] == b;
    assert buf[o..o + |a|] == whole[..|a|];
    assert buf[o + |a|..o + |a| + |b|] == whole[|a|..];
  }

  lemma U32At(buf: seq<Byte>, o: nat, n: nat)
    requires n < WORD && LiesAt(buf, o, WriteU32(n))
    ensures ReadU32(buf, o) == n
  {
    WordRanges();
    ValueReadsBack(n, 4);
  }

  lemma U64At(buf: seq<Byte>, o: nat, n: nat)
    requires n < WORD * WORD && LiesAt(buf, o, WriteU64(n))
    ensures ReadU64(buf, o) == n
  {
    WordRanges();
    ValueReadsBack(n, 8);
  }

  lemma KindAt(buf: seq<Byte>, o: nat, kind: string)
    requires |kind| == 4 && IsAscii(kind) && LiesAt(buf, o, AsciiBytes(kind))
    ensures AsciiText(buf[o..o + 4]) == kind
  {
    AsciiReadsBack(kind);
  }

  /** A written box is the one found where it lies. */
  lemma WrittenBoxAt(buf: seq<Byte>, o: nat, end: nat, b: Box)
    requires Writable(b) && LiesAt(buf, o, WriteBox(b)) && o + BoxSize(b) <= end <= |buf|
    ensures BoxAt(buf, o, end) == Some(Visit(b.kind, o + HeaderSize(b), o + BoxSize(b)))
    ensures LiesAt(buf, o + HeaderSize(b), b.payload)
  {
    LiesAtSplit(buf, o, Header(b), b.payload);
    if b.large {
      LargeHeaderAt(buf, o, b);
    } else {
      LiesAtSplit(buf, o, WriteU32(BoxSize(b)), AsciiBytes(b.kind));
      U32At(buf, o, BoxSize(b));
      KindAt(buf, o + 4, b.kind);
    }
  }

  lemma LargeHeaderAt(buf: seq<Byte>, o: nat, b: Box)
    requires Writable(b) && b.large && LiesAt(buf, o, Header(b))
    ensures ReadU32(buf, o) == 1 && AsciiText(buf[o + 4..o + 8]) == b.kind && ReadU64(buf, o + 8) == BoxSize(b)
  {
    LiesAtSplit(buf, o, WriteU32(1) + AsciiBytes(b.kind), WriteU64(BoxSize(b)));
    LiesAtSplit(buf, o, WriteU32(1), AsciiBytes(b.kind));
    U32At(buf, o, 1);
    KindAt(buf, o + 4, b.kind);
    U64At(buf, o + 8, BoxSize(b));
  }

  function TotalSize(boxes: seq<Box>): nat {
    if boxes == [] then 0 else BoxSize(boxes[0]) + TotalSize(boxes[1..])
  }

  lemma WriteBoxesStep(boxes: seq<Box>)
    requires AllWritable(boxes) && boxes != []
    ensures AllWritable(boxes[1..]) && WriteBoxes(boxes) == WriteBox(boxes[0]) + WriteBoxes(boxes[1..])
  {
  }

  lemma {:induction false} WrittenSize(boxes: seq<Box>)
    requires AllWritable(boxes)
    ensures |WriteBoxes(boxes)| == TotalSize(boxes)
    decreases |boxes|
  {
    if boxes == [] {
    } else {
      WriteBoxesStep(boxes);
      WrittenSize(boxes[1..]);
    }
  }

  /** The boxes lie in buf one after the other. */
  ghost predicate LaidOut(buf: seq<Byte>, o: nat, boxes: seq<Box>)
    decreases |boxes|
  {
    boxes != [] ==>
      Writable(boxes[0]) && LiesAt(buf, o, WriteBox(boxes[0])) && LaidOut(buf, o + BoxSize(boxes[0]), boxes[1..])
  }

  lemma {:induction false} WrittenIsLaidOut(buf: seq<Byte>, o: nat, boxes: seq<Box>)
    requires AllWritable(boxes) && LiesAt(buf, o, WriteBoxes(boxes))
    ensures LaidOut(buf, o, boxes)
    decreases |boxes|
  {
    if boxes == [] {
    } else {
      WriteBoxesStep(boxes);
      LiesAtSplit(buf, o, WriteBox(boxes[0]), WriteBoxes(boxes[1..]));
      WrittenIsLaidOut(buf, o + BoxSize(boxes[0]), boxes[1..]);
    }
  }

  lemma ScanFinds(buf: seq<Byte>, o: nat, end: nat, b: Box)
    requires Writable(b) && LiesAt(buf, o, WriteBox(b)) && o + BoxSize(b) <= end <= |buf|
    ensures Scan(buf, end)(o) == Some(Visit(b.kind, o + HeaderSize(b), o + BoxSize(b)))
  {
    WrittenBoxAt(buf, o, end, b);
  }

  lemma NothingAtTheEnd(buf: seq<Byte>, end: nat)
    ensures Scan(buf, end)(end).None?
  {
  }

  lemma RestIsLaidOut(buf: seq<Byte>, o: nat, boxes: seq<Box>, end: nat)
    requires boxes != [] && LaidOut(buf, o, boxes) && end == o + TotalSize(boxes) <= |buf|
    ensures LaidOut(buf, o + BoxSize(boxes[0]), boxes[1..]) && end == o + BoxSize(boxes[0]) + TotalSize(boxes[1..])
    ensures Scan(buf, end)(o) == Some(Visit(boxes[0].kind, o + HeaderSize(boxes[0]), o + BoxSize(boxes[0])))
  {
    ScanFinds(buf, o, end, boxes[0]);
  }

  lemma WalkOneMore(at: Scanner, boxes: seq<Box>, o: nat, end: nat)
    requires boxes != [] && o + BoxSize(boxes[0]) <= end
    requires at(o) == Some(Visit(boxes[0].kind, o + HeaderSize(boxes[0]), o + BoxSize(boxes[0])))
    requires Walk(at, o + BoxSize(boxes[0]), end) == Placed(boxes[1..], o + BoxSize(boxes[0]))
    ensures Walk(at, o, end) == Placed(boxes, o)
  {
  }

  lemma {:induction false} LaidOutIsWalked(buf: seq<Byte>, o: nat, boxes: seq<Box>, end: nat)
    requires LaidOut(buf, o, boxes) && end == o + TotalSize(boxes) <= |buf|
    ensures Boxes(buf, o, end) == Placed(boxes, o)
    decreases |boxes|
  {
    if boxes == [] {
      NothingAtTheEnd(buf, end);
    } else {
      RestIsLaidOut(buf, o, boxes, end);
      LaidOutIsWalked(buf, o + BoxSize(boxes[0]), boxes[1..], end);
      WalkOneMore(Scan(buf, end), boxes, o, end);
    }
  }

  /** Walking boxes that were written back to back visits exactly their types and payload ranges, in order. */
  lemma WalkUndoesWrite(buf: seq<Byte>, start: nat, boxes: seq<Box>, end: nat)
    requires AllWritable(boxes) && LiesAt(buf, start, WriteBoxes(boxes)) && end == start + |WriteBoxes(boxes)|
    ensures Boxes(buf, start, end) == Placed(boxes, start)
  {
    WrittenSize(boxes);
    WrittenIsLaidOut(buf, start, boxes);
    LaidOutIsWalked(buf, start, boxes, end);
  }

  /** v is the visit of b, and the payload of b lies in its range. */
  ghost predicate Holds(buf: seq<Byte>, v: Visit, b: Box) {
    v.kind == b.kind && v.payloadEnd == v.payloadStart + |b.payload| && LiesAt(buf, v.payloadStart, b.payload)
  }

  lemma PayloadAt(buf: seq<Byte>, o: nat, b: Box)
    requires Writable(b) && LiesAt(buf, o, WriteBox(b))
    ensures LiesAt(buf, o + HeaderSize(b), b.payload)
  {
    LiesAtSplit(buf, o, Header(b), b.payload);
  }

  lemma {:induction false} LaidOutHolds(buf: seq<Byte>, o: nat, boxes: seq<Box>, i: nat)
    requires LaidOut(buf, o, boxes) && i < |boxes| == |Placed(boxes, o)|
    ensures Holds(buf, Placed(boxes, o)[i], boxes[i])
    decreases |boxes|
  {
    if i == 0 {
      PayloadAt(buf, o, boxes[0]);
    } else {
      LaidOutHolds(buf, o + BoxSize(boxes[0]), boxes[1..], i - 1);
    }
  }

  /** And the payload of each box lies in the range visited. */
  lemma PayloadsAreInPlace(buf: seq<Byte>, start: nat, boxes: seq<Box>)
    requires AllWritable(boxes) && LiesAt(buf, start, WriteBoxes(boxes))
    ensures |Placed(boxes, start)| == |boxes|
    ensures forall i :: 0 <= i < |boxes| ==> Holds(buf, Placed(boxes, start)[i], boxes[i])
  {
    PlacedLength(boxes, start);
    WrittenIsLaidOut(buf, start, boxes);
    forall i | 0 <= i < |boxes| ensures Holds(buf, Placed(boxes, start)[i], boxes[i]) {
      LaidOutHolds(buf, start, boxes, i);
    }
  }

  lemma {:induction false} PlacedLength(boxes: seq<Box>, start: nat)
    ensures |Placed(boxes, start)| == |boxes|
    decreases |boxes|
  {
    if boxes == [] {
    } else {
      PlacedLength(boxes[1..], start + BoxSize(boxes[0]));
    }
  }
}
