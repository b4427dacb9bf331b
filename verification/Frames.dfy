/** All the frames of a buffer, one after the other, and how the list answers to changes of the bytes. */
module Frames {
  import opened Bytes
  import opened Frame
  import opened FrameSpec

  datatype Found = Found(start: nat, end: nat, good: bool)

  /** The search restarts two bytes behind each closing ETX. */
  function All(s: seq<byte>, from: nat): seq<Found>
    requires from <= |s|
    decreases |s| - from
  {
    var l := Locate(s, from);
    if l.end.None? || l.end.value + 1 == |s| then []
    else
      [Found(l.start.value, l.end.value, IsGood(s, l.start.value, l.end.value))] + All(s, l.end.value + 2)
  }

  /** A list of frames, each the next one behind its predecessor, with none left behind the last. */
  ghost predicate IsChain(s: seq<byte>, from: nat, fs: seq<Found>)
    decreases |fs|
  {
    if fs == [] then !exists start: nat, end: nat :: IsFrame(s, from, start, end)
    else
      && IsFrame(s, from, fs[0].start, fs[0].end)
      && fs[0].good == IsGood(s, fs[0].start, fs[0].end)
      && IsChain(s, fs[0].end + 2, fs[1..])
  }

  lemma NextMeans(s: seq<byte>, from: nat)
    requires from <= |s|
    ensures forall start: nat, end: nat ::
              IsFrame(s, from, start, end) <==>
              Locate(s, from) == Location(Some(start), Some(end)) && end + 1 < |s|
  {
    hide Locate;
    LocateMeans(s, from);
  }

  lemma {:induction false} AllIsTheChain(s: seq<byte>, from: nat, fs: seq<Found>)
    requires from <= |s|
    ensures IsChain(s, from, fs) <==> fs == All(s, from)
    decreases |s| - from
  {
    hide Locate, IsGood, IsFrame;
    NextMeans(s, from);
    var l := Locate(s, from);
    if l.end.None? || l.end.value + 1 == |s| {
      assert forall start: nat, end: nat :: !IsFrame(s, from, start, end);
    } else {
      var start, end := l.start.value, l.end.value;
      assert IsFrame(s, from, start, end);
      if fs != [] {
        AllIsTheChain(s, end + 2, fs[1..]);
        if fs == All(s, from) {
          assert fs[1..] == All(s, end + 2);
        }
        if IsChain(s, from, fs) {
          assert fs[0] == Found(start, end, IsGood(s, start, end));
          assert fs == [fs[0]] + fs[1..];
        }
      }
    }
  }

  lemma {:induction false} IndexOfAgrees(s: seq<byte>, t: seq<byte>, b: byte, from: nat)
    requires |s| == |t| && from <= |s|
    requires forall k | from <= k < |s| && k <= IndexOf(s, b, from) :: s[k] == t[k] || (s[k] != b && t[k] != b)
    ensures IndexOf(s, b, from) == IndexOf(t, b, from)
    decreases |s| - from
  {
    if from < |s| && s[from] != b {
      IndexOfAgrees(s, t, b, from + 1);
    }
  }

  lemma LocateAgrees(s: seq<byte>, t: seq<byte>, from: nat)
    requires |s| == |t| && from <= |s|
    requires forall k | from <= k < |s| :: s[k] == t[k]
    ensures Locate(s, from) == Locate(t, from)
  {
    IndexOfAgrees(s, t, STX, from);
    var k := IndexOf(s, STX, from);
    hide IndexOf;
    if k + 1 < |s| {
      IndexOfAgrees(s, t, ETX, k + 1);
    }
  }

  lemma {:induction false} AllAgrees(s: seq<byte>, t: seq<byte>, from: nat)
    requires |s| == |t| && from <= |s|
    requires forall k | from <= k < |s| :: s[k] == t[k]
    ensures All(s, from) == All(t, from)
    decreases |s| - from
  {
    hide Locate, Lrc;
    LocateAgrees(s, t, from);
    var l := Locate(s, from);
    if l.end.Some? && l.end.value + 1 < |s| {
      assert s[l.start.value..l.end.value + 1] == t[l.start.value..l.end.value + 1];
      AllAgrees(s, t, l.end.value + 2);
    }
  }

  /** Error detection and resynchronisation, in any buffer: replacing one payload byte of one good
      frame by another non-ETX byte, or its checksum byte by another byte, turns exactly that
      frame bad and moves nothing. */
  lemma {:induction false} CorruptionIsLocal(s: seq<byte>, from: nat, k: nat, pos: nat, b: byte)
    requires from <= |s| && k < |All(s, from)| && pos < |s|
    requires var f := All(s, from)[k];
             && f.good
             && ((f.start <= pos < f.end && b != ETX) || pos == f.end + 1)
             && b != s[pos]
    ensures All(s[pos := b], from) == All(s, from)[k := All(s, from)[k].(good := false)]
    decreases |s| - from
  {
    hide All, Locate, Lrc, IndexOf, IsGood;
    var t := s[pos := b];
    var fs := All(s, from);
    FirstOfAll(s, from);
    var start, end, rest := fs[0].start, fs[0].end, All(s, fs[0].end + 2);
    LaterFrames(s, from, k);
    LocateSurvives(s, from, pos, b);
    AllStartsWith(t, from, start, end);
    if k == 0 {
      AllAgrees(s, t, end + 2);
      GoodTurnsBad(s, start, end, pos, b);
      assert fs[0 := fs[0].(good := false)] == [fs[0].(good := false)] + rest;
    } else {
      SameGood(s, t, start, end);
      CorruptionIsLocal(s, end + 2, k - 1, pos, b);
      assert fs[k := fs[k].(good := false)] == [fs[0]] + rest[k - 1 := rest[k - 1].(good := false)];
    }
  }

  lemma FirstOfAll(s: seq<byte>, from: nat)
    requires from <= |s| && All(s, from) != []
    ensures var f := All(s, from)[0];
            && Locate(s, from) == Location(Some(f.start), Some(f.end)) && f.start < f.end && f.end + 1 < |s|
            && f.good == IsGood(s, f.start, f.end)
            && All(s, from) == [f] + All(s, f.end + 2)
  {
    hide Locate, IsGood;
  }

  lemma AllStartsWith(s: seq<byte>, from: nat, start: nat, end: nat)
    requires from <= |s| && Locate(s, from) == Location(Some(start), Some(end)) && end + 1 < |s|
    ensures start < end && All(s, from) == [Found(start, end, IsGood(s, start, end))] + All(s, end + 2)
  {
    hide Locate, IsGood;
  }

  lemma SameGood(s: seq<byte>, t: seq<byte>, start: nat, end: nat)
    requires start < end && end + 1 < |s| == |t| && forall k | start <= k < end + 2 :: s[k] == t[k]
    ensures IsGood(s, start, end) == IsGood(t, start, end)
  {
    hide Lrc;
    assert s[start..end + 1] == t[start..end + 1];
  }

  lemma GoodTurnsBad(s: seq<byte>, start: nat, end: nat, pos: nat, b: byte)
    requires start < end && end + 1 < |s| && IsGood(s, start, end)
    requires start <= pos < end || pos == end + 1
    requires b != s[pos]
    ensures !IsGood(s[pos := b], start, end)
  {
    hide Lrc;
    var t := s[pos := b];
    if pos == end + 1 {
      assert s[start..end + 1] == t[start..end + 1];
    } else {
      LrcDetectsReplacement(s[start..end + 1], pos - start, b);
      assert s[start..end + 1][pos - start := b] == t[start..end + 1];
    }
  }

  /** A frame is still found where it was after a byte of its payload changed to no ETX,
      or a byte behind its ETX changed. */
  lemma LocateSurvives(s: seq<byte>, from: nat, pos: nat, b: byte)
    requires from <= |s| && pos < |s| && Locate(s, from).end.Some?
    requires var l := Locate(s, from);
             (l.start.value <= pos < l.end.value && b != ETX) || pos > l.end.value
    ensures Locate(s[pos := b], from) == Locate(s, from)
  {
    var t := s[pos := b];
    var k := IndexOf(s, STX, from);
    hide IndexOf;
    IndexOfAgrees(s, t, STX, from);
    IndexOfAgrees(s, t, ETX, k + 1);
  }

  /** Frames come in order and do not overlap. */
  lemma {:induction false} LaterFrames(s: seq<byte>, from: nat, k: nat)
    requires from <= |s| && k < |All(s, from)|
    ensures var fs := All(s, from);
            && from < fs[k].start < fs[k].end && fs[k].end + 1 < |s| && s[fs[k].start - 1] == STX
            && (forall p | fs[k].start <= p < fs[k].end :: s[p] != ETX)
            && (k > 0 ==> fs[0].end + 2 < fs[k].start)
    decreases |s| - from
  {
    hide Locate, IsGood;
    var first := All(s, from)[0];
    NextMeans(s, from);
    assert IsFrame(s, from, first.start, first.end);
    if k > 0 {
      LaterFrames(s, first.end + 2, k - 1);
    }
  }

  lemma {:induction false} AllInside(s: seq<byte>, from: nat)
    requires from <= |s|
    ensures forall f | f in All(s, from) :: f.start < f.end && f.end + 1 < |s|
  {
    hide All;
    forall f | f in All(s, from) ensures f.start < f.end && f.end + 1 < |s| {
      var k :| 0 <= k < |All(s, from)| && All(s, from)[k] == f;
      LaterFrames(s, from, k);
    }
  }

  // ----- building a stream

  /** Junk, then one framed payload with the checksum byte that was sent. */
  datatype Piece = Piece(junk: seq<byte>, payload: seq<byte>, check: byte)

  predicate IsPiece(u: Piece) {
    STX !in u.junk && u.payload != [] && ETX !in u.payload
  }

  function Bits(u: Piece): seq<byte> {
    u.junk + [STX] + u.payload + [ETX, u.check]
  }

  function Stream(us: seq<Piece>, tail: seq<byte>): seq<byte> {
    if us == [] then tail else Bits(us[0]) + Stream(us[1..], tail)
  }

  function Extents(us: seq<Piece>, at: nat): seq<Found> {
    if us == [] then []
    else
      var start := at + |us[0].junk| + 1;
      [Found(start, start + |us[0].payload|, Lrc(us[0].payload + [ETX]) == us[0].check)]
      + Extents(us[1..], at + |Bits(us[0])|)
  }

  function Move(f: Found, n: nat): Found {
    Found(f.start + n, f.end + n, f.good)
  }

  function Shift(fs: seq<Found>, n: nat): seq<Found> {
    seq(|fs|, i requires 0 <= i < |fs| => Move(fs[i], n))
  }

  lemma {:induction false} IndexOfShift(a: seq<byte>, s: seq<byte>, b: byte, i: nat)
    requires i <= |s|
    ensures IndexOf(a + s, b, |a| + i) == |a| + IndexOf(s, b, i)
    decreases |s| - i
  {
    if i < |s| && s[i] != b {
      IndexOfShift(a, s, b, i + 1);
    }
  }

  lemma LocateShift(a: seq<byte>, s: seq<byte>, i: nat)
    requires i <= |s|
    ensures var l := Locate(s, i);
            Locate(a + s, |a| + i) == Location(Moved(l.start, |a|), Moved(l.end, |a|))
  {
    IndexOfShift(a, s, STX, i);
    var k := IndexOf(s, STX, i);
    hide IndexOf;
    if k + 1 < |s| {
      IndexOfShift(a, s, ETX, k + 1);
    }
  }

  lemma {:induction false} AllShift(a: seq<byte>, s: seq<byte>, i: nat)
    requires i <= |s|
    ensures All(a + s, |a| + i) == Shift(All(s, i), |a|)
    decreases |s| - i
  {
    hide All, Locate, Lrc, IsGood;
    LocateShift(a, s, i);
    var l := Locate(s, i);
    if l.end.Some? && l.end.value + 1 < |s| {
      var start, end := l.start.value, l.end.value;
      AllStartsWith(s, i, start, end);
      AllStartsWith(a + s, |a| + i, |a| + start, |a| + end);
      ShiftedGood(a, s, start, end);
      AllShift(a, s, end + 2);
    } else {
      AllEnds(s, i);
      AllEnds(a + s, |a| + i);
    }
  }

  lemma ShiftedGood(a: seq<byte>, s: seq<byte>, start: nat, end: nat)
    requires start < end && end + 1 < |s|
    ensures IsGood(a + s, |a| + start, |a| + end) == IsGood(s, start, end)
  {
    hide Lrc;
    assert (a + s)[|a| + start..|a| + end + 1] == s[start..end + 1];
  }

  lemma AllEnds(s: seq<byte>, i: nat)
    requires i <= |s| && (Locate(s, i).end.Some? ==> Locate(s, i).end.value + 1 == |s|)
    ensures All(s, i) == []
  {
    hide Locate;
  }

  /** The first frame of a stream is its first piece. */
  lemma FirstPiece(u: Piece, rest: seq<byte>)
    requires IsPiece(u)
    ensures var s, start := Bits(u) + rest, |u.junk| + 1;
            All(s, 0) == [Found(start, start + |u.payload|, Lrc(u.payload + [ETX]) == u.check)]
                         + Shift(All(rest, 0), |Bits(u)|)
  {
    hide Locate, Lrc, IsFrame;
    var s := Bits(u) + rest;
    var start := |u.junk| + 1;
    var end := start + |u.payload|;
    PieceIsFrame(u, rest);
    NextMeans(s, 0);
    assert s[start..end + 1] == u.payload + [ETX];
    assert |Bits(u)| == end + 2;
    AllShift(Bits(u), rest, 0);
  }

  lemma PieceIsFrame(u: Piece, rest: seq<byte>)
    requires IsPiece(u)
    ensures IsFrame(Bits(u) + rest, 0, |u.junk| + 1, |u.junk| + 1 + |u.payload|)
  {
    var s := Bits(u) + rest;
    var start := |u.junk| + 1;
    var end := start + |u.payload|;
    assert s[..start - 1] == u.junk;
    assert s[start..end] == u.payload;
    forall k | 0 <= k < start - 1 ensures s[k] != STX {
      assert s[k] == u.junk[k];
    }
    forall k | start <= k < end ensures s[k] != ETX {
      assert s[k] == u.payload[k - start];
    }
  }

  /** Framing is undone: whatever junk lies between, whatever the checksum bytes happen to be and
      whatever follows, the loop finds the payloads in order, each with the verdict on its checksum. */
  lemma {:induction false} StreamRecovered(us: seq<Piece>, tail: seq<byte>)
    requires forall u | u in us :: IsPiece(u)
    ensures All(Stream(us, tail), 0)
         == Extents(us, 0) + Shift(All(tail, 0), |Stream(us, [])|)
    decreases |us|
  {
    hide All, Bits, Lrc;
    if us == [] {
      assert Shift(All(tail, 0), 0) == All(tail, 0);
    } else {
      var rest := Stream(us[1..], tail);
      FirstPiece(us[0], rest);
      StreamRecovered(us[1..], tail);
      var n := |Bits(us[0])|;
      ExtentsShift(us[1..], 0, n);
      ShiftShift(All(tail, 0), |Stream(us[1..], [])|, n);
      ShiftConcat(Extents(us[1..], 0), Shift(All(tail, 0), |Stream(us[1..], [])|), n);
    }
  }

  lemma {:induction false} ExtentsShift(us: seq<Piece>, at: nat, n: nat)
    ensures Shift(Extents(us, at), n) == Extents(us, at + n)
    decreases |us|
  {
    if us != [] {
      ExtentsShift(us[1..], at + |Bits(us[0])|, n);
    }
  }

  lemma ShiftShift(fs: seq<Found>, m: nat, n: nat)
    ensures Shift(Shift(fs, m), n) == Shift(fs, m + n)
  {
  }

  lemma ShiftConcat(a: seq<Found>, b: seq<Found>, n: nat)
    ensures Shift(a + b, n) == Shift(a, n) + Shift(b, n)
  {
  }

  /** ... and the extents cut out exactly the payloads. */
  lemma {:induction false} ExtentsCut(us: seq<Piece>, tail: seq<byte>, pre: seq<byte>, k: nat)
    requires k < |us|
    ensures var s, fs := pre + Stream(us, tail), Extents(us, |pre|);
            && |fs| == |us|
            && fs[k].start <= fs[k].end <= |s|
            && s[fs[k].start..fs[k].end] == us[k].payload
            && (fs[k].good <==> us[k].check == Lrc(us[k].payload + [ETX]))
    decreases |us|
  {
    hide Lrc;
    ExtentsLength(us, |pre|);
    var s := pre + Stream(us, tail);
    if k == 0 {
      var start := |pre| + |us[0].junk| + 1;
      assert s[start..start + |us[0].payload|] == us[0].payload;
    } else {
      var pre' := pre + Bits(us[0]);
      assert s == pre' + Stream(us[1..], tail);
      ExtentsCut(us[1..], tail, pre', k - 1);
    }
  }

  lemma {:induction false} ExtentsLength(us: seq<Piece>, at: nat)
    ensures |Extents(us, at)| == |us|
    decreases |us|
  {
    if us != [] {
      ExtentsLength(us[1..], at + |Bits(us[0])|);
    }
  }
}
