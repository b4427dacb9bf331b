/** What a frame is, said without the machine, and what `frob_frame_process` promises about it. */
module FrameSpec {
  import opened Bytes
  import opened Frame

  /** `start - 1` is the first STX at or after `from`, no ETX follows it at once. */
  ghost predicate IsOpened(s: seq<byte>, from: nat, start: nat) {
    && from < start < |s|
    && s[start - 1] == STX
    && (forall k | from <= k < start - 1 :: s[k] != STX)
    && s[start] != ETX
  }

  /** ... and `end` is the first later ETX. */
  ghost predicate IsClosed(s: seq<byte>, from: nat, start: nat, end: nat) {
    && IsOpened(s, from, start)
    && start < end < |s|
    && s[end] == ETX
    && (forall k | start <= k < end :: s[k] != ETX)
  }

  /** A complete frame: payload s[start..end], and the checksum byte is there. */
  ghost predicate IsFrame(s: seq<byte>, from: nat, start: nat, end: nat) {
    IsClosed(s, from, start, end) && end + 1 < |s|
  }

  predicate IsGood(s: seq<byte>, start: nat, end: nat)
    requires start <= end && end + 1 < |s|
  {
    Lrc(s[start..end + 1]) == s[end + 1]
  }

  datatype Location = Location(start: Option<nat>, end: Option<nat>)

  /** The search, with no machine in it. */
  function Locate(s: seq<byte>, from: nat): (r: Location)
    requires from <= |s|
    ensures r.start.Some? ==> from < r.start.value < |s|
    ensures r.end.Some? ==> r.start.Some? && r.start.value < r.end.value < |s|
  {
    var k := IndexOf(s, STX, from);
    if k + 1 >= |s| || s[k + 1] == ETX then Location(None, None)
    else
      var j := IndexOf(s, ETX, k + 1);
      Location(Some(k + 1), if j < |s| then Some(j) else None)
  }

  /** The search finds what the definitions say, and nothing else. */
  lemma LocateMeans(s: seq<byte>, from: nat)
    requires from <= |s|
    ensures forall start: nat :: IsOpened(s, from, start) <==> Locate(s, from).start == Some(start)
    ensures forall start: nat, end: nat ::
              IsClosed(s, from, start, end) <==> Locate(s, from) == Location(Some(start), Some(end))
  {
  }

  lemma ScanOpened(s: seq<byte>, i: nat)
    requires i < |s| && s[i] != ETX
    ensures var j := IndexOf(s, ETX, i);
            var sum := Lrc(s[i..if j < |s| then j + 1 else j]);
            Scan(Machine(Opened, 0), s, i) ==
              if j == |s| then Scanned(Machine(Payload, sum), Some(i), None, false)
              else if j + 1 == |s| then Scanned(Machine(Closing, sum), Some(i), Some(j), false)
              else Scanned(Machine(Done, sum), Some(i), Some(j), sum != s[j + 1])
  {
    var m := Step(Machine(Opened, 0), s[i]);
    ScanPayload(m, s, i + 1);
    XorZero(s[i]);
    var j := IndexOf(s, ETX, i);
    var k := if j < |s| then j + 1 else j;
    assert s[i..k][0] == s[i] && s[i..k][1..] == s[i + 1..k];
  }

  lemma ScanLocates(s: seq<byte>, from: nat)
    requires from <= |s|
    ensures var r, l := Scan(INITIAL, s, from), Locate(s, from);
            && r.start == l.start && r.end == l.end
            && (l.end.Some? ==>
                  if l.end.value + 1 < |s|
                  then r.m.cs == Done && (r.bad <==> !IsGood(s, l.start.value, l.end.value))
                  else r.m.cs == Closing && !r.bad)
            && (l.end.None? ==> !r.bad)
  {
    ScanJunk(INITIAL, s, from);
    var k := IndexOf(s, STX, from);
    if k + 1 < |s| {
      if s[k + 1] == ETX {
        ScanAbsorbed(Machine(Failed, 0), s, k + 2);
      } else {
        ScanOpened(s, k + 1);
      }
    }
  }

  /** On a fresh state the result is the declarative one: a result other than EAGAIN exactly when
      a complete frame is there, at its bounds, and 0 exactly when its checksum holds. */
  lemma FreshResult(f: Fsm, buf: seq<byte>)
    requires f.pe.Some? && f.p <= f.pe.value <= |buf| && !f.notFirst
    ensures var s, o := buf[..f.pe.value], Processed(f, buf);
            && (o.code == Again <==> !exists start: nat, end: nat :: IsFrame(s, f.p, start, end))
            && (forall start: nat, end: nat | IsFrame(s, f.p, start, end) ::
                  && o.fsm.p == start && o.fsm.pe == Some(end)
                  && o.code == if IsGood(s, start, end) then Ok else BadMsg)
            && (forall start: nat | IsOpened(s, f.p, start) :: o.fsm.p == start)
            && ((forall start: nat :: !IsOpened(s, f.p, start)) ==> o.fsm.p == f.p)
            && (o.code == Again && o.fsm.pe.Some? ==>
                  IsClosed(s, f.p, o.fsm.p, o.fsm.pe.value) && o.fsm.pe.value + 1 == |s|)
            && (o.fsm.pe.None? ==> forall start: nat, end: nat :: !IsClosed(s, f.p, start, end))
  {
    var s, o := buf[..f.pe.value], Processed(f, buf);
    ScanLocates(s, f.p);
    LocateMeans(s, f.p);
    var l := Locate(s, f.p);
    if l.end.Some? && l.end.value + 1 < |s| {
      assert IsFrame(s, f.p, l.start.value, l.end.value);
    }
    if l.start.Some? {
      assert IsOpened(s, f.p, l.start.value);
    }
  }

  /** Bytes behind `pe` play no part. */
  lemma ProcessedPrefix(f: Fsm, buf: seq<byte>)
    requires f.pe.Some? && f.p <= f.pe.value <= |buf|
    ensures Processed(f, buf) == Processed(f, buf[..f.pe.value])
  {
    assert buf[..f.pe.value][..f.pe.value] == buf[..f.pe.value];
  }

  /** ENOTRECOVERABLE is dead code, in any state the machine can be left in. */
  lemma NeverNotRecoverable(f: Fsm, buf: seq<byte>)
    requires f.pe.Some? && f.p <= f.pe.value <= |buf|
    ensures Processed(f, buf).code != NotRecoverable
  {
    ScanFacts(Entry(f), buf[..f.pe.value], f.p);
  }

  /** The error state is left by nothing: once STX ETX was seen, every later call gives EAGAIN. */
  lemma FailedForever(f: Fsm, buf: seq<byte>)
    requires f.pe.Some? && f.p <= f.pe.value <= |buf| && f.notFirst && f.m.cs in {Failed, Done}
    ensures Processed(f, buf) == Outcome(Again, f.(pe := None))
  {
    ScanAbsorbed(f.m, buf[..f.pe.value], f.p);
  }

  /** Reading `a` then `b` in two calls, against reading a + b in one. The state and checksum always
      agree; the result agrees unless the first call has consumed the closing ETX and anything else
      was there to read. */
  lemma Resumption(f: Fsm, a: seq<byte>, b: seq<byte>)
    requires f.p == 0
    ensures var first := Processed(f.(pe := Some(|a|)), a).fsm;
            var second := Processed(first.(p := 0, pe := Some(|b|)), b);
            var whole := Processed(f.(pe := Some(|a + b|)), a + b);
            && second.fsm.m == whole.fsm.m
            && (second.code == whole.code <==> first.pe.None? || (first.m.cs == Closing && b == []))
  {
    var m, s := Entry(f), a + b;
    assert s[..|a|] == a && s[..|s|] == s && a[..|a|] == a && b[..|b|] == b;
    var r1 := Scan(m, a, 0);
    var r2 := Scan(r1.m, b, 0);
    ScanSplit(m, s, 0, |a|);
    ScanShift(r1.m, a, b, 0);
    ScanFacts(m, a, 0);
    ScanFacts(r1.m, b, 0);
    var w := Scan(m, s, 0);
    assert w == Merge(r1, Scanned(r2.m, Moved(r2.start, |a|), Moved(r2.end, |a|), r2.bad));
    ScanFacts(m, s, 0);
  }

  /** A good frame reported by a call has a payload inside that call's buffer, except
      when a frame is resumed inside its payload and the buffer begins with ETX. */
  lemma PositiveLength(f: Fsm, buf: seq<byte>)
    requires f.pe.Some? && f.p <= f.pe.value <= |buf|
    requires Processed(f, buf).code in {Ok, BadMsg}
    ensures var fsm := Processed(f, buf).fsm;
            && fsm.pe.Some? && fsm.p <= fsm.pe.value && fsm.pe.value + 2 <= f.pe.value
            && f.p <= fsm.p
            && (fsm.p < fsm.pe.value <==> !(f.notFirst && f.m.cs == Payload && buf[f.p] == ETX))
  {
    var s := buf[..f.pe.value];
    ScanFacts(Entry(f), s, f.p);
    if Entry(f).cs == Payload {
      ScanPayload(Entry(f), s, f.p);
    }
  }
}
