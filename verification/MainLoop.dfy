/** The receiving loop of frob.c over one buffer: acknowledgements, counters, restart after each frame. */
module MainLoop {
  import opened Bytes
  import opened Frame
  import opened FrameSpec
  import opened Frames

  /** What became of a payload whose checksum held. */
  datatype Reaction = Unparsable | Unhandled | Handled

  /** `unsigned short` counters. */
  type counter = x: int | 0 <= x < 0x1_0000

  function Wrap(x: nat): counter {
    x % 0x1_0000
  }

  lemma WrapNext(x: nat)
    ensures Wrap(Wrap(x) + 1) == Wrap(x + 1)
  {
  }

  datatype Stats = Stats(good: counter, badLrc: counter, badParse: counter, badHandled: counter)

  datatype Sums = Sums(good: nat, badLrc: nat, badParse: nat, badHandled: nat)

  function Plus(st: Stats, t: Sums): Stats {
    Stats(Wrap(st.good + t.good), Wrap(st.badLrc + t.badLrc),
          Wrap(st.badParse + t.badParse), Wrap(st.badHandled + t.badHandled))
  }

  /** The k-th frame of a buffer: its checksum verdict, then the fate of its payload. */
  function Add(t: Sums, good: bool, r: Reaction): Sums {
    if !good then t.(badLrc := t.badLrc + 1)
    else match r
      case Unparsable => t.(badParse := t.badParse + 1)
      case Unhandled => t.(badHandled := t.badHandled + 1)
      case Handled => t.(good := t.good + 1)
  }

  /** How many frames of `fs` end in each of the four counters; `react(k, payload)` is the fate of
      the k-th frame's payload if its checksum holds. */
  ghost function Tally(fs: seq<Found>, s: seq<byte>, react: (nat, seq<byte>) -> Reaction): Sums
    requires forall f | f in fs :: f.start <= f.end <= |s|
  {
    if fs == [] then Sums(0, 0, 0, 0)
    else
      var f := fs[|fs| - 1];
      Add(Tally(fs[..|fs| - 1], s, react), f.good, react(|fs| - 1, s[f.start..f.end]))
  }

  /** Every frame is counted once; the checksum counter counts exactly the bad frames. */
  lemma {:induction false} TallyCountsFrames(fs: seq<Found>, s: seq<byte>, react: (nat, seq<byte>) -> Reaction)
    requires forall f | f in fs :: f.start <= f.end <= |s|
    ensures var t := Tally(fs, s, react);
            && t.good + t.badLrc + t.badParse + t.badHandled == |fs|
            && t.badLrc == |Bad(fs)|
  {
    if fs != [] {
      TallyCountsFrames(fs[..|fs| - 1], s, react);
    }
  }

  /** The good frames whose payload met this fate, by their place in the list. */
  ghost function WithFate(fs: seq<Found>, s: seq<byte>, react: (nat, seq<byte>) -> Reaction, r: Reaction): set<nat>
    requires forall f | f in fs :: f.start <= f.end <= |s|
  {
    set k: nat | k < |fs| && HasFate(fs[k], k, s, react, r)
  }

  predicate HasFate(f: Found, k: nat, s: seq<byte>, react: (nat, seq<byte>) -> Reaction, r: Reaction)
    requires f.start <= f.end <= |s|
  {
    f.good && react(k, s[f.start..f.end]) == r
  }

  ghost function WithBadChecksum(fs: seq<Found>): set<nat> {
    set k: nat | k < |fs| && !fs[k].good
  }

  /** Each counter is the number of the frames it stands for. */
  lemma {:induction false} TallyMeans(fs: seq<Found>, s: seq<byte>, react: (nat, seq<byte>) -> Reaction)
    requires forall f | f in fs :: f.start <= f.end <= |s|
    ensures var t := Tally(fs, s, react);
            && t.good == |WithFate(fs, s, react, Handled)|
            && t.badParse == |WithFate(fs, s, react, Unparsable)|
            && t.badHandled == |WithFate(fs, s, react, Unhandled)|
            && t.badLrc == |WithBadChecksum(fs)|
  {
    hide WithFate, WithBadChecksum;
    if fs == [] {
      NoFates(s, react, Handled);
      NoFates(s, react, Unparsable);
      NoFates(s, react, Unhandled);
    } else {
      TallyMeans(fs[..|fs| - 1], s, react);
      OneFate(fs, s, react, Handled);
      OneFate(fs, s, react, Unparsable);
      OneFate(fs, s, react, Unhandled);
    }
  }

  lemma NoFates(s: seq<byte>, react: (nat, seq<byte>) -> Reaction, r: Reaction)
    ensures WithBadChecksum([]) == {} == WithFate([], s, react, r)
  {
  }

  lemma FateAt(fs: seq<Found>, s: seq<byte>, react: (nat, seq<byte>) -> Reaction, r: Reaction, k: nat)
    requires forall f | f in fs :: f.start <= f.end <= |s|
    ensures k in WithFate(fs, s, react, r) <==> k < |fs| && HasFate(fs[k], k, s, react, r)
    ensures k in WithBadChecksum(fs) <==> k < |fs| && !fs[k].good
  {
    hide HasFate;
  }

  lemma OneMore(a: set<nat>, b: set<nat>, n: nat, more: bool)
    requires (forall k | k in a :: k <= n) && (forall k | k in b :: k < n)
    requires forall k: nat | k < n :: k in a <==> k in b
    requires n in a <==> more
    ensures |a| == |b| + if more then 1 else 0
  {
    assert a == b + if more then {n} else {};
  }

  lemma OneFate(fs: seq<Found>, s: seq<byte>, react: (nat, seq<byte>) -> Reaction, r: Reaction)
    requires fs != [] && forall f | f in fs :: f.start <= f.end <= |s|
    ensures var n := |fs| - 1;
            && |WithFate(fs, s, react, r)|
            == |WithFate(fs[..n], s, react, r)| + (if HasFate(fs[n], n, s, react, r) then 1 else 0)
            && |WithBadChecksum(fs)| == |WithBadChecksum(fs[..n])| + if fs[n].good then 0 else 1
  {
    hide HasFate, WithFate, WithBadChecksum;
    var n := |fs| - 1;
    var before := fs[..n];
    forall k: nat
      ensures k in WithFate(fs, s, react, r) <==> k < |fs| && HasFate(fs[k], k, s, react, r)
      ensures k in WithFate(before, s, react, r) <==> k < n && HasFate(fs[k], k, s, react, r)
      ensures k in WithBadChecksum(fs) <==> k < |fs| && !fs[k].good
      ensures k in WithBadChecksum(before) <==> k < n && !fs[k].good
    {
      FateAt(fs, s, react, r, k);
      FateAt(before, s, react, r, k);
    }
    OneMore(WithFate(fs, s, react, r), WithFate(before, s, react, r), n, HasFate(fs[n], n, s, react, r));
    OneMore(WithBadChecksum(fs), WithBadChecksum(before), n, !fs[n].good);
  }

  function Bad(fs: seq<Found>): seq<Found> {
    if fs == [] then []
    else Bad(fs[..|fs| - 1]) + if fs[|fs| - 1].good then [] else [fs[|fs| - 1]]
  }

  function Acks(fs: seq<Found>): (r: seq<byte>)
    ensures |r| == |fs|
    ensures forall k | 0 <= k < |fs| :: r[k] == if fs[k].good then ACK else NAK
  {
    if fs == [] then []
    else Acks(fs[..|fs| - 1]) + [if fs[|fs| - 1].good then ACK else NAK]
  }

  /** The frames one call sees: the first one from the state it was left in, the others afresh. */
  function Seen(f: Fsm, s: seq<byte>): seq<Found>
    requires f.p <= |s|
  {
    var o := Processed(f.(pe := Some(|s|)), s);
    if o.code == Again then []
    else
      NeverNotRecoverable(f.(pe := Some(|s|)), s);
      PositiveLength(f.(pe := Some(|s|)), s);
      [Found(o.fsm.p, o.fsm.pe.value, o.code == Ok)] + All(s, o.fsm.pe.value + 2)
  }

  lemma SeenInside(f: Fsm, s: seq<byte>)
    requires f.p <= |s|
    ensures forall g | g in Seen(f, s) :: g.start <= g.end && g.end + 1 < |s|
  {
    hide All, Scan;
    var o := Processed(f.(pe := Some(|s|)), s);
    if o.code != Again {
      NeverNotRecoverable(f.(pe := Some(|s|)), s);
      PositiveLength(f.(pe := Some(|s|)), s);
      AllInside(s, o.fsm.pe.value + 2);
    }
  }

  /** The machine state carried to the next buffer: that of the bytes behind the last frame. */
  function Leftover(f: Fsm, s: seq<byte>): Machine
    requires f.p <= |s|
  {
    var seen := Seen(f, s);
    SeenInside(f, s);
    if seen == [] then Run(Entry(f), s[f.p..]) else Run(INITIAL, s[seen[|seen| - 1].end + 2..])
  }

  lemma FreshStep(f: Fsm, s: seq<byte>)
    requires f.p <= |s| && !f.notFirst
    ensures Seen(f, s) == All(s, f.p)
  {
    hide Scan, IndexOf, Locate, IsGood;
    var g := f.(pe := Some(|s|));
    assert s[..|s|] == s;
    NeverNotRecoverable(g, s);
    ScanLocates(s, f.p);
  }

  /** The loop stops dead: a good frame of length 0 fails the assertion of line 510. */
  predicate Aborts(f: Fsm, s: seq<byte>)
    requires f.p <= |s|
  {
    f.notFirst && f.m.cs == Payload && |s| >= f.p + 2 && s[f.p] == ETX && Xor(f.m.lrc, ETX) == s[f.p + 1]
  }

  lemma AbortsExactly(f: Fsm, s: seq<byte>)
    requires f.p <= |s|
    ensures var o := Processed(f.(pe := Some(|s|)), s);
            o.code == Ok && o.fsm.pe == Some(o.fsm.p) <==> Aborts(f, s)
  {
    var g := f.(pe := Some(|s|));
    var o := Processed(g, s);
    assert s[..|s|] == s;
    if f.notFirst && f.m.cs == Payload && f.p < |s| && s[f.p] == ETX {
      ScanPayload(f.m, s, f.p);
      assert s[f.p..f.p + 1] == [ETX];
      assert Lrc([ETX]) == ETX by {
        XorZero(ETX);
      }
    } else if o.code == Ok {
      hide Scan;
      PositiveLength(g, s);
    }
  }

  /** The frames that are acknowledged: behind a failed assertion there are no more. */
  function Acked(f: Fsm, s: seq<byte>): (fs: seq<Found>)
    requires f.p <= |s|
    ensures fs <= Seen(f, s)
  {
    if Aborts(f, s) && Seen(f, s) != [] then Seen(f, s)[..1] else Seen(f, s)
  }

  lemma AbortsAtFirst(f: Fsm, s: seq<byte>)
    requires f.p <= |s|
    ensures Aborts(f, s) <==> Seen(f, s) != [] && Seen(f, s)[0].good && Seen(f, s)[0].start == Seen(f, s)[0].end
  {
    hide Scan, All, Aborts;
    AbortsExactly(f, s);
    if Processed(f.(pe := Some(|s|)), s).code != Again {
      NeverNotRecoverable(f.(pe := Some(|s|)), s);
      PositiveLength(f.(pe := Some(|s|)), s);
    }
  }

  // ----- what goes wrong, and how it is reached

  const FRESH: Fsm := Fsm(INITIAL, false, 0, None)

  /** The state in which `process_main` leaves the machine after a buffer that it got through. */
  function Next(f: Fsm, s: seq<byte>): Fsm
    requires f.p <= |s|
  {
    Fsm(Leftover(f, s), true, 0, None)
  }

  /** The assertion does fail: a frame of one byte, read in two halves. The first is harmless. */
  lemma AssertionFails(x: byte)
    requires x != ETX
    ensures Seen(FRESH, [STX, x]) == [] && !Aborts(FRESH, [STX, x])
    ensures Next(FRESH, [STX, x]).m.cs == Payload && Aborts(Next(FRESH, [STX, x]), [ETX, Xor(x, ETX)])
  {
    hide Xor, Lrc;
    var s := [STX, x];
    FreshStep(FRESH, s);
    assert IndexOf(s, STX, 0) == 0;
    assert Locate(s, 0).end == None;
    assert Frames.All(s, 0) == [];
    XorZero(x);
    assert s[0..] == s && s[1..] == [x] && [x][1..] == [];
    assert Run(Machine(Opened, 0), [x]) == Machine(Payload, x);
  }

  /** A buffer that ends between ETX and checksum. */
  lemma CutBehindEtx(x: byte)
    requires x != ETX
    ensures Seen(FRESH, [STX, x, ETX]) == [] && Next(FRESH, [STX, x, ETX]).m.cs == Closing
  {
    hide Xor, Lrc;
    var s := [STX, x, ETX];
    FreshStep(FRESH, s);
    assert IndexOf(s, STX, 0) == 0;
    assert Locate(s, 0).end.Some? ==> Locate(s, 0).end.value + 1 == |s|;
    assert Frames.All(s, 0) == [];
    assert s[0..] == s && s[1..] == [x, ETX] && s[1..][1..] == [ETX] && [ETX][1..] == [];
    var m := Step(Machine(Opened, 0), x);
    assert m.cs == Payload && Step(m, ETX).cs == Closing;
    assert Run(m, [ETX]) == Run(Step(m, ETX), []) == Step(m, ETX);
    assert Run(Machine(Opened, 0), s[1..]) == Run(m, [ETX]);
    assert Run(INITIAL, s) == Run(Machine(Opened, 0), s[1..]);
  }

  /** What the loop sees of the buffers read one after the other. */
  function SeenInAll(f: Fsm, bufs: seq<seq<byte>>): seq<seq<Found>>
    requires f.p == 0
    decreases |bufs|
  {
    if bufs == [] then [] else [Seen(f, bufs[0])] + SeenInAll(Next(f, bufs[0]), bufs[1..])
  }

  /** From then on the loop sees nothing: whatever is read, and however often, no frame is acknowledged. */
  lemma {:induction false} DeafForever(f: Fsm, bufs: seq<seq<byte>>)
    requires f.p == 0 && f.notFirst && f.m.cs in {Closing, Done, Failed}
    ensures forall k | 0 <= k < |SeenInAll(f, bufs)| :: SeenInAll(f, bufs)[k] == []
    decreases |bufs|
  {
    if bufs != [] {
      DeafOnce(f, bufs[0]);
      DeafForever(Next(f, bufs[0]), bufs[1..]);
      var rest := SeenInAll(Next(f, bufs[0]), bufs[1..]);
      assert SeenInAll(f, bufs) == [[]] + rest;
    }
  }

  lemma DeafOnce(f: Fsm, s: seq<byte>)
    requires f.p == 0 && f.notFirst && f.m.cs in {Closing, Done, Failed}
    ensures Seen(f, s) == [] && Next(f, s).m.cs in {Closing, Done, Failed}
  {
    var m := f.m;
    assert s[..|s|] == s && s[0..] == s;
    ScanRuns(m, s, 0);
    ScanFacts(m, s, 0);
  }

  class Main {
    const buf: array<byte>
    var cur: nat
    const fsm: FrameFsm
    var acks: seq<byte>
    var stats: Stats

    constructor (size: nat)
      ensures fresh(buf) && fresh(fsm) && buf.Length == size
      ensures cur == 0 && acks == [] && stats == Stats(0, 0, 0, 0)
      ensures fsm.View() == Fsm(INITIAL, false, 0, None)
    {
      buf := new byte[size](_ => 0);
      fsm := new FrameFsm(0, None);
      cur, acks, stats := 0, [], Stats(0, 0, 0, 0);
    }

    /** `commission_ack_on_main` */
    method CommissionAck(isNak: bool)
      modifies `acks
      ensures acks == old(acks) + [if isNak then NAK else ACK]
    {
      acks := acks + [if isNak then NAK else ACK];
    }

    /** `fnext`: a fresh state behind ETX and checksum. */
    method Fnext()
      requires fsm.pe.Some? && fsm.pe.value + 2 <= cur
      modifies fsm
      ensures fsm.p == old(fsm.pe.value) + 2 && fsm.pe == Some(cur) && !fsm.notFirst
    {
      fsm.p, fsm.pe := fsm.pe.value + 2, Some(cur);
      fsm.notFirst, fsm.lrc, fsm.cs := false, 0, Failed;
    }

    /** One increment, with the wrap-around of an `unsigned short`. */
    method Count(good: bool, r: Reaction, ghost from: Stats, ghost t: Sums)
      requires stats == Plus(from, t)
      modifies `stats
      ensures stats == Plus(from, Add(t, good, r))
    {
      hide Wrap;
      WrapNext(from.good + t.good);
      WrapNext(from.badLrc + t.badLrc);
      WrapNext(from.badParse + t.badParse);
      WrapNext(from.badHandled + t.badHandled);
      if !good {
        stats := stats.(badLrc := Wrap(stats.badLrc + 1));
      } else {
        match r {
          case Unparsable => stats := stats.(badParse := Wrap(stats.badParse + 1));
          case Unhandled => stats := stats.(badHandled := Wrap(stats.badHandled + 1));
          case Handled => stats := stats.(good := Wrap(stats.good + 1));
        }
      }
    }

    /** The body of the loop of `process_main` for one frame. `aborted` is the failure of its
        assertion that a good frame is not empty. */
    method TakeFrame(e: Code, k: nat, react: (nat, seq<byte>) -> Reaction,
                     ghost fs: seq<Found>, ghost s: seq<byte>, ghost from: Stats)
      returns (aborted: bool)
      requires e in {Ok, BadMsg} && cur <= buf.Length && buf[..cur] == s && k == |fs|
      requires fsm.pe.Some? && fsm.p <= fsm.pe.value < cur
      requires (forall f | f in fs :: f.start <= f.end <= |s|) && stats == Plus(from, Tally(fs, s, react))
      modifies `acks, `stats
      ensures acks == old(acks) + [if e == Ok then ACK else NAK]
      ensures aborted <==> e == Ok && fsm.p == fsm.pe.value
      ensures aborted ==> stats == old(stats)
      ensures var fs' := fs + [Found(fsm.p, fsm.pe.value, e == Ok)];
              && (forall f | f in fs' :: f.start <= f.end <= |s|)
              && (!aborted ==> stats == Plus(from, Tally(fs', s, react)))
    {
      hide Tally, Plus, Lrc;
      ghost var f := Found(fsm.p, fsm.pe.value, e == Ok);
      var payload := buf[fsm.p..fsm.pe.value];
      assert payload == s[f.start..f.end];
      CommissionAck(e != Ok);
      if e == Ok && fsm.p == fsm.pe.value {
        return true;
      }
      var r := react(k, payload);
      Count(e == Ok, r, from, Tally(fs, s, react));
      TallySnoc(fs, f, s, react);
      aborted := false;
    }

    /** `process_main` */
    method ProcessMain(react: (nat, seq<byte>) -> Reaction) returns (aborted: bool, ghost fs: seq<Found>)
      requires fsm.p <= cur < buf.Length
      modifies this, fsm
      ensures aborted <==> Aborts(old(fsm.View()), old(buf[..cur]))
      ensures fs == Acked(old(fsm.View()), old(buf[..cur])) && (aborted ==> |fs| == 1)
      ensures acks == old(acks) + Acks(fs)
      ensures aborted ==> stats == old(stats)
      ensures !aborted ==>
                && (forall f | f in fs :: f.start <= f.end <= |old(buf[..cur])|)
                && stats == Plus(old(stats), Tally(fs, old(buf[..cur]), react))
                && stats.good == Wrap(old(stats.good) + |WithFate(fs, old(buf[..cur]), react, Handled)|)
                && stats.badParse == Wrap(old(stats.badParse) + |WithFate(fs, old(buf[..cur]), react, Unparsable)|)
                && stats.badHandled == Wrap(old(stats.badHandled) + |WithFate(fs, old(buf[..cur]), react, Unhandled)|)
                && stats.badLrc == Wrap(old(stats.badLrc) + |WithBadChecksum(fs)|)
                && fsm.View() == Fsm(Leftover(old(fsm.View()), old(buf[..cur])), true, 0, None)
                && cur == 0
    {
      hide Scan, CodeOf, Entry, Tally, Plus, All, Acks, Seen, Acked, Aborts, Run, Leftover, WithFate, WithBadChecksum,
           Wrap;
      ghost var whole, s := buf[..], buf[..cur];
      ghost var f0 := fsm.View();
      ghost var f1 := f0;
      var k := 0;
      fs := [];
      EmptyTally(s, react, stats);
      fsm.pe := Some(cur);
      assert whole[..cur] == s && fsm.View() == f1.(pe := Some(cur));
      ProcessedPrefix(fsm.View(), whole);
      var e := fsm.Process(buf);
      assert buf[..] == whole;
      while e != Again
        invariant cur == old(cur) && buf[..] == whole && whole[..cur] == s && fsm.notFirst && k == |fs|
        invariant f1.p <= cur && Outcome(e, fsm.View()) == Processed(f1.(pe := Some(cur)), s)
        invariant if fs == [] then f1 == f0 && stats == old(stats) else !f1.notFirst && !Aborts(f0, s)
        invariant fs != [] ==> f1.p == fs[|fs| - 1].end + 2
        invariant Seen(f0, s) == fs + Seen(f1, s)
        invariant acks == old(acks) + Acks(fs)
        invariant (forall f | f in fs :: f.start <= f.end <= |s|) && stats == Plus(old(stats), Tally(fs, s, react))
        decreases cur - f1.p
      {
        NeverNotRecoverable(f1.(pe := Some(cur)), s);
        PositiveLength(f1.(pe := Some(cur)), s);
        AbortsExactly(f1, s);
        ghost var f := Found(fsm.p, fsm.pe.value, e == Ok);
        aborted := TakeFrame(e, k, react, fs, s, old(stats));
        AcksSnoc(fs, f);
        SeenSnoc(fs, f1, s);
        fs, k := fs + [f], k + 1;
        if aborted {
          FreshNeverAborts(f1, s);
          AckedOne(f0, s, f);
          return;
        }
        Fnext();
        f1 := fsm.View();
        ProcessedPrefix(f1, whole);
        FreshStep(f1, s);
        assert f1 == f1.(pe := Some(cur));
        e := fsm.Process(buf);
        assert buf[..] == whole;
      }
      AbortsExactly(f1, s);
      AckedAll(f0, s);
      CountersMean(old(stats), fs, s, react);
      SeenNothing(f1, s);
      LeftoverIs(f0, s, fs, f1);
      cur := 0;
      fsm.p, fsm.pe := 0, None;
      aborted := false;
    }
  }

  lemma CountersMean(from: Stats, fs: seq<Found>, s: seq<byte>, react: (nat, seq<byte>) -> Reaction)
    requires forall f | f in fs :: f.start <= f.end <= |s|
    ensures var st := Plus(from, Tally(fs, s, react));
            && st.good == Wrap(from.good + |WithFate(fs, s, react, Handled)|)
            && st.badParse == Wrap(from.badParse + |WithFate(fs, s, react, Unparsable)|)
            && st.badHandled == Wrap(from.badHandled + |WithFate(fs, s, react, Unhandled)|)
            && st.badLrc == Wrap(from.badLrc + |WithBadChecksum(fs)|)
  {
    hide Tally, Wrap, WithFate, WithBadChecksum;
    TallyMeans(fs, s, react);
  }

  lemma FreshNeverAborts(f: Fsm, s: seq<byte>)
    requires f.p <= |s|
    ensures Aborts(f, s) ==> f.notFirst
  {
  }

  lemma AckedOne(f: Fsm, s: seq<byte>, first: Found)
    requires f.p <= |s| && Aborts(f, s) && [first] <= Seen(f, s)
    ensures Acked(f, s) == [first]
  {
  }

  lemma AckedAll(f: Fsm, s: seq<byte>)
    requires f.p <= |s|
    ensures !Aborts(f, s) ==> Acked(f, s) == Seen(f, s)
  {
  }

  lemma SeenSnoc(fs: seq<Found>, f: Fsm, s: seq<byte>)
    requires f.p <= |s| && Processed(f.(pe := Some(|s|)), s).code in {Ok, BadMsg}
    ensures var o := Processed(f.(pe := Some(|s|)), s);
            && o.fsm.pe.Some? && o.fsm.pe.value + 2 <= |s|
            && fs + Seen(f, s) == fs + [Found(o.fsm.p, o.fsm.pe.value, o.code == Ok)] + All(s, o.fsm.pe.value + 2)
  {
    hide All, Scan;
    PositiveLength(f.(pe := Some(|s|)), s);
    var o := Processed(f.(pe := Some(|s|)), s);
    var g, rest := Found(o.fsm.p, o.fsm.pe.value, o.code == Ok), All(s, o.fsm.pe.value + 2);
    assert Seen(f, s) == [g] + rest;
    assert fs + ([g] + rest) == fs + [g] + rest;
  }

  lemma LeftoverIs(f0: Fsm, s: seq<byte>, fs: seq<Found>, f: Fsm)
    requires f0.p <= |s| && f.p <= |s| && fs == Seen(f0, s)
    requires if fs == [] then f == f0 else !f.notFirst && f.p == fs[|fs| - 1].end + 2
    ensures Processed(f.(pe := Some(|s|)), s).fsm.m == Leftover(f0, s)
  {
    hide Seen, Scan;
    assert s[..|s|] == s;
    ScanRuns(Entry(f), s, f.p);
  }

  lemma SeenNothing(f: Fsm, s: seq<byte>)
    requires f.p <= |s| && Processed(f.(pe := Some(|s|)), s).code == Again
    ensures Seen(f, s) == []
  {
  }

  lemma TallySnoc(fs: seq<Found>, f: Found, s: seq<byte>, react: (nat, seq<byte>) -> Reaction)
    requires forall g | g in fs + [f] :: g.start <= g.end <= |s|
    ensures forall g | g in fs :: g.start <= g.end <= |s|
    ensures Tally(fs + [f], s, react) == Add(Tally(fs, s, react), f.good, react(|fs|, s[f.start..f.end]))
  {
    forall g | g in fs ensures g.start <= g.end <= |s| {
      assert g in fs + [f];
    }
    assert (fs + [f])[..|fs|] == fs;
  }

  lemma AcksSnoc(fs: seq<Found>, f: Found)
    ensures Acks(fs + [f]) == Acks(fs) + [if f.good then ACK else NAK]
  {
  }

  lemma EmptyTally(s: seq<byte>, react: (nat, seq<byte>) -> Reaction, st: Stats)
    ensures Tally([], s, react) == Sums(0, 0, 0, 0) && Plus(st, Sums(0, 0, 0, 0)) == st
  {
  }
}
