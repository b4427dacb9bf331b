/** The one-pass streaming machine of fsm/wireprotocol.rl and its read loop. */
module Wire {
  import opened Bytes
  import opened Frame
  import opened FrameSpec
  import opened Frames
  import MainLoop

  /** `Start` is the entry state, and the state behind each frame; it is final. */
  datatype WireCs = Start | Skipping | Begun | Inside | Checking | Error

  /** `start` is the offset in the read buffer of the last payload seen to begin. */
  datatype State = State(cs: WireCs, lrc: byte, start: nat)

  /** What `sus_lend` is given: the one-byte literal, or `size` bytes from the buffer's beginning. */
  datatype Lent = Nok | Range(size: int)

  /** `lrc != fc` compares a plain `char` with an `unsigned char`. */
  predicate ChecksumHolds(signedChar: bool, lrc: byte, b: byte) {
    lrc == b && !(signedChar && b >= 0x80)
  }

  /** One byte at offset p of the buffer. */
  function WireStep(w: State, p: nat, b: byte): State {
    match w.cs
    case Start => if b == STX then w.(cs := Begun, lrc := 0) else w.(cs := Skipping)
    case Skipping => if b == STX then w.(cs := Begun, lrc := 0) else w
    case Begun => if b == ETX then w.(cs := Error) else State(Inside, Xor(w.lrc, b), p)
    case Inside => w.(cs := if b == ETX then Checking else Inside, lrc := Xor(w.lrc, b))
    case Checking => w.(cs := Start)
    case Error => w
  }

  function Emitted(sc: bool, w: State, p: nat, b: byte): seq<Lent> {
    if w.cs != Checking then []
    else if ChecksumHolds(sc, w.lrc, b) then [Range(p - w.start)]
    else [Nok]
  }

  datatype Effect = Effect(w: State, lent: seq<Lent>)

  /** One `write exec` over a chunk, from offset p. */
  function Exec(sc: bool, w: State, chunk: seq<byte>, p: nat): Effect
    requires p <= |chunk|
    decreases |chunk| - p
  {
    if p == |chunk| then Effect(w, [])
    else
      var e := Exec(sc, WireStep(w, p, chunk[p]), chunk, p + 1);
      Effect(e.w, Emitted(sc, w, p, chunk[p]) + e.lent)
  }

  function ExecAll(sc: bool, w: State, chunks: seq<seq<byte>>): Effect
    decreases |chunks|
  {
    if chunks == [] then Effect(w, [])
    else
      var e := Exec(sc, w, chunks[0], 0);
      var e' := ExecAll(sc, e.w, chunks[1..]);
      Effect(e'.w, e.lent + e'.lent)
  }

  function Flatten(chunks: seq<seq<byte>>): seq<byte> {
    if chunks == [] then [] else chunks[0] + Flatten(chunks[1..])
  }

  function Verdicts(ls: seq<Lent>): seq<bool> {
    seq(|ls|, i requires 0 <= i < |ls| => ls[i].Range?)
  }

  lemma VerdictsConcat(a: seq<Lent>, b: seq<Lent>)
    ensures Verdicts(a + b) == Verdicts(a) + Verdicts(b)
  {
  }

  /** Offsets apart, the machine does not know where a chunk begins. */
  lemma {:induction false} ExecMoved(sc: bool, w: State, v: State, a: seq<byte>, p: nat, b: seq<byte>, q: nat)
    requires p <= |a| && q <= |b| && a[p..] == b[q..]
    requires w.cs == v.cs && w.lrc == v.lrc
    ensures var e, d := Exec(sc, w, a, p), Exec(sc, v, b, q);
            && e.w.cs == d.w.cs && e.w.lrc == d.w.lrc && Verdicts(e.lent) == Verdicts(d.lent)
    decreases |a| - p
  {
    if p < |a| {
      assert a[p] == b[q] by {
        assert a[p..][0] == b[q..][0];
      }
      assert a[p + 1..] == a[p..][1..] == b[q..][1..] == b[q + 1..];
      var w', v' := WireStep(w, p, a[p]), WireStep(v, q, b[q]);
      ExecMoved(sc, w', v', a, p + 1, b, q + 1);
      var l, m := Emitted(sc, w, p, a[p]), Emitted(sc, v, q, b[q]);
      hide Exec;
      VerdictsConcat(l, Exec(sc, w', a, p + 1).lent);
      VerdictsConcat(m, Exec(sc, v', b, q + 1).lent);
      assert Verdicts(l) == Verdicts(m);
    }
  }

  lemma {:induction false} ExecConcat(sc: bool, w: State, a: seq<byte>, b: seq<byte>, p: nat)
    requires p <= |a|
    ensures var e := Exec(sc, w, a, p);
            var d := Exec(sc, e.w, a + b, |a|);
            Exec(sc, w, a + b, p) == Effect(d.w, e.lent + d.lent)
    decreases |a| - p
  {
    if p < |a| {
      ExecConcat(sc, WireStep(w, p, a[p]), a, b, p + 1);
    }
  }

  /** The verdicts and the state reached depend on the bytes alone, not on how reads cut them. */
  lemma {:induction false} ChunkIndependence(sc: bool, w: State, chunks: seq<seq<byte>>)
    ensures var cut, whole := ExecAll(sc, w, chunks), Exec(sc, w, Flatten(chunks), 0);
            && Verdicts(cut.lent) == Verdicts(whole.lent)
            && cut.w.cs == whole.w.cs && cut.w.lrc == whole.w.lrc
    decreases |chunks|
  {
    if chunks != [] {
      var a, b := chunks[0], Flatten(chunks[1..]);
      var e := Exec(sc, w, a, 0);
      ExecConcat(sc, w, a, b, 0);
      assert (a + b)[|a|..] == b[0..];
      ExecMoved(sc, e.w, e.w, a + b, |a|, b, 0);
      ChunkIndependence(sc, e.w, chunks[1..]);
      var d, c := Exec(sc, e.w, a + b, |a|), ExecAll(sc, e.w, chunks[1..]);
      VerdictsConcat(e.lent, d.lent);
      VerdictsConcat(e.lent, c.lent);
    }
  }

  // ----- agreement with the restarted machine of frame.rl

  /** The two machines stand at the same point of the same frame. */
  predicate Matching(m: Machine, w: State) {
    match m.cs
    case Junk => w.cs in {Start, Skipping} && m.lrc == 0
    case Opened => w.cs == Begun && m.lrc == w.lrc == 0
    case Payload => w.cs == Inside && m.lrc == w.lrc
    case Closing => w.cs == Checking && m.lrc == w.lrc
    case Done => false
    case Failed => w.cs == Error
  }

  /** Up to the end of its frame the streaming machine follows the frame machine, lending nothing. */
  lemma {:induction false} ExecFollowsScan(sc: bool, m: Machine, w: State, s: seq<byte>, i: nat)
    requires i <= |s| && Matching(m, w) && Scan(m, s, i).m.cs != Done
    ensures Exec(sc, w, s, i).lent == [] && Matching(Scan(m, s, i).m, Exec(sc, w, s, i).w)
    decreases |s| - i
  {
    if i < |s| {
      var m' := Step(m, s[i]);
      if m'.cs == Done {
        ScanAbsorbed(m', s, i + 1);
      } else {
        ExecFollowsScan(sc, m', WireStep(w, i, s[i]), s, i + 1);
      }
    }
  }

  /** At the end of the frame it lends once, and starts over. */
  lemma {:induction false} ExecAtFrame(sc: bool, m: Machine, w: State, s: seq<byte>, i: nat)
    returns (j: nat, l: Lent, v: State)
    requires i <= |s| && Matching(m, w) && Scan(m, s, i).m.cs == Done
    ensures i <= j < |s| && v.cs == Start
    ensures if m.cs == Closing then j == i else Scan(m, s, i).end.Some? && j == Scan(m, s, i).end.value + 1
    ensures l.Range? <==> !Scan(m, s, i).bad && !(sc && s[j] >= 0x80)
    ensures Exec(sc, w, s, i) == Effect(Exec(sc, v, s, j + 1).w, [l] + Exec(sc, v, s, j + 1).lent)
    decreases |s| - i
  {
    hide Xor;
    var m', w' := Step(m, s[i]), WireStep(w, i, s[i]);
    if m.cs == Closing {
      ScanAbsorbed(m', s, i + 1);
      j, l, v := i, Emitted(sc, w, i, s[i])[0], w';
    } else {
      j, l, v := ExecAtFrame(sc, m', w', s, i + 1);
      ScanFacts(m', s, i + 1);
    }
  }

  /** What the streaming machine says of the frames the restarted one finds. */
  function Expected(sc: bool, fs: seq<Found>, s: seq<byte>): seq<bool>
    requires forall f | f in fs :: f.end + 1 < |s|
  {
    seq(|fs|, k requires 0 <= k < |fs| => fs[k].good && !(sc && s[fs[k].end + 1] >= 0x80))
  }

  lemma OneVerdict(l: Lent)
    ensures Verdicts([l]) == [l.Range?]
  {
  }

  lemma NoneExpected(sc: bool, s: seq<byte>)
    ensures Expected(sc, [], s) == [] == Verdicts([])
  {
  }

  lemma ExpectedCons(sc: bool, first: Found, fs: seq<Found>, s: seq<byte>)
    requires first.end + 1 < |s| && forall f | f in fs :: f.end + 1 < |s|
    ensures forall f | f in [first] + fs :: f.end + 1 < |s|
    ensures Expected(sc, [first] + fs, s)
         == [first.good && !(sc && s[first.end + 1] >= 0x80)] + Expected(sc, fs, s)
  {
  }

  /** From its entry state the streaming machine gives, on every buffer, the verdicts of the restarted
      machine, except that a signed `char` refuses every checksum byte with the high bit set. */
  lemma {:induction false} SameVerdicts(sc: bool, v: State, s: seq<byte>, from: nat)
    requires from <= |s| && v.cs == Start
    ensures forall f | f in All(s, from) :: f.end + 1 < |s|
    ensures Verdicts(Exec(sc, v, s, from).lent) == Expected(sc, All(s, from), s)
    decreases |s| - from
  {
    hide Scan, Exec, Locate, Lrc, IsGood, Expected;
    AllInside(s, from);
    ScanLocates(s, from);
    var r := Scan(INITIAL, s, from);
    ScanFacts(INITIAL, s, from);
    if r.m.cs != Done {
      ExecFollowsScan(sc, INITIAL, v, s, from);
      NoneExpected(sc, s);
    } else {
      var j, l, u := ExecAtFrame(sc, INITIAL, v, s, from);
      SameVerdicts(sc, u, s, j + 1);
      VerdictsConcat([l], Exec(sc, u, s, j + 1).lent);
      var first := All(s, from)[0];
      assert All(s, from) == [first] + All(s, j + 1);
      ExpectedCons(sc, first, All(s, j + 1), s);
    }
  }

  /** What the loop would see of all frames, with a state carried over from an earlier buffer. */
  lemma SeenResumed(sc: bool, f: Fsm, w: State, s: seq<byte>)
    requires f.p <= |s| && Matching(Entry(f), w)
    ensures forall g | g in MainLoop.Seen(f, s) :: g.end + 1 < |s|
    ensures var lent, seen := Exec(sc, w, s, f.p).lent, MainLoop.Seen(f, s);
            if Entry(f).cs == Closing
            then seen == [] && (lent == [] <==> f.p == |s|)
            else Verdicts(lent) == Expected(sc, seen, s)
  {
    hide Scan, Exec, Locate, Lrc, IsGood, All, Expected, Verdicts;
    var g := f.(pe := Some(|s|));
    assert s[..|s|] == s;
    var m := Entry(f);
    var r := Scan(m, s, f.p);
    ScanFacts(m, s, f.p);
    if r.m.cs != Done {
      ExecFollowsScan(sc, m, w, s, f.p);
      NoneExpected(sc, s);
    } else {
      var j, l, u := ExecAtFrame(sc, m, w, s, f.p);
      SameVerdicts(sc, u, s, j + 1);
      VerdictsConcat([l], Exec(sc, u, s, j + 1).lent);
      AllInside(s, j + 1);
      OneVerdict(l);
      if m.cs != Closing {
        ExpectedCons(sc, Found(if r.start.Some? then r.start.value else f.p, j - 1, !r.bad), All(s, j + 1), s);
      }
    }
  }

  /** The same for a state carried over from an earlier buffer, unless that buffer ended between
      ETX and checksum: then the streaming machine lends that frame, and the loop sees nothing at all.
      What the loop acknowledges are the verdicts up to the first failure of its assertion. */
  lemma SameVerdictsResumed(sc: bool, f: Fsm, w: State, s: seq<byte>)
    requires f.p <= |s| && Matching(Entry(f), w)
    ensures forall g | g in MainLoop.Acked(f, s) :: g.end + 1 < |s|
    ensures var lent, acked := Exec(sc, w, s, f.p).lent, MainLoop.Acked(f, s);
            if Entry(f).cs == Closing
            then acked == [] && (lent == [] <==> f.p == |s|)
            else
              && Expected(sc, acked, s) <= Verdicts(lent)
              && |acked| == if MainLoop.Aborts(f, s) then 1 else |lent|
  {
    hide Exec, MainLoop.Seen, MainLoop.Aborts;
    SeenResumed(sc, f, w, s);
    MainLoop.AbortsAtFirst(f, s);
    assert forall g | g in MainLoop.Acked(f, s) :: g in MainLoop.Seen(f, s);
  }

  /** `process_main` on two buffers one after the other, from a fresh state, acknowledges what it would
      on both at once, exactly when the first does not end between ETX and checksum, and the second does not
      begin with the ETX of a good frame and hold another. */
  lemma TwoReads(a: seq<byte>, b: seq<byte>)
    requires b != []
    ensures var f, g := MainLoop.FRESH, MainLoop.Next(MainLoop.FRESH, a);
            GoodOnes(MainLoop.Acked(f, a)) + GoodOnes(MainLoop.Acked(g, b)) == GoodOnes(MainLoop.Acked(f, a + b))
            <==> g.m.cs != Closing && !(MainLoop.Aborts(g, b) && |MainLoop.Seen(g, b)| > 1)
  {
    hide Scan, Exec, Locate, Lrc, IsGood, All, MainLoop.Seen, MainLoop.Aborts;
    var f, w := MainLoop.FRESH, State(Start, 0, 0);
    var g := MainLoop.Next(f, a);
    var e := Exec(false, w, a, 0);
    SameVerdictsResumed(false, f, w, a);
    SameVerdictsResumed(false, f, w, a + b);
    ExecConcat(false, w, a, b, 0);
    assert (a + b)[|a|..] == b[0..];
    ExecMoved(false, e.w, e.w, a + b, |a|, b, 0);
    VerdictsConcat(e.lent, Exec(false, e.w, a + b, |a|).lent);
    LeftoverFollows(w, a, 0);
    MainLoop.FreshStep(f, a);
    SameVerdictsResumed(false, g, e.w, b);
    MainLoop.FreshNeverAborts(f, a);
    MainLoop.FreshNeverAborts(f, a + b);
    var inA, inB, inBoth := MainLoop.Acked(f, a), MainLoop.Acked(g, b), MainLoop.Acked(f, a + b);
    var lent := Exec(false, e.w, b, 0).lent;
    assert GoodOnes(inA) == Expected(false, inA, a) == Verdicts(e.lent);
    assert GoodOnes(inBoth) == Expected(false, inBoth, a + b) == GoodOnes(inA) + Verdicts(lent);
    if g.m.cs == Closing {
      assert |GoodOnes(inBoth)| == |GoodOnes(inA)| + |lent|;
    } else {
      assert GoodOnes(inB) == Expected(false, inB, b) <= Verdicts(lent);
      SeenResumed(false, g, e.w, b);
      assert |lent| == |MainLoop.Seen(g, b)|;
    }
  }

  function GoodOnes(fs: seq<Found>): seq<bool> {
    seq(|fs|, k requires 0 <= k < |fs| => fs[k].good)
  }

  lemma {:induction false} LeftoverFollows(v: State, s: seq<byte>, from: nat)
    requires from <= |s| && v.cs == Start
    ensures forall f | f in All(s, from) :: f.end + 1 < |s|
    ensures var fs := All(s, from);
            Matching(Run(INITIAL, s[if fs == [] then from else fs[|fs| - 1].end + 2..]), Exec(false, v, s, from).w)
    decreases |s| - from
  {
    hide Scan, Exec, Locate, Lrc, IsGood, Run, Matching;
    AllInside(s, from);
    ScanLocates(s, from);
    ScanRuns(INITIAL, s, from);
    var r := Scan(INITIAL, s, from);
    ScanFacts(INITIAL, s, from);
    InitialMatches(v);
    if r.m.cs != Done {
      ExecFollowsScan(false, INITIAL, v, s, from);
    } else {
      var j, l, u := ExecAtFrame(false, INITIAL, v, s, from);
      LeftoverFollows(u, s, j + 1);
      assert All(s, from)[1..] == All(s, j + 1) && All(s, from)[0].end + 1 == j;
    }
  }

  lemma InitialMatches(v: State)
    requires v.cs == Start
    ensures Matching(INITIAL, v)
  {
  }

  // ----- the task

  class WireFormat {
    const buf: array<byte>
    var cs: WireCs
    var lrc: byte
    var start: nat
    var lent: seq<Lent>

    /** The initial values of `lrc` and `start` are whatever the stack holds. */
    constructor (lrc: byte, start: nat)
      ensures fresh(buf) && buf.Length == 1024 && View() == State(Start, lrc, start) && lent == []
    {
      buf := new byte[1024](_ => 0);
      this.cs, this.lrc, this.start, this.lent := Start, lrc, start, [];
    }

    function View(): State
      reads this
    {
      State(cs, lrc, start)
    }

    /** One transition with its actions */
    method Feed(sc: bool, p: nat, b: byte)
      modifies this
      ensures View() == WireStep(old(View()), p, b) && lent == old(lent) + Emitted(sc, old(View()), p, b)
    {
      match cs {
        case Start =>
          if b == STX { cs, lrc := Begun, 0; } else { cs := Skipping; }
        case Skipping =>
          if b == STX { cs, lrc := Begun, 0; }
        case Begun =>
          if b == ETX { cs := Error; } else { start, lrc, cs := p, Xor(lrc, b), Inside; }
        case Inside =>
          lrc := Xor(lrc, b);
          if b == ETX { cs := Checking; }
        case Checking =>
          if lrc != b || (sc && b >= 0x80) {
            lent := lent + [Nok];
          } else {
            lent := lent + [Range(p - start)];
          }
          cs := Start;
        case Error =>
      }
    }

    /** `write exec` over the bytes just read */
    method WriteExec(sc: bool, bytes: nat)
      requires bytes <= buf.Length
      modifies this
      ensures var e := Exec(sc, old(View()), buf[..bytes], 0);
              View() == e.w && lent == old(lent) + e.lent
    {
      hide WireStep, Emitted;
      ghost var e, chunk := Exec(sc, View(), buf[..bytes], 0), buf[..bytes];
      var p := 0;
      while p != bytes
        invariant p <= bytes && buf[..bytes] == chunk
        invariant e.w == Exec(sc, View(), chunk, p).w
        invariant old(lent) + e.lent == lent + Exec(sc, View(), chunk, p).lent
      {
        assert buf[p] == chunk[p];
        Feed(sc, p, buf[p]);
        p := p + 1;
      }
    }

    /** `fsm_wireformat`: `input` holds the results of `sus_read`, an empty one is the end of input. */
    method FsmWireformat(sc: bool, input: seq<seq<byte>>) returns (ret: int)
      requires forall r | r in input :: |r| <= buf.Length
      modifies this, buf
      ensures var e := ExecAll(sc, old(View()), UntilEmpty(input));
              && View() == e.w && lent == old(lent) + e.lent
              && ret == if e.w.cs == Error then -1 else 0
    {
      hide Exec, ExecAll, UntilEmpty;
      ghost var e := ExecAll(sc, View(), UntilEmpty(input));
      var k := 0;
      assert input[0..] == input;
      while k < |input| && |input[k]| > 0
        invariant k <= |input|
        invariant e.w == ExecAll(sc, View(), UntilEmpty(input[k..])).w
        invariant old(lent) + e.lent == lent + ExecAll(sc, View(), UntilEmpty(input[k..])).lent
      {
        ExecAllStep(sc, View(), input, k);
        var bytes := |input[k]|;
        forall i | 0 <= i < bytes {
          buf[i] := input[k][i];
        }
        assert buf[..bytes] == input[k];
        WriteExec(sc, bytes);
        k := k + 1;
      }
      ExecAllEnd(sc, View(), input, k);
      ret := if cs == Error then -1 else 0;
    }
  }

  lemma ExecAllStep(sc: bool, w: State, input: seq<seq<byte>>, k: nat)
    requires k < |input| && input[k] != []
    ensures var e := Exec(sc, w, input[k], 0);
            var e' := ExecAll(sc, e.w, UntilEmpty(input[k + 1..]));
            ExecAll(sc, w, UntilEmpty(input[k..])) == Effect(e'.w, e.lent + e'.lent)
  {
    hide Exec;
    assert input[k..][1..] == input[k + 1..];
    assert UntilEmpty(input[k..])[1..] == UntilEmpty(input[k + 1..]);
  }

  lemma ExecAllEnd(sc: bool, w: State, input: seq<seq<byte>>, k: nat)
    requires k <= |input| && (k < |input| ==> input[k] == [])
    ensures ExecAll(sc, w, UntilEmpty(input[k..])) == Effect(w, [])
  {
  }

  function UntilEmpty(input: seq<seq<byte>>): seq<seq<byte>> {
    if input == [] || input[0] == [] then [] else [input[0]] + UntilEmpty(input[1..])
  }
}
