/** The resumable single-frame machine of fsm/frame.rl. */
module Frame {
  import opened Bytes

  /** Ragel's states: skipping junk, after STX, inside the payload, after ETX, final, error. */
  datatype Cs = Junk | Opened | Payload | Closing | Done | Failed

  /** What survives between two calls: the state and the running checksum. */
  datatype Machine = Machine(cs: Cs, lrc: byte)

  const INITIAL: Machine := Machine(Junk, 0)

  function Step(m: Machine, b: byte): Machine {
    match m.cs
    case Junk => if b == STX then m.(cs := Opened) else m
    case Opened => if b == ETX then m.(cs := Failed) else Machine(Payload, Xor(m.lrc, b))
    case Payload => Machine(if b == ETX then Closing else Payload, Xor(m.lrc, b))
    case Closing => m.(cs := Done)
    case Done => m
    case Failed => m
  }

  function Run(m: Machine, s: seq<byte>): Machine
    decreases |s|
  {
    if s == [] then m else Run(Step(m, s[0]), s[1..])
  }

  lemma {:induction false} RunConcat(m: Machine, a: seq<byte>, b: seq<byte>)
    ensures Run(m, a + b) == Run(Run(m, a), b)
    decreases |a|
  {
    if a == [] {
      assert a + b == b;
    } else {
      assert (a + b)[0] == a[0] && (a + b)[1..] == a[1..] + b;
      RunConcat(Step(m, a[0]), a[1..], b);
    }
  }

  /** Effect of one `write exec` over s[i..]: the machine reached, the positions
      recorded by the Start and End actions, and whether the LRC check failed. */
  datatype Scanned = Scanned(m: Machine, start: Option<nat>, end: Option<nat>, bad: bool)

  function Scan(m: Machine, s: seq<byte>, i: nat): Scanned
    requires i <= |s|
    decreases |s| - i
  {
    if i == |s| then Scanned(m, None, None, false)
    else
      var b := s[i];
      var r := Scan(Step(m, b), s, i + 1);
      Scanned(r.m,
              if r.start.None? && m.cs == Opened && b != ETX then Some(i) else r.start,
              if r.end.None? && m.cs == Payload && b == ETX then Some(i) else r.end,
              r.bad || (m.cs == Closing && m.lrc != b))
  }

  lemma {:induction false} ScanRuns(m: Machine, s: seq<byte>, i: nat)
    requires i <= |s|
    ensures Scan(m, s, i).m == Run(m, s[i..])
    decreases |s| - i
  {
    if i < |s| {
      assert s[i..][1..] == s[i + 1..];
      ScanRuns(Step(m, s[i]), s, i + 1);
    }
  }

  lemma {:induction false} ScanAbsorbed(m: Machine, s: seq<byte>, i: nat)
    requires i <= |s|
    requires m.cs in {Done, Failed}
    ensures Scan(m, s, i) == Scanned(m, None, None, false)
    decreases |s| - i
  {
    if i < |s| {
      ScanAbsorbed(m, s, i + 1);
    }
  }

  /** From the payload on: nothing is left open once the first ETX is seen. */
  lemma {:induction false} ScanPayload(m: Machine, s: seq<byte>, i: nat)
    requires i <= |s|
    requires m.cs == Payload
    ensures var j := IndexOf(s, ETX, i);
            var sum := Xor(m.lrc, Lrc(s[i..if j < |s| then j + 1 else j]));
            Scan(m, s, i) ==
              if j == |s| then Scanned(Machine(Payload, sum), None, None, false)
              else if j + 1 == |s| then Scanned(Machine(Closing, sum), None, Some(j), false)
              else Scanned(Machine(Done, sum), None, Some(j), sum != s[j + 1])
    decreases |s| - i
  {
    XorZero(m.lrc);
    if i < |s| {
      XorZero(s[i]);
      var m' := Step(m, s[i]);
      var j := IndexOf(s, ETX, i);
      var k := if j < |s| then j + 1 else j;
      assert s[i..k][0] == s[i] && s[i..k][1..] == s[i + 1..k];
      if s[i] == ETX {
        assert s[i + 1..k] == [];
        if i + 1 < |s| {
          ScanAbsorbed(Step(m', s[i + 1]), s, i + 2);
        }
      } else {
        ScanPayload(m', s, i + 1);
        XorAssoc(m.lrc, s[i], Lrc(s[i + 1..k]));
      }
    }
  }

  lemma {:induction false} ScanJunk(m: Machine, s: seq<byte>, i: nat)
    requires i <= |s|
    requires m.cs == Junk
    ensures var k := IndexOf(s, STX, i);
            Scan(m, s, i) ==
              if k == |s| then Scanned(m, None, None, false) else Scan(m.(cs := Opened), s, k + 1)
    decreases |s| - i
  {
    if i < |s| && s[i] != STX {
      ScanJunk(m, s, i + 1);
    }
  }

  /** Cutting the input cuts the scan. */
  lemma {:induction false} ScanSplit(m: Machine, s: seq<byte>, i: nat, k: nat)
    requires i <= k <= |s|
    ensures Scan(m, s, i) == Merge(Scan(m, s[..k], i), Scan(Scan(m, s[..k], i).m, s, k))
    decreases k - i
  {
    if i < k {
      ScanSplit(Step(m, s[i]), s, i + 1, k);
    }
  }

  function Later(a: Option<nat>, b: Option<nat>): Option<nat> {
    if b.Some? then b else a
  }

  function Merge(a: Scanned, b: Scanned): Scanned {
    Scanned(b.m, Later(a.start, b.start), Later(a.end, b.end), a.bad || b.bad)
  }

  function Moved(a: Option<nat>, n: nat): Option<nat> {
    match a case None => None case Some(v) => Some(v + n)
  }

  lemma {:induction false} ScanShift(m: Machine, a: seq<byte>, b: seq<byte>, i: nat)
    requires i <= |b|
    ensures var r := Scan(m, b, i);
            Scan(m, a + b, |a| + i) == Scanned(r.m, Moved(r.start, |a|), Moved(r.end, |a|), r.bad)
    decreases |b| - i
  {
    if i < |b| {
      ScanShift(Step(m, b[i]), a, b, i + 1);
    }
  }

  /** What the recorded positions reveal about the states passed. */
  lemma {:induction false} ScanFacts(m: Machine, s: seq<byte>, i: nat)
    requires i <= |s|
    ensures var r := Scan(m, s, i);
            && (m.cs in {Done, Failed} ==> r.m.cs == m.cs)
            && (m.cs == Closing && i < |s| ==> r.m.cs == Done)
            && (r.end.Some? <==> m.cs in {Junk, Opened, Payload} && r.m.cs in {Closing, Done})
            && (r.bad ==> r.m.cs == Done && m.cs != Done)
            && (r.start.Some? ==> i <= r.start.value < |s| && m.cs in {Junk, Opened})
            && (r.end.Some? ==> i <= r.end.value < |s| && (r.m.cs == Done ==> r.end.value + 1 < |s|))
            && (r.end.Some? && m.cs in {Junk, Opened} ==> r.start.Some?)
            && (r.start.Some? && r.end.Some? ==> r.start.value < r.end.value)
            && (r.m.cs == Closing ==> (m.cs == Closing && i == |s|) || r.end == Some(|s| - 1))
    decreases |s| - i
  {
    if i < |s| {
      ScanFacts(Step(m, s[i]), s, i + 1);
    }
  }

  // ----- frob_frame_process

  datatype Code = Ok | BadMsg | Again | NotRecoverable

  /** `struct frob_frame_fsm_state`; `pe` is null between a failed search and the next read. */
  datatype Fsm = Fsm(m: Machine, notFirst: bool, p: nat, pe: Option<nat>)

  datatype Outcome = Outcome(code: Code, fsm: Fsm)

  function Entry(f: Fsm): Machine {
    if f.notFirst then f.m else INITIAL
  }

  function CodeOf(r: Scanned): Code {
    if r.end.None? then Again
    else if r.bad then BadMsg
    else if r.m.cs == Failed then NotRecoverable
    else if r.m.cs == Done then Ok
    else Again
  }

  function Processed(f: Fsm, buf: seq<byte>): Outcome
    requires f.pe.Some? && f.p <= f.pe.value <= |buf|
  {
    var r := Scan(Entry(f), buf[..f.pe.value], f.p);
    Outcome(CodeOf(r), Fsm(r.m, true, if r.start.Some? then r.start.value else f.p, r.end))
  }

  class FrameFsm {
    var lrc: byte
    var notFirst: bool
    var cs: Cs
    var p: nat
    var pe: Option<nat>

    constructor (p: nat, pe: Option<nat>)
      ensures View() == Fsm(INITIAL, false, p, pe)
    {
      this.lrc, this.cs, this.notFirst := 0, Junk, false;
      this.p, this.pe := p, pe;
    }

    function View(): Fsm
      reads this
    {
      Fsm(Machine(cs, lrc), notFirst, p, pe)
    }

    /** `frob_frame_process`: the byte loop of `write exec`, then the result code. */
    method Process(buf: array<byte>) returns (code: Code)
      requires pe.Some? && p <= pe.value <= buf.Length
      modifies this
      ensures Outcome(code, View()) == Processed(old(View()), buf[..])
    {
      hide Xor;
      var start, end, error := p, None, false;
      ghost var p0, s := p, buf[..pe.value];
      ghost var f0 := View();
      ghost var started: Option<nat> := None;
      assert buf[..][..pe.value] == s;
      if !notFirst {
        cs, lrc := Junk, 0;
      }
      notFirst := true;
      ghost var total := Scan(Machine(cs, lrc), s, p0);
      while p != pe.value && cs != Failed && !error
        invariant pe == old(pe) && p0 <= p <= pe.value && notFirst
        invariant error ==> cs == Done
        invariant total == Merge(Scanned(Machine(cs, lrc), started, end, error), Scan(Machine(cs, lrc), s, p))
        invariant start == if started.Some? then started.value else p0
        decreases pe.value - p
      {
        var b := buf[p];
        assert b == s[p];
        match cs {
          case Junk =>
            if b == STX { cs := Opened; }
          case Opened =>
            if b == ETX {
              cs := Failed;
            } else {
              start, started := p, Some(p);
              cs, lrc := Payload, Xor(lrc, b);
            }
          case Payload =>
            lrc := Xor(lrc, b);
            if b == ETX {
              end := Some(p);
              cs := Closing;
            }
          case Closing =>
            cs := Done;
            error := lrc != b;
          case Done =>
        }
        p := p + 1;
      }
      if p < pe.value {
        ScanAbsorbed(Machine(cs, lrc), s, p);
      }
      p := start;
      pe := end;
      code := if pe.None? then Again
              else if error then BadMsg
              else if cs == Failed then NotRecoverable
              else if cs == Done then Ok
              else Again;
    }
  }
}
