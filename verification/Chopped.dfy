/** `process_main` over any sequence of reads: which frames of the byte stream are acknowledged, and which bytes
    of each are handed to `parse_message`. */
module Chopped {
  import opened Bytes
  import opened Frame
  import opened FrameSpec
  import opened Frames
  import opened Wire
  import opened Places
  import M = MainLoop

  /** What an acknowledgement was given for: the payload that was cut out, and the verdict on its checksum. */
  datatype Handed = Handed(payload: seq<byte>, good: bool)

  function CutOut(s: seq<byte>, fs: seq<Found>): (hs: seq<Handed>)
    requires forall f | f in fs :: f.start <= f.end <= |s|
    ensures |hs| == |fs|
  {
    seq(|fs|, k requires 0 <= k < |fs| => Handed(s[fs[k].start..fs[k].end], fs[k].good))
  }

  /** The loop on one read after the other, until its assertion fails. */
  function AllHanded(f: Fsm, chunks: seq<seq<byte>>): seq<Handed>
    requires f.p == 0
    decreases |chunks|
  {
    if chunks == [] then []
    else
      M.SeenInside(f, chunks[0]);
      CutOut(chunks[0], M.Acked(f, chunks[0]))
      + if M.Aborts(f, chunks[0]) then [] else AllHanded(M.Next(f, chunks[0]), chunks[1..])
  }

  // ----- the same said of the stream

  /** Of a payload, only what stands in the read of its ETX. */
  function PartOf(chunks: seq<seq<byte>>, f: Found, s: seq<byte>): Handed
    requires f.start <= f.end <= |s|
  {
    var from := f.end - Offset(chunks, f.end);
    Handed(s[if f.start < from then from else f.start..f.end], f.good)
  }

  function PartsOf(chunks: seq<seq<byte>>, fs: seq<Found>, s: seq<byte>): (hs: seq<Handed>)
    requires forall f | f in fs :: f.start <= f.end <= |s|
    ensures |hs| == |fs|
  {
    seq(|fs|, k requires 0 <= k < |fs| => PartOf(chunks, fs[k], s))
  }

  /** A read begins with the checksum byte: that frame is lost, and the loop is deaf from then on. */
  predicate IsLost(chunks: seq<seq<byte>>, f: Found) {
    Offset(chunks, f.end + 1) == 0
  }

  /** A read begins with the ETX of a good frame: it is acknowledged, and the assertion fails. */
  predicate IsLast(chunks: seq<seq<byte>>, f: Found) {
    f.good && Offset(chunks, f.end) == 0
  }

  /** How many of the frames of the stream are acknowledged. */
  function Reached(chunks: seq<seq<byte>>, fs: seq<Found>): (n: nat)
    ensures n <= |fs|
  {
    if fs == [] || IsLost(chunks, fs[0]) then 0
    else if IsLast(chunks, fs[0]) then 1
    else 1 + Reached(chunks, fs[1..])
  }

  lemma {:induction false} ReachedAll(chunks: seq<seq<byte>>, fs: seq<Found>)
    ensures Reached(chunks, fs) == |fs| <==>
            forall k | 0 <= k < |fs| :: !IsLost(chunks, fs[k]) && (IsLast(chunks, fs[k]) ==> k == |fs| - 1)
    decreases |fs|
  {
    hide IsLost, IsLast;
    if fs != [] {
      var rest := fs[1..];
      ReachedAll(chunks, rest);
      if Reached(chunks, fs) == |fs| && |fs| > 1 {
        assert forall k | 0 < k < |fs| :: fs[k] == rest[k - 1];
      }
      if forall k | 0 <= k < |fs| :: !IsLost(chunks, fs[k]) && (IsLast(chunks, fs[k]) ==> k == |fs| - 1) {
        assert forall k | 0 <= k < |rest| :: rest[k] == fs[k + 1];
      }
    }
  }

  /** Frames of one read, none of them cut before its checksum; only the first can begin with its ETX. */
  lemma {:induction false} ReachedOver(chunks: seq<seq<byte>>, now: seq<Found>, later: seq<Found>)
    requires forall k | 0 <= k < |now| :: !IsLost(chunks, now[k]) && (IsLast(chunks, now[k]) ==> k == 0)
    ensures Reached(chunks, now + later)
         == if now != [] && IsLast(chunks, now[0]) then 1 else |now| + Reached(chunks, later)
    decreases |now|
  {
    hide IsLost, IsLast;
    if now == [] {
      assert now + later == later;
    } else {
      assert (now + later)[1..] == now[1..] + later;
      assert forall k | 0 <= k < |now[1..]| :: now[1..][k] == now[k + 1];
      ReachedOver(chunks, now[1..], later);
    }
  }

  // ----- one read

  /** The restarted loop on one read, against the machine that runs on. */
  lemma SeenIsFound(f: Fsm, v: State, c: seq<byte>)
    requires f.p == 0 && Matching(Entry(f), v) && Entry(f).cs != Closing && v.start == 0
    ensures M.Seen(f, c) == FoundBy(v, c, 0) && Matching(M.Leftover(f, c), Exec(false, v, c, 0).w)
  {
    hide Scan, Exec, Locate, Lrc, IsGood, All, FoundBy, Run, Matching;
    var g, m := f.(pe := Some(|c|)), Entry(f);
    assert c[..|c|] == c && c[0..] == c;
    MatchingStates(m, v);
    var r := Scan(m, c, 0);
    ScanFacts(m, c, 0);
    if r.m.cs != Done {
      ExecFollowsScan(false, m, v, c, 0);
      NothingFound(m, v, c, 0);
      ScanRuns(m, c, 0);
      M.SeenNothing(f, c);
    } else {
      var j, l, u := ExecAtFrame(false, m, v, c, 0);
      var j', u' := FoundFirst(m, v, c, 0);
      FoundIsAll(u', c, j + 1);
      LeftoverFollows(u, c, j + 1);
      AllInside(c, j + 1);
      LeftoverBehind(f, c, j);
    }
  }

  lemma MatchingStates(m: Machine, v: State)
    requires Matching(m, v)
    ensures (m.cs == Closing <==> v.cs == Checking) && m.cs != Done
  {
  }

  lemma LeftoverBehind(f: Fsm, c: seq<byte>, j: nat)
    requires f.p == 0 && j < |c| && M.Seen(f, c) != [] && M.Seen(f, c)[0].end + 1 == j
    requires M.Seen(f, c)[1..] == All(c, j + 1)
    ensures (forall g | g in All(c, j + 1) :: g.end + 2 <= |c|)
    ensures var fs := All(c, j + 1);
            M.Leftover(f, c) == Run(INITIAL, c[if fs == [] then j + 1 else fs[|fs| - 1].end + 2..])
  {
    hide M.Seen, All, Run, Locate;
    AllInside(c, j + 1);
    var fs, seen := All(c, j + 1), M.Seen(f, c);
    if fs != [] {
      assert seen[|seen| - 1] == fs[|fs| - 1];
    }
  }

  // ----- one read of many

  /** The machine of one read and that of the stream, x bytes of which came before. */
  ghost predicate IsSame(v: State, w: State, x: nat, at: nat) {
    && v.cs == w.cs && v.lrc == w.lrc
    && (w.cs in {Inside, Checking} ==> w.start < at && v.start == if w.start < x then 0 else w.start - x)
  }

  function Back(f: Found, x: nat): Found {
    Found(if f.start < x then 0 else f.start - x, if f.end < x then 0 else f.end - x, f.good)
  }

  ghost predicate AreSame(fs: seq<Found>, gs: seq<Found>, x: nat, at: nat) {
    |fs| == |gs| && forall k | 0 <= k < |fs| ::
      x <= fs[k].end && fs[k].end + 1 < at && fs[k].start <= fs[k].end && gs[k] == Back(fs[k], x)
  }

  lemma SameStep(v: State, w: State, x: nat, p: nat, b: byte)
    requires IsSame(v, w, x, x + p) && (w.cs == Checking ==> p > 0)
    ensures IsSame(WireStep(v, p, b), WireStep(w, x + p, b), x, x + p + 1)
    ensures AreSame(FoundAt(w, x + p, b), FoundAt(v, p, b), x, x + p + 1)
  {
    hide Xor;
  }

  lemma {:induction false} ChunkFound(v: State, w: State, s: seq<byte>, x: nat, c: seq<byte>, p: nat)
    returns (w': State, now: seq<Found>)
    requires x + |c| <= |s| && s[x..x + |c|] == c && p <= |c| && IsSame(v, w, x, x + p)
    requires w.cs == Checking ==> p > 0
    ensures w'.cs == Checking ==> |c| > 0
    ensures FoundBy(w, s, x + p) == now + FoundBy(w', s, x + |c|)
    ensures AreSame(now, FoundBy(v, c, p), x, x + |c|) && IsSame(Exec(false, v, c, p).w, w', x, x + |c|)
    decreases |c| - p
  {
    hide IsSame, FoundAt, Emitted, Xor;
    if p == |c| {
      w', now := w, [];
      SameStates(v, w, x, x + p);
    } else {
      assert s[x + p] == c[p];
      SameStates(v, w, x, x + p);
      SameStep(v, w, x, p, c[p]);
      var later;
      w', later := ChunkFound(WireStep(v, p, c[p]), WireStep(w, x + p, c[p]), s, x, c, p + 1);
      now := FoundAt(w, x + p, c[p]) + later;
    }
  }

  lemma SameStates(v: State, w: State, x: nat, at: nat)
    requires IsSame(v, w, x, at)
    ensures v.cs == w.cs && v.lrc == w.lrc
  {
  }

  // ----- all reads

  /** The loop stands in the state in which the machine of the stream left the reads so far. */
  ghost predicate IsBehind(f: Fsm, w: State, done: seq<seq<byte>>) {
    && f.p == 0 && Matching(Entry(f), w) && (Entry(f).cs == Closing ==> f.notFirst)
    && (w.cs in {Inside, Checking} ==> w.start < |Flatten(done)|)
  }

  /** The offset of a byte that the next read begins with. */
  lemma {:induction false} CutOffset(done: seq<seq<byte>>, rest: seq<seq<byte>>)
    requires Flatten(rest) != []
    ensures Offset(done + rest, |Flatten(done)|) == 0 && |Flatten(done + rest)| == |Flatten(done)| + |Flatten(rest)|
    decreases |done|
  {
    if done == [] {
      assert done + rest == rest;
    } else {
      assert (done + rest)[0] == done[0] && (done + rest)[1..] == done[1..] + rest;
      CutOffset(done[1..], rest);
    }
  }

  lemma {:induction false} DeafHands(f: Fsm, chunks: seq<seq<byte>>)
    requires f.p == 0 && f.notFirst && f.m.cs in {Closing, Done, Failed}
    ensures AllHanded(f, chunks) == []
    decreases |chunks|
  {
    hide M.Seen, M.Next;
    if chunks != [] {
      M.DeafOnce(f, chunks[0]);
      M.AbortsAtFirst(f, chunks[0]);
      NextIsDeaf(f, chunks[0]);
      DeafHands(M.Next(f, chunks[0]), chunks[1..]);
    }
  }

  lemma NextIsDeaf(f: Fsm, s: seq<byte>)
    requires f.p <= |s|
    ensures M.Next(f, s).p == 0 && M.Next(f, s).notFirst && Entry(M.Next(f, s)) == M.Leftover(f, s)
  {
  }

  /** What the loop cuts out of a read is the part of each frame in it. */
  lemma SameParts(done: seq<seq<byte>>, c: seq<byte>, rest: seq<seq<byte>>, fs: seq<Found>, gs: seq<Found>)
    requires AreSame(fs, gs, |Flatten(done)|, |Flatten(done)| + |c|)
    ensures var s, x := Flatten(done + [c] + rest), |Flatten(done)|;
            && x + |c| <= |s|
            && (forall f | f in fs :: f.start <= f.end <= |s|) && (forall g | g in gs :: g.start <= g.end <= |c|)
            && CutOut(c, gs) == PartsOf(done + [c] + rest, fs, s)
  {
    hide Flatten, Offset;
    var chunks, x := done + [c] + rest, |Flatten(done)|;
    var s := Flatten(chunks);
    FlattenAt(done, c, rest);
    forall k | 0 <= k < |fs|
      ensures fs[k].start <= fs[k].end <= |s| && gs[k].start <= gs[k].end <= |c|
      ensures Handed(c[gs[k].start..gs[k].end], gs[k].good) == PartOf(chunks, fs[k], s)
    {
      OffsetInside(done, c, rest, fs[k].end - x);
      assert s[x..x + |c|] == c;
      assert c[gs[k].start..gs[k].end] == s[x + gs[k].start..x + gs[k].end];
    }
  }

  /** Of the frames of one read none is cut before its checksum, and only the first can begin with its ETX. */
  lemma CutsInside(done: seq<seq<byte>>, c: seq<byte>, rest: seq<seq<byte>>, fs: seq<Found>, gs: seq<Found>, f: Fsm)
    requires AreSame(fs, gs, |Flatten(done)|, |Flatten(done)| + |c|) && f.p == 0 && gs == M.Seen(f, c)
    ensures var chunks := done + [c] + rest;
            && (forall k | 0 <= k < |fs| :: !IsLost(chunks, fs[k]) && (IsLast(chunks, fs[k]) ==> k == 0))
            && (M.Aborts(f, c) <==> fs != [] && IsLast(chunks, fs[0]))
  {
    hide Flatten, Offset, M.Seen, M.Aborts;
    var chunks, x := done + [c] + rest, |Flatten(done)|;
    forall k | 0 <= k < |fs|
      ensures Offset(chunks, fs[k].end + 1) == gs[k].end + 1 && Offset(chunks, fs[k].end) == gs[k].end
      ensures k > 0 ==> gs[k].end > 0
    {
      OffsetInside(done, c, rest, fs[k].end + 1 - x);
      OffsetInside(done, c, rest, fs[k].end - x);
      LaterSeen(f, c, k);
    }
    M.AbortsAtFirst(f, c);
    FirstSeen(f, c);
  }

  lemma LaterSeen(f: Fsm, c: seq<byte>, k: nat)
    requires f.p == 0 && k < |M.Seen(f, c)|
    ensures k > 0 ==> M.Seen(f, c)[k].end > 0
  {
    hide All, Scan;
    M.SeenInside(f, c);
    var first := M.Seen(f, c)[0];
    AllInside(c, first.end + 2);
    if k > 0 {
      assert M.Seen(f, c)[k] == All(c, first.end + 2)[k - 1] && M.Seen(f, c)[k] in All(c, first.end + 2);
    }
  }

  lemma FirstSeen(f: Fsm, c: seq<byte>)
    requires f.p == 0
    ensures M.Seen(f, c) != [] ==> (M.Seen(f, c)[0].start == M.Seen(f, c)[0].end <==> M.Seen(f, c)[0].end == 0)
  {
    hide All, Scan;
    assert c[..|c|] == c;
    ScanFacts(Entry(f), c, 0);
  }

  lemma {:induction false} FoundInside(w: State, s: seq<byte>, p: nat)
    requires p <= |s| && (w.cs in {Inside, Checking} ==> w.start < p)
    ensures forall f | f in FoundBy(w, s, p) :: f.start <= f.end && f.end + 1 < |s|
    decreases |s| - p
  {
    hide Xor;
    if p < |s| {
      FoundInside(WireStep(w, p, s[p]), s, p + 1);
    }
  }

  /** A checksum byte at the beginning of a read: the machine of the stream comes to it first. */
  lemma FollowsDeaf(f: Fsm, w: State, done: seq<seq<byte>>, rest: seq<seq<byte>>)
    requires IsBehind(f, w, done) && w.cs == Checking
    ensures var chunks, x := done + rest, |Flatten(done)|;
            && 0 < x <= |Flatten(chunks)|
            && AllHanded(f, rest) == [] && Reached(chunks, FoundBy(w, Flatten(chunks), x)) == 0
  {
    hide Flatten, Offset, M.Seen, M.Leftover, Xor;
    MatchingStates(Entry(f), w);
    DeafHands(f, rest);
    FlattenBoth(done, rest);
    if Flatten(rest) != [] {
      CutOffset(done, rest);
    }
  }

  lemma FlattenBoth(done: seq<seq<byte>>, rest: seq<seq<byte>>)
    ensures Flatten(done + rest) == Flatten(done) + Flatten(rest)
  {
    FlattenAt(done, [], rest);
    EmptyChunk(done, rest);
  }

  lemma {:induction false} EmptyChunk(done: seq<seq<byte>>, rest: seq<seq<byte>>)
    ensures Flatten(done + [[]] + rest) == Flatten(done + rest)
    decreases |done|
  {
    var a, b := done + [[]] + rest, done + rest;
    if done == [] {
      assert a[0] == [] && a[1..] == rest && b == rest;
    } else {
      assert a[0] == b[0] == done[0] && a[1..] == done[1..] + [[]] + rest && b[1..] == done[1..] + rest;
      EmptyChunk(done[1..], rest);
    }
  }

  lemma SameMatching(m: Machine, v: State, w: State)
    requires Matching(m, v) && v.cs == w.cs && v.lrc == w.lrc
    ensures Matching(m, w)
  {
  }

  /** The next read, for a loop that does not stand before a checksum byte. */
  lemma OneReadFollows(f: Fsm, w: State, done: seq<seq<byte>>, c: seq<byte>, later: seq<seq<byte>>)
    returns (w': State, now: seq<Found>)
    requires IsBehind(f, w, done) && w.cs != Checking
    ensures IsBehind(M.Next(f, c), w', done + [c])
    ensures var s, x := Flatten(done + [c] + later), |Flatten(done)|;
            && x + |c| == |Flatten(done + [c])| <= |s| && (w'.cs == Checking ==> x + |c| > 0)
            && FoundBy(w, s, x) == now + FoundBy(w', s, x + |c|)
            && AreSame(now, M.Seen(f, c), x, x + |c|)
  {
    hide Flatten, FoundBy, M.Seen, M.Leftover, Exec, Matching;
    var s, x, v := Flatten(done + [c] + later), |Flatten(done)|, State(w.cs, w.lrc, 0);
    FlattenAt(done, c, later);
    SameMatching(Entry(f), w, v);
    MatchingStates(Entry(f), v);
    SeenIsFound(f, v, c);
    w', now := ChunkFound(v, w, s, x, c, 0);
    SameMatching(M.Leftover(f, c), Exec(false, v, c, 0).w, w');
  }

  /** What the loop cuts out of a read, and of how many frames. */
  lemma AckedParts(f: Fsm, done: seq<seq<byte>>, c: seq<byte>, later: seq<seq<byte>>, now: seq<Found>, fs: seq<Found>)
    requires f.p == 0 && AreSame(now, M.Seen(f, c), |Flatten(done)|, |Flatten(done)| + |c|)
    requires forall g | g in now + fs :: g.start <= g.end <= |Flatten(done + [c] + later)|
    ensures forall g | g in M.Acked(f, c) :: g.start <= g.end <= |c|
    ensures var chunks := done + [c] + later;
            var s, n := Flatten(chunks), Reached(chunks, fs);
            && (forall g | g in (now + fs)[..Reached(chunks, now + fs)] || g in fs[..n] :: g in now + fs)
            && PartsOf(chunks, (now + fs)[..Reached(chunks, now + fs)], s)
            == CutOut(c, M.Acked(f, c)) + if M.Aborts(f, c) then [] else PartsOf(chunks, fs[..n], s)
  {
    hide Flatten, Offset, M.Seen, M.Aborts, IsLast, IsLost, PartOf, Reached;
    var chunks, gs := done + [c] + later, M.Seen(f, c);
    var s, n := Flatten(chunks), Reached(chunks, fs);
    CutsInside(done, c, later, now, gs, f);
    ReachedOver(chunks, now, fs);
    assert forall g | g in fs :: g in now + fs;
    if M.Aborts(f, c) {
      assert (now + fs)[..1] == now[..1];
      SameParts(done, c, later, now[..1], gs[..1]);
    } else {
      assert (now + fs)[..|now| + n] == now + fs[..n];
      SameParts(done, c, later, now, gs);
    }
  }

  lemma NothingFollows(w: State, s: seq<byte>, chunks: seq<seq<byte>>)
    requires w.cs == Checking ==> |s| > 0
    ensures FoundBy(w, s, |s|) == [] && Reached(chunks, []) == 0 && PartsOf(chunks, [], s) == []
  {
  }

  lemma {:induction false} Follows(f: Fsm, w: State, done: seq<seq<byte>>, rest: seq<seq<byte>>)
    requires IsBehind(f, w, done)
    ensures var chunks, x := done + rest, |Flatten(done)|;
            var s := Flatten(chunks);
            && x <= |s| && (w.cs == Checking ==> x > 0)
            && var fs := FoundBy(w, s, x);
               && (forall g | g in fs :: g.start <= g.end <= |s|)
               && AllHanded(f, rest) == PartsOf(chunks, fs[..Reached(chunks, fs)], s)
    decreases |rest|
  {
    hide Flatten, Offset, FoundBy, M.Seen, M.Leftover, Exec, Matching, PartsOf, CutOut, Reached, M.Acked, M.Aborts,
         IsLast, IsLost;
    var chunks, x := done + rest, |Flatten(done)|;
    var s := Flatten(chunks);
    FlattenBoth(done, rest);
    FoundInside(w, s, x);
    MatchingStates(Entry(f), w);
    NothingFollows(w.(cs := Start), s, chunks);
    if rest == [] {
      assert chunks == done;
      NothingFollows(w, s, chunks);
    } else if w.cs == Checking {
      FollowsDeaf(f, w, done, rest);
      assert FoundBy(w, s, x)[..0] == [];
    } else {
      var c, later := rest[0], rest[1..];
      assert chunks == done + [c] + later == (done + [c]) + later;
      var w', now := OneReadFollows(f, w, done, c, later);
      Follows(M.Next(f, c), w', done + [c], later);
      AckedParts(f, done, c, later, now, FoundBy(w', s, x + |c|));
    }
  }

  /** `process_main` over any sequence of reads, from the first on: it acknowledges the frames of the byte stream
      up to the first whose checksum byte begins a read, or through the first good one whose ETX does; and of
      each it hands on the part in the read of its ETX, no more. */
  lemma ReadsExactly(chunks: seq<seq<byte>>)
    ensures var s := Flatten(chunks);
            var fs := All(s, 0);
            && (forall f | f in fs :: f.start < f.end && f.end + 1 < |s|)
            && AllHanded(M.FRESH, chunks) == PartsOf(chunks, fs[..Reached(chunks, fs)], s)
  {
    hide All, FoundBy, Flatten, PartsOf, Reached, AllHanded;
    var w, s := State(Start, 0, 0), Flatten(chunks);
    NothingFlat();
    assert [] + chunks == chunks;
    Follows(M.FRESH, w, [], chunks);
    FoundIsAll(w, s, 0);
    AllInside(s, 0);
  }

  /** Every frame is acknowledged exactly if no read begins with the checksum byte of one, or with the ETX of a
      good one other than the last. */
  lemma NoneIsLost(chunks: seq<seq<byte>>)
    ensures var fs := All(Flatten(chunks), 0);
            |AllHanded(M.FRESH, chunks)| == |fs| <==>
            forall k | 0 <= k < |fs| ::
              && Offset(chunks, fs[k].end + 1) > 0
              && (Offset(chunks, fs[k].end) == 0 && fs[k].good ==> k == |fs| - 1)
  {
    hide All, Flatten, Offset, Reached, AllHanded;
    ReadsExactly(chunks);
    ReachedAll(chunks, All(Flatten(chunks), 0));
  }
}
