/** Where the streaming machine finds the frames of a byte stream, and how much of the buffer it lends for them. */
module Places {
  import opened Bytes
  import opened Frame
  import opened FrameSpec
  import opened Frames
  import opened Wire

  /** The frames whose checksum byte the machine comes to on the whole stream, where offsets are places. */
  function FoundBy(w: State, s: seq<byte>, p: nat): (fs: seq<Found>)
    requires p <= |s| && (w.cs == Checking ==> p > 0)
    ensures forall f | f in fs :: f.end + 1 < |s|
    decreases |s| - p
  {
    if p == |s| then [] else FoundAt(w, p, s[p]) + FoundBy(WireStep(w, p, s[p]), s, p + 1)
  }

  function FoundAt(w: State, p: nat, b: byte): (fs: seq<Found>)
    requires w.cs == Checking ==> p > 0
    ensures forall f | f in fs :: f.end + 1 == p
  {
    if w.cs == Checking then [Found(w.start, p - 1, w.lrc == b)] else []
  }

  // ----- they are those of the restarted machine

  /** The streaming machine lends the range; otherwise it lends the one-byte literal. */
  predicate IsTaken(sc: bool, f: Found, s: seq<byte>)
    requires f.end + 1 < |s|
  {
    f.good && !(sc && s[f.end + 1] >= 0x80)
  }

  lemma {:induction false} NothingFound(m: Machine, w: State, s: seq<byte>, i: nat)
    requires i <= |s| && Matching(m, w) && Scan(m, s, i).m.cs != Done && (w.cs == Checking ==> i > 0)
    ensures FoundBy(w, s, i) == []
    decreases |s| - i
  {
    hide Xor;
    if i < |s| {
      var m' := Step(m, s[i]);
      if m'.cs == Done {
        ScanAbsorbed(m', s, i + 1);
      } else {
        NothingFound(m', WireStep(w, i, s[i]), s, i + 1);
      }
    }
  }

  lemma FoundNext(w: State, s: seq<byte>, p: nat)
    requires p < |s| && (w.cs == Checking ==> p > 0)
    ensures FoundBy(w, s, p)
         == (if w.cs == Checking then [Found(w.start, p - 1, w.lrc == s[p])] else [])
            + FoundBy(WireStep(w, p, s[p]), s, p + 1)
  {
  }

  lemma {:induction false} FoundFirst(m: Machine, w: State, s: seq<byte>, i: nat) returns (j: nat, v: State)
    requires i <= |s| && Matching(m, w) && Scan(m, s, i).m.cs == Done && (w.cs == Checking ==> i > 0)
    ensures i <= j < |s| && v.cs == Start && j > 0
    ensures if m.cs == Closing then j == i else Scan(m, s, i).end.Some? && j == Scan(m, s, i).end.value + 1
    ensures var r := Scan(m, s, i);
            FoundBy(w, s, i)
            == [Found(if r.start.Some? then r.start.value else w.start, j - 1, !r.bad)] + FoundBy(v, s, j + 1)
    decreases |s| - i
  {
    hide Xor, FoundBy, FoundAt;
    var m', w' := Step(m, s[i]), WireStep(w, i, s[i]);
    FoundNext(w, s, i);
    if m.cs == Closing {
      ScanAbsorbed(m', s, i + 1);
      j, v := i, w';
    } else {
      j, v := FoundFirst(m', w', s, i + 1);
      ScanFacts(m', s, i + 1);
    }
  }

  lemma {:induction false} FoundIsAll(v: State, s: seq<byte>, from: nat)
    requires from <= |s| && v.cs == Start
    ensures FoundBy(v, s, from) == All(s, from)
    decreases |s| - from
  {
    hide Scan, FoundBy, Locate, Lrc, IsGood;
    AllInside(s, from);
    ScanLocates(s, from);
    var r := Scan(INITIAL, s, from);
    ScanFacts(INITIAL, s, from);
    InitialMatches(v);
    if r.m.cs != Done {
      NothingFound(INITIAL, v, s, from);
    } else {
      var j, u := FoundFirst(INITIAL, v, s, from);
      FoundIsAll(u, s, j + 1);
    }
  }

  // ----- reads cut the stream

  /** The offset of a place in the read that holds it. */
  function Offset(chunks: seq<seq<byte>>, x: nat): (r: nat)
    ensures r <= x
  {
    if chunks == [] || x < |chunks[0]| then x else Offset(chunks[1..], x - |chunks[0]|)
  }

  /** Two places in one read. */
  lemma {:induction false} SameRead(chunks: seq<seq<byte>>, x: nat, y: nat)
    requires x <= y && Offset(chunks, y) >= y - x
    ensures Offset(chunks, x) == Offset(chunks, y) - (y - x)
    decreases |chunks|
  {
    if chunks != [] && y >= |chunks[0]| {
      SameRead(chunks[1..], if x < |chunks[0]| then 0 else x - |chunks[0]|, y - |chunks[0]|);
    }
  }

  lemma {:induction false} OffsetInside(done: seq<seq<byte>>, chunk: seq<byte>, rest: seq<seq<byte>>, p: nat)
    requires p < |chunk|
    ensures Offset(done + [chunk] + rest, |Flatten(done)| + p) == p
    decreases |done|
  {
    var all := done + [chunk] + rest;
    if done == [] {
      assert all[0] == chunk;
    } else {
      assert all[0] == done[0] && all[1..] == done[1..] + [chunk] + rest;
      OffsetInside(done[1..], chunk, rest, p);
    }
  }

  lemma {:induction false} FlattenAt(done: seq<seq<byte>>, chunk: seq<byte>, rest: seq<seq<byte>>)
    ensures Flatten(done + [chunk]) == Flatten(done) + chunk
    ensures Flatten(done + [chunk] + rest) == Flatten(done) + chunk + Flatten(rest)
    decreases |done|
  {
    var all := done + [chunk] + rest;
    if done == [] {
      assert all[0] == chunk && all[1..] == rest && [chunk][1..] == [];
    } else {
      assert all[0] == done[0] && all[1..] == done[1..] + [chunk] + rest;
      assert (done + [chunk])[1..] == done[1..] + [chunk];
      FlattenAt(done[1..], chunk, rest);
    }
  }

  /** What is lent for a frame: from the beginning of the buffer, as many bytes as the two offsets differ. */
  function SizeOf(sc: bool, chunks: seq<seq<byte>>, f: Found, s: seq<byte>): Lent
    requires f.end + 1 < |s|
  {
    if IsTaken(sc, f, s) then Range(Offset(chunks, f.end + 1) - Offset(chunks, f.start)) else Nok
  }

  function Sized(sc: bool, chunks: seq<seq<byte>>, fs: seq<Found>, s: seq<byte>): (ls: seq<Lent>)
    requires forall f | f in fs :: f.end + 1 < |s|
    ensures |ls| == |fs|
  {
    seq(|fs|, k requires 0 <= k < |fs| => SizeOf(sc, chunks, fs[k], s))
  }

  lemma SizedConcat(sc: bool, chunks: seq<seq<byte>>, a: seq<Found>, b: seq<Found>, s: seq<byte>)
    requires (forall f | f in a :: f.end + 1 < |s|) && forall f | f in b :: f.end + 1 < |s|
    ensures forall f | f in a + b :: f.end + 1 < |s|
    ensures Sized(sc, chunks, a + b, s) == Sized(sc, chunks, a, s) + Sized(sc, chunks, b, s)
  {
  }

  /** The machine of the reads and that of the stream, at the same byte. */
  ghost predicate IsCut(chunks: seq<seq<byte>>, w: State, whole: State) {
    && w.cs == whole.cs && w.lrc == whole.lrc
    && (w.cs in {Inside, Checking} ==> w.start == Offset(chunks, whole.start))
  }

  lemma CutStep(sc: bool, w: State, whole: State, chunks: seq<seq<byte>>, p: nat, s: seq<byte>, at: nat)
    requires IsCut(chunks, w, whole) && at < |s| && Offset(chunks, at) == p && (whole.cs == Checking ==> at > 0)
    ensures IsCut(chunks, WireStep(w, p, s[at]), WireStep(whole, at, s[at]))
    ensures Sized(sc, chunks, FoundAt(whole, at, s[at]), s) == Emitted(sc, w, p, s[at])
  {
    hide Offset, Xor;
  }

  lemma {:induction false} CutSizes(sc: bool, w: State, whole: State, done: seq<seq<byte>>, chunk: seq<byte>,
                                    rest: seq<seq<byte>>, p: nat)
    requires p <= |chunk| && IsCut(done + [chunk] + rest, w, whole)
    requires whole.cs == Checking ==> |Flatten(done)| + p > 0
    ensures var chunks, at := done + [chunk] + rest, |Flatten(done)| + p;
            var e := Exec(sc, w, chunk, p);
            && at <= |Flatten(chunks)|
            && e.lent + ExecAll(sc, e.w, rest).lent
            == Sized(sc, chunks, FoundBy(whole, Flatten(chunks), at), Flatten(chunks))
    decreases |rest|, |chunk| - p
  {
    hide Flatten, Offset, Emitted, FoundAt, IsCut, Sized, Xor;
    var chunks, at := done + [chunk] + rest, |Flatten(done)| + p;
    var s := Flatten(chunks);
    FlattenAt(done, chunk, rest);
    if p < |chunk| {
      OffsetInside(done, chunk, rest, p);
      assert s[at] == chunk[p];
      CutStep(sc, w, whole, chunks, p, s, at);
      var next, whole' := WireStep(w, p, chunk[p]), WireStep(whole, at, s[at]);
      CutSizes(sc, next, whole', done, chunk, rest, p + 1);
      SizedConcat(sc, chunks, FoundAt(whole, at, s[at]), FoundBy(whole', s, at + 1), s);
    } else if rest == [] {
      NothingFlat();
    } else {
      assert chunks == (done + [chunk]) + [rest[0]] + rest[1..];
      CutSizes(sc, w, whole, done + [chunk], rest[0], rest[1..], 0);
    }
  }

  lemma NothingFlat()
    ensures Flatten([]) == []
  {
  }

  /** Everything that is lent, over any reads: one item for each frame of the stream, the one-byte literal
      if it is refused; otherwise as many bytes as lie between the offsets of its payload and of its
      checksum, each counted in the read that holds it. */
  lemma LentSizes(sc: bool, w: State, chunks: seq<seq<byte>>)
    requires w.cs == Start
    ensures var s := Flatten(chunks);
            var fs := All(s, 0);
            && (forall f | f in fs :: f.end + 1 < |s|)
            && ExecAll(sc, w, chunks).lent == Sized(sc, chunks, fs, s)
  {
    hide All, FoundBy, Flatten, Sized, Exec, Offset;
    FoundIsAll(w, Flatten(chunks), 0);
    NothingFlat();
    if chunks == [] {
      NoSizes(sc, w);
    } else {
      assert [] + [chunks[0]] + chunks[1..] == chunks;
      CutSizes(sc, w, w, [], chunks[0], chunks[1..], 0);
    }
  }

  lemma NoSizes(sc: bool, w: State)
    ensures ExecAll(sc, w, []).lent == [] == Sized(sc, [], FoundBy(w.(cs := Start), [], 0), [])
  {
  }

  // ----- a frame inside one read

  lemma OneRead(chunk: seq<byte>, x: nat)
    ensures Offset([chunk], x) == (if x < |chunk| then x else x - |chunk|) && Flatten([chunk]) == chunk
  {
    assert [chunk][1..] == [];
  }

  /** In a single read every frame taken is lent with the size of STX and payload. */
  lemma LentInOneRead(sc: bool, w: State, chunk: seq<byte>, k: nat)
    requires w.cs == Start && k < |All(chunk, 0)|
    ensures var f, e := All(chunk, 0)[k], Exec(sc, w, chunk, 0);
            && f.end + 1 < |chunk| && |e.lent| == |All(chunk, 0)|
            && e.lent[k] == if IsTaken(sc, f, chunk) then Range(f.end + 1 - f.start) else Nok
  {
    hide All, Offset, Flatten, Exec, Lrc;
    LentSizes(sc, w, [chunk]);
    OneRead(chunk, All(chunk, 0)[k].start);
    OneRead(chunk, All(chunk, 0)[k].end + 1);
    AllInside(chunk, 0);
    assert [chunk][1..] == [];
    assert ExecAll(sc, w, [chunk]).lent == Exec(sc, w, chunk, 0).lent;
    assert All(chunk, 0)[k] in All(chunk, 0);
  }

  /** The bytes lent are those of the frame exactly if the first frame of the read stands at its beginning
      and has a payload that begins like this one's; so they always are for that first frame. */
  lemma LentContents(chunk: seq<byte>, k: nat)
    requires k < |All(chunk, 0)|
    ensures var fs := All(chunk, 0);
            var first, f := fs[0], fs[k];
            var n := f.end - f.start;
            && 0 < f.start < f.end < |chunk| && first.start < first.end < |chunk|
            && (chunk[..n + 1] == chunk[f.start - 1..f.end] <==>
                first.start == 1 && n <= first.end - 1 && chunk[1..n + 1] == chunk[f.start..f.end])
  {
    hide All, Lrc, IsGood;
    LaterFrames(chunk, 0, 0);
    LaterFrames(chunk, 0, k);
    var first, f := All(chunk, 0)[0], All(chunk, 0)[k];
    var n := f.end - f.start;
    assert chunk[..n + 1][0] == chunk[0] && chunk[f.start - 1..f.end][0] == chunk[f.start - 1];
    assert chunk[..n + 1][1..] == chunk[1..n + 1] && chunk[f.start - 1..f.end][1..] == chunk[f.start..f.end];
    if chunk[..n + 1] == chunk[f.start - 1..f.end] {
      FirstAtBeginning(chunk, f);
    }
    if first.start == 1 && chunk[1..n + 1] == chunk[f.start..f.end] {
      assert chunk[..n + 1] == [chunk[0]] + chunk[1..n + 1];
      assert chunk[f.start - 1..f.end] == [chunk[f.start - 1]] + chunk[f.start..f.end];
    }
  }

  lemma FirstAtBeginning(chunk: seq<byte>, f: Found)
    requires 0 < f.start < f.end < |chunk| && chunk[f.start - 1] == STX && All(chunk, 0) != []
    requires forall p | f.start <= p < f.end :: chunk[p] != ETX
    requires var n := f.end - f.start; chunk[..n + 1] == chunk[f.start - 1..f.end]
    ensures var first := All(chunk, 0)[0]; first.start == 1 && f.end - f.start <= first.end - 1
  {
    hide All, Lrc, IsGood;
    var n, first := f.end - f.start, All(chunk, 0)[0];
    FirstOfAll(chunk, 0);
    NextMeans(chunk, 0);
    assert IsFrame(chunk, 0, first.start, first.end);
    forall j | 0 <= j <= n ensures chunk[j] == chunk[f.start - 1 + j] && (j > 0 ==> chunk[j] != ETX) {
      assert chunk[..n + 1][j] == chunk[f.start - 1..f.end][j];
    }
    assert chunk[0] == STX;
  }
}
