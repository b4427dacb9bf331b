/** What becomes of a lend: given back within a bound, or the end of the frontend; and for which reads. */
module Service {
  import opened Bytes
  import opened Slots
  import opened Pipeline
  import P = Pipeline
  import W = Wire
  import F = Frames
  import L = Places
  import Sched = Scheduler

  /** The frontend has left with slot 0 borrowed. */
  predicate Stopped(s: State) {
    s.front.FrontGone? && s.ch0.slot.borrowed
  }

  ghost predicate Healthy(s: State) {
    && Inv(s)
    && (forall it | it in s.ch0.returned :: it.size >= 0)
    && (s.front.FrontGone? ==> Stopped(s) || s.wire.WireGone?)
  }

  lemma {:induction false} WireReadsReturned(s: State, input: seq<Read>)
    ensures WireReads(s, input).ch0.returned == s.ch0.returned && WireReads(s, input).ch0.taken == s.ch0.taken
    decreases |input|
  {
    if input != [] && input[0].Chunk? {
      WireReadsReturned(s.(m := Machine(s, input[0].bytes).w, torn := s.torn || P.Held(s)), input[1..]);
    }
  }

  lemma FrontHealthy(s: State, acts: seq<Exec>)
    requires Healthy(s)
    ensures Healthy(FrontStep(s, acts))
  {
    StepKeeps(s, FrontTurn(acts));
    match s.front
    case FrontNew => GotHealthy(s.(ch0 := Entered(s.ch0)), Enter(s.ch0), acts);
    case FrontWaiting => GotHealthy(s.(ch0 := Looked(s.ch0)), Look(s.ch0), acts);
    case FrontWriting(it) => ExecHealthy(s, it, acts);
    case FrontLending(it) =>
      if s.ch1.slot.item.None? {
        ExecHealthy(s, it, acts);
      }
    case FrontGone =>
  }

  lemma ExecHealthy(s: State, it: Item, acts: seq<Exec>)
    requires it.size >= 0 && Inv(s.(front := FrontWriting(it))) && forall i | i in s.ch0.returned :: i.size >= 0
    ensures var s' := FrontExec(s, it, acts);
            !s'.front.FrontGone? && forall i | i in s'.ch0.returned :: i.size >= 0
  {
    if acts != [] && acts[0].Finish? {
      assert Enter(Return(s.ch0, it)) == Blocked;
    }
  }

  lemma GotHealthy(s: State, r: Borrowing, acts: seq<Exec>)
    requires OutOfBorrow(s, r) && (forall i | i in s.ch0.returned :: i.size >= 0)
    requires r.Got? ==> s.ch0.slot.borrowed
    ensures var s' := FrontGot(s, r, acts);
            && (forall i | i in s'.ch0.returned :: i.size >= 0)
            && (s'.front.FrontGone? ==> Stopped(s') || s'.wire.WireGone?)
  {
    if r.Got? && r.item.size >= 0 {
      ExecHealthy(s, r.item, acts);
    }
  }

  lemma HealthyKept(s: State, t: Turn)
    requires Healthy(s)
    ensures Healthy(Step(s, t))
  {
    match t
    case WireTurn(input) =>
      StepKeeps(s, t);
      WireLeavesFront(s, input);
      WireReadsReturned(s, input);
    case FrontTurn(acts) => FrontHealthy(s, acts);
    case RespTurn(waits) =>
      StepKeeps(s, t);
      RespLeavesFront(s, waits);
  }

  lemma {:induction false} RunHealthy(s: State, ts: seq<Turn>)
    requires Healthy(s)
    ensures Healthy(Run(s, ts))
    decreases |ts|
  {
    if ts != [] {
      HealthyKept(s, ts[0]);
      StepKeeps(s, ts[0]);
      RunHealthy(Step(s, ts[0]), ts[1..]);
    }
  }

  // ----- which reads stop the frontend

  /** A good frame whose checksum stands at a smaller offset of its read than its payload began at in an
      earlier one. */
  predicate GoesBack(sc: bool, chunks: seq<seq<byte>>, f: F.Found, s: seq<byte>) {
    f.end + 1 < |s| && L.IsTaken(sc, f, s) && L.Offset(chunks, f.end + 1) < L.Offset(chunks, f.start)
  }

  ghost predicate RunsBack(sc: bool, chunks: seq<seq<byte>>) {
    var s := W.Flatten(chunks);
    exists f :: f in F.All(s, 0) && GoesBack(sc, chunks, f, s)
  }

  /** What is lent for a frame: the one-byte literal if it is refused, otherwise from the beginning of the buffer as
      many bytes as lie between the offsets of its payload and its checksum in their reads. */
  function ItemFor(sc: bool, chunks: seq<seq<byte>>, f: F.Found, s: seq<byte>): Item
    requires f.end + 1 < |s|
  {
    if L.IsTaken(sc, f, s) then Item(ReadBuffer, 0, L.Offset(chunks, f.end + 1) - L.Offset(chunks, f.start))
    else Item(Literal, 0, 1)
  }

  /** The items that the bytes read make the wire task lend. */
  function ItemsOf(sc: bool, chunks: seq<seq<byte>>): (items: seq<Item>)
    requires forall f | f in F.All(W.Flatten(chunks), 0) :: f.end + 1 < |W.Flatten(chunks)|
    ensures |items| == |F.All(W.Flatten(chunks), 0)|
  {
    var s := W.Flatten(chunks);
    var fs := F.All(s, 0);
    seq(|fs|, k requires 0 <= k < |fs| => ItemFor(sc, chunks, fs[k], s))
  }

  lemma LendsAreItems(sc: bool, chunks: seq<seq<byte>>)
    requires forall f | f in F.All(W.Flatten(chunks), 0) :: f.end + 1 < |W.Flatten(chunks)|
    ensures var s := W.Flatten(chunks); Items(L.Sized(sc, chunks, F.All(s, 0), s)) == ItemsOf(sc, chunks)
  {
    hide F.All, L.Offset, W.Flatten, L.IsTaken;
    var s := W.Flatten(chunks);
    var fs, items := F.All(s, 0), ItemsOf(sc, chunks);
    forall k | 0 <= k < |fs| ensures Items(L.Sized(sc, chunks, fs, s))[k] == items[k] {
      assert fs[k] in fs;
      assert L.Sized(sc, chunks, fs, s)[k] == L.SizeOf(sc, chunks, fs[k], s);
    }
  }

  lemma NegativeItems(sc: bool, chunks: seq<seq<byte>>)
    requires forall f | f in F.All(W.Flatten(chunks), 0) :: f.end + 1 < |W.Flatten(chunks)|
    ensures var s := W.Flatten(chunks);
            var fs, items := F.All(s, 0), ItemsOf(sc, chunks);
            forall k | 0 <= k < |fs| :: items[k].size < 0 <==> GoesBack(sc, chunks, fs[k], s)
  {
    hide F.All, L.Offset, W.Flatten, L.IsTaken;
    var s := W.Flatten(chunks);
    var fs, items := F.All(s, 0), ItemsOf(sc, chunks);
    forall k | 0 <= k < |fs| ensures items[k].size < 0 <==> GoesBack(sc, chunks, fs[k], s) {
      assert fs[k] in fs;
      assert items[k] == ItemFor(sc, chunks, fs[k], s);
    }
  }

  lemma SomeNegative(sc: bool, chunks: seq<seq<byte>>)
    requires forall f | f in F.All(W.Flatten(chunks), 0) :: f.end + 1 < |W.Flatten(chunks)|
    ensures (exists it :: it in ItemsOf(sc, chunks) && it.size < 0) <==> RunsBack(sc, chunks)
  {
    hide F.All, W.Flatten, ItemsOf, GoesBack;
    var s := W.Flatten(chunks);
    var fs, items := F.All(s, 0), ItemsOf(sc, chunks);
    NegativeItems(sc, chunks);
    if it :| it in items && it.size < 0 {
      var k :| 0 <= k < |items| && items[k] == it;
      assert fs[k] in fs;
    }
    if RunsBack(sc, chunks) {
      var f :| f in fs && GoesBack(sc, chunks, f, s);
      var k :| 0 <= k < |fs| && fs[k] == f;
      assert items[k] in items;
    }
  }

  /** Over all runs: what is lent, and still to be lent, are the items of the frames read; the frontend has
      stopped exactly if it has taken a negative one. */
  lemma TakesExactly(sc: bool, m: W.State, ts: seq<Turn>)
    requires m.cs == W.Start
    ensures var s, chunks := Run(Initial(sc, m), ts), EatenAll(Initial(sc, m), ts);
            && (forall f | f in F.All(W.Flatten(chunks), 0) :: f.end + 1 < |W.Flatten(chunks)|)
            && s.ch0.lent + Rest(s.wire) == ItemsOf(sc, chunks)
            && (Stopped(s) <==> exists it :: it in s.ch0.taken && it.size < 0)
            && (Stopped(s) ==> RunsBack(sc, chunks))
            && (RunsBack(sc, chunks) ==> !s.wire.WireGone?)
  {
    hide W.ExecAll, W.Exec, W.Flatten, F.All, L.Sized, Run, EatenAll, RunsBack, Items, ItemsOf;
    var s0, s, chunks := Initial(sc, m), Run(Initial(sc, m), ts), EatenAll(Initial(sc, m), ts);
    RunHealthy(s0, ts);
    RunAccounts(s0, ts);
    L.LentSizes(sc, m, chunks);
    LendsAreItems(sc, chunks);
    assert s0.ch0.lent + Rest(s0.wire) + ItemsOf(sc, chunks) == ItemsOf(sc, chunks);
    SomeNegative(sc, chunks);
    TakenNegative(s);
    if Stopped(s) {
      var it :| it in s.ch0.taken && it.size < 0;
      assert it in ItemsOf(sc, chunks);
    }
    if s.wire.WireGone? {
      assert s.ch0.lent + Rest(s.wire) == s.ch0.returned;
    }
  }

  /** End to end, under every schedule: when the wire task has ended, the frontend has been handed, and has given
      back, for the k-th frame of the bytes read exactly this item; while it has not, the first of them. */
  lemma EveryLendDelivered(sc: bool, m: W.State, ts: seq<Turn>, k: nat)
    requires m.cs == W.Start
    ensures var s, chunks := Run(Initial(sc, m), ts), EatenAll(Initial(sc, m), ts);
            var stream := W.Flatten(chunks);
            var fs := F.All(stream, 0);
            && s.ch0.returned <= s.ch0.taken && |s.ch0.taken| <= |fs|
            && (s.wire.WireGone? ==> |s.ch0.returned| == |fs|)
            && (k < |s.ch0.taken| ==>
                  var f := fs[k];
                  && f.end + 1 < |stream|
                  && s.ch0.taken[k] ==
                       if f.good && !(sc && stream[f.end + 1] >= 0x80)
                       then Item(ReadBuffer, 0, L.Offset(chunks, f.end + 1) - L.Offset(chunks, f.start))
                       else Item(Literal, 0, 1))
  {
    hide W.Flatten, F.All, Run, EatenAll, L.Offset, RunsBack, ItemsOf;
    var s, chunks := Run(Initial(sc, m), ts), EatenAll(Initial(sc, m), ts);
    TakesExactly(sc, m, ts);
    RunHealthy(Initial(sc, m), ts);
    PhaseDelivers(s.ch0, Phase0(s));
    if k < |s.ch0.taken| {
      assert s.ch0.taken[k] == ItemsOf(sc, chunks)[k];
      ItemAt(sc, chunks, k);
    }
  }

  lemma ItemAt(sc: bool, chunks: seq<seq<byte>>, k: nat)
    requires forall f | f in F.All(W.Flatten(chunks), 0) :: f.end + 1 < |W.Flatten(chunks)|
    requires k < |ItemsOf(sc, chunks)|
    ensures var s := W.Flatten(chunks);
            var f := F.All(s, 0)[k]; f.end + 1 < |s| && ItemsOf(sc, chunks)[k] == ItemFor(sc, chunks, f, s)
  {
    hide F.All, ItemFor, W.Flatten;
    var s := W.Flatten(chunks);
    assert F.All(s, 0)[k] in F.All(s, 0);
  }

  /** A frame whose payload begins in the read of its checksum is lent with the length of STX and payload; if STX
      begins that read, the bytes lent are STX and payload. The read begins at `base` in the stream. */
  lemma LendCovers(sc: bool, chunks: seq<seq<byte>>, f: F.Found, s: seq<byte>)
    requires f.start <= f.end && f.end + 1 < |s| && L.IsTaken(sc, f, s) && s == W.Flatten(chunks)
    requires L.Offset(chunks, f.end + 1) >= f.end + 1 - f.start
    ensures var size, base := ItemFor(sc, chunks, f, s).size, f.end + 1 - L.Offset(chunks, f.end + 1);
            && size == f.end - f.start + 1
            && (L.Offset(chunks, f.start) == 1 ==>
                  0 < f.start && 0 <= base <= base + size <= |s| && s[base..base + size] == s[f.start - 1..f.end])
  {
    hide L.Offset;
    L.SameRead(chunks, f.start, f.end + 1);
  }

  lemma TakenNegative(s: State)
    requires Healthy(s)
    ensures Stopped(s) <==> exists it :: it in s.ch0.taken && it.size < 0
    ensures s.ch0.taken <= s.ch0.lent
  {
    PhaseDelivers(s.ch0, Phase0(s));
    if Stopped(s) {
      assert s.ch0.slot.item.value in s.ch0.taken;
    }
    if it :| it in s.ch0.taken && it.size < 0 {
      assert it !in s.ch0.returned;
      assert it == s.ch0.slot.item.value;
    }
  }

  /** An item of negative size ends the frontend at its next turn, whatever that does. */
  lemma NegativeStops(s: State, acts: seq<Exec>)
    requires Healthy(s) && s.ch0.slot.item.Some? && s.ch0.slot.item.value.size < 0
    ensures Stopped(Step(s, FrontTurn(acts)))
  {
    if !Stopped(s) {
      NegativeSizeStops(s, acts);
    }
  }

  /** It does happen, from the first state on: four bytes before the payload, and its end in the next read. */
  lemma RunningBack(sc: bool, m: W.State, x: byte, ts: seq<Turn>)
    requires m.cs == W.Start && x != ETX && !(sc && Xor(x, ETX) >= 0x80)
    ensures var cuts := [Chunk([0, 0, 0, STX, x]), Chunk([ETX, Xor(x, ETX)])];
            var s := Run(Initial(sc, m), [WireTurn(cuts), FrontTurn([])] + ts);
            Stopped(s) && s.ch0.slot.item == Some(Item(ReadBuffer, 0, -3)) && s.wire.Lending? && s.ch0.returned == []
  {
    hide Xor;
    XorZero(x);
    var a, b := [0, 0, 0, STX, x], [ETX, Xor(x, ETX)];
    var cuts := [Chunk(a), Chunk(b)];
    var s0 := Initial(sc, m);
    var turns := [WireTurn(cuts), FrontTurn([])];
    var w := FirstRead(sc, m, x);
    SecondRead(sc, w, x);
    assert cuts[1..] == [Chunk(b)] && Items([W.Range(-3)]) == [Item(ReadBuffer, 0, -3)];
    assert WireReads(s0, cuts) == WireReads(s0.(m := w), [Chunk(b)]);
    assert Machine(s0.(m := w), b).lent == [W.Range(-3)];
    var s1 := Step(s0, WireTurn(cuts));
    assert s1 == WireLends(s0.(m := W.Exec(sc, w, b, 0).w), [Item(ReadBuffer, 0, -3)]);
    StepKeeps(s0, WireTurn(cuts));
    var s2 := Step(s1, FrontTurn([]));
    StepKeeps(s1, FrontTurn([]));
    assert (turns + ts)[0] == turns[0] && (turns + ts)[1..] == [turns[1]] + ts && ([turns[1]] + ts)[1..] == ts;
    assert Run(s0, turns + ts) == Run(s1, [turns[1]] + ts) == Run(s2, ts);
    StuckForever(s2, ts);
    StaysGone(s2, ts);
  }

  lemma FirstRead(sc: bool, m: W.State, x: byte) returns (w: W.State)
    requires m.cs == W.Start && x != ETX
    ensures W.Exec(sc, m, [0, 0, 0, STX, x], 0) == W.Effect(w, []) && w == W.State(W.Inside, x, 4)
  {
    hide Xor;
    XorZero(x);
    var a := [0, 0, 0, STX, x];
    w := W.State(W.Inside, x, 4);
    var q := m.(cs := W.Skipping);
    assert W.Exec(sc, w, a, 5) == W.Effect(w, []);
    assert W.Exec(sc, q.(cs := W.Begun, lrc := 0), a, 4) == W.Effect(w, []);
    assert W.Exec(sc, q, a, 3) == W.Effect(w, []);
    assert W.Exec(sc, q, a, 2) == W.Effect(w, []);
    assert W.Exec(sc, q, a, 1) == W.Effect(w, []);
  }

  lemma SecondRead(sc: bool, w: W.State, x: byte)
    requires w == W.State(W.Inside, x, 4) && !(sc && Xor(x, ETX) >= 0x80)
    ensures W.Exec(sc, w, [ETX, Xor(x, ETX)], 0).lent == [W.Range(-3)]
  {
    hide Xor;
    var b := [ETX, Xor(x, ETX)];
    var v := W.State(W.Checking, Xor(x, ETX), 4);
    assert W.Exec(sc, v.(cs := W.Start), b, 2).lent == [];
    assert W.Exec(sc, v, b, 1).lent == [W.Range(-3)];
  }

  lemma {:induction false} StaysGone(s: State, ts: seq<Turn>)
    requires Inv(s) && s.front.FrontGone? && s.ch0.slot.borrowed
    ensures Run(s, ts).front == s.front
    decreases |ts|
  {
    if ts != [] {
      StepKeeps(s, ts[0]);
      if ts[0].RespTurn? {
        RespLeavesFront(s, ts[0].waits);
      }
      assert Step(s, ts[0]).ch0 == s.ch0;
      StaysGone(Step(s, ts[0]), ts[1..]);
    }
  }

  // ----- what is lent comes back

  const WIRE: nat := 0
  const FRONT: nat := 1
  const RESP: nat := 2

  /** The items to be served next: for each, from where `fsm_exec` is going to lend before it ends. */
  datatype Job = Job(s: State, plans: seq<seq<nat>>)

  predicate IsBlocked(s: State) {
    s.front.FrontLending? && s.ch1.slot.item.Some?
  }

  predicate IsOver(j: Job) {
    j.plans == [] || Stopped(j.s)
  }

  /** The task is not busy with an item it could lend on or give back. */
  predicate IsIdle(s: State) {
    IsBlocked(s) || s.ch0.slot.item.None? || s.ch0.slot.item.value.size < 0
  }

  /** What a task does with one transfer of control, when reads and writes are answered at once. Other tasks
      touch neither slot. */
  function TurnOf(j: Job, task: nat, input: seq<Read>): Option<Turn>
    requires !IsOver(j)
  {
    if task == WIRE then Some(WireTurn(input))
    else if task == RESP then Some(RespTurn([false]))
    else if task != FRONT then None
    else if IsIdle(j.s) then Some(FrontTurn([]))
    else Some(FrontTurn([if j.plans[0] == [] then Finish else LendFrom(j.plans[0][0])]))
  }

  function Transfer(j: Job, task: nat, input: seq<Read>): Job
    requires Inv(j.s) && !IsOver(j)
  {
    var t := TurnOf(j, task, input);
    if t.None? then j
    else
      Job(Step(j.s, t.value),
          if task != FRONT || IsIdle(j.s) then j.plans
          else if j.plans[0] == [] then j.plans[1..]
          else [j.plans[0][1..]] + j.plans[1..])
  }

  /** The ring of `sus_runall` over these tasks and any others, until the items are served or the frontend stops. */
  ghost function Play(j: Job, order: seq<nat>, acts: seq<Sched.Act>, inputs: seq<seq<Read>>): Job
    requires Healthy(j.s) && |acts| == |inputs|
    decreases |acts|
  {
    if IsOver(j) || order == [] || acts == [] then j
    else
      TransferKeeps(j, order[0], inputs[0]);
      Play(Transfer(j, order[0], inputs[0]), Sched.Next(order, acts[0]), acts[1..], inputs[1..])
  }

  /** Meanwhile none of the three exits; others may. */
  ghost predicate Serves(j: Job, order: seq<nat>, acts: seq<Sched.Act>, inputs: seq<seq<Read>>)
    requires Healthy(j.s) && |acts| == |inputs|
    decreases |acts|
  {
    IsOver(j) || order == [] || acts == [] ||
    (TransferKeeps(j, order[0], inputs[0]);
     (order[0] in {WIRE, FRONT, RESP} ==> acts[0].Suspend?)
     && Serves(Transfer(j, order[0], inputs[0]), Sched.Next(order, acts[0]), acts[1..], inputs[1..]))
  }

  lemma TransferKeeps(j: Job, task: nat, input: seq<Read>)
    requires Healthy(j.s) && !IsOver(j)
    ensures Healthy(Transfer(j, task, input).s)
  {
    if TurnOf(j, task, input).Some? {
      HealthyKept(j.s, TurnOf(j, task, input).value);
    }
  }

  /** What is lent or will be, and is not back. */
  function Ahead(s: State): seq<Item> {
    (if s.ch0.slot.item.Some? then [s.ch0.slot.item.value] else []) + Rest(s.wire)
  }

  /** Of `items` those still to be served are the next, the others are back. */
  ghost predicate Progress(j: Job, items: seq<Item>, before: seq<Item>) {
    && Healthy(j.s) && |j.plans| <= |items|
    && var d := |items| - |j.plans|;
       && j.s.ch0.returned == before + items[..d]
       && items[d..] <= Ahead(j.s)
       && (d == |items| > 0 ==> j.s.ch0.slot.item.None?)
  }

  /** The turns that a plan takes at most: a lend, and for each lend of `fsm_exec` one more and its answer. */
  function Toil(plans: seq<seq<nat>>): nat {
    if plans == [] then 0 else 2 * |plans[0]| + 2 + Toil(plans[1..])
  }

  lemma OneMore(n: nat, c: nat)
    ensures (n + 1) * c == n * c + c
  {
  }

  lemma {:induction false} ToilBound(plans: seq<seq<nat>>, k: nat)
    requires forall p | p in plans :: |p| <= k
    ensures Toil(plans) <= |plans| * (2 * k + 2)
  {
    if plans != [] {
      assert plans[0] in plans && forall p | p in plans[1..] :: p in plans;
      ToilBound(plans[1..], k);
      OneMore(|plans[1..]|, 2 * k + 2);
    }
  }

  function Effort(j: Job): int {
    if IsOver(j) then 0
    else Toil(j.plans) - (if j.s.ch0.slot.item.Some? then 1 else 0) + (if IsBlocked(j.s) then 1 else 0)
  }

  /** The task whose turn is needed next. */
  function Needed(s: State): nat {
    if s.ch0.slot.item.None? then WIRE else if IsBlocked(s) then RESP else FRONT
  }

  /** The item is in slot 0, and will have to be given back. */
  ghost predicate IsOut(s: State, it: Item, before: seq<Item>) {
    Healthy(s) && s.ch0.slot.item == Some(it) && it.size >= 0 && s.ch0.returned == before
  }

  ghost predicate IsBack(s: State, it: Item, before: seq<Item>) {
    s.ch0.slot.item.None? && s.ch0.returned == before + [it]
  }

  lemma WireIsIdle(s: State, input: seq<Read>)
    requires Inv(s) && s.ch0.slot.item.Some?
    ensures Step(s, WireTurn(input)) == s
  {
  }

  lemma RespAnswers(s: State)
    requires Inv(s) && (s.ch1.slot.item.Some? ==> s.ch1.slot.item.value.size >= 0)
    ensures var s' := Step(s, RespTurn([false]));
            s'.ch0 == s.ch0 && s'.front == s.front && s'.ch1.slot.item.None?
  {
    RespLeavesFront(s, [false]);
  }

  lemma FrontFinishes(s: State, it: Item, before: seq<Item>)
    requires IsOut(s, it, before) && !IsBlocked(s)
    ensures IsBack(Step(s, FrontTurn([Finish])), it, before)
  {
    assert Enter(Return(s.ch0, it)) == Blocked;
  }

  lemma FrontLends(s: State, it: Item, before: seq<Item>, offset: nat)
    requires IsOut(s, it, before) && !IsBlocked(s)
    ensures IsOut(Step(s, FrontTurn([LendFrom(offset)])), it, before)
    ensures IsBlocked(Step(s, FrontTurn([LendFrom(offset)])))
  {
    HealthyKept(s, FrontTurn([LendFrom(offset)]));
    match s.front
    case FrontNew =>
      var acts := [LendFrom(offset)];
      var s1 := s.(ch0 := Entered(s.ch0));
      assert Step(s, FrontTurn(acts)) == FrontStep(s, acts) == FrontGot(s1, Got(it), acts) == FrontExec(s1, it, acts);
    case FrontWaiting =>
      var acts := [LendFrom(offset)];
      var s1 := s.(ch0 := Looked(s.ch0));
      assert Step(s, FrontTurn(acts)) == FrontStep(s, acts) == FrontGot(s1, Got(it), acts) == FrontExec(s1, it, acts);
    case FrontWriting(_) =>
    case FrontLending(_) =>
    case FrontGone =>
  }

  lemma BlockedWaits(s: State)
    requires Inv(s) && IsBlocked(s)
    ensures Step(s, FrontTurn([])) == s
  {
  }

  lemma FrontWaits(s: State)
    requires Healthy(s) && s.ch0.slot.item.None? && s.wire.Lending?
    ensures var s' := Step(s, FrontTurn([]));
            s'.ch0 == s.ch0 && s'.wire == s.wire && !Stopped(s') && !IsBlocked(s') && !IsBlocked(s)
  {
  }

  lemma FrontOnly(s: State, acts: seq<Exec>)
    requires Inv(s)
    ensures Step(s, FrontTurn(acts)).wire == s.wire
  {
    FrontLeavesWire(s, acts);
  }

  lemma NegativeTaken(s: State)
    requires Healthy(s) && s.ch0.slot.item.Some? && s.ch0.slot.item.value.size < 0
    ensures var s' := Step(s, FrontTurn([]));
            Stopped(s') && s'.ch0.slot.item == s.ch0.slot.item && s'.ch0.returned == s.ch0.returned
  {
    NegativeStops(s, []);
  }

  lemma WireServes(j: Job, input: seq<Read>, items: seq<Item>, before: seq<Item>)
    requires !IsOver(j) && Progress(j, items, before)
    ensures var j' := Transfer(j, WIRE, input);
            && !IsOver(j') && Progress(j', items, before)
            && (if j.s.ch0.slot.item.None? then Effort(j') == Effort(j) - 1 else j' == j)
            && EatenBy(j.s, WireTurn(input)) == []
  {
    var s, d := j.s, |items| - |j.plans|;
    assert items[d..][0] == items[d];
    if s.ch0.slot.item.Some? {
      WireIsIdle(s, input);
    } else {
      HealthyKept(s, WireTurn(input));
      assert Step(s, WireTurn(input)) == WireLends(s, s.wire.rest);
      assert Ahead(WireLends(s, s.wire.rest)) == Ahead(s);
    }
  }

  lemma RespServes(j: Job, items: seq<Item>, before: seq<Item>)
    requires !IsOver(j) && Progress(j, items, before)
    ensures var j' := Transfer(j, RESP, []);
            && !IsOver(j') && Progress(j', items, before) && j'.s.ch0 == j.s.ch0 && j'.s.front == j.s.front
            && Effort(j') == Effort(j) - (if IsBlocked(j.s) then 1 else 0) && !IsBlocked(j'.s)
  {
    var s := j.s;
    HealthyKept(s, RespTurn([false]));
    RespLeavesFront(s, [false]);
    RespAnswers(s);
  }

  lemma BlockedIsTaken(s: State)
    requires Healthy(s)
    ensures IsBlocked(s) ==> s.ch0.slot.item.Some?
  {
  }

  lemma FinishServes(j: Job, items: seq<Item>, before: seq<Item>)
    requires !IsOver(j) && Progress(j, items, before) && !IsIdle(j.s) && j.plans[0] == []
    ensures var j' := Transfer(j, FRONT, []); Progress(j', items, before) && Effort(j') < Effort(j)
  {
    hide Step, Inv, FrontStep;
    var s, d := j.s, |items| - |j.plans|;
    TransferKeeps(j, FRONT, []);
    assert items[d..][0] == items[d];
    FrontOnly(s, [Finish]);
    FrontFinishes(s, items[d], s.ch0.returned);
    assert before + items[..d] + [items[d]] == before + items[..d + 1];
    assert items[d..][1..] == items[d + 1..] && Ahead(s)[1..] == Rest(s.wire);
    BlockedIsTaken(Transfer(j, FRONT, []).s);
  }

  lemma FrontServes(j: Job, items: seq<Item>, before: seq<Item>)
    requires !IsOver(j) && Progress(j, items, before)
    ensures var j' := Transfer(j, FRONT, []);
            && Progress(j', items, before)
            && (if Needed(j.s) == FRONT then Effort(j') < Effort(j)
                else !IsOver(j') && Effort(j') == Effort(j) && Needed(j'.s) == Needed(j.s))
  {
    hide Step, Inv, FrontStep;
    var s, d := j.s, |items| - |j.plans|;
    TransferKeeps(j, FRONT, []);
    assert items[d..][0] == items[d];
    FrontOnly(s, if IsIdle(s) || j.plans[0] == [] then [] else [LendFrom(j.plans[0][0])]);
    if s.ch0.slot.item.None? {
      FrontWaits(s);
    } else if IsBlocked(s) {
      BlockedWaits(s);
    } else if s.ch0.slot.item.value.size < 0 {
      NegativeTaken(s);
    } else if j.plans[0] == [] {
      FinishServes(j, items, before);
    } else {
      FrontLends(s, items[d], s.ch0.returned, j.plans[0][0]);
    }
  }

  lemma OneTransfer(j: Job, task: nat, input: seq<Read>, items: seq<Item>, before: seq<Item>)
    requires !IsOver(j) && Progress(j, items, before)
    ensures var j' := Transfer(j, task, input);
            && Progress(j', items, before)
            && (if task == Needed(j.s) then Effort(j') < Effort(j)
                else !IsOver(j') && Effort(j') == Effort(j) && Needed(j'.s) == Needed(j.s))
  {
    hide Step, Inv, Progress, Healthy;
    if task == WIRE {
      WireServes(j, input, items, before);
    } else if task == RESP {
      RespServes(j, items, before);
      HealthyProgress(j, items, before);
      BlockedIsTaken(j.s);
    } else if task == FRONT {
      FrontServes(j, items, before);
    }
  }

  // ----- in the ring

  predicate NoneExits(acts: seq<Sched.Act>) {
    forall a | a in acts :: a == Sched.Suspend
  }

  /** How many transfers a task d links ahead may have to wait. */
  ghost function Slack(n: nat, acts: seq<Sched.Act>, d: nat): nat {
    if NoneExits(acts) then d else Sched.Wait(n, d)
  }

  /** How many transfers bring everybody one turn. */
  ghost function Lap(n: nat, acts: seq<Sched.Act>): nat {
    if NoneExits(acts) then n else n + Sched.Triangle(n - 2)
  }

  lemma SlackInLap(n: nat, acts: seq<Sched.Act>, d: nat)
    requires d < n
    ensures Slack(n, acts, d) < Lap(n, acts)
  {
  }

  lemma {:induction false} TriangleGrows(a: int, b: int)
    requires a <= b
    ensures Sched.Triangle(a) <= Sched.Triangle(b)
    decreases b - a
  {
    if a < b {
      TriangleGrows(a, b - 1);
    }
  }

  lemma LapShrinks(n: nat, acts: seq<Sched.Act>, n': nat)
    requires n' <= n && acts != []
    ensures Lap(n', acts[1..]) <= Lap(n, acts)
  {
    assert forall a | a in acts[1..] :: a in acts;
    TriangleGrows(n' - 2, n - 2);
  }

  /** A task that does not run comes nearer. */
  lemma Nearer(order: seq<nat>, acts: seq<Sched.Act>, d: nat) returns (d': nat)
    requires 0 < d < |order| && acts != []
    ensures var next := Sched.Next(order, acts[0]);
            && d' < |next| && next[d'] == order[d] && |next| <= |order|
            && 1 + Slack(|next|, acts[1..], d') <= Slack(|order|, acts, d)
  {
    assert forall a | a in acts[1..] :: a in acts;
    if NoneExits(acts) {
      assert acts[0] in acts;
      d' := d - 1;
    } else {
      d' := Sched.OneStep(order, d, acts[0]);
    }
  }

  predicate HasAll(order: seq<nat>) {
    WIRE in order && FRONT in order && RESP in order
  }

  lemma AllStay(order: seq<nat>, act: Sched.Act)
    requires HasAll(order) && (order[0] in {WIRE, FRONT, RESP} ==> act.Suspend?)
    ensures HasAll(Sched.Next(order, act)) && |Sched.Next(order, act)| <= |order|
  {
    var next := Sched.Next(order, act);
    forall t | t in {WIRE, FRONT, RESP} ensures t in next {
      var d :| 0 <= d < |order| && order[d] == t;
      if act.Suspend? {
        assert next[if d == 0 then |order| - 1 else d - 1] == t;
      } else {
        var d' := Sched.OneStep(order, d, act);
      }
    }
  }

  lemma Laps(e': int, e: int, l': nat, l: nat)
    requires 0 < e' < e && l' <= l
    ensures (e' - 1) * l' + l <= (e - 1) * l
  {
    LapsLess(e' - 1, l', l);
    LapsMore(e', e - 1, l);
    assert (e' - 1) * l + l == e' * l;
  }

  lemma LapsMore(a: int, b: int, l: nat)
    requires a <= b
    ensures a * l <= b * l
  {
  }

  lemma {:induction false} Served(j: Job, order: seq<nat>, acts: seq<Sched.Act>, inputs: seq<seq<Read>>,
                                  items: seq<Item>, before: seq<Item>, d: nat)
    requires Progress(j, items, before) && HasAll(order) && |acts| == |inputs| && Serves(j, order, acts, inputs)
    requires IsOver(j) ||
             (d < |order| && order[d] == Needed(j.s)
              && |acts| > (Effort(j) - 1) * Lap(|order|, acts) + Slack(|order|, acts, d))
    ensures var j' := Play(j, order, acts, inputs); IsOver(j') && Progress(j', items, before)
    decreases |acts|
  {
    hide Progress, Healthy, Step, Inv, Slack, Lap, Transfer, Needed;
    HealthyProgress(j, items, before);
    if !IsOver(j) {
      var j', next, e := Transfer(j, order[0], inputs[0]), Sched.Next(order, acts[0]), Effort(j);
      EffortIsPositive(j);
      NotNegative(e - 1, Lap(|order|, acts));
      OneTransfer(j, order[0], inputs[0], items, before);
      AllStay(order, acts[0]);
      LapShrinks(|order|, acts, |next|);
      var d': nat := 0;
      if order[0] != Needed(j.s) {
        d' := Nearer(order, acts, d);
        LapsLess(e - 1, Lap(|next|, acts[1..]), Lap(|order|, acts));
      } else if !IsOver(j') {
        d' := Where(next, j'.s);
        SlackInLap(|next|, acts[1..], d');
        EffortIsPositive(j');
        Laps(Effort(j'), e, Lap(|next|, acts[1..]), Lap(|order|, acts));
      }
      Served(j', next, acts[1..], inputs[1..], items, before, d');
    }
  }

  lemma Where(order: seq<nat>, s: State) returns (d: nat)
    requires HasAll(order)
    ensures d < |order| && order[d] == Needed(s)
  {
    d :| 0 <= d < |order| && order[d] == Needed(s);
  }

  lemma NotNegative(a: int, b: nat)
    requires a >= 0
    ensures a * b >= 0
  {
  }

  lemma LapsLess(e: int, l': nat, l: nat)
    requires e >= 0 && l' <= l
    ensures e * l' <= e * l
  {
  }

  lemma EffortIsPositive(j: Job)
    requires !IsOver(j)
    ensures Effort(j) > 0
  {
  }

  lemma HealthyProgress(j: Job, items: seq<Item>, before: seq<Item>)
    requires Progress(j, items, before)
    ensures Healthy(j.s)
  {
  }

  /** No lend is kept, and no wrong size is missed. In any ring with these three tasks, whatever the other tasks do,
      and from every reachable state: when enough transfers have been made, each item was given back; or, if
      one of them is negative, the frontend has stopped. */
  lemma ReturnedInTime(j: Job, order: seq<nat>, acts: seq<Sched.Act>, inputs: seq<seq<Read>>,
                       items: seq<Item>, before: seq<Item>)
    requires Progress(j, items, before) && HasAll(order) && |acts| == |inputs| && Serves(j, order, acts, inputs)
    requires |acts| >= Effort(j) * Lap(|order|, acts)
    ensures var j' := Play(j, order, acts, inputs);
            if forall it | it in items :: it.size >= 0
            then j'.plans == [] && j'.s.ch0.returned == before + items && (items != [] ==> j'.s.ch0.slot.item.None?)
            else Stopped(j'.s)
  {
    hide Serves, Play, Lap, Slack, Healthy, Effort;
    var d := Where(order, j.s);
    SlackInLap(|order|, acts, d);
    if !IsOver(j) {
      var e := Effort(j);
      EffortIsPositive(j);
      assert (e - 1) * Lap(|order|, acts) + Lap(|order|, acts) == e * Lap(|order|, acts);
    }
    Served(j, order, acts, inputs, items, before, d);
    OverMeans(Play(j, order, acts, inputs), items, before);
  }

  lemma OverMeans(j: Job, items: seq<Item>, before: seq<Item>)
    requires IsOver(j) && Progress(j, items, before)
    ensures if forall it | it in items :: it.size >= 0
            then j.plans == [] && j.s.ch0.returned == before + items && (items != [] ==> j.s.ch0.slot.item.None?)
            else Stopped(j.s)
  {
    var d := |items| - |j.plans|;
    if j.plans != [] {
      assert items[d..][0] == items[d] && items[d] in items;
    } else {
      assert items[..d] == items;
      assert forall it | it in items :: it in j.s.ch0.returned;
    }
  }

  // ----- the frontend stops exactly if a frame runs back

  /** Whatever a job makes of its items, nothing more is read. */
  lemma {:induction false} PlayIsRun(j: Job, order: seq<nat>, acts: seq<Sched.Act>, inputs: seq<seq<Read>>,
                                     items: seq<Item>, before: seq<Item>) returns (ts: seq<Turn>)
    requires Progress(j, items, before) && |acts| == |inputs|
    ensures Run(j.s, ts) == Play(j, order, acts, inputs).s && EatenAll(j.s, ts) == []
    decreases |acts|
  {
    hide Progress, Inv, Step, EatenBy, Transfer;
    HealthyProgress(j, items, before);
    if IsOver(j) || order == [] || acts == [] {
      ts := [];
    } else {
      OneTransfer(j, order[0], inputs[0], items, before);
      var j', t := Transfer(j, order[0], inputs[0]), TurnOf(j, order[0], inputs[0]);
      var rest := PlayIsRun(j', Sched.Next(order, acts[0]), acts[1..], inputs[1..], items, before);
      TurnEats(j, order[0], inputs[0], items, before);
      if t.None? {
        ts := rest;
      } else {
        StepKeeps(j.s, t.value);
        ts := [t.value] + rest;
        assert ts[1..] == rest;
      }
    }
  }

  lemma TurnEats(j: Job, task: nat, input: seq<Read>, items: seq<Item>, before: seq<Item>)
    requires Progress(j, items, before) && !IsOver(j)
    ensures var t := TurnOf(j, task, input);
            Transfer(j, task, input).s == (if t.None? then j.s else Step(j.s, t.value))
            && (t.Some? ==> EatenBy(j.s, t.value) == [])
  {
    hide Step, Progress, Inv;
    HealthyProgress(j, items, before);
    if task == WIRE {
      WireServes(j, input, items, before);
    }
  }

  lemma {:induction false} RunSplit(s: State, a: seq<Turn>, b: seq<Turn>)
    requires Inv(s)
    ensures Inv(Run(s, a)) && Run(s, a + b) == Run(Run(s, a), b)
    ensures EatenAll(s, a + b) == EatenAll(s, a) + EatenAll(Run(s, a), b)
    decreases |a|
  {
    hide Step, EatenBy;
    if a == [] {
      assert a + b == b;
    } else {
      StepKeeps(s, a[0]);
      assert (a + b)[0] == a[0] && (a + b)[1..] == a[1..] + b;
      RunSplit(Step(s, a[0]), a[1..], b);
    }
  }

  lemma {:induction false} AllServe(j: Job, order: seq<nat>, acts: seq<Sched.Act>, inputs: seq<seq<Read>>)
    requires Healthy(j.s) && |acts| == |inputs| && NoneExits(acts)
    ensures Serves(j, order, acts, inputs)
    decreases |acts|
  {
    hide Transfer;
    if !IsOver(j) && order != [] && acts != [] {
      TransferKeeps(j, order[0], inputs[0]);
      assert acts[0] in acts && forall a | a in acts[1..] :: a in acts;
      AllServe(Transfer(j, order[0], inputs[0]), Sched.Next(order, acts[0]), acts[1..], inputs[1..]);
    }
  }

  /** A job that serves everything lent or about to be, in a reachable state. */
  ghost function JobAfter(sc: bool, m: W.State, ts: seq<Turn>, plans: seq<seq<nat>>): (j: Job)
    ensures Healthy(j.s)
  {
    RunHealthy(Initial(sc, m), ts);
    Job(Run(Initial(sc, m), ts), plans)
  }

  lemma AheadIsNegative(sc: bool, m: W.State, ts: seq<Turn>)
    requires m.cs == W.Start
    ensures var s, chunks := Run(Initial(sc, m), ts), EatenAll(Initial(sc, m), ts);
            RunsBack(sc, chunks) <==> exists it :: it in Ahead(s) && it.size < 0
  {
    hide W.Flatten, F.All, Run, EatenAll, RunsBack, ItemsOf;
    var s, chunks := Run(Initial(sc, m), ts), EatenAll(Initial(sc, m), ts);
    TakesExactly(sc, m, ts);
    SomeNegative(sc, chunks);
    RunHealthy(Initial(sc, m), ts);
    NotBack(s);
  }

  lemma NotBack(s: State)
    requires Healthy(s)
    ensures (exists it :: it in s.ch0.lent + Rest(s.wire) && it.size < 0)
       <==> exists it :: it in Ahead(s) && it.size < 0
  {
    assert forall it :: it in s.ch0.lent + Rest(s.wire) <==> it in s.ch0.returned || it in Ahead(s);
  }

  /** In every ring, under every schedule, after enough transfers and without further reads: the frontend has
      stopped if and only if a good frame of the bytes read runs back. */
  lemma StopsInTime(sc: bool, m: W.State, ts: seq<Turn>, plans: seq<seq<nat>>,
                    order: seq<nat>, acts: seq<Sched.Act>, inputs: seq<seq<Read>>)
    requires m.cs == W.Start && |plans| == |Ahead(JobAfter(sc, m, ts, plans).s)| && HasAll(order)
    requires |acts| == |inputs| && Serves(JobAfter(sc, m, ts, plans), order, acts, inputs)
    requires |acts| >= Effort(JobAfter(sc, m, ts, plans)) * Lap(|order|, acts)
    ensures Stopped(Play(JobAfter(sc, m, ts, plans), order, acts, inputs).s)
       <==> RunsBack(sc, EatenAll(Initial(sc, m), ts))
  {
    hide Run, EatenAll, RunsBack, Serves, Lap, Effort, Inv, Play, Healthy, Ahead;
    AheadIsNegative(sc, m, ts);
    JobStops(JobAfter(sc, m, ts, plans), order, acts, inputs);
  }

  lemma JobStops(j: Job, order: seq<nat>, acts: seq<Sched.Act>, inputs: seq<seq<Read>>)
    requires Healthy(j.s) && |j.plans| == |Ahead(j.s)| && HasAll(order)
    requires |acts| == |inputs| && Serves(j, order, acts, inputs) && |acts| >= Effort(j) * Lap(|order|, acts)
    ensures Stopped(Play(j, order, acts, inputs).s) <==> exists it :: it in Ahead(j.s) && it.size < 0
  {
    hide Serves, Lap, Effort, Inv, Play, Healthy, Ahead;
    var items, before := Ahead(j.s), j.s.ch0.returned;
    assert before + items[..0] == before && items[0..] == items;
    ReturnedInTime(j, order, acts, inputs, items, before);
    if forall it | it in items :: it.size >= 0 {
      NotStopped(j, order, acts, inputs, items, before);
    }
  }

  lemma NotStopped(j: Job, order: seq<nat>, acts: seq<Sched.Act>, inputs: seq<seq<Read>>,
                   items: seq<Item>, before: seq<Item>)
    requires Progress(j, items, before) && items == Ahead(j.s) && |j.plans| == |items| && |acts| == |inputs|
    requires items != [] ==> Play(j, order, acts, inputs).s.ch0.slot.item.None?
    ensures !Stopped(Play(j, order, acts, inputs).s)
  {
    hide Step, Transfer;
    var ts := PlayIsRun(j, order, acts, inputs, items, before);
    RunKeeps(j.s, ts);
    NothingBorrowed(j.s);
    NothingBorrowed(Run(j.s, ts));
  }

  lemma NothingBorrowed(s: State)
    requires Inv(s)
    ensures s.ch0.slot.item.None? ==> !s.ch0.slot.borrowed
  {
  }

  lemma AtRest(sc: bool, m: W.State, ts: seq<Turn>) returns (later: seq<Turn>)
    requires m.cs == W.Start && RunsBack(sc, EatenAll(Initial(sc, m), ts))
    ensures var s := Run(Initial(sc, m), ts);
            Inv(s) && EatenAll(s, later) == [] && Stopped(Run(s, later))
  {
    hide Run, EatenAll, RunsBack, Play, Serves, Inv, Lap;
    var plans := seq(|Ahead(JobAfter(sc, m, ts, []).s)|, i => []);
    var j := JobAfter(sc, m, ts, plans);
    var order, n := [WIRE, FRONT, RESP], if Effort(j) < 0 then 0 else 3 * Effort(j);
    var acts, inputs := seq(n, i => Sched.Suspend), seq(n, i => []);
    assert order[0] == WIRE && order[1] == FRONT && order[2] == RESP;
    AllServe(j, order, acts, inputs);
    assert Lap(|order|, acts) == 3 by {
      ThreeTasks(acts);
    }
    StopsInTime(sc, m, ts, plans, order, acts, inputs);
    var items, before := Ahead(j.s), j.s.ch0.returned;
    assert before + items[..0] == before && items[0..] == items;
    later := PlayIsRun(j, order, acts, inputs, items, before);
  }

  lemma ThreeTasks(acts: seq<Sched.Act>)
    requires NoneExits(acts)
    ensures Lap(3, acts) == 3
  {
  }

  /** Over all runs: what is lent, and still to be lent, are the items of the frames read. The frontend has
      stopped for good exactly if it has taken an item of negative size. What was read decides it: without
      reading more it comes to that if and only if a good frame runs back; and then, whatever else is
      done, the wire task never comes to its end. */
  lemma StopsExactly(sc: bool, m: W.State, ts: seq<Turn>)
    requires m.cs == W.Start
    ensures var s, chunks := Run(Initial(sc, m), ts), EatenAll(Initial(sc, m), ts);
            && (forall f | f in F.All(W.Flatten(chunks), 0) :: f.end + 1 < |W.Flatten(chunks)|)
            && s.ch0.lent + Rest(s.wire) == ItemsOf(sc, chunks)
            && (Stopped(s) <==> exists it :: it in s.ch0.taken && it.size < 0)
            && (Stopped(s) ==> RunsBack(sc, chunks))
            && (RunsBack(sc, chunks) ==> !s.wire.WireGone?)
            && Inv(s)
            && (RunsBack(sc, chunks) <==> exists later :: EatenAll(s, later) == [] && Stopped(Run(s, later)))
  {
    hide W.Flatten, F.All, Run, EatenAll, RunsBack, ItemsOf, Step;
    var s0 := Initial(sc, m);
    var s, chunks := Run(s0, ts), EatenAll(s0, ts);
    TakesExactly(sc, m, ts);
    RunKeeps(s0, ts);
    if RunsBack(sc, chunks) {
      var later := AtRest(sc, m, ts);
    }
    if later :| EatenAll(s, later) == [] && Stopped(Run(s, later)) {
      RunSplit(s0, ts, later);
      TakesExactly(sc, m, ts + later);
      assert chunks + [] == chunks;
    }
  }
}
