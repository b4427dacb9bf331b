/** Wire task, frontend and autoresponder over slots 0 and 1; one step is one run of one task
    from a resumption to its next suspension. */
module Pipeline {
  import opened Bytes
  import opened Slots
  import W = Wire
  import F = Frames

  /** Where each task is suspended. `rest` is what the current chunk still makes the wire task lend. */
  datatype Wire = Reading | Lending(rest: seq<Item>) | WireGone
  datatype Front = FrontNew | FrontWaiting | FrontWriting(item: Item) | FrontLending(item: Item) | FrontGone
  datatype Resp = RespNew | RespWaiting | RespWriting(item: Item) | RespGone

  /** `m` is the frame machine of the wire task, `signedChar` the platform's choice it depends on.
      `torn`: the read buffer was refilled while somebody held a pointer into it. */
  datatype State = State(signedChar: bool, m: W.State, wire: Wire, front: Front, resp: Resp,
                         ch0: Channel, ch1: Channel, torn: bool)

  function Initial(signedChar: bool, m: W.State): State {
    State(signedChar, m, Reading, FrontNew, RespNew, EMPTY, EMPTY, false)
  }

  predicate Held(s: State) {
    || s.ch0.slot.item.Some? || s.ch1.slot.item.Some?
    || s.front.FrontWriting? || s.front.FrontLending? || s.resp.RespWriting?
  }

  // ----- fsm_wireformat

  /** A result of `read`: end of file or error, or the bytes of a chunk. */
  datatype Read = Eof | Chunk(bytes: seq<byte>)

  /** The argument of `sus_lend`: the one-byte literal, or the buffer from its beginning. */
  function ItemOf(l: W.Lent): Item {
    if l.Nok? then Item(Literal, 0, 1) else Item(ReadBuffer, 0, l.size)
  }

  function Items(ls: seq<W.Lent>): seq<Item> {
    seq(|ls|, i requires 0 <= i < |ls| => ItemOf(ls[i]))
  }

  /** The machine over one chunk, and what it will lend. */
  function Machine(s: State, bytes: seq<byte>): W.Effect {
    W.Exec(s.signedChar, s.m, bytes, 0)
  }

  /** The read loop, until a lend or a read that has to wait. */
  function WireReads(s: State, input: seq<Read>): State
    decreases |input|
  {
    if input == [] then s.(wire := Reading)
    else match input[0]
      case Eof => s.(wire := WireGone, ch0 := Disable(s.ch0))
      case Chunk(bytes) =>
        var e := Machine(s, bytes);
        var s' := s.(m := e.w, torn := s.torn || Held(s));
        if e.lent == [] then WireReads(s', input[1..]) else WireLends(s', Items(e.lent))
  }

  function WireLends(s: State, items: seq<Item>): State
    requires items != []
  {
    s.(wire := Lending(items[1..]), ch0 := Lend(s.ch0, items[0]))
  }

  function WireStep(s: State, input: seq<Read>): State {
    match s.wire
    case Reading => WireReads(s, input)
    case Lending(rest) =>
      if s.ch0.slot.item.Some? then s
      else if rest == [] then WireReads(s, input)
      else WireLends(s, rest)
    case WireGone => s
  }

  // ----- fsm_frontend_foreign

  /** What `fsm_exec` does next with the range it was given: wait in `sus_write`, lend the range from
      `offset` on, or come to its end. */
  datatype Exec = Write | LendFrom(offset: nat) | Finish

  function Suffix(it: Item, offset: nat): Item
    requires it.size >= 0
  {
    var k := if offset <= it.size then offset else it.size;
    Item(it.base, it.offset + k, it.size - k)
  }

  /** `fsm_exec` on a borrowed range, up to a suspension or through `sus_return`. */
  function FrontExec(s: State, it: Item, acts: seq<Exec>): State
    requires it.size >= 0
    decreases |acts|, 0
  {
    if acts == [] || acts[0] == Write then s.(front := FrontWriting(it))
    else if acts[0].LendFrom? then s.(front := FrontLending(it), ch1 := Lend(s.ch1, Suffix(it, acts[0].offset)))
    else
      var c := Return(s.ch0, it);
      FrontGot(s.(ch0 := Entered(c)), Enter(c), acts[1..])
  }

  /** The `while` of the frontend: a negative size ends it, as -1 does. */
  function FrontGot(s: State, r: Borrowing, acts: seq<Exec>): State
    decreases |acts|, 1
  {
    match r
    case Blocked => s.(front := FrontWaiting)
    case Gone => s.(front := FrontGone, ch1 := Disable(s.ch1))
    case Got(it) =>
      if it.size < 0 then s.(front := FrontGone, ch1 := Disable(s.ch1)) else FrontExec(s, it, acts)
  }

  function FrontStep(s: State, acts: seq<Exec>): State
    requires s.front.FrontWriting? || s.front.FrontLending? ==> s.front.item.size >= 0
  {
    match s.front
    case FrontNew => FrontGot(s.(ch0 := Entered(s.ch0)), Enter(s.ch0), acts)
    case FrontWaiting => FrontGot(s.(ch0 := Looked(s.ch0)), Look(s.ch0), acts)
    case FrontWriting(it) => FrontExec(s, it, acts)
    case FrontLending(it) => if s.ch1.slot.item.Some? then s else FrontExec(s, it, acts)
    case FrontGone => s
  }

  // ----- autoresponder

  /** Whether `sus_write` waits before the item is returned. */
  function RespGot(s: State, r: Borrowing, waits: seq<bool>): State
    decreases |waits|, 1
  {
    match r
    case Blocked => s.(resp := RespWaiting)
    case Gone => s.(resp := RespGone)
    case Got(it) => if it.size < 0 then s.(resp := RespGone) else RespWork(s, it, waits)
  }

  function RespWork(s: State, it: Item, waits: seq<bool>): State
    decreases |waits|, 0
  {
    if waits == [] || waits[0] then s.(resp := RespWriting(it))
    else
      var c := Return(s.ch1, it);
      RespGot(s.(ch1 := Entered(c)), Enter(c), waits[1..])
  }

  function RespStep(s: State, waits: seq<bool>): State {
    match s.resp
    case RespNew => RespGot(s.(ch1 := Entered(s.ch1)), Enter(s.ch1), waits)
    case RespWaiting => RespGot(s.(ch1 := Looked(s.ch1)), Look(s.ch1), waits)
    case RespWriting(it) => RespWork(s, it, waits)
    case RespGone => s
  }

  // ----- all runs

  datatype Turn = WireTurn(input: seq<Read>) | FrontTurn(acts: seq<Exec>) | RespTurn(waits: seq<bool>)

  /** Whichever task the scheduler resumes, and whatever it meets. */
  function Step(s: State, t: Turn): State
    requires s.front.FrontWriting? || s.front.FrontLending? ==> s.front.item.size >= 0
  {
    match t
    case WireTurn(input) => WireStep(s, input)
    case FrontTurn(acts) => FrontStep(s, acts)
    case RespTurn(waits) => RespStep(s, waits)
  }

  function Phase0(s: State): Phase {
    if s.ch0.slot.item.None? then Idle else if s.ch0.slot.borrowed then Slots.Held else Offered
  }

  function Phase1(s: State): Phase {
    if s.ch1.slot.item.None? then Idle else if s.ch1.slot.borrowed then Slots.Held else Offered
  }

  ghost predicate Inv(s: State) {
    && !s.torn
    && In(s.ch0, Phase0(s)) && In(s.ch1, Phase1(s))
    // slot 0: the lender
    && (s.ch0.slot.item.Some? ==> s.wire.Lending?)
    && (s.ch0.slot.disabled <==> s.wire.WireGone?)
    // slot 0: the borrower
    && (match s.front
        case FrontNew => !s.ch0.slot.borrowed
        case FrontWaiting => !s.ch0.slot.borrowed
        case FrontWriting(it) => s.ch0.slot.borrowed && s.ch0.slot.item == Some(it) && it.size >= 0
        case FrontLending(it) => s.ch0.slot.borrowed && s.ch0.slot.item == Some(it) && it.size >= 0
        case FrontGone => s.ch0.slot.borrowed ==> s.ch0.slot.item.value.size < 0)
    // slot 1: the lender, who lends only what it has borrowed
    && (s.ch1.slot.item.Some? ==>
          s.front.FrontLending? && exists k :: s.ch1.slot.item.value == Suffix(s.front.item, k))
    && (s.ch1.slot.disabled <==> s.front.FrontGone?)
    // slot 1: the borrower
    && (match s.resp
        case RespNew => !s.ch1.slot.borrowed
        case RespWaiting => !s.ch1.slot.borrowed
        case RespWriting(it) => s.ch1.slot.borrowed && s.ch1.slot.item == Some(it)
        case RespGone => s.ch1.slot.item.None? && s.ch1.slot.disabled)
  }

  function Run(s: State, ts: seq<Turn>): State
    requires Inv(s)
    decreases |ts|
  {
    if ts == [] then s
    else
      StepKeeps(s, ts[0]);
      Run(Step(s, ts[0]), ts[1..])
  }

  lemma StepKeeps(s: State, t: Turn)
    requires Inv(s)
    ensures Inv(Step(s, t))
  {
    match t {
      case WireTurn(input) =>
        if s.wire.Reading? || (s.wire.Lending? && s.ch0.slot.item.None? && s.wire.rest == []) {
          WireReadsKeeps(s, input);
        }
      case FrontTurn(acts) =>
        FrontStepKeeps(s, acts);
      case RespTurn(waits) =>
        RespStepKeeps(s, waits);
    }
  }

  lemma {:induction false} WireReadsKeeps(s: State, input: seq<Read>)
    requires Inv(s) && !s.wire.WireGone? && s.ch0.slot.item.None?
    ensures Inv(WireReads(s, input))
    decreases |input|
  {
    if input != [] && input[0].Chunk? {
      var e := Machine(s, input[0].bytes);
      if e.lent == [] {
        WireReadsKeeps(s.(m := e.w), input[1..]);
      }
    }
  }

  lemma FrontStepKeeps(s: State, acts: seq<Exec>)
    requires Inv(s)
    ensures Inv(FrontStep(s, acts))
  {
    match s.front
    case FrontNew =>
      FrontGotKeeps(s.(ch0 := Entered(s.ch0)), Enter(s.ch0), acts);
    case FrontWaiting =>
      FrontGotKeeps(s.(ch0 := Looked(s.ch0)), Look(s.ch0), acts);
    case FrontWriting(it) =>
      FrontExecKeeps(s, it, acts);
    case FrontLending(it) =>
      if s.ch1.slot.item.None? {
        FrontExecKeeps(s, it, acts);
      }
    case FrontGone =>
  }

  /** Just out of `sus_borrow` on slot 0. */
  ghost predicate OutOfBorrow(s: State, r: Borrowing) {
    match r
    case Blocked => Inv(s.(front := FrontWaiting))
    case Gone => Inv(s.(front := FrontWaiting)) && s.ch0.slot.disabled
    case Got(it) => Inv(s.(front := if it.size < 0 then FrontGone else FrontWriting(it),
                           ch1 := if it.size < 0 then Disable(s.ch1) else s.ch1))
  }

  /** After its own return the frontend always has to wait: nobody has lent meanwhile. */
  lemma FrontExecKeeps(s: State, it: Item, acts: seq<Exec>)
    requires it.size >= 0 && Inv(s.(front := FrontWriting(it)))
    ensures Inv(FrontExec(s, it, acts))
  {
    if acts != [] && acts[0].Finish? {
      assert Enter(Return(s.ch0, it)) == Blocked;
    }
  }

  lemma FrontGotKeeps(s: State, r: Borrowing, acts: seq<Exec>)
    requires OutOfBorrow(s, r)
    ensures Inv(FrontGot(s, r, acts))
  {
    if r.Got? && r.item.size >= 0 {
      FrontExecKeeps(s, r.item, acts);
    }
  }

  lemma RespStepKeeps(s: State, waits: seq<bool>)
    requires Inv(s)
    ensures Inv(RespStep(s, waits))
  {
    match s.resp
    case RespNew =>
      RespGotKeeps(s.(ch1 := Entered(s.ch1)), Enter(s.ch1), waits);
    case RespWaiting =>
      RespGotKeeps(s.(ch1 := Looked(s.ch1)), Look(s.ch1), waits);
    case RespWriting(it) =>
      RespWorkKeeps(s, it, waits);
    case RespGone =>
  }

  lemma RespWorkKeeps(s: State, it: Item, waits: seq<bool>)
    requires Inv(s.(resp := RespWriting(it)))
    ensures Inv(RespWork(s, it, waits))
  {
    if waits != [] && !waits[0] {
      assert Enter(Return(s.ch1, it)) == Blocked;
    }
  }

  lemma RespGotKeeps(s: State, r: Borrowing, waits: seq<bool>)
    requires match r
             case Blocked => Inv(s.(resp := RespWaiting))
             case Gone => Inv(s.(resp := RespWaiting)) && s.ch1.slot.disabled && s.ch1.slot.item.None?
             case Got(it) => Inv(s.(resp := RespWriting(it))) && it.size >= 0
    ensures Inv(RespGot(s, r, waits))
  {
    if r.Got? {
      RespWorkKeeps(s, r.item, waits);
    }
  }

  lemma {:induction false} RunKeeps(s: State, ts: seq<Turn>)
    requires Inv(s)
    ensures Inv(Run(s, ts))
    decreases |ts|
  {
    if ts != [] {
      StepKeeps(s, ts[0]);
      RunKeeps(Step(s, ts[0]), ts[1..]);
    }
  }

  // ----- what it means

  /** Ownership, over all runs: an occupied slot 1 means the frontend stands in its lend holding slot 0,
      an occupied slot 0 means the wire task stands in its lend; nobody holds a pointer into the read
      buffer while it can be refilled, it never was, and no assertion of lend, borrow or return failed. */
  lemma Ownership(sc: bool, m: W.State, ts: seq<Turn>)
    ensures var s := Run(Initial(sc, m), ts);
            && (s.ch1.slot.item.Some? ==> s.front.FrontLending? && s.ch0.slot.borrowed)
            && (s.ch0.slot.item.Some? ==> s.wire.Lending?)
            && (s.wire.Reading? ==> !Held(s))
            && !s.torn && !s.ch0.failed && !s.ch1.failed
  {
    RunKeeps(Initial(sc, m), ts);
  }

  /** What the autoresponder reads lies inside what the wire task lent. */
  lemma BorrowedInside(sc: bool, m: W.State, ts: seq<Turn>)
    ensures var s := Run(Initial(sc, m), ts);
            s.ch1.slot.item.Some? ==>
              && s.ch0.slot.item.Some?
              && var outer, inner := s.ch0.slot.item.value, s.ch1.slot.item.value;
                 && inner.base == outer.base && outer.offset <= inner.offset
                 && inner.offset + inner.size == outer.offset + outer.size && inner.size >= 0
  {
    RunKeeps(Initial(sc, m), ts);
  }

  predicate Covers(it: Item, x: int) {
    it.offset <= x < it.offset + it.size
  }

  /** What the frontend lends on from an offset are exactly the places of its range from there on. */
  lemma LentFrom(s: State, it: Item, offset: nat, acts: seq<Exec>)
    requires it.size >= 0
    ensures var s' := FrontExec(s, it, [LendFrom(offset)] + acts);
            && s'.front == FrontLending(it) && s'.ch0 == s.ch0 && s'.ch1.slot.item.Some?
            && var lent := s'.ch1.slot.item.value;
               && s'.ch1.lent == s.ch1.lent + [lent]
               && lent.base == it.base && lent.size >= 0 && lent.offset + lent.size == it.offset + it.size
               && forall x :: Covers(lent, x) <==> Covers(it, x) && x >= it.offset + offset
  {
  }

  /** Exactly-once delivery on both slots, over all runs. A lender past its lend has everything back. */
  lemma Delivery(sc: bool, m: W.State, ts: seq<Turn>)
    ensures var s := Run(Initial(sc, m), ts);
            && Delivers(s.ch0) && Delivers(s.ch1)
            && (!s.wire.Lending? ==> s.ch0.lent == s.ch0.returned)
            && (!s.front.FrontLending? ==> s.ch1.lent == s.ch1.returned)
  {
    RunKeeps(Initial(sc, m), ts);
    var s := Run(Initial(sc, m), ts);
    PhaseDelivers(s.ch0, Phase0(s));
    PhaseDelivers(s.ch1, Phase1(s));
  }

  /** `sus_lend` returns in a step only if its own item has come back before that step. */
  lemma LendReturnsLast(s: State, t: Turn)
    requires Inv(s)
    ensures s.wire.Lending? && Step(s, t).wire != s.wire ==> s.ch0.returned == s.ch0.lent
    ensures s.front.FrontLending? && Step(s, t).front != s.front ==> s.ch1.returned == s.ch1.lent
  {
    match t
    case WireTurn(input) =>
      WireLeavesFront(s, input);
    case FrontTurn(acts) =>
      FrontLeavesWire(s, acts);
    case RespTurn(waits) =>
      RespLeavesFront(s, waits);
  }

  lemma {:induction false} FrontGotLeaves(s: State, r: Borrowing, acts: seq<Exec>)
    ensures FrontGot(s, r, acts).wire == s.wire && FrontGot(s, r, acts).resp == s.resp
    decreases |acts|
  {
    if r.Got? && r.item.size >= 0 && acts != [] && acts[0].Finish? {
      var c := Return(s.ch0, r.item);
      FrontGotLeaves(s.(ch0 := Entered(c)), Enter(c), acts[1..]);
    }
  }

  lemma FrontLeavesWire(s: State, acts: seq<Exec>)
    requires Inv(s)
    ensures FrontStep(s, acts).wire == s.wire && FrontStep(s, acts).resp == s.resp
  {
    match s.front
    case FrontNew => FrontGotLeaves(s.(ch0 := Entered(s.ch0)), Enter(s.ch0), acts);
    case FrontWaiting => FrontGotLeaves(s.(ch0 := Looked(s.ch0)), Look(s.ch0), acts);
    case FrontWriting(_) => FrontGotLeaves(s, Got(s.front.item), acts);
    case FrontLending(_) => FrontGotLeaves(s, Got(s.front.item), acts);
    case FrontGone =>
  }

  lemma {:induction false} RespGotLeaves(s: State, r: Borrowing, waits: seq<bool>)
    ensures RespGot(s, r, waits) == s.(resp := RespGot(s, r, waits).resp, ch1 := RespGot(s, r, waits).ch1)
    decreases |waits|
  {
    if r.Got? && waits != [] && !waits[0] {
      var c := Return(s.ch1, r.item);
      RespGotLeaves(s.(ch1 := Entered(c)), Enter(c), waits[1..]);
    }
  }

  /** The autoresponder touches nothing but itself and slot 1. */
  lemma RespLeavesFront(s: State, waits: seq<bool>)
    ensures RespStep(s, waits) == s.(resp := RespStep(s, waits).resp, ch1 := RespStep(s, waits).ch1)
  {
    match s.resp
    case RespNew => RespGotLeaves(s.(ch1 := Entered(s.ch1)), Enter(s.ch1), waits);
    case RespWaiting => RespGotLeaves(s.(ch1 := Looked(s.ch1)), Look(s.ch1), waits);
    case RespWriting(it) =>
      if waits != [] && !waits[0] {
        var c := Return(s.ch1, it);
        RespGotLeaves(s.(ch1 := Entered(c)), Enter(c), waits[1..]);
      }
    case RespGone =>
  }

  /** After the final `sus_disable` of slot 0 nothing is undelivered, nothing is lent any more, and
      every later borrow, at its entry or in its wait loop, gives -1. */
  lemma {:induction false} WireGoneForGood(s: State, ts: seq<Turn>)
    requires Inv(s) && s.wire.WireGone?
    ensures var s' := Run(s, ts);
            && s'.wire.WireGone?
            && s'.ch0.lent == s.ch0.lent == s.ch0.returned == s'.ch0.returned
            && Look(s'.ch0) == Gone == Enter(s'.ch0)
    decreases |ts|
  {
    if ts != [] {
      StepKeeps(s, ts[0]);
      if ts[0].RespTurn? {
        RespLeavesFront(s, ts[0].waits);
      }
      assert Step(s, ts[0]).ch0 == s.ch0;
      WireGoneForGood(Step(s, ts[0]), ts[1..]);
    }
  }

  lemma {:induction false} FrontGoneForGood(s: State, ts: seq<Turn>)
    requires Inv(s) && s.front.FrontGone?
    ensures var s' := Run(s, ts);
            && s'.front.FrontGone?
            && s'.ch1.lent == s.ch1.lent == s.ch1.returned == s'.ch1.returned
            && Look(s'.ch1) == Gone == Enter(s'.ch1)
    decreases |ts|
  {
    if ts != [] {
      var t := Step(s, ts[0]);
      StepKeeps(s, ts[0]);
      if ts[0].RespTurn? {
        RespLeavesFront(s, ts[0].waits);
      } else if ts[0].WireTurn? {
        WireLeavesFront(s, ts[0].input);
      }
      assert t.ch1.lent == s.ch1.lent;
      FrontGoneForGood(t, ts[1..]);
    }
  }

  /** An item of negative size, as a frame begun in an earlier read can give: the frontend takes it for the
      end, and leaves with slot 0 borrowed. */
  lemma NegativeSizeStops(s: State, acts: seq<Exec>)
    requires Inv(s) && s.ch0.slot.item.Some? && s.ch0.slot.item.value.size < 0
    requires s.front.FrontNew? || s.front.FrontWaiting?
    ensures var s' := FrontStep(s, acts);
            s'.front.FrontGone? && s'.ch0.slot.borrowed && s'.wire == s.wire && s'.wire.Lending?
  {
    FrontLeavesWire(s, acts);
  }

  /** From then on the wire task waits in its lend for ever: nothing is read or lent again. */
  lemma {:induction false} StuckForever(s: State, ts: seq<Turn>)
    requires Inv(s) && s.front.FrontGone? && s.ch0.slot.borrowed
    ensures var s' := Run(s, ts); s'.ch0 == s.ch0 && s'.wire == s.wire && s'.m == s.m
    decreases |ts|
  {
    if ts != [] {
      StepKeeps(s, ts[0]);
      if ts[0].RespTurn? {
        RespLeavesFront(s, ts[0].waits);
      }
      StuckForever(Step(s, ts[0]), ts[1..]);
    }
  }

  lemma {:induction false} WireReadsLeaves(s: State, input: seq<Read>)
    ensures WireReads(s, input).front == s.front && WireReads(s, input).ch1 == s.ch1
            && WireReads(s, input).resp == s.resp
    decreases |input|
  {
    if input != [] && input[0].Chunk? {
      WireReadsLeaves(s.(m := Machine(s, input[0].bytes).w, torn := s.torn || Held(s)), input[1..]);
    }
  }

  lemma WireLeavesFront(s: State, input: seq<Read>)
    ensures WireStep(s, input).front == s.front && WireStep(s, input).ch1 == s.ch1 && WireStep(s, input).resp == s.resp
  {
    WireReadsLeaves(s, input);
  }

  // ----- from bytes to deliveries

  function Rest(w: Wire): seq<Item> {
    if w.Lending? then w.rest else []
  }

  /** The chunks one turn of the wire task reads. */
  function Eaten(s: State, input: seq<Read>): seq<seq<byte>>
    decreases |input|
  {
    if input == [] || input[0].Eof? then []
    else
      var e := Machine(s, input[0].bytes);
      [input[0].bytes] + if e.lent == [] then Eaten(s.(m := e.w), input[1..]) else []
  }

  function EatenBy(s: State, t: Turn): seq<seq<byte>> {
    if t.WireTurn? && (s.wire.Reading? || (s.wire.Lending? && s.ch0.slot.item.None? && s.wire.rest == []))
    then Eaten(s, t.input) else []
  }

  function EatenAll(s: State, ts: seq<Turn>): seq<seq<byte>>
    requires Inv(s)
    decreases |ts|
  {
    if ts == [] then []
    else
      StepKeeps(s, ts[0]);
      EatenBy(s, ts[0]) + EatenAll(Step(s, ts[0]), ts[1..])
  }

  lemma ItemsConcat(a: seq<W.Lent>, b: seq<W.Lent>)
    ensures Items(a + b) == Items(a) + Items(b)
  {
  }

  lemma {:induction false} ReadsAccount(s: State, input: seq<Read>)
    ensures var s', e := WireReads(s, input), W.ExecAll(s.signedChar, s.m, Eaten(s, input));
            && s'.m == e.w && s'.signedChar == s.signedChar
            && s'.ch0.lent + Rest(s'.wire) == s.ch0.lent + Items(e.lent)
    decreases |input|
  {
    hide W.Exec;
    if input != [] && input[0].Chunk? {
      var e := Machine(s, input[0].bytes);
      var chunks := Eaten(s, input);
      assert chunks[1..] == if e.lent == [] then Eaten(s.(m := e.w), input[1..]) else [];
      if e.lent == [] {
        var s1 := s.(m := e.w, torn := s.torn || Held(s));
        EatenForgets(s1, s.(m := e.w), input[1..]);
        ReadsAccount(s1, input[1..]);
      } else {
        assert W.ExecAll(s.signedChar, s.m, chunks).lent == e.lent;
        assert Items(e.lent) == [ItemOf(e.lent[0])] + Items(e.lent)[1..];
      }
    }
  }

  lemma {:induction false} EatenForgets(s: State, s': State, input: seq<Read>)
    requires s.m == s'.m && s.signedChar == s'.signedChar
    ensures Eaten(s, input) == Eaten(s', input)
    decreases |input|
  {
    if input != [] && input[0].Chunk? {
      var e := Machine(s, input[0].bytes);
      EatenForgets(s.(m := e.w), s'.(m := e.w), input[1..]);
    }
  }

  /** In one step of any task, what was lent and is still to be lent grows by the lends of the bytes read. */
  lemma StepAccounts(s: State, t: Turn)
    requires Inv(s)
    ensures var s', e := Step(s, t), W.ExecAll(s.signedChar, s.m, EatenBy(s, t));
            && s'.m == e.w && s'.signedChar == s.signedChar
            && s'.ch0.lent + Rest(s'.wire) == s.ch0.lent + Rest(s.wire) + Items(e.lent)
  {
    hide W.ExecAll, WireReads, Eaten, FrontStep, RespStep;
    NoChunks(s.signedChar, s.m);
    NothingAdded(s.ch0.lent + Rest(s.wire));
    match t
    case WireTurn(input) =>
      WireAccounts(s, input);
    case FrontTurn(acts) =>
      FrontLeavesWire(s, acts);
      FrontKeepsLent(s, acts);
    case RespTurn(waits) =>
      RespLeavesFront(s, waits);
  }

  lemma NothingAdded(items: seq<Item>)
    ensures items + Items([]) == items
  {
  }

  lemma WireAccounts(s: State, input: seq<Read>)
    requires Inv(s)
    ensures var s', e := WireStep(s, input), W.ExecAll(s.signedChar, s.m, EatenBy(s, WireTurn(input)));
            && s'.m == e.w && s'.signedChar == s.signedChar
            && s'.ch0.lent + Rest(s'.wire) == s.ch0.lent + Rest(s.wire) + Items(e.lent)
  {
    hide W.ExecAll, WireReads, Eaten;
    NoChunks(s.signedChar, s.m);
    NothingAdded(s.ch0.lent + Rest(s.wire));
    if s.wire.Reading? || (s.wire.Lending? && s.ch0.slot.item.None? && s.wire.rest == []) {
      ReadsAccount(s, input);
      assert s.ch0.lent + Rest(s.wire) == s.ch0.lent;
    } else if s.wire.Lending? && s.ch0.slot.item.None? {
      var rest := s.wire.rest;
      assert s.ch0.lent + rest == s.ch0.lent + [rest[0]] + rest[1..];
    }
  }

  lemma {:induction false} FrontGotKeepsLent(s: State, r: Borrowing, acts: seq<Exec>)
    ensures var s' := FrontGot(s, r, acts);
            s'.ch0.lent == s.ch0.lent && s'.m == s.m && s'.signedChar == s.signedChar
    decreases |acts|
  {
    if r.Got? && r.item.size >= 0 && acts != [] && acts[0].Finish? {
      var c := Return(s.ch0, r.item);
      FrontGotKeepsLent(s.(ch0 := Entered(c)), Enter(c), acts[1..]);
    }
  }

  lemma FrontKeepsLent(s: State, acts: seq<Exec>)
    requires Inv(s)
    ensures var s' := FrontStep(s, acts);
            s'.ch0.lent == s.ch0.lent && s'.m == s.m && s'.signedChar == s.signedChar
  {
    match s.front
    case FrontNew => FrontGotKeepsLent(s.(ch0 := Entered(s.ch0)), Enter(s.ch0), acts);
    case FrontWaiting => FrontGotKeepsLent(s.(ch0 := Looked(s.ch0)), Look(s.ch0), acts);
    case FrontWriting(_) => FrontGotKeepsLent(s, Got(s.front.item), acts);
    case FrontLending(_) => FrontGotKeepsLent(s, Got(s.front.item), acts);
    case FrontGone =>
  }

  lemma {:induction false} ExecAllConcat(sc: bool, m: W.State, a: seq<seq<byte>>, b: seq<seq<byte>>)
    ensures var e := W.ExecAll(sc, m, a);
            var d := W.ExecAll(sc, e.w, b);
            W.ExecAll(sc, m, a + b) == W.Effect(d.w, e.lent + d.lent)
    decreases |a|
  {
    hide W.Exec;
    if a == [] {
      assert a + b == b;
    } else {
      assert (a + b)[0] == a[0] && (a + b)[1..] == a[1..] + b;
      var first := W.Exec(sc, m, a[0], 0);
      ExecAllConcat(sc, first.w, a[1..], b);
      var rest := W.ExecAll(sc, first.w, a[1..]);
      LentGrouped(first.lent, rest.lent, W.ExecAll(sc, rest.w, b).lent);
    }
  }

  lemma LentGrouped(a: seq<W.Lent>, b: seq<W.Lent>, c: seq<W.Lent>)
    ensures a + (b + c) == a + b + c
  {
  }

  lemma {:induction false} RunAccounts(s: State, ts: seq<Turn>)
    requires Inv(s)
    ensures var s', e := Run(s, ts), W.ExecAll(s.signedChar, s.m, EatenAll(s, ts));
            && s'.m == e.w
            && s'.ch0.lent + Rest(s'.wire) == s.ch0.lent + Rest(s.wire) + Items(e.lent)
    decreases |ts|
  {
    hide W.ExecAll, Step, EatenBy;
    if ts != [] {
      var next, now, later := Step(s, ts[0]), EatenBy(s, ts[0]), ts[1..];
      StepKeeps(s, ts[0]);
      StepAccounts(s, ts[0]);
      RunAccounts(next, later);
      ExecAllConcat(s.signedChar, s.m, now, EatenAll(next, later));
      ItemsConcat(W.ExecAll(s.signedChar, s.m, now).lent,
                  W.ExecAll(s.signedChar, next.m, EatenAll(next, later)).lent);
    } else {
      NoChunks(s.signedChar, s.m);
    }
  }

  lemma NoChunks(sc: bool, m: W.State)
    ensures W.ExecAll(sc, m, []) == W.Effect(m, [])
  {
  }

  /** End to end, under every schedule: when the wire task is gone, what the frontend has taken and
      given back is one item for each frame of the bytes read, in order, and an item is a range of the
      buffer rather than the literal exactly when the frame of the byte stream is good. */
  lemma EveryFrameDelivered(sc: bool, m: W.State, ts: seq<Turn>)
    requires m.cs == W.Start
    ensures var s, stream := Run(Initial(sc, m), ts), W.Flatten(EatenAll(Initial(sc, m), ts));
            s.wire.WireGone? ==>
              && (forall f | f in F.All(stream, 0) :: f.end + 1 < |stream|)
              && s.ch0.taken == s.ch0.returned
              && Ranges(s.ch0.returned) == W.Expected(sc, F.All(stream, 0), stream)
  {
    hide W.ExecAll, W.Exec, F.All, W.Expected;
    var s0, s := Initial(sc, m), Run(Initial(sc, m), ts);
    var chunks := EatenAll(s0, ts);
    if s.wire.WireGone? {
      RunKeeps(s0, ts);
      RunAccounts(s0, ts);
      var e := W.ExecAll(sc, m, chunks);
      assert s.ch0.lent + Rest(s.wire) == s.ch0.lent;
      assert s0.ch0.lent + Rest(s0.wire) + Items(e.lent) == Items(e.lent);
      assert s.ch0.returned == Items(e.lent);
      assert Ranges(Items(e.lent)) == W.Verdicts(e.lent);
      W.ChunkIndependence(sc, m, chunks);
      W.SameVerdicts(sc, m, W.Flatten(chunks), 0);
    }
  }

  function Ranges(items: seq<Item>): seq<bool> {
    seq(|items|, i requires 0 <= i < |items| => items[i].base == ReadBuffer)
  }
}
