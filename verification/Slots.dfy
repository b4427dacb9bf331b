/** The lend/borrow slots of multitasking/suspendables.c, one slot with its history. */
module Slots {
  import opened Bytes

  /** A pointer: into the read buffer of the wire task, or into its one-byte literal. */
  datatype Base = ReadBuffer | Literal
  datatype Item = Item(base: Base, offset: nat, size: int)

  /** `struct iowork`; `item` is data and size together, absent when data is null (and size 0). */
  datatype Slot = Slot(item: Option<Item>, borrowed: bool, disabled: bool)

  /** A slot, what passed through it, and whether one of its assertions ever failed. */
  datatype Channel = Channel(slot: Slot, lent: seq<Item>, taken: seq<Item>, returned: seq<Item>, failed: bool)

  const EMPTY: Channel := Channel(Slot(None, false, false), [], [], [], false)

  /** `sus_lend` up to its wait loop. The assignment of the whole slot also clears both flags. */
  function Lend(c: Channel, it: Item): Channel {
    c.(slot := Slot(Some(it), false, false), lent := c.lent + [it],
       failed := c.failed || c.slot.borrowed || c.slot.item.Some?)
  }

  /** `sus_disable` */
  function Disable(c: Channel): Channel {
    c.(slot := c.slot.(disabled := true))
  }

  datatype Borrowing = Got(item: Item) | Gone | Blocked

  /** The wait loop of `sus_borrow`: what one look at the slot gives ... */
  function Look(c: Channel): Borrowing {
    if c.slot.item.Some? then Got(c.slot.item.value)
    else if c.slot.disabled then Gone
    else Blocked
  }

  /** ... and does. */
  function Looked(c: Channel): Channel {
    if c.slot.item.Some? then c.(slot := c.slot.(borrowed := true), taken := c.taken + [c.slot.item.value]) else c
  }

  /** Entry to `sus_borrow`, with the assertion and the first test for `disabled`. */
  function Enter(c: Channel): Borrowing {
    if c.slot.disabled then Gone else Look(c)
  }

  function Entered(c: Channel): Channel {
    var c' := c.(failed := c.failed || c.slot.borrowed);
    if c.slot.disabled then c' else Looked(c')
  }

  /** `sus_return` */
  function Return(c: Channel, it: Item): Channel {
    c.(slot := Slot(None, false, false), returned := c.returned + [it],
       failed := c.failed || !c.slot.borrowed || c.slot.item != Some(it))
  }

  datatype Phase = Idle | Offered | Held

  /** The three situations of a slot used by one lender and one borrower: everything lent came back;
      or the last item lent waits; or it is in the borrower's hands. */
  ghost predicate In(c: Channel, ph: Phase) {
    && !c.failed
    && match ph
       case Idle => c.slot.item.None? && !c.slot.borrowed && c.lent == c.taken == c.returned
       case Offered =>
         && c.slot.item.Some? && !c.slot.borrowed && !c.slot.disabled
         && c.lent == c.taken + [c.slot.item.value] && c.taken == c.returned
       case Held =>
         && c.slot.item.Some? && c.slot.borrowed && !c.slot.disabled
         && c.lent == c.taken == c.returned + [c.slot.item.value]
  }

  /** Exactly-once delivery, in order. */
  ghost predicate Delivers(c: Channel) {
    && c.returned <= c.taken <= c.lent
    && |c.lent| <= |c.returned| + 1
    && (c.slot.item.None? <==> |c.lent| == |c.returned|)
    && (c.slot.borrowed <==> |c.taken| == |c.returned| + 1)
  }

  lemma PhaseDelivers(c: Channel, ph: Phase)
    requires In(c, ph)
    ensures Delivers(c)
  {
  }
}
