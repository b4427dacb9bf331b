/** How the three tasks end: at the end of the input one after the other, each telling the next by its slot. */
module Ending {
  import opened Bytes
  import opened Slots
  import opened Pipeline
  import opened Service
  import Sched = Scheduler

  /** All three tasks have ended; both slots are empty and disabled, and nobody holds anything. */
  predicate AllGone(s: State) {
    && s.wire.WireGone? && s.front.FrontGone? && s.resp.RespGone?
    && s.ch0.slot == Slot(None, false, true) && s.ch1.slot == Slot(None, false, true)
    && s.ch0.returned == s.ch0.lent && s.ch1.returned == s.ch1.lent
  }

  /** The wire task has come to its end, and the frontend was not stopped before. */
  ghost predicate IsClosing(s: State) {
    Healthy(s) && s.wire.WireGone? && !Stopped(s)
  }

  lemma ClosingKept(s: State, t: Turn)
    requires IsClosing(s)
    ensures IsClosing(Step(s, t))
    ensures s.front.FrontGone? ==> Step(s, t).front.FrontGone?
    ensures s.resp.RespGone? ==> Step(s, t).resp.RespGone?
  {
    HealthyKept(s, t);
    match t
    case WireTurn(_) =>
    case FrontTurn(acts) => FrontLeavesWire(s, acts);
    case RespTurn(waits) => RespLeavesFront(s, waits);
  }

  /** The next turn of the frontend is its last, whatever it had in hand: slot 0 gives it -1. */
  lemma FrontCloses(s: State, acts: seq<Exec>)
    requires IsClosing(s)
    ensures Step(s, FrontTurn(acts)).front.FrontGone? && Step(s, FrontTurn(acts)).ch1.slot.disabled
  {
    HealthyKept(s, FrontTurn(acts));
  }

  /** ... and then slot 1 gives -1 to the autoresponder. */
  lemma RespCloses(s: State, waits: seq<bool>)
    requires IsClosing(s) && s.front.FrontGone?
    ensures Step(s, RespTurn(waits)).resp.RespGone?
  {
  }

  lemma GoneMeans(s: State)
    requires IsClosing(s) && s.front.FrontGone? && s.resp.RespGone?
    ensures AllGone(s)
  {
  }

  lemma {:induction false} GoneStays(s: State, ts: seq<Turn>)
    requires IsClosing(s)
    ensures IsClosing(Run(s, ts))
    ensures s.front.FrontGone? ==> Run(s, ts).front.FrontGone?
    ensures s.resp.RespGone? ==> Run(s, ts).resp.RespGone?
    decreases |ts|
  {
    hide Step;
    if ts != [] {
      ClosingKept(s, ts[0]);
      GoneStays(Step(s, ts[0]), ts[1..]);
    }
  }

  /** Whatever else runs, and in which order: a turn of the frontend and a later one of the autoresponder. */
  lemma {:induction false} AllEnd(s: State, ts: seq<Turn>, i: nat, j: nat)
    requires IsClosing(s) && j < |ts| && ts[j].RespTurn?
    requires s.front.FrontGone? || (i < j && ts[i].FrontTurn?)
    ensures AllGone(Run(s, ts))
    decreases |ts|
  {
    hide Step, IsClosing, AllGone;
    ClosingInv(s);
    var next := Step(s, ts[0]);
    ClosingKept(s, ts[0]);
    ClosingInv(next);
    if i == 0 && ts[0].FrontTurn? {
      FrontCloses(s, ts[0].acts);
    }
    if j == 0 {
      RespCloses(s, ts[0].waits);
      GoneStays(next, ts[1..]);
      GoneMeans(Run(next, ts[1..]));
    } else {
      AllEnd(next, ts[1..], if i == 0 then 0 else i - 1, j - 1);
    }
  }

  lemma ClosingInv(s: State)
    requires IsClosing(s)
    ensures Inv(s)
  {
  }

  /** In every reachable state in which the frontend has ended, slot 0 is free if and only if it was disabled. */
  lemma EndsFree(s: State)
    requires Healthy(s) && s.front.FrontGone?
    ensures s.ch0.slot.item.None? <==> s.ch0.slot.disabled
    ensures s.ch0.slot.item.Some? ==> s.ch0.slot.item.value.size < 0 && s.ch0.slot.borrowed
  {
  }

  /** The turn in which it ends: slot 0 was disabled, or it has taken a negative item and holds it. */
  lemma EndsBecause(s: State, acts: seq<Exec>)
    requires Healthy(s) && !s.front.FrontGone? && Step(s, FrontTurn(acts)).front.FrontGone?
    ensures var s' := Step(s, FrontTurn(acts));
            && (s'.ch0.slot.item.None? <==> s.ch0.slot.disabled)
            && (s.ch0.slot.disabled || (s.ch0.slot.item.Some? && s.ch0.slot.item.value.size < 0))
            && s'.ch1.slot.disabled
  {
    HealthyKept(s, FrontTurn(acts));
    FrontLeavesWire(s, acts);
    EndsFree(Step(s, FrontTurn(acts)));
    if !s.ch0.slot.disabled && !(s.ch0.slot.item.Some? && s.ch0.slot.item.value.size < 0) {
      StaysIn(s, acts);
    }
  }

  lemma StaysIn(s: State, acts: seq<Exec>)
    requires Healthy(s) && !s.front.FrontGone? && !s.ch0.slot.disabled
    requires s.ch0.slot.item.Some? ==> s.ch0.slot.item.value.size >= 0
    ensures !Step(s, FrontTurn(acts)).front.FrontGone?
  {
    match s.front
    case FrontNew => RangeStaysIn(s.(ch0 := Entered(s.ch0)), acts);
    case FrontWaiting => RangeStaysIn(s.(ch0 := Looked(s.ch0)), acts);
    case FrontWriting(_) => RangeStaysIn(s, acts);
    case FrontLending(_) => RangeStaysIn(s, acts);
  }

  /** After its own return the frontend finds slot 0 empty, and waits. */
  lemma RangeStaysIn(s: State, acts: seq<Exec>)
    requires !s.ch0.slot.disabled
    ensures s.ch0.slot.item.Some? && s.ch0.slot.item.value.size >= 0 ==>
              !FrontExec(s, s.ch0.slot.item.value, acts).front.FrontGone?
  {
    if s.ch0.slot.item.Some? {
      assert Enter(Return(s.ch0, s.ch0.slot.item.value)) == Blocked;
    }
  }

  /** The end of the input ends the wire task, once its last lend came back. */
  lemma EofEnds(s: State, input: seq<Read>)
    requires Healthy(s) && !s.wire.WireGone? && s.ch0.slot.item.None? && Rest(s.wire) == []
    requires input != [] && input[0].Eof?
    ensures var s' := Step(s, WireTurn(input));
            s'.wire.WireGone? && s'.ch0.slot.disabled && s'.ch0.returned == s'.ch0.lent == s.ch0.lent
  {
    HealthyKept(s, WireTurn(input));
  }

  // ----- in the ring

  function TaskOf(t: Turn): nat {
    match t
    case WireTurn(_) => WIRE
    case FrontTurn(_) => FRONT
    case RespTurn(_) => RESP
  }

  /** One transfer of control; the turn of a task that is none of the three touches nothing here. */
  function Transferred(s: State, task: nat, t: Turn): State
    requires Inv(s)
  {
    if task == TaskOf(t) then Step(s, t) else s
  }

  function Spin(s: State, order: seq<nat>, acts: seq<Sched.Act>, ts: seq<Turn>): State
    requires Inv(s) && |acts| == |ts|
    decreases |acts|
  {
    if order == [] || acts == [] then s
    else
      StepKeeps(s, ts[0]);
      Spin(Transferred(s, order[0], ts[0]), Sched.Next(order, acts[0]), acts[1..], ts[1..])
  }

  predicate HasEnded(s: State, task: nat) {
    (task == WIRE && s.wire.WireGone?) || (task == FRONT && s.front.FrontGone?) || (task == RESP && s.resp.RespGone?)
  }

  /** Each task has a turn of its own when it gets control, and of the three exactly those exit that have ended;
      others may do what they like. */
  predicate IsSpin(s: State, order: seq<nat>, acts: seq<Sched.Act>, ts: seq<Turn>)
    requires Inv(s) && |acts| == |ts|
    decreases |acts|
  {
    order == [] || acts == [] ||
    (StepKeeps(s, ts[0]);
     var next := Transferred(s, order[0], ts[0]);
     (order[0] in {WIRE, FRONT, RESP} ==> TaskOf(ts[0]) == order[0] && (acts[0].Exit? <==> HasEnded(next, order[0])))
     && IsSpin(next, Sched.Next(order, acts[0]), acts[1..], ts[1..]))
  }

  /** How many tasks have still to end, and which is the next. */
  function Open(s: State): nat {
    if !s.front.FrontGone? then 2 else if !s.resp.RespGone? then 1 else 0
  }

  function NextToEnd(s: State): nat {
    if !s.front.FrontGone? then FRONT else RESP
  }

  predicate HasOpen(s: State, order: seq<nat>) {
    (!s.front.FrontGone? ==> FRONT in order) && (!s.resp.RespGone? ==> RESP in order)
  }

  lemma OpenStay(s: State, order: seq<nat>, act: Sched.Act, next: State)
    requires order != [] && HasOpen(s, order)
    requires (s.front.FrontGone? ==> next.front.FrontGone?) && (s.resp.RespGone? ==> next.resp.RespGone?)
    requires order[0] in {FRONT, RESP} && act.Exit? ==> HasEnded(next, order[0])
    ensures HasOpen(next, Sched.Next(order, act))
  {
    if !next.front.FrontGone? {
      Stays(order, act, FRONT);
    }
    if !next.resp.RespGone? {
      Stays(order, act, RESP);
    }
  }

  lemma Stays(order: seq<nat>, act: Sched.Act, t: nat)
    requires t in order && (order[0] == t ==> act.Suspend?)
    ensures t in Sched.Next(order, act)
  {
    var next := Sched.Next(order, act);
    var d :| 0 <= d < |order| && order[d] == t;
    if act.Suspend? {
      assert next[if d == 0 then |order| - 1 else d - 1] == t;
    } else {
      var d' := Sched.OneStep(order, d, act);
    }
  }

  lemma ClosingStep(s: State, task: nat, t: Turn)
    requires IsClosing(s) && (task in {WIRE, FRONT, RESP} ==> TaskOf(t) == task)
    ensures var next := Transferred(s, task, t);
            && IsClosing(next) && Open(next) <= Open(s)
            && (s.front.FrontGone? ==> next.front.FrontGone?) && (s.resp.RespGone? ==> next.resp.RespGone?)
            && (Open(s) > 0 && task == NextToEnd(s) ==> Open(next) < Open(s))
            && (Open(s) > 0 && Open(next) == Open(s) ==> NextToEnd(next) == NextToEnd(s))
  {
    hide Step, IsClosing;
    if task == TaskOf(t) {
      ClosingKept(s, t);
      if t.FrontTurn? {
        FrontCloses(s, t.acts);
      }
      if t.RespTurn? && s.front.FrontGone? {
        RespCloses(s, t.waits);
      }
    }
  }

  lemma {:induction false} Ends(s: State, order: seq<nat>, acts: seq<Sched.Act>, ts: seq<Turn>, d: nat)
    requires IsClosing(s) && |acts| == |ts| && IsSpin(s, order, acts, ts) && HasOpen(s, order)
    requires Open(s) > 0 ==>
               && d < |order| && order[d] == NextToEnd(s)
               && |acts| > (Open(s) - 1) * Lap(|order|, acts) + Slack(|order|, acts, d)
    ensures AllGone(Spin(s, order, acts, ts))
    decreases |acts|
  {
    hide Step, IsClosing, Lap, Slack, Open, NextToEnd, HasOpen, AllGone, Sched.Next, HasEnded;
    ClosingInv(s);
    if order == [] || acts == [] {
      NothingOpen(s, order, acts, d);
    } else {
      var next, rest := Transferred(s, order[0], ts[0]), Sched.Next(order, acts[0]);
      ClosingStep(s, order[0], ts[0]);
      OpenStay(s, order, acts[0], next);
      var d' := Follow(s, next, order, acts, d);
      Ends(next, rest, acts[1..], ts[1..], d');
    }
  }

  lemma NothingOpen(s: State, order: seq<nat>, acts: seq<Sched.Act>, d: nat)
    requires IsClosing(s) && (order == [] || acts == [])
    requires Open(s) > 0 ==>
               d < |order| && |acts| > (Open(s) - 1) * Lap(|order|, acts) + Slack(|order|, acts, d)
    ensures AllGone(s)
  {
    hide Lap, Slack;
    if Open(s) > 0 {
      NotNegative(Open(s) - 1, Lap(|order|, acts));
    } else {
      GoneMeans(s);
    }
  }

  lemma NextIsNoLonger(order: seq<nat>, act: Sched.Act)
    requires order != []
    ensures |Sched.Next(order, act)| <= |order|
  {
  }

  lemma FindNext(s: State, order: seq<nat>) returns (d: nat)
    requires HasOpen(s, order) && Open(s) > 0
    ensures d < |order| && order[d] == NextToEnd(s)
  {
    d :| 0 <= d < |order| && order[d] == NextToEnd(s);
  }

  /** Where the next task to end stands after one transfer. */
  lemma Follow(s: State, next: State, order: seq<nat>, acts: seq<Sched.Act>, d: nat) returns (d': nat)
    requires order != [] && acts != [] && Open(next) <= Open(s) && HasOpen(next, Sched.Next(order, acts[0]))
    requires Open(s) > 0 ==>
               && d < |order| && order[d] == NextToEnd(s)
               && |acts| > (Open(s) - 1) * Lap(|order|, acts) + Slack(|order|, acts, d)
    requires Open(s) > 0 && order[0] == NextToEnd(s) ==> Open(next) < Open(s)
    requires Open(s) > 0 && Open(next) == Open(s) ==> NextToEnd(next) == NextToEnd(s)
    ensures var rest := Sched.Next(order, acts[0]);
            Open(next) > 0 ==>
              && d' < |rest| && rest[d'] == NextToEnd(next)
              && |acts| - 1 > (Open(next) - 1) * Lap(|rest|, acts[1..]) + Slack(|rest|, acts[1..], d')
  {
    hide Lap, Slack, Open, NextToEnd, HasOpen, Sched.Next;
    var rest, e := Sched.Next(order, acts[0]), Open(s);
    NextIsNoLonger(order, acts[0]);
    LapShrinks(|order|, acts, |rest|);
    d' := 0;
    if Open(next) > 0 {
      if Open(next) == e {
        d' := Nearer(order, acts, d);
        LapsLess(e - 1, Lap(|rest|, acts[1..]), Lap(|order|, acts));
      } else {
        d' := FindNext(next, rest);
        SlackInLap(|rest|, acts[1..], d');
        Laps(Open(next), e, Lap(|rest|, acts[1..]), Lap(|order|, acts));
      }
    }
  }

  /** Once the wire task has met the end of its input, and in every reachable state in which the frontend was not
      stopped: in any ring, under every schedule, all three tasks have ended after two laps. */
  lemma EndsInTime(s: State, order: seq<nat>, acts: seq<Sched.Act>, ts: seq<Turn>)
    requires IsClosing(s) && |acts| == |ts| && IsSpin(s, order, acts, ts) && HasOpen(s, order)
    requires |acts| >= 2 * Lap(|order|, acts)
    ensures AllGone(Spin(s, order, acts, ts))
  {
    hide Lap, Slack, Spin, IsSpin, IsClosing, AllGone;
    var d: nat := 0;
    if Open(s) > 0 {
      d := FindNext(s, order);
      SlackInLap(|order|, acts, d);
    }
    Ends(s, order, acts, ts, d);
  }
}
