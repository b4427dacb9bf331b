/** The descriptor sets of multitasking/suspendables.c: who waits for what, and who is told. */
module IoSets {
  import Sched = Scheduler

  datatype IoSet = Read | Write
  /** `sus_ioloop` looks at descriptors 0 to 9 only. */
  type Fd = x: int | 0 <= x < 10
  datatype Wait = Wait(fd: Fd, kind: IoSet)

  datatype Io = Io(scheduled: set<Wait>, active: set<Wait>, surrendered: bool)

  /** Where a task is suspended: in the loop of `suspend_until_active`, or at any other place. */
  datatype Pc = Waiting(wait: Wait) | Elsewhere

  /** One `sus_read` or `sus_write`; `again` when the system call itself answers EAGAIN. */
  datatype Attempt = Attempt(wait: Wait, again: bool)

  datatype Result = Result(io: Io, pc: Pc, took: seq<Fd>)

  /** One run of a task: the calls it makes, up to the one that suspends it. */
  function Turn(io: Io, todo: seq<Attempt>): Result
    decreases |todo|
  {
    if todo == [] then Result(io, Elsewhere, [])
    else
      var a := todo[0];
      if !io.surrendered && a.wait !in io.active then
        Result(io.(scheduled := io.scheduled + {a.wait}), Waiting(a.wait), [])
      else if a.again then Result(io, Elsewhere, [])
      else if a.wait.kind == Read then
        var r := Turn(io.(active := io.active - {a.wait}), todo[1..]);
        r.(took := [a.wait.fd] + r.took)
      else Turn(io, todo[1..])
  }

  /** One turn of a task: its calls, and whether it exits behind them. */
  datatype Visit = Visit(task: nat, todo: seq<Attempt>, exits: bool)

  /** `pcs` are the tasks there are, but for the I/O loop. */
  datatype Round = Round(io: Io, pcs: map<nat, Pc>, took: seq<Fd>)

  function Left(pcs: map<nat, Pc>, v: Visit, pc: Pc): map<nat, Pc> {
    if v.exits then pcs - {v.task} else pcs[v.task := pc]
  }

  /** The tasks the scheduler visits between two resumptions of the I/O loop. */
  function Visits(io: Io, pcs: map<nat, Pc>, vs: seq<Visit>): Round
    decreases |vs|
  {
    if vs == [] then Round(io, pcs, [])
    else
      var r := Turn(io, vs[0].todo);
      var rest := Visits(r.io, Left(pcs, vs[0], r.pc), vs[1..]);
      rest.(took := r.took + rest.took)
  }

  /** What a task can do in its turn: it is there; suspended in its wait, it goes round that loop again; and
      it does not wait when it exits. */
  predicate CanVisit(io: Io, pcs: map<nat, Pc>, v: Visit) {
    && v.task in pcs
    && (pcs[v.task].Waiting? ==> v.todo != [] && v.todo[0].wait == pcs[v.task].wait)
    && (v.exits ==> !Turn(io, v.todo).pc.Waiting?)
  }

  predicate CanVisitAll(io: Io, pcs: map<nat, Pc>, vs: seq<Visit>)
    decreases |vs|
  {
    vs == [] ||
    (CanVisit(io, pcs, vs[0])
     && var r := Turn(io, vs[0].todo); CanVisitAll(r.io, Left(pcs, vs[0], r.pc), vs[1..]))
  }

  function Tasks(vs: seq<Visit>): seq<nat> {
    seq(|vs|, i requires 0 <= i < |vs| => vs[i].task)
  }

  /** What the waiting tasks among `who` wait for. */
  ghost function Awaited(pcs: map<nat, Pc>, who: set<nat>): set<Wait> {
    set t | t in who && t in pcs && pcs[t].Waiting? :: pcs[t].wait
  }

  lemma {:induction false} TurnSchedules(io: Io, todo: seq<Attempt>)
    requires !io.surrendered
    ensures var r := Turn(io, todo);
            && r.io.scheduled == io.scheduled + (if r.pc.Waiting? then {r.pc.wait} else {})
            && !r.io.surrendered && r.io.active <= io.active
            && (r.pc.Waiting? ==> r.pc.wait !in r.io.active)
    decreases |todo|
  {
    if todo != [] && todo[0].wait in io.active && !todo[0].again {
      TurnSchedules(if todo[0].wait.kind == Read then io.(active := io.active - {todo[0].wait}) else io, todo[1..]);
    }
  }

  /** A turn uses up the readiness of what it has read, and no other: a write leaves it. Once I/O is surrendered
      nothing waits any more, and nothing is scheduled. */
  lemma {:induction false} TurnUsesUp(io: Io, todo: seq<Attempt>)
    ensures var r := Turn(io, todo);
            && (forall w :: w in r.io.active <==> w in io.active && !(w.kind == Read && w.fd in r.took))
            && (io.surrendered ==> !r.pc.Waiting? && r.io.scheduled == io.scheduled)
            && r.io.surrendered == io.surrendered
    decreases |todo|
  {
    if todo != [] && (io.surrendered || todo[0].wait in io.active) && !todo[0].again {
      TurnUsesUp(if todo[0].wait.kind == Read then io.(active := io.active - {todo[0].wait}) else io, todo[1..]);
    }
  }

  /** So does a round: what is active behind it is what no task has read from. */
  lemma {:induction false} VisitsUseUp(io: Io, pcs: map<nat, Pc>, vs: seq<Visit>)
    ensures var r := Visits(io, pcs, vs);
            forall w :: w in r.io.active <==> w in io.active && !(w.kind == Read && w.fd in r.took)
    decreases |vs|
  {
    hide Turn;
    if vs != [] {
      var r := Turn(io, vs[0].todo);
      TurnUsesUp(io, vs[0].todo);
      VisitsUseUp(r.io, Left(pcs, vs[0], r.pc), vs[1..]);
    }
  }

  /** In the middle of a round: scheduled is what the tasks visited so far are left waiting for, and none of
      that is active. */
  ghost predicate InRound(io: Io, pcs: map<nat, Pc>, seen: set<nat>) {
    && !io.surrendered && io.scheduled == Awaited(pcs, seen)
    && forall t | t in seen && t in pcs && pcs[t].Waiting? :: pcs[t].wait !in io.active
  }

  lemma AwaitedAfter(pcs: map<nat, Pc>, seen: set<nat>, v: Visit, pc: Pc)
    requires v.task in pcs && (v.exits ==> !pc.Waiting?)
    ensures Awaited(Left(pcs, v, pc), seen + {v.task})
         == Awaited(pcs, seen - {v.task}) + if pc.Waiting? then {pc.wait} else {}
  {
    var after, all := Left(pcs, v, pc), Awaited(Left(pcs, v, pc), seen + {v.task});
    var rest := Awaited(pcs, seen - {v.task}) + if pc.Waiting? then {pc.wait} else {};
    assert forall t | t != v.task :: (t in after <==> t in pcs) && (t in pcs ==> after[t] == pcs[t]);
    forall w | w in rest ensures w in all {
      if pc.Waiting? && w == pc.wait {
        assert after[v.task] == pc;
      } else {
        var t :| t in seen - {v.task} && t in pcs && pcs[t].Waiting? && pcs[t].wait == w;
        assert after[t] == pcs[t];
      }
    }
  }

  lemma VisitKeepsRound(io: Io, pcs: map<nat, Pc>, seen: set<nat>, v: Visit)
    requires InRound(io, pcs, seen) && CanVisit(io, pcs, v)
    ensures var r := Turn(io, v.todo); InRound(r.io, Left(pcs, v, r.pc), seen + {v.task})
  {
    var r := Turn(io, v.todo);
    TurnSchedules(io, v.todo);
    AwaitedAfter(pcs, seen, v, r.pc);
    if v.task in seen && pcs[v.task].Waiting? {
      assert r == Result(io.(scheduled := io.scheduled + {pcs[v.task].wait}), pcs[v.task], []);
      assert Awaited(pcs, seen) == Awaited(pcs, seen - {v.task}) + {pcs[v.task].wait};
    } else {
      assert Awaited(pcs, seen) == Awaited(pcs, seen - {v.task});
    }
  }

  /** What is scheduled is exactly what the tasks visited are left waiting for, be they visited once or more;
      the others are as they were. */
  lemma {:induction false} RoundSchedules(io: Io, pcs: map<nat, Pc>, vs: seq<Visit>, seen: set<nat>)
    requires InRound(io, pcs, seen) && CanVisitAll(io, pcs, vs)
    ensures var r := Visits(io, pcs, vs);
            && InRound(r.io, r.pcs, seen + set t | t in Tasks(vs))
            && forall t | t !in Tasks(vs) :: (t in r.pcs <==> t in pcs) && (t in pcs ==> r.pcs[t] == pcs[t])
    decreases |vs|
  {
    hide InRound, CanVisit, Turn;
    if vs == [] {
      assert seen + (set t | t in Tasks(vs)) == seen;
    } else {
      var v, r := vs[0], Turn(io, vs[0].todo);
      VisitKeepsRound(io, pcs, seen, v);
      RoundSchedules(r.io, Left(pcs, v, r.pc), vs[1..], seen + {v.task});
      assert Tasks(vs) == [v.task] + Tasks(vs[1..]);
      assert seen + (set t | t in Tasks(vs)) == seen + {v.task} + set t | t in Tasks(vs[1..]);
    }
  }

  // ----- the rounds the scheduler makes

  /** The visits are the transfers of a ring whose front is the I/O loop, until that is in front again. */
  ghost predicate IsRound(order: seq<nat>, acts: seq<Sched.Act>, vs: seq<Visit>) {
    && order != [] && acts != [] && acts[0] == Sched.Suspend
    && |acts| == |vs| + 1 && Sched.Trace(order, acts) == [order[0]] + Tasks(vs)
    && (forall k | 0 <= k < |vs| :: acts[k + 1].Exit? == vs[k].exits)
    && order[0] !in Tasks(vs)
    && Sched.Final(order, acts) != [] && Sched.Final(order, acts)[0] == order[0]
  }

  /** The tasks of a ring behind the I/O loop that the scheduler does not get to. */
  ghost function Missed(order: seq<nat>, acts: seq<Sched.Act>): set<nat> {
    set t | t in order && t !in Sched.Trace(order, acts)
  }

  /** Whether some task that was visited is left waiting for the same. */
  ghost predicate IsShared(r: Round, vs: seq<Visit>, w: Wait) {
    exists t :: t in Tasks(vs) && t in r.pcs && r.pcs[t] == Waiting(w)
  }

  /** Exactness, in every round the scheduler makes: `select` is given exactly the waits of the tasks
      suspended in `suspend_until_active`, if and only if every task that was passed over while it waited
      waits for what some visited one is left waiting for too. */
  lemma SelectIsExact(pcs: map<nat, Pc>, active: set<Wait>, vs: seq<Visit>, order: seq<nat>, acts: seq<Sched.Act>)
    requires IsRound(order, acts, vs) && pcs.Keys == (set t | t in order[1..]) && order[0] !in order[1..]
    requires CanVisitAll(Io({}, active, false), pcs, vs)
    ensures var r := Visits(Io({}, active, false), pcs, vs);
            && (r.io.scheduled == Awaited(r.pcs, r.pcs.Keys) <==>
                forall t | t in Missed(order, acts) && pcs[t].Waiting? :: IsShared(r, vs, pcs[t].wait))
            && forall t | t in Missed(order, acts) :: t in r.pcs && r.pcs[t] == pcs[t]
  {
    hide Turn, CanVisitAll, Visits, Sched.Trace, Sched.Final;
    var io := Io({}, active, false);
    var r := Visits(io, pcs, vs);
    NothingSeen(io, pcs);
    RoundSchedules(io, pcs, vs, {});
    MissedTasks(order, acts, vs);
    ScheduledOrMissed(r, pcs, vs, Missed(order, acts));
  }

  lemma NothingSeen(io: Io, pcs: map<nat, Pc>)
    requires io.scheduled == {} && !io.surrendered
    ensures InRound(io, pcs, {})
  {
  }

  lemma MissedTasks(order: seq<nat>, acts: seq<Sched.Act>, vs: seq<Visit>)
    requires IsRound(order, acts, vs) && order[0] !in order[1..]
    ensures Missed(order, acts) == set t | t in order[1..] && t !in Tasks(vs)
  {
    assert order == [order[0]] + order[1..];
    assert forall t :: t in order <==> t == order[0] || t in order[1..];
    assert forall t :: t in Sched.Trace(order, acts) <==> t == order[0] || t in Tasks(vs);
  }

  lemma ScheduledOrMissed(r: Round, pcs: map<nat, Pc>, vs: seq<Visit>, missed: set<nat>)
    requires r.io.scheduled == Awaited(r.pcs, {} + set t | t in Tasks(vs))
    requires forall t | t !in Tasks(vs) :: (t in r.pcs <==> t in pcs) && (t in pcs ==> r.pcs[t] == pcs[t])
    requires missed == set t | t in pcs && t !in Tasks(vs)
    ensures r.io.scheduled == Awaited(r.pcs, r.pcs.Keys) <==>
            forall t | t in missed && pcs[t].Waiting? :: IsShared(r, vs, pcs[t].wait)
  {
    var ran, all := {} + (set t | t in Tasks(vs)), Awaited(r.pcs, r.pcs.Keys);
    forall w ensures w in r.io.scheduled <==> IsShared(r, vs, w) {
      if w in r.io.scheduled {
        var t :| t in ran && t in r.pcs && r.pcs[t].Waiting? && r.pcs[t].wait == w;
        assert r.pcs[t] == Waiting(w);
      }
    }
    forall w | w in r.io.scheduled ensures w in all {
      var t :| t in ran && t in r.pcs && r.pcs[t].Waiting? && r.pcs[t].wait == w;
    }
    forall t | t in missed && pcs[t].Waiting? ensures pcs[t].wait in all {
      assert r.pcs[t] == pcs[t];
    }
    if forall t | t in missed && pcs[t].Waiting? :: IsShared(r, vs, pcs[t].wait) {
      forall w | w in all ensures w in r.io.scheduled {
        var t :| t in r.pcs && r.pcs[t].Waiting? && r.pcs[t].wait == w;
        if t in Tasks(vs) {
          assert r.pcs[t] == Waiting(w);
        } else {
          assert t in missed && pcs[t].wait == w;
        }
      }
    }
  }

  /** In a round with no task exit, nobody is passed over. */
  lemma NobodyMissed(order: seq<nat>, acts: seq<Sched.Act>, vs: seq<Visit>)
    requires IsRound(order, acts, vs) && order[0] !in order[1..] && forall v | v in vs :: !v.exits
    ensures Missed(order, acts) == {}
  {
    hide Sched.Next;
    forall a | a in acts ensures a == Sched.Suspend {
      var k :| 0 <= k < |acts| && acts[k] == a;
      if k > 0 {
        assert vs[k - 1] in vs && acts[k - 1 + 1].Exit? == vs[k - 1].exits;
      }
    }
    var n := |order|;
    assert order[0..] + order[..0] == order && order[0..] == order;
    if |acts| >= n {
      var a, b := acts[..n], acts[n..];
      assert a + b == acts && forall x | x in a :: x in acts;
      Sched.RoundWithoutExit(order, a, 0);
      Sched.TraceSplit(order, a, b);
    } else {
      EarlyRound(order, acts);
    }
  }

  /** Before all have run, the first one is not in front. */
  lemma EarlyRound(order: seq<nat>, acts: seq<Sched.Act>)
    requires 0 < |acts| < |order| && order[0] !in order[1..] && forall a | a in acts :: a == Sched.Suspend
    ensures Sched.Final(order, acts) != [] && Sched.Final(order, acts)[0] != order[0]
  {
    Rotated(order, acts, |acts|);
    assert order[|acts|] == order[1..][|acts| - 1];
  }

  lemma {:induction false} Rotated(order: seq<nat>, acts: seq<Sched.Act>, k: nat)
    requires k <= |acts| && k < |order| && forall a | a in acts :: a == Sched.Suspend
    ensures Sched.Final(order, acts[..k]) == order[k..] + order[..k]
    ensures k == |acts| ==> Sched.Final(order, acts) == order[k..] + order[..k]
    decreases k
  {
    assert k == |acts| ==> acts[..k] == acts;
    if k == 0 {
      assert acts[..0] == [] && order[0..] + order[..0] == order;
    } else {
      Rotated(order, acts, k - 1);
      assert acts[k - 1] in acts && acts[..k] == acts[..k - 1] + [acts[k - 1]];
      Sched.TraceSplit(order, acts[..k - 1], [acts[k - 1]]);
      var now := order[k - 1..] + order[..k - 1];
      assert now[0] == order[k - 1] && now[1..] == order[k..] + order[..k - 1];
      assert order[..k - 1] + [order[k - 1]] == order[..k];
      assert Sched.Next(now, Sched.Suspend) == order[k..] + order[..k];
      assert [acts[k - 1]][1..] == [];
    }
  }

  /** ... so that `select` is given exactly what the tasks wait for. */
  lemma ExactWithoutExit(pcs: map<nat, Pc>, active: set<Wait>, vs: seq<Visit>, order: seq<nat>, acts: seq<Sched.Act>)
    requires IsRound(order, acts, vs) && pcs.Keys == (set t | t in order[1..]) && order[0] !in order[1..]
    requires CanVisitAll(Io({}, active, false), pcs, vs) && forall v | v in vs :: !v.exits
    ensures var r := Visits(Io({}, active, false), pcs, vs); r.io.scheduled == Awaited(r.pcs, r.pcs.Keys)
  {
    hide IsRound, Visits, CanVisitAll, Missed;
    NobodyMissed(order, acts, vs);
    SelectIsExact(pcs, active, vs, order, acts);
  }

  // ----- what an exit does

  /** The tasks that stood directly behind one that exited. */
  function PassedOver(order: seq<nat>, acts: seq<Sched.Act>): seq<nat>
    decreases |acts|
  {
    if order == [] || acts == [] then []
    else (if acts[0].Exit? && |order| > 1 then [order[1]] else []) + PassedOver(Sched.Next(order, acts[0]), acts[1..])
  }

  ghost predicate Distinct(ts: seq<nat>) {
    forall i, j | 0 <= i < j < |ts| :: ts[i] != ts[j]
  }

  lemma FrontOnly(ahead: seq<nat>, io: nat, behind: seq<nat>)
    requires Distinct(ahead + [io] + behind) && ahead != []
    ensures (ahead + [io] + behind)[0] == ahead[0] != io && ahead[0] !in ahead[1..]
    ensures Distinct(ahead[1..] + [io] + (behind + [ahead[0]]))
  {
    var all, next := ahead + [io] + behind, ahead[1..] + [io] + (behind + [ahead[0]]);
    assert all[|ahead|] == io;
    assert forall i | 0 <= i < |ahead| - 1 :: all[i + 1] == ahead[1..][i];
    assert forall i | 0 <= i < |next| :: next[i] == if i < |all| - 1 then all[i + 1] else all[0];
  }

  lemma SecondOnly(ahead: seq<nat>, io: nat, behind: seq<nat>)
    requires Distinct(ahead + [io] + behind) && |ahead| > 1
    ensures ahead[0] != ahead[1] && ahead[0] !in ahead[2..] && ahead[1] !in ahead[2..]
    ensures Distinct(ahead[2..] + [io] + (behind + [ahead[1]]))
  {
    var all, next := ahead + [io] + behind, ahead[2..] + [io] + (behind + [ahead[1]]);
    assert all[0] == ahead[0] && all[1] == ahead[1];
    assert forall i | 0 <= i < |ahead| - 2 :: all[i + 2] == ahead[2..][i];
    assert forall i | 0 <= i < |next| :: next[i] == if i < |all| - 2 then all[i + 2] else all[1];
  }

  lemma NotTheLast(ahead: seq<nat>, io: nat, behind: seq<nat>, acts: seq<Sched.Act>)
    requires ahead != [] && acts != [] && acts[0].Exit? && io !in PassedOver(ahead + [io] + behind, acts)
    ensures |ahead| > 1
  {
    var order := ahead + [io] + behind;
    assert order[|ahead|] == io;
    FrontRuns(order, acts);
  }

  lemma FrontRuns(order: seq<nat>, acts: seq<Sched.Act>)
    requires order != []
    ensures acts != [] ==> order[0] in Sched.Trace(order, acts)
    ensures acts != [] && acts[0].Exit? && |order| > 1 ==> order[1] in PassedOver(order, acts)
  {
    hide Sched.Next;
  }

  /** The ring seen from the I/O loop, with tasks still to be visited before it, and tasks behind it. As long
      as the loop itself is not passed over, the tasks ahead are visited or passed over, and not both. */
  lemma {:induction false} AheadOrPassedOver(ahead: seq<nat>, io: nat, behind: seq<nat>, acts: seq<Sched.Act>)
    requires Distinct(ahead + [io] + behind)
    requires var order := ahead + [io] + behind;
             && io !in Sched.Trace(order, acts) && io !in PassedOver(order, acts)
             && Sched.Final(order, acts) != [] && Sched.Final(order, acts)[0] == io
    ensures var order := ahead + [io] + behind;
            && (forall t | t in ahead :: t in Sched.Trace(order, acts) <==> t !in PassedOver(order, acts))
            && (forall t | t in Sched.Trace(order, acts) || t in PassedOver(order, acts) :: t in ahead)
    decreases |acts|
  {
    hide Distinct, Sched.Next;
    var order := ahead + [io] + behind;
    FrontRuns(order, acts);
    assert order[|ahead|] == io;
    if ahead != [] {
      FrontOnly(ahead, io, behind);
      assert acts != [];
      var x, rest := ahead[0], acts[1..];
      assert ahead == [x] + ahead[1..];
      if acts[0].Suspend? {
        Suspended(ahead, io, behind);
        AheadOrPassedOver(ahead[1..], io, behind + [x], rest);
      } else {
        NotTheLast(ahead, io, behind, acts);
        SecondOnly(ahead, io, behind);
        Exited(ahead, io, behind);
        assert ahead == [x, ahead[1]] + ahead[2..];
        AheadOrPassedOver(ahead[2..], io, behind + [ahead[1]], rest);
      }
    }
  }

  lemma Suspended(ahead: seq<nat>, io: nat, behind: seq<nat>)
    requires ahead != []
    ensures Sched.Next(ahead + [io] + behind, Sched.Suspend) == ahead[1..] + [io] + (behind + [ahead[0]])
  {
    assert (ahead + [io] + behind)[1..] == ahead[1..] + [io] + behind;
  }

  lemma Exited(ahead: seq<nat>, io: nat, behind: seq<nat>)
    requires |ahead| > 1
    ensures (ahead + [io] + behind)[1] == ahead[1]
    ensures Sched.Next(ahead + [io] + behind, Sched.Exit) == ahead[2..] + [io] + (behind + [ahead[1]])
  {
    var order := ahead + [io] + behind;
    assert order[1..][0] == ahead[1] && order[1..][1..] == ahead[2..] + [io] + behind;
  }

  /** Who is missed: exactly the tasks that stood behind one that exited, unless the I/O loop was one. */
  lemma MissedArePassedOver(order: seq<nat>, acts: seq<Sched.Act>, vs: seq<Visit>)
    requires IsRound(order, acts, vs) && Distinct(order) && order[0] !in PassedOver(order, acts)
    ensures Missed(order, acts) == set t | t in PassedOver(order, acts)
  {
    hide Distinct, Sched.Next;
    var io, tasks, rest := order[0], order[1..], acts[1..];
    assert order == [] + [io] + tasks && order == [io] + tasks;
    FrontIsIo(order, acts, vs);
    assert tasks + [io] + [] == tasks + [io];
    AheadOrPassedOver(tasks, io, [], rest);
    assert forall t :: t in Sched.Trace(order, acts) <==> t == io || t in Sched.Trace(tasks + [io], rest);
    assert PassedOver(order, acts) == PassedOver(tasks + [io], rest);
    assert forall t :: t in order <==> t == io || t in tasks;
    DistinctFront(order);
  }

  lemma DistinctFront(order: seq<nat>)
    requires Distinct(order) && order != []
    ensures order[0] !in order[1..] && Distinct(order[1..] + [order[0]])
  {
    var next := order[1..] + [order[0]];
    assert forall i | 0 <= i < |order| - 1 :: order[i + 1] == order[1..][i];
    assert forall i | 0 <= i < |next| :: next[i] == if i < |order| - 1 then order[i + 1] else order[0];
  }

  lemma FrontIsIo(order: seq<nat>, acts: seq<Sched.Act>, vs: seq<Visit>)
    requires IsRound(order, acts, vs) && Distinct(order)
    ensures var next := order[1..] + [order[0]];
            && Sched.Trace(order, acts) == [order[0]] + Sched.Trace(next, acts[1..])
            && Sched.Trace(next, acts[1..]) == Tasks(vs) && Sched.Final(order, acts) == Sched.Final(next, acts[1..])
            && PassedOver(order, acts) == PassedOver(next, acts[1..]) && Distinct(next)
  {
    DistinctFront(order);
    var t := Sched.Trace(order[1..] + [order[0]], acts[1..]);
    assert Sched.Trace(order, acts) == [order[0]] + t;
    assert ([order[0]] + t)[1..] == t && ([order[0]] + Tasks(vs))[1..] == Tasks(vs);
  }

  lemma {:induction false} WaitWasTried(io: Io, todo: seq<Attempt>)
    ensures var pc := Turn(io, todo).pc; pc.Waiting? ==> exists a :: a in todo && a.wait == pc.wait
    decreases |todo|
  {
    if todo != [] && !Turn(io, todo).pc.Elsewhere? {
      assert todo[0] in todo && forall a | a in todo[1..] :: a in todo;
      if io.surrendered || todo[0].wait in io.active {
        WaitWasTried(if todo[0].wait.kind == Read then io.(active := io.active - {todo[0].wait}) else io, todo[1..]);
      }
    }
  }

  lemma {:induction false} VisitedTried(io: Io, pcs: map<nat, Pc>, vs: seq<Visit>, t: nat)
    requires t in Tasks(vs)
    ensures var r := Visits(io, pcs, vs);
            t in r.pcs && r.pcs[t].Waiting? ==> exists v, a :: v in vs && a in v.todo && a.wait == r.pcs[t].wait
    decreases |vs|
  {
    hide Turn;
    var v, r := vs[0], Turn(io, vs[0].todo);
    assert Tasks(vs) == [v.task] + Tasks(vs[1..]);
    assert forall u | u in vs[1..] :: u in vs;
    if t in Tasks(vs[1..]) {
      VisitedTried(r.io, Left(pcs, v, r.pc), vs[1..], t);
    } else {
      NotVisited(r.io, Left(pcs, v, r.pc), vs[1..], t);
      WaitWasTried(io, v.todo);
      assert v in vs;
    }
  }

  lemma {:induction false} NotVisited(io: Io, pcs: map<nat, Pc>, vs: seq<Visit>, t: nat)
    requires t !in Tasks(vs)
    ensures var r := Visits(io, pcs, vs); (t in r.pcs <==> t in pcs) && (t in pcs ==> r.pcs[t] == pcs[t])
    decreases |vs|
  {
    hide Turn;
    if vs != [] {
      var r := Turn(io, vs[0].todo);
      assert Tasks(vs) == [vs[0].task] + Tasks(vs[1..]);
      NotVisited(r.io, Left(pcs, vs[0], r.pc), vs[1..], t);
    }
  }

  /** When no task that is visited tries what one passed over waits for, `select` is given everything that is
      waited for if and only if no task that stood behind an exiting one was waiting. */
  lemma ExitLosesWaits(pcs: map<nat, Pc>, active: set<Wait>, vs: seq<Visit>, order: seq<nat>, acts: seq<Sched.Act>)
    requires IsRound(order, acts, vs) && pcs.Keys == (set t | t in order[1..]) && Distinct(order)
    requires CanVisitAll(Io({}, active, false), pcs, vs) && order[0] !in PassedOver(order, acts)
    requires forall t, v, a | t in PassedOver(order, acts) && v in vs && a in v.todo ::
               t in pcs && pcs[t] != Waiting(a.wait)
    ensures var r := Visits(Io({}, active, false), pcs, vs);
            r.io.scheduled == Awaited(r.pcs, r.pcs.Keys) <==>
            forall t | t in PassedOver(order, acts) :: t in pcs && !pcs[t].Waiting?
  {
    hide IsRound, CanVisitAll, Visits, Turn, Distinct;
    var io := Io({}, active, false);
    var r := Visits(io, pcs, vs);
    DistinctFront1(order, acts, vs);
    SelectIsExact(pcs, active, vs, order, acts);
    MissedArePassedOver(order, acts, vs);
    MissedAreTasks(order, acts, vs, pcs);
    forall t | t in Missed(order, acts) && pcs[t].Waiting? ensures !IsShared(r, vs, pcs[t].wait) {
      if IsShared(r, vs, pcs[t].wait) {
        var u :| u in Tasks(vs) && u in r.pcs && r.pcs[u] == Waiting(pcs[t].wait);
        VisitedTried(io, pcs, vs, u);
      }
    }
  }

  lemma DistinctFront1(order: seq<nat>, acts: seq<Sched.Act>, vs: seq<Visit>)
    requires IsRound(order, acts, vs) && Distinct(order)
    ensures order != [] && order[0] !in order[1..]
  {
    DistinctFront(order);
  }

  lemma MissedAreTasks(order: seq<nat>, acts: seq<Sched.Act>, vs: seq<Visit>, pcs: map<nat, Pc>)
    requires IsRound(order, acts, vs) && order[0] !in order[1..] && pcs.Keys == set t | t in order[1..]
    ensures forall t | t in Missed(order, acts) :: t in pcs
  {
    MissedTasks(order, acts, vs);
  }

  /** A wait does get lost: task 2, behind the exiting task 1, waits for descriptor 7, and the next `select`
      is not given it. */
  lemma AWaitIsLost()
    ensures var w, vs := Wait(7, Read), [Visit(1, [], true), Visit(3, [], false)];
            var order, acts := [0, 1, 2, 3], [Sched.Suspend, Sched.Exit, Sched.Suspend];
            var pcs := map[1 := Elsewhere, 2 := Waiting(w), 3 := Elsewhere];
            && IsRound(order, acts, vs) && CanVisitAll(Io({}, {}, false), pcs, vs)
            && PassedOver(order, acts) == [2]
            && var r := Visits(Io({}, {}, false), pcs, vs);
               2 in r.pcs && r.pcs[2] == Waiting(w) && w !in r.io.scheduled
  {
    var w, a, b := Wait(7, Read), Visit(1, [], true), Visit(3, [], false);
    hide Turn, Visits, CanVisitAll, PassedOver;
    ExitTrace();
    ExitVisits(w);
    assert [a, b][1..] == [b] && Tasks([b]) == [3];
    assert Tasks([a, b]) == [1, 3];
  }

  lemma ExitVisits(w: Wait)
    ensures var vs, pcs := [Visit(1, [], true), Visit(3, [], false)],
                          map[1 := Elsewhere, 2 := Waiting(w), 3 := Elsewhere];
            && CanVisitAll(Io({}, {}, false), pcs, vs)
            && var r := Visits(Io({}, {}, false), pcs, vs);
               2 in r.pcs && r.pcs[2] == Waiting(w) && w !in r.io.scheduled
  {
    var a, b := Visit(1, [], true), Visit(3, [], false);
    assert [a, b][1..] == [b] && [b][1..] == [];
  }

  lemma ExitTrace()
    ensures var order, acts := [0, 1, 2, 3], [Sched.Suspend, Sched.Exit, Sched.Suspend];
            Sched.Trace(order, acts) == [0, 1, 3] && Sched.Final(order, acts) == [0, 2, 3]
            && PassedOver(order, acts) == [2]
  {
    var o1, o2, o3 := [1, 2, 3, 0], [3, 0, 2], [0, 2, 3];
    var acts := [Sched.Suspend, Sched.Exit, Sched.Suspend];
    assert acts[1..] == [Sched.Exit, Sched.Suspend] && acts[1..][1..] == [Sched.Suspend];
    assert Sched.Next([0, 1, 2, 3], Sched.Suspend) == o1;
    assert Sched.Next(o1, Sched.Exit) == o2;
    assert Sched.Next(o2, Sched.Suspend) == o3;
    assert Sched.Trace(o2, [Sched.Suspend]) == [3] && Sched.Final(o2, [Sched.Suspend]) == o3;
    assert Sched.Trace(o1, acts[1..]) == [1, 3] && Sched.Final(o1, acts[1..]) == o3;
    assert PassedOver(o2, [Sched.Suspend]) == [] && PassedOver(o1, acts[1..]) == [2];
  }

  /** One report, at most one successful read: whatever tasks run and however often, until the next refresh. */
  lemma {:induction false} ReportConsumedOnce(io: Io, pcs: map<nat, Pc>, vs: seq<Visit>, fd: Fd)
    requires !io.surrendered
    ensures var r := Visits(io, pcs, vs);
            multiset(r.took)[fd] + (if Wait(fd, Read) in r.io.active then 1 else 0)
            <= if Wait(fd, Read) in io.active then 1 else 0
    decreases |vs|
  {
    if vs != [] {
      var r := Turn(io, vs[0].todo);
      TurnSchedules(io, vs[0].todo);
      TurnConsumes(io, vs[0].todo, fd);
      ReportConsumedOnce(r.io, Left(pcs, vs[0], r.pc), vs[1..], fd);
    }
  }

  lemma {:induction false} TurnConsumes(io: Io, todo: seq<Attempt>, fd: Fd)
    requires !io.surrendered
    ensures var r := Turn(io, todo);
            multiset(r.took)[fd] + (if Wait(fd, Read) in r.io.active then 1 else 0)
            <= if Wait(fd, Read) in io.active then 1 else 0
    decreases |todo|
  {
    if todo != [] && todo[0].wait in io.active && !todo[0].again {
      TurnConsumes(if todo[0].wait.kind == Read then io.(active := io.active - {todo[0].wait}) else io, todo[1..], fd);
    }
  }

  // ----- the code

  class IoPlane {
    var scheduled: set<Wait>
    var active: set<Wait>
    var surrendered: bool

    function View(): Io
      reads this
    {
      Io(scheduled, active, surrendered)
    }

    constructor ()
      ensures View() == Io({}, {}, false)
    {
      scheduled, active, surrendered := {}, {}, false;
    }

    /** One look of `suspend_until_active`: does the task suspend? */
    method SuspendUntilActive(w: Wait) returns (suspends: bool)
      modifies this
      ensures suspends <==> !old(surrendered) && w !in old(active)
      ensures View() == if suspends then old(View()).(scheduled := old(scheduled) + {w}) else old(View())
    {
      suspends := !surrendered && w !in active;
      if suspends {
        scheduled := scheduled + {w};
      }
    }

    /** A task's calls of `sus_read` and `sus_write` up to its next suspension. */
    method RunTask(todo: seq<Attempt>) returns (pc: Pc, took: seq<Fd>)
      modifies this
      ensures Result(View(), pc, took) == Turn(old(View()), todo)
    {
      ghost var all := Turn(View(), todo);
      took := [];
      var k := 0;
      assert todo[0..] == todo;
      while k < |todo|
        invariant k <= |todo|
        invariant var r := Turn(View(), todo[k..]); all == Result(r.io, r.pc, took + r.took)
      {
        assert todo[k..][0] == todo[k] && todo[k..][1..] == todo[k + 1..];
        var w := todo[k].wait;
        var suspends := SuspendUntilActive(w);
        if suspends {
          return Waiting(w), took;
        }
        if todo[k].again {
          return Elsewhere, took;
        }
        if w.kind == Read {
          took := took + [w.fd];
          active := active - {w};
        }
        k := k + 1;
      }
      pc := Elsewhere;
    }

    /** `sus_ioloop` between two of its suspensions: `ready` is the answer of `select`. */
    method Refresh(ready: set<Wait>) returns (asked: set<Wait>)
      requires ready <= scheduled
      modifies this
      ensures asked == old(scheduled)
      ensures View() == Io({}, ready, old(surrendered))
    {
      asked := scheduled;
      scheduled, active := {}, if asked == {} then {} else ready;
    }
  }
}
