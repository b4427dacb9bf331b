/** `sus_runall` of multitasking/suspendables.c: registration, round robin, and the wait of a task. */
module Scheduler {
  import opened Ring

  /** How a task gives control back: it suspends, or its entry function returns. */
  datatype Act = Suspend | Exit

  /** The cycle of tasks, read from the one that runs next, after the front task did `act`.
      `sus_exit` has already moved the cursor when the loop moves it again. */
  function Next(order: seq<nat>, act: Act): seq<nat>
    requires order != []
  {
    match act
    case Suspend => Advanced(order)
    case Exit => if |order| == 1 then [] else Advanced(Removed(order))
  }

  /** The tasks that get control, one for each behaviour, until none is left. */
  function Trace(order: seq<nat>, acts: seq<Act>): seq<nat>
    decreases |acts|
  {
    if order == [] || acts == [] then [] else [order[0]] + Trace(Next(order, acts[0]), acts[1..])
  }

  function Final(order: seq<nat>, acts: seq<Act>): seq<nat>
    decreases |acts|
  {
    if order == [] || acts == [] then order else Final(Next(order, acts[0]), acts[1..])
  }

  function Exited(order: seq<nat>, acts: seq<Act>): seq<nat>
    decreases |acts|
  {
    if order == [] || acts == [] then []
    else (if acts[0].Exit? then [order[0]] else []) + Exited(Next(order, acts[0]), acts[1..])
  }

  /** No task is lost or duplicated: those that exited and those still in the ring are the ones
      that were there. */
  lemma {:induction false} TasksConserved(order: seq<nat>, acts: seq<Act>)
    ensures multiset(Exited(order, acts)) + multiset(Final(order, acts)) == multiset(order)
    decreases |acts|
  {
    if order != [] && acts != [] {
      hide Next;
      TasksConserved(Next(order, acts[0]), acts[1..]);
      NextConserves(order, acts[0]);
    }
  }

  lemma NextConserves(order: seq<nat>, act: Act)
    requires order != []
    ensures multiset(order) == (if act.Exit? then multiset{order[0]} else multiset{}) + multiset(Next(order, act))
  {
    assert order == [order[0]] + order[1..];
    if act.Exit? && |order| > 1 {
      assert order[1..] == [order[1]] + order[1..][1..];
    }
  }

  // ----- the wait of a task

  function Triangle(k: int): nat
    decreases k
  {
    if k <= 0 then 0 else k + Triangle(k - 1)
  }

  lemma {:induction false} TriangleClosed(k: nat)
    ensures Triangle(k) == k * (k + 1) / 2
  {
    if k > 0 {
      TriangleClosed(k - 1);
      assert k * (k + 1) == (k - 1) * k + 2 * k;
    }
  }

  /** The longest wait, in transfers to other tasks, of a task d links ahead in a ring of n. */
  function Wait(n: nat, d: nat): nat {
    if d == 0 then 0 else d + Triangle(n - 2)
  }

  lemma WaitClosed(n: nat, d: nat)
    requires d < n
    ensures Wait(n, d) == if d == 0 then 0 else d + (n - 1) * (n - 2) / 2
  {
    if n >= 2 {
      TriangleClosed(n - 2);
    }
  }

  /** Where the task at distance d > 0 stands after one step, and that (ring size, distance) falls. */
  lemma OneStep(order: seq<nat>, d: nat, act: Act) returns (d': nat)
    requires 0 < d < |order|
    ensures d' < |Next(order, act)| && Next(order, act)[d'] == order[d]
    ensures |Next(order, act)| < |order| || (|Next(order, act)| == |order| && d' < d)
    ensures 1 + Wait(|Next(order, act)|, d') <= Wait(|order|, d)
  {
    var n := |order|;
    match act {
      case Suspend => d' := d - 1;
      case Exit =>
        d' := if d == 1 then n - 2 else d - 2;
        assert Triangle(n - 2) == if n == 2 then 0 else n - 2 + Triangle(n - 3);
    }
  }

  /** No starvation, whatever the tasks do: with enough transfers made, the task got control,
      after no more than the bound. */
  lemma {:induction false} RunsWithinBound(order: seq<nat>, d: nat, acts: seq<Act>) returns (k: nat)
    requires d < |order| && |acts| > Wait(|order|, d)
    ensures k <= Wait(|order|, d) && k < |Trace(order, acts)|
    ensures Trace(order, acts)[k] == order[d]
    decreases |order|, d
  {
    if d == 0 {
      k := 0;
    } else {
      var d' := OneStep(order, d, acts[0]);
      k := RunsWithinBound(Next(order, acts[0]), d', acts[1..]);
      k := k + 1;
    }
  }

  /** The bound is attained: some behaviour keeps the task waiting that long. */
  lemma {:induction false} BoundAttained(order: seq<nat>, d: nat) returns (acts: seq<Act>)
    requires d < |order|
    requires forall i, j | 0 <= i < j < |order| :: order[i] != order[j]
    ensures |acts| == Wait(|order|, d) == |Trace(order, acts)|
    ensures order[d] !in Trace(order, acts)
    decreases |order|, d
  {
    if d == 0 {
      acts := [];
    } else {
      var act := if d == 1 then Exit else Suspend;
      var next := Next(order, act);
      var d' := if d == 1 then |order| - 2 else d - 1;
      assert |order| == 2 ==> Triangle(0) == 0;
      assert |order| > 2 ==> Triangle(|order| - 2) == |order| - 2 + Triangle(|order| - 3);
      var rest := BoundAttained(next, d');
      acts := [act] + rest;
      assert acts[1..] == rest;
    }
  }

  // ----- rounds

  lemma {:induction false} TraceSplit(order: seq<nat>, a: seq<Act>, b: seq<Act>)
    ensures Trace(order, a + b) == Trace(order, a) + Trace(Final(order, a), b)
    ensures Final(order, a + b) == Final(Final(order, a), b)
    decreases |a|
  {
    hide Next;
    if order == [] {
    } else if a == [] {
      assert a + b == b;
    } else {
      assert (a + b)[0] == a[0] && (a + b)[1..] == a[1..] + b;
      TraceSplit(Next(order, a[0]), a[1..], b);
    }
  }

  /** While nobody exits, every task runs once before the first one runs again. */
  lemma {:induction false} RoundWithoutExit(order: seq<nat>, acts: seq<Act>, k: nat)
    requires |acts| == |order| - k && k <= |order|
    requires forall a | a in acts :: a == Suspend
    ensures Trace(order[k..] + order[..k], acts) == order[k..]
    ensures Final(order[k..] + order[..k], acts) == order
    decreases |acts|
  {
    var now := order[k..] + order[..k];
    if acts == [] {
      assert now == order;
    } else {
      assert acts[0] in acts && now[0] == order[k];
      assert now[1..] == order[k + 1..] + order[..k];
      assert order[..k] + [order[k]] == order[..k + 1];
      assert Next(now, acts[0]) == order[k + 1..] + order[..k + 1];
      assert forall a | a in acts[1..] :: a in acts;
      RoundWithoutExit(order, acts[1..], k + 1);
    }
  }

  // ----- sus_runall

  /** The order of the ring after tasks 0..n were inserted one behind the other. */
  function Registered(n: nat): seq<nat> {
    if n == 0 then [] else Inserted(Registered(n - 1), n - 1)
  }

  /** The last task registered runs first, then the others in order of registration. */
  lemma {:induction false} RegistrationOrder(n: nat)
    requires n > 0
    ensures Registered(n) == [n - 1] + seq(n - 1, i => i)
  {
    if n > 1 {
      RegistrationOrder(n - 1);
    }
  }

  lemma {:induction false} RegisteredOnce(n: nat)
    ensures forall t: nat :: multiset(Registered(n))[t] == if t < n then 1 else 0
  {
    hide Inserted, Registered;
    RegisteredStep(0);
    if n > 0 {
      RegisteredOnce(n - 1);
      RegisteredStep(n - 1);
      InsertedKeeps(Registered(n - 1), n - 1);
    }
  }

  lemma InsertedKeeps(order: seq<nat>, t: nat)
    ensures multiset(Inserted(order, t)) == multiset(order) + multiset{t}
  {
    if order != [] {
      assert order == [order[0]] + order[1..];
    }
  }

  lemma RegisteredStep(n: nat)
    ensures Registered(0) == [] && Registered(n + 1) == Inserted(Registered(n), n)
  {
  }

  /** One turn of the loop: the task at the cursor runs, and the cursor is updated. */
  method Transfer(ring: ContextRing, act: Act) returns (ran: nat)
    requires ring.Valid() && ring.cursor != null
    modifies ring, ring.nodes
    ensures ring.Valid() && ring.Order() == Next(old(ring.Order()), act)
    ensures ran == old(ring.Order())[0]
    ensures forall n | n in ring.nodes :: n in old(ring.nodes)
  {
    ran := ring.cursor.ctx;
    if act.Exit? {
      ring.Shrink();
    }
    if ring.cursor != null {
      ring.Advance();
    }
  }

  method RegisterAll(length: nat) returns (ring: ContextRing)
    ensures ring.Valid() && fresh(ring) && fresh(ring.nodes)
    ensures ring.Order() == Registered(length)
  {
    hide Registered;
    ring := new ContextRing();
    RegisteredStep(0);
    for i := 0 to length
      invariant ring.Valid() && fresh(ring) && fresh(ring.nodes)
      invariant ring.Order() == Registered(i)
    {
      ring.Insert(i);
      RegisteredStep(i);
    }
  }

  lemma Unroll(order: seq<nat>, acts: seq<Act>, k: nat, trace: seq<nat>, exited: seq<nat>)
    requires order != [] && k < |acts|
    ensures var next, act, rest := Next(order, acts[k]), acts[k], acts[k..];
            && trace + Trace(order, rest) == (trace + [order[0]]) + Trace(next, acts[k + 1..])
            && exited + Exited(order, rest)
            == (exited + if act.Exit? then [order[0]] else []) + Exited(next, acts[k + 1..])
            && Final(order, rest) == Final(next, acts[k + 1..])
  {
    hide Next;
    var next, rest, out := Next(order, acts[k]), acts[k..], if acts[k].Exit? then [order[0]] else [];
    assert rest[1..] == acts[k + 1..] && rest[0] == acts[k];
    assert Trace(order, rest) == [order[0]] + Trace(next, rest[1..]);
    assert Exited(order, rest) == out + Exited(next, rest[1..]);
    Regrouped(trace, [order[0]], Trace(next, rest[1..]));
    Regrouped(exited, out, Exited(next, rest[1..]));
  }

  lemma Regrouped(a: seq<nat>, b: seq<nat>, c: seq<nat>)
    ensures a + (b + c) == a + b + c
  {
  }

  /** The loop of `sus_runall`: `script` is what the tasks do at each transfer, for as long as it
      is watched. When it ends because the ring is empty, every task has exited exactly once. */
  method RunAll(length: nat, script: seq<Act>) returns (trace: seq<nat>, exited: seq<nat>, done: bool)
    ensures trace == Trace(Registered(length), script)
    ensures exited == Exited(Registered(length), script)
    ensures done <==> Final(Registered(length), script) == []
    ensures done ==> forall t: nat :: multiset(exited)[t] == if t < length then 1 else 0
  {
    hide Next, Registered, Trace, Exited, Final;
    var ring := RegisterAll(length);
    ghost var start := Registered(length);
    trace, exited := [], [];
    var k := 0;
    assert script[0..] == script;
    while ring.cursor != null && k < |script|
      invariant ring.Valid() && fresh(ring) && fresh(ring.nodes)
      invariant k <= |script|
      invariant Trace(start, script) == trace + Trace(ring.Order(), script[k..])
      invariant Exited(start, script) == exited + Exited(ring.Order(), script[k..])
      invariant Final(start, script) == Final(ring.Order(), script[k..])
    {
      Unroll(ring.Order(), script, k, trace, exited);
      ghost var before := ring.nodes;
      var ran := Transfer(ring, script[k]);
      forall i | 0 <= i < |ring.nodes| ensures fresh(ring.nodes[i]) {
        assert ring.nodes[i] in ring.nodes && ring.nodes[i] in before;
      }
      trace := trace + [ran];
      exited := exited + if script[k].Exit? then [ran] else [];
      k := k + 1;
    }
    done := ring.cursor == null;
    AtEnd(ring.Order(), script[k..]);
    TasksConserved(start, script);
    RegisteredOnce(length);
  }

  lemma AtEnd(order: seq<nat>, acts: seq<Act>)
    requires order == [] || acts == []
    ensures Trace(order, acts) == [] == Exited(order, acts) && Final(order, acts) == order
  {
  }
}
