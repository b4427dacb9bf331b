/** The circular doubly linked ring of multitasking/contextring.c. */
module Ring {

  class Node {
    var prev: Node
    var next: Node
    const ctx: nat

    /** A node alone is its own neighbour on both sides. */
    constructor (ctx: nat)
      ensures next == this && prev == this && this.ctx == ctx
    {
      this.ctx := ctx;
      next, prev := this, this;
    }
  }

  function After(i: nat, n: nat): nat
    requires i < n
  {
    if i + 1 == n then 0 else i + 1
  }

  /** "Insert behind the cursor and move to it", on the cycle read from the cursor. */
  function Inserted<T>(order: seq<T>, t: T): seq<T> {
    if order == [] then [t] else [t] + order[1..] + [order[0]]
  }

  /** "Delete the cursor and move to the next". */
  function Removed<T>(order: seq<T>): seq<T>
    requires order != []
  {
    order[1..]
  }

  function Advanced<T>(order: seq<T>): seq<T>
    requires order != []
  {
    order[1..] + [order[0]]
  }

  /** The links of the nodes run round in this order. */
  ghost predicate IsCycle(nodes: seq<Node>)
    reads nodes
  {
    && (forall i, j | 0 <= i < j < |nodes| :: nodes[i] != nodes[j])
    && (forall i | 0 <= i < |nodes| :: nodes[i].next == nodes[After(i, |nodes|)])
    && (forall i | 0 <= i < |nodes| :: nodes[After(i, |nodes|)].prev == nodes[i])
  }

  function Contexts(nodes: seq<Node>): seq<nat> {
    seq(|nodes|, i requires 0 <= i < |nodes| => nodes[i].ctx)
  }

  lemma OpenedUp(nodes: seq<Node>, i: nat)
    requires IsCycle(nodes) && i < |nodes|
    ensures i + 1 < |nodes| ==> nodes[i].next == nodes[i + 1] && nodes[i + 1].prev == nodes[i]
    ensures i + 1 == |nodes| ==> nodes[i].next == nodes[0] && nodes[0].prev == nodes[i]
  {
    assert nodes[After(i, |nodes|)].prev == nodes[i];
  }

  lemma ClosedUp(nodes: seq<Node>)
    requires nodes != [] && (forall i, j | 0 <= i < j < |nodes| :: nodes[i] != nodes[j])
    requires forall i | 0 < i < |nodes| :: nodes[i - 1].next == nodes[i] && nodes[i].prev == nodes[i - 1]
    requires nodes[|nodes| - 1].next == nodes[0] && nodes[0].prev == nodes[|nodes| - 1]
    ensures IsCycle(nodes)
  {
    forall i | 0 <= i < |nodes|
      ensures nodes[i].next == nodes[After(i, |nodes|)] && nodes[After(i, |nodes|)].prev == nodes[i]
    {
      if i + 1 < |nodes| {
        assert nodes[i + 1 - 1].next == nodes[i + 1];
      }
    }
  }

  /** The cycle read from its second node. */
  lemma Turned(was: seq<Node>)
    requires was != [] && IsCycle(was)
    ensures IsCycle(was[1..] + [was[0]])
  {
    var n, nodes := |was|, was[1..] + [was[0]];
    assert forall i | 0 <= i < n :: nodes[i] == if i + 1 < n then was[i + 1] else was[0];
    forall i | 0 < i < n ensures nodes[i - 1].next == nodes[i] && nodes[i].prev == nodes[i - 1] {
      OpenedUp(was, i);
    }
    OpenedUp(was, 0);
    hide IsCycle;
    ClosedUp(nodes);
  }

  /** A node put between the first of a cycle and the one behind it. */
  lemma Spliced(was: seq<Node>, node: Node)
    requires was != [] && node !in was && (forall i, j | 0 <= i < j < |was| :: was[i] != was[j])
    requires node.next == (if |was| == 1 then was[0] else was[1]) && node.prev == was[0]
    requires was[0].next == node && (if |was| == 1 then was[0] else was[1]).prev == node
    requires forall i | 0 < i < |was| :: was[i].next == was[After(i, |was|)] && was[After(i, |was|)].prev == was[i]
    ensures IsCycle(Grown(was, node))
  {
    var n, nodes := |was|, [node] + was[1..] + [was[0]];
    assert forall i | 0 < i < n :: nodes[i] == was[i];
    assert nodes[n] == was[0] && nodes[0] == node && |nodes| == n + 1;
    forall i | 0 < i <= n ensures nodes[i - 1].next == nodes[i] && nodes[i].prev == nodes[i - 1] {
      if i > 1 {
        assert was[i - 1].next == was[After(i - 1, n)] == nodes[i];
      }
    }
    hide IsCycle;
    ClosedUp(nodes);
  }

  /** A cycle whose first node was taken out. */
  lemma Spared(was: seq<Node>)
    requires |was| > 1 && forall i, j | 0 <= i < j < |was| :: was[i] != was[j]
    requires was[|was| - 1].next == was[1] && was[1].prev == was[|was| - 1]
    requires forall i | 0 < i < |was| - 1 :: was[i].next == was[i + 1] && was[i + 1].prev == was[i]
    ensures IsCycle(was[1..])
  {
    var n, nodes := |was| - 1, was[1..];
    assert forall i | 0 <= i < n :: nodes[i] == was[i + 1];
  }

  function Grown(was: seq<Node>, node: Node): seq<Node> {
    if was == [] then [node] else [node] + was[1..] + [was[0]]
  }

  lemma GrownMeans(was: seq<Node>, node: Node)
    ensures var nodes := Grown(was, node);
            && |nodes| == |was| + 1 && nodes[0] == node && Contexts(nodes) == Inserted(Contexts(was), node.ctx)
            && nodes[1..] == if was == [] then [] else was[1..] + [was[0]]
  {
  }

  lemma AloneIsCycle(node: Node)
    requires node.next == node == node.prev
    ensures IsCycle([node])
  {
  }

  class ContextRing {
    var cursor: Node?
    ghost var nodes: seq<Node>

    /** The links run round the cycle `nodes`, which starts at the cursor. */
    ghost predicate Valid()
      reads this, nodes
    {
      && (cursor == null <==> nodes == [])
      && (nodes != [] ==> cursor == nodes[0])
      && IsCycle(nodes)
    }

    ghost function Order(): seq<nat>
      reads this
    {
      Contexts(nodes)
    }

    constructor ()
      ensures Valid() && nodes == []
    {
      cursor, nodes := null, [];
    }

    /** Going there and back from any node leads to that node. */
    lemma LinksMirrored(i: nat)
      requires Valid() && i < |nodes|
      ensures nodes[i].next.prev == nodes[i] && nodes[i].prev.next == nodes[i]
    {
      var j := if i == 0 then |nodes| - 1 else i - 1;
      assert After(j, |nodes|) == i;
    }

    /** The four assignments of `insert` */
    method Link(node: Node)
      requires Valid() && cursor != null && node !in nodes
      modifies node, cursor, cursor.next
      ensures node.next == (if |nodes| == 1 then nodes[0] else nodes[1]) && node.prev == nodes[0]
      ensures nodes[0].next == node && (if |nodes| == 1 then nodes[0] else nodes[1]).prev == node
      ensures forall i | 0 < i < |nodes| ::
                nodes[i].next == nodes[After(i, |nodes|)] && nodes[After(i, |nodes|)].prev == nodes[i]
    {
      assert cursor.next == nodes[After(0, |nodes|)];
      node.next := cursor.next;
      node.prev := cursor;
      cursor.next.prev := node;
      cursor.next := node;
    }

    method LinkIn(node: Node)
      requires Valid() && cursor != null && node !in nodes
      modifies node, nodes
      ensures IsCycle(Grown(nodes, node))
    {
      assert cursor.next == nodes[After(0, |nodes|)];
      Link(node);
      hide IsCycle, After;
      Spliced(nodes, node);
    }

    method Insert(ctx: nat)
      requires Valid()
      modifies this, nodes
      ensures Valid() && Order() == Inserted(old(Order()), ctx)
      ensures |nodes| == old(|nodes|) + 1 && fresh(nodes[0])
      ensures nodes[1..] == old(if nodes == [] then [] else nodes[1..] + [nodes[0]])
    {
      hide IsCycle, Contexts, Inserted, After;
      var node := new Node(ctx);
      ghost var grown := Grown(nodes, node);
      GrownMeans(nodes, node);
      if cursor != null {
        LinkIn(node);
      } else {
        AloneIsCycle(node);
      }
      cursor, nodes := node, grown;
    }

    /** The two assignments of `shrink` to the neighbours */
    method Unlink()
      requires Valid() && cursor != null && |nodes| > 1
      modifies nodes
      ensures var n := |nodes|;
              && nodes[n - 1].next == nodes[1] && nodes[1].prev == nodes[n - 1] && nodes[0].next == nodes[1]
              && forall i | 0 < i < n - 1 :: nodes[i].next == nodes[i + 1] && nodes[i + 1].prev == nodes[i]
    {
      LinksMirrored(0);
      assert nodes[0].next == nodes[After(0, |nodes|)] && nodes[|nodes| - 1].next == nodes[After(|nodes| - 1, |nodes|)];
      assert cursor.prev == nodes[|nodes| - 1] && cursor.next == nodes[1];
      assert forall i | 0 < i < |nodes| - 1 :: nodes[i].next == nodes[After(i, |nodes|)] == nodes[i + 1];
      cursor.prev.next := cursor.next;
      cursor.next.prev := cursor.prev;
    }

    method Shrink()
      requires Valid() && cursor != null
      modifies this, nodes
      ensures Valid() && nodes == Removed(old(nodes)) && Order() == Removed(old(Order()))
    {
      assert nodes[0].next == nodes[After(0, |nodes|)];
      if cursor.next == cursor {
        cursor := null;
      } else {
        Unlink();
        Spared(nodes);
        hide IsCycle, After;
        cursor := cursor.next;
      }
      nodes := nodes[1..];
    }

    /** The update of the `for` loop of `sus_runall` */
    method Advance()
      requires Valid() && cursor != null
      modifies this
      ensures Valid() && nodes == Advanced(old(nodes)) && Order() == Advanced(old(Order()))
    {
      OpenedUp(nodes, 0);
      Turned(nodes);
      hide IsCycle;
      cursor := cursor.next;
      nodes := nodes[1..] + [nodes[0]];
    }
  }
}
