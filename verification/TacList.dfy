/** The linked lists in which the lowering pass keeps its code.

    A list is its first node, and that node alone caches the last one; appending
    relinks nodes in place.  The sequence `nodes` is the list as a value.
  */
module TacList {
  import opened Tac

  class Node {
    var instr: Instr
    var next: Node?
    var last: Node?

    constructor (i: Instr)
      ensures instr == i && next == null && last == this
    {
      instr := i;
      next := null;
      last := this;
    }
  }

  /** `h` heads a chain through exactly `nodes`; what follows the chain is left open, but
      its end can be found. */
  ghost predicate Linked(h: Node?, nodes: seq<Node>)
    reads nodes
  {
    && |nodes| > 0 && h == nodes[0]
    && (forall i, j :: 0 <= i < j < |nodes| ==> nodes[i] != nodes[j])
    && (forall i :: 0 <= i < |nodes| - 1 ==> nodes[i].next == nodes[i + 1])
    && (nodes[0].last == nodes[|nodes| - 1] || (nodes[0].last == null && nodes[|nodes| - 1].next == null))
  }

  /** A list as the lowering functions hand it around; null is the empty one. */
  ghost predicate IsList(h: Node?, nodes: seq<Node>)
    reads nodes
  {
    (h == null && nodes == []) || (Linked(h, nodes) && nodes[|nodes| - 1].next == null)
  }

  ghost function Contents(nodes: seq<Node>): Code
    reads nodes
  {
    seq(|nodes|, i requires 0 <= i < |nodes| reads nodes => nodes[i].instr)
  }

  /** Walks to the end of a list. */
  method FindLast(h: Node, ghost nodes: seq<Node>) returns (cur: Node)
    requires Linked(h, nodes) && nodes[|nodes| - 1].next == null
    ensures cur == nodes[|nodes| - 1]
  {
    cur := h;
    ghost var i := 0;
    while cur.next != null
      invariant 0 <= i < |nodes| && cur == nodes[i]
      invariant i < |nodes| - 1 ==> cur.next == nodes[i + 1]
      decreases |nodes| - i
    {
      i := i + 1;
      cur := cur.next;
    }
  }

  ghost predicate Separate(a: seq<Node>, b: seq<Node>) {
    forall i, j :: 0 <= i < |a| && 0 <= j < |b| ==> a[i] != b[j]
  }

  /** Two chains, the first ending at the head of the second, are one list. */
  lemma Joined(a: seq<Node>, b: seq<Node>)
    requires |a| > 0 && Linked(if |b| > 0 then b[0] else null, b) && Separate(a, b)
    requires forall i, j :: 0 <= i < j < |a| ==> a[i] != a[j]
    requires forall i :: 0 <= i < |a| - 1 ==> a[i].next == a[i + 1]
    requires a[|a| - 1].next == b[0] && a[0].last == b[|b| - 1] && b[|b| - 1].next == null
    ensures IsList(a[0], a + b)
  {
    var all := a + b;
    forall i | 0 <= i < |all| - 1 ensures all[i].next == all[i + 1] {
      if i < |a| - 1 {
        assert all[i] == a[i] && all[i + 1] == a[i + 1];
      } else if i > |a| - 1 {
        assert all[i] == b[i - |a|] && all[i + 1] == b[i - |a| + 1];
      }
    }
    forall i, j | 0 <= i < j < |all| ensures all[i] != all[j] {
      if i < |a| <= j {
        assert a[i] in a && b[j - |a|] in b;
      }
    }
  }

  /** Fills in the cached last node if it is missing. */
  method CacheLast(h: Node, ghost nodes: seq<Node>)
    requires Linked(h, nodes)
    modifies h`last
    ensures Linked(h, nodes) && h.last == nodes[|nodes| - 1]
  {
    if h.last == null {
      h.last := FindLast(h, nodes);
    }
  }

  /** The two pointer writes of an append. */
  method Relink(head: Node, ghost a: seq<Node>, tail: Node, ghost b: seq<Node>)
    requires Linked(head, a) && Linked(tail, b) && IsList(tail, b)
    requires head.last == a[|a| - 1] && tail.last == b[|b| - 1]
    requires Separate(a, b) || (head == tail && a == b)
    modifies head`last, head.last`next
    ensures Separate(a, b) ==> IsList(head, a + b)
    ensures head == tail ==> Linked(head, a)
  {
    assert a[0] in a && a[|a| - 1] in a && b[0] in b;
    assert Separate(a, b) ==> forall i :: 0 <= i < |b| ==> b[i] != a[|a| - 1] && b[i] != head;
    head.last.next := tail;
    head.last := tail.last;
    if Separate(a, b) {
      Joined(a, b);
    }
  }

  /** Appends the list `tail` to the list `head`.  The two are separate lists, or one and the
      same: appending a list to itself ties its end back to its head, but leaves it a chain
      to which more can be appended. */
  method Concat(head: Node?, ghost a: seq<Node>, tail: Node?, ghost b: seq<Node>) returns (r: Node?)
    requires (head == null && a == []) || Linked(head, a)
    requires IsList(tail, b)
    requires Separate(a, b) || (head == tail && a == b)
    modifies a, b
    ensures forall x :: x in a + b ==> x.instr == old(x.instr)
    ensures tail == null ==> r == head && forall x :: x in a ==> x.next == old(x.next) && x.last == old(x.last)
    ensures tail != null && Separate(a, b) ==> IsList(r, a + b)
    ensures tail != null && head == tail ==> r == head && Linked(r, a)
  {
    r := head;
    if tail == null {
      return;
    }
    CacheLast(tail, b);
    if head == null {
      r := tail;
      assert a + b == b;
      return;
    }
    assert forall i :: 0 <= i < |a| ==> a[i] in a;
    CacheLast(head, a);
    Relink(head, a, tail, b);
  }

  /** A narrowing or widening cast appends its operand's code to itself before it appends
      its own instruction; the outcome is the operand's code and then that instruction. */
  method AppendAfterSelfAppend(src: Node?, ghost a: seq<Node>, x: Node) returns (r: Node?)
    requires IsList(src, a) && IsList(x, [x]) && x !in a
    modifies a, x
    ensures IsList(r, a + [x])
    ensures Contents(a + [x]) == old(Contents(a)) + [old(x.instr)]
  {
    r := Concat(src, a, src, a);
    r := Concat(r, a, x, [x]);
  }
}
