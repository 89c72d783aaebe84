/** The free lists of the frame allocator: one doubly linked list per order, threaded
    through the free frames themselves, and a bitmap with a bit per frame.

    `Snap` is the memory that the three list operations touch.  Frames are named by
    index; -1 is the null pointer.
  */
module FreeLists {
  import opened Sequences
  import opened BuddyBlocks

  const NIL := -1

  datatype Snap = Snap(heads: seq<int>, next: seq<int>, prev: seq<int>, order: seq<int>, bits: seq<bool>)

  // ----- A single list -----

  function After(l: seq<nat>, j: nat): int {
    if j + 1 < |l| then l[j + 1] else NIL
  }

  function Before(l: seq<nat>, j: nat): int
    requires j <= |l|
  {
    if j > 0 then l[j - 1] else NIL
  }

  /** `l` is the list from `head` along `next` to NIL, and back along `prev`. */
  ghost predicate Chain(next: seq<int>, prev: seq<int>, head: int, l: seq<nat>) {
    && |next| == |prev|
    && head == (if l == [] then NIL else l[0])
    && (forall j :: 0 <= j < |l| ==> l[j] < |next|)
    && (forall j {:trigger After(l, j)} :: 0 <= j < |l| ==> next[l[j]] == After(l, j))
    && (forall j {:trigger Before(l, j)} :: 0 <= j < |l| ==> prev[l[j]] == Before(l, j))
  }

  /** A chain depends only on the links of its own nodes. */
  lemma ChainFrame(next: seq<int>, prev: seq<int>, next': seq<int>, prev': seq<int>, head: int, l: seq<nat>)
    requires Chain(next, prev, head, l) && |next'| == |prev'| == |next|
    requires forall x :: x in l && x < |next| ==> next'[x] == next[x] && prev'[x] == prev[x]
    ensures Chain(next', prev', head, l)
  {
    forall j | 0 <= j < |l| ensures next'[l[j]] == After(l, j) && prev'[l[j]] == Before(l, j) {
      assert l[j] in l;
    }
  }

  function SetIf(s: seq<int>, i: int, v: int): (r: seq<int>)
    requires i == NIL || 0 <= i < |s|
    ensures |r| == |s|
  {
    if i == NIL then s else s[i := v]
  }

  lemma ChainPush(next: seq<int>, prev: seq<int>, head: int, l: seq<nat>, x: nat)
    requires Chain(next, prev, head, l) && Once(l) && x !in l && x < |next|
    ensures head == NIL || 0 <= head < |prev|
    ensures Chain(next[x := head], SetIf(prev[x := NIL], head, x), x, [x] + l) && Once([x] + l)
  {
    var l' := [x] + l;
    var next', prev' := next[x := head], SetIf(prev[x := NIL], head, x);
    forall j | 0 <= j < |l'| ensures next'[l'[j]] == After(l', j) && prev'[l'[j]] == Before(l', j) {
      if j > 0 {
        assert l'[j] == l[j - 1] && l[j - 1] in l;
        assert After(l', j) == After(l, j - 1);
        assert j > 1 ==> Before(l', j) == Before(l, j - 1) && l[j - 1] != l[0];
      }
    }
  }

  /** Where position `i` of `Cut(l, j)` comes from. */
  function Origin(j: nat, i: nat): nat {
    if i < j then i else i + 1
  }

  lemma WithoutElements(l: seq<nat>, j: nat)
    requires Once(l) && j < |l|
    ensures Once(Cut(l, j))
    ensures forall y :: y in Cut(l, j) <==> y in l && y != l[j]
  {
    var l' := Cut(l, j);
    assert forall i :: 0 <= i < |l'| ==> l'[i] == l[Origin(j, i)];
    forall y | y in l && y != l[j] ensures y in l' {
      var i := IndexOf(l, y);
      assert y == l'[if i < j then i else i - 1];
    }
  }

  ghost function IndexOf(l: seq<nat>, x: nat): (j: nat)
    requires x in l
    ensures j < |l| && l[j] == x
  {
    var j: nat :| j < |l| && l[j] == x;
    j
  }

  /** The links of one remaining node after position `j` is unlinked. */
  lemma UnlinkAt(next: seq<int>, prev: seq<int>, head: int, l: seq<nat>, j: nat, i: nat)
    requires Chain(next, prev, head, l) && Once(l) && j < |l| && i + 1 < |l|
    ensures var p, q, l', o := Before(l, j), After(l, j), Cut(l, j), l[Origin(j, i)];
            && l'[i] == o && o != l[j]
            && (if o == p then q else next[o]) == After(l', i)
            && (if o == q then p else prev[o]) == Before(l', i)
  {
    var o := Origin(j, i);
    assert next[l[o]] == After(l, o) && prev[l[o]] == Before(l, o);
    assert j > 0 ==> (l[o] == l[j - 1] <==> o == j - 1);
    assert j + 1 < |l| ==> (l[o] == l[j + 1] <==> o == j + 1);
  }

  /** Unlinking position `j`: its neighbours, or the head, are joined. */
  lemma ChainUnlink(next: seq<int>, prev: seq<int>, head: int, l: seq<nat>, j: nat)
    requires Chain(next, prev, head, l) && Once(l) && j < |l|
    ensures var x := l[j];
            var p, q := prev[x], next[x];
            && (p == NIL || 0 <= p < |next|) && (q == NIL || 0 <= q < |next|)
            && Chain(SetIf(next, p, q)[x := NIL], SetIf(prev, q, p)[x := NIL], if p == NIL then q else head, Cut(l, j))
  {
    hide Once, After, Before;
    var x := l[j];
    var p, q := prev[x], next[x];
    assert p == Before(l, j) && q == After(l, j);
    Neighbours(next, prev, head, l, j);
    var l' := Cut(l, j);
    var next', prev' := SetIf(next, p, q)[x := NIL], SetIf(prev, q, p)[x := NIL];
    forall i | 0 <= i < |l'| ensures next'[l'[i]] == After(l', i) && prev'[l'[i]] == Before(l', i) {
      UnlinkAt(next, prev, head, l, j, i);
    }
  }

  lemma Neighbours(next: seq<int>, prev: seq<int>, head: int, l: seq<nat>, j: nat)
    requires Chain(next, prev, head, l) && j < |l|
    ensures Before(l, j) == NIL || 0 <= Before(l, j) < |next|
    ensures After(l, j) == NIL || 0 <= After(l, j) < |next|
    ensures Before(l, j) == NIL <==> j == 0
    ensures Cut(l, j) == [] ==> After(l, j) == NIL && j == 0
    ensures Cut(l, j) != [] ==> Cut(l, j)[0] == if j == 0 then After(l, j) else head
  {
  }

  // ----- The three operations -----

  function Push(s: Snap, x: nat, k: nat): Snap
    requires k < |s.heads| && x < |s.next| && |s.next| == |s.prev| == |s.order| == |s.bits|
    requires s.heads[k] == NIL || 0 <= s.heads[k] < |s.prev|
  {
    Snap(s.heads[k := x], s.next[x := s.heads[k]], SetIf(s.prev[x := NIL], s.heads[k], x),
         s.order[x := k], s.bits[x := true])
  }

  function Remove(s: Snap, x: nat): Snap
    requires x < |s.next| && |s.next| == |s.prev| == |s.order| == |s.bits| && 0 <= s.order[x] < |s.heads|
    requires s.prev[x] == NIL || 0 <= s.prev[x] < |s.next|
    requires s.next[x] == NIL || 0 <= s.next[x] < |s.next|
  {
    Snap(if s.prev[x] == NIL then s.heads[s.order[x] := s.next[x]] else s.heads,
         SetIf(s.next, s.prev[x], s.next[x])[x := NIL], SetIf(s.prev, s.next[x], s.prev[x])[x := NIL],
         s.order, s.bits[x := false])
  }

  /** The lists hold exactly the free blocks, each in the list of its order, and a bit is set
      exactly at the first frame of a free block. */
  ghost predicate Inv(s: Snap, free: Blocks, lists: seq<seq<nat>>, n: nat, m: nat) {
    && |s.heads| == m + 1 == |lists|
    && |s.next| == |s.prev| == |s.order| == |s.bits| == n
    && (forall i: nat :: i < n ==> (s.bits[i] <==> i in free))
    && (forall i :: i in free ==> i < n && free[i] <= m && s.order[i] == free[i])
    && (forall k :: 0 <= k <= m ==> ListOk(s, free, lists, k))
  }

  ghost predicate ListOk(s: Snap, free: Blocks, lists: seq<seq<nat>>, k: nat)
    requires k < |s.heads| && k < |lists|
  {
    && Chain(s.next, s.prev, s.heads[k], lists[k]) && Once(lists[k])
    && (forall x :: x in lists[k] <==> x in free && free[x] == k)
  }

  lemma PushInv(s: Snap, free: Blocks, lists: seq<seq<nat>>, n: nat, m: nat, x: nat, k: nat)
    requires Inv(s, free, lists, n, m) && x !in free && x < n && k <= m
    ensures s.heads[k] == NIL || 0 <= s.heads[k] < n
    ensures Inv(Push(s, x, k), free[x := k], lists[k := [x] + lists[k]], n, m)
  {
    assert ListOk(s, free, lists, k);
    ChainPush(s.next, s.prev, s.heads[k], lists[k], x);
    var s', free', lists' := Push(s, x, k), free[x := k], lists[k := [x] + lists[k]];
    forall j | 0 <= j <= m ensures ListOk(s', free', lists', j) {
      assert ListOk(s, free, lists, j);
      if j != k {
        assert lists[k] != [] ==> lists[k][0] in lists[k];
        ChainFrame(s.next, s.prev, s'.next, s'.prev, s.heads[j], lists[j]);
      }
    }
  }

  lemma RemoveInv(s: Snap, free: Blocks, lists: seq<seq<nat>>, n: nat, m: nat, x: nat)
    requires Inv(s, free, lists, n, m) && x in free
    ensures x in lists[free[x]]
    ensures (s.prev[x] == NIL || 0 <= s.prev[x] < n) && (s.next[x] == NIL || 0 <= s.next[x] < n)
    ensures Inv(Remove(s, x), free - {x}, lists[free[x] := Cut(lists[free[x]], IndexOf(lists[free[x]], x))], n, m)
  {
    hide Chain;
    var k := free[x];
    assert ListOk(s, free, lists, k);
    var l := lists[k];
    var j := IndexOf(l, x);
    WithoutElements(l, j);
    ChainUnlink(s.next, s.prev, s.heads[k], l, j);
    var s', free', lists' := Remove(s, x), free - {x}, lists[k := Cut(l, j)];
    forall i | 0 <= i <= m ensures ListOk(s', free', lists', i) {
      assert ListOk(s, free, lists, i);
      if i != k {
        LinksStay(s.next, s.prev, s.heads[k], l, j);
        ChainFrame(s.next, s.prev, s'.next, s'.prev, s.heads[i], lists[i]);
      }
    }
  }

  /** The neighbours of a node are in its list. */
  lemma LinksStay(next: seq<int>, prev: seq<int>, head: int, l: seq<nat>, j: nat)
    requires Chain(next, prev, head, l) && j < |l|
    ensures prev[l[j]] != NIL ==> prev[l[j]] in l
    ensures next[l[j]] != NIL ==> next[l[j]] in l
  {
    assert next[l[j]] == After(l, j) && prev[l[j]] == Before(l, j);
  }

  /** The head of a non-empty list is a free block of that order, with nothing before it. */
  lemma HeadIsFree(s: Snap, free: Blocks, lists: seq<seq<nat>>, n: nat, m: nat, k: nat)
    requires Inv(s, free, lists, n, m) && k <= m
    ensures s.heads[k] == NIL <==> forall x :: x in free ==> free[x] != k
    ensures s.heads[k] != NIL ==>
              && 0 <= s.heads[k] < n && s.prev[s.heads[k]] == NIL
              && var x: nat := s.heads[k]; x in free && free[x] == k
  {
    assert ListOk(s, free, lists, k);
    var l := lists[k];
    assert l != [] ==> l[0] in l && s.prev[l[0]] == Before(l, 0);
  }

  /** Writing the link words of a frame that is not the head of a free block changes nothing:
      the owner of an allocated block may use it freely. */
  lemma ScribbleInv(s: Snap, free: Blocks, lists: seq<seq<nat>>, n: nat, m: nat, x: nat, a: int, b: int, c: int)
    requires Inv(s, free, lists, n, m) && x < n && x !in free
    ensures Inv(s.(next := s.next[x := a], prev := s.prev[x := b], order := s.order[x := c]), free, lists, n, m)
  {
    var s' := s.(next := s.next[x := a], prev := s.prev[x := b], order := s.order[x := c]);
    forall k | 0 <= k <= m ensures ListOk(s', free, lists, k) {
      assert ListOk(s, free, lists, k);
      ChainFrame(s.next, s.prev, s'.next, s'.prev, s.heads[k], lists[k]);
    }
  }

  lemma EmptyLists(s: Snap, n: nat, m: nat)
    requires s.heads == seq(m + 1, _ => NIL) && s.bits == seq(n, _ => false)
    requires |s.next| == |s.prev| == |s.order| == n
    ensures Inv(s, map[], seq(m + 1, _ => []), n, m)
  {
  }
}
