/** The pool of equal-sized nodes: first handed out in order of memory, later from the list
    of nodes put back (src/libwu/wulist.c:6-56, src/libwu/wutree.c:347-360). */
module NodePools {
  const NIL := -1

  /** Following the links from `head` yields exactly `free`. */
  predicate Chain(next: seq<int>, head: int, free: seq<nat>)
    decreases |free|
  {
    if free == [] then head == NIL else head == free[0] && head < |next| && Chain(next, next[head], free[1..])
  }

  lemma {:induction false} ChainKept(next: seq<int>, head: int, free: seq<nat>, node: nat, x: int)
    requires Chain(next, head, free) && node < |next| && node !in free
    ensures Chain(next[node := x], head, free)
    decreases |free|
  {
    if free != [] {
      ChainKept(next, next[head], free[1..], node, x);
    }
  }

  class NodePool {
    const size: nat
    const next: array<int>
    var index: nat
    var head: int
    /** The nodes on the free list, first one first. */
    ghost var free: seq<nat>

    ghost predicate Valid()
      reads this, next
    {
      && next.Length == size && index <= size
      && (forall i :: 0 <= i < |free| ==> free[i] < index)
      && (forall i, j :: 0 <= i < j < |free| ==> free[i] != free[j])
      && Chain(next[..], head, free)
    }

    /** Nodes handed out and not put back. */
    ghost function InUse(): set<nat>
      reads this
    {
      set n: nat | 0 <= n < index && n !in free
    }

    constructor (size: nat)
      ensures Valid() && fresh(next) && this.size == size && index == 0 && free == [] && InUse() == {}
    {
      this.size := size;
      next := new int[size](_ => NIL);
      index, head, free := 0, NIL, [];
    }

    /** A node that is not in use, or none when all are. Before anything is put back the
        nodes come in order, so exactly `size` of them. */
    method Get() returns (node: int)
      requires Valid()
      modifies this
      ensures Valid()
      ensures node == NIL <==> |old(free)| == 0 && old(index) == size
      ensures node == NIL ==> forall n :: 0 <= n < size ==> n in old(InUse())
      ensures node == NIL ==> InUse() == old(InUse()) && index == old(index) && free == old(free)
      ensures node != NIL ==> 0 <= node < size && node !in old(InUse()) && InUse() == old(InUse()) + {node}
      ensures old(index) < size ==> node == old(index) && index == old(index) + 1 && free == old(free)
    {
      node := NIL;
      if index < size {
        node := index;
        index := index + 1;
        assert node !in old(InUse()) && node !in free;
      } else if head != NIL {
        node := head;
        head := next[head];
        free := free[1..];
        assert old(free) == [node] + free;
      }
    }

    /** Puts a node in use back, to be handed out first. */
    method Put(node: nat)
      requires Valid() && node in InUse()
      modifies this, next
      ensures Valid() && InUse() == old(InUse()) - {node} && free == [node] + old(free) && index == old(index)
    {
      ChainKept(next[..], head, free, node, head);
      next[node] := head;
      head := node;
      free := [node] + free;
    }
  }
}
