/** The agent's tree of object identifiers in memory (src/wu_snmp_lib.c:697-699, 775-841,
    src/libwu/wutree.c:54-67, 124-137, 308-324). */
module OidTrees {
  import opened OidTrie
  import opened Options
  import opened NodePools

  class OidTree {
    const pool: NodePool
    const nodes: array<Node>
    /** What can be found, and every identifier whose registration was tried. */
    ghost var objects: map<Oid, Handle>
    ghost var tried: set<Oid>

    /** The nodes in use. */
    ghost function Table(): seq<Node>
      reads pool, nodes
      requires pool.index <= nodes.Length
    {
      nodes[..pool.index]
    }

    /** Memory in order: nodes come from the pool one after the other, the rest is blank. */
    ghost predicate Laid()
      reads pool, pool.next, nodes
    {
      && nodes as object != pool.next as object
      && pool.Valid() && pool.size == nodes.Length && pool.free == [] && 1 <= pool.index
      && (forall i :: pool.index <= i < nodes.Length ==> nodes[i] == BLANK)
    }

    ghost predicate Valid()
      reads this, pool, pool.next, nodes
    {
      Laid() && Keeps(Table(), objects, tried)
    }

    constructor (size: nat)
      requires size >= 1
      ensures Valid() && fresh(pool) && fresh(pool.next) && fresh(nodes)
      ensures nodes.Length == size && pool.index == 1 && objects == map[] && tried == {}
    {
      pool := new NodePool(size);
      nodes := new Node[size](_ => BLANK);
      objects, tried := map[], {};
      new;
      var root := pool.Get();
      EmptyKeeps(BLANK);
      assert Table() == [BLANK];
    }

    /** The son of n that carries o. */
    method FindSon(n: nat, o: nat) returns (son: int)
      requires Laid() && Linked(Table()) && n < pool.index
      ensures son == FindInSons(Table(), n, o)
    {
      ghost var t := Table();
      assert NodeLinked(t, n);
      son := nodes[n].eldestson;
      while son != NIL
        invariant son == NIL || 0 <= son < |t|
        invariant SonFrom(t, son, o) == FindInSons(t, n, o)
        decreases if son == NIL then 0 else |t| - son
      {
        assert NodeLinked(t, son);
        if nodes[son].data == o {
          return;
        }
        son := nodes[son].right;
      }
    }

    /** The youngest son of n. */
    method YoungestSon(n: nat) returns (son: int)
      requires Laid() && Linked(Table()) && n < pool.index
      ensures son == Littleson(Table(), n)
    {
      ghost var t := Table();
      assert NodeLinked(t, n);
      son := nodes[n].eldestson;
      if son == NIL {
        return;
      }
      while nodes[son].right != NIL
        invariant 0 <= son < |t| && LastFrom(t, son) == Littleson(t, n)
        decreases |t| - son
      {
        assert NodeLinked(t, son);
        son := nodes[son].right;
      }
    }

    /** Links a blank node behind the nodes in use as youngest son of n. */
    method AddLittleson(n: nat, o: nat, little: int, added: nat)
      requires added < nodes.Length && Linked(nodes[..added]) && n < added && little == Littleson(nodes[..added], n)
      modifies nodes
      ensures nodes[..added + 1] == AddSon(old(nodes[..added]), n, o)
      ensures nodes[added + 1..] == old(nodes[added + 1..])
    {
      ghost var t := nodes[..added];
      nodes[added] := Node(little, NIL, n, NIL, nodes[n].depth + 1, o, None);
      if little != NIL {
        nodes[little] := nodes[little].(right := added);
      } else {
        nodes[n] := nodes[n].(eldestson := added);
      }
      assert nodes[..added] == if little == NIL then t[n := t[n].(eldestson := added)]
        else t[little := t[little].(right := added)];
      assert nodes[..added + 1] == nodes[..added] + [nodes[added]];
    }

    /** A node for o from the pool, made the youngest son of n; none when the pool is empty. */
    method AddNode(n: nat, o: nat) returns (added: int)
      requires Laid() && Linked(Table()) && n < pool.index
      modifies pool, nodes
      ensures Laid()
      ensures old(pool.index) == nodes.Length ==> added == NIL && Table() == old(Table())
      ensures old(pool.index) < nodes.Length ==> added == old(pool.index) && pool.index == added + 1
      ensures old(pool.index) < nodes.Length ==> Table() == AddSon(old(Table()), n, o)
    {
      var little := YoungestSon(n);
      added := pool.Get();
      if added != NIL {
        AddLittleson(n, o, little, added);
        forall i | pool.index <= i < nodes.Length ensures nodes[i] == BLANK {
          assert nodes[i] == nodes[added + 1..][i - (added + 1)];
        }
      }
    }

    /** Registers an object under an identifier that is neither the beginning nor the
        continuation of an earlier one. It succeeds exactly if the pool has the nodes that
        are missing; else the nodes are used up and nothing that can be found has changed. */
    method Register(oid: Oid, h: Handle) returns (ok: bool)
      requires Valid() && oid != [] && forall p :: p in tried ==> Unrelated(p, oid)
      modifies this, pool, nodes
      ensures Valid() && tried == old(tried) + {oid}
      ensures ok <==> Missing(old(Table()), ROOT, oid) <= nodes.Length - old(pool.index)
      ensures pool.index == if ok then old(pool.index) + Missing(old(Table()), ROOT, oid) else nodes.Length
      ensures objects == if ok then old(objects)[oid := h] else old(objects)
    {
      ghost var t, more := Table(), tried + {oid};
      SetOut(t, objects, tried, oid);
      tried := more;
      var added := Grow(oid, objects, more);
      ok := added != NIL;
      if ok {
        Arrived(Table(), t, objects, more, oid, added, added, h);
        HangObject(added, h);
        objects := objects[oid := h];
      }
    }

    /** Walks down an identifier and adds what is missing; none if the pool ends first. */
    method Grow(oid: Oid, ghost m: map<Oid, Handle>, ghost more: set<Oid>) returns (added: int)
      requires Laid() && OnTheWay(Table(), Table(), m, more, oid, 0, ROOT, NIL)
      modifies pool, nodes
      ensures Laid() && Keeps(Table(), m, more)
      ensures added == NIL ==> pool.index == nodes.Length < |old(Table())| + Missing(old(Table()), ROOT, oid)
      ensures added != NIL ==> OnTheWay(Table(), old(Table()), m, more, oid, |oid|, added, added)
    {
      hide Linked, Missing;
      ghost var t := Table();
      var node := ROOT;
      added := NIL;
      for i := 0 to |oid|
        invariant Laid() && OnTheWay(Table(), t, m, more, oid, i, node, added)
      {
        NextStep(Table(), t, m, more, oid, i, node, added);
        var next, found := Step(node, oid[i]);
        if next == NIL {
          return NIL;
        }
        added := if found then added else next;
        node := next;
      }
      assert oid[|oid|..] == [];
    }

    /** The son that carries o, added if there is none and the pool is not empty. */
    method Step(node: nat, o: nat) returns (next: int, found: bool)
      requires Laid() && Linked(Table()) && node < pool.index
      modifies pool, nodes
      ensures Laid()
      ensures found <==> FindInSons(old(Table()), node, o) != NIL
      ensures found ==> Table() == old(Table()) && next == FindInSons(old(Table()), node, o)
      ensures !found && old(pool.index) == nodes.Length ==> next == NIL && Table() == old(Table())
      ensures !found && old(pool.index) < nodes.Length ==>
        next == old(pool.index) && Table() == AddSon(old(Table()), node, o)
    {
      next := FindSon(node, o);
      found := next != NIL;
      if !found {
        next := AddNode(node, o);
      }
    }

    method HangObject(n: nat, h: Handle)
      requires Laid() && n < pool.index
      modifies nodes
      ensures Laid() && Table() == old(Table())[n := old(Table())[n].(ext := Some(h))]
    {
      nodes[n] := nodes[n].(ext := Some(h));
    }

    method FindOidObjectOf(oid: Oid) returns (r: Option<Handle>)
      requires Valid()
      ensures r == if oid in objects then Some(objects[oid]) else None
    {
      ghost var t := Table();
      if |oid| == 0 {
        assert FindOidObject(t, oid) == None;
        return None;
      }
      var node: int := ROOT;
      for i := 0 to |oid|
        invariant 0 <= node < |t| && Walk(t, ROOT, oid) == Walk(t, node, oid[i..])
      {
        assert oid[i..][0] == oid[i] && oid[i..][1..] == oid[i + 1..];
        node := FindSon(node, oid[i]);
        if node == NIL {
          assert FindOidObject(t, oid) == None;
          return None;
        }
      }
      assert FindOidObject(t, oid) == if t[node].eldestson != NIL then None else t[node].ext;
      if nodes[node].eldestson != NIL {
        return None;
      }
      return nodes[node].ext;
    }
  }

  /** The first i numbers of a new identifier are walked or added: as long as nothing is
      added the tree is the old one; after that the last node is the newest. */
  ghost predicate OnTheWay(t: seq<Node>, t0: seq<Node>, m: map<Oid, Handle>, tried: set<Oid>, oid: Oid, i: nat,
      node: int, added: int)
  {
    && Keeps(t, m, tried) && Linked(t0) && i <= |oid|
    && 0 <= node < |t| && Walk(t, ROOT, oid[..i]) == node
    && (added == NIL ==> t == t0 && Missing(t0, ROOT, oid) == Missing(t0, node, oid[i..]))
    && (added != NIL ==>
      added == node > 0 && t[node].eldestson == NIL && |t| - |t0| + |oid| - i == Missing(t0, ROOT, oid))
    && oid in tried && (forall k :: 0 <= k <= |oid| ==> oid[..k] !in m) && Missing(t0, ROOT, oid) > 0
  }

  lemma SetOut(t: seq<Node>, m: map<Oid, Handle>, tried: set<Oid>, oid: Oid)
    requires Keeps(t, m, tried) && oid != [] && forall p :: p in tried ==> Unrelated(p, oid)
    ensures OnTheWay(t, t, m, tried + {oid}, oid, 0, ROOT, NIL)
  {
    NotYet(t, tried, oid);
    TriedMore(t, m, tried, oid);
    assert oid[0..] == oid;
    forall k | 0 <= k <= |oid| ensures oid[..k] !in m {
      assert oid[..k] <= oid;
    }
  }

  lemma FoundStep(t: seq<Node>, t0: seq<Node>, m: map<Oid, Handle>, tried: set<Oid>, oid: Oid, i: nat, node: nat,
      added: int)
    requires OnTheWay(t, t0, m, tried, oid, i, node, added) && i < |oid| && FindInSons(t, node, oid[i]) != NIL
    ensures OnTheWay(t, t0, m, tried, oid, i + 1, FindInSons(t, node, oid[i]), added)
  {
    OneFurther(oid, i);
    WalkSnoc(t, ROOT, oid[..i], oid[i]);
    assert oid[i..][0] == oid[i] && oid[i..][1..] == oid[i + 1..];
  }

  lemma AddedStep(t: seq<Node>, t0: seq<Node>, m: map<Oid, Handle>, tried: set<Oid>, oid: Oid, i: nat, node: nat,
      added: int)
    requires OnTheWay(t, t0, m, tried, oid, i, node, added) && i < |oid| && FindInSons(t, node, oid[i]) == NIL
    ensures OnTheWay(AddSon(t, node, oid[i]), t0, m, tried, oid, i + 1, |t|, |t|)
    ensures |t| - |t0| + |oid| - i == Missing(t0, ROOT, oid)
  {
    AddKeeps(t, m, tried, oid, i, node);
    AddWalks(t, oid, i, node);
    assert oid[i..][0] == oid[i];
  }

  lemma NextStep(t: seq<Node>, t0: seq<Node>, m: map<Oid, Handle>, tried: set<Oid>, oid: Oid, i: nat, node: nat,
      added: int)
    requires OnTheWay(t, t0, m, tried, oid, i, node, added) && i < |oid|
    ensures var s := FindInSons(t, node, oid[i]);
      && (s != NIL ==> OnTheWay(t, t0, m, tried, oid, i + 1, s, added))
      && (s == NIL ==> OnTheWay(AddSon(t, node, oid[i]), t0, m, tried, oid, i + 1, |t|, |t|))
      && (s == NIL ==> |t| - |t0| + |oid| - i == Missing(t0, ROOT, oid))
  {
    if FindInSons(t, node, oid[i]) != NIL {
      FoundStep(t, t0, m, tried, oid, i, node, added);
    } else {
      AddedStep(t, t0, m, tried, oid, i, node, added);
    }
  }

  lemma Arrived(t: seq<Node>, t0: seq<Node>, m: map<Oid, Handle>, tried: set<Oid>, oid: Oid, node: int, added: int,
      h: Handle)
    requires OnTheWay(t, t0, m, tried, oid, |oid|, node, added)
    ensures 0 <= added < |t| && |t| == |t0| + Missing(t0, ROOT, oid)
    ensures Keeps(t[added := t[added].(ext := Some(h))], m[oid := h], tried)
  {
    assert oid[..|oid|] == oid && oid[|oid|..] == [];
    ObjectKeeps(t, m, tried, oid, added, h);
  }

  /** More identifiers tried, no path more. */
  lemma TriedMore(t: seq<Node>, m: map<Oid, Handle>, tried: set<Oid>, oid: Oid)
    requires Keeps(t, m, tried) && oid != []
    ensures Keeps(t, m, tried + {oid})
  {
  }

  /** An identifier unrelated to all tried ones leads nowhere yet. */
  lemma NotYet(t: seq<Node>, tried: set<Oid>, oid: Oid)
    requires Linked(t) && Leads(t, tried) && oid != [] && forall p :: p in tried ==> Unrelated(p, oid)
    ensures Walk(t, ROOT, oid) == NIL && Missing(t, ROOT, oid) > 0
  {
    MissingNone(t, ROOT, oid);
  }
}
