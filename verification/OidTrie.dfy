/** The tree of object identifiers, built from pooled nodes that are linked by their
    places in the pool (src/wu_snmp_lib.c:775-841, src/libwu/wutree.c:54-67, 124-137, 308-360). */
module OidTrie {
  import opened NodePools
  import opened Options

  type Oid = seq<nat>

  /** An object to be found again; only its identity matters. */
  type Handle = nat

  const ROOT := 0

  datatype Node = Node(left: int, right: int, parent: int, eldestson: int, depth: nat, data: nat, ext: Option<Handle>)

  /** A node as it comes from the zeroed pool. */
  const BLANK := Node(NIL, NIL, NIL, NIL, 0, 0, None)

  // ---- Looking up ---------------------------------------------------------------------------

  /** Links lead to later places only and back again, brothers have one father, sons their own,
      one level deeper. */
  predicate NodeLinked(t: seq<Node>, i: nat)
    requires i < |t|
  {
    && (t[i].eldestson == NIL ||
        (i < t[i].eldestson < |t| && t[t[i].eldestson].parent == i && t[t[i].eldestson].left == NIL))
    && (t[i].right == NIL ||
        (i < t[i].right < |t| && t[t[i].right].parent == t[i].parent && t[t[i].right].left == i))
    && (i > 0 ==> 0 <= t[i].parent < i && t[i].depth == t[t[i].parent].depth + 1)
  }

  predicate Linked(t: seq<Node>) {
    |t| >= 1 && t[ROOT].right == NIL && t[ROOT].depth == 0 && forall i :: 0 <= i < |t| ==> NodeLinked(t, i)
  }

  /** The first of node s and its right brothers that carries o. */
  function SonFrom(t: seq<Node>, s: int, o: nat): (r: int)
    requires Linked(t) && (s == NIL || 0 <= s < |t|)
    ensures r == NIL || (0 <= s <= r < |t| && t[r].data == o && t[r].parent == t[s].parent)
    decreases if s == NIL then 0 else |t| - s
  {
    if s == NIL then NIL else assert NodeLinked(t, s); if t[s].data == o then s else SonFrom(t, t[s].right, o)
  }

  function FindInSons(t: seq<Node>, n: nat, o: nat): (r: int)
    requires Linked(t) && n < |t|
    ensures r == NIL || (n < r < |t| && t[r].data == o && t[r].parent == n)
  {
    assert NodeLinked(t, n); SonFrom(t, t[n].eldestson, o)
  }

  /** The node reached from n along an identifier. */
  function Walk(t: seq<Node>, n: nat, oid: Oid): (r: int)
    requires Linked(t) && n < |t|
    ensures r == NIL || n <= r < |t|
    ensures oid == [] ==> r == n
    decreases |oid|
  {
    if oid == [] then n
    else
      var s := FindInSons(t, n, oid[0]);
      if s == NIL then NIL else Walk(t, s, oid[1..])
  }

  function FindNode(t: seq<Node>, oid: Oid): (r: int)
    requires Linked(t)
    ensures r == NIL || 0 <= r < |t|
  {
    if oid == [] then NIL
    else
      var n := Walk(t, ROOT, oid);
      if n == NIL || t[n].eldestson != NIL then NIL else n
  }

  function FindOidObject(t: seq<Node>, oid: Oid): Option<Handle>
    requires Linked(t)
  {
    var n := FindNode(t, oid);
    if n == NIL then None else t[n].ext
  }

  lemma OneFurther(oid: Oid, i: nat)
    requires i < |oid|
    ensures oid[..i] + [oid[i]] == oid[..i + 1] <= oid && (i + 1 == |oid| ==> oid[..i] + [oid[i]] == oid)
  {
  }

  // ---- Shape --------------------------------------------------------------------------------

  /** Every node but the root is the one its father finds under its number. */
  predicate Tree(t: seq<Node>) {
    Linked(t) && forall k :: 0 < k < |t| ==> 0 <= t[k].parent < k && FindInSons(t, t[k].parent, t[k].data) == k
  }

  function PathOf(t: seq<Node>, n: nat): Oid
    requires Linked(t) && n < |t|
    decreases n
  {
    assert NodeLinked(t, n); if n == ROOT then [] else PathOf(t, t[n].parent) + [t[n].data]
  }

  /** The level of a node is the length of its path. */
  lemma {:induction false} DepthIs(t: seq<Node>, n: nat)
    requires Linked(t) && n < |t|
    ensures t[n].depth == |PathOf(t, n)|
    decreases n
  {
    if n != ROOT {
      assert NodeLinked(t, n);
      DepthIs(t, t[n].parent);
    }
  }

  lemma {:induction false} WalkSnoc(t: seq<Node>, n: nat, oid: Oid, o: nat)
    requires Linked(t) && n < |t|
    ensures var m := Walk(t, n, oid);
      Walk(t, n, oid + [o]) == if m == NIL then NIL else FindInSons(t, m, o)
    decreases |oid|
  {
    if oid == [] {
      assert (oid + [o])[1..] == [];
    } else {
      assert (oid + [o])[1..] == oid[1..] + [o];
      var s := FindInSons(t, n, oid[0]);
      if s != NIL {
        WalkSnoc(t, s, oid[1..], o);
      }
    }
  }

  /** A node is reached along its own path. */
  lemma {:induction false} WalkPath(t: seq<Node>, n: nat)
    requires Tree(t) && n < |t|
    ensures Walk(t, ROOT, PathOf(t, n)) == n
    decreases n
  {
    if n != ROOT {
      WalkPath(t, t[n].parent);
      WalkSnoc(t, ROOT, PathOf(t, t[n].parent), t[n].data);
    }
  }

  /** And along no other. */
  lemma {:induction false} WalkOnlyPath(t: seq<Node>, oid: Oid)
    requires Tree(t) && Walk(t, ROOT, oid) != NIL
    ensures PathOf(t, Walk(t, ROOT, oid)) == oid
    decreases |oid|
  {
    if oid != [] {
      var k := |oid| - 1;
      assert oid == oid[..k] + [oid[k]];
      WalkSnoc(t, ROOT, oid[..k], oid[k]);
      WalkOnlyPath(t, oid[..k]);
    }
  }

  // ---- Adding a son ---------------------------------------------------------------------------

  /** The youngest of s and its right brothers. */
  function LastFrom(t: seq<Node>, s: nat): (r: nat)
    requires Linked(t) && s < |t|
    ensures s <= r < |t| && t[r].right == NIL && t[r].parent == t[s].parent
    decreases |t| - s
  {
    assert NodeLinked(t, s); if t[s].right == NIL then s else LastFrom(t, t[s].right)
  }

  function Littleson(t: seq<Node>, n: nat): (r: int)
    requires Linked(t) && n < |t|
    ensures r == NIL || (n < r < |t| && t[r].right == NIL && t[r].parent == n)
  {
    assert NodeLinked(t, n); if t[n].eldestson == NIL then NIL else LastFrom(t, t[n].eldestson)
  }

  /** The tree with a node for o taken from the pool and made the youngest son of n. */
  function AddSon(t: seq<Node>, n: nat, o: nat): (r: seq<Node>)
    requires Linked(t) && n < |t|
    ensures |r| == |t| + 1 && r[|t|].eldestson == NIL && r[|t|].ext == None && r[|t|].data == o && r[|t|].parent == n
    ensures forall i :: 0 <= i < |t| ==> r[i].data == t[i].data && r[i].parent == t[i].parent && r[i].ext == t[i].ext
    ensures forall i :: 0 <= i < |t| ==>
      r[i].eldestson == if i == n && t[n].eldestson == NIL then |t| else t[i].eldestson
    ensures Linked(r)
  {
    var little := Littleson(t, n);
    var linked := if little == NIL then t[n := t[n].(eldestson := |t|)] else t[little := t[little].(right := |t|)];
    var r := linked + [Node(little, NIL, n, NIL, t[n].depth + 1, o, None)];
    AddSonLinked(t, n, o, little, r);
    r
  }

  lemma AddSonLinked(t: seq<Node>, n: nat, o: nat, little: int, r: seq<Node>)
    requires Linked(t) && n < |t| && little == Littleson(t, n)
    requires r ==
      (if little == NIL then t[n := t[n].(eldestson := |t|)] else t[little := t[little].(right := |t|)]) +
      [Node(little, NIL, n, NIL, t[n].depth + 1, o, None)]
    ensures Linked(r)
  {
    assert NodeLinked(t, n) && (little != NIL ==> NodeLinked(t, little));
    forall i | 0 <= i < |t| ensures NodeLinked(r, i) {
      assert NodeLinked(t, i);
      if little == NIL {
        assert t[n].eldestson == NIL;
      }
    }
    assert NodeLinked(r, |t|);
  }

  /** The sons of other fathers are as before. */
  lemma {:induction false} OtherSons(t: seq<Node>, n: nat, o: nat, s: int, x: nat)
    requires Linked(t) && n < |t| && (s == NIL || (0 <= s < |t| && t[s].parent != n))
    ensures SonFrom(AddSon(t, n, o), s, x) == SonFrom(t, s, x)
    decreases if s == NIL then 0 else |t| - s
  {
    if s != NIL && t[s].data != x {
      assert NodeLinked(t, s);
      OtherSons(t, n, o, t[s].right, x);
    }
  }

  /** Among the sons of n the new one comes last. */
  lemma {:induction false} OwnSons(t: seq<Node>, n: nat, o: nat, s: nat, x: nat)
    requires Linked(t) && n < |t| && s < |t| && t[s].parent == n && LastFrom(t, s) == Littleson(t, n)
    ensures SonFrom(AddSon(t, n, o), s, x) ==
      if SonFrom(t, s, x) != NIL then SonFrom(t, s, x) else if x == o then |t| else NIL
    decreases |t| - s
  {
    var t' := AddSon(t, n, o);
    assert NodeLinked(t, s);
    if t[s].data != x {
      if t[s].right == NIL {
        assert t'[s].right == |t| && t'[|t|].right == NIL;
        assert SonFrom(t', s, x) == SonFrom(t', |t|, x);
      } else {
        OwnSons(t, n, o, t[s].right, x);
      }
    }
  }

  /** What a father finds after the addition. */
  lemma SonsAfter(t: seq<Node>, n: nat, o: nat, m: nat, x: nat)
    requires Linked(t) && n < |t| && m < |t|
    ensures FindInSons(AddSon(t, n, o), m, x) ==
      if FindInSons(t, m, x) != NIL then FindInSons(t, m, x) else if m == n && x == o then |t| else NIL
  {
    var t' := AddSon(t, n, o);
    var s := t[m].eldestson;
    assert NodeLinked(t, m);
    if m == n {
      if s == NIL {
        assert SonFrom(t', |t|, x) == if x == o then |t| else NIL;
      } else {
        OwnSons(t, n, o, s, x);
      }
    } else {
      OtherSons(t, n, o, s, x);
    }
  }

  lemma AddSonTree(t: seq<Node>, n: nat, o: nat)
    requires Tree(t) && n < |t| && FindInSons(t, n, o) == NIL
    ensures Tree(AddSon(t, n, o))
  {
    var t' := AddSon(t, n, o);
    forall k | 0 < k < |t'| ensures FindInSons(t', t'[k].parent, t'[k].data) == k {
      SonsAfter(t, n, o, t'[k].parent, t'[k].data);
    }
  }

  /** Where identifiers lead after the addition: one more is known. */
  lemma {:induction false} WalkAfter(t: seq<Node>, n: nat, o: nat, m: nat, oid: Oid)
    requires Tree(t) && n < |t| && FindInSons(t, n, o) == NIL && m < |t|
    ensures var was := Walk(t, m, oid);
      Walk(AddSon(t, n, o), m, oid) ==
        if was != NIL then was
        else if oid != [] && Walk(t, m, oid[..|oid| - 1]) == n && oid[|oid| - 1] == o then |t| else NIL
    decreases |oid|
  {
    var t' := AddSon(t, n, o);
    if oid != [] {
      var k := |oid| - 1;
      var front := oid[..k];
      assert oid == front + [oid[k]];
      WalkAfter(t, n, o, m, front);
      WalkSnoc(t, m, front, oid[k]);
      WalkSnoc(t', m, front, oid[k]);
      var w := Walk(t', m, front);
      if w == |t| {
        assert FindInSons(t', w, oid[k]) == NIL;
      } else if w != NIL {
        SonsAfter(t, n, o, w, oid[k]);
      }
    }
  }

  // ---- Registering ------------------------------------------------------------------------------

  /** Nodes that have to be added for the rest of an identifier, from node n on. */
  function Missing(t: seq<Node>, n: nat, rest: Oid): (k: nat)
    requires Linked(t) && n < |t|
    ensures k <= |rest|
    decreases |rest|
  {
    if rest == [] then 0
    else
      var s := FindInSons(t, n, rest[0]);
      if s == NIL then |rest| else Missing(t, s, rest[1..])
  }

  /** The tree known by its paths: exactly these identifiers lead somewhere. */
  ghost predicate Leads(t: seq<Node>, tried: set<Oid>)
    requires Linked(t)
  {
    forall x: Oid :: Walk(t, ROOT, x) != NIL ==> x == [] || exists p :: p in tried && x <= p
  }

  /** The tree finds exactly the objects of the map. */
  ghost predicate Refines(t: seq<Node>, m: map<Oid, Handle>)
    requires Linked(t)
  {
    forall x: Oid :: FindOidObject(t, x) == if x in m then Some(m[x]) else None
  }

  /** A son added at n is harmless exactly if no object can be found at n: an object there
      would become unreachable. */
  lemma AddSonFinds(t: seq<Node>, n: nat, o: nat, x: Oid)
    requires Tree(t) && n < |t| && FindInSons(t, n, o) == NIL
    requires n == ROOT || t[n].eldestson != NIL || t[n].ext == None
    ensures FindOidObject(AddSon(t, n, o), x) == FindOidObject(t, x)
  {
    WalkAfter(t, n, o, ROOT, x);
    var was, now := Walk(t, ROOT, x), Walk(AddSon(t, n, o), ROOT, x);
    if was == n && t[n].eldestson == NIL && n != ROOT {
      assert FindOidObject(AddSon(t, n, o), x) == None;
    } else if was != NIL {
      assert now == was;
    }
  }

  lemma AddSonHides(t: seq<Node>, n: nat, o: nat)
    requires Tree(t) && 0 < n < |t| && FindInSons(t, n, o) == NIL
    requires t[n].eldestson == NIL && t[n].ext != None
    ensures FindOidObject(t, PathOf(t, n)) == t[n].ext && FindOidObject(AddSon(t, n, o), PathOf(t, n)) == None
  {
    WalkPath(t, n);
    WalkAfter(t, n, o, ROOT, PathOf(t, n));
  }

  /** A node is an object's exactly at the end of its path. */
  lemma SetExtFinds(t: seq<Node>, n: nat, h: Handle, x: Oid)
    requires Tree(t) && 0 < n < |t| && t[n].eldestson == NIL
    ensures var t' := t[n := t[n].(ext := Some(h))];
      Tree(t') && FindOidObject(t', x) == if x == PathOf(t, n) then Some(h) else FindOidObject(t, x)
  {
    SetExtTree(t, n, Some(h));
    SetExtWalk(t, n, Some(h), ROOT, x);
    WalkPath(t, n);
    if Walk(t, ROOT, x) != NIL {
      WalkOnlyPath(t, x);
    }
  }

  lemma SetExtLinked(t: seq<Node>, n: nat, e: Option<Handle>)
    requires Linked(t) && n < |t|
    ensures Linked(t[n := t[n].(ext := e)])
  {
    var t' := t[n := t[n].(ext := e)];
    forall i | 0 <= i < |t| ensures NodeLinked(t', i) {
      assert NodeLinked(t, i);
    }
  }

  lemma {:induction false} SetExtSon(t: seq<Node>, n: nat, e: Option<Handle>, s: int, o: nat)
    requires Linked(t) && n < |t| && (s == NIL || 0 <= s < |t|)
    ensures var t' := t[n := t[n].(ext := e)];
      Linked(t') && SonFrom(t', s, o) == SonFrom(t, s, o)
    decreases if s == NIL then 0 else |t| - s
  {
    SetExtLinked(t, n, e);
    if s != NIL && t[s].data != o {
      assert NodeLinked(t, s);
      SetExtSon(t, n, e, t[s].right, o);
    }
  }

  lemma SetExtTree(t: seq<Node>, n: nat, e: Option<Handle>)
    requires Tree(t) && n < |t|
    ensures Tree(t[n := t[n].(ext := e)])
  {
    var t' := t[n := t[n].(ext := e)];
    SetExtSon(t, n, e, NIL, 0);
    forall k | 0 < k < |t'| ensures FindInSons(t', t'[k].parent, t'[k].data) == k {
      SetExtSon(t, n, e, t[t[k].parent].eldestson, t[k].data);
    }
  }

  lemma {:induction false} SetExtWalk(t: seq<Node>, n: nat, e: Option<Handle>, m: nat, x: Oid)
    requires Linked(t) && n < |t| && m < |t|
    ensures var t' := t[n := t[n].(ext := e)];
      Linked(t') && Walk(t', m, x) == Walk(t, m, x)
    decreases |x|
  {
    SetExtSon(t, n, e, NIL, 0);
    if x != [] {
      assert NodeLinked(t, m);
      SetExtSon(t, n, e, t[m].eldestson, x[0]);
      var s := FindInSons(t, m, x[0]);
      if s != NIL {
        SetExtWalk(t, n, e, s, x[1..]);
      }
    }
  }

  // ---- One registration ---------------------------------------------------------------------------

  /** Neither identifier is the beginning of the other. */
  predicate Unrelated(p: Oid, q: Oid) {
    !(p <= q) && !(q <= p)
  }

  /** The nodes kept so far hold: the tree `t` finds the objects of `m` and has no paths
      but those of identifiers in `tried`. */
  ghost predicate Keeps(t: seq<Node>, m: map<Oid, Handle>, tried: set<Oid>) {
    && Tree(t) && Refines(t, m) && Leads(t, tried)
    && m.Keys <= tried && [] !in tried
  }

  lemma EmptyKeeps(root: Node)
    requires root.eldestson == NIL && root.right == NIL && root.depth == 0
    ensures Keeps([root], map[], {})
  {
  }

  /** The only path new after the addition is the path of the new node. */
  lemma NewPath(t: seq<Node>, n: nat, p: Oid, o: nat, x: Oid)
    requires Tree(t) && n < |t| && FindInSons(t, n, o) == NIL && Walk(t, ROOT, p) == n
    requires Walk(t, ROOT, x) == NIL && Walk(AddSon(t, n, o), ROOT, x) != NIL
    ensures x == p + [o]
  {
    WalkAfter(t, n, o, ROOT, x);
    var front := x[..|x| - 1];
    OneFurther(x, |x| - 1);
    SamePlace(t, front, p);
  }

  lemma SamePlace(t: seq<Node>, p: Oid, q: Oid)
    requires Tree(t) && Walk(t, ROOT, p) == Walk(t, ROOT, q) != NIL
    ensures p == q
  {
    WalkOnlyPath(t, p);
    WalkOnlyPath(t, q);
  }

  lemma AddLeads(t: seq<Node>, tried: set<Oid>, n: nat, p: Oid, o: nat, oid: Oid)
    requires Tree(t) && Leads(t, tried) && n < |t| && FindInSons(t, n, o) == NIL
    requires Walk(t, ROOT, p) == n && oid in tried && p + [o] <= oid
    ensures Leads(AddSon(t, n, o), tried)
  {
    forall x: Oid | Walk(AddSon(t, n, o), ROOT, x) != NIL && x != [] ensures exists q :: q in tried && x <= q {
      if Walk(t, ROOT, x) == NIL {
        NewPath(t, n, p, o, x);
      }
    }
  }

  lemma AddRefines(t: seq<Node>, m: map<Oid, Handle>, n: nat, o: nat)
    requires Tree(t) && Refines(t, m) && n < |t| && FindInSons(t, n, o) == NIL
    requires n == ROOT || t[n].eldestson != NIL || t[n].ext == None
    ensures Refines(AddSon(t, n, o), m)
  {
    forall x: Oid ensures FindOidObject(AddSon(t, n, o), x) == if x in m then Some(m[x]) else None {
      AddSonFinds(t, n, o, x);
    }
  }

  lemma NothingAt(t: seq<Node>, m: map<Oid, Handle>, p: Oid, n: nat)
    requires Linked(t) && Refines(t, m) && n < |t| && Walk(t, ROOT, p) == n && p !in m
    ensures n == ROOT || t[n].eldestson != NIL || t[n].ext == None
  {
    assert FindOidObject(t, p) == None;
  }

  /** Adding a node on the way of a new identifier keeps everything. */
  lemma AddKeeps(t: seq<Node>, m: map<Oid, Handle>, tried: set<Oid>, oid: Oid, i: nat, n: nat)
    requires Keeps(t, m, tried) && oid in tried && i < |oid| && n < |t|
    requires Walk(t, ROOT, oid[..i]) == n && FindInSons(t, n, oid[i]) == NIL
    requires oid[..i] !in m
    ensures Keeps(AddSon(t, n, oid[i]), m, tried)
  {
    AddSonTree(t, n, oid[i]);
    OneFurther(oid, i);
    AddLeads(t, tried, n, oid[..i], oid[i], oid);
    NothingAt(t, m, oid[..i], n);
    AddRefines(t, m, n, oid[i]);
  }

  lemma AddWalks(t: seq<Node>, oid: Oid, i: nat, n: nat)
    requires Tree(t) && i < |oid| && n < |t|
    requires Walk(t, ROOT, oid[..i]) == n && FindInSons(t, n, oid[i]) == NIL
    ensures Walk(AddSon(t, n, oid[i]), ROOT, oid[..i + 1]) == |t|
  {
    OneFurther(oid, i);
    WalkNew(t, n, oid[..i], oid[i]);
  }

  lemma WalkNew(t: seq<Node>, n: nat, p: Oid, o: nat)
    requires Tree(t) && n < |t| && Walk(t, ROOT, p) == n && FindInSons(t, n, o) == NIL
    ensures Walk(AddSon(t, n, o), ROOT, p + [o]) == |t|
  {
    WalkAfter(t, n, o, ROOT, p);
    WalkSnoc(AddSon(t, n, o), ROOT, p, o);
    SonsAfter(t, n, o, n, o);
  }

  /** Hanging the object on the last node adds it to the map. */
  lemma ObjectKeeps(t: seq<Node>, m: map<Oid, Handle>, tried: set<Oid>, oid: Oid, n: nat, h: Handle)
    requires Keeps(t, m, tried) && oid in tried && 0 < n < |t| && t[n].eldestson == NIL
    requires Walk(t, ROOT, oid) == n
    ensures Keeps(t[n := t[n].(ext := Some(h))], m[oid := h], tried)
  {
    var t' := t[n := t[n].(ext := Some(h))];
    WalkOnlyPath(t, oid);
    SetExtTree(t, n, Some(h));
    forall x: Oid ensures FindOidObject(t', x) == if x in m[oid := h] then Some(m[oid := h][x]) else None {
      SetExtFinds(t, n, h, x);
    }
    forall x: Oid | Walk(t', ROOT, x) != NIL && x != [] ensures exists p :: p in tried && x <= p {
      SetExtWalk(t, n, Some(h), ROOT, x);
    }
  }

  /** A path that exists leads on from the root; one node less is missing after each step found. */
  lemma {:induction false} MissingNone(t: seq<Node>, n: nat, rest: Oid)
    requires Linked(t) && n < |t|
    ensures Missing(t, n, rest) == 0 <==> Walk(t, n, rest) != NIL
    decreases |rest|
  {
    if rest != [] {
      var s := FindInSons(t, n, rest[0]);
      if s != NIL {
        MissingNone(t, s, rest[1..]);
      }
    }
  }
}
