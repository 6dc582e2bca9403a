/** The output PIDs in use, seen as a finite set of routes, and the rules by which
    the allocator extends that set (src/io_table.c). */
module Routes {
  import opened Pids

  /** Slot `slot` of the selected program `prog` sends `inPid` to `outPid`. */
  datatype Route = Route(prog: nat, slot: nat, inPid: U16, outPid: U16) {
    function Chan(): nat { prog / PROGRAM_MAX }
    predicate Pmt() { slot == 0 }
    predicate Carries(chan: nat, pid: int) { Chan() == chan && inPid == pid }
  }

  datatype Input = Input(chan: nat, pid: int)

  /** Two routes may stand side by side: a PMT has its output to itself; two other
      routes share the output exactly when they carry the same input of one channel. */
  ghost predicate Compatible(r: Route, s: Route) {
    if r.Pmt() || s.Pmt() then
      r.outPid != s.outPid || (r.prog == s.prog && r.slot == s.slot)
    else
      (s.Carries(r.Chan(), r.inPid) <==> r.outPid == s.outPid)
  }

  /** The outputs the PID check admits for a slot in use: besides the valid PIDs,
      0 and the pad value pass for a data slot. */
  predicate Sendable(pid: int) {
    IsValidPid(pid) || pid in {0, PAD_PID}
  }

  /** The allocator's invariant. */
  ghost predicate Apart(routes: set<Route>) {
    && (forall r, s :: r in routes && s in routes ==> Compatible(r, s))
    && (forall r :: r in routes ==> Sendable(r.outPid))
  }

  ghost predicate Taken(routes: set<Route>, pid: int) {
    exists r :: r in routes && r.outPid == pid
  }

  ghost predicate IsInput(inputs: set<Input>, pid: int) {
    exists i :: i in inputs && i.pid == pid
  }

  ghost predicate Mapped(routes: set<Route>, chan: nat, pid: int) {
    exists r :: r in routes && !r.Pmt() && r.Carries(chan, pid)
  }

  ghost predicate PmtMapped(routes: set<Route>, chan: nat, pid: int) {
    exists r :: r in routes && r.Pmt() && r.Carries(chan, pid)
  }

  /** A PID no channel receives and no route sends. */
  ghost predicate Free(inputs: set<Input>, routes: set<Route>, pid: int) {
    IsValidPid(pid) && !IsInput(inputs, pid) && !Taken(routes, pid)
  }

  ghost function FreeSet(inputs: set<Input>, routes: set<Route>): set<int> {
    set pid | PID_MIN <= pid < NULL_PID && Free(inputs, routes, pid)
  }

  /** First fit; NULL_PID when nothing is free. */
  ghost function FirstFree(inputs: set<Input>, routes: set<Route>, from: U16): (pid: U16)
    requires PID_MIN <= from <= NULL_PID
    ensures from <= pid <= NULL_PID
    ensures pid < NULL_PID ==> Free(inputs, routes, pid)
    ensures forall q :: from <= q < pid ==> !Free(inputs, routes, q)
    decreases NULL_PID - from
  {
    if from == NULL_PID || Free(inputs, routes, from) then from else FirstFree(inputs, routes, from + 1)
  }

  /** `outPid` may be given to input `inPid` of `chan`. */
  ghost predicate Usable(routes: set<Route>, chan: nat, pmt: bool, inPid: int, outPid: int) {
    forall r :: r in routes && r.outPid == outPid ==> !pmt && !r.Pmt() && r.Carries(chan, inPid)
  }

  ghost function MappedOut(routes: set<Route>, chan: nat, pid: U16): (outPid: U16)
    requires Mapped(routes, chan, pid)
    ensures exists r :: r in routes && !r.Pmt() && r.Carries(chan, pid) && r.outPid == outPid
  {
    var r :| r in routes && !r.Pmt() && r.Carries(chan, pid);
    r.outPid
  }

  /** A fresh PID is needed: the input may not keep its own value. */
  ghost predicate NeedsFresh(routes: set<Route>, chan: nat, pmt: bool, pid: int) {
    if pmt then PmtMapped(routes, chan, pid) || Taken(routes, pid)
    else !Mapped(routes, chan, pid) && Taken(routes, pid)
  }

  /** The automatic choice: the output already in force, else the same value, else first fit. */
  ghost function Pick(inputs: set<Input>, routes: set<Route>, chan: nat, pmt: bool, pid: U16): U16 {
    if !pmt && Mapped(routes, chan, pid) then MappedOut(routes, chan, pid)
    else if NeedsFresh(routes, chan, pmt, pid) then FirstFree(inputs, routes, PID_MIN)
    else pid
  }

  /** One route more. */
  lemma ExtendApart(routes: set<Route>, n: Route)
    requires Apart(routes) && Sendable(n.outPid)
    requires forall r :: r in routes ==> Compatible(n, r)
    ensures Apart(routes + {n})
  {
    forall r, s | r in routes + {n} && s in routes + {n} ensures Compatible(r, s) {
    }
  }

  /** The automatic choice fits in with every route there is. */
  lemma PickCompatible(inputs: set<Input>, routes: set<Route>, n: Route)
    requires Apart(routes) && IsValidPid(n.inPid)
    requires n.outPid == Pick(inputs, routes, n.Chan(), n.Pmt(), n.inPid)
    requires n.outPid != NULL_PID
    ensures Sendable(n.outPid)
    ensures forall r :: r in routes ==> Compatible(n, r)
    ensures Apart(routes + {n})
  {
    if !n.Pmt() && Mapped(routes, n.Chan(), n.inPid) {
      var q :| q in routes && !q.Pmt() && q.Carries(n.Chan(), n.inPid) && q.outPid == n.outPid;
      forall r | r in routes ensures Compatible(n, r) {
        assert Compatible(q, r);
      }
    } else {
      assert !Taken(routes, n.outPid);
      forall r | r in routes ensures Compatible(n, r) {
      }
    }
    ExtendApart(routes, n);
  }

  // ---- Assigning all slots of one program ------------------------------------

  function RouteOf(prog: nat, e: Ents, i: nat): Route
    requires i < SLOTS
  {
    Route(prog, i, e[i].inPid, e[i].outPid)
  }

  ghost function RoutesFrom(prog: nat, e: Ents, from: nat): set<Route> {
    set i: nat | from <= i < SLOTS && IsValidPid(e[i].inPid) :: RouteOf(prog, e, i)
  }

  function SetOut(e: Ents, i: nat, outPid: U16): Ents
    requires i < SLOTS
  {
    e[i := e[i].(outPid := outPid)]
  }

  ghost function Assign(inputs: set<Input>, routes: set<Route>, prog: nat, e: Ents, i: nat): (a: Ents)
    requires i <= SLOTS
    ensures SameInputs(a, e)
    ensures forall j :: 0 <= j < i ==> a[j] == e[j]
    ensures forall j :: 0 <= j < SLOTS ==> a[j].kind == e[j].kind
    ensures forall j :: 0 <= j < SLOTS && !IsValidPid(e[j].inPid) ==> a[j] == e[j]
    decreases SLOTS - i
  {
    if i == SLOTS then e
    else if !IsValidPid(e[i].inPid) then Assign(inputs, routes, prog, e, i + 1)
    else
      var outPid := Pick(inputs, routes, prog / PROGRAM_MAX, i == 0, e[i].inPid);
      var e' := SetOut(e, i, outPid);
      Assign(inputs, routes + {RouteOf(prog, e', i)}, prog, e', i + 1)
  }

  ghost predicate AllPicked(e: Ents, from: nat) {
    forall j :: from <= j < SLOTS && IsValidPid(e[j].inPid) ==> e[j].outPid != NULL_PID
  }

  /** Assigning keeps the invariant exactly when first fit never ran out. */
  lemma {:induction false} AssignApart(inputs: set<Input>, routes: set<Route>, prog: nat, e: Ents, i: nat)
    requires i <= SLOTS && Apart(routes)
    ensures var a := Assign(inputs, routes, prog, e, i);
      AllPicked(a, i) <==> Apart(routes + RoutesFrom(prog, a, i))
    decreases SLOTS - i
  {
    var a := Assign(inputs, routes, prog, e, i);
    if i == SLOTS {
      assert routes + RoutesFrom(prog, a, i) == routes;
    } else if !IsValidPid(e[i].inPid) {
      AssignApart(inputs, routes, prog, e, i + 1);
      assert RoutesFrom(prog, a, i) == RoutesFrom(prog, a, i + 1);
    } else {
      var n := RouteOf(prog, a, i);
      assert n in RoutesFrom(prog, a, i);
      assert RoutesFrom(prog, a, i) == {n} + RoutesFrom(prog, a, i + 1);
      if n.outPid != NULL_PID {
        PickCompatible(inputs, routes, n);
        assert routes + RoutesFrom(prog, a, i) == (routes + {n}) + RoutesFrom(prog, a, i + 1);
        var e' := SetOut(e, i, n.outPid);
        assert RouteOf(prog, e', i) == n;
        AssignApart(inputs, routes + {n}, prog, e', i + 1);
      } else {
        assert !AllPicked(a, i);
      }
    }
  }

  // ---- When first fit runs out ----------------------------------------------

  /** The inputs among slots `from`.. that may not keep their value and have no route yet. */
  ghost function NeedSet(routes: set<Route>, chan: nat, e: Ents, from: nat): set<int> {
    set j: nat | from <= j < SLOTS && IsValidPid(e[j].inPid) && NeedsFresh(routes, chan, j == 0, e[j].inPid) ::
      e[j].inPid
  }

  /** Slots whose inputs the channel is known to receive, none of them sharing the PMT's. */
  ghost predicate KnownInputs(inputs: set<Input>, e: Ents) {
    && (forall j :: 0 <= j < SLOTS && IsValidPid(e[j].inPid) ==> IsInput(inputs, e[j].inPid))
    && (forall j :: 1 <= j < SLOTS ==> e[j].inPid != e[0].inPid)
  }

  lemma FreshShrinks(inputs: set<Input>, routes: set<Route>, n: Route)
    ensures FreeSet(inputs, routes + {n}) == FreeSet(inputs, routes) - {n.outPid as int}
  {
    forall pid ensures Taken(routes + {n}, pid) <==> Taken(routes, pid) || pid == n.outPid {
      if Taken(routes, pid) {
        var r :| r in routes && r.outPid == pid;
        assert r in routes + {n};
      }
      if pid == n.outPid {
        assert n in routes + {n};
      }
    }
  }

  /** After slot i is routed, exactly the other inputs still need what they needed. */
  lemma NeedShrinks(inputs: set<Input>, routes: set<Route>, prog: nat, e: Ents, i: nat)
    requires i < SLOTS && IsValidPid(e[i].inPid) && KnownInputs(inputs, e)
    ensures var outPid := Pick(inputs, routes, prog / PROGRAM_MAX, i == 0, e[i].inPid);
      var e' := SetOut(e, i, outPid);
      NeedSet(routes + {RouteOf(prog, e', i)}, prog / PROGRAM_MAX, e', i + 1) ==
      NeedSet(routes, prog / PROGRAM_MAX, e, i) -
        (if NeedsFresh(routes, prog / PROGRAM_MAX, i == 0, e[i].inPid) then {e[i].inPid as int} else {})
  {
    var chan := prog / PROGRAM_MAX;
    var outPid := Pick(inputs, routes, chan, i == 0, e[i].inPid);
    var e' := SetOut(e, i, outPid);
    var n := RouteOf(prog, e', i);
    var routes' := routes + {n};
    forall j | i < j < SLOTS && IsValidPid(e[j].inPid)
      ensures NeedsFresh(routes', chan, false, e[j].inPid) <==>
              NeedsFresh(routes, chan, false, e[j].inPid) && e[j].inPid != e[i].inPid
    {
      NeedAfterRoute(inputs, routes, chan, n, e[j].inPid);
    }
    var after, before := NeedSet(routes', chan, e', i + 1), NeedSet(routes, chan, e, i);
    forall x ensures x in after <==> x in before && x != e[i].inPid {
      if x in after {
        var j: nat :| i + 1 <= j < SLOTS && IsValidPid(e'[j].inPid) &&
          NeedsFresh(routes', chan, j == 0, e'[j].inPid) && e'[j].inPid == x;
        assert NeedsFresh(routes, chan, false, e[j].inPid);
      }
      if x in before && x != e[i].inPid {
        var j: nat :| i <= j < SLOTS && IsValidPid(e[j].inPid) && NeedsFresh(routes, chan, j == 0, e[j].inPid) &&
          e[j].inPid == x;
        assert NeedsFresh(routes', chan, false, e'[j].inPid);
      }
    }
  }

  lemma NeedAfterRoute(inputs: set<Input>, routes: set<Route>, chan: nat, n: Route, pid: U16)
    requires n.Chan() == chan && IsInput(inputs, pid) && IsValidPid(pid)
    requires n.outPid == Pick(inputs, routes, chan, n.Pmt(), n.inPid)
    requires n.Pmt() ==> pid != n.inPid
    ensures NeedsFresh(routes + {n}, chan, false, pid) <==> NeedsFresh(routes, chan, false, pid) && pid != n.inPid
  {
    var routes' := routes + {n};
    assert n in routes';
    assert Mapped(routes', chan, pid) <==> Mapped(routes, chan, pid) || (!n.Pmt() && pid == n.inPid) by {
      if Mapped(routes, chan, pid) {
        var r :| r in routes && !r.Pmt() && r.Carries(chan, pid);
        assert r in routes';
      }
    }
    assert Taken(routes', pid) <==> Taken(routes, pid) || pid == n.outPid by {
      if Taken(routes, pid) {
        var r :| r in routes && r.outPid == pid;
        assert r in routes';
      }
    }
    if pid == n.outPid && !n.Pmt() && Mapped(routes, chan, n.inPid) {
      assert Taken(routes, pid);
    }
  }

  lemma PickedNotFree(inputs: set<Input>, routes: set<Route>, chan: nat, pmt: bool, pid: U16)
    requires IsInput(inputs, pid) && !NeedsFresh(routes, chan, pmt, pid)
    ensures !Free(inputs, routes, Pick(inputs, routes, chan, pmt, pid))
  {
    if !pmt && Mapped(routes, chan, pid) {
      assert Taken(routes, MappedOut(routes, chan, pid));
    }
  }

  lemma KnownAfterSet(inputs: set<Input>, e: Ents, i: nat, outPid: U16)
    requires i < SLOTS && KnownInputs(inputs, e)
    ensures KnownInputs(inputs, SetOut(e, i, outPid))
  {
    forall j | 0 <= j < SLOTS ensures SetOut(e, i, outPid)[j].inPid == e[j].inPid {
    }
  }

  /** One step: either nothing is consumed, or one need and one free PID go together. */
  lemma StepCounts(inputs: set<Input>, routes: set<Route>, prog: nat, e: Ents, i: nat)
    requires i < SLOTS && IsValidPid(e[i].inPid) && KnownInputs(inputs, e)
    ensures var chan := prog / PROGRAM_MAX;
      var outPid := Pick(inputs, routes, chan, i == 0, e[i].inPid);
      var e' := SetOut(e, i, outPid);
      var need, free := |NeedSet(routes, chan, e, i)|, |FreeSet(inputs, routes)|;
      var routes' := routes + {RouteOf(prog, e', i)};
      var need', free' := |NeedSet(routes', chan, e', i + 1)|, |FreeSet(inputs, routes')|;
      if NeedsFresh(routes, chan, i == 0, e[i].inPid) then
        need > 0 && (outPid == NULL_PID <==> free == 0) &&
          (outPid != NULL_PID ==> need' == need - 1 && free' == free - 1)
      else need' == need && free' == free
  {
    var chan := prog / PROGRAM_MAX;
    var outPid := Pick(inputs, routes, chan, i == 0, e[i].inPid);
    var n := RouteOf(prog, SetOut(e, i, outPid), i);
    FreshShrinks(inputs, routes, n);
    NeedShrinks(inputs, routes, prog, e, i);
    if NeedsFresh(routes, chan, i == 0, e[i].inPid) {
      assert e[i].inPid as int in NeedSet(routes, chan, e, i);
      if outPid == NULL_PID {
        assert FreeSet(inputs, routes) == {};
      } else {
        assert outPid as int in FreeSet(inputs, routes);
      }
    } else {
      PickedNotFree(inputs, routes, chan, i == 0, e[i].inPid);
    }
  }

  /** First fit serves every slot exactly when there are as many free PIDs as inputs in need of one. */
  lemma {:induction false} EnoughFree(inputs: set<Input>, routes: set<Route>, prog: nat, e: Ents, i: nat)
    requires i <= SLOTS && KnownInputs(inputs, e)
    requires forall r :: r in routes ==> r.outPid != NULL_PID
    ensures AllPicked(Assign(inputs, routes, prog, e, i), i) <==>
            |NeedSet(routes, prog / PROGRAM_MAX, e, i)| <= |FreeSet(inputs, routes)|
    decreases SLOTS - i
  {
    hide FreeSet, FirstFree, NeedsFresh;
    var chan := prog / PROGRAM_MAX;
    if i == SLOTS {
      assert NeedSet(routes, chan, e, i) == {};
    } else if !IsValidPid(e[i].inPid) {
      EnoughFree(inputs, routes, prog, e, i + 1);
      assert NeedSet(routes, chan, e, i) == NeedSet(routes, chan, e, i + 1);
    } else {
      var outPid := Pick(inputs, routes, chan, i == 0, e[i].inPid);
      var e' := SetOut(e, i, outPid);
      StepCounts(inputs, routes, prog, e, i);
      assert Assign(inputs, routes, prog, e, i)[i].outPid == outPid;
      if outPid != NULL_PID {
        KnownAfterSet(inputs, e, i, outPid);
        EnoughFree(inputs, routes + {RouteOf(prog, e', i)}, prog, e', i + 1);
      } else {
        PickedNull(inputs, routes, chan, i == 0, e[i].inPid);
      }
    }
  }

  lemma PickedNull(inputs: set<Input>, routes: set<Route>, chan: nat, pmt: bool, pid: U16)
    requires forall r :: r in routes ==> r.outPid != NULL_PID
    requires IsValidPid(pid) && Pick(inputs, routes, chan, pmt, pid) == NULL_PID
    ensures NeedsFresh(routes, chan, pmt, pid)
  {
  }

  lemma AssignAllApart(inputs: set<Input>, routes: set<Route>, prog: nat, e: Ents)
    requires Apart(routes) && KnownInputs(inputs, e)
    ensures Apart(routes + RoutesFrom(prog, Assign(inputs, routes, prog, e, 0), 0)) <==>
            |NeedSet(routes, prog / PROGRAM_MAX, e, 0)| <= |FreeSet(inputs, routes)|
  {
    AssignApart(inputs, routes, prog, e, 0);
    EnoughFree(inputs, routes, prog, e, 0);
  }

  // ---- Counting -----------------------------------------------------------------

  function Range(lo: int, hi: int): (s: set<int>)
    requires lo <= hi
    ensures |s| == hi - lo
    ensures forall x :: x in s <==> lo <= x < hi
    decreases hi - lo
  {
    if lo == hi then {} else Range(lo, hi - 1) + {hi - 1}
  }

  lemma {:induction false} SubsetSize<T>(a: set<T>, b: set<T>)
    requires a <= b
    ensures |a| <= |b|
    decreases a
  {
    if a != {} {
      var x :| x in a;
      SubsetSize(a - {x}, b - {x});
    }
  }

  ghost function PidsOf(inputs: set<Input>): set<int> {
    set i | i in inputs :: i.pid
  }

  ghost function OutsOf(routes: set<Route>): set<int> {
    set r | r in routes :: r.outPid as int
  }

  lemma {:induction false} PidsOfSize(inputs: set<Input>)
    ensures |PidsOf(inputs)| <= |inputs|
    decreases inputs
  {
    if inputs != {} {
      var i :| i in inputs;
      PidsOfSize(inputs - {i});
      SubsetSize(PidsOf(inputs), PidsOf(inputs - {i}) + {i.pid});
    }
  }

  /** Pigeonhole over the 8159 usable PIDs. */
  lemma FreeAtLeast(inputs: set<Input>, routes: set<Route>)
    ensures |FreeSet(inputs, routes)| >= NULL_PID - PID_MIN - |inputs| - |OutsOf(routes)|
  {
    var all := Range(PID_MIN, NULL_PID);
    var used := PidsOf(inputs) + OutsOf(routes);
    assert all - used <= FreeSet(inputs, routes);
    PidsOfSize(inputs);
    assert all <= (all - used) + used;
    SubsetSize(all, (all - used) + used);
    SubsetSize(all - used, FreeSet(inputs, routes));
  }

  lemma {:induction false} NeedSize(routes: set<Route>, chan: nat, e: Ents, from: nat)
    requires from <= SLOTS
    ensures |NeedSet(routes, chan, e, from)| <= SLOTS - from
    decreases SLOTS - from
  {
    if from == SLOTS {
      assert NeedSet(routes, chan, e, from) == {};
    } else {
      NeedSize(routes, chan, e, from + 1);
      SubsetSize(NeedSet(routes, chan, e, from), NeedSet(routes, chan, e, from + 1) + {e[from].inPid as int});
    }
  }

  // ---- Giving an input another output ---------------------------------------------

  /** Every route that carries n's input follows n's output. */
  function Rerouted(r: Route, n: Route): Route {
    if !n.Pmt() && !r.Pmt() && r.Carries(n.Chan(), n.inPid) then r.(outPid := n.outPid) else r
  }

  ghost function Reroute(routes: set<Route>, n: Route): set<Route> {
    set r | r in routes :: Rerouted(r, n)
  }

  /** A usable output may be given to an input and to everything that shares it. */
  lemma RerouteApart(routes: set<Route>, n: Route)
    requires Apart(routes) && Sendable(n.outPid)
    requires Usable(routes, n.Chan(), n.Pmt(), n.inPid, n.outPid)
    ensures Apart(Reroute(routes, n) + {n})
  {
    forall r, s | r in routes && s in routes ensures Compatible(Rerouted(r, n), Rerouted(s, n)) {
      assert Compatible(r, s);
    }
    forall r, s | r in Reroute(routes, n) && s in Reroute(routes, n) ensures Compatible(r, s) {
      var r0 :| r0 in routes && r == Rerouted(r0, n);
      var s0 :| s0 in routes && s == Rerouted(s0, n);
      assert Compatible(Rerouted(r0, n), Rerouted(s0, n));
    }
    forall r | r in Reroute(routes, n) ensures Compatible(n, r) {
      var r0 :| r0 in routes && r == Rerouted(r0, n);
    }
    ExtendApart(Reroute(routes, n), n);
  }

  /** A route that fits in with all others is usable, unless it is already there. */
  lemma CompatibleUsable(routes: set<Route>, n: Route)
    requires forall r :: r in routes ==> Compatible(n, r)
    requires forall r :: r in routes ==> r.prog != n.prog || r.slot != n.slot
    ensures Usable(routes, n.Chan(), n.Pmt(), n.inPid, n.outPid)
  {
    forall r | r in routes && r.outPid == n.outPid ensures !n.Pmt() && !r.Pmt() && r.Carries(n.Chan(), n.inPid) {
      assert Compatible(n, r);
    }
  }

  // ---- One output for one input --------------------------------------------------------

  /** Routes of one input agree on the output. */
  ghost predicate SameOut(routes: set<Route>) {
    forall r, s :: r in routes && s in routes && !r.Pmt() && !s.Pmt() && s.Carries(r.Chan(), r.inPid) ==>
      r.outPid == s.outPid
  }

  lemma ApartSameOut(routes: set<Route>)
    requires Apart(routes)
    ensures SameOut(routes)
  {
    forall r, s | r in routes && s in routes && !r.Pmt() && !s.Pmt() && s.Carries(r.Chan(), r.inPid)
      ensures r.outPid == s.outPid
    {
      assert Compatible(r, s);
    }
  }

  /** The output in force for an input is the one of any route that carries it. */
  lemma OutInForce(routes: set<Route>, r: Route)
    requires SameOut(routes) && r in routes && !r.Pmt()
    ensures Mapped(routes, r.Chan(), r.inPid) && MappedOut(routes, r.Chan(), r.inPid) == r.outPid
  {
    assert Mapped(routes, r.Chan(), r.inPid);
    var q :| q in routes && !q.Pmt() && q.Carries(r.Chan(), r.inPid) &&
      q.outPid == MappedOut(routes, r.Chan(), r.inPid);
    assert q.outPid == r.outPid;
  }

  lemma RerouteSame(routes: set<Route>, n: Route)
    requires forall r :: r in routes && !n.Pmt() && !r.Pmt() && r.Carries(n.Chan(), n.inPid) ==> r.outPid == n.outPid
    ensures Reroute(routes, n) == routes
  {
    forall r | r in routes ensures Rerouted(r, n) == r {
    }
  }

  /** A picked output follows every route of its input. */
  lemma PickFollows(inputs: set<Input>, routes: set<Route>, n: Route)
    requires SameOut(routes) && n.outPid == Pick(inputs, routes, n.Chan(), n.Pmt(), n.inPid)
    ensures Reroute(routes, n) == routes && SameOut(routes + {n})
    ensures forall r :: r in routes && !n.Pmt() && !r.Pmt() && r.Carries(n.Chan(), n.inPid) ==> r.outPid == n.outPid
  {
    forall r | r in routes && !n.Pmt() && !r.Pmt() && r.Carries(n.Chan(), n.inPid) ensures r.outPid == n.outPid {
      PickIsInForce(inputs, routes, n, r);
    }
    RerouteSame(routes, n);
    forall r, s | r in routes + {n} && s in routes + {n} && !r.Pmt() && !s.Pmt() && s.Carries(r.Chan(), r.inPid)
      ensures r.outPid == s.outPid
    {
      if r in routes && s in routes {
        assert r.outPid == s.outPid;
      }
    }
  }

  lemma PickIsInForce(inputs: set<Input>, routes: set<Route>, n: Route, r: Route)
    requires SameOut(routes) && n.outPid == Pick(inputs, routes, n.Chan(), n.Pmt(), n.inPid)
    requires r in routes && !n.Pmt() && !r.Pmt() && r.Carries(n.Chan(), n.inPid)
    ensures r.outPid == n.outPid
  {
    assert Mapped(routes, n.Chan(), n.inPid);
    var q :| q in routes && !q.Pmt() && q.Carries(n.Chan(), n.inPid) &&
      q.outPid == MappedOut(routes, n.Chan(), n.inPid);
    assert q.outPid == r.outPid;
  }

  /** The output of a second PMT with the same input, which is on record at its output. */
  ghost predicate FurtherPmt(routes: set<Route>, pid: int) {
    exists r, s ::
      r in routes && s in routes && r.Pmt() && s.Pmt() && s.prog < r.prog && s.Carries(r.Chan(), r.inPid) &&
      r.outPid == pid
  }

  /** One route more, of a program behind all others: a PMT is a further one if its input has a
      PMT already. */
  lemma FurtherGrows(routes: set<Route>, n: Route, pid: int)
    requires forall r :: r in routes ==> r.prog < n.prog || (r.prog == n.prog && !n.Pmt())
    ensures FurtherPmt(routes + {n}, pid) <==>
      FurtherPmt(routes, pid) || (n.Pmt() && PmtMapped(routes, n.Chan(), n.inPid) && n.outPid == pid)
  {
    var more := routes + {n};
    assert n in more;
    if FurtherPmt(routes, pid) {
      var r, s :| r in routes && s in routes && r.Pmt() && s.Pmt() && s.prog < r.prog &&
                  s.Carries(r.Chan(), r.inPid) && r.outPid == pid;
      assert r in more && s in more;
    }
    if n.Pmt() && PmtMapped(routes, n.Chan(), n.inPid) && n.outPid == pid {
      var s :| s in routes && s.Pmt() && s.Carries(n.Chan(), n.inPid);
      assert s in more;
    }
  }
}
