/** Which outputs the allocator gives to a program, and when they pass the PID check
    (src/io_table.c:123-148, 198-232, 283-316, src/program_pid_validater.c:21-65). */
module Previews {
  import opened Pids
  import opened Routes

  // ---- The outputs given out -------------------------------------------------------------

  /** The input of slot j has q in force, or may keep it as its own value. */
  ghost predicate Kept(inputs: set<Input>, routes: set<Route>, chan: nat, e: Ents, j: nat, q: int)
    requires j < SLOTS
  {
    && IsValidPid(e[j].inPid) && !NeedsFresh(routes, chan, j == 0, e[j].inPid)
    && Pick(inputs, routes, chan, j == 0, e[j].inPid) == q
  }

  ghost predicate Keeps(inputs: set<Input>, routes: set<Route>, chan: nat, e: Ents, from: nat, q: int) {
    exists j: nat :: from <= j < SLOTS && Kept(inputs, routes, chan, e, j, q)
  }

  ghost function FreeBelow(inputs: set<Input>, routes: set<Route>, q: int): set<int> {
    set pid | pid in FreeSet(inputs, routes) && pid < q
  }

  /** q is given to some slot: kept, or one of the least free PIDs, as many as are needed. */
  ghost predicate GivesOut(inputs: set<Input>, routes: set<Route>, chan: nat, e: Ents, from: nat, q: int) {
    || Keeps(inputs, routes, chan, e, from, q)
    || (Free(inputs, routes, q) && |FreeBelow(inputs, routes, q)| < |NeedSet(routes, chan, e, from)|)
  }

  /** What holds of slot j once slot i has its route. */
  lemma PickAfterRoute(inputs: set<Input>, routes: set<Route>, chan: nat, n: Route, pid: U16)
    requires SameOut(routes) && n.Chan() == chan && IsInput(inputs, pid) && IsValidPid(pid)
    requires n.outPid == Pick(inputs, routes, chan, n.Pmt(), n.inPid) && (n.Pmt() ==> pid != n.inPid)
    ensures var routes' := routes + {n};
      if pid == n.inPid then !NeedsFresh(routes', chan, false, pid) &&
        Pick(inputs, routes', chan, false, pid) == n.outPid
      else
        && (NeedsFresh(routes', chan, false, pid) <==> NeedsFresh(routes, chan, false, pid))
        && (!NeedsFresh(routes, chan, false, pid) ==>
            Pick(inputs, routes', chan, false, pid) == Pick(inputs, routes, chan, false, pid))
  {
    hide FirstFree, NeedsFresh, SameOut;
    var routes' := routes + {n};
    NeedAfterRoute(inputs, routes, chan, n, pid);
    PickFollows(inputs, routes, n);
    MappedAfterRoute(routes, chan, n, pid);
    if pid == n.inPid {
      OutInForce(routes', n);
      NotFresh(routes', chan, pid);
    } else if Mapped(routes, chan, pid) {
      var r :| r in routes && !r.Pmt() && r.Carries(chan, pid);
      OutInForce(routes, r);
      OutInForce(routes', r);
    }
  }

  lemma MappedAfterRoute(routes: set<Route>, chan: nat, n: Route, pid: U16)
    requires n.Chan() == chan
    ensures Mapped(routes + {n}, chan, pid) <==> Mapped(routes, chan, pid) || (!n.Pmt() && pid == n.inPid)
  {
    assert n in routes + {n};
    if r :| r in routes && !r.Pmt() && r.Carries(chan, pid) {
      assert r in routes + {n};
    }
  }

  lemma NotFresh(routes: set<Route>, chan: nat, pid: U16)
    requires Mapped(routes, chan, pid)
    ensures !NeedsFresh(routes, chan, false, pid)
  {
  }

  /** First fit takes the least free PID, and leaves the order of the others as it is. */
  lemma FirstFreeIsLeast(inputs: set<Input>, routes: set<Route>, n: Route, q: int)
    requires n.outPid == FirstFree(inputs, routes, PID_MIN) != NULL_PID && Free(inputs, routes, q)
    ensures q == n.outPid ==> |FreeBelow(inputs, routes, q)| == 0
    ensures q != n.outPid ==>
      Free(inputs, routes + {n}, q) && |FreeBelow(inputs, routes + {n}, q)| == |FreeBelow(inputs, routes, q)| - 1
  {
    FreshShrinks(inputs, routes, n);
    if q == n.outPid {
      assert FreeBelow(inputs, routes, q) == {};
    } else {
      assert q in FreeSet(inputs, routes) && q in FreeSet(inputs, routes + {n});
      assert n.outPid as int in FreeBelow(inputs, routes, q);
      assert FreeBelow(inputs, routes + {n}, q) == FreeBelow(inputs, routes, q) - {n.outPid as int};
    }
  }

  lemma FreeAfter(inputs: set<Input>, routes: set<Route>, n: Route, q: int)
    ensures Free(inputs, routes + {n}, q) <==> Free(inputs, routes, q) && q != n.outPid
  {
    assert n in routes + {n};
    if r :| r in routes && r.outPid == q {
      assert r in routes + {n};
    }
  }

  /** What is kept by the slots from i on: the value of slot i if it keeps one, and what the
      later slots keep once slot i has its route. */
  lemma KeepsStep(inputs: set<Input>, routes: set<Route>, prog: nat, e: Ents, i: nat, f: Ents, q: int)
    requires i < SLOTS && IsValidPid(e[i].inPid) && KnownInputs(inputs, e) && SameOut(routes)
    requires f == SetOut(e, i, Pick(inputs, routes, prog / PROGRAM_MAX, i == 0, e[i].inPid)) && q != f[i].outPid
    ensures Keeps(inputs, routes, prog / PROGRAM_MAX, e, i, q) <==>
            Keeps(inputs, routes + {RouteOf(prog, f, i)}, prog / PROGRAM_MAX, f, i + 1, q)
  {
    var chan, n := prog / PROGRAM_MAX, RouteOf(prog, f, i);
    hide Pick, NeedsFresh;
    forall j: nat | i < j < SLOTS
      ensures Kept(inputs, routes, chan, e, j, q) <==> Kept(inputs, routes + {n}, chan, f, j, q)
    {
      if IsValidPid(e[j].inPid) {
        PickAfterRoute(inputs, routes, chan, n, e[j].inPid);
      }
    }
    assert !Kept(inputs, routes, chan, e, i, q);
    if j: nat :| i + 1 <= j < SLOTS && Kept(inputs, routes + {n}, chan, f, j, q) {
      assert Kept(inputs, routes, chan, e, j, q);
    }
    if j: nat :| i <= j < SLOTS && Kept(inputs, routes, chan, e, j, q) {
      assert Kept(inputs, routes + {n}, chan, f, j, q);
    }
  }

  /** One slot assigned: its output, and what the later slots are given then. */
  lemma GivesOutStep(inputs: set<Input>, routes: set<Route>, prog: nat, e: Ents, i: nat, f: Ents, q: int)
    requires i < SLOTS && IsValidPid(e[i].inPid) && KnownInputs(inputs, e) && SameOut(routes)
    requires f == SetOut(e, i, Pick(inputs, routes, prog / PROGRAM_MAX, i == 0, e[i].inPid)) && f[i].outPid != NULL_PID
    ensures GivesOut(inputs, routes, prog / PROGRAM_MAX, e, i, q) <==>
            f[i].outPid == q || GivesOut(inputs, routes + {RouteOf(prog, f, i)}, prog / PROGRAM_MAX, f, i + 1, q)
  {
    hide NeedsFresh, FirstFree, MappedOut, FreeBelow, NeedSet;
    var chan, n := prog / PROGRAM_MAX, RouteOf(prog, f, i);
    StepCounts(inputs, routes, prog, e, i);
    if NeedsFresh(routes, chan, i == 0, e[i].inPid) {
      FreshPick(inputs, routes, chan, i == 0, e[i].inPid);
      if Free(inputs, routes, q) {
        FirstFreeIsLeast(inputs, routes, n, q);
      }
    } else {
      assert Kept(inputs, routes, chan, e, i, f[i].outPid);
      PickedNotFree(inputs, routes, chan, i == 0, e[i].inPid);
      SameFree(inputs, routes, n, q);
    }
    FreeAfter(inputs, routes, n, q);
    if q != f[i].outPid {
      KeepsStep(inputs, routes, prog, e, i, f, q);
    }
  }

  lemma FreshPick(inputs: set<Input>, routes: set<Route>, chan: nat, pmt: bool, pid: U16)
    requires NeedsFresh(routes, chan, pmt, pid)
    ensures Pick(inputs, routes, chan, pmt, pid) == FirstFree(inputs, routes, PID_MIN)
  {
  }

  lemma SameFree(inputs: set<Input>, routes: set<Route>, n: Route, q: int)
    requires !Free(inputs, routes, n.outPid)
    ensures FreeBelow(inputs, routes + {n}, q) == FreeBelow(inputs, routes, q)
  {
    FreshShrinks(inputs, routes, n);
  }

  /** Exactly the outputs that can be foretold are given out: those in force, own values,
      and the least free PIDs. */
  lemma {:induction false} AssignGivesOut(inputs: set<Input>, routes: set<Route>, prog: nat, e: Ents, i: nat, q: int)
    requires i <= SLOTS && KnownInputs(inputs, e) && SameOut(routes)
    requires AllPicked(Assign(inputs, routes, prog, e, i), i)
    ensures var a := Assign(inputs, routes, prog, e, i);
      GivesOut(inputs, routes, prog / PROGRAM_MAX, e, i, q) <==>
      exists j: nat :: i <= j < SLOTS && IsValidPid(a[j].inPid) && a[j].outPid == q
    decreases SLOTS - i
  {
    hide GivesOut, FreeSet, FirstFree, NeedsFresh, NeedSet, Pick;
    var chan, a := prog / PROGRAM_MAX, Assign(inputs, routes, prog, e, i);
    if i == SLOTS {
      NothingLeft(inputs, routes, chan, e, q);
    } else if !IsValidPid(e[i].inPid) {
      AssignGivesOut(inputs, routes, prog, e, i + 1, q);
      SkipGivesOut(inputs, routes, chan, e, i, q);
    } else {
      var f := SetOut(e, i, Pick(inputs, routes, chan, i == 0, e[i].inPid));
      var n := RouteOf(prog, f, i);
      assert a[i] == f[i];
      KnownAfterSet(inputs, e, i, f[i].outPid);
      PickFollows(inputs, routes, n);
      AssignGivesOut(inputs, routes + {n}, prog, f, i + 1, q);
      GivesOutStep(inputs, routes, prog, e, i, f, q);
    }
  }

  lemma NothingLeft(inputs: set<Input>, routes: set<Route>, chan: nat, e: Ents, q: int)
    ensures !GivesOut(inputs, routes, chan, e, SLOTS, q)
  {
    assert NeedSet(routes, chan, e, SLOTS) == {};
  }

  lemma SkipGivesOut(inputs: set<Input>, routes: set<Route>, chan: nat, e: Ents, i: nat, q: int)
    requires i < SLOTS && !IsValidPid(e[i].inPid)
    ensures GivesOut(inputs, routes, chan, e, i, q) <==> GivesOut(inputs, routes, chan, e, i + 1, q)
  {
    assert NeedSet(routes, chan, e, i) == NeedSet(routes, chan, e, i + 1);
    if j: nat :| i <= j < SLOTS && Kept(inputs, routes, chan, e, j, q) {
      assert i + 1 <= j;
    }
  }

  /** Slots with the same input are given the same output. */
  lemma {:induction false} AssignSameOut(inputs: set<Input>, routes: set<Route>, prog: nat, e: Ents, i: nat)
    requires i <= SLOTS && SameOut(routes)
    ensures SameOut(routes + RoutesFrom(prog, Assign(inputs, routes, prog, e, i), i))
    decreases SLOTS - i
  {
    hide Pick, SameOut;
    var a := Assign(inputs, routes, prog, e, i);
    if i == SLOTS {
      assert routes + RoutesFrom(prog, a, i) == routes;
    } else if !IsValidPid(e[i].inPid) {
      AssignSameOut(inputs, routes, prog, e, i + 1);
      assert RoutesFrom(prog, a, i) == RoutesFrom(prog, a, i + 1);
    } else {
      var f := SetOut(e, i, Pick(inputs, routes, prog / PROGRAM_MAX, i == 0, e[i].inPid));
      var n := RouteOf(prog, f, i);
      assert a[i] == f[i];
      PickFollows(inputs, routes, n);
      AssignSameOut(inputs, routes + {n}, prog, f, i + 1);
      assert RoutesFrom(prog, a, i) == {n} + RoutesFrom(prog, a, i + 1);
      assert routes + RoutesFrom(prog, a, i) == (routes + {n}) + RoutesFrom(prog, a, i + 1);
    }
  }

  // ---- The PID check on what was given out ------------------------------------------------

  /** The pads pass the PID check among themselves. */
  predicate PadsPass(e: Ents) {
    && (!IsValidPid(e[1].inPid) ==> IsValidPid(e[1].outPid))
    && (forall i :: 2 <= i < SLOTS && !IsValidPid(e[i].inPid) ==> Sendable(e[i].outPid))
    && (forall i, j :: 0 <= i < j < SLOTS && !IsValidPid(e[i].inPid) && !IsValidPid(e[j].inPid) ==>
      e[i].outPid == e[j].outPid)
  }

  /** What can be seen beforehand: there are PIDs enough, a PCR in force has a valid output,
      and no output that will be given out is that of the pads. */
  ghost predicate WillPass(inputs: set<Input>, routes: set<Route>, chan: nat, e: Ents) {
    && |NeedSet(routes, chan, e, 0)| <= |FreeSet(inputs, routes)|
    && (IsValidPid(e[1].inPid) && Mapped(routes, chan, e[1].inPid) ==> IsValidPid(MappedOut(routes, chan, e[1].inPid)))
    && PadsPass(e)
    && forall i: nat :: i < SLOTS && !IsValidPid(e[i].inPid) ==> !GivesOut(inputs, routes, chan, e, 0, e[i].outPid)
  }

  lemma PickSendable(inputs: set<Input>, routes: set<Route>, chan: nat, pmt: bool, pid: U16)
    requires IsValidPid(pid) && forall r :: r in routes ==> Sendable(r.outPid) || r.outPid == NULL_PID
    ensures var outPid := Pick(inputs, routes, chan, pmt, pid);
      && (Sendable(outPid) || outPid == NULL_PID)
      && (pmt || !Mapped(routes, chan, pid) ==> IsValidPid(outPid) || outPid == NULL_PID)
  {
  }

  /** The outputs of slots in use are in range unless first fit ran out; that of a PMT or of
      an input not in force yet is a valid PID. */
  lemma {:induction false} AssignSendable(inputs: set<Input>, routes: set<Route>, prog: nat, e: Ents, i: nat)
    requires i <= SLOTS && forall r :: r in routes ==> Sendable(r.outPid) || r.outPid == NULL_PID
    ensures var a := Assign(inputs, routes, prog, e, i);
      forall j :: i <= j < SLOTS && IsValidPid(e[j].inPid) ==> Sendable(a[j].outPid) || a[j].outPid == NULL_PID
    decreases SLOTS - i
  {
    hide Pick, Sendable;
    if i == SLOTS {
    } else if !IsValidPid(e[i].inPid) {
      AssignSendable(inputs, routes, prog, e, i + 1);
    } else {
      var outPid := Pick(inputs, routes, prog / PROGRAM_MAX, i == 0, e[i].inPid);
      var f := SetOut(e, i, outPid);
      PickSendable(inputs, routes, prog / PROGRAM_MAX, i == 0, e[i].inPid);
      AssignSendable(inputs, routes + {RouteOf(prog, f, i)}, prog, f, i + 1);
    }
  }

  /** The PMT and the PCR of a program that was served completely. */
  lemma FirstTwo(inputs: set<Input>, routes: set<Route>, prog: nat, e: Ents)
    requires Apart(routes) && KnownInputs(inputs, e) && IsValidPid(e[0].inPid)
    requires AllPicked(Assign(inputs, routes, prog, e, 0), 0)
    ensures var chan, a := prog / PROGRAM_MAX, Assign(inputs, routes, prog, e, 0);
      && IsValidPid(a[0].outPid)
      && (IsValidPid(e[1].inPid) ==> (IsValidPid(a[1].outPid) <==>
          (Mapped(routes, chan, e[1].inPid) ==> IsValidPid(MappedOut(routes, chan, e[1].inPid)))))
  {
    hide FirstFree, NeedsFresh, Apart;
    var chan, a := prog / PROGRAM_MAX, Assign(inputs, routes, prog, e, 0);
    var f := SetOut(e, 0, Pick(inputs, routes, chan, true, e[0].inPid));
    var n := RouteOf(prog, f, 0);
    PmtValid(inputs, routes, chan, e[0].inPid);
    assert a == Assign(inputs, routes + {n}, prog, f, 1);
    assert a[0] == f[0];
    if IsValidPid(e[1].inPid) {
      var out := Pick(inputs, routes + {n}, chan, false, e[1].inPid);
      assert a[1].outPid == out;
      PcrValid(inputs, routes, chan, n, e[1].inPid);
    }
  }

  lemma PmtValid(inputs: set<Input>, routes: set<Route>, chan: nat, pid: U16)
    requires IsValidPid(pid) && Pick(inputs, routes, chan, true, pid) != NULL_PID
    ensures IsValidPid(Pick(inputs, routes, chan, true, pid))
  {
  }

  lemma PcrValid(inputs: set<Input>, routes: set<Route>, chan: nat, n: Route, pid: U16)
    requires Apart(routes) && IsValidPid(pid) && n.Chan() == chan && n.Pmt()
    requires Pick(inputs, routes + {n}, chan, false, pid) != NULL_PID
    ensures IsValidPid(Pick(inputs, routes + {n}, chan, false, pid)) <==>
            (Mapped(routes, chan, pid) ==> IsValidPid(MappedOut(routes, chan, pid)))
  {
    var routes' := routes + {n};
    ApartSameOut(routes);
    MappedAfterRoute(routes, chan, n, pid);
    if r :| r in routes && !r.Pmt() && r.Carries(chan, pid) {
      assert SameOut(routes');
      OutInForce(routes, r);
      OutInForce(routes', r);
    }
  }

  lemma NullRejected(e: Ents)
    requires !AllPicked(e, 0)
    ensures !PidsAccepted(e)
  {
    var i :| 0 <= i < SLOTS && IsValidPid(e[i].inPid) && e[i].outPid == NULL_PID;
    assert !Sendable(e[i].outPid);
  }

  lemma ApartOutputs(routes: set<Route>)
    requires Apart(routes)
    ensures forall r :: r in routes ==> Sendable(r.outPid) && r.outPid != NULL_PID
  {
  }

  lemma InputsKept(e: Ents, a: Ents)
    requires SameInputs(a, e) && WellFormed(e)
    ensures WellFormed(a) && forall i :: 0 <= i < SLOTS ==> a[i].inPid == e[i].inPid
  {
  }

  lemma SamePads(e: Ents, a: Ents)
    requires SameInputs(a, e) && forall i :: 0 <= i < SLOTS && !IsValidPid(e[i].inPid) ==> a[i] == e[i]
    ensures PadsPass(a) <==> PadsPass(e)
  {
  }

  /** No slot in use has the output of a pad. */
  predicate PadsAlone(a: Ents) {
    forall i: nat, j: nat :: i < SLOTS && j < SLOTS && !IsValidPid(a[i].inPid) && IsValidPid(a[j].inPid) ==>
      a[j].outPid != a[i].outPid
  }

  /** For a program whose outputs in use stand apart the PID check comes down to the PCR and the pads. */
  lemma CheckComesDown(routes: set<Route>, prog: nat, a: Ents)
    requires Apart(routes + RoutesFrom(prog, a, 0)) && WellFormed(a) && IsValidPid(a[0].outPid)
    requires forall i :: 1 <= i < SLOTS ==> a[i].inPid != a[0].inPid
    requires forall i :: 0 <= i < SLOTS && IsValidPid(a[i].inPid) ==> Sendable(a[i].outPid)
    ensures PidsAccepted(a) <==> (IsValidPid(a[1].inPid) ==> IsValidPid(a[1].outPid)) && PadsPass(a) && PadsAlone(a)
  {
    forall i, j | 0 <= i < j < SLOTS && IsValidPid(a[j].inPid)
      ensures a[i].inPid == a[j].inPid <==> a[i].outPid == a[j].outPid
    {
      var r, s := RouteOf(prog, a, i), RouteOf(prog, a, j);
      assert r in RoutesFrom(prog, a, 0) && s in RoutesFrom(prog, a, 0);
      assert Compatible(r, s);
    }
  }

  lemma PadsAloneForetold(inputs: set<Input>, routes: set<Route>, prog: nat, e: Ents)
    requires SameOut(routes) && KnownInputs(inputs, e) && AllPicked(Assign(inputs, routes, prog, e, 0), 0)
    ensures PadsAlone(Assign(inputs, routes, prog, e, 0)) <==>
      forall i: nat :: i < SLOTS && !IsValidPid(e[i].inPid) ==>
        !GivesOut(inputs, routes, prog / PROGRAM_MAX, e, 0, e[i].outPid)
  {
    hide GivesOut, Assign, KnownInputs, SameOut;
    var chan, a := prog / PROGRAM_MAX, Assign(inputs, routes, prog, e, 0);
    forall i | 0 <= i < SLOTS ensures a[i].inPid == e[i].inPid {
    }
    forall i: nat | i < SLOTS && !IsValidPid(e[i].inPid)
      ensures a[i] == e[i]
      ensures GivesOut(inputs, routes, chan, e, 0, e[i].outPid) <==>
              exists j: nat :: j < SLOTS && IsValidPid(a[j].inPid) && a[j].outPid == e[i].outPid
    {
      AssignGivesOut(inputs, routes, prog, e, 0, e[i].outPid);
    }
  }

  /** The outputs chosen for a program pass the PID check exactly if it can be foretold. */
  lemma AssignAccepted(inputs: set<Input>, routes: set<Route>, prog: nat, e: Ents)
    requires Apart(routes) && KnownInputs(inputs, e) && WellFormed(e)
    ensures PidsAccepted(Assign(inputs, routes, prog, e, 0)) <==> WillPass(inputs, routes, prog / PROGRAM_MAX, e)
  {
    hide GivesOut, FreeSet, NeedSet, Apart, PidsAccepted, AllPicked, PadsAlone, PadsPass, Assign, Sendable,
      RoutesFrom, SlotsAgree;
    var a := Assign(inputs, routes, prog, e, 0);
    ApartOutputs(routes);
    EnoughFree(inputs, routes, prog, e, 0);
    if !AllPicked(a, 0) {
      NullRejected(a);
    } else {
      AssignApart(inputs, routes, prog, e, 0);
      AssignSendable(inputs, routes, prog, e, 0);
      FirstTwo(inputs, routes, prog, e);
      ApartSameOut(routes);
      PadsAloneForetold(inputs, routes, prog, e);
      InputsKept(e, a);
      InUseSendable(a);
      CheckComesDown(routes, prog, a);
      SamePads(e, a);
    }
  }

  lemma InUseSendable(a: Ents)
    requires AllPicked(a, 0)
    requires forall i :: 0 <= i < SLOTS && IsValidPid(a[i].inPid) ==> Sendable(a[i].outPid) || a[i].outPid == NULL_PID
    ensures forall i :: 0 <= i < SLOTS && IsValidPid(a[i].inPid) ==> Sendable(a[i].outPid)
  {
  }

  // ---- Programs as they were parsed -----------------------------------------------------------

  /** Pads carry the pad value on both sides and the PCR is in use. */
  predicate PadsClear(e: Ents) {
    && IsValidPid(e[1].inPid)
    && forall i :: 2 <= i < SLOTS && !IsValidPid(e[i].inPid) ==> e[i].outPid == PAD_PID
  }

  /** With clear pads the last condition is that no data PID in force is sent to the pad value. */
  lemma ClearPadsPass(inputs: set<Input>, routes: set<Route>, chan: nat, e: Ents)
    requires WellFormed(e) && PadsClear(e)
    ensures WillPass(inputs, routes, chan, e) <==>
      && |NeedSet(routes, chan, e, 0)| <= |FreeSet(inputs, routes)|
      && (Mapped(routes, chan, e[1].inPid) ==> IsValidPid(MappedOut(routes, chan, e[1].inPid)))
      && (!IsValidPid(e[15].inPid) ==>
        forall j: nat :: 1 <= j < SLOTS && IsValidPid(e[j].inPid) && Mapped(routes, chan, e[j].inPid) ==>
            MappedOut(routes, chan, e[j].inPid) != PAD_PID)
  {
    forall j: nat | j < SLOTS
      ensures Kept(inputs, routes, chan, e, j, PAD_PID) <==>
              IsValidPid(e[j].inPid) && j >= 1 && Mapped(routes, chan, e[j].inPid) &&
                MappedOut(routes, chan, e[j].inPid) == PAD_PID
    {
    }
    assert IsValidPid(e[0].inPid) &&
      (forall i :: 0 <= i < SLOTS && !IsValidPid(e[i].inPid) ==> !IsValidPid(e[15].inPid));
    assert !IsValidPid(e[15].inPid) ==> e[15].outPid == PAD_PID;
  }
}
