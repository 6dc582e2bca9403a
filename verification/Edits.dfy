/** Selecting a program whose outputs the user has edited
    (src/io_table.c:234-278, 318-339; src/program_pid_validater.c:144-193). */
module Edits {
  import opened Pids
  import opened Routes
  import opened Programs

  function RerouteEnts(e: Ents, inPid: U16, outPid: U16): (f: Ents)
    ensures SameInputs(e, f)
  {
    seq(SLOTS, j requires 0 <= j < SLOTS => if j >= 1 && e[j].inPid == inPid then e[j].(outPid := outPid) else e[j])
  }

  /** A selected program of k's channel other than k itself. */
  predicate Sibling(num: Counts, t: Table, k: nat, l: nat)
    requires l < |t|
  {
    l != k && l / PROGRAM_MAX == k / PROGRAM_MAX && Present(num, l) && t[l].selected
  }

  function Propagate(num: Counts, t: Table, k: nat, inPid: U16, outPid: U16): (u: Table)
    ensures SamePrograms(t, u)
    ensures forall l :: 0 <= l < |t| ==> u[l].selected == t[l].selected
  {
    seq(|t|, l requires 0 <= l < |t| =>
      if Sibling(num, t, k, l) then SetEnts(t[l], RerouteEnts(t[l].info.ents, inPid, outPid)) else t[l])
  }

  /** The routes of the slots of program k treated so far. */
  ghost function Own(k: nat, e: Ents, to: nat): set<Route>
    requires to <= SLOTS
  {
    set j: nat | j < to && IsValidPid(e[j].inPid) :: RouteOf(k, e, j)
  }

  /** An earlier slot has the same input, so the output of slot i is in force for it already;
      the usability test then looks no further than at the further PMTs. */
  ghost predicate SeenBefore(routes: set<Route>, edited: Ents, i: nat)
    requires i < SLOTS
  {
    (exists j :: 1 <= j < i && edited[j].inPid == edited[i].inPid) && !FurtherPmt(routes, edited[i].outPid)
  }

  ghost predicate Refused(t: Table, k: nat, edited: Ents, shown: Ents, i: nat)
    requires i < SLOTS
  {
    && edited[i].outPid != shown[i].outPid
    && !Usable(RoutesOf(t) + Own(k, edited, i), k / PROGRAM_MAX, i == 0, edited[i].inPid, edited[i].outPid)
    && !SeenBefore(RoutesOf(t), edited, i)
  }

  /** Table after slot i of program k has been accepted. */
  function Accept(num: Counts, t: Table, k: nat, edited: Ents, i: nat): Table
    requires i < SLOTS
  {
    if i == 0 then t else Propagate(num, t, k, edited[i].inPid, edited[i].outPid)
  }

  /** Slots i.. of the edited program k, in order; k must not count as selected.
      Yields the slot that is refused (16: none) and the table as it then stands. */
  ghost function Edit(num: Counts, t: Table, k: nat, edited: Ents, shown: Ents, i: nat): (res: (nat, Table))
    requires i <= SLOTS
    ensures i <= res.0 <= SLOTS && |res.1| == |t|
    decreases SLOTS - i
  {
    if i == SLOTS then (SLOTS, t)
    else if !IsValidPid(edited[i].inPid) then Edit(num, t, k, edited, shown, i + 1)
    else if Refused(t, k, edited, shown, i) then (i, t)
    else Edit(num, Accept(num, t, k, edited, i), k, edited, shown, i + 1)
  }

  lemma PropagateRoutes(num: Counts, t: Table, n: Route)
    requires Sound(num, t) && n.prog < |t| && !t[n.prog].selected && !n.Pmt()
    ensures RoutesOf(Propagate(num, t, n.prog, n.inPid, n.outPid)) == Reroute(RoutesOf(t), n)
  {
    var u := Propagate(num, t, n.prog, n.inPid, n.outPid);
    forall r | r in RoutesOf(t) ensures Rerouted(r, n) in RoutesOf(u) {
      assert IsRoute(t, r);
      assert IsRoute(u, Rerouted(r, n));
    }
    forall r | r in RoutesOf(u) ensures r in Reroute(RoutesOf(t), n) {
      assert IsRoute(u, r);
      var r0 := RouteOf(r.prog, t[r.prog].info.ents, r.slot);
      assert IsRoute(t, r0);
      assert r == Rerouted(r0, n);
    }
  }

  /** Inputs a program may be given: they are well-formed, none but the PMT's is, or was, a PMT
      input of the channel, and the PMT's is no other input of another program. */
  ghost predicate InputsFit(num: Counts, t: Table, k: nat, e: Ents)
    requires k < |t|
  {
    && WellFormed(e)
    && (forall i :: 1 <= i < SLOTS ==> e[i].inPid != e[0].inPid)
    && forall l: nat, i :: l < |t| && 1 <= i < SLOTS && Present(num, l) && l / PROGRAM_MAX == k / PROGRAM_MAX ==>
      e[i].inPid != Ins(t, l, 0) && (l != k ==> Ins(t, l, i) != e[0].inPid)
  }

  /** The inputs a program has fit. */
  lemma SameInputsFit(num: Counts, t: Table, k: nat, e: Ents)
    requires Sound(num, t) && k < |t| && Present(num, k) && SameInputs(e, t[k].info.ents)
    ensures InputsFit(num, t, k, e)
  {
    assert WellFormed(t[k].info.ents);
    forall i | 0 <= i < SLOTS ensures e[i].inPid == Ins(t, k, i) {
    }
  }

  /** A program with inputs that fit leaves the table sound. */
  lemma FitCommitSound(num: Counts, t: Table, k: nat, p: Prog)
    requires Sound(num, t) && k < |t| && Present(num, k) && InputsFit(num, t, k, p.info.ents)
    ensures Sound(num, Commit(t, k, p))
  {
    var u := Commit(t, k, p);
    forall l: nat, m: nat, i |
      l < |u| && m < |u| && 1 <= i < SLOTS && Present(num, l) && Present(num, m) && l / PROGRAM_MAX == m / PROGRAM_MAX
      ensures Ins(u, l, i) != Ins(u, m, 0)
    {
      assert l != k ==> Ins(u, l, i) == Ins(t, l, i);
      assert m != k ==> Ins(u, m, 0) == Ins(t, m, 0);
    }
  }

  /** What an edit may rely on: the program is given inputs that fit and passes the PID check. */
  ghost predicate Editable(num: Counts, t: Table, k: nat, edited: Ents) {
    && Sound(num, t) && k < |t| && !t[k].selected && Present(num, k)
    && InputsFit(num, t, k, edited) && PidsAccepted(edited)
  }

  lemma AcceptSound(num: Counts, t: Table, k: nat, edited: Ents, i: nat)
    requires Sound(num, t) && i < SLOTS && k < |t| && !t[k].selected && InputsFit(num, t, k, edited)
    ensures var u := Accept(num, t, k, edited, i);
      Sound(num, u) && SamePrograms(t, u) && !u[k].selected && u[k] == t[k] && InputsFit(num, u, k, edited)
  {
    var u := Accept(num, t, k, edited, i);
    SoundCarriesOver(num, t, u);
    forall l: nat, j: nat | l < |t| && j < SLOTS ensures Ins(u, l, j) == Ins(t, l, j) {
    }
  }

  /** The PID check makes the slots of one program fit together. */
  lemma OwnCompatible(num: Counts, t: Table, k: nat, e: Ents, i: nat, j: nat)
    requires Editable(num, t, k, e) && j < i < SLOTS
    ensures Compatible(RouteOf(k, e, i), RouteOf(k, e, j)) && Compatible(RouteOf(k, e, j), RouteOf(k, e, i))
    ensures e[i].inPid != e[0].inPid && e[i].outPid != e[0].outPid
  {
    assert e[j].inPid == e[i].inPid <==> e[j].outPid == e[i].outPid;
    assert e[0].inPid == e[i].inPid <==> e[0].outPid == e[i].outPid;
  }

  // ---- Where an edit stops -------------------------------------------------------------------

  /** A route of another program with the input of PCR or data slot j. */
  predicate Follows(r: Route, k: nat, e: Ents, j: nat)
    requires j < SLOTS
  {
    1 <= j && IsValidPid(e[j].inPid) && !r.Pmt() && r.Carries(k / PROGRAM_MAX, e[j].inPid)
  }

  /** The route takes its output from one of the slots below `to`. */
  predicate Moved(r: Route, k: nat, e: Ents, to: nat)
    requires to <= SLOTS
  {
    exists j: nat :: j < to && Follows(r, k, e, j)
  }

  /** The output of slot i is taken by a route that the slots below `to` leave where it is. */
  ghost predicate Clash(routes: set<Route>, k: nat, e: Ents, to: nat, i: nat)
    requires to <= SLOTS && i < SLOTS
  {
    exists r :: r in routes && r.outPid == e[i].outPid && !Moved(r, k, e, to)
  }

  /** Slot i has been changed to an output that some route in force does not give up. */
  ghost predicate Blocked(routes: set<Route>, k: nat, edited: Ents, shown: Ents, i: nat)
    requires i < SLOTS
  {
    && IsValidPid(edited[i].inPid) && edited[i].outPid != shown[i].outPid
    && Clash(routes, k, edited, i + 1, i) && !SeenBefore(routes, edited, i)
  }

  /** Slot m is the first one blocked; m == 16: none is. */
  ghost predicate FirstBlocked(routes: set<Route>, k: nat, edited: Ents, shown: Ents, m: nat) {
    && m <= SLOTS
    && (m < SLOTS ==> Blocked(routes, k, edited, shown, m))
    && forall i: nat :: i < m ==> !Blocked(routes, k, edited, shown, i)
  }

  /** Where a route of another program is after the slots below `to` have been accepted. */
  function Shift(r: Route, k: nat, e: Ents, to: nat): Route
    requires to <= SLOTS
  {
    if to == 0 then r
    else
      var s := Shift(r, k, e, to - 1);
      if IsValidPid(e[to - 1].inPid) then Rerouted(s, RouteOf(k, e, to - 1)) else s
  }

  ghost function Shifted(routes: set<Route>, k: nat, e: Ents, to: nat): set<Route>
    requires to <= SLOTS
  {
    set r | r in routes :: Shift(r, k, e, to)
  }

  /** A route that follows a slot has that slot's output; the others stay. */
  lemma {:induction false} ShiftIs(r: Route, k: nat, e: Ents, to: nat)
    requires to <= SLOTS && SlotsAgree(e)
    ensures var s := Shift(r, k, e, to); s.prog == r.prog && s.slot == r.slot && s.inPid == r.inPid
    ensures !Moved(r, k, e, to) ==> Shift(r, k, e, to) == r
    ensures forall j: nat :: j < to && Follows(r, k, e, j) ==> Shift(r, k, e, to).outPid == e[j].outPid
  {
    if to > 0 {
      var i := to - 1;
      ShiftIs(r, k, e, i);
      if Follows(r, k, e, i) {
        forall j: nat | j < i && Follows(r, k, e, j) ensures e[j].outPid == e[i].outPid {
          assert e[j].inPid == e[i].inPid;
        }
      }
      assert Moved(r, k, e, i) ==> Moved(r, k, e, to);
    }
  }

  /** One slot accepted shifts the routes one step further. */
  lemma AcceptShifts(num: Counts, t: Table, routes: set<Route>, k: nat, e: Ents, i: nat)
    requires i < SLOTS && Editable(num, t, k, e) && IsValidPid(e[i].inPid)
    requires RoutesOf(t) == Shifted(routes, k, e, i)
    ensures RoutesOf(Accept(num, t, k, e, i)) == Shifted(routes, k, e, i + 1)
  {
    var n := RouteOf(k, e, i);
    forall r ensures Shift(r, k, e, i + 1) == Rerouted(Shift(r, k, e, i), n) {
    }
    if i == 0 {
      assert Shifted(routes, k, e, 1) == Shifted(routes, k, e, 0);
    } else {
      PropagateRoutes(num, t, n);
      assert Reroute(Shifted(routes, k, e, i), n) == Shifted(routes, k, e, i + 1);
    }
  }

  /** PMTs are not moved. */
  lemma SameFurther(routes: set<Route>, k: nat, e: Ents, to: nat, pid: int)
    requires to <= SLOTS && SlotsAgree(e)
    ensures FurtherPmt(Shifted(routes, k, e, to), pid) <==> FurtherPmt(routes, pid)
  {
    forall r: Route | r.Pmt() ensures r in Shifted(routes, k, e, to) <==> r in routes {
      if r in routes {
        ShiftIs(r, k, e, to);
        assert Shift(r, k, e, to) == r;
      }
      if r in Shifted(routes, k, e, to) {
        var r0 :| r0 in routes && r == Shift(r0, k, e, to);
        ShiftIs(r0, k, e, to);
        assert !Moved(r0, k, e, to);
      }
    }
  }

  lemma SkipShifts(routes: set<Route>, k: nat, e: Ents, i: nat)
    requires i < SLOTS && !IsValidPid(e[i].inPid)
    ensures Shifted(routes, k, e, i + 1) == Shifted(routes, k, e, i) && Own(k, e, i + 1) == Own(k, e, i)
  {
    forall r ensures Shift(r, k, e, i + 1) == Shift(r, k, e, i) {
    }
  }

  lemma NothingShifted(routes: set<Route>, k: nat, e: Ents)
    ensures Shifted(routes, k, e, 0) == routes && Own(k, e, 0) == {}
  {
    forall r ensures Shift(r, k, e, 0) == r {
    }
  }

  /** The output of slot i is usable unless it clashes with a route in force at the start. */
  lemma UsableUnlessClash(num: Counts, t: Table, routes: set<Route>, k: nat, e: Ents, i: nat)
    requires i < SLOTS && Editable(num, t, k, e) && IsValidPid(e[i].inPid)
    requires RoutesOf(t) == Shifted(routes, k, e, i)
    ensures Usable(RoutesOf(t) + Own(k, e, i), k / PROGRAM_MAX, i == 0, e[i].inPid, e[i].outPid) <==>
      !Clash(routes, k, e, i + 1, i)
  {
    var all, c := RoutesOf(t) + Own(k, e, i), k / PROGRAM_MAX;
    if r :| r in routes && r.outPid == e[i].outPid && !Moved(r, k, e, i + 1) {
      assert !Follows(r, k, e, i);
      assert Moved(r, k, e, i) ==> Moved(r, k, e, i + 1);
      ShiftIs(r, k, e, i);
      assert r in all;
    } else {
      forall s | s in all && s.outPid == e[i].outPid ensures i != 0 && !s.Pmt() && s.Carries(c, e[i].inPid) {
        if s in Own(k, e, i) {
          OwnCompatible(num, t, k, e, i, s.slot);
        } else {
          var r :| r in routes && s == Shift(r, k, e, i);
          ShiftIs(r, k, e, i);
          FollowsSlot(r, k, e, i, s);
        }
      }
    }
  }

  lemma FollowsSlot(r: Route, k: nat, e: Ents, i: nat, s: Route)
    requires i < SLOTS && SlotsAgree(e) && s == Shift(r, k, e, i) && s.outPid == e[i].outPid
    requires r.outPid == e[i].outPid ==> Moved(r, k, e, i + 1)
    ensures i != 0 && !s.Pmt() && s.Carries(k / PROGRAM_MAX, e[i].inPid)
  {
    ShiftIs(r, k, e, i);
    assert Moved(r, k, e, i + 1);
    var j: nat :| j < i + 1 && Follows(r, k, e, j);
    if j < i {
      assert e[j].inPid == e[i].inPid <==> e[j].outPid == e[i].outPid;
    }
  }

  /** The edit stops at the first slot that is blocked from the start, if there is one;
      until then it moves every route of the other programs after the slot it follows. */
  lemma {:induction false} EditStops(num: Counts, t: Table, routes: set<Route>, k: nat, edited: Ents, shown: Ents,
      i: nat)
    requires i <= SLOTS && Editable(num, t, k, edited) && RoutesOf(t) == Shifted(routes, k, edited, i)
    requires forall j: nat :: j < i ==> !Blocked(routes, k, edited, shown, j)
    ensures var (m, u) := Edit(num, t, k, edited, shown, i);
      FirstBlocked(routes, k, edited, shown, m) && RoutesOf(u) == Shifted(routes, k, edited, m) &&
      Editable(num, u, k, edited) && SamePrograms(t, u) && u[k] == t[k]
    decreases SLOTS - i
  {
    hide RoutesOf, OutputsInRange, SlotsAgree, InputsFit, Sound, Clash, Shifted, Own, Accept, Usable, FurtherPmt;
    if i == SLOTS {
    } else if !IsValidPid(edited[i].inPid) {
      SkipShifts(routes, k, edited, i);
      EditStops(num, t, routes, k, edited, shown, i + 1);
    } else {
      UsableUnlessClash(num, t, routes, k, edited, i);
      SameFurther(routes, k, edited, i, edited[i].outPid);
      if !Refused(t, k, edited, shown, i) {
        var u := Accept(num, t, k, edited, i);
        AcceptShifts(num, t, routes, k, edited, i);
        AcceptSound(num, t, k, edited, i);
        EditStops(num, u, routes, k, edited, shown, i + 1);
      }
    }
  }

  /** Telling the siblings what they already have changes nothing. */
  lemma PropagateNoop(num: Counts, t: Table, k: nat, inPid: U16, outPid: U16)
    requires IsValidPid(inPid)
    requires forall r :: r in RoutesOf(t) && !r.Pmt() && r.Carries(k / PROGRAM_MAX, inPid) ==> r.outPid == outPid
    ensures Propagate(num, t, k, inPid, outPid) == t
  {
    forall l: nat | l < |t| && Sibling(num, t, k, l)
      ensures RerouteEnts(t[l].info.ents, inPid, outPid) == t[l].info.ents
    {
      var e := t[l].info.ents;
      forall j | 1 <= j < SLOTS && e[j].inPid == inPid ensures e[j].outPid == outPid {
        var r := RouteOf(l, e, j);
        assert IsRoute(t, r);
      }
    }
  }

  // ---- What an edit leaves behind ------------------------------------------------------------

  /** Some selected sibling shares the input of slot i, so the slot's output is passed on. */
  ghost predicate PassedOn(routes: set<Route>, k: nat, e: Ents, i: nat)
    requires i < SLOTS
  {
    exists r :: r in routes && Follows(r, k, e, i)
  }

  /** No slot in use has taken an output that another route keeps. */
  ghost predicate NoneClashes(routes: set<Route>, k: nat, e: Ents) {
    forall i: nat :: i < SLOTS && IsValidPid(e[i].inPid) ==> !Clash(routes, k, e, SLOTS, i)
  }

  /** None of the slots below m that were passed on has. */
  ghost predicate PassedOnFit(routes: set<Route>, k: nat, e: Ents, m: nat)
    requires m <= SLOTS
  {
    forall i: nat :: i < m && PassedOn(routes, k, e, i) ==> !Clash(routes, k, e, m, i)
  }

  lemma FollowersAgree(r: Route, s: Route, k: nat, e: Ents, i: nat, j: nat)
    requires i < SLOTS && j < SLOTS && SlotsAgree(e) && Follows(r, k, e, i) && Follows(s, k, e, j)
    ensures e[i].outPid == e[j].outPid <==> r.inPid == s.inPid
  {
    if i != j {
      var a, b := if i < j then i else j, if i < j then j else i;
      assert e[a].inPid == e[b].inPid <==> e[a].outPid == e[b].outPid;
    }
  }

  /** Two routes fit together after the move if what they were moved to is not taken. */
  lemma ShiftedFit(routes: set<Route>, k: nat, e: Ents, to: nat, r: Route, s: Route)
    requires to <= SLOTS && Apart(routes) && SlotsAgree(e) && r in routes && s in routes
    requires PassedOnFit(routes, k, e, to)
    ensures Compatible(Shift(r, k, e, to), Shift(s, k, e, to))
  {
    ShiftIs(r, k, e, to);
    ShiftIs(s, k, e, to);
    assert Compatible(r, s);
    if i: nat :| i < to && Follows(r, k, e, i) {
      assert PassedOn(routes, k, e, i);
      if j: nat :| j < to && Follows(s, k, e, j) {
        FollowersAgree(r, s, k, e, i, j);
      } else {
        assert !Moved(s, k, e, to);
        assert !Follows(s, k, e, i);
      }
    } else {
      assert !Moved(r, k, e, to);
      if j: nat :| j < to && Follows(s, k, e, j) {
        assert PassedOn(routes, k, e, j);
        assert !Follows(r, k, e, j);
      } else {
        assert !Moved(s, k, e, to);
      }
    }
  }

  lemma ShiftSendable(r: Route, k: nat, e: Ents, to: nat)
    requires to <= SLOTS && PidsAccepted(e) && Sendable(r.outPid)
    ensures Sendable(Shift(r, k, e, to).outPid)
  {
    ShiftIs(r, k, e, to);
    if j: nat :| j < to && Follows(r, k, e, j) {
    } else {
      assert !Moved(r, k, e, to);
    }
  }

  /** The programs next to an edited one stand apart, wherever the edit has got to, exactly
      if no output passed on is one that another route keeps. */
  lemma OthersApart(routes: set<Route>, k: nat, e: Ents, to: nat)
    requires to <= SLOTS && Apart(routes) && PidsAccepted(e)
    ensures Apart(Shifted(routes, k, e, to)) <==> PassedOnFit(routes, k, e, to)
  {
    var moved := Shifted(routes, k, e, to);
    if PassedOnFit(routes, k, e, to) {
      forall r, s | r in moved && s in moved ensures Compatible(r, s) && Sendable(r.outPid) {
        var r0 :| r0 in routes && r == Shift(r0, k, e, to);
        var s0 :| s0 in routes && s == Shift(s0, k, e, to);
        ShiftedFit(routes, k, e, to, r0, s0);
        ShiftSendable(r0, k, e, to);
      }
    } else {
      var i: nat :| i < to && PassedOn(routes, k, e, i) && Clash(routes, k, e, to, i);
      var r :| r in routes && Follows(r, k, e, i);
      var s :| s in routes && s.outPid == e[i].outPid && !Moved(s, k, e, to);
      ShiftIs(r, k, e, to);
      ShiftIs(s, k, e, to);
      assert !Follows(s, k, e, i);
      assert Shift(r, k, e, to) in moved && s in moved;
      assert !Compatible(Shift(r, k, e, to), s);
    }
  }

  lemma OwnFits(num: Counts, t: Table, routes: set<Route>, k: nat, e: Ents, i: nat, r: Route)
    requires Editable(num, t, k, e) && i < SLOTS && IsValidPid(e[i].inPid) && r in routes
    requires !Clash(routes, k, e, SLOTS, i)
    ensures var s := Shift(r, k, e, SLOTS);
      Compatible(RouteOf(k, e, i), s) && Compatible(s, RouteOf(k, e, i))
  {
    ShiftIs(r, k, e, SLOTS);
    if j: nat :| j < SLOTS && Follows(r, k, e, j) {
      if i < j {
        OwnCompatible(num, t, k, e, j, i);
      } else if j < i {
        OwnCompatible(num, t, k, e, i, j);
      }
    } else {
      assert !Moved(r, k, e, SLOTS);
      assert !Follows(r, k, e, i);
    }
  }

  /** Next to the program in force, put back after its edit was refused at slot m, every output
      passed on fits. */
  ghost predicate PutBackFits(routes: set<Route>, k: nat, e: Ents, own: Ents, m: nat)
    requires m <= SLOTS
  {
    && PassedOnFit(routes, k, e, m)
    && forall j: nat, i: nat :: j < m && i < SLOTS && PassedOn(routes, k, e, j) && IsValidPid(own[i].inPid) ==>
      StaysApart(e[j], own[i], i)
  }

  predicate StaysApart(moved: PidTrans, own: PidTrans, i: nat) {
    if i == 0 then moved.outPid != own.outPid else (own.inPid == moved.inPid <==> own.outPid == moved.outPid)
  }

  lemma BackFits(routes: set<Route>, k: nat, e: Ents, own: Ents, m: nat, i: nat, r: Route)
    requires m <= SLOTS && i < SLOTS && SlotsAgree(e) && r in routes && r.prog != k && IsValidPid(own[i].inPid)
    requires Compatible(RouteOf(k, own, i), r) && Compatible(r, RouteOf(k, own, i))
    requires PutBackFits(routes, k, e, own, m)
    ensures var s := Shift(r, k, e, m); Compatible(RouteOf(k, own, i), s) && Compatible(s, RouteOf(k, own, i))
  {
    ShiftIs(r, k, e, m);
    if j: nat :| j < m && Follows(r, k, e, j) {
      assert PassedOn(routes, k, e, j);
      assert StaysApart(e[j], own[i], i);
    } else {
      assert !Moved(r, k, e, m);
    }
  }

  /** After a refusal the program put back stands apart from the others exactly if so. */
  lemma BackApart(routes: set<Route>, k: nat, e: Ents, own: Ents, m: nat)
    requires m <= SLOTS && PidsAccepted(e) && Apart(routes + RoutesFrom(k, own, 0))
    requires forall r :: r in routes ==> r.prog != k
    ensures Apart(Shifted(routes, k, e, m) + RoutesFrom(k, own, 0)) <==> PutBackFits(routes, k, e, own, m)
  {
    var moved, mine := Shifted(routes, k, e, m), RoutesFrom(k, own, 0);
    OthersApart(routes, k, e, m);
    if PutBackFits(routes, k, e, own, m) {
      forall r, s | r in moved + mine && s in moved + mine ensures Compatible(r, s) && Sendable(r.outPid) {
        if r in mine && s in moved {
          var s0 :| s0 in routes && s == Shift(s0, k, e, m);
          BackFits(routes, k, e, own, m, r.slot, s0);
        } else if s in mine && r in moved {
          var r0 :| r0 in routes && r == Shift(r0, k, e, m);
          BackFits(routes, k, e, own, m, s.slot, r0);
        }
      }
    } else if PassedOnFit(routes, k, e, m) {
      var j: nat, i: nat :| j < m && i < SLOTS && PassedOn(routes, k, e, j) && IsValidPid(own[i].inPid) &&
                            !StaysApart(e[j], own[i], i);
      var r :| r in routes && Follows(r, k, e, j);
      ShiftIs(r, k, e, m);
      assert Shift(r, k, e, m) in moved && RouteOf(k, own, i) in mine;
      assert !Compatible(RouteOf(k, own, i), Shift(r, k, e, m));
    } else {
      ApartPart(moved, mine);
    }
  }

  lemma ApartPart(a: set<Route>, b: set<Route>)
    ensures Apart(a + b) ==> Apart(a)
  {
  }

  /** The edited program stands apart from the others exactly if none of its slots clashes. */
  lemma AllApart(num: Counts, t: Table, routes: set<Route>, k: nat, e: Ents)
    requires Editable(num, t, k, e) && Apart(routes) && forall r :: r in routes ==> r.prog != k
    ensures Apart(Shifted(routes, k, e, SLOTS) + RoutesFrom(k, e, 0)) <==> NoneClashes(routes, k, e)
  {
    var moved, own := Shifted(routes, k, e, SLOTS), RoutesFrom(k, e, 0);
    if NoneClashes(routes, k, e) {
      OthersApart(routes, k, e, SLOTS);
      forall r, s | r in moved + own && s in moved + own ensures Compatible(r, s) && Sendable(r.outPid) {
        if r in own && s in own {
          OwnPair(num, t, k, e, r, s);
        } else if r in own {
          var s0 :| s0 in routes && s == Shift(s0, k, e, SLOTS);
          OwnFits(num, t, routes, k, e, r.slot, s0);
        } else if s in own {
          var r0 :| r0 in routes && r == Shift(r0, k, e, SLOTS);
          OwnFits(num, t, routes, k, e, s.slot, r0);
        }
      }
    } else {
      var i: nat :| i < SLOTS && IsValidPid(e[i].inPid) && Clash(routes, k, e, SLOTS, i);
      var s :| s in routes && s.outPid == e[i].outPid && !Moved(s, k, e, SLOTS);
      ShiftIs(s, k, e, SLOTS);
      assert !Follows(s, k, e, i);
      assert s in moved && RouteOf(k, e, i) in own;
      assert !Compatible(RouteOf(k, e, i), s);
    }
  }

  lemma OwnPair(num: Counts, t: Table, k: nat, e: Ents, r: Route, s: Route)
    requires Editable(num, t, k, e) && r in RoutesFrom(k, e, 0) && s in RoutesFrom(k, e, 0)
    ensures Compatible(r, s)
  {
    if r.slot < s.slot {
      OwnCompatible(num, t, k, e, s.slot, r.slot);
    } else if s.slot < r.slot {
      OwnCompatible(num, t, k, e, r.slot, s.slot);
    }
  }

  /** The more slots have been accepted, the less there is to clash with. */
  lemma ClashLess(routes: set<Route>, k: nat, e: Ents, i: nat, from: nat, to: nat)
    requires i < SLOTS && from <= to <= SLOTS
    ensures Clash(routes, k, e, to, i) ==> Clash(routes, k, e, from, i)
  {
    if r :| r in routes && r.outPid == e[i].outPid && !Moved(r, k, e, to) {
      assert Moved(r, k, e, from) ==> Moved(r, k, e, to);
    }
  }

  /** An edit that passes on only outputs already in force leaves the other programs alone. */
  lemma {:induction false} EditUntouched(num: Counts, t: Table, k: nat, edited: Ents, shown: Ents, i: nat)
    requires i <= SLOTS
    requires forall j: nat, r ::
      i <= j < Edit(num, t, k, edited, shown, i).0 && r in RoutesOf(t) && Follows(r, k, edited, j) ==>
      r.outPid == edited[j].outPid
    ensures Edit(num, t, k, edited, shown, i).1 == t
    decreases SLOTS - i
  {
    hide RoutesOf, Refused;
    if i == SLOTS {
    } else if !IsValidPid(edited[i].inPid) {
      EditUntouched(num, t, k, edited, shown, i + 1);
    } else if !Refused(t, k, edited, shown, i) {
      if i > 0 {
        forall r | r in RoutesOf(t) && !r.Pmt() && r.Carries(k / PROGRAM_MAX, edited[i].inPid)
          ensures r.outPid == edited[i].outPid
        {
          assert Follows(r, k, edited, i);
        }
        PropagateNoop(num, t, k, edited[i].inPid, edited[i].outPid);
      }
      EditUntouched(num, t, k, edited, shown, i + 1);
    }
  }

  /** An edit never touches the entry of the edited program itself. */
  lemma {:induction false} EditKeepsSlot(num: Counts, t: Table, k: nat, edited: Ents, shown: Ents, i: nat)
    requires i <= SLOTS && k < |t|
    ensures Edit(num, t, k, edited, shown, i).1[k] == t[k]
    ensures SamePrograms(t, Edit(num, t, k, edited, shown, i).1)
    decreases SLOTS - i
  {
    if i < SLOTS {
      EditKeepsSlot(num, t, k, edited, shown, i + 1);
      EditKeepsSlot(num, Accept(num, t, k, edited, i), k, edited, shown, i + 1);
    }
  }

  /** Whatever an edit comes to, it changes nothing but outputs, and of those only the ones of PCR
      and data slots of selected siblings that share an input with an edited slot, to the output
      of that slot. */
  lemma {:induction false} EditTouches(num: Counts, t: Table, k: nat, edited: Ents, shown: Ents, i: nat, l: nat, j: nat)
    requires i <= SLOTS && l < |t| && j < SLOTS
    ensures var p, q := t[l], Edit(num, t, k, edited, shown, i).1[l];
      var was, now := p.info.ents[j], q.info.ents[j];
      && q == p.(info := p.info.(ents := q.info.ents)) && now == was.(outPid := now.outPid)
      && (now != was ==> j >= 1 && l != k && l / 64 == k / 64 && p.selected && 0x20 <= was.inPid < 0x1FFF)
      && (now != was ==> exists m :: i <= m < SLOTS && edited[m].inPid == was.inPid && edited[m].outPid == now.outPid)
    decreases SLOTS - i
  {
    hide Refused;
    if i == SLOTS || (IsValidPid(edited[i].inPid) && Refused(t, k, edited, shown, i)) {
    } else if !IsValidPid(edited[i].inPid) {
      EditTouches(num, t, k, edited, shown, i + 1, l, j);
    } else {
      EditTouches(num, Accept(num, t, k, edited, i), k, edited, shown, i + 1, l, j);
    }
  }
}
