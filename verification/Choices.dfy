/** What the automatic choice of outputs comes to, said of the routes in force and the inputs
    received alone (src/io_table.c:123-148, 198-232, 283-316). */
module Choices {
  import opened Pids
  import opened Routes
  import opened Programs
  import opened Edits
  import opened Selection

  /** No channel receives the PID and no route sends it. */
  ghost predicate Unused(inputs: set<Input>, routes: set<Route>, pid: int) {
    (forall x :: x in inputs ==> x.pid != pid) && (forall r :: r in routes ==> r.outPid != pid)
  }

  /** The least such PID from 0x20 to 0x1FFE, or 0x1FFF if there is none. */
  ghost predicate LeastUnused(inputs: set<Input>, routes: set<Route>, pid: int) {
    && 0x20 <= pid <= 0x1FFF && (pid < 0x1FFF ==> Unused(inputs, routes, pid))
    && forall p :: 0x20 <= p < pid ==> !Unused(inputs, routes, p)
  }

  /** What an input of a channel is sent to beside the routes there are: an input that is in force
      follows its routes; a PMT whose input no other PMT has, or another input, keeps its own value
      if no route sends it; for the rest it is the least PID that no channel receives and no route
      sends. */
  ghost predicate IsChoice(inputs: set<Input>, routes: set<Route>, chan: nat, pmt: bool, inPid: int, outPid: int) {
    var alike := set r | r in routes && (r.slot == 0 <==> pmt) && r.prog / 64 == chan && r.inPid == inPid;
    if alike != {} && !pmt then forall r :: r in alike ==> outPid == r.outPid
    else if alike == {} && (forall r :: r in routes ==> r.outPid != inPid) then outPid == inPid
    else LeastUnused(inputs, routes, outPid)
  }

  /** The automatic choice is that. */
  lemma PickIs(inputs: set<Input>, routes: set<Route>, chan: nat, pmt: bool, pid: U16)
    requires SameOut(routes)
    ensures IsChoice(inputs, routes, chan, pmt, pid, Pick(inputs, routes, chan, pmt, pid))
  {
    var alike := set r | r in routes && (r.slot == 0 <==> pmt) && r.prog / 64 == chan && r.inPid == pid;
    forall r ensures r in alike <==> r in routes && (r.Pmt() <==> pmt) && r.Carries(chan, pid) {
    }
    forall r | r in alike && !pmt ensures r.outPid == MappedOut(routes, chan, pid) {
      OutInForce(routes, r);
    }
    assert alike == {} <==> !(if pmt then PmtMapped(routes, chan, pid) else Mapped(routes, chan, pid)) by {
      if pmt && PmtMapped(routes, chan, pid) {
        var r :| r in routes && r.Pmt() && r.Carries(chan, pid);
        assert r in alike;
      }
      if !pmt && Mapped(routes, chan, pid) {
        var r :| r in routes && !r.Pmt() && r.Carries(chan, pid);
        assert r in alike;
      }
    }
    forall p | 0x20 <= p < 0x1FFF ensures Unused(inputs, routes, p) <==> Free(inputs, routes, p) {
    }
  }

  /** The routes of the slots from `from` up to `to`. */
  ghost function OwnFrom(k: nat, e: Ents, from: nat, to: nat): set<Route>
    requires to <= SLOTS
  {
    set j: nat | from <= j < to && IsValidPid(e[j].inPid) :: RouteOf(k, e, j)
  }

  /** Each slot is served beside the routes there were and those of the slots before it. */
  lemma {:induction false} AssignPicks(inputs: set<Input>, routes: set<Route>, k: nat, e: Ents, from: nat, i: nat)
    requires from <= i < SLOTS && IsValidPid(e[i].inPid) && SameOut(routes)
    ensures var a := Assign(inputs, routes, k, e, from);
      var before := routes + OwnFrom(k, a, from, i);
      SameOut(before) && a[i].outPid == Pick(inputs, before, k / PROGRAM_MAX, i == 0, e[i].inPid)
    decreases i - from
  {
    hide Pick, SameOut;
    var a := Assign(inputs, routes, k, e, from);
    if from == i {
      assert routes + OwnFrom(k, a, from, i) == routes;
    } else if !IsValidPid(e[from].inPid) {
      AssignPicks(inputs, routes, k, e, from + 1, i);
      assert OwnFrom(k, a, from, i) == OwnFrom(k, a, from + 1, i);
    } else {
      var f := SetOut(e, from, Pick(inputs, routes, k / PROGRAM_MAX, from == 0, e[from].inPid));
      var n := RouteOf(k, f, from);
      assert a[from] == f[from];
      PickFollows(inputs, routes, n);
      AssignPicks(inputs, routes + {n}, k, f, from + 1, i);
      assert OwnFrom(k, a, from, i) == {n} + OwnFrom(k, a, from + 1, i);
      assert routes + OwnFrom(k, a, from, i) == (routes + {n}) + OwnFrom(k, a, from + 1, i);
    }
  }

  /** Each slot of a program is given the output so chosen beside the routes in force and those of
      the slots before it. */
  lemma AssignIs(inputs: set<Input>, routes: set<Route>, k: nat, e: Ents, i: nat)
    requires i < 16 && 0x20 <= e[i].inPid < 0x1FFF && SameOut(routes)
    ensures var a := Assign(inputs, routes, k, e, 0);
      IsChoice(inputs, routes + Own(k, a, i), k / 64, i == 0, e[i].inPid, a[i].outPid)
  {
    hide Pick, SameOut, Assign, IsChoice;
    var a := Assign(inputs, routes, k, e, 0);
    AssignPicks(inputs, routes, k, e, 0, i);
    assert OwnFrom(k, a, 0, i) == Own(k, a, i);
    PickIs(inputs, routes + Own(k, a, i), k / PROGRAM_MAX, i == 0, e[i].inPid);
  }

  /** What a read of a program shows, and automatic selection commits: a selected program as it
      is; for one that is not, in every slot in use the output so chosen and nothing else changed. */
  lemma PreviewIs(num: Counts, t: Table, k: nat, i: nat)
    requires Consistent(num, t) && k < |t| && i < 16
    ensures var e, a := t[k].info.ents, Preview(num, t, k).info.ents;
      a[i].kind == e[i].kind && a[i].inPid == e[i].inPid &&
      if t[k].selected || !(0x20 <= e[i].inPid < 0x1FFF) then a[i].outPid == e[i].outPid
      else IsChoice(InputsOf(num, t), RoutesOf(t) + Own(k, a, i), k / 64, i == 0, e[i].inPid, a[i].outPid)
    ensures Preview(num, t, k) == SetEnts(t[k], Preview(num, t, k).info.ents)
    ensures !t[k].selected ==> Preview(num, t, k) == AutoFix(num, t, k, t[k])
  {
    hide Assign, SameOut, InputsOf, RoutesOf, Own, Consistent, Apart, IsChoice;
    assert Apart(RoutesOf(t)) by { ConsistentApart(num, t); }
    ApartSameOut(RoutesOf(t));
    if 0x20 <= t[k].info.ents[i].inPid < 0x1FFF {
      AssignIs(InputsOf(num, t), RoutesOf(t), k, t[k].info.ents, i);
    }
  }

  lemma ConsistentApart(num: Counts, t: Table)
    requires Consistent(num, t)
    ensures Apart(RoutesOf(t))
  {
  }
}
