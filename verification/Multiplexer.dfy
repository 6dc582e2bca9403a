/** The allocator as it runs: the global program table and PID table, updated in place
    (src/io_table.c, src/program_pid_validater.c, src/front_panel_process.c). */
module Multiplexers {
  import opened Pids
  import opened Routes
  import opened Programs
  import opened Capacity
  import opened Edits
  import opened Previews
  import opened Selection
  import opened Options
  import opened IoTable
  import opened Choices
  import Runs

  /** Every output can be used as an index into the PID table. */
  ghost predicate OutsFit(routes: set<Route>) {
    forall r :: r in routes ==> r.outPid < CELLS
  }

  /** A PMT input of a channel carries no other route of the channel. */
  lemma PmtNotMapped(num: Counts, t: Table, k: nat)
    requires Sound(num, t) && k < |t| && Present(num, k)
    ensures !Mapped(RoutesOf(t), k / PROGRAM_MAX, Ins(t, k, 0))
  {
    forall r | r in RoutesOf(t) && !r.Pmt() && r.Chan() == k / PROGRAM_MAX ensures r.inPid != Ins(t, k, 0) {
      assert IsRoute(t, r);
      assert Ins(t, r.prog, r.slot) != Ins(t, k, 0);
    }
  }

  lemma NotPmtInput(num: Counts, t: Table, k: nat, i: nat)
    requires Sound(num, t) && k < |t| && Present(num, k) && 1 <= i < SLOTS
    ensures Input(k / PROGRAM_MAX, Ins(t, k, i)) !in PmtsOf(num, t)
  {
    forall l: nat | l < |t| && Present(num, l) && l / PROGRAM_MAX == k / PROGRAM_MAX
      ensures Ins(t, l, 0) != Ins(t, k, i)
    {
    }
  }

  ghost function PmtsBelow(num: Counts, t: Table, n: nat): set<Input>
    requires n <= |t|
  {
    set k: nat | k < n && Present(num, k) && Uses(t, k, 0) :: Input(k / PROGRAM_MAX, Ins(t, k, 0))
  }

  lemma PmtsBelowKnown(num: Counts, t: Table, n: nat)
    requires n <= |t|
    ensures PmtsBelow(num, t, n) <= PmtsOf(num, t)
  {
    forall p | p in PmtsBelow(num, t, n) ensures p in PmtsOf(num, t) {
      var k: nat :| k < n && Present(num, k) && Uses(t, k, 0) && p == Input(k / PROGRAM_MAX, Ins(t, k, 0));
      assert IsInputOf(num, t, p, true);
    }
  }

  /** Beyond the prefix in use there is nothing to note. */
  lemma PrefixIsAll(t: Table, num: Counts, k: nat, i: nat)
    requires k < |t| && i < SLOTS && WellFormed(t[k].info.ents) && !Uses(t, k, i)
    ensures InputsAt(num, t, k, i) == InputsAt(num, t, k, SLOTS)
    ensures Own(k, t[k].info.ents, i) == Own(k, t[k].info.ents, SLOTS)
  {
    assert forall j :: i <= j < SLOTS ==> !IsValidPid(t[k].info.ents[j].inPid);
  }

  lemma OwnAreRoutes(t: Table, k: nat, i: nat)
    requires k < |t| && i <= SLOTS && t[k].selected
    ensures Own(k, t[k].info.ents, i) <= RoutesOf(t)
  {
    forall r | r in Own(k, t[k].info.ents, i) ensures IsRoute(t, r) {
    }
  }

  /** What makes slot i of program k ready to be noted. */
  lemma SlotReady(num: Counts, t: Table, k: nat, i: nat, pmts: set<Input>, routes: set<Route>)
    requires Sound(num, t) && k < |t| && Present(num, k) && i < SLOTS && Uses(t, k, i)
    requires SameOut(RoutesOf(t)) && OutsFit(RoutesOf(t))
    requires routes <= RoutesOf(t) && pmts <= PmtsOf(num, t)
    ensures var c, x := k / PROGRAM_MAX, Ins(t, k, i);
      if i == 0 then !Mapped(routes, c, x) else Input(c, x) !in pmts + {Input(c, Ins(t, k, 0))}
    ensures var n := RouteOf(k, t[k].info.ents, i);
      t[k].selected ==> n.outPid < CELLS && Reroute(routes, n) == routes && n in RoutesOf(t)
  {
    if i == 0 {
      PmtNotMapped(num, t, k);
    } else {
      NotPmtInput(num, t, k, i);
      assert Ins(t, k, i) != Ins(t, k, 0);
    }
    if t[k].selected {
      var n := RouteOf(k, t[k].info.ents, i);
      assert IsRoute(t, n);
      RerouteSame(routes, n);
    }
  }

  // Inputs, PMT inputs and routes once the first i slots of program k are noted as well.

  ghost function WithInputs(num: Counts, t: Table, k: nat, i: nat, inputs: set<Input>): set<Input>
    requires k < |t| && i <= SLOTS
  {
    inputs + InputsAt(num, t, k, i)
  }

  ghost function WithPmt(t: Table, k: nat, i: nat, pmts: set<Input>): set<Input>
    requires k < |t|
  {
    if i == 0 then pmts else pmts + {Input(k / PROGRAM_MAX, Ins(t, k, 0))}
  }

  ghost function WithOwn(t: Table, k: nat, i: nat, routes: set<Route>): set<Route>
    requires k < |t| && i <= SLOTS
  {
    if t[k].selected then routes + Own(k, t[k].info.ents, i) else routes
  }

  lemma ViewsStart(num: Counts, t: Table, k: nat, inputs: set<Input>, pmts: set<Input>, routes: set<Route>)
    requires k < |t|
    ensures WithInputs(num, t, k, 0, inputs) == inputs && WithPmt(t, k, 0, pmts) == pmts &&
      WithOwn(t, k, 0, routes) == routes
  {
  }

  lemma ViewsStep(num: Counts, t: Table, k: nat, i: nat, inputs: set<Input>, pmts: set<Input>, routes: set<Route>)
    requires k < |t| && i < SLOTS && Uses(t, k, i)
    ensures var p := Input(k / PROGRAM_MAX, Ins(t, k, i));
      && WithInputs(num, t, k, i + 1, inputs) == WithInputs(num, t, k, i, inputs) + {p}
      && WithPmt(t, k, i + 1, pmts) == (if i == 0 then WithPmt(t, k, i, pmts) + {p} else WithPmt(t, k, i, pmts))
      && WithOwn(t, k, i + 1, routes) ==
         if t[k].selected then WithOwn(t, k, i, routes) + {RouteOf(k, t[k].info.ents, i)} else WithOwn(t, k, i, routes)
  {
    assert InputsAt(num, t, k, i + 1) == InputsAt(num, t, k, i) + {Input(k / PROGRAM_MAX, Ins(t, k, i))};
    assert Own(k, t[k].info.ents, i + 1) == Own(k, t[k].info.ents, i) + {RouteOf(k, t[k].info.ents, i)};
  }

  lemma ViewsEnd(num: Counts, t: Table, k: nat, i: nat, inputs: set<Input>, pmts: set<Input>, routes: set<Route>)
    requires k < |t| && i < SLOTS && WellFormed(t[k].info.ents) && !Uses(t, k, i)
    ensures WithInputs(num, t, k, i, inputs) == WithInputs(num, t, k, SLOTS, inputs)
    ensures WithPmt(t, k, i, pmts) == WithPmt(t, k, SLOTS, pmts)
    ensures WithOwn(t, k, i, routes) == WithOwn(t, k, SLOTS, routes)
  {
    PrefixIsAll(t, num, k, i);
  }

  lemma ViewsKnown(num: Counts, t: Table, k: nat, i: nat, pmts: set<Input>, routes: set<Route>)
    requires k < |t| && i <= SLOTS && Present(num, k) && Uses(t, k, 0)
    requires routes <= RoutesOf(t) && pmts <= PmtsOf(num, t)
    ensures WithOwn(t, k, i, routes) <= RoutesOf(t) && WithPmt(t, k, i, pmts) <= PmtsOf(num, t)
  {
    if t[k].selected {
      OwnAreRoutes(t, k, i);
    }
    assert IsInputOf(num, t, Input(k / PROGRAM_MAX, Ins(t, k, 0)), true);
  }

  lemma NothingBelow(num: Counts, t: Table)
    ensures InputsBelow(num, t, 0) == {} && PmtsBelow(num, t, 0) == {} && RoutesBelow(t, 0) == {}
  {
  }

  lemma OneMoreBelow(num: Counts, t: Table, k: nat)
    requires Sound(num, t) && k < |t| && Present(num, k)
    ensures InputsBelow(num, t, k + 1) == WithInputs(num, t, k, SLOTS, InputsBelow(num, t, k))
    ensures PmtsBelow(num, t, k + 1) == WithPmt(t, k, SLOTS, PmtsBelow(num, t, k))
    ensures RoutesBelow(t, k + 1) == WithOwn(t, k, SLOTS, RoutesBelow(t, k))
  {
    forall p ensures InputBelow(num, t, k + 1, p) <==> InputBelow(num, t, k, p) || p in InputsAt(num, t, k, SLOTS) {
    }
    forall p | InputBelow(num, t, k + 1, p) ensures p in InputsOf(num, t) {
      assert IsInputOf(num, t, p, false);
    }
    assert WellFormed(t[k].info.ents);
    forall r | r in RoutesOf(t) && r.prog == k ensures t[k].selected && r in Own(k, t[k].info.ents, SLOTS) {
      assert IsRoute(t, r);
    }
    if t[k].selected {
      OwnAreRoutes(t, k, SLOTS);
    }
  }

  /** Slots of the table beyond a channel's program count hold nothing. */
  lemma AbsentBelow(num: Counts, t: Table, c: nat)
    requires Sound(num, t) && c < |num|
    ensures var lo, hi := c * PROGRAM_MAX + num[c], (c + 1) * PROGRAM_MAX;
      InputsBelow(num, t, hi) == InputsBelow(num, t, lo) && PmtsBelow(num, t, hi) == PmtsBelow(num, t, lo) &&
      RoutesBelow(t, hi) == RoutesBelow(t, lo)
  {
    var lo, hi := c * PROGRAM_MAX + num[c], (c + 1) * PROGRAM_MAX;
    forall k: nat | lo <= k < hi ensures !Present(num, k) {
      assert k / PROGRAM_MAX == c && k % PROGRAM_MAX == k - c * PROGRAM_MAX;
    }
    forall p ensures InputBelow(num, t, hi, p) <==> InputBelow(num, t, lo, p) {
    }
    forall r | r in RoutesOf(t) ensures Present(num, r.prog) {
      assert IsRoute(t, r);
    }
  }

  lemma EverythingBelow(num: Counts, t: Table)
    requires Sound(num, t)
    ensures InputsBelow(num, t, |t|) == InputsOf(num, t)
    ensures PmtsBelow(num, t, |t|) == PmtsOf(num, t)
    ensures RoutesBelow(t, |t|) == RoutesOf(t)
  {
    forall p | IsInputOf(num, t, p, false) ensures InputBelow(num, t, |t|, p) {
    }
    forall p | IsInputOf(num, t, p, true) ensures p in PmtsBelow(num, t, |t|) {
    }
    PmtsBelowKnown(num, t, |t|);
    forall r | r in RoutesOf(t) ensures r.prog < |t| {
      assert IsRoute(t, r);
    }
  }

  lemma InputsInChannels(num: Counts, t: Table)
    ensures forall i :: i in InputsOf(num, t) ==> i.chan < |num|
  {
    forall i | i in InputsOf(num, t) ensures i.chan < |num| {
      assert IsInputOf(num, t, i, false);
    }
  }

  /** Where automatic assignment stands before slot i: the slots done are on record and
      the rest would be assigned as from the start. */
  ghost predicate FixProgress(num: Counts, t: Table, k: nat, given: Ents, e: Ents, i: nat)
    requires i <= SLOTS
  {
    var inputs, base := InputsOf(num, t), RoutesOf(t);
    && SameInputs(e, given)
    && SameOut(base + Own(k, e, i))
    && Assign(inputs, base, k, given, 0) == Assign(inputs, base + Own(k, e, i), k, e, i)
  }

  lemma FixStart(num: Counts, t: Table, k: nat, given: Ents)
    requires Apart(RoutesOf(t))
    ensures FixProgress(num, t, k, given, given, 0) && RoutesOf(t) + Own(k, given, 0) == RoutesOf(t)
  {
    assert Own(k, given, 0) == {};
    assert RoutesOf(t) + {} == RoutesOf(t);
    ApartSameOut(RoutesOf(t));
  }

  lemma OwnStep(k: nat, e: Ents, i: nat, outPid: U16)
    requires i < SLOTS && IsValidPid(e[i].inPid)
    ensures Own(k, SetOut(e, i, outPid), i + 1) == Own(k, e, i) + {RouteOf(k, SetOut(e, i, outPid), i)}
  {
    var f := SetOut(e, i, outPid);
    forall j | 0 <= j < i ensures RouteOf(k, f, j) == RouteOf(k, e, j) {
    }
    assert Own(k, f, i) == Own(k, e, i);
  }

  lemma FixStep(num: Counts, t: Table, k: nat, given: Ents, e: Ents, i: nat, f: Ents)
    requires i < SLOTS && FixProgress(num, t, k, given, e, i) && IsValidPid(e[i].inPid)
    requires f == SetOut(e, i, Pick(InputsOf(num, t), RoutesOf(t) + Own(k, e, i), k / PROGRAM_MAX, i == 0, e[i].inPid))
    ensures FixProgress(num, t, k, given, f, i + 1)
    ensures RoutesOf(t) + Own(k, f, i + 1) == RoutesOf(t) + Own(k, e, i) + {RouteOf(k, f, i)}
  {
    var routes := RoutesOf(t) + Own(k, e, i);
    OwnStep(k, e, i, f[i].outPid);
    assert RoutesOf(t) + Own(k, f, i + 1) == routes + {RouteOf(k, f, i)};
    PickFollows(InputsOf(num, t), routes, RouteOf(k, f, i));
  }

  lemma FixFirst(num: Counts, t: Table, k: nat, given: Ents, f: Ents)
    requires Apart(RoutesOf(t)) && IsValidPid(given[0].inPid)
    requires f == SetOut(given, 0, Pick(InputsOf(num, t), RoutesOf(t), k / PROGRAM_MAX, true, given[0].inPid))
    ensures FixProgress(num, t, k, given, f, 1)
    ensures RoutesOf(t) + Own(k, f, 1) == RoutesOf(t) + {RouteOf(k, f, 0)}
  {
    FixStart(num, t, k, given);
    FixStep(num, t, k, given, given, 0, f);
  }

  lemma EachChosen(num: Counts, t: Table, k: nat, sel: Prog)
    requires Consistent(num, t)
    ensures var e := AutoFix(num, t, k, sel).info.ents;
      forall i :: 0 <= i < 16 && 0x20 <= e[i].inPid < 0x1FFF ==>
        IsChoice(InputsOf(num, t), RoutesOf(t) + Own(k, e, i), k / 64, i == 0, e[i].inPid, e[i].outPid)
  {
    hide IsChoice, Apart, Assign, Own, InputsOf, RoutesOf, Sound;
    ApartSameOut(RoutesOf(t));
    var e := AutoFix(num, t, k, sel).info.ents;
    forall i | 0 <= i < 16 && 0x20 <= e[i].inPid < 0x1FFF
      ensures IsChoice(InputsOf(num, t), RoutesOf(t) + Own(k, e, i), k / 64, i == 0, e[i].inPid, e[i].outPid)
    {
      assert sel.info.ents[i].inPid == e[i].inPid;
      AssignIs(InputsOf(num, t), RoutesOf(t), k, sel.info.ents, i);
    }
  }

  lemma FixDone(num: Counts, t: Table, k: nat, given: Ents, e: Ents)
    requires FixProgress(num, t, k, given, e, SLOTS)
    ensures e == Assign(InputsOf(num, t), RoutesOf(t), k, given, 0)
  {
  }

  lemma FixSkip(num: Counts, t: Table, k: nat, given: Ents, e: Ents, i: nat)
    requires i < SLOTS && FixProgress(num, t, k, given, e, i) && !IsValidPid(e[i].inPid)
    ensures FixProgress(num, t, k, given, e, i + 1) && Own(k, e, i + 1) == Own(k, e, i)
  {
    assert Own(k, e, i + 1) == Own(k, e, i);
  }

  /** The inputs of a program given for table slot k are known as such. */
  lemma GivenInput(num: Counts, t: Table, k: nat, e: Ents, i: nat)
    requires Sound(num, t) && k < |t| && Present(num, k) && SameInputs(e, t[k].info.ents)
    requires i < SLOTS && IsValidPid(e[i].inPid)
    ensures var p := Input(k / PROGRAM_MAX, e[i].inPid);
      p in InputsOf(num, t) && (p in PmtsOf(num, t) <==> i == 0)
  {
    assert e[i].inPid == Ins(t, k, i);
    assert Uses(t, k, i);
    var p := Input(k / PROGRAM_MAX, Ins(t, k, i));
    assert IsInputOf(num, t, p, false);
    if i == 0 {
      assert IsInputOf(num, t, p, true);
    } else {
      NotPmtInput(num, t, k, i);
    }
  }

  /** An edited slot in use has an output that can index the PID table. */
  lemma EditedFits(num: Counts, t: Table, k: nat, edited: Ents, i: nat)
    requires i < SLOTS && Editable(num, t, k, edited)
    ensures edited[i].outPid < CELLS
  {
  }

  /** Where an edit stands before slot i: every route of the other programs, `base` at the
      start, has moved after the slot it follows. */
  ghost predicate EditGoing(num: Counts, t: Table, base: set<Route>, k: nat, edited: Ents, i: nat)
    requires i <= SLOTS
  {
    && Editable(num, t, k, edited) && Apart(base)
    && RoutesOf(t) == Shifted(base, k, edited, i)
    && SameOut(RoutesOf(t) + Own(k, edited, i))
  }

  lemma EditGoes(num: Counts, t: Table, k: nat, edited: Ents)
    requires Editable(num, t, k, edited) && Apart(RoutesOf(t))
    ensures EditGoing(num, t, RoutesOf(t), k, edited, 0) && RoutesOf(t) + Own(k, edited, 0) == RoutesOf(t)
    ensures IsValidPid(edited[0].inPid)
  {
    NothingShifted(RoutesOf(t), k, edited);
    ApartSameOut(RoutesOf(t));
    assert RoutesOf(t) + {} == RoutesOf(t);
  }

  lemma SameOutRerouted(routes: set<Route>, n: Route)
    requires SameOut(routes)
    ensures SameOut(Reroute(routes, n) + {n})
  {
    forall r, s | r in Reroute(routes, n) && s in Reroute(routes, n) && !r.Pmt() && !s.Pmt() &&
      s.Carries(r.Chan(), r.inPid)
      ensures r.outPid == s.outPid
    {
      var r0 :| r0 in routes && r == Rerouted(r0, n);
      var s0 :| s0 in routes && s == Rerouted(s0, n);
      assert r0.outPid == s0.outPid;
    }
    forall r | r in Reroute(routes, n) && !r.Pmt() && !n.Pmt() && r.Carries(n.Chan(), n.inPid)
      ensures r.outPid == n.outPid
    {
      var r0 :| r0 in routes && r == Rerouted(r0, n);
    }
  }

  /** After slot i the routes on record are those of the changed table and of one slot more. */
  lemma AcceptedOnRecord(num: Counts, t: Table, k: nat, edited: Ents, i: nat)
    requires i < SLOTS && Editable(num, t, k, edited) && IsValidPid(edited[i].inPid)
    ensures var n, routes := RouteOf(k, edited, i), RoutesOf(t) + Own(k, edited, i);
      && (i == 0 ==> Reroute(routes, n) == routes)
      && RoutesOf(Accept(num, t, k, edited, i)) + Own(k, edited, i + 1) == Reroute(routes, n) + {n}
  {
    var n, u := RouteOf(k, edited, i), Accept(num, t, k, edited, i);
    if i == 0 {
      RerouteSame(RoutesOf(t), n);
      RerouteSame(RoutesOf(t) + Own(k, edited, i), n);
    } else {
      PropagateRoutes(num, t, n);
    }
    forall r | r in Own(k, edited, i) ensures Rerouted(r, n) == r {
      OwnCompatible(num, t, k, edited, i, r.slot);
    }
    assert Reroute(Own(k, edited, i), n) == Own(k, edited, i);
    assert Own(k, edited, i + 1) == Own(k, edited, i) + {n};
    assert Reroute(RoutesOf(t) + Own(k, edited, i), n) == Reroute(RoutesOf(t), n) + Reroute(Own(k, edited, i), n);
  }

  lemma EditGoesOn(num: Counts, t: Table, base: set<Route>, k: nat, edited: Ents, i: nat)
    requires i < SLOTS && EditGoing(num, t, base, k, edited, i) && IsValidPid(edited[i].inPid)
    ensures EditGoing(num, Accept(num, t, k, edited, i), base, k, edited, i + 1)
  {
    hide PidsAccepted, Apart, SameOut, InputsFit, Shifted, RoutesOf, Own, Accept;
    AcceptShifts(num, t, base, k, edited, i);
    AcceptSound(num, t, k, edited, i);
    AcceptedOnRecord(num, t, k, edited, i);
    SameOutRerouted(RoutesOf(t) + Own(k, edited, i), RouteOf(k, edited, i));
  }

  lemma EditSkips(num: Counts, t: Table, base: set<Route>, k: nat, edited: Ents, i: nat)
    requires i < SLOTS && EditGoing(num, t, base, k, edited, i) && !IsValidPid(edited[i].inPid)
    ensures EditGoing(num, t, base, k, edited, i + 1) && Own(k, edited, i + 1) == Own(k, edited, i)
  {
    SkipShifts(base, k, edited, i);
  }

  /** If the output of a slot is in force for its input already, only a further PMT stands in
      the way: either an earlier slot has the input, or no route but those that move has it. */
  lemma InForceRefused(num: Counts, t: Table, base: set<Route>, k: nat, edited: Ents, i: nat, q: Route)
    requires 0 < i < SLOTS && EditGoing(num, t, base, k, edited, i) && IsValidPid(edited[i].inPid)
    requires q in RoutesOf(t) + Own(k, edited, i) && !q.Pmt() && q.Carries(k / PROGRAM_MAX, edited[i].inPid)
    requires q.outPid == edited[i].outPid
    ensures var usable := Usable(RoutesOf(t) + Own(k, edited, i), k / PROGRAM_MAX, false, edited[i].inPid,
        edited[i].outPid);
      usable || SeenBefore(RoutesOf(t), edited, i) <==> !FurtherPmt(base, edited[i].outPid)
  {
    hide InputsFit, SameOut, Apart, Usable, Own;
    SameFurther(base, k, edited, i, edited[i].outPid);
    FurtherUnusable(RoutesOf(t), Own(k, edited, i), k / PROGRAM_MAX, edited[i].inPid, edited[i].outPid);
    if exists j :: 1 <= j < i && edited[j].inPid == edited[i].inPid {
    } else {
      UsableUnlessClash(num, t, base, k, edited, i);
      AloneClear(num, t, base, k, edited, i, q);
    }
  }

  lemma FurtherUnusable(routes: set<Route>, own: set<Route>, c: nat, inPid: int, outPid: int)
    ensures FurtherPmt(routes, outPid) ==> !Usable(routes + own, c, false, inPid, outPid)
  {
    if FurtherPmt(routes, outPid) {
      var r, s :| r in routes && s in routes && r.Pmt() && s.Pmt() && s.prog < r.prog &&
                  s.Carries(r.Chan(), r.inPid) && r.outPid == outPid;
      assert r in routes + own;
    }
  }

  /** A route in force from the start for an input that no earlier slot has. */
  lemma AloneClear(num: Counts, t: Table, base: set<Route>, k: nat, edited: Ents, i: nat, q: Route)
    requires 0 < i < SLOTS && EditGoing(num, t, base, k, edited, i) && IsValidPid(edited[i].inPid)
    requires forall j :: 1 <= j < i ==> edited[j].inPid != edited[i].inPid
    requires q in RoutesOf(t) + Own(k, edited, i) && !q.Pmt() && q.Carries(k / PROGRAM_MAX, edited[i].inPid)
    requires q.outPid == edited[i].outPid
    ensures !Clash(base, k, edited, i + 1, i)
  {
    hide InputsFit, SameOut;
    if q in Own(k, edited, i) {
      OwnCompatible(num, t, k, edited, i, q.slot);
    }
    var r :| r in base && q == Shift(r, k, edited, i);
    ShiftIs(r, k, edited, i);
    assert !Moved(r, k, edited, i);
    forall s | s in base && s.outPid == edited[i].outPid ensures Moved(s, k, edited, i + 1) {
      assert Compatible(r, s);
      assert Follows(s, k, edited, i);
    }
  }

  /** If it is not, no earlier slot has the input. */
  lemma NotSeenBefore(k: nat, edited: Ents, routes: set<Route>, base: set<Route>, i: nat)
    requires i < SLOTS && SlotsAgree(edited) && IsValidPid(edited[i].inPid) && Own(k, edited, i) <= routes
    requires forall q :: q in routes && !q.Pmt() && q.Carries(k / PROGRAM_MAX, edited[i].inPid) ==>
      q.outPid != edited[i].outPid
    ensures !SeenBefore(base, edited, i)
  {
    forall j: nat | 1 <= j < i ensures edited[j].inPid != edited[i].inPid {
      assert IsValidPid(edited[j].inPid) ==> RouteOf(k, edited, j) in Own(k, edited, i);
    }
  }

  // ---- The PID table during an edit ------------------------------------------------------------

  /** Cells that count as noted although their flags are not set yet, and what is noted then. */
  datatype Notes = Notes(ins: set<nat>, pms: set<nat>, inputs: set<Input>, pmts: set<Input>)

  function Plain(inputs: set<Input>, pmts: set<Input>): Notes {
    Notes({}, {}, inputs, pmts)
  }

  ghost predicate OnRecord(tab: seq<IoEntry>, chans: nat, notes: Notes, routes: set<Route>) {
    Agrees(Noted(tab, notes.ins, notes.pms), chans, notes.inputs, notes.pmts, routes)
  }

  /** The edited program's inputs are noted. */
  ghost predicate NotesFit(notes: Notes, k: nat, e: Ents) {
    forall i: nat :: i < SLOTS && IsValidPid(e[i].inPid) ==>
      var p := Input(k / PROGRAM_MAX, e[i].inPid); p in notes.inputs && (p in notes.pmts <==> i == 0)
  }

  /** The flags of the edited program's inputs are those of the program in the table; if the
      inputs change, they count as noted until the table is built again. */
  ghost function NotesOf(num: Counts, t: Table, k: nat, e: Ents): Notes
    requires k < |t|
  {
    var c := k / PROGRAM_MAX;
    if SameInputs(e, t[k].info.ents) then Plain(InputsOf(num, t), PmtsOf(num, t))
    else Notes(CellsOf(c, e), {Cell(c, e[0].inPid)}, InputsOf(num, t) + EntsInputs(c, e),
      PmtsOf(num, t) + {Input(c, e[0].inPid)})
  }

  lemma EditNoted(num: Counts, t: Table, k: nat, e: Ents, tab: seq<IoEntry>)
    requires Editable(num, t, k, e) && k / PROGRAM_MAX < |num|
    requires Agrees(tab, |num|, InputsOf(num, t), PmtsOf(num, t), RoutesOf(t))
    ensures OnRecord(tab, |num|, NotesOf(num, t, k, e), RoutesOf(t)) && NotesFit(NotesOf(num, t, k, e), k, e)
  {
    hide Agrees, PidsAccepted;
    var c := k / PROGRAM_MAX;
    if SameInputs(e, t[k].info.ents) {
      NothingNoted(tab);
      forall i: nat | i < SLOTS && IsValidPid(e[i].inPid)
        ensures var p := Input(c, e[i].inPid); p in InputsOf(num, t) && (p in PmtsOf(num, t) <==> i == 0)
      {
        GivenInput(num, t, k, e, i);
      }
    } else {
      NewPmtNotMapped(num, t, k, e);
      NotedAgrees(tab, |num|, InputsOf(num, t), PmtsOf(num, t), RoutesOf(t), c, e);
      NewNotesFit(num, t, k, e);
    }
  }

  lemma NewPmtNotMapped(num: Counts, t: Table, k: nat, e: Ents)
    requires Editable(num, t, k, e)
    ensures !Mapped(RoutesOf(t), k / PROGRAM_MAX, e[0].inPid)
  {
    forall r | r in RoutesOf(t) && !r.Pmt() && r.Chan() == k / PROGRAM_MAX ensures r.inPid != e[0].inPid {
      assert IsRoute(t, r);
      assert Ins(t, r.prog, r.slot) != e[0].inPid;
    }
  }

  lemma NewNotesFit(num: Counts, t: Table, k: nat, e: Ents)
    requires Editable(num, t, k, e) && !SameInputs(e, t[k].info.ents)
    ensures NotesFit(NotesOf(num, t, k, e), k, e)
  {
    var c := k / PROGRAM_MAX;
    forall i: nat | i < SLOTS && IsValidPid(e[i].inPid)
      ensures var p := Input(c, e[i].inPid);
        p in EntsInputs(c, e) && (p in PmtsOf(num, t) + {Input(c, e[0].inPid)} <==> i == 0)
    {
      forall l: nat | i > 0 && l < |t| && Present(num, l) && l / PROGRAM_MAX == c ensures e[i].inPid != Ins(t, l, 0) {
      }
    }
  }

  /** What holds of the PID table before slot i of an edit. */
  ghost predicate EditRecord(tab: seq<IoEntry>, chans: nat, notes: Notes, t: Table, base: set<Route>, k: nat,
      edited: Ents, i: nat)
    requires i <= SLOTS
  {
    && OnRecord(tab, chans, notes, RoutesOf(t) + Own(k, edited, i)) && NotesFit(notes, k, edited)
    && |tab| == chans * CELLS
    && forall pid: nat :: pid < CELLS && pid != edited[0].outPid ==>
      (PmtOutAnywhere(tab, chans, pid) <==> FurtherPmt(base, pid))
  }

  /** The cell of slot i on record: its PMT flag, and for another slot the output in force. */
  lemma RecordCell(tab: seq<IoEntry>, chans: nat, notes: Notes, routes: set<Route>, k: nat, e: Ents, i: nat)
    requires |tab| == chans * CELLS && k / PROGRAM_MAX < chans && i < SLOTS && IsValidPid(e[i].inPid)
    requires OnRecord(tab, chans, notes, routes) && NotesFit(notes, k, e) && SameOut(routes)
    ensures var cell := Cell(k / PROGRAM_MAX, e[i].inPid);
      && (Noted(tab, notes.ins, notes.pms)[cell].pmtPid <==> i == 0)
      && (i > 0 ==>
            && !tab[cell].pmtPid
            && (tab[cell].selected <==> Mapped(routes, k / PROGRAM_MAX, e[i].inPid))
            && (tab[cell].selected ==> tab[cell].outPid == MappedOut(routes, k / PROGRAM_MAX, e[i].inPid)))
      && (i == 0 && tab[cell].selected ==> Taken(routes, tab[cell].outPid))
  {
    var c, view := k / PROGRAM_MAX, Noted(tab, notes.ins, notes.pms);
    assert CellAgrees(notes.inputs, notes.pmts, routes, c, e[i].inPid, view[Cell(c, e[i].inPid)]);
    SelectedInTable(view, chans, notes.inputs, notes.pmts, routes, c, e[i].inPid);
  }

  /** What the usability test answers from the table is what the specification refuses. */
  lemma RefusedByTable(num: Counts, t: Table, base: set<Route>, k: nat, edited: Ents, i: nat, tab: seq<IoEntry>,
      notes: Notes)
    requires |tab| == |num| * CELLS && k / PROGRAM_MAX < |num| && i < SLOTS && edited[i].outPid < CELLS
    requires IsValidPid(edited[i].inPid) && EditGoing(num, t, base, k, edited, i)
    requires EditRecord(tab, |num|, notes, t, base, k, edited, i)
    requires i == 0 ==> PmtFlagged(tab, |num|, k / PROGRAM_MAX, edited[0].inPid)
    ensures var c, routes := k / PROGRAM_MAX, RoutesOf(t) + Own(k, edited, i);
      var usable := Usable(routes, c, i == 0, edited[i].inPid, edited[i].outPid);
      usable || SeenBefore(RoutesOf(t), edited, i) <==>
      TestAnswers(tab, |num|, c, edited[i].inPid, edited[i].outPid, usable)
  {
    hide OnRecord, NotesFit, InputsFit, Shifted, FurtherPmt, PmtOutAnywhere, Own, RoutesOf, OutputsInRange, SameOut,
      Apart;
    var e, routes := tab[Cell(k / PROGRAM_MAX, edited[i].inPid)], RoutesOf(t) + Own(k, edited, i);
    RecordCell(tab, |num|, notes, routes, k, edited, i);
    EditedFits(num, t, k, edited, i);
    if i > 0 {
      OwnCompatible(num, t, k, edited, i, 0);
      if e.selected && e.outPid == edited[i].outPid {
        var q :| q in routes && !q.Pmt() && q.Carries(k / PROGRAM_MAX, edited[i].inPid) && q.outPid == e.outPid;
        InForceRefused(num, t, base, k, edited, i, q);
      } else {
        forall q | q in routes && !q.Pmt() && q.Carries(k / PROGRAM_MAX, edited[i].inPid)
          ensures q.outPid != edited[i].outPid
        {
          OutInForce(routes, q);
        }
        NotSeenBefore(k, edited, routes, RoutesOf(t), i);
      }
    }
  }

  /** The PID table as patched step by step is the table of the program table it led to. */
  ghost predicate Describes(num: Counts, t: Table, tab: seq<IoEntry>) {
    Agrees(tab, |num|, InputsOf(num, t), PmtsOf(num, t), RoutesOf(t))
  }

  lemma CommitDescribed(num: Counts, t: Table, k: nat, p: Prog, tab: seq<IoEntry>)
    requires k < |t| && !t[k].selected && SameInputs(p.info.ents, t[k].info.ents)
    requires Agrees(tab, |num|, InputsOf(num, t), PmtsOf(num, t), RoutesOf(t) + Own(k, p.info.ents, SLOTS))
    ensures Describes(num, Commit(t, k, p), tab)
  {
    CommitRoutes(t, k, p);
    assert Deselect(t, k) == t;
    assert Own(k, p.info.ents, SLOTS) == RoutesFrom(k, p.info.ents, 0);
    SameProgramsSameInputs(num, t, Commit(t, k, p));
  }

  /** Setting a cell changes nothing about the other PMT outputs. */
  lemma PmtOutsKept(tab: seq<IoEntry>, chans: nat, c: nat, x: nat, f: IoEntry)
    requires |tab| == chans * CELLS && c < chans && x < CELLS && (f.isPmtOut || !tab[Cell(c, x)].isPmtOut)
    ensures forall pid: nat :: pid < CELLS && (pid != x || f.isPmtOut == tab[Cell(c, x)].isPmtOut) ==>
      (PmtOutAnywhere(tab[Cell(c, x) := f], chans, pid) <==> PmtOutAnywhere(tab, chans, pid))
  {
    forall pid: nat | pid < CELLS && (pid != x || f.isPmtOut == tab[Cell(c, x)].isPmtOut)
      ensures PmtOutAnywhere(tab[Cell(c, x) := f], chans, pid) <==> PmtOutAnywhere(tab, chans, pid)
    {
      PmtOutSet(tab, chans, c, x, f, pid);
    }
  }

  /** A table built from scratch also knows which PMTs are further ones. */
  ghost predicate Built(tab: seq<IoEntry>, chans: nat, inputs: set<Input>, pmts: set<Input>, routes: set<Route>) {
    Agrees(tab, chans, inputs, pmts, routes) && FurtherShown(tab, chans, routes)
  }

  /** Routes noted before slot i of program k. */
  ghost predicate Before(routes: set<Route>, k: nat, i: nat) {
    forall r :: r in routes ==> r.prog < k || (r.prog == k && i > 0)
  }

  lemma NothingFurther(tab: seq<IoEntry>, chans: nat)
    requires |tab| == chans * CELLS && forall i :: 0 <= i < |tab| ==> tab[i] == CLEAR
    ensures FurtherShown(tab, chans, {})
  {
  }

  /** Another cell set, which is no further PMT's output: nothing changes there. */
  lemma FurtherSame(tab: seq<IoEntry>, chans: nat, routes: set<Route>, c: nat, x: nat, f: IoEntry)
    requires FurtherShown(tab, chans, routes) && c < chans && x < CELLS && f.isPmtOut == tab[Cell(c, x)].isPmtOut
    ensures FurtherShown(tab[Cell(c, x) := f], chans, routes)
  {
    forall pid: nat | pid < CELLS
      ensures PmtOutAnywhere(tab[Cell(c, x) := f], chans, pid) <==> PmtOutAnywhere(tab, chans, pid)
    {
      PmtOutSet(tab, chans, c, x, f, pid);
    }
  }

  /** A route put on record at its input is no further PMT. */
  lemma FurtherKept(tab: seq<IoEntry>, chans: nat, routes: set<Route>, n: Route)
    requires FurtherShown(tab, chans, routes) && Before(routes, n.prog, n.slot)
    requires !(n.Pmt() && PmtMapped(routes, n.Chan(), n.inPid))
    ensures FurtherShown(tab, chans, routes + {n})
  {
    forall pid: nat | pid < CELLS ensures FurtherPmt(routes + {n}, pid) <==> FurtherPmt(routes, pid) {
      FurtherGrows(routes, n, pid);
    }
  }

  lemma FurtherPut(tab: seq<IoEntry>, chans: nat, routes: set<Route>, n: Route, f: IoEntry)
    requires FurtherShown(tab, chans, routes) && Before(routes, n.prog, n.slot)
    requires n.Pmt() && PmtMapped(routes, n.Chan(), n.inPid) && n.Chan() < chans && n.outPid < CELLS && f.isPmtOut
    ensures FurtherShown(tab[Cell(n.Chan(), n.outPid) := f], chans, routes + {n})
  {
    var tab' := tab[Cell(n.Chan(), n.outPid) := f];
    forall pid: nat | pid < CELLS ensures PmtOutAnywhere(tab', chans, pid) <==> FurtherPmt(routes + {n}, pid) {
      PmtOutSet(tab, chans, n.Chan(), n.outPid, f, pid);
      FurtherGrows(routes, n, pid);
    }
  }

  lemma OutsFitApart(routes: set<Route>)
    requires Apart(routes)
    ensures OutsFit(routes)
  {
  }

  lemma EditableSound(num: Counts, t: Table, k: nat, e: Ents)
    requires Editable(num, t, k, e)
    ensures Sound(num, t)
  {
  }

  /** A cell that sends on is flagged as a PMT. */
  predicate PmtFlagged(tab: seq<IoEntry>, chans: nat, c: nat, x: nat)
    requires |tab| == chans * CELLS
  {
    c < chans && x < CELLS && (tab[Cell(c, x)].selected ==> tab[Cell(c, x)].pmtPid)
  }

  /** The table as built is ready for an edit. */
  lemma EditRecorded(num: Counts, t: Table, k: nat, e: Ents, tab: seq<IoEntry>)
    requires |tab| == |num| * CELLS && k / PROGRAM_MAX < |num| && IsValidPid(e[0].inPid)
    requires Editable(num, t, k, e) && Apart(RoutesOf(t))
    requires Built(tab, |num|, InputsOf(num, t), PmtsOf(num, t), RoutesOf(t))
    ensures EditRecord(tab, |num|, NotesOf(num, t, k, e), t, RoutesOf(t), k, e, 0)
    ensures PmtFlagged(tab, |num|, k / PROGRAM_MAX, e[0].inPid)
  {
    hide Editable, OnRecord, NotesFit, NotesOf, CellsAgree, FurtherPmt, PmtOutAnywhere;
    EditGoes(num, t, k, e);
    EditNoted(num, t, k, e, tab);
    NewPmtNotMapped(num, t, k, e);
    ApartSameOut(RoutesOf(t));
    SelectedInTable(tab, |num|, InputsOf(num, t), PmtsOf(num, t), RoutesOf(t), k / PROGRAM_MAX, e[0].inPid);
  }

  class Multiplexer {
    const num: Counts
    const progs: array<Prog>
    const io: array<IoEntry>
    var shown: Prog

    ghost predicate Valid() {
      && progs.Length == |num| * PROGRAM_MAX
      && io.Length == |num| * CELLS
      && progs as object != io as object
      && forall c :: 0 <= c < |num| ==> num[c] <= PROGRAM_MAX
    }

    // ---- Recording routes -------------------------------------------------------------

    method SetPid(k: nat, inPid: U16, outPid: U16, ghost slot: nat, ghost notes: Notes, ghost routes: set<Route>)
      requires Valid() && k / PROGRAM_MAX < |num| && IsValidPid(inPid) && outPid < CELLS && slot > 0
      requires OnRecord(io[..], |num|, notes, routes)
      requires Input(k / PROGRAM_MAX, inPid) in notes.inputs && Input(k / PROGRAM_MAX, inPid) !in notes.pmts
      modifies io
      ensures var n := Route(k, slot, inPid, outPid);
        OnRecord(io[..], |num|, notes, Reroute(routes, n) + {n})
      ensures forall pid: nat :: pid < CELLS ==>
        (PmtOutAnywhere(io[..], |num|, pid) <==> PmtOutAnywhere(old(io[..]), |num|, pid))
    {
      ghost var tab := io[..];
      ghost var view := Noted(tab, notes.ins, notes.pms);
      var cell := Cell(k / PROGRAM_MAX, inPid);
      assert CellAgrees(notes.inputs, notes.pmts, routes, k / PROGRAM_MAX, inPid, view[cell]);
      var e := io[cell];
      if !e.selected || e.outPid != outPid {
        e := e.(justAdded := true);
      } else {
        e := e.(addAgain := true);
      }
      io[cell] := e.(outPid := outPid, selected := true);
      assert io[..] == tab[cell := io[cell]];
      NotedSet(tab, notes.ins, notes.pms, cell, io[cell]);
      PutRoute(view, |num|, notes.inputs, notes.pmts, routes, Route(k, slot, inPid, outPid),
        Noted(io[..], notes.ins, notes.pms)[cell]);
      PmtOutsKept(tab, |num|, k / PROGRAM_MAX, inPid, io[cell]);
    }

    method SetPmtPid(k: nat, inPid: U16, outPid: U16, ghost notes: Notes, ghost routes: set<Route>)
      requires Valid() && k / PROGRAM_MAX < |num| && IsValidPid(inPid) && outPid < CELLS
      requires OnRecord(io[..], |num|, notes, routes)
      requires Input(k / PROGRAM_MAX, inPid) in notes.inputs && Input(k / PROGRAM_MAX, inPid) in notes.pmts
      modifies io
      ensures OnRecord(io[..], |num|, notes, routes + {Route(k, 0, inPid, outPid)})
      ensures forall pid: nat :: pid < CELLS && pid != outPid ==>
        (PmtOutAnywhere(io[..], |num|, pid) <==> PmtOutAnywhere(old(io[..]), |num|, pid))
    {
      ghost var tab := io[..];
      ghost var view := Noted(tab, notes.ins, notes.pms);
      ghost var n := Route(k, 0, inPid, outPid);
      var cell, outCell := Cell(k / PROGRAM_MAX, inPid), Cell(k / PROGRAM_MAX, outPid);
      assert CellAgrees(notes.inputs, notes.pmts, routes, k / PROGRAM_MAX, inPid, view[cell]);
      if io[cell].selected {
        var e := io[outCell].(isPmtOut := true);
        if e.selected {
          e := e.(addAgain := true);
        } else {
          e := e.(justAdded := true);
        }
        io[outCell] := e.(pmtInPid := inPid);
        assert io[..] == tab[outCell := io[outCell]];
        NotedSet(tab, notes.ins, notes.pms, outCell, io[outCell]);
        PutPmtOut(view, |num|, notes.inputs, notes.pmts, routes, n, Noted(io[..], notes.ins, notes.pms)[outCell]);
        PmtOutsKept(tab, |num|, k / PROGRAM_MAX, outPid, io[outCell]);
        return;
      }
      io[cell] := io[cell].(outPid := outPid, selected := true, justAdded := true);
      assert io[..] == tab[cell := io[cell]];
      NotedSet(tab, notes.ins, notes.pms, cell, io[cell]);
      PutRoute(view, |num|, notes.inputs, notes.pmts, routes, n, Noted(io[..], notes.ins, notes.pms)[cell]);
      RerouteSame(routes, n);
      PmtOutsKept(tab, |num|, k / PROGRAM_MAX, inPid, io[cell]);
    }

    // ---- Asking the table ---------------------------------------------------------------

    /** First scan of the usability test: is it a PMT output of any channel? */
    method IsPmtOut(outPid: U16) returns (taken: bool)
      requires Valid() && outPid < CELLS
      ensures taken <==> PmtOutAnywhere(io[..], |num|, outPid)
    {
      for d := 0 to |num|
        invariant forall b: nat :: b < d ==> !io[..][Cell(b, outPid)].isPmtOut
      {
        if io[Cell(d, outPid)].isPmtOut {
          assert io[..][Cell(d, outPid)].isPmtOut;
          return true;
        }
      }
      return false;
    }

    /** Second scan: does another input of any channel go there? */
    method IsSentByOther(c: nat, inPid: U16, outPid: U16) returns (taken: bool)
      requires Valid()
      ensures taken <==> SentByOther(io[..], |num|, c, inPid, outPid)
    {
      ghost var tab := io[..];
      for d := 0 to |num|
        invariant forall b: nat, y: nat :: b < d && Sends(tab, |num|, b, y, outPid) ==>
          b == c && y == inPid && !tab[Cell(b, y)].pmtPid
      {
        for tmp := PID_MIN to NULL_PID
          invariant forall y: nat :: y < tmp && Sends(tab, |num|, d, y, outPid) ==>
            d == c && y == inPid && !tab[Cell(d, y)].pmtPid
        {
          if io[Cell(d, tmp)].selected && io[Cell(d, tmp)].outPid == outPid {
            assert Sends(tab, |num|, d, tmp, outPid);
            if d == c && tmp == inPid && !io[Cell(d, tmp)].pmtPid {
              continue;
            }
            return true;
          }
        }
      }
      return false;
    }

    /** The usability test: on the routes on record, unless the very output is in force for the
        input; then only a further PMT is looked for. */
    method IsOutPidUsable(c: nat, inPid: U16, outPid: U16, ghost notes: Notes, ghost routes: set<Route>)
        returns (ok: bool)
      requires Valid() && c < |num| && IsValidPid(inPid) && outPid < CELLS
      requires OnRecord(io[..], |num|, notes, routes) && SameOut(routes)
      requires var cell := Cell(c, inPid);
        io[cell].selected ==> io[cell].pmtPid == Noted(io[..], notes.ins, notes.pms)[cell].pmtPid
      ensures var pmt := Noted(io[..], notes.ins, notes.pms)[Cell(c, inPid)].pmtPid;
        ok <==> TestAnswers(io[..], |num|, c, inPid, outPid, Usable(routes, c, pmt, inPid, outPid))
    {
      UsableInTable(Noted(io[..], notes.ins, notes.pms), |num|, notes.inputs, notes.pmts, routes, c, inPid, outPid);
      NotedAnswers(io[..], |num|, notes.ins, notes.pms, c, inPid, outPid);
      var taken := IsPmtOut(outPid);
      if taken {
        return false;
      }
      if io[Cell(c, inPid)].selected && io[Cell(c, inPid)].outPid == outPid {
        return !io[Cell(c, inPid)].pmtPid;
      }
      taken := IsSentByOther(c, inPid, outPid);
      return !taken;
    }

    /** The two inner loops of the first-fit search, for one candidate. */
    method IsFreePid(outPid: U16, ghost inputs: set<Input>, ghost pmts: set<Input>, ghost routes: set<Route>)
        returns (free: bool)
      requires Valid() && IsValidPid(outPid)
      requires Agrees(io[..], |num|, inputs, pmts, routes) && SameOut(routes)
      requires forall i :: i in inputs ==> i.chan < |num|
      ensures free <==> Free(inputs, routes, outPid)
    {
      ghost var tab := io[..];
      FreeInTable(tab, |num|, inputs, pmts, routes, outPid);
      for d := 0 to |num|
        invariant forall b: nat :: b < d ==> !tab[Cell(b, outPid)].Flagged()
      {
        if io[Cell(d, outPid)].Flagged() {
          return false;
        }
      }
      for d := 0 to |num|
        invariant forall b: nat, y: nat :: b < d ==> !Sends(tab, |num|, b, y, outPid)
      {
        for pid := PID_MIN to NULL_PID
          invariant forall y: nat :: y < pid ==> !Sends(tab, |num|, d, y, outPid)
        {
          if io[Cell(d, pid)].selected && io[Cell(d, pid)].outPid == outPid {
            assert Sends(tab, |num|, d, pid, outPid);
            return false;
          }
        }
      }
      return true;
    }

    method PickFreePid(ghost inputs: set<Input>, ghost pmts: set<Input>, ghost routes: set<Route>) returns (outPid: U16)
      requires Valid()
      requires Agrees(io[..], |num|, inputs, pmts, routes) && SameOut(routes)
      requires forall i :: i in inputs ==> i.chan < |num|
      ensures outPid == FirstFree(inputs, routes, PID_MIN)
    {
      outPid := PID_MIN;
      while outPid < NULL_PID
        invariant PID_MIN <= outPid <= NULL_PID
        invariant FirstFree(inputs, routes, PID_MIN) == FirstFree(inputs, routes, outPid)
      {
        var free := IsFreePid(outPid, inputs, pmts, routes);
        if free {
          return;
        }
        outPid := outPid + 1;
      }
    }

    // ---- Building the table -----------------------------------------------------------

    /** The flags of an input. */
    method NoteFlags(c: nat, x: U16, pmt: bool, ghost inputs: set<Input>, ghost pmts: set<Input>,
        ghost routes: set<Route>)
      requires Valid() && c < |num| && IsValidPid(x) && Built(io[..], |num|, inputs, pmts, routes)
      requires pmt ==> !Mapped(routes, c, x)
      modifies io
      ensures Built(io[..], |num|, inputs + {Input(c, x)}, if pmt then pmts + {Input(c, x)} else pmts, routes)
    {
      ghost var tab := io[..];
      var cell := Cell(c, x);
      NoteInput(tab, |num|, inputs, pmts, routes, c, x, pmt);
      if pmt {
        io[cell] := io[cell].(pmtPid := true);
      }
      io[cell] := io[cell].(isInput := true);
      assert io[..] == tab[cell := tab[cell].(isInput := true, pmtPid := tab[cell].pmtPid || pmt)];
      FurtherSame(tab, |num|, routes, c, x, io[cell]);
    }

    /** The output of an input of a selected program. */
    method NoteRoute(n: Route, ghost inputs: set<Input>, ghost pmts: set<Input>, ghost routes: set<Route>)
      requires Valid() && n.Chan() < |num| && IsValidPid(n.inPid) && n.outPid < CELLS
      requires Built(io[..], |num|, inputs, pmts, routes) && Before(routes, n.prog, n.slot)
      requires Input(n.Chan(), n.inPid) in inputs && (Input(n.Chan(), n.inPid) in pmts <==> n.Pmt())
      requires Reroute(routes, n) == routes
      modifies io
      ensures Built(io[..], |num|, inputs, pmts, routes + {n})
    {
      ghost var tab := io[..];
      var cell, outCell := Cell(n.Chan(), n.inPid), Cell(n.Chan(), n.outPid);
      assert CellAgrees(inputs, pmts, routes, n.Chan(), n.inPid, tab[cell]);
      if n.Pmt() {
        PmtSelected(tab, |num|, inputs, pmts, routes, n.Chan(), n.inPid);
      }
      if io[cell].pmtPid && io[cell].selected {
        io[outCell] := io[outCell].(isPmtOut := true, pmtInPid := n.inPid);
        assert io[..] == tab[outCell := io[outCell]];
        PutPmtOut(tab, |num|, inputs, pmts, routes, n, io[outCell]);
        FurtherPut(tab, |num|, routes, n, io[outCell]);
      } else {
        io[cell] := io[cell].(outPid := n.outPid, selected := true);
        assert io[..] == tab[cell := io[cell]];
        PutRoute(tab, |num|, inputs, pmts, routes, n, io[cell]);
        FurtherSame(tab, |num|, routes, n.Chan(), n.inPid, io[cell]);
        FurtherKept(io[..], |num|, routes, n);
      }
    }

    method NoteSlot(k: nat, i: nat, ghost inputs: set<Input>, ghost pmts: set<Input>, ghost routes: set<Route>)
      requires Valid() && k < progs.Length && k / PROGRAM_MAX < |num| && i < SLOTS && Uses(progs[..], k, i)
      requires Built(io[..], |num|, inputs, pmts, routes) && Before(routes, k, i)
      requires var c, x := k / PROGRAM_MAX, Ins(progs[..], k, i);
        if i == 0 then !Mapped(routes, c, x) else Input(c, x) !in pmts
      requires progs[k].selected ==> progs[k].info.ents[i].outPid < CELLS
      requires var n := RouteOf(k, progs[k].info.ents, i); progs[k].selected ==> Reroute(routes, n) == routes
      modifies io
      ensures var c, x := k / PROGRAM_MAX, Ins(progs[..], k, i);
        Built(io[..], |num|, inputs + {Input(c, x)}, if i == 0 then pmts + {Input(c, x)} else pmts,
               if progs[k].selected then routes + {RouteOf(k, progs[k].info.ents, i)} else routes)
    {
      hide Built, Mapped, Before;
      var e := progs[k].info.ents[i];
      var c := k / PROGRAM_MAX;
      NoteFlags(c, e.inPid, i == 0, inputs, pmts, routes);
      if progs[k].selected {
        NoteRoute(RouteOf(k, progs[k].info.ents, i), inputs + {Input(c, e.inPid)},
          if i == 0 then pmts + {Input(c, e.inPid)} else pmts, routes);
      }
    }

    method NoteNext(k: nat, i: nat, ghost t: Table, ghost inputs: set<Input>, ghost pmts: set<Input>,
        ghost routes: set<Route>)
      requires Valid() && progs[..] == t && Sound(num, t) && k < |t| && Present(num, k) && i < SLOTS && Uses(t, k, i)
      requires SameOut(RoutesOf(t)) && OutsFit(RoutesOf(t))
      requires Built(io[..], |num|, WithInputs(num, t, k, i, inputs), WithPmt(t, k, i, pmts), WithOwn(t, k, i, routes))
      requires Before(routes, k, 0)
      requires routes <= RoutesOf(t) && pmts <= PmtsOf(num, t)
      modifies io
      ensures Built(io[..], |num|, WithInputs(num, t, k, i + 1, inputs), WithPmt(t, k, i + 1, pmts),
        WithOwn(t, k, i + 1, routes))
    {
      assert Uses(t, k, 0) by {
        assert WellFormed(t[k].info.ents);
      }
      ViewsKnown(num, t, k, i, pmts, routes);
      SlotReady(num, t, k, i, WithPmt(t, k, i, pmts), WithOwn(t, k, i, routes));
      NoteSlot(k, i, WithInputs(num, t, k, i, inputs), WithPmt(t, k, i, pmts), WithOwn(t, k, i, routes));
      ViewsStep(num, t, k, i, inputs, pmts, routes);
    }

    method NoteProgram(k: nat, ghost t: Table, ghost inputs: set<Input>, ghost pmts: set<Input>,
        ghost routes: set<Route>)
      requires Valid() && progs[..] == t && Sound(num, t) && k < |t| && Present(num, k)
      requires SameOut(RoutesOf(t)) && OutsFit(RoutesOf(t))
      requires Built(io[..], |num|, inputs, pmts, routes) && Before(routes, k, 0)
      requires routes <= RoutesOf(t) && pmts <= PmtsOf(num, t)
      modifies io
      ensures Built(io[..], |num|, WithInputs(num, t, k, SLOTS, inputs), WithPmt(t, k, SLOTS, pmts),
        WithOwn(t, k, SLOTS, routes))
    {
      hide Built, SameOut, OutsFit, RoutesOf, PmtsOf;
      assert WellFormed(t[k].info.ents);
      ViewsStart(num, t, k, inputs, pmts, routes);
      for i := 0 to SLOTS
        invariant progs[..] == t
        invariant Built(io[..], |num|, WithInputs(num, t, k, i, inputs), WithPmt(t, k, i, pmts),
          WithOwn(t, k, i, routes))
      {
        if !IsValidPid(progs[k].info.ents[i].inPid) {
          ViewsEnd(num, t, k, i, inputs, pmts, routes);
          return;
        }
        NoteNext(k, i, t, inputs, pmts, routes);
      }
    }

    method NoteProgramAt(k: nat, ghost t: Table)
      requires Valid() && progs[..] == t && Sound(num, t) && k < |t| && Present(num, k)
      requires SameOut(RoutesOf(t)) && OutsFit(RoutesOf(t))
      requires BelowNoted(t, k)
      modifies io
      ensures BelowNoted(t, k + 1)
    {
      PmtsBelowKnown(num, t, k);
      NoteProgram(k, t, InputsBelow(num, t, k), PmtsBelow(num, t, k), RoutesBelow(t, k));
      OneMoreBelow(num, t, k);
    }

    /** The programs of one channel. */
    method NoteChannel(c: nat, ghost t: Table)
      requires Valid() && progs[..] == t && Sound(num, t) && c < |num|
      requires SameOut(RoutesOf(t)) && OutsFit(RoutesOf(t))
      requires BelowNoted(t, c * PROGRAM_MAX)
      modifies io
      ensures BelowNoted(t, (c + 1) * PROGRAM_MAX)
    {
      hide Agrees, Built, SameOut, OutsFit;
      var first := c * PROGRAM_MAX;
      for p := 0 to num[c]
        invariant progs[..] == t
        invariant BelowNoted(t, first + p)
      {
        var k := first + p;
        assert k / PROGRAM_MAX == c && k % PROGRAM_MAX == p;
        NoteProgramAt(k, t);
      }
      AbsentBelow(num, t, c);
    }

    /** The table describes the first n programs. */
    ghost predicate BelowNoted(t: Table, n: nat)
      requires n <= |t|
      reads io
    {
      Built(io[..], |num|, InputsBelow(num, t, n), PmtsBelow(num, t, n), RoutesBelow(t, n))
    }

    method BuildIoTable(ghost t: Table)
      requires Valid() && progs[..] == t && Sound(num, t)
      requires SameOut(RoutesOf(t)) && OutsFit(RoutesOf(t))
      modifies io
      ensures Built(io[..], |num|, InputsOf(num, t), PmtsOf(num, t), RoutesOf(t))
    {
      forall i | 0 <= i < io.Length {
        io[i] := CLEAR;
      }
      ClearAgrees(io[..], |num|);
      NothingFurther(io[..], |num|);
      NothingBelow(num, t);
      for c := 0 to |num|
        invariant progs[..] == t
        invariant BelowNoted(t, c * PROGRAM_MAX)
      {
        NoteChannel(c, t);
      }
      EverythingBelow(num, t);
    }

    // ---- Automatic outputs ------------------------------------------------------------

    method GetOutPid(c: nat, inPid: U16, ghost inputs: set<Input>, ghost pmts: set<Input>, ghost routes: set<Route>)
        returns (outPid: U16)
      requires Valid() && c < |num| && IsValidPid(inPid) && Input(c, inPid) !in pmts
      requires Agrees(io[..], |num|, inputs, pmts, routes) && SameOut(routes)
      requires forall i :: i in inputs ==> i.chan < |num|
      ensures outPid == Pick(inputs, routes, c, false, inPid) && outPid < CELLS
      ensures IsChoice(inputs, routes, c, false, inPid, outPid)
    {
      PickIs(inputs, routes, c, false, inPid);
      assert CellAgrees(inputs, pmts, routes, c, inPid, io[..][Cell(c, inPid)]);
      SelectedInTable(io[..], |num|, inputs, pmts, routes, c, inPid);
      if io[Cell(c, inPid)].selected {
        return io[Cell(c, inPid)].outPid;
      }
      NothingNoted(io[..]);
      var usable := IsOutPidUsable(c, inPid, inPid, Plain(inputs, pmts), routes);
      if usable {
        return inPid;
      }
      outPid := PickFreePid(inputs, pmts, routes);
    }

    method GetPmtOutPid(c: nat, inPid: U16, ghost inputs: set<Input>, ghost pmts: set<Input>,
        ghost routes: set<Route>) returns (outPid: U16)
      requires Valid() && c < |num| && IsValidPid(inPid) && Input(c, inPid) in pmts
      requires Agrees(io[..], |num|, inputs, pmts, routes) && SameOut(routes)
      requires forall i :: i in inputs ==> i.chan < |num|
      ensures outPid == Pick(inputs, routes, c, true, inPid) && outPid < CELLS
      ensures IsChoice(inputs, routes, c, true, inPid, outPid)
    {
      PickIs(inputs, routes, c, true, inPid);
      assert CellAgrees(inputs, pmts, routes, c, inPid, io[..][Cell(c, inPid)]);
      SelectedInTable(io[..], |num|, inputs, pmts, routes, c, inPid);
      if io[Cell(c, inPid)].selected {
        outPid := PickFreePid(inputs, pmts, routes);
        return;
      }
      NothingNoted(io[..]);
      var usable := IsOutPidUsable(c, inPid, inPid, Plain(inputs, pmts), routes);
      if usable {
        return inPid;
      }
      outPid := PickFreePid(inputs, pmts, routes);
    }

    /** The inner loop over the slots of one selected sibling. */
    method UpdateSibling(l: nat, inPid: U16, outPid: U16)
      requires Valid() && l < progs.Length && IsValidPid(inPid) && WellFormed(progs[l].info.ents)
      modifies progs
      ensures progs[..] == old(progs[..])[l := if old(progs[l]).selected then
        SetEnts(old(progs[l]), RerouteEnts(old(progs[l]).info.ents, inPid, outPid)) else old(progs[l])]
    {
      ghost var p := progs[l];
      ghost var given := p.info.ents;
      for i := 1 to SLOTS
        invariant progs[..] == old(progs[..])[l := progs[l]] && progs[l] == SetEnts(p, progs[l].info.ents)
        invariant forall j :: 0 <= j < SLOTS ==>
          progs[l].info.ents[j] ==
            if p.selected && 1 <= j < i && given[j].inPid == inPid then given[j].(outPid := outPid) else given[j]
      {
        if !IsValidPid(progs[l].info.ents[i].inPid) {
          break;
        }
        if progs[l].selected && progs[l].info.ents[i].inPid == inPid {
          progs[l] := SetEnts(progs[l], SetOut(progs[l].info.ents, i, outPid));
        }
      }
      if p.selected {
        assert progs[l].info.ents == RerouteEnts(given, inPid, outPid);
      } else {
        assert progs[l].info.ents == given;
      }
    }

    method UpdateSiblings(k: nat, inPid: U16, outPid: U16, ghost t: Table)
      requires Valid() && progs[..] == t && Sound(num, t) && k < |t| && IsValidPid(inPid)
      modifies progs
      ensures progs[..] == Propagate(num, t, k, inPid, outPid)
    {
      var c := k / PROGRAM_MAX;
      var first := c * PROGRAM_MAX;
      ghost var u := Propagate(num, t, k, inPid, outPid);
      for p := 0 to num[c]
        invariant forall l :: 0 <= l < |t| ==> progs[l] == if first <= l < first + p then u[l] else t[l]
      {
        var l := first + p;
        assert l / PROGRAM_MAX == c && l % PROGRAM_MAX == p;
        if l == k {
          continue;
        }
        assert WellFormed(t[l].info.ents);
        UpdateSibling(l, inPid, outPid);
      }
      forall l | 0 <= l < |t| ensures progs[l] == u[l] {
      }
    }

    /** Telling the siblings an output they already have. */
    method ConfirmSiblings(n: Route, ghost t: Table, ghost routes: set<Route>)
      requires Valid() && progs[..] == t && Sound(num, t) && n.prog < |t| && IsValidPid(n.inPid) && !n.Pmt()
      requires RoutesOf(t) <= routes
      requires forall r :: r in routes && !r.Pmt() && r.Carries(n.Chan(), n.inPid) ==> r.outPid == n.outPid
      modifies progs
      ensures progs[..] == t
    {
      UpdateSiblings(n.prog, n.inPid, n.outPid, t);
      PropagateNoop(num, t, n.prog, n.inPid, n.outPid);
    }

    /** One slot of the automatic assignment; `routes` are those on record. */
    method FixSlot(k: nat, i: nat, e: Ents, doFix: bool, ghost t: Table, ghost routes: set<Route>) returns (f: Ents)
      requires Valid() && progs[..] == t && Sound(num, t) && k < |t| && Present(num, k) && SameInputs(e, t[k].info.ents)
      requires 1 <= i < SLOTS && IsValidPid(e[i].inPid)
      requires RoutesOf(t) <= routes && SameOut(routes)
      requires Agrees(io[..], |num|, InputsOf(num, t), PmtsOf(num, t), routes)
      modifies io, progs
      ensures progs[..] == t
      ensures f == SetOut(e, i, Pick(InputsOf(num, t), routes, k / PROGRAM_MAX, false, e[i].inPid))
      ensures Agrees(io[..], |num|, InputsOf(num, t), PmtsOf(num, t), routes + {RouteOf(k, f, i)})
    {
      hide Agrees, SameOut, Pick, IsChoice, RoutesOf, Sound;
      GivenInput(num, t, k, e, i);
      InputsInChannels(num, t);
      var outPid := GetOutPid(k / PROGRAM_MAX, e[i].inPid, InputsOf(num, t), PmtsOf(num, t), routes);
      f := SetOut(e, i, outPid);
      PickFollows(InputsOf(num, t), routes, RouteOf(k, f, i));
      RecordSlot(RouteOf(k, f, i), InputsOf(num, t), PmtsOf(num, t), routes);
      if doFix {
        ConfirmSiblings(RouteOf(k, f, i), t, routes);
      }
    }

    method RecordSlot(n: Route, ghost inputs: set<Input>, ghost pmts: set<Input>, ghost routes: set<Route>)
      requires Valid() && n.Chan() < |num| && IsValidPid(n.inPid) && n.outPid < CELLS && !n.Pmt()
      requires Agrees(io[..], |num|, inputs, pmts, routes) && Reroute(routes, n) == routes
      requires Input(n.Chan(), n.inPid) in inputs && Input(n.Chan(), n.inPid) !in pmts
      modifies io
      ensures Agrees(io[..], |num|, inputs, pmts, routes + {n})
    {
      NothingNoted(io[..]);
      SetPid(n.prog, n.inPid, n.outPid, n.slot, Plain(inputs, pmts), routes);
      NothingNoted(io[..]);
    }

    /** Rebuilds the PID table and assigns the PMT slot. */
    method FixPmt(k: nat, e: Ents, ghost t: Table) returns (f: Ents)
      requires Valid() && progs[..] == t && Consistent(num, t) && k < |t| && Present(num, k) &&
        SameInputs(e, t[k].info.ents)
      modifies io
      ensures f == SetOut(e, 0, Pick(InputsOf(num, t), RoutesOf(t), k / PROGRAM_MAX, true, e[0].inPid))
      ensures IsValidPid(e[0].inPid)
      ensures Agrees(io[..], |num|, InputsOf(num, t), PmtsOf(num, t), RoutesOf(t) + {RouteOf(k, f, 0)})
    {
      ApartSameOut(RoutesOf(t));
      BuildIoTable(t);
      OwnInputsKnown(num, t, k, SetEnts(t[k], e));
      GivenInput(num, t, k, e, 0);
      InputsInChannels(num, t);
      var outPid := GetPmtOutPid(k / PROGRAM_MAX, e[0].inPid, InputsOf(num, t), PmtsOf(num, t), RoutesOf(t));
      NothingNoted(io[..]);
      SetPmtPid(k, e[0].inPid, outPid, Plain(InputsOf(num, t), PmtsOf(num, t)), RoutesOf(t));
      NothingNoted(io[..]);
      f := SetOut(e, 0, outPid);
    }

    method FixNext(k: nat, i: nat, e: Ents, doFix: bool, ghost t: Table, ghost given: Ents) returns (f: Ents)
      requires Valid() && progs[..] == t && Sound(num, t) && k < |t| && Present(num, k) &&
        SameInputs(given, t[k].info.ents)
      requires 1 <= i < SLOTS && IsValidPid(e[i].inPid) && FixProgress(num, t, k, given, e, i)
      requires Agrees(io[..], |num|, InputsOf(num, t), PmtsOf(num, t), RoutesOf(t) + Own(k, e, i))
      modifies io, progs
      ensures progs[..] == t && FixProgress(num, t, k, given, f, i + 1)
      ensures Agrees(io[..], |num|, InputsOf(num, t), PmtsOf(num, t), RoutesOf(t) + Own(k, f, i + 1))
    {
      f := FixSlot(k, i, e, doFix, t, RoutesOf(t) + Own(k, e, i));
      FixStep(num, t, k, given, e, i, f);
    }

    /** The PCR and data slots. */
    method FixOthers(k: nat, e0: Ents, doFix: bool, ghost t: Table, ghost given: Ents) returns (e: Ents)
      requires Valid() && progs[..] == t && Sound(num, t) && k < |t| && Present(num, k)
      requires SameInputs(given, t[k].info.ents) && FixProgress(num, t, k, given, e0, 1)
      requires Agrees(io[..], |num|, InputsOf(num, t), PmtsOf(num, t), RoutesOf(t) + Own(k, e0, 1))
      modifies io, progs
      ensures progs[..] == t && e == Assign(InputsOf(num, t), RoutesOf(t), k, given, 0)
      ensures Agrees(io[..], |num|, InputsOf(num, t), PmtsOf(num, t), RoutesOf(t) + Own(k, e, SLOTS))
    {
      hide FixProgress, Agrees, Own, Assign, Sound, RoutesOf;
      e := e0;
      for i := 1 to SLOTS
        invariant progs[..] == t && FixProgress(num, t, k, given, e, i)
        invariant Agrees(io[..], |num|, InputsOf(num, t), PmtsOf(num, t), RoutesOf(t) + Own(k, e, i))
      {
        if !IsValidPid(e[i].inPid) {
          FixSkip(num, t, k, given, e, i);
          continue;
        }
        e := FixNext(k, i, e, doFix, t, given);
      }
      FixDone(num, t, k, given, e);
    }

    method FixSelectedProgramOutputPid(k: nat, sel: Prog, doFix: bool, ghost t: Table) returns (q: Prog)
      requires Valid() && progs[..] == t && Consistent(num, t) && k < |t| && Present(num, k)
      requires SameInputs(sel.info.ents, t[k].info.ents)
      modifies io, progs
      ensures progs[..] == t && q == AutoFix(num, t, k, sel)
      ensures forall i :: 0 <= i < 16 && 0x20 <= q.info.ents[i].inPid < 0x1FFF ==>
        IsChoice(InputsOf(num, t), RoutesOf(t) + Own(k, q.info.ents, i), k / 64, i == 0, q.info.ents[i].inPid,
          q.info.ents[i].outPid)
      ensures Agrees(io[..], |num|, InputsOf(num, t), PmtsOf(num, t), RoutesOf(t) + Own(k, q.info.ents, SLOTS))
    {
      var e := FixPmt(k, sel.info.ents, t);
      FixFirst(num, t, k, sel.info.ents, e);
      e := FixOthers(k, e, doFix, t, sel.info.ents);
      q := SetEnts(sel, e);
      EachChosen(num, t, k, sel);
    }

    // ---- Edited outputs -----------------------------------------------------------------

    /** Is the edited slot refused? */
    method IsRefused(k: nat, i: nat, edited: Ents, shown: Ents, ghost t: Table, ghost base: set<Route>,
        ghost notes: Notes) returns (refused: bool)
      requires Valid() && i < SLOTS && EditGoing(num, t, base, k, edited, i) && IsValidPid(edited[i].inPid)
      requires k / PROGRAM_MAX < |num| && EditRecord(io[..], |num|, notes, t, base, k, edited, i)
      requires i == 0 ==> PmtFlagged(io[..], |num|, k / PROGRAM_MAX, edited[0].inPid)
      ensures refused <==> Refused(t, k, edited, shown, i)
    {
      if edited[i].outPid == shown[i].outPid {
        return false;
      }
      EditedFits(num, t, k, edited, i);
      RecordCell(io[..], |num|, notes, RoutesOf(t) + Own(k, edited, i), k, edited, i);
      var usable := IsOutPidUsable(k / PROGRAM_MAX, edited[i].inPid, edited[i].outPid, notes,
        RoutesOf(t) + Own(k, edited, i));
      RefusedByTable(num, t, base, k, edited, i, io[..], notes);
      return !usable;
    }

    /** Records an accepted slot and tells the siblings. */
    method AcceptSlot(k: nat, i: nat, edited: Ents, ghost t: Table, ghost base: set<Route>, ghost notes: Notes)
      requires Valid() && progs[..] == t && i < SLOTS && Editable(num, t, k, edited) && IsValidPid(edited[i].inPid)
      requires k / PROGRAM_MAX < |num| && EditRecord(io[..], |num|, notes, t, base, k, edited, i)
      modifies io, progs
      ensures var u := Accept(num, t, k, edited, i);
        progs[..] == u && EditRecord(io[..], |num|, notes, u, base, k, edited, i + 1)
    {
      hide OnRecord, PidsAccepted, InputsFit, Own, RoutesOf, FurtherPmt, PmtOutAnywhere;
      ghost var routes := RoutesOf(t) + Own(k, edited, i);
      EditedFits(num, t, k, edited, i);
      AcceptedOnRecord(num, t, k, edited, i);
      if i == 0 {
        SetPmtPid(k, edited[i].inPid, edited[i].outPid, notes, routes);
      } else {
        SetPid(k, edited[i].inPid, edited[i].outPid, i, notes, routes);
        UpdateSiblings(k, edited[i].inPid, edited[i].outPid, t);
      }
    }

    /** One edited slot: refused and nothing done, or recorded and passed on. */
    method TreatSlot(k: nat, i: nat, edited: Ents, shown: Ents, ghost t: Table, ghost base: set<Route>,
        ghost notes: Notes) returns (refused: bool)
      requires Valid() && progs[..] == t && i < SLOTS && EditGoing(num, t, base, k, edited, i) &&
        IsValidPid(edited[i].inPid)
      requires k / PROGRAM_MAX < |num| && EditRecord(io[..], |num|, notes, t, base, k, edited, i)
      requires i == 0 ==> PmtFlagged(io[..], |num|, k / PROGRAM_MAX, edited[0].inPid)
      modifies io, progs
      ensures refused <==> Refused(t, k, edited, shown, i)
      ensures refused ==> progs[..] == t
      ensures !refused ==> var u := Accept(num, t, k, edited, i);
        progs[..] == u && EditGoing(num, u, base, k, edited, i + 1) &&
        EditRecord(io[..], |num|, notes, u, base, k, edited, i + 1)
    {
      hide EditRecord, Refused, Accept, Shifted;
      refused := IsRefused(k, i, edited, shown, t, base, notes);
      if !refused {
        EditGoesOn(num, t, base, k, edited, i);
        AcceptSlot(k, i, edited, t, base, notes);
      }
    }

    /** Prepares the PID table for an edited program. */
    method StartEdit(k: nat, edited: Ents, ghost t: Table)
      requires Valid() && progs[..] == t && Editable(num, t, k, edited) && Apart(RoutesOf(t))
      requires k / PROGRAM_MAX < |num|
      modifies io
      ensures EditRecord(io[..], |num|, NotesOf(num, t, k, edited), t, RoutesOf(t), k, edited, 0)
      ensures |io[..]| == |num| * CELLS && PmtFlagged(io[..], |num|, k / PROGRAM_MAX, edited[0].inPid)
    {
      hide Built, EditRecord, Editable, RoutesOf;
      ApartSameOut(RoutesOf(t));
      OutsFitApart(RoutesOf(t));
      EditGoes(num, t, k, edited);
      EditableSound(num, t, k, edited);
      BuildIoTable(t);
      EditRecorded(num, t, k, edited, io[..]);
    }

    method CheckUserOutputPid(k: nat, edited: Ents, shown: Ents, ghost t: Table) returns (ok: bool)
      requires Valid() && progs[..] == t && Editable(num, t, k, edited) && Apart(RoutesOf(t))
      requires k / PROGRAM_MAX < |num|
      modifies io, progs
      ensures var (at, u) := Edit(num, t, k, edited, shown, 0);
        (ok <==> at == SLOTS) && progs[..] == u &&
        (ok ==> OnRecord(io[..], |num|, NotesOf(num, t, k, edited), RoutesOf(u) + Own(k, edited, SLOTS)))
    {
      hide OnRecord, Refused, Accept, EditGoing, Editable, Apart, Own, RoutesOf, NotesOf, NotesFit;
      ghost var base, notes := RoutesOf(t), NotesOf(num, t, k, edited);
      EditGoes(num, t, k, edited);
      StartEdit(k, edited, t);
      var refused := TreatSlot(k, 0, edited, shown, t, base, notes);
      if refused {
        return false;
      }
      ghost var u := Accept(num, t, k, edited, 0);
      for i := 1 to SLOTS
        invariant progs[..] == u && EditGoing(num, u, base, k, edited, i)
        invariant Edit(num, t, k, edited, shown, 0) == Edit(num, u, k, edited, shown, i)
        invariant EditRecord(io[..], |num|, notes, u, base, k, edited, i)
      {
        if !IsValidPid(edited[i].inPid) {
          EditSkips(num, u, base, k, edited, i);
          continue;
        }
        refused := TreatSlot(k, i, edited, shown, u, base, notes);
        if refused {
          return false;
        }
        u := Accept(num, u, k, edited, i);
      }
      return true;
    }

    // ---- Selecting, reading, deselecting ----------------------------------------------

    /** A multiplexer whose programs have just been parsed: none is selected. */
    constructor (num: Counts, t: Table)
      requires Sound(num, t) && forall k :: 0 <= k < |t| ==> !t[k].selected
      ensures Valid() && this.num == num && progs[..] == t && fresh(progs) && fresh(io)
    {
      this.num := num;
      progs := new Prog[|t|](i requires 0 <= i < |t| => t[i]);
      io := new IoEntry[|num| * CELLS](_ => CLEAR);
      shown := Prog(false, false, Info(0, seq(SLOTS, _ => PidTrans(0, 0, 0)), []));
      new;
      assert progs[..] == t;
    }

    lemma SelectedAt()
      ensures SelectedCount(progs[..]) == |set k: nat | k < progs.Length && progs[k].selected|
    {
      SelectedCountIs(progs[..]);
      assert (set k: nat | k < progs.Length && progs[k].selected) ==
        set k: nat | k < |progs[..]| && progs[..][k].selected;
    }

    method ProgramSelectedCount() returns (n: nat)
      ensures n == SelectedCount(progs[..]) == |set k: nat | k < progs.Length && progs[k].selected|
    {
      SelectedAt();
      n := 0;
      for i := 0 to progs.Length
        invariant n == SelectedCount(progs[..i])
      {
        assert progs[..i + 1][..i] == progs[..i];
        if progs[i].selected {
          n := n + 1;
        }
      }
      assert progs[..progs.Length] == progs[..];
    }

    method ChannelMappedPidCount(c: nat) returns (n: nat)
      requires Valid() && c < |num|
      ensures n == ChannelCount(progs[..], c, PROGRAM_MAX) == |Rows(progs[..], c, 64)|
    {
      ChannelCountIs(progs[..], c, PROGRAM_MAX);
      n := 0;
      for p := 0 to PROGRAM_MAX
        invariant n == ChannelCount(progs[..], c, p)
      {
        var prog := progs[c * PROGRAM_MAX + p];
        if prog.selected {
          var count := ProgramMappedPidCount(prog.info.ents);
          n := n + count;
        }
      }
    }

    /** The checks before any output is looked at; k has been deselected. */
    method IsAdmissible(k: nat, sel: Prog, ghost d: Table) returns (ok: bool)
      requires Valid() && progs[..] == d && Shape(num, d) && k < |d|
      ensures ok <==> Admissible(num, d, k, sel)
    {
      var selected := ProgramSelectedCount();
      if selected + 1 > PROGRAM_MAX {
        return false;
      }
      var verdict := ValidProgramPids(sel.info.ents);
      if verdict != PidValid {
        return false;
      }
      var inChannel := ChannelMappedPidCount(k / PROGRAM_MAX);
      var own := ProgramMappedPidCount(sel.info.ents);
      return inChannel + own <= CHAN_ROWS;
    }

    /** Automatic selection once the checks have passed. */
    method CommitAutomatic(k: nat, sel: Prog, ghost d: Table)
      requires Valid() && progs[..] == d && Consistent(num, d) && k < |d| && Present(num, k) && !d[k].selected
      requires SameInputs(sel.info.ents, d[k].info.ents)
      modifies io, progs
      ensures progs[..] == Commit(d, k, AutoFix(num, d, k, sel)) && Describes(num, progs[..], io[..])
    {
      var q := FixSelectedProgramOutputPid(k, sel, true, d);
      progs[k] := q.(selected := true);
      CommitDescribed(num, d, k, q, io[..]);
    }

    /** Selection of an edited program once the checks have passed. */
    method CommitEdited(k: nat, sel: Prog, shownEnts: Ents, ghost d: Table) returns (ok: bool)
      requires Valid() && progs[..] == d && Editable(num, d, k, sel.info.ents) && Apart(RoutesOf(d))
      requires k / PROGRAM_MAX < |num|
      modifies io, progs
      ensures var (at, u) := Edit(num, d, k, sel.info.ents, shownEnts, 0);
        (ok <==> at == SLOTS) && progs[..] == (if ok then Commit(u, k, sel) else u) &&
        (ok && SameInputs(sel.info.ents, d[k].info.ents) ==> Describes(num, progs[..], io[..]))
    {
      EditKeepsSlot(num, d, k, sel.info.ents, shownEnts, 0);
      ok := CheckUserOutputPid(k, sel.info.ents, shownEnts, d);
      if ok {
        ghost var u := progs[..];
        progs[k] := sel.(selected := true);
        if SameInputs(sel.info.ents, d[k].info.ents) {
          NothingNoted(io[..]);
          SameProgramsSameInputs(num, d, u);
          CommitDescribed(num, u, k, sel, io[..]);
        }
      }
    }

    /** The selection proper; k has been deselected. A refusal may leave siblings rewritten. */
    method TrySelect(k: nat, sel: Prog, read: Option<Prog>, ghost d: Table) returns (ok: bool)
      requires Valid() && progs[..] == d && Consistent(num, d) && k < |d| && Present(num, k) && !d[k].selected
      requires read.None? ==> SameInputs(sel.info.ents, d[k].info.ents)
      requires PidsAccepted(sel.info.ents) ==> Editable(num, d, k, sel.info.ents)
      modifies io, progs
      ensures !Admissible(num, d, k, sel) ==> !ok && progs[..] == d
      ensures Admissible(num, d, k, sel) && read.None? ==> ok && progs[..] == Commit(d, k, AutoFix(num, d, k, sel))
      ensures Admissible(num, d, k, sel) && read.Some? ==>
        var (at, u) := Edit(num, d, k, sel.info.ents, read.value.info.ents, 0);
        (ok <==> at == SLOTS) && progs[..] == if ok then Commit(u, k, sel) else u
      ensures ok && SameInputs(sel.info.ents, d[k].info.ents) ==> Describes(num, progs[..], io[..])
    {
      ok := IsAdmissible(k, sel, d);
      if ok {
        match read
        case None => CommitAutomatic(k, sel, d);
        case Some(q) => ok := CommitEdited(k, sel, q.info.ents, d);
      }
    }

    method CheckAndSelectProgram(k: nat, sel: Prog, read: Option<Prog>, ghost t: Table) returns (ok: bool)
      requires Valid() && progs[..] == t && Consistent(num, t) && k < |t| && Present(num, k)
      requires InputsFit(num, t, k, sel.info.ents) && (read.None? ==> SameInputs(sel.info.ents, t[k].info.ents))
      modifies io, progs
      ensures (ok, progs[..]) == CheckAndSelect(num, t, k, sel, read)
      ensures ok && !Unchanged(t, k, sel) && SameInputs(sel.info.ents, t[k].info.ents) ==>
        Describes(num, progs[..], io[..])
    {
      hide Admissible, PidsAccepted, InputsFit, AutoFix, Edit, Editable, Apart, RoutesOf, Describes;
      if progs[k].selected && sel.info == progs[k].info {
        return true;
      }
      var oldStatus := progs[k].selected;
      progs[k] := progs[k].(selected := false);
      ghost var d := Deselect(t, k);
      DeselectConsistent(num, t, k);
      if PidsAccepted(sel.info.ents) {
        EditStarts(num, t, k, sel.info.ents);
      }
      if read.Some? {
        EditKeepsSlot(num, d, k, sel.info.ents, read.value.info.ents, 0);
      }
      ok := TrySelect(k, sel, read, d);
      if !ok {
        ghost var v := progs[..];
        progs[k] := progs[k].(selected := oldStatus);
        assert progs[..] == v[k := t[k]];
        assert d[k := t[k]] == t;
      }
    }

    method PrepareProgramOutputPid(k: nat, prog: Prog, ghost t: Table) returns (q: Prog)
      requires Valid() && progs[..] == t && Consistent(num, t) && k < |t| && Present(num, k) && prog == t[k]
      modifies io, progs
      ensures progs[..] == t && q == Preview(num, t, k)
    {
      if prog.selected {
        return prog;
      }
      q := FixSelectedProgramOutputPid(k, prog, false, t);
    }

    method ReadProgram(k: nat, ghost t: Table) returns (answer: Option<Prog>)
      requires Valid() && progs[..] == t && Consistent(num, t) && k < |t|
      modifies io, progs, this`shown
      ensures progs[..] == t
      ensures answer == if Present(num, k) then Some(Preview(num, t, k)) else None
      ensures Runs.State(progs[..], shown) == Runs.Next(num, Runs.State(t, old(shown)), Runs.Read(k))
    {
      if k % PROGRAM_MAX >= num[k / PROGRAM_MAX] {
        return None;
      }
      var q := PrepareProgramOutputPid(k, progs[k], t);
      shown := q;
      return Some(q);
    }

    /** The answer is false when the panel is told that the write failed. */
    method WriteProgram(k: nat, p: Prog, ghost t: Table) returns (ok: bool)
      requires Valid() && progs[..] == t && Consistent(num, t) && k < |t| && Present(num, k)
      requires p.selected ==> InputsFit(num, t, k, p.info.ents)
      modifies io, progs
      ensures ok == if p.selected then CheckAndSelect(num, t, k, p, Some(shown)).0 else true
      ensures Runs.State(progs[..], shown) == Runs.Next(num, Runs.State(t, shown), Runs.Write(k, p))
    {
      if p.selected {
        ok := CheckAndSelectProgram(k, p, Some(shown), t);
      } else {
        DeselectProgram(k);
        ok := true;
      }
    }

    method SelectProgram(k: nat, ghost t: Table)
      requires Valid() && progs[..] == t && Consistent(num, t) && k < |t|
      modifies io, progs
      ensures Runs.State(progs[..], shown) == Runs.Next(num, Runs.State(t, shown), Runs.Select(k))
    {
      if k % PROGRAM_MAX >= num[k / PROGRAM_MAX] {
        return;
      }
      if progs[k].selected {
        return;
      }
      SameInputsFit(num, t, k, t[k].info.ents);
      var ok := CheckAndSelectProgram(k, progs[k], None, t);
    }

    method DeselectProgram(k: nat)
      requires Valid() && k < progs.Length
      modifies progs
      ensures Runs.State(progs[..], shown) == Runs.Next(num, Runs.State(old(progs[..]), shown), Runs.Drop(k))
    {
      if k % PROGRAM_MAX >= num[k / PROGRAM_MAX] {
        return;
      }
      if !progs[k].selected {
        assert progs[..] == Deselect(old(progs[..]), k);
        return;
      }
      progs[k] := progs[k].(selected := false);
    }
  }
}
