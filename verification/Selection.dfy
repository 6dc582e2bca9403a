/** Reading, selecting and deselecting programs, and what every run of such steps keeps
    (src/program_pid_validater.c:141-201, src/front_panel_process.c:72-128, 407-440). */
module Selection {
  import opened Pids
  import opened Routes
  import opened Programs
  import opened Capacity
  import opened Edits
  import opened Previews
  import opened Options

  /** The checks made before outputs are looked at; k must not count as selected in d. */
  predicate Admissible(num: Counts, d: Table, k: nat, p: Prog)
    requires Shape(num, d) && k < |d|
  {
    && SelectedCount(d) + 1 <= PROGRAM_MAX
    && PidsAccepted(p.info.ents)
    && ChannelCount(d, k / PROGRAM_MAX, PROGRAM_MAX) + MappedCount(p.info.ents) <= CHAN_ROWS
  }

  /** So a program is admitted exactly if at most 63 others are selected, its outputs pass the
      PID check, and its channel has 32 rows for what is mapped and what it adds. */
  lemma AdmissibleIs(num: Counts, d: Table, k: nat, p: Prog)
    requires Shape(num, d) && k < |d|
    ensures var e, selected := p.info.ents, set l: nat | l < |d| && d[l].selected;
      Admissible(num, d, k, p) <==>
      && |selected| <= 63
      && (forall i :: 0 <= i < 16 ==> 0x20 <= e[i].outPid < 0x1FFF || (i >= 2 && e[i].outPid in {0, 0x0F}))
      && (forall i, j :: 0 <= i < j < 16 ==> (e[i].inPid == e[j].inPid <==> e[i].outPid == e[j].outPid))
      && |Rows(d, k / 64, 64)| + |OwnRows(e)| <= 32
  {
    hide SelectedCount, ChannelCount, MappedCount, HasRow;
    SelectedCountIs(d);
    ChannelCountIs(d, k / PROGRAM_MAX, PROGRAM_MAX);
    MappedRows(p.info.ents);
  }

  /** Outcome and table after program k is to be selected as p; `shown` is what the
      user was shown before editing, None for automatic selection. */
  ghost function CheckAndSelect(num: Counts, t: Table, k: nat, p: Prog, shown: Option<Prog>): (bool, Table)
    requires Shape(num, t) && k < |t|
  {
    var d := Deselect(t, k);
    if t[k].selected && p.info == t[k].info then (true, t)
    else if !Admissible(num, d, k, p) then (false, t)
    else match shown
      case None => (true, Commit(d, k, AutoFix(num, d, k, p)))
      case Some(q) =>
        var (at, u) := Edit(num, d, k, p.info.ents, q.info.ents, 0);
        if at == SLOTS then (true, Commit(u, k, p)) else (false, u[k := t[k]])
  }

  /** What a read of program k answers. */
  ghost function Preview(num: Counts, t: Table, k: nat): Prog
    requires k < |t|
  {
    if t[k].selected then t[k] else AutoFix(num, t, k, t[k])
  }

  // ---- Counts ------------------------------------------------------------------------

  lemma {:induction false} RowSlotsSameInputs(e: Ents, f: Ents, to: nat)
    requires SameInputs(e, f) && 2 <= to <= SLOTS
    ensures RowSlots(e, to) == RowSlots(f, to)
  {
    if to > 2 {
      RowSlotsSameInputs(e, f, to - 1);
    }
  }

  lemma {:induction false} SelectedCountSame(t: Table, u: Table)
    requires |t| == |u| && forall k :: 0 <= k < |t| ==> t[k].selected == u[k].selected
    ensures SelectedCount(t) == SelectedCount(u)
  {
    if t != [] {
      SelectedCountSame(t[..|t| - 1], u[..|u| - 1]);
    }
  }

  lemma {:induction false} ChannelCountSame(t: Table, u: Table, c: nat, n: nat)
    requires SamePrograms(t, u) && c * PROGRAM_MAX + n <= |t|
    requires forall k :: 0 <= k < |t| ==> t[k].selected == u[k].selected
    ensures ChannelCount(t, c, n) == ChannelCount(u, c, n)
  {
    if n > 0 {
      ChannelCountSame(t, u, c, n - 1);
      var k := c * PROGRAM_MAX + n - 1;
      RowSlotsSameInputs(t[k].info.ents, u[k].info.ents, SLOTS);
    }
  }

  lemma BoundedSame(num: Counts, t: Table, u: Table)
    requires Shape(num, t) && SamePrograms(t, u) && Bounded(num, t)
    requires forall k :: 0 <= k < |t| ==> t[k].selected == u[k].selected
    ensures Bounded(num, u)
  {
    SelectedCountSame(t, u);
    forall c | 0 <= c < |num| ensures ChannelCount(u, c, PROGRAM_MAX) <= CHAN_ROWS {
      ChannelCountSame(t, u, c, PROGRAM_MAX);
    }
  }

  lemma DeselectBounded(num: Counts, t: Table, k: nat)
    requires Shape(num, t) && k < |t| && Bounded(num, t)
    ensures Bounded(num, Deselect(t, k))
  {
    var p := t[k].(selected := false);
    SelectedCountUpdate(t, k, p);
    forall c | 0 <= c < |num| ensures ChannelCount(Deselect(t, k), c, PROGRAM_MAX) <= CHAN_ROWS {
      ChannelCountUpdate(t, k, p, c, PROGRAM_MAX);
    }
  }

  /** An admissible program keeps the limits, whatever its outputs become. */
  lemma CommitBounded(num: Counts, d: Table, k: nat, p: Prog, q: Prog)
    requires Shape(num, d) && k < |d| && !d[k].selected && Bounded(num, d)
    requires Admissible(num, d, k, p) && SameInputs(p.info.ents, q.info.ents)
    ensures Bounded(num, Commit(d, k, q))
  {
    SelectedCountUpdate(d, k, q.(selected := true));
    RowSlotsSameInputs(p.info.ents, q.info.ents, SLOTS);
    forall c | 0 <= c < |num| ensures ChannelCount(Commit(d, k, q), c, PROGRAM_MAX) <= CHAN_ROWS {
      ChannelCountUpdate(d, k, q.(selected := true), c, PROGRAM_MAX);
    }
  }

  // ---- What was shown ------------------------------------------------------------------

  /** The slots that keep the output they were read with fit in with every other program. */
  ghost predicate KeptFit(routes: set<Route>, k: nat, edited: Ents, shown: Ents) {
    forall j, r ::
      0 <= j < SLOTS && IsValidPid(edited[j].inPid) && edited[j].outPid == shown[j].outPid && r in routes ==>
      Compatible(RouteOf(k, edited, j), r)
  }

  ghost predicate FitsBase(base: set<Route>, n: Route) {
    n.outPid == NULL_PID || forall s :: s in base ==> Compatible(n, s)
  }

  /** Every PID the allocator found fits in with the routes it started from, even if
      it ran out for another slot. */
  lemma {:induction false} AssignFits(inputs: set<Input>, base: set<Route>, routes: set<Route>, prog: nat, e: Ents,
      i: nat)
    requires i <= SLOTS && Apart(base) && base <= routes
    requires forall r, s :: r in routes && s in base ==> r.outPid == NULL_PID || Compatible(r, s)
    ensures var a := Assign(inputs, routes, prog, e, i);
      forall j :: i <= j < SLOTS && IsValidPid(e[j].inPid) ==> FitsBase(base, RouteOf(prog, a, j))
    decreases SLOTS - i
  {
    if i == SLOTS {
    } else if !IsValidPid(e[i].inPid) {
      AssignFits(inputs, base, routes, prog, e, i + 1);
    } else {
      var outPid := Pick(inputs, routes, prog / PROGRAM_MAX, i == 0, e[i].inPid);
      var e' := SetOut(e, i, outPid);
      var n := RouteOf(prog, e', i);
      PickFits(inputs, base, routes, n);
      AssignFits(inputs, base, routes + {n}, prog, e', i + 1);
    }
  }

  lemma PickFits(inputs: set<Input>, base: set<Route>, routes: set<Route>, n: Route)
    requires base <= routes && IsValidPid(n.inPid)
    requires forall r, s :: r in routes && s in base ==> r.outPid == NULL_PID || Compatible(r, s)
    requires n.outPid == Pick(inputs, routes, n.Chan(), n.Pmt(), n.inPid)
    ensures FitsBase(base, n)
  {
    if n.outPid == NULL_PID {
    } else if !n.Pmt() && Mapped(routes, n.Chan(), n.inPid) {
      var q :| q in routes && !q.Pmt() && q.Carries(n.Chan(), n.inPid) && q.outPid == n.outPid;
      forall s | s in base ensures Compatible(n, s) {
        assert Compatible(q, s);
      }
    } else {
      assert !Taken(routes, n.outPid);
      forall s | s in base ensures Compatible(n, s) {
        assert s in routes;
        assert s.outPid != n.outPid;
      }
    }
  }

  lemma ShownSelectedFits(t: Table, k: nat, edited: Ents)
    requires Apart(RoutesOf(t)) && k < |t| && t[k].selected && SameInputs(edited, t[k].info.ents)
    requires RoutesOf(Deselect(t, k)) <= RoutesOf(t)
    ensures KeptFit(RoutesOf(Deselect(t, k)), k, edited, t[k].info.ents)
  {
    forall j, r | 0 <= j < SLOTS && IsValidPid(edited[j].inPid) && edited[j].outPid == t[k].info.ents[j].outPid &&
      r in RoutesOf(Deselect(t, k))
      ensures Compatible(RouteOf(k, edited, j), r)
    {
      assert edited[j].inPid == t[k].info.ents[j].inPid;
      assert IsRoute(t, RouteOf(k, edited, j));
    }
  }

  lemma ShownPreviewFits(num: Counts, t: Table, k: nat, p: Prog, edited: Ents)
    requires Apart(RoutesOf(t)) && SameInputs(edited, p.info.ents) && PidsAccepted(edited)
    ensures KeptFit(RoutesOf(t), k, edited, AutoFix(num, t, k, p).info.ents)
  {
    var shown := AutoFix(num, t, k, p).info.ents;
    AssignFits(InputsOf(num, t), RoutesOf(t), RoutesOf(t), k, p.info.ents, 0);
    forall j, r | 0 <= j < SLOTS && IsValidPid(edited[j].inPid) && edited[j].outPid == shown[j].outPid &&
      r in RoutesOf(t)
      ensures Compatible(RouteOf(k, edited, j), r)
    {
      assert edited[j].inPid == p.info.ents[j].inPid == shown[j].inPid;
      assert FitsBase(RoutesOf(t), RouteOf(k, shown, j));
      assert edited[j].outPid != NULL_PID;
    }
  }

  /** What the user was shown fits in, slot by slot, with the other selected programs. */
  lemma PreviewFits(num: Counts, t: Table, k: nat, edited: Ents)
    requires Consistent(num, t) && k < |t| && Present(num, k)
    requires SameInputs(edited, t[k].info.ents) && PidsAccepted(edited)
    ensures KeptFit(RoutesOf(Deselect(t, k)), k, edited, Preview(num, t, k).info.ents)
  {
    if t[k].selected {
      DeselectConsistent(num, t, k);
      ShownSelectedFits(t, k, edited);
    } else {
      assert Deselect(t, k) == t;
      ShownPreviewFits(num, t, k, t[k], edited);
    }
  }

  /** PCR and data slots with equal inputs were shown with equal outputs. */
  predicate ShownAlike(edited: Ents, shown: Ents) {
    forall i, j :: 1 <= i < j < SLOTS && IsValidPid(edited[i].inPid) && edited[i].inPid == edited[j].inPid ==>
      shown[i].outPid == shown[j].outPid
  }

  /** Every read of a program shows equal outputs where it has equal inputs, whatever the
      selection has been meanwhile. */
  lemma PreviewAlike(num: Counts, t: Table, k: nat, edited: Ents)
    requires Consistent(num, t) && k < |t| && SameInputs(edited, t[k].info.ents)
    ensures ShownAlike(edited, Preview(num, t, k).info.ents)
  {
    var shown, routes := Preview(num, t, k).info.ents, RoutesOf(t);
    ApartSameOut(routes);
    if !t[k].selected {
      AssignSameOut(InputsOf(num, t), routes, k, t[k].info.ents, 0);
    }
    forall i, j | 1 <= i < j < SLOTS && IsValidPid(edited[i].inPid) && edited[i].inPid == edited[j].inPid
      ensures shown[i].outPid == shown[j].outPid
    {
      assert edited[i].inPid == shown[i].inPid && edited[j].inPid == shown[j].inPid;
      var r, s := RouteOf(k, shown, i), RouteOf(k, shown, j);
      if t[k].selected {
        assert IsRoute(t, r) && IsRoute(t, s);
      } else {
        assert r in RoutesFrom(k, shown, 0) && s in RoutesFrom(k, shown, 0);
      }
    }
  }

  // ---- Selecting an edited program ------------------------------------------------------

  /** Nothing else was written than what is in force. */
  predicate Unchanged(t: Table, k: nat, p: Prog)
    requires k < |t|
  {
    t[k].selected && p.info == t[k].info
  }

  /** What a caller can see before the edit of program k: it either goes through and no slot
      takes an output that another route keeps, or it is refused before it passes on an output
      that does not fit, be it with the other programs or with the one put back in force. */
  ghost predicate Harmless(t: Table, k: nat, edited: Ents, shown: Ents)
    requires k < |t|
  {
    var routes := RoutesOf(Deselect(t, k));
    forall m: nat :: FirstBlocked(routes, k, edited, shown, m) ==>
      if m == SLOTS then NoneClashes(routes, k, edited)
      else if t[k].selected then PutBackFits(routes, k, edited, t[k].info.ents, m)
      else PassedOnFit(routes, k, edited, m)
  }

  /** The slots below m that are passed on have the outputs of the program in force. */
  ghost predicate InForce(routes: set<Route>, k: nat, edited: Ents, own: Ents, m: nat)
    requires m <= SLOTS
  {
    forall j: nat :: j < m && PassedOn(routes, k, edited, j) ==> edited[j].outPid == own[j].outPid
  }

  lemma OneFirstBlocked(routes: set<Route>, k: nat, edited: Ents, shown: Ents, m: nat, n: nat)
    requires FirstBlocked(routes, k, edited, shown, m) && FirstBlocked(routes, k, edited, shown, n)
    ensures m == n
  {
  }

  lemma EditStarts(num: Counts, t: Table, k: nat, edited: Ents)
    requires Consistent(num, t) && k < |t| && Present(num, k)
    requires InputsFit(num, t, k, edited) && PidsAccepted(edited)
    ensures var d := Deselect(t, k);
      Editable(num, d, k, edited) && Consistent(num, d) && RoutesOf(d) == Shifted(RoutesOf(d), k, edited, 0) &&
      forall r :: r in RoutesOf(d) ==> r.prog != k
  {
    var d := Deselect(t, k);
    DeselectConsistent(num, t, k);
    forall l: nat, i: nat | l < |t| && i < SLOTS ensures Ins(d, l, i) == Ins(t, l, i) {
    }
    NothingShifted(RoutesOf(d), k, edited);
    forall r | r in RoutesOf(d) ensures r.prog != k {
      assert IsRoute(d, r);
    }
  }

  /** The edit of a program, whatever is written and whatever was read before: where it stops,
      and when what it leaves behind is consistent. */
  lemma EditOutcome(num: Counts, t: Table, k: nat, p: Prog, shown: Ents)
    requires Consistent(num, t) && k < |t| && Present(num, k)
    requires InputsFit(num, t, k, p.info.ents) && PidsAccepted(p.info.ents)
    ensures var d := Deselect(t, k);
      var (m, u) := Edit(num, d, k, p.info.ents, shown, 0);
      FirstBlocked(RoutesOf(d), k, p.info.ents, shown, m) && SamePrograms(t, u) && u[k] == d[k] &&
      if m == SLOTS then Consistent(num, Commit(u, k, p)) <==> NoneClashes(RoutesOf(d), k, p.info.ents)
      else if t[k].selected then
        Consistent(num, u[k := t[k]]) <==> PutBackFits(RoutesOf(d), k, p.info.ents, t[k].info.ents, m)
      else Consistent(num, u[k := t[k]]) <==> PassedOnFit(RoutesOf(d), k, p.info.ents, m)
  {
    hide Edit, FirstBlocked, NoneClashes, PassedOnFit, PutBackFits, Apart, Sound, InputsFit;
    var d, edited := Deselect(t, k), p.info.ents;
    var routes := RoutesOf(d);
    EditStarts(num, t, k, edited);
    EditStops(num, d, routes, k, edited, shown, 0);
    var (m, u) := Edit(num, d, k, edited, shown, 0);
    assert Deselect(u, k) == u;
    if m == SLOTS {
      AllApart(num, u, routes, k, edited);
      CommitRoutes(u, k, p);
      FitCommitSound(num, u, k, p);
    } else if t[k].selected {
      CommitRoutes(d, k, t[k]);
      CommitRoutes(u, k, t[k]);
      assert Deselect(d, k) == d && Commit(d, k, t[k]) == t && Commit(u, k, t[k]) == u[k := t[k]];
      BackApart(routes, k, edited, t[k].info.ents, m);
      CommitSound(num, u, k, t[k]);
    } else {
      OthersApart(routes, k, edited, m);
      assert u[k := t[k]] == u;
    }
  }

  /** For a program that keeps its inputs the outputs passed on fit exactly if they are those
      in force, and then nothing has changed. */
  lemma PutBackUnchanged(num: Counts, t: Table, k: nat, edited: Ents, shown: Ents)
    requires Consistent(num, t) && k < |t| && Present(num, k) && t[k].selected
    requires SameInputs(edited, t[k].info.ents) && PidsAccepted(edited)
    ensures var d := Deselect(t, k);
      var (m, u) := Edit(num, d, k, edited, shown, 0);
      && (PutBackFits(RoutesOf(d), k, edited, t[k].info.ents, m) <==>
          InForce(RoutesOf(d), k, edited, t[k].info.ents, m))
      && (InForce(RoutesOf(d), k, edited, t[k].info.ents, m) ==> u[k := t[k]] == t)
  {
    hide Edit, FirstBlocked, RoutesOf, Sound, InputsFit, Apart;
    var d := Deselect(t, k);
    var m := Edit(num, d, k, edited, shown, 0).0;
    PutBackInForce(num, t, k, edited, m);
    if InForce(RoutesOf(d), k, edited, t[k].info.ents, m) {
      forall j: nat, r | j < m && r in RoutesOf(d) && Follows(r, k, edited, j) ensures r.outPid == edited[j].outPid {
        assert PassedOn(RoutesOf(d), k, edited, j);
        assert edited[j].inPid == t[k].info.ents[j].inPid;
        OwnOutput(num, t, k, j, r);
      }
      EditUntouched(num, d, k, edited, shown, 0);
      assert d[k := t[k]] == t;
    }
  }

  lemma PutBackInForce(num: Counts, t: Table, k: nat, edited: Ents, m: nat)
    requires Consistent(num, t) && k < |t| && t[k].selected && m <= SLOTS && SameInputs(edited, t[k].info.ents)
    ensures PutBackFits(RoutesOf(Deselect(t, k)), k, edited, t[k].info.ents, m) <==>
      InForce(RoutesOf(Deselect(t, k)), k, edited, t[k].info.ents, m)
  {
    var routes, own := RoutesOf(Deselect(t, k)), t[k].info.ents;
    forall i | 0 <= i < SLOTS ensures edited[i].inPid == own[i].inPid {
    }
    if PutBackFits(routes, k, edited, own, m) {
      forall j: nat | j < m && PassedOn(routes, k, edited, j) ensures edited[j].outPid == own[j].outPid {
        assert StaysApart(edited[j], own[j], j);
      }
    }
    if InForce(routes, k, edited, own, m) {
      forall j: nat | j < m && PassedOn(routes, k, edited, j) ensures !Clash(routes, k, edited, m, j) {
        OwnClear(t, k, edited, m, j);
      }
      forall j: nat, i: nat | j < m && i < SLOTS && PassedOn(routes, k, edited, j) && IsValidPid(own[i].inPid)
        ensures StaysApart(edited[j], own[i], i)
      {
        assert IsRoute(t, RouteOf(k, own, i)) && IsRoute(t, RouteOf(k, own, j));
        assert Compatible(RouteOf(k, own, i), RouteOf(k, own, j));
      }
    }
  }

  /** A slot that has its output in force clashes with nothing. */
  lemma OwnClear(t: Table, k: nat, edited: Ents, m: nat, j: nat)
    requires Apart(RoutesOf(t)) && k < |t| && t[k].selected && j < m <= SLOTS && IsValidPid(edited[j].inPid) && j >= 1
    requires edited[j].inPid == t[k].info.ents[j].inPid && edited[j].outPid == t[k].info.ents[j].outPid
    ensures !Clash(RoutesOf(Deselect(t, k)), k, edited, m, j)
  {
    var own := RouteOf(k, t[k].info.ents, j);
    assert IsRoute(t, own);
    forall r | r in RoutesOf(Deselect(t, k)) && r.outPid == edited[j].outPid ensures Moved(r, k, edited, m) {
      assert IsRoute(Deselect(t, k), r);
      assert IsRoute(t, r);
      assert Compatible(own, r);
      assert Follows(r, k, edited, j);
    }
  }

  /** A route that shares an input with program k in force shares the output. */
  lemma OwnOutput(num: Counts, t: Table, k: nat, j: nat, r: Route)
    requires Consistent(num, t) && k < |t| && t[k].selected && j < SLOTS
    requires r in RoutesOf(Deselect(t, k)) && Follows(r, k, t[k].info.ents, j)
    ensures r.outPid == t[k].info.ents[j].outPid
  {
    var own := RouteOf(k, t[k].info.ents, j);
    assert IsRoute(t, own);
    assert IsRoute(Deselect(t, k), r);
    assert IsRoute(t, r);
    assert Compatible(own, r);
  }

  /** Selecting an edited program, whatever was read before, with whatever inputs that fit: it
      succeeds exactly if no slot is blocked, and leaves the table consistent exactly if the edit
      is harmless. A refusal that does so with the inputs in force has changed nothing. */
  lemma EditedSelect(num: Counts, t: Table, k: nat, p: Prog, shown: Prog)
    requires Consistent(num, t) && k < |t| && Present(num, k) && InputsFit(num, t, k, p.info.ents)
    ensures var (ok, u) := CheckAndSelect(num, t, k, p, Some(shown));
      var admissible := Admissible(num, Deselect(t, k), k, p);
      && |u| == |t|
      && (ok <==> Unchanged(t, k, p) ||
                  (admissible && FirstBlocked(RoutesOf(Deselect(t, k)), k, p.info.ents, shown.info.ents, SLOTS)))
      && (Consistent(num, u) <==> Unchanged(t, k, p) || !admissible || Harmless(t, k, p.info.ents, shown.info.ents))
      && (!ok && t[k].selected && SameInputs(p.info.ents, t[k].info.ents) ==> (Consistent(num, u) <==> u == t))
  {
    hide Edit, FirstBlocked, NoneClashes, PassedOnFit, PutBackFits, InForce, PidsAccepted, Apart, InputsFit, SameInputs;
    if Unchanged(t, k, p) || !Admissible(num, Deselect(t, k), k, p) {
      return;
    }
    EditOutcome(num, t, k, p, shown.info.ents);
    if t[k].selected && SameInputs(p.info.ents, t[k].info.ents) {
      PutBackUnchanged(num, t, k, p.info.ents, shown.info.ents);
    }
    var d := Deselect(t, k);
    var m := Edit(num, d, k, p.info.ents, shown.info.ents, 0).0;
    forall n: nat | FirstBlocked(RoutesOf(d), k, p.info.ents, shown.info.ents, n) ensures n == m {
      OneFirstBlocked(RoutesOf(d), k, p.info.ents, shown.info.ents, m, n);
    }
  }

  // ---- Read against the present selection -------------------------------------------------

  /** Slots that keep what fits in do not clash. */
  lemma KeptClear(t: Table, k: nat, edited: Ents, shown: Ents, i: nat)
    requires k < |t| && i < SLOTS && KeptFit(RoutesOf(Deselect(t, k)), k, edited, shown)
    requires IsValidPid(edited[i].inPid) && edited[i].outPid == shown[i].outPid
    ensures !Clash(RoutesOf(Deselect(t, k)), k, edited, i + 1, i)
  {
    var routes := RoutesOf(Deselect(t, k));
    forall r | r in routes && r.outPid == edited[i].outPid ensures Moved(r, k, edited, i + 1) {
      assert IsRoute(Deselect(t, k), r);
      assert Compatible(RouteOf(k, edited, i), r);
      assert Follows(r, k, edited, i);
    }
  }

  /** Nor do changed ones, as long as none is blocked. */
  lemma {:induction false} UnblockedClear(t: Table, k: nat, edited: Ents, shown: Ents, m: nat, i: nat)
    requires k < |t| && i < m <= SLOTS && KeptFit(RoutesOf(Deselect(t, k)), k, edited, shown) && SlotsAgree(edited)
    requires IsValidPid(edited[i].inPid)
    requires forall n: nat :: n < m ==> !Blocked(RoutesOf(Deselect(t, k)), k, edited, shown, n)
    ensures !Clash(RoutesOf(Deselect(t, k)), k, edited, m, i)
    decreases i
  {
    assert !Blocked(RoutesOf(Deselect(t, k)), k, edited, shown, i);
    if edited[i].outPid == shown[i].outPid {
      KeptClear(t, k, edited, shown, i);
    } else if j: nat :| 1 <= j < i && edited[j].inPid == edited[i].inPid {
      assert edited[j].outPid == edited[i].outPid;
      UnblockedClear(t, k, edited, shown, m, j);
    }
    ClashLess(RoutesOf(Deselect(t, k)), k, edited, i, i + 1, m);
  }

  /** A selected program is edited, and before the first blocked slot there is one whose new
      output a selected sibling was made to follow. */
  ghost predicate HalfDone(t: Table, k: nat, edited: Ents)
    requires k < |t|
  {
    var routes := RoutesOf(Deselect(t, k));
    && t[k].selected
    && exists m: nat ::
        m < SLOTS && FirstBlocked(routes, k, edited, t[k].info.ents, m) &&
          !InForce(routes, k, edited, t[k].info.ents, m)
  }

  /** An edit that was read against the present selection is harmless unless it is half done
      when it is refused. */
  lemma PreviewHarmless(num: Counts, t: Table, k: nat, edited: Ents)
    requires Consistent(num, t) && k < |t| && Present(num, k)
    requires SameInputs(edited, t[k].info.ents) && PidsAccepted(edited)
    ensures Harmless(t, k, edited, Preview(num, t, k).info.ents) <==> !HalfDone(t, k, edited)
  {
    hide Consistent, Clash, Blocked, KeptFit, OutputsInRange, SlotsAgree, RoutesOf;
    PreviewFits(num, t, k, edited);
    if t[k].selected {
      forall m: nat | m <= SLOTS
        ensures PutBackFits(RoutesOf(Deselect(t, k)), k, edited, t[k].info.ents, m) <==>
          InForce(RoutesOf(Deselect(t, k)), k, edited, t[k].info.ents, m)
      {
        PutBackInForce(num, t, k, edited, m);
      }
    }
    var routes, shown := RoutesOf(Deselect(t, k)), Preview(num, t, k).info.ents;
    forall m: nat, i: nat | FirstBlocked(routes, k, edited, shown, m) && i < m && IsValidPid(edited[i].inPid)
      ensures !Clash(routes, k, edited, m, i)
    {
      UnblockedClear(t, k, edited, shown, m, i);
    }
  }

  /** Read against the present selection, an edit keeps the table consistent exactly if it
      is not refused half done. */
  lemma EditedSelectConsistent(num: Counts, t: Table, k: nat, p: Prog)
    requires Consistent(num, t) && k < |t| && Present(num, k)
    requires SameInputs(p.info.ents, t[k].info.ents)
    ensures var u := CheckAndSelect(num, t, k, p, Some(Preview(num, t, k))).1;
      Consistent(num, u) <==> !(Admissible(num, Deselect(t, k), k, p) && HalfDone(t, k, p.info.ents))
  {
    hide Preview, Harmless, Apart;
    SameInputsFit(num, t, k, p.info.ents);
    EditedSelect(num, t, k, p, Preview(num, t, k));
    if Admissible(num, Deselect(t, k), k, p) {
      PreviewHarmless(num, t, k, p.info.ents);
    }
  }
}
