/** Whole runs of the allocator: which steps keep its rule, what automatic selection and a
    write-back commit, and what a refused edit leaves. */
module Runs {
  import opened Pids
  import opened Routes
  import opened Programs
  import opened Capacity
  import opened Edits
  import opened Previews
  import opened Selection
  import opened Options

  predicate SameSelection(t: Table, u: Table) {
    |t| == |u| && forall k :: 0 <= k < |t| ==> t[k].selected == u[k].selected
  }

  lemma {:induction false} EditKeepsPrograms(num: Counts, t: Table, k: nat, edited: Ents, shown: Ents, i: nat)
    requires i <= SLOTS
    ensures var u := Edit(num, t, k, edited, shown, i).1; SamePrograms(t, u) && SameSelection(t, u)
    decreases SLOTS - i
  {
    if i < SLOTS {
      EditKeepsPrograms(num, t, k, edited, shown, i + 1);
      var v := Accept(num, t, k, edited, i);
      EditKeepsPrograms(num, v, k, edited, shown, i + 1);
      var u := Edit(num, v, k, edited, shown, i + 1).1;
      SameProgramsTrans(t, v, u);
    }
  }

  lemma SameProgramsTrans(t: Table, u: Table, v: Table)
    requires SamePrograms(t, u) && SamePrograms(u, v)
    ensures SamePrograms(t, v)
  {
  }

  lemma EditedBounded(num: Counts, t: Table, k: nat, p: Prog, shown: Ents)
    requires Shape(num, t) && k < |t| && Bounded(num, t) && Admissible(num, Deselect(t, k), k, p)
    ensures var (at, u) := Edit(num, Deselect(t, k), k, p.info.ents, shown, 0);
      var v := if at == SLOTS then Commit(u, k, p) else u[k := t[k]];
      |v| == |t| && Bounded(num, v)
  {
    var d := Deselect(t, k);
    DeselectBounded(num, t, k);
    EditKeepsPrograms(num, d, k, p.info.ents, shown, 0);
    var (at, u) := Edit(num, d, k, p.info.ents, shown, 0);
    if at == SLOTS {
      CommitBounded(num, d, k, p, p);
      BoundedSame(num, Commit(d, k, p), Commit(u, k, p));
    } else {
      BoundedSame(num, t, u[k := t[k]]);
    }
  }

  /** Whatever is written and whatever the outcome, no limit is exceeded. */
  lemma SelectBounded(num: Counts, t: Table, k: nat, p: Prog, shown: Option<Prog>)
    requires Shape(num, t) && k < |t| && Bounded(num, t)
    ensures var u := CheckAndSelect(num, t, k, p, shown).1; |u| == |t| && Bounded(num, u)
  {
    var d := Deselect(t, k);
    if (t[k].selected && p.info == t[k].info) || !Admissible(num, d, k, p) {
    } else {
      match shown
      case None =>
        DeselectBounded(num, t, k);
        CommitBounded(num, d, k, p, AutoFix(num, d, k, p));
      case Some(q) =>
        EditedBounded(num, t, k, p, q.info.ents);
    }
  }

  // ---- Refused edits of a program in force ---------------------------------------------------

  /** The edit of a program in force, read as it is: it goes through exactly if no slot is
      blocked; it breaks the rule exactly if the first blocked slot comes after one that was
      passed on with a new output; and a refusal that keeps the rule changes nothing. */
  lemma RefusedEditConsistent(num: Counts, t: Table, k: nat, p: Prog)
    requires Consistent(num, t) && k < |t| && Present(num, k) && t[k].selected
    requires SameInputs(p.info.ents, t[k].info.ents)
    ensures var (ok, u) := CheckAndSelect(num, t, k, p, Some(Preview(num, t, k)));
      var admissible, routes := Admissible(num, Deselect(t, k), k, p), RoutesOf(Deselect(t, k));
      && (ok <==> Unchanged(t, k, p) || (admissible && FirstBlocked(routes, k, p.info.ents, t[k].info.ents, SLOTS)))
      && (Consistent(num, u) <==> !(admissible && HalfDone(t, k, p.info.ents)))
      && (!ok ==> (Consistent(num, u) <==> u == t))
  {
    hide Apart, FirstBlocked, Admissible, HalfDone, InputsFit, CheckAndSelect;
    SameInputsFit(num, t, k, p.info.ents);
    EditedSelect(num, t, k, p, Preview(num, t, k));
    EditedSelectConsistent(num, t, k, p);
  }

  // ---- Automatic selection ---------------------------------------------------------------------

  /** What is known before program k is selected automatically decides whether its outputs
      will pass the PID check. */
  ghost predicate Foretold(num: Counts, t: Table, k: nat)
    requires k < |t|
  {
    WillPass(InputsOf(num, t), RoutesOf(t), k / PROGRAM_MAX, t[k].info.ents)
  }

  lemma AutoFixAccepted(num: Counts, t: Table, k: nat)
    requires Consistent(num, t) && k < |t| && Present(num, k)
    ensures PidsAccepted(AutoFix(num, t, k, t[k]).info.ents) <==> Foretold(num, t, k)
  {
    OwnInputsKnown(num, t, k, t[k]);
    AssignAccepted(InputsOf(num, t), RoutesOf(t), k, t[k].info.ents);
  }

  /** Automatic selection is all or nothing: refused, it changes nothing; done, it changes
      this program alone. The table stays consistent exactly if first fit has PIDs enough,
      and the new outputs pass the PID check exactly if that was foretold. */
  lemma AutomaticAllOrNothing(num: Counts, t: Table, k: nat)
    requires Consistent(num, t) && k < |t| && Present(num, k) && !t[k].selected
    ensures var (ok, u) := CheckAndSelect(num, t, k, t[k], None);
      && (ok <==> Admissible(num, t, k, t[k]))
      && (!ok ==> u == t)
      && (ok ==> |u| == |t| && u[k].selected && SameInputs(u[k].info.ents, t[k].info.ents) &&
                 (forall l :: 0 <= l < |t| && l != k ==> u[l] == t[l]) &&
                 (Consistent(num, u) <==> Enough(num, t, k, t[k])) &&
                 (PidsAccepted(u[k].info.ents) <==> Foretold(num, t, k)))
  {
    hide Apart, PidsAccepted, Enough, Foretold, Sound, Shape, RoutesOf;
    assert Deselect(t, k) == t;
    AutoFixAccepted(num, t, k);
    AutoSelectConsistent(num, t, k, t[k]);
  }

  // ---- Reading and writing back ---------------------------------------------------------

  lemma {:induction false} UnchangedNotRefused(num: Counts, t: Table, k: nat, e: Ents, i: nat)
    requires i <= SLOTS
    ensures Edit(num, t, k, e, e, i).0 == SLOTS
    decreases SLOTS - i
  {
    if i < SLOTS {
      UnchangedNotRefused(num, t, k, e, i + 1);
      UnchangedNotRefused(num, Accept(num, t, k, e, i), k, e, i + 1);
    }
  }

  /** What was shown and is written back meets no refusal and moves no sibling. */
  lemma WriteBackEdit(num: Counts, t: Table, k: nat)
    requires Consistent(num, t) && k < |t| && Present(num, k) && !t[k].selected
    requires PidsAccepted(Preview(num, t, k).info.ents)
    ensures var e := Preview(num, t, k).info.ents; Edit(num, t, k, e, e, 0) == (SLOTS, t)
  {
    hide Edit, PidsAccepted, Consistent, Preview;
    var e := Preview(num, t, k).info.ents;
    PreviewInputs(num, t, k);
    PreviewFits(num, t, k, e);
    assert Deselect(t, k) == t;
    UnchangedNotRefused(num, t, k, e, 0);
    forall j: nat, r | j < SLOTS && r in RoutesOf(t) && Follows(r, k, e, j) ensures r.outPid == e[j].outPid {
      assert Compatible(RouteOf(k, e, j), r);
    }
    EditUntouched(num, t, k, e, e, 0);
  }

  lemma PreviewInputs(num: Counts, t: Table, k: nat)
    requires k < |t|
    ensures SameInputs(Preview(num, t, k).info.ents, t[k].info.ents)
  {
  }

  lemma AutomaticCommits(num: Counts, t: Table, k: nat)
    requires Shape(num, t) && k < |t| && !t[k].selected && Admissible(num, t, k, t[k])
    ensures CheckAndSelect(num, t, k, t[k], None) == (true, Commit(t, k, Preview(num, t, k)))
  {
    assert Deselect(t, k) == t;
  }

  lemma WrittenEdit(num: Counts, t: Table, k: nat, p: Prog, shown: Prog)
    requires Shape(num, t) && k < |t| && !t[k].selected
    ensures CheckAndSelect(num, t, k, p, Some(shown)) ==
      if !Admissible(num, t, k, p) then (false, t)
      else
        var (at, u) := Edit(num, t, k, p.info.ents, shown.info.ents, 0);
        if at == SLOTS then (true, Commit(u, k, p)) else (false, u[k := t[k]])
  {
    assert Deselect(t, k) == t;
  }

  lemma WriteBackAdmissible(num: Counts, t: Table, k: nat)
    requires Shape(num, t) && k < |t| && !t[k].selected && Admissible(num, t, k, t[k])
    ensures Admissible(num, t, k, Preview(num, t, k).(selected := true)) <==> PidsAccepted(Preview(num, t, k).info.ents)
  {
    RowSlotsSameInputs(Preview(num, t, k).info.ents, t[k].info.ents, SLOTS);
  }

  /** Writing back what a read showed either commits what automatic selection would have
      committed or changes nothing, and it can be foretold which. */
  lemma WriteBackIsAutomatic(num: Counts, t: Table, k: nat)
    requires Consistent(num, t) && k < |t| && Present(num, k) && !t[k].selected && Admissible(num, t, k, t[k])
    ensures var shown := Preview(num, t, k);
      && CheckAndSelect(num, t, k, t[k], None) == (true, Commit(t, k, shown))
      && CheckAndSelect(num, t, k, shown.(selected := true), Some(shown)) ==
         if Foretold(num, t, k) then (true, Commit(t, k, shown)) else (false, t)
  {
    hide Edit, PidsAccepted, Apart, Foretold, Admissible;
    var shown := Preview(num, t, k);
    AutomaticCommits(num, t, k);
    AutoFixAccepted(num, t, k);
    WriteBackAdmissible(num, t, k);
    WrittenEdit(num, t, k, shown.(selected := true), shown);
    if PidsAccepted(shown.info.ents) {
      WriteBackEdit(num, t, k);
    }
  }

  // ---- Runs ------------------------------------------------------------------------------

  datatype State = State(t: Table, shown: Prog)

  datatype Step = Read(k: nat) | Write(k: nat, p: Prog) | Select(k: nat) | Drop(k: nat)

  ghost function Next(num: Counts, s: State, step: Step): State
    requires Shape(num, s.t)
  {
    if !Present(num, step.k) then s
    else match step
      case Read(k) => s.(shown := Preview(num, s.t, k))
      case Write(k, p) =>
        s.(t := if p.selected then CheckAndSelect(num, s.t, k, p, Some(s.shown)).1 else Deselect(s.t, k))
      case Select(k) =>
        s.(t := if s.t[k].selected then s.t else CheckAndSelect(num, s.t, k, s.t[k], None).1)
      case Drop(k) => s.(t := Deselect(s.t, k))
  }

  /** What is written has inputs that fit, its own or others. */
  ghost predicate PanelWrites(num: Counts, s: State, step: Step)
    requires Shape(num, s.t)
  {
    Present(num, step.k) && step.Write? && step.p.selected ==> InputsFit(num, s.t, step.k, step.p.info.ents)
  }

  /** What can be seen before a step: an automatic selection that is not refused finds PIDs
      enough, and an edit that gets as far as its outputs is harmless. */
  ghost predicate Permitted(num: Counts, s: State, step: Step)
    requires Shape(num, s.t)
  {
    Present(num, step.k) ==>
      match step
      case Read(_) => true
      case Drop(_) => true
      case Select(k) => s.t[k].selected || !Admissible(num, s.t, k, s.t[k]) || Enough(num, s.t, k, s.t[k])
      case Write(k, p) =>
        || !p.selected || Unchanged(s.t, k, p) || !Admissible(num, Deselect(s.t, k), k, p)
        || Harmless(s.t, k, p.info.ents, s.shown.info.ents)
  }

  ghost predicate Good(num: Counts, s: State) {
    Consistent(num, s.t) && Bounded(num, s.t)
  }

  lemma DeselectGood(num: Counts, t: Table, k: nat)
    requires Consistent(num, t) && Bounded(num, t) && k < |t|
    ensures Consistent(num, Deselect(t, k)) && Bounded(num, Deselect(t, k))
  {
    DeselectConsistent(num, t, k);
    DeselectBounded(num, t, k);
  }

  lemma AutomaticGood(num: Counts, t: Table, k: nat)
    requires Consistent(num, t) && Bounded(num, t) && k < |t| && Present(num, k) && !t[k].selected
    ensures var u := CheckAndSelect(num, t, k, t[k], None).1;
      && Bounded(num, u)
      && (Consistent(num, u) <==> !Admissible(num, t, k, t[k]) || Enough(num, t, k, t[k]))
  {
    hide Apart, Enough, Admissible, CheckAndSelect;
    SelectBounded(num, t, k, t[k], None);
    AutomaticAllOrNothing(num, t, k);
  }

  /** A step keeps outputs apart and limits exactly if it is permitted. */
  lemma StepGood(num: Counts, s: State, step: Step)
    requires Good(num, s) && PanelWrites(num, s, step)
    ensures Good(num, Next(num, s, step)) <==> Permitted(num, s, step)
  {
    hide Apart, Enough, Admissible, CheckAndSelect, Harmless;
    if Present(num, step.k) {
      match step
      case Read(k) =>
      case Write(k, p) =>
        if p.selected {
          SelectBounded(num, s.t, k, p, Some(s.shown));
          EditedSelect(num, s.t, k, p, s.shown);
        } else {
          DeselectGood(num, s.t, k);
        }
      case Select(k) =>
        if !s.t[k].selected {
          AutomaticGood(num, s.t, k);
        }
      case Drop(k) => DeselectGood(num, s.t, k);
    }
  }

  /** A program written with a PCR or data input that is the PMT input of another program breaks
      the rule as soon as it is accepted; nothing rejects it. */
  lemma UnfitBreaks(num: Counts, t: Table, k: nat, p: Prog, shown: Prog, l: nat, i: nat)
    requires Consistent(num, t) && k < |t| && l < |t| && Present(num, k) && Present(num, l)
    requires l != k && l / PROGRAM_MAX == k / PROGRAM_MAX && 1 <= i < SLOTS && p.info.ents[i].inPid == Ins(t, l, 0)
    ensures var (ok, u) := CheckAndSelect(num, t, k, p, Some(shown)); ok ==> !Consistent(num, u)
  {
    var d := Deselect(t, k);
    assert Ins(t, k, i) != Ins(t, l, 0);
    if Admissible(num, d, k, p) {
      EditKeepsPrograms(num, d, k, p.info.ents, shown.info.ents, 0);
      var (at, v) := Edit(num, d, k, p.info.ents, shown.info.ents, 0);
      var u := Commit(v, k, p);
      assert SameInputs(v[l].info.ents, d[l].info.ents);
      assert Ins(u, k, i) == Ins(u, l, 0);
    }
  }

  /** With at most seven channels every automatic selection is permitted. */
  lemma SelectPermitted(num: Counts, s: State, k: nat)
    requires Good(num, s) && |num| <= 7
    ensures Permitted(num, s, Select(k))
  {
    if Present(num, k) {
      SevenChannelsSuffice(num, s.t, k, s.t[k]);
    }
  }

  /** After a read of the same program an edit is permitted unless it is refused half done,
      which a program not in force never is. */
  lemma WritePermitted(num: Counts, s: State, k: nat, p: Prog)
    requires Good(num, s) && Present(num, k) && k < |s.t|
    requires p.selected && SameInputs(p.info.ents, s.t[k].info.ents) && s.shown == Preview(num, s.t, k)
    ensures Permitted(num, s, Write(k, p)) <==>
      !(Admissible(num, Deselect(s.t, k), k, p) && HalfDone(s.t, k, p.info.ents))
    ensures !s.t[k].selected ==> Permitted(num, s, Write(k, p))
  {
    hide Apart, Harmless, Preview, FirstBlocked;
    if Admissible(num, Deselect(s.t, k), k, p) {
      PreviewHarmless(num, s.t, k, p.info.ents);
    }
  }

  /** Reading a program and writing back what was shown, marked as selected, comes to the same
      table as selecting it automatically, if it was foretold that the PID check lets it pass. */
  lemma ReadAndWriteBack(num: Counts, s: State, k: nat)
    requires Consistent(num, s.t) && k < |s.t| && Present(num, k) && !s.t[k].selected
    requires Admissible(num, s.t, k, s.t[k])
    ensures var r := Next(num, s, Read(k));
      var w := Next(num, r, Write(k, r.shown.(selected := true)));
      w.t == if Foretold(num, s.t, k) then Next(num, s, Select(k)).t else s.t
  {
    hide Consistent, Preview, Foretold, CheckAndSelect, Admissible;
    WriteBackIsAutomatic(num, s.t, k);
  }

  /** Dropping a program, or writing it without the mark of selection, takes exactly its routes
      out of force. */
  lemma DroppedRoutes(num: Counts, s: State, k: nat, p: Prog)
    requires Consistent(num, s.t) && k < |s.t| && Present(num, k) && !p.selected
    ensures var u := Next(num, s, Drop(k)).t;
      && (RoutesOf(u) == set r | r in RoutesOf(s.t) && r.prog != k) && |u| == |s.t| && !u[k].selected
      && Next(num, s, Write(k, p)) == Next(num, s, Drop(k)) == s.(t := u)
  {
    ShapeOf(num, s.t);
    var u := Next(num, s, Drop(k)).t;
    forall r ensures r in RoutesOf(u) <==> r in RoutesOf(s.t) && r.prog != k {
      assert IsRoute(u, r) <==> IsRoute(s.t, r) && r.prog != k;
    }
  }

  /** Deselecting undoes an automatic selection: the routes in force are those there were, and
      no other program has changed. */
  lemma SelectAndDrop(num: Counts, s: State, k: nat)
    requires Consistent(num, s.t) && k < |s.t| && Present(num, k) && !s.t[k].selected
    ensures var u := Next(num, Next(num, s, Select(k)), Drop(k)).t;
      |u| == |s.t| && !u[k].selected && RoutesOf(u) == RoutesOf(s.t) &&
      forall l :: 0 <= l < |u| && l != k ==> u[l] == s.t[l]
  {
    hide Consistent, Preview, Admissible, Enough, Foretold, CheckAndSelect;
    ShapeOf(num, s.t);
    AutomaticAllOrNothing(num, s.t, k);
    var v := Next(num, s, Select(k)).t;
    var u := Next(num, Next(num, s, Select(k)), Drop(k)).t;
    assert u == Deselect(v, k);
    forall r ensures IsRoute(u, r) <==> IsRoute(s.t, r) {
    }
  }

  lemma ShapeOf(num: Counts, t: Table)
    requires Consistent(num, t)
    ensures Shape(num, t)
  {
  }

  ghost predicate RunFrom(num: Counts, run: seq<State>, steps: seq<Step>) {
    && |run| == |steps| + 1
    && forall i :: 0 <= i < |steps| ==>
      Shape(num, run[i].t) && PanelWrites(num, run[i], steps[i]) && run[i + 1] == Next(num, run[i], steps[i])
  }

  ghost predicate AllPermitted(num: Counts, run: seq<State>, steps: seq<Step>, i: nat)
    requires RunFrom(num, run, steps) && i < |run|
  {
    forall j: nat :: j < i ==> Permitted(num, run[j], steps[j])
  }

  /** In every run that starts from a freshly parsed table the outputs of the selected programs
      stand apart and no limit is exceeded, all the way exactly if every step was permitted. */
  lemma {:induction false} EveryRunGood(num: Counts, run: seq<State>, steps: seq<Step>, i: nat)
    requires RunFrom(num, run, steps) && i < |run|
    requires Sound(num, run[0].t) && forall k :: 0 <= k < |run[0].t| ==> !run[0].t[k].selected
    ensures (forall j: nat :: j <= i ==> Good(num, run[j])) <==> AllPermitted(num, run, steps, i)
  {
    hide Good, Permitted, Next, PanelWrites;
    if i == 0 {
      FreshlyParsed(num, run[0]);
    } else {
      EveryRunGood(num, run, steps, i - 1);
      assert run[i] == Next(num, run[i - 1], steps[i - 1]);
      if Good(num, run[i - 1]) {
        StepGood(num, run[i - 1], steps[i - 1]);
      }
      assert (forall j: nat :: j <= i ==> Good(num, run[j])) <==>
        (forall j: nat :: j <= i - 1 ==> Good(num, run[j])) && Good(num, run[i]);
      assert AllPermitted(num, run, steps, i) <==>
        AllPermitted(num, run, steps, i - 1) && Permitted(num, run[i - 1], steps[i - 1]);
    }
  }

  lemma FreshlyParsed(num: Counts, s: State)
    requires Sound(num, s.t) && forall k :: 0 <= k < |s.t| ==> !s.t[k].selected
    ensures Good(num, s)
  {
    NothingSelected(num, s.t);
  }

  lemma {:induction false} NoneCounted(t: Table)
    requires forall k :: 0 <= k < |t| ==> !t[k].selected
    ensures SelectedCount(t) == 0
  {
    if t != [] {
      NoneCounted(t[..|t| - 1]);
    }
  }

  lemma {:induction false} NoneCountedInChannel(t: Table, c: nat, n: nat)
    requires c * PROGRAM_MAX + n <= |t|
    requires forall k :: c * PROGRAM_MAX <= k < c * PROGRAM_MAX + n ==> !t[k].selected
    ensures ChannelCount(t, c, n) == 0
  {
    if n > 0 {
      NoneCountedInChannel(t, c, n - 1);
    }
  }

  lemma NothingSelected(num: Counts, t: Table)
    requires Sound(num, t) && forall k :: 0 <= k < |t| ==> !t[k].selected
    ensures Consistent(num, t) && Bounded(num, t)
  {
    assert RoutesOf(t) == {} by {
      forall r ensures !IsRoute(t, r) {
      }
    }
    NoneCounted(t);
    forall c | 0 <= c < |num| ensures ChannelCount(t, c, PROGRAM_MAX) <= CHAN_ROWS {
      NoneCountedInChannel(t, c, PROGRAM_MAX);
    }
  }
}
