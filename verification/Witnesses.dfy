/** Concrete tables on which the allocator does not keep its own rule: first fit can run
    out in a build with eight channels, a refused edit can leave two outputs for one
    input, and a data PID may be sent to PID 0. */
module Witnesses {
  import opened Pids
  import opened Routes
  import opened Programs
  import opened Capacity
  import opened Edits
  import opened Previews
  import opened Selection
  import opened Options
  import opened Runs

  function Slot(pid: U16): PidTrans {
    if IsValidPid(pid) then PidTrans(0, pid, pid) else PidTrans(0, PAD_PID, PAD_PID)
  }

  const PAD_SLOT := PidTrans(0, PAD_PID, PAD_PID)

  function ProgramOf(selected: bool, ents: Ents): Prog {
    Prog(selected, false, Info(1, ents, []))
  }

  // ---- Eight full channels -------------------------------------------------------------

  /** The slot of program k: 510 programs receive every valid PID once, 16 each, and the
      last two receive 0x20 and 0x21 again. */
  function FullSlot(k: nat, i: nat): PidTrans
    requires k < 512 && i < SLOTS
  {
    if k < 510 then Slot(PID_MIN + 16 * k + i) else if i < 2 then Slot(PID_MIN + i) else PAD_SLOT
  }

  function FullEnts(k: nat): (e: Ents)
    requires k < 512
    ensures forall i :: 0 <= i < SLOTS ==> e[i] == FullSlot(k, i)
  {
    var s: seq<PidTrans> := seq(SLOTS, i requires 0 <= i < SLOTS => FullSlot(k, i));
    s
  }

  const EIGHT: Counts := seq(8, _ => PROGRAM_MAX)

  function FullTable(selected: bool): (t: Table)
    ensures |t| == 512
    ensures forall k :: 0 <= k < 512 ==> t[k] == ProgramOf(selected && k == 0, FullEnts(k))
  {
    seq(512, k requires 0 <= k < 512 => ProgramOf(selected && k == 0, FullEnts(k)))
  }

  lemma FullIns(selected: bool, k: nat, i: nat)
    requires k < 512 && i < SLOTS
    ensures Ins(FullTable(selected), k, i) == FullSlot(k, i).inPid
  {
  }

  lemma FullSound(selected: bool)
    ensures Sound(EIGHT, FullTable(selected))
  {
    var t := FullTable(selected);
    forall k: nat | k < 512 ensures WellFormed(t[k].info.ents) {
      assert t[k].info.ents == FullEnts(k);
    }
    forall k: nat, l: nat, i | k < 512 && l < 512 && 1 <= i < SLOTS && k / PROGRAM_MAX == l / PROGRAM_MAX
      ensures Ins(t, k, i) != Ins(t, l, 0)
    {
      FullIns(selected, k, i);
      FullIns(selected, l, 0);
    }
  }

  lemma FullNoneFree()
    ensures FreeSet(InputsOf(EIGHT, FullTable(true)), RoutesOf(FullTable(true))) == {}
  {
    var t := FullTable(true);
    forall pid | PID_MIN <= pid < NULL_PID ensures IsInput(InputsOf(EIGHT, t), pid) {
      var k, i := (pid - PID_MIN) / 16, (pid - PID_MIN) % 16;
      FullIns(true, k, i);
      assert Uses(t, k, i) && Present(EIGHT, k);
      assert IsInputOf(EIGHT, t, Input(k / PROGRAM_MAX, Ins(t, k, i)), false);
    }
  }

  lemma FullRoutes(r: Route)
    requires r in RoutesOf(FullTable(true))
    ensures r.prog == 0 && r.inPid == r.outPid == PID_MIN + r.slot
  {
    assert IsRoute(FullTable(true), r);
    assert FullEnts(0)[r.slot] == FullSlot(0, r.slot);
  }

  lemma FullConsistent()
    ensures Consistent(EIGHT, FullTable(true))
  {
    var t := FullTable(true);
    FullSound(true);
    forall r, s | r in RoutesOf(t) && s in RoutesOf(t) ensures Compatible(r, s) {
      FullRoutes(r);
      FullRoutes(s);
    }
    forall r | r in RoutesOf(t) ensures Sendable(r.outPid) {
      FullRoutes(r);
    }
  }

  lemma FullCounts()
    ensures SelectedCount(FullTable(true)) == 1 && ChannelCount(FullTable(true), 7, PROGRAM_MAX) == 0
  {
    var none, t := FullTable(false), FullTable(true);
    assert t == none[0 := ProgramOf(true, FullEnts(0))];
    NoneCounted(none);
    SelectedCountUpdate(none, 0, ProgramOf(true, FullEnts(0)));
    NoneCountedInChannel(t, 7, PROGRAM_MAX);
  }

  lemma LastRows()
    ensures MappedCount(FullEnts(511)) <= CHAN_ROWS
  {
    assert RowSlots(FullEnts(511), SLOTS) <= Range(0, SLOTS);
    SubsetSize(RowSlots(FullEnts(511), SLOTS), Range(0, SLOTS));
  }

  lemma LastAccepted()
    ensures PidsAccepted(FullEnts(511))
  {
    var e := FullEnts(511);
    forall i | 0 <= i < SLOTS ensures e[i] == if i < 2 then Slot(PID_MIN + i) else PAD_SLOT {
    }
  }

  lemma LastAdmissible()
    ensures var t := FullTable(true); Admissible(EIGHT, t, 511, t[511])
  {
    FullCounts();
    LastRows();
    LastAccepted();
  }

  lemma LastNeedsFresh()
    ensures var t := FullTable(true); !Enough(EIGHT, t, 511, t[511])
  {
    var t := FullTable(true);
    FullNoneFree();
    var first := RouteOf(0, FullEnts(0), 0);
    assert IsRoute(t, first);
    assert Taken(RoutesOf(t), PID_MIN);
    assert FullEnts(511)[0].inPid as int in NeedSet(RoutesOf(t), 7, FullEnts(511), 0);
  }

  /** With eight full channels automatic selection of program 511 reports success although
      first fit has run out, and the table is no longer consistent. */
  lemma EightChannelsCanRunOut()
    ensures var t := FullTable(true);
      var (ok, u) := CheckAndSelect(EIGHT, t, 511, t[511], None);
      Consistent(EIGHT, t) && !t[511].selected && ok && !Consistent(EIGHT, u)
  {
    var t := FullTable(true);
    FullConsistent();
    LastAdmissible();
    LastNeedsFresh();
    assert Deselect(t, 511) == t;
    assert Present(EIGHT, 511);
    AutoSelectConsistent(EIGHT, t, 511, t[511]);
  }

  // ---- A refused edit that is half done --------------------------------------------------

  const TWO: Counts := [2, 0]

  /** Two selected programs of one channel that share the PCR 0x41, and nothing else. */
  function PairEnts(k: nat): (e: Ents)
    ensures e[0] == Slot(0x30 + k % 2) && e[1] == Slot(0x41)
    ensures e[2] == if k == 0 then Slot(0x42) else PAD_SLOT
    ensures forall i :: 3 <= i < SLOTS ==> e[i] == PAD_SLOT
  {
    var s: seq<PidTrans> :=
      [Slot(0x30 + k % 2), Slot(0x41), if k == 0 then Slot(0x42) else PAD_SLOT] + seq(13, _ => PAD_SLOT);
    s
  }

  /** The table with the programs below n selected. */
  function PairTable(n: nat): (t: Table)
    ensures |t| == 128
    ensures forall k :: 0 <= k < 128 ==> t[k] == ProgramOf(k < n, PairEnts(k))
  {
    seq(128, k requires 0 <= k < 128 => ProgramOf(k < n, PairEnts(k)))
  }

  /** The user moves the shared PCR to 0x50, which is accepted, and then the data PID to
      the PMT PID of the other program, which is refused. */
  function PairEdit(): Ents {
    SetOut(SetOut(PairEnts(0), 1, 0x50), 2, 0x31)
  }

  lemma PairIns(n: nat, k: nat, i: nat)
    requires k < 128 && i < SLOTS
    ensures Ins(PairTable(n), k, i) == PairEnts(k)[i].inPid
    ensures if i == 0 then PairEnts(k)[i].inPid == 0x30 + k % 2
      else PairEnts(k)[i].inPid in {0x41, 0x42, PAD_PID as U16}
  {
  }

  lemma PairSound(n: nat)
    requires n <= 2
    ensures Sound(TWO, PairTable(n))
  {
    var t := PairTable(n);
    forall k: nat, l: nat, i | k < 128 && l < 128 && 1 <= i < SLOTS ensures Ins(t, k, i) != Ins(t, l, 0) {
      PairIns(n, k, i);
      PairIns(n, l, 0);
    }
    forall k: nat | k < 128 ensures WellFormed(t[k].info.ents) {
      assert t[k].info.ents == PairEnts(k);
    }
  }

  lemma PairRoute(r: Route)
    requires r in RoutesOf(PairTable(2))
    ensures r.prog < 2 && r.slot < 3 && r.inPid == r.outPid
    ensures r.outPid == (if r.slot == 0 then 0x30 + r.prog else if r.slot == 1 then 0x41 else 0x42)
  {
    assert IsRoute(PairTable(2), r);
    assert r == RouteOf(r.prog, PairEnts(r.prog), r.slot);
  }

  lemma PairConsistent()
    ensures Consistent(TWO, PairTable(2))
  {
    PairSound(2);
    forall r, s | r in RoutesOf(PairTable(2)) && s in RoutesOf(PairTable(2)) ensures Compatible(r, s) {
      PairRoute(r);
      PairRoute(s);
    }
    forall r | r in RoutesOf(PairTable(2)) ensures Sendable(r.outPid) {
      PairRoute(r);
    }
  }

  lemma PairEditAccepted()
    ensures PidsAccepted(PairEdit()) && SameInputs(PairEdit(), PairEnts(0))
  {
    var e := PairEdit();
    assert e[0] == Slot(0x30) && e[1] == Slot(0x41).(outPid := 0x50) && e[2] == Slot(0x42).(outPid := 0x31);
    forall i, j | 0 <= i < j < SLOTS ensures e[i].inPid == e[j].inPid <==> e[i].outPid == e[j].outPid {
    }
  }

  lemma PairBlocked()
    ensures FirstBlocked(RoutesOf(Deselect(PairTable(2), 0)), 0, PairEdit(), PairEnts(0), 2)
  {
    var d := Deselect(PairTable(2), 0);
    forall r | r in RoutesOf(d) ensures r.outPid != 0x50 {
      assert IsRoute(d, r);
      assert IsRoute(PairTable(2), r);
      PairRoute(r);
    }
    var pmt := RouteOf(1, PairEnts(1), 0);
    assert d[1].selected && d[1].info.ents == PairEnts(1);
    assert IsRoute(d, pmt);
    assert pmt.outPid == 0x31 && !Moved(pmt, 0, PairEdit(), 3);
    assert PairEdit()[0] == Slot(0x30) && PairEdit()[1] == Slot(0x41).(outPid := 0x50) &&
      PairEdit()[2] == Slot(0x42).(outPid := 0x31);
  }

  lemma FewRows(e: Ents)
    ensures MappedCount(e) <= SLOTS
  {
    assert RowSlots(e, SLOTS) <= Range(0, SLOTS);
    SubsetSize(RowSlots(e, SLOTS), Range(0, SLOTS));
  }

  lemma PairCounts(d: Table)
    requires d == Deselect(PairTable(2), 0)
    ensures SelectedCount(d) == 1 && ChannelCount(d, 0, PROGRAM_MAX) <= SLOTS
  {
    var none, second := PairTable(0), ProgramOf(true, PairEnts(1));
    assert d == none[1 := second];
    NoneCounted(none);
    NoneCountedInChannel(none, 0, PROGRAM_MAX);
    SelectedCountUpdate(none, 1, second);
    ChannelCountUpdate(none, 1, second, 0, PROGRAM_MAX);
    FewRows(PairEnts(1));
  }

  lemma PairAdmissible()
    ensures Admissible(TWO, Deselect(PairTable(2), 0), 0, ProgramOf(true, PairEdit()))
  {
    PairEditAccepted();
    PairCounts(Deselect(PairTable(2), 0));
    FewRows(PairEdit());
  }

  /** The shared PCR is passed on before the data PID is blocked. */
  lemma PairHalfDone()
    ensures HalfDone(PairTable(2), 0, PairEdit())
  {
    var d := Deselect(PairTable(2), 0);
    PairBlocked();
    PairDiffers();
    var shared := RouteOf(1, PairEnts(1), 1);
    assert d[1].info.ents == PairEnts(1);
    assert IsRoute(d, shared);
    assert Follows(shared, 0, PairEdit(), 1);
    assert PassedOn(RoutesOf(d), 0, PairEdit(), 1);
    assert !InForce(RoutesOf(d), 0, PairEdit(), PairEnts(0), 2);
  }

  /** An edit that is refused at its third slot has already moved the sibling's PCR: the
      one input is left with two outputs. */
  lemma RefusedEditCanSpoil()
    ensures var t, p := PairTable(2), ProgramOf(true, PairEdit());
      Consistent(TWO, t) && SameInputs(p.info.ents, t[0].info.ents) &&
      !CheckAndSelect(TWO, t, 0, p, Some(Preview(TWO, t, 0))).0 &&
      !Consistent(TWO, CheckAndSelect(TWO, t, 0, p, Some(Preview(TWO, t, 0))).1)
  {
    hide Consistent, HalfDone, FirstBlocked, CheckAndSelect, Admissible, PairEdit;
    var t, p := PairTable(2), ProgramOf(true, PairEdit());
    PairConsistent();
    PairEditAccepted();
    PairAdmissible();
    PairHalfDone();
    PairDiffers();
    PairBlocked();
    NotTwoFirst(RoutesOf(Deselect(t, 0)), 0, PairEdit(), PairEnts(0));
    RefusedEditConsistent(TWO, t, 0, p);
  }

  lemma NotTwoFirst(routes: set<Route>, k: nat, edited: Ents, shown: Ents)
    requires FirstBlocked(routes, k, edited, shown, 2)
    ensures !FirstBlocked(routes, k, edited, shown, SLOTS)
  {
  }

  lemma PairDiffers()
    ensures PairTable(2)[0] == ProgramOf(true, PairEnts(0)) && PairEdit() != PairEnts(0)
  {
    assert PairEdit()[1].outPid == 0x50 && PairEnts(0)[1].outPid == 0x41;
  }

  // ---- PID 0 as an output ------------------------------------------------------------------

  /** The PID check lets a data PID in use be sent to PID 0, the PID of the PAT. */
  lemma DataMayBeSentToZero()
    ensures var e := SetOut(PairEnts(0), 2, 0); IsValidPid(e[2].inPid) && e[2].outPid == 0 && PidsAccepted(e)
  {
    var e := SetOut(PairEnts(0), 2, 0);
    assert e[0] == Slot(0x30) && e[1] == Slot(0x41) && e[2] == Slot(0x42).(outPid := 0);
    forall i, j | 0 <= i < j < SLOTS ensures e[i].inPid == e[j].inPid <==> e[i].outPid == e[j].outPid {
    }
  }

  /** Program 0 is selected and sends its data PID 0x42 to PID 0; for program 1, not selected
      yet, 0x42 is the PCR. */
  function ZeroEnts(k: nat): (e: Ents)
    ensures k == 0 ==> e[0] == Slot(0x30) && e[1] == Slot(0x41) && e[2] == Slot(0x42).(outPid := 0)
    ensures k > 0 ==> e[0] == Slot(0x31) && e[1] == Slot(0x42) && e[2] == PAD_SLOT
    ensures forall i :: 3 <= i < SLOTS ==> e[i] == PAD_SLOT
  {
    if k == 0 then SetOut(PairEnts(0), 2, 0) else PairEnts(1)[1 := Slot(0x42)]
  }

  function ZeroTable(): (t: Table)
    ensures |t| == 128
    ensures forall k :: 0 <= k < 128 ==> t[k] == ProgramOf(k == 0, ZeroEnts(k))
  {
    seq(128, k requires 0 <= k < 128 => ProgramOf(k == 0, ZeroEnts(k)))
  }

  lemma ZeroIns(k: nat, i: nat)
    requires k < 128 && i < SLOTS
    ensures Ins(ZeroTable(), k, i) == ZeroEnts(k)[i].inPid
    ensures if i == 0 then ZeroEnts(k)[i].inPid in {0x30, 0x31}
      else ZeroEnts(k)[i].inPid in {0x41, 0x42, PAD_PID as U16}
  {
  }

  lemma ZeroRoute(r: Route)
    requires r in RoutesOf(ZeroTable())
    ensures r.prog == 0 && r.slot < 3
    ensures r.outPid == (if r.slot == 0 then 0x30 else if r.slot == 1 then 0x41 else 0)
    ensures r.inPid == (if r.slot == 0 then 0x30 else if r.slot == 1 then 0x41 else 0x42)
  {
    assert IsRoute(ZeroTable(), r);
    assert r == RouteOf(0, ZeroEnts(0), r.slot);
  }

  lemma ZeroConsistent()
    ensures Consistent(TWO, ZeroTable())
  {
    var t := ZeroTable();
    forall k: nat, l: nat, i | k < 128 && l < 128 && 1 <= i < SLOTS ensures Ins(t, k, i) != Ins(t, l, 0) {
      ZeroIns(k, i);
      ZeroIns(l, 0);
    }
    forall k: nat | k < 128 ensures WellFormed(t[k].info.ents) {
      assert t[k].info.ents == ZeroEnts(k);
    }
    forall r, s | r in RoutesOf(t) && s in RoutesOf(t) ensures Compatible(r, s) && Sendable(r.outPid) {
      ZeroRoute(r);
      ZeroRoute(s);
    }
  }

  lemma ZeroCounts(n: nat)
    requires n <= PROGRAM_MAX
    ensures SelectedCount(ZeroTable()) == 1
    ensures ChannelCount(ZeroTable(), 0, n) <= SLOTS && ChannelCount(ZeroTable(), 1, n) == 0
  {
    hide SelectedCount, ChannelCount, MappedCount, ZeroEnts;
    var t, first := ZeroTable(), ProgramOf(true, ZeroEnts(0));
    var none := t[0 := ProgramOf(false, ZeroEnts(0))];
    assert t == none[0 := first];
    NoneCounted(none);
    NoneCountedInChannel(none, 0, n);
    NoneCountedInChannel(t, 1, n);
    SelectedCountUpdate(none, 0, first);
    ChannelCountUpdate(none, 0, first, 0, n);
    FewRows(ZeroEnts(0));
  }

  lemma ZeroNotForetold()
    ensures !Foretold(TWO, ZeroTable(), 1)
  {
    var t := ZeroTable();
    var data := RouteOf(0, ZeroEnts(0), 2);
    assert t[0].info.ents == ZeroEnts(0) && t[1].info.ents == ZeroEnts(1);
    assert IsRoute(t, data);
    ZeroConsistent();
    ApartSameOut(RoutesOf(t));
    OutInForce(RoutesOf(t), data);
  }

  lemma ZeroEnough()
    ensures Enough(TWO, ZeroTable(), 1, ZeroTable()[1])
  {
    hide SelectedCount, ChannelCount, Consistent, Enough, ZeroTable;
    ZeroConsistent();
    ZeroCounts(PROGRAM_MAX);
    SevenChannelsSuffice(TWO, ZeroTable(), 1, ZeroTable()[1]);
  }

  lemma ZeroAccepted()
    ensures PidsAccepted(ZeroEnts(1))
  {
    var e := ZeroEnts(1);
    forall i, j | 0 <= i < j < SLOTS ensures e[i].inPid == e[j].inPid <==> e[i].outPid == e[j].outPid {
    }
  }

  lemma ZeroAdmissible()
    ensures Admissible(TWO, ZeroTable(), 1, ZeroTable()[1])
  {
    hide SelectedCount, ChannelCount, MappedCount, PidsAccepted, ZeroEnts;
    ZeroCounts(PROGRAM_MAX);
    ZeroAccepted();
    FewRows(ZeroEnts(1));
    assert ZeroTable()[1].info.ents == ZeroEnts(1);
  }

  /** Automatic selection then finds PIDs enough and keeps the outputs apart, and yet commits
      a PCR that is sent to PID 0, which the PID check would not have let pass. */
  lemma PcrMayFollowToZero()
    ensures var t := ZeroTable();
      var (ok, u) := CheckAndSelect(TWO, t, 1, t[1], None);
      && Consistent(TWO, t) && PadsClear(t[1].info.ents) && Enough(TWO, t, 1, t[1])
      && ok && Consistent(TWO, u) && !PidsAccepted(u[1].info.ents)
  {
    hide Consistent, CheckAndSelect, Admissible, Enough, Foretold, PidsAccepted;
    ZeroConsistent();
    ZeroEnough();
    ZeroAdmissible();
    ZeroNotForetold();
    assert ZeroTable()[1].info.ents == ZeroEnts(1);
    AutomaticAllOrNothing(TWO, ZeroTable(), 1);
  }

  // ---- A read that is out of date -----------------------------------------------------------

  const THREE: Counts := [3, 0]

  /** Programs 1 and 2 are selected and share their PMT input 0x31, which is sent to 0x31 for the
      one and to 0x50 for the other; program 0 is not, and has its PCR in a data slot as well. */
  function StaleEnts(k: nat): (e: Ents)
    ensures e[0] == if k == 0 then Slot(0x30) else PidTrans(0, 0x31, if k == 1 then 0x31 else 0x50)
    ensures e[1] == Slot(if k == 0 then 0x41 else 0x42)
    ensures e[2] == if k == 0 then Slot(0x41) else PAD_SLOT
    ensures forall i :: 3 <= i < SLOTS ==> e[i] == PAD_SLOT
  {
    var s: seq<PidTrans> := [
      if k == 0 then Slot(0x30) else PidTrans(0, 0x31, if k == 1 then 0x31 else 0x50),
      Slot(if k == 0 then 0x41 else 0x42), if k == 0 then Slot(0x41) else PAD_SLOT] + seq(13, _ => PAD_SLOT);
    s
  }

  function StaleTable(): (t: Table)
    ensures |t| == 128
    ensures forall k :: 0 <= k < 128 ==> t[k] == ProgramOf(1 <= k < 3, StaleEnts(k))
  {
    seq(128, k requires 0 <= k < 128 => ProgramOf(1 <= k < 3, StaleEnts(k)))
  }

  /** The PCR was shown with output x; the user gives it to the data slot as well. */
  function StaleShown(x: U16): (e: Ents)
    ensures e[0] == Slot(0x30) && e[1] == Slot(0x41).(outPid := x) && e[2] == Slot(0x41)
    ensures forall i :: 3 <= i < SLOTS ==> e[i] == PAD_SLOT
  {
    SetOut(StaleEnts(0), 1, x)
  }

  function StaleEdit(x: U16): (e: Ents)
    ensures e[0] == Slot(0x30) && e[1] == Slot(0x41).(outPid := x) && e[2] == Slot(0x41).(outPid := x)
    ensures forall i :: 3 <= i < SLOTS ==> e[i] == PAD_SLOT
  {
    SetOut(StaleShown(x), 2, x)
  }

  lemma StaleIns(k: nat, i: nat)
    requires k < 128 && i < SLOTS
    ensures Ins(StaleTable(), k, i) == StaleEnts(k)[i].inPid
    ensures if i == 0 then StaleEnts(k)[i].inPid in {0x30, 0x31}
      else StaleEnts(k)[i].inPid in {0x41, 0x42, PAD_PID as U16}
  {
  }

  lemma StaleRoute(r: Route)
    requires r in RoutesOf(StaleTable())
    ensures 1 <= r.prog < 3 && r.slot < 2
    ensures r.inPid == if r.slot == 0 then 0x31 else 0x42
    ensures r.outPid == if r.slot == 1 then 0x42 else if r.prog == 1 then 0x31 else 0x50
  {
    assert IsRoute(StaleTable(), r);
    assert r == RouteOf(r.prog, StaleEnts(r.prog), r.slot);
  }

  lemma StaleSound()
    ensures Sound(THREE, StaleTable())
  {
    hide StaleTable;
    var t := StaleTable();
    forall k: nat, l: nat, i | k < 128 && l < 128 && 1 <= i < SLOTS ensures Ins(t, k, i) != Ins(t, l, 0) {
      StaleIns(k, i);
      StaleIns(l, 0);
    }
    forall k: nat | k < 128 ensures WellFormed(t[k].info.ents) {
      assert t[k].info.ents == StaleEnts(k);
    }
  }

  lemma StaleConsistent()
    ensures Consistent(THREE, StaleTable())
  {
    hide Sound, StaleTable, RoutesOf;
    var t := StaleTable();
    StaleSound();
    forall r, s | r in RoutesOf(t) && s in RoutesOf(t) ensures Compatible(r, s) && Sendable(r.outPid) {
      StaleRoute(r);
      StaleRoute(s);
    }
  }

  lemma StaleAccepted(x: U16)
    requires x in {0x31, 0x50}
    ensures PidsAccepted(StaleEdit(x)) && SameInputs(StaleEdit(x), StaleEnts(0))
  {
    var e := StaleEdit(x);
    forall i, j | 0 <= i < j < SLOTS ensures e[i].inPid == e[j].inPid <==> e[i].outPid == e[j].outPid {
    }
  }

  /** The PMT that has x for its output stands in the way of the data slot. */
  lemma StaleClash(x: U16)
    requires x in {0x31, 0x50}
    ensures Clash(RoutesOf(StaleTable()), 0, StaleEdit(x), 3, 2)
    ensures Clash(RoutesOf(StaleTable()), 0, StaleEdit(x), SLOTS, 2)
  {
    var k := if x == 0x31 then 1 else 2;
    var pmt := RouteOf(k, StaleEnts(k), 0);
    assert StaleTable()[k].info.ents == StaleEnts(k);
    assert IsRoute(StaleTable(), pmt);
    assert pmt.Pmt() && pmt.outPid == x;
  }

  lemma StaleFurther(x: U16)
    requires x in {0x31, 0x50}
    ensures FurtherPmt(RoutesOf(StaleTable()), x) <==> x == 0x50
  {
    var routes := RoutesOf(StaleTable());
    var first, second := RouteOf(1, StaleEnts(1), 0), RouteOf(2, StaleEnts(2), 0);
    assert StaleTable()[1].info.ents == StaleEnts(1) && StaleTable()[2].info.ents == StaleEnts(2);
    assert IsRoute(StaleTable(), first) && IsRoute(StaleTable(), second);
    if r, s :| r in routes && s in routes && r.Pmt() && s.Pmt() && s.prog < r.prog && s.Carries(r.Chan(), r.inPid) &&
               r.outPid == x {
      StaleRoute(r);
      StaleRoute(s);
    }
    assert first.prog < second.prog && first.Carries(second.Chan(), second.inPid) && second.outPid == 0x50;
  }

  lemma StaleBlocked(x: U16, i: nat)
    requires x in {0x31, 0x50} && i < SLOTS
    ensures Blocked(RoutesOf(StaleTable()), 0, StaleEdit(x), StaleShown(x), i) <==> i == 2 && x == 0x50
  {
    hide Clash, FurtherPmt, RoutesOf, StaleTable, StaleEdit, StaleShown;
    var e, shown := StaleEdit(x), StaleShown(x);
    StaleClash(x);
    StaleFurther(x);
    assert e[1].inPid == e[2].inPid;
    assert i < 2 ==> e[i] == shown[i];
  }

  lemma StaleClashes(x: U16)
    requires x in {0x31, 0x50}
    ensures !NoneClashes(RoutesOf(StaleTable()), 0, StaleEdit(x))
  {
    hide Clash, RoutesOf, StaleTable, StaleEdit;
    StaleClash(x);
    assert IsValidPid(StaleEdit(x)[2].inPid);
  }

  lemma StaleStart(x: U16)
    requires x in {0x31, 0x50}
    ensures var t, p := StaleTable(), ProgramOf(true, StaleEdit(x));
      && p.info.ents == StaleEdit(x) && SameInputs(p.info.ents, t[0].info.ents)
      && Deselect(t, 0) == t && Present(THREE, 0) && SLOTS == 16 && InputsFit(THREE, t, 0, p.info.ents)
  {
    hide InputsFit, Sound, PidsAccepted;
    StaleConsistent();
    StaleAccepted(x);
    SameInputsFit(THREE, StaleTable(), 0, StaleEdit(x));
  }

  lemma StaleStops(x: U16, at: nat)
    requires x in {0x31, 0x50} && FirstBlocked(RoutesOf(StaleTable()), 0, StaleEdit(x), StaleShown(x), at)
    ensures at == if x == 0x31 then 16 else 2
  {
    hide Blocked, StaleEdit, StaleShown, StaleTable, RoutesOf;
    forall i: nat | i < SLOTS
      ensures Blocked(RoutesOf(StaleTable()), 0, StaleEdit(x), StaleShown(x), i) <==> i == 2 && x == 0x50
    {
      StaleBlocked(x, i);
    }
    assert at < SLOTS ==> Blocked(RoutesOf(StaleTable()), 0, StaleEdit(x), StaleShown(x), at);
    assert x == 0x50 ==> Blocked(RoutesOf(StaleTable()), 0, StaleEdit(x), StaleShown(x), 2);
  }

  /** A read that is out of date lets the data slot take the output of another program's PMT,
      since its input was treated before, unless that PMT is on record as a further one. */
  lemma StaleReadCanClash(x: U16)
    requires x in {0x31, 0x50}
    ensures var t, p := StaleTable(), ProgramOf(true, StaleEdit(x));
      var (at, u) := Edit(THREE, t, 0, p.info.ents, StaleShown(x), 0);
      Consistent(THREE, t) && PidsAccepted(p.info.ents) && SameInputs(p.info.ents, t[0].info.ents) &&
      at == (if x == 0x31 then 16 else 2) && (at == 16 ==> !Consistent(THREE, Commit(u, 0, p)))
  {
    hide *;
    var t, p := StaleTable(), ProgramOf(true, StaleEdit(x));
    StaleConsistent();
    StaleAccepted(x);
    StaleStart(x);
    EditOutcome(THREE, t, 0, p, StaleShown(x));
    StaleStops(x, Edit(THREE, t, 0, p.info.ents, StaleShown(x), 0).0);
    StaleClashes(x);
  }
}
