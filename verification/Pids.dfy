/** Programs, their PID slots and the checks made before a program is selected
    (src/program_pid_validater.c, include/xmux.h, src/front_panel_intstr.h). */
module Pids {
  const NULL_PID := 0x1FFF
  const PID_MIN := 0x20
  const PAD_PID := 0x0F
  const PROGRAM_MAX := 64
  const SLOTS := 16
  const CHAN_ROWS := 32

  type U16 = x: int | 0 <= x < 0x10000

  /** One row of the PID translation table of a program. */
  datatype PidTrans = PidTrans(kind: U16, inPid: U16, outPid: U16)

  /** Slot 0 is the PMT, slot 1 the PCR, slots 2..15 the data PIDs. */
  type Ents = s: seq<PidTrans> | |s| == SLOTS witness seq(16, i => PidTrans(0, 0, 0))

  datatype Info = Info(progNum: U16, ents: Ents, names: seq<string>)

  datatype Prog = Prog(selected: bool, scrambled: bool, info: Info)

  predicate IsValidPid(pid: int) {
    PID_MIN <= pid < NULL_PID
  }

  /** The slots in use form a prefix that holds at least the PMT; the others are pads. */
  predicate WellFormed(e: Ents) {
    && IsValidPid(e[0].inPid)
    && (forall i, j :: 0 <= i < j < SLOTS && IsValidPid(e[j].inPid) ==> IsValidPid(e[i].inPid))
    && (forall i :: 0 <= i < SLOTS && !IsValidPid(e[i].inPid) ==> e[i].inPid == PAD_PID)
  }

  /** The first n slots have inputs from 0x20 to 0x1FFE, and the rest 0x0F. */
  predicate Prefix(e: Ents, n: nat) {
    && n <= 16 && (forall i :: 0 <= i < n ==> 0x20 <= e[i].inPid < 0x1FFF)
    && forall i :: n <= i < 16 ==> e[i].inPid == 0x0F
  }

  lemma WellFormedIs(e: Ents)
    ensures WellFormed(e) <==> exists n: nat :: 1 <= n && Prefix(e, n)
  {
    if WellFormed(e) {
      var n := 1;
      while n < 16 && IsValidPid(e[n].inPid)
        invariant 1 <= n <= 16 && forall i :: 0 <= i < n ==> IsValidPid(e[i].inPid)
      {
        n := n + 1;
      }
      PadsBehind(e, n);
    }
    if n: nat :| 1 <= n && Prefix(e, n) {
      forall i, j | 0 <= i < j < SLOTS && IsValidPid(e[j].inPid) ensures IsValidPid(e[i].inPid) {
        assert j < n;
      }
    }
  }

  lemma PadsBehind(e: Ents, n: nat)
    requires WellFormed(e) && n <= SLOTS && (n < SLOTS ==> !IsValidPid(e[n].inPid))
    requires forall i :: 0 <= i < n ==> IsValidPid(e[i].inPid)
    ensures Prefix(e, n)
  {
    forall i | n <= i < SLOTS ensures e[i].inPid == PAD_PID {
      assert !IsValidPid(e[i].inPid);
    }
  }

  predicate SameInputs(a: Ents, b: Ents) {
    forall i :: 0 <= i < SLOTS ==> a[i].inPid == b[i].inPid
  }

  /** What the pair of nested loops accepts: equal inputs exactly where outputs are equal. */
  predicate SlotsAgree(e: Ents) {
    forall i, j :: 0 <= i < j < SLOTS ==> (e[i].inPid == e[j].inPid <==> e[i].outPid == e[j].outPid)
  }

  predicate OutputsInRange(e: Ents) {
    && IsValidPid(e[0].outPid) && IsValidPid(e[1].outPid)
    && forall i :: 2 <= i < SLOTS ==> e[i].outPid in {PAD_PID, 0} || IsValidPid(e[i].outPid)
  }

  /** The whole of the PID check on one program. */
  predicate PidsAccepted(e: Ents) {
    OutputsInRange(e) && SlotsAgree(e)
  }

  datatype Verdict = PidValid | PidValueError | PidOtherOther

  method ValidProgramPids(e: Ents) returns (v: Verdict)
    ensures v == PidValid <==> PidsAccepted(e)
    ensures v == PidValueError <==>
      !forall i :: 0 <= i < 16 ==> 0x20 <= e[i].outPid < 0x1FFF || (i >= 2 && e[i].outPid in {0, 0x0F})
    ensures v == PidOtherOther ==>
      exists i, j :: 0 <= i < j < 16 && (e[i].inPid == e[j].inPid <==> e[i].outPid != e[j].outPid)
    ensures v == PidValid ==>
      forall i, j :: 0 <= i < j < 16 ==> (e[i].inPid == e[j].inPid <==> e[i].outPid == e[j].outPid)
  {
    if !IsValidPid(e[0].outPid) || !IsValidPid(e[1].outPid) {
      return PidValueError;
    }
    for i := 0 to SLOTS - 2
      invariant forall k :: 2 <= k < i + 2 ==> e[k].outPid in {PAD_PID, 0} || IsValidPid(e[k].outPid)
    {
      var outPid := e[i + 2].outPid;
      if outPid != PAD_PID && outPid != 0 && !IsValidPid(outPid) {
        return PidValueError;
      }
    }
    for i := 0 to SLOTS
      invariant forall k, j :: 0 <= k < i && k < j < SLOTS ==>
        (e[k].inPid == e[j].inPid <==> e[k].outPid == e[j].outPid)
    {
      for j := i + 1 to SLOTS
        invariant forall k :: i < k < j ==> (e[i].inPid == e[k].inPid <==> e[i].outPid == e[k].outPid)
      {
        if e[i].inPid == e[j].inPid {
          if e[i].outPid != e[j].outPid {
            return PidOtherOther;
          }
        } else if e[i].outPid == e[j].outPid {
          return PidOtherOther;
        }
      }
    }
    return PidValid;
  }

  /** A data slot that occupies a row of the mapping table beside the PCR's. */
  predicate OwnRow(e: Ents, i: nat)
    requires i < SLOTS
  {
    e[1].inPid != e[i].inPid && IsValidPid(e[i].inPid)
  }

  /** The counted slots below `to`: the PCR and the data slots with a row of their own. */
  function RowSlots(e: Ents, to: nat): (s: set<nat>)
    requires 2 <= to <= SLOTS
    ensures forall i: nat ::
      i in s <==> i == 1 || (2 <= i < to && e[i].inPid != e[1].inPid && 0x20 <= e[i].inPid < 0x1FFF)
  {
    if to == 2 then {1} else RowSlots(e, to - 1) + if OwnRow(e, to - 1) then {to - 1} else {}
  }

  function MappedCount(e: Ents): nat {
    |RowSlots(e, SLOTS)|
  }

  /** The count is one for the PCR, in use or not, and one for every data slot in use whose
      input is not the PCR's. */
  lemma MappedCountIs(e: Ents)
    ensures var data := set i: nat | 2 <= i < 16 && e[i].inPid != e[1].inPid && 0x20 <= e[i].inPid < 0x1FFF;
      MappedCount(e) == 1 + |data|
  {
    var data := set i: nat | 2 <= i < 16 && e[i].inPid != e[1].inPid && 0x20 <= e[i].inPid < 0x1FFF;
    assert RowSlots(e, SLOTS) == {1} + data;
  }

  lemma FirstRow(e: Ents)
    ensures RowSlots(e, 2) == {1}
  {
  }

  lemma OneMoreRow(e: Ents, to: nat)
    requires 2 <= to < SLOTS
    ensures |RowSlots(e, to + 1)| == |RowSlots(e, to)| + if OwnRow(e, to) then 1 else 0
  {
    assert to !in RowSlots(e, to);
  }

  method ProgramMappedPidCount(e: Ents) returns (n: nat)
    ensures n == MappedCount(e)
    ensures n == 1 + |set i: nat | 2 <= i < 16 && e[i].inPid != e[1].inPid && 0x20 <= e[i].inPid < 0x1FFF|
  {
    hide RowSlots;
    MappedCountIs(e);
    assert |RowSlots(e, 2)| == 1 by { FirstRow(e); }
    n := 1;
    for j := 0 to SLOTS - 2
      invariant n == |RowSlots(e, j + 2)|
    {
      var inPid := e[j + 2].inPid;
      if e[1].inPid != inPid && IsValidPid(inPid) {
        n := n + 1;
      }
      OneMoreRow(e, j + 2);
    }
  }

  /** Every non-PMT input of a program is the input of one of its counted slots. */
  lemma RowSlotsCoverInputs(e: Ents, i: nat)
    requires 1 <= i < SLOTS && IsValidPid(e[i].inPid)
    ensures exists j :: j in RowSlots(e, SLOTS) && e[j].inPid == e[i].inPid
  {
    if e[i].inPid == e[1].inPid {
      assert 1 in RowSlots(e, SLOTS);
    } else {
      assert i in RowSlots(e, SLOTS);
    }
  }
}
