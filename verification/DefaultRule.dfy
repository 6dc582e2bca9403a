/** The default outputs of a freshly parsed program (src/pid_map_rule.c,
    src/front_panel_psi_parse.c:75-94, 187-231, 352-375). */
module DefaultRule {
  import opened Pids

  const PROG_PID_BEGIN := 0x100
  const PER_CHAN := 0x200
  const PER_PROG := 0x10
  const DATA_MAX := 14

  const TYPE_PMT: U16 := 0x80
  const TYPE_PCR: U16 := 0x81
  const TYPE_PCR_VIDEO: U16 := 0x82
  const TYPE_PCR_AUDIO: U16 := 0x83
  const TYPE_PAD: U16 := 0x84

  /** An elementary stream of a PMT. */
  datatype Es = Es(kind: U16, pid: U16)

  function Window(chan: nat, prog: nat): nat {
    PROG_PID_BEGIN + chan * PER_CHAN + PER_PROG * prog
  }

  /** How many PIDs of the list are smaller. */
  function Below(pids: seq<U16>, pid: U16): (n: nat)
    ensures n <= |pids|
  {
    if pids == [] then 0 else Below(pids[..|pids| - 1], pid) + if pid > pids[|pids| - 1] then 1 else 0
  }

  function RuleOut(chan: nat, prog: nat, pmt: bool, inPid: U16, pids: seq<U16>): U16 {
    (Window(chan, prog) + if pmt then 0 else 1 + Below(pids, inPid)) % 0x10000
  }

  /** The rule: window base plus 0 for the PMT, plus rank for the others, in 16 bits. */
  method MapPsiPid(chan: nat, prog: nat, pmt: bool, inPid: U16, pids: seq<U16>) returns (out: U16)
    ensures out == RuleOut(chan, prog, pmt, inPid, pids)
  {
    var offset := 0;
    if !pmt {
      offset := 1;
      for i := 0 to |pids|
        invariant offset == 1 + Below(pids[..i], inPid)
      {
        assert pids[..i + 1][..i] == pids[..i];
        if inPid > pids[i] {
          offset := offset + 1;
        }
      }
      assert pids[..|pids|] == pids;
    }
    out := (PROG_PID_BEGIN + chan * PER_CHAN + PER_PROG * prog + offset) % 0x10000;
  }

  /** The PCR and the streams that are not the PCR. */
  function Scanned(pcr: U16, es: seq<Es>): (pids: seq<U16>)
    ensures 1 <= |pids| <= |es| + 1 && pids[0] == pcr
    ensures forall i :: 0 <= i < |es| ==> es[i].pid in pids
  {
    if es == [] then [pcr]
    else
      var last := es[|es| - 1].pid;
      Scanned(pcr, es[..|es| - 1]) + if last == pcr then [] else [last]
  }

  method ScanProgramPids(pcr: U16, es: seq<Es>) returns (pids: seq<U16>)
    ensures pids == Scanned(pcr, es)
  {
    pids := [pcr];
    for i := 0 to |es|
      invariant pids == Scanned(pcr, es[..i])
    {
      assert es[..i + 1][..i] == es[..i];
      if es[i].pid != pcr {
        pids := pids + [es[i].pid];
      }
    }
    assert es[..|es|] == es;
  }

  // ---- The rule keeps order ----------------------------------------------------------------------

  lemma {:induction false} BelowGrows(pids: seq<U16>, a: U16, b: U16)
    requires a < b
    ensures Below(pids, a) <= Below(pids, b)
    ensures a in pids ==> Below(pids, a) < Below(pids, b)
  {
    if pids != [] {
      var n := |pids| - 1;
      BelowGrows(pids[..n], a, b);
      assert pids == pids[..n] + [pids[n]];
    }
  }

  lemma {:induction false} BelowSelf(pids: seq<U16>, a: U16)
    requires a in pids
    ensures Below(pids, a) < |pids|
  {
    var n := |pids| - 1;
    assert pids == pids[..n] + [pids[n]];
    if a != pids[n] {
      BelowSelf(pids[..n], a);
    }
  }

  /** Scanned inputs get outputs of the window in the order of the inputs: places 1 to 15,
      different ones exactly for different inputs. */
  lemma RuleKeepsOrder(pcr: U16, es: seq<Es>, a: U16, b: U16)
    requires |es| <= DATA_MAX && a in Scanned(pcr, es) && b in Scanned(pcr, es)
    ensures var pids := Scanned(pcr, es);
      && (a < b <==> Below(pids, a) < Below(pids, b)) && (a == b <==> Below(pids, a) == Below(pids, b))
      && 1 + Below(pids, a) < PER_PROG
  {
    var pids := Scanned(pcr, es);
    BelowSelf(pids, a);
    if a < b {
      BelowGrows(pids, a, b);
    } else if b < a {
      BelowGrows(pids, b, a);
    }
  }

  /** The streams among the first n that have a smaller PID and are not the PCR. */
  ghost function Smaller(pcr: U16, es: seq<Es>, n: nat, pid: U16): set<nat>
    requires n <= |es|
  {
    set i: nat | i < n && es[i].pid != pcr && es[i].pid < pid
  }

  lemma SmallerMore(pcr: U16, es: seq<Es>, n: nat, pid: U16)
    requires n <= |es|
    ensures |Smaller(pcr, es, n, pid)| ==
      if n == 0 then 0
      else |Smaller(pcr, es, n - 1, pid)| + if es[n - 1].pid != pcr && es[n - 1].pid < pid then 1 else 0
  {
    if n == 0 {
      assert Smaller(pcr, es, n, pid) == {};
    } else {
      assert Smaller(pcr, es, n, pid) ==
        Smaller(pcr, es, n - 1, pid) + if es[n - 1].pid != pcr && es[n - 1].pid < pid then {n - 1} else {};
    }
  }

  /** They and a smaller PCR make up the rank of a PID. */
  lemma {:induction false} RankIs(pcr: U16, es: seq<Es>, n: nat, pid: U16)
    requires n <= |es|
    ensures Below(Scanned(pcr, es[..n]), pid) == |Smaller(pcr, es, n, pid)| + if pcr < pid then 1 else 0
  {
    hide Scanned, Below, Smaller;
    SmallerMore(pcr, es, n, pid);
    if n == 0 {
      ScannedNone(pcr, es[..n]);
      BelowMore([], pcr, pid);
      assert Below([], pid) == 0 && [] + [pcr] == [pcr];
    } else {
      RankIs(pcr, es, n - 1, pid);
      ScannedMore(pcr, es, n);
      var last := es[n - 1].pid;
      BelowMore(Scanned(pcr, es[..n - 1]), last, pid);
    }
  }

  lemma BelowMore(pids: seq<U16>, last: U16, pid: U16)
    ensures Below(pids + [last], pid) == Below(pids, pid) + if last < pid then 1 else 0
  {
    assert (pids + [last])[..|pids|] == pids;
  }

  lemma ScannedNone(pcr: U16, es: seq<Es>)
    requires es == []
    ensures Scanned(pcr, es) == [pcr]
  {
  }

  lemma ScannedMore(pcr: U16, es: seq<Es>, n: nat)
    requires 0 < n <= |es|
    ensures Scanned(pcr, es[..n]) ==
      if es[n - 1].pid == pcr then Scanned(pcr, es[..n - 1]) else Scanned(pcr, es[..n - 1]) + [es[n - 1].pid]
  {
    assert es[..n][..n - 1] == es[..n - 1];
  }

  /** The places of a PID among the first n streams. */
  ghost function Places(es: seq<Es>, n: nat, pid: U16): set<nat>
    requires n <= |es|
  {
    set i: nat | i < n && es[i].pid == pid
  }

  lemma PlacesMore(es: seq<Es>, n: nat, pid: U16)
    requires n <= |es|
    ensures |Places(es, n, pid)| ==
      if n == 0 then 0 else |Places(es, n - 1, pid)| + if es[n - 1].pid == pid then 1 else 0
  {
    if n == 0 {
      assert Places(es, n, pid) == {};
    } else {
      assert Places(es, n, pid) == Places(es, n - 1, pid) + if es[n - 1].pid == pid then {n - 1} else {};
    }
  }

  /** The PCR is scanned once, and every other stream as often as the PMT lists it. */
  lemma {:induction false} ScannedOnce(pcr: U16, es: seq<Es>, n: nat, pid: U16)
    requires n <= |es|
    ensures multiset(Scanned(pcr, es[..n]))[pid] == if pid == pcr then 1 else |Places(es, n, pid)|
  {
    hide Scanned, Places;
    if n == 0 {
      ScannedNone(pcr, es[..n]);
      PlacesMore(es, n, pid);
    } else {
      ScannedOnce(pcr, es, n - 1, pid);
      ScannedMore(pcr, es, n);
      PlacesMore(es, n, pid);
    }
  }

  // ---- A parsed program -----------------------------------------------------------------------------

  function Clipped(es: seq<Es>): seq<Es> {
    if |es| > DATA_MAX then es[..DATA_MAX] else es
  }

  predicate IsVideo(kind: U16) {
    kind in {0x01, 0x02, 0x1b}
  }

  /** The PCR's type, set by the last stream that carries it. */
  function PcrKind(pcr: U16, es: seq<Es>): U16 {
    if es == [] then TYPE_PCR
    else
      var last := es[|es| - 1];
      if last.pid == pcr then if IsVideo(last.kind) then TYPE_PCR_VIDEO else TYPE_PCR_AUDIO
      else PcrKind(pcr, es[..|es| - 1])
  }

  /** It is a PCR alone, or one in a video or other stream, as the last stream i says that has it. */
  lemma {:induction false} PcrKindIs(pcr: U16, es: seq<Es>, i: nat)
    requires i <= |es| && (forall j :: i <= j < |es| ==> es[j].pid != pcr) && (i > 0 ==> es[i - 1].pid == pcr)
    ensures PcrKind(pcr, es) ==
      if i == 0 then 0x81 else if es[i - 1].kind in {0x01, 0x02, 0x1b} then 0x82 else 0x83
  {
    if i < |es| {
      PcrKindIs(pcr, es[..|es| - 1], i);
    }
  }

  function OutOf(chan: nat, prog: nat, pcr: U16, es: seq<Es>, pid: U16): U16 {
    RuleOut(chan, prog, false, pid, Scanned(pcr, es))
  }

  const PAD := PidTrans(TYPE_PAD, PAD_PID, PAD_PID)

  /** What slot i of the program holds afterwards. */
  function ParsedSlot(chan: nat, prog: nat, pmt: U16, pcr: U16, es: seq<Es>, i: nat): PidTrans
    requires i < SLOTS && |es| <= DATA_MAX
  {
    if i == 0 then PidTrans(TYPE_PMT, pmt, RuleOut(chan, prog, true, pmt, []))
    else if i == 1 then PidTrans(PcrKind(pcr, es), pcr, OutOf(chan, prog, pcr, es, pcr))
    else if i - 2 < |es| then PidTrans(es[i - 2].kind, es[i - 2].pid, OutOf(chan, prog, pcr, es, es[i - 2].pid))
    else PAD
  }

  ghost predicate IsParsed(e: seq<PidTrans>, chan: nat, prog: nat, pmt: U16, pcr: U16, es: seq<Es>)
    requires |es| <= DATA_MAX
  {
    |e| == SLOTS && forall i :: 0 <= i < SLOTS ==> e[i] == ParsedSlot(chan, prog, pmt, pcr, es, i)
  }

  /** The slots after the first j streams. */
  ghost predicate ParsedUpTo(e: seq<PidTrans>, chan: nat, prog: nat, pmt: U16, pcr: U16, es: seq<Es>, j: nat)
    requires j <= |es| <= DATA_MAX
  {
    && |e| == SLOTS && e[0] == ParsedSlot(chan, prog, pmt, pcr, es, 0)
    && e[1] == PidTrans(PcrKind(pcr, es[..j]), pcr, OutOf(chan, prog, pcr, es, pcr))
    && (forall i :: 2 <= i < j + 2 ==> e[i] == ParsedSlot(chan, prog, pmt, pcr, es, i))
    && (forall i :: j + 2 <= i < SLOTS ==> e[i] == PAD)
  }

  /** One stream: its own output, or the PCR's, whose type it then decides. */
  method ParseStream(chan: nat, prog: nat, ghost pmt: U16, pcr: U16, es: seq<Es>, pids: seq<U16>, j: nat,
      e: array<PidTrans>)
    requires j < |es| <= DATA_MAX && pids == Scanned(pcr, es) && ParsedUpTo(e[..], chan, prog, pmt, pcr, es, j)
    modifies e
    ensures ParsedUpTo(e[..], chan, prog, pmt, pcr, es, j + 1)
  {
    hide RuleOut, Scanned;
    assert es[..j + 1][..j] == es[..j];
    if es[j].pid != pcr {
      var out := MapPsiPid(chan, prog, false, es[j].pid, pids);
      e[j + 2] := PidTrans(es[j].kind, es[j].pid, out);
    } else {
      e[j + 2] := PidTrans(es[j].kind, es[j].pid, e[1].outPid);
      e[1] := e[1].(kind := if IsVideo(es[j].kind) then TYPE_PCR_VIDEO else TYPE_PCR_AUDIO);
    }
  }

  /** Fills the cleared slots of a program from its PMT. */
  method ParseProgram(chan: nat, prog: nat, pmt: U16, pcr: U16, es0: seq<Es>, e: array<PidTrans>)
    requires e.Length == SLOTS && e[0].kind == TYPE_PMT && forall i :: 2 <= i < SLOTS ==> e[i] == PAD
    modifies e
    ensures IsParsed(e[..], chan, prog, pmt, pcr, Clipped(es0))
  {
    hide RuleOut, Scanned;
    var es := if |es0| > DATA_MAX then es0[..DATA_MAX] else es0;
    var out := MapPsiPid(chan, prog, true, pmt, []);
    e[0] := PidTrans(e[0].kind, pmt, out);
    var pids := ScanProgramPids(pcr, es);
    out := MapPsiPid(chan, prog, false, pcr, pids);
    e[1] := PidTrans(TYPE_PCR, pcr, out);
    for j := 0 to |es|
      invariant ParsedUpTo(e[..], chan, prog, pmt, pcr, es, j)
    {
      ParseStream(chan, prog, pmt, pcr, es, pids, j, e);
    }
    assert es[..|es|] == es;
  }

  /** The slots in numbers: PMT and PCR, the first 14 streams in order, then pads. */
  lemma ParsedIs(e: Ents, chan: nat, prog: nat, pmt: U16, pcr: U16, es0: seq<Es>)
    requires IsParsed(e, chan, prog, pmt, pcr, Clipped(es0))
    ensures var es := if |es0| > 14 then es0[..14] else es0;
      && e[0] == PidTrans(0x80, pmt, (0x100 + 0x200 * chan + 0x10 * prog) % 0x10000) && e[1].inPid == pcr
      && (forall i :: 0 <= i < |es| ==> e[i + 2].kind == es[i].kind && e[i + 2].inPid == es[i].pid)
      && (forall i :: |es| + 2 <= i < 16 ==> e[i] == PidTrans(0x84, 0x0F, 0x0F))
  {
    hide Below, Scanned, PcrKind;
    var es := Clipped(es0);
    forall i | 0 <= i < |es| ensures e[i + 2].kind == es[i].kind && e[i + 2].inPid == es[i].pid {
      assert e[i + 2] == ParsedSlot(chan, prog, pmt, pcr, es, i + 2);
    }
  }

  /** PCR and streams are sent to the place among the program's outputs that their rank says. */
  lemma ParsedPlace(e: Ents, chan: nat, prog: nat, pmt: U16, pcr: U16, es: seq<Es>, i: nat)
    requires |es| <= DATA_MAX && IsParsed(e, chan, prog, pmt, pcr, es) && 1 <= i < |es| + 2
    ensures var smaller := set j: nat | j < |es| && es[j].pid != pcr && es[j].pid < e[i].inPid;
      e[i].outPid ==
      (0x100 + 0x200 * chan + 0x10 * prog + 1 + |smaller| + if pcr < e[i].inPid then 1 else 0) % 0x10000
  {
    hide Below, Scanned, PcrKind;
    RankIs(pcr, es, |es|, e[i].inPid);
    assert es[..|es|] == es;
    assert e[i] == ParsedSlot(chan, prog, pmt, pcr, es, i);
    assert Smaller(pcr, es, |es|, e[i].inPid) ==
      set j: nat | j < |es| && es[j].pid != pcr && es[j].pid < e[i].inPid;
  }

  /** The PMT is none of the other PIDs, and where pads are left none of the inputs is the pad value. */
  predicate Separate(pmt: U16, pcr: U16, es: seq<Es>) {
    && pmt != pcr && (forall i :: 0 <= i < |es| ==> es[i].pid != pmt)
    && (|es| < DATA_MAX ==> pmt != PAD_PID && pcr != PAD_PID && forall i :: 0 <= i < |es| ==> es[i].pid != PAD_PID)
  }

  lemma SlotsOfParsed(chan: nat, prog: nat, pmt: U16, pcr: U16, es: seq<Es>, i: nat)
    requires chan < 8 && prog < PROGRAM_MAX && i < SLOTS && |es| <= DATA_MAX
    ensures var s := ParsedSlot(chan, prog, pmt, pcr, es, i);
      && (i < |es| + 2 ==> Window(chan, prog) <= s.outPid < Window(chan, prog) + PER_PROG && IsValidPid(s.outPid))
      && (i == 0 <==> s.outPid == Window(chan, prog))
      && (0 < i < |es| + 2 ==>
        s.inPid in Scanned(pcr, es) && s.outPid == Window(chan, prog) + 1 + Below(Scanned(pcr, es), s.inPid))
  {
    hide RuleOut, Scanned;
    if i == 0 {
      RuleInRange(chan, prog, true, pmt, []);
    } else if i < |es| + 2 {
      var pid := ParsedSlot(chan, prog, pmt, pcr, es, i).inPid;
      RuleKeepsOrder(pcr, es, pid, pid);
      RuleInRange(chan, prog, false, pid, Scanned(pcr, es));
    }
  }

  /** No wrap-around for the channels and programs there are. */
  lemma RuleInRange(chan: nat, prog: nat, pmt: bool, pid: U16, pids: seq<U16>)
    requires chan < 8 && prog < PROGRAM_MAX && 1 + Below(pids, pid) < PER_PROG
    ensures RuleOut(chan, prog, pmt, pid, pids) == Window(chan, prog) + if pmt then 0 else 1 + Below(pids, pid)
    ensures 0x100 <= Window(chan, prog) && Window(chan, prog) + PER_PROG < NULL_PID
  {
  }

  /** A freshly parsed program passes the PID check exactly if its PMT PID is separate. */
  lemma ParsedAccepted(e: Ents, chan: nat, prog: nat, pmt: U16, pcr: U16, es: seq<Es>)
    requires chan < 8 && prog < PROGRAM_MAX && |es| <= DATA_MAX && IsParsed(e, chan, prog, pmt, pcr, es)
    ensures PidsAccepted(e) <==> Separate(pmt, pcr, es)
  {
    forall i | 0 <= i < SLOTS ensures e[i] == ParsedSlot(chan, prog, pmt, pcr, es, i) {
      SlotsOfParsed(chan, prog, pmt, pcr, es, i);
    }
    OutputsOfParsed(e, chan, prog, pmt, pcr, es);
    if Separate(pmt, pcr, es) {
      forall i, j | 0 <= i < j < SLOTS ensures e[i].inPid == e[j].inPid <==> e[i].outPid == e[j].outPid {
        SlotPair(e, chan, prog, pmt, pcr, es, i, j);
      }
    } else if SlotsAgree(e) {
      SeparateIfAgree(e, chan, prog, pmt, pcr, es);
    }
  }

  lemma OutputsOfParsed(e: Ents, chan: nat, prog: nat, pmt: U16, pcr: U16, es: seq<Es>)
    requires chan < 8 && prog < PROGRAM_MAX && |es| <= DATA_MAX && IsParsed(e, chan, prog, pmt, pcr, es)
    ensures OutputsInRange(e)
  {
    forall i | 0 <= i < SLOTS ensures i < |es| + 2 ==> IsValidPid(e[i].outPid) {
      SlotsOfParsed(chan, prog, pmt, pcr, es, i);
    }
  }

  lemma SlotPair(e: Ents, chan: nat, prog: nat, pmt: U16, pcr: U16, es: seq<Es>, i: nat, j: nat)
    requires chan < 8 && prog < PROGRAM_MAX && |es| <= DATA_MAX && IsParsed(e, chan, prog, pmt, pcr, es)
    requires i < j < SLOTS && Separate(pmt, pcr, es)
    ensures e[i].inPid == e[j].inPid <==> e[i].outPid == e[j].outPid
  {
    SlotsOfParsed(chan, prog, pmt, pcr, es, i);
    SlotsOfParsed(chan, prog, pmt, pcr, es, j);
    if 0 < i && j < |es| + 2 {
      RuleKeepsOrder(pcr, es, e[i].inPid, e[j].inPid);
    }
  }

  lemma SeparateIfAgree(e: Ents, chan: nat, prog: nat, pmt: U16, pcr: U16, es: seq<Es>)
    requires chan < 8 && prog < PROGRAM_MAX && |es| <= DATA_MAX && IsParsed(e, chan, prog, pmt, pcr, es)
    requires SlotsAgree(e)
    ensures Separate(pmt, pcr, es)
  {
    forall i | 0 <= i < |es| + 2
      ensures (0 < i ==> e[0].inPid != e[i].inPid) && (|es| < DATA_MAX ==> e[i].inPid != PAD_PID)
    {
      SlotsOfParsed(chan, prog, pmt, pcr, es, 0);
      SlotsOfParsed(chan, prog, pmt, pcr, es, i);
      if |es| < DATA_MAX {
        assert e[SLOTS - 1] == PAD;
        assert e[i].inPid == e[SLOTS - 1].inPid <==> e[i].outPid == e[SLOTS - 1].outPid;
      }
    }
    assert e[0].inPid == pmt && e[1].inPid == pcr;
    forall i | 0 <= i < |es| ensures es[i].pid != pmt && (|es| < DATA_MAX ==> es[i].pid != PAD_PID) {
      assert e[i + 2].inPid == es[i].pid;
    }
  }

  /** With valid PIDs it is a well-formed program, as the allocator expects it. */
  lemma ParsedWellFormed(e: Ents, chan: nat, prog: nat, pmt: U16, pcr: U16, es: seq<Es>)
    requires |es| <= DATA_MAX && IsParsed(e, chan, prog, pmt, pcr, es)
    requires IsValidPid(pmt) && IsValidPid(pcr) && forall i :: 0 <= i < |es| ==> IsValidPid(es[i].pid)
    ensures WellFormed(e)
  {
    forall i | 0 <= i < SLOTS ensures if i < |es| + 2 then IsValidPid(e[i].inPid) else e[i].inPid == PAD_PID {
      assert e[i] == ParsedSlot(chan, prog, pmt, pcr, es, i);
    }
  }

  /** The outputs of two programs can meet exactly if their windows are the same one, which
      happens only when a channel has more than 32 programs. */
  lemma WindowsDisjoint(c: nat, p: nat, d: nat, q: nat, x: nat, y: nat)
    requires x < PER_PROG && y < PER_PROG
    ensures Window(c, p) + x == Window(d, q) + y <==> 32 * c + p == 32 * d + q && x == y
    ensures p < 32 && q < 32 ==> (32 * c + p == 32 * d + q <==> c == d && p == q)
  {
  }

  predicate ChannelOutputPidValidate(chan: nat, pid: nat) {
    PROG_PID_BEGIN + chan * PER_CHAN <= pid < PROG_PID_BEGIN + (chan + 1) * PER_CHAN
  }

  /** From 0x100 on every PID belongs to one channel, 0x200 of them to each. */
  lemma ChannelOfPid(chan: nat, pid: nat)
    ensures ChannelOutputPidValidate(chan, pid) <==> pid >= 0x100 && (pid - 0x100) / 0x200 == chan
  {
  }

  /** A window lies in the range of its channel exactly for the first 32 programs. */
  lemma WindowInChannel(chan: nat, prog: nat)
    ensures (forall pid: nat :: Window(chan, prog) <= pid < Window(chan, prog) + PER_PROG ==>
      ChannelOutputPidValidate(chan, pid))
      <==> prog < 32
  {
    if prog >= 32 {
      assert !ChannelOutputPidValidate(chan, Window(chan, prog));
    }
  }
}
