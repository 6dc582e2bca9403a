/** Generating the PSI area from the sections a manager has set, and reading sections back
    out of it (src/psi_gen.c:24-115, src/output_psi_data.c:67-88, 196-246). */
module PsiGen {
  import opened Bytes
  import opened Sections
  import opened OutputPsi
  import opened Buckets

  const PAT_PID := 0x00
  const CAT_PID := 0x01
  const NIT_PID := 0x10
  const SDT_PID := 0x11
  const SECTION_MAX := 1024
  const TS_BUFFER := PACKET * 7

  /** A section that may be sent, and whether its flag is set. */
  datatype Candidate = Candidate(on: bool, section: seq<Byte>, pid: nat)

  /** What a manager asks for. */
  datatype Request = Request(
    pat: Candidate, pmts: seq<Candidate>, cat: Candidate, sdts: seq<Candidate>, nit: Candidate)

  /** Tables have their fixed PIDs, a PMT any; sections come out of buffers of 1024 bytes. */
  predicate RequestFits(r: Request) {
    && r.pat.pid == PAT_PID && r.cat.pid == CAT_PID && r.nit.pid == NIT_PID
    && (forall c :: c in r.sdts ==> c.pid == SDT_PID)
    && (forall k, c :: 0 <= k < TYPES && c in Candidates(r, k) ==> |c.section| <= SECTION_MAX && c.pid < 0x2000)
  }

  /** The sections tried for a type, in order. */
  function Candidates(r: Request, k: nat): seq<Candidate> {
    match k
    case 0 => [r.pat]
    case 1 => r.pmts
    case 2 => [r.cat]
    case 3 => r.sdts
    case 4 => [r.nit]
    case _ => []
  }

  /** Those whose flag is set. */
  function Chosen(cs: seq<Candidate>): seq<PidSection> {
    if cs == [] then []
    else
      var n := |cs| - 1;
      Chosen(cs[..n]) + if cs[n].on then [PidSection(cs[n].section, cs[n].pid)] else []
  }

  /** One filling for every section, the counter running on from zero within the type. */
  function FillsOf(k: PsiType, secs: seq<PidSection>): seq<Filling> {
    if secs == [] then []
    else
      var n := |secs| - 1;
      var cc := |PackAll(secs[..n])| % 16;
      FillsOf(k, secs[..n]) + [Filling(k, Packets(secs[n].section, 0, secs[n].pid, cc))]
  }

  /** The fillings for a type. */
  function Part(r: Request, k: PsiType): seq<Filling> {
    FillsOf(k, Chosen(Candidates(r, k)))
  }

  function GeneratedParts(r: Request): (parts: seq<seq<Filling>>)
    ensures |parts| == TYPES && forall k :: 0 <= k < TYPES ==> parts[k] == Part(r, k)
  {
    seq(TYPES, k requires 0 <= k < TYPES => Part(r, k))
  }

  function Concat(parts: seq<seq<Filling>>): seq<Filling> {
    if parts == [] then [] else Concat(parts[..|parts| - 1]) + parts[|parts| - 1]
  }

  /** All fillings, in the order in which they are made. */
  function GeneratedFills(r: Request): seq<Filling> {
    Concat(GeneratedParts(r))
  }

  function GeneratedArea(r: Request): Area {
    FillAll(GeneratedFills(r))
  }

  // ---- What is generated -----------------------------------------------------------------------

  lemma {:induction false} FillsOfType(k: PsiType, secs: seq<PidSection>)
    ensures forall f :: f in FillsOf(k, secs) ==> f.psiType == k
  {
    if secs != [] {
      FillsOfType(k, secs[..|secs| - 1]);
    }
  }

  predicate PartsByType(parts: seq<seq<Filling>>) {
    forall k :: 0 <= k < |parts| ==> forall f :: f in parts[k] ==> f.psiType == k
  }

  lemma {:induction false} PartsInOrder(parts: seq<seq<Filling>>)
    requires PartsByType(parts)
    ensures InOrder(Concat(parts)) && forall f :: f in Concat(parts) ==> f.psiType < |parts|
  {
    if parts != [] {
      var n := |parts| - 1;
      PartsInOrder(parts[..n]);
      var before, now := Concat(parts[..n]), parts[n];
      var all: seq<Filling> := before + now;
      forall i, j | 0 <= i < j < |all| ensures all[i].psiType <= all[j].psiType {
        if i >= |before| {
          assert all[i] in now && all[j] in now;
        } else if j >= |before| {
          assert all[i] in before && all[j] in now;
        }
      }
    }
  }

  /** What is filled for type k is what its own part fills. */
  lemma {:induction false} PartsOfType(parts: seq<seq<Filling>>, k: nat)
    requires PartsByType(parts)
    ensures OfType(Concat(parts), k) == if k < |parts| then OfType(parts[k], k) else []
  {
    if parts != [] {
      var n := |parts| - 1;
      PartsOfType(parts[..n], k);
      OfTypeAppend(Concat(parts[..n]), parts[n], k);
      if k < n {
        OfOtherType(parts[n], k);
        assert parts[..n][k] == parts[k];
      } else if k > n {
        OfOtherType(parts[n], k);
      }
    }
  }

  lemma {:induction false} OfTypeAppend(a: seq<Filling>, b: seq<Filling>, k: nat)
    ensures OfType(a + b, k) == OfType(a, k) + OfType(b, k)
  {
    if b == [] {
      assert a + b == a;
    } else {
      var n := |b| - 1;
      assert (a + b)[..|a| + n] == a + b[..n];
      OfTypeAppend(a, b[..n], k);
    }
  }

  lemma {:induction false} OfOwnType(k: PsiType, secs: seq<PidSection>)
    ensures OfType(FillsOf(k, secs), k) == PackAll(secs)
  {
    if secs != [] {
      var n := |secs| - 1;
      OfOwnType(k, secs[..n]);
      var fills := FillsOf(k, secs);
      assert fills[..|fills| - 1] == FillsOf(k, secs[..n]);
    }
  }

  lemma {:induction false} OfOtherType(fills: seq<Filling>, k: nat)
    requires forall f :: f in fills ==> f.psiType != k
    ensures OfType(fills, k) == []
  {
    if fills != [] {
      OfOtherType(fills[..|fills| - 1], k);
    }
  }

  /** The directory generated is accepted exactly when fewer packets come out than the area
      holds, and each type's slice is then what its sections were cut into. */
  lemma GeneratedValidates(r: Request)
    ensures var a := GeneratedArea(r);
      && (Scan(a.dir, TYPES).ok <==> a.total < AREA_PACKETS)
      && SlicesInside(a)
      && forall k :: 0 <= k < TYPES ==> Slice(a, k) == PackAll(Chosen(Candidates(r, k)))
  {
    var parts := GeneratedParts(r);
    forall k | 0 <= k < TYPES
      ensures OfType(parts[k], k) == PackAll(Chosen(Candidates(r, k)))
      ensures forall f: Filling :: f in parts[k] ==> f.psiType == k
    {
      assert parts[k] == Part(r, k);
      FillsOfType(k, Chosen(Candidates(r, k)));
      OfOwnType(k, Chosen(Candidates(r, k)));
    }
    PartsInOrder(parts);
    OrderedFillsValidate(GeneratedFills(r));
    OrderedSlices(GeneratedFills(r));
    forall k | 0 <= k < TYPES ensures Slice(GeneratedArea(r), k) == PackAll(Chosen(Candidates(r, k))) {
      PartsOfType(parts, k);
    }
  }

  /** Sections are chosen one by one: those whose flag is set, with their PIDs, in order. */
  lemma {:induction false} ChosenEach(a: seq<Candidate>, b: seq<Candidate>, c: Candidate)
    ensures Chosen(a + b) == Chosen(a) + Chosen(b)
    ensures Chosen([c]) == if c.on then [PidSection(c.section, c.pid)] else []
  {
    assert [c][..0] == [];
    if b == [] {
      assert a + b == a && Chosen(a) + [] == Chosen(a);
    } else {
      var n := |b| - 1;
      var last := if b[n].on then [PidSection(b[n].section, b[n].pid)] else [];
      ChosenEach(a, b[..n], c);
      assert (a + b)[..|a| + n] == a + b[..n];
      assert Chosen(a + b) == Chosen(a + b[..n]) + last && Chosen(b) == Chosen(b[..n]) + last;
    }
  }

  /** The tables are sent with PIDs 0, 1 and 0x10, which no request can change: PAT,
      CAT and NIT as one section each, and the slices of PMT and SDT hold what is chosen for them. */
  lemma GeneratedTables(r: Request)
    requires RequestFits(r)
    ensures var a := GeneratedArea(r);
      && SlicesInside(a)
      && Slice(a, 0) == (if r.pat.on then Packets(r.pat.section, 0, 0x00, 0) else [])
      && Slice(a, 1) == PackAll(Chosen(r.pmts))
      && Slice(a, 2) == (if r.cat.on then Packets(r.cat.section, 0, 0x01, 0) else [])
      && Slice(a, 3) == PackAll(Chosen(r.sdts))
      && Slice(a, 4) == (if r.nit.on then Packets(r.nit.section, 0, 0x10, 0) else [])
      && Slice(a, 5) == Slice(a, 6) == Slice(a, 7) == []
  {
    hide GeneratedArea, Slice, SlicesInside, Chosen, PackAll;
    GeneratedValidates(r);
    OneTable(r.pat);
    OneTable(r.cat);
    OneTable(r.nit);
    assert Chosen([]) == [] && PackAll([]) == [] by { NothingChosen(); }
  }

  lemma OneTable(c: Candidate)
    ensures PackAll(Chosen([c])) == if c.on then Packets(c.section, 0, c.pid, 0) else []
  {
    ChosenEach([], [], c);
    var s := PidSection(c.section, c.pid);
    assert [s][..0] == [] && PackAll([]) == [];
    assert PackAll([s]) == [] + Packets(c.section, 0, c.pid, 0);
  }

  lemma NothingChosen()
    ensures Chosen([]) == [] && PackAll([]) == []
  {
  }

  /** Every SDT packet has PID 0x11. */
  lemma SdtPid(r: Request, i: nat)
    requires RequestFits(r) && i < |PackAll(Chosen(r.sdts))|
    ensures PidOf(PackAll(Chosen(r.sdts))[i]) == 0x11
  {
    ChosenOf(r.sdts);
    assert forall s :: s in Chosen(r.sdts) ==> s.pid == 0x11;
    var k := PidsOfPacked(Chosen(r.sdts), i);
  }

  // ---- Reading back -------------------------------------------------------------------------------

  /** Only for PMT and SDT does the reader go on after the first section. */
  predicate ReadsOn(k: nat) {
    k == 1 || k == 3
  }

  /** The sections taken from the packets of a type. */
  function ReadBack(k: nat, slice: seq<Packet>): seq<seq<Byte>> {
    if slice == [] || k > 4 then []
    else if ReadsOn(k) then PopAll(slice)
    else [Pop(slice, 0, []).bytes[..Pop(slice, 0, []).len]]
  }

  /** PAT, CAT and NIT are read as one section, PMT and SDT until no packet is left. */
  lemma ReadBackTimes(k: nat, slice: seq<Packet>)
    requires slice != []
    ensures k in {0, 2, 4} ==> |ReadBack(k, slice)| == 1 && ReadBack(k, slice)[0] == PopAll(slice)[0]
    ensures k in {1, 3} ==> ReadBack(k, slice) == PopAll(slice)
    ensures k >= 5 ==> ReadBack(k, slice) == []
  {
  }

  function NonEmpty(secs: seq<PidSection>): seq<PidSection> {
    if secs == [] then []
    else
      var n := |secs| - 1;
      NonEmpty(secs[..n]) + if secs[n].section == [] then [] else [secs[n]]
  }

  lemma {:induction false} PackSkipsEmpty(secs: seq<PidSection>)
    ensures PackAll(secs) == PackAll(NonEmpty(secs))
  {
    if secs != [] {
      var n := |secs| - 1;
      PackSkipsEmpty(secs[..n]);
      var some := NonEmpty(secs[..n]);
      if secs[n].section == [] {
        assert some + [] == some;
      } else {
        assert (some + [secs[n]])[..|some|] == some;
      }
    }
  }

  /** The sections that are not empty, in order. */
  lemma {:induction false} NonEmptyEach(a: seq<PidSection>, b: seq<PidSection>, s: PidSection)
    ensures NonEmpty(a + b) == NonEmpty(a) + NonEmpty(b)
    ensures NonEmpty([s]) == if s.section != [] then [s] else []
  {
    assert [s][..0] == [];
    if b == [] {
      assert a + b == a && NonEmpty(a) + [] == NonEmpty(a);
    } else {
      var n := |b| - 1;
      var last := if b[n].section == [] then [] else [b[n]];
      NonEmptyEach(a, b[..n], s);
      assert (a + b)[..|a| + n] == a + b[..n];
      assert NonEmpty(a + b) == NonEmpty(a + b[..n]) + last && NonEmpty(b) == NonEmpty(b[..n]) + last;
    }
  }

  lemma {:induction false} NonEmptyOf(secs: seq<PidSection>)
    ensures |NonEmpty(secs)| <= |secs|
    ensures forall s :: s in NonEmpty(secs) ==> s in secs && s.section != []
  {
    if secs != [] {
      NonEmptyOf(secs[..|secs| - 1]);
    }
  }

  lemma {:induction false} ChosenOf(cs: seq<Candidate>)
    ensures |Chosen(cs)| <= |cs|
    ensures forall s :: s in Chosen(cs) ==> exists c :: c in cs && c.section == s.section && c.pid == s.pid
  {
    if cs != [] {
      ChosenOf(cs[..|cs| - 1]);
    }
  }

  /** The sections of a type that leave a trace. */
  function SentSections(r: Request, k: nat): seq<PidSection> {
    NonEmpty(Chosen(Candidates(r, k)))
  }

  lemma SentSectionsOf(r: Request, k: nat)
    requires RequestFits(r) && k < TYPES
    requires forall c :: c in Candidates(r, k) ==> c.section == [] || OnePacket(PidSection(c.section, c.pid))
    ensures |SentSections(r, k)| <= |Candidates(r, k)|
    ensures forall i :: 0 <= i < |SentSections(r, k)| ==> OnePacket(SentSections(r, k)[i])
  {
    var cs := Candidates(r, k);
    ChosenOf(cs);
    NonEmptyOf(Chosen(cs));
    forall i | 0 <= i < |SentSections(r, k)| ensures OnePacket(SentSections(r, k)[i]) {
      var s := SentSections(r, k)[i];
      assert s in SentSections(r, k);
      var c :| c in cs && c.section == s.section && c.pid == s.pid;
      assert s == PidSection(c.section, c.pid);
    }
  }

  /** Sections of one packet each come back out of the generated area, type by type and in
      order; empty ones leave no trace. */
  lemma GeneratedReadsBack(r: Request, k: nat)
    requires RequestFits(r) && k < TYPES
    requires forall c :: c in Candidates(r, k) ==> c.section == [] || OnePacket(PidSection(c.section, c.pid))
    ensures SlicesInside(GeneratedArea(r))
    ensures ReadBack(k, Slice(GeneratedArea(r), k)) == SectionBytes(SentSections(r, k))
  {
    hide PackAll, PopAll, GeneratedArea, Candidates, NonEmpty, Chosen, ReadBack, OnePacket, SlicesInside, Slice,
      SectionBytes;
    GeneratedValidates(r);
    SentSectionsOf(r, k);
    FewCandidates(r, k);
    PackSkipsEmpty(Chosen(Candidates(r, k)));
    PopAllRestores(SentSections(r, k));
    ReadBackIs(k, PackAll(SentSections(r, k)));
  }

  lemma FewCandidates(r: Request, k: nat)
    ensures !ReadsOn(k) ==> |Candidates(r, k)| <= 1
    ensures k > 4 ==> Candidates(r, k) == []
  {
  }

  /** Where at most one section is expected, one pop is all pops. */
  lemma ReadBackIs(k: nat, slice: seq<Packet>)
    requires (ReadsOn(k) || |slice| <= 1) && (k > 4 ==> slice == [])
    ensures ReadBack(k, slice) == PopAll(slice)
  {
    if |slice| == 1 {
      var r := Pop(slice, 0, []);
      assert slice[r.used..] == [];
    }
  }
}
