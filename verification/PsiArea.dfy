/** The PSI area as bytes in memory: filling it from sections and reading sections back
    (src/output_psi_data.c:67-88, 196-246; src/psi_gen.c:24-115). */
module PsiAreas {
  import opened Bytes
  import opened Sections
  import opened OutputPsi
  import opened PsiGen

  // ---- Packets in bytes --------------------------------------------------------------------

  lemma {:induction false} FlattenAppend(a: seq<Packet>, b: seq<Packet>)
    ensures Flatten(a + b) == Flatten(a) + Flatten(b)
  {
    if b == [] {
      assert a + b == a;
    } else {
      var n := |b| - 1;
      FlattenAppend(a, b[..n]);
      FlattenSnoc(a + b[..n], b[n]);
      FlattenSnoc(b[..n], b[n]);
      assert a + b == (a + b[..n]) + [b[n]] && b == b[..n] + [b[n]];
    }
  }

  lemma {:induction false} FlattenLength(pkts: seq<Packet>)
    ensures |Flatten(pkts)| == PACKET * |pkts|
  {
    if pkts != [] {
      FlattenLength(pkts[1..]);
    }
  }

  /** The i-th packet read from the bytes of packets. */
  lemma FlattenAt(pkts: seq<Packet>, rest: seq<Byte>, i: nat)
    requires i < |pkts|
    ensures PACKET * (i + 1) <= |Flatten(pkts) + rest| && PacketAt(Flatten(pkts) + rest, 0, i) == pkts[i]
  {
    FlattenLength(pkts);
    FlattenLength(pkts[..i]);
    FlattenLength(pkts[..i + 1]);
    FlattenSnoc(pkts[..i], pkts[i]);
    FlattenAppend(pkts[..i + 1], pkts[i + 1..]);
    assert pkts[..i + 1] == pkts[..i] + [pkts[i]] && pkts == pkts[..i + 1] + pkts[i + 1..];
    assert Flatten(pkts) + rest == Flatten(pkts[..i]) + pkts[i] + (Flatten(pkts[i + 1..]) + rest);
  }

  /** The packets of a slice read from the bytes of the area. */
  lemma SliceInBytes(pkts: seq<Packet>, ts: seq<Byte>, at: nat, n: nat)
    requires at + n <= |pkts| && PACKET * |pkts| <= |ts| && ts[..PACKET * |pkts|] == Flatten(pkts)
    ensures PACKET * at + PACKET * n <= |ts| && PacketsAt(ts, PACKET * at, n) == pkts[at..at + n]
  {
    var got := PacketsAt(ts, PACKET * at, n);
    forall i | 0 <= i < n ensures got[i] == pkts[at + i] {
      assert got[i] == PacketAt(ts, PACKET * at, i) == PacketAt(ts, 0, at + i);
      FlattenAt(pkts, ts[PACKET * |pkts|..], at + i);
      assert ts == Flatten(pkts) + ts[PACKET * |pkts|..];
    }
  }

  /** One more filling never makes the area smaller. */
  lemma {:induction false} TotalGrows(a: seq<Filling>, b: seq<Filling>)
    ensures FillAll(a).total <= FillAll(a + b).total
  {
    if b == [] {
      assert a + b == a;
    } else {
      var n := |b| - 1;
      TotalGrows(a, b[..n]);
      assert (a + b)[..|a| + n] == a + b[..n];
    }
  }

  class PsiArea {
    const dir: array<PsiEntry>
    const bytes: array<Byte>
    var pktOffset: nat

    /** The area in memory is `a`. */
    ghost predicate Holds(a: Area)
      reads this, dir, bytes
    {
      && dir.Length == TYPES && bytes.Length == AREA_BYTES && dir as object != bytes as object
      && dir[..] == a.dir && pktOffset == a.total == |a.packets| <= AREA_PACKETS
      && bytes[..PACKET * pktOffset] == Flatten(a.packets)
    }

    constructor ()
      ensures fresh(dir) && fresh(bytes) && Holds(EMPTY_AREA)
    {
      dir := new PsiEntry[TYPES](_ => NO_ENTRY);
      bytes := new Byte[AREA_BYTES](_ => 0);
      pktOffset := 0;
      new;
      assert dir[..] == NO_ENTRIES;
    }

    /** Empties the directory; the old packets stay in memory. */
    method BeginFill(ghost a: Area)
      requires Holds(a)
      modifies this, dir
      ensures Holds(EMPTY_AREA)
    {
      for i := 0 to TYPES
        invariant dir[..i] == NO_ENTRIES[..i]
        invariant bytes[..] == old(bytes[..]) && dir.Length == TYPES && bytes.Length == AREA_BYTES
      {
        dir[i] := NO_ENTRY;
      }
      pktOffset := 0;
      assert dir[..] == NO_ENTRIES;
    }

    /** Appends whole packets and grows the entry of their type. */
    method FillOutputPsiData(t: PsiType, tsBuf: seq<Byte>, ghost a: Area, ghost pkts: seq<Packet>)
      requires Holds(a) && tsBuf == Flatten(pkts) && a.total + |pkts| <= AREA_PACKETS
      modifies this, dir, bytes
      ensures Holds(AddFilling(a, Filling(t, pkts)))
    {
      FlattenLength(pkts);
      FlattenAppend(a.packets, pkts);
      var n := |tsBuf| / PACKET;
      assert n == |pkts|;
      var e := dir[t];
      dir[t] := PsiEntry(if e.count == 0 then pktOffset else e.offset, e.count + n);
      Append(tsBuf, bytes, PACKET * pktOffset);
      pktOffset := pktOffset + n;
    }

    /** Cuts one section into packets and fills them. */
    method FillSection(t: PsiType, section: seq<Byte>, pid: nat, cc0: nat, ghost a: Area) returns (cc: nat)
      requires Holds(a) && |section| <= SECTION_MAX && pid < 0x2000 && cc0 < 16
      requires a.total + |Packets(section, 0, pid, cc0)| <= AREA_PACKETS
      modifies this, dir, bytes
      ensures Holds(AddFilling(a, Filling(t, Packets(section, 0, pid, cc0))))
      ensures cc == (cc0 + |Packets(section, 0, pid, cc0)|) % 16
    {
      ghost var pkts := Packets(section, 0, pid, cc0);
      SevenPackets(section, pid, cc0);
      var tsBuf := new Byte[TS_BUFFER];
      var tsLen;
      tsLen, cc := SectionToTs(section, tsBuf, pid, cc0);
      FillOutputPsiData(t, tsBuf[..tsLen], a, pkts);
    }

    /** One round of the block of a type: a flagged section is filled, another passed over. */
    method GenerateOne(t: PsiType, c: Candidate, cc0: nat, ghost before: seq<PidSection>, ghost fills: seq<Filling>)
        returns (cc: nat)
      requires Holds(FillAll(fills + FillsOf(t, before))) && cc0 == CounterAfter(before)
      requires |c.section| <= SECTION_MAX && c.pid < 0x2000
      requires FillAll(fills + FillsOf(t, before + Chosen([c]))).total <= AREA_PACKETS
      modifies this, dir, bytes
      ensures Holds(FillAll(fills + FillsOf(t, before + Chosen([c])))) && cc == CounterAfter(before + Chosen([c]))
    {
      hide Chosen, FillsOf, FillAll, PackAll, Packets, CounterAfter;
      cc := cc0;
      ChosenOne(c);
      if c.on {
        FillsOneMore(t, before, PidSection(c.section, c.pid), fills);
        cc := FillSection(t, c.section, c.pid, cc, FillAll(fills + FillsOf(t, before)));
      } else {
        assert before + [] == before;
      }
    }

    /** The block of one type: its flagged sections, counter from zero. */
    method GenerateType(t: PsiType, candidates: seq<Candidate>, ghost fills: seq<Filling>)
      requires Holds(FillAll(fills))
      requires forall c :: c in candidates ==> |c.section| <= SECTION_MAX && c.pid < 0x2000
      requires FillAll(fills + FillsOf(t, Chosen(candidates))).total <= AREA_PACKETS
      modifies this, dir, bytes
      ensures Holds(FillAll(fills + FillsOf(t, Chosen(candidates))))
    {
      var cc := 0;
      assert fills + FillsOf(t, Chosen(candidates[..0])) == fills;
      for i := 0 to |candidates|
        invariant cc == CounterAfter(Chosen(candidates[..i]))
        invariant Holds(FillAll(fills + FillsOf(t, Chosen(candidates[..i]))))
      {
        ChosenStep(candidates, i);
        RoomSoFar(t, candidates, i + 1, fills);
        cc := GenerateOne(t, candidates[i], cc, Chosen(candidates[..i]), fills);
      }
      assert candidates[..|candidates|] == candidates;
    }

    /** Empties the area and fills it with the flagged sections, type by type. */
    method Generate(r: Request, ghost a: Area)
      requires Holds(a) && RequestFits(r) && GeneratedArea(r).total <= AREA_PACKETS
      modifies this, dir, bytes
      ensures Holds(GeneratedArea(r))
    {
      ghost var parts := GeneratedParts(r);
      BeginFill(a);
      assert FillAll(Concat(parts[..0])) == EMPTY_AREA;
      for k := 0 to TYPES
        invariant Holds(FillAll(Concat(parts[..k])))
      {
        ConcatNext(parts, k);
        ConcatRoom(parts, k + 1);
        assert parts[k] == FillsOf(k, Chosen(Candidates(r, k)));
        GenerateType(k, Candidates(r, k), Concat(parts[..k]));
      }
      assert parts[..TYPES] == parts;
    }

    /** The sections of a type, taken from its packets. */
    method ReadType(k: PsiType, ghost a: Area) returns (sections: seq<seq<Byte>>)
      requires Holds(a) && SlicesInside(a)
      ensures sections == ReadBack(k, Slice(a, k))
    {
      hide Flatten, PopAll, Pop;
      var at, left := PACKET * dir[k].offset, dir[k].count;
      FlattenLength(a.packets);
      SliceInBytes(a.packets, bytes[..], dir[k].offset, left);
      sections := [];
      if left > 0 {
        if ReadsOn(k) {
          sections := PopSections(bytes[..], at, left);
        } else if k <= 4 {
          var section;
          section, at, left := PopNext(bytes[..], at, left);
          sections := [section];
        }
      }
    }
  }

  lemma ConcatNext(parts: seq<seq<Filling>>, k: nat)
    requires k < |parts|
    ensures Concat(parts[..k + 1]) == Concat(parts[..k]) + parts[k]
  {
    assert parts[..k + 1][..k] == parts[..k];
  }

  lemma ConcatRoom(parts: seq<seq<Filling>>, k: nat)
    requires k <= |parts|
    ensures FillAll(Concat(parts[..k])).total <= FillAll(Concat(parts)).total
  {
    ConcatPrefix(parts, k);
    PrefixRoom(Concat(parts[..k]), Concat(parts));
  }

  lemma PrefixRoom(some: seq<Filling>, all: seq<Filling>)
    requires some <= all
    ensures FillAll(some).total <= FillAll(all).total
  {
    assert all == some + all[|some|..];
    TotalGrows(some, all[|some|..]);
  }

  lemma {:induction false} ConcatPrefix(parts: seq<seq<Filling>>, k: nat)
    requires k <= |parts|
    ensures Concat(parts[..k]) <= Concat(parts)
    decreases |parts| - k
  {
    if k < |parts| {
      ConcatPrefix(parts, k + 1);
      ConcatNext(parts, k);
    } else {
      assert parts[..k] == parts;
    }
  }

  /** Counter for the section that follows. */
  function CounterAfter(secs: seq<PidSection>): (cc: nat)
    ensures cc < 16
  {
    |PackAll(secs)| % 16
  }

  lemma ChosenOne(c: Candidate)
    ensures Chosen([c]) == if c.on then [PidSection(c.section, c.pid)] else []
  {
    assert [c][..0] == [];
  }

  lemma ChosenStep(candidates: seq<Candidate>, i: nat)
    requires i < |candidates|
    ensures Chosen(candidates[..i + 1]) == Chosen(candidates[..i]) + Chosen([candidates[i]])
  {
    assert candidates[..i + 1][..i] == candidates[..i];
    ChosenOne(candidates[i]);
  }

  lemma {:induction false} FillsOfPrefix(t: PsiType, a: seq<PidSection>, b: seq<PidSection>)
    ensures FillsOf(t, a) <= FillsOf(t, a + b)
  {
    if b == [] {
      assert a + b == a;
    } else {
      var n := |b| - 1;
      FillsOfPrefix(t, a, b[..n]);
      assert (a + b)[..|a| + n] == a + b[..n];
    }
  }

  lemma {:induction false} ChosenPrefix(candidates: seq<Candidate>, i: nat)
    requires i <= |candidates|
    ensures Chosen(candidates[..i]) <= Chosen(candidates)
    decreases |candidates| - i
  {
    if i < |candidates| {
      ChosenPrefix(candidates, i + 1);
      ChosenStep(candidates, i);
    } else {
      assert candidates[..i] == candidates;
    }
  }

  /** What fits in the end fits on the way. */
  lemma RoomSoFar(t: PsiType, candidates: seq<Candidate>, i: nat, fills: seq<Filling>)
    requires i <= |candidates| && FillAll(fills + FillsOf(t, Chosen(candidates))).total <= AREA_PACKETS
    ensures FillAll(fills + FillsOf(t, Chosen(candidates[..i]))).total <= AREA_PACKETS
  {
    ChosenPrefix(candidates, i);
    var a, whole := Chosen(candidates[..i]), Chosen(candidates);
    assert whole == a + whole[|a|..];
    FillsOfPrefix(t, a, whole[|a|..]);
    PrefixRoom(fills + FillsOf(t, a), fills + FillsOf(t, whole));
  }

  /** The filling for one section more, and the counter after it. */
  lemma FillsOneMore(t: PsiType, before: seq<PidSection>, s: PidSection, fills: seq<Filling>)
    ensures var pkts := Packets(s.section, 0, s.pid, CounterAfter(before));
      && FillAll(fills + FillsOf(t, before + [s])) == AddFilling(FillAll(fills + FillsOf(t, before)), Filling(t, pkts))
      && CounterAfter(before + [s]) == (CounterAfter(before) + |pkts|) % 16
  {
    var pkts := Packets(s.section, 0, s.pid, CounterAfter(before));
    PackOneMore(before, s);
    assert (before + [s])[..|before|] == before;
    FillAllSnoc(fills, FillsOf(t, before), Filling(t, pkts));
  }

  lemma PackOneMore(before: seq<PidSection>, s: PidSection)
    ensures var pkts := Packets(s.section, 0, s.pid, CounterAfter(before));
      PackAll(before + [s]) == PackAll(before) + pkts &&
        CounterAfter(before + [s]) == (CounterAfter(before) + |pkts|) % 16
  {
    var pkts := Packets(s.section, 0, s.pid, CounterAfter(before));
    assert (before + [s])[..|before|] == before;
    CounterSum(|PackAll(before)|, |pkts|);
  }

  lemma FillAllSnoc(a: seq<Filling>, b: seq<Filling>, f: Filling)
    ensures FillAll(a + (b + [f])) == AddFilling(FillAll(a + b), f)
  {
    assert (a + (b + [f]))[..|a| + |b|] == a + b;
  }
}
