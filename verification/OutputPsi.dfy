/** The area of PSI packets for the output: filling it type by type and checking its
    directory (src/output_psi_data.c:19-88, include/xmux.h:181-195, src/psi_gen.c:24-115). */
module OutputPsi {
  import opened Sections

  const TYPES := 8
  const AREA_BYTES := 1024 * 16 - (4 + 2 * TYPES)
  const AREA_PACKETS := AREA_BYTES / PACKET

  datatype PsiEntry = PsiEntry(offset: nat, count: nat)

  const NO_ENTRY := PsiEntry(0, 0)

  const NO_ENTRIES := [NO_ENTRY, NO_ENTRY, NO_ENTRY, NO_ENTRY, NO_ENTRY, NO_ENTRY, NO_ENTRY, NO_ENTRY]

  type Directory = s: seq<PsiEntry> | |s| == TYPES witness NO_ENTRIES

  type PsiType = k: nat | k < TYPES

  /** One call that fills packets of a type. */
  datatype Filling = Filling(psiType: PsiType, packets: seq<Packet>)

  /** Directory, number of packets and the packets themselves. */
  datatype Area = Area(dir: Directory, total: nat, packets: seq<Packet>)

  const EMPTY_AREA := Area(NO_ENTRIES, 0, [])

  /** Entry of a type after n packets more, when `total` packets are in the area. */
  function GrowEntry(e: PsiEntry, total: nat, n: nat): PsiEntry {
    PsiEntry(if e.count == 0 then total else e.offset, e.count + n)
  }

  function AddFilling(a: Area, f: Filling): Area {
    Area(a.dir[f.psiType := GrowEntry(a.dir[f.psiType], a.total, |f.packets|)], a.total + |f.packets|,
      a.packets + f.packets)
  }

  function FillAll(fills: seq<Filling>): (a: Area)
    ensures a.total == |a.packets|
  {
    if fills == [] then EMPTY_AREA else AddFilling(FillAll(fills[..|fills| - 1]), fills[|fills| - 1])
  }

  // ---- The directory check ------------------------------------------------------------------

  /** Still accepted, and the offset expected next. */
  datatype Scanned = Scanned(ok: bool, next: nat)

  /** The first n entries as the check sees them. */
  function Scan(dir: Directory, n: nat): Scanned
    requires n <= TYPES
  {
    if n == 0 then Scanned(true, 0)
    else
      var s := Scan(dir, n - 1);
      var e := dir[n - 1];
      if e == NO_ENTRY then s
      else Scanned(s.ok && e.offset == s.next && e.offset + e.count < AREA_PACKETS, e.offset + e.count)
  }

  method OutputPsiDataValidate(dir: Directory) returns (ok: bool)
    ensures ok <==> Scan(dir, TYPES).ok
  {
    var nextExpectOffset: nat := 0;
    for i := 0 to TYPES
      invariant Scan(dir, i) == Scanned(true, nextExpectOffset)
    {
      var e := dir[i];
      if e.offset == 0 && e.count == 0 {
        continue;
      }
      if e.offset != nextExpectOffset || e.offset + e.count >= AREA_PACKETS {
        ScanStaysRefused(dir, i + 1, TYPES);
        return false;
      }
      nextExpectOffset := e.offset + e.count;
    }
    return true;
  }

  lemma {:induction false} ScanStaysRefused(dir: Directory, n: nat, m: nat)
    requires n <= m <= TYPES && !Scan(dir, n).ok
    ensures !Scan(dir, m).ok
    decreases m - n
  {
    if n < m {
      ScanStaysRefused(dir, n, m - 1);
    }
  }

  /** Packet x belongs to the entry of type i. */
  predicate Covers(dir: Directory, i: nat, x: nat)
    requires i < TYPES
  {
    dir[i].offset <= x < dir[i].offset + dir[i].count
  }

  ghost predicate Covered(dir: Directory, n: nat, x: nat)
    requires n <= TYPES
  {
    exists i :: 0 <= i < n && Covers(dir, i, x)
  }

  /** An accepted directory tiles a prefix of the area: every packet of the prefix belongs
      to exactly one type, types in order, and nothing lies beyond. */
  lemma {:induction false} AcceptedTiles(dir: Directory, n: nat)
    requires n <= TYPES && Scan(dir, n).ok
    ensures var end := Scan(dir, n).next;
      && end < AREA_PACKETS
      && (forall i, x: nat :: 0 <= i < n && Covers(dir, i, x) ==> x < end)
      && (forall x: nat :: x < end ==> Covered(dir, n, x))
      && (forall i, j, x: nat, y: nat :: 0 <= i < j < n && Covers(dir, i, x) && Covers(dir, j, y) ==> x < y)
  {
    if n > 0 {
      AcceptedTiles(dir, n - 1);
      var end := Scan(dir, n).next;
      forall x: nat | x < end ensures Covered(dir, n, x) {
        if x < Scan(dir, n - 1).next {
          assert Covered(dir, n - 1, x);
        } else {
          assert Covers(dir, n - 1, x);
        }
      }
    }
  }

  /** Entry j is the last one in use before entry i. */
  predicate LastBefore(dir: Directory, i: nat, j: nat)
    requires i <= TYPES
  {
    j < i && dir[j] != PsiEntry(0, 0) && forall l :: j < l < i ==> dir[l] == PsiEntry(0, 0)
  }

  /** An entry is not in use, or begins where the last one in use before it ends, or at 0, and
      itself ends before packet 87. */
  ghost predicate EntryFits(dir: Directory, i: nat)
    requires i < TYPES
  {
    dir[i] == PsiEntry(0, 0) ||
    (&& dir[i].offset + dir[i].count < 87
     && (forall j: nat :: LastBefore(dir, i, j) ==> dir[i].offset == dir[j].offset + dir[j].count)
     && ((forall j: nat :: j < i ==> dir[j] == PsiEntry(0, 0)) ==> dir[i].offset == 0))
  }

  /** The last entry in use before the n-th, -1 for none, and what the check expects after it. */
  lemma {:induction false} LastInUse(dir: Directory, n: nat) returns (j: int)
    requires n <= TYPES
    ensures j < 0 ==> Scan(dir, n).next == 0 && forall l: nat :: l < n ==> dir[l] == NO_ENTRY
    ensures j >= 0 ==> LastBefore(dir, n, j) && Scan(dir, n).next == dir[j].offset + dir[j].count
  {
    if n == 0 {
      j := -1;
    } else if dir[n - 1] != NO_ENTRY {
      j := n - 1;
    } else {
      j := LastInUse(dir, n - 1);
    }
  }

  lemma OneLast(dir: Directory, i: nat, j: nat, l: nat)
    requires i <= TYPES && LastBefore(dir, i, j) && LastBefore(dir, i, l)
    ensures j == l
  {
  }

  lemma EntryFitsIs(dir: Directory, i: nat)
    requires i < TYPES
    ensures EntryFits(dir, i) <==>
      (dir[i] != NO_ENTRY ==> dir[i].offset == Scan(dir, i).next && dir[i].offset + dir[i].count < AREA_PACKETS)
  {
    hide LastBefore, Scan;
    var j := LastInUse(dir, i);
    if j >= 0 {
      forall l: nat | LastBefore(dir, i, l) ensures l == j {
        OneLast(dir, i, j, l);
      }
      InUse(dir, i, j);
    } else {
      forall l: nat ensures !LastBefore(dir, i, l) {
        if LastBefore(dir, i, l) {
          InUse(dir, i, l);
        }
      }
    }
  }

  lemma InUse(dir: Directory, i: nat, j: nat)
    requires i <= TYPES && LastBefore(dir, i, j)
    ensures j < i && dir[j] != NO_ENTRY
  {
  }

  /** The check accepts a directory exactly if all its entries fit. */
  lemma {:induction false} AcceptedExactly(dir: Directory, n: nat)
    requires n <= TYPES
    ensures Scan(dir, n).ok <==> forall i: nat :: i < n ==> EntryFits(dir, i)
  {
    hide EntryFits;
    if n > 0 {
      AcceptedExactly(dir, n - 1);
      EntryFitsIs(dir, n - 1);
      assert Scan(dir, n).ok <==> Scan(dir, n - 1).ok && EntryFits(dir, n - 1);
    }
  }

  // ---- Filling in order ---------------------------------------------------------------------

  predicate InOrder(fills: seq<Filling>) {
    forall i, j :: 0 <= i < j < |fills| ==> fills[i].psiType <= fills[j].psiType
  }

  lemma {:induction false} ScanSame(dir: Directory, other: Directory, n: nat)
    requires n <= TYPES && forall i :: 0 <= i < n ==> dir[i] == other[i]
    ensures Scan(dir, n) == Scan(other, n)
  {
    if n > 0 {
      ScanSame(dir, other, n - 1);
    }
  }

  lemma {:induction false} ScanSkips(dir: Directory, n: nat, m: nat)
    requires n <= m <= TYPES && forall i :: n <= i < m ==> dir[i] == NO_ENTRY
    ensures Scan(dir, m) == Scan(dir, n)
    decreases m - n
  {
    if n < m {
      ScanSkips(dir, n, m - 1);
    }
  }

  /** What holds after fills of types up to `last`: later types are empty, and the scan
      up to `last` expects the next packet where it will go. */
  predicate Progress(a: Area, last: nat)
    requires last < TYPES
  {
    && (forall i :: last < i < TYPES ==> a.dir[i] == NO_ENTRY)
    && Scan(a.dir, last + 1).next == a.total
    && (Scan(a.dir, last + 1).ok <==> a.total < AREA_PACKETS)
  }

  lemma ProgressLater(a: Area, last: nat, later: nat)
    requires last <= later < TYPES && Progress(a, last)
    ensures Progress(a, later)
  {
    ScanSkips(a.dir, last + 1, later + 1);
  }

  /** A scan that has come too far is refused already. */
  lemma {:induction false} ScanBound(dir: Directory, n: nat)
    requires n <= TYPES && Scan(dir, n).ok
    ensures Scan(dir, n).next < AREA_PACKETS
  {
    if n > 0 {
      ScanBound(dir, n - 1);
    }
  }

  lemma ProgressStep(a: Area, f: Filling)
    requires Progress(a, f.psiType)
    ensures Progress(AddFilling(a, f), f.psiType)
  {
    var k, b := f.psiType, AddFilling(a, f);
    ScanSame(a.dir, b.dir, k);
    if Scan(a.dir, k).ok {
      ScanBound(a.dir, k);
    }
  }

  lemma {:induction false} ProgressHolds(fills: seq<Filling>)
    requires InOrder(fills)
    ensures Progress(FillAll(fills), if fills == [] then 0 else fills[|fills| - 1].psiType)
  {
    if fills != [] {
      var n := |fills| - 1;
      var before := fills[..n];
      ProgressHolds(before);
      ProgressLater(FillAll(before), if before == [] then 0 else before[n - 1].psiType, fills[n].psiType);
      ProgressStep(FillAll(before), fills[n]);
    }
  }

  /** Filling in nondecreasing type order passes the check exactly when there are fewer
      packets than the area holds. */
  lemma OrderedFillsValidate(fills: seq<Filling>)
    requires InOrder(fills)
    ensures Scan(FillAll(fills).dir, TYPES).ok <==> FillAll(fills).total < AREA_PACKETS
  {
    var last := if fills == [] then 0 else fills[|fills| - 1].psiType;
    ProgressHolds(fills);
    ScanSkips(FillAll(fills).dir, last + 1, TYPES);
  }

  /** All packets filled for a type, in order. */
  function OfType(fills: seq<Filling>, k: nat): seq<Packet> {
    if fills == [] then []
    else OfType(fills[..|fills| - 1], k) + if fills[|fills| - 1].psiType == k then fills[|fills| - 1].packets else []
  }

  function Slice(a: Area, k: nat): seq<Packet>
    requires k < TYPES && a.dir[k].offset + a.dir[k].count <= |a.packets|
  {
    a.packets[a.dir[k].offset..a.dir[k].offset + a.dir[k].count]
  }

  predicate SlicesInside(a: Area) {
    a.total == |a.packets| && forall k :: 0 <= k < TYPES ==> a.dir[k].offset + a.dir[k].count <= a.total
  }

  /** A type that still grows ends where the area ends. */
  predicate GrowsAtEnd(a: Area, k: nat)
    requires k < TYPES
  {
    a.dir[k].count > 0 ==> a.dir[k].offset + a.dir[k].count == a.total
  }

  lemma SliceStep(a: Area, f: Filling, k: nat)
    requires k < TYPES && SlicesInside(a) && GrowsAtEnd(a, f.psiType)
    ensures SlicesInside(AddFilling(a, f)) && GrowsAtEnd(AddFilling(a, f), f.psiType)
    ensures Slice(AddFilling(a, f), k) == Slice(a, k) + if f.psiType == k then f.packets else []
  {
    var b, from, n := AddFilling(a, f), a.dir[k].offset, a.dir[k].count;
    assert b.packets == a.packets + f.packets;
    if k != f.psiType {
      assert b.packets[from..from + n] == a.packets[from..from + n];
    } else if n == 0 {
      assert Slice(a, k) == [] && b.packets[a.total..] == f.packets;
    } else {
      assert b.packets[from..] == a.packets[from..from + n] + f.packets;
    }
  }

  /** In order, the slice of a type is what was filled for it. */
  lemma {:induction false} OrderedSlices(fills: seq<Filling>)
    requires InOrder(fills)
    ensures var a := FillAll(fills);
      && SlicesInside(a)
      && (fills != [] ==> GrowsAtEnd(a, fills[|fills| - 1].psiType))
      && (forall k :: 0 <= k < TYPES ==> (forall i :: 0 <= i < |fills| ==> fills[i].psiType < k) ==>
        a.dir[k] == NO_ENTRY)
      && forall k :: 0 <= k < TYPES ==> Slice(a, k) == OfType(fills, k)
  {
    if fills != [] {
      var n := |fills| - 1;
      var before, f := fills[..n], fills[n];
      OrderedSlices(before);
      var a := FillAll(before);
      assert GrowsAtEnd(a, f.psiType) by {
        if before != [] && before[n - 1].psiType != f.psiType {
          assert forall i :: 0 <= i < n ==> before[i].psiType < f.psiType;
        }
      }
      forall k | 0 <= k < TYPES ensures Slice(AddFilling(a, f), k) == OfType(fills, k) {
        SliceStep(a, f, k);
      }
      SliceStep(a, f, f.psiType);
    }
  }
}
