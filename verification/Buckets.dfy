/** Dealing the packets of the PSI area out to the write buckets of the hardware
    (src/output_psi_data.c:95-167, src/output_psi_data.h:14-43). */
module Buckets {
  import opened Sections
  import opened OutputPsi

  const BUCKETS := 7
  const BUCKET_ROOM := 128

  type Bucket = h: nat | h < BUCKETS

  const PSISI_40MS: Bucket := 0
  const PSISI_2SEC: Bucket := 1
  const PSISI_NIT: Bucket := 2
  const PSISI_MUL_PKT_0: Bucket := 3
  const MUL_PKT_COUNT := 4

  const PSI_TYPE_CAT: PsiType := 2
  const PSI_TYPE_NIT: PsiType := 4

  function PsiTypeToHowto(t: nat): Bucket {
    if t == PSI_TYPE_NIT then PSISI_NIT else if t <= PSI_TYPE_CAT then PSISI_40MS else PSISI_2SEC
  }

  // ---- Runs of equal PIDs --------------------------------------------------------------------

  /** Packet i has a neighbour with its PID. */
  predicate Joined(s: seq<Packet>, i: nat)
    requires i < |s|
  {
    (i > 0 && PidOf(s[i - 1]) == PidOf(s[i])) || (i + 1 < |s| && PidOf(s[i]) == PidOf(s[i + 1]))
  }

  /** Packet i is the first of a maximal run of two or more. */
  predicate Opens(s: seq<Packet>, i: nat)
    requires i < |s|
  {
    Joined(s, i) && (i == 0 || PidOf(s[i - 1]) != PidOf(s[i]))
  }

  /** Runs opened by the first n packets. */
  function RunCount(s: seq<Packet>, n: nat): (k: nat)
    requires n <= |s|
    ensures k <= n
  {
    if n == 0 then 0 else RunCount(s, n - 1) + if Opens(s, n - 1) then 1 else 0
  }

  /** Bucket of packet i when `before` runs came in earlier types: the first four runs get
      a bucket each. */
  function RunBucket(s: seq<Packet>, before: nat, i: nat): Bucket
    requires i < |s|
  {
    var run := before + RunCount(s, i + 1);
    if Joined(s, i) && run <= MUL_PKT_COUNT then PSISI_MUL_PKT_0 + run - 1 else PSISI_40MS
  }

  function RunBuckets(s: seq<Packet>, before: nat, n: nat): (keys: seq<Bucket>)
    requires n <= |s|
    ensures |keys| == n && forall i :: 0 <= i < n ==> keys[i] == RunBucket(s, before, i)
  {
    if n == 0 then [] else RunBuckets(s, before, n - 1) + [RunBucket(s, before, n - 1)]
  }

  // ---- Dealing -------------------------------------------------------------------------------

  type Dealt = b: seq<seq<Packet>> | |b| == BUCKETS witness [[], [], [], [], [], [], []]

  const NOTHING_DEALT: Dealt := [[], [], [], [], [], [], []]

  function Deal(b: Dealt, s: seq<Packet>, keys: seq<Bucket>): Dealt
    requires |s| == |keys|
  {
    if s == [] then b
    else
      var n := |s| - 1;
      var d := Deal(b, s[..n], keys[..n]);
      d[keys[n] := d[keys[n]] + [s[n]]]
  }

  lemma DealOne(b: Dealt, s: seq<Packet>, keys: seq<Bucket>, p: Packet, h: Bucket)
    requires |s| == |keys|
    ensures var d := Deal(b, s, keys); Deal(b, s + [p], keys + [h]) == d[h := d[h] + [p]]
  {
    assert (s + [p])[..|s|] == s && (keys + [h])[..|s|] == keys;
  }

  lemma {:induction false} DealAppend(b: Dealt, s: seq<Packet>, keys: seq<Bucket>, s': seq<Packet>, keys': seq<Bucket>)
    requires |s| == |keys| && |s'| == |keys'|
    ensures Deal(Deal(b, s, keys), s', keys') == Deal(b, s + s', keys + keys')
  {
    if s' == [] {
      assert s + s' == s && keys + keys' == keys;
    } else {
      var n := |s'| - 1;
      DealAppend(b, s, keys, s'[..n], keys'[..n]);
      assert s + s' == (s + s'[..n]) + [s'[n]] && keys + keys' == (keys + keys'[..n]) + [keys'[n]];
      DealOne(b, s + s'[..n], keys + keys'[..n], s'[n], keys'[n]);
    }
  }

  function Same(n: nat, h: Bucket): (keys: seq<Bucket>)
    ensures |keys| == n && forall i :: 0 <= i < n ==> keys[i] == h
  {
    if n == 0 then [] else Same(n - 1, h) + [h]
  }

  lemma {:induction false} DealSame(b: Dealt, s: seq<Packet>, h: Bucket)
    ensures Deal(b, s, Same(|s|, h)) == b[h := b[h] + s]
  {
    if s != [] {
      var n := |s| - 1;
      assert Same(|s|, h)[..n] == Same(n, h);
      DealSame(b, s[..n], h);
      assert b[h] + s == (b[h] + s[..n]) + [s[n]];
    } else {
      assert b[h] + s == b[h];
    }
  }

  /** How many of the first n keys are h. */
  function Rank(keys: seq<Bucket>, n: nat, h: Bucket): (k: nat)
    requires n <= |keys|
    ensures k <= n
  {
    if n == 0 then 0 else Rank(keys, n - 1, h) + if keys[n - 1] == h then 1 else 0
  }

  /** Number of packets in the first n buckets. */
  function Held(b: Dealt, n: nat): nat
    requires n <= BUCKETS
  {
    if n == 0 then 0 else Held(b, n - 1) + |b[n - 1]|
  }

  lemma {:induction false} HeldUpdate(b: Dealt, h: Bucket, x: seq<Packet>, n: nat)
    requires n <= BUCKETS
    ensures Held(b[h := x], n) + (if h < n then |b[h]| else 0) == Held(b, n) + if h < n then |x| else 0
  {
    if n > 0 {
      HeldUpdate(b, h, x, n - 1);
    }
  }

  lemma {:induction false} RankFront(keys: seq<Bucket>, m: nat, n: nat, h: Bucket)
    requires n <= m <= |keys|
    ensures Rank(keys[..m], n, h) == Rank(keys, n, h)
  {
    if n > 0 {
      RankFront(keys, m, n - 1, h);
    }
  }

  /** Packet i is where its key says, behind the earlier packets of that key. */
  predicate Placed(d: Dealt, s: seq<Packet>, keys: seq<Bucket>, i: nat)
    requires |s| == |keys| && i < |s|
  {
    var r := Rank(keys, i, keys[i]);
    r < |d[keys[i]]| && d[keys[i]][r] == s[i]
  }

  lemma PlacedOneMore(d: Dealt, s: seq<Packet>, keys: seq<Bucket>, i: nat)
    requires |s| == |keys| && i < |s| - 1 && Placed(d, s[..|s| - 1], keys[..|s| - 1], i)
    ensures var h := keys[|s| - 1]; Placed(d[h := d[h] + [s[|s| - 1]]], s, keys, i)
  {
    RankFront(keys, |s| - 1, i, keys[i]);
  }

  /** Every packet lands in the bucket of its key, behind exactly the earlier packets of
      that key, and no bucket holds anything else. */
  lemma {:induction false} DealPlaces(s: seq<Packet>, keys: seq<Bucket>)
    requires |s| == |keys|
    ensures var d := Deal(NOTHING_DEALT, s, keys);
      && (forall h: Bucket :: |d[h]| == Rank(keys, |s|, h))
      && (forall i :: 0 <= i < |s| ==> Placed(d, s, keys, i))
      && Held(d, BUCKETS) == |s|
  {
    if s == [] {
      NothingHeld(BUCKETS);
    } else {
      var n := |s| - 1;
      DealPlaces(s[..n], keys[..n]);
      var d := Deal(NOTHING_DEALT, s[..n], keys[..n]);
      HeldUpdate(d, keys[n], d[keys[n]] + [s[n]], BUCKETS);
      forall h: Bucket ensures Rank(keys[..n], n, h) == Rank(keys, n, h) {
        RankFront(keys, n, n, h);
      }
      forall i | 0 <= i < n ensures Placed(Deal(NOTHING_DEALT, s, keys), s, keys, i) {
        PlacedOneMore(d, s, keys, i);
      }
    }
  }

  lemma {:induction false} NothingHeld(n: nat)
    requires n <= BUCKETS
    ensures Held(NOTHING_DEALT, n) == 0
  {
    if n > 0 {
      NothingHeld(n - 1);
    }
  }

  // ---- The whole area ------------------------------------------------------------------------

  /** Every entry lies inside the packets of the area. */
  predicate EntriesInside(dir: Directory, packets: seq<Packet>) {
    forall k :: 0 <= k < TYPES ==> dir[k].offset + dir[k].count <= |packets|
  }

  function SliceOf(dir: Directory, packets: seq<Packet>, k: nat): seq<Packet>
    requires EntriesInside(dir, packets) && k < TYPES
  {
    packets[dir[k].offset..dir[k].offset + dir[k].count]
  }

  /** Runs in the slices of the first n types; only PAT, PMT and CAT are looked through. */
  function RunsBefore(dir: Directory, packets: seq<Packet>, n: nat): nat
    requires EntriesInside(dir, packets) && n <= TYPES
  {
    if n == 0 then 0
    else
      var s := SliceOf(dir, packets, n - 1);
      RunsBefore(dir, packets, n - 1) + if PsiTypeToHowto(n - 1) == PSISI_40MS then RunCount(s, |s|) else 0
  }

  /** Buckets of the packets of one type. */
  function TypeBuckets(dir: Directory, packets: seq<Packet>, k: nat): (keys: seq<Bucket>)
    requires EntriesInside(dir, packets) && k < TYPES
    ensures |keys| == dir[k].count
  {
    var s := SliceOf(dir, packets, k);
    if PsiTypeToHowto(k) == PSISI_40MS then RunBuckets(s, RunsBefore(dir, packets, k), |s|)
      else Same(|s|, PsiTypeToHowto(k))
  }

  function Sent(dir: Directory, packets: seq<Packet>, n: nat): seq<Packet>
    requires EntriesInside(dir, packets) && n <= TYPES
  {
    if n == 0 then [] else Sent(dir, packets, n - 1) + SliceOf(dir, packets, n - 1)
  }

  function Keys(dir: Directory, packets: seq<Packet>, n: nat): (keys: seq<Bucket>)
    requires EntriesInside(dir, packets) && n <= TYPES
    ensures |keys| == |Sent(dir, packets, n)|
  {
    if n == 0 then [] else Keys(dir, packets, n - 1) + TypeBuckets(dir, packets, n - 1)
  }

  /** Contents of the buckets once the first n types are dealt. */
  function AppliedUpTo(dir: Directory, packets: seq<Packet>, n: nat): Dealt
    requires EntriesInside(dir, packets) && n <= TYPES
  {
    Deal(NOTHING_DEALT, Sent(dir, packets, n), Keys(dir, packets, n))
  }

  lemma AppliedStep(dir: Directory, packets: seq<Packet>, n: nat)
    requires EntriesInside(dir, packets) && n < TYPES
    ensures AppliedUpTo(dir, packets, n + 1) ==
      Deal(AppliedUpTo(dir, packets, n), SliceOf(dir, packets, n), TypeBuckets(dir, packets, n))
  {
    DealAppend(NOTHING_DEALT, Sent(dir, packets, n), Keys(dir, packets, n), SliceOf(dir, packets, n),
      TypeBuckets(dir, packets, n));
  }

  // ---- The loops -----------------------------------------------------------------------------

  /** Packets behind those a bucket holds. */
  method Put(buckets: array<seq<Packet>>, h: Bucket, more: seq<Packet>)
    requires buckets.Length == BUCKETS
    modifies buckets
    ensures buckets[..] == old(buckets[..])[h := old(buckets[h]) + more]
  {
    buckets[h] := buckets[h] + more;
  }

  /** The buckets after the first n packets of a slice that is looked through for runs. */
  ghost function DealtRuns(b: Dealt, s: seq<Packet>, before: nat, n: nat): Dealt
    requires n <= |s|
  {
    Deal(b, s[..n], RunBuckets(s, before, n))
  }

  lemma NextDealt(b: Dealt, s: seq<Packet>, before: nat, i: nat)
    requires i < |s|
    ensures var d, h := DealtRuns(b, s, before, i), RunBucket(s, before, i);
      DealtRuns(b, s, before, i + 1) == d[h := d[h] + [s[i]]]
  {
    DealOne(b, s[..i], RunBuckets(s, before, i), s[i], RunBucket(s, before, i));
    assert s[..i + 1] == s[..i] + [s[i]];
  }

  lemma NoneDealt(b: Dealt, s: seq<Packet>, before: nat)
    ensures DealtRuns(b, s, before, 0) == b && RunCount(s, 0) == 0
  {
  }

  lemma AllDealt(b: Dealt, s: seq<Packet>, before: nat)
    ensures DealtRuns(b, s, before, |s|) == Deal(b, s, RunBuckets(s, before, |s|))
  {
    assert s[..|s|] == s;
  }

  /** PID of the packet before the i-th; 0xFFFF for the first. */
  function LastPid(s: seq<Packet>, i: nat): nat
    requires i <= |s|
  {
    if i == 0 then 0xFFFF else PidOf(s[i - 1])
  }

  /** The decision for packet i, from the PIDs beside it. */
  method ChooseBucket(s: seq<Packet>, i: nat, lastPid: nat, mul0: nat, ghost before: nat)
      returns (howto: Bucket, mul: nat)
    requires i < |s| && lastPid == LastPid(s, i)
    requires mul0 == PSISI_MUL_PKT_0 - 1 + before + RunCount(s, i)
    ensures howto == RunBucket(s, before, i) && mul == PSISI_MUL_PKT_0 - 1 + before + RunCount(s, i + 1)
  {
    var pid := PidOf(s[i]);
    var nextPid := if i == |s| - 1 then 0xFFFF else PidOf(s[i + 1]);
    howto, mul := PSISI_40MS, mul0;
    if pid == lastPid || pid == nextPid {
      if pid != lastPid {
        mul := mul + 1;
      }
      if mul <= PSISI_MUL_PKT_0 + MUL_PKT_COUNT - 1 {
        howto := mul;
      }
    }
  }

  /** Packet i goes to its bucket. */
  method DealPacket(s: seq<Packet>, i: nat, buckets: array<seq<Packet>>, mul0: nat, ghost start: Dealt,
      ghost before: nat)
    returns (mul: nat)
    requires buckets.Length == BUCKETS && i < |s| && mul0 == PSISI_MUL_PKT_0 - 1 + before + RunCount(s, i)
    requires buckets[..] == DealtRuns(start, s, before, i)
    modifies buckets
    ensures mul == PSISI_MUL_PKT_0 - 1 + before + RunCount(s, i + 1)
    ensures buckets[..] == DealtRuns(start, s, before, i + 1)
  {
    var howto;
    howto, mul := ChooseBucket(s, i, LastPid(s, i), mul0, before);
    NextDealt(start, s, before, i);
    Put(buckets, howto, [s[i]]);
  }

  /** One PAT, PMT or CAT slice. `mul` is the bucket of the run met last. */
  method DealRuns(s: seq<Packet>, buckets: array<seq<Packet>>, mul0: nat) returns (mul: nat)
    requires buckets.Length == BUCKETS && mul0 >= PSISI_MUL_PKT_0 - 1
    modifies buckets
    ensures mul == mul0 + RunCount(s, |s|)
    ensures buckets[..] == Deal(old(buckets[..]), s, RunBuckets(s, mul0 - 2, |s|))
  {
    hide DealtRuns, Deal, RunCount, RunBuckets;
    ghost var start: Dealt, before: nat := buckets[..], mul0 - (PSISI_MUL_PKT_0 - 1);
    NoneDealt(start, s, before);
    mul := mul0;
    for i := 0 to |s|
      invariant mul == mul0 + RunCount(s, i)
      invariant buckets[..] == DealtRuns(start, s, before, i)
    {
      mul := DealPacket(s, i, buckets, mul, start, before);
    }
    AllDealt(start, s, before);
  }

  /** The slice of one type. */
  lemma NothingDealt(b: Dealt, s: seq<Packet>, keys: seq<Bucket>)
    requires |s| == |keys|
    ensures s == [] ==> Deal(b, s, keys) == b && RunCount(s, 0) == 0
  {
  }

  method DealType(dir: Directory, packets: seq<Packet>, t: nat, buckets: array<seq<Packet>>, mul0: nat)
      returns (mul: nat)
    requires buckets.Length == BUCKETS && EntriesInside(dir, packets) && t < TYPES
    requires mul0 == PSISI_MUL_PKT_0 - 1 + RunsBefore(dir, packets, t)
    modifies buckets
    ensures mul == PSISI_MUL_PKT_0 - 1 + RunsBefore(dir, packets, t + 1)
    ensures buckets[..] == Deal(old(buckets[..]), SliceOf(dir, packets, t), TypeBuckets(dir, packets, t))
  {
    hide Deal, RunBuckets, RunCount, SliceOf;
    var s := SliceOf(dir, packets, t);
    mul := mul0;
    NothingDealt(buckets[..], s, TypeBuckets(dir, packets, t));
    if |s| > 0 {
      var howto := PsiTypeToHowto(t);
      if howto == PSISI_40MS {
        mul := DealRuns(s, buckets, mul);
      } else {
        DealSame(buckets[..], s, howto);
        Put(buckets, howto, s);
      }
    }
  }

  /** All types in turn. */
  method ApplyFromOutputPsi(dir: Directory, packets: seq<Packet>) returns (buckets: array<seq<Packet>>)
    requires EntriesInside(dir, packets)
    ensures fresh(buckets) && buckets[..] == AppliedUpTo(dir, packets, TYPES)
    ensures buckets[2] == SliceOf(dir, packets, 4)
    ensures buckets[1] == SliceOf(dir, packets, 3) + SliceOf(dir, packets, 5) + SliceOf(dir, packets, 6) +
      SliceOf(dir, packets, 7)
  {
    buckets := new seq<Packet>[BUCKETS](_ => []);
    var mul: nat := PSISI_MUL_PKT_0 - 1;
    assert buckets[..] == NOTHING_DEALT;
    for t := 0 to TYPES
      invariant fresh(buckets) && buckets.Length == BUCKETS
      invariant mul == PSISI_MUL_PKT_0 - 1 + RunsBefore(dir, packets, t)
      invariant buckets[..] == AppliedUpTo(dir, packets, t)
    {
      AppliedStep(dir, packets, t);
      mul := DealType(dir, packets, t, buckets, mul);
    }
    BucketsByType(dir, packets);
  }

  // ---- What the buckets hold -------------------------------------------------------------------

  /** Packets i to j have one PID. */
  predicate OneRun(s: seq<Packet>, i: nat, j: nat)
    requires i <= j < |s|
  {
    forall k :: i <= k <= j ==> PidOf(s[k]) == PidOf(s[i])
  }

  lemma {:induction false} RunCountGrows(s: seq<Packet>, i: nat, j: nat)
    requires i <= j <= |s|
    ensures RunCount(s, i) <= RunCount(s, j)
  {
    if i < j {
      RunCountGrows(s, i, j - 1);
    }
  }

  lemma {:induction false} RunCountInRun(s: seq<Packet>, i: nat, j: nat)
    requires i <= j < |s| && OneRun(s, i, j)
    ensures RunCount(s, i + 1) == RunCount(s, j + 1)
  {
    if i < j {
      RunCountInRun(s, i, j - 1);
      assert PidOf(s[j - 1]) == PidOf(s[i]) == PidOf(s[j]);
    }
  }

  /** A run is not torn apart. */
  lemma RunsStayTogether(s: seq<Packet>, before: nat, i: nat, j: nat)
    requires i <= j < |s| && OneRun(s, i, j)
    ensures RunBucket(s, before, i) == RunBucket(s, before, j)
  {
    RunCountInRun(s, i, j);
    if i < j {
      assert PidOf(s[i]) == PidOf(s[i + 1]) && PidOf(s[j - 1]) == PidOf(s[i]) == PidOf(s[j]);
    }
  }

  /** Between packets of different runs another run opens, at the latest with the second. */
  lemma {:induction false} RunCountApart(s: seq<Packet>, i: nat, j: nat)
    requires i < j < |s| && !OneRun(s, i, j) && Joined(s, i) && Joined(s, j)
    ensures RunCount(s, i + 1) < RunCount(s, j + 1)
  {
    if PidOf(s[j - 1]) != PidOf(s[j]) {
      RunCountGrows(s, i + 1, j);
    } else {
      assert Joined(s, j - 1);
      assert i < j - 1 && !OneRun(s, i, j - 1);
      RunCountApart(s, i, j - 1);
    }
  }

  /** Different runs of a slice never share a multi-packet bucket; later runs get higher ones. */
  lemma RunsApart(s: seq<Packet>, before: nat, i: nat, j: nat)
    requires i < j < |s| && !OneRun(s, i, j)
    requires RunBucket(s, before, i) >= PSISI_MUL_PKT_0 && RunBucket(s, before, j) >= PSISI_MUL_PKT_0
    ensures RunBucket(s, before, i) < RunBucket(s, before, j)
  {
    RunCountApart(s, i, j);
  }

  /** A packet that belongs to a run knows which: at least one run is open. */
  lemma {:induction false} RunOpen(s: seq<Packet>, i: nat)
    requires i < |s| && Joined(s, i)
    ensures RunCount(s, i + 1) >= 1
  {
    if i > 0 && PidOf(s[i - 1]) == PidOf(s[i]) {
      assert Joined(s, i - 1);
      RunOpen(s, i - 1);
    }
  }

  /** A packet goes to a multi-packet bucket exactly when it has a neighbour of its PID and
      its run is among the first four. */
  lemma FirstFourRuns(s: seq<Packet>, before: nat, i: nat)
    requires i < |s|
    ensures RunBucket(s, before, i) >= PSISI_MUL_PKT_0 <==> Joined(s, i) && before + RunCount(s, i + 1) <= MUL_PKT_COUNT
    ensures RunBucket(s, before, i) < PSISI_MUL_PKT_0 ==> RunBucket(s, before, i) == PSISI_40MS
    ensures RunBucket(s, before, i) >= PSISI_MUL_PKT_0 ==>
      PSISI_MUL_PKT_0 + before <= RunBucket(s, before, i) < PSISI_MUL_PKT_0 + before + RunCount(s, |s|)
  {
    if Joined(s, i) {
      RunOpen(s, i);
      RunCountGrows(s, i + 1, |s|);
    }
  }

  lemma {:induction false} RunsBeforeGrows(dir: Directory, packets: seq<Packet>, n: nat, m: nat)
    requires EntriesInside(dir, packets) && n <= m <= TYPES
    ensures RunsBefore(dir, packets, n) <= RunsBefore(dir, packets, m)
  {
    if n < m {
      RunsBeforeGrows(dir, packets, n, m - 1);
    }
  }

  /** Runs of different types never share a multi-packet bucket either. */
  lemma TypesApart(dir: Directory, packets: seq<Packet>, t: nat, u: nat, i: nat, j: nat)
    requires EntriesInside(dir, packets) && t < u < TYPES && i < dir[t].count && j < dir[u].count
    requires TypeBuckets(dir, packets, t)[i] >= PSISI_MUL_PKT_0 && TypeBuckets(dir, packets, u)[j] >= PSISI_MUL_PKT_0
    ensures TypeBuckets(dir, packets, t)[i] < TypeBuckets(dir, packets, u)[j]
  {
    RunsBeforeGrows(dir, packets, t + 1, u);
    FirstFourRuns(SliceOf(dir, packets, t), RunsBefore(dir, packets, t), i);
    FirstFourRuns(SliceOf(dir, packets, u), RunsBefore(dir, packets, u), j);
  }

  /** With an accepted directory the packets sent are the packets of the area. */
  lemma {:induction false} AcceptedSent(dir: Directory, packets: seq<Packet>, n: nat)
    requires n <= TYPES && Scan(dir, n).ok && EntriesInside(dir, packets)
    ensures Scan(dir, n).next <= |packets| && Sent(dir, packets, n) == packets[..Scan(dir, n).next]
  {
    if n > 0 {
      AcceptedSent(dir, packets, n - 1);
    }
  }

  /** Every packet of an accepted area lands in exactly one bucket, in the order of the
      area, the buckets hold nothing else, and none outgrows its buffer. */
  lemma BucketsPartitionArea(dir: Directory, packets: seq<Packet>)
    requires Scan(dir, TYPES).ok && EntriesInside(dir, packets)
    ensures var d, keys, n := AppliedUpTo(dir, packets, TYPES), Keys(dir, packets, TYPES), Scan(dir, TYPES).next;
      && n == |keys| <= |packets| && Held(d, BUCKETS) == n && n < AREA_PACKETS <= BUCKET_ROOM
      && (forall h: Bucket :: |d[h]| == Rank(keys, n, h))
      && forall i :: 0 <= i < n ==> Placed(d, packets[..n], keys, i)
  {
    AcceptedSent(dir, packets, TYPES);
    ScanBound(dir, TYPES);
    DealPlaces(Sent(dir, packets, TYPES), Keys(dir, packets, TYPES));
  }

  // ---- Buckets by number ------------------------------------------------------------------------

  /** Packet i is the first of two or more of one PID. */
  predicate FirstOfRun(s: seq<Packet>, i: nat)
    requires i < |s|
  {
    i + 1 < |s| && PidOf(s[i + 1]) == PidOf(s[i]) && (i > 0 ==> PidOf(s[i - 1]) != PidOf(s[i]))
  }

  lemma {:induction false} RunCountIs(s: seq<Packet>, n: nat)
    requires n <= |s|
    ensures RunCount(s, n) == |set i: nat | i < n && FirstOfRun(s, i)|
  {
    var firsts := set i: nat | i < n && FirstOfRun(s, i);
    if n == 0 {
      assert firsts == {};
    } else {
      var before := set i: nat | i < n - 1 && FirstOfRun(s, i);
      RunCountIs(s, n - 1);
      assert firsts == before + if FirstOfRun(s, n - 1) then {n - 1} else {};
    }
  }

  /** The bucket of a packet that is looked at: with a neighbour of its PID, 3 for the first run of
      the area up to 6 for the fourth; else 0. */
  lemma RunBucketIs(s: seq<Packet>, before: nat, i: nat)
    requires i < |s|
    ensures var beside := (i > 0 && PidOf(s[i - 1]) == PidOf(s[i])) || (i + 1 < |s| && PidOf(s[i + 1]) == PidOf(s[i]));
      var run := before + |set j: nat | j < i + 1 && FirstOfRun(s, j)|;
      RunBucket(s, before, i) == if beside && run <= 4 then 2 + run else 0
  {
    hide RunCount;
    RunCountIs(s, i + 1);
  }

  /** The runs of a slice. */
  ghost function Runs(s: seq<Packet>): nat {
    |set j: nat | j < |s| && FirstOfRun(s, j)|
  }

  /** Runs are numbered through the slices of PAT, PMT and CAT, in this order. */
  lemma RunsNumbered(dir: Directory, packets: seq<Packet>)
    requires EntriesInside(dir, packets)
    ensures var pat, pmt, cat := SliceOf(dir, packets, 0), SliceOf(dir, packets, 1), SliceOf(dir, packets, 2);
      && TypeBuckets(dir, packets, 0) == RunBuckets(pat, 0, |pat|)
      && TypeBuckets(dir, packets, 1) == RunBuckets(pmt, Runs(pat), |pmt|)
      && TypeBuckets(dir, packets, 2) == RunBuckets(cat, Runs(pat) + Runs(pmt), |cat|)
  {
    hide RunCount, RunBuckets, SliceOf;
    var pat, pmt := SliceOf(dir, packets, 0), SliceOf(dir, packets, 1);
    RunCountIs(pat, |pat|);
    RunCountIs(pmt, |pmt|);
    assert RunsBefore(dir, packets, 0) == 0 && RunsBefore(dir, packets, 1) == RunCount(pat, |pat|);
    assert RunsBefore(dir, packets, 2) == RunCount(pat, |pat|) + RunCount(pmt, |pmt|);
  }

  /** What the buckets 0 and 3 to 6 hold together. */
  function Low(d: Dealt): multiset<Packet> {
    multiset(d[0]) + multiset(d[3]) + multiset(d[4]) + multiset(d[5]) + multiset(d[6])
  }

  lemma {:induction false} DealLow(b: Dealt, s: seq<Packet>, keys: seq<Bucket>)
    requires |s| == |keys| && forall i :: 0 <= i < |keys| ==> keys[i] != 1 && keys[i] != 2
    ensures var d := Deal(b, s, keys); d[1] == b[1] && d[2] == b[2] && Low(d) == Low(b) + multiset(s)
  {
    hide Low;
    if s != [] {
      var n := |s| - 1;
      DealLow(b, s[..n], keys[..n]);
      LowMore(Deal(b, s[..n], keys[..n]), keys[n], s[n]);
      assert s == s[..n] + [s[n]];
    }
  }

  lemma LowMore(d: Dealt, h: Bucket, p: Packet)
    requires h != 1 && h != 2
    ensures var d' := d[h := d[h] + [p]]; d'[1] == d[1] && d'[2] == d[2] && Low(d') == Low(d) + multiset{p}
  {
    assert multiset(d[h] + [p]) == multiset(d[h]) + multiset{p};
  }

  lemma RunKeys(dir: Directory, packets: seq<Packet>, t: nat)
    requires EntriesInside(dir, packets) && t < 3
    ensures var keys := TypeBuckets(dir, packets, t);
      |keys| == |SliceOf(dir, packets, t)| && forall i :: 0 <= i < |keys| ==> keys[i] != 1 && keys[i] != 2
  {
    hide RunCount, RunsBefore, RunBucket;
    var s, before := SliceOf(dir, packets, t), RunsBefore(dir, packets, t);
    forall i | 0 <= i < |s| ensures RunBucket(s, before, i) != 1 && RunBucket(s, before, i) != 2 {
      FirstFourRuns(s, before, i);
    }
  }

  lemma LookedThrough(dir: Directory, packets: seq<Packet>, t: nat)
    requires EntriesInside(dir, packets) && t < 3
    ensures var d, d' := AppliedUpTo(dir, packets, t), AppliedUpTo(dir, packets, t + 1);
      d'[1] == d[1] && d'[2] == d[2] && Low(d') == Low(d) + multiset(SliceOf(dir, packets, t))
  {
    hide Low, SliceOf, AppliedUpTo, TypeBuckets, Deal;
    AppliedStep(dir, packets, t);
    RunKeys(dir, packets, t);
    DealLow(AppliedUpTo(dir, packets, t), SliceOf(dir, packets, t), TypeBuckets(dir, packets, t));
  }

  lemma SentWhole(dir: Directory, packets: seq<Packet>, t: nat)
    requires EntriesInside(dir, packets) && 3 <= t < 8
    ensures var d, d', s := AppliedUpTo(dir, packets, t), AppliedUpTo(dir, packets, t + 1), SliceOf(dir, packets, t);
      var h := if t == 4 then 2 else 1;
      d' == d[h := d[h] + s] && Low(d') == Low(d)
  {
    hide SliceOf, AppliedUpTo, RunCount, Deal;
    AppliedStep(dir, packets, t);
    DealSame(AppliedUpTo(dir, packets, t), SliceOf(dir, packets, t), if t == 4 then 2 else 1);
  }

  /** Where the types go: the NIT to bucket 2; SDT and the types after the NIT to bucket 1, one
      after the other; PAT, PMT and CAT to buckets 0 and 3 to 6, and nothing else goes there. */
  lemma BucketsByType(dir: Directory, packets: seq<Packet>)
    requires EntriesInside(dir, packets)
    ensures var d := AppliedUpTo(dir, packets, 8);
      && d[2] == SliceOf(dir, packets, 4)
      && d[1] == SliceOf(dir, packets, 3) + SliceOf(dir, packets, 5) + SliceOf(dir, packets, 6) +
        SliceOf(dir, packets, 7)
      && multiset(d[0]) + multiset(d[3]) + multiset(d[4]) + multiset(d[5]) + multiset(d[6]) ==
        multiset(SliceOf(dir, packets, 0)) + multiset(SliceOf(dir, packets, 1)) + multiset(SliceOf(dir, packets, 2))
  {
    hide SliceOf, AppliedUpTo, EntriesInside;
    assert AppliedUpTo(dir, packets, 0) == NOTHING_DEALT by { NoneApplied(dir, packets); }
    assert Low(NOTHING_DEALT) == multiset{};
    LookedThrough(dir, packets, 0);
    LookedThrough(dir, packets, 1);
    LookedThrough(dir, packets, 2);
    SentWhole(dir, packets, 3);
    SentWhole(dir, packets, 4);
    SentWhole(dir, packets, 5);
    SentWhole(dir, packets, 6);
    SentWhole(dir, packets, 7);
    var s := SliceOf(dir, packets, 3);
    assert [] + s == s;
  }

  lemma NoneApplied(dir: Directory, packets: seq<Packet>)
    requires EntriesInside(dir, packets)
    ensures AppliedUpTo(dir, packets, 0) == NOTHING_DEALT
  {
  }
}
