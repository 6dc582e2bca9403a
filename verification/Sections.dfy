/** Cutting a section into transport packets and taking it out again (src/section.c;
    sections 2.4.3.2 and 2.4.4 of ISO/IEC 13818-1). */
module Sections {
  import opened Bytes

  const PACKET := 188
  const HEADER := 4
  const ROOM_FIRST := 183
  const ROOM := 184
  const PACKETS_MAX := 23
  const SECTION_LONGEST := 4231

  type Packet = p: seq<Byte> | |p| == PACKET witness Fill(PACKET, 0xFF)

  // ---- Packet headers ---------------------------------------------------------------------

  /** Header with payload only and no scrambling. */
  function Header(pid: nat, start: bool, cc: nat): (h: seq<Byte>)
    ensures |h| == HEADER
  {
    [0x47, (pid / 256) % 32 + if start then 0x40 else 0, pid % 256, cc % 16 + 0x10]
  }

  // What a receiver reads out of a packet.

  function PidOf(p: seq<Byte>): nat
    requires |p| >= HEADER
  {
    var hi: nat := p[1] % 32;
    hi * 256 + p[2]
  }

  predicate StartOf(p: seq<Byte>)
    requires |p| >= HEADER
  {
    (p[1] / 64) % 2 == 1
  }

  function CounterOf(p: seq<Byte>): nat
    requires |p| >= HEADER
  {
    p[3] % 16
  }

  /** The payload without the pointer field that follows a start indicator. */
  function PayloadOf(p: Packet): seq<Byte> {
    p[if StartOf(p) then HEADER + 1 else HEADER..]
  }

  lemma HeaderReads(pid: nat, start: bool, cc: nat, rest: seq<Byte>)
    requires pid < 0x2000
    ensures var p := Header(pid, start, cc) + rest;
      PidOf(p) == pid && (StartOf(p) <==> start) && CounterOf(p) == cc % 16
  {
  }

  // ---- Segmentation -----------------------------------------------------------------------

  function Room(count: nat): nat {
    if count == 0 then ROOM_FIRST else ROOM
  }

  /** The packet that carries the head of `sec` as the count-th of its section. */
  function PacketOf(sec: seq<Byte>, count: nat, pid: nat, cc: nat): (p: Packet)
  {
    var n := Min(|sec|, Room(count));
    Header(pid, count == 0, cc) + (if count == 0 then [0] else []) + sec[..n] + Fill(Room(count) - n, 0xFF)
  }

  function NextCount(count: nat): nat {
    if count + 1 >= PACKETS_MAX then 0 else count + 1
  }

  /** All packets of the remaining section. */
  function Packets(sec: seq<Byte>, count: nat, pid: nat, cc: nat): seq<Packet>
    decreases |sec|
  {
    if sec == [] then []
    else [PacketOf(sec, count, pid, cc)] + Packets(sec[Min(|sec|, Room(count))..], NextCount(count), pid, (cc + 1) % 16)
  }

  function Flatten(pkts: seq<Packet>): seq<Byte> {
    if pkts == [] then [] else pkts[0] + Flatten(pkts[1..])
  }

  // ---- Writing into a buffer ----------------------------------------------------------------

  lemma PatchOver(s: seq<Byte>, at: nat, a: seq<Byte>, b: seq<Byte>)
    requires at + |a| <= |s| && |b| <= |a|
    ensures Patch(Patch(s, at, a), at, b) == Patch(s, at, b + a[|b|..])
  {
  }

  /** One packet: header, pointer field, then the section bytes, padded at the end. */
  method WritePacket(left: seq<Byte>, count: nat, pid: nat, cc: nat, buf: array<Byte>, at: nat)
    requires at + PACKET <= buf.Length && left != []
    modifies buf
    ensures buf[..] == Patch(old(buf[..]), at, PacketOf(left, count, pid, cc))
  {
    ghost var before := buf[..];
    ghost var lead: seq<Byte> := Header(pid, count == 0, cc) + if count == 0 then [0] else [];
    var pos := at + HEADER;
    CopyInto(Header(pid, count == 0, cc), buf, at);
    if count == 0 {
      PatchAppend(before, at, Header(pid, true, cc), [0]);
      CopyInto([0], buf, pos);
      pos := pos + 1;
    }
    assert pos == at + |lead| && buf[..] == Patch(before, at, lead);
    var room := Room(count);
    if |left| >= room {
      CopyInto(left[..room], buf, pos);
      PatchAppend(before, at, lead, left[..room]);
      assert PacketOf(left, count, pid, cc) == lead + left[..room];
    } else {
      CopyInto(Fill(room, 0xFF), buf, pos);
      PatchAppend(before, at, lead, Fill(room, 0xFF));
      ghost var filled := buf[..];
      CopyInto(left, buf, pos);
      PaddedPacket(before, at, lead, left, room);
      assert PacketOf(left, count, pid, cc) == lead + (left + Fill(room - |left|, 0xFF)) by {
        assert left[..|left|] == left;
      }
    }
  }

  lemma PaddedPacket(s: seq<Byte>, at: nat, lead: seq<Byte>, left: seq<Byte>, room: nat)
    requires at + |lead| + room <= |s| && |left| <= room
    ensures Patch(Patch(s, at, lead + Fill(room, 0xFF)), at + |lead|, left) ==
      Patch(s, at, lead + (left + Fill(room - |left|, 0xFF)))
  {
    var filled := Patch(s, at, lead + Fill(room, 0xFF));
    assert filled == Patch(Patch(s, at, lead), at + |lead|, Fill(room, 0xFF));
    PatchOver(Patch(s, at, lead), at + |lead|, Fill(room, 0xFF), left);
    assert Fill(room, 0xFF)[|left|..] == Fill(room - |left|, 0xFF);
    PatchAppend(s, at, lead, left + Fill(room - |left|, 0xFF));
  }

  /** The loop of the segmenter; the packets go to the front of the buffer. */
  method SectionToTs(sec: seq<Byte>, buf: array<Byte>, pid: nat, cc0: nat) returns (tsLen: nat, cc: nat)
    requires pid < 0x10000 && cc0 < 16
    requires buf.Length >= PACKET * |Packets(sec, 0, pid, cc0)|
    modifies buf
    ensures var pkts := Packets(sec, 0, pid, cc0);
      tsLen == PACKET * |pkts| == |Flatten(pkts)| && cc == (cc0 + |pkts|) % 16 &&
      buf[..] == Patch(old(buf[..]), 0, Flatten(pkts))
  {
    ghost var before := buf[..];
    ghost var all := Packets(sec, 0, pid, cc0);
    ghost var done: seq<Packet> := [];
    var left, count := sec, 0;
    tsLen, cc := 0, cc0;
    while left != []
      invariant all == done + Packets(left, count, pid, cc)
      invariant tsLen == PACKET * |done| == |Flatten(done)| && tsLen <= buf.Length
      invariant buf[..] == Patch(before, 0, Flatten(done))
      invariant cc == (cc0 + |done|) % 16
      decreases |left|
    {
      ghost var p := PacketOf(left, count, pid, cc);
      PacketsStep(all, done, left, count, pid, cc);
      WritePacket(left, count, pid, cc, buf, tsLen);
      OnePacketMore(before, done, p);
      done := done + [p];
      left := left[Min(|left|, Room(count))..];
      tsLen := tsLen + PACKET;
      count := NextCount(count);
      CounterStep(cc0 + |done| - 1);
      cc := (cc + 1) % 16;
    }
    assert done == all;
  }

  lemma CounterStep(n: nat)
    ensures (n % 16 + 1) % 16 == (n + 1) % 16
  {
    assert n == 16 * (n / 16) + n % 16;
  }

  lemma PacketsStep(all: seq<Packet>, done: seq<Packet>, left: seq<Byte>, count: nat, pid: nat, cc: nat)
    requires all == done + Packets(left, count, pid, cc) && left != []
    ensures all == (done + [PacketOf(left, count, pid, cc)]) +
      Packets(left[Min(|left|, Room(count))..], NextCount(count), pid, (cc + 1) % 16)
    ensures |done| < |all|
  {
  }

  lemma OnePacketMore(before: seq<Byte>, done: seq<Packet>, p: Packet)
    requires |Flatten(done)| + PACKET <= |before|
    ensures |Flatten(done + [p])| == |Flatten(done)| + PACKET
    ensures Patch(Patch(before, 0, Flatten(done)), |Flatten(done)|, p) == Patch(before, 0, Flatten(done + [p]))
  {
    FlattenSnoc(done, p);
    PatchAppend(before, 0, Flatten(done), p);
  }

  lemma {:induction false} FlattenSnoc(pkts: seq<Packet>, p: Packet)
    ensures Flatten(pkts + [p]) == Flatten(pkts) + p
  {
    if pkts == [] {
      assert [p][1..] == [];
      assert pkts + [p] == [p];
      assert Flatten([p]) == p + Flatten([]);
    } else {
      assert (pkts + [p])[1..] == pkts[1..] + [p];
      FlattenSnoc(pkts[1..], p);
    }
  }

  // ---- What the packets carry ------------------------------------------------------------

  /** Number of packets of a section of n bytes. */
  function PacketCount(n: nat): nat {
    if n == 0 then 0 else (n + 1 + ROOM - 1) / ROOM
  }

  /** Packets still due for n bytes once some packets are out. */
  function RestCount(n: nat, count: nat): nat {
    if count == 0 then PacketCount(n) else (n + ROOM - 1) / ROOM
  }

  /** What follows the section in the packet stream: the payloads, pointer fields removed. */
  function Payloads(pkts: seq<Packet>): seq<Byte> {
    if pkts == [] then [] else PayloadOf(pkts[0]) + Payloads(pkts[1..])
  }

  lemma PacketPayload(sec: seq<Byte>, count: nat, pid: nat, cc: nat)
    requires pid < 0x2000
    ensures var p, n := PacketOf(sec, count, pid, cc), Min(|sec|, Room(count));
      PidOf(p) == pid && (StartOf(p) <==> count == 0) && CounterOf(p) == cc % 16 &&
      PayloadOf(p) == sec[..n] + Fill(Room(count) - n, 0xFF)
  {
    var n := Min(|sec|, Room(count));
    var lead := if count == 0 then [0] else [];
    var body := sec[..n] + Fill(Room(count) - n, 0xFF);
    HeaderReads(pid, count == 0, cc, lead + body);
    assert PacketOf(sec, count, pid, cc) == Header(pid, count == 0, cc) + (lead + body);
  }

  /** The packets from the count-th on, while the section fits before the counter wraps. */
  lemma {:induction false} PacketsCarry(sec: seq<Byte>, count: nat, pid: nat, cc: nat)
    requires pid < 0x2000 && cc < 16 && count < PACKETS_MAX
    requires |sec| <= Room(count) + ROOM * (PACKETS_MAX - 1 - count)
    ensures var pkts := Packets(sec, count, pid, cc);
      && |pkts| == RestCount(|sec|, count)
      && (forall i :: 0 <= i < |pkts| ==> PidOf(pkts[i]) == pid)
      && (forall i :: 0 <= i < |pkts| ==> StartOf(pkts[i]) == (count == 0 && i == 0))
      && (forall i :: 0 <= i < |pkts| ==> CounterOf(pkts[i]) == (cc + i) % 16)
    decreases |sec|
  {
    if sec != [] {
      var n := Min(|sec|, Room(count));
      PacketPayload(sec, count, pid, cc);
      if n < |sec| {
        PacketsCarry(sec[n..], NextCount(count), pid, (cc + 1) % 16);
        CarryCons(PacketOf(sec, count, pid, cc), Packets(sec[n..], NextCount(count), pid, (cc + 1) % 16), count, pid,
          cc);
      } else {
        assert sec[n..] == [];
      }
    }
  }

  /** A packet in front of packets that carry on. */
  lemma CarryCons(p: Packet, rest: seq<Packet>, count: nat, pid: nat, cc: nat)
    requires PidOf(p) == pid && (StartOf(p) <==> count == 0) && CounterOf(p) == cc % 16 && cc < 16
    requires forall i :: 0 <= i < |rest| ==> PidOf(rest[i]) == pid
    requires forall i :: 0 <= i < |rest| ==> !StartOf(rest[i])
    requires forall i :: 0 <= i < |rest| ==> CounterOf(rest[i]) == ((cc + 1) % 16 + i) % 16
    ensures var pkts := [p] + rest;
      && (forall i :: 0 <= i < |pkts| ==> PidOf(pkts[i]) == pid)
      && (forall i :: 0 <= i < |pkts| ==> StartOf(pkts[i]) == (count == 0 && i == 0))
      && (forall i :: 0 <= i < |pkts| ==> CounterOf(pkts[i]) == (cc + i) % 16)
  {
    forall i | 0 < i < |rest| + 1 ensures CounterOf(([p] + rest)[i]) == (cc + i) % 16 {
      CounterShift(cc, i - 1);
    }
  }

  lemma CounterShift(cc: nat, i: nat)
    ensures ((cc + 1) % 16 + i) % 16 == (cc + (i + 1)) % 16
  {
    assert cc + 1 == 16 * ((cc + 1) / 16) + (cc + 1) % 16;
    ModAdd((cc + 1) % 16 + i, (cc + 1) / 16);
  }

  lemma ModAdd(a: nat, q: nat)
    ensures (a + 16 * q) % 16 == a % 16
  {
  }

  lemma CounterSum(n: nat, m: nat)
    ensures (n % 16 + m) % 16 == (n + m) % 16
  {
    ModAdd(n % 16 + m, n / 16);
  }

  /** Padding behind a section of n bytes. */
  function Padding(n: nat, count: nat): (pad: nat)
    requires count < PACKETS_MAX
    ensures pad < ROOM
    decreases n
  {
    if n == 0 then 0 else if n <= Room(count) then Room(count) - n else Padding(n - Room(count), NextCount(count))
  }

  /** Taking headers and pointer field away leaves the section, followed only by 0xFF. */
  lemma {:induction false} PayloadsRestore(sec: seq<Byte>, count: nat, pid: nat, cc: nat)
    requires pid < 0x2000 && cc < 16 && count < PACKETS_MAX
    ensures Payloads(Packets(sec, count, pid, cc)) == sec + Fill(Padding(|sec|, count), 0xFF)
    decreases |sec|
  {
    if sec == [] {
      assert sec + Fill(0, 0xFF) == [];
    } else {
      var n := Min(|sec|, Room(count));
      var p := PacketOf(sec, count, pid, cc);
      var rest := Packets(sec[n..], NextCount(count), pid, (cc + 1) % 16);
      PacketPayload(sec, count, pid, cc);
      PayloadsCons(p, rest);
      if n < |sec| {
        PayloadsRestore(sec[n..], NextCount(count), pid, (cc + 1) % 16);
        SplitAndPad(sec, n, Padding(|sec|, count));
      } else {
        assert rest == [];
        assert PayloadOf(p) + [] == sec + Fill(Room(count) - n, 0xFF);
      }
    }
  }

  lemma SplitAndPad(sec: seq<Byte>, n: nat, pad: nat)
    requires n <= |sec|
    ensures sec[..n] + Fill(0, 0xFF) + (sec[n..] + Fill(pad, 0xFF)) == sec + Fill(pad, 0xFF)
  {
  }

  lemma PayloadsCons(p: Packet, rest: seq<Packet>)
    ensures Payloads([p] + rest) == PayloadOf(p) + Payloads(rest)
  {
    assert ([p] + rest)[1..] == rest;
  }

  /** Whatever the length, each packet is cut as one of its section, with the counters in a row. */
  lemma {:induction false} PacketIs(sec: seq<Byte>, count: nat, pid: nat, cc: nat, i: nat)
      returns (left: seq<Byte>, at: nat)
    requires cc < 16 && i < |Packets(sec, count, pid, cc)|
    ensures left != [] && Packets(sec, count, pid, cc)[i] == PacketOf(left, at, pid, (cc + i) % 16)
    decreases |sec|
  {
    hide PacketOf;
    if i == 0 {
      left, at := sec, count;
    } else {
      left, at := PacketIs(sec[Min(|sec|, Room(count))..], NextCount(count), pid, (cc + 1) % 16, i - 1);
      CounterShift(cc, i - 1);
    }
  }

  /** The layout of every packet: sync byte; start indicator, no error, no priority, and the PID
      in 13 bits; not scrambled, payload only, and the counter; a pointer field of 0 if it starts. */
  lemma PacketLayout(sec: seq<Byte>, pid: nat, cc: nat, i: nat)
    requires pid < 0x2000 && cc < 16 && i < |Packets(sec, 0, pid, cc)|
    ensures var p := Packets(sec, 0, pid, cc)[i];
      && p[0] == 0x47 && p[1] == pid / 256 + (if StartOf(p) then 0x40 else 0) && p[2] == pid % 256
      && p[3] == 0x10 + (cc + i) % 16 && (StartOf(p) ==> p[4] == 0)
  {
    var left, at := PacketIs(sec, 0, pid, cc, i);
    PacketPayload(left, at, pid, (cc + i) % 16);
    var p := PacketOf(left, at, pid, (cc + i) % 16);
    assert p[..4] == Header(pid, at == 0, (cc + i) % 16);
    assert p[0] == p[..4][0] && p[1] == p[..4][1] && p[2] == p[..4][2] && p[3] == p[..4][3];
  }

  /** Only the first packet starts the section exactly if it has at most 4231 bytes. */
  lemma StartsOnce(sec: seq<Byte>, pid: nat, cc: nat)
    requires pid < 0x2000 && cc < 16
    ensures var pkts := Packets(sec, 0, pid, cc);
      (forall i :: 0 <= i < |pkts| ==> (StartOf(pkts[i]) <==> i == 0)) <==> |sec| <= 4231
  {
    if |sec| <= SECTION_LONGEST {
      PacketsCarry(sec, 0, pid, cc);
    } else {
      LongSectionRestarts(sec, 0, pid, cc);
    }
  }

  /** Segmentation as the standard wants it, for every section up to 4231 bytes: the
      section comes back, only the first packet starts it, counters are consecutive. */
  lemma Segmentation(sec: seq<Byte>, pid: nat, cc: nat)
    requires pid < 0x2000 && cc < 16 && 1 <= |sec| <= SECTION_LONGEST
    ensures var pkts := Packets(sec, 0, pid, cc);
      && |pkts| == (|sec| + ROOM) / ROOM
      && (forall i :: 0 <= i < |pkts| ==> PidOf(pkts[i]) == pid && (StartOf(pkts[i]) <==> i == 0) &&
                                          CounterOf(pkts[i]) == (cc + i) % 16)
      && exists pad: nat :: pad < ROOM && Payloads(pkts) == sec + Fill(pad, 0xFF)
  {
    PacketsCarry(sec, 0, pid, cc);
    PayloadsRestore(sec, 0, pid, cc);
  }

  /** The announced length. */
  function SectionToTsLength(secLen: nat): nat {
    var tsLen := secLen + 3 + 1;
    var num := tsLen / ROOM;
    (if tsLen % ROOM > 0 then num + 1 else num) * PACKET
  }

  /** The announced length is that of the packets, and one packet more if the section ends within
      the last three bytes of a packet. */
  lemma AnnouncedLength(sec: seq<Byte>, pid: nat, cc: nat)
    requires pid < 0x2000 && cc < 16 && 1 <= |sec| <= SECTION_LONGEST
    ensures SectionToTsLength(|sec|) ==
      188 * |Packets(sec, 0, pid, cc)| + if 1 <= (|sec| + 4) % 184 <= 3 then 188 else 0
  {
    PacketsCarry(sec, 0, pid, cc);
  }

  /** A section of at most 1024 bytes fits the buffer of seven packets. */
  lemma SevenPackets(sec: seq<Byte>, pid: nat, cc: nat)
    requires pid < 0x2000 && cc < 16 && |sec| <= 1024
    ensures |Packets(sec, 0, pid, cc)| <= 7
  {
    PacketsCarry(sec, 0, pid, cc);
  }

  /** Beyond 4231 bytes the packet counter wraps and a second packet claims to start the section. */
  lemma {:induction false} LongSectionRestarts(sec: seq<Byte>, count: nat, pid: nat, cc: nat)
    requires pid < 0x2000 && cc < 16 && count < PACKETS_MAX
    requires |sec| > Room(count) + ROOM * (PACKETS_MAX - 1 - count)
    ensures var pkts := Packets(sec, count, pid, cc);
      |pkts| > PACKETS_MAX - count && StartOf(pkts[PACKETS_MAX - count])
    decreases PACKETS_MAX - count
  {
    var rest := sec[Room(count)..];
    if count + 1 < PACKETS_MAX {
      LongSectionRestarts(rest, count + 1, pid, (cc + 1) % 16);
    } else {
      PacketPayload(rest, 0, pid, (cc + 1) % 16);
      assert Packets(rest, 0, pid, (cc + 1) % 16)[0] == PacketOf(rest, 0, pid, (cc + 1) % 16);
    }
  }

  // ---- Taking sections out again -----------------------------------------------------------

  /** The length the reader takes from bytes 6 and 7 of a packet: the 3 is added to the
      low byte before the two parts are joined by a bitwise or. */
  function ReadLength(high: Byte, low: Byte): (n: nat)
    ensures 3 <= n
    ensures low + 3 < 256 as int ==> n / 256 == high % 16 && n % 256 == low + 3
    ensures low + 3 >= 256 as int ==> n / 256 == (high % 16) / 2 * 2 + 1 && n % 256 == low + 3 - 256
  {
    var hi: int, lo: int := high % 16, low;
    if lo + 3 < 256 || hi % 2 == 0 then hi * 256 + lo + 3 else hi * 256 + lo + 3 - 256
  }

  function LengthOf(p: Packet): nat {
    ReadLength(p[6], p[7])
  }

  /** Outcome of one pop: packets used up, length (0: nothing found), bytes copied. */
  datatype Popped = Popped(used: nat, len: nat, bytes: seq<Byte>)

  /** The reader from packet i on, with what it has copied so far. */
  function Pop(pkts: seq<Packet>, i: nat, copied: seq<Byte>): (r: Popped)
    requires i <= |pkts|
    ensures i <= r.used <= |pkts| && (i < |pkts| ==> i < r.used) && r.len <= |r.bytes|
    ensures |copied| <= |r.bytes| <= |copied| + ROOM_FIRST * (|pkts| - i)
    decreases |pkts| - i
  {
    if i == |pkts| then Popped(i, 0, copied)
    else if !StartOf(pkts[i]) then Pop(pkts, i + 1, copied)
    else
      var n := Min(LengthOf(pkts[i]), ROOM_FIRST);
      var copied' := copied + pkts[i][HEADER + 1..HEADER + 1 + n];
      if LengthOf(pkts[i]) <= ROOM_FIRST then Popped(i + 1, LengthOf(pkts[i]), copied')
      else Pop(pkts, i + 1, copied')
  }

  /** The i-th packet of an area. */
  function PacketAt(ts: seq<Byte>, at: nat, i: nat): (p: Packet)
    requires at + PACKET * (i + 1) <= |ts|
  {
    ts[at + PACKET * i..at + PACKET * (i + 1)]
  }

  function PacketsAt(ts: seq<Byte>, at: nat, n: nat): (pkts: seq<Packet>)
    requires at + PACKET * n <= |ts|
    ensures |pkts| == n
    ensures forall i :: 0 <= i < n ==> pkts[i] == PacketAt(ts, at, i)
  {
    if n == 0 then [] else PacketsAt(ts, at, n - 1) + [PacketAt(ts, at, n - 1)]
  }

  /** One packet read on. */
  lemma PopStep(pkts: seq<Packet>, i: nat, copied: seq<Byte>)
    requires i < |pkts|
    ensures !StartOf(pkts[i]) ==> Pop(pkts, i, copied) == Pop(pkts, i + 1, copied)
    ensures StartOf(pkts[i]) ==>
      var n := Min(LengthOf(pkts[i]), ROOM_FIRST);
      var more := copied + pkts[i][HEADER + 1..HEADER + 1 + n];
      Pop(pkts, i, copied) ==
        if LengthOf(pkts[i]) <= ROOM_FIRST then Popped(i + 1, LengthOf(pkts[i]), more) else Pop(pkts, i + 1, more)
  {
  }

  lemma PopEnd(pkts: seq<Packet>, copied: seq<Byte>)
    ensures Pop(pkts, |pkts|, copied) == Popped(|pkts|, 0, copied)
  {
  }

  /** The reader: moves on through the area and counts the packets left. */
  method TsPopSection(ts: seq<Byte>, at0: nat, pkts0: nat, sec: array<Byte>) returns (at: nat, pkts: nat, secLen: nat)
    requires at0 + PACKET * pkts0 <= |ts| && sec.Length >= |Pop(PacketsAt(ts, at0, pkts0), 0, []).bytes|
    modifies sec
    ensures var r := Pop(PacketsAt(ts, at0, pkts0), 0, []);
      && secLen == r.len && at == at0 + PACKET * r.used && pkts == pkts0 - r.used
      && |r.bytes| <= sec.Length && sec[..|r.bytes|] == r.bytes
  {
    hide Pop, StartOf, LengthOf;
    ghost var all := PacketsAt(ts, at0, pkts0);
    ghost var copied: seq<Byte> := [];
    var total := 0;
    at := at0;
    for i := 0 to pkts0
      invariant at == at0 + PACKET * i
      invariant Pop(all, 0, []) == Pop(all, i, copied)
      invariant total == |copied| <= sec.Length && sec[..total] == copied
    {
      var packet: Packet := ts[at..at + PACKET];
      assert all[i] == PacketAt(ts, at0, i) == packet;
      PopStep(all, i, copied);
      if StartOf(packet) {
        var length := LengthOf(packet);
        var chunk := packet[HEADER + 1..HEADER + 1 + Min(length, ROOM_FIRST)];
        Append(chunk, sec, total);
        copied := copied + chunk;
        total := total + |chunk|;
        if length <= ROOM_FIRST {
          return at + PACKET, pkts0 - (i + 1), length;
        }
      }
      at := at + PACKET;
    }
    PopEnd(all, copied);
    return at, 0, 0;
  }

  /** A section whose length field says how long it is (section 2.4.4.1 and following). */
  predicate LengthField(sec: seq<Byte>) {
    |sec| >= 3 && (sec[1] % 16) * (256 as int) + (sec[2] as int) + 3 == |sec|
  }

  lemma FirstPacketReads(sec: seq<Byte>, pid: nat, cc: nat)
    requires pid < 0x2000 && LengthField(sec)
    ensures var p := PacketOf(sec, 0, pid, cc);
      StartOf(p) && (LengthOf(p) <= ROOM_FIRST <==> |sec| <= ROOM_FIRST) &&
      (|sec| <= ROOM_FIRST ==> LengthOf(p) == |sec| && p[HEADER + 1..HEADER + 1 + |sec|] == sec)
  {
    var p := PacketOf(sec, 0, pid, cc);
    PacketPayload(sec, 0, pid, cc);
    var n := Min(|sec|, ROOM_FIRST);
    assert p[6] == sec[1] && p[7] == sec[2];
    if |sec| <= ROOM_FIRST {
      assert PayloadOf(p)[..|sec|] == sec;
    }
  }

  /** A section of one packet is popped whole, whatever follows it. */
  lemma PopOnePacket(sec: seq<Byte>, pid: nat, cc: nat, rest: seq<Packet>)
    requires pid < 0x2000 && cc < 16 && LengthField(sec) && |sec| <= ROOM_FIRST
    ensures var pkts := Packets(sec, 0, pid, cc);
      |pkts| == 1 && Pop(pkts + rest, 0, []) == Popped(1, |sec|, sec)
  {
    FirstPacketReads(sec, pid, cc);
    assert sec[|sec|..] == [];
    var pkts := Packets(sec, 0, pid, cc);
    assert Packets(sec[|sec|..], NextCount(0), pid, (cc + 1) % 16) == [];
    assert pkts == [PacketOf(sec, 0, pid, cc)];
    assert (pkts + rest)[0] == PacketOf(sec, 0, pid, cc);
    assert [] + sec == sec;
  }

  /** Packets without a start indicator are passed over. */
  lemma {:induction false} PopNothing(pkts: seq<Packet>, i: nat, copied: seq<Byte>)
    requires i <= |pkts| && forall j :: i <= j < |pkts| ==> !StartOf(pkts[j])
    ensures Pop(pkts, i, copied) == Popped(|pkts|, 0, copied)
    decreases |pkts| - i
  {
    if i < |pkts| {
      PopNothing(pkts, i + 1, copied);
    }
  }

  /** Popping undoes packing exactly for the sections that fit one packet; any longer
      section is swallowed and reported as nothing. */
  lemma PopRecoversExactly(sec: seq<Byte>, pid: nat, cc: nat)
    requires pid < 0x2000 && cc < 16 && LengthField(sec)
    ensures var r := Pop(Packets(sec, 0, pid, cc), 0, []);
      && (r.len == |sec| && r.bytes == sec <==> |sec| <= ROOM_FIRST)
      && (|sec| > ROOM_FIRST ==> r.len == 0 && r.used == |Packets(sec, 0, pid, cc)|)
  {
    var pkts := Packets(sec, 0, pid, cc);
    PacketsCarry(sec, 0, pid, cc);
    if |sec| <= ROOM_FIRST {
      PopOnePacket(sec, pid, cc, []);
      assert pkts + [] == pkts;
    } else {
      FirstPacketReads(sec, pid, cc);
      assert pkts[0] == PacketOf(sec, 0, pid, cc);
      PopNothing(pkts, 1, [] + pkts[0][HEADER + 1..HEADER + 1 + ROOM_FIRST]);
    }
  }

  /** A longer section leaves its head behind: the next section of one packet is then reported with
      its own length, and the bytes found are those of the longer one. */
  lemma PopAfterLonger(sec: seq<Byte>, next: seq<Byte>, pid: nat, cc: nat)
    requires pid < 0x2000 && cc < 16 && LengthField(sec) && LengthField(next) && |next| <= ROOM_FIRST < |sec|
    ensures var pkts, more := Packets(sec, 0, pid, cc), Packets(next, 0, pid, cc);
      Pop(pkts + more, 0, []) == Popped(|pkts| + 1, |next|, sec[..183] + next)
  {
    var pkts, more := Packets(sec, 0, pid, cc), Packets(next, 0, pid, cc);
    PacketsCarry(sec, 0, pid, cc);
    FirstPacketReads(sec, pid, cc);
    FirstPacketReads(next, pid, cc);
    PopOnePacket(next, pid, cc, []);
    PacketPayload(sec, 0, pid, cc);
    assert pkts[0] == PacketOf(sec, 0, pid, cc) && more[0] == PacketOf(next, 0, pid, cc);
    assert pkts[0][HEADER + 1..HEADER + 1 + ROOM_FIRST] == PayloadOf(pkts[0]) == sec[..183];
    PopPasses(pkts + more, 1, |pkts|, sec[..183]);
    assert (pkts + more)[|pkts|] == more[0];
    PopStep(pkts + more, 0, []);
    PopStep(pkts + more, |pkts|, sec[..183]);
    assert [] + sec[..183] == sec[..183];
  }

  lemma {:induction false} PopPasses(pkts: seq<Packet>, i: nat, end: nat, copied: seq<Byte>)
    requires i <= end <= |pkts| && forall j :: i <= j < end ==> !StartOf(pkts[j])
    ensures Pop(pkts, i, copied) == Pop(pkts, end, copied)
    decreases end - i
  {
    if i < end {
      PopPasses(pkts, i + 1, end, copied);
    }
  }

  // ---- Many sections in one area -----------------------------------------------------------

  /** A section and the PID it is sent with. */
  datatype PidSection = PidSection(section: seq<Byte>, pid: nat)

  /** Sections packed one after the other, the counter running on across them. */
  function PackAll(secs: seq<PidSection>): seq<Packet> {
    if secs == [] then []
    else
      var before, s := PackAll(secs[..|secs| - 1]), secs[|secs| - 1];
      before + Packets(s.section, 0, s.pid, |before| % 16)
  }

  function SectionBytes(secs: seq<PidSection>): (bytes: seq<seq<Byte>>)
    ensures |bytes| == |secs| && forall i :: 0 <= i < |secs| ==> bytes[i] == secs[i].section
  {
    if secs == [] then [] else [secs[0].section] + SectionBytes(secs[1..])
  }

  /** The counters run on across the sections, whatever their lengths. */
  lemma {:induction false} CountersRunOn(secs: seq<PidSection>, i: nat)
    requires i < |PackAll(secs)| && forall k :: 0 <= k < |secs| ==> secs[k].pid < 0x2000
    ensures CounterOf(PackAll(secs)[i]) == i % 16
    decreases |secs|
  {
    hide PacketOf, Packets, CounterOf;
    var n := |secs| - 1;
    var before, s := PackAll(secs[..n]), secs[n];
    if i < |before| {
      CountersRunOn(secs[..n], i);
    } else {
      var left, at := PacketIs(s.section, 0, s.pid, |before| % 16, i - |before|);
      PacketPayload(left, at, s.pid, (|before| % 16 + (i - |before|)) % 16);
      CounterSum(|before|, i - |before|);
    }
  }

  /** Each section is sent with its PID. */
  lemma {:induction false} PidsOfPacked(secs: seq<PidSection>, i: nat) returns (k: nat)
    requires i < |PackAll(secs)| && forall k :: 0 <= k < |secs| ==> secs[k].pid < 0x2000
    ensures k < |secs| && PidOf(PackAll(secs)[i]) == secs[k].pid
    decreases |secs|
  {
    hide PacketOf, Packets, PidOf;
    var n := |secs| - 1;
    var before, s := PackAll(secs[..n]), secs[n];
    if i < |before| {
      k := PidsOfPacked(secs[..n], i);
    } else {
      k := n;
      var left, at := PacketIs(s.section, 0, s.pid, |before| % 16, i - |before|);
      PacketPayload(left, at, s.pid, (|before| % 16 + (i - |before|)) % 16);
    }
  }

  /** What popping until no packet is left yields. */
  function PopAll(pkts: seq<Packet>): seq<seq<Byte>>
    decreases |pkts|
  {
    if pkts == [] then []
    else
      var r := Pop(pkts, 0, []);
      [r.bytes[..r.len]] + PopAll(pkts[r.used..])
  }

  /** A packet that holds a section entirely. */
  predicate Whole(p: Packet) {
    StartOf(p) && LengthOf(p) <= ROOM_FIRST
  }

  function SectionIn(p: Packet): seq<Byte>
    requires Whole(p)
  {
    p[HEADER + 1..HEADER + 1 + LengthOf(p)]
  }

  /** Each such packet is popped on its own. */
  lemma {:induction false} PopAllWhole(pkts: seq<Packet>)
    requires forall i :: 0 <= i < |pkts| ==> Whole(pkts[i])
    ensures |PopAll(pkts)| == |pkts| && forall i :: 0 <= i < |pkts| ==> PopAll(pkts)[i] == SectionIn(pkts[i])
  {
    if pkts != [] {
      PopAllWhole(pkts[1..]);
      var r := Pop(pkts, 0, []);
      assert r.used == 1 && [] + SectionIn(pkts[0]) == SectionIn(pkts[0]) == r.bytes[..r.len];
      assert PopAll(pkts) == [SectionIn(pkts[0])] + PopAll(pkts[1..]);
    }
  }

  /** Announces its own length and is short enough for one packet. */
  predicate OnePacket(s: PidSection) {
    LengthField(s.section) && |s.section| <= ROOM_FIRST && s.pid < 0x2000
  }

  /** Packet p holds section s and nothing else. */
  predicate Carries(p: Packet, s: PidSection) {
    Whole(p) && SectionIn(p) == s.section
  }

  lemma OnePacketPacked(s: PidSection, cc: nat)
    requires OnePacket(s) && cc < 16
    ensures var pkts := Packets(s.section, 0, s.pid, cc); |pkts| == 1 && Carries(pkts[0], s)
  {
    FirstPacketReads(s.section, s.pid, cc);
    PopOnePacket(s.section, s.pid, cc, []);
  }

  predicate AllCarried(pkts: seq<Packet>, secs: seq<PidSection>) {
    |pkts| == |secs| && forall i :: 0 <= i < |secs| ==> Carries(pkts[i], secs[i])
  }

  lemma OneMoreCarried(pkts: seq<Packet>, secs: seq<PidSection>, more: seq<Packet>, s: PidSection)
    requires AllCarried(pkts, secs) && |more| == 1 && Carries(more[0], s)
    ensures AllCarried(pkts + more, secs + [s])
  {
  }

  lemma {:induction false} PackAllOne(secs: seq<PidSection>)
    requires forall i :: 0 <= i < |secs| ==> OnePacket(secs[i])
    ensures AllCarried(PackAll(secs), secs)
  {
    if secs != [] {
      var n := |secs| - 1;
      var before, s := PackAll(secs[..n]), secs[n];
      PackAllOne(secs[..n]);
      OnePacketPacked(s, |before| % 16);
      OneMoreCarried(before, secs[..n], Packets(s.section, 0, s.pid, |before| % 16), s);
      assert secs[..n] + [s] == secs;
    }
  }

  /** Sections of one packet each come back in order, and the packets are then used up. */
  lemma PopAllRestores(secs: seq<PidSection>)
    requires forall i :: 0 <= i < |secs| ==> OnePacket(secs[i])
    ensures |PackAll(secs)| == |secs| && PopAll(PackAll(secs)) == SectionBytes(secs)
  {
    PackAllOne(secs);
    forall i | 0 <= i < |secs| ensures Whole(PackAll(secs)[i]) {
      assert Carries(PackAll(secs)[i], secs[i]);
    }
    PopAllWhole(PackAll(secs));
  }

  /** Pops one section into a buffer of its own. */
  method PopNext(ts: seq<Byte>, at0: nat, left0: nat) returns (section: seq<Byte>, at: nat, left: nat)
    requires at0 + PACKET * left0 <= |ts|
    ensures var r := Pop(PacketsAt(ts, at0, left0), 0, []);
      at == at0 + PACKET * r.used && left == left0 - r.used && section == r.bytes[..r.len]
  {
    var sec := new Byte[ROOM_FIRST * left0];
    var length;
    at, left, length := TsPopSection(ts, at0, left0, sec);
    ghost var r := Pop(PacketsAt(ts, at0, left0), 0, []);
    assert sec[..length] == sec[..|r.bytes|][..length];
    section := sec[..length];
  }

  /** The loop that pops sections until no packet is left. */
  method PopSections(ts: seq<Byte>, at0: nat, pkts0: nat) returns (sections: seq<seq<Byte>>)
    requires at0 + PACKET * pkts0 <= |ts|
    ensures sections == PopAll(PacketsAt(ts, at0, pkts0))
  {
    sections := [];
    var at: nat, left: nat := at0, pkts0;
    while left > 0
      invariant at + PACKET * left <= |ts|
      invariant PopAll(PacketsAt(ts, at0, pkts0)) == sections + PopAll(PacketsAt(ts, at, left))
      decreases left
    {
      sections, at, left := PopMore(ts, at, left, sections);
    }
  }

  /** One section more, and what is then still to come. */
  method PopMore(ts: seq<Byte>, at0: nat, left0: nat, sections0: seq<seq<Byte>>)
      returns (sections: seq<seq<Byte>>, at: nat, left: nat)
    requires at0 + PACKET * left0 <= |ts| && left0 > 0
    ensures left < left0 && at + PACKET * left <= |ts|
    ensures sections0 + PopAll(PacketsAt(ts, at0, left0)) == sections + PopAll(PacketsAt(ts, at, left))
  {
    PopAllStep(ts, at0, left0, sections0);
    var section;
    section, at, left := PopNext(ts, at0, left0);
    sections := sections0 + [section];
  }

  lemma PopAllStep(ts: seq<Byte>, at: nat, left: nat, sections: seq<seq<Byte>>)
    requires at + PACKET * left <= |ts| && left > 0
    ensures var r := Pop(PacketsAt(ts, at, left), 0, []);
      0 < r.used <= left && r.len <= |r.bytes| && at + PACKET * r.used + PACKET * (left - r.used) <= |ts| &&
      sections + PopAll(PacketsAt(ts, at, left)) ==
        (sections + [r.bytes[..r.len]]) + PopAll(PacketsAt(ts, at + PACKET * r.used, left - r.used))
  {
    var pkts := PacketsAt(ts, at, left);
    var r := Pop(pkts, 0, []);
    PacketsAtDrop(ts, at, left, r.used);
    assert PopAll(pkts) == [r.bytes[..r.len]] + PopAll(pkts[r.used..]);
  }

  lemma PacketsAtDrop(ts: seq<Byte>, at: nat, n: nat, k: nat)
    requires k <= n && at + PACKET * n <= |ts|
    ensures PacketsAt(ts, at + PACKET * k, n - k) == PacketsAt(ts, at, n)[k..]
  {
    var a, b := PacketsAt(ts, at + PACKET * k, n - k), PacketsAt(ts, at, n)[k..];
    forall i | 0 <= i < n - k ensures a[i] == b[i] {
      assert a[i] == PacketAt(ts, at + PACKET * k, i);
      assert PacketsAt(ts, at, n)[k + i] == PacketAt(ts, at, k + i);
    }
  }
}
