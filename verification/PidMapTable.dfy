/** The PID mapping table written to the FPGA, and the list of programs in the output
    (src/pid_map_table.c, include/xmux.h:163-176, 262-269). */
module PidMapTable {
  import opened Pids
  import opened Routes
  import opened Programs
  import opened Capacity
  import opened IoTable
  import opened Multiplexers

  datatype Row = Row(inPid: U16, outPid: U16)

  const PAD_ROW := Row(PAD_PID, PAD_PID)

  /** The rows of a channel for inputs below `upTo`: one for each input with a non-PMT route. */
  ghost function RowsOf(routes: set<Route>, c: nat, upTo: nat): (rows: seq<Row>)
    requires PID_MIN <= upTo <= NULL_PID
    decreases upTo
  {
    if upTo == PID_MIN then []
    else
      RowsOf(routes, c, upTo - 1) +
      if Mapped(routes, c, upTo - 1) then [Row(upTo - 1, MappedOut(routes, c, upTo - 1))] else []
  }

  ghost predicate RowRoute(routes: set<Route>, c: nat, row: Row) {
    exists r :: r in routes && !r.Pmt() && r.Carries(c, row.inPid) && r.outPid == row.outPid
  }

  predicate Increasing(rows: seq<Row>) {
    forall i, j :: 0 <= i < j < |rows| ==> rows[i].inPid < rows[j].inPid
  }

  /** Rows come with strictly increasing inputs and are exactly the non-PMT routes of the channel. */
  lemma {:induction false} RowsAreRoutes(routes: set<Route>, c: nat, upTo: nat)
    requires PID_MIN <= upTo <= NULL_PID && Apart(routes)
    ensures var rows := RowsOf(routes, c, upTo);
      && Increasing(rows)
      && (forall row :: row in rows ==> PID_MIN <= row.inPid < upTo && RowRoute(routes, c, row))
      && (forall r :: r in routes && !r.Pmt() && r.Chan() == c && PID_MIN <= r.inPid < upTo ==>
        Row(r.inPid, r.outPid) in rows)
    decreases upTo
  {
    if upTo > PID_MIN {
      RowsAreRoutes(routes, c, upTo - 1);
      var before, rows := RowsOf(routes, c, upTo - 1), RowsOf(routes, c, upTo);
      if Mapped(routes, c, upTo - 1) {
        var row := Row(upTo - 1, MappedOut(routes, c, upTo - 1));
        assert RowRoute(routes, c, row);
        assert rows == before + [row];
        forall r | r in routes && !r.Pmt() && r.Chan() == c && r.inPid == upTo - 1
          ensures Row(r.inPid, r.outPid) == row
        {
          OutInForce(routes, r);
        }
      } else {
        assert rows == before;
        forall r | r in routes && !r.Pmt() && r.Chan() == c ensures r.inPid != upTo - 1 {
        }
      }
    }
  }

  // ---- Room in the table ---------------------------------------------------------------

  ghost function SlotInputs(e: Ents, slots: set<nat>): set<int>
    requires forall i :: i in slots ==> i < SLOTS
  {
    set i | i in slots :: e[i].inPid as int
  }

  lemma {:induction false} SlotInputsSize(e: Ents, slots: set<nat>)
    requires forall i :: i in slots ==> i < SLOTS
    ensures |SlotInputs(e, slots)| <= |slots|
    decreases slots
  {
    if slots != {} {
      var i :| i in slots;
      SlotInputsSize(e, slots - {i});
      SubsetSize(SlotInputs(e, slots), SlotInputs(e, slots - {i}) + {e[i].inPid as int});
    }
  }

  /** The inputs that the first n programs of a channel want mapped. */
  ghost function WantedInputs(t: Table, c: nat, n: nat): set<int>
    requires c * PROGRAM_MAX + n <= |t|
  {
    if n == 0 then {}
    else
      var p := t[c * PROGRAM_MAX + n - 1];
      WantedInputs(t, c, n - 1) + if p.selected then SlotInputs(p.info.ents, RowSlots(p.info.ents, SLOTS)) else {}
  }

  lemma {:induction false} WantedSize(t: Table, c: nat, n: nat)
    requires c * PROGRAM_MAX + n <= |t|
    ensures |WantedInputs(t, c, n)| <= ChannelCount(t, c, n)
  {
    if n > 0 {
      WantedSize(t, c, n - 1);
      var e := t[c * PROGRAM_MAX + n - 1].info.ents;
      SlotInputsSize(e, RowSlots(e, SLOTS));
    }
  }

  lemma {:induction false} WantedCovers(t: Table, c: nat, n: nat, p: nat, i: nat)
    requires c * PROGRAM_MAX + n <= |t| && p < n && 1 <= i < SLOTS
    requires t[c * PROGRAM_MAX + p].selected && Uses(t, c * PROGRAM_MAX + p, i)
    ensures Ins(t, c * PROGRAM_MAX + p, i) as int in WantedInputs(t, c, n)
  {
    if p < n - 1 {
      WantedCovers(t, c, n - 1, p, i);
    } else {
      var e := t[c * PROGRAM_MAX + p].info.ents;
      RowSlotsCoverInputs(e, i);
      var j :| j in RowSlots(e, SLOTS) && e[j].inPid == e[i].inPid;
      assert e[j].inPid as int in SlotInputs(e, RowSlots(e, SLOTS));
    }
  }

  ghost function RowInputs(rows: seq<Row>): set<int> {
    set i | 0 <= i < |rows| :: rows[i].inPid as int
  }

  lemma {:induction false} IncreasingSize(rows: seq<Row>)
    requires Increasing(rows)
    ensures |RowInputs(rows)| == |rows|
  {
    if rows != [] {
      var n := |rows| - 1;
      IncreasingSize(rows[..n]);
      var last := rows[n].inPid as int;
      assert last !in RowInputs(rows[..n]);
      assert RowInputs(rows) == RowInputs(rows[..n]) + {last} by {
        forall x ensures x in RowInputs(rows) <==> x in RowInputs(rows[..n]) || x == last {
          if x in RowInputs(rows[..n]) {
            var i :| 0 <= i < n && rows[..n][i].inPid as int == x;
            assert rows[i].inPid as int == x;
          }
        }
      }
    }
  }

  lemma RowWanted(num: Counts, t: Table, c: nat, row: Row)
    requires Sound(num, t) && c < |num| && RowRoute(RoutesOf(t), c, row)
    ensures row.inPid as int in WantedInputs(t, c, PROGRAM_MAX)
  {
    var r :| r in RoutesOf(t) && !r.Pmt() && r.Carries(c, row.inPid) && r.outPid == row.outPid;
    assert IsRoute(t, r);
    WantedCovers(t, c, PROGRAM_MAX, r.prog % PROGRAM_MAX, r.slot);
  }

  /** The counting check keeps every channel within its rows. */
  lemma RowsFit(num: Counts, t: Table, c: nat, upTo: nat)
    requires Consistent(num, t) && Bounded(num, t) && c < |num| && PID_MIN <= upTo <= NULL_PID
    ensures |RowsOf(RoutesOf(t), c, upTo)| <= CHAN_ROWS
  {
    var rows := RowsOf(RoutesOf(t), c, upTo);
    RowsAreRoutes(RoutesOf(t), c, upTo);
    IncreasingSize(rows);
    forall x | x in RowInputs(rows) ensures x in WantedInputs(t, c, PROGRAM_MAX) {
      var i :| 0 <= i < |rows| && rows[i].inPid as int == x;
      assert rows[i] in rows;
      RowWanted(num, t, c, rows[i]);
    }
    SubsetSize(RowInputs(rows), WantedInputs(t, c, PROGRAM_MAX));
    WantedSize(t, c, PROGRAM_MAX);
  }

  // ---- Generating the table -----------------------------------------------------------

  /** A cell of the PID table tells whether its input gets a row. */
  lemma RowDecided(num: Counts, t: Table, tab: seq<IoEntry>, c: nat, x: nat)
    requires Consistent(num, t) && Describes(num, t, tab) && c < |num| && IsValidPid(x)
    ensures var e := tab[Cell(c, x)];
      RowsOf(RoutesOf(t), c, x + 1) == RowsOf(RoutesOf(t), c, x) +
        if e.selected && !e.pmtPid then [Row(x, e.outPid)] else []
  {
    ApartSameOut(RoutesOf(t));
    SelectedInTable(tab, |num|, InputsOf(num, t), PmtsOf(num, t), RoutesOf(t), c, x);
    var e := tab[Cell(c, x)];
    if e.pmtPid {
      forall r | r in RoutesOf(t) && r.Carries(c, x) ensures r.Pmt() {
        assert RouteAgrees(tab, |num|, r);
      }
    }
  }

  /** The cells of a channel decide its rows one by one, and there is room for all of them. */
  ghost predicate ChannelDecided(routes: set<Route>, tab: seq<IoEntry>, chans: nat, c: nat)
    requires |tab| == chans * CELLS && c < chans
  {
    forall x: nat :: IsValidPid(x) ==>
      var e := tab[Cell(c, x)];
      RowsOf(routes, c, x + 1) == RowsOf(routes, c, x) + (if e.selected && !e.pmtPid then [Row(x, e.outPid)] else []) &&
      |RowsOf(routes, c, x + 1)| <= CHAN_ROWS
  }

  lemma DecideChannel(num: Counts, t: Table, tab: seq<IoEntry>, c: nat)
    requires Consistent(num, t) && Bounded(num, t) && Describes(num, t, tab) && c < |num|
    ensures ChannelDecided(RoutesOf(t), tab, |num|, c)
  {
    hide RowsOf, RoutesOf, CellsAgree, RouteAgrees, Apart, Sound;
    forall x: nat | IsValidPid(x)
      ensures var e := tab[Cell(c, x)];
        RowsOf(RoutesOf(t), c, x + 1) == RowsOf(RoutesOf(t), c, x) +
          (if e.selected && !e.pmtPid then [Row(x, e.outPid)] else []) &&
        |RowsOf(RoutesOf(t), c, x + 1)| <= CHAN_ROWS
    {
      RowDecided(num, t, tab, c, x);
      RowsFit(num, t, c, x + 1);
    }
  }

  /** The rows of channel c. */
  function Segment(rs: seq<Row>, c: nat): seq<Row>
    requires (c + 1) * CHAN_ROWS <= |rs|
  {
    rs[c * CHAN_ROWS..(c + 1) * CHAN_ROWS]
  }

  function Padded(pushed: seq<Row>): seq<Row>
    requires |pushed| <= CHAN_ROWS
  {
    pushed + seq(CHAN_ROWS - |pushed|, _ => PAD_ROW)
  }

  predicate Sized(rs: seq<Row>, counts: seq<nat>, chans: nat) {
    |rs| == chans * CHAN_ROWS && |counts| == chans
  }

  /** Channel c holds `pushed`, then pads. */
  predicate Holds(rs: seq<Row>, counts: seq<nat>, c: nat, pushed: seq<Row>) {
    c < |counts| && (c + 1) * CHAN_ROWS <= |rs| && |pushed| <= CHAN_ROWS &&
    counts[c] == |pushed| && Segment(rs, c) == Padded(pushed)
  }

  /** Nothing but channel c differs. */
  predicate SameElsewhere(rs: seq<Row>, counts: seq<nat>, rs': seq<Row>, counts': seq<nat>, chans: nat, c: nat)
    requires Sized(rs, counts, chans) && Sized(rs', counts', chans)
  {
    forall d: nat :: d < chans && d != c ==> counts'[d] == counts[d] && Segment(rs', d) == Segment(rs, d)
  }

  lemma PushHolds(rs: seq<Row>, counts: seq<nat>, chans: nat, c: nat, pushed: seq<Row>, row: Row)
    requires Sized(rs, counts, chans) && c < chans && Holds(rs, counts, c, pushed) && |pushed| < CHAN_ROWS
    ensures var rs', counts' := rs[c * CHAN_ROWS + counts[c] := row], counts[c := counts[c] + 1];
      Holds(rs', counts', c, pushed + [row]) && SameElsewhere(rs, counts, rs', counts', chans, c)
  {
    var rs', counts' := rs[c * CHAN_ROWS + counts[c] := row], counts[c := counts[c] + 1];
    assert Segment(rs', c) == Segment(rs, c)[|pushed| := row];
    assert Padded(pushed + [row]) == Padded(pushed)[|pushed| := row];
    forall d: nat | d < chans && d != c ensures Segment(rs', d) == Segment(rs, d) {
    }
  }

  /** State of channel d when the channels below c are done. */
  ghost predicate Done(rs: seq<Row>, counts: seq<nat>, routes: set<Route>, d: nat, c: nat) {
    Holds(rs, counts, d, RowsOf(routes, d, if d < c then NULL_PID else PID_MIN))
  }

  lemma DoneNext(rs: seq<Row>, counts: seq<nat>, rs': seq<Row>, counts': seq<nat>, routes: set<Route>, chans: nat,
      c: nat, next: nat)
    requires Sized(rs, counts, chans) && Sized(rs', counts', chans) && c < chans && next == c + 1
    requires forall d: nat :: d < chans ==> Done(rs, counts, routes, d, c)
    requires Holds(rs', counts', c, RowsOf(routes, c, NULL_PID)) && SameElsewhere(rs, counts, rs', counts', chans, c)
    ensures forall d: nat :: d < chans ==> Done(rs', counts', routes, d, next)
  {
    forall d: nat | d < chans ensures Done(rs', counts', routes, d, next) {
      assert Done(rs, counts, routes, d, c);
    }
  }

  /** What the 32 rows of a channel say once it is done: up to its count they are the non-PMT
      routes of the channel with ever higher inputs, and after that pads. */
  lemma TableShowsRoutes(routes: set<Route>, rs: seq<Row>, counts: seq<nat>, c: nat)
    requires Apart(routes) && Holds(rs, counts, c, RowsOf(routes, c, NULL_PID))
    requires forall r :: r in routes ==> IsValidPid(r.inPid)
    ensures var part, n := rs[c * 32..c * 32 + 32], counts[c];
      && n <= 32 && (forall j :: n <= j < 32 ==> part[j] == Row(0x0F, 0x0F))
      && (forall i, j :: 0 <= i < j < n ==> part[i].inPid < part[j].inPid)
      && forall row :: row in part[..n] <==>
        exists r :: r in routes && r.slot > 0 && r.prog / 64 == c && r.inPid == row.inPid && r.outPid == row.outPid
  {
    hide RowsOf, Apart;
    var rows, part := RowsOf(routes, c, NULL_PID), rs[c * 32..c * 32 + 32];
    RowsAreRoutes(routes, c, NULL_PID);
    assert part == Segment(rs, c) == Padded(rows);
    assert part[..counts[c]] == rows;
    forall row: Row, r | r in routes && r.slot > 0 && r.prog / 64 == c && r.inPid == row.inPid && r.outPid == row.outPid
      ensures row in rows
    {
      assert !r.Pmt() && r.Chan() == c;
    }
    forall row | row in rows
      ensures exists r ::
        r in routes && r.slot > 0 && r.prog / 64 == c && r.inPid == row.inPid && r.outPid == row.outPid
    {
      var r :| r in routes && !r.Pmt() && r.Carries(c, row.inPid) && r.outPid == row.outPid;
      assert r.slot > 0 && r.prog / 64 == c;
    }
  }

  class MapContext {
    const chans: nat
    const rows: array<Row>
    const counts: array<nat>

    ghost predicate Valid() {
      rows.Length == chans * CHAN_ROWS && counts.Length == chans && rows as object != counts as object
    }

    /** What channel c holds, apart from pads. */
    ghost predicate Pushed(c: nat, pushed: seq<Row>)
      reads rows, counts
    {
      Holds(rows[..], counts[..], c, pushed)
    }

    /** Start of a generation: all rows are pads. */
    constructor (chans: nat)
      ensures Valid() && this.chans == chans && fresh(rows) && fresh(counts)
      ensures forall c: nat :: c < chans ==> Pushed(c, [])
    {
      this.chans := chans;
      rows := new Row[chans * CHAN_ROWS](_ => PAD_ROW);
      counts := new nat[chans](_ => 0);
    }

    method PushPidPair(c: nat, inPid: U16, outPid: U16, ghost pushed: seq<Row>) returns (rc: int)
      requires Valid() && c < chans && Pushed(c, pushed)
      modifies rows, counts
      ensures |pushed| < CHAN_ROWS ==> rc == 0 && Pushed(c, pushed + [Row(inPid, outPid)])
      ensures |pushed| == CHAN_ROWS ==> rc == -1 && Pushed(c, pushed)
      ensures SameElsewhere(old(rows[..]), old(counts[..]), rows[..], counts[..], chans, c)
    {
      if counts[c] >= CHAN_ROWS {
        return -1;
      }
      ghost var rs, cs := rows[..], counts[..];
      PushHolds(rs, cs, chans, c, pushed, Row(inPid, outPid));
      rows[c * CHAN_ROWS + counts[c]] := Row(inPid, outPid);
      counts[c] := counts[c] + 1;
      assert rows[..] == rs[c * CHAN_ROWS + cs[c] := Row(inPid, outPid)];
      assert counts[..] == cs[c := cs[c] + 1];
      return 0;
    }

    /** Pushes the row of one input, if it has one; 0 when nothing had to be discarded. */
    method GatherPid(io: array<IoEntry>, c: nat, inPid: nat, ghost routes: set<Route>) returns (rc: int)
      requires Valid() && io.Length == chans * CELLS && c < chans && IsValidPid(inPid) &&
        ChannelDecided(routes, io[..], chans, c)
      requires Pushed(c, RowsOf(routes, c, inPid))
      modifies rows, counts
      ensures Pushed(c, RowsOf(routes, c, inPid + 1)) && rc == 0
      ensures SameElsewhere(old(rows[..]), old(counts[..]), rows[..], counts[..], chans, c)
    {
      if !io[Cell(c, inPid)].selected {
        return 0;
      }
      if io[Cell(c, inPid)].pmtPid {
        return 0;
      }
      rc := PushPidPair(c, inPid, io[Cell(c, inPid)].outPid, RowsOf(routes, c, inPid));
    }

    /** Gathers the rows of one channel; `discarded` counts the pairs that found no room. */
    method GatherChannel(io: array<IoEntry>, c: nat, ghost routes: set<Route>) returns (discarded: int)
      requires Valid() && io.Length == chans * CELLS && c < chans && io as object !in {rows, counts as object}
      requires ChannelDecided(routes, io[..], chans, c) && Pushed(c, RowsOf(routes, c, PID_MIN))
      modifies rows, counts
      ensures Pushed(c, RowsOf(routes, c, NULL_PID)) && discarded == 0
      ensures SameElsewhere(old(rows[..]), old(counts[..]), rows[..], counts[..], chans, c)
    {
      discarded := 0;
      ghost var tab := io[..];
      for inPid := PID_MIN to NULL_PID
        invariant Pushed(c, RowsOf(routes, c, inPid)) && discarded == 0 && io[..] == tab
        invariant SameElsewhere(old(rows[..]), old(counts[..]), rows[..], counts[..], chans, c)
      {
        var rc := GatherPid(io, c, inPid, routes);
        if rc != 0 {
          discarded := discarded + 1;
        }
      }
    }

    /** Gathers all channels. */
    method GatherAll(io: array<IoEntry>, ghost routes: set<Route>) returns (discarded: int)
      requires Valid() && io.Length == chans * CELLS && io as object !in {rows, counts as object}
      requires forall c: nat :: c < chans ==> ChannelDecided(routes, io[..], chans, c)
      requires forall c: nat :: c < chans ==> Done(rows[..], counts[..], routes, c, 0)
      modifies rows, counts
      ensures discarded == 0
      ensures forall c: nat :: c < chans ==> Done(rows[..], counts[..], routes, c, chans)
    {
      hide ChannelDecided, Holds, RowsOf, SameElsewhere;
      discarded := 0;
      ghost var tab := io[..];
      for c := 0 to chans
        invariant discarded == 0 && io[..] == tab
        invariant forall d: nat :: d < chans ==> Done(rows[..], counts[..], routes, d, c)
      {
        ghost var rs, cs := rows[..], counts[..];
        assert Done(rs, cs, routes, c, c);
        var lost := GatherChannel(io, c, routes);
        DoneNext(rs, cs, rows[..], counts[..], routes, chans, c, c + 1);
        discarded := discarded + lost;
      }
    }
  }

  // ---- The programs in the output ------------------------------------------------------

  datatype MuxEntry = MuxEntry(chan: nat, prog: nat)

  /** The selected programs below n, in table order. */
  function SelectedEntries(t: Table, n: nat): seq<MuxEntry>
    requires n <= |t|
  {
    if n == 0 then []
    else
      SelectedEntries(t, n - 1) +
      if t[n - 1].selected then [MuxEntry((n - 1) / PROGRAM_MAX, (n - 1) % PROGRAM_MAX)] else []
  }

  /** One entry for each of them and nothing else: its channel and its place there. */
  lemma {:induction false} SelectedEntriesAre(t: Table, n: nat)
    requires n <= |t|
    ensures var ms := SelectedEntries(t, n);
      && (forall m :: m in ms ==> m.prog < 64 && 64 * m.chan + m.prog < n && t[64 * m.chan + m.prog].selected)
      && (forall k: nat :: k < n && t[k].selected ==> MuxEntry(k / 64, k % 64) in ms)
      && forall i, j :: 0 <= i < j < |ms| ==> 64 * ms[i].chan + ms[i].prog < 64 * ms[j].chan + ms[j].prog
  {
    if n > 0 {
      SelectedEntriesAre(t, n - 1);
      var before, ms := SelectedEntries(t, n - 1), SelectedEntries(t, n);
      assert t[n - 1].selected ==> ms == before + [MuxEntry((n - 1) / 64, (n - 1) % 64)];
      forall i | 0 <= i < |before| ensures 64 * before[i].chan + before[i].prog < n - 1 {
        assert before[i] in before;
      }
    }
  }

  lemma {:induction false} SelectedEntriesCount(t: Table, n: nat)
    requires n <= |t|
    ensures |SelectedEntries(t, n)| == SelectedCount(t[..n])
  {
    if n > 0 {
      SelectedEntriesCount(t, n - 1);
      assert t[..n][..n - 1] == t[..n - 1];
    }
  }

  lemma {:induction false} SelectedCountMonotone(t: Table, n: nat)
    requires n <= |t|
    ensures SelectedCount(t[..n]) <= SelectedCount(t)
    decreases |t| - n
  {
    if n < |t| {
      assert t[..n + 1][..n] == t[..n];
      SelectedCountMonotone(t, n + 1);
    } else {
      assert t[..n] == t;
    }
  }

  lemma {:induction false} NoEntriesBetween(t: Table, lo: nat, hi: nat)
    requires lo <= hi <= |t| && forall k :: lo <= k < hi ==> !t[k].selected
    ensures SelectedEntries(t, hi) == SelectedEntries(t, lo)
    decreases hi - lo
  {
    if lo < hi {
      NoEntriesBetween(t, lo, hi - 1);
    }
  }

  /** The record of the programs in the output: a fixed array and a count. */
  class MuxProgramInfo {
    var nprogs: nat
    const programs: array<MuxEntry>

    constructor ()
      ensures nprogs == 0 && programs.Length == PROGRAM_MAX && fresh(programs)
    {
      nprogs := 0;
      programs := new MuxEntry[PROGRAM_MAX](_ => MuxEntry(0, 0));
    }

    ghost predicate Holds(entries: seq<MuxEntry>)
      reads this, programs
    {
      programs.Length == PROGRAM_MAX && nprogs <= PROGRAM_MAX && programs[..nprogs] == entries
    }

    /** The last loops of the generation: every selected program, never past the array. */
    method FillOne(c: nat, p: nat, selected: bool, ghost t: Table)
      requires p < PROGRAM_MAX && c * PROGRAM_MAX + p < |t| && selected == t[c * PROGRAM_MAX + p].selected
      requires Holds(SelectedEntries(t, c * PROGRAM_MAX + p)) && SelectedCount(t) <= PROGRAM_MAX
      modifies this, programs
      ensures Holds(SelectedEntries(t, c * PROGRAM_MAX + p + 1))
    {
      ghost var k := c * PROGRAM_MAX + p;
      assert k / PROGRAM_MAX == c && k % PROGRAM_MAX == p;
      if selected {
        EntryFits(t, k);
        programs[nprogs] := MuxEntry(c, p);
        nprogs := nprogs + 1;
      }
    }

    method Fill(m: Multiplexer, ghost t: Table)
      requires m.Valid() && m.progs[..] == t && Sound(m.num, t) && SelectedCount(t) <= PROGRAM_MAX
      requires Holds([]) && m.progs as object != programs as object
      modifies this, programs
      ensures Holds(SelectedEntries(t, |t|))
    {
      hide SelectedEntries, SelectedCount;
      NoEntriesYet(t);
      for c := 0 to |m.num|
        invariant Holds(SelectedEntries(t, c * PROGRAM_MAX)) && m.progs[..] == t
      {
        for p := 0 to m.num[c]
          invariant Holds(SelectedEntries(t, c * PROGRAM_MAX + p)) && m.progs[..] == t
        {
          var k := c * PROGRAM_MAX + p;
          assert k / PROGRAM_MAX == c && k % PROGRAM_MAX == p;
          FillOne(c, p, m.progs[k].selected, t);
        }
        AbsentNotSelected(m.num, t, c);
        NoEntriesBetween(t, c * PROGRAM_MAX + m.num[c], (c + 1) * PROGRAM_MAX);
      }
    }
  }

  lemma NoEntriesYet(t: Table)
    ensures SelectedEntries(t, 0) == []
  {
  }

  lemma EntryFits(t: Table, k: nat)
    requires k < |t| && t[k].selected && SelectedCount(t) <= PROGRAM_MAX
    ensures |SelectedEntries(t, k)| < PROGRAM_MAX
  {
    SelectedEntriesCount(t, k + 1);
    SelectedCountMonotone(t, k + 1);
  }

  lemma AbsentNotSelected(num: Counts, t: Table, c: nat)
    requires Sound(num, t) && c < |num|
    ensures forall k :: c * PROGRAM_MAX + num[c] <= k < (c + 1) * PROGRAM_MAX ==> !t[k].selected
  {
    forall k: nat | c * PROGRAM_MAX + num[c] <= k < (c + 1) * PROGRAM_MAX ensures !t[k].selected {
      assert k / PROGRAM_MAX == c && k % PROGRAM_MAX == k - c * PROGRAM_MAX;
      assert !Present(num, k);
    }
  }

  /** The mapping table that goes with the present selection. */
  method GenerateMap(m: Multiplexer, ghost t: Table) returns (ctx: MapContext, discarded: int)
    requires m.Valid() && m.progs[..] == t && Consistent(m.num, t) && Bounded(m.num, t)
    modifies m.io
    ensures fresh(ctx) && fresh(ctx.rows) && fresh(ctx.counts)
    ensures ctx.Valid() && ctx.chans == |m.num| && discarded == 0
    ensures forall c: nat :: c < |m.num| ==> ctx.Pushed(c, RowsOf(RoutesOf(t), c, NULL_PID))
  {
    ctx := new MapContext(|m.num|);
    ApartSameOut(RoutesOf(t));
    m.BuildIoTable(t);
    forall c: nat | c < |m.num| ensures ChannelDecided(RoutesOf(t), m.io[..], |m.num|, c) {
      DecideChannel(m.num, t, m.io[..], c);
    }
    forall c: nat | c < |m.num| ensures Done(ctx.rows[..], ctx.counts[..], RoutesOf(t), c, 0) {
      assert ctx.Pushed(c, []);
    }
    discarded := ctx.GatherAll(m.io, RoutesOf(t));
    forall c: nat | c < |m.num| ensures ctx.Pushed(c, RowsOf(RoutesOf(t), c, NULL_PID)) {
      assert Done(ctx.rows[..], ctx.counts[..], RoutesOf(t), c, |m.num|);
    }
  }

  /** Apply: the mapping table and the program list that go with the present selection. */
  method GenerateFromPrograms(m: Multiplexer, ghost t: Table)
      returns (ctx: MapContext, info: MuxProgramInfo, discarded: int)
    requires m.Valid() && m.progs[..] == t && Consistent(m.num, t) && Bounded(m.num, t)
    modifies m.io
    ensures m.progs[..] == t && ctx.Valid() && ctx.chans == |m.num| && discarded == 0
    ensures forall c: nat :: c < |m.num| ==> ctx.Pushed(c, RowsOf(RoutesOf(t), c, NULL_PID))
    ensures info.Holds(SelectedEntries(t, |t|))
  {
    ctx, discarded := GenerateMap(m, t);
    info := new MuxProgramInfo();
    info.Fill(m, t);
  }
}
