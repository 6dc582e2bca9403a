/** How many programs, routes, inputs and mapped PIDs a table can hold
    (src/program_pid_validater.c, include/xmux.h). */
module Capacity {
  import opened Pids
  import opened Routes
  import opened Programs

  function SelectedCount(t: Table): nat {
    if t == [] then 0 else SelectedCount(t[..|t| - 1]) + (if t[|t| - 1].selected then 1 else 0)
  }

  /** Mapped PIDs of the first n programs of channel c that are selected. */
  function ChannelCount(t: Table, c: nat, n: nat): nat
    requires c * PROGRAM_MAX + n <= |t|
  {
    if n == 0 then 0
    else
      var p := t[c * PROGRAM_MAX + n - 1];
      ChannelCount(t, c, n - 1) + if p.selected then MappedCount(p.info.ents) else 0
  }

  /** The limits that every selection is checked against. */
  predicate Bounded(num: Counts, t: Table)
    requires Shape(num, t)
  {
    && SelectedCount(t) <= PROGRAM_MAX
    && forall c :: 0 <= c < |num| ==> ChannelCount(t, c, PROGRAM_MAX) <= CHAN_ROWS
  }

  /** The programs that count are the selected ones, once each. */
  lemma {:induction false} SelectedCountIs(t: Table)
    ensures SelectedCount(t) == |set k: nat | k < |t| && t[k].selected|
  {
    var all := set k: nat | k < |t| && t[k].selected;
    if t == [] {
      assert all == {};
    } else {
      var n := |t| - 1;
      var below := set k: nat | k < |t[..n]| && t[..n][k].selected;
      SelectedCountIs(t[..n]);
      assert all == below + if t[n].selected then {n} else {};
    }
  }

  /** The mapped PIDs of channel c among its first n programs: of each that is selected the PCR
      and the data slots in use whose input is not the PCR's. */
  ghost function Rows(t: Table, c: nat, n: nat): set<(nat, nat)>
    requires c * 64 + n <= |t|
  {
    set k: nat, i: nat | c * 64 <= k < c * 64 + n && i < 16 && t[k].selected && HasRow(t[k].info.ents, i) :: (k, i)
  }

  predicate HasRow(e: Ents, i: nat)
    requires i < 16
  {
    i == 1 || (i >= 2 && e[i].inPid != e[1].inPid && 0x20 <= e[i].inPid < 0x1FFF)
  }

  ghost function OwnRows(e: Ents): set<nat> {
    set i: nat | i < 16 && HasRow(e, i)
  }

  lemma MappedRows(e: Ents)
    ensures MappedCount(e) == |OwnRows(e)|
  {
    assert RowSlots(e, SLOTS) == OwnRows(e);
  }

  /** They too are counted once each. */
  lemma {:induction false} ChannelCountIs(t: Table, c: nat, n: nat)
    requires c * PROGRAM_MAX + n <= |t|
    ensures ChannelCount(t, c, n) == |Rows(t, c, n)|
  {
    hide HasRow, MappedCount;
    if n == 0 {
      assert Rows(t, c, n) == {};
    } else {
      var k := c * PROGRAM_MAX + n - 1;
      var slots := if t[k].selected then OwnRows(t[k].info.ents) else {};
      ChannelCountIs(t, c, n - 1);
      MappedRows(t[k].info.ents);
      TaggedSize(k, slots);
      assert Rows(t, c, n) == Rows(t, c, n - 1) + Tagged(k, slots);
    }
  }

  ghost function Tagged(k: nat, slots: set<nat>): set<(nat, nat)> {
    set i | i in slots :: (k, i)
  }

  lemma {:induction false} TaggedSize(k: nat, slots: set<nat>)
    ensures |Tagged(k, slots)| == |slots|
    decreases slots
  {
    if slots == {} {
      assert Tagged(k, slots) == {};
    } else {
      var i :| i in slots;
      TaggedSize(k, slots - {i});
      assert Tagged(k, slots) == Tagged(k, slots - {i}) + {(k, i)};
    }
  }

  lemma {:induction false} SelectedCountUpdate(t: Table, k: nat, p: Prog)
    requires k < |t|
    ensures SelectedCount(t[k := p]) ==
      SelectedCount(t) - (if t[k].selected then 1 else 0) + (if p.selected then 1 else 0)
    decreases |t|
  {
    var n := |t| - 1;
    var u := t[k := p];
    if k == n {
      assert u[..n] == t[..n];
    } else {
      assert u[..n] == t[..n][k := p];
      SelectedCountUpdate(t[..n], k, p);
    }
  }

  lemma {:induction false} ChannelCountUpdate(t: Table, k: nat, p: Prog, c: nat, n: nat)
    requires k < |t| && c * PROGRAM_MAX + n <= |t|
    ensures ChannelCount(t[k := p], c, n) == ChannelCount(t, c, n) +
      if c * PROGRAM_MAX <= k < c * PROGRAM_MAX + n then
        (if p.selected then MappedCount(p.info.ents) else 0) -
          (if t[k].selected then MappedCount(t[k].info.ents) else 0)
      else 0
    decreases n
  {
    if n > 0 {
      ChannelCountUpdate(t, k, p, c, n - 1);
    }
  }

  // ---- Sizes of the route and input sets ----------------------------------------

  ghost function RoutesBelow(t: Table, n: nat): set<Route> {
    set r | r in RoutesOf(t) && r.prog < n
  }

  ghost function OutsAt(e: Ents, slots: set<nat>): set<int> {
    set i | i in slots && i < SLOTS :: e[i].outPid as int
  }

  lemma {:induction false} OutsAtSize(e: Ents, slots: set<nat>)
    ensures |OutsAt(e, slots)| <= |slots|
    decreases slots
  {
    if slots != {} {
      var i :| i in slots;
      OutsAtSize(e, slots - {i});
      var last := if i < SLOTS then {e[i].outPid as int} else {};
      SubsetSize(OutsAt(e, slots), OutsAt(e, slots - {i}) + last);
    }
  }

  /** A selected program has its PMT output and one output for each of its counted slots. */
  lemma OwnOuts(num: Counts, t: Table, k: nat, r: Route)
    requires Consistent(num, t) && k < |t| && r in RoutesOf(t) && r.prog == k
    ensures r.outPid as int in {t[k].info.ents[0].outPid as int} +
      OutsAt(t[k].info.ents, RowSlots(t[k].info.ents, SLOTS))
  {
    var e := t[k].info.ents;
    assert IsRoute(t, r);
    if r.slot > 0 {
      RowSlotsCoverInputs(e, r.slot);
      var j :| j in RowSlots(e, SLOTS) && e[j].inPid == r.inPid;
      NoRowForPmt(num, t, k, r.slot);
      var s := RouteOf(k, e, j);
      assert IsRoute(t, s);
      assert Compatible(r, s);
    }
  }

  lemma NoRowForPmt(num: Counts, t: Table, k: nat, i: nat)
    requires Sound(num, t) && k < |t| && t[k].selected && 1 <= i < SLOTS
    ensures t[k].info.ents[i].inPid != t[k].info.ents[0].inPid
  {
    assert Ins(t, k, i) != Ins(t, k, 0);
  }

  /** Outputs in force below program n of channel c: one PMT for each selected program, and
      in each channel as many others as it has mapped PIDs. */
  lemma {:induction false} OutsBelowSize(num: Counts, t: Table, c: nat, n: nat)
    requires Consistent(num, t) && Bounded(num, t) && n <= PROGRAM_MAX && c * PROGRAM_MAX + n <= |t|
    ensures |OutsOf(RoutesBelow(t, c * PROGRAM_MAX + n))| <=
            SelectedCount(t[..c * PROGRAM_MAX + n]) + CHAN_ROWS * c + ChannelCount(t, c, n)
    decreases c, n
  {
    hide RoutesBelow, OutsAt, RowSlots, Apart, OutsOf, SelectedCount, MappedCount;
    if n > 0 {
      OutsBelowSize(num, t, c, n - 1);
      OneMoreOuts(num, t, c * PROGRAM_MAX + n - 1);
    } else if c > 0 {
      OutsBelowSize(num, t, c - 1, PROGRAM_MAX);
      assert (c - 1) * PROGRAM_MAX + PROGRAM_MAX == c * PROGRAM_MAX + n;
      assert ChannelCount(t, c - 1, PROGRAM_MAX) <= CHAN_ROWS;
    } else {
      NoOutsBelow(t);
    }
  }

  lemma NoOutsBelow(t: Table)
    ensures OutsOf(RoutesBelow(t, 0)) == {}
  {
  }

  lemma OneMoreOuts(num: Counts, t: Table, k: nat)
    requires Consistent(num, t) && k < |t|
    ensures |OutsOf(RoutesBelow(t, k + 1))| <=
            |OutsOf(RoutesBelow(t, k))| + if t[k].selected then 1 + MappedCount(t[k].info.ents) else 0
    ensures SelectedCount(t[..k + 1]) == SelectedCount(t[..k]) + if t[k].selected then 1 else 0
  {
    var e := t[k].info.ents;
    var own := if t[k].selected then {e[0].outPid as int} + OutsAt(e, RowSlots(e, SLOTS)) else {};
    assert t[..k + 1][..k] == t[..k];
    forall x | x in OutsOf(RoutesBelow(t, k + 1)) ensures x in OutsOf(RoutesBelow(t, k)) + own {
      var r :| r in RoutesBelow(t, k + 1) && r.outPid as int == x;
      assert IsRoute(t, r);
      if r.prog == k {
        OwnOuts(num, t, k, r);
      } else {
        assert r in RoutesBelow(t, k);
      }
    }
    OutsAtSize(e, RowSlots(e, SLOTS));
    SubsetSize(OutsOf(RoutesBelow(t, k + 1)), OutsOf(RoutesBelow(t, k)) + own);
  }

  /** At most 64 PMTs and 32 others a channel are sent. */
  lemma OutsSize(num: Counts, t: Table)
    requires Consistent(num, t) && Bounded(num, t)
    ensures |OutsOf(RoutesOf(t))| <= PROGRAM_MAX + CHAN_ROWS * |num|
  {
    OutsBelowSize(num, t, |num|, 0);
    assert t[..|t|] == t;
    forall r | r in RoutesOf(t) ensures r.prog < |t| {
      assert IsRoute(t, r);
    }
    assert RoutesBelow(t, |t|) == RoutesOf(t);
  }

  ghost function InputsAt(num: Counts, t: Table, k: nat, to: nat): set<Input>
    requires k < |t| && to <= SLOTS
  {
    set i: nat | i < to && Uses(t, k, i) :: Input(k / PROGRAM_MAX, Ins(t, k, i))
  }

  lemma {:induction false} InputsAtSize(num: Counts, t: Table, k: nat, to: nat)
    requires k < |t| && to <= SLOTS
    ensures |InputsAt(num, t, k, to)| <= to
  {
    if to == 0 {
      assert InputsAt(num, t, k, to) == {};
    } else {
      InputsAtSize(num, t, k, to - 1);
      var last := Input(k / PROGRAM_MAX, Ins(t, k, to - 1));
      SubsetSize(InputsAt(num, t, k, to), InputsAt(num, t, k, to - 1) + {last});
    }
  }

  ghost predicate InputBelow(num: Counts, t: Table, n: nat, p: Input)
    requires n <= |t|
  {
    exists k: nat, i: nat ::
      k < n && Present(num, k) && i < SLOTS && Uses(t, k, i) && p == Input(k / PROGRAM_MAX, Ins(t, k, i))
  }

  ghost function InputsBelow(num: Counts, t: Table, n: nat): set<Input>
    requires n <= |t|
  {
    set p | p in InputsOf(num, t) && InputBelow(num, t, n, p)
  }

  lemma {:induction false} InputsBelowSize(num: Counts, t: Table, n: nat)
    requires n <= |t|
    ensures |InputsBelow(num, t, n)| <= SLOTS * n
  {
    hide InputsBelow, InputsAt;
    if n == 0 {
      NoInputsBelow(num, t);
    } else {
      var before, now := InputsBelow(num, t, n - 1), InputsAt(num, t, n - 1, SLOTS);
      InputsBelowSize(num, t, n - 1);
      InputsAtSize(num, t, n - 1, SLOTS);
      OneMoreInputs(num, t, n - 1);
      SubsetSize(InputsBelow(num, t, n), before + now);
      assert |before + now| <= |before| + |now|;
    }
  }

  lemma NoInputsBelow(num: Counts, t: Table)
    ensures InputsBelow(num, t, 0) == {}
  {
  }

  lemma OneMoreInputs(num: Counts, t: Table, n: nat)
    requires n < |t|
    ensures InputsBelow(num, t, n + 1) <= InputsBelow(num, t, n) + InputsAt(num, t, n, SLOTS)
  {
    forall p | p in InputsBelow(num, t, n + 1) ensures p in InputsBelow(num, t, n) + InputsAt(num, t, n, SLOTS) {
      var k: nat, i: nat :| k < n + 1 && Present(num, k) && i < SLOTS && Uses(t, k, i) &&
        p == Input(k / PROGRAM_MAX, Ins(t, k, i));
      if k < n {
        assert InputBelow(num, t, n, p);
      }
    }
  }

  lemma InputsSize(num: Counts, t: Table)
    ensures |InputsOf(num, t)| <= SLOTS * |t|
  {
    InputsBelowSize(num, t, |t|);
    forall p | p in InputsOf(num, t) ensures InputBelow(num, t, |t|, p) {
      var k: nat, i: nat :| k < |t| && Present(num, k) && i < SLOTS && Uses(t, k, i) &&
        p == Input(k / PROGRAM_MAX, Ins(t, k, i));
    }
    assert InputsBelow(num, t, |t|) == InputsOf(num, t);
  }

  /** With at most seven channels first fit can always serve one program more. */
  lemma SevenChannelsSuffice(num: Counts, t: Table, k: nat, p: Prog)
    requires Consistent(num, t) && Bounded(num, t) && |num| <= 7
    ensures Enough(num, t, k, p)
  {
    InputsSize(num, t);
    OutsSize(num, t);
    FreeAtLeast(InputsOf(num, t), RoutesOf(t));
    NeedSize(RoutesOf(t), k / PROGRAM_MAX, p.info.ents, 0);
  }
}
