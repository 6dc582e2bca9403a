/** The per-channel PID table the allocator works on, and when its cells describe a
    set of routes (src/io_table.h, src/io_table.c:22-121). */
module IoTable {
  import opened Pids
  import opened Routes

  const CELLS := NULL_PID + 1

  datatype IoEntry = IoEntry(
    selected: bool, justAdded: bool, isInput: bool, pmtPid: bool, isPmtOut: bool, addAgain: bool,
    outPid: U16, pmtInPid: U16)
  {
    /** Some flag is set. */
    predicate Flagged() {
      selected || justAdded || isInput || pmtPid || isPmtOut || addAgain
    }
  }

  const CLEAR := IoEntry(false, false, false, false, false, false, 0, 0)

  /** Place of a PID of a channel in the table. */
  function Cell(chan: nat, pid: nat): nat {
    chan * CELLS + pid
  }

  lemma CellUnique(c: nat, x: nat, d: nat, y: nat)
    requires x < CELLS && y < CELLS && Cell(c, x) == Cell(d, y)
    ensures c == d && x == y
  {
  }

  ghost predicate CellRoute(routes: set<Route>, c: nat, x: nat, e: IoEntry) {
    exists r :: r in routes && r.Carries(c, x) && r.outPid == e.outPid && (r.Pmt() <==> e.pmtPid)
  }

  ghost predicate PmtOutRoute(routes: set<Route>, c: nat, x: nat, inPid: int) {
    exists r :: r in routes && r.Pmt() && r.Carries(c, inPid) && r.outPid == x
  }

  /** One cell says nothing but what the inputs and routes say. */
  ghost predicate CellAgrees(inputs: set<Input>, pmts: set<Input>, routes: set<Route>, c: nat, x: nat, e: IoEntry) {
    && (e.isInput <==> Input(c, x) in inputs)
    && (e.pmtPid <==> Input(c, x) in pmts)
    && (e.Flagged() ==> e.isInput || e.isPmtOut)
    && (e.isPmtOut ==> PmtOutRoute(routes, c, x, e.pmtInPid))
    && (e.selected ==> CellRoute(routes, c, x, e))
  }

  /** One route is on record: at its input, or, for a further PMT of the same input, at its output. */
  ghost predicate RouteAgrees(tab: seq<IoEntry>, chans: nat, r: Route)
    requires |tab| == chans * CELLS
  {
    && r.Chan() < chans && IsValidPid(r.inPid) && r.outPid < CELLS
    && var e := tab[Cell(r.Chan(), r.inPid)];
       e.selected && (r.Pmt() <==> e.pmtPid) &&
         (r.Pmt() ==> e.outPid == r.outPid || tab[Cell(r.Chan(), r.outPid)].isPmtOut)
  }

  ghost predicate CellsAgree(tab: seq<IoEntry>, chans: nat, inputs: set<Input>, pmts: set<Input>, routes: set<Route>)
    requires |tab| == chans * CELLS
  {
    forall c: nat, x: nat :: c < chans && x < CELLS ==> CellAgrees(inputs, pmts, routes, c, x, tab[Cell(c, x)])
  }

  ghost predicate Agrees(tab: seq<IoEntry>, chans: nat, inputs: set<Input>, pmts: set<Input>, routes: set<Route>) {
    && |tab| == chans * CELLS
    && CellsAgree(tab, chans, inputs, pmts, routes)
    && forall r :: r in routes ==> RouteAgrees(tab, chans, r)
  }

  lemma ClearAgrees(tab: seq<IoEntry>, chans: nat)
    requires |tab| == chans * CELLS && forall i :: 0 <= i < |tab| ==> tab[i] == CLEAR
    ensures Agrees(tab, chans, {}, {}, {})
  {
  }

  lemma NoteInputCell(tab: seq<IoEntry>, chans: nat, inputs: set<Input>, pmts: set<Input>, routes: set<Route>, c: nat,
      x: nat, pmt: bool, d: nat, y: nat)
    requires |tab| == chans * CELLS && c < chans && x < CELLS && d < chans && y < CELLS
    requires pmt ==> !Mapped(routes, c, x)
    requires CellAgrees(inputs, pmts, routes, d, y, tab[Cell(d, y)])
    ensures var e := tab[Cell(c, x)];
      CellAgrees(inputs + {Input(c, x)}, if pmt then pmts + {Input(c, x)} else pmts, routes, d, y,
        tab[Cell(c, x) := e.(isInput := true, pmtPid := e.pmtPid || pmt)][Cell(d, y)])
  {
    if Cell(d, y) == Cell(c, x) {
      CellUnique(c, x, d, y);
      var e := tab[Cell(c, x)];
      if e.selected {
        var r :| r in routes && r.Carries(c, x) && r.outPid == e.outPid && (r.Pmt() <==> e.pmtPid);
        assert CellRoute(routes, c, x, e.(isInput := true, pmtPid := e.pmtPid || pmt));
      }
    }
  }

  lemma NoteInputRoute(tab: seq<IoEntry>, chans: nat, routes: set<Route>, c: nat, x: nat, pmt: bool, r: Route)
    requires |tab| == chans * CELLS && c < chans && x < CELLS && (pmt ==> !Mapped(routes, c, x))
    requires r in routes && RouteAgrees(tab, chans, r)
    ensures var e := tab[Cell(c, x)];
      RouteAgrees(tab[Cell(c, x) := e.(isInput := true, pmtPid := e.pmtPid || pmt)], chans, r)
  {
    if Cell(r.Chan(), r.inPid) == Cell(c, x) {
      CellUnique(c, x, r.Chan(), r.inPid);
    }
  }

  /** Noting an input (for the first slot: as a PMT input). */
  lemma NoteInput(tab: seq<IoEntry>, chans: nat, inputs: set<Input>, pmts: set<Input>, routes: set<Route>, c: nat,
      x: nat, pmt: bool)
    requires Agrees(tab, chans, inputs, pmts, routes) && c < chans && x < CELLS
    requires pmt ==> !Mapped(routes, c, x)
    ensures var e := tab[Cell(c, x)];
      Agrees(tab[Cell(c, x) := e.(isInput := true, pmtPid := e.pmtPid || pmt)], chans,
             inputs + {Input(c, x)}, if pmt then pmts + {Input(c, x)} else pmts, routes)
  {
    hide CellAgrees, RouteAgrees, Mapped;
    var e := tab[Cell(c, x)];
    var tab' := tab[Cell(c, x) := e.(isInput := true, pmtPid := e.pmtPid || pmt)];
    var pmts' := if pmt then pmts + {Input(c, x)} else pmts;
    assert CellsAgree(tab', chans, inputs + {Input(c, x)}, pmts', routes) by {
      forall d: nat, y: nat | d < chans && y < CELLS
        ensures CellAgrees(inputs + {Input(c, x)}, pmts', routes, d, y, tab'[Cell(d, y)])
      {
        NoteInputCell(tab, chans, inputs, pmts, routes, c, x, pmt, d, y);
      }
    }
    forall r | r in routes ensures RouteAgrees(tab', chans, r) {
      NoteInputRoute(tab, chans, routes, c, x, pmt, r);
    }
  }

  /** Same entry but for the output in force and the bookkeeping flags. */
  predicate TakesOut(e: IoEntry, f: IoEntry, outPid: int) {
    f.selected && f.outPid == outPid && f.isInput == e.isInput && f.pmtPid == e.pmtPid && f.isPmtOut == e.isPmtOut &&
      f.pmtInPid == e.pmtInPid
  }

  lemma CellRouteRerouted(routes: set<Route>, n: Route, c: nat, x: nat, e: IoEntry)
    requires CellRoute(routes, c, x, e) && (n.Pmt() || !n.Carries(c, x) || e.pmtPid)
    ensures CellRoute(Reroute(routes, n) + {n}, c, x, e)
  {
    var r :| r in routes && r.Carries(c, x) && r.outPid == e.outPid && (r.Pmt() <==> e.pmtPid);
    assert Rerouted(r, n) == r;
    assert r in Reroute(routes, n);
  }

  lemma PmtOutRerouted(routes: set<Route>, n: Route, c: nat, x: nat, inPid: int)
    requires PmtOutRoute(routes, c, x, inPid)
    ensures PmtOutRoute(Reroute(routes, n) + {n}, c, x, inPid)
  {
    var r :| r in routes && r.Pmt() && r.Carries(c, inPid) && r.outPid == x;
    assert Rerouted(r, n) == r;
    assert r in Reroute(routes, n);
  }

  lemma PutRouteCell(tab: seq<IoEntry>, chans: nat, inputs: set<Input>, pmts: set<Input>, routes: set<Route>,
      n: Route, f: IoEntry, d: nat, y: nat)
    requires |tab| == chans * CELLS && d < chans && y < CELLS && n.Chan() < chans && IsValidPid(n.inPid)
    requires CellAgrees(inputs, pmts, routes, d, y, tab[Cell(d, y)])
    requires var e := tab[Cell(n.Chan(), n.inPid)];
      TakesOut(e, f, n.outPid) && e.isInput && (n.Pmt() <==> e.pmtPid)
    ensures CellAgrees(inputs, pmts, Reroute(routes, n) + {n}, d, y, tab[Cell(n.Chan(), n.inPid) := f][Cell(d, y)])
  {
    var e := tab[Cell(d, y)];
    if e.isPmtOut {
      PmtOutRerouted(routes, n, d, y, e.pmtInPid);
    }
    if Cell(d, y) == Cell(n.Chan(), n.inPid) {
      CellUnique(n.Chan(), n.inPid, d, y);
      assert n in Reroute(routes, n) + {n};
    } else if e.selected {
      CellRouteRerouted(routes, n, d, y, e);
    }
  }

  lemma PutRouteRoute(tab: seq<IoEntry>, chans: nat, routes: set<Route>, n: Route, f: IoEntry, r: Route)
    requires |tab| == chans * CELLS && n.Chan() < chans && IsValidPid(n.inPid) && n.outPid < CELLS
    requires var e := tab[Cell(n.Chan(), n.inPid)];
      TakesOut(e, f, n.outPid) && (n.Pmt() <==> e.pmtPid) && (n.Pmt() ==> !e.selected)
    requires RouteAgrees(tab, chans, r)
    ensures RouteAgrees(tab[Cell(n.Chan(), n.inPid) := f], chans, Rerouted(r, n))
  {
    if Cell(r.Chan(), r.inPid) == Cell(n.Chan(), n.inPid) {
      CellUnique(n.Chan(), n.inPid, r.Chan(), r.inPid);
    }
  }

  /** Putting a route on record at its input redirects all routes of that input. */
  lemma PutRoute(tab: seq<IoEntry>, chans: nat, inputs: set<Input>, pmts: set<Input>, routes: set<Route>, n: Route,
      f: IoEntry)
    requires Agrees(tab, chans, inputs, pmts, routes)
    requires n.Chan() < chans && IsValidPid(n.inPid) && n.outPid < CELLS
    requires var e := tab[Cell(n.Chan(), n.inPid)];
      TakesOut(e, f, n.outPid) && e.isInput && (n.Pmt() <==> e.pmtPid) && (n.Pmt() ==> !e.selected)
    ensures Agrees(tab[Cell(n.Chan(), n.inPid) := f], chans, inputs, pmts, Reroute(routes, n) + {n})
  {
    var tab' := tab[Cell(n.Chan(), n.inPid) := f];
    var routes' := Reroute(routes, n) + {n};
    assert CellsAgree(tab', chans, inputs, pmts, routes') by {
      forall d: nat, y: nat | d < chans && y < CELLS ensures CellAgrees(inputs, pmts, routes', d, y, tab'[Cell(d, y)]) {
        PutRouteCell(tab, chans, inputs, pmts, routes, n, f, d, y);
      }
    }
    forall r | r in routes' ensures RouteAgrees(tab', chans, r) {
      if r != n {
        var r0 :| r0 in routes && r == Rerouted(r0, n);
        PutRouteRoute(tab, chans, routes, n, f, r0);
      }
    }
  }

  lemma PutPmtOutCell(tab: seq<IoEntry>, chans: nat, inputs: set<Input>, pmts: set<Input>, routes: set<Route>,
      n: Route, f: IoEntry, d: nat, y: nat)
    requires |tab| == chans * CELLS && d < chans && y < CELLS && n.Chan() < chans && n.outPid < CELLS && n.Pmt()
    requires CellAgrees(inputs, pmts, routes, d, y, tab[Cell(d, y)])
    requires f == tab[Cell(n.Chan(), n.outPid)].(
      isPmtOut := true, pmtInPid := n.inPid, justAdded := f.justAdded, addAgain := f.addAgain)
    ensures CellAgrees(inputs, pmts, routes + {n}, d, y, tab[Cell(n.Chan(), n.outPid) := f][Cell(d, y)])
  {
    var e := tab[Cell(d, y)];
    assert n in routes + {n};
    if e.isPmtOut {
      var r :| r in routes && r.Pmt() && r.Carries(d, e.pmtInPid) && r.outPid == y;
      assert r in routes + {n};
    }
    if e.selected {
      var r :| r in routes && r.Carries(d, y) && r.outPid == e.outPid && (r.Pmt() <==> e.pmtPid);
      assert r in routes + {n};
    }
    if Cell(d, y) == Cell(n.Chan(), n.outPid) {
      CellUnique(n.Chan(), n.outPid, d, y);
    }
  }

  /** A further PMT of an input already in force goes on record at its output. */
  lemma PutPmtOut(tab: seq<IoEntry>, chans: nat, inputs: set<Input>, pmts: set<Input>, routes: set<Route>, n: Route,
      f: IoEntry)
    requires Agrees(tab, chans, inputs, pmts, routes)
    requires n.Pmt() && n.Chan() < chans && IsValidPid(n.inPid) && n.outPid < CELLS
    requires tab[Cell(n.Chan(), n.inPid)].selected && tab[Cell(n.Chan(), n.inPid)].pmtPid
    requires f == tab[Cell(n.Chan(), n.outPid)].(
      isPmtOut := true, pmtInPid := n.inPid, justAdded := f.justAdded, addAgain := f.addAgain)
    ensures Agrees(tab[Cell(n.Chan(), n.outPid) := f], chans, inputs, pmts, routes + {n})
  {
    hide CellAgrees;
    var tab' := tab[Cell(n.Chan(), n.outPid) := f];
    assert CellsAgree(tab', chans, inputs, pmts, routes + {n}) by {
      forall d: nat, y: nat | d < chans && y < CELLS
        ensures CellAgrees(inputs, pmts, routes + {n}, d, y, tab'[Cell(d, y)])
      {
        PutPmtOutCell(tab, chans, inputs, pmts, routes, n, f, d, y);
      }
    }
    forall r | r in routes + {n} ensures RouteAgrees(tab', chans, r) {
      if r in routes {
        assert RouteAgrees(tab, chans, r);
      }
    }
  }

  // ---- Inputs that are not noted yet ---------------------------------------------------------

  /** The table as if the cells of some more inputs had been noted. */
  ghost function Noted(tab: seq<IoEntry>, ins: set<nat>, pms: set<nat>): (view: seq<IoEntry>)
    ensures |view| == |tab|
    ensures forall i :: 0 <= i < |tab| ==>
      view[i] == tab[i].(isInput := tab[i].isInput || i in ins, pmtPid := tab[i].pmtPid || i in pms)
  {
    seq(|tab|, i requires 0 <= i < |tab| => tab[i].(isInput := tab[i].isInput || i in ins,
                                                    pmtPid := tab[i].pmtPid || i in pms))
  }

  lemma NothingNoted(tab: seq<IoEntry>)
    ensures Noted(tab, {}, {}) == tab
  {
  }

  lemma NotedSet(tab: seq<IoEntry>, ins: set<nat>, pms: set<nat>, i: nat, f: IoEntry)
    requires i < |tab|
    ensures Noted(tab[i := f], ins, pms) ==
      Noted(tab, ins, pms)[i := f.(isInput := f.isInput || i in ins, pmtPid := f.pmtPid || i in pms)]
  {
  }

  /** The cells of the inputs of a program, and the inputs themselves. */
  ghost function CellsOf(c: nat, e: Ents): set<nat> {
    set i: nat | i < SLOTS && IsValidPid(e[i].inPid) :: Cell(c, e[i].inPid)
  }

  ghost function EntsInputs(c: nat, e: Ents): set<Input> {
    set i: nat | i < SLOTS && IsValidPid(e[i].inPid) :: Input(c, e[i].inPid)
  }

  lemma CellsAreInputs(c: nat, e: Ents, d: nat, y: nat)
    requires y < CELLS
    ensures Cell(d, y) in CellsOf(c, e) <==> Input(d, y) in EntsInputs(c, e)
    ensures Cell(d, y) == Cell(c, e[0].inPid) && IsValidPid(e[0].inPid) ==> d == c && y == e[0].inPid
  {
    if Cell(d, y) in CellsOf(c, e) {
      var i: nat :| i < SLOTS && IsValidPid(e[i].inPid) && Cell(d, y) == Cell(c, e[i].inPid);
      CellUnique(d, y, c, e[i].inPid);
    }
    if Input(d, y) in EntsInputs(c, e) {
      var i: nat :| i < SLOTS && IsValidPid(e[i].inPid) && Input(d, y) == Input(c, e[i].inPid);
    }
    if Cell(d, y) == Cell(c, e[0].inPid) && IsValidPid(e[0].inPid) {
      CellUnique(d, y, c, e[0].inPid);
    }
  }

  /** With them noted the table describes the same routes. */
  lemma NotedAgrees(tab: seq<IoEntry>, chans: nat, inputs: set<Input>, pmts: set<Input>, routes: set<Route>, c: nat,
      e: Ents)
    requires Agrees(tab, chans, inputs, pmts, routes) && c < chans && IsValidPid(e[0].inPid)
    requires !Mapped(routes, c, e[0].inPid)
    ensures Agrees(Noted(tab, CellsOf(c, e), {Cell(c, e[0].inPid)}), chans, inputs + EntsInputs(c, e),
      pmts + {Input(c, e[0].inPid)}, routes)
  {
    var view := Noted(tab, CellsOf(c, e), {Cell(c, e[0].inPid)});
    forall d: nat, y: nat | d < chans && y < CELLS
      ensures CellAgrees(inputs + EntsInputs(c, e), pmts + {Input(c, e[0].inPid)}, routes, d, y, view[Cell(d, y)])
    {
      NotedCell(tab, chans, inputs, pmts, routes, c, e, d, y);
    }
    forall r | r in routes ensures RouteAgrees(view, chans, r) {
      NotedRoute(tab, chans, routes, c, e, r);
    }
  }

  lemma NotedCell(tab: seq<IoEntry>, chans: nat, inputs: set<Input>, pmts: set<Input>, routes: set<Route>, c: nat,
      e: Ents, d: nat, y: nat)
    requires |tab| == chans * CELLS && c < chans && IsValidPid(e[0].inPid) && !Mapped(routes, c, e[0].inPid)
    requires d < chans && y < CELLS && CellAgrees(inputs, pmts, routes, d, y, tab[Cell(d, y)])
    ensures CellAgrees(inputs + EntsInputs(c, e), pmts + {Input(c, e[0].inPid)}, routes, d, y,
      Noted(tab, CellsOf(c, e), {Cell(c, e[0].inPid)})[Cell(d, y)])
  {
    var f := tab[Cell(d, y)];
    CellsAreInputs(c, e, d, y);
    CellsAreInputs(c, e, c, e[0].inPid);
    if f.selected {
      var r :| r in routes && r.Carries(d, y) && r.outPid == f.outPid && (r.Pmt() <==> f.pmtPid);
    }
  }

  lemma NotedRoute(tab: seq<IoEntry>, chans: nat, routes: set<Route>, c: nat, e: Ents, r: Route)
    requires |tab| == chans * CELLS && c < chans && IsValidPid(e[0].inPid) && !Mapped(routes, c, e[0].inPid)
    requires r in routes && RouteAgrees(tab, chans, r)
    ensures RouteAgrees(Noted(tab, CellsOf(c, e), {Cell(c, e[0].inPid)}), chans, r)
  {
    CellsAreInputs(c, e, r.Chan(), r.inPid);
  }

  // ---- What the cells answer ----------------------------------------------------------

  ghost predicate PmtOutAnywhere(tab: seq<IoEntry>, chans: nat, pid: nat)
    requires |tab| == chans * CELLS && pid < CELLS
  {
    exists c: nat :: c < chans && tab[Cell(c, pid)].isPmtOut
  }

  /** What the table shows as PMT outputs are the outputs of further PMTs. */
  ghost predicate FurtherShown(tab: seq<IoEntry>, chans: nat, routes: set<Route>) {
    |tab| == chans * CELLS &&
    forall pid: nat :: pid < CELLS ==> (PmtOutAnywhere(tab, chans, pid) <==> FurtherPmt(routes, pid))
  }

  /** One cell set: a PMT output more, if it is one. */
  lemma PmtOutSet(tab: seq<IoEntry>, chans: nat, c: nat, x: nat, f: IoEntry, pid: nat)
    requires |tab| == chans * CELLS && c < chans && x < CELLS && pid < CELLS
    requires f.isPmtOut || !tab[Cell(c, x)].isPmtOut
    ensures PmtOutAnywhere(tab[Cell(c, x) := f], chans, pid) <==>
      PmtOutAnywhere(tab, chans, pid) || (f.isPmtOut && pid == x)
  {
    var tab' := tab[Cell(c, x) := f];
    forall d: nat | d < chans
      ensures tab'[Cell(d, pid)].isPmtOut <==>
        tab[Cell(d, pid)].isPmtOut || (f.isPmtOut && d == c && pid == x)
    {
      if Cell(d, pid) == Cell(c, x) {
        CellUnique(c, x, d, pid);
      }
    }
    if f.isPmtOut && pid == x {
      assert tab'[Cell(c, pid)].isPmtOut;
    }
  }

  /** Some cell of a valid PID sends it on to `outPid`. */
  predicate Sends(tab: seq<IoEntry>, chans: nat, c: nat, x: nat, outPid: int)
    requires |tab| == chans * CELLS
  {
    c < chans && IsValidPid(x) && tab[Cell(c, x)].selected && tab[Cell(c, x)].outPid == outPid
  }

  lemma TakenShows(tab: seq<IoEntry>, chans: nat, inputs: set<Input>, pmts: set<Input>, routes: set<Route>, r: Route)
    requires Agrees(tab, chans, inputs, pmts, routes) && SameOut(routes) && r in routes
    ensures r.outPid < CELLS && (PmtOutAnywhere(tab, chans, r.outPid) || Sends(tab, chans, r.Chan(), r.inPid, r.outPid))
  {
    var c, x := r.Chan(), r.inPid as int;
    assert RouteAgrees(tab, chans, r);
    assert CellAgrees(inputs, pmts, routes, c, x, tab[Cell(c, x)]);
    if !r.Pmt() {
      var q :| q in routes && q.Carries(c, x) && q.outPid == tab[Cell(c, x)].outPid &&
        (q.Pmt() <==> tab[Cell(c, x)].pmtPid);
      assert q.outPid == r.outPid;
    }
  }

  lemma PmtOutShows(tab: seq<IoEntry>, chans: nat, inputs: set<Input>, pmts: set<Input>, routes: set<Route>, c: nat,
      outPid: nat)
    requires Agrees(tab, chans, inputs, pmts, routes) && c < chans && outPid < CELLS && tab[Cell(c, outPid)].isPmtOut
    ensures exists r :: r in routes && r.outPid == outPid && r.Pmt() && r.Chan() == c
  {
    assert CellAgrees(inputs, pmts, routes, c, outPid, tab[Cell(c, outPid)]);
  }

  lemma SendsShows(tab: seq<IoEntry>, chans: nat, inputs: set<Input>, pmts: set<Input>, routes: set<Route>, c: nat,
      x: nat, outPid: nat)
    requires Agrees(tab, chans, inputs, pmts, routes) && Sends(tab, chans, c, x, outPid)
    ensures exists r :: r in routes && r.outPid == outPid && r.Carries(c, x) && (r.Pmt() <==> tab[Cell(c, x)].pmtPid)
  {
    assert CellAgrees(inputs, pmts, routes, c, x, tab[Cell(c, x)]);
  }

  /** An output is taken exactly when some cell has it as a PMT output or sends a PID to it. */
  lemma TakenInTable(tab: seq<IoEntry>, chans: nat, inputs: set<Input>, pmts: set<Input>, routes: set<Route>,
      outPid: nat)
    requires Agrees(tab, chans, inputs, pmts, routes) && SameOut(routes) && outPid < CELLS
    ensures Taken(routes, outPid) <==>
      PmtOutAnywhere(tab, chans, outPid) || exists c: nat, x: nat :: Sends(tab, chans, c, x, outPid)
  {
    if Taken(routes, outPid) {
      var r :| r in routes && r.outPid == outPid;
      TakenShows(tab, chans, inputs, pmts, routes, r);
    } else {
      if c: nat :| c < chans && tab[Cell(c, outPid)].isPmtOut {
        PmtOutShows(tab, chans, inputs, pmts, routes, c, outPid);
      }
      if c: nat, x: nat :| Sends(tab, chans, c, x, outPid) {
        SendsShows(tab, chans, inputs, pmts, routes, c, x, outPid);
      }
    }
  }

  /** Some cell other than the non-PMT cell of `inPid` itself sends to `outPid`. */
  ghost predicate SentByOther(tab: seq<IoEntry>, chans: nat, c: nat, inPid: nat, outPid: int)
    requires |tab| == chans * CELLS
  {
    exists d: nat, y: nat :: Sends(tab, chans, d, y, outPid) && (d != c || y != inPid || tab[Cell(d, y)].pmtPid)
  }

  /** A test over the cells decides whether an output is usable. */
  lemma UsableInTable(tab: seq<IoEntry>, chans: nat, inputs: set<Input>, pmts: set<Input>, routes: set<Route>, c: nat,
      inPid: nat, outPid: nat)
    requires Agrees(tab, chans, inputs, pmts, routes) && SameOut(routes)
    requires c < chans && inPid < CELLS && outPid < CELLS
    ensures Usable(routes, c, tab[Cell(c, inPid)].pmtPid, inPid, outPid) <==>
            !PmtOutAnywhere(tab, chans, outPid) && !SentByOther(tab, chans, c, inPid, outPid)
  {
    hide CellAgrees, CellsAgree;
    var pmt := tab[Cell(c, inPid)].pmtPid;
    if r :| r in routes && r.outPid == outPid && !(!pmt && !r.Pmt() && r.Carries(c, inPid)) {
      TakenShows(tab, chans, inputs, pmts, routes, r);
      assert RouteAgrees(tab, chans, r);
      assert PmtOutAnywhere(tab, chans, outPid) || SentByOther(tab, chans, c, inPid, outPid);
    } else {
      if d: nat :| d < chans && tab[Cell(d, outPid)].isPmtOut {
        PmtOutShows(tab, chans, inputs, pmts, routes, d, outPid);
      }
      if d: nat, y: nat :| Sends(tab, chans, d, y, outPid) && (d != c || y != inPid || tab[Cell(d, y)].pmtPid) {
        SendsShows(tab, chans, inputs, pmts, routes, d, y, outPid);
      }
    }
  }

  /** What the usability test answers: is the very output in force for the input, only a further
      PMT is looked for. */
  ghost predicate TestAnswers(tab: seq<IoEntry>, chans: nat, c: nat, inPid: nat, outPid: nat, usable: bool)
    requires |tab| == chans * CELLS && c < chans && inPid < CELLS && outPid < CELLS
  {
    var e := tab[Cell(c, inPid)];
    if e.selected && e.outPid == outPid then !PmtOutAnywhere(tab, chans, outPid) && !e.pmtPid else usable
  }

  /** Flags of inputs noted besides matter only at the cell asked about. */
  lemma NotedAnswers(tab: seq<IoEntry>, chans: nat, ins: set<nat>, pms: set<nat>, c: nat, inPid: nat, outPid: nat)
    requires |tab| == chans * CELLS && c < chans && inPid < CELLS && outPid < CELLS
    requires var e := tab[Cell(c, inPid)]; e.selected ==> e.pmtPid == Noted(tab, ins, pms)[Cell(c, inPid)].pmtPid
    ensures var view := Noted(tab, ins, pms);
      && (PmtOutAnywhere(view, chans, outPid) <==> PmtOutAnywhere(tab, chans, outPid))
      && (SentByOther(view, chans, c, inPid, outPid) <==> SentByOther(tab, chans, c, inPid, outPid))
  {
    var view := Noted(tab, ins, pms);
    forall d: nat, y: nat
      ensures Sends(view, chans, d, y, outPid) <==> Sends(tab, chans, d, y, outPid)
    {
    }
  }

  ghost predicate FlaggedAnywhere(tab: seq<IoEntry>, chans: nat, pid: nat)
    requires |tab| == chans * CELLS && pid < CELLS
  {
    exists c: nat :: c < chans && tab[Cell(c, pid)].Flagged()
  }

  ghost predicate SentAnywhere(tab: seq<IoEntry>, chans: nat, pid: nat)
    requires |tab| == chans * CELLS
  {
    exists c: nat, x: nat :: Sends(tab, chans, c, x, pid)
  }

  /** A test over the cells decides whether a PID is free. */
  lemma FreeInTable(tab: seq<IoEntry>, chans: nat, inputs: set<Input>, pmts: set<Input>, routes: set<Route>, pid: nat)
    requires Agrees(tab, chans, inputs, pmts, routes) && SameOut(routes) && IsValidPid(pid)
    requires forall i :: i in inputs ==> i.chan < chans
    ensures Free(inputs, routes, pid) <==> !FlaggedAnywhere(tab, chans, pid) && !SentAnywhere(tab, chans, pid)
  {
    TakenInTable(tab, chans, inputs, pmts, routes, pid);
    if IsInput(inputs, pid) {
      var i :| i in inputs && i.pid == pid;
      assert CellAgrees(inputs, pmts, routes, i.chan, pid, tab[Cell(i.chan, pid)]);
    }
    if c: nat :| c < chans && tab[Cell(c, pid)].Flagged() {
      assert CellAgrees(inputs, pmts, routes, c, pid, tab[Cell(c, pid)]);
      if tab[Cell(c, pid)].isInput {
        assert Input(c, pid) in inputs;
      }
    }
  }

  /** The table knows which inputs have an output in force. */
  lemma SelectedInTable(tab: seq<IoEntry>, chans: nat, inputs: set<Input>, pmts: set<Input>, routes: set<Route>,
      c: nat, x: nat)
    requires Agrees(tab, chans, inputs, pmts, routes) && SameOut(routes) && c < chans && x < CELLS
    ensures var e := tab[Cell(c, x)];
      if e.pmtPid then e.selected <==> PmtMapped(routes, c, x)
      else
        && (e.selected <==> Mapped(routes, c, x))
        && (e.selected ==> e.outPid == MappedOut(routes, c, x) && e.outPid < CELLS)
  {
    var e := tab[Cell(c, x)];
    assert CellAgrees(inputs, pmts, routes, c, x, e);
    if r :| r in routes && r.Carries(c, x) {
      assert RouteAgrees(tab, chans, r);
    }
  }

  lemma PmtSelected(tab: seq<IoEntry>, chans: nat, inputs: set<Input>, pmts: set<Input>, routes: set<Route>, c: nat,
      x: nat)
    requires Agrees(tab, chans, inputs, pmts, routes) && c < chans && x < CELLS && tab[Cell(c, x)].pmtPid
    ensures tab[Cell(c, x)].selected <==> PmtMapped(routes, c, x)
  {
    assert CellAgrees(inputs, pmts, routes, c, x, tab[Cell(c, x)]);
    if r :| r in routes && r.Pmt() && r.Carries(c, x) {
      assert RouteAgrees(tab, chans, r);
    }
  }

  /** Two tables that describe the same inputs and routes give the allocator the same
      answers, however they were built. */
  lemma SameAnswers(tab: seq<IoEntry>, other: seq<IoEntry>, chans: nat, inputs: set<Input>, pmts: set<Input>,
      routes: set<Route>)
    requires Agrees(tab, chans, inputs, pmts, routes) && Agrees(other, chans, inputs, pmts, routes) && SameOut(routes)
    ensures forall c: nat, x: nat :: c < chans && x < CELLS && !tab[Cell(c, x)].pmtPid ==>
      var e, f := tab[Cell(c, x)], other[Cell(c, x)];
      !f.pmtPid && (e.isInput <==> f.isInput) && (e.selected <==> f.selected) && (e.selected ==> e.outPid == f.outPid)
    ensures forall pid: nat :: pid < CELLS ==>
      (PmtOutAnywhere(tab, chans, pid) || SentAnywhere(tab, chans, pid) <==>
        PmtOutAnywhere(other, chans, pid) || SentAnywhere(other, chans, pid))
  {
    forall c: nat, x: nat | c < chans && x < CELLS && !tab[Cell(c, x)].pmtPid
      ensures var e, f := tab[Cell(c, x)], other[Cell(c, x)];
        !f.pmtPid && (e.isInput <==> f.isInput) && (e.selected <==> f.selected) && (e.selected ==> e.outPid == f.outPid)
    {
      assert CellAgrees(inputs, pmts, routes, c, x, tab[Cell(c, x)]);
      assert CellAgrees(inputs, pmts, routes, c, x, other[Cell(c, x)]);
      SelectedInTable(tab, chans, inputs, pmts, routes, c, x);
      SelectedInTable(other, chans, inputs, pmts, routes, c, x);
    }
    forall pid: nat | pid < CELLS
      ensures PmtOutAnywhere(tab, chans, pid) || SentAnywhere(tab, chans, pid) <==>
        PmtOutAnywhere(other, chans, pid) || SentAnywhere(other, chans, pid)
    {
      TakenInTable(tab, chans, inputs, pmts, routes, pid);
      TakenInTable(other, chans, inputs, pmts, routes, pid);
    }
  }
}
