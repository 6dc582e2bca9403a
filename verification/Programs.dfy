/** The program table of all channels and the steps that change it
    (src/program_pid_validater.c, src/io_table.c, src/front_panel_process.c). */
module Programs {
  import opened Pids
  import opened Routes

  type Table = seq<Prog>

  /** How many programs each channel carries. */
  type Counts = seq<nat>

  predicate Shape(num: Counts, t: Table) {
    && |t| == |num| * PROGRAM_MAX
    && forall c :: 0 <= c < |num| ==> num[c] <= PROGRAM_MAX
  }

  predicate Present(num: Counts, k: nat) {
    k / PROGRAM_MAX < |num| && k % PROGRAM_MAX < num[k / PROGRAM_MAX]
  }

  /** The programs of a channel are the first entries of its 64. */
  lemma PresentIs(num: Counts, chan: nat, prog: nat)
    requires prog < 64
    ensures Present(num, 64 * chan + prog) <==> chan < |num| && prog < num[chan]
  {
    assert (64 * chan + prog) / 64 == chan && (64 * chan + prog) % 64 == prog;
  }

  function Ins(t: Table, k: nat, i: nat): U16
    requires k < |t| && i < SLOTS
  {
    t[k].info.ents[i].inPid
  }

  predicate Uses(t: Table, k: nat, i: nat)
    requires k < |t| && i < SLOTS
  {
    IsValidPid(Ins(t, k, i))
  }

  /** What the parser delivers and no step changes: well-formed programs, and no PCR
      or data input that is also a PMT input of the same channel. */
  ghost predicate Sound(num: Counts, t: Table) {
    && Shape(num, t)
    && (forall k: nat :: k < |t| && Present(num, k) ==> WellFormed(t[k].info.ents))
    && (forall k: nat, l: nat, i ::
          k < |t| && l < |t| && 1 <= i < SLOTS && Present(num, k) && Present(num, l) &&
          k / PROGRAM_MAX == l / PROGRAM_MAX ==>
          Ins(t, k, i) != Ins(t, l, 0))
    && (forall k: nat :: k < |t| && t[k].selected ==> Present(num, k))
  }

  ghost predicate IsRoute(t: Table, r: Route) {
    && r.prog < |t| && r.slot < SLOTS && t[r.prog].selected && Uses(t, r.prog, r.slot)
    && r == RouteOf(r.prog, t[r.prog].info.ents, r.slot)
  }

  ghost function RoutesOf(t: Table): (routes: set<Route>)
    ensures forall r :: r in routes <==> IsRoute(t, r)
  {
    set k: nat, i: nat | k < |t| && i < SLOTS && t[k].selected && Uses(t, k, i) :: RouteOf(k, t[k].info.ents, i)
  }

  ghost predicate IsInputOf(num: Counts, t: Table, p: Input, pmtOnly: bool) {
    exists k: nat, i: nat :: k < |t| && Present(num, k) && i < SLOTS && Uses(t, k, i) && (pmtOnly ==> i == 0) &&
      p == Input(k / PROGRAM_MAX, Ins(t, k, i))
  }

  ghost function InputsOf(num: Counts, t: Table): (inputs: set<Input>)
    ensures forall p :: p in inputs <==> IsInputOf(num, t, p, false)
  {
    set k: nat, i: nat | k < |t| && i < SLOTS && Present(num, k) && Uses(t, k, i) ::
      Input(k / PROGRAM_MAX, Ins(t, k, i))
  }

  ghost function PmtsOf(num: Counts, t: Table): (inputs: set<Input>)
    ensures forall p :: p in inputs <==> IsInputOf(num, t, p, true)
  {
    set k: nat | k < |t| && Present(num, k) && Uses(t, k, 0) :: Input(k / PROGRAM_MAX, Ins(t, k, 0))
  }

  /** Outputs of the selected programs stand apart. */
  ghost predicate Consistent(num: Counts, t: Table) {
    Sound(num, t) && Apart(RoutesOf(t))
  }

  /** Same programs with the same inputs; outputs and selection may differ. */
  predicate SamePrograms(t: Table, u: Table) {
    |t| == |u| && forall k :: 0 <= k < |t| ==> SameInputs(t[k].info.ents, u[k].info.ents)
  }

  lemma SameProgramsSameInputs(num: Counts, t: Table, u: Table)
    requires SamePrograms(t, u)
    ensures InputsOf(num, t) == InputsOf(num, u) && PmtsOf(num, t) == PmtsOf(num, u)
  {
    forall k: nat, i: nat | k < |t| && i < SLOTS ensures Ins(t, k, i) == Ins(u, k, i) {
    }
    forall p, b ensures IsInputOf(num, t, p, b) <==> IsInputOf(num, u, p, b) {
      if IsInputOf(num, t, p, b) {
        var k: nat, i: nat :| k < |t| && Present(num, k) && i < SLOTS && Uses(t, k, i) && (b ==> i == 0) &&
                              p == Input(k / PROGRAM_MAX, Ins(t, k, i));
        assert Uses(u, k, i);
      }
      if IsInputOf(num, u, p, b) {
        var k: nat, i: nat :| k < |u| && Present(num, k) && i < SLOTS && Uses(u, k, i) && (b ==> i == 0) &&
                              p == Input(k / PROGRAM_MAX, Ins(u, k, i));
        assert Uses(t, k, i);
      }
    }
  }

  lemma SoundCarriesOver(num: Counts, t: Table, u: Table)
    requires Sound(num, t) && SamePrograms(t, u)
    requires forall k: nat :: k < |u| && u[k].selected ==> Present(num, k)
    ensures Sound(num, u)
  {
    forall k: nat, i: nat | k < |t| && i < SLOTS ensures Ins(t, k, i) == Ins(u, k, i) {
    }
    forall k: nat | k < |u| && Present(num, k) ensures WellFormed(u[k].info.ents) {
      assert WellFormed(t[k].info.ents);
      assert forall i :: 0 <= i < SLOTS ==> u[k].info.ents[i].inPid == t[k].info.ents[i].inPid;
    }
  }

  // ---- Steps -------------------------------------------------------------------

  function Deselect(t: Table, k: nat): Table
    requires k < |t|
  {
    t[k := t[k].(selected := false)]
  }

  function SetEnts(p: Prog, e: Ents): Prog {
    p.(info := p.info.(ents := e))
  }

  function Commit(t: Table, k: nat, p: Prog): Table
    requires k < |t|
  {
    t[k := p.(selected := true)]
  }

  /** Selecting a program with the same inputs adds exactly its own routes. */
  lemma CommitRoutes(t: Table, k: nat, p: Prog)
    requires k < |t|
    ensures RoutesOf(Commit(t, k, p)) == RoutesOf(Deselect(t, k)) + RoutesFrom(k, p.info.ents, 0)
  {
    var u, d := Commit(t, k, p), Deselect(t, k);
    forall r ensures IsRoute(u, r) <==> IsRoute(d, r) || r in RoutesFrom(k, p.info.ents, 0) {
      if IsRoute(u, r) && r.prog == k {
        assert r == RouteOf(k, p.info.ents, r.slot);
      }
    }
  }

  /** Outputs for program k chosen by the allocator; k must not count as selected in t. */
  ghost function AutoFix(num: Counts, t: Table, k: nat, p: Prog): (q: Prog)
    ensures q.selected == p.selected && q.scrambled == p.scrambled && q.info.progNum == p.info.progNum &&
      q.info.names == p.info.names
    ensures SameInputs(q.info.ents, p.info.ents)
  {
    SetEnts(p, Assign(InputsOf(num, t), RoutesOf(t), k, p.info.ents, 0))
  }

  /** As many free PIDs as the program has inputs in need of a fresh one. */
  ghost predicate Enough(num: Counts, t: Table, k: nat, p: Prog) {
    |NeedSet(RoutesOf(t), k / PROGRAM_MAX, p.info.ents, 0)| <= |FreeSet(InputsOf(num, t), RoutesOf(t))|
  }

  lemma DeselectConsistent(num: Counts, t: Table, k: nat)
    requires Consistent(num, t) && k < |t|
    ensures Consistent(num, Deselect(t, k)) && SamePrograms(t, Deselect(t, k))
    ensures RoutesOf(Deselect(t, k)) <= RoutesOf(t)
  {
    var d := Deselect(t, k);
    SoundCarriesOver(num, t, d);
    forall r | IsRoute(d, r) ensures IsRoute(t, r) {
    }
  }

  lemma OwnInputsKnown(num: Counts, t: Table, k: nat, p: Prog)
    requires Sound(num, t) && k < |t| && Present(num, k)
    requires SameInputs(p.info.ents, t[k].info.ents)
    ensures KnownInputs(InputsOf(num, t), p.info.ents) && WellFormed(p.info.ents)
  {
    var e := p.info.ents;
    forall j | 0 <= j < SLOTS ensures e[j].inPid == Ins(t, k, j) {
    }
    forall j | 0 <= j < SLOTS && IsValidPid(e[j].inPid) ensures IsInput(InputsOf(num, t), e[j].inPid) {
      assert Uses(t, k, j);
      assert IsInputOf(num, t, Input(k / PROGRAM_MAX, Ins(t, k, j)), false);
    }
    assert WellFormed(t[k].info.ents);
  }

  lemma CommitSound(num: Counts, t: Table, k: nat, p: Prog)
    requires Sound(num, t) && k < |t| && Present(num, k)
    requires SameInputs(p.info.ents, t[k].info.ents)
    ensures Sound(num, Commit(t, k, p)) && SamePrograms(t, Commit(t, k, p))
  {
    SoundCarriesOver(num, t, Commit(t, k, p));
  }

  /** Automatic selection keeps the table consistent exactly when the free PIDs suffice. */
  lemma AutoSelectConsistent(num: Counts, t: Table, k: nat, p: Prog)
    requires Consistent(num, t) && k < |t| && Present(num, k)
    requires SameInputs(p.info.ents, t[k].info.ents)
    ensures var d := Deselect(t, k);
      Consistent(num, Commit(d, k, AutoFix(num, d, k, p))) <==> Enough(num, d, k, p)
  {
    var d := Deselect(t, k);
    DeselectConsistent(num, t, k);
    var q := AutoFix(num, d, k, p);
    CommitSound(num, d, k, q);
    CommitRoutes(d, k, q);
    assert Deselect(d, k) == d;
    OwnInputsKnown(num, d, k, p);
    AssignAllApart(InputsOf(num, d), RoutesOf(d), k, p.info.ents);
  }
}
