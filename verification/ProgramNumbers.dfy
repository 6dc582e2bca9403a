/** Program numbers of the generated PAT (src/front_panel_psi_gen.c:13-65, 127-153,
    src/psi_gen.c:182-202; section 2.4.4.3 of ISO/IEC 13818-1). */
module ProgramNumbers {
  import opened Pids
  import opened Routes
  import opened Programs
  import opened Capacity

  /** The least number from i on that is not in the table; the search need not go beyond
      the length of the table. */
  function FreeFrom(s: seq<U16>, i: nat): (r: nat)
    ensures i <= r
    decreases |s| + 1 - i
  {
    if i !in s || i > |s| then i else FreeFrom(s, i + 1)
  }

  function Elements(s: seq<U16>): (e: set<int>)
    ensures |e| <= |s|
    ensures forall x :: x in e <==> x in s
  {
    if s == [] then {}
    else
      assert s == s[..|s| - 1] + [s[|s| - 1]];
      Elements(s[..|s| - 1]) + {s[|s| - 1] as int}
  }

  /** A search that comes far has met every number on its way. */
  lemma {:induction false} FreeFromMet(s: seq<U16>, i: nat)
    ensures forall k :: i <= k < FreeFrom(s, i) ==> k in s
    decreases |s| + 1 - i
  {
    if i in s && i <= |s| {
      FreeFromMet(s, i + 1);
    }
  }

  lemma {:induction false} FreeFromEnds(s: seq<U16>, i: nat)
    ensures FreeFrom(s, i) <= (if i <= |s| then |s| + 1 else i)
    ensures FreeFrom(s, i) <= |s| ==> FreeFrom(s, i) !in s
    decreases |s| + 1 - i
  {
    if i in s && i <= |s| {
      FreeFromEnds(s, i + 1);
    }
  }

  /** A table of n numbers leaves one of 1 to n + 1 free, so the search always succeeds. */
  lemma PickIsFree(s: seq<U16>)
    ensures var r := FreeFrom(s, 1);
      1 <= r <= |s| + 1 && r !in s && forall k :: 1 <= k < r ==> k in s
  {
    var r := FreeFrom(s, 1);
    FreeFromMet(s, 1);
    FreeFromEnds(s, 1);
    if r in s {
      assert Range(1, r + 1) <= Elements(s);
      SubsetSize(Range(1, r + 1), Elements(s));
      assert false;
    }
  }

  /** A number already in the table is replaced. */
  function NumberFor(s: seq<U16>, wanted: U16): nat {
    if wanted in s then FreeFrom(s, 1) else wanted
  }

  type NumberTable = s: seq<U16> | |s| <= PROGRAM_MAX

  lemma NumberForFits(s: NumberTable, wanted: U16)
    ensures NumberFor(s, wanted) < 0x10000 && NumberFor(s, wanted) !in s
  {
    PickIsFree(s);
  }

  // ---- The table -----------------------------------------------------------------------------

  /** The selected programs among the first n, at most 64 of them. */
  function Listed(t: Table, n: nat): (ks: seq<nat>)
    requires n <= |t|
    ensures |ks| <= PROGRAM_MAX && forall i :: 0 <= i < |ks| ==> ks[i] < n && t[ks[i]].selected
  {
    if n == 0 then []
    else
      var ks := Listed(t, n - 1);
      if |ks| < PROGRAM_MAX && t[n - 1].selected then ks + [n - 1] else ks
  }

  /** The numbers given to the programs ks. */
  ghost predicate Numbered(t: Table, ks: seq<nat>, s: seq<U16>) {
    && |s| == |ks| && (forall i :: 0 <= i < |ks| ==> ks[i] < |t|)
    && forall i :: 0 <= i < |ks| ==> s[i] == NumberFor(s[..i], t[ks[i]].info.progNum)
  }

  /** The static table of program numbers. */
  class ProgNumTable {
    const table: array<U16>
    var cnt: nat

    ghost predicate Valid()
      reads this, table
    {
      table.Length == PROGRAM_MAX && cnt <= PROGRAM_MAX
    }

    constructor ()
      ensures Valid() && fresh(table) && cnt == 0
    {
      table := new U16[PROGRAM_MAX](_ => 0);
      cnt := 0;
    }

    /** The least number above 0 that is not in the table. The search by 16-bit numbers
        never has to wrap around. */
    method PickFreeProgNum() returns (r: U16)
      requires Valid()
      ensures r == FreeFrom(table[..cnt], 1)
    {
      ghost var s := table[..cnt];
      PickIsFree(s);
      var i: nat := 1;
      while true
        invariant 1 <= i <= FreeFrom(s, 1) == FreeFrom(s, i)
        decreases FreeFrom(s, 1) - i
      {
        var j := 0;
        while j < cnt && table[j] != i
          invariant j <= cnt && i !in s[..j]
        {
          assert s[..j + 1] == s[..j] + [s[j]];
          j := j + 1;
        }
        if j == cnt {
          assert s[..j] == s;
          return i;
        }
        assert s[j] == i;
        i := i + 1;
      }
    }

    /** Puts a number into the next place, another one if it is taken. */
    method FixAndPush(index: nat, progNum: U16)
      requires Valid() && index == cnt < PROGRAM_MAX
      modifies table
      ensures table[..index] == old(table[..index]) && table[index] == NumberFor(old(table[..index]), progNum)
    {
      var num := progNum;
      ghost var s := table[..index];
      var i := 0;
      while i < index
        invariant i <= index && progNum !in s[..i] && num == progNum
      {
        if table[i] == progNum {
          assert s[i] == progNum;
          num := PickFreeProgNum();
          break;
        }
        assert s[..i + 1] == s[..i] + [s[i]];
        i := i + 1;
      }
      assert i == index ==> s[..i] == s;
      table[index] := num;
    }

    method Push(t: Table, k: nat, ghost ks: seq<nat>)
      requires Valid() && k < |t| && cnt < PROGRAM_MAX && Numbered(t, ks, table[..cnt])
      modifies this, table
      ensures Valid() && cnt == old(cnt) + 1 && Numbered(t, ks + [k], table[..cnt])
    {
      FixAndPush(cnt, t[k].info.progNum);
      NumberedMore(t, ks, table[..cnt], k, table[cnt]);
      assert table[..cnt + 1] == table[..cnt] + [table[cnt]];
      cnt := cnt + 1;
    }

    method Build(t: Table)
      requires Valid()
      modifies this, table
      ensures Valid() && Numbered(t, Listed(t, |t|), table[..cnt])
    {
      cnt := 0;
      for i := 0 to |t|
        invariant Valid() && Numbered(t, Listed(t, i), table[..cnt])
      {
        if cnt >= PROGRAM_MAX {
          ListedFull(t, i, |t|);
          return;
        }
        if t[i].selected {
          Push(t, i, Listed(t, i));
        }
      }
    }
  }

  lemma NumberedMore(t: Table, ks: seq<nat>, s: seq<U16>, k: nat, v: U16)
    requires Numbered(t, ks, s) && k < |t| && v == NumberFor(s, t[k].info.progNum)
    ensures Numbered(t, ks + [k], s + [v])
  {
    forall i | 0 <= i < |ks| + 1 ensures (s + [v])[i] == NumberFor((s + [v])[..i], t[(ks + [k])[i]].info.progNum) {
      assert (s + [v])[..i] == s[..i];
    }
    assert s[..|s|] == s;
  }

  lemma {:induction false} ListedFull(t: Table, n: nat, m: nat)
    requires n <= m <= |t| && |Listed(t, n)| == PROGRAM_MAX
    ensures Listed(t, m) == Listed(t, n)
    decreases m - n
  {
    if n < m {
      ListedFull(t, n, m - 1);
    }
  }

  // ---- What the table promises -------------------------------------------------------------------

  /** No number twice; a program keeps its own number exactly if no earlier one has it, and is
      given the least number from 1 on that none has otherwise. */
  lemma NumbersDistinct(t: Table, ks: seq<nat>, s: seq<U16>)
    requires Numbered(t, ks, s) && |ks| <= PROGRAM_MAX
    ensures forall i, j :: 0 <= i < j < |s| ==> s[i] != s[j]
    ensures forall i :: 0 <= i < |s| ==> (s[i] == t[ks[i]].info.progNum <==> t[ks[i]].info.progNum !in s[..i])
    ensures forall i :: 0 <= i < |s| && t[ks[i]].info.progNum in s[..i] ==>
      s[i] >= 1 && forall v :: 1 <= v < s[i] ==> v in s[..i]
  {
    forall j | 0 <= j < |s|
      ensures s[j] !in s[..j] && (s[j] == t[ks[j]].info.progNum <==> t[ks[j]].info.progNum !in s[..j])
      ensures t[ks[j]].info.progNum in s[..j] ==> s[j] >= 1 && forall v :: 1 <= v < s[j] ==> v in s[..j]
    {
      NumberForFits(s[..j], t[ks[j]].info.progNum);
      PickIsFree(s[..j]);
    }
    forall i, j | 0 <= i < j < |s| ensures s[i] != s[j] {
      assert s[i] == s[..j][i];
    }
  }

  lemma {:induction false} ListedAll(t: Table, n: nat)
    requires n <= |t| && SelectedCount(t[..n]) <= PROGRAM_MAX
    ensures |Listed(t, n)| == SelectedCount(t[..n])
    ensures forall k :: 0 <= k < n && t[k].selected ==> k in Listed(t, n)
    ensures forall i, j :: 0 <= i < j < |Listed(t, n)| ==> Listed(t, n)[i] < Listed(t, n)[j]
  {
    if n > 0 {
      assert t[..n][..n - 1] == t[..n - 1];
      ListedAll(t, n - 1);
    }
  }

  /** The programs listed are the first 64 selected ones: with ever higher places in the table,
      and none left out unless 64 with lower places are listed. */
  lemma {:induction false} ListedFirst(t: Table, n: nat)
    requires n <= |t|
    ensures var ks := Listed(t, n);
      && (forall i, j :: 0 <= i < j < |ks| ==> ks[i] < ks[j])
      && forall k: nat :: k < n && t[k].selected ==>
        k in ks || (|ks| == 64 && forall i :: 0 <= i < |ks| ==> ks[i] < k)
  {
    if n > 0 {
      ListedFirst(t, n - 1);
    }
  }

  datatype PatEntry = PatEntry(progNum: U16, pmtPid: U16)

  /** The PAT: numbers and PMT outputs of the listed programs, in order. */
  ghost predicate IsPat(t: Table, s: seq<U16>, pat: seq<PatEntry>) {
    var ks := Listed(t, |t|);
    && |pat| == |s| == |ks|
    && forall i :: 0 <= i < |ks| ==> pat[i] == PatEntry(s[i], t[ks[i]].info.ents[0].outPid)
  }

  /** The loop that fills the PAT. */
  method GenPat(t: Table, nums: array<U16>) returns (pat: seq<PatEntry>)
    requires nums.Length == PROGRAM_MAX
    ensures |pat| <= PROGRAM_MAX && IsPat(t, nums[..|pat|], pat)
  {
    pat := [];
    for i := 0 to |t|
      invariant |pat| == |Listed(t, i)|
      invariant forall k :: 0 <= k < |pat| ==> pat[k] == PatEntry(nums[k], t[Listed(t, i)[k]].info.ents[0].outPid)
    {
      if |pat| >= PROGRAM_MAX {
        ListedFull(t, i, |t|);
        return;
      }
      if t[i].selected {
        pat := pat + [PatEntry(nums[|pat|], t[i].info.ents[0].outPid)];
      }
    }
  }

  /** The PAT has an entry with the PMT output of the program, and its number unless an earlier
      entry has that already. */
  ghost predicate Entered(p: Prog, pat: seq<PatEntry>) {
    exists i :: 0 <= i < |pat| && pat[i].pmtPid == p.info.ents[0].outPid &&
      (pat[i].progNum == p.info.progNum || exists j :: 0 <= j < i && pat[j].progNum == p.info.progNum)
  }

  lemma NumberEntered(t: Table, ks: seq<nat>, s: seq<U16>, pat: seq<PatEntry>, i: nat)
    requires i < |ks| == |s| == |pat| && (forall j :: 0 <= j < |ks| ==> ks[j] < |t|)
    requires forall j :: 0 <= j < |ks| ==> pat[j] == PatEntry(s[j], t[ks[j]].info.ents[0].outPid)
    requires s[i] == t[ks[i]].info.progNum <==> t[ks[i]].info.progNum !in s[..i]
    ensures Entered(t[ks[i]], pat)
  {
    if s[i] != t[ks[i]].info.progNum {
      var j :| 0 <= j < i && s[..i][j] == t[ks[i]].info.progNum;
      assert pat[j].progNum == s[j];
    }
    assert pat[i].pmtPid == t[ks[i]].info.ents[0].outPid;
  }

  /** With the outputs kept apart by the allocator and at most 64 programs selected, the PAT
      lists every selected program once, under numbers and PMT PIDs that are all different. */
  lemma PatIsInjective(num: Counts, t: Table, s: seq<U16>, pat: seq<PatEntry>)
    requires Consistent(num, t) && SelectedCount(t) <= PROGRAM_MAX
    requires Numbered(t, Listed(t, |t|), s) && IsPat(t, s, pat)
    ensures |pat| == SelectedCount(t)
    ensures forall k :: 0 <= k < |t| && t[k].selected ==> k in Listed(t, |t|)
    ensures forall i, j :: 0 <= i < j < |pat| ==> pat[i].progNum != pat[j].progNum && pat[i].pmtPid != pat[j].pmtPid
    ensures forall k: nat :: k < |t| && t[k].selected ==> Entered(t[k], pat)
  {
    var ks := Listed(t, |t|);
    assert t[..|t|] == t;
    ListedAll(t, |t|);
    NumbersDistinct(t, ks, s);
    forall k: nat | k < |t| && t[k].selected ensures Entered(t[k], pat) {
      var i :| 0 <= i < |ks| && ks[i] == k;
      NumberEntered(t, ks, s, pat, i);
    }
    forall i, j | 0 <= i < j < |pat| ensures pat[i].pmtPid != pat[j].pmtPid {
      PmtOutputsDiffer(num, t, ks[i], ks[j]);
    }
  }

  lemma PmtOutputsDiffer(num: Counts, t: Table, k: nat, l: nat)
    requires Consistent(num, t) && k < |t| && l < |t| && k != l && t[k].selected && t[l].selected
    ensures t[k].info.ents[0].outPid != t[l].info.ents[0].outPid
  {
    var r, q := RouteOf(k, t[k].info.ents, 0), RouteOf(l, t[l].info.ents, 0);
    assert WellFormed(t[k].info.ents) && WellFormed(t[l].info.ents);
    assert IsRoute(t, r) && IsRoute(t, q);
    assert Compatible(r, q);
  }
}
