/** Object identifiers as bytes (src/oids.c:14-59; section 8.19 of ITU-T X.690). */
module OidCodec {
  import opened Bytes
  import opened Options

  const SUBID_MAX := 0xFFFF_FFFF
  const WORD := 0x1_0000_0000_0000_0000

  // ---- The encoding ------------------------------------------------------------------------

  /** The leading groups of seven bits, most significant first, all marked "more". */
  function Groups(v: nat): (s: seq<Byte>)
    ensures |s| > 0 && forall b :: b in s ==> b >= 128
  {
    if v < 128 then [v + 128] else Groups(v / 128) + [v % 128 + 128]
  }

  function EncodeSubid(v: nat): (s: seq<Byte>)
    ensures |s| > 0
  {
    if v < 128 then [v] else Groups(v / 128) + [v % 128]
  }

  /** Groups of seven bits as one number, most significant first. */
  function Value(s: seq<Byte>): nat {
    if s == [] then 0 else 128 * Value(s[..|s| - 1]) + s[|s| - 1] % 128
  }

  /** A subidentifier in the form of section 8.19.2 of ITU-T X.690: the groups make up its value,
      all but the last are marked, and the first is not an empty one. */
  lemma SubidIs(v: nat)
    ensures var s := EncodeSubid(v);
      && Value(s) == v && s[|s| - 1] < 0x80 && (forall i :: 0 <= i < |s| - 1 ==> s[i] >= 0x80)
      && (|s| > 1 ==> s[0] != 0x80)
  {
    var s := EncodeSubid(v);
    if v < 128 {
      assert s[..0] == [];
    } else {
      GroupsAre(v / 128);
      assert s[..|s| - 1] == Groups(v / 128);
      forall i | 0 <= i < |s| - 1 ensures s[i] >= 0x80 {
        assert s[i] in Groups(v / 128);
      }
    }
  }

  lemma {:induction false} GroupsAre(v: nat)
    requires v > 0
    ensures Value(Groups(v)) == v && Groups(v)[0] != 0x80
  {
    var s := Groups(v);
    if v < 128 {
      assert s[..0] == [];
    } else {
      GroupsAre(v / 128);
      assert s[..|s| - 1] == Groups(v / 128);
    }
  }

  function EncodeSubids(ids: seq<nat>): seq<Byte> {
    if ids == [] then [] else EncodeSubid(ids[0]) + EncodeSubids(ids[1..])
  }

  /** An identifier: at least two arcs, the first at most 2, and the second below 40
      unless the first is 2. */
  predicate IsOid(ids: seq<nat>) {
    |ids| >= 2 && ids[0] <= 2 && (ids[0] < 2 ==> ids[1] < 40)
  }

  /** The first two arcs share one subidentifier. */
  function EncodeOid(ids: seq<nat>): seq<Byte>
    requires IsOid(ids)
  {
    EncodeSubids([40 * ids[0] + ids[1]] + ids[2..])
  }

  /** Every number fits 32 bits. */
  predicate Fits32(ids: seq<nat>) {
    forall i :: 0 <= i < |ids| ==> ids[i] <= SUBID_MAX
  }

  // ---- The decoder --------------------------------------------------------------------------

  /** The 64-bit accumulator after one more byte. */
  function Shift(subid: nat, b: Byte): (r: nat)
    ensures r < WORD
  {
    (subid * 128) % WORD + b % 128
  }

  function FirstArc(subid: nat): nat {
    if subid >= 80 then 2 else if subid >= 40 then 1 else 0
  }

  /** The numbers a finished subidentifier stands for. */
  function Arcs(subid: nat, first: bool): (arcs: seq<nat>)
    ensures |arcs| == if first then 2 else 1
  {
    if first then [FirstArc(subid), subid - 40 * FirstArc(subid)] else [subid]
  }

  /** The rest of the bytes, with the bits collected so far; None when a number does not
      fit 32 bits. Bytes of an unfinished last number are dropped. */
  function Decode(bytes: seq<Byte>, subid: nat, first: bool): (r: Option<seq<nat>>)
    ensures r.Some? ==> Fits32(r.value)
    decreases |bytes|
  {
    if bytes == [] then Some([])
    else
      var now := Shift(subid, bytes[0]);
      if bytes[0] >= 128 then Decode(bytes[1..], now, first)
      else
        var arcs := Arcs(now, first);
        if arcs[|arcs| - 1] > SUBID_MAX then None
        else
          match Decode(bytes[1..], 0, false)
          case None => None
          case Some(rest) => Some(arcs + rest)
  }

  /** Bytes that end a number. */
  function Ends(bytes: seq<Byte>): nat {
    if bytes == [] then 0 else (if bytes[0] < 128 then 1 else 0) + Ends(bytes[1..])
  }

  /** Numbers written for k finished ones: the first gives two. */
  function Written(k: nat, first: bool): nat {
    if first && k > 0 then k + 1 else k
  }

  lemma {:induction false} DecodeLength(bytes: seq<Byte>, subid: nat, first: bool)
    ensures var r := Decode(bytes, subid, first);
      r.Some? ==> |r.value| == Written(Ends(bytes), first)
    decreases |bytes|
  {
    if bytes != [] {
      DecodeLength(bytes[1..], Shift(subid, bytes[0]), first);
      DecodeLength(bytes[1..], 0, false);
    }
  }

  /** Numbers written before the bytes end or a number is too large: of a first one that is,
      its first arc. */
  function Stored(bytes: seq<Byte>, subid: nat, first: bool): nat
    decreases |bytes|
  {
    if bytes == [] then 0
    else
      var now := Shift(subid, bytes[0]);
      if bytes[0] >= 128 then Stored(bytes[1..], now, first)
      else
        var arcs := Arcs(now, first);
        if arcs[|arcs| - 1] > SUBID_MAX then |arcs| - 1 else |arcs| + Stored(bytes[1..], 0, false)
  }

  lemma {:induction false} StoredLength(bytes: seq<Byte>, subid: nat, first: bool)
    ensures Decode(bytes, subid, first).Some? ==> |Decode(bytes, subid, first).value| == Stored(bytes, subid, first)
    ensures Stored(bytes, subid, first) <= Written(Ends(bytes), first)
    decreases |bytes|
  {
    if bytes != [] {
      StoredLength(bytes[1..], Shift(subid, bytes[0]), first);
      StoredLength(bytes[1..], 0, false);
    }
  }

  lemma {:induction false} EndsAppend(a: seq<Byte>, b: seq<Byte>)
    ensures Ends(a + b) == Ends(a) + Ends(b)
  {
    if a == [] {
      assert a + b == b;
    } else {
      assert (a + b)[1..] == a[1..] + b;
      EndsAppend(a[1..], b);
    }
  }

  /** How many numbers are finished, and one more. */
  method CountNumbers(bytes: seq<Byte>) returns (n: nat)
    ensures n == Ends(bytes) + 1
  {
    n := 1;
    for i := 0 to |bytes|
      invariant n == 1 + Ends(bytes[..i])
    {
      EndsAppend(bytes[..i], [bytes[i]]);
      assert bytes[..i + 1] == bytes[..i] + [bytes[i]];
      assert [bytes[i]][1..] == [];
      if bytes[i] < 128 {
        n := n + 1;
      }
    }
    assert bytes[..|bytes|] == bytes;
  }

  /** Writes a finished number: two arcs for the first one. */
  method WriteArcs(subid0: nat, first: bool, subids: array<nat>, out0: nat) returns (ok: bool, out: nat)
    requires var arcs := Arcs(subid0, first);
      out0 + (if arcs[|arcs| - 1] <= SUBID_MAX then |arcs| else |arcs| - 1) <= subids.Length
    modifies subids
    ensures var arcs := Arcs(subid0, first);
      && (ok <==> arcs[|arcs| - 1] <= SUBID_MAX)
      && (ok ==> out == out0 + |arcs| && subids[..out] == old(subids[..out0]) + arcs)
  {
    var subid := subid0;
    out := out0;
    if first {
      var arc := 0;
      if subid >= 40 {
        arc, subid := arc + 1, subid - 40;
      }
      if subid >= 40 {
        arc, subid := arc + 1, subid - 40;
      }
      subids[out] := arc;
      out := out + 1;
    }
    ok := subid <= SUBID_MAX;
    if ok {
      subids[out] := subid;
      out := out + 1;
    }
  }

  /** The decoder: the count of numbers comes back, or 0. It does not know how many numbers
      there is room for. */
  method OidEncoded2Subid(bytes: seq<Byte>, subids: array<nat>) returns (n: nat)
    requires subids.Length >= Stored(bytes, 0, true)
    modifies subids
    ensures var r := Decode(bytes, 0, true);
      match r
      case None => n == 0
      case Some(ids) => n == Ends(bytes) + 1 && |ids| <= subids.Length && subids[..|ids|] == ids
  {
    n := CountNumbers(bytes);
    var subid: nat, isFirst, out: nat := 0, true, 0;
    ghost var all := Decode(bytes, 0, true);
    PrependNone(all);
    assert subids[..out] == [] && bytes[0..] == bytes;
    for i := 0 to |bytes|
      invariant out + Stored(bytes[i..], subid, isFirst) <= subids.Length
      invariant all == Prepend(subids[..out], Decode(bytes[i..], subid, isFirst))
    {
      DecodeStep(bytes, i, subid, isFirst, subids[..out]);
      subid := Shift(subid, bytes[i]);
      if bytes[i] < 128 {
        var ok;
        ok, out := WriteArcs(subid, isFirst, subids, out);
        if !ok {
          return 0;
        }
        isFirst, subid := false, 0;
      }
    }
    assert bytes[|bytes|..] == [];
    assert subids[..out] + [] == subids[..out];
  }

  lemma PrependNone(r: Option<seq<nat>>)
    ensures Prepend([], r) == r
  {
    if r.Some? {
      assert [] + r.value == r.value;
    }
  }

  /** What one byte does to what is still to be decoded. */
  lemma DecodeStep(bytes: seq<Byte>, i: nat, subid: nat, first: bool, done: seq<nat>)
    requires i < |bytes|
    ensures var now := Shift(subid, bytes[i]);
      var arcs := Arcs(now, first);
      Prepend(done, Decode(bytes[i..], subid, first)) ==
        if bytes[i] >= 128 then Prepend(done, Decode(bytes[i + 1..], now, first))
        else if arcs[|arcs| - 1] > SUBID_MAX then None
        else Prepend(done + arcs, Decode(bytes[i + 1..], 0, false))
    ensures var arcs := Arcs(Shift(subid, bytes[i]), first);
      Stored(bytes[i..], subid, first) ==
        if bytes[i] >= 128 then Stored(bytes[i + 1..], Shift(subid, bytes[i]), first)
        else if arcs[|arcs| - 1] > SUBID_MAX then |arcs| - 1
        else |arcs| + Stored(bytes[i + 1..], 0, false)
  {
    assert bytes[i..][0] == bytes[i] && bytes[i..][1..] == bytes[i + 1..];
    PrependArcs(done, Arcs(Shift(subid, bytes[i]), first), Decode(bytes[i + 1..], 0, false));
  }

  function Prepend(a: seq<nat>, r: Option<seq<nat>>): Option<seq<nat>> {
    match r
    case None => None
    case Some(b) => Some(a + b)
  }

  lemma PrependArcs(a: seq<nat>, arcs: seq<nat>, r: Option<seq<nat>>)
    ensures Prepend(a, Prepend(arcs, r)) == Prepend(a + arcs, r)
  {
    if r.Some? {
      assert a + (arcs + r.value) == a + arcs + r.value;
    }
  }

  // ---- Decoding what was encoded ------------------------------------------------------------------

  lemma {:induction false} DecodeGroups(v: nat, tail: seq<Byte>, first: bool)
    ensures Decode(Groups(v) + tail, 0, first) == Decode(tail, v % WORD, first)
    ensures Stored(Groups(v) + tail, 0, first) == Stored(tail, v % WORD, first)
    decreases v
  {
    if v < 128 {
      assert (Groups(v) + tail)[1..] == tail;
      assert Shift(0, v + 128) == v;
    } else {
      var last: Byte := v % 128 + 128;
      DecodeGroups(v / 128, [last] + tail, first);
      assert Groups(v) + tail == Groups(v / 128) + ([last] + tail);
      assert ([last] + tail)[1..] == tail;
      ShiftJoins(v);
    }
  }

  lemma ShiftJoins(v: nat)
    ensures Shift(v / 128 % WORD, v % 128) == Shift(v / 128 % WORD, v % 128 + 128) == v % WORD
  {
    var q, m := v / 128 / WORD, v / 128 % WORD;
    var k, r := m * 128 / WORD, m * 128 % WORD;
    assert v / 128 == q * WORD + m && m * 128 == k * WORD + r;
    assert v == (q * 128 + k) * WORD + (r + v % 128);
    SmallRest(r, v % 128);
    RestOf(v, q * 128 + k, r + v % 128);
  }

  /** A multiple of 128 below 2 to the 64th leaves room for seven bits. */
  lemma SmallRest(r: nat, b: nat)
    requires b < 128 && r < WORD && exists m: nat :: r == m * 128 % WORD
    ensures r + b < WORD
  {
    var m: nat :| r == m * 128 % WORD;
    var k := m * 128 / WORD;
    assert r == 128 * (m - k * (WORD / 128));
  }

  lemma RestOf(v: nat, k: nat, r: nat)
    requires v == k * WORD + r && r < WORD
    ensures v % WORD == r
  {
  }

  /** One encoded number, whatever follows: it is taken modulo 2 to the 64th. */
  lemma DecodeOne(v: nat, tail: seq<Byte>, first: bool)
    ensures var arcs := Arcs(v % 0x1_0000_0000_0000_0000, first);
      Decode(EncodeSubid(v) + tail, 0, first) ==
        if arcs[|arcs| - 1] > SUBID_MAX then None else Prepend(arcs, Decode(tail, 0, false))
    ensures var arcs := Arcs(v % 0x1_0000_0000_0000_0000, first);
      Stored(EncodeSubid(v) + tail, 0, first) ==
        if arcs[|arcs| - 1] > SUBID_MAX then |arcs| - 1 else |arcs| + Stored(tail, 0, false)
  {
    if v < 128 {
      assert (EncodeSubid(v) + tail)[1..] == tail;
      assert Shift(0, v) == v;
    } else {
      var last: Byte := v % 128;
      DecodeGroups(v / 128, [last] + tail, first);
      assert EncodeSubid(v) + tail == Groups(v / 128) + ([last] + tail);
      assert ([last] + tail)[1..] == tail;
      ShiftJoins(v);
    }
  }

  /** A number that fits 64 bits. */
  lemma DecodeSmall(v: nat, tail: seq<Byte>, first: bool)
    requires v < WORD
    ensures var arcs := Arcs(v, first);
      Decode(EncodeSubid(v) + tail, 0, first) ==
        if arcs[|arcs| - 1] > SUBID_MAX then None else Prepend(arcs, Decode(tail, 0, false))
    ensures var arcs := Arcs(v, first);
      Stored(EncodeSubid(v) + tail, 0, first) ==
        if arcs[|arcs| - 1] > SUBID_MAX then |arcs| - 1 else |arcs| + Stored(tail, 0, false)
  {
    hide Decode, EncodeSubid, Stored, Arcs;
    DecodeOne(v, tail, first);
  }

  lemma DecodeNothing(bytes: seq<Byte>)
    requires bytes == []
    ensures Decode(bytes, 0, false) == Some([]) && Stored(bytes, 0, false) == 0
  {
  }

  lemma {:induction false} DecodeRest(ids: seq<nat>)
    requires Fits32(ids)
    ensures Decode(EncodeSubids(ids), 0, false) == Some(ids)
  {
    hide Decode, EncodeSubid, Stored;
    if ids == [] {
      DecodeNothing([]);
    } else {
      DecodeRest(ids[1..]);
      DecodeSmall(ids[0], EncodeSubids(ids[1..]), false);
      assert [ids[0]] + ids[1..] == ids;
    }
  }

  /** A number that is too large ends the decoding: what was written are the numbers in front of it,
      and of a first one its first arc. */
  lemma {:induction false} StoredBefore(ids: seq<nat>, v: nat, tail: seq<Byte>)
    requires Fits32(ids) && 0xFFFF_FFFF + 80 < v < 0x1_0000_0000_0000_0000
    ensures Decode(EncodeSubids(ids) + (EncodeSubid(v) + tail), 0, false) == None
    ensures Stored(EncodeSubids(ids) + (EncodeSubid(v) + tail), 0, false) == |ids|
    ensures Decode(EncodeSubid(v) + tail, 0, true) == None && Stored(EncodeSubid(v) + tail, 0, true) == 1
  {
    hide Decode, EncodeSubid, Stored;
    var rest := EncodeSubid(v) + tail;
    DecodeSmall(v, tail, true);
    if ids == [] {
      DecodeSmall(v, tail, false);
      assert EncodeSubids(ids) + rest == rest;
    } else {
      StoredBefore(ids[1..], v, tail);
      DecodeSmall(ids[0], EncodeSubids(ids[1..]) + rest, false);
      assert EncodeSubids(ids) + rest == EncodeSubid(ids[0]) + (EncodeSubids(ids[1..]) + rest);
    }
  }

  /** Decoding an encoded identifier gives it back exactly if every number fits 32 bits. */
  lemma DecodeEncoded(ids: seq<nat>)
    requires IsOid(ids)
    ensures Decode(EncodeOid(ids), 0, true) == Some(ids) <==> Fits32(ids)
  {
    hide Decode, EncodeSubid, Stored;
    if Fits32(ids) {
      var all := [40 * ids[0] + ids[1]] + ids[2..];
      assert all[1..] == ids[2..];
      DecodeRest(ids[2..]);
      DecodeSmall(all[0], EncodeSubids(ids[2..]), true);
      assert Arcs(all[0], true) == [ids[0], ids[1]];
      assert [ids[0], ids[1]] + ids[2..] == ids;
    }
  }
}
