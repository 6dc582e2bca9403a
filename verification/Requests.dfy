/** Reading requests: taking atoms off a buffer (src/wu_snmp_lib.c:151-300, 452-473, 626-680). */
module Requests {
  import opened Bytes
  import opened Ber
  import opened OidCodec
  import opened Options

  const TAG_VALUE: Byte := 0x05
  const TAG_OID: Byte := 0x06
  const TAG_GET_REQUEST: Byte := 0xa0
  const TAG_SET_REQUEST: Byte := 0xa3
  const SIZES := 0x10000
  const COMMUNITY_MAX := 128
  const BINDINGS_ROOM := 16
  const OID_ROOM := 20
  const INT_ROOM := 4

  /** Only for these tags does the reader note where the data is. */
  predicate Settable(tag: Byte) {
    tag in [TAG_INT, TAG_STRING, TAG_VALUE, TAG_OID, TAG_VAR, TAG_GET_REQUEST, TAG_SET_REQUEST]
  }

  /** The data of an integer is copied into a number of four bytes as well, however long it is. */
  predicate CopyFits(tag: Byte, len: nat) {
    tag == TAG_INT ==> len <= INT_ROOM
  }

  // ---- One atom -----------------------------------------------------------------------------

  /** Length of an atom and where its data starts; Beyond when that is read outside the buffer. */
  datatype Head = Beyond | Head(len: nat, dataAt: nat)

  function HeadAt(buf: seq<Byte>, at: nat): Head {
    if at + 2 > |buf| then Beyond
    else if buf[at + 1] == 0x82 then
      if at + 4 > |buf| then Beyond
      else
        var hi: nat := buf[at + 2];
        Head(hi * 256 + buf[at + 3], at + 4)
    else if buf[at + 1] == 0x81 then
      if at + 3 > |buf| then Beyond else Head(buf[at + 2], at + 3)
    else Head(buf[at + 1], at + 2)
  }

  /** Outcome of a pop: none left, a read outside the buffer, or an atom and where the next one is. */
  datatype Popped = NoAtom | Outside | Popped(tag: Byte, dataAt: nat, len: nat, next: nat, left: nat)

  /** The size check leaves the length bytes of the long forms out; the size left is
      kept in 16 bits, so it wraps around when one or two bytes are missing. */
  function PopAtom(buf: seq<Byte>, at: nat, size: nat): Popped {
    if size < 2 then NoAtom
    else
      match HeadAt(buf, at)
      case Beyond => Outside
      case Head(len, dataAt) =>
        if size < 2 + len then NoAtom
        else
          var used: int := dataAt + len - at;
          Popped(buf[at], dataAt, len, dataAt + len, if used <= size then size - used else size - used + SIZES)
  }

  /** A length is read as the standard wants it exactly in the short form and in the long ones of
      one or two bytes; any other first byte is taken for the length itself. */
  lemma HeadReads(buf: seq<Byte>, at: nat)
    requires at + 4 <= |buf|
    ensures var h := HeadAt(buf, at);
      && h.Head? && at + 2 <= h.dataAt <= |buf|
      && (SaysLength(buf[at + 1..h.dataAt], h.len) <==> buf[at + 1] < 0x80 || buf[at + 1] in {0x81, 0x82})
      && (buf[at + 1] == 0x80 || buf[at + 1] > 0x82 ==> h.len == buf[at + 1] && h.dataAt == at + 2)
  {
    var h := HeadAt(buf, at);
    var s := buf[at + 1..h.dataAt];
    assert s[0] == buf[at + 1];
    assert buf[at + 1] == 0x82 ==> s[1..] == [buf[at + 2], buf[at + 3]];
    assert buf[at + 1] == 0x81 ==> s[1..] == [buf[at + 2]];
    NumberOf(s[1..]);
  }

  /** Where the data of a frame starts. */
  function DataAt(at: nat, body: seq<Byte>): nat {
    at + 1 + |LengthBytes(|body|)|
  }

  /** What a frame's head says. */
  lemma HeadOfFrame(buf: seq<Byte>, at: nat, tag: Byte, body: seq<Byte>)
    requires Has(buf, at, Frame(tag, body)) && |body| < SIZES
    ensures at < |buf| && buf[at] == tag && HeadAt(buf, at) == Head(|body|, DataAt(at, body))
    ensures Has(buf, DataAt(at, body), body)
  {
    var front := [tag] + LengthBytes(|body|);
    HasParts(buf, at, front, body);
    var got := buf[at..at + |front|];
    assert got[0] == buf[at] && got[1] == buf[at + 1];
    if |body| > 0xFF {
      assert got[2] == buf[at + 2] && got[3] == buf[at + 3];
    } else if |body| >= 0x80 {
      assert got[2] == buf[at + 2];
    }
  }

  /** A frame is popped whole: tag, data and the place behind it. */
  lemma PopFrame(buf: seq<Byte>, at: nat, left: nat, tag: Byte, body: seq<Byte>)
    requires Has(buf, at, Frame(tag, body)) && |Frame(tag, body)| + left < SIZES
    ensures var n := |Frame(tag, body)|;
      && PopAtom(buf, at, n + left) == Popped(tag, DataAt(at, body), |body|, at + n, left)
      && Has(buf, DataAt(at, body), body) && DataAt(at, body) + |body| == at + n
  {
    HeadOfFrame(buf, at, tag, body);
  }

  /** A frame cut off after `size` of its bytes is refused exactly if fewer than two bytes
      more than the data are there. In the long forms one or two missing bytes go unseen, and
      the size left then wraps around. */
  lemma CutOffFrame(buf: seq<Byte>, at: nat, size: nat, tag: Byte, body: seq<Byte>)
    requires Has(buf, at, Frame(tag, body)) && size < |Frame(tag, body)| < SIZES
    ensures PopAtom(buf, at, size) == NoAtom <==> size < 2 + |body|
    ensures size >= 2 + |body| ==> PopAtom(buf, at, size).Popped? && PopAtom(buf, at, size).left >= SIZES - 2
  {
    HeadOfFrame(buf, at, tag, body);
  }

  // ---- Atoms expected in order ------------------------------------------------------------------

  /** Where an atom's data was found; unset ones are empty. */
  datatype Located = Unset | Located(dataAt: nat, len: nat)

  /** A wrong tag, a read outside the buffer or a copy outside its number, or the atoms found
      (the others stay unset) and where reading stopped. */
  datatype Extracted = Mismatch | Lost | Extracted(atoms: seq<Located>, at: nat)

  /** No size is checked here: only the start of an atom has to lie before the end. */
  function Extract(buf: seq<Byte>, at: nat, end: nat, tags: seq<Byte>, idx: nat): Extracted
    requires idx <= |tags|
    decreases if at < end then end - at else 0
  {
    if at >= end || idx == |tags| then Extracted([], at)
    else
      match HeadAt(buf, at)
      case Beyond => Lost
      case Head(len, dataAt) =>
        if buf[at] != tags[idx] then Mismatch
        else if !CopyFits(tags[idx], len) then Lost
        else Prepended([Located(dataAt, len)], Extract(buf, dataAt + len, end, tags, idx + 1))
  }

  function Prepended(atoms: seq<Located>, r: Extracted): Extracted {
    match r
    case Extracted(more, at) => Extracted(atoms + more, at)
    case other => other
  }

  lemma PrependedTwice(a: seq<Located>, b: seq<Located>, r: Extracted)
    ensures Prepended(a, Prepended(b, r)) == Prepended(a + b, r)
  {
    if r.Extracted? {
      assert a + (b + r.atoms) == a + b + r.atoms;
    }
  }

  method ExtractFixAtoms(buf: seq<Byte>, at0: nat, size: nat, tags: seq<Byte>) returns (r: Extracted)
    requires forall k :: 0 <= k < |tags| ==> Settable(tags[k])
    ensures r == Extract(buf, at0, at0 + size, tags, 0)
  {
    var at: nat, idx: nat, end, atoms := at0, 0, at0 + size, [];
    while at < end && idx < |tags|
      invariant idx <= |tags|
      invariant Extract(buf, at0, end, tags, 0) == Prepended(atoms, Extract(buf, at, end, tags, idx))
      decreases |tags| - idx
    {
      match HeadAt(buf, at) {
        case Beyond =>
          return Lost;
        case Head(len, dataAt) =>
          if buf[at] != tags[idx] {
            return Mismatch;
          }
          if !CopyFits(tags[idx], len) {
            return Lost;
          }
          PrependedTwice(atoms, [Located(dataAt, len)], Extract(buf, dataAt + len, end, tags, idx + 1));
          atoms := atoms + [Located(dataAt, len)];
          at := dataAt + len;
          idx := idx + 1;
      }
    }
    assert atoms + [] == atoms;
    return Extracted(atoms, at);
  }

  // ---- Variables -------------------------------------------------------------------------------

  /** A variable as read: its name decoded and without the instance number 0, and its value. */
  datatype Bound = Bound(oid: seq<nat>, tag: Byte, data: seq<Byte>)

  /** No more variables; something was used that had not been set or lies outside; or one
      variable and where the next one is. */
  datatype PoppedBind = NoBind | Undefined | PoppedBind(bound: Bound, next: nat, left: nat)

  function CutInstance(oid: seq<nat>): seq<nat>
    requires oid != []
  {
    if oid[|oid| - 1] == 0 then oid[..|oid| - 1] else oid
  }

  /** A last number 0 is the instance of a scalar and cut off; any other stays. */
  lemma CutInstanceIs(oid: seq<nat>, last: nat)
    ensures CutInstance(oid + [last]) == if last == 0 then oid else oid + [last]
  {
    assert (oid + [last])[..|oid|] == oid;
  }

  function PopVarBind(buf: seq<Byte>, at: nat, size: nat): (r: PoppedBind)
    ensures r.PoppedBind? ==> at < |buf| && at < r.next
  {
    match PopAtom(buf, at, size)
    case NoAtom => NoBind
    case Outside => Undefined
    case Popped(tag, dataAt, len, next, left) =>
      if Settable(tag) && CopyFits(tag, len) then PopPair(buf, dataAt, len, next, left) else Undefined
  }

  /** The name and the value inside. */
  function PopPair(buf: seq<Byte>, at: nat, size: nat, next: nat, left: nat): (r: PoppedBind)
    ensures r.PoppedBind? ==> r.next == next
  {
    match PopAtom(buf, at, size)
    case NoAtom => NoBind
    case Outside => Undefined
    case Popped(tag, dataAt, len, valueAt, valueLeft) =>
      match PopAtom(buf, valueAt, valueLeft)
      case NoAtom => NoBind
      case Outside => Undefined
      case Popped(valueTag, valueDataAt, valueLen, _, _) =>
        if !Settable(tag) || !Settable(valueTag) || dataAt + len > |buf| ||
          valueDataAt + valueLen > |buf| then Undefined
        else DecodeBind(buf[dataAt..dataAt + len], valueTag, buf[valueDataAt..valueDataAt + valueLen], next, left)
  }

  /** The numbers of the name go into an array of 20; nothing checks that they fit. */
  function DecodeBind(name: seq<Byte>, tag: Byte, data: seq<Byte>, next: nat, left: nat): PoppedBind {
    if Stored(name, 0, true) > OID_ROOM then Undefined
    else
      match Decode(name, 0, true)
      case None => NoBind
      case Some(oid) => if oid == [] then Undefined else PoppedBind(Bound(CutInstance(oid), tag, data), next, left)
  }

  /** Variables until none is left; None when reading goes wrong or there are too many. */
  function ReadBinds(buf: seq<Byte>, at: nat, size: nat, room: nat): Option<seq<Bound>>
    decreases if at < |buf| then |buf| - at else 0
  {
    match PopVarBind(buf, at, size)
    case NoBind => Some([])
    case Undefined => None
    case PoppedBind(bound, next, left) =>
      if room == 0 then None
      else
        match ReadBinds(buf, next, left, room - 1)
        case None => None
        case Some(rest) => Some([bound] + rest)
  }

  /** The loop of the request handlers. */
  method PopVarBinds(buf: seq<Byte>, at0: nat, size0: nat) returns (r: Option<seq<Bound>>)
    ensures r == ReadBinds(buf, at0, size0, BINDINGS_ROOM)
  {
    var at, size, idx, bounds := at0, size0, 0, [];
    var vb := PopVarBind(buf, at, size);
    JoinedNone(ReadBinds(buf, at0, size0, BINDINGS_ROOM));
    while vb.PoppedBind?
      invariant idx <= BINDINGS_ROOM && vb == PopVarBind(buf, at, size)
      invariant ReadBinds(buf, at0, size0, BINDINGS_ROOM) ==
        Joined(bounds, ReadBinds(buf, at, size, BINDINGS_ROOM - idx))
      decreases BINDINGS_ROOM - idx
    {
      if idx == BINDINGS_ROOM {
        return None;
      }
      JoinedStep(bounds, vb.bound, ReadBinds(buf, vb.next, vb.left, BINDINGS_ROOM - idx - 1));
      bounds := bounds + [vb.bound];
      idx := idx + 1;
      at, size := vb.next, vb.left;
      vb := PopVarBind(buf, at, size);
    }
    assert bounds + [] == bounds;
    r := if vb.NoBind? then Some(bounds) else None;
  }

  function Joined(a: seq<Bound>, r: Option<seq<Bound>>): Option<seq<Bound>> {
    match r
    case None => None
    case Some(b) => Some(a + b)
  }

  lemma JoinedNone(r: Option<seq<Bound>>)
    ensures Joined([], r) == r
  {
    if r.Some? {
      assert [] + r.value == r.value;
    }
  }

  lemma JoinedStep(a: seq<Bound>, b: Bound, r: Option<seq<Bound>>)
    ensures Joined(a, Joined([b], r)) == Joined(a + [b], r)
  {
    if r.Some? {
      assert a + ([b] + r.value) == a + [b] + r.value;
    }
  }

  // ---- Requests --------------------------------------------------------------------------------------

  datatype Request = Request(
    method_: Byte, version: seq<Byte>, com: seq<Byte>, requestId: seq<Byte>,
    status: seq<Byte>, index: seq<Byte>, binds: seq<Bound>)

  /** The data of an atom that was found inside the buffer. */
  predicate Inside(buf: seq<Byte>, a: Located) {
    a.Located? && a.dataAt + a.len <= |buf|
  }

  function DataOf(buf: seq<Byte>, a: Located): seq<Byte>
    requires Inside(buf, a)
  {
    buf[a.dataAt..a.dataAt + a.len]
  }

  /** One expected atom; not found means that reading goes on with nothing set. */
  function ExtractOne(buf: seq<Byte>, at: nat, size: nat, tag: Byte): Extracted {
    Extract(buf, at, at + size, [tag], 0)
  }

  /** The four atoms of a PDU. */
  function ReadPdu(buf: seq<Byte>, method_: Byte, version: seq<Byte>, com: seq<Byte>, at: nat,
      size: nat): Option<Request>
  {
    var r := Extract(buf, at, at + size, [TAG_INT, TAG_INT, TAG_INT, TAG_VAR], 0);
    if r.Extracted? && |r.atoms| == 4
    then TakePdu(buf, method_, version, com, r.atoms[0], r.atoms[1], r.atoms[2], ReadInside(buf, r.atoms[3]))
    else None
  }

  function ReadInside(buf: seq<Byte>, variables: Located): Option<seq<Bound>> {
    if Inside(buf, variables) then ReadBinds(buf, variables.dataAt, variables.len, BINDINGS_ROOM) else None
  }

  /** Their data, and the variables inside the last one. */
  function TakePdu(buf: seq<Byte>, method_: Byte, version: seq<Byte>, com: seq<Byte>,
                   id: Located, status: Located, index: Located, binds: Option<seq<Bound>>): Option<Request> {
    if Inside(buf, id) && Inside(buf, status) && Inside(buf, index) && binds.Some?
    then Some(Request(method_, version, com, DataOf(buf, id), DataOf(buf, status), DataOf(buf, index), binds.value))
    else None
  }

  /** The one atom expected next, if it is there. */
  function Next(buf: seq<Byte>, at: nat, size: nat, tag: Byte): Located {
    match ExtractOne(buf, at, size, tag)
    case Extracted(atoms, _) => if |atoms| == 1 && Inside(buf, atoms[0]) then atoms[0] else Unset
    case _ => Unset
  }

  /** A get or set request in the first `size` bytes of the receive buffer; None for
      everything the agent does not carry out or reads wrongly. */
  function ReadRequest(buf: seq<Byte>, size: nat): Option<Request> {
    var header := Next(buf, 0, size, TAG_VAR);
    if header.Unset? then None else ReadMessage(buf, header.dataAt, header.len)
  }

  function ReadMessage(buf: seq<Byte>, at: nat, size: nat): Option<Request> {
    var version := Next(buf, at, size, TAG_INT);
    if version.Unset? || version.dataAt + version.len > at + size then None
    else
      var comAt := version.dataAt + version.len;
      var com := Next(buf, comAt, at + size - comAt, TAG_STRING);
      if com.Unset? || com.len > COMMUNITY_MAX || com.dataAt + com.len > at + size then None
      else
        var pduAt := com.dataAt + com.len;
        match PopAtom(buf, pduAt, at + size - pduAt)
        case Popped(tag, dataAt, len, _, _) =>
          if tag == TAG_GET_REQUEST || tag == TAG_SET_REQUEST
          then ReadPdu(buf, tag, DataOf(buf, version), DataOf(buf, com), dataAt, len)
          else None
        case _ => None
  }

  // ---- Reading what was encoded -----------------------------------------------------------------------

  /** A variable as a manager sends it. */
  datatype AnyVariable = Variable(oid: seq<nat>, tag: Byte, data: seq<Byte>)

  type Variable = v: AnyVariable |
    IsOid(v.oid) && Fits32(v.oid) && Settable(v.tag)
    witness Variable([0, 0], TAG_VALUE, [])

  function VariableBytes(v: Variable): seq<Byte> {
    NamedBytes(EncodeOid(v.oid), v.tag, v.data)
  }

  function VariablesBytes(vs: seq<Variable>): seq<Byte> {
    if vs == [] then [] else VariableBytes(vs[0]) + VariablesBytes(vs[1..])
  }

  function BoundOf(v: Variable): Bound {
    Bound(CutInstance(v.oid), v.tag, v.data)
  }

  function BoundsOf(vs: seq<Variable>): seq<Bound> {
    if vs == [] then [] else [BoundOf(vs[0])] + BoundsOf(vs[1..])
  }

  /** Two frames in a row are popped one after the other. */
  lemma PopTwo(buf: seq<Byte>, at: nat, tag: Byte, body: seq<Byte>, tag': Byte, body': seq<Byte>)
    requires Has(buf, at, Frame(tag, body) + Frame(tag', body')) && |Frame(tag, body)| + |Frame(tag', body')| < SIZES
    ensures var n, n' := |Frame(tag, body)|, |Frame(tag', body')|;
      && PopAtom(buf, at, n + n') == Popped(tag, DataAt(at, body), |body|, at + n, n')
      && PopAtom(buf, at + n, n') == Popped(tag', DataAt(at + n, body'), |body'|, at + n + n', 0)
      && Has(buf, DataAt(at, body), body) && Has(buf, DataAt(at + n, body'), body')
  {
    HasParts(buf, at, Frame(tag, body), Frame(tag', body'));
    PopFrame(buf, at, |Frame(tag', body')|, tag, body);
    PopFrame(buf, at + |Frame(tag, body)|, 0, tag', body');
  }

  /** Name and value in one frame. */
  function NamedBytes(name: seq<Byte>, tag: Byte, data: seq<Byte>): seq<Byte> {
    Frame(TAG_VAR, Frame(TAG_OID, name) + Frame(tag, data))
  }

  lemma PopNamed(buf: seq<Byte>, at: nat, left: nat, name: seq<Byte>, tag: Byte, data: seq<Byte>)
    requires Has(buf, at, NamedBytes(name, tag, data)) && |NamedBytes(name, tag, data)| + left < SIZES && Settable(tag)
    ensures var n := |NamedBytes(name, tag, data)|;
      PopVarBind(buf, at, n + left) == DecodeBind(name, tag, data, at + n, left)
  {
    hide PopAtom, PopPair, DecodeBind, Has;
    var body := Frame(TAG_OID, name) + Frame(tag, data);
    PopFrame(buf, at, left, TAG_VAR, body);
    PopPairIs(buf, DataAt(at, body), name, tag, data, at + |NamedBytes(name, tag, data)|, left);
  }

  lemma PopPairIs(buf: seq<Byte>, at: nat, name: seq<Byte>, tag: Byte, data: seq<Byte>, next: nat, left: nat)
    requires Settable(tag) && |Frame(TAG_OID, name)| + |Frame(tag, data)| < SIZES
    requires Has(buf, at, Frame(TAG_OID, name) + Frame(tag, data))
    ensures PopPair(buf, at, |Frame(TAG_OID, name) + Frame(tag, data)|, next, left) ==
      DecodeBind(name, tag, data, next, left)
  {
    hide PopAtom, DecodeBind;
    PopTwo(buf, at, TAG_OID, name, tag, data);
  }

  /** A name or value with a tag the reader does not know is noted nowhere and then used. */
  lemma UnknownTag(buf: seq<Byte>, at: nat, left: nat, nameTag: Byte, name: seq<Byte>, tag: Byte, data: seq<Byte>)
    requires var body := Frame(nameTag, name) + Frame(tag, data);
      Has(buf, at, Frame(TAG_VAR, body)) && |Frame(TAG_VAR, body)| + left < SIZES
    requires var known: set<Byte> := {0x02, 0x04, 0x05, 0x06, 0x30, 0xa0, 0xa3}; nameTag !in known || tag !in known
    ensures PopVarBind(buf, at, |Frame(TAG_VAR, Frame(nameTag, name) + Frame(tag, data))| + left) == Undefined
  {
    hide PopAtom, Has, DecodeBind;
    var body := Frame(nameTag, name) + Frame(tag, data);
    PopFrame(buf, at, left, TAG_VAR, body);
    PopTwo(buf, DataAt(at, body), nameTag, name, tag, data);
  }

  /** The identifier fits the array it is decoded into. */
  predicate NameFits(v: Variable) {
    |v.oid| <= OID_ROOM
  }

  lemma DecodeBindIs(v: Variable, next: nat, left: nat)
    ensures DecodeBind(EncodeOid(v.oid), v.tag, v.data, next, left) ==
      if NameFits(v) then PoppedBind(BoundOf(v), next, left) else Undefined
  {
    hide EncodeOid, Decode, Stored;
    DecodeEncoded(v.oid);
    StoredLength(EncodeOid(v.oid), 0, true);
  }

  /** A variable is read back exactly if its identifier has at most 20 numbers; beyond that
      reading has no meaning. */
  lemma PopVariable(buf: seq<Byte>, at: nat, size: nat, next: nat, left: nat, v: Variable)
    requires Has(buf, at, VariableBytes(v)) && size == |VariableBytes(v)| + left < SIZES &&
      next == at + |VariableBytes(v)|
    ensures PopVarBind(buf, at, size) == if NameFits(v) then PoppedBind(BoundOf(v), next, left) else Undefined
  {
    hide PopVarBind, DecodeBind, EncodeOid, BoundOf, NameFits, Has;
    PopNamed(buf, at, left, EncodeOid(v.oid), v.tag, v.data);
    DecodeBindIs(v, next, left);
  }

  lemma ReadOneMore(buf: seq<Byte>, at: nat, size: nat, room: nat, bound: Bound, next: nat, left: nat,
      rest: Option<seq<Bound>>)
    requires PopVarBind(buf, at, size) == PoppedBind(bound, next, left)
    requires room > 0 ==> ReadBinds(buf, next, left, room - 1) == rest
    ensures ReadBinds(buf, at, size, room) == if room > 0 && rest.Some? then Some([bound] + rest.value) else None
  {
  }

  lemma ReadBroken(buf: seq<Byte>, at: nat, size: nat, room: nat)
    requires PopVarBind(buf, at, size) == Undefined
    ensures ReadBinds(buf, at, size, room) == None
  {
  }

  lemma ReadNone(buf: seq<Byte>, at: nat, room: nat)
    ensures ReadBinds(buf, at, 0, room) == Some([])
  {
  }

  /** There is room for the variables and for each of their names. */
  predicate AllFit(vs: seq<Variable>, room: nat) {
    |vs| <= room && forall i :: 0 <= i < |vs| ==> NameFits(vs[i])
  }

  /** What becomes of the variables. */
  function Bounds(vs: seq<Variable>, room: nat): Option<seq<Bound>> {
    if AllFit(vs, room) then Some(BoundsOf(vs)) else None
  }

  lemma AllFitStep(vs: seq<Variable>, room: nat)
    requires vs != []
    ensures AllFit(vs, room) <==> room > 0 && NameFits(vs[0]) && AllFit(vs[1..], room - 1)
  {
    if room > 0 && NameFits(vs[0]) && AllFit(vs[1..], room - 1) {
      forall i | 0 <= i < |vs| ensures NameFits(vs[i]) {
        assert i > 0 ==> vs[i] == vs[1..][i - 1];
      }
    }
  }

  /** Variables in a row come back in order exactly if there are at most as many as there is
      room for, and no identifier has more than 20 numbers. */
  lemma {:induction false} ReadVariables(buf: seq<Byte>, at: nat, vs: seq<Variable>, room: nat)
    requires Has(buf, at, VariablesBytes(vs)) && |VariablesBytes(vs)| < SIZES
    ensures ReadBinds(buf, at, |VariablesBytes(vs)|, room) == Bounds(vs, room)
    decreases |vs|
  {
    hide PopVarBind, ReadBinds, VariableBytes, BoundOf, Has, NameFits, AllFit;
    if vs == [] {
      ReadNone(buf, at, room);
      NoneFit(vs, room);
      assert |VariablesBytes(vs)| == 0;
    } else {
      var first, rest := VariableBytes(vs[0]), VariablesBytes(vs[1..]);
      var size, next, left := |VariablesBytes(vs)|, at + |first|, |rest|;
      HasParts(buf, at, first, rest);
      PopVariable(buf, at, size, next, left, vs[0]);
      AllFitStep(vs, room);
      if NameFits(vs[0]) {
        if room > 0 {
          ReadVariables(buf, next, vs[1..], room - 1);
        }
        var more := if room > 0 then Bounds(vs[1..], room - 1) else None;
        ReadOneMore(buf, at, size, room, BoundOf(vs[0]), next, left, more);
      } else {
        ReadBroken(buf, at, size, room);
      }
    }
  }

  lemma NoneFit(vs: seq<Variable>, room: nat)
    requires vs == []
    ensures Bounds(vs, room) == Some([])
  {
  }

  /** A request as a manager encodes it. */
  datatype Message = Message(
    method_: Byte, version: seq<Byte>, com: seq<Byte>, requestId: seq<Byte>,
    status: seq<Byte>, index: seq<Byte>, variables: seq<Variable>)

  /** The agent knows the method. */
  predicate GetOrSet(m: Message) {
    m.method_ in [TAG_GET_REQUEST, TAG_SET_REQUEST]
  }

  /** The integers of a PDU fit the numbers they are copied into. */
  predicate IntegersFit(m: Message) {
    |m.requestId| <= INT_ROOM && |m.status| <= INT_ROOM && |m.index| <= INT_ROOM
  }

  /** Every part fits the place it is read into: four bytes for each integer, 128 for the
      community, 16 variables, 20 numbers for each name. */
  predicate PartsFit(m: Message) {
    |m.version| <= INT_ROOM && |m.com| <= COMMUNITY_MAX && IntegersFit(m) && AllFit(m.variables, BINDINGS_ROOM)
  }

  function PduBytes(m: Message): seq<Byte> {
    Frame(TAG_INT, m.requestId) +
      (Frame(TAG_INT, m.status) + (Frame(TAG_INT, m.index) + Frame(TAG_VAR, VariablesBytes(m.variables))))
  }

  function BodyBytes(m: Message): seq<Byte> {
    Frame(TAG_INT, m.version) + (Frame(TAG_STRING, m.com) + Frame(m.method_, PduBytes(m)))
  }

  function MessageBytes(m: Message): seq<Byte> {
    Frame(TAG_VAR, BodyBytes(m))
  }

  /** An atom with this tag starts at p, has n data bytes at d, and the next one follows. */
  predicate Starts(buf: seq<Byte>, p: nat, tag: Byte, d: nat, n: nat) {
    p < |buf| && buf[p] == tag && HeadAt(buf, p) == Head(n, d) && p < d + n <= |buf|
  }

  lemma FrameStarts(buf: seq<Byte>, p: nat, tag: Byte, body: seq<Byte>, rest: seq<Byte>)
    requires Has(buf, p, Frame(tag, body) + rest) && |body| < SIZES
    ensures Starts(buf, p, tag, DataAt(p, body), |body|) && Has(buf, DataAt(p, body), body)
    ensures Has(buf, DataAt(p, body) + |body|, rest)
  {
    HasParts(buf, p, Frame(tag, body), rest);
    HeadOfFrame(buf, p, tag, body);
  }

  lemma ExtractOneMore(buf: seq<Byte>, p: nat, end: nat, tags: seq<Byte>, idx: nat, d: nat, n: nat)
    requires idx < |tags| && p < end && Starts(buf, p, tags[idx], d, n)
    ensures Extract(buf, p, end, tags, idx) ==
      if CopyFits(tags[idx], n) then Prepended([Located(d, n)], Extract(buf, d + n, end, tags, idx + 1)) else Lost
  {
  }

  /** Three integers and a list in a row are all found exactly if the integers fit. */
  lemma ExtractFour(buf: seq<Byte>, tags: seq<Byte>, p: nat, d0: nat, n0: nat, d1: nat, n1: nat, d2: nat, n2: nat,
      d3: nat, n3: nat)
    requires tags == [TAG_INT, TAG_INT, TAG_INT, TAG_VAR]
    requires Starts(buf, p, tags[0], d0, n0) && Starts(buf, d0 + n0, tags[1], d1, n1)
    requires Starts(buf, d1 + n1, tags[2], d2, n2) && Starts(buf, d2 + n2, tags[3], d3, n3)
    ensures Extract(buf, p, d3 + n3, tags, 0) ==
      if n0 <= INT_ROOM && n1 <= INT_ROOM && n2 <= INT_ROOM
      then Extracted([Located(d0, n0), Located(d1, n1), Located(d2, n2), Located(d3, n3)], d3 + n3)
      else Lost
  {
    hide HeadAt, Has;
    var end := d3 + n3;
    ExtractOneMore(buf, p, end, tags, 0, d0, n0);
    ExtractOneMore(buf, d0 + n0, end, tags, 1, d1, n1);
    ExtractOneMore(buf, d1 + n1, end, tags, 2, d2, n2);
    ExtractOneMore(buf, d2 + n2, end, tags, 3, d3, n3);
    PrependFour(Located(d0, n0), Located(d1, n1), Located(d2, n2), Located(d3, n3), Extract(buf, end, end, tags, 4),
      end);
  }

  lemma PrependFour(a0: Located, a1: Located, a2: Located, a3: Located, last: Extracted, end: nat)
    requires last == Extracted([], end)
    ensures Prepended([a0], Prepended([a1], Prepended([a2], Prepended([a3], last)))) == Extracted([a0, a1, a2, a3], end)
  {
  }

  /** Three integers with no list behind them before the end: what is there is found, and the PDU is
      given up. */
  lemma ListMissing(buf: seq<Byte>, tags: seq<Byte>, method_: Byte, version: seq<Byte>, com: seq<Byte>, p: nat,
      d0: nat, n0: nat, d1: nat, n1: nat, d2: nat, n2: nat)
    requires tags == [TAG_INT, TAG_INT, TAG_INT, TAG_VAR] && n0 <= 4 && n1 <= 4 && n2 <= 4
    requires Starts(buf, p, tags[0], d0, n0) && Starts(buf, d0 + n0, tags[1], d1, n1)
    requires Starts(buf, d1 + n1, tags[2], d2, n2)
    ensures Extract(buf, p, d2 + n2, tags, 0) == Extracted([Located(d0, n0), Located(d1, n1), Located(d2, n2)], d2 + n2)
    ensures ReadPdu(buf, method_, version, com, p, d2 + n2 - p) == None
  {
    hide HeadAt, Has;
    var end := d2 + n2;
    ExtractOneMore(buf, p, end, tags, 0, d0, n0);
    ExtractOneMore(buf, d0 + n0, end, tags, 1, d1, n1);
    ExtractOneMore(buf, d1 + n1, end, tags, 2, d2, n2);
    PrependThree(Located(d0, n0), Located(d1, n1), Located(d2, n2), Extract(buf, end, end, tags, 3), end);
  }

  lemma PrependThree(a0: Located, a1: Located, a2: Located, last: Extracted, end: nat)
    requires last == Extracted([], end)
    ensures Prepended([a0], Prepended([a1], Prepended([a2], last))) == Extracted([a0, a1, a2], end)
  {
  }

  lemma NextStarts(buf: seq<Byte>, p: nat, size: nat, tag: Byte, d: nat, n: nat)
    requires size > 0 && Starts(buf, p, tag, d, n)
    ensures Next(buf, p, size, tag) == if CopyFits(tag, n) then Located(d, n) else Unset
  {
    ExtractOneMore(buf, p, p + size, [tag], 0, d, n);
  }

  /** Where the atom behind one at p with this body starts. */
  function After(p: nat, body: seq<Byte>): nat {
    DataAt(p, body) + |body|
  }

  /** Four frames in a row. */
  lemma FourStart(buf: seq<Byte>, p: nat, b0: seq<Byte>, b1: seq<Byte>, b2: seq<Byte>, tag: Byte, b3: seq<Byte>)
    requires |b0| < SIZES && |b1| < SIZES && |b2| < SIZES && |b3| < SIZES
    requires Has(buf, p, Frame(TAG_INT, b0) + (Frame(TAG_INT, b1) + (Frame(TAG_INT, b2) + Frame(tag, b3))))
    ensures var p1 := After(p, b0);
      var p2 := After(p1, b1);
      var p3 := After(p2, b2);
      && Starts(buf, p, TAG_INT, DataAt(p, b0), |b0|) && Has(buf, DataAt(p, b0), b0)
      && Starts(buf, p1, TAG_INT, DataAt(p1, b1), |b1|) && Has(buf, DataAt(p1, b1), b1)
      && Starts(buf, p2, TAG_INT, DataAt(p2, b2), |b2|) && Has(buf, DataAt(p2, b2), b2)
      && Starts(buf, p3, tag, DataAt(p3, b3), |b3|) && Has(buf, DataAt(p3, b3), b3)
  {
    hide Starts, Has, LengthBytes;
    var f1, f2, f3 := Frame(TAG_INT, b1), Frame(TAG_INT, b2), Frame(tag, b3);
    FrameStarts(buf, p, TAG_INT, b0, f1 + (f2 + f3));
    FrameStarts(buf, After(p, b0), TAG_INT, b1, f2 + f3);
    FrameStarts(buf, After(After(p, b0), b1), TAG_INT, b2, f3);
    assert f3 + [] == f3;
    FrameStarts(buf, After(After(After(p, b0), b1), b2), tag, b3, []);
  }

  lemma ReadInsideIs(buf: seq<Byte>, d: nat, n: nat, vs: seq<Variable>)
    requires Has(buf, d, VariablesBytes(vs)) && n == |VariablesBytes(vs)| < SIZES
    ensures ReadInside(buf, Located(d, n)) == Bounds(vs, BINDINGS_ROOM)
  {
    ReadVariables(buf, d, vs, BINDINGS_ROOM);
  }

  lemma ReadPduBytes(buf: seq<Byte>, at: nat, size: nat, m: Message)
    requires Has(buf, at, PduBytes(m)) && size == |PduBytes(m)| < SIZES
    ensures ReadPdu(buf, m.method_, m.version, m.com, at, size) ==
      if IntegersFit(m) && AllFit(m.variables, BINDINGS_ROOM) then Some(AsRead(m)) else None
  {
    hide ReadInside, Starts, TakePdu, ReadPdu, Has, VariablesBytes, BoundsOf, AllFit;
    var vs := VariablesBytes(m.variables);
    FourStart(buf, at, m.requestId, m.status, m.index, TAG_VAR, vs);
    var p1 := After(at, m.requestId);
    var p2 := After(p1, m.status);
    var p3 := After(p2, m.index);
    var d0, d1, d2, d3 := DataAt(at, m.requestId), DataAt(p1, m.status), DataAt(p2, m.index), DataAt(p3, vs);
    ReadInsideIs(buf, d3, |vs|, m.variables);
    assert size == d3 + |vs| - at;
    ReadPduIs(buf, m, at, size, d0, d1, d2, d3, |vs|);
    TakePduIs(buf, m, d0, d1, d2, Bounds(m.variables, BINDINGS_ROOM));
  }

  /** A PDU whose parts are where they should be. */
  lemma ReadPduIs(buf: seq<Byte>, m: Message, p: nat, size: nat, d0: nat, d1: nat, d2: nat, d3: nat, n3: nat)
    requires Starts(buf, p, TAG_INT, d0, |m.requestId|) && Starts(buf, d0 + |m.requestId|, TAG_INT, d1, |m.status|)
    requires Starts(buf, d1 + |m.status|, TAG_INT, d2, |m.index|) && Starts(buf, d2 + |m.index|, TAG_VAR, d3, n3)
    requires size == d3 + n3 - p
    ensures ReadPdu(buf, m.method_, m.version, m.com, p, size) ==
      if !IntegersFit(m) then None
      else
        TakePdu(buf, m.method_, m.version, m.com,
          Located(d0, |m.requestId|), Located(d1, |m.status|), Located(d2, |m.index|), ReadInside(buf, Located(d3, n3)))
  {
    hide ReadBinds;
    ExtractFour(buf, [TAG_INT, TAG_INT, TAG_INT, TAG_VAR], p, d0, |m.requestId|, d1, |m.status|, d2, |m.index|, d3, n3);
  }

  lemma TakePduIs(buf: seq<Byte>, m: Message, d0: nat, d1: nat, d2: nat, binds: Option<seq<Bound>>)
    requires Has(buf, d0, m.requestId) && Has(buf, d1, m.status) && Has(buf, d2, m.index)
    ensures TakePdu(buf, m.method_, m.version, m.com,
        Located(d0, |m.requestId|), Located(d1, |m.status|), Located(d2, |m.index|), binds) ==
      if binds.Some? then Some(Request(m.method_, m.version, m.com, m.requestId, m.status, m.index, binds.value))
        else None
  {
  }

  function AsRead(m: Message): Request {
    Request(m.method_, m.version, m.com, m.requestId, m.status, m.index, BoundsOf(m.variables))
  }

  /** What becomes of a message. */
  function Outcome(m: Message): Option<Request> {
    if PartsFit(m) then Some(AsRead(m)) else None
  }

  lemma ReadBody(buf: seq<Byte>, at: nat, m: Message)
    requires GetOrSet(m) && Has(buf, at, BodyBytes(m)) && |BodyBytes(m)| < SIZES
    ensures ReadMessage(buf, at, |BodyBytes(m)|) == Outcome(m)
  {
    hide ReadPdu, PopAtom, PduBytes, ReadMessage, Starts, Has, GetOrSet, AllFit;
    var com, pdu := Frame(TAG_STRING, m.com), Frame(m.method_, PduBytes(m));
    var d0 := DataAt(at, m.version);
    var p1 := d0 + |m.version|;
    var d1 := DataAt(p1, m.com);
    var p2 := d1 + |m.com|;
    FrameStarts(buf, at, TAG_INT, m.version, com + pdu);
    FrameStarts(buf, p1, TAG_STRING, m.com, pdu);
    PopFrame(buf, p2, 0, m.method_, PduBytes(m));
    ReadPduBytes(buf, DataAt(p2, PduBytes(m)), |PduBytes(m)|, m);
    ReadMessageIs(buf, m, at, d0, d1, |pdu|, DataAt(p2, PduBytes(m)), |PduBytes(m)|);
  }

  /** A message whose parts are where they should be. */
  lemma ReadMessageIs(buf: seq<Byte>, m: Message, p: nat, d0: nat, d1: nat, size: nat, d2: nat, n2: nat)
    requires GetOrSet(m) && size > 0
    requires Starts(buf, p, TAG_INT, d0, |m.version|) && Has(buf, d0, m.version)
    requires Starts(buf, d0 + |m.version|, TAG_STRING, d1, |m.com|) && Has(buf, d1, m.com)
    requires PopAtom(buf, d1 + |m.com|, size) == Popped(m.method_, d2, n2, d1 + |m.com| + size, 0)
    ensures ReadMessage(buf, p, d1 + |m.com| + size - p) ==
      if |m.version| <= INT_ROOM && |m.com| <= COMMUNITY_MAX
      then ReadPdu(buf, m.method_, m.version, m.com, d2, n2)
      else None
  {
    hide ReadPdu, PopAtom, Extract, HeadAt;
    var all := d1 + |m.com| + size - p;
    NextStarts(buf, p, all, TAG_INT, d0, |m.version|);
    NextStarts(buf, d0 + |m.version|, p + all - (d0 + |m.version|), TAG_STRING, d1, |m.com|);
  }

  /** A get or set request as a manager encodes it is read with all its parts and variables in
      order exactly if every part fits its place, whatever else is in the receive buffer. */
  lemma ReadEncoded(buf: seq<Byte>, m: Message)
    requires GetOrSet(m) && Has(buf, 0, MessageBytes(m)) && |MessageBytes(m)| < SIZES
    ensures ReadRequest(buf, |MessageBytes(m)|) == Outcome(m)
  {
    assert MessageBytes(m) + [] == MessageBytes(m);
    FrameStarts(buf, 0, TAG_VAR, BodyBytes(m), []);
    NextStarts(buf, 0, |MessageBytes(m)|, TAG_VAR, DataAt(0, BodyBytes(m)), |BodyBytes(m)|);
    ReadBody(buf, DataAt(0, BodyBytes(m)), m);
  }

  /** A message with any other method is not carried out. */
  lemma OtherMethodUnread(buf: seq<Byte>, m: Message)
    requires m.method_ !in {0xa0, 0xa3} && Has(buf, 0, MessageBytes(m)) && |MessageBytes(m)| < SIZES
    ensures ReadRequest(buf, |MessageBytes(m)|) == None
  {
    hide Starts, Has, PopAtom, PduBytes, ReadPdu, Extract, HeadAt, LengthBytes;
    assert MessageBytes(m) + [] == MessageBytes(m);
    FrameStarts(buf, 0, TAG_VAR, BodyBytes(m), []);
    NextStarts(buf, 0, |MessageBytes(m)|, TAG_VAR, DataAt(0, BodyBytes(m)), |BodyBytes(m)|);
    OtherMethodBody(buf, DataAt(0, BodyBytes(m)), m);
  }

  lemma OtherMethodBody(buf: seq<Byte>, at: nat, m: Message)
    requires m.method_ !in {0xa0, 0xa3} && Has(buf, at, BodyBytes(m)) && |BodyBytes(m)| < SIZES
    ensures ReadMessage(buf, at, |BodyBytes(m)|) == None
  {
    hide Starts, Has, PopAtom, PduBytes, ReadPdu, Extract, HeadAt;
    var com, pdu := Frame(TAG_STRING, m.com), Frame(m.method_, PduBytes(m));
    var size := |BodyBytes(m)|;
    var d0 := DataAt(at, m.version);
    var p1 := d0 + |m.version|;
    var d1 := DataAt(p1, m.com);
    FrameStarts(buf, at, TAG_INT, m.version, com + pdu);
    FrameStarts(buf, p1, TAG_STRING, m.com, pdu);
    PopFrame(buf, d1 + |m.com|, 0, m.method_, PduBytes(m));
    NextStarts(buf, at, size, TAG_INT, d0, |m.version|);
    NextStarts(buf, p1, at + size - p1, TAG_STRING, d1, |m.com|);
  }

  /** The parts of the bytes of a message, by their tags. */
  lemma MessageLayout(m: Message)
    ensures MessageBytes(m) ==
      Frame(0x30, Frame(0x02, m.version) + (Frame(0x04, m.com) + Frame(m.method_,
        Frame(0x02, m.requestId) + (Frame(0x02, m.status) + (Frame(0x02, m.index) +
        Frame(0x30, VariablesBytes(m.variables)))))))
    ensures GetOrSet(m) <==> m.method_ in {0xa0, 0xa3}
    ensures forall v: Variable :: VariableBytes(v) == Frame(0x30, Frame(0x06, EncodeOid(v.oid)) + Frame(v.tag, v.data))
    ensures forall v: AnyVariable :: Settable(v.tag) <==> v.tag in {0x02, 0x04, 0x05, 0x06, 0x30, 0xa0, 0xa3}
  {
  }

  /** What reading it gives: its parts as they are, and of each variable the identifier without a
      last number 0; exactly if no part is too long. */
  lemma OutcomeIs(m: Message)
    ensures Outcome(m).Some? <==>
      && |m.version| <= 4 && |m.com| <= 128 && |m.requestId| <= 4 && |m.status| <= 4 && |m.index| <= 4
      && |m.variables| <= 16 && forall v :: v in m.variables ==> |v.oid| <= 20
    ensures Outcome(m).Some? ==>
      var r := Outcome(m).value;
      && r.method_ == m.method_ && r.version == m.version && r.com == m.com && r.requestId == m.requestId
      && r.status == m.status && r.index == m.index && |r.binds| == |m.variables|
      && forall i :: 0 <= i < |r.binds| ==>
        var v, n := m.variables[i], |m.variables[i].oid|;
        r.binds[i] == Bound(if v.oid[n - 1] == 0 then v.oid[..n - 1] else v.oid, v.tag, v.data)
  {
    BoundsInOrder(m.variables);
    assert (forall i :: 0 <= i < |m.variables| ==> NameFits(m.variables[i])) <==>
      forall v :: v in m.variables ==> |v.oid| <= 20;
  }

  lemma {:induction false} BoundsInOrder(vs: seq<Variable>)
    ensures |BoundsOf(vs)| == |vs| && forall i :: 0 <= i < |vs| ==> BoundsOf(vs)[i] == BoundOf(vs[i])
  {
    if vs != [] {
      BoundsInOrder(vs[1..]);
    }
  }

  /** A get request without variables. */
  function Empty(version: seq<Byte>): (m: Message) {
    Message(TAG_GET_REQUEST, version, [], [0], [0], [0], [])
  }

  /** With five bytes for its version the same request is no longer read. */
  lemma LongVersionLost()
    ensures ReadRequest(MessageBytes(Empty([0])), |MessageBytes(Empty([0]))|) == Some(AsRead(Empty([0])))
    ensures var long := MessageBytes(Empty(Fill(INT_ROOM + 1, 0))); ReadRequest(long, |long|) == None
  {
    hide ReadRequest, MessageBytes;
    EmptyIsSmall([0]);
    EmptyIsSmall(Fill(INT_ROOM + 1, 0));
    ReadEncoded(MessageBytes(Empty([0])), Empty([0]));
    ReadEncoded(MessageBytes(Empty(Fill(INT_ROOM + 1, 0))), Empty(Fill(INT_ROOM + 1, 0)));
  }

  lemma EmptyIsSmall(version: seq<Byte>)
    requires |version| < 128
    ensures |MessageBytes(Empty(version))| < SIZES && Has(MessageBytes(Empty(version)), 0, MessageBytes(Empty(version)))
  {
    assert VariablesBytes([]) == [];
  }
}
