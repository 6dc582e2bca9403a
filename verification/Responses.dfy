/** The response to a get or set request (src/wu_snmp_lib.c:397-419, 475-507, 591-624;
    section 4.1 of RFC 1157). */
module Responses {
  import opened Bytes
  import opened Ber

  const BINDINGS_MAX := 16

  /** A variable after its request was carried out. */
  datatype VarBind = VarBind(error: Byte, name: Atom, value: Atom)

  // ---- Errors -----------------------------------------------------------------------------------

  /** Codes of the failed variables, in order. */
  function Codes(vbs: seq<VarBind>): (s: seq<Byte>)
    ensures |s| <= |vbs|
  {
    if vbs == [] then []
    else
      var n := |vbs| - 1;
      Codes(vbs[..n]) + if vbs[n].error != 0 then [vbs[n].error] else []
  }

  /** Their places, counted from one. */
  function Places(vbs: seq<VarBind>): (s: seq<Byte>)
    requires |vbs| <= BINDINGS_MAX
    ensures |s| == |Codes(vbs)|
  {
    if vbs == [] then []
    else
      var n := |vbs| - 1;
      Places(vbs[..n]) + if vbs[n].error != 0 then [n + 1] else []
  }

  /** Some variable has failed. */
  ghost predicate AnyFailed(vbs: seq<VarBind>) {
    exists vb :: vb in vbs && vb.error != 0
  }

  function OrZero(s: seq<Byte>): seq<Byte> {
    if s == [] then [0] else s
  }

  lemma {:induction false} NoneFailed(vbs: seq<VarBind>)
    requires |vbs| <= BINDINGS_MAX
    ensures Codes(vbs) == [] <==> !AnyFailed(vbs)
    ensures Places(vbs) == [] <==> Codes(vbs) == []
  {
    if vbs != [] {
      var n := |vbs| - 1;
      NoneFailed(vbs[..n]);
      assert vbs == vbs[..n] + [vbs[n]];
    }
  }

  /** Without a failed variable the status is 0 at place 0. */
  lemma ReportIs(vbs: seq<VarBind>)
    requires |vbs| <= BINDINGS_MAX
    ensures !AnyFailed(vbs) ==> OrZero(Codes(vbs)) == OrZero(Places(vbs)) == [0]
    ensures AnyFailed(vbs) ==>
      OrZero(Codes(vbs)) == Codes(vbs) && OrZero(Places(vbs)) == Places(vbs)
  {
    NoneFailed(vbs);
  }

  method BuildError(vbs: seq<VarBind>, errorStatus: array<Byte>, errorIndex: array<Byte>) returns (errors: nat)
    requires |vbs| <= BINDINGS_MAX == errorStatus.Length == errorIndex.Length && errorStatus != errorIndex
    modifies errorStatus, errorIndex
    ensures errors <= BINDINGS_MAX
    ensures errorStatus[..errors] == OrZero(Codes(vbs)) && errorIndex[..errors] == OrZero(Places(vbs))
    ensures !AnyFailed(vbs) ==> errors == 1 && errorStatus[0] == errorIndex[0] == 0
    ensures AnyFailed(vbs) ==>
      errorStatus[..errors] == Codes(vbs) && errorIndex[..errors] == Places(vbs)
  {
    errors := 0;
    for i := 0 to |vbs|
      invariant errors <= i
      invariant errorStatus[..errors] == Codes(vbs[..i]) && errorIndex[..errors] == Places(vbs[..i])
    {
      assert vbs[..i + 1][..i] == vbs[..i];
      if vbs[i].error != 0 {
        errorStatus[errors] := vbs[i].error;
        errorIndex[errors] := i + 1;
        errors := errors + 1;
      }
    }
    assert vbs[..|vbs|] == vbs;
    if errors == 0 {
      errorStatus[0] := 0;
      errorIndex[0] := 0;
      errors := 1;
    }
    ReportIs(vbs);
    NoneFailed(vbs);
  }

  /** The k-th report is about a failed variable and carries its code. */
  predicate Reports(vbs: seq<VarBind>, code: Byte, place: Byte) {
    1 <= place <= |vbs| && vbs[place - 1].error == code != 0
  }

  predicate InOrder(places: seq<Byte>) {
    forall j, k :: 0 <= j < k < |places| ==> places[j] < places[k]
  }

  lemma {:induction false} ReportsTrue(vbs: seq<VarBind>)
    requires |vbs| <= BINDINGS_MAX
    ensures forall k :: 0 <= k < |Places(vbs)| ==> Reports(vbs, Codes(vbs)[k], Places(vbs)[k])
    ensures InOrder(Places(vbs))
  {
    if vbs != [] {
      var front := vbs[..|vbs| - 1];
      ReportsTrue(front);
      forall k | 0 <= k < |Places(front)| ensures Reports(vbs, Codes(front)[k], Places(front)[k]) {
        assert Reports(front, Codes(front)[k], Places(front)[k]);
      }
    }
  }

  lemma {:induction false} AllReported(vbs: seq<VarBind>, i: nat)
    requires i < |vbs| <= BINDINGS_MAX && vbs[i].error != 0
    ensures i + 1 in Places(vbs)
  {
    var n := |vbs| - 1;
    if i < n {
      AllReported(vbs[..n], i);
    }
  }

  /** Every failed variable is reported once, with its code, in order, and nothing else is. */
  lemma ErrorsReported(vbs: seq<VarBind>)
    requires |vbs| <= BINDINGS_MAX
    ensures InOrder(Places(vbs))
    ensures forall k :: 0 <= k < |Places(vbs)| ==> Reports(vbs, Codes(vbs)[k], Places(vbs)[k])
    ensures forall i :: 0 <= i < |vbs| && vbs[i].error != 0 ==> i + 1 in Places(vbs)
  {
    ReportsTrue(vbs);
    forall i | 0 <= i < |vbs| && vbs[i].error != 0 ensures i + 1 in Places(vbs) {
      AllReported(vbs, i);
    }
  }

  // ---- The response ---------------------------------------------------------------------------------

  function LeafOf(a: Atom): Tree {
    Leaf(a.tag, a.data)
  }

  function BindingTree(vb: VarBind): Tree {
    Branch(TAG_VAR, [LeafOf(vb.name), LeafOf(vb.value)])
  }

  /** The bindings put into a response: all of them (set), or those without error (get). */
  function BindingTrees(vbs: seq<VarBind>, all: bool): seq<Tree> {
    if vbs == [] then []
    else
      var n := |vbs| - 1;
      BindingTrees(vbs[..n], all) + if all || vbs[n].error == 0 then [BindingTree(vbs[n])] else []
  }

  function PduTree(requestId: Atom, vbs: seq<VarBind>, all: bool): Tree
    requires |vbs| <= BINDINGS_MAX
  {
    Branch(TAG_GET_RESPONSE, [
      LeafOf(requestId), Leaf(TAG_INT, OrZero(Codes(vbs))), Leaf(TAG_INT, OrZero(Places(vbs))),
      Branch(TAG_VAR, BindingTrees(vbs, all))])
  }

  function ResponseTree(version: Atom, com: Atom, requestId: Atom, vbs: seq<VarBind>, all: bool): Tree
    requires |vbs| <= BINDINGS_MAX
  {
    Branch(TAG_VAR, [LeafOf(version), LeafOf(com), PduTree(requestId, vbs, all)])
  }

  lemma EncodePair(a: Tree, b: Tree)
    ensures EncodeAll([a, b]) == Encode(a) + Encode(b)
  {
    EncodeSnoc([], a);
    EncodeSnoc([a], b);
    assert [] + [a] == [a] && [a] + [b] == [a, b];
    assert [] + Encode(a) == Encode(a);
  }

  lemma EncodeTriple(a: Tree, b: Tree, c: Tree)
    ensures EncodeAll([a, b, c]) == Encode(a) + Encode(b) + Encode(c)
  {
    EncodePair(a, b);
    EncodeSnoc([a, b], c);
    assert [a, b] + [c] == [a, b, c];
  }

  lemma EncodeFour(a: Tree, b: Tree, c: Tree, d: Tree)
    ensures EncodeAll([a, b, c, d]) == Encode(a) + Encode(b) + Encode(c) + Encode(d)
  {
    EncodeTriple(a, b, c);
    EncodeSnoc([a, b, c], d);
    assert [a, b, c] + [d] == [a, b, c, d];
  }

  /** One variable goes into the list of bindings. */
  method AddBinding(vblist: ComAtom, vbAtom: ComAtom, vb: VarBind, ghost body: seq<Byte>)
    requires vblist != vbAtom && vblist.buf != vbAtom.buf && vbAtom.buf.Length == BUFFER
    requires vblist.Holds(body) && 2 + |body| + |Encode(BindingTree(vb))| <= BUFFER
    modifies vblist, vblist.buf, vbAtom, vbAtom.buf
    ensures vblist.Holds(body + Encode(BindingTree(vb))) && vblist.son == null
    ensures vblist.parent == old(vblist.parent) && vblist.tag == old(vblist.tag)
  {
    EncodePair(LeafOf(vb.name), LeafOf(vb.value));
    ghost var name, value := Encode(LeafOf(vb.name)), Encode(LeafOf(vb.value));
    vblist.AddComAtom(vbAtom, TAG_VAR);
    vbAtom.AddAtom(vb.name, []);
    assert [] + name == name;
    vbAtom.AddAtom(vb.value, name);
    vbAtom.End(name + value, [], body);
  }

  lemma {:induction false} BindingsGrow(vbs: seq<VarBind>, all: bool, i: nat)
    requires i <= |vbs|
    ensures |EncodeAll(BindingTrees(vbs[..i], all))| <= |EncodeAll(BindingTrees(vbs, all))|
    decreases |vbs| - i
  {
    if i < |vbs| {
      BindingsGrow(vbs, all, i + 1);
      BindingsStep(vbs, all, i);
    } else {
      assert vbs[..i] == vbs;
    }
  }

  lemma BindingsStep(vbs: seq<VarBind>, all: bool, i: nat)
    requires i < |vbs|
    ensures EncodeAll(BindingTrees(vbs[..i + 1], all)) ==
      EncodeAll(BindingTrees(vbs[..i], all)) + if all || vbs[i].error == 0 then Encode(BindingTree(vbs[i])) else []
  {
    assert vbs[..i + 1][..i] == vbs[..i];
    EncodeSnoc(BindingTrees(vbs[..i], all), BindingTree(vbs[i]));
    assert BindingTrees(vbs[..i], all) + [] == BindingTrees(vbs[..i], all);
  }

  /** All bindings that belong into the response. */
  method AddBindings(vblist: ComAtom, vbs: seq<VarBind>, all: bool)
    requires vblist.Holds([]) && vblist.son == null && 2 + |EncodeAll(BindingTrees(vbs, all))| <= BUFFER
    modifies vblist, vblist.buf
    ensures vblist.Holds(EncodeAll(BindingTrees(vbs, all))) && vblist.son == null
    ensures vblist.parent == old(vblist.parent) && vblist.tag == old(vblist.tag)
  {
    var vbAtom := new ComAtom();
    for i := 0 to |vbs|
      invariant vblist.Holds(EncodeAll(BindingTrees(vbs[..i], all))) && vblist.son == null
      invariant vblist.parent == old(vblist.parent) && vblist.tag == old(vblist.tag)
    {
      BindingsStep(vbs, all, i);
      BindingsGrow(vbs, all, i + 1);
      if all || vbs[i].error == 0 {
        AddBinding(vblist, vbAtom, vbs[i], EncodeAll(BindingTrees(vbs[..i], all)));
      }
    }
    assert vbs[..|vbs|] == vbs;
  }

  /** The PDU up to its list of bindings. */
  method StartPdu(pdu: ComAtom, requestId: Atom, vbs: seq<VarBind>)
    requires |vbs| <= BINDINGS_MAX && pdu.Holds([])
    requires 2 + |Encode(LeafOf(requestId))| + |Frame(TAG_INT, OrZero(Codes(vbs)))| +
      |Frame(TAG_INT, OrZero(Places(vbs)))| <= BUFFER
    modifies pdu`len, pdu.buf
    ensures pdu.Holds(Encode(LeafOf(requestId)) + Frame(TAG_INT, OrZero(Codes(vbs))) +
      Frame(TAG_INT, OrZero(Places(vbs))))
  {
    hide OrZero, Codes, Places, LengthBytes;
    var errorStatus, errorIndex := new Byte[BINDINGS_MAX](_ => 0), new Byte[BINDINGS_MAX](_ => 0);
    var errors := BuildError(vbs, errorStatus, errorIndex);
    pdu.AddAtom(requestId, []);
    ghost var id := Encode(LeafOf(requestId));
    assert [] + id == id;
    pdu.AddAtom(Atom(TAG_INT, errorStatus[..errors]), id);
    pdu.AddAtom(Atom(TAG_INT, errorIndex[..errors]), id + Frame(TAG_INT, OrZero(Codes(vbs))));
  }

  function Front(version: Atom, com: Atom): seq<Byte> {
    Frame(version.tag, version.data) + Frame(com.tag, com.data)
  }

  function Lead(requestId: Atom, vbs: seq<VarBind>): seq<Byte>
    requires |vbs| <= BINDINGS_MAX
  {
    Encode(LeafOf(requestId)) + Frame(TAG_INT, OrZero(Codes(vbs))) + Frame(TAG_INT, OrZero(Places(vbs)))
  }

  /** The three nested frames of a response. */
  lemma ResponseFrames(version: Atom, com: Atom, requestId: Atom, vbs: seq<VarBind>, all: bool)
    requires |vbs| <= BINDINGS_MAX
    ensures Encode(ResponseTree(version, com, requestId, vbs, all)) ==
      Frame(TAG_VAR, Front(version, com) +
        Frame(TAG_GET_RESPONSE, Lead(requestId, vbs) + Frame(TAG_VAR, EncodeAll(BindingTrees(vbs, all)))))
  {
    EncodeTriple(LeafOf(version), LeafOf(com), PduTree(requestId, vbs, all));
    EncodeFour(LeafOf(requestId), Leaf(TAG_INT, OrZero(Codes(vbs))), Leaf(TAG_INT, OrZero(Places(vbs))),
      Branch(TAG_VAR, BindingTrees(vbs, all)));
  }

  /** The response in tags and parts: version and community, then the PDU with the request's number,
      the errors, and the bindings; 0 and 0 for the errors if no variable failed. */
  lemma ResponseLayout(version: Atom, com: Atom, requestId: Atom, vbs: seq<VarBind>, all: bool)
    requires |vbs| <= BINDINGS_MAX
    ensures var status := if AnyFailed(vbs) then Codes(vbs) else [0];
      var index := if AnyFailed(vbs) then Places(vbs) else [0];
      Encode(ResponseTree(version, com, requestId, vbs, all)) ==
      Frame(0x30, Frame(version.tag, version.data) + Frame(com.tag, com.data) + Frame(0xa2,
        Frame(requestId.tag, requestId.data) + Frame(0x02, status) + Frame(0x02, index) +
        Frame(0x30, EncodeAll(BindingTrees(vbs, all)))))
  {
    ResponseFrames(version, com, requestId, vbs, all);
    ReportIs(vbs);
  }

  /** A binding is the name and then the value in a frame; in the answer to a get request one that
      failed has none. */
  lemma OneBinding(vb: VarBind, all: bool)
    ensures EncodeAll(BindingTrees([vb], all)) ==
      if all || vb.error == 0 then
        Frame(0x30, Frame(vb.name.tag, vb.name.data) + Frame(vb.value.tag, vb.value.data))
      else []
  {
    assert [vb][..0] == [];
    assert BindingTrees([], all) == [] && EncodeAll([]) == [];
    EncodePair(LeafOf(vb.name), LeafOf(vb.value));
    EncodeSnoc([], BindingTree(vb));
    assert [] + [BindingTree(vb)] == [BindingTree(vb)] && [] + Encode(BindingTree(vb)) == Encode(BindingTree(vb));
  }

  /** The bindings of more variables follow one another. */
  lemma {:induction false} BindingsAppend(a: seq<VarBind>, b: seq<VarBind>, all: bool)
    ensures BindingTrees(a + b, all) == BindingTrees(a, all) + BindingTrees(b, all)
  {
    hide BindingTree;
    if b == [] {
      assert a + b == a;
    } else {
      var n := |b| - 1;
      BindingsAppend(a, b[..n], all);
      LastBinding(b, all);
      LastBinding(a + b, all);
      assert (a + b)[..|a| + n] == a + b[..n];
    }
  }

  lemma LastBinding(vbs: seq<VarBind>, all: bool)
    requires vbs != []
    ensures BindingTrees(vbs, all) == BindingTrees(vbs[..|vbs| - 1], all) +
      if all || vbs[|vbs| - 1].error == 0 then [BindingTree(vbs[|vbs| - 1])] else []
  {
  }

  method StartMessage(header: ComAtom, version: Atom, com: Atom)
    requires header.buf.Length == BUFFER && 2 + |Front(version, com)| <= BUFFER
    modifies header, header.buf
    ensures header.Holds(Front(version, com)) && header.tag == TAG_VAR && header.parent == null
  {
    header.Init(TAG_VAR);
    header.AddAtom(version, []);
    assert [] + Frame(version.tag, version.data) == Frame(version.tag, version.data);
    header.AddAtom(com, Frame(version.tag, version.data));
  }

  /** The PDU with its list of bindings as open son. */
  method FillPdu(pdu: ComAtom, vblist: ComAtom, requestId: Atom, vbs: seq<VarBind>, all: bool)
    requires pdu != vblist && pdu.buf != vblist.buf && vblist.buf.Length == BUFFER && |vbs| <= BINDINGS_MAX &&
      pdu.Holds([])
    requires 2 + |Lead(requestId, vbs)| <= BUFFER && 2 + |EncodeAll(BindingTrees(vbs, all))| <= BUFFER
    modifies pdu`len, pdu`son, pdu.buf, vblist, vblist.buf
    ensures pdu.Holds(Lead(requestId, vbs)) && pdu.son == vblist
    ensures vblist.Holds(EncodeAll(BindingTrees(vbs, all)))
    ensures vblist.parent == pdu && vblist.son == null && vblist.tag == TAG_VAR
  {
    StartPdu(pdu, requestId, vbs);
    pdu.AddComAtom(vblist, TAG_VAR);
    AddBindings(vblist, vbs, all);
  }

  /** Ends the three open atoms from the inside out. */
  method EndAll(header: ComAtom, pdu: ComAtom, vblist: ComAtom, ghost front: seq<Byte>, ghost lead: seq<Byte>,
      ghost list: seq<Byte>)
    requires header != pdu && header != vblist && pdu != vblist
    requires header.buf != pdu.buf && header.buf != vblist.buf && pdu.buf != vblist.buf
    requires header.Holds(front) && header.parent == null && header.son == pdu && header.tag == TAG_VAR
    requires pdu.Holds(lead) && pdu.parent == header && pdu.son == vblist && pdu.tag == TAG_GET_RESPONSE
    requires vblist.Holds(list) && vblist.parent == pdu && vblist.son == null && vblist.tag == TAG_VAR
    requires |Frame(TAG_VAR, front + Frame(TAG_GET_RESPONSE, lead + Frame(TAG_VAR, list)))| <= BUFFER
    modifies header, header.buf, pdu, pdu.buf, vblist, vblist.buf
    ensures header.tag == TAG_VAR && header.Done(front + Frame(TAG_GET_RESPONSE, lead + Frame(TAG_VAR, list)))
  {
    vblist.End(list, [], lead);
    pdu.End(lead + Frame(TAG_VAR, list), [], front);
    header.End(front + Frame(TAG_GET_RESPONSE, lead + Frame(TAG_VAR, list)), [], []);
  }

  /** Builds the whole response in nested buffers; it is the encoding of the response tree. */
  method BuildResponse(version: Atom, com: Atom, requestId: Atom, vbs: seq<VarBind>, all: bool)
      returns (resp: seq<Byte>)
    requires |vbs| <= BINDINGS_MAX && |Encode(ResponseTree(version, com, requestId, vbs, all))| <= BUFFER
    ensures resp == Encode(ResponseTree(version, com, requestId, vbs, all))
    ensures var status := if AnyFailed(vbs) then Codes(vbs) else [0];
      var index := if AnyFailed(vbs) then Places(vbs) else [0];
      resp == Frame(0x30, Frame(version.tag, version.data) + Frame(com.tag, com.data) + Frame(0xa2,
        Frame(requestId.tag, requestId.data) + Frame(0x02, status) + Frame(0x02, index) +
        Frame(0x30, EncodeAll(BindingTrees(vbs, all)))))
  {
    hide Encode, BindingTrees, Front, Lead, Codes, Places, AnyFailed, LengthBytes;
    ResponseLayout(version, com, requestId, vbs, all);
    ResponseFrames(version, com, requestId, vbs, all);
    var header := new ComAtom();
    var pdu := new ComAtom();
    var vblist := new ComAtom();
    StartMessage(header, version, com);
    header.AddComAtom(pdu, TAG_GET_RESPONSE);
    FillPdu(pdu, vblist, requestId, vbs, all);
    EndAll(header, pdu, vblist, Front(version, com), Lead(requestId, vbs), EncodeAll(BindingTrees(vbs, all)));
    resp := header.buf[..2 + header.len];
  }

  // ---- The answers to a get request ----------------------------------------------------------------

  /** What the getter of a variable gives. */
  datatype AnyAnswer = Failed(error: Byte) | Answered(data: seq<Byte>)

  type Answer = a: AnyAnswer | (if a.Failed? then a.error != 0 else |a.data| <= BUFFER) witness Answered([])

  /** The one buffer that every answer is copied into, after all of them. */
  function AnswerBuffer(answers: seq<Answer>, before: seq<Byte>): (after: seq<Byte>)
    requires |before| == BUFFER
    ensures |after| == BUFFER
  {
    if answers == [] then before
    else
      var n := |answers| - 1;
      var rest := AnswerBuffer(answers[..n], before);
      if answers[n].Answered? then Patch(rest, 0, answers[n].data) else rest
  }

  /** The variables when the response is built: each answer is as long as it was given, but
      points at the buffer, which by then holds what the later ones have left there. */
  function GetBinds(names: seq<Atom>, answers: seq<Answer>, buf: seq<Byte>): (vbs: seq<VarBind>)
    requires |names| == |answers| && |buf| == BUFFER
    ensures |vbs| == |answers|
    ensures forall i :: 0 <= i < |vbs| ==> vbs[i] == GetBind(names[i], answers[i], buf)
    ensures forall i :: 0 <= i < |vbs| ==> vbs[i].name == names[i] && vbs[i].value.tag == 0x04
    ensures forall i :: 0 <= i < |vbs| && answers[i].Failed? ==>
      vbs[i].error == answers[i].error && vbs[i].value.data == []
    ensures forall i :: 0 <= i < |vbs| && answers[i].Answered? ==>
      vbs[i].error == 0 && |vbs[i].value.data| == |answers[i].data|
  {
    seq(|answers|, i requires 0 <= i < |answers| => GetBind(names[i], answers[i], buf))
  }

  function GetBind(name: Atom, answer: Answer, buf: seq<Byte>): VarBind
    requires |buf| == BUFFER
  {
    if answer.Failed? then VarBind(answer.error, name, Atom(TAG_STRING, []))
    else VarBind(0, name, Atom(TAG_STRING, buf[..|answer.data|]))
  }

  /** The last answer that is longer than p; -1 for none. */
  function LastOver(answers: seq<Answer>, p: nat): (j: int)
    ensures -1 <= j < |answers|
    ensures j >= 0 ==> answers[j].Answered? && p < |answers[j].data|
    ensures forall i :: j < i < |answers| && answers[i].Answered? ==> |answers[i].data| <= p
  {
    if answers == [] then -1
    else
      var n := |answers| - 1;
      if answers[n].Answered? && p < |answers[n].data| then n else LastOver(answers[..n], p)
  }

  /** Each byte of the buffer is that of the last answer which reaches so far. */
  lemma {:induction false} AnswerBufferAt(answers: seq<Answer>, before: seq<Byte>, p: nat)
    requires |before| == BUFFER && p < BUFFER
    ensures var j := LastOver(answers, p);
      AnswerBuffer(answers, before)[p] == if j >= 0 then answers[j].data[p] else before[p]
  {
    if answers != [] {
      AnswerBufferAt(answers[..|answers| - 1], before, p);
    }
  }

  /** An answer comes back exactly if each of its bytes is that of the last answer which
      reaches so far; the last answer of all does. */
  lemma AnswerComesBack(names: seq<Atom>, answers: seq<Answer>, before: seq<Byte>, i: nat)
    requires |names| == |answers| && |before| == BUFFER && i < |answers| && answers[i].Answered?
    ensures var data := answers[i].data;
      GetBinds(names, answers, AnswerBuffer(answers, before))[i].value.data == data <==>
      forall p: nat :: p < |data| && LastOver(answers, p) >= 0 ==> answers[LastOver(answers, p)].data[p] == data[p]
    ensures (forall j :: i < j < |answers| ==> answers[j].Failed?) ==>
      GetBinds(names, answers, AnswerBuffer(answers, before))[i].value.data == answers[i].data
  {
    var data, buf := answers[i].data, AnswerBuffer(answers, before);
    forall p: nat | p < |data| ensures LastOver(answers, p) >= i && buf[p] == answers[LastOver(answers, p)].data[p] {
      AnswerBufferAt(answers, before, p);
    }
    assert buf[..|data|] == data <==> forall p: nat :: p < |data| ==> buf[p] == data[p];
  }

  /** Two variables of one byte each: both are answered with the second. */
  lemma SecondAnswerTwice(names: seq<Atom>, before: seq<Byte>)
    requires |names| == 2 && |before| == BUFFER
    ensures var answers := [Answered([1]), Answered([2])];
      var vbs := GetBinds(names, answers, AnswerBuffer(answers, before));
      vbs[0].value.data == vbs[1].value.data == [2]
  {
    var answers := [Answered([1]), Answered([2])];
    assert answers[..1] == [Answered([1])] && answers[..1][..0] == [];
    var buf := AnswerBuffer(answers, before);
    assert buf[0] == 2;
    assert buf[..1] == [2];
  }

  /** The response to a get request: all variables are carried out with the same buffer. */
  method AnswerGet(version: Atom, com: Atom, requestId: Atom, names: seq<Atom>, answers: seq<Answer>,
      dataBuf: array<Byte>)
      returns (resp: seq<Byte>)
    requires |names| == |answers| <= BINDINGS_MAX && dataBuf.Length == BUFFER
    requires var vbs := GetBinds(names, answers, AnswerBuffer(answers, dataBuf[..]));
      |Encode(ResponseTree(version, com, requestId, vbs, false))| <= BUFFER
    modifies dataBuf
    ensures dataBuf[..] == AnswerBuffer(answers, old(dataBuf[..]))
    ensures resp == Encode(ResponseTree(version, com, requestId, GetBinds(names, answers, dataBuf[..]), false))
  {
    for i := 0 to |answers|
      invariant dataBuf[..] == AnswerBuffer(answers[..i], old(dataBuf[..]))
    {
      assert answers[..i + 1][..i] == answers[..i];
      if answers[i].Answered? {
        CopyInto(answers[i].data, dataBuf, 0);
      }
    }
    assert answers[..|answers|] == answers;
    var vbs: seq<VarBind> := [];
    for i := 0 to |answers|
      invariant |vbs| == i && forall k :: 0 <= k < i ==> vbs[k] == GetBind(names[k], answers[k], dataBuf[..])
    {
      vbs := vbs + [GetBind(names[i], answers[i], dataBuf[..])];
    }
    assert vbs == GetBinds(names, answers, dataBuf[..]);
    resp := BuildResponse(version, com, requestId, vbs, false);
  }
}
