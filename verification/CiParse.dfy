/** Taking apart what comes from a CI module (src/libci/xpdu_parser.c:15-50, 81-225,
    src/libci/ci_define.h). */
module CiParse {
  import opened Bytes
  import opened CiSend
  import Ber

  const S_OPEN_REQUEST: Byte := 0x91
  const S_CREATE_RESPONSE: Byte := 0x94
  const S_CLOSE_REQUEST: Byte := 0x95
  const S_CLOSE_RESPONSE: Byte := 0x96
  const APDU_FIRST: Byte := 0x9F
  const APDU_BUFFER := 256
  const FAILED := 0xFFFF_FFFF

  datatype SpduContent = SpduContent(tag: Byte, session: nat, len: nat, resId: nat)
  datatype ApduContent = ApduContent(tag: nat, len: nat)

  // ---- What is read -----------------------------------------------------------------------------

  /** Bytes at to at + n - 1 as one number, most significant first. */
  function Number(buff: seq<Byte>, at: nat, n: nat): nat
    requires at + n <= |buff|
  {
    if n == 0 then 0 else Number(buff, at, n - 1) * 256 + buff[at + n - 1]
  }

  /** How many bytes a length field has behind its first one. */
  function ExtraBytes(first: Byte): nat {
    if first >= 128 then first - 128 else 0
  }

  /** The bytes of a length field that are looked at lie in the buffer. */
  predicate LengthHeld(buff: seq<Byte>, at: nat) {
    && at < |buff|
    && (buff[at] == 0x81 ==> at + 2 <= |buff|)
    && (buff[at] == 0x82 ==> at + 3 <= |buff|)
  }

  /** A length field: forms of up to three bytes; longer and indefinite ones read as 0. */
  function LengthAt(buff: seq<Byte>, at: nat): nat
    requires LengthHeld(buff, at)
  {
    if buff[at] < 128 then buff[at]
    else if buff[at] == 0x81 then buff[at + 1]
    else if buff[at] == 0x82 then Number(buff, at + 1, 2)
    else 0
  }

  /** A length field is read as it was meant exactly in the short form and the long ones of one and
      two bytes; in any other it reads as 0. */
  lemma LengthAtReads(buff: seq<Byte>, at: nat)
    requires LengthHeld(buff, at)
    ensures buff[at] < 0x80 || buff[at] in {0x81, 0x82} ==>
      at + 1 + ExtraBytes(buff[at]) <= |buff| &&
      Ber.SaysLength(buff[at..at + 1 + ExtraBytes(buff[at])], LengthAt(buff, at))
    ensures buff[at] == 0x80 || buff[at] > 0x82 ==> LengthAt(buff, at) == 0
  {
    if buff[at] < 0x80 || buff[at] in {0x81, 0x82} {
      var s := buff[at..at + 1 + ExtraBytes(buff[at])];
      Ber.NumberOf(s[1..]);
      if buff[at] == 0x82 {
        TwoBytes(buff, at + 1);
      }
    }
  }

  lemma TwoBytes(buff: seq<Byte>, at: nat)
    requires at + 2 <= |buff|
    ensures Number(buff, at, 2) == 256 * (buff[at] as int) + buff[at + 1]
  {
    assert Number(buff, at, 0) == 0 && Number(buff, at, 1) == buff[at];
  }

  lemma FourBytes(buff: seq<Byte>, at: nat)
    requires at + 4 <= |buff|
    ensures Number(buff, at, 4) ==
      0x100_0000 * (buff[at] as int) + 0x1_0000 * (buff[at + 1] as int) + 0x100 * (buff[at + 2] as int) + buff[at + 3]
  {
    TwoBytes(buff, at);
    assert Number(buff, at, 3) == Number(buff, at, 2) * 256 + buff[at + 2];
  }

  /** How many bytes a session object of this tag has; 0 for an unknown one. */
  function SpduSize(tag: Byte): nat {
    if tag == S_OPEN_REQUEST then 6 else if tag == S_CREATE_RESPONSE then 9
    else if tag == S_CLOSE_REQUEST || tag == S_NUMBER then 4 else if tag == S_CLOSE_RESPONSE then 5 else 0
  }

  /** The bytes of a session object that are looked at lie in the buffer. */
  predicate SpduHeld(buff: seq<Byte>, at: nat) {
    at < |buff| && LengthHeld(buff, at + 1) && at + SpduSize(buff[at]) <= |buff|
  }

  /** The session object; what a tag does not carry keeps its old value. */
  function SpduAt(was: SpduContent, buff: seq<Byte>, at: nat): SpduContent
    requires SpduHeld(buff, at)
  {
    var s := was.(tag := buff[at], len := LengthAt(buff, at + 1));
    if buff[at] == S_OPEN_REQUEST then s.(resId := Number(buff, at + 2, 4))
    else if buff[at] == S_CREATE_RESPONSE then s.(resId := Number(buff, at + 3, 4), session := Number(buff, at + 7, 2))
    else if buff[at] == S_CLOSE_REQUEST || buff[at] == S_NUMBER then s.(session := Number(buff, at + 2, 2))
    else if buff[at] == S_CLOSE_RESPONSE then s.(session := Number(buff, at + 3, 2))
    else s
  }

  /** The places of resource and session in each kind of session object, byte by byte: opening
      carries a resource, creating a resource and a session, the others a session. */
  lemma SessionObjects(was: SpduContent, buff: seq<Byte>, at: nat)
    requires SpduHeld(buff, at)
    ensures SpduAt(was, buff, at).tag == buff[at] && SpduAt(was, buff, at).len == LengthAt(buff, at + 1)
    ensures buff[at] == 0x91 ==>
      && SpduSize(buff[at]) == 6 && SpduAt(was, buff, at).session == was.session
      && SpduAt(was, buff, at).resId == 0x100_0000 * (buff[at + 2] as int) + 0x1_0000 * (buff[at + 3] as int) +
        0x100 * (buff[at + 4] as int) + buff[at + 5]
    ensures buff[at] == 0x94 ==>
      && SpduSize(buff[at]) == 9
      && SpduAt(was, buff, at).resId == 0x100_0000 * (buff[at + 3] as int) + 0x1_0000 * (buff[at + 4] as int) +
        0x100 * (buff[at + 5] as int) + buff[at + 6]
      && SpduAt(was, buff, at).session == 256 * (buff[at + 7] as int) + buff[at + 8]
    ensures buff[at] in {0x90, 0x95} ==>
      && SpduSize(buff[at]) == 4 && SpduAt(was, buff, at).resId == was.resId
      && SpduAt(was, buff, at).session == 256 * (buff[at + 2] as int) + buff[at + 3]
    ensures buff[at] == 0x96 ==>
      && SpduSize(buff[at]) == 5 && SpduAt(was, buff, at).resId == was.resId
      && SpduAt(was, buff, at).session == 256 * (buff[at + 3] as int) + buff[at + 4]
    ensures buff[at] !in {0x90, 0x91, 0x94, 0x95, 0x96} ==>
      SpduSize(buff[at]) == 0 && SpduAt(was, buff, at).resId == was.resId &&
      SpduAt(was, buff, at).session == was.session
  {
    hide Number, LengthAt;
    if buff[at] == 0x91 {
      FourBytes(buff, at + 2);
    } else if buff[at] == 0x94 {
      FourBytes(buff, at + 3);
      TwoBytes(buff, at + 7);
    } else if buff[at] == 0x95 || buff[at] == 0x90 {
      TwoBytes(buff, at + 2);
    } else if buff[at] == 0x96 {
      TwoBytes(buff, at + 3);
    }
  }

  /** Tag and length field of an application object lie in the buffer. */
  predicate ApduHeadHeld(buff: seq<Byte>, at: nat) {
    at + 4 <= |buff| && LengthHeld(buff, at + 3)
  }

  function ApduAt(buff: seq<Byte>, at: nat): ApduContent
    requires ApduHeadHeld(buff, at)
  {
    ApduContent(Number(buff, at, 3), LengthAt(buff, at + 3))
  }

  function ApduHead(buff: seq<Byte>, at: nat): nat
    requires ApduHeadHeld(buff, at)
  {
    4 + ExtraBytes(buff[at + 3])
  }

  /** The content lies in the buffer and fits the place it is copied to. */
  predicate ApduFits(buff: seq<Byte>, at: nat) {
    && ApduHeadHeld(buff, at)
    && at + ApduHead(buff, at) + ApduAt(buff, at).len <= |buff| && ApduAt(buff, at).len <= APDU_BUFFER
  }

  function ApduData(buff: seq<Byte>, at: nat): seq<Byte>
    requires ApduFits(buff, at)
  {
    buff[at + ApduHead(buff, at)..at + ApduHead(buff, at) + ApduAt(buff, at).len]
  }

  /** Where the session object of a data TPDU starts. */
  function SpduPlace(buff: seq<Byte>): nat
    requires |buff| >= 4
  {
    5 + ExtraBytes(buff[3])
  }

  predicate DataTag(tag: Byte) {
    tag == T_DATA_LAST || tag == T_DATA_MORE
  }

  /** What follows a session number: an application object or one more session object. */
  predicate InnerHeld(buff: seq<Byte>, at: nat) {
    at < |buff| && if buff[at] == APDU_FIRST then ApduFits(buff, at) else SpduHeld(buff, at)
  }

  /** Every byte that is looked at lies in the buffer. */
  predicate Readable(buff: seq<Byte>, len: nat) {
    len > 0 ==>
      && |buff| >= 4 && len <= |buff| && LengthHeld(buff, 3)
      && (DataTag(buff[2]) && LengthAt(buff, 3) != 0 ==>
        var at := SpduPlace(buff);
        SpduHeld(buff, at) && (buff[at] == S_NUMBER && len != at + 4 ==> InnerHeld(buff, at + 4)))
  }

  // ---- The parser ---------------------------------------------------------------------------------

  /** What has been parsed so far. */
  class XpduContent {
    var tPduTag: Byte
    var tPduLen: nat
    var sbValue: Byte
    var spduCnt: nat
    var apduCnt: nat
    var spdu: SpduContent
    var apdu: ApduContent
    const apduBuff: array<Byte>

    constructor ()
      ensures fresh(apduBuff) && apduBuff.Length == APDU_BUFFER && spduCnt == 0 && apduCnt == 0
    {
      tPduTag, tPduLen, sbValue, spduCnt, apduCnt := 0, 0, 0, 0, 0;
      spdu, apdu := SpduContent(0, 0, 0, 0), ApduContent(0, 0);
      apduBuff := new Byte[APDU_BUFFER](_ => 0);
    }

    method ParserSpdu(buff: seq<Byte>, at: nat) returns (ret: nat)
      requires SpduHeld(buff, at)
      modifies `spduCnt, `spdu
      ensures spdu == SpduAt(old(spdu), buff, at) && ret == SpduSize(buff[at]) && spduCnt == (old(spduCnt) + 1) % 256
    {
      spduCnt := (spduCnt + 1) % 256;
      var tag := buff[at];
      spdu := spdu.(tag := tag, len := LengthAt(buff, at + 1));
      ret := 0;
      if tag == S_OPEN_REQUEST {
        spdu, ret := spdu.(resId := Number(buff, at + 2, 4)), 6;
      } else if tag == S_CREATE_RESPONSE {
        spdu := spdu.(resId := Number(buff, at + 3, 4));
        spdu, ret := spdu.(session := Number(buff, at + 7, 2)), 9;
      } else if tag == S_CLOSE_REQUEST {
        spdu, ret := spdu.(session := Number(buff, at + 2, 2)), 4;
      } else if tag == S_CLOSE_RESPONSE {
        spdu, ret := spdu.(session := Number(buff, at + 3, 2)), 5;
      } else if tag == S_NUMBER {
        spdu, ret := spdu.(session := Number(buff, at + 2, 2)), 4;
      }
    }

    method ParserApdu(buff: seq<Byte>, at: nat) returns (ret: nat)
      requires ApduFits(buff, at) && apduBuff.Length == APDU_BUFFER
      modifies `apduCnt, `apdu, apduBuff
      ensures apdu == ApduAt(buff, at) && apduCnt == (old(apduCnt) + 1) % 256
      ensures ret == ApduHead(buff, at) + apdu.len && apduBuff[..apdu.len] == ApduData(buff, at)
    {
      apduCnt := (apduCnt + 1) % 256;
      apdu := ApduContent(Number(buff, at, 3), LengthAt(buff, at + 3));
      var headLen: nat := 4 + ExtraBytes(buff[at + 3]);
      ret := apdu.len + headLen;
      Append(buff[at + headLen..at + headLen + apdu.len], apduBuff, 0);
    }

    /** Parses one received TPDU. What is left of the length is an unsigned number, so the
        object behind a session number is looked at unless exactly nothing is left. */
    method ParserXpdu(buff: seq<Byte>, len: nat) returns (ret: nat)
      requires Readable(buff, len) && apduBuff.Length == APDU_BUFFER
      modifies this, apduBuff
      ensures len == 0 ==> ret == 0xFFFF_FFFF
      ensures len > 0 ==> tPduTag == buff[2] && tPduLen == LengthAt(buff, 3)
      ensures len > 0 && LengthAt(buff, 3) == 0 ==> ret == 0xFFFF_FFFF
      ensures len > 0 && LengthAt(buff, 3) != 0 ==> sbValue == buff[len - 1]
      ensures len > 0 && LengthAt(buff, 3) != 0 && buff[2] !in {0xA0, 0xA1} ==> ret == 0
      ensures len == 0 || LengthAt(buff, 3) == 0 || buff[2] !in {0xA0, 0xA1} ==>
        spdu == old(spdu) && apdu == old(apdu) && apduBuff[..] == old(apduBuff[..])
      ensures len > 0 && LengthAt(buff, 3) != 0 && buff[2] in {0xA0, 0xA1} ==>
        var at := if buff[3] >= 0x80 then 5 + buff[3] - 0x80 else 5;
        if buff[at] == 0x90 && len != at + 4 && buff[at + 4] == 0x9F then
          && spdu == SpduAt(old(spdu), buff, at) && apdu == ApduAt(buff, at + 4)
          && apduBuff[..apdu.len] == ApduData(buff, at + 4) && ret == 4 + ApduHead(buff, at + 4) + apdu.len
        else if buff[at] == 0x90 && len != at + 4 then
          spdu == SpduAt(SpduAt(old(spdu), buff, at), buff, at + 4) && ret == 4 + SpduSize(buff[at + 4])
        else
          spdu == SpduAt(old(spdu), buff, at) && ret == SpduSize(buff[at])
    {
      if len == 0 {
        return FAILED;
      }
      tPduTag, tPduLen := buff[2], LengthAt(buff, 3);
      if tPduLen == 0 {
        return FAILED;
      }
      sbValue := buff[len - 1];
      ret := 0;
      if DataTag(tPduTag) {
        var offset := ExtraBytes(buff[3]);
        ret := ParserSpdu(buff, 5 + offset);
        if spdu.tag == S_NUMBER && len != 5 + ret + offset {
          var more;
          if buff[5 + offset + ret] != APDU_FIRST {
            more := ParserSpdu(buff, 5 + offset + ret);
          } else {
            more := ParserApdu(buff, 5 + offset + ret);
          }
          ret := ret + more;
        }
      }
    }
  }

  // ---- What was sent is what is parsed ---------------------------------------------------------------

  /** A length field is read back exactly below 65536; longer ones read as 0. */
  lemma LengthReadBack(buff: seq<Byte>, at: nat, n: nat)
    requires n < 0x8000_0000 && Has(buff, at, LengthField(n))
    ensures LengthHeld(buff, at)
    ensures LengthAt(buff, at) == n <==> n < 65536
    ensures |LengthField(n)| == 1 + ExtraBytes(buff[at])
  {
    var s := LengthField(n);
    HasByte(buff, at, s, 0);
    if n >= 128 {
      HasByte(buff, at, s, 1);
    }
    if n >= 256 {
      HasByte(buff, at, s, 2);
      assert Number(buff, at + 1, 0) == 0 && Number(buff, at + 1, 1) == buff[at + 1];
    }
  }

  lemma SessionReadBack(was: SpduContent, buff: seq<Byte>, at: nat, session: nat, data: seq<Byte>)
    requires session < 0x10000 && Has(buff, at, Spdu(session, data))
    ensures SpduHeld(buff, at)
    ensures var s := SpduAt(was, buff, at); s.tag == S_NUMBER && s.session == session && s.len == 2
    ensures Has(buff, at + 4, data)
  {
    var head: seq<Byte> := [S_NUMBER, 0x02, session / 256, session % 256];
    HasParts(buff, at, head, data);
    HasByte(buff, at, head, 0);
    HasByte(buff, at, head, 1);
    HasByte(buff, at, head, 2);
    HasByte(buff, at, head, 3);
    assert Number(buff, at + 2, 0) == 0 && Number(buff, at + 2, 1) == buff[at + 2];
  }

  lemma TagParts(tag: nat)
    ensures (tag / 65536 * 256 + tag / 256 % 256) * 256 + tag % 256 == tag
  {
    assert tag / 65536 == tag / 256 / 256;
  }

  /** The three bytes of a tag. */
  lemma TagReadBack(buff: seq<Byte>, at: nat, tag: nat)
    requires tag < 0x100_0000 && Has(buff, at, [tag / 65536, tag / 256 % 256, tag % 256])
    ensures at + 3 <= |buff| && Number(buff, at, 3) == tag && buff[at] == tag / 65536
  {
    var lead: seq<Byte> := [tag / 65536, tag / 256 % 256, tag % 256];
    HasByte(buff, at, lead, 0);
    HasByte(buff, at, lead, 1);
    HasByte(buff, at, lead, 2);
    TagParts(tag);
    ThreeBytes(buff, at, lead[0], lead[1], lead[2]);
  }

  lemma ThreeBytes(buff: seq<Byte>, at: nat, a: int, b: int, c: int)
    requires at + 3 <= |buff| && buff[at] == a && buff[at + 1] == b && buff[at + 2] == c
    ensures Number(buff, at, 3) == (a * 256 + b) * 256 + c
  {
    assert Number(buff, at, 0) == 0 && Number(buff, at, 1) == a && Number(buff, at, 2) == a * 256 + b;
  }

  lemma ApduReadBack(buff: seq<Byte>, at: nat, tag: nat, content: seq<Byte>)
    requires tag < 0x100_0000 && |content| <= APDU_BUFFER && Has(buff, at, Apdu(tag, content))
    ensures ApduFits(buff, at) && ApduAt(buff, at) == ApduContent(tag, |content|) && ApduData(buff, at) == content
    ensures ApduHead(buff, at) + |content| == |Apdu(tag, content)|
    ensures buff[at] == tag / 65536
  {
    hide Number, LengthAt, LengthHeld;
    var lead: seq<Byte> := [tag / 65536, tag / 256 % 256, tag % 256];
    var field := LengthField(|content|);
    HasParts(buff, at, lead + field, content);
    HasParts(buff, at, lead, field);
    TagReadBack(buff, at, tag);
    LengthReadBack(buff, at + 3, |content|);
  }

  /** The head of a frame: tag, length and where the data starts. */
  lemma FrameReadBack(buff: seq<Byte>, id: Byte, data: seq<Byte>)
    requires |data| < 65535 && Has(buff, 0, Tpdu(id, T_DATA_LAST, data))
    ensures |buff| >= 4 && buff[2] == T_DATA_LAST && LengthHeld(buff, 3) && LengthAt(buff, 3) == |data| + 1
    ensures Has(buff, SpduPlace(buff), data) && SpduPlace(buff) + |data| == |Tpdu(id, T_DATA_LAST, data)| <= |buff|
  {
    hide LengthAt, LengthHeld;
    var front: seq<Byte> := [id, 0x00, T_DATA_LAST];
    var field := LengthField(|data| + 1);
    HasParts(buff, 0, front + field + [id], data);
    HasParts(buff, 0, front + field, [id]);
    HasParts(buff, 0, front, field);
    HasByte(buff, 0, front, 2);
    LengthReadBack(buff, 3, |data| + 1);
  }

  /** The TPDU of an APDU of up to 256 bytes, taken apart. */
  lemma ParsedAsSent(was: SpduContent, buff: seq<Byte>, id: Byte, session: nat, tag: nat, content: seq<Byte>)
    requires session < 0x10000 && tag / 65536 == 0x9F && |content| <= APDU_BUFFER
    requires var spdu := Spdu(session, Apdu(tag, content)); Has(buff, 0, Tpdu(id, T_DATA_LAST, spdu))
    ensures var spdu := Spdu(session, Apdu(tag, content));
      var len := |Tpdu(id, T_DATA_LAST, spdu)|;
      && Readable(buff, len) && buff[2] == T_DATA_LAST && LengthAt(buff, 3) == |spdu| + 1
      && var at := SpduPlace(buff);
      && buff[at] == S_NUMBER && len > at + 4 && buff[at + 4] == APDU_FIRST
      && SpduAt(was, buff, at).session == session && ApduAt(buff, at + 4) == ApduContent(tag, |content|)
      && ApduData(buff, at + 4) == content && 4 + ApduHead(buff, at + 4) + |content| == |spdu|
  {
    hide LengthAt, LengthHeld, Number, Has;
    var apdu := Apdu(tag, content);
    FrameReadBack(buff, id, Spdu(session, apdu));
    var at := SpduPlace(buff);
    SessionReadBack(was, buff, at, session, apdu);
    ApduReadBack(buff, at + 4, tag, content);
  }

  lemma SmallFrame(id: Byte, session: nat, tag: nat, content: seq<Byte>)
    requires session < 0x10000 && tag < 0x100_0000 && |content| <= APDU_BUFFER
    ensures var spdu := Spdu(session, Apdu(tag, content));
      Fragments(spdu) == [Fragment(T_DATA_LAST, spdu)] && |Tpdu(id, T_DATA_LAST, spdu)| <= TPDU_SIZE
  {
  }

  /** An APDU of up to 256 bytes goes out in one frame, which fits its buffer; parsing what was
      framed gives session, tag, length and content back, in every form of the length fields. */
  method SendAndParse(x: XpduContent, buf: array<Byte>, id: Byte, session: nat, tag: nat, content: seq<Byte>)
    returns (sent: seq<Fragment>, ret: nat)
    requires session < 0x10000 && tag / 65536 == 0x9F && |content| <= APDU_BUFFER
    requires buf.Length == TPDU_SIZE && x.apduBuff.Length == APDU_BUFFER && buf != x.apduBuff
    modifies x, x.apduBuff, buf
    ensures |sent| == 1 && sent[0].tag == T_DATA_LAST
    ensures x.tPduTag == T_DATA_LAST && x.tPduLen == |sent[0].data| + 1 && ret == |sent[0].data|
    ensures x.spdu.session == session && x.apdu == ApduContent(tag, |content|) && x.apduBuff[..|content|] == content
  {
    hide Readable, SpduAt, ApduAt, ApduHead, ApduData, ApduFits, LengthAt, Tpdu;
    ghost var spdu := Spdu(session, Apdu(tag, content));
    sent := ApduSend(session, tag, content);
    SmallFrame(id, session, tag, content);
    var size := TpduSend(id, sent[0].tag, sent[0].data, buf);
    ParsedAsSent(x.spdu, buf[..size], id, session, tag, content);
    ret := x.ParserXpdu(buf[..size], size);
  }
}
