/** Sending to a CI module: APDU in SPDU in TPDUs (src/libci/send_xpdu.c:16-135, 218-298;
    section 7 of EN 50221). */
module CiSend {
  import opened Bytes
  import Ber

  const TPDU_SIZE := 2048
  const TPDU_DATA := TPDU_SIZE - 4
  const T_DATA_LAST: Byte := 0xA0
  const T_DATA_MORE: Byte := 0xA1
  const S_NUMBER: Byte := 0x90

  // ---- Length fields -------------------------------------------------------------------------

  /** One byte below 128, else a count of bytes and the length in so many bytes. */
  function LengthField(n: nat): (s: seq<Byte>)
    requires n < 0x8000_0000
    ensures |s| == if n < 128 then 1 else if n < 256 then 2 else if n < 65536 then 3 else if n < 16777216 then 4 else 5
  {
    if n < 128 then [n]
    else if n < 256 then [0x81, n]
    else if n < 65536 then [0x82, n / 256, n % 256]
    else if n < 16777216 then [0x83, n / 65536, n / 256 % 256, n % 256]
    else [0x84, n / 16777216, n / 65536 % 256, n / 256 % 256, n % 256]
  }

  lemma ThreeBytes(a: Byte, b: Byte, c: Byte)
    ensures Ber.Number([a, b, c]) == (256 * (a as int) + b) * 256 + c
  {
    Ber.NumberOf([a, b]);
    assert [a, b, c][..2] == [a, b];
  }

  lemma FourBytes(a: Byte, b: Byte, c: Byte, d: Byte)
    ensures Ber.Number([a, b, c, d]) == ((256 * (a as int) + b) * 256 + c) * 256 + d
  {
    ThreeBytes(a, b, c);
    assert [a, b, c, d][..3] == [a, b, c];
  }

  /** The field is a definite form of the length as in section 8.1.3 of ITU-T X.690, with its most
      significant byte not 0. */
  lemma LengthFieldSays(n: nat)
    requires n < 0x8000_0000
    ensures Ber.SaysLength(LengthField(n), n) && (|LengthField(n)| > 1 ==> LengthField(n)[1] != 0)
  {
    if n >= 65536 {
      LongFieldSays(n);
    } else {
      var s := LengthField(n);
      Ber.NumberOf(s[1..]);
    }
  }

  lemma LongFieldSays(n: nat)
    requires 65536 <= n < 0x8000_0000
    ensures Ber.SaysLength(LengthField(n), n) && LengthField(n)[1] != 0
  {
    hide Ber.Number;
    if n >= 16777216 {
      var a, b, c, d := n / 16777216, n / 65536 % 256, n / 256 % 256, n % 256;
      FourBytes(a, b, c, d);
      assert LengthField(n)[1..] == [a, b, c, d];
      assert n / 65536 == 256 * a + b && n / 256 == n / 65536 * 256 + c;
    } else {
      var a, b, c := n / 65536, n / 256 % 256, n % 256;
      ThreeBytes(a, b, c);
      assert LengthField(n)[1..] == [a, b, c];
      assert n / 256 == a * 256 + b;
    }
  }

  /** Writes a length field and returns the place behind it. */
  method SetLength(buf: array<Byte>, at: nat, n: nat) returns (p: nat)
    requires n < 0x8000_0000 && at + |LengthField(n)| <= buf.Length
    modifies buf
    ensures buf[..] == Patch(old(buf[..]), at, LengthField(n)) && p == at + |LengthField(n)|
  {
    p := at;
    if n < 128 {
      buf[p], p := n, p + 1;
    } else if n < 256 {
      buf[p], buf[p + 1], p := 0x81, n, p + 2;
    } else if n < 65536 {
      buf[p], buf[p + 1], buf[p + 2], p := 0x82, n / 256, n % 256, p + 3;
    } else if n < 16777216 {
      buf[p], buf[p + 1], buf[p + 2], buf[p + 3], p := 0x83, n / 65536, n / 256 % 256, n % 256, p + 4;
    } else {
      buf[p], buf[p + 1], buf[p + 2], buf[p + 3], buf[p + 4], p :=
        0x84, n / 16777216, n / 65536 % 256, n / 256 % 256, n % 256, p + 5;
    }
  }

  // ---- The three layers -----------------------------------------------------------------------

  /** Tag, length and content of an application object. */
  function Apdu(tag: nat, content: seq<Byte>): seq<Byte>
    requires tag < 0x100_0000 && |content| < 0x8000_0000
  {
    [tag / 65536, tag / 256 % 256, tag % 256] + LengthField(|content|) + content
  }

  /** Session number in front of the data. */
  function Spdu(session: nat, data: seq<Byte>): seq<Byte>
    requires session < 0x10000
  {
    [S_NUMBER, 0x02, session / 256, session % 256] + data
  }

  /** A data TPDU: connection, link byte, tag, length, connection again, data. */
  function Tpdu(id: Byte, tag: Byte, content: seq<Byte>): seq<Byte>
    requires |content| < 0x7FFF_FFFF
  {
    [id, 0x00, tag] + LengthField(|content| + 1) + [id] + content
  }

  /** The bytes of a whole frame: connection, link byte 0, tag, length, connection again; then
      the session, the tag of the object, its length and its content. */
  lemma FrameLayout(id: Byte, session: nat, tag: nat, content: seq<Byte>)
    requires session < 0x10000 && tag < 0x100_0000 && |content| < 0x7FFF_FFF0 - 12
    ensures var inner := LengthField(|content|);
      var outer := LengthField(|content| + |inner| + 8);
      Tpdu(id, 0xA0, Spdu(session, Apdu(tag, content))) == [id, 0x00, 0xA0] + outer + [id] +
        [0x90, 0x02, session / 256, session % 256, tag / 65536, tag / 256 % 256, tag % 256] + inner + content
  {
    var inner := LengthField(|content|);
    var lead: seq<Byte> := [tag / 65536, tag / 256 % 256, tag % 256];
    var head: seq<Byte> := [0x90, 0x02, session / 256, session % 256];
    assert head + (lead + inner + content) ==
      [0x90, 0x02, session / 256, session % 256, tag / 65536, tag / 256 % 256, tag % 256] + inner + content;
  }

  /** A TPDU as it is handed to the transport layer. */
  datatype Fragment = Fragment(tag: Byte, data: seq<Byte>)

  function Fragments(s: seq<Byte>): seq<Fragment> {
    if s == [] then []
    else if |s| > TPDU_DATA then [Fragment(T_DATA_MORE, s[..TPDU_DATA])] + Fragments(s[TPDU_DATA..])
    else [Fragment(T_DATA_LAST, s)]
  }

  /** The framing of a data TPDU. */
  method TpduSend(id: Byte, tag: Byte, content: seq<Byte>, buf: array<Byte>) returns (size: nat)
    requires tag in {T_DATA_LAST, T_DATA_MORE} && |content| < 0x7FFF_FFFF
    requires |Tpdu(id, tag, content)| <= buf.Length
    modifies buf
    ensures size == |Tpdu(id, tag, content)| && buf[..size] == Tpdu(id, tag, content)
  {
    CopyInto([id, 0x00, tag], buf, 0);
    ghost var front: seq<Byte> := [id, 0x00, tag];
    assert buf[..3] == front;
    var p := SetLength(buf, 3, |content| + 1);
    assert buf[..p] == front + LengthField(|content| + 1);
    Append([id], buf, p);
    p := p + 1;
    Append(content, buf, p);
    size := p + |content|;
  }

  /** The loop that cuts an SPDU. */
  method SpduSend(session: nat, data: seq<Byte>) returns (sent: seq<Fragment>)
    requires session < 0x10000
    ensures sent == Fragments(Spdu(session, data))
  {
    var left: seq<Byte> := [S_NUMBER, 0x02, session / 256, session % 256] + data;
    sent := [];
    while left != []
      invariant Fragments(Spdu(session, data)) == sent + Fragments(left)
      decreases |left|
    {
      if |left| > TPDU_DATA {
        sent := sent + [Fragment(T_DATA_MORE, left[..TPDU_DATA])];
        left := left[TPDU_DATA..];
      } else {
        sent := sent + [Fragment(T_DATA_LAST, left)];
        left := [];
      }
    }
  }

  method ApduSend(session: nat, tag: nat, content: seq<Byte>) returns (sent: seq<Fragment>)
    requires session < 0x10000 && tag < 0x100_0000 && |content| < 0x7FFF_FFF0
    ensures sent == Fragments(Spdu(session, Apdu(tag, content)))
  {
    var apdu := new Byte[|content| + 12](_ => 0);
    ghost var lead: seq<Byte> := [tag / 65536, tag / 256 % 256, tag % 256];
    CopyInto([tag / 65536, tag / 256 % 256, tag % 256], apdu, 0);
    assert apdu[..3] == lead;
    var p := SetLength(apdu, 3, |content|);
    assert apdu[..p] == lead + LengthField(|content|);
    Append(content, apdu, p);
    sent := SpduSend(session, apdu[..p + |content|]);
  }

  // ---- Fragments ---------------------------------------------------------------------------------

  function JoinData(fs: seq<Fragment>): seq<Byte> {
    if fs == [] then [] else fs[0].data + JoinData(fs[1..])
  }

  /** Put together, the fragments are the SPDU; only the last one is tagged as last, every
      other one is full. */
  lemma {:induction false} FragmentsJoin(s: seq<Byte>)
    ensures var fs := Fragments(s);
      && JoinData(fs) == s
      && |fs| == (|s| + 2043) / 2044
      && forall i :: 0 <= i < |fs| ==> 0 < |fs[i].data| <= 2044
    ensures var fs := Fragments(s);
      forall i :: 0 <= i < |fs| ==>
        (if i == |fs| - 1 then fs[i].tag == 0xA0 else fs[i].tag == 0xA1 && |fs[i].data| == 2044)
    decreases |s|
  {
    if |s| > TPDU_DATA {
      FragmentsJoin(s[TPDU_DATA..]);
      var rest := Fragments(s[TPDU_DATA..]);
      assert Fragments(s)[1..] == rest;
      assert s == s[..TPDU_DATA] + s[TPDU_DATA..];
      OneFragmentLess(|s|);
    } else if s != [] {
      assert Fragments(s)[1..] == [];
      assert s + [] == s;
    }
  }

  lemma OneFragmentLess(n: nat)
    requires n > TPDU_DATA
    ensures (n + TPDU_DATA - 1) / TPDU_DATA == (n - TPDU_DATA + TPDU_DATA - 1) / TPDU_DATA + 1
  {
  }

  // ---- Frames and the buffer they are built in ---------------------------------------------------------

  /** Every frame of an SPDU fits the buffer of 2048 bytes. */
  predicate FramesFit(id: Byte, s: seq<Byte>) {
    forall i :: 0 <= i < |Fragments(s)| ==>
      |Fragments(s)[i].data| < 0x7FFF_FFFF && |FrameOf(id, Fragments(s)[i])| <= TPDU_SIZE
  }

  function FrameOf(id: Byte, f: Fragment): seq<Byte>
    requires |f.data| < 0x7FFF_FFFF
  {
    Tpdu(id, f.tag, f.data)
  }

  /** A fragment may be three bytes longer than its frame has room for, so the frames of an
      SPDU fit exactly if it is a single fragment of at most 2041 bytes. */
  lemma SpduFits(id: Byte, s: seq<Byte>)
    ensures FramesFit(id, s) <==> |s| <= 2041
  {
    FragmentsJoin(s);
    var fs := Fragments(s);
    if |s| > TPDU_DATA {
      assert |FrameOf(id, fs[0])| == TPDU_SIZE + 3;
    } else if s != [] {
      assert fs == [Fragment(T_DATA_LAST, s)];
      assert |FrameOf(id, fs[0])| == 4 + |LengthField(|s| + 1)| + |s|;
    }
  }

  /** An APDU can be sent exactly if its content has at most 2031 bytes. */
  lemma ApduFitsFrames(id: Byte, session: nat, tag: nat, content: seq<Byte>)
    requires session < 0x10000 && tag < 0x100_0000 && |content| < 0x7FFF_FFF0
    ensures FramesFit(id, Spdu(session, Apdu(tag, content))) <==> |content| <= 2031
  {
    SpduFits(id, Spdu(session, Apdu(tag, content)));
  }
}
