/** Building responses: atoms in buffers, with lengths patched in afterwards
    (src/wu_snmp_lib.c:301-419, 475-507; section 4.1 of RFC 1157, section 8.1.3 of ITU-T X.690). */
module Ber {
  import opened Bytes

  const BUFFER := 2048

  const TAG_INT: Byte := 0x02
  const TAG_STRING: Byte := 0x04
  const TAG_VAR: Byte := 0x30
  const TAG_GET_RESPONSE: Byte := 0xa2

  // ---- The encoding ------------------------------------------------------------------------

  datatype Tree = Leaf(tag: Byte, data: seq<Byte>) | Branch(tag: Byte, parts: seq<Tree>)

  /** Short form below 0x80, else one or two length bytes announced by 0x81 or 0x82. */
  function LengthBytes(n: nat): (s: seq<Byte>)
    ensures |s| == if n > 0xFF then 3 else if n >= 0x80 then 2 else 1
  {
    if n > 0xFF then [0x82, (n / 256) % 256, n % 256] else if n >= 0x80 then [0x81, n] else [n]
  }

  /** A number by its bytes, most significant first. */
  function Number(s: seq<Byte>): nat {
    if s == [] then 0 else 256 * Number(s[..|s| - 1]) + s[|s| - 1]
  }

  lemma NumberOf(s: seq<Byte>)
    ensures |s| == 1 ==> Number(s) == s[0] as int
    ensures |s| == 2 ==> Number(s) == 256 * (s[0] as int) + s[1]
  {
    if |s| == 1 || |s| == 2 {
      assert s[..1] == [s[0]] && s[..1][..0] == [];
      assert Number(s[..1]) == s[0] as int;
    }
  }

  /** The definite forms of section 8.1.3 of ITU-T X.690: below 0x80 the byte is the length itself;
      above, it tells how many bytes follow for the length. */
  predicate SaysLength(s: seq<Byte>, n: nat) {
    s != [] && s[0] != 0x80 &&
    if s[0] < 0x80 then |s| == 1 && n == s[0] else |s| - 1 == s[0] - 0x80 && n == Number(s[1..])
  }

  /** The length bytes are a definite form of the length, and the shortest. */
  lemma LengthSays(n: nat, s: seq<Byte>)
    requires n < 0x10000
    ensures SaysLength(LengthBytes(n), n)
    ensures SaysLength(s, n) ==> |LengthBytes(n)| <= |s|
  {
    NumberOf(LengthBytes(n)[1..]);
    if SaysLength(s, n) && |s| <= 2 {
      NumberOf(s[1..]);
      assert Number([]) == 0;
    }
  }

  function Frame(tag: Byte, body: seq<Byte>): (s: seq<Byte>)
    ensures |s| == 1 + |LengthBytes(|body|)| + |body|
  {
    [tag] + LengthBytes(|body|) + body
  }

  function Encode(t: Tree): seq<Byte> {
    match t
    case Leaf(tag, data) => Frame(tag, data)
    case Branch(tag, parts) => Frame(tag, EncodeAll(parts))
  }

  function EncodeAll(parts: seq<Tree>): seq<Byte> {
    if parts == [] then [] else EncodeAll(parts[..|parts| - 1]) + Encode(parts[|parts| - 1])
  }

  lemma EncodeSnoc(parts: seq<Tree>, t: Tree)
    ensures EncodeAll(parts + [t]) == EncodeAll(parts) + Encode(t)
  {
    assert (parts + [t])[..|parts|] == parts;
  }

  lemma {:induction false} EncodePrefix(parts: seq<Tree>, i: nat)
    requires i <= |parts|
    ensures |EncodeAll(parts[..i])| <= |EncodeAll(parts)|
    decreases |parts| - i
  {
    if i < |parts| {
      EncodePrefix(parts, i + 1);
      assert parts[..i + 1][..i] == parts[..i];
    } else {
      assert parts[..i] == parts;
    }
  }

  // ---- Buffers ------------------------------------------------------------------------------

  /** A value to be added: an atom that was read, or one set up from bytes. */
  datatype Atom = Atom(tag: Byte, data: seq<Byte>)

  /** Moves the n bytes at 2 up by `shift`, last byte first. */
  method MoveUp(buf: array<Byte>, n: nat, shift: nat)
    requires 2 + n + shift <= buf.Length
    modifies buf
    ensures buf[..] == Patch(old(buf[..]), 2 + shift, old(buf[2..2 + n]))
  {
    ghost var was := buf[..];
    var i: nat := n;
    while i > 0
      invariant 0 <= i <= n
      invariant forall k :: 0 <= k < buf.Length && !(2 + shift + i <= k < 2 + shift + n) ==> buf[k] == was[k]
      invariant forall k :: 2 + shift + i <= k < 2 + shift + n ==> buf[k] == was[k - shift]
    {
      i := i - 1;
      buf[2 + shift + i] := buf[2 + i];
    }
    ghost var r := Patch(was, 2 + shift, was[2..2 + n]);
    forall k | 0 <= k < buf.Length ensures buf[k] == r[k] {
    }
  }

  /** An atom made of others. Its body is collected behind two bytes kept for tag and length. */
  class ComAtom {
    var tag: Byte
    var len: nat
    const buf: array<Byte>
    var parent: ComAtom?
    var son: ComAtom?

    /** The body collected so far. */
    ghost predicate Holds(body: seq<Byte>)
      reads this, buf
    {
      && buf.Length == BUFFER && len == |body| && 2 + len <= BUFFER
      && buf[0] == tag && buf[2..2 + len] == body
    }

    /** Complete: tag, length and body stand at the front. */
    ghost predicate Done(body: seq<Byte>)
      reads this, buf
    {
      var s := Frame(tag, body);
      && buf.Length == BUFFER && 2 + len == |s| && |s| <= BUFFER && buf[..|s|] == s
    }

    constructor ()
      ensures fresh(buf) && buf.Length == BUFFER && parent == null && son == null
    {
      tag, len, parent, son := 0, 0, null, null;
      buf := new Byte[BUFFER](_ => 0);
    }

    method Init(tag: Byte)
      requires buf.Length == BUFFER
      modifies this, buf
      ensures this.tag == tag && parent == null && son == null && Holds([])
    {
      this.tag, len, parent, son := tag, 0, null, null;
      buf[0] := tag;
    }

    /** Appends a simple atom. */
    method AddAtom(a: Atom, ghost body: seq<Byte>)
      requires Holds(body) && 2 + |body| + |Frame(a.tag, a.data)| <= BUFFER
      modifies `len, buf
      ensures Holds(body + Frame(a.tag, a.data))
    {
      var n := |a.data|;
      var head := [a.tag] + LengthBytes(n);
      assert head + a.data == Frame(a.tag, a.data);
      ghost var was := buf[..];
      CopyInto(head, buf, 2 + len);
      CopyInto(a.data, buf, 2 + len + |head|);
      PatchAppend(was, 2 + len, head, a.data);
      len := len + |head| + n;
      PatchBehind(was, 2, body, Frame(a.tag, a.data));
    }

    /** Puts the length in, moving the body up when it needs more than one byte. */
    method FixData(ghost body: seq<Byte>)
      requires Holds(body) && |Frame(tag, body)| <= BUFFER
      modifies `len, buf
      ensures Done(body)
    {
      if len > 0xFF {
        PutLength([0x82, len / 256, len % 256], body);
      } else if len >= 0x80 {
        PutLength([0x81, len], body);
      } else {
        PutLength([len], body);
      }
    }

    method PutLength(length: seq<Byte>, ghost body: seq<Byte>)
      requires Holds(body) && length == LengthBytes(|body|) && |Frame(tag, body)| <= BUFFER
      modifies `len, buf
      ensures Done(body)
    {
      ghost var was := buf[..];
      MoveUp(buf, len, |length| - 1);
      CopyInto(length, buf, 1);
      LengthInFront(was, body, length);
      len := len + |length| - 1;
    }

    /** Completes a son and appends it. */
    method Merge(son: ComAtom, ghost body: seq<Byte>, ghost sonBody: seq<Byte>)
      requires son != this && son.buf != buf
      requires Holds(body) && son.Holds(sonBody) && 2 + |body| + |Frame(son.tag, sonBody)| <= BUFFER
      modifies `len, buf, son`len, son.buf
      ensures Holds(body + Frame(son.tag, sonBody))
    {
      son.FixData(sonBody);
      ghost var was := buf[..];
      ghost var s := Frame(son.tag, sonBody);
      CopyInto(son.buf[..2 + son.len], buf, 2 + len);
      len := len + 2 + son.len;
      PatchBehind(was, 2, body, s);
    }

    /** Starts a son. */
    method AddComAtom(son: ComAtom, tag: Byte)
      requires son != this && son.buf != buf && son.buf.Length == BUFFER
      modifies `son, son, son.buf
      ensures this.son == son && son.parent == this && son.son == null && son.tag == tag && son.Holds([])
    {
      son.Init(tag);
      this.son := son;
      son.parent := this;
    }

    /** The body once an open son has been taken in. */
    ghost function Full(body: seq<Byte>, sonBody: seq<Byte>): seq<Byte>
      reads this, son
    {
      if son == null then body else body + Frame(son.tag, sonBody)
    }

    ghost predicate Apart(other: ComAtom?) {
      other != null ==> other != this && other.buf != buf
    }

    /** Closes the atom: an open son is taken in, then it goes into its parent or, without
        one, gets its length. */
    method End(ghost body: seq<Byte>, ghost sonBody: seq<Byte>, ghost outer: seq<Byte>)
      requires Holds(body) && Apart(son) && Apart(parent)
      requires son != null && parent != null ==> son.Apart(parent)
      requires son != null ==> son.Holds(sonBody) && 2 + |Full(body, sonBody)| <= BUFFER
      requires |Frame(tag, Full(body, sonBody))| <= BUFFER
      requires parent != null ==> parent.Holds(outer) && 2 + |outer| + |Frame(tag, Full(body, sonBody))| <= BUFFER
      modifies `len, `son, `parent, buf
      modifies if son != null then {son, son.buf} else {}
      modifies if parent != null then {parent, parent.buf} else {}
      ensures parent == null && son == null
      ensures old(parent) == null ==> Done(old(Full(body, sonBody)))
      ensures old(parent) != null ==>
        old(parent).Holds(outer + Frame(tag, old(Full(body, sonBody)))) && old(parent).son == null
      ensures old(parent) != null ==> old(parent).tag == old(parent.tag) && old(parent).parent == old(parent.parent)
    {
      ghost var full := Full(body, sonBody);
      if son != null {
        Merge(son, body, sonBody);
        son := null;
      }
      if parent != null {
        parent.Merge(this, outer, full);
        parent.son := null;
        parent := null;
      } else {
        FixData(full);
      }
    }
  }

  lemma LengthInFront(s: seq<Byte>, body: seq<Byte>, length: seq<Byte>)
    requires 1 + |length| + |body| <= |s|
    ensures Patch(Patch(s, 1 + |length|, body), 1, length)[..1 + |length| + |body|] == [s[0]] + length + body
  {
  }

  /** Bytes put right behind a stretch continue it. */
  lemma PatchBehind(s: seq<Byte>, at: nat, a: seq<Byte>, b: seq<Byte>)
    requires at + |a| + |b| <= |s| && s[at..at + |a|] == a
    ensures Patch(s, at + |a|, b)[at..at + |a| + |b|] == a + b
    ensures Patch(s, at + |a|, b)[..at] == s[..at]
  {
  }
}
