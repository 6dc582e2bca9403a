/** Bytes, and copying them into buffers. */
module Bytes {
  type Byte = x: int | 0 <= x < 256

  function Fill(n: nat, b: Byte): (s: seq<Byte>)
    ensures |s| == n && forall i :: 0 <= i < n ==> s[i] == b
  {
    seq(n, _ => b)
  }

  function Min(a: nat, b: nat): nat {
    if a <= b then a else b
  }

  function Patch(s: seq<Byte>, at: nat, src: seq<Byte>): (r: seq<Byte>)
    requires at + |src| <= |s|
    ensures |r| == |s|
  {
    s[..at] + src + s[at + |src|..]
  }

  lemma PatchAppend(s: seq<Byte>, at: nat, a: seq<Byte>, b: seq<Byte>)
    requires at + |a| + |b| <= |s|
    ensures Patch(Patch(s, at, a), at + |a|, b) == Patch(s, at, a + b)
  {
  }

  method CopyInto(src: seq<Byte>, buf: array<Byte>, at: nat)
    requires at + |src| <= buf.Length
    modifies buf
    ensures buf[..] == Patch(old(buf[..]), at, src)
  {
    ghost var before := buf[..];
    for i := 0 to |src|
      invariant forall k :: 0 <= k < buf.Length ==> buf[k] == if at <= k < at + i then src[k - at] else before[k]
    {
      buf[at + i] := src[i];
    }
    assert buf[..] == Patch(before, at, src);
  }

  /** The same, for what the buffer then holds from its front. */
  method Append(src: seq<Byte>, buf: array<Byte>, at: nat)
    requires at + |src| <= buf.Length
    modifies buf
    ensures buf[..at + |src|] == old(buf[..at]) + src
  {
    CopyInto(src, buf, at);
  }

  /** The bytes of s stand at a place of the buffer. */
  predicate Has(buff: seq<Byte>, at: nat, s: seq<Byte>) {
    at + |s| <= |buff| && buff[at..at + |s|] == s
  }

  lemma HasParts(buff: seq<Byte>, at: nat, a: seq<Byte>, b: seq<Byte>)
    requires Has(buff, at, a + b)
    ensures Has(buff, at, a) && Has(buff, at + |a|, b)
  {
    assert buff[at..at + |a| + |b|][..|a|] == a;
    assert buff[at..at + |a| + |b|][|a|..] == b;
  }

  lemma HasByte(buff: seq<Byte>, at: nat, s: seq<Byte>, i: nat)
    requires Has(buff, at, s) && i < |s|
    ensures buff[at + i] == s[i]
  {
    assert buff[at..at + |s|][i] == s[i];
  }
}
