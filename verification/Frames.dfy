/** Ethernet frames that carry IPv4, seen as byte strings with named fields. */
module Frames {
  import opened Words

  type Frame = seq<byte>
  type Mac = m: seq<byte> | |m| == 6 witness [0, 0, 0, 0, 0, 0]

  const ETH_DEST: nat := 0
  const ETH_SOURCE: nat := 6
  const ETH_LEN: nat := 14
  const IP_END: nat := 34
  const IP_PROTOCOL: nat := 23
  const IP_CHECK: nat := 24
  const IP_SADDR: nat := 26
  const IP_DADDR: nat := 30
  const IPPROTO_TCP: byte := 6

  /** Overwrites the bytes from `off` on with `bs`. */
  function Put(f: Frame, off: nat, bs: seq<byte>): (r: Frame)
    requires off + |bs| <= |f|
    ensures |r| == |f|
    ensures forall i :: 0 <= i < |f| ==> r[i] == if off <= i < off + |bs| then bs[i - off] else f[i]
  {
    f[..off] + bs + f[off + |bs|..]
  }

  /** `f` holds the Ethernet header and the fixed part of an IP header. */
  predicate HasIp(f: Frame) {
    IP_END <= |f|
  }

  function Version(f: Frame): nat
    requires HasIp(f)
  {
    f[ETH_LEN] / 16
  }

  function Ihl(f: Frame): (n: nat)
    requires HasIp(f)
    ensures n < 16
  {
    f[ETH_LEN] % 16
  }

  function Saddr(f: Frame): u32
    requires HasIp(f)
  {
    Be32(f, IP_SADDR)
  }

  function Daddr(f: Frame): u32
    requires HasIp(f)
  {
    Be32(f, IP_DADDR)
  }

  /** Where the fields of the header lie (section 3.1 of RFC 791), behind 14 bytes of Ethernet. */
  lemma FieldBytes(f: Frame)
    ensures HasIp(f) <==> |f| >= 34
    ensures HasIp(f) ==>
              Version(f) == f[14] / 16 && Ihl(f) == f[14] % 16
              && Saddr(f) == Quad(f[26], f[27], f[28], f[29]) && Daddr(f) == Quad(f[30], f[31], f[32], f[33])
  {
  }

  /** The header length field is legal and the whole header lies in the frame. */
  predicate HeaderInFrame(f: Frame) {
    HasIp(f) && Ihl(f) >= 5 && ETH_LEN + 4 * Ihl(f) <= |f|
  }

  /** `g` differs from `f` at most in the MAC addresses, the header checksum and the two IP addresses. */
  predicate SameButHeaders(f: Frame, g: Frame)
    requires HasIp(f)
  {
    |g| == |f| && forall i :: 12 <= i < |f| && !(24 <= i < 34) ==> g[i] == f[i]
  }

  /** Copies bytes into a buffer (`__builtin_memcpy`). */
  method MemCpy(dst: array<byte>, off: nat, src: seq<byte>)
    requires off + |src| <= dst.Length
    modifies dst
    ensures dst[..] == Put(old(dst[..]), off, src)
  {
    for k := 0 to |src|
      invariant forall i :: 0 <= i < dst.Length ==>
        dst[i] == if off <= i < off + k then src[i - off] else old(dst[i])
    {
      dst[off + k] := src[k];
    }
  }

  // ---- Slices ----

  lemma SliceDrop(room: seq<byte>, d: nat, i: nat, j: nat)
    requires i <= j && d + j <= |room|
    ensures room[d..][i..j] == room[d + i..d + j]
  {
  }

  lemma SliceOf(r: seq<byte>, a: nat, b: nat, i: nat, j: nat)
    requires a <= b <= |r| && i <= j && a + j <= b
    ensures r[a..b][i..j] == r[a + i..a + j]
  {
    var s := r[a..b];
    assert forall k :: 0 <= k < j - i ==> s[i..j][k] == s[i + k] == r[a + i + k];
  }

  lemma PutDrop(room: seq<byte>, p: nat, off: nat, bs: seq<byte>)
    requires p + off + |bs| <= |room|
    ensures Put(room, p + off, bs)[p..] == Put(room[p..], off, bs)
  {
  }

  /** Two neighbouring copies, in either order, are one. */
  lemma PutJoin(r: seq<byte>, off: nat, a: seq<byte>, b: seq<byte>)
    requires off + |a| + |b| <= |r|
    ensures Put(Put(r, off + |a|, b), off, a) == Put(r, off, a + b)
    ensures Put(Put(r, off, a), off + |a|, b) == Put(r, off, a + b)
  {
    hide Put;
  }

  /** Copies to different places can be exchanged. */
  lemma PutSwap(r: seq<byte>, i: nat, a: seq<byte>, j: nat, b: seq<byte>)
    requires i + |a| <= j && j + |b| <= |r|
    ensures Put(Put(r, i, a), j, b) == Put(Put(r, j, b), i, a)
  {
    hide Put;
  }

  lemma PutSame(r: seq<byte>, off: nat, bs: seq<byte>)
    requires off + |bs| <= |r| && r[off..off + |bs|] == bs
    ensures Put(r, off, bs) == r
  {
    hide Put;
  }

  lemma PutOne(r: seq<byte>, off: nat, x: byte)
    requires off < |r|
    ensures Put(r, off, [x]) == r[off := x]
  {
    hide Put;
  }
}
