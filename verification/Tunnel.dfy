/** The IPv6-in-UDP tunnel between nodes: encapsulation (`xdp_tun_to_remote.c`) and decapsulation
    (`xdp_remote_to_tun.c`), proved to undo each other, and what the outer headers say. */
module Tunnel {
  import opened Wrappers
  import opened Words
  import opened Frames
  import opened Checksum
  import opened Xdp

  type Ip6 = a: seq<byte> | |a| == 16 witness [0, 0, 0, 0, 0, 0, 0, 0, 0, 0, 0, 0, 0, 0, 0, 0]

  const IP6_LEN: nat := 40
  const IP6_PAYLOAD_LEN: nat := 18
  const IP6_NEXTHDR: nat := 20
  const IP6_SADDR: nat := 22
  const IP6_DADDR: nat := 38
  const UDP: nat := 54
  const UDP_DEST: nat := 56
  const UDP_SIZE: nat := 58
  const UDP_CHECK: nat := 60
  const UDP_LEN: nat := 8
  const NEWHLEN: int := 62
  const TUNNEL_PORT: u16 := 31337
  const ETH_P_IPV6: u16 := 0x86DD
  const IPPROTO_UDP: byte := 17

  /** An entry of `xdp_tunnel_map`: the other end of the tunnel for a subnet. */
  datatype TunnelInfo = TunnelInfo(nDaddr: Ip6, nSaddr: Ip6, port: u32, smac: Mac, dmac: Mac, ifindex: u32)

  /** An entry of `xdp_if_map`: the local interface of a destination. */
  datatype EthLink = EthLink(smac: Mac, dmac: Mac, ifindex: u32)

  // ---- The UDP checksum ----

  /** The value an unsigned 32-bit variable keeps of `x`. */
  function U32(x: int): u32
    decreases if x < 0 then 0x1_0000_0000 - x else x
  {
    if x < 0 then U32(x + 0x1_0000_0000) else if x < 0x1_0000_0000 then x else U32(x - 0x1_0000_0000)
  }

  lemma {:induction false} U32Rest(x: int)
    ensures U32(x) == x % 0x1_0000_0000
    decreases if x < 0 then 0x1_0000_0000 - x else x
  {
    var q := x / 0x1_0000_0000;
    assert x == 0x1_0000_0000 * q + x % 0x1_0000_0000;
    if x < 0 {
      U32Rest(x + 0x1_0000_0000);
    } else if x >= 0x1_0000_0000 {
      U32Rest(x - 0x1_0000_0000);
    }
  }

  /** The value a signed 16-bit variable keeps of `x`. */
  function Short(x: nat): (r: int)
    ensures -0x8000 <= r < 0x8000
  {
    if x < 0x8000 then x else if x < 0x1_0000 then x - 0x1_0000 else Short(x - 0x1_0000)
  }

  lemma {:induction false} ShortRest(x: nat)
    ensures Short(x) == if x % 0x1_0000 < 0x8000 then x % 0x1_0000 else x % 0x1_0000 - 0x1_0000
  {
    if x >= 0x1_0000 {
      ShortRest(x - 0x1_0000);
    }
  }

  /** How many words the bounded loop of `udp_csum` visits. */
  function CsumWords(len: u32): nat {
    if len / 2 < 1536 then len / 2 else 1536
  }

  /** The plain sum of the words of both addresses, the length and the protocol number. */
  function PseudoTotal(src: Ip6, dst: Ip6, len: u32): nat {
    WordSum(src, 0, |src| / 2) + WordSum(dst, 0, |dst| / 2) + len + 0x11
  }

  /** The value of `udp_csum` on the UDP header at `p`. */
  function UdpCsumValue(f: Frame, p: nat, len: u32, src: Ip6, dst: Ip6): u16 {
    var n := CsumWords(len);
    if n > 0 && p + 2 * n > |f| then 0
    else 0xFFFF - Norm(U32(PseudoTotal(src, dst, len) + WordSum(f, p, n)))
  }

  lemma U32Shift(y: int, k: int)
    ensures U32(y + 0x1_0000_0000 * k) == U32(y)
  {
    hide U32;
    U32Rest(y);
    U32Rest(y + 0x1_0000_0000 * k);
    var q := y / 0x1_0000_0000;
    assert y + 0x1_0000_0000 * k == 0x1_0000_0000 * (k + q) + y % 0x1_0000_0000;
  }

  lemma U32Add(x: int, w: int)
    ensures U32(U32(x) + w) == U32(x + w)
  {
    hide U32;
    U32Rest(x);
    U32Shift(U32(x) + w, x / 0x1_0000_0000);
  }

  lemma WordSumSteps(f: seq<byte>, off: nat, n: nat)
    requires off + 2 * n + 2 <= |f|
    ensures U32(0) == 0 && WordSum(f, off, 0) == 0
    ensures WordSum(f, off, n + 1) == WordSum(f, off, n) + Be16(f, off + 2 * n)
  {
  }

  method AddAddresses(src: Ip6, dst: Ip6) returns (csum: u32)
    ensures csum == U32(WordSum(src, 0, 8) + WordSum(dst, 0, 8))
  {
    hide U32, WordSum;
    csum := 0;
    WordSumSteps(src, 0, 0);
    WordSumSteps(dst, 0, 0);
    for i := 0 to 8
      invariant csum == U32(WordSum(src, 0, i) + WordSum(dst, 0, i))
    {
      ghost var s, d := WordSum(src, 0, i), WordSum(dst, 0, i);
      WordSumSteps(src, 0, i);
      WordSumSteps(dst, 0, i);
      U32Add(s + d, Be16(src, 2 * i));
      csum := U32(csum + Be16(src, 2 * i));
      U32Add(s + d + Be16(src, 2 * i), Be16(dst, 2 * i));
      csum := U32(csum + Be16(dst, 2 * i));
    }
  }

  lemma WordSumZero(f: seq<byte>, off: nat)
    ensures WordSum(f, off, 0) == 0
  {
  }

  lemma CsumWordsMeaning(len: u32, i: nat)
    requires i <= CsumWords(len)
    ensures i < CsumWords(len) <==> i < 1536 && len - 2 * i > 1
  {
  }

  /** The loop over the packet, bounded in the number of words and by the end of data. */
  method AddPacket(room: array<byte>, packet: nat, len: u32, start: nat) returns (csum: Option<u32>)
    requires packet <= room.Length
    ensures csum == if CsumWords(len) > 0 && packet + 2 * CsumWords(len) > room.Length then None
                    else Some(U32(start + WordSum(room[..], packet, CsumWords(len))))
  {
    hide U32, WordSum, CsumWords;
    var sum := U32(start);
    assert WordSum(room[..], packet, 0) == 0 by { WordSumZero(room[..], packet); }
    var i, pos, left := 0, packet, len;
    while i < 1536 && left > 1
      invariant 0 <= i <= CsumWords(len) && pos == packet + 2 * i && left == len - 2 * i
      invariant pos <= room.Length
      invariant sum == U32(start + WordSum(room[..], packet, i))
      decreases 1536 - i
    {
      CsumWordsMeaning(len, i);
      if pos + 2 > room.Length {
        return None;
      }
      WordSumSteps(room[..], packet, i);
      U32Add(start + WordSum(room[..], packet, i), Be16(room[..], pos));
      sum := U32(sum + Pair(room[pos], room[pos + 1]));
      i, pos, left := i + 1, pos + 2, left - 2;
    }
    CsumWordsMeaning(len, i);
    csum := Some(sum);
  }

  /** The unbounded folding loop. */
  method FoldDown(sum: u32) returns (csum: u16)
    ensures csum == Norm(sum)
  {
    var c: nat := sum;
    while c / 0x1_0000 != 0
      invariant Norm(c) == Norm(sum)
      decreases c
    {
      FoldOnceNorm(c);
      c := c % 0x1_0000 + c / 0x1_0000;
    }
    csum := c;
  }

  /** `udp_csum`: the end of data is the end of `room`. */
  method UdpCsum(room: array<byte>, packet: nat, len: u32, src: Ip6, dst: Ip6) returns (r: u16)
    requires packet <= room.Length
    ensures r == UdpCsumValue(room[..], packet, len, src, dst)
  {
    hide U32, Norm, WordSum;
    var csum: u32 := AddAddresses(src, dst);
    U32Add(WordSum(src, 0, 8) + WordSum(dst, 0, 8), len);
    csum := U32(csum + len);
    U32Add(WordSum(src, 0, 8) + WordSum(dst, 0, 8) + len, 0x11);
    csum := U32(csum + 0x11);
    U32Add(PseudoTotal(src, dst, len), WordSum(room[..], packet, CsumWords(len)));
    var sum := AddPacket(room, packet, len, csum);
    if sum.None? {
      return 0;
    }
    var folded := FoldDown(sum.value);
    r := 0xFFFF - folded;
  }

  // ---- Encapsulation ----

  function EthHeader(e: TunnelInfo): (h: seq<byte>)
    ensures |h| == 14
  {
    e.dmac + e.smac + Be16Bytes(ETH_P_IPV6)
  }

  /** The outer IPv6 header. The low half of its first byte (the traffic class) and the flow label
      are not written: they stay what the buffer held at `ETH_LEN`. */
  function Ip6Header(g: Frame, e: TunnelInfo, oldlen: nat): (h: seq<byte>)
    requires UDP <= |g|
    ensures |h| == IP6_LEN
  {
    [0x60 + g[14] % 16] + g[15..18] + Be16Bytes((oldlen + UDP_LEN) % 0x1_0000)
    + [IPPROTO_UDP, 64] + e.nSaddr + e.nDaddr
  }

  /** The UDP header without its checksum. */
  function UdpHeader(e: TunnelInfo, oldlen: nat): (h: seq<byte>)
    ensures |h| == 6
  {
    Be16Bytes(TUNNEL_PORT) + Be16Bytes(e.port % 0x1_0000) + Be16Bytes(Short(oldlen + UDP_LEN) % 0x1_0000)
  }

  /** The buffer once everything but the UDP checksum is written. */
  function BeforeCheck(g: Frame, e: TunnelInfo, oldlen: nat): (r: Frame)
    requires NEWHLEN <= |g|
    ensures |r| == |g|
  {
    Put(g, 0, EthHeader(e) + Ip6Header(g, e, oldlen) + UdpHeader(e, oldlen))
  }

  function WithHeaders(g: Frame, e: TunnelInfo, oldlen: nat): (r: Frame)
    requires NEWHLEN <= |g|
    ensures |r| == |g|
  {
    var h := BeforeCheck(g, e, oldlen);
    Put(h, UDP_CHECK, Be16Bytes(UdpCsumValue(h, UDP, U32(Short(oldlen + UDP_LEN)), e.nSaddr, e.nDaddr)))
  }

  /** The second half of `xdp_prog_ttr`, on the buffer after the attempt to move its head. */
  function Outer(g: Frame, e: TunnelInfo, oldlen: nat): XdpResult {
    if NEWHLEN <= |g| && UDP + Short(oldlen + UDP_LEN) <= |g| then Sent(e.ifindex, WithHeaders(g, e, oldlen))
    else Aborted
  }

  /** The key of a destination: its last two bytes become `00 01`. */
  function TunnelKey(f: Frame): Ip6
    requires UDP <= |f|
  {
    f[IP6_DADDR..IP6_DADDR + 14] + [0x00, 0x01]
  }

  /** The frame in the buffer after the attempt to make room for the outer headers. */
  function AfterMove(b: Buffer): Frame
    requires b.Valid()
  {
    if b.Adjust(-NEWHLEN).Some? then b.Adjust(-NEWHLEN).value.Frame() else b.Frame()
  }

  /** `xdp_prog_ttr`. When the head cannot be moved the program only logs that and goes on. */
  function Ttr(b: Buffer, tunnels: map<Ip6, TunnelInfo>): XdpResult
    requires b.Valid()
  {
    var f := b.Frame();
    if |f| < UDP || f[ETH_LEN] / 16 != 6 || TunnelKey(f) !in tunnels then Aborted
    else Outer(AfterMove(b), tunnels[TunnelKey(f)], Be16(f, IP6_PAYLOAD_LEN) + IP6_LEN + ETH_LEN)
  }

  method WriteEth(room: array<byte>, p: nat, e: TunnelInfo)
    requires p + ETH_LEN <= room.Length
    modifies room
    ensures room[..] == Put(old(room[..]), p, EthHeader(e))
  {
    hide Put, Be16Bytes;
    ghost var r0 := room[..];
    MemCpy(room, p + 12, Be16Bytes(ETH_P_IPV6));
    MemCpy(room, p + ETH_SOURCE, e.smac);
    PutJoin(r0, p + ETH_SOURCE, e.smac, Be16Bytes(ETH_P_IPV6));
    MemCpy(room, p + ETH_DEST, e.dmac);
    PutJoin(r0, p, e.dmac, e.smac + Be16Bytes(ETH_P_IPV6));
    assert e.dmac + (e.smac + Be16Bytes(ETH_P_IPV6)) == EthHeader(e);
  }

  lemma Ip6Pieces(g: Frame, e: TunnelInfo, oldlen: nat)
    requires UDP <= |g|
    ensures var h := Ip6Header(g, e, oldlen);
            h[0] == 0x60 + g[14] % 16 && h[1..4] == g[15..18] && h[4..6] == Be16Bytes((oldlen + UDP_LEN) % 0x1_0000)
            && h[6] == IPPROTO_UDP && h[7] == 64 && h[8..24] == e.nSaddr && h[24..40] == e.nDaddr
  {
  }

  /** The stores of the outer IPv6 header, in the order of the program. */
  lemma Ip6Stores(r0: seq<byte>, p: nat, b: byte, len: seq<byte>, src: Ip6, dst: Ip6)
    requires p + UDP <= |r0| && |len| == 2
    ensures var r3 := Put(Put(Put(r0, p + IP6_DADDR, dst), p + IP6_SADDR, src), p + ETH_LEN, [b]);
            Put(Put(Put(r3, p + 21, [64]), p + IP6_NEXTHDR, [IPPROTO_UDP]), p + IP6_PAYLOAD_LEN, len)
            == Put(r0, p + ETH_LEN, [b] + r0[p + 15..p + 18] + len + [IPPROTO_UDP, 64] + src + dst)
  {
    hide Put;
    var gap, rest := r0[p + 15..p + 18], [IPPROTO_UDP] + [64];
    PutJoin(r0, p + IP6_SADDR, src, dst);
    var r2 := Put(r0, p + IP6_SADDR, src + dst);
    var r3 := Put(r2, p + ETH_LEN, [b]);
    PutJoin(r3, p + IP6_NEXTHDR, [IPPROTO_UDP], [64]);
    PutJoin(r3, p + IP6_PAYLOAD_LEN, len, rest);
    PutSwap(r2, p + ETH_LEN, [b], p + IP6_PAYLOAD_LEN, len + rest);
    PutJoin(r0, p + IP6_PAYLOAD_LEN, len + rest, src + dst);
    PutSame(r0, p + 15, gap);
    PutJoin(r0, p + 15, gap, len + rest + (src + dst));
    PutJoin(r0, p + ETH_LEN, [b], gap + (len + rest + (src + dst)));
    assert [b] + (gap + (len + rest + (src + dst))) == [b] + gap + len + [IPPROTO_UDP, 64] + src + dst;
  }

  method WriteIp6(room: array<byte>, p: nat, e: TunnelInfo, oldlen: nat)
    requires p + UDP <= room.Length
    modifies room
    ensures room[..] == Put(old(room[..]), p + ETH_LEN, Ip6Header(old(room[..])[p..], e, oldlen))
  {
    hide Put, Be16Bytes;
    ghost var r0 := room[..];
    SliceDrop(r0, p, 15, 18);
    MemCpy(room, p + IP6_DADDR, e.nDaddr);
    MemCpy(room, p + IP6_SADDR, e.nSaddr);
    ghost var b := 0x60 + r0[p + ETH_LEN] % 16;
    StoreByte(room, p + ETH_LEN, 0x60 + room[p + ETH_LEN] % 16);
    StoreByte(room, p + 21, 64);
    StoreByte(room, p + IP6_NEXTHDR, IPPROTO_UDP);
    MemCpy(room, p + IP6_PAYLOAD_LEN, Be16Bytes((oldlen + UDP_LEN) % 0x1_0000));
    Ip6Stores(r0, p, b, Be16Bytes((oldlen + UDP_LEN) % 0x1_0000), e.nSaddr, e.nDaddr);
  }

  method StoreByte(room: array<byte>, at: nat, x: byte)
    requires at < room.Length
    modifies room
    ensures room[..] == Put(old(room[..]), at, [x])
  {
    PutOne(room[..], at, x);
    room[at] := x;
  }

  method WriteUdp(room: array<byte>, p: nat, e: TunnelInfo, oldlen: nat)
    requires p + NEWHLEN <= room.Length
    modifies room
    ensures room[..] == Put(old(room[..]), p + UDP, UdpHeader(e, oldlen))
  {
    hide Put, Be16Bytes, Short;
    ghost var r0 := room[..];
    var port, size := Be16Bytes(e.port % 0x1_0000), Be16Bytes(Short(oldlen + UDP_LEN) % 0x1_0000);
    MemCpy(room, p + UDP, Be16Bytes(TUNNEL_PORT));
    MemCpy(room, p + UDP_DEST, port);
    PutJoin(r0, p + UDP, Be16Bytes(TUNNEL_PORT), port);
    MemCpy(room, p + UDP_SIZE, size);
    PutJoin(r0, p + UDP, Be16Bytes(TUNNEL_PORT) + port, size);
  }

  lemma ThreeHeaders(r0: seq<byte>, r3: seq<byte>, p: nat, e: TunnelInfo, oldlen: nat)
    requires p + NEWHLEN <= |r0|
    requires var r1 := Put(r0, p, EthHeader(e));
             r3 == Put(Put(r1, p + ETH_LEN, Ip6Header(r1[p..], e, oldlen)), p + UDP, UdpHeader(e, oldlen))
    ensures r3[p..] == BeforeCheck(r0[p..], e, oldlen)
  {
    hide EthHeader, UdpHeader;
    var r1 := Put(r0, p, EthHeader(e));
    assert Ip6Header(r1[p..], e, oldlen) == Ip6Header(r0[p..], e, oldlen);
    hide Ip6Header, Put;
  }

  lemma {:induction false} WordSumDrop(f: seq<byte>, d: nat, off: nat, n: nat)
    requires d <= |f|
    ensures WordSum(f[d..], off, n) == WordSum(f, d + off, n)
  {
    if n > 0 {
      WordSumDrop(f, d, off, n - 1);
    }
  }

  lemma CheckDrop(room: seq<byte>, p: nat, len: u32, src: Ip6, dst: Ip6)
    requires p <= |room|
    ensures UdpCsumValue(room, p + UDP, len, src, dst) == UdpCsumValue(room[p..], UDP, len, src, dst)
  {
    WordSumDrop(room, p, UDP, CsumWords(len));
  }

  method XdpProgTtr(ctx: XdpMd, tunnels: map<Ip6, TunnelInfo>) returns (action: XdpAction)
    requires ctx.Valid()
    modifies ctx, ctx.room
    ensures ctx.Valid() && ResultOf(action, ctx.State().Frame()) == Ttr(old(ctx.State()), tunnels)
    ensures var r := Ttr(old(ctx.State()), tunnels);
            (action == XDP_ABORTED <==> r.Aborted?) && (action == XDP_PASS <==> r.PassUp?)
  {
    hide UdpCsumValue, Put, EthHeader, Ip6Header, UdpHeader, BeforeCheck;
    var end, data := ctx.room.Length, ctx.data;
    ghost var f := ctx.State().Frame();
    if data + ETH_LEN > end || data + UDP > end || ctx.room[data + ETH_LEN] / 16 != 6 {
      return XDP_ABORTED;
    }
    var key: Ip6 := ctx.room[data + IP6_DADDR..data + IP6_DADDR + 14] + [0x00, 0x01];
    SliceDrop(ctx.room[..], data, IP6_DADDR, IP6_DADDR + 14);
    assert key == TunnelKey(f);
    if key !in tunnels {
      return XDP_ABORTED;
    }
    var e := tunnels[key];
    var oldlen := Pair(ctx.room[data + IP6_PAYLOAD_LEN], ctx.room[data + IP6_PAYLOAD_LEN + 1]) + IP6_LEN + ETH_LEN;
    assert oldlen == Be16(f, IP6_PAYLOAD_LEN) + IP6_LEN + ETH_LEN;
    var _ := ctx.AdjustHead(-NEWHLEN);
    data := ctx.data;
    ghost var g := ctx.State().Frame();
    assert Ttr(old(ctx.State()), tunnels) == Outer(g, e, oldlen);
    action := Encapsulate(ctx, data, e, oldlen);
  }

  /** The part of the program after the head was moved. */
  method Encapsulate(ctx: XdpMd, data: nat, e: TunnelInfo, oldlen: nat) returns (action: XdpAction)
    requires ctx.Valid() && ctx.data == data
    modifies ctx.room
    ensures ResultOf(action, ctx.State().Frame()) == Outer(old(ctx.State().Frame()), e, oldlen)
  {
    hide UdpCsumValue, Put, EthHeader, Ip6Header, UdpHeader, BeforeCheck;
    var end := ctx.room.Length;
    ghost var r0 := ctx.room[..];
    if data + ETH_LEN > end {
      return XDP_ABORTED;
    }
    WriteEth(ctx.room, data, e);
    if data + UDP > end {
      return XDP_ABORTED;
    }
    WriteIp6(ctx.room, data, e, oldlen);
    if data + NEWHLEN > end {
      return XDP_ABORTED;
    }
    var paylen := Short(oldlen + UDP_LEN);
    if data + UDP + paylen > end {
      return XDP_ABORTED;
    }
    WriteUdp(ctx.room, data, e, oldlen);
    ghost var r3 := ctx.room[..];
    ThreeHeaders(r0, r3, data, e, oldlen);
    var check := UdpCsum(ctx.room, data + UDP, U32(paylen), e.nSaddr, e.nDaddr);
    CheckDrop(r3, data, U32(paylen), e.nSaddr, e.nDaddr);
    MemCpy(ctx.room, data + UDP_CHECK, Be16Bytes(check));
    PutDrop(r3, data, UDP_CHECK, Be16Bytes(check));
    return XDP_REDIRECT(e.ifindex);
  }

  // ---- Decapsulation ----

  /** `xdp_prog_rtt`. */
  function Rtt(b: Buffer, ifs: map<Ip6, EthLink>): XdpResult
    requires b.Valid()
  {
    var f := b.Frame();
    if |f| < ETH_LEN || Be16(f, 12) != ETH_P_IPV6 then PassUp(f)
    else if |f| < UDP || f[IP6_NEXTHDR] != IPPROTO_UDP then PassUp(f)
    else if |f| < NEWHLEN || Be16(f, UDP_DEST) != TUNNEL_PORT then PassUp(f)
    else Inner(if b.Adjust(NEWHLEN).Some? then b.Adjust(NEWHLEN).value.Frame() else f, ifs)
  }

  /** What follows on the frame that came out of the tunnel. */
  function Inner(g: Frame, ifs: map<Ip6, EthLink>): XdpResult {
    if |g| < UDP then Aborted
    else
      var dst: Ip6 := g[IP6_DADDR..UDP];
      if dst !in ifs then PassUp(g)
      else Sent(ifs[dst].ifindex, Put(Put(g, ETH_SOURCE, ifs[dst].smac), ETH_DEST, ifs[dst].dmac))
  }

  method XdpProgRtt(ctx: XdpMd, ifs: map<Ip6, EthLink>) returns (action: XdpAction)
    requires ctx.Valid()
    modifies ctx, ctx.room
    ensures ctx.Valid() && ResultOf(action, ctx.State().Frame()) == Rtt(old(ctx.State()), ifs)
    ensures var r := Rtt(old(ctx.State()), ifs);
            (action == XDP_ABORTED <==> r.Aborted?) && (action == XDP_PASS <==> r.PassUp?)
  {
    hide Put;
    var end, data := ctx.room.Length, ctx.data;
    if data + ETH_LEN > end || Pair(ctx.room[data + 12], ctx.room[data + 13]) != ETH_P_IPV6 {
      return XDP_PASS;
    }
    if data + UDP > end || ctx.room[data + IP6_NEXTHDR] != IPPROTO_UDP {
      return XDP_PASS;
    }
    if data + NEWHLEN > end || Pair(ctx.room[data + UDP_DEST], ctx.room[data + UDP_DEST + 1]) != TUNNEL_PORT {
      return XDP_PASS;
    }
    var _ := ctx.AdjustHead(NEWHLEN);
    action := ToInterface(ctx, ctx.data, ifs);
  }

  /** The part of the program after the head was moved. */
  method ToInterface(ctx: XdpMd, data: nat, ifs: map<Ip6, EthLink>) returns (action: XdpAction)
    requires ctx.Valid() && ctx.data == data
    modifies ctx.room
    ensures ResultOf(action, ctx.State().Frame()) == Inner(old(ctx.State().Frame()), ifs)
  {
    hide Put;
    var end := ctx.room.Length;
    ghost var r := ctx.room[..];
    if data + ETH_LEN > end || data + UDP > end {
      return XDP_ABORTED;
    }
    var dst: Ip6 := ctx.room[data + IP6_DADDR..data + UDP];
    SliceDrop(r, data, IP6_DADDR, UDP);
    if dst !in ifs {
      return XDP_PASS;
    }
    MemCpy(ctx.room, data + ETH_SOURCE, ifs[dst].smac);
    PutDrop(r, data, ETH_SOURCE, ifs[dst].smac);
    r := ctx.room[..];
    MemCpy(ctx.room, data + ETH_DEST, ifs[dst].dmac);
    PutDrop(r, data, ETH_DEST, ifs[dst].dmac);
    return XDP_REDIRECT(ifs[dst].ifindex);
  }

  // ---- Round trip ----

  /** Where the fields of an encapsulated frame are, whatever was encapsulated, by their offsets behind 14
      bytes of Ethernet and 40 of IPv6 (section 3 of RFC 8200): `g` is the buffer before the call. */
  ghost predicate OuterFields(r: Frame, g: Frame, e: TunnelInfo, size: u16) {
    |r| == |g| && 62 <= |g|
    && r[..6] == e.dmac && r[6..12] == e.smac && Be16(r, 12) == 0x86DD
    && r[14] / 16 == 6 && r[14] % 16 == g[14] % 16 && r[15..18] == g[15..18]
    && Be16(r, 18) == size && r[20] == 17 && r[21] == 64
    && r[22..38] == e.nSaddr && r[38..54] == e.nDaddr
    && Be16(r, 54) == 31337 && Be16(r, 56) == e.port % 0x1_0000 && Be16(r, 58) == size
    && r[62..] == g[62..]
  }

  lemma HeaderFields(g: Frame, e: TunnelInfo, oldlen: nat)
    requires NEWHLEN <= |g|
    ensures OuterFields(WithHeaders(g, e, oldlen), g, e, (oldlen + UDP_LEN) % 0x1_0000)
  {
    hide UdpCsumValue, Put, BeforeCheck, WithHeaders, Ip6Header, EthHeader, UdpHeader, Be16;
    var r := WithHeaders(g, e, oldlen);
    Layout(g, e, oldlen);
    EthFields(r, e);
    Ip6Fields(r, g, e, oldlen);
    hide Be16Bytes;
    UdpFields(r, e, oldlen);
    WordOf(r, UDP, TUNNEL_PORT);
    WordOf(r, UDP_DEST, e.port % 0x1_0000);
    WordOf(r, UDP_SIZE, (oldlen + UDP_LEN) % 0x1_0000);
  }

  /** The headers one behind the other, then what the buffer held. */
  lemma Layout(g: Frame, e: TunnelInfo, oldlen: nat)
    requires NEWHLEN <= |g|
    ensures var r := WithHeaders(g, e, oldlen);
            r[..ETH_LEN] == EthHeader(e) && r[ETH_LEN..UDP] == Ip6Header(g, e, oldlen)
            && r[UDP..UDP_CHECK] == UdpHeader(e, oldlen) && r[NEWHLEN..] == g[NEWHLEN..]
  {
    hide UdpCsumValue, Put, EthHeader, Ip6Header, UdpHeader;
  }

  lemma EthFields(r: Frame, e: TunnelInfo)
    requires ETH_LEN <= |r| && r[..ETH_LEN] == EthHeader(e)
    ensures r[..ETH_SOURCE] == e.dmac && r[ETH_SOURCE..12] == e.smac && Be16(r, 12) == ETH_P_IPV6
  {
    SliceOf(r, 0, ETH_LEN, 0, ETH_SOURCE);
    SliceOf(r, 0, ETH_LEN, ETH_SOURCE, 12);
    assert r[12] == r[..ETH_LEN][12] && r[13] == r[..ETH_LEN][13];
    assert EthHeader(e)[..6] == e.dmac && EthHeader(e)[6..12] == e.smac;
  }

  lemma Ip6Fields(r: Frame, g: Frame, e: TunnelInfo, oldlen: nat)
    requires UDP <= |r| && UDP <= |g| && r[ETH_LEN..UDP] == Ip6Header(g, e, oldlen)
    ensures Version(r) == 6 && r[IP6_NEXTHDR] == IPPROTO_UDP && r[21] == 64
    ensures r[14] % 16 == g[14] % 16 && r[15..18] == g[15..18]
    ensures r[IP6_SADDR..IP6_DADDR] == e.nSaddr && r[IP6_DADDR..UDP] == e.nDaddr
    ensures Be16(r, IP6_PAYLOAD_LEN) == (oldlen + UDP_LEN) % 0x1_0000
  {
    Ip6Pieces(g, e, oldlen);
    hide Ip6Header;
    SliceOf(r, ETH_LEN, UDP, 1, 4);
    SliceOf(r, ETH_LEN, UDP, 4, 6);
    SliceOf(r, ETH_LEN, UDP, 8, 24);
    SliceOf(r, ETH_LEN, UDP, 24, 40);
    var h := r[ETH_LEN..UDP];
    assert r[14] == h[0] && r[IP6_NEXTHDR] == h[6] && r[21] == h[7];
    WordOf(r, IP6_PAYLOAD_LEN, (oldlen + UDP_LEN) % 0x1_0000);
  }

  lemma UdpFields(r: Frame, e: TunnelInfo, oldlen: nat)
    requires UDP_CHECK <= |r| && r[UDP..UDP_CHECK] == UdpHeader(e, oldlen)
    ensures r[UDP..UDP_DEST] == Be16Bytes(TUNNEL_PORT) && r[UDP_DEST..UDP_SIZE] == Be16Bytes(e.port % 0x1_0000)
    ensures r[UDP_SIZE..UDP_CHECK] == Be16Bytes((oldlen + UDP_LEN) % 0x1_0000)
  {
    hide Be16Bytes;
    ShortBytes(oldlen + UDP_LEN);
    SliceOf(r, UDP, UDP_CHECK, 0, 2);
    SliceOf(r, UDP, UDP_CHECK, 2, 4);
    SliceOf(r, UDP, UDP_CHECK, 4, 6);
  }

  lemma WordOf(r: Frame, off: nat, x: u16)
    requires off + 2 <= |r| && r[off..off + 2] == Be16Bytes(x)
    ensures Be16(r, off) == x
  {
    assert r[off] == r[off..off + 2][0] && r[off + 1] == r[off..off + 2][1];
  }

  lemma ShortBytes(x: nat)
    ensures Short(x) % 0x1_0000 == x % 0x1_0000
  {
    ShortRest(x);
  }

  /** The frame that the receiver hands on: the original with the hardware addresses replaced. */
  function Readdressed(f: Frame, l: EthLink): Frame
    requires ETH_LEN <= |f|
  {
    l.dmac + l.smac + f[12..]
  }

  /** What a frame becomes on its way through a tunnel whose other end is addressed by `dst`. */
  function Arrival(f: Frame, ifs: map<Ip6, EthLink>): XdpResult
    requires UDP <= |f|
  {
    var dst: Ip6 := f[IP6_DADDR..UDP];
    if dst in ifs then Sent(ifs[dst].ifindex, Readdressed(f, ifs[dst])) else PassUp(f)
  }

  lemma InnerIsArrival(f: Frame, ifs: map<Ip6, EthLink>)
    requires UDP <= |f|
    ensures Inner(f, ifs) == Arrival(f, ifs)
  {
  }

  /** What the sender emits, and that with headroom the original follows the outer headers. */
  lemma Emitted(b: Buffer, tunnels: map<Ip6, TunnelInfo>, i: u32, out: Frame)
    requires b.Valid() && Ttr(b, tunnels) == Sent(i, out)
    ensures UDP <= |b.Frame()| && TunnelKey(b.Frame()) in tunnels && NEWHLEN <= |AfterMove(b)|
    ensures var e := tunnels[TunnelKey(b.Frame())];
            var oldlen := Be16(b.Frame(), IP6_PAYLOAD_LEN) + IP6_LEN + ETH_LEN;
            i == e.ifindex && out == WithHeaders(AfterMove(b), e, oldlen)
            && UDP + Short(oldlen + UDP_LEN) <= |AfterMove(b)|
    ensures b.data >= NEWHLEN ==>
              AfterMove(b) == b.room[b.data - NEWHLEN..] && AfterMove(b)[NEWHLEN..] == b.Frame()
  {
    hide WithHeaders, AfterMove;
    Moved(b);
  }

  lemma Moved(b: Buffer)
    requires b.Valid()
    ensures b.data >= NEWHLEN ==>
              AfterMove(b) == b.room[b.data - NEWHLEN..] && AfterMove(b)[NEWHLEN..] == b.Frame()
  {
    if b.data >= NEWHLEN {
      DropTwice(b.room, b.data - NEWHLEN, NEWHLEN);
    }
  }

  lemma DropTwice(r: seq<byte>, a: nat, b: nat)
    requires a + b <= |r|
    ensures r[a..][b..] == r[a + b..]
  {
  }

  /** Tunnel round trip: whatever the sender emits, given the headroom for the outer headers, the
      receiver turns back into the original frame with only the hardware addresses replaced by those
      of its own entry; without an entry it hands the untouched original to the stack. A tunnel to
      another port than 31337 is not unpacked at all. */
  lemma TunnelRoundTrip(b: Buffer, tunnels: map<Ip6, TunnelInfo>, i: u32, out: Frame, r: Buffer, ifs: map<Ip6, EthLink>)
    requires b.Valid() && b.data >= NEWHLEN && Ttr(b, tunnels) == Sent(i, out)
    requires r.Valid() && r.Frame() == out
    ensures UDP <= |b.Frame()| && TunnelKey(b.Frame()) in tunnels
    ensures Rtt(r, ifs) == if tunnels[TunnelKey(b.Frame())].port % 0x1_0000 == TUNNEL_PORT
                           then Arrival(b.Frame(), ifs) else PassUp(out)
  {
    hide WithHeaders, Inner, Arrival, Ttr, AfterMove;
    Emitted(b, tunnels, i, out);
    var e := tunnels[TunnelKey(b.Frame())];
    HeaderFields(AfterMove(b), e, Be16(b.Frame(), IP6_PAYLOAD_LEN) + IP6_LEN + ETH_LEN);
    assert r.room[r.data + NEWHLEN..] == out[NEWHLEN..];
    InnerIsArrival(b.Frame(), ifs);
  }

  /** A frame whose own length field is right is encapsulated if and only if there is headroom: without
      it the program goes on as if it had moved the head, and then finds the buffer too short. Only a
      frame too long for its signed 16-bit length gets past that check. */
  lemma EncapsulatesIffRoom(b: Buffer, tunnels: map<Ip6, TunnelInfo>)
    requires b.Valid() && UDP <= |b.Frame()| && b.Frame()[ETH_LEN] / 16 == 6 && TunnelKey(b.Frame()) in tunnels
    requires UDP + Be16(b.Frame(), IP6_PAYLOAD_LEN) == |b.Frame()|
    ensures Ttr(b, tunnels).Sent? <==> b.data >= NEWHLEN || |b.Frame()| + UDP_LEN >= 0x8000
  {
    hide WithHeaders, Short, AfterMove;
    ShortOfLength(Be16(b.Frame(), IP6_PAYLOAD_LEN));
    MovedSize(b);
  }

  lemma ShortOfLength(p: u16)
    ensures UDP + Short(p + NEWHLEN) <= p + UDP + NEWHLEN
    ensures UDP + Short(p + NEWHLEN) <= p + UDP <==> p + NEWHLEN >= 0x8000
  {
    var x := p + NEWHLEN;
    assert x < 0x1_0000 ==> x % 0x1_0000 == x;
    assert x >= 0x1_0000 ==> x % 0x1_0000 == x - 0x1_0000;
  }

  lemma MovedSize(b: Buffer)
    requires b.Valid() && ETH_LEN <= |b.Frame()|
    ensures |AfterMove(b)| == |b.Frame()| + if b.data >= NEWHLEN then NEWHLEN else 0
  {
  }

  /** Destinations share an entry of the tunnel map if and only if they lie in the same /112. */
  lemma SubnetKey(f: Frame, g: Frame)
    requires UDP <= |f| && UDP <= |g|
    ensures TunnelKey(f) == TunnelKey(g) <==> f[IP6_DADDR..IP6_DADDR + 14] == g[IP6_DADDR..IP6_DADDR + 14]
  {
    assert TunnelKey(f)[..14] == f[IP6_DADDR..IP6_DADDR + 14];
    assert TunnelKey(g)[..14] == g[IP6_DADDR..IP6_DADDR + 14];
  }

  // ---- The lengths ----

  /** Tunnel lengths: both outer lengths equal the number of bytes after the outer IPv6 header if
      and only if the inner frame is exactly as long as its own length field says, and the result
      fits 16 bits. */
  lemma OuterLengths(b: Buffer, tunnels: map<Ip6, TunnelInfo>, i: u32, out: Frame)
    requires b.Valid() && b.data >= NEWHLEN && Ttr(b, tunnels) == Sent(i, out)
    ensures |out| == NEWHLEN + |b.Frame()| && UDP <= |b.Frame()|
    ensures Be16(out, IP6_PAYLOAD_LEN) == |out| - UDP == Be16(out, UDP_SIZE)
            <==> UDP + Be16(b.Frame(), IP6_PAYLOAD_LEN) == |b.Frame()| && |out| - UDP < 0x1_0000
  {
    hide WithHeaders, Ttr, AfterMove;
    Emitted(b, tunnels, i, out);
    HeaderFields(AfterMove(b), tunnels[TunnelKey(b.Frame())],
                 Be16(b.Frame(), IP6_PAYLOAD_LEN) + IP6_LEN + ETH_LEN);
    LengthWraps(Be16(b.Frame(), IP6_PAYLOAD_LEN), |b.Frame()|);
  }

  lemma LengthWraps(p: u16, n: nat)
    requires n >= UDP
    ensures (p + NEWHLEN) % 0x1_0000 == n + UDP_LEN <==> p + UDP == n && n + UDP_LEN < 0x1_0000
  {
  }
}
