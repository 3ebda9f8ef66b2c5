/** The two tunnel programs as a whole, on any buffer: what they do, in the bytes of the frame. */
module TunnelOutcome {
  import opened Words
  import opened Frames
  import opened Xdp
  import opened Tunnel

  // ---- The sender ----

  /** The checks on the size, `p` being the length field of the frame and `n` the number of bytes in the
      buffer after the attempt to make room: the outer headers fit, and so does the datagram, whose
      length `p + 62` the program keeps as a signed 16-bit number. */
  predicate SizesPass(p: u16, n: nat) {
    62 <= n
    && (p + 62 < 0x8000 ==> p + 116 <= n)
    && (p + 62 >= 0x1_0000 ==> p + 116 - 0x1_0000 <= n)
  }

  /** The frame is IPv6 and its destination, the last two bytes replaced, has a tunnel. */
  predicate HasTunnel(f: Frame, tunnels: map<Ip6, TunnelInfo>) {
    54 <= |f| && f[14] / 16 == 6 && f[38..52] + [0x00, 0x01] in tunnels
  }

  /** How many bytes there are after the attempt to make room. */
  function SizeAfterMove(b: Buffer): nat
    requires b.Valid()
  {
    |b.Frame()| + if b.data >= 62 then 62 else 0
  }

  /** The sender, on any buffer: a frame without a tunnel is never handed to the stack. A frame is sent if
      and only if it has a tunnel and passes the checks on the size; it then goes to the interface of the
      tunnel, with the outer headers in front. Every other frame is dropped. */
  lemma TtrMeaning(b: Buffer, tunnels: map<Ip6, TunnelInfo>)
    requires b.Valid()
    ensures var f, r := b.Frame(), Ttr(b, tunnels);
            if HasTunnel(f, tunnels) && SizesPass(Be16(f, 18), SizeAfterMove(b)) then
              var e := tunnels[f[38..52] + [0x00, 0x01]];
              r.Sent? && r.ifindex == e.ifindex
              && OuterFields(r.frame, AfterMove(b), e, (Be16(f, 18) + 62) % 0x1_0000)
            else r == Aborted
    ensures AfterMove(b) == if b.data >= 62 then b.room[b.data - 62..] else b.Frame()
  {
    hide WithHeaders, OuterFields, Be16, Short;
    var f := b.Frame();
    if HasTunnel(f, tunnels) {
      var p, g := Be16(f, 18), AfterMove(b);
      assert TunnelKey(f) == f[38..52] + [0x00, 0x01];
      if 62 <= |g| {
        ShortSize(p, |g|);
        HeaderFields(g, tunnels[TunnelKey(f)], p + IP6_LEN + ETH_LEN);
      }
    }
  }

  lemma ShortSize(p: u16, n: nat)
    requires 62 <= n
    ensures UDP + Short(p + NEWHLEN) <= n <==> SizesPass(p, n)
  {
    ShortRest(p + NEWHLEN);
    assert p + NEWHLEN >= 0x1_0000 ==> (p + NEWHLEN) % 0x1_0000 == p + NEWHLEN - 0x1_0000;
  }

  // ---- The receiver ----

  /** The frame holds a UDP datagram to port 31337 over IPv6. */
  predicate ForTunnel(f: Frame) {
    62 <= |f| && f[12] == 0x86 && f[13] == 0xDD && f[20] == 17 && f[56] == 0x7A && f[57] == 0x69
  }

  /** The outcome `r` for the frame `g` to be handed on: to the interface of its destination with the
      hardware addresses replaced, or to the stack if there is none. */
  ghost predicate HandedOn(g: Frame, ifs: map<Ip6, EthLink>, r: XdpResult) {
    if |g| < 54 then r == Aborted
    else if g[38..54] !in ifs then r == PassUp(g)
    else
      var l := ifs[g[38..54]];
      r.Sent? && r.ifindex == l.ifindex
      && |r.frame| == |g| && r.frame[..6] == l.dmac && r.frame[6..12] == l.smac && r.frame[12..] == g[12..]
  }

  /** The receiver, on any buffer: whatever is no tunnel datagram goes to the stack untouched. A tunnel
      datagram is unpacked and handed on, if an Ethernet header is left behind the outer headers;
      otherwise the head cannot be moved, and the datagram itself is handed on. */
  lemma RttMeaning(b: Buffer, ifs: map<Ip6, EthLink>)
    requires b.Valid()
    ensures var f := b.Frame();
            if !ForTunnel(f) then Rtt(b, ifs) == PassUp(f)
            else HandedOn(if |f| >= 76 then f[62..] else f, ifs, Rtt(b, ifs))
  {
    hide HandedOn, Inner;
    var f := b.Frame();
    if ForTunnel(f) {
      Unpacked(b);
      InnerHandsOn(if |f| >= 76 then f[62..] else f, ifs);
    }
  }

  lemma Unpacked(b: Buffer)
    requires b.Valid() && 62 <= |b.Frame()|
    ensures (if b.Adjust(NEWHLEN).Some? then b.Adjust(NEWHLEN).value.Frame() else b.Frame())
            == if |b.Frame()| >= 76 then b.Frame()[62..] else b.Frame()
  {
    DropTwice(b.room, b.data, 62);
  }

  lemma InnerHandsOn(g: Frame, ifs: map<Ip6, EthLink>)
    ensures HandedOn(g, ifs, Inner(g, ifs))
  {
  }
}
