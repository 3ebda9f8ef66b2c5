/** Egress: source translation and redirect (`translate_redirect_subpod_ipv4_tc.c`). */
module Translate {
  import opened Wrappers
  import opened Words
  import opened Frames
  import opened Checksum
  import opened Tc

  const TCP_END: nat := 54
  const TCP_FLAGS: nat := 47
  const IP_TOTAL: nat := 16
  const IP_FRAGMENT: nat := 20

  datatype RedirectRoute = RedirectRoute(ifindex: u32, smac: Mac, dmac: Mac)

  /** What `tc_redirect_map` holds, by the number of the block base; key 0 is the default route. */
  type RedirectMap = map<u32, RedirectRoute>

  /** The program sees a TCP reset: the flag byte is read right behind a 20-byte header. */
  predicate RstSeen(f: Frame)
    requires HasIp(f)
  {
    f[IP_PROTOCOL] == IPPROTO_TCP && TCP_END <= |f| && f[TCP_FLAGS] / 4 % 2 == 1
  }

  /** The payload of the datagram begins with a whole layer 4 header of 20 bytes: it is no later
      fragment, and its total length leaves room for one. */
  predicate StartsSegment(f: Frame)
    requires HasIp(f)
  {
    Be16(f, IP_FRAGMENT) % 0x2000 == 0 && 4 * Ihl(f) + 20 <= Be16(f, IP_TOTAL)
  }

  /** The datagram begins with a TCP header that has the reset flag, wherever its IP header ends. */
  predicate IsReset(f: Frame)
    requires HasIp(f)
  {
    f[IP_PROTOCOL] == IPPROTO_TCP && StartsSegment(f)
    && ETH_LEN + 4 * Ihl(f) + 20 <= |f| && f[ETH_LEN + 4 * Ihl(f) + 13] / 4 % 2 == 1
  }

  /** Which bytes the program reads. Without IP options, what it sees as a reset is one exactly when the
      datagram begins with a whole TCP header: it reads neither the fragment offset nor the total
      length. */
  lemma ResetSeen(f: Frame)
    requires HasIp(f)
    ensures RstSeen(f) <==> 54 <= |f| && f[23] == 6 && f[47] / 4 % 2 == 1
    ensures Ihl(f) == 5 && StartsSegment(f) ==> (RstSeen(f) <==> IsReset(f))
    ensures Ihl(f) == 5 ==> ((RstSeen(f) <==> IsReset(f)) <==> StartsSegment(f) || !RstSeen(f))
  {
  }

  function RouteFor(m: RedirectMap, net: u32): Option<RedirectRoute> {
    if net in m then Some(m[net]) else if 0 in m then Some(m[0]) else None
  }

  /** The conversion of an unsigned register to the program's `int`. */
  function ToInt(x: u32): int {
    if x < 0x8000_0000 then x else x - 0x1_0000_0000
  }

  /** The rewrite a route asks for: both MAC addresses, and the source becomes its block's base. */
  function RouteEdit(f: Frame, r: RedirectRoute): Edit
    requires HasIp(f)
  {
    Edit(r.ifindex, r.smac, r.dmac, Some(Block(Saddr(f))), Daddr(f))
  }

  /** What the program does with a frame. */
  function Egress(f: Frame, m: RedirectMap): Outcome {
    if !HasIp(f) || Version(f) != 4 || Block(Saddr(f)) == Block(Daddr(f)) then Pass(f)
    else
      match RouteFor(m, Block(Daddr(f)))
      case None => Pass(f)
      case Some(r) =>
        if RstSeen(f) then Drop
        else
          var g := Rewrite(f, RouteEdit(f, r));
          if ToInt(r.ifindex) > 0 then Redirect(r.ifindex, g)
          else if ToInt(r.ifindex) == -1 then Drop
          else Pass(g)
  }

  /** What a frame that is sent on looks like: the hardware addresses of the route, `base` as the source,
      everything else as before, and a header checksum that verifies. */
  ghost predicate Translated(f: Frame, base: u32, r: RedirectRoute, g: Frame)
    requires HasIp(f)
  {
    SameButHeaders(f, g) && HasIp(g)
    && g[..6] == r.dmac && g[6..12] == r.smac
    && Saddr(g) == base && Daddr(g) == Daddr(f)
    && (HeaderInFrame(f) ==> HeaderInFrame(g) && ChecksumValid(g))
  }

  lemma TranslatedMeaning(f: Frame, r: RedirectRoute, g: Frame)
    requires HasIp(f) && g == Rewrite(f, RouteEdit(f, r))
    ensures Translated(f, Block(Saddr(f)), r, g)
  {
    hide Rewrite, ChecksumValid;
    RewriteAddresses(f, RouteEdit(f, r), g);
    if HeaderInFrame(f) {
      RewriteChecks(f, RouteEdit(f, r), g);
    }
  }

  /** The outcome `o` for a frame to be sent on by the route `r`: an interface number beyond the signed
      range is a negative return value, and -1 means drop. */
  ghost predicate SentOn(f: Frame, r: RedirectRoute, o: Outcome)
    requires HasIp(f)
  {
    if r.ifindex == 0xFFFF_FFFF then o == Drop
    else if 0 < r.ifindex < 0x8000_0000 then
      o.Redirect? && o.ifindex == r.ifindex && Translated(f, Block(Saddr(f)), r, o.sent)
    else o.Pass? && Translated(f, Block(Saddr(f)), r, o.frame)
  }

  /** The program as a whole, on any frame and any table: what is not IPv4, stays in its block, or has
      neither a route of its own nor the default route passes unchanged; of the rest, what looks like a
      reset is dropped and the others are sent on. */
  lemma EgressMeaning(f: Frame, m: RedirectMap)
    ensures var o := Egress(f, m);
            if |f| < 34 || f[14] / 16 != 4 || Block(Saddr(f)) == Block(Daddr(f)) then o == Pass(f)
            else if Block(Daddr(f)) !in m && 0 !in m then o == Pass(f)
            else if RstSeen(f) then o == Drop
            else SentOn(f, m[if Block(Daddr(f)) in m then Block(Daddr(f)) else 0], o)
  {
    hide Rewrite, Translated, RstSeen, Block, Be32;
    if HasIp(f) && (Block(Daddr(f)) in m || 0 in m) {
      var r := m[if Block(Daddr(f)) in m then Block(Daddr(f)) else 0];
      TranslatedMeaning(f, r, Rewrite(f, RouteEdit(f, r)));
    }
  }

  /** The stores of a translated frame: MAC addresses, masked source address, header check. */
  method RewriteBuffer(skb: SkBuff, info: RedirectRoute)
    requires HasIp(skb.data[..])
    modifies skb.data
    ensures skb.data[..] == Rewrite(old(skb.data[..]), RouteEdit(old(skb.data[..]), info))
  {
    hide Recheck, Be32Bytes, Le32Bytes, Block, Be32, And, Word;
    ghost var f := skb.data[..];
    MemCpy(skb.data, ETH_SOURCE, info.smac);
    MemCpy(skb.data, ETH_DEST, info.dmac);
    ghost var g := skb.data[..];
    Be32BytesOf(f, IP_DADDR);
    assert g[IP_DADDR..IP_DADDR + 4] == f[IP_DADDR..IP_DADDR + 4];
    PutSame(g, IP_DADDR, Be32Bytes(Daddr(f)));
    Be32Agree(f, g, IP_SADDR);
    LoadIsHtonl(g, IP_SADDR);
    MaskNet(Saddr(f));
    StoreIsNetworkOrder(Block(Saddr(f)));
    StoreLe32(skb.data, IP_SADDR, And(LoadLe32(skb.data[..], IP_SADDR), NET_MASK));
    StoreCheck(skb.data);
  }

  /** How the return value of the handler stands for an outcome. */
  ghost predicate Returned(iface: int, g: Frame, o: Outcome) {
    match o
    case Pass(h) => iface <= 0 && iface != -1 && g == h
    case Drop => iface == -1
    case Redirect(i, h) => iface == i > 0 && g == h
    case Split(_) => false
  }

  /** `ipv4_redirect_handle`: the interface to redirect to, -1 to drop, 0 to let pass. */
  method Ipv4RedirectHandle(skb: SkBuff, m: RedirectMap) returns (iface: int)
    requires skb.log == [] && skb.redirect == None
    modifies skb.data
    ensures Returned(iface, skb.data[..], Egress(old(skb.data[..]), m))
  {
    hide Rewrite, And, Block, Word, Be32;
    ghost var f := skb.data[..];
    if IP_END > skb.data.Length {
      return 0;
    }
    if skb.data[ETH_LEN] / 16 != 4 {
      return 0;
    }
    var ipDstAddr := And(LoadLe32(skb.data[..], IP_DADDR), NET_MASK);
    var ipSrcAddr := And(LoadLe32(skb.data[..], IP_SADDR), NET_MASK);
    LoadIsHtonl(f, IP_SADDR);
    LoadIsHtonl(f, IP_DADDR);
    MaskNet(Saddr(f));
    MaskNet(Daddr(f));
    WordInjective(Block(Saddr(f)), Block(Daddr(f)));
    if ipDstAddr == ipSrcAddr {
      return 0;
    }
    var haddr := Value(Htonl(ipDstAddr));
    WordRoundTrip(Block(Daddr(f)));
    var info: Option<RedirectRoute> := if haddr in m then Some(m[haddr]) else None;
    if info == None {
      info := if 0 in m then Some(m[0]) else None;
    }
    if info == None {
      return 0;
    }
    if skb.data[IP_PROTOCOL] == IPPROTO_TCP {
      if TCP_END <= skb.data.Length {
        if skb.data[TCP_FLAGS] / 4 % 2 == 1 {
          return -1;
        }
      }
    }
    RewriteBuffer(skb, info.value);
    return ToInt(info.value.ifindex);
  }

  /** `tc_subpodredirect`, run on the buffer in place. */
  method TcSubpodRedirect(skb: SkBuff, m: RedirectMap) returns (act: Action)
    requires skb.log == [] && skb.redirect == None
    modifies skb`redirect, skb.data
    ensures skb.Realises(act, Egress(old(skb.data[..]), m))
    ensures var o := Egress(old(skb.data[..]), m);
            (act == TcActOk <==> o.Pass?) && (act == TcActShot <==> o.Drop? || o.Split?)
            && (act == TcActRedirect <==> o.Redirect?)
  {
    hide Egress, Rewrite;
    ghost var o := Egress(skb.data[..], m);
    if ETH_LEN > skb.data.Length {
      ShortPasses(skb.data[..], m);
      return TcActOk;
    }
    var iface := Ipv4RedirectHandle(skb, m);
    assert Returned(iface, skb.data[..], o);
    if iface > 0 {
      skb.BpfRedirect(iface);
      return TcActRedirect;
    } else if iface == -1 {
      return TcActShot;
    } else {
      return TcActOk;
    }
  }

  lemma ShortPasses(f: Frame, m: RedirectMap)
    requires |f| < ETH_LEN
    ensures Egress(f, m) == Pass(f)
  {
  }
}
