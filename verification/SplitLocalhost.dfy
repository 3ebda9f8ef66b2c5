/** Pod-local "localhost" fan-out at the port of a workload: `split_redirect_lh_ipv4_tc.c`. */
module SplitLocalhost {
  import opened Wrappers
  import opened Words
  import opened Frames
  import opened Checksum
  import opened Tc

  /** The program visits only the first half of the eight slots of its map. */
  const VISITED: nat := 4

  datatype LhRoute = LhRoute(active: u32, targetIfIndex: u32, saddr: u32, daddr: u32, smac: Mac, dmac: Mac)

  /** The array map `tc_lh_map`. */
  type LhTable = seq<LhRoute>

  /** The rewrite of slot `i`: on the way out the source is the slot's own source address, on the
      way back it is the address in `tc_lhaddr_map`. */
  function SlotEdits(table: LhTable, src: Option<u32>, i: nat): (es: seq<Edit>)
    ensures |es| <= 1
  {
    if i < |table| && table[i].active != 0 then
      var r := table[i];
      [Edit(r.targetIfIndex, r.smac, r.dmac, if src.Some? then src else Some(r.saddr), r.daddr)]
    else []
  }

  function ActiveEdits(table: LhTable, src: Option<u32>, n: nat): (es: seq<Edit>)
    ensures forall k :: 0 <= k < |es| ==> es[k].saddr.Some?
  {
    if n == 0 then [] else ActiveEdits(table, src, n - 1) + SlotEdits(table, src, n - 1)
  }

  /** What the program does with a frame: a request for the localhost address of the sender's
      subnet goes to the visited slots as the pod, a reply to the pod goes to them as localhost. */
  function LocalSplit(f: Frame, table: LhTable, lhaddr: Option<u32>): Outcome {
    if !HasIp(f) || Version(f) != 4 then Pass(f)
    else if Daddr(f) == Loc(Saddr(f)) then Split(Emit(f, ActiveEdits(table, None, VISITED)))
    else if Daddr(f) == Block(Saddr(f)) then
      Split(if lhaddr.Some? then Emit(f, ActiveEdits(table, lhaddr, VISITED)) else [])
    else Pass(f)
  }

  lemma NoSlots(table: LhTable, src: Option<u32>)
    ensures ActiveEdits(table, src, 0) == []
  {
  }

  lemma SlotActive(table: LhTable, src: Option<u32>, i: nat)
    ensures ActiveEdits(table, src, i + 1) ==
            if i < |table| && table[i].active != 0 then
              ActiveEdits(table, src, i)
              + [Edit(table[i].targetIfIndex, table[i].smac, table[i].dmac,
                      if src.Some? then src else Some(table[i].saddr), table[i].daddr)]
            else ActiveEdits(table, src, i)
  {
  }

  /** The stores of one slot: MAC addresses, both IP addresses, header check. */
  method RewriteBuffer(skb: SkBuff, info: LhRoute, saddr: u32, ghost e: Edit)
    requires HasIp(skb.data[..])
    requires e == Edit(info.targetIfIndex, info.smac, info.dmac, Some(saddr), info.daddr)
    modifies skb.data
    ensures skb.data[..] == Rewrite(old(skb.data[..]), e)
  {
    hide Recheck, Be32Bytes, Le32Bytes;
    MemCpy(skb.data, ETH_SOURCE, info.smac);
    MemCpy(skb.data, ETH_DEST, info.dmac);
    StoreIsNetworkOrder(info.daddr);
    StoreLe32(skb.data, IP_DADDR, Htonl(Word(info.daddr)));
    StoreIsNetworkOrder(saddr);
    StoreLe32(skb.data, IP_SADDR, Htonl(Word(saddr)));
    StoreCheck(skb.data);
  }

  method CloneRedirForward(i: nat, skb: SkBuff, table: LhTable, ghost f: Frame)
    requires Ran(skb, f, ActiveEdits(table, None, i))
    modifies skb`log, skb.data
    ensures Ran(skb, f, ActiveEdits(table, None, i + 1))
  {
    hide Rewrite, Shared, ActiveEdits, SlotEdits;
    SlotActive(table, None, i);
    if i >= |table| {
      return;
    }
    if table[i].active != 0 {
      var info := table[i];
      ghost var e := Edit(info.targetIfIndex, info.smac, info.dmac, Some(info.saddr), info.daddr);
      if ETH_LEN <= skb.data.Length {
        if IP_END <= skb.data.Length {
          RewriteBuffer(skb, info, info.saddr, e);
          skb.CloneRedirect(info.targetIfIndex);
          SharedSnoc(f, ActiveEdits(table, None, i), e);
        }
      }
    }
  }

  method CloneRedirBackward(i: nat, skb: SkBuff, table: LhTable, lhaddr: Option<u32>, ghost f: Frame)
    requires Ran(skb, f, if lhaddr.Some? then ActiveEdits(table, lhaddr, i) else [])
    modifies skb`log, skb.data
    ensures Ran(skb, f, if lhaddr.Some? then ActiveEdits(table, lhaddr, i + 1) else [])
  {
    hide Rewrite, Shared, ActiveEdits, SlotEdits;
    SlotActive(table, lhaddr, i);
    if i < |table| && lhaddr.Some? && table[i].active != 0 {
      var info := table[i];
      ghost var e := Edit(info.targetIfIndex, info.smac, info.dmac, lhaddr, info.daddr);
      if ETH_LEN <= skb.data.Length {
        if IP_END <= skb.data.Length {
          RewriteBuffer(skb, info, lhaddr.value, e);
          skb.CloneRedirect(info.targetIfIndex);
          SharedSnoc(f, ActiveEdits(table, lhaddr, i), e);
        }
      }
    }
  }

  /** `ipv4_lh_handle`. */
  method Ipv4LhHandle(skb: SkBuff, table: LhTable, lhaddr: Option<u32>) returns (handled: bool)
    requires skb.log == [] && skb.redirect == None
    modifies skb`log, skb.data
    ensures skb.Realises(if handled then TcActShot else TcActOk, LocalSplit(old(skb.data[..]), table, lhaddr))
  {
    ghost var f := skb.data[..];
    if ETH_LEN > skb.data.Length {
      return false;
    }
    if IP_END > skb.data.Length {
      return false;
    }
    if skb.data[ETH_LEN] / 16 != 4 {
      return false;
    }
    var ipDstAddr := LoadLe32(skb.data[..], IP_DADDR);
    var lh := And(LoadLe32(skb.data[..], IP_SADDR), LOC_MASK);
    var snet := And(LoadLe32(skb.data[..], IP_SADDR), NET_MASK);
    MaskedSource(f);
    hide LocalSplit, ActiveEdits, And, LoadLe32, Emit;
    if ipDstAddr == lh {
      ForwardAll(skb, table);
      LocalRequest(f, table, lhaddr);
      return true;
    } else {
      if snet == ipDstAddr {
        BackwardAll(skb, table, lhaddr);
        LocalReply(f, table, lhaddr);
        return true;
      }
    }
    LocalOther(f, table, lhaddr);
    return false;
  }

  method ForwardAll(skb: SkBuff, table: LhTable)
    requires HasIp(skb.data[..]) && skb.log == [] && skb.redirect == None
    modifies skb`log, skb.data
    ensures skb.redirect == None && skb.log == Emit(old(skb.data[..]), ActiveEdits(table, None, VISITED))
  {
    hide Ran, ActiveEdits, Emit;
    ghost var f := skb.data[..];
    NothingRan(skb, f);
    NoSlots(table, None);
    CloneRedirForward(0, skb, table, f);
    CloneRedirForward(1, skb, table, f);
    CloneRedirForward(2, skb, table, f);
    CloneRedirForward(3, skb, table, f);
    RanLog(skb, f, ActiveEdits(table, None, VISITED));
  }

  method BackwardAll(skb: SkBuff, table: LhTable, lhaddr: Option<u32>)
    requires HasIp(skb.data[..]) && skb.log == [] && skb.redirect == None
    modifies skb`log, skb.data
    ensures skb.redirect == None
    ensures skb.log == Emit(old(skb.data[..]), if lhaddr.Some? then ActiveEdits(table, lhaddr, VISITED) else [])
  {
    hide Ran, ActiveEdits, Emit;
    ghost var f := skb.data[..];
    NothingRan(skb, f);
    NoSlots(table, lhaddr);
    CloneRedirBackward(0, skb, table, lhaddr, f);
    CloneRedirBackward(1, skb, table, lhaddr, f);
    CloneRedirBackward(2, skb, table, lhaddr, f);
    CloneRedirBackward(3, skb, table, lhaddr, f);
    RanLog(skb, f, if lhaddr.Some? then ActiveEdits(table, lhaddr, VISITED) else []);
  }

  /** The masked comparisons, in terms of addresses. */
  lemma MaskedSource(f: Frame)
    requires HasIp(f)
    ensures LoadLe32(f, IP_DADDR) == And(LoadLe32(f, IP_SADDR), LOC_MASK) <==> Daddr(f) == Loc(Saddr(f))
    ensures LoadLe32(f, IP_DADDR) == And(LoadLe32(f, IP_SADDR), NET_MASK) <==> Daddr(f) == Block(Saddr(f))
  {
    hide And, Word, Block, Loc;
    LoadIsHtonl(f, IP_SADDR);
    LoadIsHtonl(f, IP_DADDR);
    MaskNet(Saddr(f));
    MaskLoc(Saddr(f));
    WordInjective(Daddr(f), Loc(Saddr(f)));
    WordInjective(Daddr(f), Block(Saddr(f)));
  }

  lemma LocalRequest(f: Frame, table: LhTable, lhaddr: Option<u32>)
    requires HasIp(f) && Version(f) == 4 && Daddr(f) == Loc(Saddr(f))
    ensures LocalSplit(f, table, lhaddr) == Split(Emit(f, ActiveEdits(table, None, VISITED)))
  {
  }

  lemma LocalReply(f: Frame, table: LhTable, lhaddr: Option<u32>)
    requires HasIp(f) && Version(f) == 4 && Daddr(f) != Loc(Saddr(f)) && Daddr(f) == Block(Saddr(f))
    ensures LocalSplit(f, table, lhaddr) ==
            Split(Emit(f, if lhaddr.Some? then ActiveEdits(table, lhaddr, VISITED) else []))
  {
  }

  /** What is not IPv4 passes unchanged. */
  lemma OtherPasses(f: Frame, table: LhTable, lhaddr: Option<u32>)
    requires |f| < 34 || f[14] / 16 != 4
    ensures LocalSplit(f, table, lhaddr) == Pass(f)
  {
  }

  lemma LocalOther(f: Frame, table: LhTable, lhaddr: Option<u32>)
    requires HasIp(f) && Daddr(f) != Loc(Saddr(f)) && Daddr(f) != Block(Saddr(f))
    ensures LocalSplit(f, table, lhaddr) == Pass(f)
  {
  }

  /** `tc_lh2split`, run on the buffer in place. */
  method TcLh2Split(skb: SkBuff, table: LhTable, lhaddr: Option<u32>) returns (act: Action)
    requires skb.log == [] && skb.redirect == None
    modifies skb`log, skb.data
    ensures skb.Realises(act, LocalSplit(old(skb.data[..]), table, lhaddr))
    ensures var o := LocalSplit(old(skb.data[..]), table, lhaddr);
            (act == TcActOk <==> o.Pass?) && (act == TcActShot <==> o.Drop? || o.Split?)
            && (act == TcActRedirect <==> o.Redirect?)
  {
    var handled := Ipv4LhHandle(skb, table, lhaddr);
    return if handled then TcActShot else TcActOk;
  }
}
