/** Ingress fan-out: `split_redirect_generic_ipv4_tc.c`. */
module SplitGeneric {
  import opened Wrappers
  import opened Words
  import opened Frames
  import opened Checksum
  import opened Tc

  /** How many slots the program visits: all of them. */
  const VISITED: nat := 8

  datatype SplitRoute = SplitRoute(active: u32, targetIfIndex: u32, daddr: u32, smac: Mac, dmac: Mac)

  /** The array map `tc_split_map`: a lookup outside it finds nothing. */
  type SplitTable = seq<SplitRoute>

  function SlotEdits(table: SplitTable, i: nat): (es: seq<Edit>)
    ensures |es| <= 1
  {
    if i < |table| && table[i].active != 0 then
      [Edit(table[i].targetIfIndex, table[i].smac, table[i].dmac, None, table[i].daddr)]
    else []
  }

  /** The rewrites of the active slots below `n`, in slot order. */
  function ActiveEdits(table: SplitTable, n: nat): (es: seq<Edit>)
    ensures forall k :: 0 <= k < |es| ==> es[k].saddr.None?
  {
    if n == 0 then [] else ActiveEdits(table, n - 1) + SlotEdits(table, n - 1)
  }

  /** What the program does with a frame: one clone of the original per active slot. */
  function FanOut(f: Frame, table: SplitTable): Outcome {
    if HasIp(f) && Version(f) == 4 then Split(Emit(f, ActiveEdits(table, VISITED))) else Pass(f)
  }

  /** What is not IPv4 passes unchanged. */
  lemma OtherPasses(f: Frame, table: SplitTable)
    requires |f| < 34 || f[14] / 16 != 4
    ensures FanOut(f, table) == Pass(f)
  {
  }

  lemma NoSlots(table: SplitTable)
    ensures ActiveEdits(table, 0) == []
  {
  }

  lemma SlotActive(table: SplitTable, i: nat)
    ensures ActiveEdits(table, i + 1) ==
            if i < |table| && table[i].active != 0 then
              ActiveEdits(table, i) + [Edit(table[i].targetIfIndex, table[i].smac, table[i].dmac, None, table[i].daddr)]
            else ActiveEdits(table, i)
  {
  }

  method CloneRedir(i: nat, skb: SkBuff, table: SplitTable, ghost f: Frame)
    requires Ran(skb, f, ActiveEdits(table, i))
    modifies skb`log, skb.data
    ensures Ran(skb, f, ActiveEdits(table, i + 1))
  {
    hide Rewrite, Shared, ActiveEdits, SlotEdits;
    ghost var es := ActiveEdits(table, i);
    SlotActive(table, i);
    if i < |table| && table[i].active != 0 {
      var info := table[i];
      ghost var e := Edit(info.targetIfIndex, info.smac, info.dmac, None, info.daddr);
      if ETH_LEN <= skb.data.Length {
        if IP_END <= skb.data.Length {
          RewriteBuffer(skb, info, e);
          skb.CloneRedirect(info.targetIfIndex);
          SharedSnoc(f, es, e);
        }
      }
    }
  }

  /** The stores of one slot: MAC addresses, destination address, header check. */
  method RewriteBuffer(skb: SkBuff, info: SplitRoute, ghost e: Edit)
    requires HasIp(skb.data[..])
    requires e == Edit(info.targetIfIndex, info.smac, info.dmac, None, info.daddr)
    modifies skb.data
    ensures skb.data[..] == Rewrite(old(skb.data[..]), e)
  {
    hide Recheck, Be32Bytes, Le32Bytes;
    MemCpy(skb.data, ETH_SOURCE, info.smac);
    MemCpy(skb.data, ETH_DEST, info.dmac);
    StoreIsNetworkOrder(info.daddr);
    StoreLe32(skb.data, IP_DADDR, Htonl(Word(info.daddr)));
    StoreCheck(skb.data);
  }

  method Ipv4LhHandle(skb: SkBuff, table: SplitTable) returns (handled: bool)
    requires skb.log == [] && skb.redirect == None
    modifies skb`log, skb.data
    ensures handled == (HasIp(old(skb.data[..])) && Version(old(skb.data[..])) == 4)
    ensures handled ==> Ran(skb, old(skb.data[..]), ActiveEdits(table, VISITED))
    ensures !handled ==> skb.data[..] == old(skb.data[..]) && skb.log == []
  {
    hide Ran, ActiveEdits;
    ghost var f := skb.data[..];
    if ETH_LEN > skb.data.Length {
      return false;
    }
    if IP_END > skb.data.Length {
      return false;
    }
    if skb.data[ETH_LEN] / 16 != 4 {
      return false;
    }
    NothingRan(skb, f);
    NoSlots(table);
    CloneRedir(0, skb, table, f);
    CloneRedir(1, skb, table, f);
    CloneRedir(2, skb, table, f);
    CloneRedir(3, skb, table, f);
    CloneRedir(4, skb, table, f);
    CloneRedir(5, skb, table, f);
    CloneRedir(6, skb, table, f);
    CloneRedir(7, skb, table, f);
    return true;
  }

  /** `tc_generic2split`, run on the buffer in place. */
  method TcGeneric2Split(skb: SkBuff, table: SplitTable) returns (act: Action)
    requires skb.log == [] && skb.redirect == None
    modifies skb`log, skb.data
    ensures skb.Realises(act, FanOut(old(skb.data[..]), table))
    ensures var o := FanOut(old(skb.data[..]), table);
            (act == TcActOk <==> o.Pass?) && (act == TcActShot <==> o.Drop? || o.Split?)
            && (act == TcActRedirect <==> o.Redirect?)
  {
    ghost var f := skb.data[..];
    var handled := Ipv4LhHandle(skb, table);
    if handled {
      RanLog(skb, f, ActiveEdits(table, VISITED));
      return TcActShot;
    } else {
      return TcActOk;
    }
  }
}
