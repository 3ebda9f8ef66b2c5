/** The classifier at the ingress of a pod bridge (`bpf_tail_call_ipv4.c`). */
module Classifier {
  import opened Wrappers
  import opened Words
  import opened Frames

  const TO_SPLIT: nat := 0
  const TO_TRANSLATE: nat := 1

  datatype Verdict = PassOn | TailCall(slot: nat)

  /** `lh_tails_ipv4`. `ipnet` is the entry of `ip_map`, `installed` the filled slots of
      `jump_table`: a tail call to an empty slot falls through to the next statement. */
  function LhTailsIpv4(f: Frame, ipnet: Option<u32>, installed: set<nat>): Verdict {
    if ETH_LEN <= |f| && HasIp(f) && Version(f) == 4 && ipnet.Some? then
      var saddr, daddr := LoadLe32(f, IP_SADDR), LoadLe32(f, IP_DADDR);
      var snet := And(saddr, NET_MASK);
      var dnet := And(daddr, NET_MASK);
      var nsnet := Htonl(Word(ipnet.value));
      var iploc := And(nsnet, LOC_MASK);
      if snet != dnet && saddr != iploc && daddr != iploc then
        if dnet == nsnet && TO_SPLIT in installed then TailCall(TO_SPLIT)
        else if snet == nsnet && TO_TRANSLATE in installed then TailCall(TO_TRANSLATE)
        else PassOn
      else PassOn
    else PassOn
  }

  /** The packet crosses blocks and neither end is the reserved address of the bridge's subnet. */
  predicate Crosses(f: Frame, base: u32)
    requires HasIp(f)
  {
    Version(f) == 4 && Block(Saddr(f)) != Block(Daddr(f)) && Saddr(f) != Loc(base) && Daddr(f) != Loc(base)
  }

  /** What the masked comparisons decide, in terms of addresses. */
  lemma ClassifierMeaning(f: Frame, base: u32, installed: set<nat>)
    requires HasIp(f)
    ensures LhTailsIpv4(f, Some(base), installed) ==
            if !Crosses(f, base) then PassOn
            else if Block(Daddr(f)) == base && TO_SPLIT in installed then TailCall(TO_SPLIT)
            else if Block(Saddr(f)) == base && TO_TRANSLATE in installed then TailCall(TO_TRANSLATE)
            else PassOn
  {
    hide And, Word, Block, Loc;
    LoadIsHtonl(f, IP_SADDR);
    LoadIsHtonl(f, IP_DADDR);
    MaskNet(Saddr(f));
    MaskNet(Daddr(f));
    MaskLoc(base);
    WordInjective(Block(Saddr(f)), Block(Daddr(f)));
    WordInjective(Saddr(f), Loc(base));
    WordInjective(Daddr(f), Loc(base));
    WordInjective(Block(Daddr(f)), base);
    WordInjective(Block(Saddr(f)), base);
  }

  /** What is not IPv4, and every frame at an interface without a subnet, passes. */
  lemma NoVerdict(f: Frame, ipnet: Option<u32>, installed: set<nat>)
    requires |f| < 34 || f[14] / 16 != 4 || ipnet.None?
    ensures LhTailsIpv4(f, ipnet, installed) == PassOn
  {
  }

  /** The two tail calls exclude each other: whichever slots of the jump table are filled, a frame
      that one of them can take is never offered to the other. */
  lemma TailCallsExclusive(f: Frame, ipnet: Option<u32>)
    ensures LhTailsIpv4(f, ipnet, {TO_SPLIT}) == PassOn || LhTailsIpv4(f, ipnet, {TO_TRANSLATE}) == PassOn
    ensures LhTailsIpv4(f, ipnet, {TO_SPLIT, TO_TRANSLATE}) ==
            if LhTailsIpv4(f, ipnet, {TO_SPLIT}) != PassOn then LhTailsIpv4(f, ipnet, {TO_SPLIT})
            else LhTailsIpv4(f, ipnet, {TO_TRANSLATE})
  {
  }
}
