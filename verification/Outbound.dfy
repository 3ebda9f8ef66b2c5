/** Frames that leave the node, and what every redirect off a bridge carries. */
module Outbound {
  import opened Words
  import opened Frames
  import opened Checksum
  import opened Tc
  import opened AddressManager
  import opened Translate
  import opened Ebpf
  import opened PodState
  import opened PodInvariant
  import opened DataPlane
  import opened Delivery
  import opened Localhost
  import opened Standalone
  import SplitLocalhost

  // ---- Hardware addresses ----

  /** Every redirect off a pod's bridge carries the hardware address of that bridge as source and that
      of the interface it goes to as destination: the public interface, or the bridge of another pod. */
  lemma RedirectAddresses(s: Net, key: string, f: Frame, j: u32, g: Frame)
    requires Reachable(s) && key in s.pods
    requires AtBridge(s.k, s.pods[key].podBridge.index, f) == Redirect(j, g)
    ensures |g| >= 34 && g[6..12] == s.pods[key].podBridge.mac
    ensures j == s.publicIf.index ==> g[..6] == s.publicIf.mac
    ensures forall q :: q in s.pods && s.pods[q].podBridge.index == j ==>
              q != key && g[..6] == s.pods[q].podBridge.mac
    ensures j == s.publicIf.index || exists q :: q in s.pods && s.pods[q].podBridge.index == j
  {
    hide Inv, Reachable, AtBridge, RoutesComplete, SplitOk, ChecksumValid, IndicesApart;
    ReachableInv(s);
    RedirectMeaning(s, key, f, j, g);
    Indices(s);
    var m := s.k.redirect[s.pods[key].fromSubpodBpfMap];
    RouteMacs(s.publicIf, s.pods, key, m, if Block(Daddr(f)) in m then Block(Daddr(f)) else 0);
  }

  /** The bridges and the public interface have different numbers. */
  ghost predicate IndicesApart(public: Link, pods: map<string, PodDevices>) {
    (forall q :: q in pods ==> pods[q].podBridge.index != public.index)
    && forall p, q :: p in pods && q in pods && p != q ==> pods[p].podBridge.index != pods[q].podBridge.index
  }

  lemma Indices(s: Net)
    requires Inv(s)
    ensures IndicesApart(s.publicIf, s.pods)
  {
    hide Inv;
    forall q | q in s.pods
      ensures s.pods[q].podBridge.index != s.publicIf.index
    {
      BridgeNotPublic(s, q);
    }
    forall p, q | p in s.pods && q in s.pods && p != q
      ensures s.pods[p].podBridge.index != s.pods[q].podBridge.index
    {
      BasesDiffer(s, p, q);
    }
  }

  /** What a route of pod `key` says, whichever it is. */
  lemma RouteMacs(public: Link, pods: map<string, PodDevices>, key: string, m: RedirectMap, x: u32)
    requires key in pods && RoutesSound(public, pods, key, m) && x in m && IndicesApart(public, pods)
    ensures m[x].smac == pods[key].podBridge.mac
    ensures m[x].ifindex == public.index ==> m[x].dmac == public.mac
    ensures forall q :: q in pods && pods[q].podBridge.index == m[x].ifindex ==>
              q != key && m[x].dmac == pods[q].podBridge.mac
    ensures m[x].ifindex == public.index || exists q :: q in pods && pods[q].podBridge.index == m[x].ifindex
    ensures x == 0 ==> m[x].ifindex == public.index
  {
    if x != 0 {
      var p :| p in pods && p != key && m[x] == PeerRoute(pods[key], pods[p]);
      assert m[x].ifindex == PeerRoute(pods[key], pods[p]).ifindex == pods[p].podBridge.index;
    }
  }

  lemma BridgeNotPublic(s: Net, q: string)
    requires Inv(s) && q in s.pods
    ensures s.pods[q].podBridge.index != s.publicIf.index
    ensures 0 < s.publicIf.index < 0x8000_0000 && s.publicIf.index !in s.k.bridges
  {
    hide PoolOk, PodsOk, PodsApart, AllRoutesOk;
    PodWiring(s, q);
  }

  // ---- Off the node ----

  /** Pod `key` has the default route. */
  ghost predicate HasDefault(s: Net, key: string)
    requires key in s.pods
  {
    s.pods[key].fromSubpodBpfMap in s.k.redirect && 0 in s.k.redirect[s.pods[key].fromSubpodBpfMap]
  }

  /** The frame `g` that leaves for the public interface: between the hardware addresses of the bridge and
      of that interface, from the base of the pod, to where the workload sent it, with its payload, and
      with a header checksum that verifies. */
  ghost predicate Leaves(f: Frame, d: PodDevices, public: Link, g: Frame)
    requires HasIp(f)
  {
    SameButHeaders(f, g) && HasIp(g)
    && g[..6] == public.mac && g[6..12] == d.podBridge.mac
    && Saddr(g) == d.baseAddr && Daddr(g) == Daddr(f)
    && HeaderInFrame(g) && ChecksumValid(g)
  }

  /** A frame from a workload to no pod of the node that its own pod has a route to: it is caught as a
      localhost request, or passed unchanged because of a reserved address or for want of a default
      route, or dropped as a reset, or it leaves for the public interface. With at most 64 pods there
      always is a default route. */
  lemma OffNode(s: Net, key: string, a: u32, f: Frame)
    requires Reachable(s) && key in s.pods && a in s.pods[key].addressesUsed
    requires HeaderInFrame(f) && Version(f) == 4 && Saddr(f) == a && Block(Daddr(f)) != s.pods[key].baseAddr
    requires forall q :: q in s.pods && s.pods[q].baseAddr == Block(Daddr(f)) ==> !Knows(s, key, q)
    ensures var d := s.pods[key];
            var o := WorkloadJourney(s.k, d.addressesUsed[a].index, d.podBridge.index, f);
            if Daddr(f) == Loc(a) then o.Split?
            else if Daddr(f) == Loc(d.baseAddr) || !HasDefault(s, key) then o == Pass(f)
            else if RstSeen(f) then o == Drop
            else o.Redirect? && o.ifindex == s.publicIf.index && Leaves(f, d, s.publicIf, o.sent)
    ensures |s.pods| <= 64 ==> HasDefault(s, key)
  {
    hide Inv, Reachable, AtPort, AtBridge, Egress, Leaves, RstSeen, SplitOk, RoutesSound, RoutesComplete, Loc, Block;
    hide Be32, IndicesApart;
    ReachableInv(s);
    var d := s.pods[key];
    PodWiring(s, key);
    PodBase(s, key);
    WorkloadNotBase(s, key, a);
    BridgeNotPublic(s, key);
    DefaultKnown(s, key);
    if Daddr(f) == Loc(a) {
      RequestCaught(s, key, a, f);
    } else {
      PortPasses(s, key, a, f);
      BridgeTranslates(s.k, d.podBridge.index, f, d.baseAddr, s.k.bridges[d.podBridge.index]);
      Indices(s);
      ByDefault(s.publicIf, s.pods, key, s.k.redirect[d.fromSubpodBpfMap], f);
    }
  }

  lemma DefaultKnown(s: Net, key: string)
    requires Inv(s) && key in s.pods
    ensures |s.pods| <= 64 ==> HasDefault(s, key)
  {
    hide Inv, SplitOk, RoutesSound;
    PodWiring(s, key);
  }

  lemma RequestCaught(s: Net, key: string, a: u32, f: Frame)
    requires Inv(s) && key in s.pods && a in s.pods[key].addressesUsed
    requires HasIp(f) && Version(f) == 4 && Saddr(f) == a && Daddr(f) == Loc(a)
    ensures AtPort(s.k, s.pods[key].addressesUsed[a].index, f).Split?
  {
    hide Inv, LhOk, Loc, Block, Be32, SplitLocalhost.ActiveEdits, Emit;
    WorkloadWiring(s, key, a);
  }

  /** What the egress program makes of a frame to no block that the pod has a route to. */
  lemma ByDefault(public: Link, pods: map<string, PodDevices>, key: string, m: RedirectMap, f: Frame)
    requires key in pods && RoutesSound(public, pods, key, m) && IndicesApart(public, pods)
    requires 0 < public.index < 0x8000_0000 && HeaderInFrame(f) && Version(f) == 4
    requires Block(Saddr(f)) == pods[key].baseAddr != Block(Daddr(f))
    requires forall q :: q in pods && pods[q].baseAddr == Block(Daddr(f)) ==> pods[q].baseAddr !in m
    ensures var o := Egress(f, m);
            if 0 !in m then o == Pass(f)
            else if RstSeen(f) then o == Drop
            else o.Redirect? && o.ifindex == public.index && Leaves(f, pods[key], public, o.sent)
  {
    hide Egress, IndicesApart, RstSeen, Block, Be32, ChecksumValid;
    EgressMeaning(f, m);
    assert Block(Daddr(f)) in m ==> Block(Daddr(f)) == 0;
    if 0 in m {
      RouteMacs(public, pods, key, m, 0);
    }
  }

  /** A frame from a workload of a standalone node to an address outside the node's subnet leaves for the
      public interface, if and only if it is not taken for a TCP reset; then it is dropped. */
  lemma StandaloneOffNode(s: Net, key: string, a: u32, f: Frame)
    requires Reachable(s) && IsStandalone(s.pool) && key in s.pods && a in s.pods[key].addressesUsed
    requires HeaderInFrame(f) && Version(f) == 4 && Saddr(f) == a && Daddr(f) / 0x100 != s.pool.base / 0x100
    ensures var d := s.pods[key];
            var o := WorkloadJourney(s.k, d.addressesUsed[a].index, d.podBridge.index, f);
            if RstSeen(f) then o == Drop
            else o.Redirect? && o.ifindex == s.publicIf.index && Leaves(f, d, s.publicIf, o.sent)
  {
    hide Inv, Reachable, WorkloadJourney, Knows, Leaves, RstSeen, Be32, HasDefault, IsStandalone;
    ReachableInv(s);
    PodsFitPool(s);
    forall q | q in s.pods
      ensures s.pods[q].baseAddr != Block(Daddr(f))
    {
      PodBase(s, q);
      InSubnet(s, q, s.pods[q].baseAddr);
      SubnetPrefix(s.pool, s.pods[q].baseAddr);
      SamePrefix(Daddr(f));
    }
    WorkloadNotBase(s, key, a);
    PodBase(s, key);
    InSubnet(s, key, a);
    InSubnet(s, key, s.pods[key].baseAddr);
    SubnetPrefix(s.pool, a);
    SubnetPrefix(s.pool, s.pods[key].baseAddr);
    OffNode(s, key, a, f);
  }

  /** An address in the subnet of a standalone node, the reserved address that it masks to, and its
      block share the first three octets. */
  lemma SubnetPrefix(p: Pool, a: u32)
    requires IsStandalone(p) && Loc(a) == p.base + a % 2
    ensures a / 0x100 == Loc(a) / 0x100 == Block(a) / 0x100 == p.base / 0x100
  {
    hide Block, Loc;
    SamePrefix(a);
    PrefixOf(p.base, Loc(a), a % 2);
  }

  lemma PrefixOf(base: u32, x: u32, r: nat)
    requires base % 0x100 == 0 && r < 2 && x == base + r
    ensures x / 0x100 == base / 0x100
  {
  }
}
