/** The standalone node, whose subnet is a /24 with a base ending in `.0`: there every condition
    that the other theorems carry holds by itself, in every reachable state. */
module Standalone {
  import opened Words
  import opened Frames
  import opened AddressManager
  import opened Translate
  import opened Ebpf
  import opened PodState
  import opened PodInvariant
  import opened DataPlane
  import opened Delivery
  import opened Localhost

  predicate IsStandalone(p: Pool) {
    p.base % 0x100 == 0 && p.max <= p.base + 0x100
  }

  /** A reachable state has no more pods than blocks in its pool, and so at most 31. */
  lemma PodsFitPool(s: Net)
    requires Reachable(s) && IsStandalone(s.pool)
    ensures |s.pods| <= |s.pool.used| <= 31
  {
    hide Inv, Reachable;
    ReachableInv(s);
    PoolSound(s);
    PoolCapacity(s.pool, 0x100);
    var bases := set q | q in s.pods.Keys :: s.pods[q].baseAddr;
    forall p, q | p in s.pods && q in s.pods && p != q
      ensures s.pods[p].baseAddr != s.pods[q].baseAddr
    {
      BasesDiffer(s, p, q);
    }
    BasesSize(s.pods, s.pods.Keys);
    forall q | q in s.pods
      ensures s.pods[q].baseAddr in s.pool.used
    {
      PodBase(s, q);
    }
    SubsetSize(bases, s.pool.used.Keys);
    assert |s.pods.Keys| == |s.pods| && |s.pool.used.Keys| == |s.pool.used|;
  }

  lemma PoolSound(s: Net)
    requires Inv(s)
    ensures Sound(s.pool) && s.gateway == s.pool.base + 1
  {
  }

  /** Where the blocks of a standalone node lie, and what its reserved addresses are. */
  lemma InSubnet(s: Net, key: string, a: u32)
    requires Inv(s) && IsStandalone(s.pool) && key in s.pods && Block(a) == s.pods[key].baseAddr
    ensures s.pool.base + 8 <= s.pods[key].baseAddr && s.pods[key].baseAddr + 8 <= s.pool.base + 0x100
    ensures Loc(a) == s.pool.base + a % 2
  {
    hide Inv;
    PodBase(s, key);
    var b := s.pods[key].baseAddr;
    var q := (b - s.pool.base) / 8;
    assert b == s.pool.base + 8 * q && q < 32;
    assert s.pool.base == 0x100 * (s.pool.base / 0x100);
    assert a / 0x100 == s.pool.base / 0x100;
  }

  /** Redirect mesh: in every reachable state of a standalone node every pod has a route to every
      other one and the default route, and no map is more than half full, so no route is ever lost. */
  lemma StandaloneMesh(s: Net)
    requires Reachable(s) && IsStandalone(s.pool)
    ensures |s.pods| <= 31 && Mesh(s)
    ensures forall key :: key in s.pods ==>
              s.pods[key].fromSubpodBpfMap in s.k.redirect
              && |s.k.redirect[s.pods[key].fromSubpodBpfMap]| == |s.pods| <= REDIRECT_ENTRIES / 2
  {
    hide Inv, Reachable, Mesh, PodMeshed;
    ReachableInv(s);
    PodsFitPool(s);
    forall key | key in s.pods
      ensures s.pods[key].fromSubpodBpfMap in s.k.redirect
              && |s.k.redirect[s.pods[key].fromSubpodBpfMap]| == |s.pods|
    {
      MapSize(s, key);
    }
    MeshIffRoom(s);
  }

  lemma MapSize(s: Net, key: string)
    requires Inv(s) && key in s.pods && |s.pods| <= REDIRECT_ENTRIES
    ensures s.pods[key].fromSubpodBpfMap in s.k.redirect
            && |s.k.redirect[s.pods[key].fromSubpodBpfMap]| == |s.pods|
  {
    hide Inv, RoutesSound, SplitOk;
    PodWiring(s, key);
    hide RoutesComplete;
    CompleteSize(s, key, s.k.redirect[s.pods[key].fromSubpodBpfMap]);
  }

  /** End-to-end delivery on a standalone node: in every reachable state a frame from a workload of
      one pod to any address in the block of another pod is fanned out there, one clone per
      workload, if and only if it is not taken for a TCP reset; when its datagram begins with a whole
      layer 4 header and has no options, that is to say, if and only if it is none. */
  lemma StandaloneDelivery(s: Net, key: string, q: string, a: u32, f: Frame)
    requires Reachable(s) && IsStandalone(s.pool)
    requires key in s.pods && q in s.pods && q != key && a in s.pods[key].addressesUsed
    requires HeaderInFrame(f) && Version(f) == 4 && Saddr(f) == a && Block(Daddr(f)) == s.pods[q].baseAddr
    ensures var d, e := s.pods[key], s.pods[q];
            Delivered(f, d.baseAddr, e, WorkloadJourney(s.k, d.addressesUsed[a].index, d.podBridge.index, f))
            <==> !RstSeen(f)
    ensures Ihl(f) == 5 && StartsSegment(f) ==> (RstSeen(f) <==> IsReset(f))
  {
    hide Inv, Reachable, Delivered, WorkloadJourney, Knows, RstSeen, Block, Be32, Loc, Passable;
    ReachableInv(s);
    PodsFitPool(s);
    MeshKnows(s, key, q);
    WorkloadNotBase(s, key, a);
    PodBase(s, key);
    PodBase(s, q);
    InSubnet(s, key, a);
    InSubnet(s, key, s.pods[key].baseAddr);
    InSubnet(s, q, Daddr(f));
    InSubnet(s, q, s.pods[q].baseAddr);
    BlockBelow(Daddr(f));
    EndToEnd(s, key, q, a, f);
    PassableMeaning(f, s.pods[key].baseAddr, s.pods[q].baseAddr);
    ResetSeen(f);
  }

  lemma MeshKnows(s: Net, key: string, q: string)
    requires Inv(s) && key in s.pods && q in s.pods && q != key && |s.pods| <= REDIRECT_ENTRIES
    ensures Knows(s, key, q)
  {
    hide Inv;
    PodMesh(s, key);
  }

  lemma BlockBelow(a: u32)
    ensures Block(a) <= a
  {
  }

  /** Localhost on a standalone node: a request to the gateway reaches every workload of the pod if
      and only if it comes from an odd address and the pod has at most four workloads; a reply to
      the pod's base reaches every workload if and only if the pod has at most four. */
  lemma StandaloneLocalhost(s: Net, key: string, a: u32, f: Frame)
    requires Reachable(s) && IsStandalone(s.pool) && key in s.pods && a in s.pods[key].addressesUsed
    requires HeaderInFrame(f) && Version(f) == 4 && Saddr(f) == a
    ensures var d := s.pods[key];
            var o := AtPort(s.k, d.addressesUsed[a].index, f);
            (Daddr(f) == s.gateway ==> (ReachesAll(f, d.baseAddr, d, o) <==> a % 2 == 1 && d.Count() <= 4))
            && (Daddr(f) == d.baseAddr ==> (ReachesAll(f, s.gateway, d, o) <==> d.Count() <= 4))
  {
    hide Inv, Reachable, ReachesAll, AtPort, Block, Be32, Loc;
    ReachableInv(s);
    PoolSound(s);
    WorkloadNotBase(s, key, a);
    InSubnet(s, key, a);
    if Daddr(f) == s.gateway {
      RequestReachesAll(s, key, a, f);
    }
    if Daddr(f) == s.pods[key].baseAddr {
      ReplyReachesAll(s, key, a, f);
    }
  }
}
