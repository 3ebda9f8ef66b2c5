/** Inside a pod: which program acts on a workload's frame, the localhost mesh, and the localhost
    round trip. */
module Localhost {
  import opened Wrappers
  import opened Words
  import opened Frames
  import opened Checksum
  import opened Tc
  import opened AddressManager
  import opened Classifier
  import opened Ebpf
  import opened PodState
  import opened PodInvariant
  import opened DataPlane
  import opened Delivery
  import SplitLocalhost

  // ---- Who acts on a frame ----

  datatype Handler = LocalhostSplit | EgressTranslate | IngressSplit | Nobody

  /** The program that acts on a frame on its way through a port and the bridge behind it. */
  function Handling(k: Kernel, port: u32, bridge: u32, f: Frame): Handler {
    if AtPort(k, port, f).Split? then LocalhostSplit
    else if bridge !in k.bridges then Nobody
    else
      match LhTailsIpv4(f, Some(k.bridges[bridge].subnet), {TO_SPLIT, TO_TRANSLATE})
      case PassOn => Nobody
      case TailCall(slot) => if slot == TO_SPLIT then IngressSplit else EgressTranslate
  }

  /** Traffic partition: on a frame from a workload exactly one program acts, or none, and which
      one depends on the destination alone. Ingress fan-out never acts at the sender's own bridge. */
  lemma TrafficPartition(s: Net, key: string, a: u32, f: Frame)
    requires Reachable(s) && key in s.pods && a in s.pods[key].addressesUsed
    requires HasIp(f) && Version(f) == 4 && Saddr(f) == a
    ensures var d := s.pods[key];
            Handling(s.k, d.addressesUsed[a].index, d.podBridge.index, f) ==
            if Daddr(f) == Loc(a) || Daddr(f) == d.baseAddr then LocalhostSplit
            else if Block(Daddr(f)) != d.baseAddr && Daddr(f) != Loc(d.baseAddr) then EgressTranslate
            else Nobody
  {
    hide Inv, Reachable, LhOk, SplitOk, RoutesOk, Block, Loc, Be32;
    ReachableInv(s);
    var d := s.pods[key];
    WorkloadWiring(s, key, a);
    WorkloadNotBase(s, key, a);
    PodWiring(s, key);
    ClassifierMeaning(f, d.baseAddr, {TO_SPLIT, TO_TRANSLATE});
    hide LhTailsIpv4, SplitLocalhost.ActiveEdits, Emit;
  }

  // ---- The localhost mesh ----

  lemma {:induction false} ImageSize(t: LhTable, n: nat)
    requires n <= |t| && forall i, j :: 0 <= i < j < n ==> t[i].daddr != t[j].daddr
    ensures |set j | 0 <= j < n :: t[j].daddr| == n
  {
    if n > 0 {
      ImageSize(t, n - 1);
      ImageGrows(t, n);
    }
  }

  lemma ImageGrows(t: LhTable, n: nat)
    requires 0 < n <= |t| && forall j :: 0 <= j < n - 1 ==> t[j].daddr != t[n - 1].daddr
    ensures (set j | 0 <= j < n :: t[j].daddr) == (set j | 0 <= j < n - 1 :: t[j].daddr) + {t[n - 1].daddr}
    ensures t[n - 1].daddr !in (set j | 0 <= j < n - 1 :: t[j].daddr)
  {
  }

  /** The active slots of a localhost map are a prefix, and they are in bijection with the
      workloads of the pod, the owner of the map included. */
  ghost predicate MapsEveryone(t: LhTable, d: PodDevices) {
    |t| == 8 && d.Count() <= 8
    && (forall j :: 0 <= j < 8 ==> (t[j].active != 0 <==> j < d.Count()))
    && (forall i, j :: 0 <= i < j < d.Count() ==> t[i].daddr != t[j].daddr)
    && (forall b :: b in d.addressesUsed ==> exists j :: 0 <= j < d.Count() && t[j].daddr == b)
    && (forall j :: 0 <= j < d.Count() ==>
          t[j].daddr in d.addressesUsed && t[j].daddr in d.internalDevices
          && t[j] == LhEntry(d, t[j].daddr) && t[j].saddr == d.baseAddr)
  }

  lemma MeshBijection(t: LhTable, d: PodDevices)
    requires LhEntries(t, d, d.Count()) && d.internalDevices.Keys == d.addressesUsed.Keys
    ensures MapsEveryone(t, d)
  {
    hide LhEntry;
    Onto(t, d.Count(), d.addressesUsed.Keys);
    assert forall j :: 0 <= j < d.Count() ==> LhEntry(d, t[j].daddr).saddr == d.baseAddr by { EntrySources(d); }
  }

  lemma EntrySources(d: PodDevices)
    ensures forall a :: a in d.internalDevices ==> LhEntry(d, a).saddr == d.baseAddr
  {
  }

  /** `n` slots with different addresses out of `n` hold all of these. */
  lemma Onto(t: LhTable, n: nat, all: set<u32>)
    requires n <= |t| && |all| == n
    requires forall j :: 0 <= j < n ==> t[j].daddr in all
    requires forall i, j :: 0 <= i < j < n ==> t[i].daddr != t[j].daddr
    ensures forall b :: b in all ==> exists j :: 0 <= j < n && t[j].daddr == b
  {
    var image := set j | 0 <= j < n :: t[j].daddr;
    ImageSize(t, n);
    SubsetSize(image, all);
    forall b | b in all
      ensures exists j :: 0 <= j < n && t[j].daddr == b
    {
      assert b in image;
    }
  }

  /** Localhost mesh: in every reachable state each workload's localhost map holds every workload
      of the pod exactly once, whatever order the iterations took. */
  lemma LocalhostMesh(s: Net, key: string, a: u32)
    requires Reachable(s) && key in s.pods && a in s.pods[key].addressesUsed
    ensures var d := s.pods[key];
            a in d.fromLocalhostBpfMaps && d.fromLocalhostBpfMaps[a] in s.k.lh
            && MapsEveryone(s.k.lh[d.fromLocalhostBpfMaps[a]], d)
  {
    hide Inv, Reachable, MapsEveryone, LhEntries;
    ReachableInv(s);
    WorkloadWiring(s, key, a);
    PodKeys(s, key);
    MeshBijection(s.k.lh[s.pods[key].fromLocalhostBpfMaps[a]], s.pods[key]);
  }

  lemma PodKeys(s: Net, key: string)
    requires Inv(s) && key in s.pods
    ensures var d := s.pods[key];
            d.baseAddr + d.Count() < 0x1_0000_0000 && d.addressesUsed.Keys == Addrs(d.baseAddr, d.Count())
            && d.internalDevices.Keys == d.addressesUsed.Keys && d.fromLocalhostBpfMaps.Keys == d.addressesUsed.Keys
  {
    hide PoolOk, PodsApart, AllRoutesOk, KernelOk, TablesOk, AttachedOk, WithinApart;
    assert Shape(s, s.pods[key]);
  }

  // ---- Slots and addresses ----

  /** The pod has at most seven workloads, at the addresses right after its base; slot `i` of its
      split map is active exactly when it has more than `i` workloads and then holds workload `i`;
      every workload's address masks back to the base. */
  ghost predicate SlotsMatch(s: Net, key: string)
    requires key in s.pods
  {
    var d := s.pods[key];
    1 <= d.Count() <= 7
    && (forall a :: a in d.addressesUsed <==> d.baseAddr < a <= d.baseAddr + d.Count())
    && (forall a :: a in d.addressesUsed ==> Block(a) == d.baseAddr)
    && d.toSubpodBpfMap in s.k.split
    && var t := s.k.split[d.toSubpodBpfMap];
       |t| == 8
       && (forall i :: 0 <= i < 8 ==> (t[i].active != 0 <==> i < d.Count()))
       && (forall i :: 0 <= i < d.Count() ==>
             t[i].daddr == d.baseAddr + 1 + i && t[i].daddr in d.internalDevices
             && t[i].dmac == d.internalDevices[t[i].daddr]
             && t[i].targetIfIndex == d.podBridge.index && t[i].smac == d.podBridge.mac)
  }

  lemma SlotsCorrespond(s: Net, key: string)
    requires Reachable(s) && key in s.pods
    ensures SlotsMatch(s, key)
  {
    hide Inv, Reachable, RoutesOk, Block;
    ReachableInv(s);
    PodWiring(s, key);
    PodKeys(s, key);
    forall a | a in s.pods[key].addressesUsed
      ensures Block(a) == s.pods[key].baseAddr
    {
      WorkloadNotBase(s, key, a);
    }
  }

  // ---- Fan-out inside the pod ----

  /** The clone that workload `b` of `d` gets of `f`, with `src` as its source. */
  ghost predicate LocalClone(f: Frame, src: u32, d: PodDevices, b: u32, c: Clone)
    requires HasIp(f)
  {
    c.ifindex == d.podBridge.index
    && SameButHeaders(f, c.frame) && HasIp(c.frame)
    && b in d.internalDevices && c.frame[ETH_DEST..ETH_SOURCE] == d.internalDevices[b]
    && c.frame[ETH_SOURCE..12] == d.podBridge.mac
    && Saddr(c.frame) == src && Daddr(c.frame) == b
    && HeaderInFrame(c.frame) && ChecksumValid(c.frame)
  }

  /** Every workload of the pod gets one clone, and there are no others. */
  ghost predicate ReachesAll(f: Frame, src: u32, d: PodDevices, o: Outcome)
    requires HasIp(f)
  {
    o.Split? && |o.clones| == d.Count()
    && forall b :: b in d.addressesUsed ==> exists i :: 0 <= i < |o.clones| && LocalClone(f, src, d, b, o.clones[i])
  }

  lemma VisitedClones(f: Frame, t: LhTable, d: PodDevices, src: Option<u32>, cs: seq<Clone>)
    requires HeaderInFrame(f) && MapsEveryone(t, d) && LhPrefix(t, d.Count())
    requires cs == Emit(f, SplitLocalhost.ActiveEdits(t, src, SplitLocalhost.VISITED))
    ensures |cs| == Min(SplitLocalhost.VISITED, d.Count())
    ensures forall i :: 0 <= i < |cs| ==>
              LocalClone(f, if src.Some? then src.value else d.baseAddr, d, t[i].daddr, cs[i])
  {
    hide Rewrite, ChecksumValid, SplitLocalhost.ActiveEdits;
    LhEdits(t, src, d.Count(), SplitLocalhost.VISITED);
    var es := SplitLocalhost.ActiveEdits(t, src, SplitLocalhost.VISITED);
    forall i | 0 <= i < |cs|
      ensures LocalClone(f, if src.Some? then src.value else d.baseAddr, d, t[i].daddr, cs[i])
    {
      assert t[i] == LhEntry(d, t[i].daddr);
      OneClone(f, es[i], cs[i].frame);
    }
  }

  /** Workload `b` sits in one of the slots the program visits. */
  ghost predicate Visits(t: LhTable, d: PodDevices, b: u32)
    requires |t| == SLOTS
  {
    exists j :: 0 <= j < SplitLocalhost.VISITED && j < d.Count() && j < SLOTS && t[j].daddr == b
  }

  /** Some clone is the one that workload `b` gets. */
  ghost predicate Gets(f: Frame, src: u32, d: PodDevices, b: u32, cs: seq<Clone>)
    requires HasIp(f)
  {
    exists i :: 0 <= i < |cs| && LocalClone(f, src, d, b, cs[i])
  }

  /** The fan-out reaches exactly the workloads in the visited slots, and so every workload exactly
      when the pod has at most four. */
  lemma FanOutReaches(f: Frame, t: LhTable, d: PodDevices, src: Option<u32>, cs: seq<Clone>)
    requires HeaderInFrame(f) && MapsEveryone(t, d) && LhPrefix(t, d.Count())
    requires cs == Emit(f, SplitLocalhost.ActiveEdits(t, src, SplitLocalhost.VISITED))
    ensures forall b :: Gets(f, if src.Some? then src.value else d.baseAddr, d, b, cs) <==> Visits(t, d, b)
    ensures ReachesAll(f, if src.Some? then src.value else d.baseAddr, d, Split(cs)) <==> d.Count() <= 4
  {
    hide LocalClone, Emit, MapsEveryone, LhPrefix, ReachesAll;
    var from := if src.Some? then src.value else d.baseAddr;
    VisitedClones(f, t, d, src, cs);
    assert |t| == SLOTS && d.Count() <= SLOTS by { MappedSize(t, d); }
    forall b
      ensures Gets(f, from, d, b, cs) <==> Visits(t, d, b)
    {
      GetsIffVisited(f, t, d, from, cs, b);
    }
    if d.Count() <= 4 {
      forall b | b in d.addressesUsed
        ensures Visits(t, d, b)
      {
        EveryoneVisited(t, d, b);
      }
    }
    AllOrNot(f, from, d, cs);
  }

  lemma MappedSize(t: LhTable, d: PodDevices)
    requires MapsEveryone(t, d)
    ensures |t| == SLOTS && d.Count() <= SLOTS
  {
  }

  lemma GetsIffVisited(f: Frame, t: LhTable, d: PodDevices, src: u32, cs: seq<Clone>, b: u32)
    requires HasIp(f) && |t| == SLOTS && d.Count() <= SLOTS && |cs| == Min(SplitLocalhost.VISITED, d.Count())
    requires forall i :: 0 <= i < |cs| ==> LocalClone(f, src, d, t[i].daddr, cs[i])
    ensures Gets(f, src, d, b, cs) <==> Visits(t, d, b)
  {
    hide ChecksumValid, SameButHeaders;
    if Visits(t, d, b) {
      var j :| 0 <= j < SplitLocalhost.VISITED && j < d.Count() && t[j].daddr == b;
      assert LocalClone(f, src, d, b, cs[j]);
    }
    if Gets(f, src, d, b, cs) {
      var i :| 0 <= i < |cs| && LocalClone(f, src, d, b, cs[i]);
      assert LocalClone(f, src, d, t[i].daddr, cs[i]);
    }
  }

  lemma EveryoneVisited(t: LhTable, d: PodDevices, b: u32)
    requires MapsEveryone(t, d) && d.Count() <= SplitLocalhost.VISITED && b in d.addressesUsed
    ensures Visits(t, d, b)
  {
  }

  lemma AllOrNot(f: Frame, src: u32, d: PodDevices, cs: seq<Clone>)
    requires HasIp(f) && |cs| == Min(SplitLocalhost.VISITED, d.Count())
    requires d.Count() <= 4 ==> forall b :: b in d.addressesUsed ==> Gets(f, src, d, b, cs)
    ensures ReachesAll(f, src, d, Split(cs)) <==> d.Count() <= 4
  {
    hide LocalClone;
    forall b | Gets(f, src, d, b, cs)
      ensures exists i :: 0 <= i < |cs| && LocalClone(f, src, d, b, cs[i])
    {
    }
  }

  /** Who sits in the visited slots of the map of workload `a`: for the first five workloads of a
      pod, exactly the first four; for a later one, never itself or anyone after it. */
  lemma WhoIsVisited(t: LhTable, d: PodDevices, a: u32, b: u32)
    requires LhOk(t, d, a) && a in d.internalDevices && b in d.internalDevices && d.Count() <= SLOTS
    requires d.baseAddr + d.Count() < 0x1_0000_0000
    requires forall x :: x in d.internalDevices <==> d.baseAddr < x <= d.baseAddr + d.Count()
    ensures a <= d.baseAddr + 5 ==> (Visits(t, d, b) <==> b <= d.baseAddr + 4)
    ensures a > d.baseAddr + 4 && b >= a ==> !Visits(t, d, b)
  {
    hide LhEntry;
    var n := a - d.baseAddr - 1;
    if n <= 4 {
      if b < a {
        EarlierSlot(t, n, d.baseAddr, b);
      } else if b <= d.baseAddr + 4 {
        assert t[b - d.baseAddr - 1].daddr == b;
      }
    }
  }

  /** `n` slots with different addresses out of the first `n` of a block hold all of these. */
  lemma EarlierSlot(t: LhTable, n: nat, base: u32, b: u32)
    requires n <= |t| && base + n < 0x1_0000_0000 && base < b <= base + n
    requires forall j :: 0 <= j < n ==> base < t[j].daddr <= base + n
    requires forall i, j :: 0 <= i < j < n ==> t[i].daddr != t[j].daddr
    ensures exists j :: 0 <= j < n && t[j].daddr == b
  {
    Onto(t, n, Addrs(base, n));
    assert b in Addrs(base, n);
  }

  /** A request from a workload to the gateway address reaches every workload of the pod, the
      requester included, as coming from the pod's base, if and only if the gateway is what the
      sender's address masks to and the pod has at most four workloads. */
  lemma RequestReachesAll(s: Net, key: string, a: u32, f: Frame)
    requires Reachable(s) && key in s.pods && a in s.pods[key].addressesUsed
    requires HeaderInFrame(f) && Version(f) == 4 && Saddr(f) == a && Daddr(f) == s.gateway
    ensures var d := s.pods[key];
            ReachesAll(f, d.baseAddr, d, AtPort(s.k, d.addressesUsed[a].index, f))
            <==> s.gateway == Loc(a) && d.Count() <= 4
  {
    hide Inv, Reachable, MapsEveryone, ReachesAll, Loc, Block, Be32, LhEntries;
    ReachableInv(s);
    var d := s.pods[key];
    WorkloadWiring(s, key, a);
    LocalhostMesh(s, key, a);
    var t := s.k.lh[d.fromLocalhostBpfMaps[a]];
    EntriesPrefix(t, d);
    GatewayApart(s, key, a);
    hide LhOk, SplitLocalhost.ActiveEdits, Emit;
    if s.gateway == Loc(a) {
      FanOutReaches(f, t, d, None, Emit(f, SplitLocalhost.ActiveEdits(t, None, SplitLocalhost.VISITED)));
    } else {
      PassReachesNone(f, d);
    }
  }

  /** A request from outside the /24 of the gateway reaches nobody: the port lets it pass. */
  lemma FarRequest(s: Net, key: string, a: u32, f: Frame)
    requires Reachable(s) && key in s.pods && a in s.pods[key].addressesUsed && a / 0x100 != s.gateway / 0x100
    requires HasIp(f) && Version(f) == 4 && Saddr(f) == a && Daddr(f) == s.gateway
    ensures AtPort(s.k, s.pods[key].addressesUsed[a].index, f) == Pass(f)
  {
    hide Inv, Reachable, AtPort, Be32;
    ReachableInv(s);
    SamePrefix(a);
    PortPasses(s, key, a, f);
  }

  lemma SamePrefix(a: u32)
    ensures Loc(a) / 0x100 == a / 0x100 == Block(a) / 0x100
  {
    var q, r := a / 0x100, a % 0x100;
    assert a == 0x100 * q + r;
    assert Loc(a) == 0x100 * q + r % 2;
    Rest8(a, 32 * q + r / 8, r % 8);
    assert Block(a) == 0x100 * q + 8 * (r / 8);
  }

  lemma EntriesPrefix(t: LhTable, d: PodDevices)
    requires LhEntries(t, d, d.Count())
    ensures LhPrefix(t, d.Count())
  {
  }

  lemma PassReachesNone(f: Frame, d: PodDevices)
    requires HasIp(f)
    ensures !ReachesAll(f, d.baseAddr, d, Pass(f))
  {
  }

  lemma GatewayApart(s: Net, key: string, a: u32)
    requires Inv(s) && key in s.pods && a in s.pods[key].addressesUsed
    ensures s.gateway != s.pods[key].baseAddr && Block(a) == s.pods[key].baseAddr
  {
    hide PodsOk, PodsApart, AllRoutesOk, KernelOk;
    PodBase(s, key);
    WorkloadNotBase(s, key, a);
  }

  /** A reply from a workload to the pod's base reaches every workload as coming from the gateway,
      if and only if the base is not itself what the sender's address masks to and the pod has at
      most four workloads. */
  lemma ReplyReachesAll(s: Net, key: string, b: u32, g: Frame)
    requires Reachable(s) && key in s.pods && b in s.pods[key].addressesUsed
    requires HeaderInFrame(g) && Version(g) == 4 && Saddr(g) == b && Daddr(g) == s.pods[key].baseAddr
    ensures var d := s.pods[key];
            ReachesAll(g, s.gateway, d, AtPort(s.k, d.addressesUsed[b].index, g))
            <==> d.baseAddr != Loc(b) && d.Count() <= 4
  {
    hide Inv, Reachable, MapsEveryone, ReachesAll, Loc, Block, Be32, LhEntries;
    ReachableInv(s);
    var d := s.pods[key];
    WorkloadWiring(s, key, b);
    LocalhostMesh(s, key, b);
    var t := s.k.lh[d.fromLocalhostBpfMaps[b]];
    EntriesPrefix(t, d);
    GatewayApart(s, key, b);
    hide LhOk, SplitLocalhost.ActiveEdits, Emit;
    if d.baseAddr == Loc(b) {
      var cs := Emit(g, SplitLocalhost.ActiveEdits(t, None, SplitLocalhost.VISITED));
      VisitedClones(g, t, d, None, cs);
      WrongSource(g, s.gateway, d, b, cs);
    } else {
      FanOutReaches(g, t, d, Some(s.gateway),
                    Emit(g, SplitLocalhost.ActiveEdits(t, Some(s.gateway), SplitLocalhost.VISITED)));
    }
  }

  lemma WrongSource(g: Frame, src: u32, d: PodDevices, b: u32, cs: seq<Clone>)
    requires HasIp(g) && src != d.baseAddr && b in d.addressesUsed
    requires forall i :: 0 <= i < |cs| ==> HasIp(cs[i].frame) && Saddr(cs[i].frame) == d.baseAddr
    ensures !ReachesAll(g, src, d, Split(cs))
  {
  }

  /** Workload `a`'s port answers frame `f` with a fan-out in which workload `b` gets a clone that
      comes from `src`. */
  ghost predicate Served(s: Net, key: string, a: u32, f: Frame, src: u32, b: u32)
    requires key in s.pods && a in s.pods[key].addressesUsed && HasIp(f)
  {
    var o := AtPort(s.k, s.pods[key].addressesUsed[a].index, f);
    o.Split? && Gets(f, src, s.pods[key], b, o.clones)
  }

  /** Workload `b` sits in a visited slot of the localhost map of workload `a`. */
  ghost predicate VisitedBy(s: Net, key: string, a: u32, b: u32)
    requires key in s.pods
  {
    var d := s.pods[key];
    a in d.fromLocalhostBpfMaps && d.fromLocalhostBpfMaps[a] in s.k.lh
    && |s.k.lh[d.fromLocalhostBpfMaps[a]]| == SLOTS && Visits(s.k.lh[d.fromLocalhostBpfMaps[a]], d, b)
  }

  /** Localhost round trip, for pods of any size in any subnet: `a` asks the gateway, and `b` sees the
      pod's base asking if and only if the gateway is what the asker's address masks to and `b` sits in
      a visited slot of the asker's map; `b` answers the base, and `a` sees the gateway answering if and
      only if the base is not what the answerer's address masks to and `a` sits in a visited slot of
      the answerer's map. The answer is then the exact reverse of the request. */
  lemma RoundTrip(s: Net, key: string, a: u32, b: u32, f: Frame, g: Frame)
    requires Reachable(s) && key in s.pods && a in s.pods[key].addressesUsed && b in s.pods[key].addressesUsed
    requires HeaderInFrame(f) && Version(f) == 4 && Saddr(f) == a && Daddr(f) == s.gateway
    requires HeaderInFrame(g) && Version(g) == 4 && Saddr(g) == b && Daddr(g) == s.pods[key].baseAddr
    ensures Served(s, key, a, f, Daddr(g), Saddr(g)) <==> s.gateway == Loc(a) && VisitedBy(s, key, a, b)
    ensures Served(s, key, b, g, Daddr(f), Saddr(f)) <==> s.pods[key].baseAddr != Loc(b) && VisitedBy(s, key, b, a)
  {
    hide Reachable, Served, VisitedBy, Loc, Block, Be32;
    RequestServes(s, key, a, f, b);
    ReplyServes(s, key, b, g, a);
  }

  lemma RequestServes(s: Net, key: string, a: u32, f: Frame, b: u32)
    requires Reachable(s) && key in s.pods && a in s.pods[key].addressesUsed
    requires HeaderInFrame(f) && Version(f) == 4 && Saddr(f) == a && Daddr(f) == s.gateway
    ensures Served(s, key, a, f, s.pods[key].baseAddr, b) <==> s.gateway == Loc(a) && VisitedBy(s, key, a, b)
  {
    hide Inv, Reachable, MapsEveryone, ReachesAll, Visits, Gets, Loc, Block, Be32, LhEntries;
    ReachableInv(s);
    var d := s.pods[key];
    WorkloadWiring(s, key, a);
    LocalhostMesh(s, key, a);
    var t := s.k.lh[d.fromLocalhostBpfMaps[a]];
    EntriesPrefix(t, d);
    MappedSize(t, d);
    GatewayApart(s, key, a);
    hide LhOk, SplitLocalhost.ActiveEdits, Emit;
    if s.gateway == Loc(a) {
      FanOutReaches(f, t, d, None, Emit(f, SplitLocalhost.ActiveEdits(t, None, SplitLocalhost.VISITED)));
    }
  }

  lemma ReplyServes(s: Net, key: string, b: u32, g: Frame, a: u32)
    requires Reachable(s) && key in s.pods && b in s.pods[key].addressesUsed
    requires HeaderInFrame(g) && Version(g) == 4 && Saddr(g) == b && Daddr(g) == s.pods[key].baseAddr
    ensures Served(s, key, b, g, s.gateway, a) <==> s.pods[key].baseAddr != Loc(b) && VisitedBy(s, key, b, a)
  {
    hide Inv, Reachable, MapsEveryone, ReachesAll, Visits, Gets, Loc, Block, Be32, LhEntries;
    ReachableInv(s);
    var d := s.pods[key];
    WorkloadWiring(s, key, b);
    LocalhostMesh(s, key, b);
    var t := s.k.lh[d.fromLocalhostBpfMaps[b]];
    EntriesPrefix(t, d);
    MappedSize(t, d);
    GatewayApart(s, key, b);
    hide LhOk, SplitLocalhost.ActiveEdits, Emit;
    if d.baseAddr == Loc(b) {
      var cs := Emit(g, SplitLocalhost.ActiveEdits(t, None, SplitLocalhost.VISITED));
      VisitedClones(g, t, d, None, cs);
      OtherSource(g, s.gateway, d, a, cs);
    } else {
      FanOutReaches(g, t, d, Some(s.gateway),
                    Emit(g, SplitLocalhost.ActiveEdits(t, Some(s.gateway), SplitLocalhost.VISITED)));
    }
  }

  lemma OtherSource(g: Frame, src: u32, d: PodDevices, a: u32, cs: seq<Clone>)
    requires HasIp(g) && src != d.baseAddr
    requires forall i :: 0 <= i < |cs| ==> HasIp(cs[i].frame) && Saddr(cs[i].frame) == d.baseAddr
    ensures !Gets(g, src, d, a, cs)
  {
  }

  /** The workloads in the visited slots of the localhost map of workload `a`. */
  ghost function Reached(s: Net, key: string, a: u32): set<u32>
    requires key in s.pods
  {
    set b | b in s.pods[key].addressesUsed && VisitedBy(s, key, a, b)
  }

  lemma VisitedSize(t: LhTable, d: PodDevices)
    requires MapsEveryone(t, d)
    ensures |set b | b in d.addressesUsed && Visits(t, d, b)| == Min(SplitLocalhost.VISITED, d.Count())
  {
    hide LhEntry;
    var n := Min(SplitLocalhost.VISITED, d.Count());
    ImageSize(t, n);
    assert (set b | b in d.addressesUsed && Visits(t, d, b)) == (set j | 0 <= j < n :: t[j].daddr);
  }

  /** Localhost reach, in every reachable state: every workload of a pod reaches four of them, or all
      if there are fewer; the first five reach exactly the first four, and a later one reaches only
      workloads that came before it. */
  lemma LocalhostReach(s: Net, key: string, a: u32)
    requires Reachable(s) && key in s.pods && a in s.pods[key].addressesUsed
    ensures |Reached(s, key, a)| == Min(4, s.pods[key].Count())
    ensures a <= s.pods[key].baseAddr + 5 ==>
              forall b :: b in s.pods[key].addressesUsed ==>
                            (b in Reached(s, key, a) <==> b <= s.pods[key].baseAddr + 4)
    ensures a > s.pods[key].baseAddr + 4 ==> forall b :: b in Reached(s, key, a) ==> b < a
  {
    hide Inv, Reachable, MapsEveryone, LhOk, Visits;
    ReachableInv(s);
    WorkloadWiring(s, key, a);
    LocalhostMesh(s, key, a);
    PodKeys(s, key);
    var d := s.pods[key];
    var t := s.k.lh[d.fromLocalhostBpfMaps[a]];
    MappedSize(t, d);
    VisitedSize(t, d);
    assert Reached(s, key, a) == set b | b in d.addressesUsed && Visits(t, d, b);
    forall b | b in d.addressesUsed
      ensures a <= d.baseAddr + 5 ==> (Visits(t, d, b) <==> b <= d.baseAddr + 4)
      ensures a > d.baseAddr + 4 && b >= a ==> !Visits(t, d, b)
    {
      WhoIsVisited(t, d, a, b);
    }
  }
}
