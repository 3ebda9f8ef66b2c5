/** The attached programs at work: what a frame meets at the port of a workload and at the ingress
    of a pod bridge, as a function of the kernel's tables. */
module DataPlane {
  import opened Wrappers
  import opened Words
  import opened Frames
  import opened Tc
  import opened AddressManager
  import opened Classifier
  import opened Translate
  import opened Ebpf
  import opened PodState
  import SplitGeneric
  import SplitLocalhost

  /** The ingress of an interface: on a bridge the classifier runs and hands the frame to one of
      the two programs of its jump table, both of which are installed. */
  function AtBridge(k: Kernel, ifindex: u32, f: Frame): Outcome {
    if ifindex !in k.bridges then Pass(f)
    else
      var p := k.bridges[ifindex];
      match LhTailsIpv4(f, Some(p.subnet), {TO_SPLIT, TO_TRANSLATE})
      case PassOn => Pass(f)
      case TailCall(slot) =>
        if slot == TO_SPLIT then
          if p.toMap in k.split then SplitGeneric.FanOut(f, k.split[p.toMap]) else Pass(f)
        else
          if p.fromMap in k.redirect then Egress(f, k.redirect[p.fromMap]) else Pass(f)
  }

  /** The ingress of the port a workload sits behind. */
  function AtPort(k: Kernel, ifindex: u32, f: Frame): Outcome {
    if ifindex in k.ports && k.ports[ifindex].lhMap in k.lh then
      SplitLocalhost.LocalSplit(f, k.lh[k.ports[ifindex].lhMap], Some(k.ports[ifindex].lhAddr))
    else Pass(f)
  }

  /** A frame at a bridge, followed over one redirect to another bridge of the node. */
  function Journey(k: Kernel, ifindex: u32, f: Frame): Outcome {
    match AtBridge(k, ifindex, f)
    case Redirect(j, g) => if j in k.bridges then AtBridge(k, j, g) else Redirect(j, g)
    case Pass(g) => Pass(g)
    case Drop => Drop
    case Split(cs) => Split(cs)
  }

  /** A frame from a workload: through its port, and on to the bridge of its pod if it passes. */
  function WorkloadJourney(k: Kernel, port: u32, bridge: u32, f: Frame): Outcome {
    match AtPort(k, port, f)
    case Pass(g) => Journey(k, bridge, g)
    case Redirect(j, g) => Redirect(j, g)
    case Drop => Drop
    case Split(cs) => Split(cs)
  }

  // ---- The tables of a pod as edits ----

  function Min(a: nat, b: nat): nat {
    if a < b then a else b
  }

  lemma {:induction false} SplitEdits(t: SplitTable, n: nat, k: nat)
    requires SplitPrefix(t, n) && k <= SLOTS
    ensures |SplitGeneric.ActiveEdits(t, k)| == Min(k, n)
    ensures forall i :: 0 <= i < Min(k, n) ==>
              SplitGeneric.ActiveEdits(t, k)[i] == Edit(t[i].targetIfIndex, t[i].smac, t[i].dmac, None, t[i].daddr)
  {
    hide SplitGeneric.ActiveEdits;
    if k == 0 {
      SplitGeneric.NoSlots(t);
    } else {
      SplitEdits(t, n, k - 1);
      SplitGeneric.SlotActive(t, k - 1);
    }
  }

  lemma {:induction false} LhEdits(t: LhTable, src: Option<u32>, n: nat, k: nat)
    requires LhPrefix(t, n) && k <= SLOTS
    ensures |SplitLocalhost.ActiveEdits(t, src, k)| == Min(k, n)
    ensures forall i :: 0 <= i < Min(k, n) ==>
              SplitLocalhost.ActiveEdits(t, src, k)[i] ==
              Edit(t[i].targetIfIndex, t[i].smac, t[i].dmac, if src.Some? then src else Some(t[i].saddr), t[i].daddr)
  {
    hide SplitLocalhost.ActiveEdits;
    if k == 0 {
      SplitLocalhost.NoSlots(t, src);
    } else {
      LhEdits(t, src, n, k - 1);
      SplitLocalhost.SlotActive(t, src, k - 1);
    }
  }

  // ---- Addresses of a pod ----

  /** The addresses of a block mask back to its base and are never a reserved address of their /24. */
  lemma InBlock(base: u32, a: int)
    requires base % 8 == 0 && base <= a < base + 8 && a < 0x1_0000_0000
    ensures Block(a) == base
    ensures a != base ==> a != Loc(base)
    ensures Loc(base) == base - base % 0x100
  {
    var q, h := base / 8, base / 0x100;
    Rest8(a, q, a - base);
    Rest2(base, 4 * q, 0);
    Rest8(0x100 * h, 32 * h, 0);
  }

  /** The base of a pod. */
  lemma PodBase(s: Net, key: string)
    requires Inv(s) && key in s.pods
    ensures var b := s.pods[key].baseAddr;
            IsBlock(s.pool, b) && b % 8 == 0 && 8 <= b && b + 8 <= 0x1_0000_0000 && Block(b) == b
    ensures s.pods[key].baseAddr in s.pool.used
  {
    hide PodsApart, AllRoutesOk, KernelOk, TablesOk, AttachedOk, WithinApart, Addrs, Block;
    assert Shape(s, s.pods[key]);
    BlockOfPool(s.pool, s.pods[key].baseAddr);
  }

  lemma BlockOfPool(p: Pool, b: u32)
    requires Sound(p) && p.base % 8 == 0 && b in p.used && b + 8 <= 0x1_0000_0000
    ensures IsBlock(p, b) && b % 8 == 0 && 8 <= b && Block(b) == b
  {
    Aligned(p.base, b);
    InBlock(b, b);
  }

  /** What the kernel has attached for a pod. */
  lemma PodWiring(s: Net, key: string)
    requires Inv(s) && key in s.pods
    ensures var d := s.pods[key];
            d.podBridge.index in s.k.bridges
            && s.k.bridges[d.podBridge.index] == BridgeProg(d.baseAddr, d.toSubpodBpfMap, d.fromSubpodBpfMap)
            && d.toSubpodBpfMap in s.k.split && SplitOk(s.k.split[d.toSubpodBpfMap], d)
            && d.fromSubpodBpfMap in s.k.redirect
            && RoutesOk(s.publicIf, s.pods, key, s.k.redirect[d.fromSubpodBpfMap])
            && 1 <= d.Count() <= MAX_IPS_PER_POD - 1
            && 0 < d.podBridge.index < 0x8000_0000
  {
    hide SplitOk, LhOk, PortsOk, RoutesOk, Addrs, PodsApart, PoolOk, KernelOk;
    assert Shape(s, s.pods[key]) && TablesOk(s, s.pods[key]) && AttachedOk(s, s.pods[key]);
  }

  /** What the kernel has attached for a workload, and where its address lies. */
  lemma WorkloadWiring(s: Net, key: string, a: u32)
    requires Inv(s) && key in s.pods && a in s.pods[key].addressesUsed
    ensures var d := s.pods[key];
            a in d.internalDevices && a in d.fromLocalhostBpfMaps
            && d.addressesUsed[a].index in s.k.ports
            && s.k.ports[d.addressesUsed[a].index] == PortProg(d.fromLocalhostBpfMaps[a], s.gateway)
            && d.fromLocalhostBpfMaps[a] in s.k.lh && LhOk(s.k.lh[d.fromLocalhostBpfMaps[a]], d, a)
            && d.baseAddr < a <= d.baseAddr + d.Count() && d.Count() <= MAX_IPS_PER_POD - 1
  {
    hide SplitOk, LhOk, RoutesOk, PodsApart, PoolOk, KernelOk, AllRoutesOk;
    assert Shape(s, s.pods[key]) && TablesOk(s, s.pods[key]) && AttachedOk(s, s.pods[key]);
    assert a in Addrs(s.pods[key].baseAddr, s.pods[key].Count());
  }
}
