/** The state of the pod-local network manager together with the kernel tables it maintains, the
    invariant of that state, and the two steps that change it: a pod is created
    (`InitPodNetwork`) and a workload is added to a pod (`CreateVMTun`). */
module PodState {
  import opened Wrappers
  import opened Words
  import opened Frames
  import opened AddressManager
  import opened Translate
  import opened Ebpf

  /** The record the manager keeps for a pod. Workloads are indexed by their address. */
  datatype PodDevices = PodDevices(
    baseAddr: u32,
    podBridge: Link,
    addressesUsed: map<u32, Link>,
    internalDevices: map<u32, Mac>,
    toSubpodBpfMap: Fd,
    fromSubpodBpfMap: Fd,
    fromLocalhostBpfMaps: map<u32, Fd>)
  {
    /** The number of workloads of the pod. */
    ghost function Count(): nat {
      |addressesUsed|
    }
  }

  datatype Net = Net(
    gateway: u32,
    publicIf: Link,
    pool: Pool,
    pods: map<string, PodDevices>,
    k: Kernel,
    nextFd: Fd)

  /** The addresses of the first `n` workloads of the block at `base`. */
  ghost function Addrs(base: u32, n: nat): (s: set<u32>)
    requires base + n < 0x1_0000_0000
    ensures |s| == n
    ensures forall a :: a in s <==> base < a <= base + n
  {
    if n == 0 then {} else Addrs(base, n - 1) + {base + n}
  }

  /** `getNextSubPodIP` for an IPv4 pod. */
  function GetNextSubPodIP(d: PodDevices): Option<u32> {
    var used := |d.addressesUsed|;
    if used == MAX_IPS_PER_POD - 1 then None else Some(Wrap32(d.baseAddr + used + 1))
  }

  // ---- The invariant ----

  ghost predicate Shape(s: Net, d: PodDevices) {
    1 <= d.Count() <= MAX_IPS_PER_POD - 1
    && d.baseAddr in s.pool.used && d.baseAddr + 8 <= 0x1_0000_0000
    && d.addressesUsed.Keys == Addrs(d.baseAddr, d.Count())
    && d.internalDevices.Keys == d.addressesUsed.Keys
    && d.fromLocalhostBpfMaps.Keys == d.addressesUsed.Keys
    && 0 < d.podBridge.index < 0x8000_0000
  }

  ghost function SplitEntry(d: PodDevices, a: u32): SplitRoute
    requires a in d.internalDevices
  {
    MakeSplitRoute(d.podBridge, d.internalDevices[a], a)
  }

  ghost function LhEntry(d: PodDevices, a: u32): LhRoute
    requires a in d.internalDevices
  {
    MakeSplitLhRoute(d.podBridge, d.internalDevices[a], d.baseAddr, a)
  }

  /** Slot `i` of the split map belongs to the workload `base + 1 + i`; the other slots are empty. */
  ghost predicate SplitOk(t: SplitTable, d: PodDevices) {
    SplitPrefix(t, d.Count())
    && forall i :: 0 <= i < d.Count() ==>
         t[i].daddr == d.baseAddr + 1 + i && t[i].daddr in d.internalDevices && t[i] == SplitEntry(d, t[i].daddr)
  }

  /** The first `n` slots of a localhost map hold entries of different workloads of `d`. */
  ghost predicate LhEntries(t: LhTable, d: PodDevices, n: nat) {
    LhPrefix(t, n)
    && (forall j :: 0 <= j < n ==> t[j].daddr in d.internalDevices && t[j] == LhEntry(d, t[j].daddr))
    && (forall i, j :: 0 <= i < j < n ==> t[i].daddr != t[j].daddr)
  }

  /** The localhost map of workload `a`: one slot per workload of the pod. The workloads that came
      before `a` fill the first slots in the order some iteration over them took; `a` itself and
      the later ones follow in the order they came. */
  ghost predicate LhOk(t: LhTable, d: PodDevices, a: u32) {
    LhEntries(t, d, d.Count())
    && forall j :: 0 <= j < d.Count() ==>
         if d.baseAddr + 1 + j >= a then t[j].daddr == d.baseAddr + 1 + j else t[j].daddr < a
  }

  ghost predicate TablesOk(s: Net, d: PodDevices) {
    d.toSubpodBpfMap in s.k.split && SplitOk(s.k.split[d.toSubpodBpfMap], d)
    && d.fromSubpodBpfMap in s.k.redirect
    && forall a :: a in d.fromLocalhostBpfMaps ==>
         d.fromLocalhostBpfMaps[a] in s.k.lh && LhOk(s.k.lh[d.fromLocalhostBpfMaps[a]], d, a)
  }

  ghost predicate AttachedOk(s: Net, d: PodDevices) {
    d.podBridge.index in s.k.bridges
    && s.k.bridges[d.podBridge.index] == BridgeProg(d.baseAddr, d.toSubpodBpfMap, d.fromSubpodBpfMap)
    && PortsOk(s.k.ports, d, s.gateway)
  }

  /** The port of every workload runs the localhost program with that workload's own map. */
  ghost predicate PortsOk(ports: map<u32, PortProg>, d: PodDevices, gateway: u32) {
    d.fromLocalhostBpfMaps.Keys == d.addressesUsed.Keys
    && forall a :: a in d.addressesUsed ==>
         d.addressesUsed[a].index in ports
         && ports[d.addressesUsed[a].index] == PortProg(d.fromLocalhostBpfMaps[a], gateway)
  }

  ghost predicate WithinApart(d: PodDevices) {
    (forall a, b :: a in d.addressesUsed && b in d.addressesUsed && a != b ==>
       d.addressesUsed[a].index != d.addressesUsed[b].index)
    && (forall a, b :: a in d.fromLocalhostBpfMaps && b in d.fromLocalhostBpfMaps && a != b ==>
          d.fromLocalhostBpfMaps[a] != d.fromLocalhostBpfMaps[b])
  }

  ghost predicate Apart(d: PodDevices, e: PodDevices) {
    d.baseAddr != e.baseAddr
    && d.podBridge.name != e.podBridge.name && d.podBridge.index != e.podBridge.index
    && d.toSubpodBpfMap != e.toSubpodBpfMap && d.fromSubpodBpfMap != e.fromSubpodBpfMap
    && (forall a, b :: a in d.addressesUsed && b in e.addressesUsed ==>
          d.addressesUsed[a].index != e.addressesUsed[b].index)
    && (forall a, b :: a in d.fromLocalhostBpfMaps && b in e.fromLocalhostBpfMaps ==>
          d.fromLocalhostBpfMaps[a] != e.fromLocalhostBpfMaps[b])
  }

  function PeerRoute(d: PodDevices, e: PodDevices): RedirectRoute {
    RedirectRoute(e.podBridge.index, d.podBridge.mac, e.podBridge.mac)
  }

  function DefaultRoute(publicIf: Link, d: PodDevices): RedirectRoute {
    RedirectRoute(publicIf.index, d.podBridge.mac, publicIf.mac)
  }

  /** Every entry of pod `key`'s redirect map is right. */
  ghost predicate RoutesSound(publicIf: Link, pods: map<string, PodDevices>, key: string, m: RedirectMap)
    requires key in pods
  {
    forall x :: x in m ==>
      if x == 0 then m[x] == DefaultRoute(publicIf, pods[key])
      else exists q :: q in pods && q != key && x == pods[q].baseAddr && m[x] == PeerRoute(pods[key], pods[q])
  }

  /** Pod `key`'s redirect map knows the default and every other pod. */
  ghost predicate RoutesComplete(pods: map<string, PodDevices>, key: string, m: RedirectMap) {
    0 in m && forall q :: q in pods && q != key ==> pods[q].baseAddr in m
  }

  ghost predicate RoutesOk(publicIf: Link, pods: map<string, PodDevices>, key: string, m: RedirectMap)
    requires key in pods
  {
    RoutesSound(publicIf, pods, key, m)
    && |m| <= REDIRECT_ENTRIES && |m| <= |pods|
    && (|pods| <= REDIRECT_ENTRIES ==> RoutesComplete(pods, key, m))
  }

  ghost predicate PoolOk(s: Net) {
    Sound(s.pool) && s.pool.base % 8 == 0 && s.gateway == s.pool.base + 1
  }

  ghost predicate PodsOk(s: Net) {
    forall key :: key in s.pods ==>
      Shape(s, s.pods[key]) && TablesOk(s, s.pods[key]) && AttachedOk(s, s.pods[key]) && WithinApart(s.pods[key])
  }

  ghost predicate PodsApart(s: Net) {
    forall key, other :: key in s.pods && other in s.pods && key != other ==> Apart(s.pods[key], s.pods[other])
  }

  ghost predicate AllRoutesOk(s: Net) {
    forall key :: key in s.pods ==>
      s.pods[key].fromSubpodBpfMap in s.k.redirect
      && RoutesOk(s.publicIf, s.pods, key, s.k.redirect[s.pods[key].fromSubpodBpfMap])
  }

  ghost predicate KernelOk(s: Net) {
    (forall fd :: fd in s.k.split ==> fd < s.nextFd)
    && (forall fd :: fd in s.k.redirect ==> fd < s.nextFd)
    && (forall fd :: fd in s.k.lh ==> fd < s.nextFd)
    && (forall i :: i in s.k.bridges ==> exists key :: key in s.pods && s.pods[key].podBridge.index == i)
    && s.publicIf.index !in s.k.bridges && 0 < s.publicIf.index < 0x8000_0000
  }

  ghost predicate Inv(s: Net) {
    PoolOk(s) && PodsOk(s) && PodsApart(s) && AllRoutesOk(s) && KernelOk(s)
  }

  // ---- The steps ----

  /** A new bridge and port get names and indices nobody else has, as the kernel gives them out. */
  ghost predicate FreshBridge(s: Net, bridge: Link) {
    0 < bridge.index < 0x8000_0000 && bridge.index !in s.k.bridges && bridge.index != s.publicIf.index
    && forall key :: key in s.pods ==> s.pods[key].podBridge.name != bridge.name
  }

  ghost predicate FreshPort(s: Net, host: Link) {
    host.index !in s.k.ports
  }

  /** The record of a pod that has just been created. */
  function NewPod(base: u32, bridge: Link, host: Link, mac: Mac, toMap: Fd, fromMap: Fd, lhMap: Fd): PodDevices {
    var ip := Wrap32(base + 1);
    PodDevices(base, bridge, map[ip := host], map[ip := mac], toMap, fromMap, map[ip := lhMap])
  }

  /** Pod `key` is created on the bridge `bridge`; its first workload sits behind `host` with `mac`. */
  ghost predicate Created(s: Net, key: string, podName: string, bridge: Link, host: Link, mac: Mac, s': Net) {
    Sound(s.pool) && Request(s.pool, podName).1.Some? && key !in s.pods
    && FreshBridge(s, bridge) && FreshPort(s, host)
    && key in s'.pods
    && var d := s'.pods[key];
       var base := Request(s.pool, podName).1.value;
       Wrap32(base + 1) in d.fromLocalhostBpfMaps
       && d == NewPod(base, bridge, host, mac, d.toSubpodBpfMap, d.fromSubpodBpfMap,
                      d.fromLocalhostBpfMaps[Wrap32(base + 1)])
       && s'.gateway == s.gateway && s'.publicIf == s.publicIf
       && s'.pool == Request(s.pool, podName).0
       && s'.pods == s.pods[key := d]
       && CreatedTables(s, d, s')
       && CreatedRoutes(s, key, d, s')
  }

  ghost predicate CreatedTables(s: Net, d: PodDevices, s': Net) {
    s.nextFd <= s'.nextFd
    && d.Count() == 1 && d.addressesUsed.Keys == d.internalDevices.Keys == d.fromLocalhostBpfMaps.Keys
    && d.baseAddr + 1 in d.addressesUsed
    && var ip := d.baseAddr + 1;
       var t, f, l := d.toSubpodBpfMap, d.fromSubpodBpfMap, d.fromLocalhostBpfMaps[ip];
       s.nextFd <= t < s'.nextFd && s.nextFd <= f < s'.nextFd && s.nextFd <= l < s'.nextFd
       && s'.k.split == s.k.split[t := OneSplit(SplitEntry(d, ip))]
       && s'.k.lh == s.k.lh[l := OneLh(LhEntry(d, ip))]
       && s'.k.ports == s.k.ports[d.addressesUsed[ip].index := PortProg(l, s.gateway)]
       && s'.k.bridges == s.k.bridges[d.podBridge.index := BridgeProg(d.baseAddr, t, f)]
       && s'.k.redirect.Keys == s.k.redirect.Keys + {f}
  }

  function OneSplit(r: SplitRoute): SplitTable {
    NoSplit()[0 := r]
  }

  function OneLh(r: LhRoute): LhTable {
    NoLh()[0 := r]
  }

  /** The new pod's redirect map, and the one write to that of every other pod. */
  ghost predicate CreatedRoutes(s: Net, key: string, d: PodDevices, s': Net)
    requires key in s'.pods
  {
    d.fromSubpodBpfMap in s'.k.redirect
    && RoutesOk(s.publicIf, s'.pods, key, s'.k.redirect[d.fromSubpodBpfMap])
    && forall q :: q in s.pods ==>
         s.pods[q].fromSubpodBpfMap in s.k.redirect && s.pods[q].fromSubpodBpfMap in s'.k.redirect
         && LruPut(s.k.redirect[s.pods[q].fromSubpodBpfMap], d.baseAddr, PeerRoute(s.pods[q], d),
                   s'.k.redirect[s.pods[q].fromSubpodBpfMap])
  }

  /** A workload on its way into a pod: its address, port and hardware address, and its localhost map. */
  datatype Newcomer = Newcomer(addr: u32, host: Link, mac: Mac, lhMap: Fd)

  /** The record of the pod with the newcomer in it. */
  function Joined(d: PodDevices, w: Newcomer): PodDevices {
    PodDevices(d.baseAddr, d.podBridge,
               d.addressesUsed[w.addr := w.host], d.internalDevices[w.addr := w.mac],
               d.toSubpodBpfMap, d.fromSubpodBpfMap, d.fromLocalhostBpfMaps[w.addr := w.lhMap])
  }

  ghost function NewSplitEntry(d: PodDevices, w: Newcomer): SplitRoute {
    MakeSplitRoute(d.podBridge, w.mac, w.addr)
  }

  ghost function NewLhEntry(d: PodDevices, w: Newcomer): LhRoute {
    MakeSplitLhRoute(d.podBridge, w.mac, d.baseAddr, w.addr)
  }

  /** A workload behind `host` with `mac` joins pod `key`, with `lhMap` as its localhost map. */
  ghost predicate Grown(s: Net, key: string, host: Link, mac: Mac, lhMap: Fd, s': Net) {
    key in s.pods && FreshPort(s, host)
    && var d := s.pods[key];
       d.Count() < MAX_IPS_PER_POD - 1 && d.baseAddr + 8 <= 0x1_0000_0000
       && var w := Newcomer(d.baseAddr + d.Count() + 1, host, mac, lhMap);
          s'.gateway == s.gateway && s'.publicIf == s.publicIf && s'.pool == s.pool
          && s'.pods == s.pods[key := Joined(d, w)]
          && s'.k.redirect == s.k.redirect && s'.k.bridges == s.k.bridges
          && GrownTables(s, d, w, s')
  }

  ghost predicate GrownTables(s: Net, d: PodDevices, w: Newcomer, s': Net) {
    s.nextFd <= w.lhMap < s'.nextFd
    && GrownSplit(s.k.split, d, w, s'.k.split)
    && GrownLh(s.k.lh, d, w, s'.k.lh)
    && s'.k.ports == s.k.ports[w.host.index := PortProg(w.lhMap, s.gateway)]
  }

  /** The pod's split map gets the newcomer in its next slot. */
  ghost predicate GrownSplit(split: map<Fd, SplitTable>, d: PodDevices, w: Newcomer, split': map<Fd, SplitTable>) {
    var t := d.toSubpodBpfMap;
    t in split && |split[t]| == SLOTS && d.Count() < SLOTS
    && split' == split[t := split[t][d.Count() := NewSplitEntry(d, w)]]
  }

  /** Every localhost map of the pod gets the newcomer in its next slot, and the newcomer gets a
      full map of its own. */
  ghost predicate GrownLh(lh: map<Fd, LhTable>, d: PodDevices, w: Newcomer, lh': map<Fd, LhTable>) {
    lh'.Keys == lh.Keys + {w.lhMap}
    && LhOk(lh'[w.lhMap], Joined(d, w), w.addr)
    && (forall b :: b in d.fromLocalhostBpfMaps ==> GrownTable(lh, d, d.fromLocalhostBpfMaps[b], w, lh'))
    && (forall fd :: fd in lh && fd !in d.fromLocalhostBpfMaps.Values ==> lh'[fd] == lh[fd])
  }

  ghost predicate GrownTable(lh: map<Fd, LhTable>, d: PodDevices, fd: Fd, w: Newcomer, lh': map<Fd, LhTable>) {
    fd in lh && fd in lh' && |lh[fd]| == SLOTS && d.Count() < SLOTS
    && lh'[fd] == lh[fd][d.Count() := NewLhEntry(d, w)]
  }

  datatype Event =
    | InitPod(key: string, podName: string, bridge: Link, host: Link, mac: Mac)
    | AddVm(key: string, host: Link, mac: Mac, lhMap: Fd)

  ghost predicate NetStep(s: Net, ev: Event, s': Net) {
    match ev
    case InitPod(key, podName, bridge, host, mac) => Created(s, key, podName, bridge, host, mac, s')
    case AddVm(key, host, mac, lhMap) => Grown(s, key, host, mac, lhMap, s')
  }

  ghost predicate Initial(s: Net) {
    Fits(s.pool) && s.pool.used == map[] && s.pool.base % 8 == 0 && s.gateway == s.pool.base + 1
    && s.pods == map[] && s.k == Kernel(map[], map[], map[], map[], map[]) && 0 < s.publicIf.index < 0x8000_0000
  }

  /** `states` is a run of successful steps from a fresh manager. */
  ghost predicate IsNetRun(states: seq<Net>, events: seq<Event>) {
    |states| == |events| + 1 && Initial(states[0])
    && forall i {:trigger events[i]} :: 0 <= i < |events| ==> NetStep(states[i], events[i], states[i + 1])
  }

  /** Some run ends in `s`. */
  ghost predicate Reachable(s: Net) {
    exists states: seq<Net>, events: seq<Event> :: IsNetRun(states, events) && states[|events|] == s
  }
}
