/** The invariant of the network state holds in every reachable state. */
module PodInvariant {
  import opened Words
  import opened Frames
  import opened AddressManager
  import opened Translate
  import opened Ebpf
  import opened PodState

  // ---- A pod is created ----

  lemma NewBase(s: Net, podName: string)
    requires PoolOk(s) && Request(s.pool, podName).1.Some?
    ensures var base := Request(s.pool, podName).1.value;
            base !in s.pool.used && base % 8 == 0 && 0 < base && base + 8 <= 0x1_0000_0000
            && Wrap32(base + 1) == base + 1
            && Request(s.pool, podName).0.used == s.pool.used[base := podName]
    ensures Sound(Request(s.pool, podName).0)
    ensures Request(s.pool, podName).0.base == s.pool.base && Request(s.pool, podName).0.max == s.pool.max
  {
    RequestLowest(s.pool, podName);
    var base := Request(s.pool, podName).1.value;
    var q := (base - s.pool.base) / 8;
    assert base == s.pool.base + 8 * q;
    Wrap32Small(base + 1);
  }

  /** Every handle and interface of `e` is known to the kernel. */
  ghost predicate Known(s: Net, e: PodDevices) {
    e.baseAddr in s.pool.used && e.podBridge.index in s.k.bridges
    && e.toSubpodBpfMap in s.k.split && e.fromSubpodBpfMap in s.k.redirect
    && (forall a :: a in e.fromLocalhostBpfMaps ==> e.fromLocalhostBpfMaps[a] in s.k.lh)
    && (forall a :: a in e.addressesUsed ==> e.addressesUsed[a].index in s.k.ports)
  }

  lemma PodKnown(s: Net, e: PodDevices)
    requires Shape(s, e) && TablesOk(s, e) && AttachedOk(s, e)
    ensures Known(s, e)
  {
    hide SplitOk, LhOk, Addrs;
  }

  /** A new pod has one workload, at the first address behind its base, and new handles. */
  lemma NewPodKeys(s: Net, d: PodDevices, s': Net)
    requires CreatedTables(s, d, s')
    ensures d.Count() == 1 && d.addressesUsed.Keys == {d.baseAddr + 1}
    ensures d.internalDevices.Keys == d.addressesUsed.Keys && d.fromLocalhostBpfMaps.Keys == d.addressesUsed.Keys
    ensures s.nextFd <= d.toSubpodBpfMap && s.nextFd <= d.fromSubpodBpfMap
    ensures forall a :: a in d.fromLocalhostBpfMaps ==> s.nextFd <= d.fromLocalhostBpfMaps[a]
  {
    hide SplitEntry, LhEntry, OneSplit, OneLh;
    SubsetSize({d.baseAddr + 1}, d.addressesUsed.Keys);
  }

  lemma NewPodShape(s: Net, d: PodDevices, s': Net)
    requires CreatedTables(s, d, s')
    requires d.baseAddr in s'.pool.used && d.baseAddr + 8 <= 0x1_0000_0000
    requires 0 < d.podBridge.index < 0x8000_0000
    ensures Shape(s', d) && WithinApart(d)
  {
    hide CreatedTables;
    NewPodKeys(s, d, s');
    assert d.addressesUsed.Keys == Addrs(d.baseAddr, 1);
    hide Addrs;
  }

  lemma NewPodTables(s: Net, d: PodDevices, s': Net)
    requires CreatedTables(s, d, s')
    ensures TablesOk(s', d)
  {
    NewPodKeys(s, d, s');
    var ip := d.baseAddr + 1;
    OneSplitOk(d, ip);
    OneLhOk(d, ip);
    hide SplitEntry, LhEntry, OneSplit, OneLh, SplitOk, LhOk;
  }

  lemma OneSplitOk(d: PodDevices, ip: u32)
    requires d.Count() == 1 && ip == d.baseAddr + 1 && ip in d.internalDevices
    ensures SplitOk(OneSplit(SplitEntry(d, ip)), d)
  {
  }

  lemma OneLhOk(d: PodDevices, ip: u32)
    requires d.Count() == 1 && ip == d.baseAddr + 1 && ip in d.internalDevices
    ensures LhOk(OneLh(LhEntry(d, ip)), d, ip)
  {
  }

  lemma NewPodAttached(s: Net, d: PodDevices, s': Net)
    requires CreatedTables(s, d, s') && s'.gateway == s.gateway
    ensures AttachedOk(s', d)
  {
    NewPodKeys(s, d, s');
    hide SplitEntry, LhEntry, OneSplit, OneLh;
  }

  lemma NewPodOk(s: Net, d: PodDevices, s': Net)
    requires CreatedTables(s, d, s') && s'.gateway == s.gateway
    requires d.baseAddr in s'.pool.used && d.baseAddr + 8 <= 0x1_0000_0000
    requires 0 < d.podBridge.index < 0x8000_0000
    ensures Shape(s', d) && TablesOk(s', d) && AttachedOk(s', d) && WithinApart(d)
  {
    hide CreatedTables, Shape, TablesOk, AttachedOk, WithinApart;
    NewPodShape(s, d, s');
    NewPodTables(s, d, s');
    NewPodAttached(s, d, s');
  }

  lemma OldPodTables(s: Net, e: PodDevices, d: PodDevices, s': Net)
    requires TablesOk(s, e) && KernelOk(s) && CreatedTables(s, d, s')
    ensures TablesOk(s', e)
  {
    hide SplitOk, LhOk, SplitEntry, LhEntry, OneSplit, OneLh;
  }

  lemma OldPodAttached(s: Net, e: PodDevices, d: PodDevices, s': Net)
    requires AttachedOk(s, e) && CreatedTables(s, d, s') && s'.gateway == s.gateway
    requires d.podBridge.index !in s.k.bridges
    requires forall a :: a in d.addressesUsed ==> d.addressesUsed[a].index !in s.k.ports
    ensures AttachedOk(s', e)
  {
    hide SplitEntry, LhEntry, OneSplit, OneLh;
  }

  lemma OldPodShape(s: Net, e: PodDevices, s': Net)
    requires Shape(s, e) && s.pool.used.Keys <= s'.pool.used.Keys
    ensures Shape(s', e)
  {
  }

  lemma NewPodApart(s: Net, e: PodDevices, d: PodDevices, s': Net)
    requires Known(s, e) && KernelOk(s) && CreatedTables(s, d, s')
    requires d.baseAddr !in s.pool.used
    requires d.podBridge.index !in s.k.bridges && d.podBridge.name != e.podBridge.name
    requires forall a :: a in d.addressesUsed ==> d.addressesUsed[a].index !in s.k.ports
    ensures Apart(e, d) && Apart(d, e)
  {
    hide Known, KernelOk, CreatedTables, Apart;
    NewPodKeys(s, d, s');
    BoundsApart(s, e, d);
    ApartSymmetric(e, d);
  }

  lemma BoundsApart(s: Net, e: PodDevices, d: PodDevices)
    requires Known(s, e) && KernelOk(s)
    requires d.baseAddr !in s.pool.used
    requires d.podBridge.index !in s.k.bridges && d.podBridge.name != e.podBridge.name
    requires s.nextFd <= d.toSubpodBpfMap && s.nextFd <= d.fromSubpodBpfMap
    requires forall a :: a in d.addressesUsed ==> d.addressesUsed[a].index !in s.k.ports
    requires forall a :: a in d.fromLocalhostBpfMaps ==> s.nextFd <= d.fromLocalhostBpfMaps[a]
    ensures Apart(e, d)
  {
  }

  lemma ApartSymmetric(e: PodDevices, d: PodDevices)
    requires Apart(e, d)
    ensures Apart(d, e)
  {
  }

  /** One more pod: the map of an existing pod gets the new route and loses none while it has room. */
  lemma OldRoutes(publicIf: Link, pods: map<string, PodDevices>, key: string, q: string, d: PodDevices,
                  m: RedirectMap, m': RedirectMap)
    requires q in pods && key !in pods && d.baseAddr != 0
    requires RoutesOk(publicIf, pods, q, m)
    requires LruPut(m, d.baseAddr, PeerRoute(pods[q], d), m')
    ensures RoutesOk(publicIf, pods[key := d], q, m')
  {
    hide RoutesSound, RoutesComplete, LruPut, PeerRoute;
    LruPutSize(m, d.baseAddr, PeerRoute(pods[q], d), m');
    LruBound(m, d.baseAddr, PeerRoute(pods[q], d), m');
    OneMorePod(pods, key, d);
    OldRoutesSound(publicIf, pods, key, q, d, m, m');
    if |pods| < REDIRECT_ENTRIES {
      OldRoutesComplete(pods, key, q, d, m, m');
    }
  }

  lemma LruBound(m: RedirectMap, x: u32, r: RedirectRoute, m': RedirectMap)
    requires LruPut(m, x, r, m')
    ensures |m'| <= REDIRECT_ENTRIES
  {
  }

  lemma OneMorePod(pods: map<string, PodDevices>, key: string, d: PodDevices)
    requires key !in pods
    ensures |pods[key := d]| == |pods| + 1
  {
    assert pods[key := d].Keys == pods.Keys + {key};
    assert |pods[key := d].Keys| == |pods.Keys| + 1;
  }

  lemma OldRoutesSound(publicIf: Link, pods: map<string, PodDevices>, key: string, q: string, d: PodDevices,
                       m: RedirectMap, m': RedirectMap)
    requires q in pods && key !in pods && d.baseAddr != 0
    requires RoutesSound(publicIf, pods, q, m)
    requires LruPut(m, d.baseAddr, PeerRoute(pods[q], d), m')
    ensures RoutesSound(publicIf, pods[key := d], q, m')
  {
    hide PeerRoute, DefaultRoute;
    var pods' := pods[key := d];
    forall x | x in m'
      ensures if x == 0 then m'[x] == DefaultRoute(publicIf, pods'[q])
              else exists p :: p in pods' && p != q && x == pods'[p].baseAddr && m'[x] == PeerRoute(pods'[q], pods'[p])
    {
      if x == d.baseAddr {
        assert key in pods' && key != q && x == pods'[key].baseAddr;
      } else if x != 0 {
        var p :| p in pods && p != q && x == pods[p].baseAddr && m[x] == PeerRoute(pods[q], pods[p]);
        assert p in pods' && pods'[p] == pods[p];
      }
    }
  }

  lemma OldRoutesComplete(pods: map<string, PodDevices>, key: string, q: string, d: PodDevices,
                          m: RedirectMap, m': RedirectMap)
    requires q in pods && key !in pods && |m| < REDIRECT_ENTRIES
    requires RoutesComplete(pods, q, m) && LruPut(m, d.baseAddr, PeerRoute(pods[q], d), m')
    ensures RoutesComplete(pods[key := d], q, m')
  {
    hide PeerRoute;
  }

  lemma CreatedFacts(s: Net, key: string, podName: string, bridge: Link, host: Link, mac: Mac, s': Net)
    requires PoolOk(s) && Created(s, key, podName, bridge, host, mac, s')
    ensures var d := s'.pods[key];
            d.baseAddr !in s.pool.used && d.baseAddr != 0 && d.baseAddr + 8 <= 0x1_0000_0000
            && d.podBridge == bridge && d.baseAddr in s'.pool.used && s.pool.used.Keys <= s'.pool.used.Keys
            && d.addressesUsed == map[d.baseAddr + 1 := host]
            && CreatedTables(s, d, s') && CreatedRoutes(s, key, d, s')
    ensures PoolOk(s')
  {
    hide CreatedTables, CreatedRoutes, Request;
    NewBase(s, podName);
  }

  lemma CreatedPods(s: Net, key: string, d: PodDevices, s': Net)
    requires PodsOk(s) && PodsApart(s) && KernelOk(s)
    requires key !in s.pods && s'.pods == s.pods[key := d] && s'.gateway == s.gateway && s'.publicIf == s.publicIf
    requires CreatedTables(s, d, s')
    requires d.baseAddr !in s.pool.used && d.baseAddr in s'.pool.used && d.baseAddr + 8 <= 0x1_0000_0000
    requires s.pool.used.Keys <= s'.pool.used.Keys
    requires FreshBridge(s, d.podBridge)
    requires forall a :: a in d.addressesUsed ==> d.addressesUsed[a].index !in s.k.ports
    ensures PodsOk(s') && PodsApart(s')
  {
    hide Shape, TablesOk, AttachedOk, WithinApart, Apart, CreatedTables, KernelOk, Known;
    NewPodOk(s, d, s');
    forall q | q in s.pods
      ensures Shape(s', s.pods[q]) && TablesOk(s', s.pods[q]) && AttachedOk(s', s.pods[q])
      ensures Apart(s.pods[q], d) && Apart(d, s.pods[q])
    {
      OldPodShape(s, s.pods[q], s');
      OldPodTables(s, s.pods[q], d, s');
      OldPodAttached(s, s.pods[q], d, s');
      PodKnown(s, s.pods[q]);
      NewPodApart(s, s.pods[q], d, s');
    }
  }

  lemma CreatedAllRoutes(s: Net, key: string, d: PodDevices, s': Net)
    requires AllRoutesOk(s) && key !in s.pods && s'.pods == s.pods[key := d] && s'.publicIf == s.publicIf
    requires d.baseAddr != 0 && CreatedRoutes(s, key, d, s')
    ensures AllRoutesOk(s')
  {
    hide RoutesOk, LruPut;
    forall q | q in s'.pods
      ensures s'.pods[q].fromSubpodBpfMap in s'.k.redirect
      ensures RoutesOk(s'.publicIf, s'.pods, q, s'.k.redirect[s'.pods[q].fromSubpodBpfMap])
    {
      if q != key {
        var e := s.pods[q];
        OldRoutes(s.publicIf, s.pods, key, q, d, s.k.redirect[e.fromSubpodBpfMap], s'.k.redirect[e.fromSubpodBpfMap]);
      }
    }
  }

  lemma CreatedKernel(s: Net, key: string, d: PodDevices, s': Net)
    requires KernelOk(s) && key !in s.pods && s'.pods == s.pods[key := d] && s'.publicIf == s.publicIf
    requires CreatedTables(s, d, s') && d.podBridge.index != s.publicIf.index
    ensures KernelOk(s')
  {
    hide SplitEntry, LhEntry, OneSplit, OneLh;
    CreatedHandles(s, d, s');
    hide CreatedTables;
    forall i | i in s'.k.bridges
      ensures exists q :: q in s'.pods && s'.pods[q].podBridge.index == i
    {
      if i == d.podBridge.index {
        assert key in s'.pods;
      } else {
        var q :| q in s.pods && s.pods[q].podBridge.index == i;
        assert q in s'.pods && s'.pods[q] == s.pods[q];
      }
    }
  }

  lemma CreatedHandles(s: Net, d: PodDevices, s': Net)
    requires CreatedTables(s, d, s') && KernelOk(s)
    ensures forall fd :: fd in s'.k.split ==> fd < s'.nextFd
    ensures forall fd :: fd in s'.k.redirect ==> fd < s'.nextFd
    ensures forall fd :: fd in s'.k.lh ==> fd < s'.nextFd
    ensures s'.k.bridges.Keys == s.k.bridges.Keys + {d.podBridge.index}
  {
    hide SplitEntry, LhEntry, OneSplit, OneLh;
  }

  /** Creating a pod keeps the invariant. */
  lemma CreatedKeepsInv(s: Net, key: string, podName: string, bridge: Link, host: Link, mac: Mac, s': Net)
    requires Inv(s) && Created(s, key, podName, bridge, host, mac, s')
    ensures Inv(s')
  {
    hide PoolOk, PodsOk, PodsApart, AllRoutesOk, KernelOk, CreatedTables, CreatedRoutes, Request;
    CreatedFacts(s, key, podName, bridge, host, mac, s');
    var d := s'.pods[key];
    CreatedPods(s, key, d, s');
    CreatedAllRoutes(s, key, d, s');
    CreatedKernel(s, key, d, s');
  }

  // ---- A workload is added ----

  /** `d'` is the record of `d` with the newcomer, who has the next address. */
  ghost predicate OneMore(d: PodDevices, d': PodDevices, w: Newcomer) {
    w.addr == d.baseAddr + d.Count() + 1 && d.Count() < MAX_IPS_PER_POD - 1
    && w.addr !in d.addressesUsed && w.addr !in d.internalDevices && w.addr !in d.fromLocalhostBpfMaps
    && d' == Joined(d, w)
  }

  /** The same, entry by entry. */
  ghost predicate Grew(d: PodDevices, d': PodDevices, w: Newcomer) {
    d'.baseAddr == d.baseAddr && d'.podBridge == d.podBridge
    && d'.toSubpodBpfMap == d.toSubpodBpfMap && d'.fromSubpodBpfMap == d.fromSubpodBpfMap
    && (forall b :: b in d'.addressesUsed ==>
          if b == w.addr then d'.addressesUsed[b] == w.host
          else b in d.addressesUsed && d'.addressesUsed[b] == d.addressesUsed[b])
    && (forall b :: b in d'.fromLocalhostBpfMaps ==>
          if b == w.addr then d'.fromLocalhostBpfMaps[b] == w.lhMap
          else b in d.fromLocalhostBpfMaps && d'.fromLocalhostBpfMaps[b] == d.fromLocalhostBpfMaps[b])
  }

  /** All three tables have one more key, the newcomer's address. */
  ghost predicate KeysGrew(d: PodDevices, d': PodDevices, w: Newcomer) {
    d'.addressesUsed.Keys == d.addressesUsed.Keys + {w.addr}
    && d'.internalDevices.Keys == d.internalDevices.Keys + {w.addr}
    && d'.fromLocalhostBpfMaps.Keys == d.fromLocalhostBpfMaps.Keys + {w.addr}
  }

  lemma Growth(d: PodDevices, d': PodDevices, w: Newcomer)
    requires OneMore(d, d', w)
    ensures Grew(d, d', w)
  {
  }

  lemma UpdateKeys<T>(m: map<u32, T>, a: u32, v: T, m': map<u32, T>)
    requires m' == m[a := v]
    ensures m'.Keys == m.Keys + {a}
    ensures a !in m ==> |m'| == |m| + 1
  {
  }

  lemma KeysGrow(d: PodDevices, d': PodDevices, w: Newcomer)
    requires OneMore(d, d', w)
    ensures KeysGrew(d, d', w)
  {
    UpdateKeys(d.addressesUsed, w.addr, w.host, d'.addressesUsed);
    UpdateKeys(d.internalDevices, w.addr, w.mac, d'.internalDevices);
    UpdateKeys(d.fromLocalhostBpfMaps, w.addr, w.lhMap, d'.fromLocalhostBpfMaps);
  }

  lemma CountGrows(d: PodDevices, d': PodDevices, w: Newcomer)
    requires OneMore(d, d', w)
    ensures d'.Count() == d.Count() + 1 && |d'.fromLocalhostBpfMaps| == |d.fromLocalhostBpfMaps| + 1
  {
  }

  /** The newcomer's entry is the one the tables use, and the other workloads keep theirs. */
  lemma EntriesKept(d: PodDevices, d': PodDevices, w: Newcomer)
    requires OneMore(d, d', w)
    ensures w.addr in d'.internalDevices && LhEntry(d', w.addr) == NewLhEntry(d, w)
    ensures SplitEntry(d', w.addr) == NewSplitEntry(d, w)
    ensures forall b :: b in d.internalDevices ==>
              b != w.addr && b in d'.internalDevices && LhEntry(d', b) == LhEntry(d, b)
                && SplitEntry(d', b) == SplitEntry(d, b)
  {
  }

  lemma SplitGrows(t: SplitTable, d: PodDevices, d': PodDevices, w: Newcomer)
    requires SplitOk(t, d) && OneMore(d, d', w)
    ensures SplitOk(t[d.Count() := NewSplitEntry(d, w)], d')
  {
  }

  /** An existing localhost map gets the newcomer in the next slot. */
  lemma LhGrows(t: LhTable, d: PodDevices, d': PodDevices, w: Newcomer, b: u32)
    requires LhOk(t, d, b) && OneMore(d, d', w) && b < w.addr
    ensures LhOk(t[d.Count() := NewLhEntry(d, w)], d', b)
  {
    CountGrows(d, d', w);
    EntriesKept(d, d', w);
    assert w.addr == d'.baseAddr + 1 + d.Count() && d'.baseAddr == d.baseAddr;
    assert d.Count() < SLOTS;
    hide OneMore, LhEntry;
    var t' := t[d.Count() := NewLhEntry(d, w)];
    forall j | 0 <= j < d.Count()
      ensures t'[j].daddr in d'.internalDevices && t'[j] == LhEntry(d', t'[j].daddr) && t'[j].daddr != w.addr
    {
      assert t'[j] == t[j] == LhEntry(d, t[j].daddr);
    }
  }

  lemma GrownTablesOk(s: Net, d: PodDevices, d': PodDevices, w: Newcomer, s': Net)
    requires Shape(s, d) && TablesOk(s, d) && OneMore(d, d', w)
    requires GrownTables(s, d, w, s') && s'.k.redirect == s.k.redirect
    ensures TablesOk(s', d')
  {
    hide SplitOk, LhOk, NewSplitEntry, NewLhEntry;
    assert SplitOk(s'.k.split[d'.toSubpodBpfMap], d') by {
      SplitGrows(s.k.split[d.toSubpodBpfMap], d, d', w);
    }
    forall b | b in d'.fromLocalhostBpfMaps
      ensures d'.fromLocalhostBpfMaps[b] in s'.k.lh && LhOk(s'.k.lh[d'.fromLocalhostBpfMaps[b]], d', b)
    {
      if b != w.addr {
        assert b in d.fromLocalhostBpfMaps && b < w.addr;
        assert GrownTable(s.k.lh, d, d.fromLocalhostBpfMaps[b], w, s'.k.lh);
        LhGrows(s.k.lh[d.fromLocalhostBpfMaps[b]], d, d', w, b);
      }
    }
  }

  lemma GrownShape(s: Net, d: PodDevices, d': PodDevices, w: Newcomer, s': Net)
    requires Shape(s, d) && OneMore(d, d', w) && s'.pool == s.pool
    ensures Shape(s', d')
  {
    KeysGrow(d, d', w);
    CountGrows(d, d', w);
    assert Addrs(d.baseAddr, d.Count() + 1) == Addrs(d.baseAddr, d.Count()) + {w.addr};
    assert d'.baseAddr == d.baseAddr && d'.podBridge == d.podBridge && d.Count() < MAX_IPS_PER_POD - 1;
    hide OneMore, Addrs;
  }

  lemma PortAdded(ports: map<u32, PortProg>, d: PodDevices, d': PodDevices, w: Newcomer, gateway: u32)
    requires PortsOk(ports, d, gateway) && OneMore(d, d', w) && w.host.index !in ports
    ensures PortsOk(ports[w.host.index := PortProg(w.lhMap, gateway)], d', gateway)
  {
    assert d'.fromLocalhostBpfMaps.Keys == d'.addressesUsed.Keys by {
      KeysGrow(d, d', w);
    }
    Growth(d, d', w);
    hide OneMore;
    var ports' := ports[w.host.index := PortProg(w.lhMap, gateway)];
    forall a | a in d'.addressesUsed
      ensures d'.addressesUsed[a].index in ports'
      ensures ports'[d'.addressesUsed[a].index] == PortProg(d'.fromLocalhostBpfMaps[a], gateway)
    {
      if a != w.addr {
        var i := d.addressesUsed[a].index;
        assert i in ports && i != w.host.index && d'.addressesUsed[a].index == i;
        assert d'.fromLocalhostBpfMaps[a] == d.fromLocalhostBpfMaps[a];
      }
    }
  }

  lemma GrownAttached(s: Net, d: PodDevices, d': PodDevices, w: Newcomer, s': Net)
    requires AttachedOk(s, d) && OneMore(d, d', w) && w.host.index !in s.k.ports
    requires GrownTables(s, d, w, s') && s'.gateway == s.gateway && s'.k.bridges == s.k.bridges
    ensures AttachedOk(s', d')
  {
    hide PortsOk, GrownLh, GrownSplit;
    PortAdded(s.k.ports, d, d', w, s.gateway);
  }

  lemma GrownWithin(s: Net, d: PodDevices, d': PodDevices, w: Newcomer)
    requires Known(s, d) && KernelOk(s) && WithinApart(d) && OneMore(d, d', w)
    requires w.host.index !in s.k.ports && s.nextFd <= w.lhMap
    ensures WithinApart(d')
  {
    hide OneMore, Known, KernelOk, Grew, WithinApart;
    Growth(d, d', w);
    NewcomerApart(s, d, w);
    WithinGrows(d, d', w);
  }

  lemma NewcomerApart(s: Net, d: PodDevices, w: Newcomer)
    requires Known(s, d) && KernelOk(s) && w.host.index !in s.k.ports && s.nextFd <= w.lhMap
    ensures forall a :: a in d.addressesUsed ==> d.addressesUsed[a].index != w.host.index
    ensures forall a :: a in d.fromLocalhostBpfMaps ==> d.fromLocalhostBpfMaps[a] != w.lhMap
  {
  }

  lemma WithinGrows(d: PodDevices, d': PodDevices, w: Newcomer)
    requires WithinApart(d) && Grew(d, d', w)
    requires forall a :: a in d.addressesUsed ==> d.addressesUsed[a].index != w.host.index
    requires forall a :: a in d.fromLocalhostBpfMaps ==> d.fromLocalhostBpfMaps[a] != w.lhMap
    ensures WithinApart(d')
  {
  }

  lemma OthersTables(s: Net, d: PodDevices, w: Newcomer, e: PodDevices, s': Net)
    requires TablesOk(s, e) && Apart(d, e)
    requires GrownTables(s, d, w, s') && s'.k.redirect == s.k.redirect
    ensures TablesOk(s', e)
  {
    hide SplitOk, LhOk, NewSplitEntry, GrownLh, Apart;
    assert d.toSubpodBpfMap != e.toSubpodBpfMap by { SplitApart(d, e); }
    forall b | b in e.fromLocalhostBpfMaps
      ensures e.fromLocalhostBpfMaps[b] in s'.k.lh
      ensures LhOk(s'.k.lh[e.fromLocalhostBpfMaps[b]], e, b)
    {
      OtherHandle(d, e, b);
      OtherTable(s.k.lh, d, w, s'.k.lh, e.fromLocalhostBpfMaps[b]);
    }
  }

  lemma SplitApart(d: PodDevices, e: PodDevices)
    requires Apart(d, e)
    ensures d.toSubpodBpfMap != e.toSubpodBpfMap
  {
  }

  lemma OtherHandle(d: PodDevices, e: PodDevices, b: u32)
    requires Apart(d, e) && b in e.fromLocalhostBpfMaps
    ensures e.fromLocalhostBpfMaps[b] !in d.fromLocalhostBpfMaps.Values
  {
  }

  lemma OtherTable(lh: map<Fd, LhTable>, d: PodDevices, w: Newcomer, lh': map<Fd, LhTable>, fd: Fd)
    requires GrownLh(lh, d, w, lh') && fd in lh && fd !in d.fromLocalhostBpfMaps.Values
    ensures fd in lh' && lh'[fd] == lh[fd]
  {
    hide LhOk, GrownTable, Joined;
  }

  lemma PortUnrelated(ports: map<u32, PortProg>, e: PodDevices, i: u32, p: PortProg, gateway: u32)
    requires PortsOk(ports, e, gateway) && i !in ports
    ensures PortsOk(ports[i := p], e, gateway)
  {
  }

  lemma OthersAttached(s: Net, d: PodDevices, w: Newcomer, e: PodDevices, s': Net)
    requires AttachedOk(s, e) && w.host.index !in s.k.ports
    requires GrownTables(s, d, w, s') && s'.gateway == s.gateway && s'.k.bridges == s.k.bridges
    ensures AttachedOk(s', e)
  {
    hide PortsOk, GrownLh, GrownSplit;
    PortUnrelated(s.k.ports, e, w.host.index, PortProg(w.lhMap, s.gateway), s.gateway);
  }

  lemma OthersApart(s: Net, d: PodDevices, d': PodDevices, w: Newcomer, e: PodDevices)
    requires Known(s, e) && KernelOk(s) && OneMore(d, d', w) && Apart(d, e)
    requires w.host.index !in s.k.ports && s.nextFd <= w.lhMap
    ensures Apart(d', e) && Apart(e, d')
  {
    hide OneMore, Known, KernelOk, Grew, Apart;
    Growth(d, d', w);
    PortsStayApart(s, d, d', w, e);
    HandlesStayApart(s, d, d', w, e);
    StillApart(d, d', w, e);
    ApartSymmetric(d', e);
  }

  lemma PortsStayApart(s: Net, d: PodDevices, d': PodDevices, w: Newcomer, e: PodDevices)
    requires Known(s, e) && Grew(d, d', w) && Apart(d, e) && w.host.index !in s.k.ports
    ensures forall a, b :: a in d'.addressesUsed && b in e.addressesUsed ==>
              d'.addressesUsed[a].index != e.addressesUsed[b].index
  {
  }

  lemma HandlesStayApart(s: Net, d: PodDevices, d': PodDevices, w: Newcomer, e: PodDevices)
    requires Known(s, e) && KernelOk(s) && Grew(d, d', w) && Apart(d, e) && s.nextFd <= w.lhMap
    ensures forall a, b :: a in d'.fromLocalhostBpfMaps && b in e.fromLocalhostBpfMaps ==>
              d'.fromLocalhostBpfMaps[a] != e.fromLocalhostBpfMaps[b]
  {
  }

  lemma StillApart(d: PodDevices, d': PodDevices, w: Newcomer, e: PodDevices)
    requires Apart(d, e) && Grew(d, d', w)
    requires forall a, b :: a in d'.addressesUsed && b in e.addressesUsed ==>
               d'.addressesUsed[a].index != e.addressesUsed[b].index
    requires forall a, b :: a in d'.fromLocalhostBpfMaps && b in e.fromLocalhostBpfMaps ==>
               d'.fromLocalhostBpfMaps[a] != e.fromLocalhostBpfMaps[b]
    ensures Apart(d', e)
  {
  }

  /** The redirect tables depend only on the bridges and bases of the pods. */
  lemma RoutesUnchanged(publicIf: Link, pods: map<string, PodDevices>, key: string, d': PodDevices,
                        q: string, m: RedirectMap)
    requires key in pods && q in pods
    requires d'.baseAddr == pods[key].baseAddr && d'.podBridge == pods[key].podBridge
    requires RoutesOk(publicIf, pods, q, m)
    ensures RoutesOk(publicIf, pods[key := d'], q, m)
  {
    hide RoutesSound, RoutesComplete;
    SamePods(pods, key, d');
    SoundUnchanged(publicIf, pods, key, d', q, m);
    if RoutesComplete(pods, q, m) {
      CompleteUnchanged(pods, key, d', q, m);
    }
  }

  lemma SamePods(pods: map<string, PodDevices>, key: string, d': PodDevices)
    requires key in pods
    ensures |pods[key := d']| == |pods|
  {
    assert pods[key := d'].Keys == pods.Keys;
    assert |pods[key := d'].Keys| == |pods.Keys|;
  }

  lemma SoundUnchanged(publicIf: Link, pods: map<string, PodDevices>, key: string, d': PodDevices,
                       q: string, m: RedirectMap)
    requires key in pods && q in pods && RoutesSound(publicIf, pods, q, m)
    requires d'.baseAddr == pods[key].baseAddr && d'.podBridge == pods[key].podBridge
    ensures RoutesSound(publicIf, pods[key := d'], q, m)
  {
    var pods' := pods[key := d'];
    forall x | x in m && x != 0
      ensures exists p :: p in pods' && p != q && x == pods'[p].baseAddr && m[x] == PeerRoute(pods'[q], pods'[p])
    {
      var p :| p in pods && p != q && x == pods[p].baseAddr && m[x] == PeerRoute(pods[q], pods[p]);
      assert p in pods' && x == pods'[p].baseAddr;
    }
  }

  lemma CompleteUnchanged(pods: map<string, PodDevices>, key: string, d': PodDevices, q: string, m: RedirectMap)
    requires key in pods && q in pods && RoutesComplete(pods, q, m) && d'.baseAddr == pods[key].baseAddr
    ensures RoutesComplete(pods[key := d'], q, m)
  {
  }

  lemma GrownFacts(s: Net, key: string, d: PodDevices, w: Newcomer)
    requires PodsOk(s) && key in s.pods && d == s.pods[key] && d.Count() < MAX_IPS_PER_POD - 1
    requires w.addr == d.baseAddr + d.Count() + 1
    ensures OneMore(d, Joined(d, w), w)
  {
    hide TablesOk, AttachedOk, WithinApart;
  }

  /** Adding a workload keeps the pods in order and apart. */
  lemma GrownPods(s: Net, key: string, d: PodDevices, d': PodDevices, w: Newcomer, s': Net)
    requires PodsOk(s) && PodsApart(s) && KernelOk(s)
    requires key in s.pods && d == s.pods[key] && s'.pods == s.pods[key := d'] && OneMore(d, d', w)
    requires w.host.index !in s.k.ports && s.nextFd <= w.lhMap
    requires s'.pool == s.pool && s'.gateway == s.gateway
    requires s'.k.bridges == s.k.bridges && s'.k.redirect == s.k.redirect
    requires GrownTables(s, d, w, s')
    ensures PodsOk(s') && PodsApart(s')
  {
    hide Shape, TablesOk, AttachedOk, WithinApart, Apart, GrownTables, KernelOk, Known, OneMore;
    GrownTablesOk(s, d, d', w, s');
    GrownShape(s, d, d', w, s');
    GrownAttached(s, d, d', w, s');
    PodKnown(s, d);
    GrownWithin(s, d, d', w);
    forall q | q in s.pods && q != key
      ensures Shape(s', s.pods[q]) && TablesOk(s', s.pods[q]) && AttachedOk(s', s.pods[q])
      ensures Apart(d', s.pods[q]) && Apart(s.pods[q], d')
    {
      OldPodShape(s, s.pods[q], s');
      OthersTables(s, d, w, s.pods[q], s');
      OthersAttached(s, d, w, s.pods[q], s');
      PodKnown(s, s.pods[q]);
      OthersApart(s, d, d', w, s.pods[q]);
    }
  }

  lemma GrownAllRoutes(s: Net, key: string, d': PodDevices, s': Net)
    requires AllRoutesOk(s) && key in s.pods && s'.pods == s.pods[key := d']
    requires d'.baseAddr == s.pods[key].baseAddr && d'.podBridge == s.pods[key].podBridge
    requires d'.fromSubpodBpfMap == s.pods[key].fromSubpodBpfMap
    requires s'.publicIf == s.publicIf && s'.k.redirect == s.k.redirect
    ensures AllRoutesOk(s')
  {
    hide RoutesOk;
    forall q | q in s'.pods
      ensures s'.pods[q].fromSubpodBpfMap in s'.k.redirect
      ensures RoutesOk(s'.publicIf, s'.pods, q, s'.k.redirect[s'.pods[q].fromSubpodBpfMap])
    {
      RoutesUnchanged(s.publicIf, s.pods, key, d', q, s.k.redirect[s.pods[q].fromSubpodBpfMap]);
    }
  }

  /** Adding a workload keeps the invariant. */
  lemma GrownKeepsInv(s: Net, key: string, host: Link, mac: Mac, lhMap: Fd, s': Net)
    requires Inv(s) && Grown(s, key, host, mac, lhMap, s')
    ensures Inv(s')
  {
    hide PodsOk, PodsApart, AllRoutesOk, KernelOk, GrownSplit, GrownLh, OneMore;
    var d := s.pods[key];
    var w := Newcomer(d.baseAddr + d.Count() + 1, host, mac, lhMap);
    GrownFacts(s, key, d, w);
    GrownPods(s, key, d, Joined(d, w), w, s');
    GrownAllRoutes(s, key, Joined(d, w), s');
    GrownKernel(s, key, d, w, s');
  }

  lemma GrownKernel(s: Net, key: string, d: PodDevices, w: Newcomer, s': Net)
    requires KernelOk(s) && key in s.pods && s.pods[key] == d && s'.pods == s.pods[key := Joined(d, w)]
    requires s'.publicIf == s.publicIf
    requires GrownTables(s, d, w, s') && s'.k.bridges == s.k.bridges && s'.k.redirect == s.k.redirect
    ensures KernelOk(s')
  {
    hide LhOk;
    forall i | i in s'.k.bridges
      ensures exists q :: q in s'.pods && s'.pods[q].podBridge.index == i
    {
      var q :| q in s.pods && s.pods[q].podBridge.index == i;
      assert q in s'.pods && s'.pods[q].podBridge.index == i;
    }
  }

  // ---- Every run ----

  lemma StepKeepsInv(s: Net, ev: Event, s': Net)
    requires Inv(s) && NetStep(s, ev, s')
    ensures Inv(s')
  {
    hide Inv, Created, Grown;
    match ev
    case InitPod(key, podName, bridge, host, mac) => CreatedKeepsInv(s, key, podName, bridge, host, mac, s');
    case AddVm(key, host, mac, lhMap) => GrownKeepsInv(s, key, host, mac, lhMap, s');
  }

  /** Every state of every run satisfies the invariant: the slot/address correspondence, the
      localhost mesh, the redirect mesh and the wiring of programs to maps. */
  lemma {:induction false} RunInv(states: seq<Net>, events: seq<Event>, i: nat)
    requires IsNetRun(states, events) && i < |states|
    ensures Inv(states[i])
  {
    hide NetStep;
    if i > 0 {
      hide Inv;
      RunInv(states, events, i - 1);
      StepKeepsInv(states[i - 1], events[i - 1], states[i]);
    }
  }

  lemma ReachableInv(s: Net)
    requires Reachable(s)
    ensures Inv(s)
  {
    hide Inv, NetStep, Initial;
    var states: seq<Net>, events: seq<Event> :| IsNetRun(states, events) && states[|events|] == s;
    RunInv(states, events, |events|);
  }

  /** The state of a new manager is reachable. */
  lemma ReachableStart(s: Net)
    requires Initial(s)
    ensures Reachable(s)
  {
    assert IsNetRun([s], []);
  }

  /** A step from a reachable state leads to a reachable state. */
  lemma ReachableStep(s: Net, ev: Event, s': Net)
    requires Reachable(s) && NetStep(s, ev, s')
    ensures Reachable(s')
  {
    hide NetStep, Initial;
    var states: seq<Net>, events: seq<Event> :| IsNetRun(states, events) && states[|events|] == s;
    var longer, more := states + [s'], events + [ev];
    forall i | 0 <= i < |more|
      ensures NetStep(longer[i], more[i], longer[i + 1])
    {
      if i < |events| {
        assert NetStep(states[i], events[i], states[i + 1]);
      }
    }
    assert IsNetRun(longer, more);
  }
}
