/** The pod-local network manager (`pkg/network/MultiRuntimePodLocalNetworking.go`). */
module PodNetwork {
  import opened Wrappers
  import opened Words
  import opened Frames
  import opened AddressManager
  import opened Translate
  import opened Ebpf
  import opened PodState
  import opened PodInvariant

  /** `GetNetNs`: the key under which a pod is kept. */
  function GetNetNs(namespace: string, pod: string): string {
    namespace + "-" + pod
  }

  /** Two pods share a key, so that the second cannot be told from the first, exactly when they are the
      same pod or the separator can be moved: `a-b`,`c` and `a`,`b-c` share one. */
  lemma KeysShared(ns: string, pod: string, ns': string, pod': string)
    requires |ns| <= |ns'|
    ensures GetNetNs(ns, pod) == GetNetNs(ns', pod') <==>
            (ns == ns' && pod == pod')
            || (|ns| < |ns'| && ns' == ns + "-" + ns'[|ns| + 1..] && pod == ns'[|ns| + 1..] + "-" + pod')
  {
    SeparatorMoves(ns, pod, ns', pod', '-');
  }

  /** Pods whose namespaces have no hyphen never share a key. */
  lemma KeysApart(ns: string, pod: string, ns': string, pod': string)
    requires '-' !in ns && '-' !in ns' && (ns, pod) != (ns', pod')
    ensures GetNetNs(ns, pod) != GetNetNs(ns', pod')
  {
    if |ns| <= |ns'| {
      KeysShared(ns, pod, ns', pod');
      assert |ns| < |ns'| ==> (ns + "-" + ns'[|ns| + 1..])[|ns|] == '-';
    } else {
      KeysShared(ns', pod', ns, pod);
      assert (ns' + "-" + ns[|ns'| + 1..])[|ns'|] == '-';
    }
  }

  // ---- Meshing the localhost maps of one pod ----

  /** The newcomer can be meshed: `n` workloads have maps with `n` entries, its own map is empty. */
  ghost predicate MeshReady(lh: map<Fd, LhTable>, d: PodDevices, newIp: u32, n: nat) {
    n < SLOTS && newIp in d.fromLocalhostBpfMaps && |d.fromLocalhostBpfMaps| == n + 1
    && d.internalDevices.Keys == d.fromLocalhostBpfMaps.Keys
    && (forall b :: b in d.fromLocalhostBpfMaps ==>
          d.fromLocalhostBpfMaps[b] in lh
          && LhPrefix(lh[d.fromLocalhostBpfMaps[b]], if b == newIp then 0 else n))
    && (forall a, b :: a in d.fromLocalhostBpfMaps && b in d.fromLocalhostBpfMaps && a != b ==>
          d.fromLocalhostBpfMaps[a] != d.fromLocalhostBpfMaps[b])
  }

  /** The maps of the workloads in `done` have their entry for the newcomer, the others have not. */
  ghost predicate MeshOthers(lh: map<Fd, LhTable>, d: PodDevices, newIp: u32, n: nat, done: set<u32>,
                             now: map<Fd, LhTable>)
    requires MeshReady(lh, d, newIp, n)
  {
    now.Keys == lh.Keys
    && (forall b :: b in d.fromLocalhostBpfMaps && b != newIp ==>
          now[d.fromLocalhostBpfMaps[b]] ==
          if b in done then lh[d.fromLocalhostBpfMaps[b]][n := LhEntry(d, newIp)]
          else lh[d.fromLocalhostBpfMaps[b]])
    && (forall fd :: fd in lh && fd !in d.fromLocalhostBpfMaps.Values ==> now[fd] == lh[fd])
  }

  /** The newcomer's map holds exactly one entry for each workload in `done`. */
  ghost predicate MeshOwn(t: LhTable, d: PodDevices, done: set<u32>) {
    LhEntries(t, d, |done|) && forall j :: 0 <= j < |done| ==> t[j].daddr in done
  }

  /** Meshing has come as far as the workloads in `done`. */
  ghost predicate Meshed(lh: map<Fd, LhTable>, d: PodDevices, newIp: u32, n: nat, done: set<u32>, now: map<Fd, LhTable>)
    requires MeshReady(lh, d, newIp, n)
  {
    newIp !in done && done <= d.fromLocalhostBpfMaps.Keys && |done| <= n
    && MeshOthers(lh, d, newIp, n, done, now)
    && MeshOwn(now[d.fromLocalhostBpfMaps[newIp]], d, done)
  }

  /** The tables after the newcomer's own entry closed the mesh. */
  ghost predicate MeshDone(lh: map<Fd, LhTable>, d: PodDevices, newIp: u32, n: nat, now: map<Fd, LhTable>)
    requires MeshReady(lh, d, newIp, n)
  {
    MeshOthers(lh, d, newIp, n, d.fromLocalhostBpfMaps.Keys, now)
    && LhEntries(now[d.fromLocalhostBpfMaps[newIp]], d, n + 1)
    && now[d.fromLocalhostBpfMaps[newIp]][n].daddr == newIp
  }

  lemma MeshOthersStep(lh: map<Fd, LhTable>, d: PodDevices, newIp: u32, n: nat, done: set<u32>, ip: u32,
                       now: map<Fd, LhTable>, t: LhTable, own: LhTable)
    requires MeshReady(lh, d, newIp, n) && MeshOthers(lh, d, newIp, n, done, now)
    requires ip in d.fromLocalhostBpfMaps && ip != newIp && ip !in done
    requires t == lh[d.fromLocalhostBpfMaps[ip]][n := LhEntry(d, newIp)]
    ensures MeshOthers(lh, d, newIp, n, done + {ip},
                       now[d.fromLocalhostBpfMaps[ip] := t][d.fromLocalhostBpfMaps[newIp] := own])
  {
    hide LhPrefix, LhEntry;
  }

  lemma MeshOwnStep(t: LhTable, d: PodDevices, done: set<u32>, ip: u32, t': LhTable)
    requires MeshOwn(t, d, done) && |done| < SLOTS && ip !in done && ip in d.internalDevices
    requires |t| == SLOTS && t' == t[|done| := LhEntry(d, ip)]
    ensures |done + {ip}| == |done| + 1 && MeshOwn(t', d, done + {ip}) && t'[|done|].daddr == ip
  {
  }

  /** The two writes for workload `ip`: the newcomer's entry in slot `n` of its map, which is then `t`,
      and its own entry in slot `k` of the newcomer's map, which is then `own`. */
  ghost predicate MeshWrites(d: PodDevices, newIp: u32, n: nat, k: nat, ip: u32, now: map<Fd, LhTable>,
                             t: LhTable, own: LhTable, next: map<Fd, LhTable>)
  {
    ip in d.fromLocalhostBpfMaps && newIp in d.fromLocalhostBpfMaps && ip in d.internalDevices
    && newIp in d.internalDevices
    && var fd, mine := d.fromLocalhostBpfMaps[ip], d.fromLocalhostBpfMaps[newIp];
       fd in now && mine in now && |now[fd]| == |now[mine]| == SLOTS && n < SLOTS && k < SLOTS
       && t == now[fd][n := LhEntry(d, newIp)] && own == now[mine][k := LhEntry(d, ip)]
       && next == now[fd := t][mine := own]
  }

  lemma MeshStep(lh: map<Fd, LhTable>, d: PodDevices, newIp: u32, n: nat, done: set<u32>, ip: u32,
                 now: map<Fd, LhTable>, next: map<Fd, LhTable>, t: LhTable, own: LhTable)
    requires MeshReady(lh, d, newIp, n) && Meshed(lh, d, newIp, n, done, now)
    requires ip != newIp && ip !in done && |done| < n && MeshWrites(d, newIp, n, |done|, ip, now, t, own, next)
    ensures Meshed(lh, d, newIp, n, done + {ip}, next)
  {
    hide Meshed, LhEntry, MeshReady, MeshOthers, MeshOwn;
    MeshedParts(lh, d, newIp, n, done, now);
    StillUnmeshed(lh, d, newIp, n, done, ip, now);
    MeshOthersStep(lh, d, newIp, n, done, ip, now, t, own);
    MeshOwnStep(now[d.fromLocalhostBpfMaps[newIp]], d, done, ip, own);
    MeshedAgain(lh, d, newIp, n, done + {ip}, next, own);
  }

  lemma MeshedParts(lh: map<Fd, LhTable>, d: PodDevices, newIp: u32, n: nat, done: set<u32>, now: map<Fd, LhTable>)
    requires MeshReady(lh, d, newIp, n) && Meshed(lh, d, newIp, n, done, now)
    ensures newIp !in done && done <= d.fromLocalhostBpfMaps.Keys && now.Keys == lh.Keys
    ensures MeshOthers(lh, d, newIp, n, done, now) && newIp in d.fromLocalhostBpfMaps
    ensures d.fromLocalhostBpfMaps[newIp] in now && MeshOwn(now[d.fromLocalhostBpfMaps[newIp]], d, done)
  {
    hide LhPrefix, LhEntry, MeshOwn;
  }

  lemma StillUnmeshed(lh: map<Fd, LhTable>, d: PodDevices, newIp: u32, n: nat, done: set<u32>, ip: u32,
                      now: map<Fd, LhTable>)
    requires MeshReady(lh, d, newIp, n) && MeshOthers(lh, d, newIp, n, done, now)
    requires ip in d.fromLocalhostBpfMaps && ip != newIp && ip !in done
    ensures d.fromLocalhostBpfMaps[ip] in now && d.fromLocalhostBpfMaps[ip] in lh
    ensures now[d.fromLocalhostBpfMaps[ip]] == lh[d.fromLocalhostBpfMaps[ip]]
  {
    hide LhPrefix, LhEntry;
  }

  lemma MeshedAgain(lh: map<Fd, LhTable>, d: PodDevices, newIp: u32, n: nat, done: set<u32>,
                    next: map<Fd, LhTable>, own: LhTable)
    requires MeshReady(lh, d, newIp, n) && MeshOthers(lh, d, newIp, n, done, next) && |done| <= n
    requires newIp !in done && done <= d.fromLocalhostBpfMaps.Keys
    requires d.fromLocalhostBpfMaps[newIp] in next && next[d.fromLocalhostBpfMaps[newIp]] == own
    requires MeshOwn(own, d, done)
    ensures Meshed(lh, d, newIp, n, done, next)
  {
    hide LhPrefix, LhEntry, MeshOthers, MeshOwn;
  }

  lemma MeshOwner(lh: map<Fd, LhTable>, d: PodDevices, newIp: u32, n: nat)
    requires MeshReady(lh, d, newIp, n)
    ensures newIp in d.fromLocalhostBpfMaps
  {
  }

  /** The handles of the pod's localhost maps are loaded, different, and of maps with eight slots. */
  lemma MeshHandle(lh: map<Fd, LhTable>, d: PodDevices, newIp: u32, n: nat, b: u32)
    requires MeshReady(lh, d, newIp, n) && b in d.fromLocalhostBpfMaps
    ensures n < SLOTS && newIp in d.fromLocalhostBpfMaps && b in d.internalDevices
    ensures d.fromLocalhostBpfMaps[b] in lh && |lh[d.fromLocalhostBpfMaps[b]]| == SLOTS
    ensures d.fromLocalhostBpfMaps[b] in d.fromLocalhostBpfMaps.Values
    ensures b != newIp ==> d.fromLocalhostBpfMaps[b] != d.fromLocalhostBpfMaps[newIp]
  {
  }

  lemma MeshClose(lh: map<Fd, LhTable>, d: PodDevices, newIp: u32, n: nat, done: set<u32>,
                  now: map<Fd, LhTable>, next: map<Fd, LhTable>, own: LhTable)
    requires MeshReady(lh, d, newIp, n) && Meshed(lh, d, newIp, n, done, now) && |done| == n
    requires done == d.fromLocalhostBpfMaps.Keys - {newIp}
    requires |now[d.fromLocalhostBpfMaps[newIp]]| == SLOTS
    requires own == now[d.fromLocalhostBpfMaps[newIp]][n := LhEntry(d, newIp)]
    requires next == now[d.fromLocalhostBpfMaps[newIp] := own]
    ensures MeshDone(lh, d, newIp, n, next)
  {
    assert LhEntries(own, d, n + 1) && own[n].daddr == newIp by {
      MeshOwnStep(now[d.fromLocalhostBpfMaps[newIp]], d, done, newIp, own);
    }
    MeshOthersClose(lh, d, newIp, n, done, now, own);
    hide LhPrefix, LhEntry, LhEntries, MeshOthers, MeshOwn, Meshed, MeshReady;
  }

  lemma MeshOthersClose(lh: map<Fd, LhTable>, d: PodDevices, newIp: u32, n: nat, done: set<u32>,
                        now: map<Fd, LhTable>, own: LhTable)
    requires MeshReady(lh, d, newIp, n) && MeshOthers(lh, d, newIp, n, done, now)
    requires done == d.fromLocalhostBpfMaps.Keys - {newIp}
    ensures MeshOthers(lh, d, newIp, n, d.fromLocalhostBpfMaps.Keys, now[d.fromLocalhostBpfMaps[newIp] := own])
  {
    hide MeshReady, LhEntry;
    MeshOwner(lh, d, newIp, n);
    MeshHandle(lh, d, newIp, n, newIp);
    forall b | b in d.fromLocalhostBpfMaps && b != newIp
      ensures d.fromLocalhostBpfMaps[b] in lh && |lh[d.fromLocalhostBpfMaps[b]]| == SLOTS
      ensures d.fromLocalhostBpfMaps[b] != d.fromLocalhostBpfMaps[newIp] && b in done
    {
      MeshHandle(lh, d, newIp, n, b);
    }
  }

  lemma MeshStart(lh: map<Fd, LhTable>, d: PodDevices, newIp: u32, n: nat)
    requires MeshReady(lh, d, newIp, n)
    ensures Meshed(lh, d, newIp, n, {}, lh)
  {
  }

  lemma DoneSize(d: PodDevices, newIp: u32, n: nat, done: set<u32>)
    requires newIp in d.fromLocalhostBpfMaps && |d.fromLocalhostBpfMaps| == n + 1
    requires done <= d.fromLocalhostBpfMaps.Keys - {newIp}
    ensures |done| <= n
    ensures |done| == n <==> done == d.fromLocalhostBpfMaps.Keys - {newIp}
  {
    var others := d.fromLocalhostBpfMaps.Keys - {newIp};
    assert d.fromLocalhostBpfMaps.Keys == others + {newIp};
    assert |d.fromLocalhostBpfMaps.Keys| == n + 1;
    SubsetSize(done, others);
  }

  lemma OtherSlot(lh: map<Fd, LhTable>, d: PodDevices, newIp: u32, n: nat, done: set<u32>, now: map<Fd, LhTable>,
                  ip: u32)
    requires MeshReady(lh, d, newIp, n) && Meshed(lh, d, newIp, n, done, now)
    requires ip in d.fromLocalhostBpfMaps && ip != newIp && ip !in done
    ensures var fd := d.fromLocalhostBpfMaps[ip];
            fd in now && LhPrefix(now[fd], n) && now[fd][n].active == 0 && fd != d.fromLocalhostBpfMaps[newIp]
    ensures |done| < n
  {
    hide LhEntries, LhEntry, MeshOwn;
    NotAllDone(lh, d, newIp, n, done, ip);
    MeshHandle(lh, d, newIp, n, ip);
    assert LhPrefix(lh[d.fromLocalhostBpfMaps[ip]], n);
    hide MeshReady;
  }

  lemma NotAllDone(lh: map<Fd, LhTable>, d: PodDevices, newIp: u32, n: nat, done: set<u32>, ip: u32)
    requires MeshReady(lh, d, newIp, n) && newIp !in done && done <= d.fromLocalhostBpfMaps.Keys
    requires ip in d.fromLocalhostBpfMaps && ip != newIp && ip !in done
    ensures |done| < n
  {
    hide LhPrefix;
    DoneSize(d, newIp, n, done);
  }

  lemma OwnSlot(lh: map<Fd, LhTable>, d: PodDevices, newIp: u32, n: nat, done: set<u32>, now: map<Fd, LhTable>)
    requires MeshReady(lh, d, newIp, n) && Meshed(lh, d, newIp, n, done, now)
    ensures var fd := d.fromLocalhostBpfMaps[newIp];
            fd in now && LhPrefix(now[fd], |done|) && |done| < SLOTS && now[fd][|done|].active == 0
  {
  }

  /** Moving one element of a worklist to the elements done, unless it is the one left out. */
  lemma WorkDone<T>(all: set<T>, todo: set<T>, left: T, done: set<T>, x: T)
    requires done == all - todo - {left} && todo <= all && x in todo
    ensures todo - {x} <= all && |todo - {x}| < |todo|
    ensures x != left ==> x !in done && done <= all && done + {x} == all - (todo - {x}) - {left}
    ensures x == left ==> done == all - (todo - {x}) - {left}
  {
  }

  // ---- Filling the redirect map of a new pod ----

  /** Only the map behind `fd` differs. */
  ghost predicate OnlyAt(m: map<Fd, RedirectMap>, m': map<Fd, RedirectMap>, fd: Fd) {
    fd in m' && m' == m[fd := m'[fd]]
  }

  lemma OnlyAtSelf(m: map<Fd, RedirectMap>, fd: Fd)
    requires fd in m
    ensures OnlyAt(m, m, fd)
  {
  }

  lemma OnlyAtChain(m: map<Fd, RedirectMap>, m': map<Fd, RedirectMap>, m'': map<Fd, RedirectMap>, fd: Fd)
    requires OnlyAt(m, m', fd) && OnlyAt(m', m'', fd)
    ensures OnlyAt(m, m'', fd)
  {
  }

  /** The map knows the pods in `done`, all of them as long as it has room. */
  ghost predicate Filled(pods: map<string, PodDevices>, key: string, done: set<string>, m: RedirectMap)
    requires key in pods && done <= pods.Keys
  {
    key !in done && |m| <= |done| && |m| <= REDIRECT_ENTRIES
    && FilledSound(pods, pods[key], done, m)
    && (|done| <= REDIRECT_ENTRIES ==> FilledWhole(pods, done, m))
  }

  ghost predicate FilledSound(pods: map<string, PodDevices>, d: PodDevices, done: set<string>, m: RedirectMap)
    requires done <= pods.Keys
  {
    forall x :: x in m ==>
      x != 0 && exists q :: q in done && x == pods[q].baseAddr && m[x] == PeerRoute(d, pods[q])
  }

  ghost predicate FilledWhole(pods: map<string, PodDevices>, done: set<string>, m: RedirectMap)
    requires done <= pods.Keys
  {
    forall q :: q in done ==> pods[q].baseAddr in m
  }

  lemma FillStep(pods: map<string, PodDevices>, key: string, done: set<string>, m: RedirectMap, q: string,
                 m': RedirectMap)
    requires key in pods && done <= pods.Keys && Filled(pods, key, done, m)
    requires q in pods && q !in done && q != key && pods[q].baseAddr != 0
    requires LruPut(m, pods[q].baseAddr, PeerRoute(pods[key], pods[q]), m')
    ensures Filled(pods, key, done + {q}, m')
  {
    hide PeerRoute, LruPut, FilledSound, FilledWhole;
    LruPutSize(m, pods[q].baseAddr, PeerRoute(pods[key], pods[q]), m');
    assert |done + {q}| == |done| + 1;
    FillSound(pods, pods[key], done, m, q, m');
    if |done| < REDIRECT_ENTRIES {
      FillWhole(pods, pods[key], done, m, q, m');
    }
    LruBounded(m, pods[q].baseAddr, PeerRoute(pods[key], pods[q]), m');
  }

  lemma LruBounded(m: RedirectMap, x: u32, r: RedirectRoute, m': RedirectMap)
    requires LruPut(m, x, r, m')
    ensures |m'| <= REDIRECT_ENTRIES
  {
  }

  lemma FillWhole(pods: map<string, PodDevices>, d: PodDevices, done: set<string>, m: RedirectMap, q: string,
                  m': RedirectMap)
    requires done <= pods.Keys && FilledWhole(pods, done, m) && q in pods && |m| < REDIRECT_ENTRIES
    requires LruPut(m, pods[q].baseAddr, PeerRoute(d, pods[q]), m')
    ensures FilledWhole(pods, done + {q}, m')
  {
  }

  lemma FillSound(pods: map<string, PodDevices>, d: PodDevices, done: set<string>, m: RedirectMap, q: string,
                  m': RedirectMap)
    requires done <= pods.Keys && FilledSound(pods, d, done, m) && q in pods && pods[q].baseAddr != 0
    requires LruPut(m, pods[q].baseAddr, PeerRoute(d, pods[q]), m')
    ensures FilledSound(pods, d, done + {q}, m')
  {
  }

  lemma FillDefault(publicIf: Link, pods: map<string, PodDevices>, key: string, m: RedirectMap, m': RedirectMap)
    requires key in pods && Filled(pods, key, pods.Keys - {key}, m)
    requires LruPut(m, 0, DefaultRoute(publicIf, pods[key]), m')
    ensures RoutesOk(publicIf, pods, key, m')
  {
  }

  // ---- What the two operations leave behind ----

  lemma EmptyPrefix(t: LhTable)
    requires t == NoLh()
    ensures LhPrefix(t, 0)
  {
  }

  lemma FirstReady(s: Net, d: PodDevices, lh: map<Fd, LhTable>, ip: u32, l: Fd, host: Link, mac: Mac)
    requires d.internalDevices == map[ip := mac] && d.fromLocalhostBpfMaps == map[ip := l]
    requires lh == s.k.lh[l := NoLh()]
    ensures MeshReady(lh, d, ip, 0)
  {
    hide LhPrefix;
    EmptyPrefix(lh[l]);
  }

  lemma FirstMeshed(s: Net, d: PodDevices, lh: map<Fd, LhTable>, ip: u32, l: Fd, now: map<Fd, LhTable>)
    requires d.fromLocalhostBpfMaps == map[ip := l]
    requires lh == s.k.lh[l := NoLh()] && l !in s.k.lh
    requires MeshReady(lh, d, ip, 0) && MeshDone(lh, d, ip, 0, now)
    ensures now == s.k.lh[l := OneLh(LhEntry(d, ip))]
  {
    hide LhEntry, OneLh, MeshReady, NoLh, MeshDone;
    FirstOwn(s, d, lh, ip, l, now);
    forall fd | fd in s.k.lh
      ensures fd in now && now[fd] == s.k.lh[fd]
    {
      FirstFrame(s, d, lh, ip, l, now, fd);
    }
  }

  lemma FirstOwn(s: Net, d: PodDevices, lh: map<Fd, LhTable>, ip: u32, l: Fd, now: map<Fd, LhTable>)
    requires d.fromLocalhostBpfMaps == map[ip := l] && lh == s.k.lh[l := NoLh()]
    requires MeshReady(lh, d, ip, 0) && MeshDone(lh, d, ip, 0, now)
    ensures now.Keys == s.k.lh.Keys + {l} && now[l] == OneLh(LhEntry(d, ip))
  {
    hide LhEntries, LhEntry, OneLh, NoLh;
    OneEntry(d, ip, now[l]);
  }

  lemma FirstFrame(s: Net, d: PodDevices, lh: map<Fd, LhTable>, ip: u32, l: Fd, now: map<Fd, LhTable>, fd: Fd)
    requires d.fromLocalhostBpfMaps == map[ip := l]
    requires lh == s.k.lh[l := NoLh()] && l !in s.k.lh && fd in s.k.lh
    requires MeshReady(lh, d, ip, 0) && MeshDone(lh, d, ip, 0, now)
    ensures fd in now && now[fd] == s.k.lh[fd]
  {
  }

  lemma OneEntry(d: PodDevices, ip: u32, t: LhTable)
    requires LhEntries(t, d, 1) && t[0].daddr == ip
    ensures t == OneLh(LhEntry(d, ip))
  {
  }

  lemma VmSizes(s: Net, d: PodDevices, d': PodDevices, w: Newcomer)
    requires Shape(s, d) && OneMore(d, d', w)
    ensures d.Count() < SLOTS && w.addr in d'.fromLocalhostBpfMaps && d'.fromLocalhostBpfMaps[w.addr] == w.lhMap
    ensures |d'.fromLocalhostBpfMaps| == d.Count() + 1
    ensures d'.internalDevices.Keys == d'.fromLocalhostBpfMaps.Keys
  {
  }

  /** The handles of the workloads already there are unchanged, known and not the newcomer's. */
  lemma VmHandles(s: Net, d: PodDevices, d': PodDevices, w: Newcomer, b: u32)
    requires TablesOk(s, d) && KernelOk(s) && OneMore(d, d', w) && w.lhMap == s.nextFd
    requires b in d'.fromLocalhostBpfMaps && b != w.addr
    ensures b in d.fromLocalhostBpfMaps && d'.fromLocalhostBpfMaps[b] == d.fromLocalhostBpfMaps[b]
    ensures d.fromLocalhostBpfMaps[b] in s.k.lh && d.fromLocalhostBpfMaps[b] < s.nextFd
    ensures LhPrefix(s.k.lh[d.fromLocalhostBpfMaps[b]], d.Count())
  {
  }

  lemma VmReady(s: Net, d: PodDevices, d': PodDevices, w: Newcomer, lh: map<Fd, LhTable>)
    requires Shape(s, d) && TablesOk(s, d) && WithinApart(d') && KernelOk(s) && OneMore(d, d', w)
    requires w.lhMap == s.nextFd && lh == s.k.lh[s.nextFd := NoLh()]
    ensures MeshReady(lh, d', w.addr, d.Count())
  {
    hide OneMore, Shape, TablesOk, KernelOk, LhPrefix, LhOk, WithinApart;
    EmptyPrefix(lh[s.nextFd]);
    VmSizes(s, d, d', w);
    forall b | b in d'.fromLocalhostBpfMaps
      ensures d'.fromLocalhostBpfMaps[b] in lh
      ensures LhPrefix(lh[d'.fromLocalhostBpfMaps[b]], if b == w.addr then 0 else d.Count())
    {
      if b != w.addr {
        VmHandles(s, d, d', w, b);
      }
    }
    HandlesApart(d');
  }

  lemma HandlesApart(d: PodDevices)
    requires WithinApart(d)
    ensures forall a, b :: a in d.fromLocalhostBpfMaps && b in d.fromLocalhostBpfMaps && a != b ==>
              d.fromLocalhostBpfMaps[a] != d.fromLocalhostBpfMaps[b]
  {
  }

  /** The newcomer's own map: everyone before it in some order, then itself. */
  lemma OwnMapOk(s: Net, d: PodDevices, d': PodDevices, w: Newcomer, t: LhTable)
    requires Shape(s, d) && OneMore(d, d', w)
    requires LhEntries(t, d', d.Count() + 1) && t[d.Count()].daddr == w.addr
    ensures LhOk(t, d', w.addr)
  {
    hide Shape, OneMore, LhEntry;
    OneMoreSizes(d, d', w);
    forall j | 0 <= j < d.Count()
      ensures t[j].daddr < w.addr
    {
      assert t[j].daddr != t[d.Count()].daddr;
      EarlierAddress(s, d, d', w, t[j].daddr);
    }
  }

  lemma OneMoreSizes(d: PodDevices, d': PodDevices, w: Newcomer)
    requires OneMore(d, d', w)
    ensures w.addr == d.baseAddr + d.Count() + 1 && d'.baseAddr == d.baseAddr && d'.Count() == d.Count() + 1
  {
  }

  lemma EarlierAddress(s: Net, d: PodDevices, d': PodDevices, w: Newcomer, x: u32)
    requires Shape(s, d) && OneMore(d, d', w) && x in d'.internalDevices && x != w.addr
    ensures x < w.addr
  {
  }

  lemma VmKept(d: PodDevices, d': PodDevices, w: Newcomer)
    requires OneMore(d, d', w)
    ensures d' == Joined(d, w) && w.addr in d'.internalDevices && LhEntry(d', w.addr) == NewLhEntry(d, w)
    ensures w.addr in d'.fromLocalhostBpfMaps && d'.fromLocalhostBpfMaps[w.addr] == w.lhMap
    ensures forall b :: b in d.fromLocalhostBpfMaps ==>
              b != w.addr && b in d'.fromLocalhostBpfMaps && d'.fromLocalhostBpfMaps[b] == d.fromLocalhostBpfMaps[b]
    ensures d'.fromLocalhostBpfMaps.Values <= d.fromLocalhostBpfMaps.Values + {w.lhMap}
  {
  }

  lemma VmOther(s: Net, d: PodDevices, d': PodDevices, w: Newcomer, lh: map<Fd, LhTable>, now: map<Fd, LhTable>, b: u32)
    requires TablesOk(s, d) && KernelOk(s) && d.Count() < SLOTS && OneMore(d, d', w) && w.lhMap == s.nextFd
    requires lh == s.k.lh[s.nextFd := NoLh()] && b in d.fromLocalhostBpfMaps
    requires MeshReady(lh, d', w.addr, d.Count()) && MeshDone(lh, d', w.addr, d.Count(), now)
    ensures GrownTable(s.k.lh, d, d.fromLocalhostBpfMaps[b], w, now)
  {
    hide OneMore, LhEntry, LhEntries, LhOk, NewLhEntry, Joined, MeshReady, TablesOk, NoLh, LhPrefix;
    VmKept(d, d', w);
    TableSize(s, d, b);
    assert d.fromLocalhostBpfMaps[b] != s.nextFd;
    hide KernelOk;
  }

  lemma VmFrame(s: Net, d: PodDevices, d': PodDevices, w: Newcomer, lh: map<Fd, LhTable>, now: map<Fd, LhTable>, fd: Fd)
    requires KernelOk(s) && OneMore(d, d', w) && w.lhMap == s.nextFd
    requires lh == s.k.lh[s.nextFd := NoLh()] && fd in s.k.lh && fd !in d.fromLocalhostBpfMaps.Values
    requires MeshReady(lh, d', w.addr, d.Count()) && MeshDone(lh, d', w.addr, d.Count(), now)
    ensures fd in now && now[fd] == s.k.lh[fd]
  {
    hide OneMore, LhEntry, LhEntries, Joined, MeshReady, NoLh;
    VmKept(d, d', w);
    assert fd != s.nextFd;
    hide KernelOk;
    assert fd in lh && fd !in d'.fromLocalhostBpfMaps.Values;
  }

  lemma VmMeshed(s: Net, d: PodDevices, d': PodDevices, w: Newcomer, lh: map<Fd, LhTable>, now: map<Fd, LhTable>)
    requires Shape(s, d) && TablesOk(s, d) && KernelOk(s) && OneMore(d, d', w)
    requires w.lhMap == s.nextFd && lh == s.k.lh[s.nextFd := NoLh()]
    requires MeshReady(lh, d', w.addr, d.Count()) && MeshDone(lh, d', w.addr, d.Count(), now)
    ensures GrownLh(s.k.lh, d, w, now)
  {
    hide OneMore, LhEntries, LhOk, Joined, MeshReady, MeshDone, KernelOk, TablesOk, NoLh, GrownTable, Shape;
    VmOwn(s, d, d', w, lh, now);
    forall b | b in d.fromLocalhostBpfMaps
      ensures GrownTable(s.k.lh, d, d.fromLocalhostBpfMaps[b], w, now)
    {
      VmOther(s, d, d', w, lh, now, b);
    }
    forall fd | fd in s.k.lh && fd !in d.fromLocalhostBpfMaps.Values
      ensures fd in now && now[fd] == s.k.lh[fd]
    {
      VmFrame(s, d, d', w, lh, now, fd);
    }
  }

  lemma VmOwn(s: Net, d: PodDevices, d': PodDevices, w: Newcomer, lh: map<Fd, LhTable>, now: map<Fd, LhTable>)
    requires Shape(s, d) && OneMore(d, d', w)
    requires w.lhMap == s.nextFd && lh == s.k.lh[s.nextFd := NoLh()]
    requires MeshReady(lh, d', w.addr, d.Count()) && MeshDone(lh, d', w.addr, d.Count(), now)
    ensures now.Keys == s.k.lh.Keys + {w.lhMap} && LhOk(now[w.lhMap], Joined(d, w), w.addr) && d.Count() < SLOTS
  {
    hide OneMore, LhEntries, LhOk, Joined, MeshReady, NoLh, Shape;
    assert now.Keys == s.k.lh.Keys + {w.lhMap};
    VmSizes(s, d, d', w);
    VmKept(d, d', w);
    OwnMapOk(s, d, d', w, now[w.lhMap]);
  }

  lemma TableSize(s: Net, d: PodDevices, b: u32)
    requires TablesOk(s, d) && b in d.fromLocalhostBpfMaps
    ensures d.fromLocalhostBpfMaps[b] in s.k.lh && |s.k.lh[d.fromLocalhostBpfMaps[b]]| == SLOTS
  {
  }

  /** The other pods have bridges of their own and redirect maps that can be written. */
  ghost predicate RoutingReady(pods: map<string, PodDevices>, key: string, bridge: Link,
                               redirect: map<Fd, RedirectMap>, next: Fd)
  {
    key in pods && pods[key].podBridge == bridge
    && (forall q :: q in pods && q != key ==>
          pods[q].podBridge.name != bridge.name && pods[q].baseAddr != 0
          && pods[q].fromSubpodBpfMap in redirect && pods[q].fromSubpodBpfMap < next
          && |redirect[pods[q].fromSubpodBpfMap]| <= REDIRECT_ENTRIES)
    && (forall p, q :: p in pods && q in pods && p != key && q != key && p != q ==>
          pods[p].fromSubpodBpfMap != pods[q].fromSubpodBpfMap)
  }

  lemma RoutingIsReady(s: Net, key: string, bridge: Link, d: PodDevices, next: Fd)
    requires Inv(s) && key !in s.pods && FreshBridge(s, bridge) && d.podBridge == bridge && s.nextFd <= next
    ensures RoutingReady(s.pods[key := d], key, bridge, s.k.redirect, next)
  {
    hide PodsOk, PodsApart, AllRoutesOk, PoolOk, KernelOk;
    forall q | q in s.pods
      ensures s.pods[q].baseAddr != 0 && s.pods[q].fromSubpodBpfMap in s.k.redirect
      ensures s.pods[q].fromSubpodBpfMap < s.nextFd
      ensures |s.k.redirect[s.pods[q].fromSubpodBpfMap]| <= REDIRECT_ENTRIES
    {
      PodWritable(s, q);
    }
    forall p, q | p in s.pods && q in s.pods && p != q
      ensures s.pods[p].fromSubpodBpfMap != s.pods[q].fromSubpodBpfMap
    {
      FromsDiffer(s, p, q);
    }
  }

  lemma FromsDiffer(s: Net, p: string, q: string)
    requires PodsApart(s) && p in s.pods && q in s.pods && p != q
    ensures s.pods[p].fromSubpodBpfMap != s.pods[q].fromSubpodBpfMap
  {
  }

  lemma PodWritable(s: Net, q: string)
    requires PodsOk(s) && AllRoutesOk(s) && PoolOk(s) && KernelOk(s) && q in s.pods
    ensures s.pods[q].baseAddr != 0 && s.pods[q].fromSubpodBpfMap in s.k.redirect
    ensures s.pods[q].fromSubpodBpfMap < s.nextFd
    ensures |s.k.redirect[s.pods[q].fromSubpodBpfMap]| <= REDIRECT_ENTRIES
  {
    hide TablesOk, AttachedOk, WithinApart, RoutesSound, RoutesComplete, Addrs, PoolOk;
    assert Shape(s, s.pods[q]);
    BasePositive(s, s.pods[q]);
  }

  lemma BasePositive(s: Net, d: PodDevices)
    requires PoolOk(s) && d.baseAddr in s.pool.used
    ensures d.baseAddr >= 8
  {
  }

  /** The other pods are told apart by the names of their bridges, and their redirect maps are loaded,
      different, and within bounds. */
  ghost predicate OthersWritable(pods: map<string, PodDevices>, key: string, bridge: Link,
                                 redirect: map<Fd, RedirectMap>)
  {
    key in pods && pods[key].podBridge.name == bridge.name
    && (forall q :: q in pods && q != key ==>
          pods[q].podBridge.name != bridge.name && pods[q].fromSubpodBpfMap in redirect
          && |redirect[pods[q].fromSubpodBpfMap]| <= REDIRECT_ENTRIES)
    && (forall p, q :: p in pods && q in pods && p != q ==> pods[p].fromSubpodBpfMap != pods[q].fromSubpodBpfMap)
  }

  /** Every other pod not in `todo` has got its one write, and no other map has changed. */
  ghost predicate RoutesAdded(pods: map<string, PodDevices>, key: string, bridge: Link, podIp: u32, todo: set<string>,
                              before: map<Fd, RedirectMap>, now: map<Fd, RedirectMap>)
  {
    now.Keys == before.Keys
    && (forall q :: q in pods && (q in todo || q == key) && pods[q].fromSubpodBpfMap in before ==>
          now[pods[q].fromSubpodBpfMap] == before[pods[q].fromSubpodBpfMap])
    && (forall q :: q in pods && q !in todo && q != key ==>
          pods[q].fromSubpodBpfMap in before
          && LruPut(before[pods[q].fromSubpodBpfMap], podIp,
                    RedirectRoute(bridge.index, pods[q].podBridge.mac, bridge.mac), now[pods[q].fromSubpodBpfMap]))
  }

  lemma NothingAdded(pods: map<string, PodDevices>, key: string, bridge: Link, podIp: u32,
                     before: map<Fd, RedirectMap>)
    ensures RoutesAdded(pods, key, bridge, podIp, pods.Keys, before, before)
  {
    hide LruPut;
  }

  lemma OtherWritable(pods: map<string, PodDevices>, key: string, bridge: Link, podIp: u32, todo: set<string>,
                      before: map<Fd, RedirectMap>, now: map<Fd, RedirectMap>, idx: string)
    requires OthersWritable(pods, key, bridge, before) && RoutesAdded(pods, key, bridge, podIp, todo, before, now)
    requires idx in pods && idx in todo
    ensures pods[idx].podBridge.name != bridge.name <==> idx != key
    ensures idx != key ==>
              pods[idx].fromSubpodBpfMap in now && |now[pods[idx].fromSubpodBpfMap]| <= REDIRECT_ENTRIES
  {
    hide LruPut;
  }

  lemma OneAdded(pods: map<string, PodDevices>, key: string, bridge: Link, podIp: u32, todo: set<string>,
                 before: map<Fd, RedirectMap>, now: map<Fd, RedirectMap>, idx: string, next: map<Fd, RedirectMap>)
    requires OthersWritable(pods, key, bridge, before) && RoutesAdded(pods, key, bridge, podIp, todo, before, now)
    requires idx in pods && idx in todo
    requires if idx == key then next == now
             else
               pods[idx].fromSubpodBpfMap in now && OnlyAt(now, next, pods[idx].fromSubpodBpfMap)
               && LruPut(now[pods[idx].fromSubpodBpfMap], podIp,
                         RedirectRoute(bridge.index, pods[idx].podBridge.mac, bridge.mac),
                         next[pods[idx].fromSubpodBpfMap])
    ensures RoutesAdded(pods, key, bridge, podIp, todo - {idx}, before, next)
  {
    hide LruPut;
  }

  /** What the new pod's map and the maps of the others hold after the two routing loops. */
  ghost predicate Routed(publicIf: Link, pods: map<string, PodDevices>, key: string, podIp: u32, bridge: Link,
                         redirect: map<Fd, RedirectMap>, redirect': map<Fd, RedirectMap>, fromMap: Fd)
  {
    key in pods && redirect'.Keys == redirect.Keys + {fromMap}
    && RoutesOk(publicIf, pods, key, redirect'[fromMap])
    && forall q :: q in pods && q != key ==>
         pods[q].fromSubpodBpfMap in redirect
         && LruPut(redirect[pods[q].fromSubpodBpfMap], podIp,
                   RedirectRoute(bridge.index, pods[q].podBridge.mac, bridge.mac), redirect'[pods[q].fromSubpodBpfMap])
  }

  lemma ReadyToInit(pods: map<string, PodDevices>, key: string, bridge: Link, redirect: map<Fd, RedirectMap>, f: Fd)
    requires RoutingReady(pods, key, bridge, redirect, f)
    ensures key in pods && pods[key].podBridge == bridge
    ensures forall q :: q in pods && q != key ==> pods[q].podBridge.name != bridge.name && pods[q].baseAddr != 0
  {
  }

  lemma ReadyToUpdate(pods: map<string, PodDevices>, key: string, bridge: Link,
                      before: map<Fd, RedirectMap>, between: map<Fd, RedirectMap>, f: Fd)
    requires RoutingReady(pods, key, bridge, before, f) && OnlyAt(before, between, f)
    ensures OthersWritable(pods[key := pods[key].(fromSubpodBpfMap := f)], key, bridge, between)
  {
  }

  lemma BothWays(publicIf: Link, pods: map<string, PodDevices>, key: string, podIp: u32, bridge: Link,
                 before: map<Fd, RedirectMap>, between: map<Fd, RedirectMap>, after: map<Fd, RedirectMap>, f: Fd)
    requires RoutingReady(pods, key, bridge, before, f) && OnlyAt(before, between, f)
    requires RoutesOk(publicIf, pods, key, between[f])
    requires RoutesAdded(pods[key := pods[key].(fromSubpodBpfMap := f)], key, bridge, podIp, {}, between, after)
    ensures Routed(publicIf, pods, key, podIp, bridge, before, after, f)
  {
    hide RoutesOk, LruPut;
    var pods' := pods[key := pods[key].(fromSubpodBpfMap := f)];
    assert pods'[key].fromSubpodBpfMap == f;
    forall q | q in pods && q != key
      ensures q in pods' && pods'[q] == pods[q]
      ensures pods[q].fromSubpodBpfMap in before
      ensures between[pods[q].fromSubpodBpfMap] == before[pods[q].fromSubpodBpfMap]
    {
    }
  }

  lemma RoutesAssembled(s: Net, key: string, base: u32, bridge: Link, d0: PodDevices, d: PodDevices, s': Net)
    requires key !in s.pods && s'.pods == s.pods[key := d] && s'.publicIf == s.publicIf
    requires d0.baseAddr == d.baseAddr == base && d0.podBridge == d.podBridge == bridge
    requires Routed(s.publicIf, s.pods[key := d0], key, base, bridge, s.k.redirect, s'.k.redirect, d.fromSubpodBpfMap)
    ensures CreatedRoutes(s, key, d, s')
  {
    hide RoutesOk, LruPut, Routed;
    var pods0 := s.pods[key := d0];
    RoutedMeaning(s, key, base, bridge, d0, d, s'.k.redirect);
    RoutesUnchanged(s.publicIf, pods0, key, d, key, s'.k.redirect[d.fromSubpodBpfMap]);
    assert pods0[key := d] == s'.pods;
  }

  lemma RoutedMeaning(s: Net, key: string, base: u32, bridge: Link, d0: PodDevices, d: PodDevices,
                      redirect': map<Fd, RedirectMap>)
    requires key !in s.pods && d.baseAddr == base && d.podBridge == bridge
    requires Routed(s.publicIf, s.pods[key := d0], key, base, bridge, s.k.redirect, redirect', d.fromSubpodBpfMap)
    ensures d.fromSubpodBpfMap in redirect'
    ensures RoutesOk(s.publicIf, s.pods[key := d0], key, redirect'[d.fromSubpodBpfMap])
    ensures forall q :: q in s.pods ==>
              s.pods[q].fromSubpodBpfMap in s.k.redirect && s.pods[q].fromSubpodBpfMap in redirect'
              && LruPut(s.k.redirect[s.pods[q].fromSubpodBpfMap], base, PeerRoute(s.pods[q], d),
                        redirect'[s.pods[q].fromSubpodBpfMap])
  {
    hide RoutesOk, LruPut;
    var pods0 := s.pods[key := d0];
    forall q | q in s.pods
      ensures q in pods0 && q != key && pods0[q] == s.pods[q]
    {
    }
  }

  /** The record of the new pod and its tables, put together. */
  lemma AssembleCreated(s: Net, key: string, podName: string, bridge: Link, host: Link, mac: Mac,
                        base: u32, d: PodDevices, l: Fd, t: Fd, f: Fd, s': Net)
    requires PoolOk(s) && Sound(s.pool) && Request(s.pool, podName).1 == Some(base) && key !in s.pods
    requires FreshBridge(s, bridge) && FreshPort(s, host)
    requires d == NewPod(base, bridge, host, mac, t, f, l)
    requires s'.gateway == s.gateway && s'.publicIf == s.publicIf && s'.pool == Request(s.pool, podName).0
    requires s'.pods == s.pods[key := d]
    requires s.nextFd <= l < s'.nextFd && s.nextFd <= t < s'.nextFd && s.nextFd <= f < s'.nextFd
    requires s'.k.lh == s.k.lh[l := OneLh(MakeSplitLhRoute(bridge, mac, base, Wrap32(base + 1)))]
    requires s'.k.split == s.k.split[t := OneSplit(MakeSplitRoute(bridge, mac, Wrap32(base + 1)))]
    requires s'.k.ports == s.k.ports[host.index := PortProg(l, s.gateway)]
    requires s'.k.bridges == s.k.bridges[bridge.index := BridgeProg(base, t, f)]
    requires s'.k.redirect.Keys == s.k.redirect.Keys + {f}
    requires CreatedRoutes(s, key, d, s')
    ensures Created(s, key, podName, bridge, host, mac, s')
  {
    hide CreatedRoutes, CreatedTables, Request, OneLh, OneSplit, FreshBridge, FreshPort, NewPod, PoolOk, Wrap32;
    hide MakeSplitLhRoute, MakeSplitRoute, FirstIn, Sound;
    NewBase(s, podName);
    NewPodFields(base, bridge, host, mac, t, f, l);
    TablesAssembled(s, d, host, mac, l, s');
  }

  lemma NewPodFields(base: u32, bridge: Link, host: Link, mac: Mac, t: Fd, f: Fd, l: Fd)
    ensures var d := NewPod(base, bridge, host, mac, t, f, l);
            var ip := Wrap32(base + 1);
            d.baseAddr == base && d.podBridge == bridge && d.toSubpodBpfMap == t && d.fromSubpodBpfMap == f
            && d.addressesUsed == map[ip := host] && d.internalDevices == map[ip := mac]
            && d.fromLocalhostBpfMaps == map[ip := l] && FirstIn(d, ip, host, mac, l)
  {
  }

  /** The one workload of a pod. */
  ghost predicate FirstIn(d: PodDevices, ip: u32, host: Link, mac: Mac, l: Fd) {
    d.addressesUsed.Keys == {ip} && d.internalDevices.Keys == {ip} && d.fromLocalhostBpfMaps.Keys == {ip}
    && d.addressesUsed[ip] == host && d.internalDevices[ip] == mac && d.fromLocalhostBpfMaps[ip] == l
  }

  lemma TablesAssembled(s: Net, d: PodDevices, host: Link, mac: Mac, l: Fd, s': Net)
    requires d.baseAddr + 1 < 0x1_0000_0000 && FirstIn(d, d.baseAddr + 1, host, mac, l)
    requires s'.k.lh == s.k.lh[l := OneLh(MakeSplitLhRoute(d.podBridge, mac, d.baseAddr, d.baseAddr + 1))]
    requires s'.k.split == s.k.split[d.toSubpodBpfMap := OneSplit(MakeSplitRoute(d.podBridge, mac, d.baseAddr + 1))]
    requires s'.k.ports == s.k.ports[host.index := PortProg(l, s.gateway)]
    requires s.nextFd <= l < s'.nextFd && s.nextFd <= d.toSubpodBpfMap < s'.nextFd
    requires s.nextFd <= d.fromSubpodBpfMap < s'.nextFd
    requires s'.k.bridges
             == s.k.bridges[d.podBridge.index := BridgeProg(d.baseAddr, d.toSubpodBpfMap, d.fromSubpodBpfMap)]
    requires s'.k.redirect.Keys == s.k.redirect.Keys + {d.fromSubpodBpfMap}
    ensures CreatedTables(s, d, s')
  {
    hide OneLh, OneSplit, LhEntry, SplitEntry, MakeSplitLhRoute, MakeSplitRoute;
    FirstEntries(d, d.baseAddr + 1, host, mac, l);
  }

  lemma FirstEntries(d: PodDevices, ip: u32, host: Link, mac: Mac, l: Fd)
    requires FirstIn(d, ip, host, mac, l)
    ensures d.Count() == 1
    ensures LhEntry(d, ip) == MakeSplitLhRoute(d.podBridge, mac, d.baseAddr, ip)
    ensures SplitEntry(d, ip) == MakeSplitRoute(d.podBridge, mac, ip)
  {
    assert |d.addressesUsed.Keys| == 1;
  }

  /** The outcome of `InitPodNetwork`: without a free block nothing changes. */
  ghost predicate PodCreated(s: Net, key: string, podName: string, bridge: Link, host: Link, mac: Mac, ok: bool,
                             s': Net)
    requires Sound(s.pool)
  {
    if Request(s.pool, podName).1 == None then !ok && s' == s
    else ok && Created(s, key, podName, bridge, host, mac, s')
  }

  /** The outcome of `CreateVMTun`: the next address of the block while there is one. */
  ghost predicate VmCreated(s: Net, key: string, tapIf: Link, mac: Mac, r: Option<u32>, s': Net) {
    if key !in s.pods || s.pods[key].Count() == 7 then r == None && s' == s
    else
      r == Some(Wrap32(s.pods[key].baseAddr + s.pods[key].Count() + 1)) && Grown(s, key, tapIf, mac, s.nextFd, s')
  }

  lemma InvParts(s: Net)
    requires Inv(s)
    ensures PoolOk(s) && Sound(s.pool) && s.nextFd !in s.k.lh
  {
  }

  lemma NewPodBridge(base: u32, bridge: Link, host: Link, mac: Mac, l: Fd)
    ensures NewPod(base, bridge, host, mac, NIL, NIL, l).podBridge == bridge
    ensures NewPod(base, bridge, host, mac, NIL, NIL, l).baseAddr == base
  {
  }

  lemma NewPodMaps(base: u32, bridge: Link, host: Link, mac: Mac, l: Fd, t: Fd, f: Fd)
    ensures NewPod(base, bridge, host, mac, NIL, NIL, l).(toSubpodBpfMap := t, fromSubpodBpfMap := f)
            == NewPod(base, bridge, host, mac, t, f, l)
  {
  }

  // ---- The manager ----

  class MRPodLocalNetworkManager {
    var podDevices: map<string, PodDevices>
    const bpf: Bpf
    const am: IPv4AddressManager
    const publicIf: Link

    ghost function State(): Net
      reads this, bpf, am
    {
      Net(am.gatewayIP, publicIf, am.State(), podDevices, bpf.State(), bpf.nextFd)
    }

    ghost predicate Valid()
      reads this, bpf, am
    {
      am.Valid() && Inv(State()) && Reachable(State())
    }

    /** `InitContainerNetworking`, with the address manager and the public interface of the node. */
    constructor InitContainerNetworking(addressManager: IPv4AddressManager, public: Link)
      requires addressManager.Valid() && addressManager.usedPodAddresses == map[]
      requires addressManager.baseSubnetIP % 8 == 0
      requires 0 < public.index < 0x8000_0000
      ensures am == addressManager && publicIf == public && fresh(bpf)
      ensures Valid() && Initial(State())
    {
      podDevices := map[];
      bpf := new Bpf();
      am := addressManager;
      publicIf := public;
      new;
      ReachableStart(State());
    }

    /** `attachLocalhostBpfPrograms`. */
    method AttachLocalhostBpfPrograms(netNsName: string, lhIp: u32, ip: u32, attachIf: Link) returns (fromLhMap: Fd)
      requires netNsName in podDevices
      modifies this`podDevices, bpf`lh, bpf`ports, bpf`nextFd
      ensures fromLhMap == old(bpf.nextFd) && bpf.nextFd == fromLhMap + 1
      ensures bpf.lh == old(bpf.lh)[fromLhMap := NoLh()]
      ensures bpf.ports == old(bpf.ports)[attachIf.index := PortProg(fromLhMap, lhIp)]
      ensures var d := old(podDevices)[netNsName];
              podDevices == old(podDevices)[netNsName :=
                d.(fromLocalhostBpfMaps := d.fromLocalhostBpfMaps[ip := fromLhMap])]
    {
      fromLhMap := bpf.SetupFromLhTC(attachIf, lhIp);
      var podDev := podDevices[netNsName];
      var bpfMaps := podDev.fromLocalhostBpfMaps[ip := fromLhMap];
      podDev := podDev.(fromLocalhostBpfMaps := bpfMaps);
      podDevices := podDevices[netNsName := podDev];
    }

    /** `updateLocalhostBpfMaps`: gives every other workload's map an entry for the newcomer and
        the newcomer's map an entry for every workload, in whatever order the iteration takes. */
    method UpdateLocalhostBpfMaps(netNsName: string, newIp: u32, newLink: Mac, splitMap: Fd, ghost n: nat)
      returns (ok: bool)
      requires netNsName in podDevices
      requires MeshReady(bpf.lh, podDevices[netNsName], newIp, n)
      requires podDevices[netNsName].internalDevices[newIp] == newLink
      requires podDevices[netNsName].fromLocalhostBpfMaps[newIp] == splitMap
      modifies bpf`lh
      ensures ok && MeshDone(old(bpf.lh), podDevices[netNsName], newIp, n, bpf.lh)
    {
      hide Meshed, MeshDone, LhEntry;
      var podDevs := podDevices[netNsName];
      var lhIp := podDevs.baseAddr;
      var todo := podDevs.fromLocalhostBpfMaps.Keys;
      ghost var lh := bpf.lh;
      ghost var done: set<u32> := {};
      MeshStart(lh, podDevs, newIp, n);
      while todo != {}
        invariant todo <= podDevs.fromLocalhostBpfMaps.Keys
        invariant done == podDevs.fromLocalhostBpfMaps.Keys - todo - {newIp}
        invariant Meshed(lh, podDevs, newIp, n, done, bpf.lh)
        decreases |todo|
      {
        var ip :| ip in todo;
        WorkDone(podDevs.fromLocalhostBpfMaps.Keys, todo, newIp, done, ip);
        if ip != newIp {
          ok := MeshOne(podDevs, lhIp, ip, newIp, newLink, splitMap, lh, n, done);
          if !ok {
            return false;
          }
          done := done + {ip};
        }
        todo := todo - {ip};
      }
      ok := MeshSelf(podDevs, lhIp, newIp, newLink, splitMap, lh, n, done);
    }

    /** The body of the loop: the newcomer joins the map of `ip`, and `ip` the map of the newcomer. */
    method MeshOne(podDevs: PodDevices, lhIp: u32, ip: u32, newIp: u32, newLink: Mac, splitMap: Fd,
                   ghost lh: map<Fd, LhTable>, ghost n: nat, ghost done: set<u32>) returns (ok: bool)
      requires MeshReady(lh, podDevs, newIp, n) && Meshed(lh, podDevs, newIp, n, done, bpf.lh)
      requires ip in podDevs.fromLocalhostBpfMaps && ip != newIp && ip !in done
      requires podDevs.internalDevices[newIp] == newLink && podDevs.fromLocalhostBpfMaps[newIp] == splitMap
      requires lhIp == podDevs.baseAddr
      modifies bpf`lh
      ensures ok && Meshed(lh, podDevs, newIp, n, done + {ip}, bpf.lh)
    {
      hide Meshed;
      ghost var now := bpf.lh;
      OtherSlot(lh, podDevs, newIp, n, done, now, ip);
      OwnSlot(lh, podDevs, newIp, n, done, now);
      var bpfMap := podDevs.fromLocalhostBpfMaps[ip];
      var srcIf := podDevs.internalDevices[ip];
      var slot := bpf.PutNextLhSplitRouteObj(bpfMap, MakeSplitLhRoute(podDevs.podBridge, newLink, lhIp, newIp));
      if slot < 0 {
        return false;
      }
      ghost var t := bpf.lh[bpfMap];
      slot := bpf.PutNextLhSplitRouteObj(splitMap, MakeSplitLhRoute(podDevs.podBridge, srcIf, lhIp, ip));
      if slot < 0 {
        return false;
      }
      MeshStep(lh, podDevs, newIp, n, done, ip, now, bpf.lh, t, bpf.lh[splitMap]);
      return true;
    }

    /** After the loop: the newcomer's own entry. */
    method MeshSelf(podDevs: PodDevices, lhIp: u32, newIp: u32, newLink: Mac, splitMap: Fd,
                    ghost lh: map<Fd, LhTable>, ghost n: nat, ghost done: set<u32>) returns (ok: bool)
      requires MeshReady(lh, podDevs, newIp, n) && Meshed(lh, podDevs, newIp, n, done, bpf.lh)
      requires done == podDevs.fromLocalhostBpfMaps.Keys - {newIp}
      requires podDevs.internalDevices[newIp] == newLink && podDevs.fromLocalhostBpfMaps[newIp] == splitMap
      requires lhIp == podDevs.baseAddr
      modifies bpf`lh
      ensures ok && MeshDone(lh, podDevs, newIp, n, bpf.lh)
    {
      hide Meshed, MeshDone;
      ghost var now := bpf.lh;
      OwnSlot(lh, podDevs, newIp, n, done, now);
      DoneSize(podDevs, newIp, n, done);
      var slot := bpf.PutNextLhSplitRouteObj(splitMap, MakeSplitLhRoute(podDevs.podBridge, newLink, lhIp, newIp));
      if slot < 0 {
        return false;
      }
      MeshClose(lh, podDevs, newIp, n, done, now, bpf.lh, bpf.lh[splitMap]);
      return true;
    }

    /** `initFromSubpodRouting`: a new redirect map with a route to every other pod, told apart by
        the name of its bridge, and the default route to the public interface. */
    method InitFromSubpodRouting(podBridge: Link, netNsName: string) returns (fd: Fd)
      requires netNsName in podDevices && podDevices[netNsName].podBridge == podBridge
      requires forall q :: q in podDevices && q != netNsName ==>
                 podDevices[q].podBridge.name != podBridge.name && podDevices[q].baseAddr != 0
      modifies this`podDevices, bpf`redirect, bpf`nextFd
      ensures fd == old(bpf.nextFd) && bpf.nextFd == fd + 1
      ensures fd in bpf.redirect && OnlyAt(old(bpf.redirect), bpf.redirect, fd)
      ensures RoutesOk(publicIf, old(podDevices), netNsName, bpf.redirect[fd])
      ensures podDevices == old(podDevices)[netNsName := old(podDevices)[netNsName].(fromSubpodBpfMap := fd)]
    {
      hide Filled, LruPut, RoutesOk;
      fd := bpf.LoadFromSubPodTC();
      RouteToOthers(podBridge, netNsName, fd);
      ghost var m := bpf.redirect[fd];
      FilledSize(podDevices, netNsName, podDevices.Keys - {netNsName}, m);
      bpf.PutRedirect(fd, 0, RedirectRoute(publicIf.index, podBridge.mac, publicIf.mac));
      FillDefault(publicIf, podDevices, netNsName, m, bpf.redirect[fd]);
      var podDev := podDevices[netNsName];
      podDev := podDev.(fromSubpodBpfMap := fd);
      podDevices := podDevices[netNsName := podDev];
    }

    /** The loop of `initFromSubpodRouting`. */
    method RouteToOthers(podBridge: Link, netNsName: string, fd: Fd)
      requires netNsName in podDevices && podDevices[netNsName].podBridge == podBridge
      requires forall q :: q in podDevices && q != netNsName ==>
                 podDevices[q].podBridge.name != podBridge.name && podDevices[q].baseAddr != 0
      requires fd in bpf.redirect && bpf.redirect[fd] == map[]
      modifies bpf`redirect
      ensures fd in bpf.redirect && OnlyAt(old(bpf.redirect), bpf.redirect, fd)
      ensures Filled(podDevices, netNsName, podDevices.Keys - {netNsName}, bpf.redirect[fd])
    {
      hide Filled, LruPut, OnlyAt;
      FillStart(podDevices, netNsName);
      OnlyAtSelf(bpf.redirect, fd);
      var todo := podDevices.Keys;
      ghost var done: set<string> := {};
      while todo != {}
        invariant todo <= podDevices.Keys && done == podDevices.Keys - todo - {netNsName}
        invariant fd in bpf.redirect && OnlyAt(old(bpf.redirect), bpf.redirect, fd)
        invariant Filled(podDevices, netNsName, done, bpf.redirect[fd])
        decreases |todo|
      {
        var idx :| idx in todo;
        WorkDone(podDevices.Keys, todo, netNsName, done, idx);
        var dev := podDevices[idx];
        if dev.podBridge.name != podBridge.name {
          ghost var before := bpf.redirect;
          RouteToOne(podBridge, netNsName, fd, idx, done);
          OnlyAtChain(old(bpf.redirect), before, bpf.redirect, fd);
          done := done + {idx};
        }
        todo := todo - {idx};
      }
      assert done == podDevices.Keys - {netNsName};
    }

    method RouteToOne(podBridge: Link, netNsName: string, fd: Fd, idx: string, ghost done: set<string>)
      requires netNsName in podDevices && podDevices[netNsName].podBridge == podBridge
      requires idx in podDevices && idx != netNsName && idx !in done && podDevices[idx].baseAddr != 0
      requires fd in bpf.redirect && done <= podDevices.Keys && Filled(podDevices, netNsName, done, bpf.redirect[fd])
      modifies bpf`redirect
      ensures fd in bpf.redirect && OnlyAt(old(bpf.redirect), bpf.redirect, fd)
      ensures Filled(podDevices, netNsName, done + {idx}, bpf.redirect[fd])
    {
      hide Filled, LruPut;
      var dev := podDevices[idx];
      ghost var m := bpf.redirect[fd];
      FilledSize(podDevices, netNsName, done, m);
      bpf.PutRedirect(fd, dev.baseAddr, RedirectRoute(dev.podBridge.index, podBridge.mac, dev.podBridge.mac));
      FillStep(podDevices, netNsName, done, m, idx, bpf.redirect[fd]);
    }

    lemma FillStart(pods: map<string, PodDevices>, key: string)
      requires key in pods
      ensures Filled(pods, key, {}, map[])
    {
    }

    lemma FilledSize(pods: map<string, PodDevices>, key: string, done: set<string>, m: RedirectMap)
      requires key in pods && done <= pods.Keys && Filled(pods, key, done, m)
      ensures |m| <= REDIRECT_ENTRIES
    {
    }

    /** `updateSubpodRouting`: one write to the redirect map of every other pod. */
    method UpdateSubpodRouting(podBridge: Link, podIp: u32, ghost netNsName: string)
      requires OthersWritable(podDevices, netNsName, podBridge, bpf.redirect)
      modifies bpf`redirect
      ensures RoutesAdded(podDevices, netNsName, podBridge, podIp, {}, old(bpf.redirect), bpf.redirect)
    {
      hide LruPut, OthersWritable, RoutesAdded;
      ghost var before := bpf.redirect;
      NothingAdded(podDevices, netNsName, podBridge, podIp, before);
      var todo := podDevices.Keys;
      while todo != {}
        invariant todo <= podDevices.Keys
        invariant RoutesAdded(podDevices, netNsName, podBridge, podIp, todo, before, bpf.redirect)
        decreases |todo|
      {
        var idx :| idx in todo;
        var dev := podDevices[idx];
        ghost var now := bpf.redirect;
        OtherWritable(podDevices, netNsName, podBridge, podIp, todo, before, now, idx);
        if dev.podBridge.name != podBridge.name {
          bpf.PutRedirect(dev.fromSubpodBpfMap, podIp,
                          RedirectRoute(podBridge.index, dev.podBridge.mac, podBridge.mac));
        }
        OneAdded(podDevices, netNsName, podBridge, podIp, todo, before, now, idx, bpf.redirect);
        todo := todo - {idx};
      }
    }

    /** `CreateVMTun`: the address of the new workload, or `None` when the pod has no address left. For
        a pod that does not exist the Go code panics; the model reports failure. */
    method CreateVMTun(cns: string, podname: string, tapIf: Link, mac: Mac) returns (r: Option<u32>)
      requires Valid() && FreshPort(State(), tapIf)
      modifies this`podDevices, bpf`split, bpf`lh, bpf`ports, bpf`nextFd
      ensures Valid()
      ensures VmCreated(old(State()), GetNetNs(cns, podname), tapIf, mac, r, State())
    {
      var netNsName := GetNetNs(cns, podname);
      ghost var s := State();
      hide Inv, Reachable, Grown;
      if netNsName !in podDevices {
        return None;
      }
      var vmIp := GetNextSubPodIP(podDevices[netNsName]);
      if vmIp == None {
        return None;
      }
      AddWorkload(netNsName, vmIp.value, tapIf, mac);
      GrownKeepsInv(s, netNsName, tapIf, mac, s.nextFd, State());
      ReachableStep(s, AddVm(netNsName, tapIf, mac, s.nextFd), State());
      return vmIp;
    }

    method AddWorkload(netNsName: string, vmIp: u32, tapIf: Link, mac: Mac)
      requires Inv(State()) && netNsName in podDevices && FreshPort(State(), tapIf)
      requires GetNextSubPodIP(podDevices[netNsName]) == Some(vmIp)
      modifies this`podDevices, bpf`split, bpf`lh, bpf`ports, bpf`nextFd
      ensures VmCreated(old(State()), netNsName, tapIf, mac, Some(vmIp), State())
    {
      hide Inv, Shape, TablesOk, WithinApart, KernelOk, OneMore, GrownLh, GrownSplit, VmCreated;
      hide SplitPrefix, GetNextSubPodIP;
      ghost var s := State();
      ghost var d := podDevices[netNsName];
      ghost var w := Newcomer(vmIp, tapIf, mac, s.nextFd);
      NextAddress(s, netNsName, d, w);
      RecordWorkload(netNsName, vmIp, tapIf, mac, w);
      MeshWorkload(netNsName, vmIp, tapIf, mac, s, d, w);
      AssembleGrown(s, netNsName, d, w, State());
    }

    /** The newcomer's port gets the localhost program, and the localhost maps of the pod are meshed. */
    method MeshWorkload(netNsName: string, vmIp: u32, tapIf: Link, mac: Mac, ghost s: Net, ghost d: PodDevices,
                        ghost w: Newcomer)
      requires netNsName in podDevices
      requires podDevices[netNsName] == Joined(d, w).(fromLocalhostBpfMaps := d.fromLocalhostBpfMaps)
      requires w == Newcomer(vmIp, tapIf, mac, s.nextFd) && bpf.nextFd == s.nextFd && bpf.lh == s.k.lh
      requires Shape(s, d) && TablesOk(s, d) && KernelOk(s) && OneMore(d, Joined(d, w), w) && WithinApart(Joined(d, w))
      modifies this`podDevices, bpf`lh, bpf`ports, bpf`nextFd
      ensures podDevices == old(podDevices)[netNsName := Joined(d, w)]
      ensures bpf.ports == old(bpf.ports)[tapIf.index := PortProg(w.lhMap, am.gatewayIP)]
      ensures bpf.nextFd == s.nextFd + 1 && GrownLh(s.k.lh, d, w, bpf.lh)
    {
      hide Shape, TablesOk, WithinApart, KernelOk, OneMore, MeshReady, MeshDone, GrownLh, NoLh;
      var lhIp := am.GetCNIIfIP();
      var splitMap := AttachLocalhostBpfPrograms(netNsName, lhIp, vmIp, tapIf);
      ghost var lh := bpf.lh;
      assert podDevices[netNsName] == Joined(d, w);
      VmReady(s, d, Joined(d, w), w, lh);
      var ok := UpdateLocalhostBpfMaps(netNsName, vmIp, mac, splitMap, d.Count());
      VmMeshed(s, d, Joined(d, w), w, lh, bpf.lh);
    }

    lemma AssembleGrown(s: Net, key: string, d: PodDevices, w: Newcomer, s': Net)
      requires key in s.pods && d == s.pods[key] && FreshPort(s, w.host)
      requires w.addr == d.baseAddr + d.Count() + 1 && d.Count() < MAX_IPS_PER_POD - 1
      requires d.baseAddr + 8 <= 0x1_0000_0000 && w.lhMap == s.nextFd < s'.nextFd
      requires s'.gateway == s.gateway && s'.publicIf == s.publicIf && s'.pool == s.pool
      requires s'.pods == s.pods[key := Joined(d, w)]
      requires s'.k.redirect == s.k.redirect && s'.k.bridges == s.k.bridges
      requires GrownSplit(s.k.split, d, w, s'.k.split) && GrownLh(s.k.lh, d, w, s'.k.lh)
      requires s'.k.ports == s.k.ports[w.host.index := PortProg(w.lhMap, s.gateway)]
      ensures VmCreated(s, key, w.host, w.mac, Some(w.addr), s')
    {
      hide GrownSplit, GrownLh, Joined;
      Wrap32Small(d.baseAddr + d.Count() + 1);
    }

    /** The record and the split map of the pod get the newcomer. */
    method RecordWorkload(netNsName: string, vmIp: u32, tapIf: Link, mac: Mac, ghost w: Newcomer)
      requires netNsName in podDevices && w.addr == vmIp && w.host == tapIf && w.mac == mac
      requires var d := podDevices[netNsName];
               d.toSubpodBpfMap in bpf.split && SplitPrefix(bpf.split[d.toSubpodBpfMap], d.Count()) && d.Count() < SLOTS
      modifies this`podDevices, bpf`split
      ensures podDevices == old(podDevices)[netNsName :=
                Joined(old(podDevices)[netNsName], w)
                .(fromLocalhostBpfMaps := old(podDevices)[netNsName].fromLocalhostBpfMaps)]
      ensures GrownSplit(old(bpf.split), old(podDevices)[netNsName], w, bpf.split)
    {
      var podDevs := podDevices[netNsName];
      ghost var d := podDevs;
      podDevs := podDevs.(addressesUsed := podDevs.addressesUsed[vmIp := tapIf]);
      podDevs := podDevs.(internalDevices := podDevs.internalDevices[vmIp := mac]);
      var slot := bpf.PutNextSplitRouteObj(podDevs.toSubpodBpfMap, MakeSplitRoute(podDevs.podBridge, mac, vmIp));
      assert old(bpf.split)[d.toSubpodBpfMap][d.Count()].active == 0;
      assert slot == d.Count();
      podDevices := podDevices[netNsName := podDevs];
    }

    lemma NextAddress(s: Net, key: string, d: PodDevices, w: Newcomer)
      requires Inv(s) && key in s.pods && d == s.pods[key] && GetNextSubPodIP(d) == Some(w.addr)
      requires w.host.index !in s.k.ports && s.nextFd <= w.lhMap
      ensures w.addr == d.baseAddr + d.Count() + 1 && d.Count() < MAX_IPS_PER_POD - 1
      ensures d.baseAddr + 8 <= 0x1_0000_0000
      ensures OneMore(d, Joined(d, w), w) && WithinApart(Joined(d, w))
      ensures Shape(s, d) && TablesOk(s, d) && KernelOk(s)
      ensures d.toSubpodBpfMap in s.k.split && SplitPrefix(s.k.split[d.toSubpodBpfMap], d.Count())
    {
      hide TablesOk, AttachedOk, WithinApart, PodsApart, AllRoutesOk, KernelOk, PoolOk, Joined, SplitPrefix, Known;
      hide OneMore;
      assert Shape(s, d) && TablesOk(s, d) && AttachedOk(s, d) && WithinApart(d);
      SplitSlot(s, d);
      NextIp(s, d, w.addr);
      hide Shape, GetNextSubPodIP;
      GrownFacts(s, key, d, w);
      PodKnown(s, d);
      GrownWithin(s, d, Joined(d, w), w);
    }

    lemma NextIp(s: Net, d: PodDevices, a: u32)
      requires Shape(s, d) && GetNextSubPodIP(d) == Some(a)
      ensures a == d.baseAddr + d.Count() + 1 && d.Count() < MAX_IPS_PER_POD - 1 && d.baseAddr + 8 <= 0x1_0000_0000
    {
    }

    lemma SplitSlot(s: Net, d: PodDevices)
      requires TablesOk(s, d)
      ensures d.toSubpodBpfMap in s.k.split && SplitPrefix(s.k.split[d.toSubpodBpfMap], d.Count())
    {
    }

    /** `InitPodNetwork`. The bridge, the port and the hardware address are what the kernel hands out.
        Without a free block the Go code goes on with an empty address and panics; the model reports
        failure. */
    method InitPodNetwork(cns: string, podname: string, bridge: Link, hostIf: Link, contMac: Mac) returns (ok: bool)
      requires Valid() && GetNetNs(cns, podname) !in podDevices
      requires FreshBridge(State(), bridge) && FreshPort(State(), hostIf)
      modifies this`podDevices, bpf, am`usedPodAddresses
      ensures Valid()
      ensures PodCreated(old(State()), GetNetNs(cns, podname), PodName(cns, podname), bridge, hostIf, contMac, ok,
                         State())
    {
      var netNsName := GetNetNs(cns, podname);
      ghost var s := State();
      hide Inv, Reachable, Created, Request, FreshBridge, FreshPort;
      RequestLowest(s.pool, PodName(cns, podname));
      var podIp := am.RequestPodIP(cns, podname);
      if podIp == None {
        return false;
      }
      CreatePod(netNsName, podIp.value, bridge, hostIf, contMac, s, PodName(cns, podname));
      CreatedKeepsInv(s, netNsName, PodName(cns, podname), bridge, hostIf, contMac, State());
      ReachableStep(s, InitPod(netNsName, PodName(cns, podname), bridge, hostIf, contMac), State());
      return true;
    }

    method CreatePod(netNsName: string, podIp: u32, bridge: Link, hostIf: Link, contMac: Mac, ghost s: Net,
                     ghost podName: string)
      requires Inv(s) && netNsName !in s.pods && FreshBridge(s, bridge) && FreshPort(s, hostIf)
      requires Request(s.pool, podName) == (am.State(), Some(podIp))
      requires State() == s.(pool := am.State())
      modifies this`podDevices, bpf
      ensures Created(s, netNsName, podName, bridge, hostIf, contMac, State())
    {
      hide Inv, Request, Created, RoutingReady, NewPod, OneLh, OneSplit, FreshBridge, FreshPort, CreatedRoutes;
      hide RoutesOk, LruPut;
      InvParts(s);
      hide PoolOk;
      ghost var l := bpf.nextFd;
      SetUpNetns(netNsName, podIp, bridge, hostIf, contMac);
      ghost var d0 := podDevices[netNsName];
      NewPodBridge(podIp, bridge, hostIf, contMac, l);
      RoutingIsReady(s, netNsName, bridge, d0, bpf.nextFd);
      ghost var t, f := SetUpRouting(netNsName, podIp, bridge, contMac);
      ghost var d := podDevices[netNsName];
      ghost var d1 := d0.(toSubpodBpfMap := t);
      LastWriteWins(s.pods, netNsName, d0, d1);
      LastWriteWins(s.pods, netNsName, d0, d);
      RoutesAssembled(s, netNsName, podIp, bridge, d1, d, State());
      NewPodMaps(podIp, bridge, hostIf, contMac, l, t, f);
      AssembleCreated(s, netNsName, podName, bridge, hostIf, contMac, podIp, d, l, t, f, State());
    }

    /** The pod's record, its first workload and that workload's localhost program. */
    method SetUpNetns(netNsName: string, podIp: u32, bridge: Link, hostIf: Link, contMac: Mac)
      requires netNsName !in podDevices && bpf.nextFd !in bpf.lh
      modifies this`podDevices, bpf`lh, bpf`ports, bpf`nextFd
      ensures podDevices == old(podDevices)[netNsName :=
                NewPod(podIp, bridge, hostIf, contMac, NIL, NIL, old(bpf.nextFd))]
      ensures bpf.nextFd == old(bpf.nextFd) + 1
      ensures bpf.lh == old(bpf.lh)[old(bpf.nextFd) :=
                OneLh(MakeSplitLhRoute(bridge, contMac, podIp, Wrap32(podIp + 1)))]
      ensures bpf.ports == old(bpf.ports)[hostIf.index := PortProg(old(bpf.nextFd), am.gatewayIP)]
    {
      hide MeshReady, MeshDone, OneLh, NoLh, Wrap32, NewPod;
      ghost var s := State();
      NewPodFields(podIp, bridge, hostIf, contMac, NIL, NIL, bpf.nextFd);
      var ip, fromMap := AttachFirst(netNsName, podIp, bridge, hostIf, contMac);
      ghost var lh := bpf.lh;
      ghost var d := podDevices[netNsName];
      FirstReady(s, d, lh, ip, fromMap, hostIf, contMac);
      var _ := UpdateLocalhostBpfMaps(netNsName, ip, contMac, fromMap, 0);
      FirstMeshed(s, d, lh, ip, fromMap, bpf.lh);
    }

    /** The record of the new pod, and the localhost program at its first port. */
    method AttachFirst(netNsName: string, podIp: u32, bridge: Link, hostIf: Link, contMac: Mac)
      returns (ip: u32, fromMap: Fd)
      modifies this`podDevices, bpf`lh, bpf`ports, bpf`nextFd
      ensures ip == Wrap32(podIp + 1) && fromMap == old(bpf.nextFd) && bpf.nextFd == fromMap + 1
      ensures podDevices == old(podDevices)[netNsName := NewPod(podIp, bridge, hostIf, contMac, NIL, NIL, fromMap)]
      ensures bpf.lh == old(bpf.lh)[fromMap := NoLh()]
      ensures bpf.ports == old(bpf.ports)[hostIf.index := PortProg(fromMap, am.gatewayIP)]
    {
      hide NoLh, Wrap32, GetNextSubPodIP, NewPod;
      podDevices := podDevices[netNsName := PodDevices(podIp, bridge, map[], map[], NIL, NIL, map[])];
      FirstAddress(podIp, bridge);
      FirstRecord(podIp, bridge, hostIf, contMac, bpf.nextFd);
      var netNsIp := GetNextSubPodIP(podDevices[netNsName]);
      ip := netNsIp.value;
      var podDev := podDevices[netNsName];
      podDev := podDev.(addressesUsed := podDev.addressesUsed[ip := hostIf]);
      podDev := podDev.(internalDevices := podDev.internalDevices[ip := contMac]);
      podDevices := podDevices[netNsName := podDev];
      var lhIp := am.GetCNIIfIP();
      fromMap := AttachLocalhostBpfPrograms(netNsName, lhIp, ip, hostIf);
    }

    lemma FirstAddress(base: u32, bridge: Link)
      ensures GetNextSubPodIP(PodDevices(base, bridge, map[], map[], NIL, NIL, map[])) == Some(Wrap32(base + 1))
    {
      hide Wrap32;
    }

    lemma FirstRecord(base: u32, bridge: Link, host: Link, mac: Mac, fd: Fd)
      ensures var ip := Wrap32(base + 1);
              NewPod(base, bridge, host, mac, NIL, NIL, fd)
              == PodDevices(base, bridge, map[][ip := host], map[][ip := mac], NIL, NIL, map[][ip := fd])
    {
      hide Wrap32;
      var ip := Wrap32(base + 1);
      assert map[ip := host] == map[][ip := host] && map[ip := mac] == map[][ip := mac];
      assert map[ip := fd] == map[][ip := fd];
    }

    /** The pod's split map, its redirect map and every other pod's, and the classifier. */
    method SetUpRouting(netNsName: string, podIp: u32, bridge: Link, contMac: Mac) returns (toMap: Fd, fromMap: Fd)
      requires RoutingReady(podDevices, netNsName, bridge, bpf.redirect, bpf.nextFd)
      modifies this`podDevices, bpf`split, bpf`redirect, bpf`bridges, bpf`nextFd
      ensures toMap == old(bpf.nextFd) && fromMap == toMap + 1 && bpf.nextFd == fromMap + 1
      ensures bpf.split == old(bpf.split)[toMap := OneSplit(MakeSplitRoute(bridge, contMac, Wrap32(podIp + 1)))]
      ensures bpf.bridges == old(bpf.bridges)[bridge.index := BridgeProg(podIp, toMap, fromMap)]
      ensures netNsName in old(podDevices)
      ensures podDevices == old(podDevices)[netNsName :=
                old(podDevices)[netNsName].(toSubpodBpfMap := toMap, fromSubpodBpfMap := fromMap)]
      ensures Routed(publicIf, old(podDevices)[netNsName := old(podDevices)[netNsName].(toSubpodBpfMap := toMap)],
                     netNsName, podIp, bridge, old(bpf.redirect), bpf.redirect, fromMap)
    {
      assert netNsName in podDevices && podDevices[netNsName].podBridge == bridge;
      hide RoutingReady, Routed, Wrap32, OneSplit, MakeSplitRoute;
      ghost var pods := podDevices;
      toMap := FirstSplitRoute(netNsName, podIp, bridge, contMac);
      StillReady(pods, netNsName, podDevices[netNsName], bridge, bpf.redirect, toMap, bpf.nextFd);
      fromMap := RouteBothWays(netNsName, podIp, bridge);
      bpf.SetupSubpodTC(bridge, podIp, fromMap, toMap);
      LastWriteWins(pods, netNsName, pods[netNsName].(toSubpodBpfMap := toMap),
                    pods[netNsName].(toSubpodBpfMap := toMap, fromSubpodBpfMap := fromMap));
    }

    lemma LastWriteWins(pods: map<string, PodDevices>, key: string, d: PodDevices, d': PodDevices)
      ensures pods[key := d][key := d'] == pods[key := d']
    {
    }

    method FirstSplitRoute(netNsName: string, podIp: u32, bridge: Link, contMac: Mac) returns (toMap: Fd)
      requires netNsName in podDevices
      modifies this`podDevices, bpf`split, bpf`nextFd
      ensures toMap == old(bpf.nextFd) && bpf.nextFd == toMap + 1
      ensures bpf.split == old(bpf.split)[toMap := OneSplit(MakeSplitRoute(bridge, contMac, Wrap32(podIp + 1)))]
      ensures podDevices == old(podDevices)[netNsName := old(podDevices)[netNsName].(toSubpodBpfMap := toMap)]
    {
      hide Wrap32, NoSplit;
      toMap := bpf.LoadToSubPodTC();
      bpf.PutSplit(toMap, 0, MakeSplitRoute(bridge, contMac, Wrap32(podIp + 1)));
      var podDev := podDevices[netNsName];
      podDev := podDev.(toSubpodBpfMap := toMap);
      podDevices := podDevices[netNsName := podDev];
    }

    lemma StillReady(pods: map<string, PodDevices>, key: string, d: PodDevices, bridge: Link,
                     redirect: map<Fd, RedirectMap>, next: Fd, next': Fd)
      requires RoutingReady(pods, key, bridge, redirect, next) && d.podBridge == bridge && next <= next'
      ensures RoutingReady(pods[key := d], key, bridge, redirect, next')
    {
    }

    /** `initFromSubpodRouting` followed by `updateSubpodRouting`. */
    method RouteBothWays(netNsName: string, podIp: u32, bridge: Link) returns (fromMap: Fd)
      requires RoutingReady(podDevices, netNsName, bridge, bpf.redirect, bpf.nextFd)
      modifies this`podDevices, bpf`redirect, bpf`nextFd
      ensures fromMap == old(bpf.nextFd) && bpf.nextFd == fromMap + 1 && netNsName in old(podDevices)
      ensures podDevices == old(podDevices)[netNsName := old(podDevices)[netNsName].(fromSubpodBpfMap := fromMap)]
      ensures Routed(publicIf, old(podDevices), netNsName, podIp, bridge, old(bpf.redirect), bpf.redirect, fromMap)
    {
      hide RoutesOk, LruPut, Routed, RoutingReady, OthersWritable, RoutesAdded, OnlyAt;
      ghost var pods, before := podDevices, bpf.redirect;
      ReadyToInit(pods, netNsName, bridge, before, bpf.nextFd);
      fromMap := InitFromSubpodRouting(bridge, netNsName);
      ghost var between := bpf.redirect;
      ReadyToUpdate(pods, netNsName, bridge, before, between, fromMap);
      UpdateSubpodRouting(bridge, podIp, netNsName);
      BothWays(publicIf, pods, netNsName, podIp, bridge, before, between, bpf.redirect, fromMap);
    }
  }
}
