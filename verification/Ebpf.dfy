/** The kernel side of the control plane (`pkg/network/EBPF.go`): loaded eBPF maps behind their
    handles, the programs attached to interfaces, and the searches for a free slot. */
module Ebpf {
  import opened Words
  import opened Frames
  import SplitGeneric
  import SplitLocalhost
  import opened Translate

  type SplitRoute = SplitGeneric.SplitRoute
  type SplitTable = SplitGeneric.SplitTable
  type LhRoute = SplitLocalhost.LhRoute
  type LhTable = SplitLocalhost.LhTable

  /** A handle of a loaded map. Different handles are different maps; one handle may be kept twice. */
  type Fd = nat

  /** The nil handle of a map that has not been loaded yet. */
  const NIL: Fd := 0

  const SLOTS: nat := 8
  const REDIRECT_ENTRIES: nat := 64
  const NO_MAC: Mac := [0, 0, 0, 0, 0, 0]
  const NO_SPLIT: SplitRoute := SplitGeneric.SplitRoute(0, 0, 0, NO_MAC, NO_MAC)
  const NO_LH: LhRoute := SplitLocalhost.LhRoute(0, 0, 0, 0, NO_MAC, NO_MAC)

  /** The tables of a map that has just been loaded. */
  function NoSplit(): (t: SplitTable)
    ensures |t| == SLOTS
  {
    seq(SLOTS, _ => NO_SPLIT)
  }

  function NoLh(): (t: LhTable)
    ensures |t| == SLOTS
  {
    seq(SLOTS, _ => NO_LH)
  }

  /** A network interface: its name, kernel index and hardware address. */
  datatype Link = Link(name: string, index: u32, mac: Mac)

  /** The classifier on a bridge: its `ip_map` entry and the maps of the two programs in its jump table. */
  datatype BridgeProg = BridgeProg(subnet: u32, toMap: Fd, fromMap: Fd)

  /** The localhost program on the port of a workload, with its two maps. */
  datatype PortProg = PortProg(lhMap: Fd, lhAddr: u32)

  /** Everything the packet programs can see. */
  datatype Kernel = Kernel(
    split: map<Fd, SplitTable>,
    redirect: map<Fd, RedirectMap>,
    lh: map<Fd, LhTable>,
    bridges: map<u32, BridgeProg>,
    ports: map<u32, PortProg>)

  // ---- Route objects ----

  function MakeSplitRoute(srcIf: Link, target: Mac, destination: u32): SplitRoute {
    SplitGeneric.SplitRoute(1, srcIf.index, destination, srcIf.mac, target)
  }

  function MakeSplitLhRoute(srcIf: Link, target: Mac, src: u32, dest: u32): LhRoute {
    SplitLocalhost.LhRoute(1, srcIf.index, src, dest, srcIf.mac, target)
  }

  // ---- Tables filled from the front ----

  ghost predicate SplitPrefix(t: SplitTable, n: nat) {
    |t| == SLOTS && n <= SLOTS
    && (forall j :: 0 <= j < n ==> t[j].active != 0) && (forall j :: n <= j < SLOTS ==> t[j] == NO_SPLIT)
  }

  ghost predicate LhPrefix(t: LhTable, n: nat) {
    |t| == SLOTS && n <= SLOTS
    && (forall j :: 0 <= j < n ==> t[j].active != 0) && (forall j :: n <= j < SLOTS ==> t[j] == NO_LH)
  }

  /** A write to the redirect map, an LRU hash of 64 entries. Nothing is lost unless a new key meets
      a full map; then some entries go, whichever the kernel takes for the oldest. */
  ghost predicate LruPut(m: RedirectMap, key: u32, r: RedirectRoute, m': RedirectMap) {
    key in m' && m'[key] == r
    && (forall x :: x in m' && x != key ==> x in m && m'[x] == m[x])
    && |m'| <= REDIRECT_ENTRIES
    && (key in m || |m| < REDIRECT_ENTRIES ==> m' == m[key := r])
  }

  lemma LruPutSize(m: RedirectMap, key: u32, r: RedirectRoute, m': RedirectMap)
    requires LruPut(m, key, r, m') && |m| <= REDIRECT_ENTRIES
    ensures |m'| <= |m| + 1
  {
  }

  class Bpf {
    var split: map<Fd, SplitTable>
    var redirect: map<Fd, RedirectMap>
    var lh: map<Fd, LhTable>
    var bridges: map<u32, BridgeProg>
    var ports: map<u32, PortProg>
    var nextFd: Fd

    constructor ()
      ensures State() == Kernel(map[], map[], map[], map[], map[]) && nextFd == 1
    {
      split, redirect, lh, bridges, ports, nextFd := map[], map[], map[], map[], map[], 1;
    }

    ghost function State(): Kernel
      reads this
    {
      Kernel(split, redirect, lh, bridges, ports)
    }

    /** `loadToSubPodTC`: a new, all-zero split map. */
    method LoadToSubPodTC() returns (fd: Fd)
      modifies this`split, this`nextFd
      ensures fd == old(nextFd) && nextFd == fd + 1
      ensures split == old(split)[fd := NoSplit()]
    {
      fd := nextFd;
      nextFd := nextFd + 1;
      split := split[fd := NoSplit()];
    }

    /** `loadFromSubPodTC`: a new, empty redirect map. */
    method LoadFromSubPodTC() returns (fd: Fd)
      modifies this`redirect, this`nextFd
      ensures fd == old(nextFd) && nextFd == fd + 1
      ensures redirect == old(redirect)[fd := map[]]
    {
      fd := nextFd;
      nextFd := nextFd + 1;
      redirect := redirect[fd := map[]];
    }

    /** `setupFromLhTC`: a new, all-zero localhost map, and the program attached to the port. */
    method SetupFromLhTC(podLhIf: Link, lhIP: u32) returns (fd: Fd)
      modifies this`lh, this`ports, this`nextFd
      ensures fd == old(nextFd) && nextFd == fd + 1
      ensures lh == old(lh)[fd := NoLh()]
      ensures ports == old(ports)[podLhIf.index := PortProg(fd, lhIP)]
    {
      fd := nextFd;
      nextFd := nextFd + 1;
      lh := lh[fd := NoLh()];
      ports := ports[podLhIf.index := PortProg(fd, lhIP)];
    }

    /** `setupSubpodTC`: fills the jump table and the subnet entry and attaches the classifier. */
    method SetupSubpodTC(podIf: Link, subnet: u32, fromSN: Fd, toSN: Fd)
      modifies this`bridges
      ensures bridges == old(bridges)[podIf.index := BridgeProg(subnet, toSN, fromSN)]
    {
      bridges := bridges[podIf.index := BridgeProg(subnet, toSN, fromSN)];
    }

    method PutSplit(fd: Fd, i: nat, route: SplitRoute)
      requires fd in split && i < |split[fd]|
      modifies this`split
      ensures split == old(split)[fd := old(split)[fd][i := route]]
    {
      split := split[fd := split[fd][i := route]];
    }

    method PutLh(fd: Fd, i: nat, route: LhRoute)
      requires fd in lh && i < |lh[fd]|
      modifies this`lh
      ensures lh == old(lh)[fd := old(lh)[fd][i := route]]
    {
      lh := lh[fd := lh[fd][i := route]];
    }

    /** A write to an LRU map: a full map first loses some other entry. */
    method PutRedirect(fd: Fd, key: u32, route: RedirectRoute)
      requires fd in redirect && |redirect[fd]| <= REDIRECT_ENTRIES
      modifies this`redirect
      ensures redirect.Keys == old(redirect).Keys
      ensures LruPut(old(redirect)[fd], key, route, redirect[fd])
      ensures redirect == old(redirect)[fd := redirect[fd]]
    {
      var m := redirect[fd];
      if key !in m && |m| == REDIRECT_ENTRIES {
        var victim :| victim in m;
        ghost var full := m;
        m := m - {victim};
        assert full.Keys == m.Keys + {victim};
      }
      ghost var m' := m[key := route];
      assert m'.Keys == m.Keys + {key};
      redirect := redirect[fd := m[key := route]];
    }

    /** `putNextSplitRouteObj`: the slot filled, the first inactive one, or -1 when there is none. */
    method PutNextSplitRouteObj(fd: Fd, route: SplitRoute) returns (slot: int)
      requires fd in split && |split[fd]| == SLOTS
      modifies this`split
      ensures 0 <= slot ==>
                slot < SLOTS && old(split)[fd][slot].active == 0
                && (forall j :: 0 <= j < slot ==> old(split)[fd][j].active != 0)
                && split == old(split)[fd := old(split)[fd][slot := route]]
      ensures slot < 0 ==> split == old(split) && forall j :: 0 <= j < SLOTS ==> split[fd][j].active != 0
    {
      for i := 0 to SLOTS
        invariant split == old(split)
        invariant forall j :: 0 <= j < i ==> split[fd][j].active != 0
      {
        var item := split[fd][i];
        if item.active == 0 {
          PutSplit(fd, i, route);
          return i;
        }
      }
      return -1;
    }

    /** `putNextLhSplitRouteObj`. */
    method PutNextLhSplitRouteObj(fd: Fd, route: LhRoute) returns (slot: int)
      requires fd in lh && |lh[fd]| == SLOTS
      modifies this`lh
      ensures 0 <= slot ==>
                slot < SLOTS && old(lh)[fd][slot].active == 0
                && (forall j :: 0 <= j < slot ==> old(lh)[fd][j].active != 0)
                && lh == old(lh)[fd := old(lh)[fd][slot := route]]
      ensures slot < 0 ==> lh == old(lh) && forall j :: 0 <= j < SLOTS ==> lh[fd][j].active != 0
    {
      for i := 0 to SLOTS
        invariant lh == old(lh)
        invariant forall j :: 0 <= j < i ==> lh[fd][j].active != 0
      {
        var item := lh[fd][i];
        if item.active == 0 {
          PutLh(fd, i, route);
          return i;
        }
      }
      return -1;
    }
  }
}
