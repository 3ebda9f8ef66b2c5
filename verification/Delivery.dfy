/** From one pod to another: address hiding, no forwarding loop, delivery, and the redirect mesh.
    All of it follows from the invariant, so it holds in every reachable state. */
module Delivery {
  import opened Wrappers
  import opened Words
  import opened Frames
  import opened Checksum
  import opened Tc
  import opened AddressManager
  import opened Classifier
  import opened Translate
  import opened Ebpf
  import opened PodState
  import opened PodInvariant
  import opened DataPlane
  import SplitGeneric
  import SplitLocalhost

  // ---- Leaving a bridge ----

  /** A bridge redirects a frame only after the egress program: the frame came from the bridge's
      own block, crosses blocks, and leaves with the block's base as its source, for the interface
      of the route to its destination block. */
  lemma RedirectMeaning(s: Net, key: string, f: Frame, j: u32, g: Frame)
    requires Reachable(s) && key in s.pods
    requires AtBridge(s.k, s.pods[key].podBridge.index, f) == Redirect(j, g)
    ensures var d := s.pods[key];
            HasIp(f) && Crosses(f, d.baseAddr) && Block(Saddr(f)) == d.baseAddr && Block(Daddr(f)) != d.baseAddr
            && d.fromSubpodBpfMap in s.k.redirect
            && RoutesOk(s.publicIf, s.pods, key, s.k.redirect[d.fromSubpodBpfMap])
            && RouteFor(s.k.redirect[d.fromSubpodBpfMap], Block(Daddr(f))).Some?
            && var r := RouteFor(s.k.redirect[d.fromSubpodBpfMap], Block(Daddr(f))).value;
               j == r.ifindex && Translated(f, d.baseAddr, r, g)
  {
    hide Inv, Reachable, Rewrite, SplitOk, RoutesOk, Translated, Block, Loc, LhTailsIpv4;
    ReachableInv(s);
    PodWiring(s, key);
    var d := s.pods[key];
    if HasIp(f) {
      ClassifierMeaning(f, d.baseAddr, {TO_SPLIT, TO_TRANSLATE});
      var r := RouteFor(s.k.redirect[d.fromSubpodBpfMap], Block(Daddr(f)));
      assert AtBridge(s.k, d.podBridge.index, f) == Egress(f, s.k.redirect[d.fromSubpodBpfMap]);
      assert r.Some? && g == Rewrite(f, RouteEdit(f, r.value));
      TranslatedMeaning(f, r.value, g);
    } else {
      NoVerdict(f, Some(d.baseAddr), {TO_SPLIT, TO_TRANSLATE});
    }
  }

  /** `g` is `f` with the block base as its source, a workload's address no longer in it, and a
      header checksum that verifies. */
  ghost predicate Hidden(pods: map<string, PodDevices>, base: u32, f: Frame, g: Frame) {
    HasIp(f) && HasIp(g) && SameButHeaders(f, g) && Saddr(g) == base && Daddr(g) == Daddr(f)
    && (forall q, a :: q in pods && a in pods[q].addressesUsed ==> Saddr(g) != a)
    && (HeaderInFrame(f) ==> HeaderInFrame(g) && ChecksumValid(g))
  }

  /** Address hiding: whatever enters a pod's bridge, what is redirected off it carries the pod's
      block base as source, never the address of a workload, and a header checksum that verifies. */
  lemma AddressHiding(s: Net, key: string, f: Frame, j: u32, g: Frame)
    requires Reachable(s) && key in s.pods
    requires AtBridge(s.k, s.pods[key].podBridge.index, f) == Redirect(j, g)
    ensures Hidden(s.pods, s.pods[key].baseAddr, f, g)
  {
    hide Inv, Reachable, RoutesOk, ChecksumValid, AtBridge;
    ReachableInv(s);
    RedirectMeaning(s, key, f, j, g);
    PodBase(s, key);
    forall q, a | q in s.pods && a in s.pods[q].addressesUsed
      ensures a % 8 != 0
    {
      WorkloadNotBase(s, q, a);
    }
  }

  lemma WorkloadNotBase(s: Net, q: string, a: u32)
    requires Inv(s) && q in s.pods && a in s.pods[q].addressesUsed
    ensures a % 8 != 0 && Block(a) == s.pods[q].baseAddr && Loc(s.pods[q].baseAddr) != a
  {
    hide Inv, LhOk;
    PodBase(s, q);
    WorkloadWiring(s, q, a);
    InBlock(s.pods[q].baseAddr, a);
  }

  // ---- No forwarding loop ----

  /** The classifier runs of one frame: each hop is a bridge, and each but the last redirects to the next. */
  ghost predicate IsTrail(k: Kernel, hops: seq<(u32, Frame)>) {
    (forall i :: 0 <= i < |hops| ==> hops[i].0 in k.bridges)
    && forall i :: 0 <= i < |hops| - 1 ==> AtBridge(k, hops[i].0, hops[i].1) == Redirect(hops[i + 1].0, hops[i + 1].1)
  }

  /** A redirect to a bridge lands on the one whose subnet is the block of the destination. */
  lemma LandsOnSubnet(s: Net, key: string, f: Frame, j: u32, g: Frame)
    requires Reachable(s) && key in s.pods && j in s.k.bridges
    requires AtBridge(s.k, s.pods[key].podBridge.index, f) == Redirect(j, g)
    ensures exists q :: q in s.pods && q != key && s.pods[q].podBridge.index == j
                        && HasIp(g) && Block(Daddr(g)) == s.pods[q].baseAddr
                        && Saddr(g) == s.pods[key].baseAddr
  {
    hide Reachable, PodsOk, PodsApart, AllRoutesOk, PoolOk, AtBridge;
    ReachableInv(s);
    RedirectMeaning(s, key, f, j, g);
    var m := s.k.redirect[s.pods[key].fromSubpodBpfMap];
    var x := Block(Daddr(f));
    if x in m && x != 0 {
      RouteTo(s, key, m, x, j);
    }
  }

  lemma RouteTo(s: Net, key: string, m: RedirectMap, x: u32, j: u32)
    requires key in s.pods && RoutesSound(s.publicIf, s.pods, key, m) && x in m && x != 0 && m[x].ifindex == j
    ensures exists q :: q in s.pods && q != key && s.pods[q].podBridge.index == j && x == s.pods[q].baseAddr
  {
  }

  /** At the bridge of the destination block a frame from another block is never redirected again. */
  lemma ArrivalEnds(s: Net, q: string, g: Frame)
    requires Reachable(s) && q in s.pods && HasIp(g) && Block(Daddr(g)) == s.pods[q].baseAddr
    ensures !AtBridge(s.k, s.pods[q].podBridge.index, g).Redirect?
  {
    hide Inv, Reachable, AtBridge, RoutesOk, Translated;
    ReachableInv(s);
    if AtBridge(s.k, s.pods[q].podBridge.index, g).Redirect? {
      var o := AtBridge(s.k, s.pods[q].podBridge.index, g);
      RedirectMeaning(s, q, g, o.ifindex, o.sent);
    }
  }

  /** No forwarding loop: from any reachable control state and for any frame at any bridge, the
      classifier runs at most twice. */
  lemma NoLoop(s: Net, hops: seq<(u32, Frame)>)
    requires Reachable(s) && IsTrail(s.k, hops)
    ensures |hops| <= 2
  {
    hide Inv, Reachable, AtBridge, IsTrail;
    ReachableInv(s);
    if |hops| > 2 {
      TrailHops(s.k, hops);
      BridgeOfPod(s, hops[0].0);
      var key :| key in s.pods && s.pods[key].podBridge.index == hops[0].0;
      LandsOnSubnet(s, key, hops[0].1, hops[1].0, hops[1].1);
      var q :| q in s.pods && q != key && s.pods[q].podBridge.index == hops[1].0
               && HasIp(hops[1].1) && Block(Daddr(hops[1].1)) == s.pods[q].baseAddr;
      ArrivalEnds(s, q, hops[1].1);
    }
  }

  lemma TrailHops(k: Kernel, hops: seq<(u32, Frame)>)
    requires IsTrail(k, hops) && |hops| > 2
    ensures hops[0].0 in k.bridges && hops[1].0 in k.bridges
    ensures AtBridge(k, hops[0].0, hops[0].1) == Redirect(hops[1].0, hops[1].1)
    ensures AtBridge(k, hops[1].0, hops[1].1) == Redirect(hops[2].0, hops[2].1)
  {
  }

  lemma BridgeOfPod(s: Net, i: u32)
    requires Inv(s) && i in s.k.bridges
    ensures exists key :: key in s.pods && s.pods[key].podBridge.index == i
  {
    hide PoolOk, PodsOk, PodsApart, AllRoutesOk;
  }

  // ---- The redirect mesh ----

  /** Pod `key` has a route to every other pod, with the right interface and hardware addresses,
      and the default route to the public interface. */
  ghost predicate PodMeshed(s: Net, key: string)
    requires key in s.pods
  {
    s.pods[key].fromSubpodBpfMap in s.k.redirect
    && var m := s.k.redirect[s.pods[key].fromSubpodBpfMap];
       0 in m && m[0] == DefaultRoute(s.publicIf, s.pods[key])
       && forall q :: q in s.pods && q != key ==>
            s.pods[q].baseAddr in m && m[s.pods[q].baseAddr] == PeerRoute(s.pods[key], s.pods[q])
  }

  ghost predicate Mesh(s: Net) {
    forall key :: key in s.pods ==> PodMeshed(s, key)
  }

  lemma PeerEntry(s: Net, key: string, q: string, m: RedirectMap)
    requires Inv(s) && key in s.pods && q in s.pods && q != key
    requires RoutesSound(s.publicIf, s.pods, key, m) && s.pods[q].baseAddr in m
    ensures m[s.pods[q].baseAddr] == PeerRoute(s.pods[key], s.pods[q])
  {
    hide Inv;
    var x := s.pods[q].baseAddr;
    PodBase(s, q);
    var p :| p in s.pods && p != key && x == s.pods[p].baseAddr && m[x] == PeerRoute(s.pods[key], s.pods[p]);
    if p != q {
      BasesDiffer(s, p, q);
    }
  }

  lemma {:induction false} BasesSize(pods: map<string, PodDevices>, keys: set<string>)
    requires keys <= pods.Keys
    requires forall p, q :: p in keys && q in keys && p != q ==> pods[p].baseAddr != pods[q].baseAddr
    ensures |set q | q in keys :: pods[q].baseAddr| == |keys|
  {
    if keys != {} {
      var x :| x in keys;
      BasesSize(pods, keys - {x});
      var rest := set q | q in keys - {x} :: pods[q].baseAddr;
      assert (set q | q in keys :: pods[q].baseAddr) == rest + {pods[x].baseAddr};
      assert pods[x].baseAddr !in rest;
    }
  }

  /** A complete map has as many keys as there are pods. */
  lemma CompleteSize(s: Net, key: string, m: RedirectMap)
    requires Inv(s) && key in s.pods && RoutesComplete(s.pods, key, m)
    ensures |m| >= |s.pods|
  {
    hide Inv, RoutesComplete;
    var others := s.pods.Keys - {key};
    forall p, q | p in s.pods && q in s.pods && p != q
      ensures s.pods[p].baseAddr != s.pods[q].baseAddr && s.pods[p].baseAddr != 0
    {
      BasesDiffer(s, p, q);
      PodBase(s, p);
    }
    BasesSize(s.pods, others);
    var bases := set q | q in others :: s.pods[q].baseAddr;
    assert bases + {0} <= m.Keys by {
      CompleteKeys(s.pods, key, m);
    }
    SubsetSize(bases + {0}, m.Keys);
    PlusOne(bases, 0);
    assert s.pods.Keys == others + {key};
    PlusOne(others, key);
  }

  lemma CompleteKeys(pods: map<string, PodDevices>, key: string, m: RedirectMap)
    requires RoutesComplete(pods, key, m)
    ensures (set q | q in pods.Keys - {key} :: pods[q].baseAddr) + {0} <= m.Keys
  {
  }

  lemma PlusOne<T>(a: set<T>, x: T)
    requires x !in a
    ensures |a + {x}| == |a| + 1
  {
  }

  /** The redirect mesh is complete exactly as long as there are at most 64 pods, the capacity of
      the map; beyond that some route is lost. */
  lemma MeshIffRoom(s: Net)
    requires Reachable(s)
    ensures Mesh(s) <==> |s.pods| <= 64
  {
    hide Inv, Reachable, PodMeshed;
    ReachableInv(s);
    if |s.pods| <= REDIRECT_ENTRIES {
      forall key | key in s.pods
        ensures PodMeshed(s, key)
      {
        PodMesh(s, key);
      }
    } else {
      var key :| key in s.pods;
      NoMesh(s, key);
    }
  }

  lemma PodMesh(s: Net, key: string)
    requires Inv(s) && key in s.pods && |s.pods| <= REDIRECT_ENTRIES
    ensures PodMeshed(s, key)
  {
    hide Inv;
    PodWiring(s, key);
    var m := s.k.redirect[s.pods[key].fromSubpodBpfMap];
    forall q | q in s.pods && q != key
      ensures s.pods[q].baseAddr in m && m[s.pods[q].baseAddr] == PeerRoute(s.pods[key], s.pods[q])
    {
      PeerEntry(s, key, q, m);
    }
  }

  lemma NoMesh(s: Net, key: string)
    requires Inv(s) && key in s.pods && |s.pods| > REDIRECT_ENTRIES
    ensures !PodMeshed(s, key)
  {
    hide Inv;
    PodWiring(s, key);
    if PodMeshed(s, key) {
      CompleteSize(s, key, s.k.redirect[s.pods[key].fromSubpodBpfMap]);
    }
  }

  // ---- Arriving at a pod ----

  /** The clone workload `i` of `d` gets of a frame `f` that was translated to come from `src`. */
  ghost predicate CloneFor(f: Frame, src: u32, d: PodDevices, i: nat, c: Clone)
    requires HasIp(f)
  {
    var a := d.baseAddr + 1 + i;
    c.ifindex == d.podBridge.index
    && SameButHeaders(f, c.frame) && HasIp(c.frame)
    && a in d.internalDevices && c.frame[ETH_DEST..ETH_SOURCE] == d.internalDevices[a]
    && c.frame[ETH_SOURCE..12] == d.podBridge.mac
    && Saddr(c.frame) == src && Daddr(c.frame) == a
    && HeaderInFrame(c.frame) && ChecksumValid(c.frame)
  }

  /** Exactly one clone per workload of `d`, in slot order. */
  ghost predicate Delivered(f: Frame, src: u32, d: PodDevices, o: Outcome)
    requires HasIp(f)
  {
    o.Split? && |o.clones| == d.Count() && forall i :: 0 <= i < d.Count() ==> CloneFor(f, src, d, i, o.clones[i])
  }

  lemma FanOutDelivers(f: Frame, t: SplitTable, d: PodDevices)
    requires HeaderInFrame(f) && Version(f) == 4 && SplitOk(t, d) && d.Count() <= SLOTS
    ensures Delivered(f, Saddr(f), d, SplitGeneric.FanOut(f, t))
  {
    hide Rewrite, ChecksumValid, SplitGeneric.ActiveEdits;
    SplitEdits(t, d.Count(), SLOTS);
    var es := SplitGeneric.ActiveEdits(t, SLOTS);
    var cs := Emit(f, es);
    forall i | 0 <= i < d.Count()
      ensures CloneFor(f, Saddr(f), d, i, cs[i])
    {
      assert t[i] == SplitEntry(d, t[i].daddr);
      OneClone(f, es[i], cs[i].frame);
    }
  }

  lemma OneClone(f: Frame, e: Edit, g: Frame)
    requires HeaderInFrame(f) && g == Rewrite(f, e)
    ensures SameButHeaders(f, g) && HasIp(g) && HeaderInFrame(g) && ChecksumValid(g)
    ensures g[ETH_DEST..ETH_SOURCE] == e.dmac && g[ETH_SOURCE..12] == e.smac && Daddr(g) == e.daddr
    ensures Saddr(g) == if e.saddr.Some? then e.saddr.value else Saddr(f)
  {
    hide Rewrite, ChecksumValid;
    RewriteAddresses(f, e, g);
    RewriteChecks(f, e, g);
  }

  // ---- End to end ----

  /** None of the programs on the way takes the frame for something else. The reserved addresses of
      a /24, `.0` and `.1`, are the only ones that can be confused, and only when some pod's block
      starts with them. */
  predicate Passable(f: Frame, base: u32, target: u32)
    requires HasIp(f)
  {
    !RstSeen(f)
    && Daddr(f) != Loc(Saddr(f)) && Daddr(f) != Loc(base)
    && Daddr(f) != Loc(target) && base != Loc(target)
  }

  /** Pod `key`'s redirect map has a route to pod `q`. */
  ghost predicate Knows(s: Net, key: string, q: string)
    requires key in s.pods && q in s.pods
  {
    s.pods[key].fromSubpodBpfMap in s.k.redirect
    && s.pods[q].baseAddr in s.k.redirect[s.pods[key].fromSubpodBpfMap]
  }

  /** The first hop: the frame passes the workload's port and, unless it is for the reserved address
      of the sender's own subnet, meets the egress program at the bridge of its pod. */
  lemma FirstHop(s: Net, key: string, q: string, a: u32, f: Frame)
    requires Inv(s) && key in s.pods && q in s.pods && q != key
    requires a in s.pods[key].addressesUsed
    requires HeaderInFrame(f) && Version(f) == 4 && Saddr(f) == a && Block(Daddr(f)) == s.pods[q].baseAddr
    requires Daddr(f) != Loc(a)
    ensures AtPort(s.k, s.pods[key].addressesUsed[a].index, f) == Pass(f)
    ensures s.pods[key].fromSubpodBpfMap in s.k.redirect
    ensures AtBridge(s.k, s.pods[key].podBridge.index, f) ==
            if Daddr(f) == Loc(s.pods[key].baseAddr) then Pass(f)
            else Egress(f, s.k.redirect[s.pods[key].fromSubpodBpfMap])
  {
    hide Inv, AtPort, AtBridge, Egress, Block, Loc, Be32, SplitOk, RoutesOk;
    PodBase(s, key);
    PodWiring(s, key);
    BasesDiffer(s, key, q);
    WorkloadNotBase(s, key, a);
    PortPasses(s, key, a, f);
    BridgeTranslates(s.k, s.pods[key].podBridge.index, f, s.pods[key].baseAddr,
                     s.k.bridges[s.pods[key].podBridge.index]);
  }

  /** The localhost program lets a frame pass that is neither a request nor a reply. */
  lemma PortPasses(s: Net, key: string, a: u32, f: Frame)
    requires Inv(s) && key in s.pods && a in s.pods[key].addressesUsed
    requires HasIp(f) && Version(f) == 4 && Saddr(f) == a && Daddr(f) != Loc(a) && Daddr(f) != Block(a)
    ensures AtPort(s.k, s.pods[key].addressesUsed[a].index, f) == Pass(f)
  {
    hide Inv, LhOk, Block, Loc, Be32, Emit;
    WorkloadWiring(s, key, a);
  }

  /** A frame from the bridge's own block to another one meets the egress program. */
  lemma BridgeTranslates(k: Kernel, bridge: u32, f: Frame, base: u32, p: BridgeProg)
    requires bridge in k.bridges && k.bridges[bridge] == p && p.subnet == base && p.fromMap in k.redirect
    requires HasIp(f) && Version(f) == 4 && Block(Saddr(f)) == base && Block(Daddr(f)) != base && Saddr(f) != Loc(base)
    ensures AtBridge(k, bridge, f) ==
            if Daddr(f) == Loc(base) then Pass(f) else Egress(f, k.redirect[p.fromMap])
  {
    hide Egress, LhTailsIpv4, Block, Loc, Be32;
    ClassifierMeaning(f, base, {TO_SPLIT, TO_TRANSLATE});
  }

  /** With a route to the destination pod, the frame goes to that pod's bridge. */
  lemma KnownRoute(s: Net, key: string, q: string, f: Frame)
    requires Inv(s) && key in s.pods && q in s.pods && q != key && Knows(s, key, q)
    requires HasIp(f) && Version(f) == 4 && Block(Daddr(f)) == s.pods[q].baseAddr
    requires Block(Saddr(f)) == s.pods[key].baseAddr
    ensures var d, e := s.pods[key], s.pods[q];
            Egress(f, s.k.redirect[d.fromSubpodBpfMap]) ==
            if RstSeen(f) then Drop else Redirect(e.podBridge.index, Rewrite(f, RouteEdit(f, PeerRoute(d, e))))
  {
    hide Inv, Rewrite, RoutesSound, RoutesComplete, SplitOk, RstSeen, Block, Be32;
    PodWiring(s, key);
    PodWiring(s, q);
    BasesDiffer(s, key, q);
    PeerEntry(s, key, q, s.k.redirect[s.pods[key].fromSubpodBpfMap]);
  }

  /** Without one it is dropped, passed, or sent to the public interface. */
  lemma UnknownRoute(s: Net, key: string, q: string, f: Frame)
    requires Inv(s) && key in s.pods && q in s.pods && !Knows(s, key, q)
    requires s.pods[key].fromSubpodBpfMap in s.k.redirect
    requires HasIp(f) && Block(Daddr(f)) == s.pods[q].baseAddr
    ensures var o := Egress(f, s.k.redirect[s.pods[key].fromSubpodBpfMap]);
            !o.Split? && (o.Redirect? ==> o.ifindex == s.publicIf.index && o.ifindex !in s.k.bridges)
  {
    hide Rewrite, PodsOk, PodsApart, PoolOk, RoutesComplete, RstSeen, Block, Be32;
    var m := s.k.redirect[s.pods[key].fromSubpodBpfMap];
    assert RoutesOk(s.publicIf, s.pods, key, m);
    assert 0 in m ==> m[0] == DefaultRoute(s.publicIf, s.pods[key]);
  }

  lemma BasesDiffer(s: Net, key: string, q: string)
    requires Inv(s) && key in s.pods && q in s.pods && q != key
    ensures s.pods[key].baseAddr != s.pods[q].baseAddr && s.pods[key].podBridge.index != s.pods[q].podBridge.index
  {
    hide PoolOk, PodsOk, AllRoutesOk, KernelOk;
    assert Apart(s.pods[key], s.pods[q]);
  }

  /** The second hop: at the bridge of the destination. */
  lemma SecondHop(s: Net, key: string, q: string, f: Frame, g: Frame)
    requires Inv(s) && key in s.pods && q in s.pods && q != key
    requires HeaderInFrame(f) && Version(f) == 4 && Block(Daddr(f)) == s.pods[q].baseAddr
    requires g == Rewrite(f, RouteEdit(f, PeerRoute(s.pods[key], s.pods[q]))) && Block(Saddr(f)) == s.pods[key].baseAddr
    ensures var d, e := s.pods[key], s.pods[q];
            if d.baseAddr == Loc(e.baseAddr) || Daddr(f) == Loc(e.baseAddr)
            then AtBridge(s.k, e.podBridge.index, g) == Pass(g)
            else Delivered(f, d.baseAddr, e, AtBridge(s.k, e.podBridge.index, g))
  {
    hide Inv, Rewrite, SplitOk, RoutesOk, Loc, Be32, ChecksumValid, Delivered, SplitGeneric.FanOut, Crosses;
    var d, e := s.pods[key], s.pods[q];
    PodWiring(s, q);
    PodBase(s, key);
    BasesDiffer(s, key, q);
    OneClone(f, RouteEdit(f, PeerRoute(d, e)), g);
    assert g[ETH_LEN] == f[ETH_LEN];
    ClassifierMeaning(g, e.baseAddr, {TO_SPLIT, TO_TRANSLATE});
    CrossesMeaning(g, e.baseAddr);
    hide LhTailsIpv4, Block;
    if d.baseAddr != Loc(e.baseAddr) && Daddr(f) != Loc(e.baseAddr) {
      FanOutDelivers(g, s.k.split[e.toSubpodBpfMap], e);
      DeliveredTranslated(f, g, d.baseAddr, e, SplitGeneric.FanOut(g, s.k.split[e.toSubpodBpfMap]));
    }
  }

  lemma CrossesMeaning(f: Frame, base: u32)
    requires HasIp(f)
    ensures Crosses(f, base) <==>
            Version(f) == 4 && Block(Saddr(f)) != Block(Daddr(f)) && Saddr(f) != Loc(base) && Daddr(f) != Loc(base)
  {
  }

  lemma DeliveredTranslated(f: Frame, g: Frame, src: u32, e: PodDevices, o: Outcome)
    requires HasIp(f) && HasIp(g) && SameButHeaders(f, g) && Delivered(g, src, e, o)
    ensures Delivered(f, src, e, o)
  {
  }

  /** End-to-end delivery, for every subnet and any number of pods: a frame from a workload of one
      pod to an address in the block of another pod yields exactly one clone per workload there, from
      the sender's block base, if and only if the sender's pod has a route to that pod, the program
      sees no TCP reset, and no reserved address is involved. */
  lemma EndToEnd(s: Net, key: string, q: string, a: u32, f: Frame)
    requires Reachable(s) && key in s.pods && q in s.pods && q != key && a in s.pods[key].addressesUsed
    requires HeaderInFrame(f) && Version(f) == 4 && Saddr(f) == a && Block(Daddr(f)) == s.pods[q].baseAddr
    ensures var d, e := s.pods[key], s.pods[q];
            Delivered(f, d.baseAddr, e, WorkloadJourney(s.k, d.addressesUsed[a].index, d.podBridge.index, f))
            <==> Knows(s, key, q) && Passable(f, d.baseAddr, e.baseAddr)
  {
    hide Inv, Reachable, Delivered, WorkloadJourney, Passable, Knows, Block, Be32;
    ReachableInv(s);
    if Daddr(f) == Loc(a) {
      CaughtAtPort(s, key, q, a, f);
      PassableMeaning(f, s.pods[key].baseAddr, s.pods[q].baseAddr);
    } else if Knows(s, key, q) {
      PastThePort(s, key, q, a, f);
    } else {
      LostOnTheWay(s, key, q, a, f);
    }
  }

  lemma PassableMeaning(f: Frame, base: u32, target: u32)
    requires HasIp(f)
    ensures Passable(f, base, target) <==>
            !RstSeen(f) && Daddr(f) != Loc(Saddr(f)) && Daddr(f) != Loc(base)
            && Daddr(f) != Loc(target) && base != Loc(target)
  {
  }

  /** The frame has passed the port: both hops together. */
  lemma PastThePort(s: Net, key: string, q: string, a: u32, f: Frame)
    requires Inv(s) && key in s.pods && q in s.pods && q != key && Knows(s, key, q)
    requires a in s.pods[key].addressesUsed
    requires HeaderInFrame(f) && Version(f) == 4 && Saddr(f) == a && Block(Daddr(f)) == s.pods[q].baseAddr
    requires Daddr(f) != Loc(a)
    ensures var d, e := s.pods[key], s.pods[q];
            Delivered(f, d.baseAddr, e, WorkloadJourney(s.k, d.addressesUsed[a].index, d.podBridge.index, f))
            <==> Passable(f, d.baseAddr, e.baseAddr)
  {
    hide Inv, Rewrite, Delivered, AtBridge, AtPort, Egress, Knows, RstSeen, SplitOk, RoutesOk, Passable, Loc, Block;
    hide Be32;
    var d, e := s.pods[key], s.pods[q];
    PodWiring(s, q);
    FirstHop(s, key, q, a, f);
    WorkloadNotBase(s, key, a);
    KnownRoute(s, key, q, f);
    PassableMeaning(f, d.baseAddr, e.baseAddr);
    NotSplitNotDelivered(f, d.baseAddr, e);
    if Daddr(f) != Loc(d.baseAddr) && !RstSeen(f) {
      SecondHop(s, key, q, f, Rewrite(f, RouteEdit(f, PeerRoute(d, e))));
    }
  }

  /** A frame for a pod the sender's pod has no route to does not get there. */
  lemma LostOnTheWay(s: Net, key: string, q: string, a: u32, f: Frame)
    requires Inv(s) && key in s.pods && q in s.pods && q != key && !Knows(s, key, q)
    requires a in s.pods[key].addressesUsed
    requires HeaderInFrame(f) && Version(f) == 4 && Saddr(f) == a && Block(Daddr(f)) == s.pods[q].baseAddr
    requires Daddr(f) != Loc(a)
    ensures var d, e := s.pods[key], s.pods[q];
            !Delivered(f, d.baseAddr, e, WorkloadJourney(s.k, d.addressesUsed[a].index, d.podBridge.index, f))
  {
    hide Inv, Rewrite, AtBridge, AtPort, Egress, Knows, RstSeen, CloneFor, Loc, Block, Be32;
    FirstHop(s, key, q, a, f);
    UnknownRoute(s, key, q, f);
  }

  lemma NotSplitNotDelivered(f: Frame, src: u32, e: PodDevices)
    requires HasIp(f)
    ensures forall g :: !Delivered(f, src, e, Pass(g))
    ensures !Delivered(f, src, e, Drop)
  {
  }

  /** A frame that the localhost program at the sender's port takes stays in the sender's pod. */
  lemma CaughtAtPort(s: Net, key: string, q: string, a: u32, f: Frame)
    requires Inv(s) && key in s.pods && q in s.pods && q != key && a in s.pods[key].addressesUsed
    requires HeaderInFrame(f) && Version(f) == 4 && Saddr(f) == a && Daddr(f) == Loc(a)
    ensures var d, e := s.pods[key], s.pods[q];
            !Delivered(f, d.baseAddr, e, WorkloadJourney(s.k, d.addressesUsed[a].index, d.podBridge.index, f))
  {
    hide Inv, Rewrite, SplitOk, RoutesOk, Loc, Be32, ChecksumValid, LhEntry, SplitLocalhost.ActiveEdits;
    var d, e := s.pods[key], s.pods[q];
    WorkloadWiring(s, key, a);
    PodWiring(s, key);
    PodWiring(s, q);
    BasesDiffer(s, key, q);
    var t := s.k.lh[d.fromLocalhostBpfMaps[a]];
    LhEdits(t, None, d.Count(), SplitLocalhost.VISITED);
    assert t[0] == LhEntry(d, t[0].daddr);
    FirstIfindex(d, t[0].daddr);
  }

  lemma FirstIfindex(d: PodDevices, a: u32)
    requires a in d.internalDevices
    ensures LhEntry(d, a).targetIfIndex == d.podBridge.index
  {
  }
}
