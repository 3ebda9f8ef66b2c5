/** Concrete inputs and reachable states on which the code falls short of what one would expect of
    it. The theorems that say exactly when it does are in the modules imported here. */
module Instances {
  import opened Wrappers
  import opened Words
  import opened Frames
  import opened Checksum
  import opened Tc
  import opened AddressManager
  import opened Translate
  import opened Ebpf
  import opened PodState
  import opened PodInvariant
  import opened PodNetwork
  import opened DataPlane
  import opened Delivery
  import opened Localhost
  import opened Standalone
  import opened Xdp
  import opened Tunnel
  import opened TunnelChecksum
  import opened TunnelOutcome
  import opened Parsing
  import opened Vlan

  function Zeros(n: nat): (f: Frame)
    ensures |f| == n
  {
    seq(n, _ => 0)
  }

  // ---- Names, tags and headers ----

  lemma SharedName()
    ensures PodName("a_b", "c") == PodName("a", "b_c")
  {
    assert PodName("a_b", "c") == "a_b_c";
    assert PodName("a", "b_c") == "a_b_c";
  }

  /** Two pods with one key, the second of which cannot be created. */
  lemma SharedKey()
    ensures GetNetNs("a-b", "c") == GetNetNs("a", "b-c")
  {
    assert GetNetNs("a-b", "c") == "a-b-c";
    assert GetNetNs("a", "b-c") == "a-b-c";
  }

  /** A frame with an 802.1AD tag, which comes back as 802.1Q. */
  lemma TagTypeLost()
    ensures var f := Zeros(12) + [0x88, 0xA8, 0x00, 0x01, 0x08, 0x00];
            IsTagged(f) && Tagged(Untagged(f), Be16(f, ETH_LEN)) != f
  {
    PushUndoesPop(Zeros(12) + [0x88, 0xA8, 0x00, 0x01, 0x08, 0x00]);
  }

  /** A frame with two tags, behind which the parser does not look after a push. */
  lemma ThirdTag()
    ensures var f := Zeros(12) + [0x81, 0x00, 0x00, 0x01, 0x81, 0x00, 0x00, 0x02, 0x08, 0x00];
            var before, after := EthVlan(f, 0), EthVlan(Tagged(f, 3), 0);
            !(after.ret == before.ret && after.pos == before.pos + VLAN_LEN)
  {
    var f := Zeros(12) + [0x81, 0x00, 0x00, 0x01, 0x81, 0x00, 0x00, 0x02, 0x08, 0x00];
    assert Le16(f, 12) == Htons(ETH_P_8021Q) && Le16(f, 16) == Htons(ETH_P_8021Q);
    assert TagDepth(f, ETH_LEN, Le16(f, 12)) >= 1 + TagDepth(f, ETH_LEN + VLAN_LEN, Le16(f, 16));
    ParseAfterPush(f, 3);
  }

  /** A segment behind a 24-byte IP header: the last byte of the option is taken for the flags. */
  lemma OptionTakenForReset()
    ensures var f := Zeros(ETH_LEN) + [0x46] + Zeros(8) + [IPPROTO_TCP] + Zeros(23) + [0x04] + Zeros(10);
            HeaderInFrame(f) && Version(f) == 4 && RstSeen(f) && !IsReset(f)
  {
    var f := Zeros(ETH_LEN) + [0x46] + Zeros(8) + [IPPROTO_TCP] + Zeros(23) + [0x04] + Zeros(10);
    assert f[ETH_LEN] == 0x46 && f[IP_PROTOCOL] == IPPROTO_TCP && f[TCP_FLAGS] == 0x04 && f[51] == 0;
  }

  /** A later fragment of a datagram: a byte of its data is taken for the flags. */
  lemma FragmentTakenForReset()
    ensures var f := Zeros(ETH_LEN) + [0x45, 0, 0, 40, 0, 0, 0, 1, 0, IPPROTO_TCP] + Zeros(23) + [0x04] + Zeros(6);
            HeaderInFrame(f) && Version(f) == 4 && Ihl(f) == 5 && RstSeen(f) && !IsReset(f)
  {
    var f := Zeros(ETH_LEN) + [0x45, 0, 0, 40, 0, 0, 0, 1, 0, IPPROTO_TCP] + Zeros(23) + [0x04] + Zeros(6);
    assert f[ETH_LEN] == 0x45 && f[IP_PROTOCOL] == IPPROTO_TCP && f[TCP_FLAGS] == 0x04;
    assert f[IP_FRAGMENT] == 0 && f[IP_FRAGMENT + 1] == 1;
  }

  /** A datagram that ends with its IP header: a byte of the padding behind it is taken for the flags. */
  lemma PaddingTakenForReset()
    ensures var f := Zeros(ETH_LEN) + [0x45, 0, 0, 20, 0, 0, 0, 0, 0, IPPROTO_TCP] + Zeros(23) + [0x04] + Zeros(6);
            HeaderInFrame(f) && Version(f) == 4 && Ihl(f) == 5 && RstSeen(f) && !IsReset(f)
  {
    var f := Zeros(ETH_LEN) + [0x45, 0, 0, 20, 0, 0, 0, 0, 0, IPPROTO_TCP] + Zeros(23) + [0x04] + Zeros(6);
    assert f[ETH_LEN] == 0x45 && f[IP_PROTOCOL] == IPPROTO_TCP && f[TCP_FLAGS] == 0x04;
    assert f[IP_TOTAL] == 0 && f[IP_TOTAL + 1] == 20;
  }

  // ---- The tunnel ----

  /** An inner frame whose length field is right. */
  function Carrying(payload: seq<byte>): (f: Frame)
    requires |payload| < 0x1_0000
    ensures |f| == UDP + |payload|
  {
    Zeros(ETH_LEN) + ([0x60, 0, 0, 0] + Be16Bytes(|payload|)) + Zeros(34) + payload
  }

  function AnyInfo(): TunnelInfo {
    TunnelInfo(Zeros(16), Zeros(16), TUNNEL_PORT, NO_MAC, NO_MAC, 1)
  }

  function AnyTunnel(): map<Ip6, TunnelInfo> {
    map[Zeros(14) + [0x00, 0x01] := AnyInfo()]
  }

  lemma ZeroAt(n: nat, i: nat)
    requires i < n
    ensures Zeros(n)[i] == 0
  {
  }

  lemma PayloadAt(payload: seq<byte>, i: nat)
    requires i < |payload| < 0x1_0000
    ensures Carrying(payload)[UDP + i] == payload[i]
  {
    hide Zeros;
    var head := Zeros(ETH_LEN) + ([0x60, 0, 0, 0] + Be16Bytes(|payload|)) + Zeros(34);
    assert |head| == UDP && Carrying(payload) == head + payload;
  }

  lemma CarryingFields(payload: seq<byte>)
    requires |payload| < 0x1_0000
    ensures var f := Carrying(payload);
            f[ETH_LEN] / 16 == 6 && Be16(f, IP6_PAYLOAD_LEN) == |payload|
            && TunnelKey(f) in AnyTunnel() && AnyTunnel()[TunnelKey(f)] == AnyInfo()
  {
    var f := Carrying(payload);
    assert f[ETH_LEN] == 0x60;
    assert f[IP6_PAYLOAD_LEN] == Be16Bytes(|payload|)[0] && f[IP6_PAYLOAD_LEN + 1] == Be16Bytes(|payload|)[1];
    assert f[IP6_DADDR..IP6_DADDR + 14] == Zeros(14);
  }

  /** The buffer with `frame` behind the headroom `head`. */
  function Behind(head: seq<byte>, frame: Frame): (b: Buffer)
    ensures b.Valid()
  {
    Buffer(head + frame, |head|)
  }

  /** With room for the headers the frame is sent. */
  lemma SentBehind(head: seq<byte>, payload: seq<byte>)
    requires |head| == NEWHLEN && |payload| < 0x1_0000
    ensures var b := Behind(head, Carrying(payload));
            Ttr(b, AnyTunnel()).Sent? && b.Frame() == Carrying(payload) && AfterMove(b) == b.room
            && AfterMove(b)[NEWHLEN..] == Carrying(payload) && Announced(b) == OuterSize(UDP + |payload|)
            && Be16(b.room, UDP_CHECK) == Be16(head, UDP_CHECK)
  {
    hide Carrying, AnyTunnel, WithHeaders;
    var b := Behind(head, Carrying(payload));
    assert b.Frame() == Carrying(payload);
    CarryingFields(payload);
    EncapsulatesIffRoom(b, AnyTunnel());
    Moved(b);
    assert b.room[0..] == b.room;
  }

  /** What the headroom `Zeros(62)` and the payload have to satisfy for the checksum to verify. */
  lemma ZeroHeadroom(payload: seq<byte>)
    requires |payload| < 0x1_0000
    ensures var r := Ttr(Behind(Zeros(62), Carrying(payload)), AnyTunnel());
            var len := OuterSize(UDP + |payload|);
            r.Sent? && (UdpVerifies(r.frame) ==>
                          UDP_LEN <= len <= |payload| + NEWHLEN
                          && (LeftOut(Carrying(payload), len) + Lost(len)) % 0xFFFF == 0)
  {
    hide Carrying, AnyTunnel, Ttr, UdpVerifies, LeftOut, Lost, OuterSize, ProgramSum, AfterMove, Behind;
    var b := Behind(Zeros(62), Carrying(payload));
    SentBehind(Zeros(62), payload);
    var r := Ttr(b, AnyTunnel());
    UdpChecksum(b, AnyTunnel(), r.ifindex, r.frame);
    assert Be16(Zeros(62), UDP_CHECK) == 0;
  }

  /** Without headroom the frame is not encapsulated. */
  lemma NoHeadroom()
    ensures Ttr(Behind([], Carrying([])), AnyTunnel()) == Aborted
  {
    hide WithHeaders, AnyTunnel, Carrying;
    var b := Behind([], Carrying([]));
    assert b.Frame() == Carrying([]);
    CarryingFields([]);
  }

  /** Whatever a headroom other than zero holds where the checksum goes: the datagram is sent and does
      not verify. */
  lemma StaleHeadroom(head: seq<byte>, payload: seq<byte>)
    requires |head| == NEWHLEN && |payload| % 2 == 0 && |payload| <= 3010
    requires 0 < Be16(head, UDP_CHECK) < 0xFFFF
    ensures var r := Ttr(Behind(head, Carrying(payload)), AnyTunnel());
            r.Sent? && !UdpVerifies(r.frame)
  {
    hide WithHeaders, UdpVerifies, Ttr, AnyTunnel, Carrying, ProgramSum;
    var b := Behind(head, Carrying(payload));
    SentBehind(head, payload);
    CarryingFields(payload);
    var r := Ttr(b, AnyTunnel());
    UdpChecksumEven(b, AnyTunnel(), r.ifindex, r.frame);
  }

  /** When the program leaves out one word. */
  lemma LastWord(f: seq<byte>, len: u16, q: seq<byte>, at: nat)
    requires UDP_LEN <= len <= |f| + UDP_LEN && q == Padded(f[..len - UDP_LEN])
    requires at + UDP_LEN == 2 * CsumWords(len) && |q| == at + 2
    ensures LeftOut(f, len) == Be16(q, at)
  {
    hide Be16, Padded;
    assert WordSum(q, at, 0) == 0;
  }

  /** A clean headroom and an odd length: the last byte is left out of the sum. */
  lemma OddLength()
    ensures var r := Ttr(Behind(Zeros(62), Carrying([0x01])), AnyTunnel());
            r.Sent? && !UdpVerifies(r.frame)
  {
    hide Ttr, AnyTunnel, Behind, UdpVerifies, LeftOut, WordSum, Carrying, Zeros;
    ZeroHeadroom([0x01]);
    PayloadAt([0x01], 0);
    var f := Carrying([0x01]);
    var q := f + [0];
    assert f[..63 - UDP_LEN] == f;
    LastWord(f, 63, q, UDP);
  }

  /** A clean headroom and a datagram of 3074 bytes: the last word is left out of the sum. */
  lemma PastTheLoop()
    ensures var r := Ttr(Behind(Zeros(62), Carrying(Zeros(3011) + [0x01])), AnyTunnel());
            r.Sent? && !UdpVerifies(r.frame)
  {
    hide Ttr, AnyTunnel, Behind, UdpVerifies, LeftOut, WordSum, Carrying, Zeros;
    var payload := Zeros(3011) + [0x01];
    ZeroHeadroom(payload);
    var f := Carrying(payload);
    assert f[..3074 - UDP_LEN] == f;
    LastWord(f, 3074, f, 3064);
    PayloadAt(payload, 3010);
    PayloadAt(payload, 3011);
    assert payload[3010] == 0 by { ZeroAt(3011, 3010); }
  }

  lemma {:induction false} ZeroWords(f: seq<byte>, off: nat, n: nat)
    requires forall i :: off <= i < off + 2 * n && i < |f| ==> f[i] == 0
    ensures WordSum(f, off, n) == 0
  {
    if n > 0 {
      ZeroWords(f, off, n - 1);
    }
  }

  /** A clean headroom and a datagram of 32768 bytes: the length is added with the wrong sign. */
  lemma PastFifteenBits()
    ensures var r := Ttr(Behind(Zeros(62), Carrying(Zeros(32706))), AnyTunnel());
            r.Sent? && !UdpVerifies(r.frame)
  {
    hide Ttr, AnyTunnel, Behind, UdpVerifies, WordSum, Carrying, Zeros;
    var f := Carrying(Zeros(32706));
    ZeroHeadroom(Zeros(32706));
    assert f[..0x8000 - UDP_LEN] == f;
    forall i | UDP <= i < |f|
      ensures f[i] == 0
    {
      PayloadAt(Zeros(32706), i - UDP);
      ZeroAt(32706, i - UDP);
    }
    ZeroWords(f, 3064, 14848);
    assert LeftOut(f, 0x8000) == 0;
  }

  lemma ZerosSum(n: nat)
    ensures WordSum(Zeros(2 * n), 0, n) == 0
  {
    ZeroWords(Zeros(2 * n), 0, n);
  }

  lemma CarryingSum(hi: byte, lo: byte)
    ensures WordSum(Carrying([hi, lo]), 0, 28) == 0x6002 + 0x100 * hi + lo
  {
    hide WordSum, Zeros;
    var head, rest := Zeros(ETH_LEN) + ([0x60, 0, 0, 0] + Be16Bytes(2)), Zeros(34) + [hi, lo];
    assert Carrying([hi, lo]) == head + rest;
    WordSumAppend(head, rest, 10, 18);
    WordSumAppend(Zeros(ETH_LEN), [0x60, 0, 0, 0] + Be16Bytes(2), 7, 3);
    WordSumAppend(Zeros(34), [hi, lo], 17, 1);
    ZerosSum(7);
    ZerosSum(17);
    FewWords(hi, lo);
  }

  lemma FewWords(hi: byte, lo: byte)
    ensures WordSum([0x60, 0, 0, 0] + Be16Bytes(2), 0, 3) == 0x6002 && WordSum([hi, lo], 0, 1) == 0x100 * hi + lo
  {
    var h := [0x60, 0, 0, 0] + Be16Bytes(2);
    assert h[0] == 0x60 && h[1] == h[2] == h[3] == h[4] == 0 && h[5] == 2;
    assert WordSum(h, 0, 2) == 0x6000;
  }

  /** A clean headroom and a short even length: the sum comes to a multiple of 65535, and zero, which
      stands for no checksum, is stored. */
  lemma ZeroStored()
    ensures var r := Ttr(Behind(Zeros(62), Carrying([0xAA, 0x99])), AnyTunnel());
            r.Sent? && !UdpVerifies(r.frame)
  {
    hide WithHeaders, UdpVerifies, Ttr, AnyTunnel, Carrying, WordSum;
    var payload := [0xAA, 0x99];
    var b := Behind(Zeros(62), Carrying(payload));
    SentBehind(Zeros(62), payload);
    CarryingFields(payload);
    var r := Ttr(b, AnyTunnel());
    UdpChecksumEven(b, AnyTunnel(), r.ifindex, r.frame);
    CarryingSum(0xAA, 0x99);
    WordSumDrop(b.room, NEWHLEN, 0, 28);
    ZerosSum(8);
    assert b.room[0..] == b.room;
    assert ProgramSum(b.room, AnyInfo(), 64) == 0x2_0000 - 2;
  }

  /** A tunnel datagram without an Ethernet header inside: it is not unpacked, and goes out as it came but
      for its hardware addresses. */
  lemma NotUnpacked()
    ensures var f := Zeros(12) + [0x86, 0xDD] + Zeros(6) + [17] + Zeros(35) + [0x7A, 0x69] + Zeros(4);
            var r := Rtt(Buffer(f, 0), map[Zeros(16) := EthLink(NO_MAC, NO_MAC, 1)]);
            |f| == 62 && r.Sent? && |r.frame| == 62 && r.frame[12..] == f[12..]
  {
    hide Rtt;
    var f := Zeros(12) + [0x86, 0xDD] + Zeros(6) + [17] + Zeros(35) + [0x7A, 0x69] + Zeros(4);
    var b := Buffer(f, 0);
    assert b.Frame() == f && f[38..54] == Zeros(16);
    RttMeaning(b, map[Zeros(16) := EthLink(NO_MAC, NO_MAC, 1)]);
  }

  // ---- Reachable states ----

  /** A bare IPv4 header without options. */
  function Probe(src: u32, dst: u32): (f: Frame)
    ensures |f| == IP_END
  {
    Zeros(ETH_LEN) + [0x45] + Zeros(11) + Be32Bytes(src) + Be32Bytes(dst)
  }

  lemma ProbeFields(src: u32, dst: u32)
    ensures var f := Probe(src, dst);
            HeaderInFrame(f) && Version(f) == 4 && Saddr(f) == src && Daddr(f) == dst && !RstSeen(f)
  {
    var f := Probe(src, dst);
    assert f[ETH_LEN] == 0x45 && f[IP_PROTOCOL] == 0;
    assert f[IP_SADDR..IP_DADDR] == Be32Bytes(src) && f[IP_DADDR..] == Be32Bytes(dst);
    hide Probe;
    SameNumber(f, IP_SADDR, src);
    SameNumber(f, IP_DADDR, dst);
  }

  lemma SameNumber(f: Frame, off: nat, x: u32)
    requires off + 4 <= |f| && f[off..off + 4] == Be32Bytes(x)
    ensures Be32(f, off) == x
  {
    Be32RoundTrip(x);
    var bs := f[off..off + 4];
    assert bs[0] == f[off] && bs[1] == f[off + 1] && bs[2] == f[off + 2] && bs[3] == f[off + 3];
  }

  const HOME: u32 := 0x0A01_0000
  const PUBLIC: Link := Link("eth0", 1, NO_MAC)

  /** The `n`-th of a row of interfaces. */
  function Nth(n: nat): Link
    requires n < 0x1_0000
  {
    Link(NthName(n), n + 2, NO_MAC)
  }

  function NthName(n: nat): (s: string)
    ensures |s| == n
  {
    seq(n, _ => 'p')
  }

  /** The first `n` blocks of the subnet are held, and no others. */
  ghost predicate Held(p: Pool, n: nat) {
    p.base == HOME && p.max == HOME + 0x1_0000 && forall x :: x in p.used <==> IsBlock(p, x) && x <= HOME + 8 * n
  }

  /** There are `n` pods, the `j`-th of them on the `j`-th block. */
  ghost predicate InOrder(pods: map<string, PodDevices>, n: nat) {
    |pods| == n
    && (forall j :: 0 <= j < n ==>
          GetNetNs("", NthName(j)) in pods && pods[GetNetNs("", NthName(j))].baseAddr == HOME + 8 * (j + 1))
    && (forall key :: key in pods ==> |key| <= n && |pods[key].podBridge.name| < n)
  }

  /** The state after `n` pods on the subnet from `HOME` on. */
  ghost predicate Row(s: Net, n: nat) {
    n <= 100 && s.publicIf == PUBLIC && Held(s.pool, n) && InOrder(s.pods, n)
    && (forall i :: i in s.k.bridges ==> i < n + 2)
    && (forall i :: i in s.k.ports ==> i < n + 2)
  }

  lemma NextBlock(p: Pool, n: nat, name: string)
    requires Sound(p) && Held(p, n) && n < 100
    ensures Request(p, name).1 == Some(HOME + 8 * (n + 1))
    ensures Held(Request(p, name).0, n + 1)
  {
    hide FirstFit;
    RequestLowest(p, name);
    var next := HOME + 8 * (n + 1);
    Rest8(next - HOME, n + 1, 0);
    assert IsBlock(p, next);
    forall x | IsBlock(p, x) && x < next
      ensures x <= HOME + 8 * n
    {
      Apart8(x - HOME, next - HOME);
    }
  }

  lemma CreatedFields(s: Net, key: string, podName: string, bridge: Link, host: Link, mac: Mac, s': Net)
    requires Created(s, key, podName, bridge, host, mac, s')
    ensures key !in s.pods && key in s'.pods && s'.pods == s.pods[key := s'.pods[key]]
    ensures s'.pods[key].baseAddr == Request(s.pool, podName).1.value && s'.pods[key].podBridge == bridge
    ensures s'.publicIf == s.publicIf && s'.pool == Request(s.pool, podName).0
    ensures CreatedTables(s, s'.pods[key], s') && s'.pods[key].addressesUsed.Values == {host}
  {
    hide Request, CreatedTables, CreatedRoutes, FreshBridge, FreshPort, Wrap32;
    OneValue(Wrap32(s'.pods[key].baseAddr + 1), host);
  }

  lemma OneValue(a: u32, host: Link)
    ensures map[a := host].Values == {host}
  {
    assert map[a := host][a] in map[a := host].Values;
  }

  lemma CreatedKeys(s: Net, d: PodDevices, host: Link, s': Net)
    requires CreatedTables(s, d, s') && d.addressesUsed.Values == {host}
    ensures s'.k.bridges.Keys == s.k.bridges.Keys + {d.podBridge.index}
    ensures s'.k.ports.Keys == s.k.ports.Keys + {host.index}
  {
    hide OneSplit, OneLh, SplitEntry, LhEntry;
    var ip := d.baseAddr + 1;
    assert d.addressesUsed[ip] in d.addressesUsed.Values;
  }

  lemma NextInOrder(pods: map<string, PodDevices>, n: nat, d: PodDevices)
    requires n < 100 && InOrder(pods, n) && d.baseAddr == HOME + 8 * (n + 1) && d.podBridge == Nth(n)
    requires GetNetNs("", NthName(n)) !in pods
    ensures InOrder(pods[GetNetNs("", NthName(n)) := d], n + 1)
  {
    var key := GetNetNs("", NthName(n));
    assert |key| == n + 1;
    forall j | 0 <= j < n
      ensures GetNetNs("", NthName(j)) != key
    {
      assert |GetNetNs("", NthName(j))| == j + 1;
    }
    assert |pods[key := d].Keys| == |pods.Keys| + 1;
  }

  lemma NextInRow(s: Net, n: nat, s': Net, ok: bool)
    requires Sound(s.pool) && Row(s, n) && n < 100
    requires PodCreated(s, GetNetNs("", NthName(n)), PodName("", NthName(n)), Nth(n), Nth(n), NO_MAC, ok, s')
    ensures Row(s', n + 1)
  {
    hide Request, Held, InOrder, Created, CreatedTables, Sound, NthName;
    var key, name := GetNetNs("", NthName(n)), PodName("", NthName(n));
    NextBlock(s.pool, n, name);
    CreatedFields(s, key, name, Nth(n), Nth(n), NO_MAC, s');
    CreatedKeys(s, s'.pods[key], Nth(n), s');
    NextInOrder(s.pods, n, s'.pods[key]);
  }

  lemma FreshNth(s: Net, n: nat)
    requires Row(s, n) && n < 100
    ensures FreshBridge(s, Nth(n)) && FreshPort(s, Nth(n)) && GetNetNs("", NthName(n)) !in s.pods
  {
    hide Held;
    assert |GetNetNs("", NthName(n))| == n + 1;
  }

  lemma EmptyRow(s: Net)
    requires Initial(s) && s.publicIf == PUBLIC && s.pool == Pool(HOME, HOME + 0x1_0000, map[])
    ensures Row(s, 0)
  {
  }

  lemma Home16()
    ensures Ip2Int([10, 1, 0, 0]) == HOME && Wrap32(HOME + Shl1(16)) == HOME + 0x1_0000
  {
    assert Shl1(8) == 0x100;
  }

  /** A manager with `n` pods on a /16. */
  method ManyPods(n: nat) returns (m: MRPodLocalNetworkManager)
    requires n <= 100
    ensures m.Valid() && Row(m.State(), n)
  {
    hide Inv, Reachable, PodCreated, Row, FreshBridge, FreshPort, GetNetNs, Initial, NthName, Wrap32, Shl1;
    Home16();
    var am := new IPv4AddressManager.InitAddressSpace([10, 1, 0, 0], 16);
    m := new MRPodLocalNetworkManager.InitContainerNetworking(am, PUBLIC);
    EmptyRow(m.State());
    for i := 0 to n
      invariant m.Valid() && Row(m.State(), i)
    {
      FreshNth(m.State(), i);
      ghost var s := m.State();
      var ok := m.InitPodNetwork("", NthName(i), Nth(i), Nth(i), NO_MAC);
      NextInRow(s, i, m.State(), ok);
    }
  }

  /** Sixty-five pods: some route is lost. */
  method MeshBroken() returns (m: MRPodLocalNetworkManager)
    ensures Reachable(m.State()) && !Mesh(m.State())
  {
    hide Inv, Reachable, Mesh, Row;
    m := ManyPods(65);
    RowSize(m.State(), 65);
    MeshIffRoom(m.State());
  }

  lemma RowSize(s: Net, n: nat)
    requires Row(s, n)
    ensures |s.pods| == n
  {
  }

  /** A bare header from the first workload of pod `key` to `dst`, followed from that workload's port. */
  function FirstSends(s: Net, key: string, dst: u32): Outcome
    requires key in s.pods && s.pods[key].baseAddr + 1 in s.pods[key].addressesUsed
  {
    var d := s.pods[key];
    WorkloadJourney(s.k, d.addressesUsed[d.baseAddr + 1].index, d.podBridge.index, Probe(d.baseAddr + 1, dst))
  }

  /** In any reachable state with a pod on a block that starts a /24, a header from another pod to the
      first address of that block is not delivered, although it is no reset. */
  lemma ReservedAddress(s: Net, key: string, q: string)
    requires Reachable(s) && key in s.pods && q in s.pods && q != key && s.pods[q].baseAddr % 0x100 == 0
    ensures s.pods[key].baseAddr < 0xFFFF_FFFF && s.pods[key].baseAddr + 1 in s.pods[key].addressesUsed
    ensures var f := Probe(s.pods[key].baseAddr + 1, s.pods[q].baseAddr);
            !RstSeen(f) && !Delivered(f, s.pods[key].baseAddr, s.pods[q], FirstSends(s, key, s.pods[q].baseAddr))
  {
    hide Inv, Reachable, Delivered, WorkloadJourney, RstSeen, Knows, Probe, Block;
    ReachableInv(s);
    var d, e := s.pods[key], s.pods[q];
    FirstWorkload(s, key);
    PodBase(s, q);
    ProbeFields(d.baseAddr + 1, e.baseAddr);
    InBlock(e.baseAddr, e.baseAddr);
    EndToEnd(s, key, q, d.baseAddr + 1, Probe(d.baseAddr + 1, e.baseAddr));
    PassableMeaning(Probe(d.baseAddr + 1, e.baseAddr), d.baseAddr, e.baseAddr);
  }

  lemma FirstWorkload(s: Net, key: string)
    requires Inv(s) && key in s.pods
    ensures s.pods[key].baseAddr < 0xFFFF_FFFF && s.pods[key].baseAddr + 1 in s.pods[key].addressesUsed
  {
    hide Inv;
    PodKeys(s, key);
    PodWiring(s, key);
  }

  /** Thirty-two pods: the last of them starts a /24. */
  method ReservedBlock() returns (m: MRPodLocalNetworkManager, key: string, q: string)
    ensures Reachable(m.State()) && key in m.podDevices && q in m.podDevices && q != key
    ensures m.podDevices[q].baseAddr % 0x100 == 0
    ensures m.podDevices[q].baseAddr / 0x100 != m.State().gateway / 0x100
  {
    hide Inv, Reachable, Row;
    m := ManyPods(32);
    key, q := GetNetNs("", NthName(0)), GetNetNs("", NthName(31));
    RowPod(m.State(), 32, 0);
    RowPod(m.State(), 32, 31);
    RowGateway(m.State(), 32);
  }

  lemma RowPod(s: Net, n: nat, j: nat)
    requires Row(s, n) && j < n
    ensures GetNetNs("", NthName(j)) in s.pods && s.pods[GetNetNs("", NthName(j))].baseAddr == HOME + 8 * (j + 1)
  {
  }

  lemma RowGateway(s: Net, n: nat)
    requires Inv(s) && Row(s, n)
    ensures s.gateway == HOME + 1
  {
    hide Inv;
    PoolSound(s);
  }

  // ---- Localhost ----

  /** A standalone node with one pod of `n` workloads. */
  ghost predicate Lone(s: Net, key: string, n: nat) {
    1 <= n <= MAX_IPS_PER_POD - 1 && IsStandalone(s.pool)
    && key in s.pods && s.pods[key].Count() == n
    && forall i :: i in s.k.ports ==> i < n + 2
  }

  lemma Home24()
    ensures Ip2Int([10, 1, 0, 0]) == HOME && Wrap32(HOME + 255) == HOME + 255
  {
  }

  lemma FreshFirst(s: Net, key: string)
    requires Initial(s) && s.publicIf == PUBLIC
    ensures FreshBridge(s, Nth(0)) && FreshPort(s, Nth(0)) && key !in s.pods
  {
  }

  lemma FirstPod(s: Net, key: string, name: string, ok: bool, s': Net)
    requires Initial(s) && Sound(s.pool) && s.pool == Pool(HOME, HOME + 255, map[])
    requires PodCreated(s, key, name, Nth(0), Nth(0), NO_MAC, ok, s')
    ensures Lone(s', key, 1)
  {
    hide Request, Created, CreatedTables, NthName;
    RequestLowest(s.pool, name);
    assert IsBlock(s.pool, HOME + 8);
    CreatedFields(s, key, name, Nth(0), Nth(0), NO_MAC, s');
    CreatedKeys(s, s'.pods[key], Nth(0), s');
    OneWorkload(s, s'.pods[key], s');
    SameSubnet(s.pool, name);
  }

  lemma OneWorkload(s: Net, d: PodDevices, s': Net)
    requires CreatedTables(s, d, s')
    ensures d.Count() == 1
  {
    hide OneSplit, OneLh, SplitEntry, LhEntry;
  }

  lemma SameSubnet(p: Pool, name: string)
    requires Sound(p)
    ensures Request(p, name).0.base == p.base && Request(p, name).0.max == p.max
  {
    hide FirstFit;
  }

  lemma FreshInLone(s: Net, key: string, n: nat)
    requires Lone(s, key, n)
    ensures FreshPort(s, Nth(n))
  {
  }

  lemma GrownFields(s: Net, key: string, host: Link, mac: Mac, lhMap: Fd, s': Net)
    requires Grown(s, key, host, mac, lhMap, s')
    ensures key in s.pods && key in s'.pods && s'.pool == s.pool
    ensures s.pods[key].baseAddr + s.pods[key].Count() + 1 < 0x1_0000_0000
    ensures var d := s.pods[key];
            s'.pods[key].addressesUsed == d.addressesUsed[d.baseAddr + d.Count() + 1 := host]
    ensures s'.k.ports.Keys == s.k.ports.Keys + {host.index}
  {
    hide GrownSplit, GrownLh, FreshPort;
  }

  lemma NextIsNew(s: Net, key: string)
    requires Inv(s) && key in s.pods
    ensures var d := s.pods[key];
            d.baseAddr + d.Count() + 1 !in d.addressesUsed
  {
    hide Inv;
    PodKeys(s, key);
  }

  lemma MoreInLone(s: Net, key: string, n: nat, r: Option<u32>, s': Net)
    requires Inv(s) && Lone(s, key, n) && n < MAX_IPS_PER_POD - 1
    requires VmCreated(s, key, Nth(n), NO_MAC, r, s')
    ensures Lone(s', key, n + 1)
  {
    hide Inv, Grown, Wrap32, NthName, Addrs, IsStandalone;
    var d := s.pods[key];
    NextIsNew(s, key);
    GrownFields(s, key, Nth(n), NO_MAC, s.nextFd, s');
    UpdateKeys(d.addressesUsed, d.baseAddr + n + 1, Nth(n), s'.pods[key].addressesUsed);
  }

  /** A manager on a standalone node with one pod of `n` workloads. */
  method PodOf(n: nat) returns (m: MRPodLocalNetworkManager, key: string)
    requires 1 <= n <= MAX_IPS_PER_POD - 1
    ensures m.Valid() && IsStandalone(m.State().pool) && key in m.podDevices && m.podDevices[key].Count() == n
  {
    hide Inv, Reachable, PodCreated, VmCreated, FreshBridge, FreshPort, Initial, Lone, NthName, Wrap32;
    Home24();
    var am := new IPv4AddressManager.InitStandaloneAddressSpace([10, 1, 0, 0]);
    m := new MRPodLocalNetworkManager.InitContainerNetworking(am, PUBLIC);
    key := GetNetNs("c", "p");
    FreshFirst(m.State(), key);
    ghost var s := m.State();
    var ok := m.InitPodNetwork("c", "p", Nth(0), Nth(0), NO_MAC);
    FirstPod(s, key, PodName("c", "p"), ok, m.State());
    for i := 1 to n
      invariant m.Valid() && Lone(m.State(), key, i)
    {
      s := m.State();
      FreshInLone(s, key, i);
      var r := m.CreateVMTun("c", "p", Nth(i), NO_MAC);
      MoreInLone(s, key, i, r, m.State());
    }
    LoneCount(m.State(), key, n);
  }

  lemma LoneCount(s: Net, key: string, n: nat)
    requires Lone(s, key, n)
    ensures IsStandalone(s.pool) && key in s.pods && s.pods[key].Count() == n
  {
  }

  /** What workload `a`'s port does with a bare header to `dst`. */
  function Asked(s: Net, key: string, a: u32, dst: u32): Outcome
    requires key in s.pods && a in s.pods[key].addressesUsed
  {
    AtPort(s.k, s.pods[key].addressesUsed[a].index, Probe(a, dst))
  }

  /** The second workload of a pod has an even address, and its requests do not reach everyone. */
  lemma EvenSender(s: Net, key: string)
    requires Reachable(s) && IsStandalone(s.pool) && key in s.pods && s.pods[key].Count() >= 2
    ensures s.pods[key].baseAddr + 2 in s.pods[key].addressesUsed
    ensures var d := s.pods[key];
            !ReachesAll(Probe(d.baseAddr + 2, s.gateway), d.baseAddr, d, Asked(s, key, d.baseAddr + 2, s.gateway))
  {
    hide Inv, Reachable, ReachesAll, AtPort, Probe;
    ReachableInv(s);
    PodKeys(s, key);
    var d := s.pods[key];
    PodBase(s, key);
    Rest2(d.baseAddr + 2, 4 * (d.baseAddr / 8) + 1, 0);
    ProbeFields(d.baseAddr + 2, s.gateway);
    StandaloneLocalhost(s, key, d.baseAddr + 2, Probe(d.baseAddr + 2, s.gateway));
  }

  /** Outside the /24 of the gateway not even a request from the first workload of a pod, which has an
      odd address, reaches anyone. */
  lemma FarSender(s: Net, key: string)
    requires Reachable(s) && key in s.pods && s.pods[key].baseAddr / 0x100 != s.gateway / 0x100
    ensures s.pods[key].baseAddr + 1 in s.pods[key].addressesUsed && (s.pods[key].baseAddr + 1) % 2 == 1
    ensures var d := s.pods[key];
            Asked(s, key, d.baseAddr + 1, s.gateway) == Pass(Probe(d.baseAddr + 1, s.gateway))
  {
    hide Inv, Reachable, AtPort, Probe, Block, Loc;
    ReachableInv(s);
    var a := s.pods[key].baseAddr + 1;
    FirstWorkload(s, key);
    OddFirst(s, key);
    WorkloadNotBase(s, key, a);
    SamePrefix(a);
    ProbeFields(a, s.gateway);
    FarRequest(s, key, a, Probe(a, s.gateway));
  }

  /** In a pod of five, neither requests nor replies of the first workload reach everyone. */
  lemma FiveWorkloads(s: Net, key: string)
    requires Reachable(s) && IsStandalone(s.pool) && key in s.pods && s.pods[key].Count() == 5
    ensures s.pods[key].baseAddr + 1 in s.pods[key].addressesUsed
    ensures var d := s.pods[key];
            var a := d.baseAddr + 1;
            !ReachesAll(Probe(a, s.gateway), d.baseAddr, d, Asked(s, key, a, s.gateway))
            && !ReachesAll(Probe(a, d.baseAddr), s.gateway, d, Asked(s, key, a, d.baseAddr))
  {
    hide Inv, Reachable, ReachesAll, AtPort, Probe;
    ReachableInv(s);
    PodKeys(s, key);
    var d := s.pods[key];
    ProbeFields(d.baseAddr + 1, s.gateway);
    ProbeFields(d.baseAddr + 1, d.baseAddr);
    StandaloneLocalhost(s, key, d.baseAddr + 1, Probe(d.baseAddr + 1, s.gateway));
    StandaloneLocalhost(s, key, d.baseAddr + 1, Probe(d.baseAddr + 1, d.baseAddr));
  }

  /** Both states exist. */
  method LocalhostLimits() returns (m: MRPodLocalNetworkManager, key: string, m': MRPodLocalNetworkManager,
                                    key': string)
    ensures key in m.podDevices && m.podDevices[key].baseAddr + 2 in m.podDevices[key].addressesUsed
    ensures var s, d := m.State(), m.podDevices[key];
            Reachable(s) && d.Count() <= 4
            && !ReachesAll(Probe(d.baseAddr + 2, s.gateway), d.baseAddr, d, Asked(s, key, d.baseAddr + 2, s.gateway))
    ensures key' in m'.podDevices && m'.podDevices[key'].baseAddr + 1 in m'.podDevices[key'].addressesUsed
    ensures var s, d := m'.State(), m'.podDevices[key'];
            Reachable(s) && (d.baseAddr + 1) % 2 == 1
            && !ReachesAll(Probe(d.baseAddr + 1, s.gateway), d.baseAddr, d, Asked(s, key', d.baseAddr + 1, s.gateway))
  {
    hide Inv, Reachable, ReachesAll, Asked, Probe, IsStandalone;
    m, key := PodOf(2);
    EvenSender(m.State(), key);
    m', key' := PodOf(5);
    FiveWorkloads(m'.State(), key');
    OddFirst(m'.State(), key');
  }

  lemma OddFirst(s: Net, key: string)
    requires Inv(s) && key in s.pods
    ensures (s.pods[key].baseAddr + 1) % 2 == 1
  {
    hide Inv;
    PodBase(s, key);
    Rest2(s.pods[key].baseAddr + 1, 4 * (s.pods[key].baseAddr / 8), 1);
  }
}
