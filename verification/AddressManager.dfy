/** First-fit allocation of 8-address pod blocks (`pkg/network/IP4.go`). */
module AddressManager {
  import opened Wrappers
  import opened Words

  const MAX_IPS_PER_POD: nat := 8

  // ---- Addresses as byte strings ----

  /** `ip2int`: big-endian, from the last four bytes of the 16-byte form. */
  function Ip2Int(ip: seq<byte>): u32
    requires |ip| >= 4
  {
    if |ip| == 16 then Be32(ip, 12) else Be32(ip, 0)
  }

  function Int2Ip(nn: u32): (ip: seq<byte>)
    ensures |ip| == 4
  {
    Be32Bytes(nn)
  }

  /** The two conversions are inverse, also through the 16-byte form of an IPv4 address. */
  lemma IpRoundTrip(nn: u32, ip: seq<byte>, prefix: seq<byte>)
    requires |ip| == 4 && |prefix| == 12
    ensures Ip2Int(Int2Ip(nn)) == nn
    ensures Int2Ip(Ip2Int(ip)) == ip
    ensures Ip2Int(prefix + ip) == Ip2Int(ip) && Int2Ip(Ip2Int(prefix + ip)) == ip
  {
    Be32RoundTrip(nn);
    Be32BytesOf(ip, 0);
    assert ip[0..4] == ip;
    assert (prefix + ip)[12..16] == ip;
    Be32BytesOf(prefix + ip, 12);
    Be32Agree4(prefix + ip, ip);
  }

  lemma Be32Agree4(long: seq<byte>, ip: seq<byte>)
    requires |long| == 16 && |ip| == 4 && long[12..16] == ip
    ensures Be32(long, 12) == Be32(ip, 0)
  {
  }

  // ---- The pool of blocks ----

  /** The allocator's state: the subnet and the held blocks, each with the name of its pod. */
  datatype Pool = Pool(base: u32, max: u32, used: map<u32, string>)

  /** The search of the subnet does not wrap around in 32 bits. Where the end itself has wrapped, to
      below the base, the subnet has no blocks. */
  predicate Fits(p: Pool) {
    p.base + 8 < 0x1_0000_0000 && p.max + 8 <= 0x1_0000_0000
  }

  /** `ip` is the first address of a block of the subnet that the allocator may hand out. */
  predicate IsBlock(p: Pool, ip: int) {
    p.base + 8 <= ip < p.max && (ip - p.base) % 8 == 0
  }

  /** What every request and every release keeps. */
  ghost predicate Sound(p: Pool) {
    Fits(p) && forall ip :: ip in p.used ==> IsBlock(p, ip)
  }

  /** `namespace + "_" + pod`, the name under which a pod holds its block. */
  function PodName(namespace: string, pod: string): string {
    namespace + "_" + pod
  }

  /** The first free block at or above `ip`. */
  function FirstFit(p: Pool, ip: u32): Option<u32>
    requires Sound(p)
    decreases p.max - ip
  {
    if ip in p.used then FirstFit(p, ip + 8)
    else if ip < p.max then Some(ip)
    else None
  }

  function Request(p: Pool, name: string): (r: (Pool, Option<u32>))
    requires Sound(p)
  {
    match FirstFit(p, p.base + 8)
    case Some(ip) => (p.(used := p.used[ip := name]), Some(ip))
    case None => (p, None)
  }

  /** A release drops one block of the named pod, whichever the iteration over the table saw last,
      and nothing when the pod holds none. */
  ghost predicate Freed(p: Pool, name: string, p': Pool) {
    p' == p.(used := p'.used)
    && if name !in p.used.Values then p'.used == p.used
       else exists ip :: ip in p.used && p.used[ip] == name && p'.used == p.used - {ip}
  }

  lemma {:induction false} FirstFitFrom(p: Pool, ip: u32)
    requires Sound(p)
    requires (ip - p.base) % 8 == 0 && p.base + 8 <= ip < p.max + 8
    ensures FirstFit(p, ip).Some? ==>
              var r := FirstFit(p, ip).value;
              ip <= r && IsBlock(p, r) && r !in p.used
    ensures forall b :: ip <= b && IsBlock(p, b) && (FirstFit(p, ip).Some? ==> b < FirstFit(p, ip).value) ==>
              b in p.used
    decreases p.max - ip
  {
    if ip in p.used {
      FirstFitFrom(p, ip + 8);
    }
  }

  /** First fit: a request returns the lowest free block and fails exactly when every block of the
      subnet is held; a failed request changes nothing, a granted one adds exactly that block. */
  lemma RequestLowest(p: Pool, name: string)
    requires Sound(p)
    ensures var (p', r) := Request(p, name);
            (r == None <==> forall b :: IsBlock(p, b) ==> b in p.used)
            && (r == None ==> p' == p)
            && (r.Some? ==>
                  IsBlock(p, r.value) && r.value !in p.used
                  && (forall b :: IsBlock(p, b) && b < r.value ==> b in p.used)
                  && p'.used == p.used[r.value := name])
    ensures Sound(Request(p, name).0)
  {
    if p.base < p.max {
      FirstFitFrom(p, p.base + 8);
    }
  }

  // ---- Safety over every run ----

  datatype Op = RequestOp(name: string) | FreeOp(name: string)

  ghost predicate Step(p: Pool, op: Op, p': Pool) {
    match op
    case RequestOp(name) => Sound(p) && p' == Request(p, name).0
    case FreeOp(name) => Freed(p, name, p')
  }

  /** `states` is a run of the operations `ops`. */
  ghost predicate IsRun(states: seq<Pool>, ops: seq<Op>) {
    |states| == |ops| + 1
    && forall i :: 0 <= i < |ops| ==> Step(states[i], ops[i], states[i + 1])
  }

  /** The addresses of a block are told apart from those of every other held block, lie inside the
      subnet and are neither the base nor the gateway address of the node. */
  ghost predicate BlocksSafe(p: Pool, size: nat) {
    forall ip :: ip in p.used ==>
      ip % 8 == 0
      && p.base < ip && ip + 8 <= p.base + size
      && !(ip <= p.base + 1 < ip + 8)
      && forall ip' :: ip' in p.used && ip' != ip ==> ip + 8 <= ip' || ip' + 8 <= ip
  }

  lemma {:induction false} RunSound(states: seq<Pool>, ops: seq<Op>)
    requires IsRun(states, ops) && Sound(states[0])
    ensures forall i :: 0 <= i < |states| ==>
              Sound(states[i]) && states[i].base == states[0].base && states[i].max == states[0].max
  {
    if ops != [] {
      var n := |ops| - 1;
      assert IsRun(states[..n + 1], ops[..n]) by {
        forall i | 0 <= i < n
          ensures Step(states[..n + 1][i], ops[..n][i], states[..n + 1][i + 1])
        {
          assert Step(states[i], ops[i], states[i + 1]);
        }
      }
      RunSound(states[..n + 1], ops[..n]);
      assert states[n] == states[..n + 1][n];
      assert Step(states[n], ops[n], states[n + 1]);
      if ops[n].RequestOp? {
        RequestLowest(states[n], ops[n].name);
      }
      forall i | 0 <= i < |states|
        ensures Sound(states[i]) && states[i].base == states[0].base && states[i].max == states[0].max
      {
        assert i <= n ==> states[i] == states[..n + 1][i];
      }
    }
  }

  /** Allocator safety: over every run of requests and releases from an 8-aligned subnet of at
      least `max - base` addresses, rounded up to whole blocks, all held blocks stay apart,
      aligned, inside the subnet, and clear of the base and the gateway. */
  lemma RunSafe(states: seq<Pool>, ops: seq<Op>, size: nat)
    requires IsRun(states, ops)
    requires Fits(states[0]) && states[0].used == map[] && states[0].base % 8 == 0
    requires size % 8 == 0 && states[0].max <= states[0].base + size
    ensures forall i :: 0 <= i < |states| ==> BlocksSafe(states[i], size)
  {
    RunSound(states, ops);
    forall i | 0 <= i < |states|
      ensures BlocksSafe(states[i], size)
    {
      SoundBlocks(states[i], size);
    }
  }

  lemma SoundBlocks(p: Pool, size: nat)
    requires Sound(p) && p.base % 8 == 0 && size % 8 == 0 && p.max <= p.base + size
    ensures BlocksSafe(p, size)
  {
    forall ip | ip in p.used
      ensures ip % 8 == 0 && ip + 8 <= p.base + size
    {
      Aligned(p.base, ip);
      Aligned(p.base, p.base + size);
      Apart8(ip, p.base + size);
    }
    forall ip, ip' | ip in p.used && ip' in p.used && ip' != ip
      ensures ip + 8 <= ip' || ip' + 8 <= ip
    {
      Aligned(p.base, ip);
      Aligned(p.base, ip');
      Apart8(ip, ip');
    }
  }

  lemma Aligned(base: nat, ip: nat)
    requires base % 8 == 0 && base <= ip && (ip - base) % 8 == 0
    ensures ip % 8 == 0
  {
    Rest8(ip, base / 8 + (ip - base) / 8, 0);
  }

  lemma Apart8(a: nat, b: nat)
    requires a % 8 == 0 && b % 8 == 0 && a != b
    ensures a + 8 <= b || b + 8 <= a
  {
    assert a == 8 * (a / 8) && b == 8 * (b / 8);
  }

  /** The blocks of a subnet of `size` addresses are at most `size / 8 - 1`. */
  lemma PoolCapacity(p: Pool, size: nat)
    requires Sound(p) && size % 8 == 0 && p.max <= p.base + size
    ensures |p.used| == 0 || |p.used| <= size / 8 - 1
  {
    var n := size / 8;
    forall ip | ip in p.used
      ensures n > 0 && ip in BlockBases(p.base, n - 1)
    {
      var q: int := (ip - p.base) / 8;
      assert ip == p.base + 8 * q && 1 <= q <= n - 1;
      BlockBaseIn(p.base, n - 1, q);
    }
    if p.used != map[] {
      var ip :| ip in p.used;
      assert p.used.Keys <= BlockBases(p.base, n - 1);
      SubsetSize(p.used.Keys, BlockBases(p.base, n - 1));
    }
  }

  ghost function BlockBases(base: int, n: nat): (s: set<int>)
    ensures |s| <= n
  {
    if n == 0 then {} else BlockBases(base, n - 1) + {base + 8 * n}
  }

  lemma {:induction false} BlockBaseIn(base: int, n: nat, q: nat)
    requires 1 <= q <= n
    ensures base + 8 * q in BlockBases(base, n)
  {
    if q < n {
      BlockBaseIn(base, n - 1, q);
    }
  }

  lemma {:induction false} SubsetSize<T>(a: set<T>, b: set<T>)
    requires a <= b
    ensures |a| <= |b|
    ensures |a| == |b| ==> a == b
  {
    if a != {} {
      var x :| x in a;
      SubsetSize(a - {x}, b - {x});
    }
  }

  // ---- Undo ----

  /** A release takes at most one block away, only ever from the named pod, and takes one whenever
      that pod holds one. */
  lemma FreeOnlyNamed(p: Pool, name: string, p': Pool)
    requires Freed(p, name, p')
    ensures forall ip :: ip in p.used && p.used[ip] != name ==> ip in p'.used && p'.used[ip] == p.used[ip]
    ensures forall ip :: ip in p'.used ==> ip in p.used && p'.used[ip] == p.used[ip]
    ensures |p.used| == |p'.used| + (if name in p.used.Values then 1 else 0)
  {
  }

  /** Requesting a block and releasing it again restores the table of a pod that held nothing, so
      that the next request is given the same block. */
  lemma RequestThenFree(p: Pool, name: string, next: string, p': Pool)
    requires Sound(p) && name !in p.used.Values
    requires Freed(Request(p, name).0, name, p')
    ensures p' == p
    ensures Request(p', next).1 == Request(p, name).1
  {
    RequestLowest(p, name);
    var (q, r) := Request(p, name);
    if r.Some? {
      hide Request, FirstFit, Sound;
      OnlyHolder(p.used, r.value, name, q.used);
      assert q.used[r.value] in q.used.Values;
      var ip :| ip in q.used && q.used[ip] == name && p'.used == q.used - {ip};
      assert p'.used == p.used;
    }
  }

  lemma OnlyHolder(used: map<u32, string>, ip: u32, name: string, used': map<u32, string>)
    requires name !in used.Values && used' == used[ip := name]
    ensures forall b :: b in used' && used'[b] == name ==> b == ip
  {
    forall b | b in used
      ensures used[b] != name
    {
      assert used[b] in used.Values;
    }
  }

  /** Two pods share a name, and with it the right to release each other's block, exactly when
      they are the same pod or the separator can be moved: `a_b`,`c` and `a`,`b_c` share one. */
  lemma NamesShared(ns: string, pod: string, ns': string, pod': string)
    requires |ns| <= |ns'|
    ensures PodName(ns, pod) == PodName(ns', pod') <==>
            (ns == ns' && pod == pod')
            || (|ns| < |ns'| && ns' == ns + "_" + ns'[|ns| + 1..] && pod == ns'[|ns| + 1..] + "_" + pod')
  {
    SeparatorMoves(ns, pod, ns', pod', '_');
  }

  /** Two pairs of strings joined by a separator are the same exactly when they are the same pairs, or
      one begins with the other and the separator. */
  lemma SeparatorMoves(a: string, b: string, a': string, b': string, sep: char)
    requires |a| <= |a'|
    ensures a + [sep] + b == a' + [sep] + b' <==>
            (a == a' && b == b')
            || (|a| < |a'| && a' == a + [sep] + a'[|a| + 1..] && b == a'[|a| + 1..] + [sep] + b')
  {
    var s, s' := a + [sep] + b, a' + [sep] + b';
    assert a == s[..|a|] && s[|a|] == sep && b == s[|a| + 1..];
    assert a' == s'[..|a'|] && s'[|a'|] == sep && b' == s'[|a'| + 1..];
    if |a| < |a'| {
      var t := a'[|a| + 1..];
      assert a' == s'[..|a|] + [s'[|a|]] + t;
      assert s' == s'[..|a|] + [s'[|a|]] + (t + [sep] + b');
      assert s == a + [sep] + b;
    }
  }

  // ---- The address manager ----

  /** The result of 32-bit unsigned arithmetic. */
  function Wrap32(x: int): u32 {
    x % 0x1_0000_0000
  }

  lemma Wrap32Small(x: int)
    requires 0 <= x < 0x1_0000_0000
    ensures Wrap32(x) == x
  {
  }

  /** The search of a subnet of at least eight addresses, at a base divisible by eight below the last
      block of the address space, never wraps; it finds blocks unless the subnet's end has wrapped. */
  lemma AlignedFits(base: u32, hostBits: nat)
    requires base % 8 == 0 && base + 8 < 0x1_0000_0000 && 3 <= hostBits < 32
    ensures Fits(Pool(base, Wrap32(base + Shl1(hostBits)), map[]))
  {
    hide Wrap32, Shl1;
    Shl1Of8(hostBits - 3);
    Wrap32Of8(base / 8 + Shl1(hostBits - 3));
    assert base + Shl1(hostBits) == 8 * (base / 8 + Shl1(hostBits - 3));
    Apart8(Wrap32(base + Shl1(hostBits)), 0x1_0000_0000);
  }

  lemma Wrap32Of8(y: nat)
    ensures Wrap32(8 * y) % 8 == 0
  {
    var q := 8 * y / 0x1_0000_0000;
    Rest8(Wrap32(8 * y), y - 0x2000_0000 * q, 0);
  }

  lemma {:induction false} Shl1Of8(k: nat)
    ensures Shl1(k + 3) == 8 * Shl1(k)
  {
    assert Shl1(k + 1) == 2 * Shl1(k) && Shl1(k + 2) == 2 * Shl1(k + 1);
  }

  class IPv4AddressManager {
    var baseSubnetIP: u32
    var maxSubnetIP: u32
    var subIPsPerPod: nat
    var gatewayIP: u32
    var usedPodAddresses: map<u32, string>

    ghost function State(): Pool
      reads this
    {
      Pool(baseSubnetIP, maxSubnetIP, usedPodAddresses)
    }

    ghost predicate Valid()
      reads this
    {
      Sound(State()) && subIPsPerPod == MAX_IPS_PER_POD && gatewayIP == baseSubnetIP + 1
    }

    /** `InitAddressSpace`, for a mask that leaves `hostBits` bits; sums wrap as 32-bit words do. */
    constructor InitAddressSpace(nodeSubnet: seq<byte>, hostBits: nat)
      requires |nodeSubnet| >= 4 && hostBits < 32
      ensures State() == Pool(Ip2Int(nodeSubnet), Wrap32(Ip2Int(nodeSubnet) + Shl1(hostBits)), map[])
      ensures gatewayIP == Wrap32(Ip2Int(nodeSubnet) + 1)
      ensures Valid() <==> Fits(State())
    {
      var base: int := Ip2Int(nodeSubnet);
      baseSubnetIP := base;
      subIPsPerPod := MAX_IPS_PER_POD;
      maxSubnetIP := Wrap32(base + Shl1(hostBits));
      gatewayIP := Wrap32(base + 1);
      usedPodAddresses := map[];
      new;
      hide Wrap32;
      if base + 1 < 0x1_0000_0000 {
        Wrap32Small(base + 1);
      }
    }

    /** `InitStandaloneAddressSpace`: a /24 whose last address is never the start of a block. */
    constructor InitStandaloneAddressSpace(initBase: seq<byte>)
      requires |initBase| >= 4
      ensures State() == Pool(Ip2Int(initBase), Wrap32(Ip2Int(initBase) + 255), map[])
      ensures gatewayIP == Wrap32(Ip2Int(initBase) + 1)
      ensures Valid() <==> Fits(State())
    {
      var base: int := Ip2Int(initBase);
      baseSubnetIP := base;
      maxSubnetIP := Wrap32(base + 255);
      subIPsPerPod := MAX_IPS_PER_POD;
      gatewayIP := Wrap32(base + 1);
      usedPodAddresses := map[];
      new;
      hide Wrap32;
      if base + 1 < 0x1_0000_0000 {
        Wrap32Small(base + 1);
      }
    }

    /** `RequestPodIP`: the address, or `None` for the out-of-addresses error. */
    method RequestPodIP(namespace: string, pod: string) returns (r: Option<u32>)
      requires Valid()
      modifies this`usedPodAddresses
      ensures Valid()
      ensures (State(), r) == Request(old(State()), PodName(namespace, pod))
    {
      var freeIP: u32 := baseSubnetIP + MAX_IPS_PER_POD;
      var podName := namespace + "_" + pod;
      var taken := freeIP in usedPodAddresses;
      while taken
        invariant taken == (freeIP in usedPodAddresses)
        invariant FirstFit(State(), freeIP) == FirstFit(State(), baseSubnetIP + 8)
        decreases maxSubnetIP - freeIP, taken
      {
        freeIP := freeIP + subIPsPerPod;
        taken := freeIP in usedPodAddresses;
      }
      RequestLowest(State(), podName);
      if freeIP < maxSubnetIP {
        usedPodAddresses := usedPodAddresses[freeIP := podName];
        return Some(freeIP);
      } else {
        return None;
      }
    }

    /** `FreePodIP`: the loop visits the table in an arbitrary order and keeps the last match. */
    method FreePodIP(namespace: string, pod: string)
      requires Valid()
      modifies this`usedPodAddresses
      ensures Valid()
      ensures Freed(old(State()), PodName(namespace, pod), State())
    {
      var foundIp: u32 := 0;
      var podName := namespace + "_" + pod;
      var todo := usedPodAddresses.Keys;
      while todo != {}
        invariant todo <= usedPodAddresses.Keys
        invariant foundIp > 0 ==> foundIp in usedPodAddresses && usedPodAddresses[foundIp] == podName
        invariant foundIp == 0 ==>
          forall ip :: ip in usedPodAddresses && ip !in todo ==> usedPodAddresses[ip] != podName
        decreases |todo|
      {
        var ip :| ip in todo;
        if usedPodAddresses[ip] == podName {
          foundIp := ip;
        }
        todo := todo - {ip};
      }
      if foundIp > 0 {
        usedPodAddresses := usedPodAddresses - {foundIp};
      }
    }

    method GetCNIIfIP() returns (ip: u32)
      ensures ip == gatewayIP
      ensures Valid() ==> ip == baseSubnetIP + 1
    {
      return gatewayIP;
    }
  }
}
