/** Cursor-based header parsing (`parsing_helpers.h`). */
module Parsing {
  import opened Words
  import opened Frames

  const ETH_P_8021Q: u16 := 0x8100
  const ETH_P_8021AD: u16 := 0x88A8
  const VLAN_LEN: nat := 4
  const VLAN_MAX_DEPTH: nat := 2
  const VLAN_VID_MASK: nat := 0x0FFF
  const IPHDR_LEN: nat := 20
  const TCPHDR_LEN: nat := 20
  const UDPHDR_LEN: nat := 8

  /** A 16-bit load on the little-endian host: the types below are compared and returned in this
      form, the bytes of the packet in the order of the network. */
  function Le16(mem: seq<byte>, off: nat): u16
    requires off + 2 <= |mem|
  {
    Pair(mem[off + 1], mem[off])
  }

  function Htons(x: u16): u16 {
    Pair(x % 0x100, x / 0x100)
  }

  predicate ProtoIsVlan(proto: u16) {
    proto == Htons(ETH_P_8021Q) || proto == Htons(ETH_P_8021AD)
  }

  /** The outcome of one parser: the value it returns, where the header lies, and the cursor. */
  datatype Parsed = Parsed(ret: int, hdr: nat, pos: nat)
  {
    predicate Ok() {
      ret != -1
    }
  }

  // ---- The parsers as functions of the memory up to `data_end` ----

  /** Skips at most `rounds` tags from `vlh` on, the type before it being `proto`. */
  function SkipVlans(mem: seq<byte>, vlh: nat, proto: u16, rounds: nat): (nat, u16)
    decreases rounds
  {
    if rounds == 0 || !ProtoIsVlan(proto) || vlh + VLAN_LEN > |mem| then (vlh, proto)
    else SkipVlans(mem, vlh + VLAN_LEN, Le16(mem, vlh + 2), rounds - 1)
  }

  function EthVlan(mem: seq<byte>, pos: nat): Parsed {
    if pos + ETH_LEN > |mem| then Parsed(-1, 0, pos)
    else
      var (end, proto) := SkipVlans(mem, pos + ETH_LEN, Le16(mem, pos + 12), VLAN_MAX_DEPTH);
      Parsed(proto, pos, end)
  }

  function Ip(mem: seq<byte>, pos: nat): Parsed {
    if pos + IPHDR_LEN > |mem| then Parsed(-1, 0, pos)
    else
      var hdrsize := mem[pos] % 16 * 4;
      if hdrsize < IPHDR_LEN || pos + hdrsize > |mem| then Parsed(-1, 0, pos)
      else Parsed(mem[pos + 9], pos, pos + hdrsize)
  }

  function Udp(mem: seq<byte>, pos: nat): Parsed {
    if pos + UDPHDR_LEN > |mem| then Parsed(-1, 0, pos)
    else
      var len := Be16(mem, pos + 4) - UDPHDR_LEN;
      Parsed(if len < 0 then -1 else len, pos, pos + UDPHDR_LEN)
  }

  function Tcp(mem: seq<byte>, pos: nat): Parsed {
    if pos + TCPHDR_LEN > |mem| then Parsed(-1, 0, pos)
    else
      var len := mem[pos + 12] / 16 * 4;
      if len < TCPHDR_LEN || pos + len > |mem| then Parsed(-1, 0, pos) else Parsed(len, pos, pos + len)
  }

  // ---- The parsers themselves ----

  class HdrCursor {
    var pos: nat

    constructor (pos: nat)
      ensures this.pos == pos
    {
      this.pos := pos;
    }
  }

  class CollectVlans {
    var id: seq<u16>

    constructor ()
      ensures id == [0, 0]
    {
      id := [0, 0];
    }
  }

  /** The identifiers that `SkipVlans` passes over, written over the old content `id`. */
  function Collected(mem: seq<byte>, vlh: nat, proto: u16, i: nat, id: seq<u16>): (r: seq<u16>)
    requires |id| == VLAN_MAX_DEPTH
    ensures |r| == VLAN_MAX_DEPTH
    decreases VLAN_MAX_DEPTH - i
  {
    if i >= VLAN_MAX_DEPTH || !ProtoIsVlan(proto) || vlh + VLAN_LEN > |mem| then id
    else Collected(mem, vlh + VLAN_LEN, Le16(mem, vlh + 2), i + 1, id[i := Be16(mem, vlh) % 0x1000])
  }

  lemma {:induction false} VidMask(x: nat, k: nat)
    ensures BitAnd(x, Shl1(k) - 1) == x % Shl1(k)
    decreases k
  {
    hide BitAnd;
    if k == 0 {
      NoBits(x);
    } else {
      VidMask(x / 2, k - 1);
      OneMoreBit(x, Shl1(k - 1));
    }
  }

  lemma NoBits(x: nat)
    ensures BitAnd(x, 0) == 0
  {
  }

  lemma OneMoreBit(x: nat, half: nat)
    requires half > 0 && BitAnd(x / 2, half - 1) == x / 2 % half
    ensures BitAnd(x, 2 * half - 1) == x % (2 * half)
  {
    hide BitAnd;
    AndOdd(x, half - 1);
    HalvedRest(x, half);
    assert 2 * (half - 1) + 1 == 2 * half - 1;
  }

  lemma {:induction false} AndOdd(x: nat, m: nat)
    ensures BitAnd(x, 2 * m + 1) == 2 * BitAnd(x / 2, m) + x % 2
  {
    assert (2 * m + 1) / 2 == m && (2 * m + 1) % 2 == 1;
  }

  lemma HalvedRest(x: nat, half: nat)
    requires half > 0
    ensures x % (2 * half) == 2 * (x / 2 % half) + x % 2
  {
    var q, r := x / 2 / half, x / 2 % half;
    assert x == 2 * (half * q + r) + x % 2;
    assert x == (2 * half) * q + (2 * r + x % 2);
    Rest(2 * half, q, 2 * r + x % 2);
  }

  lemma Rest(m: nat, q: nat, r: nat)
    requires r < m
    ensures (m * q + r) % m == r
  {
    var z := m * q + r;
    var d := q - z / m;
    assert m * d == z % m - r by {
      assert m * d == m * q - m * (z / m);
    }
    Multiple(m, d);
  }

  lemma Multiple(m: nat, d: int)
    ensures d >= 1 ==> m * d >= m
    ensures d <= -1 ==> m * d + m <= 0
  {
  }

  lemma VidMeaning(tci: u16)
    ensures BitAnd(tci, VLAN_VID_MASK) == tci % 0x1000
  {
    assert Shl1(12) == 0x1000;
    VidMask(tci, 12);
  }

  method ParseEthhdrVlan(nh: HdrCursor, mem: seq<byte>, vlans: CollectVlans?) returns (ret: int, eth: nat)
    requires vlans != null ==> |vlans.id| == VLAN_MAX_DEPTH
    modifies nh, vlans
    ensures Parsed(ret, eth, nh.pos) == EthVlan(mem, old(nh.pos))
    ensures vlans != null ==>
              vlans.id == if ret == -1 then old(vlans.id)
                          else Collected(mem, eth + ETH_LEN, Le16(mem, eth + 12), 0, old(vlans.id))
  {
    hide ProtoIsVlan, BitAnd, Le16, Be16;
    if nh.pos + ETH_LEN > |mem| {
      return -1, 0;
    }
    eth := nh.pos;
    nh.pos := nh.pos + ETH_LEN;
    var vlh: nat, proto: u16 := nh.pos, Le16(mem, eth + 12);
    var i: nat := 0;
    while i < VLAN_MAX_DEPTH && ProtoIsVlan(proto) && vlh + VLAN_LEN <= |mem|
      invariant i <= VLAN_MAX_DEPTH
      invariant SkipVlans(mem, vlh, proto, VLAN_MAX_DEPTH - i)
                == SkipVlans(mem, eth + ETH_LEN, Le16(mem, eth + 12), VLAN_MAX_DEPTH)
      invariant vlans != null ==>
                  |vlans.id| == VLAN_MAX_DEPTH
                  && Collected(mem, vlh, proto, i, vlans.id)
                     == Collected(mem, eth + ETH_LEN, Le16(mem, eth + 12), 0, old(vlans.id))
    {
      proto := Le16(mem, vlh + 2);
      if vlans != null {
        VidMeaning(Be16(mem, vlh));
        vlans.id := vlans.id[i := BitAnd(Be16(mem, vlh), VLAN_VID_MASK)];
      }
      vlh := vlh + VLAN_LEN;
      i := i + 1;
    }
    nh.pos := vlh;
    ret := proto;
  }

  method ParseIphdr(nh: HdrCursor, mem: seq<byte>) returns (ret: int, iph: nat)
    modifies nh
    ensures Parsed(ret, iph, nh.pos) == Ip(mem, old(nh.pos))
  {
    if nh.pos + IPHDR_LEN > |mem| {
      return -1, 0;
    }
    var hdrsize := mem[nh.pos] % 16 * 4;
    if hdrsize < IPHDR_LEN {
      return -1, 0;
    }
    if nh.pos + hdrsize > |mem| {
      return -1, 0;
    }
    iph := nh.pos;
    nh.pos := nh.pos + hdrsize;
    ret := mem[iph + 9];
  }

  method ParseUdphdr(nh: HdrCursor, mem: seq<byte>) returns (ret: int, h: nat)
    modifies nh
    ensures Parsed(ret, h, nh.pos) == Udp(mem, old(nh.pos))
  {
    h := nh.pos;
    if h + UDPHDR_LEN > |mem| {
      return -1, 0;
    }
    nh.pos := h + UDPHDR_LEN;
    var len: int := Be16(mem, h + 4) - UDPHDR_LEN;
    if len < 0 {
      return -1, h;
    }
    ret := len;
  }

  method ParseTcphdr(nh: HdrCursor, mem: seq<byte>) returns (ret: int, h: nat)
    modifies nh
    ensures Parsed(ret, h, nh.pos) == Tcp(mem, old(nh.pos))
  {
    if nh.pos + TCPHDR_LEN > |mem| {
      return -1, 0;
    }
    var len := mem[nh.pos + 12] / 16 * 4;
    if len < TCPHDR_LEN {
      return -1, 0;
    }
    if nh.pos + len > |mem| {
      return -1, 0;
    }
    h := nh.pos;
    nh.pos := h + len;
    ret := len;
  }

  // ---- Cursor safety ----

  datatype Layer = ETH_VLAN | IPV4 | TCP | UDP_LAYER

  function Parse(layer: Layer, mem: seq<byte>, pos: nat): Parsed {
    match layer
    case ETH_VLAN => EthVlan(mem, pos)
    case IPV4 => Ip(mem, pos)
    case TCP => Tcp(mem, pos)
    case UDP_LAYER => Udp(mem, pos)
  }

  /** The length that a header at `pos` declares for itself. */
  function Declared(layer: Layer, mem: seq<byte>, pos: nat): nat
    requires pos + 14 <= |mem| || (layer == UDP_LAYER && pos + 8 <= |mem|)
  {
    match layer
    case ETH_VLAN => ETH_LEN
    case IPV4 => mem[pos] % 16 * 4
    case TCP => mem[pos + 12] / 16 * 4
    case UDP_LAYER => UDPHDR_LEN
  }

  /** A successful step: the header starts at the old cursor, has its minimum size, and lies wholly
      between the old and the new cursor, which is still within the data. The value returned is what
      the header says about its content. */
  ghost predicate StepSafe(layer: Layer, mem: seq<byte>, pos: nat, p: Parsed) {
    p.hdr == pos && pos + UDPHDR_LEN <= p.pos <= |mem| && p.ret >= 0
    && (pos + 14 <= |mem| || (layer == UDP_LAYER && pos + 8 <= |mem|))
    && pos + Declared(layer, mem, pos) <= p.pos
    && (layer != ETH_VLAN ==> p.pos == pos + Declared(layer, mem, pos))
    && match layer
       case ETH_VLAN => p.pos <= pos + ETH_LEN + VLAN_MAX_DEPTH * VLAN_LEN && p.ret == Le16(mem, p.pos - 2)
       case IPV4 => IPHDR_LEN <= p.pos - pos && p.ret == mem[pos + 9]
       case TCP => TCPHDR_LEN <= p.pos - pos && p.ret == p.pos - pos
       case UDP_LAYER => p.ret + UDPHDR_LEN == Be16(mem, pos + 4)
  }

  lemma {:induction false} SkipVlansBounds(mem: seq<byte>, vlh: nat, proto: u16, rounds: nat)
    requires vlh <= |mem|
    ensures vlh <= SkipVlans(mem, vlh, proto, rounds).0 <= |mem|
    ensures SkipVlans(mem, vlh, proto, rounds).0 <= vlh + rounds * VLAN_LEN
    ensures vlh >= 2 && proto == Le16(mem, vlh - 2) ==>
              SkipVlans(mem, vlh, proto, rounds).1 == Le16(mem, SkipVlans(mem, vlh, proto, rounds).0 - 2)
    decreases rounds
  {
    if rounds > 0 && ProtoIsVlan(proto) && vlh + VLAN_LEN <= |mem| {
      SkipVlansBounds(mem, vlh + VLAN_LEN, Le16(mem, vlh + 2), rounds - 1);
    }
  }

  lemma SuccessIsSafe(layer: Layer, mem: seq<byte>, pos: nat)
    requires Parse(layer, mem, pos).Ok()
    ensures StepSafe(layer, mem, pos, Parse(layer, mem, pos))
  {
  }

  /** A UDP header that is there but whose length field is smaller than itself. */
  predicate ShortUdp(layer: Layer, mem: seq<byte>, pos: nat) {
    layer == UDP_LAYER && pos + UDPHDR_LEN <= |mem| && Be16(mem, pos + 4) < UDPHDR_LEN
  }

  /** The smallest header of a layer. */
  function Minimum(layer: Layer): nat {
    match layer
    case ETH_VLAN => ETH_LEN
    case IPV4 => IPHDR_LEN
    case TCP => TCPHDR_LEN
    case UDP_LAYER => UDPHDR_LEN
  }

  /** A step succeeds if and only if the header declares a legal length and lies wholly in the data. */
  lemma SucceedsIff(layer: Layer, mem: seq<byte>, pos: nat)
    ensures Parse(layer, mem, pos).Ok() <==>
            pos + Minimum(layer) <= |mem|
            && Minimum(layer) <= Declared(layer, mem, pos) <= |mem| - pos
            && !ShortUdp(layer, mem, pos)
  {
    if pos + Minimum(layer) <= |mem| {
      var p := Parse(layer, mem, pos);
      if p.Ok() {
        SuccessIsSafe(layer, mem, pos);
      }
    }
  }

  /** A failed step leaves the cursor where it was, if and only if it is not the UDP parser's
      rejection of a length field: that parser has moved the cursor by then. */
  lemma FailureLeavesCursor(layer: Layer, mem: seq<byte>, pos: nat)
    requires !Parse(layer, mem, pos).Ok()
    ensures Parse(layer, mem, pos).pos == pos <==> !ShortUdp(layer, mem, pos)
    ensures Parse(layer, mem, pos).hdr == if ShortUdp(layer, mem, pos) then pos else 0
    ensures pos <= |mem| ==> pos <= Parse(layer, mem, pos).pos <= |mem|
  {
  }

  /** The eight zero bytes on which a failed UDP step moves the cursor to the end of data. */
  lemma CursorMovedOnFailure()
    ensures var p := Parse(UDP_LAYER, [0, 0, 0, 0, 0, 0, 0, 0], 0); !p.Ok() && p.pos == 8
  {
  }

  /** `at` are the cursors of a chain of steps, one parser after the other on the same memory. */
  ghost predicate IsChain(mem: seq<byte>, layers: seq<Layer>, at: seq<nat>) {
    |at| == |layers| + 1 && at[0] <= |mem|
    && forall i :: 0 <= i < |layers| ==> at[i + 1] == Parse(layers[i], mem, at[i]).pos
  }

  ghost predicate AllOk(mem: seq<byte>, layers: seq<Layer>, at: seq<nat>)
    requires |at| == |layers| + 1
  {
    forall i :: 0 <= i < |layers| ==> Parse(layers[i], mem, at[i]).Ok()
  }

  /** The cursor never leaves the data and never goes back, however the steps end. */
  lemma {:induction false} ChainInBounds(mem: seq<byte>, layers: seq<Layer>, at: seq<nat>, i: nat)
    requires IsChain(mem, layers, at) && i <= |layers|
    ensures at[0] <= at[i] <= |mem|
  {
    hide Parse;
    if i > 0 {
      ChainInBounds(mem, layers, at, i - 1);
      StepInBounds(layers[i - 1], mem, at[i - 1]);
    }
  }

  lemma StepInBounds(layer: Layer, mem: seq<byte>, pos: nat)
    requires pos <= |mem|
    ensures pos <= Parse(layer, mem, pos).pos <= |mem|
  {
  }

  /** Cursor safety: in a chain of successful steps every header lies wholly between the cursors
      around it, so that headers of different steps do not overlap, and the chain is no longer than
      the data allows. */
  lemma {:induction false} ChainSafe(mem: seq<byte>, layers: seq<Layer>, at: seq<nat>, i: nat)
    requires IsChain(mem, layers, at) && AllOk(mem, layers, at) && i <= |layers|
    ensures at[0] + UDPHDR_LEN * i <= at[i] <= |mem|
    ensures forall j :: 0 <= j < i ==> StepSafe(layers[j], mem, at[j], Parse(layers[j], mem, at[j]))
    ensures forall j :: 0 <= j <= i ==> at[j] <= at[i]
  {
    hide Parse, StepSafe;
    if i > 0 {
      ChainSafe(mem, layers, at, i - 1);
      SuccessIsSafe(layers[i - 1], mem, at[i - 1]);
      SafeAdvances(layers[i - 1], mem, at[i - 1], Parse(layers[i - 1], mem, at[i - 1]));
    }
  }

  lemma SafeAdvances(layer: Layer, mem: seq<byte>, pos: nat, p: Parsed)
    requires StepSafe(layer, mem, pos, p)
    ensures pos + UDPHDR_LEN <= p.pos <= |mem|
  {
  }

  // ---- Tags ----

  lemma SkipOnce(mem: seq<byte>, vlh: nat, proto: u16, rounds: nat)
    requires rounds > 0 && ProtoIsVlan(proto) && vlh + VLAN_LEN <= |mem|
    ensures SkipVlans(mem, vlh, proto, rounds) == SkipVlans(mem, vlh + VLAN_LEN, Le16(mem, vlh + 2), rounds - 1)
  {
  }

  /** How many tags follow each other from `vlh` on, the type before being `proto`. */
  function TagDepth(mem: seq<byte>, vlh: nat, proto: u16): (n: nat)
    ensures vlh <= |mem| ==> vlh + VLAN_LEN * n <= |mem|
    decreases |mem| - vlh
  {
    if !ProtoIsVlan(proto) || vlh + VLAN_LEN > |mem| then 0
    else 1 + TagDepth(mem, vlh + VLAN_LEN, Le16(mem, vlh + 2))
  }

  /** The two types that mark a tag, 802.1Q and 802.1AD, in the bytes of the packet. */
  predicate TagBytes(mem: seq<byte>, at: nat)
    requires at + 2 <= |mem|
  {
    (mem[at] == 0x81 && mem[at + 1] == 0x00) || (mem[at] == 0x88 && mem[at + 1] == 0xA8)
  }

  lemma TagTypes(mem: seq<byte>, at: nat)
    requires at + 2 <= |mem|
    ensures ProtoIsVlan(Le16(mem, at)) <==> TagBytes(mem, at)
  {
  }

  /** At least `k` tags follow each other if and only if there are `k` pairs of such bytes, four bytes
      apart, with a whole tag behind each. */
  lemma {:induction false} TagDepthMeaning(mem: seq<byte>, vlh: nat, k: nat)
    requires 2 <= vlh <= |mem|
    ensures TagDepth(mem, vlh, Le16(mem, vlh - 2)) >= k <==>
            vlh + 4 * k <= |mem| && forall i :: 0 <= i < k ==> TagBytes(mem, vlh - 2 + 4 * i)
    decreases k
  {
    hide TagBytes, Le16, ProtoIsVlan;
    if k > 0 {
      TagTypes(mem, vlh - 2);
      if TagBytes(mem, vlh - 2) && vlh + VLAN_LEN <= |mem| {
        TagDepthMeaning(mem, vlh + 4, k - 1);
        if vlh + 4 * k <= |mem| {
          TagsFrom(mem, vlh, k);
        }
      } else if vlh + 4 * k <= |mem| {
        assert !TagBytes(mem, vlh - 2 + 4 * 0);
      }
    }
  }

  lemma TagsFrom(mem: seq<byte>, vlh: nat, k: nat)
    requires k > 0 && 2 <= vlh && vlh + 4 * k <= |mem|
    ensures (forall i :: 0 <= i < k ==> TagBytes(mem, vlh - 2 + 4 * i))
            <==> TagBytes(mem, vlh - 2) && forall i :: 0 <= i < k - 1 ==> TagBytes(mem, vlh + 4 - 2 + 4 * i)
  {
    hide TagBytes;
    if TagBytes(mem, vlh - 2) && forall i :: 0 <= i < k - 1 ==> TagBytes(mem, vlh + 4 - 2 + 4 * i) {
      forall i | 0 <= i < k
        ensures TagBytes(mem, vlh - 2 + 4 * i)
      {
        if i > 0 {
          assert TagBytes(mem, vlh + 4 - 2 + 4 * (i - 1));
        }
      }
    }
    if forall i :: 0 <= i < k ==> TagBytes(mem, vlh - 2 + 4 * i) {
      assert TagBytes(mem, vlh - 2 + 4 * 0);
      forall i | 0 <= i < k - 1
        ensures TagBytes(mem, vlh + 4 - 2 + 4 * i)
      {
        assert TagBytes(mem, vlh - 2 + 4 * (i + 1));
      }
    }
  }

  /** The Ethernet step, in the bytes of the packet: it fails without 14 bytes, passes at most two tags, as
      many as there are, and returns the two bytes before its new cursor, the first as the low one. */
  lemma EthVlanMeaning(mem: seq<byte>, pos: nat)
    ensures var p := EthVlan(mem, pos);
            if pos + 14 > |mem| then p == Parsed(-1, 0, pos)
            else
              var tagged := pos + 18 <= |mem| && TagBytes(mem, pos + 12);
              var twice := tagged && pos + 22 <= |mem| && TagBytes(mem, pos + 16);
              p.hdr == pos && p.pos == pos + (if twice then 22 else if tagged then 18 else 14)
              && p.ret == 0x100 * (mem[p.pos - 1] as int) + mem[p.pos - 2]
  {
    hide TagBytes, ProtoIsVlan;
    if pos + 14 <= |mem| {
      TagTypes(mem, pos + 12);
      if pos + 18 <= |mem| {
        TagTypes(mem, pos + 16);
      }
    }
  }

  /** The type after `n` tags. */
  function TypeAfter(mem: seq<byte>, vlh: nat, proto: u16, n: nat): u16
    requires n <= TagDepth(mem, vlh, proto)
    decreases n
  {
    if n == 0 then proto else TypeAfter(mem, vlh + VLAN_LEN, Le16(mem, vlh + 2), n - 1)
  }

  /** The loop skips every tag there is, up to its bound, and reports the type behind the last. */
  lemma {:induction false} SkipVlansMeaning(mem: seq<byte>, vlh: nat, proto: u16, rounds: nat)
    ensures var n := if TagDepth(mem, vlh, proto) < rounds then TagDepth(mem, vlh, proto) else rounds;
            SkipVlans(mem, vlh, proto, rounds) == (vlh + VLAN_LEN * n, TypeAfter(mem, vlh, proto, n))
    decreases rounds
  {
    if rounds > 0 && ProtoIsVlan(proto) && vlh + VLAN_LEN <= |mem| {
      SkipVlansMeaning(mem, vlh + VLAN_LEN, Le16(mem, vlh + 2), rounds - 1);
    }
  }

  /** The tags collected: the identifiers of the tags skipped, in order; the rest of the array stays. */
  lemma {:induction false} CollectedMeaning(mem: seq<byte>, vlh: nat, proto: u16, i: nat, id: seq<u16>, j: nat)
    requires |id| == VLAN_MAX_DEPTH && i <= VLAN_MAX_DEPTH && j < VLAN_MAX_DEPTH
    requires vlh <= |mem|
    ensures Collected(mem, vlh, proto, i, id)[j] ==
            if i <= j < i + TagDepth(mem, vlh, proto) then Be16(mem, vlh + VLAN_LEN * (j - i)) % 0x1000 else id[j]
    decreases VLAN_MAX_DEPTH - i
  {
  }
}
