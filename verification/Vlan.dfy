/** Pushing and popping VLAN tags in place (`rewrite_helpers.h`). */
module Vlan {
  import opened Words
  import opened Frames
  import opened Xdp
  import opened Parsing

  /** The frame with a tag of type 0x8100 between the hardware addresses and the type. */
  function Tagged(f: Frame, tci: u16): Frame
    requires ETH_LEN <= |f|
  {
    f[..12] + Be16Bytes(ETH_P_8021Q) + Be16Bytes(tci) + f[12..]
  }

  /** The frame without its outermost tag. */
  function Untagged(f: Frame): Frame
    requires ETH_LEN + VLAN_LEN <= |f|
  {
    f[..12] + f[16..]
  }

  predicate IsTagged(f: Frame) {
    ETH_LEN + VLAN_LEN <= |f| && ProtoIsVlan(Le16(f, 12))
  }

  /** `vlan_tag_push`, `eth` being the start of the frame. */
  method VlanTagPush(ctx: XdpMd, vlid: int) returns (ret: int)
    requires ctx.Valid() && ETH_LEN <= |ctx.State().Frame()|
    modifies ctx, ctx.room
    ensures ctx.Valid()
    ensures ret == 0 <==> old(ctx.data) >= VLAN_LEN
    ensures ret != 0 ==> ret == -1 && ctx.State() == old(ctx.State())
    ensures ret == 0 ==> ctx.data == old(ctx.data) - VLAN_LEN
                         && ctx.State().Frame() == Tagged(old(ctx.State().Frame()), vlid % 0x1_0000)
  {
    hide Put, Be16Bytes, Tagged, Be16;
    ghost var f := ctx.State().Frame();
    SliceDrop(ctx.room[..], ctx.data, 0, ETH_LEN);
    var ethCpy := ctx.room[ctx.data..ctx.data + ETH_LEN];
    var moved := ctx.AdjustHead(-4);
    if moved != 0 {
      return -1;
    }
    InsertTag(ctx.room, ctx.data, ethCpy, vlid, f);
    ret := 0;
  }

  /** The part of the push after the head was moved. */
  method InsertTag(room: array<byte>, eth: nat, ethCpy: seq<byte>, vlid: int, ghost f: Frame)
    requires eth + ETH_LEN + VLAN_LEN <= room.Length
    requires |room[..][eth..]| == |f| + VLAN_LEN && room[..][eth..][VLAN_LEN..] == f && ethCpy == f[..ETH_LEN]
    modifies room
    ensures room[..][eth..] == Tagged(f, vlid % 0x1_0000)
  {
    hide Put, Be16Bytes, Tagged;
    ghost var g := room[..][eth..];
    WriteAt(room, eth, 0, ethCpy);
    WriteAt(room, eth, ETH_LEN, Be16Bytes(vlid % 0x1_0000));
    PushedType(f, g, vlid % 0x1_0000);
    SliceDrop(room[..], eth, 12, 14);
    WriteAt(room, eth, ETH_LEN + 2, room[eth + 12..eth + 14]);
    WriteAt(room, eth, 12, Be16Bytes(ETH_P_8021Q));
    PushedFrame(f, g, vlid % 0x1_0000);
  }

  /** A copy to the offset `off` of the frame that starts at `base`. */
  method WriteAt(room: array<byte>, base: nat, off: nat, bs: seq<byte>)
    requires base + off + |bs| <= room.Length
    modifies room
    ensures room[..][base..] == Put(old(room[..])[base..], off, bs)
  {
    hide Put;
    PutDrop(room[..], base, off, bs);
    MemCpy(room, base + off, bs);
  }

  lemma PushedType(f: Frame, g: Frame, tci: u16)
    requires ETH_LEN <= |f| && |g| == |f| + VLAN_LEN
    ensures Put(Put(g, 0, f[..ETH_LEN]), ETH_LEN, Be16Bytes(tci))[12..14] == f[12..14]
  {
  }

  lemma PushedFrame(f: Frame, g: Frame, tci: u16)
    requires ETH_LEN <= |f| && |g| == |f| + VLAN_LEN && g[VLAN_LEN..] == f
    ensures Put(Put(Put(Put(g, 0, f[..ETH_LEN]), ETH_LEN, Be16Bytes(tci)), ETH_LEN + 2, f[12..14]), 12,
                Be16Bytes(ETH_P_8021Q))
            == Tagged(f, tci)
  {
  }

  /** `vlan_tag_pop`, `eth` being the start of the frame. */
  method VlanTagPop(ctx: XdpMd) returns (ret: int)
    requires ctx.Valid() && ETH_LEN <= |ctx.State().Frame()|
    modifies ctx, ctx.room
    ensures ctx.Valid()
    ensures ret != -1 <==> IsTagged(old(ctx.State().Frame()))
    ensures ret == -1 ==> ctx.State() == old(ctx.State())
    ensures ret != -1 ==> ret == Be16(old(ctx.State().Frame()), ETH_LEN)
                          && ctx.data == old(ctx.data) + VLAN_LEN
                          && ctx.State().Frame() == Untagged(old(ctx.State().Frame()))
  {
    hide Put, ProtoIsVlan, Untagged;
    var room, eth := ctx.room, ctx.data;
    ghost var f := ctx.State().Frame();
    assert f[12] == room[eth + 12] && f[13] == room[eth + 13];
    if !ProtoIsVlan(Pair(room[eth + 13], room[eth + 12])) {
      return -1;
    }
    var vlh := eth + ETH_LEN;
    if vlh + VLAN_LEN > room.Length {
      return -1;
    }
    assert f[14] == room[vlh] && f[15] == room[vlh + 1];
    var vlid := Pair(room[vlh], room[vlh + 1]);
    var proto := room[vlh + 2..vlh + 4];
    var ethCpy := room[eth..eth + ETH_LEN];
    SliceDrop(room[..], eth, 16, 18);
    SliceDrop(room[..], eth, 0, ETH_LEN);
    var moved := ctx.AdjustHead(VLAN_LEN);
    if moved != 0 {
      return -1;
    }
    assert ctx.State().Frame() == f[VLAN_LEN..];
    PoppedFrame(f, f[VLAN_LEN..]);
    WriteAt(room, ctx.data, 0, ethCpy);
    WriteAt(room, ctx.data, 12, proto);
    ret := vlid;
  }

  lemma PoppedFrame(f: Frame, g: Frame)
    requires ETH_LEN + VLAN_LEN <= |f| && f[VLAN_LEN..] == g
    ensures Put(Put(g, 0, f[..ETH_LEN]), 12, f[16..18]) == Untagged(f)
  {
  }

  // ---- Tags in the bytes of the frame ----

  /** A frame has a tag to pop if and only if its type is one of the two and the tag is there. */
  lemma IsTaggedMeaning(f: Frame)
    ensures IsTagged(f) <==>
            18 <= |f| && ((f[12] == 0x81 && f[13] == 0x00) || (f[12] == 0x88 && f[13] == 0xA8))
  {
    if 18 <= |f| {
      TagTypes(f, 12);
    }
  }

  /** A push writes the bytes 81 00 and the tag behind the hardware addresses. */
  lemma TaggedMeaning(f: Frame, tci: u16)
    requires 14 <= |f|
    ensures var t := Tagged(f, tci);
            t[..12] == f[..12] && t[12] == 0x81 && t[13] == 0x00
            && 0x100 * (t[14] as int) + t[15] == tci && t[16..] == f[12..]
  {
    assert ETH_P_8021Q == 0x8100;
  }

  // ---- Undoing each other ----

  /** Pop undoes push: the frame comes back byte for byte, and the tag is returned. */
  lemma PopUndoesPush(f: Frame, tci: u16)
    requires ETH_LEN <= |f|
    ensures var t := Tagged(f, tci);
            IsTagged(t) && Be16(t, ETH_LEN) == tci && Untagged(t) == f
  {
  }

  /** Push undoes pop if and only if the outer type was 0x8100; a tag of type 0x88A8 comes back as
      one of type 0x8100, and nothing else changes. */
  lemma PushUndoesPop(f: Frame)
    requires IsTagged(f)
    ensures var r := Tagged(Untagged(f), Be16(f, ETH_LEN));
            (r == f <==> Be16(f, 12) == ETH_P_8021Q)
            && r == f[..12] + Be16Bytes(ETH_P_8021Q) + f[14..]
  {
  }

  // ---- Parsing a pushed frame ----

  lemma {:induction false} SkipShifted(f: Frame, t: Frame, vlh: nat, proto: u16, rounds: nat)
    requires |t| == |f| + VLAN_LEN && forall i :: ETH_LEN <= i < |f| ==> t[i + VLAN_LEN] == f[i]
    requires ETH_LEN <= vlh <= |f|
    ensures SkipVlans(t, vlh + VLAN_LEN, proto, rounds) ==
            (SkipVlans(f, vlh, proto, rounds).0 + VLAN_LEN, SkipVlans(f, vlh, proto, rounds).1)
    decreases rounds
  {
    if rounds > 0 && ProtoIsVlan(proto) && vlh + VLAN_LEN <= |f| {
      assert t[vlh + 2 + VLAN_LEN] == f[vlh + 2] && t[vlh + 3 + VLAN_LEN] == f[vlh + 3];
      SkipShifted(f, t, vlh + VLAN_LEN, Le16(f, vlh + 2), rounds - 1);
    }
  }

  lemma TaggedBytes(f: Frame, tci: u16)
    requires ETH_LEN <= |f|
    ensures var t := Tagged(f, tci);
            |t| == |f| + VLAN_LEN && Le16(t, 12) == Htons(ETH_P_8021Q) && Le16(t, 16) == Le16(f, 12)
            && forall i :: 12 <= i < |f| ==> t[i + VLAN_LEN] == f[i]
  {
  }

  /** Parsing a frame after a push finds the same inner type, four bytes further on, if and only if
      the frame had at most one tag before: the parser looks behind two tags. */
  lemma ParseAfterPush(f: Frame, tci: u16)
    requires ETH_LEN <= |f|
    ensures var before, after := EthVlan(f, 0), EthVlan(Tagged(f, tci), 0);
            before.Ok() && after.Ok() && after.hdr == before.hdr == 0
            && (after.ret == before.ret && after.pos == before.pos + VLAN_LEN
                <==> TagDepth(f, ETH_LEN, Le16(f, 12)) <= 1)
  {
    hide Tagged;
    var t, proto := Tagged(f, tci), Le16(f, 12);
    TaggedBytes(f, tci);
    hide SkipVlans, TagDepth, TypeAfter;
    SkipOnce(t, ETH_LEN, Le16(t, 12), 2);
    SkipShifted(f, t, ETH_LEN, proto, 1);
    SkipVlansMeaning(f, ETH_LEN, proto, 1);
    SkipVlansMeaning(f, ETH_LEN, proto, 2);
  }
}
