/** The socket buffer a traffic-control program works on, and what it leaves behind. */
module Tc {
  import opened Wrappers
  import opened Words
  import opened Frames
  import opened Checksum

  /** One `bpf_clone_redirect`: a copy of the frame sent out of an interface. */
  datatype Clone = Clone(ifindex: u32, frame: Frame)

  datatype Action = TcActOk | TcActShot | TcActRedirect

  /** What becomes of one frame handed to one program. */
  datatype Outcome =
    | Pass(frame: Frame)                    // TC_ACT_OK: the stack goes on with the frame
    | Drop                                  // TC_ACT_SHOT with nothing sent
    | Split(clones: seq<Clone>)             // TC_ACT_SHOT after sending the clones
    | Redirect(ifindex: u32, sent: Frame)   // TC_ACT_REDIRECT to the ingress of an interface

  /** A frame being worked on in place, the log of clones sent so far, and the target of the last
      `bpf_redirect(ifindex, BPF_F_INGRESS)`. */
  class SkBuff {
    const data: array<byte>
    var log: seq<Clone>
    var redirect: Option<u32>

    constructor (frame: array<byte>)
      ensures data == frame && log == [] && redirect == None
    {
      data, log, redirect := frame, [], None;
    }

    /** The program returned `act`, and that realises `o`. */
    ghost predicate Realises(act: Action, o: Outcome)
      reads this, data
    {
      match o
      case Pass(g) => act == TcActOk && data[..] == g && log == [] && redirect == None
      case Drop => act == TcActShot && log == [] && redirect == None
      case Split(cs) => act == TcActShot && log == cs && redirect == None
      case Redirect(i, g) => act == TcActRedirect && data[..] == g && log == [] && redirect == Some(i)
    }

    method CloneRedirect(ifindex: u32)
      modifies this`log
      ensures log == old(log) + [Clone(ifindex, data[..])]
    {
      log := log + [Clone(ifindex, data[..])];
    }

    method BpfRedirect(ifindex: u32)
      modifies this`redirect
      ensures redirect == Some(ifindex)
    {
      redirect := Some(ifindex);
    }
  }

  /** Stores a register at `off` (`*(__u32 *)p = w`). */
  method StoreLe32(dst: array<byte>, off: nat, w: Word32)
    requires off + 4 <= dst.Length
    modifies dst
    ensures dst[..] == Put(old(dst[..]), off, Le32Bytes(w))
  {
    MemCpy(dst, off, Le32Bytes(w));
  }

  // ---- Rewriting one shared buffer, slot after slot ----

  /** The rewrite one active table slot asks for; without `saddr` the source address stays. */
  datatype Edit = Edit(ifindex: u32, smac: Mac, dmac: Mac, saddr: Option<u32>, daddr: u32)

  function Addressed(f: Frame, e: Edit): (g: Frame)
    requires HasIp(f)
    ensures |g| == |f|
  {
    var g := Put(Put(Put(f, ETH_SOURCE, e.smac), ETH_DEST, e.dmac), IP_DADDR, Be32Bytes(e.daddr));
    if e.saddr.Some? then Put(g, IP_SADDR, Be32Bytes(e.saddr.value)) else g
  }

  function Rewrite(f: Frame, e: Edit): (g: Frame)
    requires HasIp(f)
    ensures |g| == |f|
  {
    Recheck(Addressed(f, e))
  }

  /** The buffer and the clones after the edits were made one after another in the same buffer. */
  function Shared(f: Frame, es: seq<Edit>): (r: (Frame, seq<Clone>))
    requires HasIp(f)
    ensures |r.0| == |f|
  {
    if es == [] then (f, [])
    else
      var (g, cs) := Shared(f, es[..|es| - 1]);
      var e := es[|es| - 1];
      var h := Rewrite(g, e);
      (h, cs + [Clone(e.ifindex, h)])
  }

  /** The buffer and the log are as after making `es`, one after another, on the frame `f`. */
  ghost predicate Ran(skb: SkBuff, f: Frame, es: seq<Edit>)
    reads skb, skb.data
  {
    HasIp(f) && skb.data[..] == Shared(f, es).0 && skb.log == Shared(f, es).1 && skb.redirect == None
  }

  /** Before the first edit. */
  lemma NothingRan(skb: SkBuff, f: Frame)
    requires HasIp(f) && skb.data[..] == f && skb.log == [] && skb.redirect == None
    ensures Ran(skb, f, [])
  {
  }

  lemma RanLog(skb: SkBuff, f: Frame, es: seq<Edit>)
    requires Ran(skb, f, es) && Uniform(es)
    ensures skb.log == Emit(f, es) && skb.redirect == None
  {
    ClonesIndependent(f, es);
  }

  /** Every edit made on the untouched original. */
  function Emit(f: Frame, es: seq<Edit>): (cs: seq<Clone>)
    requires HasIp(f)
    ensures |cs| == |es|
    ensures forall i :: 0 <= i < |es| ==> cs[i] == Clone(es[i].ifindex, Rewrite(f, es[i]))
  {
    seq(|es|, i requires 0 <= i < |es| => Clone(es[i].ifindex, Rewrite(f, es[i])))
  }

  /** All edits set the source address, or none does. */
  ghost predicate Uniform(es: seq<Edit>) {
    forall i, j :: 0 <= i < |es| && 0 <= j < |es| ==> es[i].saddr.Some? == es[j].saddr.Some?
  }

  /** The byte a rewrite leaves at `i`, outside the checksum. */
  function EditByte(f: Frame, e: Edit, i: nat): byte
    requires HasIp(f) && i < |f|
  {
    if i < 6 then e.dmac[i]
    else if i < 12 then e.smac[i - 6]
    else if IP_DADDR <= i < IP_END then Be32Bytes(e.daddr)[i - IP_DADDR]
    else if IP_SADDR <= i < IP_DADDR && e.saddr.Some? then Be32Bytes(e.saddr.value)[i - IP_SADDR]
    else f[i]
  }

  lemma AddressedBytes(f: Frame, e: Edit)
    requires HasIp(f)
    ensures forall i :: 0 <= i < |f| ==> Addressed(f, e)[i] == EditByte(f, e, i)
  {
  }

  lemma RewriteBytes(f: Frame, e: Edit)
    requires HasIp(f)
    ensures forall i :: 0 <= i < |f| && !(IP_CHECK <= i < IP_SADDR) ==> Rewrite(f, e)[i] == EditByte(f, e, i)
  {
    hide Addressed, EditByte;
    AddressedBytes(f, e);
  }

  lemma EditByteAbsorbs(f: Frame, e: Edit, g: Frame, e': Edit, i: nat)
    requires HasIp(f) && HasIp(g) && |g| == |f| && i < |f|
    requires e.saddr.Some? == e'.saddr.Some?
    requires g[i] == EditByte(f, e, i)
    ensures EditByte(g, e', i) == EditByte(f, e', i)
  {
  }

  lemma AddressedAbsorbs(f: Frame, e: Edit, e': Edit, i: nat)
    requires HasIp(f) && e.saddr.Some? == e'.saddr.Some?
    requires i < |f| && !(IP_CHECK <= i < IP_SADDR)
    ensures Addressed(Rewrite(f, e), e')[i] == Addressed(f, e')[i]
  {
    hide Addressed, Rewrite, EditByte;
    RewriteBytes(f, e);
    AddressedBytes(f, e');
    AddressedBytes(Rewrite(f, e), e');
    EditByteAbsorbs(f, e, Rewrite(f, e), e', i);
  }

  /** A later rewrite absorbs an earlier one, checksum included. */
  lemma RewriteAbsorbs(f: Frame, e: Edit, e': Edit)
    requires HasIp(f) && e.saddr.Some? == e'.saddr.Some?
    ensures Rewrite(Rewrite(f, e), e') == Rewrite(f, e')
  {
    hide Addressed, Recheck;
    var g := Rewrite(f, e);
    var x, y := Addressed(g, e'), Addressed(f, e');
    forall i | 0 <= i < |f| && !(IP_CHECK <= i < IP_SADDR)
      ensures x[i] == y[i]
    {
      AddressedAbsorbs(f, e, e', i);
    }
    RecheckAgree(x, y);
  }

  /** The buffer after a run of edits is the original with only the last edit made. */
  lemma {:induction false} SharedBuffer(f: Frame, es: seq<Edit>)
    requires HasIp(f) && Uniform(es)
    ensures Shared(f, es).0 == if es == [] then f else Rewrite(f, es[|es| - 1])
  {
    if |es| > 1 {
      var init := es[..|es| - 1];
      SharedBuffer(f, init);
      RewriteAbsorbs(f, init[|init| - 1], es[|es| - 1]);
    }
  }

  lemma SharedSnoc(f: Frame, es: seq<Edit>, e: Edit)
    requires HasIp(f)
    ensures Shared(f, es + [e]).0 == Rewrite(Shared(f, es).0, e)
    ensures Shared(f, es + [e]).1 == Shared(f, es).1 + [Clone(e.ifindex, Rewrite(Shared(f, es).0, e))]
  {
  }

  lemma EmitSnoc(f: Frame, init: seq<Edit>, e: Edit)
    requires HasIp(f)
    ensures Emit(f, init + [e]) == Emit(f, init) + [Clone(e.ifindex, Rewrite(f, e))]
  {
  }

  /** Clone independence: the clones sent while one buffer is rewritten slot after slot are the
      clones of the untouched original, one per edit, in order. */
  lemma {:induction false} ClonesIndependent(f: Frame, es: seq<Edit>)
    requires HasIp(f) && Uniform(es)
    ensures Shared(f, es).1 == Emit(f, es)
  {
    hide Rewrite;
    if es != [] {
      var init, e := es[..|es| - 1], es[|es| - 1];
      ClonesIndependent(f, init);
      SharedBuffer(f, init);
      SharedBuffer(f, es);
      EmitSnoc(f, init, e);
      assert es == init + [e];
    }
  }

  /** What one rewritten frame looks like: the new addresses are in place and nothing else changed
      but the header checksum. */
  lemma RewriteAddresses(f: Frame, e: Edit, g: Frame)
    requires HasIp(f) && g == Rewrite(f, e)
    ensures SameButHeaders(f, g)
    ensures g[ETH_DEST..ETH_SOURCE] == e.dmac && g[ETH_SOURCE..12] == e.smac
    ensures HasIp(g) && Daddr(g) == e.daddr
    ensures Saddr(g) == if e.saddr.Some? then e.saddr.value else Saddr(f)
  {
    hide Rewrite, Be32Bytes, Be32;
    RewriteBytes(f, e);
    AddressRead(g, IP_DADDR, e.daddr);
    if e.saddr.Some? {
      AddressRead(g, IP_SADDR, e.saddr.value);
    } else {
      assert g[IP_SADDR..IP_DADDR] == f[IP_SADDR..IP_DADDR];
      Be32Agree(f, g, IP_SADDR);
    }
  }

  /** And the header checksum of the rewritten frame verifies. */
  lemma RewriteChecks(f: Frame, e: Edit, g: Frame)
    requires HeaderInFrame(f) && g == Rewrite(f, e)
    ensures HeaderInFrame(g) && ChecksumValid(g)
  {
    hide Addressed, Recheck, ChecksumValid;
    AddressedBytes(f, e);
    assert Addressed(f, e)[ETH_LEN] == f[ETH_LEN];
    RecheckValid(Addressed(f, e), g);
  }

  lemma AddressRead(g: Frame, off: nat, a: u32)
    requires off + 4 <= |g|
    requires g[off..off + 4] == Be32Bytes(a)
    ensures Be32(g, off) == a
  {
    Be32RoundTrip(a);
    var bs := g[off..off + 4];
    assert g[off] == bs[0] && g[off + 1] == bs[1] && g[off + 2] == bs[2] && g[off + 3] == bs[3];
  }

  lemma Be32Agree(f: Frame, g: Frame, off: nat)
    requires off + 4 <= |f| && off + 4 <= |g|
    requires f[off..off + 4] == g[off..off + 4]
    ensures Be32(f, off) == Be32(g, off)
  {
  }
}
