/** Whether the UDP checksum of an encapsulated frame verifies at the receiver. */
module TunnelChecksum {
  import opened Words
  import opened Frames
  import opened Checksum
  import opened Xdp
  import opened Tunnel

  // ---- Reference: section 8.1 of RFC 8200 ----

  function PseudoHeader(src: Ip6, dst: Ip6, len: u16): (h: seq<byte>)
    ensures |h| == 40
  {
    src + dst + Be32Bytes(len) + [0, 0, 0, IPPROTO_UDP]
  }

  function Padded(d: seq<byte>): (r: seq<byte>)
    ensures |r| % 2 == 0 && d <= r
  {
    if |d| % 2 == 0 then d else d + [0]
  }

  /** The sum over pseudo-header, UDP header and data, checksum included. */
  function DatagramSum(src: Ip6, dst: Ip6, d: seq<byte>): u16
    requires |d| < 0x1_0000
  {
    var whole := PseudoHeader(src, dst, |d|) + Padded(d);
    OnesSum(whole, 0, |whole| / 2)
  }

  /** The frame holds the whole datagram that its UDP header declares, header included, the checksum
      is there (zero stands for none, which a receiver discards), and the sum is all ones. */
  ghost predicate UdpVerifies(out: Frame) {
    NEWHLEN <= |out| && UDP_LEN <= Be16(out, UDP_SIZE) <= |out| - UDP && Be16(out, UDP_CHECK) != 0
    && DatagramSum(out[IP6_SADDR..IP6_DADDR], out[IP6_DADDR..UDP], out[UDP..UDP + Be16(out, UDP_SIZE)]) == 0xFFFF
  }

  // ---- Sums of pieces ----

  lemma {:induction false} WordSumSplit(f: seq<byte>, off: nat, i: nat, j: nat)
    ensures WordSum(f, off, i + j) == WordSum(f, off, i) + WordSum(f, off + 2 * i, j)
  {
    if j > 0 {
      WordSumSplit(f, off, i, j - 1);
    }
  }

  lemma {:induction false} WordSumPrefix(a: seq<byte>, b: seq<byte>, off: nat, n: nat)
    requires off + 2 * n <= |a|
    ensures WordSum(a + b, off, n) == WordSum(a, off, n)
  {
    if n > 0 {
      WordSumPrefix(a, b, off, n - 1);
    }
  }

  lemma WordSumAppend(a: seq<byte>, b: seq<byte>, i: nat, j: nat)
    requires |a| == 2 * i
    ensures WordSum(a + b, 0, i + j) == WordSum(a, 0, i) + WordSum(b, 0, j)
  {
    hide WordSum;
    WordSumSplit(a + b, 0, i, j);
    WordSumPrefix(a, b, 0, i);
    WordSumDrop(a + b, |a|, 0, j);
    assert (a + b)[|a|..] == b;
  }

  lemma TwoWords(f: seq<byte>)
    requires |f| == 4
    ensures WordSum(f, 0, 2) == Be16(f, 0) + Be16(f, 2)
  {
  }

  lemma LenBytes(len: u16)
    ensures Be16(Be32Bytes(len), 0) == 0 && Be16(Be32Bytes(len), 2) == len
  {
    assert len / 0x100 % 0x100 == len / 0x100;
  }

  lemma LenWords(len: u16)
    ensures WordSum(Be32Bytes(len), 0, 2) == len
    ensures WordSum([0, 0, 0, IPPROTO_UDP], 0, 2) == 0x11
  {
    hide WordSum, Be32Bytes;
    TwoWords(Be32Bytes(len));
    LenBytes(len);
    TwoWords([0, 0, 0, IPPROTO_UDP]);
  }

  lemma PseudoSum(src: Ip6, dst: Ip6, len: u16)
    ensures WordSum(PseudoHeader(src, dst, len), 0, 20) == PseudoTotal(src, dst, len)
  {
    LenWords(len);
    hide WordSum, Be32Bytes;
    var proto := [0, 0, 0, IPPROTO_UDP];
    WordSumAppend(src + dst + Be32Bytes(len), proto, 18, 2);
    WordSumAppend(src + dst, Be32Bytes(len), 16, 2);
    WordSumAppend(src, dst, 8, 8);
  }

  /** What the program leaves out of the sum: the words past the bound of its loop, and the last
      byte of an odd length. */
  function Unsummed(d: seq<byte>): nat
    requires |d| < 0x1_0000
  {
    var n := CsumWords(|d|);
    WordSum(Padded(d), 2 * n, |Padded(d)| / 2 - n)
  }

  lemma LoopSum(out: Frame, len: u16)
    requires UDP + len <= |out|
    ensures var d := out[UDP..UDP + len];
            WordSum(Padded(d), 0, |Padded(d)| / 2) == WordSum(out, UDP, CsumWords(len)) + Unsummed(d)
  {
    hide WordSum;
    var d := out[UDP..UDP + len];
    var n := CsumWords(len);
    WordSumSplit(Padded(d), 0, n, |Padded(d)| / 2 - n);
    WordSumPrefix(d, if len % 2 == 0 then [] else [0], 0, n);
    assert Padded(d) == d + (if len % 2 == 0 then [] else [0]);
    WordSumPrefix(d, out[UDP + len..], 0, n);
    assert d + out[UDP + len..] == out[UDP..];
    WordSumDrop(out, UDP, 0, n);
  }

  /** Storing the checksum exchanges the old content of the field for the new one in the sum. */
  lemma CheckExchanged(h: Frame, c: u16, n: nat)
    requires NEWHLEN <= |h| && 4 <= n && UDP + 2 * n <= |h|
    ensures WordSum(Put(h, UDP_CHECK, Be16Bytes(c)), UDP, n) == WordSum(h, UDP, n) - Be16(h, UDP_CHECK) + c
  {
    hide WordSum;
    var zero := Put(h, UDP_CHECK, [0, 0]);
    var r := Put(h, UDP_CHECK, Be16Bytes(c));
    assert r[UDP_CHECK] == c / 0x100 && r[UDP_CHECK + 1] == c % 0x100;
    WordSumClear(h, zero, UDP, n, 3);
    WordSumClear(r, zero, UDP, n, 3);
  }

  /** The receiver's sum, when the program has summed `t`, or `t - 0x1_0000` where it has lost a
      carry, and what it left out is `tail`. */
  lemma AllOnes(t: nat, lost: nat, stale: u16, tail: nat)
    requires t > stale && lost <= 1 && t > 0x1_0000 * lost
    ensures Norm(t - stale + (0xFFFF - Norm(t - 0x1_0000 * lost)) + tail) == 0xFFFF
            <==> (tail - stale + lost) % 0xFFFF == 0
  {
    var u := t - 0x1_0000 * lost;
    var k := (u - 1) / 0xFFFF;
    NormRest(u);
    assert u - Norm(u) == 0xFFFF * k;
    var x := t - stale + (0xFFFF - Norm(u)) + tail;
    assert x == 0xFFFF * (k + 1 + lost) + (tail - stale + lost);
    SameRest(tail - stale + lost, k + 1 + lost);
    FullNorm(x);
  }

  lemma SameRest(y: int, k: int)
    ensures (0xFFFF * k + y) % 0xFFFF == y % 0xFFFF
  {
    var q := y / 0xFFFF;
    assert 0xFFFF * k + y == 0xFFFF * (k + q) + y % 0xFFFF;
  }

  lemma FullNorm(x: nat)
    requires x > 0
    ensures Norm(x) == 0xFFFF <==> x % 0xFFFF == 0
  {
    var k, m := (x - 1) / 0xFFFF, (x - 1) % 0xFFFF;
    assert x == 0xFFFF * k + (m + 1);
    NormRest(x);
    SameRest(m + 1, k);
  }

  // ---- The theorem ----

  /** The sum the receiver takes, in terms of the words the program visits. */
  lemma ReceiverTotal(out: Frame, src: Ip6, dst: Ip6, len: u16)
    requires UDP + len <= |out|
    ensures DatagramSum(src, dst, out[UDP..UDP + len]) ==
            Norm(PseudoTotal(src, dst, len) + WordSum(out, UDP, CsumWords(len)) + Unsummed(out[UDP..UDP + len]))
  {
    hide WordSum, OnesSum, Norm, DatagramSum, PseudoTotal, Unsummed, CsumWords, Padded;
    LoopSum(out, len);
    WholeSum(src, dst, out[UDP..UDP + len]);
  }

  lemma WholeSum(src: Ip6, dst: Ip6, d: seq<byte>)
    requires |d| < 0x1_0000
    ensures DatagramSum(src, dst, d)
            == Norm(PseudoTotal(src, dst, |d|) + WordSum(Padded(d), 0, |Padded(d)| / 2))
  {
    hide WordSum, OnesSum, Norm, PseudoHeader, PseudoTotal, Padded;
    var pseudo, q := PseudoHeader(src, dst, |d|), Padded(d);
    PseudoSum(src, dst, |d|);
    WordSumAppend(pseudo, q, 20, |q| / 2);
    OnesSumIsNorm(pseudo + q, 0, 20 + |q| / 2);
  }

  /** The 16-bit length that goes into the outer headers. */
  function OuterSize(oldlen: nat): u16 {
    (oldlen + UDP_LEN) % 0x1_0000
  }

  /** The carry that the program loses: it adds a length beyond the signed 16-bit range as a negative
      number. */
  function Lost(len: u16): (n: nat)
    ensures n <= 1
  {
    if len < 0x8000 then 0 else 1
  }

  lemma LengthAdded(oldlen: nat)
    ensures var len := OuterSize(oldlen);
            U32(Short(oldlen + UDP_LEN)) == len + Lost(len) * 0xFFFF_0000
            && CsumWords(U32(Short(oldlen + UDP_LEN))) == CsumWords(len)
  {
    ShortRest(oldlen + UDP_LEN);
  }

  lemma LostCarry(t: nat, lost: nat)
    requires lost <= 1 && 0x1_0000 * lost <= t < 0x1_0000_0000
    ensures U32(t + lost * 0xFFFF_0000) == t - 0x1_0000 * lost
  {
    U32Rest(t + lost * 0xFFFF_0000);
  }

  /** What the program sums, in unbounded arithmetic. */
  function Summed(h: Frame, e: TunnelInfo, len: u16): nat {
    PseudoTotal(e.nSaddr, e.nDaddr, len) + WordSum(h, UDP, CsumWords(len))
  }

  lemma SummedBounds(h: Frame, e: TunnelInfo, len: u16)
    requires NEWHLEN <= |h| && UDP + 2 * CsumWords(len) <= |h| && Be16(h, UDP_SIZE) == len
    ensures 0x1_0000 * Lost(len) < Summed(h, e, len) < 0x1_0000_0000
    ensures UDP_LEN <= len ==> Summed(h, e, len) > Be16(h, UDP_CHECK)
  {
    hide WordSum;
    if UDP_LEN <= len {
      FourWords(len);
      WordSumAtLeast(h, UDP, CsumWords(len), 2);
      WordSumAtLeast(h, UDP, CsumWords(len), 3);
    }
    assert WordSum(h, UDP, CsumWords(len)) <= 0xFFFF * 1536;
  }

  lemma SizeWritten(g: Frame, e: TunnelInfo, oldlen: nat)
    requires NEWHLEN <= |g|
    ensures var h := BeforeCheck(g, e, oldlen);
            Be16(h, UDP_SIZE) == OuterSize(oldlen) && Be16(h, UDP_CHECK) == Be16(g, UDP_CHECK)
  {
    hide Put, EthHeader, Ip6Header, UdpCsumValue, Be16;
    HeaderFields(g, e, oldlen);
    SameWord(BeforeCheck(g, e, oldlen), WithHeaders(g, e, oldlen), UDP_SIZE);
    SameWord(g, BeforeCheck(g, e, oldlen), UDP_CHECK);
  }

  lemma SameWord(f: Frame, g: Frame, off: nat)
    requires off + 2 <= |f| && |f| == |g| && f[off] == g[off] && f[off + 1] == g[off + 1]
    ensures Be16(f, off) == Be16(g, off)
  {
  }

  /** The checksum the program writes. */
  lemma CheckWritten(g: Frame, e: TunnelInfo, oldlen: nat)
    requires NEWHLEN <= |g| && UDP + 2 * CsumWords(OuterSize(oldlen)) <= |g|
    ensures var len := OuterSize(oldlen);
            var h := BeforeCheck(g, e, oldlen);
            0x1_0000 * Lost(len) < Summed(h, e, len)
            && WithHeaders(g, e, oldlen)
               == Put(h, UDP_CHECK, Be16Bytes(0xFFFF - Norm(Summed(h, e, len) - 0x1_0000 * Lost(len))))
  {
    hide WordSum, Norm, U32, Short, OuterSize, Lost, Put, BeforeCheck, Be16;
    var len, h := OuterSize(oldlen), BeforeCheck(g, e, oldlen);
    SizeWritten(g, e, oldlen);
    SummedBounds(h, e, len);
    LengthAdded(oldlen);
    LostCarry(Summed(h, e, len), Lost(len));
  }

  lemma WordsFit(h: Frame, len: u16)
    requires len <= |h| - UDP
    ensures UDP + 2 * CsumWords(len) <= |h|
  {
  }

  /** What the program sums, read off the buffer before it runs and the entry of the tunnel: the
      pseudo-header, the four words of the UDP header, of which the last is what the buffer held, and
      the words that it visits behind them. */
  function ProgramSum(g: Frame, e: TunnelInfo, len: u16): nat
    requires NEWHLEN <= |g| && UDP_LEN <= len
  {
    PseudoTotal(e.nSaddr, e.nDaddr, len) + 31337 + e.port % 0x1_0000 + len + Be16(g, UDP_CHECK)
    + WordSum(g, NEWHLEN, CsumWords(len) - 4)
  }

  lemma FirstWords(f: Frame, off: nat)
    requires off + 8 <= |f|
    ensures WordSum(f, off, 0) == 0 && WordSum(f, off, 1) == Be16(f, off)
    ensures WordSum(f, off, 2) == Be16(f, off) + Be16(f, off + 2)
    ensures WordSum(f, off, 3) == Be16(f, off) + Be16(f, off + 2) + Be16(f, off + 4)
    ensures WordSum(f, off, 4) == Be16(f, off) + Be16(f, off + 2) + Be16(f, off + 4) + Be16(f, off + 6)
  {
    hide Be16;
    assert WordSum(f, off, 2) == Be16(f, off) + Be16(f, off + 2);
  }

  lemma SummedIsProgramSum(g: Frame, e: TunnelInfo, oldlen: nat)
    requires NEWHLEN <= |g| && UDP_LEN <= OuterSize(oldlen)
    ensures Summed(BeforeCheck(g, e, oldlen), e, OuterSize(oldlen)) == ProgramSum(g, e, OuterSize(oldlen))
  {
    hide WordSum, Be16, CsumWords, OuterSize, PseudoTotal, EthHeader, Ip6Header, UdpHeader, UdpCsumValue;
    var h, n := BeforeCheck(g, e, oldlen), CsumWords(OuterSize(oldlen));
    FourWords(OuterSize(oldlen));
    WordSumSplit(h, UDP, 4, n - 4);
    FirstWords(h, UDP);
    HeaderFields(g, e, oldlen);
    SizeWritten(g, e, oldlen);
    SameWord(h, WithHeaders(g, e, oldlen), UDP);
    SameWord(h, WithHeaders(g, e, oldlen), UDP_DEST);
    WordSumAgree(h, g, NEWHLEN, n - 4);
  }

  /** What the program sums when the 16-bit length has wrapped to less than a UDP header: some of the
      first three words. */
  function ShortSum(e: TunnelInfo, len: u16): nat
    requires len < UDP_LEN
  {
    PseudoTotal(e.nSaddr, e.nDaddr, len)
    + (if len < 2 then 0
       else if len < 4 then 31337
       else if len < 6 then 31337 + e.port % 0x1_0000
       else 31337 + e.port % 0x1_0000 + len)
  }

  lemma SummedIsShortSum(g: Frame, e: TunnelInfo, oldlen: nat)
    requires NEWHLEN <= |g| && OuterSize(oldlen) < UDP_LEN
    ensures Summed(BeforeCheck(g, e, oldlen), e, OuterSize(oldlen)) == ShortSum(e, OuterSize(oldlen))
  {
    hide WordSum, Be16, OuterSize, PseudoTotal, EthHeader, Ip6Header, UdpHeader, UdpCsumValue;
    var h := BeforeCheck(g, e, oldlen);
    FirstWords(h, UDP);
    HeaderFields(g, e, oldlen);
    SizeWritten(g, e, oldlen);
    SameWord(h, WithHeaders(g, e, oldlen), UDP);
    SameWord(h, WithHeaders(g, e, oldlen), UDP_DEST);
  }

  /** What the program sums, less the carry it loses. */
  function KeptSum(g: Frame, e: TunnelInfo, len: u16): int
    requires NEWHLEN <= |g| && UDP_LEN <= len
  {
    ProgramSum(g, e, len) - 0x1_0000 * Lost(len)
  }

  /** The checksum that the program stores: zero if the words that it visits go past the end of data,
      and otherwise the complement of its sum, less the carry it loses. */
  lemma StoredCheck(g: Frame, e: TunnelInfo, oldlen: nat)
    requires NEWHLEN <= |g|
    ensures var len, check := OuterSize(oldlen), Be16(WithHeaders(g, e, oldlen), UDP_CHECK);
            if 54 + 2 * CsumWords(len) > |g| then check == 0
            else if len < UDP_LEN then check == 0xFFFF - Norm(ShortSum(e, len))
            else KeptSum(g, e, len) > 0 && check == 0xFFFF - Norm(KeptSum(g, e, len))
  {
    hide Norm, BeforeCheck, Be16, ProgramSum, ShortSum, Summed, OuterSize, Put, Be16Bytes, CsumWords, WordSum, U32;
    hide Short, PseudoTotal;
    var len, h := OuterSize(oldlen), BeforeCheck(g, e, oldlen);
    if 54 + 2 * CsumWords(len) > |g| {
      LengthAdded(oldlen);
      FieldStored(h, 0);
    } else {
      hide WithHeaders, UdpCsumValue;
      CheckWritten(g, e, oldlen);
      if len < UDP_LEN {
        SummedIsShortSum(g, e, oldlen);
        FieldStored(h, 0xFFFF - Norm(ShortSum(e, len)));
      } else {
        SummedIsProgramSum(g, e, oldlen);
        FieldStored(h, 0xFFFF - Norm(KeptSum(g, e, len)));
      }
    }
  }

  /** Zero, which stands for no checksum, is stored exactly when the sum is a multiple of 65535, the
      lost carry set off. */
  lemma StoredZero(g: Frame, e: TunnelInfo, len: u16)
    requires NEWHLEN <= |g| && UDP_LEN <= len && KeptSum(g, e, len) > 0
    ensures Norm(KeptSum(g, e, len)) == 0xFFFF <==> (ProgramSum(g, e, len) - Lost(len)) % 0xFFFF == 0
  {
    hide Norm, ProgramSum, Lost;
    FullNorm(KeptSum(g, e, len));
    SameRest(KeptSum(g, e, len), Lost(len));
  }

  lemma FieldStored(h: Frame, c: u16)
    requires NEWHLEN <= |h|
    ensures Be16(Put(h, UDP_CHECK, Be16Bytes(c)), UDP_CHECK) == c
  {
    var r := Put(h, UDP_CHECK, Be16Bytes(c));
    assert r[UDP_CHECK] == c / 0x100 && r[UDP_CHECK + 1] == c % 0x100;
  }

  /** Whether the datagram verifies at the receiver. */
  lemma ReceiverSum(g: Frame, e: TunnelInfo, oldlen: nat)
    requires NEWHLEN <= |g| && UDP_LEN <= OuterSize(oldlen) <= |g| - UDP
    ensures var out, len := WithHeaders(g, e, oldlen), OuterSize(oldlen);
            UdpVerifies(out)
            <==> (Unsummed(out[UDP..UDP + len]) - Be16(g, UDP_CHECK) + Lost(len)) % 0xFFFF == 0
                 && (ProgramSum(g, e, len) - Lost(len)) % 0xFFFF != 0
  {
    hide WordSum, OnesSum, Norm, BeforeCheck, WithHeaders, Be16, PseudoTotal, Unsummed, DatagramSum, OuterSize, Lost;
    hide Put, ProgramSum, KeptSum;
    WordsFit(g, OuterSize(oldlen));
    StoredCheck(g, e, oldlen);
    StoredZero(g, e, OuterSize(oldlen));
    var out, len, h := WithHeaders(g, e, oldlen), OuterSize(oldlen), BeforeCheck(g, e, oldlen);
    SizeIs(g, e, oldlen);
    SizeWritten(g, e, oldlen);
    SummedBounds(h, e, len);
    CheckWritten(g, e, oldlen);
    var t := Summed(h, e, len);
    CheckExchanged(h, 0xFFFF - Norm(t - 0x1_0000 * Lost(len)), CsumWords(len));
    ReceiverTotal(out, e.nSaddr, e.nDaddr, len);
    AllOnes(t, Lost(len), Be16(g, UDP_CHECK), Unsummed(out[UDP..UDP + len]));
  }

  lemma SizeIs(g: Frame, e: TunnelInfo, oldlen: nat)
    requires NEWHLEN <= |g|
    ensures var out := WithHeaders(g, e, oldlen);
            |out| == |g| && Be16(out, UDP_SIZE) == OuterSize(oldlen)
            && out[IP6_SADDR..IP6_DADDR] == e.nSaddr && out[IP6_DADDR..UDP] == e.nDaddr
            && out[NEWHLEN..] == g[NEWHLEN..]
  {
    hide Be16, WithHeaders;
    HeaderFields(g, e, oldlen);
  }

  /** What the program leaves out of the sum of a datagram of `len` bytes, read off what follows the
      headers. */
  function LeftOut(payload: seq<byte>, len: u16): nat
    requires UDP_LEN <= len <= |payload| + UDP_LEN
  {
    var n, q := CsumWords(len), Padded(payload[..len - UDP_LEN]);
    WordSum(q, 2 * n - UDP_LEN, (|q| + UDP_LEN) / 2 - n)
  }

  lemma LeftOutIsUnsummed(out: Frame, len: u16)
    requires NEWHLEN <= |out| && UDP_LEN <= len <= |out| - UDP
    ensures Unsummed(out[UDP..UDP + len]) == LeftOut(out[NEWHLEN..], len)
  {
    hide WordSum, CsumWords;
    var d, n := out[UDP..UDP + len], CsumWords(len);
    assert d[UDP_LEN..] == out[NEWHLEN..][..len - UDP_LEN];
    assert Padded(d)[UDP_LEN..] == Padded(d[UDP_LEN..]);
    FourWords(len);
    WordSumDrop(Padded(d), UDP_LEN, 2 * n - UDP_LEN, |Padded(d)| / 2 - n);
  }

  lemma FourWords(len: u16)
    requires UDP_LEN <= len
    ensures 4 <= CsumWords(len) && 2 * CsumWords(len) <= len
  {
  }

  /** The 16-bit length of the datagram that the sender announces for a frame. */
  function Announced(b: Buffer): u16
    requires b.Valid() && UDP <= |b.Frame()|
  {
    OuterSize(Be16(b.Frame(), IP6_PAYLOAD_LEN) + IP6_LEN + ETH_LEN)
  }

  /** Tunnel checksum: whatever the sender emits, the receiver's sum over pseudo-header and datagram
      verifies if and only if the buffer holds the announced datagram, what the program leaves out of
      its sum makes up, modulo 65535, for what the buffer held where the checksum goes, less the carry
      lost for a length beyond the signed 16-bit range, and the program's own sum does not yield the
      checksum zero, which stands for none. All of it can be read off the buffer before the program
      runs. */
  lemma UdpChecksum(b: Buffer, tunnels: map<Ip6, TunnelInfo>, i: u32, out: Frame)
    requires b.Valid()
    ensures Ttr(b, tunnels) == Sent(i, out) ==>
              UDP <= |b.Frame()| && TunnelKey(b.Frame()) in tunnels && NEWHLEN <= |AfterMove(b)|
              && var g, len := AfterMove(b), Announced(b);
                 UdpVerifies(out) <==>
                   UDP_LEN <= len <= |g| - UDP
                   && (LeftOut(g[NEWHLEN..], len) - Be16(g, UDP_CHECK) + Lost(len)) % 0xFFFF == 0
                   && (ProgramSum(g, tunnels[TunnelKey(b.Frame())], len) - Lost(len)) % 0xFFFF != 0
  {
    hide WithHeaders, AfterMove, Unsummed, LeftOut, Ttr, Be16, OuterSize, Lost, DatagramSum, ProgramSum;
    if Ttr(b, tunnels) == Sent(i, out) {
      Emitted(b, tunnels, i, out);
      var g, len := AfterMove(b), Announced(b);
      var e, oldlen := tunnels[TunnelKey(b.Frame())], Be16(b.Frame(), IP6_PAYLOAD_LEN) + IP6_LEN + ETH_LEN;
      SizeIs(g, e, oldlen);
      if UDP_LEN <= len <= |g| - UDP {
        ReceiverSum(g, e, oldlen);
        LeftOutIsUnsummed(out, len);
      }
    }
  }

  /** Given the headroom, for an even length within the bound of the loop, the checksum verifies if and
      only if the headroom held zero (of which one's-complement arithmetic has two) where the checksum
      goes, and the program does not store zero. */
  lemma UdpChecksumEven(b: Buffer, tunnels: map<Ip6, TunnelInfo>, i: u32, out: Frame)
    requires b.Valid() && b.data >= NEWHLEN && UDP <= |b.Frame()|
    ensures var p := Be16(b.Frame(), IP6_PAYLOAD_LEN);
            Ttr(b, tunnels) == Sent(i, out) && p % 2 == 0 && p + NEWHLEN <= 3072 ==>
              UDP_LEN <= Announced(b) && TunnelKey(b.Frame()) in tunnels
              && (UdpVerifies(out) <==>
                    (b.room[b.data - 2..b.data] == [0, 0] || b.room[b.data - 2..b.data] == [0xFF, 0xFF])
                    && ProgramSum(b.room[b.data - NEWHLEN..], tunnels[TunnelKey(b.Frame())], Announced(b))
                       % 0xFFFF != 0)
  {
    hide WithHeaders, UdpVerifies, Ttr, AfterMove, LeftOut, Be16, ProgramSum, Short;
    var p := Be16(b.Frame(), IP6_PAYLOAD_LEN);
    if Ttr(b, tunnels) == Sent(i, out) && p % 2 == 0 && p + NEWHLEN <= 3072 {
      Emitted(b, tunnels, i, out);
      UdpChecksum(b, tunnels, i, out);
      LongEnough(p, |AfterMove(b)|);
      LeftOutEven(AfterMove(b)[NEWHLEN..], Announced(b));
      assert AfterMove(b) == b.room[b.data - NEWHLEN..];
      StaleWord(b.room, b.data);
      TwoZeros(Be16(AfterMove(b), UDP_CHECK));
    }
  }

  lemma StaleWord(room: seq<byte>, data: nat)
    requires NEWHLEN <= data <= |room|
    ensures var c := Be16(room[data - NEWHLEN..], UDP_CHECK);
            (c == 0 <==> room[data - 2..data] == [0, 0]) && (c == 0xFFFF <==> room[data - 2..data] == [0xFF, 0xFF])
  {
    var w := room[data - 2..data];
    assert room[data - NEWHLEN..][UDP_CHECK] == w[0] && room[data - NEWHLEN..][UDP_CHECK + 1] == w[1];
  }

  lemma LeftOutEven(payload: seq<byte>, len: u16)
    requires UDP_LEN <= len <= |payload| + UDP_LEN && len % 2 == 0 && len <= 3072
    ensures LeftOut(payload, len) == 0
  {
  }

  lemma LongEnough(p: u16, n: nat)
    requires p + NEWHLEN < 0x8000 && UDP + Short(p + NEWHLEN) <= n
    ensures OuterSize(p + IP6_LEN + ETH_LEN) == p + NEWHLEN <= n - UDP
  {
  }

  lemma TwoZeros(c: u16)
    ensures (0 - c) % 0xFFFF == 0 <==> c == 0 || c == 0xFFFF
  {
  }
}
