/** The Internet checksum: the accumulate-then-fold form the packet programs run, proved equal to
    one's-complement addition with end-around carry (section 1 of RFC 1071), and the in-place
    header check `ipv4_check`, proved to leave headers whose sum is all ones (section 3.1 of RFC 791).
 */
module Checksum {
  import opened Words
  import opened Frames

  // ---- Reference: one's-complement addition, one word at a time ----

  function OnesAdd(a: u16, b: u16): u16 {
    var s: int := a + b;
    if s < 0x1_0000 then s else s - 0xFFFF
  }

  function OnesSum(f: seq<byte>, off: nat, n: nat): u16
    requires off + 2 * n <= |f|
  {
    if n == 0 then 0 else OnesAdd(OnesSum(f, off, n - 1), Be16(f, off + 2 * n - 2))
  }

  // ---- What the programs compute ----

  /** The plain sum of `n` words; words that do not lie wholly in `f` are skipped. */
  function WordSum(f: seq<byte>, off: nat, n: nat): (s: nat)
    ensures s <= 0xFFFF * n
  {
    if n == 0 then 0
    else WordSum(f, off, n - 1) + (if off + 2 * n <= |f| then Be16(f, off + 2 * n - 2) else 0)
  }

  function FoldOnce(c: nat): nat {
    c % 0x1_0000 + c / 0x1_0000
  }

  function Fold(c: nat, rounds: nat): nat
    decreases rounds, c
  {
    if c / 0x1_0000 != 0 && rounds > 0 then Fold(FoldOnce(c), rounds - 1) else c
  }

  /** What end-around-carry addition makes of `t`: one carry after the other is added at the end. */
  function Norm(t: nat): (r: u16) {
    if t < 0x1_0000 then t else Norm(t - 0x1_0000 + 1)
  }

  lemma {:induction false} NormShift(t: nat, q: nat)
    requires t > 0
    ensures Norm(t + 0xFFFF * q) == Norm(t)
  {
    if q > 0 {
      NormShift(t, q - 1);
      assert t + 0xFFFF * q - 0x1_0000 + 1 == t + 0xFFFF * (q - 1);
    }
  }

  /** The normal form is the representative modulo 65535 that is not zero. */
  lemma NormRest(t: nat)
    requires t > 0
    ensures Norm(t) == (t - 1) % 0xFFFF + 1
  {
    NormShift((t - 1) % 0xFFFF + 1, (t - 1) / 0xFFFF);
  }

  lemma FoldOnceNorm(c: nat)
    ensures Norm(FoldOnce(c)) == Norm(c)
    ensures c < 0x1_0000_0000 ==> FoldOnce(c) < 0x1_FFFF
  {
    var q, r := c / 0x1_0000, c % 0x1_0000;
    if c > 0 {
      NormShift(r + q, q);
      assert c == r + q + 0xFFFF * q;
    }
  }

  /** Folding any 32-bit accumulator ends within two rounds, in the normal form. */
  lemma FoldIsNorm(c: u32, rounds: nat)
    requires rounds >= 2
    ensures Fold(c, rounds) == Fold(c, 2) == Norm(c)
  {
    FoldOnceNorm(c);
    FoldOnceNorm(FoldOnce(c));
    var c1 := FoldOnce(c);
    var c2 := FoldOnce(c1);
    assert c1 >= 0x1_0000 ==> c2 < 0x1_0000;
    assert Fold(c, rounds) == if c < 0x1_0000 then c else Fold(c1, rounds - 1);
    assert Fold(c1, rounds - 1) == if c1 < 0x1_0000 then c1 else Fold(c2, rounds - 2);
    assert Fold(c, 2) == if c < 0x1_0000 then c else Fold(c1, 1);
    assert Fold(c1, 1) == if c1 < 0x1_0000 then c1 else Fold(c2, 0);
    assert c < 0x1_0000 ==> Norm(c) == c;
    assert c1 < 0x1_0000 ==> Norm(c1) == c1;
    assert c2 < 0x1_0000 ==> Norm(c2) == c2;
  }

  lemma OnesAddNorm(s: nat, b: u16)
    ensures OnesAdd(Norm(s), b) == Norm(s + b)
  {
    if s > 0 {
      var k, m := (s - 1) / 0xFFFF, (s - 1) % 0xFFFF;
      NormRest(s);
      assert s + b == (m + 1 + b) + 0xFFFF * k;
      NormShift(m + 1 + b, k);
      if m + 1 + b >= 0x1_0000 {
        NormShift(m + 1 + b - 0xFFFF, 1);
      }
    }
  }

  /** Summing first and folding afterwards is one's-complement addition. */
  lemma {:induction false} OnesSumIsNorm(f: seq<byte>, off: nat, n: nat)
    requires off + 2 * n <= |f|
    ensures OnesSum(f, off, n) == Norm(WordSum(f, off, n))
  {
    if n > 0 {
      OnesSumIsNorm(f, off, n - 1);
      OnesAddNorm(WordSum(f, off, n - 1), Be16(f, off + 2 * n - 2));
    }
  }

  lemma {:induction false} WordSumAgree(f: seq<byte>, g: seq<byte>, off: nat, n: nat)
    requires |f| == |g|
    requires forall i :: off <= i < off + 2 * n && i < |f| ==> f[i] == g[i]
    ensures WordSum(f, off, n) == WordSum(g, off, n)
  {
    if n > 0 {
      WordSumAgree(f, g, off, n - 1);
    }
  }

  /** The words that do not lie wholly in the frame add nothing. */
  lemma {:induction false} WordsPastEnd(f: seq<byte>, off: nat, n: nat, m: nat)
    requires m <= n && off + 2 * m + 2 > |f|
    ensures WordSum(f, off, n) == WordSum(f, off, m)
  {
    if m < n {
      WordsPastEnd(f, off, n - 1, m);
    }
  }

  /** `g` is `f` with the word at `at` cleared. */
  ghost predicate Cleared(f: seq<byte>, g: seq<byte>, at: nat) {
    |f| == |g| && at + 2 <= |f| && g[at] == g[at + 1] == 0
    && forall i :: 0 <= i < |f| && i != at && i != at + 1 ==> f[i] == g[i]
  }

  /** Clearing a word takes exactly that word out of the sum. */
  lemma {:induction false} WordSumClear(f: seq<byte>, g: seq<byte>, off: nat, n: nat, w: nat)
    requires off + 2 * n <= |f| && w < n && Cleared(f, g, off + 2 * w)
    ensures WordSum(f, off, n) == WordSum(g, off, n) + Be16(f, off + 2 * w)
  {
    if w == n - 1 {
      WordSumAgree(f, g, off, n - 1);
    } else {
      WordSumClear(f, g, off, n - 1, w);
      assert f[off + 2 * n - 2] == g[off + 2 * n - 2] && f[off + 2 * n - 1] == g[off + 2 * n - 1];
    }
  }

  lemma {:induction false} WordSumAtLeast(f: seq<byte>, off: nat, n: nat, w: nat)
    requires off + 2 * n <= |f| && w < n
    ensures WordSum(f, off, n) >= Be16(f, off + 2 * w)
  {
    if w < n - 1 {
      WordSumAtLeast(f, off, n - 1, w);
    }
  }

  // ---- The header check ----

  /** How many whole words the bounded summing loop visits. */
  function LoopWords(len: u16): nat {
    if len / 2 < 30 then len / 2 else 30
  }

  /** The value of `ipv4_check` on a header at `p` whose check field is already cleared. */
  function CheckValue(f: Frame, p: nat, len: u16): u16 {
    var n := LoopWords(len);
    if len > 2 * n then
      if p + 2 * n + 1 > |f| then 0
      else 0xFFFF - Fold(WordSum(f, p, n) + f[p + 2 * n], 16) % 0x1_0000
    else 0xFFFF - Fold(WordSum(f, p, n), 16) % 0x1_0000
  }

  /** The frame after `iph->check = bpf_htons(ipv4_check(iph, iph->ihl * 4, data_end))`. */
  function Recheck(f: Frame): (g: Frame)
    requires HasIp(f)
    ensures |g| == |f|
  {
    Put(f, IP_CHECK, Be16Bytes(CheckValue(Put(f, IP_CHECK, [0, 0]), ETH_LEN, 4 * Ihl(f))))
  }

  ghost predicate ChecksumValid(f: Frame)
    requires HeaderInFrame(f)
  {
    OnesSum(f, ETH_LEN, 2 * Ihl(f)) == 0xFFFF
  }

  /** Adding the complement of a folded sum gives all ones. */
  lemma ComplementSum(total: nat)
    requires total > 0
    ensures Norm(total + (0xFFFF - Norm(total))) == 0xFFFF
  {
    var k, m := (total - 1) / 0xFFFF, (total - 1) % 0xFFFF;
    NormRest(total);
    assert total + (0xFFFF - Norm(total)) == 0xFFFF + 0xFFFF * k;
    NormShift(0xFFFF, k);
  }

  lemma CheckValueIsComplement(z: Frame, p: nat, len: u16)
    requires len <= 60 && len % 2 == 0
    ensures CheckValue(z, p, len) == 0xFFFF - Norm(WordSum(z, p, len / 2))
  {
    hide Fold, Norm, WordSum;
    FoldIsNorm(WordSum(z, p, len / 2), 16);
  }

  lemma CheckField(f: Frame, c: u16)
    requires HasIp(f)
    ensures Be16(Put(f, IP_CHECK, Be16Bytes(c)), IP_CHECK) == c
    ensures Cleared(Put(f, IP_CHECK, Be16Bytes(c)), Put(f, IP_CHECK, [0, 0]), IP_CHECK)
  {
  }

  /** The plain sum of the header with its check field taken as zero. */
  function HeaderTotal(f: Frame): nat
    requires HasIp(f)
  {
    WordSum(Put(f, IP_CHECK, [0, 0]), ETH_LEN, 2 * Ihl(f))
  }

  lemma SumWithCheck(f: Frame, g: Frame, c: u16, n: nat)
    requires HasIp(f) && g == Put(f, IP_CHECK, Be16Bytes(c))
    requires 6 <= n && ETH_LEN + 2 * n <= |f|
    ensures OnesSum(g, ETH_LEN, n) == Norm(WordSum(Put(f, IP_CHECK, [0, 0]), ETH_LEN, n) + c)
  {
    CheckField(f, c);
    WordSumClear(g, Put(f, IP_CHECK, [0, 0]), ETH_LEN, n, 5);
    OnesSumIsNorm(g, ETH_LEN, n);
  }

  lemma StoredCheckSum(f: Frame, g: Frame, c: u16)
    requires HeaderInFrame(f) && g == Put(f, IP_CHECK, Be16Bytes(c))
    requires Norm(HeaderTotal(f) + c) == 0xFFFF
    ensures HeaderInFrame(g) && ChecksumValid(g)
  {
    hide OnesSum, WordSum, Norm;
    assert g[ETH_LEN] == f[ETH_LEN];
    SumWithCheck(f, g, c, 2 * Ihl(f));
  }

  lemma HeaderTotalPositive(f: Frame)
    requires HeaderInFrame(f)
    ensures HeaderTotal(f) > 0
  {
    var z := Put(f, IP_CHECK, [0, 0]);
    WordSumAtLeast(z, ETH_LEN, 2 * Ihl(f), 0);
    assert z[ETH_LEN] == f[ETH_LEN] > 0;
    assert Be16(z, ETH_LEN) > 0;
  }

  lemma RecheckStores(f: Frame)
    requires HasIp(f)
    ensures Recheck(f) == Put(f, IP_CHECK, Be16Bytes(0xFFFF - Norm(HeaderTotal(f))))
  {
    hide WordSum, CheckValue, Norm;
    var n := Ihl(f);
    assert 4 * n / 2 == 2 * n;
    CheckValueIsComplement(Put(f, IP_CHECK, [0, 0]), ETH_LEN, 4 * n);
  }

  /** Every recomputed header verifies. */
  lemma RecheckValid(f: Frame, g: Frame)
    requires HeaderInFrame(f) && g == Recheck(f)
    ensures HeaderInFrame(g) && ChecksumValid(g)
  {
    hide Recheck, HeaderTotal, Norm;
    var c := 0xFFFF - Norm(HeaderTotal(f));
    RecheckStores(f);
    HeaderTotalPositive(f);
    ComplementSum(HeaderTotal(f));
    StoredCheckSum(f, g, c);
  }

  /** The recomputed check depends on nothing but the bytes outside the check field. */
  lemma RecheckAgree(f: Frame, g: Frame)
    requires HasIp(f) && |f| == |g|
    requires forall i :: 0 <= i < |f| && !(IP_CHECK <= i < IP_CHECK + 2) ==> f[i] == g[i]
    ensures Recheck(f) == Recheck(g)
  {
    assert Put(f, IP_CHECK, [0, 0]) == Put(g, IP_CHECK, [0, 0]);
  }

  /** The summing loop of `ipv4_check`. The type of `csum` makes the verifier show that the
      32-bit accumulator never overflows. */
  method SumHeader(pkt: array<byte>, p: nat, hlen: u16) returns (csum: u32, packet: nat, len: u16)
    requires p + 20 <= pkt.Length
    ensures csum == WordSum(pkt[..], p, LoopWords(hlen)) && csum <= 0xFFFF * 30
    ensures packet == p + 2 * LoopWords(hlen) && len == hlen - 2 * LoopWords(hlen)
  {
    csum, packet, len := 0, p, hlen;
    var i := 0;
    ghost var n := 0;
    while i < 60 && len > 1
      invariant i == 2 * n && n <= 30 && n <= hlen / 2
      invariant packet == p + 2 * n && len == hlen - 2 * n
      invariant csum == WordSum(pkt[..], p, n) && csum <= 0xFFFF * n
    {
      if packet + 2 <= pkt.Length {
        assert Be16(pkt[..], packet) == Pair(pkt[packet], pkt[packet + 1]);
        csum := csum + Pair(pkt[packet], pkt[packet + 1]);
      }
      n := n + 1;
      packet := packet + 2;
      len := len - 2;
      i := i + 2;
    }
  }

  method FoldLoop(total: u32) returns (csum: u32)
    ensures csum == Fold(total, 16)
  {
    csum := total;
    var i := 0;
    while csum / 0x1_0000 != 0 && i < 16
      invariant 0 <= i <= 16
      invariant Fold(csum, 16 - i) == Fold(total, 16)
    {
      csum := csum % 0x1_0000 + csum / 0x1_0000;
      i := i + 1;
    }
  }

  /** `ipv4_check`: clears the check field, sums the header and returns the folded complement. */
  method Ipv4Check(pkt: array<byte>, p: nat, hlen: u16) returns (checksum: u16)
    requires p + 20 <= pkt.Length
    modifies pkt
    ensures pkt[..] == Put(old(pkt[..]), p + 10, [0, 0])
    ensures checksum == CheckValue(pkt[..], p, hlen)
  {
    pkt[p + 10], pkt[p + 11] := 0, 0;
    assert pkt[..] == Put(old(pkt[..]), p + 10, [0, 0]);
    var csum: u32, packet: nat, len: u16 := SumHeader(pkt, p, hlen);
    if len > 0 {
      if packet + 1 > pkt.Length {
        return 0;
      }
      csum := csum + pkt[packet];
    }
    csum := FoldLoop(csum);
    checksum := 0xFFFF - csum % 0x1_0000;
  }

  /** `iph->check = bpf_htons(ipv4_check(iph, iph->ihl * 4, data_end))` for a header at offset 14. */
  method StoreCheck(pkt: array<byte>)
    requires HasIp(pkt[..])
    modifies pkt
    ensures pkt[..] == Recheck(old(pkt[..]))
  {
    var check := Ipv4Check(pkt, ETH_LEN, pkt[ETH_LEN] % 16 * 4);
    MemCpy(pkt, IP_CHECK, Be16Bytes(check));
    assert pkt[..] == Recheck(old(pkt[..]));
  }
}
