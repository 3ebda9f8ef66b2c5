/** Machine words, byte order, and what the address masks of the packet programs mean.

    The packet programs load an address in the byte order of the host (little-endian), mask it and
    compare it there; the control plane computes on the same address as a number. A 32-bit word is
    kept as its four bytes, so that the swap, the mask and the comparison act byte by byte as the
    machine's do, and `MaskNet` and `MaskLoc` say what the masks do to the number.
 */
module Words {

  type byte = x: int | 0 <= x < 0x100
  type u16 = x: int | 0 <= x < 0x1_0000
  type u32 = x: int | 0 <= x < 0x1_0000_0000

  /** A 32-bit register, least significant byte first. */
  datatype Word32 = Word32(b0: byte, b1: byte, b2: byte, b3: byte)

  const NET_MASK: Word32 := Word32(0xFF, 0xFF, 0xFF, 0xF8)
  const LOC_MASK: Word32 := Word32(0xFF, 0xFF, 0xFF, 0x01)

  /** The number with the given base-256 digits, most significant first. */
  function Quad(a: int, b: int, c: int, d: int): int {
    0x100_0000 * a + 0x1_0000 * b + 0x100 * c + d
  }

  /** The number with the given two base-256 digits, most significant first. */
  function Pair(a: int, b: int): int {
    0x100 * a + b
  }

  /** The register that holds a number. */
  function Word(x: u32): Word32 {
    Word32(x % 0x100, x / 0x100 % 0x100, x / 0x1_0000 % 0x100, x / 0x100_0000)
  }

  /** The number a register holds. */
  function Value(w: Word32): u32 {
    Quad(w.b3, w.b2, w.b1, w.b0)
  }

  /** Swaps the bytes of a register: `bpf_htonl`, and also `bpf_ntohl`. */
  function Htonl(w: Word32): Word32 {
    Word32(w.b3, w.b2, w.b1, w.b0)
  }

  /** Bitwise conjunction of two naturals. */
  function BitAnd(x: nat, m: nat): (r: nat)
    ensures r <= x && r <= m
  {
    if x == 0 || m == 0 then 0
    else 2 * BitAnd(x / 2, m / 2) + (if x % 2 == 1 && m % 2 == 1 then 1 else 0)
  }

  function And(w: Word32, m: Word32): Word32 {
    Word32(BitAnd(w.b0, m.b0), BitAnd(w.b1, m.b1), BitAnd(w.b2, m.b2), BitAnd(w.b3, m.b3))
  }

  /** A 32-bit load on the little-endian host. */
  function LoadLe32(f: seq<byte>, off: nat): Word32
    requires off + 4 <= |f|
  {
    Word32(f[off], f[off + 1], f[off + 2], f[off + 3])
  }

  /** The bytes a 32-bit store on the little-endian host leaves in memory. */
  function Le32Bytes(w: Word32): (bs: seq<byte>)
    ensures |bs| == 4
  {
    [w.b0, w.b1, w.b2, w.b3]
  }

  /** The number that four bytes in network order stand for. */
  function Be32(f: seq<byte>, off: nat): u32
    requires off + 4 <= |f|
  {
    Quad(f[off], f[off + 1], f[off + 2], f[off + 3])
  }

  function Be32Bytes(x: u32): (bs: seq<byte>)
    ensures |bs| == 4
  {
    [x / 0x100_0000, x / 0x1_0000 % 0x100, x / 0x100 % 0x100, x % 0x100]
  }

  function Be16(f: seq<byte>, off: nat): u16
    requires off + 2 <= |f|
  {
    Pair(f[off], f[off + 1])
  }

  function Be16Bytes(x: u16): (bs: seq<byte>)
    ensures |bs| == 2
  {
    [x / 0x100, x % 0x100]
  }

  // ---- Digits ----

  lemma Digits(a: byte, b: byte, c: byte, d: byte)
    ensures var x := Quad(a, b, c, d);
            0 <= x < 0x1_0000_0000
            && x / 0x100_0000 == a && x / 0x1_0000 % 0x100 == b && x / 0x100 % 0x100 == c && x % 0x100 == d
  {
    var x := Quad(a, b, c, d);
    assert x / 0x100 == Quad(0, a, b, c);
    assert x / 0x1_0000 == Pair(a, b);
    assert Quad(0, a, b, c) % 0x100 == c;
    assert Pair(a, b) % 0x100 == b;
  }

  lemma WordRoundTrip(x: u32)
    ensures Value(Word(x)) == x
  {
    assert x / 0x100 / 0x100 == x / 0x1_0000;
    assert x / 0x1_0000 / 0x100 == x / 0x100_0000;
  }

  lemma ValueRoundTrip(w: Word32)
    ensures Word(Value(w)) == w
  {
    Digits(w.b3, w.b2, w.b1, w.b0);
  }

  lemma WordInjective(x: u32, y: u32)
    ensures Htonl(Word(x)) == Htonl(Word(y)) <==> x == y
  {
    WordRoundTrip(x);
    WordRoundTrip(y);
  }

  /** A little-endian load of bytes in network order is the swapped number. */
  lemma LoadIsHtonl(f: seq<byte>, off: nat)
    requires off + 4 <= |f|
    ensures LoadLe32(f, off) == Htonl(Word(Be32(f, off)))
  {
    ValueRoundTrip(Htonl(LoadLe32(f, off)));
  }

  /** Storing `bpf_htonl(x)` leaves the bytes of `x` in network order. */
  lemma StoreIsNetworkOrder(x: u32)
    ensures Le32Bytes(Htonl(Word(x))) == Be32Bytes(x)
  {
  }

  lemma Be32RoundTrip(x: u32)
    ensures Be32(Be32Bytes(x), 0) == x
  {
    WordRoundTrip(x);
  }

  lemma Be32BytesOf(f: seq<byte>, off: nat)
    requires off + 4 <= |f|
    ensures Be32Bytes(Be32(f, off)) == f[off..off + 4]
  {
    Digits(f[off], f[off + 1], f[off + 2], f[off + 3]);
  }

  // ---- What the two masks of the packet programs mean ----

  /** The base of the 8-address block an address lies in. */
  function Block(a: u32): u32 {
    a - a % 8
  }

  /** The address that agrees with `a` on the first three octets and keeps only bit 0 of the last. */
  function Loc(a: u32): u32 {
    a - a % 0x100 + a % 2
  }

  function Shl1(k: nat): (r: nat)
    ensures r >= 1
  {
    if k == 0 then 1 else 2 * Shl1(k - 1)
  }

  /** A mask of `k` ones keeps every number of at most `k` bits. */
  lemma {:induction false} BitAndOnes(d: nat, k: nat)
    requires d < Shl1(k)
    ensures BitAnd(d, Shl1(k) - 1) == d
    decreases k
  {
    if d > 0 {
      BitAndOnes(d / 2, k - 1);
      var ones := Shl1(k) - 1;
      assert ones / 2 == Shl1(k - 1) - 1 && ones % 2 == 1;
    }
  }

  lemma MaskBytes(d: byte)
    ensures BitAnd(d, 0xFF) == d
    ensures BitAnd(d, 0x01) == d % 2
    ensures BitAnd(d, 0xF8) == d - d % 8
  {
    assert Shl1(8) == 0x100 && Shl1(5) == 0x20;
    BitAndOnes(d, 8);
    assert BitAnd(d / 2, 0) == 0;
    MaskHigh(d);
  }

  lemma MaskHigh(d: byte)
    ensures BitAnd(d, 0xF8) == d - d % 8
  {
    var q := d / 8;
    assert Shl1(5) == 0x20;
    BitAndOnes(q, 5);
    assert d / 2 / 2 == d / 4 && d / 4 / 2 == q;
    AndEven(d / 4, 0x1F);
    AndEven(d / 2, 0x3E);
    AndEven(d, 0x7C);
  }

  lemma {:induction false} AndEven(x: nat, m: nat)
    ensures BitAnd(x, 2 * m) == 2 * BitAnd(x / 2, m)
  {
    assert 2 * m / 2 == m && 2 * m % 2 == 0;
  }

  lemma MaskWord(w: Word32)
    ensures And(w, NET_MASK) == w.(b3 := w.b3 - w.b3 % 8)
    ensures And(w, LOC_MASK) == w.(b3 := w.b3 % 2)
  {
    MaskBytes(w.b0);
    MaskBytes(w.b1);
    MaskBytes(w.b2);
    MaskBytes(w.b3);
  }

  lemma Rest2(a: nat, q: nat, r: nat)
    requires a == 2 * q + r && r < 2
    ensures a / 2 == q && a % 2 == r
  {
  }

  lemma Rest8(a: nat, q: nat, r: nat)
    requires a == 8 * q + r && r < 8
    ensures a / 8 == q && a % 8 == r
  {
  }

  lemma BlockLastOctet(a: u32)
    ensures Block(a) == a - a % 0x100 + (a % 0x100 - a % 0x100 % 8)
  {
    var q, d := a / 0x100, a % 0x100;
    Rest8(a, 32 * q + d / 8, d % 8);
  }

  lemma LocLastOctet(a: u32)
    ensures Loc(a) == a - a % 0x100 + a % 0x100 % 2
  {
    var q, d := a / 0x100, a % 0x100;
    Rest2(a, 128 * q + d / 2, d % 2);
  }

  /** `& 0xF8FFFFFF` on an address in network order clears the low three bits of the address. */
  lemma MaskNet(a: u32)
    ensures And(Htonl(Word(a)), NET_MASK) == Htonl(Word(Block(a)))
  {
    hide And, Block;
    var d := a % 0x100;
    MaskWord(Htonl(Word(a)));
    LastOctet(a, d - d % 8);
    BlockLastOctet(a);
  }

  /** `& 0x01FFFFFF` keeps the first three octets and only bit 0 of the last. */
  lemma MaskLoc(a: u32)
    ensures And(Htonl(Word(a)), LOC_MASK) == Htonl(Word(Loc(a)))
  {
    hide And, Loc;
    var d := a % 0x100;
    MaskWord(Htonl(Word(a)));
    LastOctet(a, d % 2);
    LocLastOctet(a);
  }

  lemma LastOctet(a: u32, e: byte)
    ensures 0 <= a - a % 0x100 + e < 0x1_0000_0000
    ensures Word(a - a % 0x100 + e) == Word(a).(b0 := e)
  {
    var w := Word(a).(b0 := e);
    WordRoundTrip(a);
    assert Value(w) == a - a % 0x100 + e;
    ValueRoundTrip(w);
  }
}
