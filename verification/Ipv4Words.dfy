/** IPv4 addresses as octets and as 32-bit words, in the two byte orders the glue uses. */
module Ipv4Words {
  import opened Basics

  type Octets = o: seq<Byte> | |o| == 4 witness [0, 0, 0, 0]

  const WORD: nat := 0x1_0000_0000

  /** `u32::to_le_bytes`: the bytes of the word as they lie in memory. */
  function ToLe(w: nat): Octets
    requires w < WORD
  {
    [w % 256, w / 0x100 % 256, w / 0x1_0000 % 256, w / 0x100_0000]
  }

  /** `u32::from_le_bytes`. */
  function FromLe(o: Octets): (w: nat)
    ensures w < WORD
  {
    var a: int, b: int, c: int, d: int := o[0], o[1], o[2], o[3];
    a + 0x100 * b + 0x1_0000 * c + 0x100_0000 * d
  }

  /** `u32::from_be_bytes`. */
  function FromBe(o: Octets): (w: nat)
    ensures w < WORD
  {
    FromLe([o[3], o[2], o[1], o[0]])
  }

  /** `u32::to_be` on a little-endian machine: the byte swap. */
  function Swap(w: nat): (r: nat)
    requires w < WORD
    ensures r < WORD
  {
    FromBe(ToLe(w))
  }

  lemma ToFromLe(o: Octets)
    ensures ToLe(FromLe(o)) == o
  {
    var a: int, b: int, c: int, d: int := o[0], o[1], o[2], o[3];
    var v := FromLe(o);
    assert v / 0x100 == b + 0x100 * c + 0x1_0000 * d;
    assert v / 0x1_0000 == c + 0x100 * d;
    assert v / 0x100_0000 == d;
  }

  /** The two readings of the same octets are byte swaps of each other, and agree exactly on
      addresses that read the same backwards. */
  lemma ReadingsSwap(o: Octets)
    ensures FromBe(o) == Swap(FromLe(o))
    ensures FromBe(o) == FromLe(o) <==> o[0] == o[3] && o[1] == o[2]
  {
    ToFromLe(o);
    ToFromLe([o[3], o[2], o[1], o[0]]);
  }

  // ----- netmasks -----

  function Pow2(n: nat): (r: nat)
    ensures r >= 1
  {
    if n == 0 then 1 else 2 * Pow2(n - 1)
  }

  /** cidr_to_mask: `(!0u32) << (32 - prefix)`, 0 for prefix 0. */
  function Mask(prefix: nat): (m: nat)
    requires prefix <= 32
    ensures m < WORD
  {
    if prefix == 0 then 0 else Pow2Small(32 - prefix); WORD - Pow2(32 - prefix)
  }

  lemma Pow2Small(n: nat)
    requires n <= 31
    ensures Pow2(n) < WORD
  {
    Pow2Mono(n, 31);
    Pow2At(0);
    assert Pow2(7) == 128;
    Pow2Up(24, 7);
  }

  lemma {:induction false} Pow2Mono(a: nat, b: nat)
    requires a <= b
    ensures Pow2(a) <= Pow2(b)
    decreases b
  {
    if a < b {
      Pow2Mono(a, b - 1);
    }
  }

  lemma {:induction false} Pow2Up(n: nat, k: nat)
    ensures Pow2(n + k) == Pow2(n) * Pow2(k)
  {
    if k > 0 {
      Pow2Up(n, k - 1);
    }
  }

  /** How many of the prefix bits fall into octet `k`. */
  function BitsIn(prefix: nat, k: nat): (n: nat)
    ensures n <= 8
  {
    if prefix <= 8 * k then 0 else if prefix >= 8 * k + 8 then 8 else prefix - 8 * k
  }

  /** An octet with its `n` high bits set. */
  function HighBits(n: nat): Byte
    requires n <= 8
  {
    [0, 128, 192, 224, 240, 248, 252, 254, 255][n]
  }

  /** The word whose memory bytes are the octets of the prefix mask, first octet first. */
  lemma MaskInMemoryOrder(prefix: nat)
    requires prefix <= 32
    ensures ToLe(Swap(Mask(prefix)))
            == [HighBits(BitsIn(prefix, 0)), HighBits(BitsIn(prefix, 1)),
                HighBits(BitsIn(prefix, 2)), HighBits(BitsIn(prefix, 3))]
  {
    var m := Mask(prefix);
    MaskOctets(prefix);
    var o := ToLe(m);
    ToFromLe([o[3], o[2], o[1], o[0]]);
  }

  lemma Pow2At(n: nat)
    requires n <= 8
    ensures n >= 1 ==> 256 - Pow2(8 - n) == HighBits(n) && Pow2(8 - n) <= 128
    ensures Pow2(8) == 256 && Pow2(16) == 0x1_0000 && Pow2(24) == 0x100_0000
  {
    assert Pow2(2) == 4 && Pow2(4) == 16;
    Pow2Up(4, 4);
    Pow2Up(8, 8);
    Pow2Up(16, 8);
    assert Pow2(3) == 8;
    assert Pow2(5) == 32;
    assert Pow2(6) == 64;
    assert Pow2(7) == 128;
  }

  lemma MaskOctets(prefix: nat)
    requires prefix <= 32
    ensures ToLe(Mask(prefix))
            == [HighBits(BitsIn(prefix, 3)), HighBits(BitsIn(prefix, 2)),
                HighBits(BitsIn(prefix, 1)), HighBits(BitsIn(prefix, 0))]
  {
    hide ToLe;
    hide HighBits;
    hide Pow2;
    var h0, h1 := HighBits(BitsIn(prefix, 0)), HighBits(BitsIn(prefix, 1));
    var h2, h3 := HighBits(BitsIn(prefix, 2)), HighBits(BitsIn(prefix, 3));
    HighBitsEnds();
    if prefix > 0 {
      var k := if prefix <= 8 then 0 else if prefix <= 16 then 1 else if prefix <= 24 then 2 else 3;
      var n := prefix - 8 * k;
      Pow2At(n);
      Pow2Up(8 - n, 24 - 8 * k);
      MaskSum(Pow2(8 - n), k);
    }
    assert Mask(prefix) == FromLe([h3, h2, h1, h0]);
    ToFromLe([h3, h2, h1, h0]);
  }

  lemma HighBitsEnds()
    ensures HighBits(0) == 0 && HighBits(8) == 255
  {
  }

  lemma MaskSum(y: nat, k: nat)
    requires 1 <= y <= 128
    ensures k == 0 ==> WORD - y * 0x100_0000 == FromLe([0, 0, 0, 256 - y])
    ensures k == 1 ==> WORD - y * 0x1_0000 == FromLe([0, 0, 256 - y, 255])
    ensures k == 2 ==> WORD - y * 0x100 == FromLe([0, 256 - y, 255, 255])
    ensures k == 3 ==> WORD - y == FromLe([256 - y, 255, 255, 255])
  {
  }
}
