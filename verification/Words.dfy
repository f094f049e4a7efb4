// 64-bit words as the integers 0 .. 2^64-1, their signed reading, their bytes in
// little-endian order, and bitwise AND and XOR.
module Words {
  import opened Common
  import opened Arith

  const TWO64 := 0x1_0000_0000_0000_0000
  const TWO63 := 0x8000_0000_0000_0000

  type word = x: int | 0 <= x < TWO64

  // The value as a word_t (long long int).
  function Signed(x: word): int { if x < TWO63 then x else x - TWO64 }

  function Wrap(x: int): word { x % TWO64 }

  // ---------------------------------------------------------------- bytes of words

  function FromBytes(bs: seq<byte>): int
  {
    if bs == [] then 0 else bs[0] + 256 * FromBytes(bs[1..])
  }

  function ToBytes(x: int, n: nat): (bs: seq<byte>)
    ensures |bs| == n
    decreases n
  {
    if n == 0 then [] else [x % 256] + ToBytes(x / 256, n - 1)
  }

  function Pow256(n: nat): int
  {
    if n == 0 then 1 else 256 * Pow256(n - 1)
  }

  lemma Pow256Of8()
    ensures Pow256(8) == TWO64
  {
    assert Pow256(2) == 0x1_0000 && Pow256(4) == 0x1_0000_0000 && Pow256(6) == 0x1_0000_0000_0000;
  }

  lemma {:induction false} FromBytesRange(bs: seq<byte>)
    ensures 0 <= FromBytes(bs) < Pow256(|bs|)
  {
    if bs != [] { FromBytesRange(bs[1..]); }
  }

  // Writing a word and reading it back.
  lemma {:induction false} FromToBytes(x: int, n: nat)
    requires 0 <= x < Pow256(n)
    ensures FromBytes(ToBytes(x, n)) == x
  {
    if n > 0 {
      assert ToBytes(x, n)[1..] == ToBytes(x / 256, n - 1);
      FromToBytes(x / 256, n - 1);
    }
  }

  // Bytes of any integer read back as its residue.
  lemma {:induction false} FromToResidue(x: int, n: nat)
    ensures Pow256(n) > 0 && FromBytes(ToBytes(x, n)) == x % Pow256(n)
    decreases n
  {
    if n > 0 {
      assert ToBytes(x, n)[1..] == ToBytes(x / 256, n - 1);
      FromToResidue(x / 256, n - 1);
      var p := Pow256(n - 1);
      var y := x / 256;
      Regroup(256, p, y / p, y % p, x % 256);
      Quotient(x, 256);
      Quotient(y, p);
      ModUnique(x, 256 * p, y / p, (y % p) * 256 + x % 256);
    }
  }

  // Reading a word and writing it back.
  lemma {:induction false} ToFromBytes(bs: seq<byte>)
    ensures ToBytes(FromBytes(bs), |bs|) == bs
  {
    if bs != [] {
      ToFromBytes(bs[1..]);
      var y := FromBytes(bs[1..]);
      ModUnique(bs[0] + 256 * y, 256, y, bs[0]);
      assert bs == [bs[0]] + bs[1..];
    }
  }

  // ---------------------------------------------------------------- bitwise

  function AndBits(a: int, b: int, n: nat): (r: int)
    requires 0 <= a && 0 <= b
    ensures 0 <= r
  {
    if n == 0 then 0 else (a % 2) * (b % 2) + 2 * AndBits(a / 2, b / 2, n - 1)
  }

  function XorBits(a: int, b: int, n: nat): (r: int)
    requires 0 <= a && 0 <= b
    ensures 0 <= r
  {
    if n == 0 then 0 else (a % 2 + b % 2) % 2 + 2 * XorBits(a / 2, b / 2, n - 1)
  }

  lemma {:induction false} BitsBound(a: int, b: int, n: nat)
    requires 0 <= a && 0 <= b
    ensures AndBits(a, b, n) < Pow2(n) && XorBits(a, b, n) < Pow2(n)
  {
    if n > 0 { BitsBound(a / 2, b / 2, n - 1); }
  }

  function And(a: word, b: word): word
  {
    BitsBound(a, b, 64);
    TwoTo64();
    AndBits(a, b, 64)
  }

  function Xor(a: word, b: word): word
  {
    BitsBound(a, b, 64);
    TwoTo64();
    XorBits(a, b, 64)
  }

  // Bit i of a number.
  function Bit(x: int, i: nat): (r: int)
    requires 0 <= x
    ensures r == 0 || r == 1
  {
    Pow2Positive(i);
    (x / Pow2(i)) % 2
  }

  // Bit i + 1 of a number is bit i of its half.
  lemma NextBit(x: int, i: nat)
    requires 0 <= x
    ensures Bit(x, i + 1) == Bit(x / 2, i) && Bit(x, 0) == x % 2
  {
    Pow2Positive(i);
    DivOfMod(x, 2, Pow2(i));
  }

  lemma Halves(a: int, b: int, n: nat)
    requires 0 <= a && 0 <= b && n > 0
    ensures XorBits(a, b, n) / 2 == XorBits(a / 2, b / 2, n - 1)
    ensures AndBits(a, b, n) / 2 == AndBits(a / 2, b / 2, n - 1)
    ensures XorBits(a, b, n) % 2 == 1 <==> a % 2 != b % 2
    ensures AndBits(a, b, n) % 2 == 1 <==> a % 2 == 1 && b % 2 == 1
  {
    assert (a % 2) * (b % 2) == if a % 2 == 1 && b % 2 == 1 then 1 else 0;
  }

  lemma {:induction false} BitsAt(a: int, b: int, n: nat, i: nat)
    requires 0 <= a && 0 <= b && i < n
    ensures Bit(XorBits(a, b, n), i) == 1 <==> Bit(a, i) != Bit(b, i)
    ensures Bit(AndBits(a, b, n), i) == 1 <==> Bit(a, i) == 1 && Bit(b, i) == 1
  {
    hide Bit;
    Halves(a, b, n);
    var j := if i > 0 then i - 1 else 0;
    NextBit(a, j);
    NextBit(b, j);
    NextBit(XorBits(a, b, n), j);
    NextBit(AndBits(a, b, n), j);
    if i > 0 { BitsAt(a / 2, b / 2, n - 1, j); }
  }

  // Bit by bit, over all 64 of them: XOR is set where the bits of its operands differ,
  // AND where both are set.
  lemma BitwiseAt(a: word, b: word, i: nat)
    requires i < 64
    ensures Bit(Xor(a, b), i) == 1 <==> Bit(a, i) != Bit(b, i)
    ensures Bit(And(a, b), i) == 1 <==> Bit(a, i) == 1 && Bit(b, i) == 1
  {
    hide Bit;
    BitsAt(a, b, 64, i);
  }

  // Bits determine a number.
  lemma {:induction false} SameBits(x: int, y: int, n: nat)
    requires 0 <= x < Pow2(n) && 0 <= y < Pow2(n)
    requires forall i | 0 <= i < n :: Bit(x, i) == Bit(y, i)
    ensures x == y
  {
    hide Bit;
    if n > 0 {
      forall i | 0 <= i < n - 1 ensures Bit(x / 2, i) == Bit(y / 2, i) {
        NextBit(x, i);
        NextBit(y, i);
        assert Bit(x, i + 1) == Bit(y, i + 1);
      }
      SameBits(x / 2, y / 2, n - 1);
      NextBit(x, 0);
      NextBit(y, 0);
    }
  }

  lemma SameWord(x: word, y: word)
    requires forall i | 0 <= i < 64 :: Bit(x, i) == Bit(y, i)
    ensures x == y
  {
    TwoTo64();
    SameBits(x, y, 64);
  }

  lemma {:induction false} ZeroBit(i: nat)
    ensures Bit(0, i) == 0
  {
    hide Bit;
    NextBit(0, if i > 0 then i - 1 else 0);
    if i > 0 { ZeroBit(i - 1); }
  }

  // The sign of a word is its bit 63.
  lemma SignBit(x: word)
    ensures Signed(x) < 0 <==> Bit(x, 63) == 1
  {
    TwoTo64();
    assert Pow2(64) == 2 * Pow2(63);
  }

  lemma {:induction false} AndBitsSelf(a: int, n: nat)
    requires 0 <= a < Pow2(n)
    ensures AndBits(a, a, n) == a
  {
    if n > 0 {
      AndBitsSelf(a / 2, n - 1);
      assert (a % 2) * (a % 2) == a % 2;
    }
  }

  // x & x == x: andq of a register with itself only sets the condition codes.
  lemma AndSelf(a: word)
    ensures And(a, a) == a
  {
    TwoTo64();
    AndBitsSelf(a, 64);
  }

  lemma {:induction false} XorBitsFacts(a: int, b: int, n: nat)
    requires 0 <= a < Pow2(n) && 0 <= b
    ensures XorBits(a, b, n) == XorBits(b, a, n)
    ensures XorBits(a, 0, n) == a
  {
    if n > 0 { XorBitsFacts(a / 2, b / 2, n - 1); }
  }

  lemma XorFacts(a: word, b: word)
    ensures Xor(a, b) == Xor(b, a) && Xor(a, 0) == a && Xor(0, a) == a
  {
    TwoTo64();
    XorBitsFacts(a, b, 64);
    XorBitsFacts(a, 0, 64);
  }

  lemma {:induction false} AndBitsZero(a: int, n: nat)
    requires 0 <= a
    ensures AndBits(a, 0, n) == 0 && AndBits(0, a, n) == 0
  {
    if n > 0 { AndBitsZero(a / 2, n - 1); }
  }

  lemma AndZero(a: word)
    ensures And(a, 0) == 0 && And(0, a) == 0
  {
    AndBitsZero(a, 64);
  }

  lemma {:induction false} XorBitsSelf(a: int, n: nat)
    requires 0 <= a
    ensures XorBits(a, a, n) == 0
  {
    if n > 0 {
      XorBitsSelf(a / 2, n - 1);
      assert (a % 2 + a % 2) % 2 == 0;
    }
  }

  lemma XorSelf(a: word)
    ensures Xor(a, a) == 0
  {
    XorBitsSelf(a, 64);
  }
}
