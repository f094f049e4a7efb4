// Powers of two, and division and remainder of scaled numbers.
module Arith {

  function Pow2(n: int): int
  {
    if n <= 0 then 1 else 2 * Pow2(n - 1)
  }

  lemma Pow2Values()
    ensures Pow2(5) == 32 && Pow2(6) == 64 && Pow2(7) == 128 && Pow2(8) == 256 && Pow2(9) == 512
    ensures Pow2(10) == 1024 && Pow2(11) == 2048 && Pow2(12) == 4096
  {
    assert Pow2(2) == 4 && Pow2(4) == 16 && Pow2(6) == 64 && Pow2(8) == 256 && Pow2(10) == 1024;
  }

  lemma {:induction false} Pow2Positive(n: int)
    ensures Pow2(n) > 0
  {
    if n > 0 { Pow2Positive(n - 1); }
  }

  lemma {:induction false} Pow2Add(a: int, b: int)
    requires 0 <= a && 0 <= b
    ensures Pow2(a + b) == Pow2(a) * Pow2(b)
  {
    if a > 0 {
      Pow2Add(a - 1, b);
      assert Pow2(a) == 2 * Pow2(a - 1);
    }
  }

  lemma TwoTo64()
    ensures Pow2(64) == 0x1_0000_0000_0000_0000
  {
    Pow2Values();
    Pow2Add(8, 8);
    Pow2Add(16, 16);
    Pow2Add(32, 32);
  }

  // Scaling keeps quotients and scales remainders.
  lemma Scale(x: int, k: int, n: int)
    requires 0 < k && 0 < n
    ensures n * k > 0
    ensures (x * k) % (n * k) == (x % n) * k && (x * k) / (n * k) == x / n
  {
    var q, r := x / n, x % n;
    Quotient(x, n);
    Reassociate(q, n, r, k);
    AtMost(r + 1, n, k);
    assert (r + 1) * k == r * k + k;
    assert 0 <= r * k;
    assert n * k == k * n;
    ModUnique(x * k, n * k, q, r * k);
  }

  lemma ModUnique(x: int, d: int, q: int, r: int)
    requires 0 < d && x == q * d + r && 0 <= r < d
    ensures x % d == r && x / d == q
  {
    assert x == (x / d) * d + x % d;
    var g := x / d - q;
    assert g * d == r - x % d;
    MulSign(g, d);
  }

  lemma MulSign(g: int, d: int)
    requires 0 < d
    ensures g >= 1 ==> g * d >= d
    ensures g <= -1 ==> g * d <= -d
  {
  }

  // Dividing the low part of x: (x % (b*s)) / b is the low part of x / b.
  lemma DivOfMod(x: int, b: int, s: int)
    requires 0 < b && 0 < s
    ensures (x % (b * s)) / b == (x / b) % s
    ensures x / (b * s) == (x / b) / s
  {
    var q, r := x / b, x % b;
    var q2, r2 := q / s, q % s;
    Quotient(x, b);
    Quotient(q, s);
    Regroup(b, s, q2, r2, r);
    ModUnique(x, b * s, q2, r2 * b + r);
    ModUnique(r2 * b + r, b, r2, r);
  }

  lemma QuotientAndRemainder(x: int, y: int, d: int)
    requires 0 < d
    ensures x == y <==> x / d == y / d && x % d == y % d
  {
    assert x == (x / d) * d + x % d;
    assert y == (y / d) * d + y % d;
  }

  lemma Quotient(x: int, d: int)
    requires 0 < d
    ensures x == (x / d) * d + x % d
  {
  }

  lemma Regroup(b: int, s: int, q: int, p: int, r: int)
    requires 0 < b && 0 < s && 0 <= p < s && 0 <= r < b
    ensures (q * s + p) * b + r == q * (b * s) + (p * b + r)
    ensures 0 <= p * b + r < b * s
  {
    assert (q * s + p) * b == q * (b * s) + p * b by { Reassociate(q, s, p, b); }
    assert 0 <= p * b;
    AtMost(p + 1, s, b);
    assert (p + 1) * b == p * b + b;
  }

  lemma Reassociate(q: int, s: int, p: int, b: int)
    ensures (q * s + p) * b == q * (b * s) + p * b
  {
    assert (q * s) * b == q * (s * b);
    assert s * b == b * s;
  }

  lemma AtMost(p: int, s: int, b: int)
    requires p <= s && 0 < b
    ensures p * b <= b * s
  {
    assert (s - p) * b >= 0;
    assert (s - p) * b == s * b - p * b;
  }
}
