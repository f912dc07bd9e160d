/** Rounding to multiples. */
module Multiples {

  function RoundDown(n: nat, block: nat): (r: nat)
    requires block > 0
    ensures r <= n < r + block && r % block == 0
  {
    var q := n / block;
    assert q * block % block == 0 by { MultipleOfBlock(q, block); }
    q * block
  }

  lemma {:induction false} MultipleOfBlock(q: nat, block: nat)
    requires block > 0
    ensures q * block % block == 0
    decreases q
  {
    if q > 0 {
      MultipleOfBlock(q - 1, block);
      assert q * block == (q - 1) * block + block;
      AddBlock((q - 1) * block, block);
    }
  }

  lemma AddBlock(x: int, block: nat)
    requires block > 0
    ensures (x + block) % block == x % block
  {
    var q, r := x / block, x % block;
    assert x + block == (q + 1) * block + r;
    DivisionIsUnique(x + block, block, q + 1, r);
  }

  lemma DivisionIsUnique(x: int, m: nat, q: int, r: int)
    requires 0 <= r < m && x == q * m + r
    ensures x % m == r && x / m == q
  {
    var d := x / m - q;
    assert x == x / m * m + x % m;
    assert d * m == r - x % m;
  }

  lemma MulMono(a: int, b: int, m: nat)
    requires a <= b
    ensures a * m <= b * m && (b + 1) * m == b * m + m && (b - 1) * m == b * m - m
  {
    assert (b - a) * m >= 0;
  }

  /** A multiple of the block at most n is at most n rounded down. */
  lemma RoundDownIsGreatest(n: nat, block: nat, p: nat)
    requires block > 0 && p <= n && p % block == 0
    ensures p <= RoundDown(n, block)
  {
    var a, b := p / block, n / block;
    assert p == a * block;
    if a > b { MulMono(b + 1, a, block); MulMono(b, b, block); } else { MulMono(a, b, block); }
  }

  lemma MultiplesApart(m: nat, n: nat, block: nat)
    requires block > 0 && m % block == 0 && n % block == 0 && m < n
    ensures m <= n - block
  {
    var a, b := m / block, n / block;
    assert m == a * block && n == b * block;
    if a >= b { MulMono(b, a, block); } else { MulMono(a, b - 1, block); MulMono(b, b, block); }
  }

  /** `align_up` */
  function AlignUp(n: nat, block: nat): (r: nat)
    requires block > 0
    ensures n <= r < n + block && r % block == 0
  {
    RoundDown(n + block - 1, block)
  }

  /** No smaller multiple of the block is at least n. */
  lemma AlignUpIsLeast(n: nat, block: nat, x: nat)
    requires block > 0 && n <= x && x % block == 0
    ensures AlignUp(n, block) <= x
  {
    if x < AlignUp(n, block) { MultiplesApart(x, AlignUp(n, block), block); }
  }

  /** Rounding up from an aligned base. */
  lemma AlignUpFrom(base: nat, n: nat, block: nat)
    requires block > 0 && base % block == 0
    ensures AlignUp(base + n, block) == base + AlignUp(n, block)
  {
    var k, x := base / block, n + block - 1;
    assert base == k * block;
    assert x == x / block * block + x % block;
    assert (k + x / block) * block == k * block + x / block * block;
    DivisionIsUnique(base + x, block, k + x / block, x % block);
  }

  lemma AlignedSum(base: nat, n: nat, block: nat)
    requires block > 0 && base % block == 0 && n % block == 0
    ensures (base + n) % block == 0
  {
    var a, b := base / block, n / block;
    assert base == a * block && n == b * block;
    assert (a + b) * block == a * block + b * block;
    DivisionIsUnique(base + n, block, a + b, 0);
  }
}
