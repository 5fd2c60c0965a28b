/** Binary digits of numbers and bits of byte strings: bit 0 is the most significant bit of the first
    byte. */
module Bits {
  import opened Resp

  function Pow2(n: nat): (r: nat)
    ensures r > 0
  {
    if n == 0 then 1 else 2 * Pow2(n - 1)
  }

  /** x >> k. */
  function Shr(x: nat, k: nat): nat
    decreases k
  {
    if k == 0 then x else Shr(x / 2, k - 1)
  }

  /** (x >> k) & 1. */
  function Digit(x: nat, k: nat): (d: nat)
    ensures d < 2
  {
    Shr(x, k) % 2
  }

  /** (x & ~(1 << k)) | (v << k). */
  function SetDigit(x: nat, k: nat, v: nat): nat
    requires v < 2
    decreases k
  {
    if k == 0 then x - x % 2 + v else 2 * SetDigit(x / 2, k - 1, v) + x % 2
  }

  /** The k low digits of x. */
  function Low(x: nat, k: nat): nat
    decreases k
  {
    if k == 0 then 0 else 2 * Low(x / 2, k - 1) + x % 2
  }

  lemma {:induction false} ShrNext(x: nat, k: nat)
    ensures Shr(x, k + 1) == Shr(x, k) / 2
    decreases k
  {
    if k > 0 { ShrNext(x / 2, k - 1); }
  }

  lemma {:induction false} DigitSet(x: nat, k: nat, v: nat, m: nat)
    requires v < 2
    ensures Digit(SetDigit(x, k, v), m) == if m == k then v else Digit(x, m)
    decreases k
  {
    var y := SetDigit(x, k, v);
    if k == 0 {
      assert y / 2 == x / 2;
    } else {
      assert y / 2 == SetDigit(x / 2, k - 1, v) && y % 2 == x % 2;
      if m > 0 { DigitSet(x / 2, k - 1, v, m - 1); }
    }
  }

  lemma {:induction false} SetBound(x: nat, k: nat, v: nat, n: nat)
    requires v < 2 && k < n && x < Pow2(n)
    ensures SetDigit(x, k, v) < Pow2(n)
    decreases k
  {
    if k > 0 { SetBound(x / 2, k - 1, v, n - 1); }
  }

  lemma {:induction false} LowIsMod(x: nat, k: nat)
    ensures Low(x, k) == x % Pow2(k)
    decreases k
  {
    if k > 0 {
      LowIsMod(x / 2, k - 1);
      ModDouble(x, Pow2(k - 1));
    }
  }

  lemma ModDouble(x: nat, p: nat)
    requires p > 0
    ensures x % (2 * p) == 2 * (x / 2 % p) + x % 2
  {
    var h := x / 2;
    var q, r := h / p, h % p;
    assert h == q * p + r;
    assert x == q * (2 * p) + (2 * r + x % 2) by { assert 2 * (q * p) == q * (2 * p); }
    ModIs(x, 2 * p, q, 2 * r + x % 2);
  }

  lemma ModIs(x: int, m: nat, q: int, r: nat)
    requires m > 0 && x == q * m + r && r < m
    ensures x % m == r
  {
    var d := x / m - q;
    assert x == (x / m) * m + x % m;
    assert d * m == r - x % m by { assert d * m == (x / m) * m - q * m; }
    assert d >= 1 ==> d * m >= m;
    assert d <= -1 ==> d * m <= 0 - m;
  }

  lemma {:induction false} Pow2Add(a: nat, b: nat)
    ensures Pow2(a + b) == Pow2(a) * Pow2(b)
  {
    if a > 0 {
      Pow2Add(a - 1, b);
      assert 2 * (Pow2(a - 1) * Pow2(b)) == Pow2(a) * Pow2(b);
    }
  }

  lemma Regroup(q: int, m: int, n: int, q': int)
    ensures q * (m * n) + q' * m == (q * n + q') * m
  {
    assert q * (m * n) == (q * n) * m;
  }

  lemma TwoSteps(x: int, m: nat, n: nat, q: int, y: int, q': int, r: nat)
    requires m > 0 && x == q * (m * n) + y && y == q' * m + r && r < m
    ensures x % m == r
  {
    Regroup(q, m, n, q');
    ModIs(x, m, q * n + q', r);
  }

  lemma Parts(x: int, m: nat) returns (q: int, r: nat)
    requires m > 0
    ensures x == q * m + r && r == x % m
  {
    q, r := x / m, x % m;
  }

  /** Reducing by a larger power of two first changes nothing. */
  lemma ModMod(x: int, a: nat, b: nat)
    requires a <= b
    ensures x % Pow2(b) % Pow2(a) == x % Pow2(a)
  {
    hide Pow2;
    Pow2Add(a, b - a);
    var q, y := Parts(x, Pow2(b));
    var q', r := Parts(y, Pow2(a));
    TwoSteps(x, Pow2(a), Pow2(b - a), q, y, q', r);
  }

  // ---------- bits of byte strings ----------

  function BitAt(p: Bytes, i: nat): (d: nat)
    requires i < 8 * |p|
    ensures d < 2
  {
    Digit(p[i / 8], 7 - i % 8)
  }

  /** The unsigned number in the bits from off on. */
  function Unsigned(p: Bytes, off: nat, bits: nat): nat
    requires off + bits <= 8 * |p|
    decreases bits
  {
    if bits == 0 then 0 else 2 * Unsigned(p, off, bits - 1) + BitAt(p, off + bits - 1)
  }

  lemma {:induction false} UnsignedBound(p: Bytes, off: nat, bits: nat)
    requires off + bits <= 8 * |p|
    ensures Unsigned(p, off, bits) < Pow2(bits)
    decreases bits
  {
    if bits > 0 { UnsignedBound(p, off, bits - 1); }
  }

  lemma {:induction false} UnsignedSame(p: Bytes, q: Bytes, off: nat, bits: nat)
    requires off + bits <= 8 * |p| && off + bits <= 8 * |q|
    requires forall i | off <= i < off + bits :: BitAt(p, i) == BitAt(q, i)
    ensures Unsigned(p, off, bits) == Unsigned(q, off, bits)
    decreases bits
  {
    hide BitAt;
    if bits > 0 { UnsignedSame(p, q, off, bits - 1); }
  }
}
