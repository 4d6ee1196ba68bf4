/** The 64-bit arithmetic of fnd_TimeSpan.h: a 128-bit product from 32-bit halves, and division by a
    constant through it. */
module TimeSpan {
  import opened Arithmetic

  predicate S64(n: int) { -0x8000_0000_0000_0000 <= n < 0x8000_0000_0000_0000 }

  /** Conversion to u64, and of a u64 to s64. */
  function ToU64(n: int): (r: int)
    ensures 0 <= r < 0x1_0000_0000_0000_0000
  {
    n % 0x1_0000_0000_0000_0000
  }

  function ToS64(n: int): int {
    var u := ToU64(n);
    if u < 0x8000_0000_0000_0000 then u else u - 0x1_0000_0000_0000_0000
  }

  /** Bits 0 to 31, and the arithmetic shift that leaves the rest. */
  function Lo(n: int): (r: int)
    ensures 0 <= r < 0x1_0000_0000
  {
    n % 0x1_0000_0000
  }

  function Hi(n: int): int { n / 0x1_0000_0000 }

  lemma Halves(n: int)
    ensures n == 0x1_0000_0000 * Hi(n) + Lo(n)
  {}

  /** MultiplyRightShift, with every conversion C makes: mixed products are taken as u64, sums that
      are stored in s64 wrap. */
  function MultiplyRightShift(x: int, y: int): int
    requires S64(x) && S64(y)
  {
    var xlo, xhi, ylo, yhi := Lo(x), Hi(x), Lo(y), Hi(y);
    var z := ToS64(ToU64(ToU64(xhi) * ylo) + Hi(ToU64(xlo * ylo)));
    ToS64(ToS64(xhi * yhi) + Hi(z) + Hi(ToS64(ToU64(xlo * ToU64(yhi)) + Lo(z))))
  }

  /** A value that fits survives any detour modulo 2^64. */
  lemma Wraps(n: int, m: int, k: int)
    requires S64(n) && m == n + 0x1_0000_0000_0000_0000 * k
    ensures ToS64(m) == n
  {}

  lemma {:induction false} MulBounds(a: int, b: nat, m: nat)
    requires -(m as int) <= a <= m
    ensures -(m * b) <= a * b <= m * b
    decreases b
  {
    if b > 0 {
      MulBounds(a, b - 1, m);
      assert a * b == a * (b - 1) + a && m * b == m * (b - 1) + m;
    }
  }

  lemma MulMonotone(b: nat, n: nat, m: nat)
    requires b <= n
    ensures m * b <= m * n
  {
    var d: nat := n - b;
    assert m * n == m * b + m * d;
    MulBounds(0, d, m);
  }

  /** |a * b| is at most m * n. */
  lemma Bounds(a: int, b: nat, m: nat, n: nat)
    requires -(m as int) <= a <= m && b <= n
    ensures -(m * n) <= a * b <= m * n
  {
    MulBounds(a, b, m);
    MulMonotone(b, n, m);
  }

  lemma Distribute(p: int, xh: int, xl: int, yh: int, yl: int)
    ensures (p * xh + xl) * (p * yh + yl) == p * (p * (xh * yh)) + p * (xh * yl + xl * yh) + xl * yl
  {
    assert (p * xh + xl) * (p * yh + yl) == p * xh * (p * yh + yl) + xl * (p * yh + yl);
    assert p * xh * (p * yh + yl) == p * (p * (xh * yh)) + p * (xh * yl);
    assert xl * (p * yh + yl) == p * (xl * yh) + xl * yl;
  }

  /** Adding up the four partial products, high half first. */
  lemma Carry(d: int, a: int, c: int, b: int)
    ensures var z := a + Hi(b); var w := c + Lo(z);
      (0x1_0000_0000_0000_0000 * d + 0x1_0000_0000 * (a + c) + b) / 0x1_0000_0000_0000_0000 == d + Hi(z) + Hi(w)
  {
    var z := a + Hi(b);
    var w := c + Lo(z);
    Halves(b);
    Halves(z);
    Halves(w);
    Quotient(d + Hi(z) + Hi(w), 0x1_0000_0000 * Lo(w) + Lo(b),
      0x1_0000_0000_0000_0000 * d + 0x1_0000_0000 * (a + c) + b);
  }

  lemma Quotient(q: int, r: int, n: int)
    requires 0 <= r < 0x1_0000_0000_0000_0000 && n == 0x1_0000_0000_0000_0000 * q + r
    ensures n / 0x1_0000_0000_0000_0000 == q
  {}

  lemma LowProduct(xlo: int, ylo: int)
    requires xlo >= 0 && ylo >= 0
    ensures xlo * ylo >= 0
  {}

  lemma Partial(h: int, l: int)
    requires -0x8000_0000 <= h < 0x8000_0000 && 0 <= l < 0x1_0000_0000
    ensures -0x8000_0000_0000_0000 <= h * l <= 0x8000_0000_0000_0000 - 0x1_8000_0000 + 1
  {
    if h >= 0 {
      Bounds(h, l, 0x7fff_ffff, 0xffff_ffff);
      LowProduct(h, l);
    } else {
      Bounds(h, l, 0x8000_0000, 0xffff_ffff);
      LowProduct(-h, l);
      assert -h * l == -(h * l);
    }
  }

  lemma HiRange(n: int)
    requires S64(n)
    ensures -0x8000_0000 <= Hi(n) < 0x8000_0000
  {}

  /** A product with a u64 conversion of a signed factor. */
  lemma MixedProduct(h: int, l: int)
    ensures ToU64(h) * l == h * l + 0x1_0000_0000_0000_0000 * (-(h / 0x1_0000_0000_0000_0000) * l)
  {
    var q := h / 0x1_0000_0000_0000_0000;
    assert ToU64(h) == h + 0x1_0000_0000_0000_0000 * (-q);
    assert (h + 0x1_0000_0000_0000_0000 * (-q)) * l == h * l + 0x1_0000_0000_0000_0000 * (-q * l);
  }

  /** The first sum of the source, as the wrapped value it is stored as. */
  lemma FirstSum(xhi: int, ylo: int, b: int)
    requires -0x8000_0000 <= xhi < 0x8000_0000 && 0 <= ylo < 0x1_0000_0000 && 0 <= b <= 0xffff_ffff * 0xffff_ffff
    ensures S64(xhi * ylo + Hi(b)) && ToS64(ToU64(ToU64(xhi) * ylo) + Hi(ToU64(b))) == xhi * ylo + Hi(b)
  {
    hide ToU64, ToS64, Hi;
    Partial(xhi, ylo);
    MixedProduct(xhi, ylo);
    var p := ToU64(xhi) * ylo;
    var k := -(xhi / 0x1_0000_0000_0000_0000) * ylo - p / 0x1_0000_0000_0000_0000;
    Unwrapped(p);
    LowRange(b);
    Wraps(xhi * ylo + Hi(b), ToU64(p) + Hi(b), k);
  }

  lemma Unwrapped(p: int)
    ensures ToU64(p) == p - 0x1_0000_0000_0000_0000 * (p / 0x1_0000_0000_0000_0000)
  {}

  lemma LowRange(b: int)
    requires 0 <= b <= 0xffff_ffff * 0xffff_ffff
    ensures ToU64(b) == b && 0 <= Hi(b) <= 0xffff_fffe
  {}

  lemma SecondSum(xlo: int, yhi: int, l: int)
    requires -0x8000_0000 <= yhi < 0x8000_0000 && 0 <= xlo < 0x1_0000_0000 && 0 <= l < 0x1_0000_0000
    ensures S64(xlo * yhi + l) && ToS64(ToU64(xlo * ToU64(yhi)) + l) == xlo * yhi + l
  {
    hide ToU64, ToS64;
    Partial(yhi, xlo);
    MixedProduct(yhi, xlo);
    var p := xlo * ToU64(yhi);
    Unwrapped(p);
    assert p == ToU64(yhi) * xlo && yhi * xlo == xlo * yhi;
    var k := -(yhi / 0x1_0000_0000_0000_0000) * xlo - p / 0x1_0000_0000_0000_0000;
    Wraps(xlo * yhi + l, ToU64(p) + l, k);
  }

  lemma HighProduct(xhi: int, yhi: int)
    requires -0x8000_0000 <= xhi < 0x8000_0000 && -0x8000_0000 <= yhi < 0x8000_0000
    ensures -0x4000_0000_0000_0000 <= xhi * yhi <= 0x4000_0000_0000_0000
  {
    if yhi >= 0 {
      Bounds(xhi, yhi, 0x8000_0000, 0x8000_0000);
    } else {
      Bounds(xhi, -yhi, 0x8000_0000, 0x8000_0000);
      assert xhi * -yhi == -(xhi * yhi);
    }
  }

  /** For all signed 64-bit operands no step overflows and the result is the floor of the 128-bit
      product over 2^64. */
  lemma MultiplyRightShiftExact(x: int, y: int)
    requires S64(x) && S64(y)
    ensures MultiplyRightShift(x, y) == x * y / 0x1_0000_0000_0000_0000
  {
    hide ToS64, ToU64, Hi, Lo;
    var xlo, xhi, ylo, yhi := Lo(x), Hi(x), Lo(y), Hi(y);
    var d, a, c, b := xhi * yhi, xhi * ylo, xlo * yhi, xlo * ylo;
    Halves(x);
    Halves(y);
    HiRange(x);
    HiRange(y);
    Bounds(xlo, ylo, 0xffff_ffff, 0xffff_ffff);
    LowProduct(xlo, ylo);
    FirstSum(xhi, ylo, b);
    var z := a + Hi(b);
    SecondSum(xlo, yhi, Lo(z));
    var w := c + Lo(z);
    HiRange(z);
    HiRange(w);
    HighProduct(xhi, yhi);
    Wraps(d, d, 0);
    Wraps(d + Hi(z) + Hi(w), d + Hi(z) + Hi(w), 0);
    assert MultiplyRightShift(x, y) == d + Hi(z) + Hi(w);
    Distribute(0x1_0000_0000, xhi, xlo, yhi, ylo);
    assert x * y == 0x1_0000_0000_0000_0000 * d + 0x1_0000_0000 * (a + c) + b;
    Carry(d, a, c, b);
  }

  // ---------- division by a constant ----------

  function Pow2(n: nat): (p: nat)
    ensures p >= 1
  {
    if n == 0 then 1 else 2 * Pow2(n - 1)
  }

  /** DivideNanoSeconds: shifts of s64 values are arithmetic, the sign bit is added at the end. */
  method DivideNanoSeconds(nanos: int, magic: int, rightShift: nat) returns (r: int)
    requires S64(nanos) && S64(magic) && rightShift < 64
    ensures r == (nanos * magic / 0x1_0000_0000_0000_0000 + (if magic < 0 then nanos else 0)) / Pow2(rightShift)
                 + (if nanos < 0 then 1 else 0)
  {
    hide MultiplyRightShift;
    MultiplyRightShiftExact(nanos, magic);
    var n := MultiplyRightShift(nanos, magic);
    if magic < 0 { n := n + nanos; }
    n := n / Pow2(rightShift);
    r := n + ToU64(nanos) / 0x8000_0000_0000_0000;
  }

  /** Dividing by 10^6 through the constant: the error of the constant is too small to matter. */
  lemma MagicDivides(x: int)
    requires S64(x)
    ensures x * 0x431b_de82_d7b6_34db / 0x1_0000_0000_0000_0000 / 0x4_0000 + (if x < 0 then 1 else 0) == Quot(x, 1000000)
  {
    if x >= 0 {
      var q, r := x / 1000000, x % 1000000;
      assert x == 1000000 * q + r;
      // 10^6 * magic == 2^82 + 175296
      var rest := 175296 * q + 0x431b_de82_d7b6_34db * r;
      assert x * 0x431b_de82_d7b6_34db == 0x4_0000_0000_0000_0000_0000 * q + rest;
      ShiftTwice(q, rest, x * 0x431b_de82_d7b6_34db);
    } else {
      var q, r := -x / 1000000, -x % 1000000;
      assert -x == 1000000 * q + r;
      var rest := 175296 * q + 0x431b_de82_d7b6_34db * r;
      assert x * 0x431b_de82_d7b6_34db == 0x4_0000_0000_0000_0000_0000 * (-q - 1) + (0x4_0000_0000_0000_0000_0000 - rest);
      ShiftTwice(-q - 1, 0x4_0000_0000_0000_0000_0000 - rest, x * 0x431b_de82_d7b6_34db);
    }
  }

  lemma ShiftTwice(q: int, rest: int, n: int)
    requires 0 <= rest < 0x4_0000_0000_0000_0000_0000 && n == 0x4_0000_0000_0000_0000_0000 * q + rest
    ensures n / 0x1_0000_0000_0000_0000 / 0x4_0000 == q
  {
    var m := n / 0x1_0000_0000_0000_0000;
    assert m == 0x4_0000 * q + rest / 0x1_0000_0000_0000_0000;
  }

  lemma Pow18()
    ensures Pow2(18) == 0x4_0000
  {
    assert Pow2(2) == 4 && Pow2(4) == 0x10 && Pow2(6) == 0x40 && Pow2(8) == 0x100 && Pow2(10) == 0x400;
    assert Pow2(12) == 0x1000 && Pow2(14) == 0x4000 && Pow2(16) == 0x1_0000;
  }

  /** GetMilliSeconds by the constant is GetMilliSeconds by division, for every s64. */
  method GetMilliSeconds(nanos: int) returns (r: int)
    requires S64(nanos)
    ensures r == Quot(nanos, 1000000)
  {
    hide Quot, Pow2;
    MagicDivides(nanos);
    Pow18();
    r := DivideNanoSeconds(nanos, 0x431b_de82_d7b6_34db, 18);
  }
}
