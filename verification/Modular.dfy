/** Arithmetic modulo a counter range, and of rows and columns in a flat buffer. */
module Modular {

  /** A multiple of `m` strictly between -m and m is zero. */
  lemma SmallMultiple(m: int, k: int)
    requires m > 0 && -m < m * k < m
    ensures k == 0
  {
    if k >= 1 {
      Grows(m, k);
    } else if k <= -1 {
      Grows(m, -k);
    }
  }

  lemma Grows(m: int, k: int)
    requires m > 0 && k >= 1
    ensures m * k >= m
  {
    assert m * (k - 1) >= 0;
  }

  lemma ModUnique(x: int, q: int, r: int, m: int)
    requires m > 0 && x == m * q + r && 0 <= r < m
    ensures x % m == r && x / m == q
  {
    assert x == m * (x / m) + x % m;
    assert m * (x / m - q) == r - x % m;
    SmallMultiple(m, x / m - q);
  }

  lemma ModPlus(x: int, k: int, m: int)
    requires m > 0
    ensures (x + m * k) % m == x % m
  {
    var q, r := x / m, x % m;
    assert x == m * q + r;
    assert m * (q + k) == m * q + m * k;
    ModUnique(x + m * k, q + k, r, m);
  }

  /** Reducing both operands does not change a difference. */
  lemma ModDifference(a: int, b: int, m: int)
    requires m > 0
    ensures (a % m - b % m) % m == (a - b) % m
  {
    assert a == m * (a / m) + a % m && b == m * (b / m) + b % m;
    assert m * (a / m - b / m) == m * (a / m) - m * (b / m);
    ModPlus(a % m - b % m, a / m - b / m, m);
  }

  lemma MulOrder(a: int, b: int, m: int)
    requires m > 0 && m * a < m * b
    ensures a < b
  {
    if b <= a {
      MulMonotone(b, a, m);
    }
  }

  lemma DivNonNegative(x: nat, m: nat)
    requires m > 0
    ensures x / m >= 0
  {
    var q := x / m;
    assert x == m * q + x % m;
    if q <= -1 {
      MulMonotone(q, -1, m);
    }
  }

  lemma MulMonotone(a: int, b: int, m: int)
    requires m > 0 && a <= b
    ensures m * a <= m * b
  {
    assert m * (b - a) >= 0;
  }

  // ---------------- rows and columns ----------------

  lemma RowCol(s: nat, c: nat, width: nat)
    requires c < width
    ensures (s * width + c) / width == s && (s * width + c) % width == c
  {
    ModUnique(s * width + c, s, c, width);
  }

  lemma RowFits(s: nat, c: nat, width: nat, ns: nat)
    requires s < ns && c < width
    ensures s * width + c < ns * width
  {
    Grows(width, ns - s);
    assert width * (ns - s) == ns * width - s * width;
  }

  lemma InRow(i: nat, width: nat, ns: nat)
    requires width > 0 && i < ns * width
    ensures 0 <= i / width < ns && i == (i / width) * width + i % width
  {
    MulOrder(i / width, ns, width);
  }
}
