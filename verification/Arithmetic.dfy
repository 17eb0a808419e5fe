/** The few facts about division that the key schedule and the strided output need. */
module Arithmetic {
  lemma MulAtLeast(d: nat, n: nat)
    requires d > 0
    ensures d * n >= n
  {
    assert d * n == (d - 1) * n + n;
  }

  lemma Distributes(a: int, b: int, n: int)
    ensures (a + b) * n == a * n + b * n
  {}

  lemma MulCancels(a: nat, b: nat, n: nat)
    requires n > 0 && a * n <= b * n
    ensures a <= b
  {
    Distributes(a - b, b, n);
    if a > b { MulAtLeast(a - b, n); }
  }

  lemma MulNat(a: nat, b: nat)
    ensures a * b >= 0
  {}

  lemma DivModUnique(a: nat, n: nat, q: nat, r: nat)
    requires r < n && a == q * n + r
    ensures a / n == q && a % n == r
  {
    var q', r' := a / n, a % n;
    assert a == q' * n + r';
    Distributes(q' - q, q, n);
    Distributes(q - q', q', n);
    if q' > q {
      MulAtLeast(q' - q, n);
    } else if q' < q {
      MulAtLeast(q - q', n);
    }
  }

  lemma ModBound(i: nat, n: nat)
    requires n > 0
    ensures 0 <= i % n < n && 0 <= i / n
  {}

  lemma ModSmall(i: nat, n: nat)
    requires i < n
    ensures i % n == i
  {}

  lemma ModShift(i: nat, n: nat)
    requires n > 0
    ensures (i + n) % n == i % n
  {
    var q := i / n;
    assert i + n == (q + 1) * n + i % n;
    DivModUnique(i + n, n, q + 1, i % n);
  }

  lemma {:induction false} ModShiftMany(i: nat, m: nat, n: nat)
    requires n > 0
    ensures m * n >= 0 && (i + m * n) % n == i % n
  {
    if m > 0 {
      Distributes(m - 1, 1, n);
      ModShiftMany(i, m - 1, n);
      ModShift(i + (m - 1) * n, n);
    }
  }

  lemma DropMultiple(i: nat, k: nat, n: nat)
    requires n > 0
    ensures (i + k) % n == (i % n + k) % n
  {
    var q, r := i / n, i % n;
    assert i == q * n + r;
    ModShiftMany(r + k, q, n);
  }

  lemma ModAdd(i: nat, j: nat, k: nat, n: nat)
    requires n > 0 && i % n == j % n
    ensures (i + k) % n == (j + k) % n
  {
    DropMultiple(i, k, n);
    DropMultiple(j, k, n);
  }

  lemma Regroup(q: nat, m: nat, n: nat, s: nat, u: nat)
    ensures q * (m * n) + (s * n + u) == (q * m + s) * n + u
  {
    assert q * (m * n) == (q * m) * n;
    Distributes(q * m, s, n);
  }

  /** Reducing modulo a multiple of n first makes no difference. */
  lemma ModMultiple(i: nat, m: nat, n: nat)
    requires m > 0 && n > 0
    ensures m * n > 0 && (i % (m * n)) % n == i % n
  {
    MulAtLeast(m, n);
    var q, r := i / (m * n), i % (m * n);
    var s, u := r / n, r % n;
    Regroup(q, m, n, s, u);
    MulNat(q, m);
    DivModUnique(i, n, q * m + s, u);
  }

  /** The bit of i at the weight m, and the bits above it. */
  lemma BitAt(i: nat, m: nat)
    requires m > 0
    ensures i / m * m == i / (2 * m) * (2 * m) + i / m % 2 * m
  {
    var q, r := i / m, i % m;
    var h, e := q / 2, q % 2;
    Distributes(2 * h, e, m);
    assert 2 * h * m == h * (2 * m);
    DivModUnique(i, 2 * m, h, e * m + r);
  }
}
