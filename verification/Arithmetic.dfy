/** Nonlinear facts about products, quotients and remainders, and powers of two.
    C++ `/` and `%` agree with Dafny's on the non-negative operands used here. */
module Arithmetic {

  lemma MulLe(a: int, b: int, k: nat)
    requires a <= b
    ensures a * k <= b * k
  {
  }

  lemma MulNonNeg(a: nat, b: nat)
    ensures a * b >= 0
  {
  }

  lemma Distribute(x: int, y: int, f: int, z: int)
    ensures (x * y + f) * z == x * (y * z) + f * z
  {
    assert (x * y + f) * z == (x * y) * z + f * z;
  }

  function Abs(x: int): nat {
    if x < 0 then -x else x
  }

  lemma AbsMul(x: int, y: int)
    ensures Abs(x * y) == Abs(x) * Abs(y)
  {
    if x < 0 {
      assert x * y == -((-x) * y);
    }
    if y < 0 {
      assert x * y == -(x * (-y));
    }
    MulNonNeg(Abs(x), Abs(y));
  }

  /** A stride larger than the distance between two remainders forces equal multiples. */
  lemma StrideForces(x: int, y: int, s: int, a: int, b: int, gap: nat)
    requires x * s + a == y * s + b
    requires Abs(a - b) <= gap < Abs(s)
    ensures x == y && a == b
  {
    var e := x - y;
    assert e * s == x * s - y * s;
    AbsMul(e, s);
    if e != 0 {
      MulLe(1, Abs(e), Abs(s));
    }
  }

  /** The same for coordinates below `n`, where a single coordinate needs no stride. */
  lemma HeadForced(x: nat, y: nat, n: nat, s: int, a: int, b: int, gap: nat)
    requires x < n && y < n && x * s + a == y * s + b
    requires Abs(a - b) <= gap && (n > 1 ==> gap < Abs(s))
    ensures x == y && a == b
  {
    if n > 1 {
      StrideForces(x, y, s, a, b, gap);
    }
  }

  lemma MulAssociate(a: int, b: int, c: int)
    ensures (a * b) * c == a * (b * c)
  {
  }

  /** Row `o` of `outer` rows of `b` steps of `i` cells ends inside the total. */
  lemma RowEnd(o: nat, outer: nat, b: nat, i: nat)
    requires o < outer
    ensures (o * b) * i + b * i <= (outer * b) * i
  {
    MulLe(o + 1, outer, b);
    assert (o + 1) * b == o * b + b;
    MulLe((o + 1) * b, outer * b, i);
    Distribute(o, b, b, i);
    MulAssociate(o, b, i);
  }

  /** A quotient and remainder in range are the ones `/` and `%` compute. */
  lemma DivModUnique(q: int, r: int, d: int)
    requires 0 <= r < d
    ensures (q * d + r) / d == q && (q * d + r) % d == r
  {
    var x := q * d + r;
    assert x == d * (x / d) + x % d;
    var e := x / d - q;
    assert d * e == r - x % d by {
      assert d * e == d * (x / d) - d * q;
      assert d * q == q * d;
    }
    if e > 0 {
      MulLe(1, e, d);
    } else if e < 0 {
      MulLe(e, -1, d);
    }
    assert e == 0;
  }

  lemma DivNonNeg(i: nat, d: nat)
    requires d > 0
    ensures i / d >= 0
  {
  }

  /** Dividing an index below `q * d` by `d` gives an index below `q`. */
  lemma DivBelow(i: nat, q: nat, d: nat)
    requires d > 0 && i < q * d
    ensures i / d < q
  {
    assert i == d * (i / d) + i % d;
    assert d * (i / d) == (i / d) * d;
    if i / d >= q {
      MulLe(q, i / d, d);
    }
  }

  lemma DivAtLeast(n: nat, q: nat, d: nat)
    requires d > 0 && q * d <= n
    ensures n / d >= q
  {
    assert n == d * (n / d) + n % d;
    if n / d < q {
      MulLe(n / d + 1, q, d);
    }
  }

  /** A block index and an offset inside the block address below the total. */
  lemma BlockBound(q: nat, n: nat, r: nat, d: nat)
    requires q < n && r < d
    ensures q * d + r < n * d
  {
    MulLe(q + 1, n, d);
    assert (q + 1) * d == q * d + d;
  }

  function Pow2(k: nat): (p: nat)
    ensures p > 0
  {
    if k == 0 then 1 else 2 * Pow2(k - 1)
  }

  lemma {:induction false} Pow2Add(a: nat, b: nat)
    ensures Pow2(a + b) == Pow2(a) * Pow2(b)
  {
    if a > 0 {
      Pow2Add(a - 1, b);
      assert Pow2(a + b) == 2 * Pow2(a - 1 + b);
    }
  }

  lemma {:induction false} Pow2Monotone(a: nat, b: nat)
    requires a <= b
    ensures Pow2(a) <= Pow2(b)
  {
    if a < b {
      Pow2Monotone(a, b - 1);
    }
  }

  lemma Pow2Values()
    ensures Pow2(13) == 0x2000 && Pow2(16) == 0x1_0000 && Pow2(23) == 0x80_0000 && Pow2(24) == 0x100_0000
  {
    assert Pow2(8) == 0x100;
    Pow2Add(8, 5);
    Pow2Add(8, 8);
    Pow2Add(16, 7);
    Pow2Add(16, 8);
    assert Pow2(5) == 32 && Pow2(7) == 128;
  }

  lemma NestedBound(x: nat, n: nat, i: nat, v: nat, b: nat, e: nat)
    requires x < n && i < v && b < e
    ensures (x * v + i) * e + b < n * (v * e)
  {
    BlockBound(x, n, i, v);
    BlockBound(x * v + i, n * v, b, e);
    MulAssociate(n, v, e);
  }

  /** A position split into whole blocks of `v * e` cells and a place inside a block. */
  lemma Regroup(f: int, p: int, x: int, v: int, i: int, e: int, b: int)
    requires f == (p + x) * v + i
    ensures f * e + b == p * (v * e) + ((x * v + i) * e + b)
  {
    assert (p + x) * v == p * v + x * v;
    Distribute(p, v, x * v + i, e);
  }
}
