/** Shifts as arithmetic on unbounded integers. */
module Powers {

  function Pow2(n: nat): (r: nat)
    ensures r >= 1
  {
    if n == 0 then 1 else 2 * Pow2(n - 1)
  }

  lemma {:induction false} Pow2Add(a: nat, b: nat)
    ensures Pow2(a + b) == Pow2(a) * Pow2(b)
  {
    if a > 0 {
      Pow2Add(a - 1, b);
      assert Pow2(a + b) == 2 * (Pow2(a - 1) * Pow2(b)) == Pow2(a) * Pow2(b);
    }
  }

  /** Bit i of x. */
  function Bit(x: nat, i: nat): (b: nat)
    ensures b < 2
  {
    x / Pow2(i) % 2
  }

  lemma DivDiv(x: nat, a: nat, b: nat)
    requires a > 0 && b > 0
    ensures a * b > 0 && x / a / b == x / (a * b)
  {
    var y := x / a;
    var q, s := y / b, y % b;
    Nested(x, a, b, y, q, s, x % a);
    AtLeastOnce(a, b);
    RemainderFits(a, b, s, x % a);
    DivUnique(x, a * b, q, a * s + x % a);
  }

  lemma Nested(x: nat, a: nat, b: nat, y: nat, q: nat, s: nat, r: nat)
    requires x == a * y + r && y == b * q + s
    ensures x == (a * b) * q + (a * s + r)
  {
    Distribute(a, b * q, s);
  }

  lemma RemainderFits(a: nat, b: nat, s: nat, r: nat)
    requires s < b && r < a
    ensures a * s + r < a * b
  {
    Distribute(a, s, b - s);
    AtLeastOnce(a, b - s);
  }

  /** A quotient of naturals is a natural. */
  lemma QuotientNatural(x: nat, y: nat)
    requires y > 0
    ensures x / y >= 0
  {}

  function Quotient(x: nat, y: nat): nat
    requires y > 0
  {
    QuotientNatural(x, y);
    x / y
  }

  lemma Distribute(m: nat, a: nat, b: nat)
    ensures m * (a + b) == m * a + m * b
  {}

  lemma AtLeastOnce(m: nat, k: nat)
    requires k >= 1
    ensures m * k >= m
  {
    Distribute(m, 1, k - 1);
  }

  lemma NoBiggerQuotient(m: nat, d: nat, s: nat, q: nat, r: nat)
    requires m * d + s == m * q + r && s < m
    ensures q <= d
  {
    if d < q {
      var k := q - d;
      Distribute(m, d, k);
      AtLeastOnce(m, k);
    }
  }

  lemma SameQuotient(m: nat, d: nat, s: nat, q: nat, r: nat)
    requires m * d + s == m * q + r && s < m && r < m
    ensures d == q
  {
    NoBiggerQuotient(m, d, s, q, r);
    NoBiggerQuotient(m, q, r, d, s);
  }

  lemma DivUnique(x: nat, m: nat, q: nat, r: nat)
    requires x == m * q + r && r < m
    ensures x / m == q && x % m == r
  {
    SameQuotient(m, x / m, x % m, q, r);
  }

  /** Shifting right step by step. */
  lemma ShiftShift(x: nat, a: nat, b: nat)
    ensures x / Pow2(a) / Pow2(b) == x / Pow2(a + b)
  {
    Pow2Add(a, b);
    DivDiv(x, Pow2(a), Pow2(b));
  }

  /** The n bits of x from position lo, read as a number. */
  ghost function Bits(x: nat, lo: nat, n: nat): nat
    decreases n
  {
    if n == 0 then 0 else Bit(x, lo) + 2 * Bits(x, lo + 1, n - 1)
  }

  lemma {:induction false} BitsSnoc(x: nat, lo: nat, n: nat)
    ensures Bits(x, lo, n + 1) == Bits(x, lo, n) + Bit(x, lo + n) * Pow2(n)
    decreases n
  {
    if n > 0 {
      BitsSnoc(x, lo + 1, n - 1);
      assert Bit(x, lo + n) * Pow2(n) == 2 * (Bit(x, lo + n) * Pow2(n - 1));
    } else {
      assert Bits(x, lo + 1, 0) == 0;
    }
  }

  lemma ShiftOne(x: nat, a: nat)
    ensures x / Pow2(a) / 2 == x / Pow2(a + 1)
  {
    ShiftShift(x, a, 1);
    assert Pow2(1) == 2 * Pow2(0);
  }

  lemma LowestBit(y: nat, m: nat)
    requires m > 0
    ensures y % (2 * m) == y % 2 + 2 * (y / 2 % m)
  {
    var h := y / 2;
    var t := h % m;
    assert h == m * (h / m) + t;
    DivUnique(y, 2 * m, h / m, 2 * t + y % 2) by {
      assert y == 2 * h + y % 2;
      assert 2 * (m * (h / m)) == (2 * m) * (h / m);
    }
  }

  lemma OneMoreBit(x: nat, lo: nat, m: nat, rest: nat)
    requires m > 0 && rest == x / Pow2(lo + 1) % m
    ensures Bit(x, lo) + 2 * rest == x / Pow2(lo) % (2 * m)
  {
    ShiftOne(x, lo);
    LowestBit(x / Pow2(lo), m);
  }

  lemma {:induction false} BitsAreRemainder(x: nat, lo: nat, n: nat)
    ensures Bits(x, lo, n) == x / Pow2(lo) % Pow2(n)
    decreases n
  {
    if n > 0 {
      BitsAreRemainder(x, lo + 1, n - 1);
      OneMoreBit(x, lo, Pow2(n - 1), Bits(x, lo + 1, n - 1));
    }
  }

  lemma AddMultiple(x: nat, m: nat, k: nat)
    requires m > 0
    ensures (x + m * k) / m == x / m + k
  {
    Distribute(m, x / m, k);
    DivUnique(x + m * k, m, x / m + k, x % m);
  }

  lemma Factor(a: nat, b: nat, w: nat, f: nat)
    ensures (a + b * w) * f == a * f + b * (w * f)
  {}

  /** One more group behind an id e with marker r at weight w and lower groups b. */
  lemma Horner(e: nat, r: nat, w: nat, b: nat, f: nat, d: nat, e': nat, w': nat, b': nat)
    requires e == r * w + b && e' == e * f + d && w' == w * f && b' == d + b * f
    ensures e' == r * w' + b'
  {
    Factor(b, r, w, f);
  }

  lemma Regroup(b: nat, m: nat, k: nat)
    ensures b * (m * k) == m * (b * k)
  {}

  lemma AddTwice(x: nat, m: nat, k: nat)
    requires m > 0
    ensures (x + m * (2 * k)) / m % 2 == x / m % 2
  {
    AddMultiple(x, m, 2 * k);
  }

  lemma HighPart(b: nat, h: nat, j: nat)
    requires j < h
    ensures b * Pow2(h) == Pow2(j) * (2 * (b * Pow2(h - j - 1)))
  {
    Pow2Add(j, h - j);
    Regroup(b, Pow2(j), Pow2(h - j));
    Regroup(b, 2, Pow2(h - j - 1));
  }

  /** Higher bits do not show in lower ones. */
  lemma AddHigh(x: nat, b: nat, h: nat, j: nat)
    requires j < h
    ensures Bit(x + b * Pow2(h), j) == Bit(x, j)
  {
    HighPart(b, h, j);
    AddTwice(x, Pow2(j), b * Pow2(h - j - 1));
  }

  lemma TopBit(x: nat, b: nat, h: nat)
    requires x < Pow2(h) && b < 2
    ensures Bit(x + b * Pow2(h), h) == b
  {
    DivUnique(x + b * Pow2(h), Pow2(h), b, x);
  }
}
