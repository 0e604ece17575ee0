/** Bitwise AND on unbounded naturals, powers of two, and residues of word arithmetic. */
module Bits {

  function Pow2(k: nat): (p: nat)
    ensures p >= 1
  {
    if k == 0 then 1 else 2 * Pow2(k - 1)
  }

  function And(a: nat, b: nat): (r: nat)
    ensures r <= a && r <= b
    decreases a
  {
    if a == 0 || b == 0 then 0
    else 2 * And(a / 2, b / 2) + (if a % 2 == 1 && b % 2 == 1 then 1 else 0)
  }

  lemma {:induction false} AndWithOnes(a: nat, w: nat)
    requires a < Pow2(w)
    ensures And(a, Pow2(w) - 1) == a
    decreases w
  {
    if a != 0 {
      AndWithOnes(a / 2, w - 1);
      assert (Pow2(w) - 1) / 2 == Pow2(w - 1) - 1;
    }
  }

  lemma {:induction false} HalveModulus(a: nat, p: nat)
    requires p >= 1
    ensures a % (2 * p) == 2 * ((a / 2) % p) + a % 2
  {
    var h, r := a / 2, a % 2;
    var q, m := h / p, h % p;
    assert a == (2 * p) * q + (2 * m + r);
    RemainderIs(a, 2 * p, q, 2 * m + r);
  }

  lemma {:induction false} RemainderIs(a: nat, d: nat, q: nat, r: nat)
    requires d >= 1 && r < d && a == d * q + r
    ensures a % d == r && a / d == q
  {
    var q', r' := a / d, a % d;
    Multiples(d, q, q');
  }

  lemma {:induction false} Multiples(d: nat, x: nat, y: nat)
    requires d >= 1
    ensures x < y ==> d * x + d <= d * y
    ensures y < x ==> d * y + d <= d * x
  {
    if x < y {
      Distribute(d, x + 1, y - x - 1);
      Distribute(d, x, 1);
    } else if y < x {
      Distribute(d, y + 1, x - y - 1);
      Distribute(d, y, 1);
    }
  }

  lemma {:induction false} Distribute(d: nat, x: nat, y: nat)
    ensures d * (x + y) == d * x + d * y
    ensures d * y >= 0
  {
  }

  lemma {:induction false} AndEven(a: nat, b: nat)
    ensures And(a, 2 * b) == 2 * And(a / 2, b)
  {
  }

  lemma {:induction false} MaskStep(a: nat, h: nat, p: nat, q: nat)
    requires 1 <= p <= q && h == a / 2 && And(h, q - p) == h - h % p
    ensures And(a, 2 * q - 2 * p) == a - a % (2 * p)
  {
    assert 2 * q - 2 * p == 2 * (q - p);
    AndEven(a, q - p);
    HalveModulus(a, p);
  }

  /** Clearing the low `k` bits of a `w`-bit number rounds it down to a multiple of 2^k. */
  lemma {:induction false} MaskRoundsDown(a: nat, k: nat, w: nat)
    requires k <= w && a < Pow2(w)
    ensures Pow2(k) <= Pow2(w)
    ensures And(a, Pow2(w) - Pow2(k)) == a - a % Pow2(k)
    decreases k
  {
    if k == 0 {
      AndWithOnes(a, w);
      assert a % 1 == 0;
    } else {
      var h, p, q := a / 2, Pow2(k - 1), Pow2(w - 1);
      assert Pow2(k) == 2 * p && Pow2(w) == 2 * q;
      MaskRoundsDown(h, k - 1, w - 1);
      MaskStep(a, h, p, q);
    }
  }

  lemma {:induction false} AndOdd(a: nat, b: nat)
    ensures And(a, 2 * b + 1) == 2 * And(a / 2, b) + a % 2
  {
  }

  lemma {:induction false} AndDigit(a: nat)
    ensures And(a, 0xf) == a % 0x10
  {
    AndOdd(a, 7);
    AndOdd(a / 2, 3);
    AndOdd(a / 2 / 2, 1);
    AndOdd(a / 2 / 2 / 2, 0);
  }

  lemma {:induction false} AndByFour(a: nat, b: nat)
    ensures And(a, 4 * b) == 4 * And(a / 4, b)
  {
    AndEven(a, 2 * b);
    AndEven(a / 2, b);
    assert a / 2 / 2 == a / 4;
  }

  lemma {:induction false} AndShifted(a: nat, b: nat)
    ensures And(a, 0x10 * b) == 0x10 * And(a / 0x10, b)
  {
    AndByFour(a, 4 * b);
    AndByFour(a / 4, b);
    assert a / 4 / 4 == a / 0x10;
  }

  lemma {:induction false} ShiftedThrice(a: nat, b: nat)
    ensures And(a, 0x1000 * b) == 0x1000 * And(a / 0x1000, b)
  {
    AndShifted(a, 0x100 * b);
    AndShifted(a / 0x10, 0x10 * b);
    AndShifted(a / 0x10 / 0x10, b);
    assert a / 0x10 / 0x10 / 0x10 == a / 0x1000;
  }

  /** The bits of a mode that tell the type of a file. */
  const S_IFMT: nat := 0xf000

  lemma {:induction false} TypeField(mode: nat)
    ensures And(mode, S_IFMT) == mode / 0x1000 % 0x10 * 0x1000
  {
    ShiftedThrice(mode, 0xf);
    AndDigit(mode / 0x1000);
  }

  const TWO32: nat := 0x1_0000_0000
  const TWO64: nat := 0x1_0000_0000_0000_0000

  type U64 = x: int | 0 <= x < 0x1_0000_0000_0000_0000

  lemma {:induction false} Pow2Sum(a: nat, b: nat)
    ensures Pow2(a + b) == Pow2(a) * Pow2(b)
    decreases a
  {
    if a != 0 {
      Pow2Sum(a - 1, b);
      assert Pow2(a) * Pow2(b) == 2 * (Pow2(a - 1) * Pow2(b));
    }
  }

  lemma {:induction false} Pow2Word(w: nat)
    requires w == 64
    ensures Pow2(w) == TWO64
  {
    var e, h := 8, 16;
    assert Pow2(e) == 256;
    Pow2Sum(e, e);
    Pow2Sum(h, h);
    var d := 32;
    Pow2Sum(d, d);
  }

  lemma {:induction false} Pow2Grows(a: nat, b: nat)
    requires a < b
    ensures Pow2(a) < Pow2(b)
    decreases b
  {
    if a + 1 < b {
      Pow2Grows(a, b - 1);
    }
  }

  // ---- residues ----

  lemma {:induction false} IntRemainder(a: int, m: nat, q: int, r: nat)
    requires m >= 1 && r < m && a == m * q + r
    ensures a % m == r
  {
    var q', r' := a / m, a % m;
    assert m * q' + r' == m * q + r;
    if q < q' {
      IntMultiples(m, q, q');
    } else if q' < q {
      IntMultiples(m, q', q);
    }
  }

  lemma {:induction false} IntMultiples(m: nat, x: int, y: int)
    requires m >= 1 && x < y
    ensures m * x + m <= m * y
  {
    var z := y - x - 1;
    assert m * (x + 1 + z) == m * (x + 1) + m * z;
    assert m * (x + 1) == m * x + m;
  }

  /** Subtracting, adding and shifting residues. */
  lemma {:induction false} ModDifference(a: int, b: int, m: nat)
    requires m >= 1
    ensures (a % m - b % m) % m == (a - b) % m
  {
    var d := a % m - b % m;
    var q := a / m - b / m + d / m;
    assert m * (a / m - b / m + d / m) == m * (a / m) - m * (b / m) + m * (d / m);
    IntRemainder(a - b, m, q, d % m);
  }

  lemma {:induction false} ModSum(a: int, b: int, m: nat)
    requires m >= 1
    ensures (a % m + b % m) % m == (a + b) % m
  {
    var d := a % m + b % m;
    var q := a / m + b / m + d / m;
    assert m * (a / m + b / m + d / m) == m * (a / m) + m * (b / m) + m * (d / m);
    IntRemainder(a + b, m, q, d % m);
  }

  lemma {:induction false} ModScale(a: int, k: nat, m: nat)
    requires m >= 1
    ensures ((a % m) * k) % m == (a * k) % m
  {
    var d := (a % m) * k;
    var q := (a / m) * k + d / m;
    assert a * k == (m * (a / m) + a % m) * k;
    assert (m * (a / m) + a % m) * k == m * ((a / m) * k) + d;
    assert m * q == m * ((a / m) * k) + m * (d / m);
    IntRemainder(a * k, m, q, d % m);
  }

  lemma {:induction false} QuotientBelow(a: nat, d: nat, b: nat)
    requires d >= 1 && a < b * d
    ensures 0 <= a / d < b
  {
    var q := a / d;
    if q >= b {
      Distribute(d, b, q - b);
    }
  }
}
