/** The shift-and-add 64-bit hash and the bucket it selects. */
module GoldenHash {
  import opened Bits

  const GOLDEN_RATIO_PRIME_64: nat := 0x9e37fffffffc0001

  /** a >> s */
  function ShiftRight(a: nat, s: nat): nat {
    QuotientBelow(a, Pow2(s), a + 1);
    a / Pow2(s)
  }

  /** Multiplicative hashing: the high bits of a 64-bit product. */
  function Hash(val: nat, bits: nat): nat
    requires bits <= 64
  {
    ShiftRight((val * GOLDEN_RATIO_PRIME_64) % TWO64, 64 - bits)
  }

  /** n <<= s in 64 bits, when `n` is `val` shifted by `k` already. */
  method ShiftLeft(n: nat, s: nat, ghost val: nat, ghost k: nat) returns (r: nat)
    requires n == Shifted(val, k) % TWO64
    ensures r == Shifted(val, k + s) % TWO64
  {
    Pow2Sum(k, s);
    ModScale(val * Pow2(k), Pow2(s), TWO64);
    assert val * Pow2(k) * Pow2(s) == val * (Pow2(k) * Pow2(s));
    r := (n * Pow2(s)) % TWO64;
  }

  /** `val` shifted left by `k`, without wrap-around. */
  ghost function Shifted(val: nat, k: nat): nat {
    val * Pow2(k)
  }

  lemma {:induction false} Distributes(v: int, a: int, b: int, c: int, d: int, e: int, f: int)
    ensures v * (1 - a - b + c - d + e + f) == v - v * a - v * b + v * c - v * d + v * e + v * f
  {
  }

  lemma {:induction false} GoldenWeights(val: nat)
    ensures val * GOLDEN_RATIO_PRIME_64 ==
            val - Shifted(val, 18) - Shifted(val, 51) + Shifted(val, 54) - Shifted(val, 57)
            + Shifted(val, 61) + Shifted(val, 63)
  {
    Weights(18, 51, 54, 57, 61, 63);
    Distributes(val, Pow2(18), Pow2(51), Pow2(54), Pow2(57), Pow2(61), Pow2(63));
  }

  lemma {:induction false} Weights(a: nat, b: nat, c: nat, d: nat, e: nat, f: nat)
    requires a == 18 && b == 51 && c == 54 && d == 57 && e == 61 && f == 63
    ensures Pow2(a) == 0x4_0000 && Pow2(b) == 0x8_0000_0000_0000 && Pow2(c) == 0x40_0000_0000_0000
    ensures Pow2(d) == 0x200_0000_0000_0000 && Pow2(e) == 0x2000_0000_0000_0000 && Pow2(f) == 0x8000_0000_0000_0000
  {
    var t, u, v := 3, 15, 4;
    assert Pow2(t) == 8 && Pow2(v) == 16 && Pow2(u) == 0x8000;
    Pow2Sum(t, u);
    Pow2Sum(u, a);
    Pow2Sum(a, u + a);
    Pow2Sum(b, t);
    Pow2Sum(c, t);
    Pow2Sum(d, v);
    Pow2Sum(e, 2);
  }

  /** The first three shifts and additions. */
  method MixFirst(val: nat) returns (hash: nat, n: nat, ghost x: int)
    requires val < TWO64
    ensures x == val - Shifted(val, 18) - Shifted(val, 51) + Shifted(val, 54)
    ensures hash == x % TWO64 && n == Shifted(val, 54) % TWO64
  {
    hash, x, n := val, val, val;
    assert Shifted(val, 0) == val;
    n := ShiftLeft(n, 18, val, 0);
    hash, x := Minus(hash, n, x, Shifted(val, 18));
    n := ShiftLeft(n, 33, val, 18);
    hash, x := Minus(hash, n, x, Shifted(val, 51));
    n := ShiftLeft(n, 3, val, 51);
    hash, x := Plus(hash, n, x, Shifted(val, 54));
  }

  /** The other three. */
  method MixLast(hash: nat, n: nat, ghost val: nat, ghost x: int) returns (r: nat)
    requires hash == x % TWO64 && n == Shifted(val, 54) % TWO64
    ensures r == (x - Shifted(val, 57) + Shifted(val, 61) + Shifted(val, 63)) % TWO64
  {
    ghost var y;
    var m := ShiftLeft(n, 3, val, 54);
    r, y := Minus(hash, m, x, Shifted(val, 57));
    m := ShiftLeft(m, 4, val, 57);
    r, y := Plus(r, m, y, Shifted(val, 61));
    m := ShiftLeft(m, 2, val, 61);
    r, y := Plus(r, m, y, Shifted(val, 63));
  }

  /** The shifts and additions of the source multiply by the golden ratio prime. */
  method Mix(val: nat) returns (hash: nat)
    requires val < TWO64
    ensures hash == (val * GOLDEN_RATIO_PRIME_64) % TWO64
  {
    var h, n, x := MixFirst(val);
    hash := MixLast(h, n, val, x);
    GoldenWeights(val);
  }

  method Hash64(val: nat, bits: nat) returns (r: nat)
    requires val < TWO64 && 1 <= bits <= 63
    ensures r == Hash(val, bits) && r < Pow2(bits)
  {
    var hash := Mix(val);
    HashInRange(val, bits);
    r := ShiftRight(hash, 64 - bits);
  }

  /** hash -= n in 64 bits; `x` and `y` are the values without wrap-around. */
  method Minus(hash: nat, n: nat, ghost x: int, ghost y: int) returns (r: nat, ghost z: int)
    requires hash == x % TWO64 && n == y % TWO64
    ensures z == x - y && r == z % TWO64
  {
    ModDifference(x, y, TWO64);
    r, z := (hash - n) % TWO64, x - y;
  }

  /** hash += n in 64 bits. */
  method Plus(hash: nat, n: nat, ghost x: int, ghost y: int) returns (r: nat, ghost z: int)
    requires hash == x % TWO64 && n == y % TWO64
    ensures z == x + y && r == z % TWO64
  {
    ModSum(x, y, TWO64);
    r, z := (hash + n) % TWO64, x + y;
  }

  lemma {:induction false} HashInRange(val: nat, bits: nat)
    requires bits <= 64
    ensures Hash(val, bits) < Pow2(bits)
  {
    var p := (val * GOLDEN_RATIO_PRIME_64) % TWO64;
    Pow2Word(64);
    Pow2Sum(bits, 64 - bits);
    QuotientBelow(p, Pow2(64 - bits), Pow2(bits));
  }
}
