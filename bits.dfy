/**
 * JavaScript's bitwise operators (`<<`, `>>`, `&`, `|`, `^`) on non-negative
 * integers. JavaScript applies them to 32-bit two's-complement values; for
 * operands and results below 2^31 that is the same as the definitions here,
 * which work on unbounded naturals bit by bit.
 */
module Bits {

  /** `2^k`. */
  function Pow2(k: nat): (p: nat)
    ensures p >= 1
  {
    if k == 0 then 1 else 2 * Pow2(k - 1)
  }

  /** `x << k` */
  function Shl(x: nat, k: nat): nat
  {
    x * Pow2(k)
  }

  /** `x >> k` */
  function Shr(x: nat, k: nat): nat
  {
    DivFacts(x, Pow2(k));
    x / Pow2(k)
  }

  /** `a | b`, one bit at a time from the least significant end */
  function Or(a: nat, b: nat): nat
    decreases a + b
  {
    if a == 0 then b
    else if b == 0 then a
    else 2 * Or(a / 2, b / 2) + (if a % 2 == 1 || b % 2 == 1 then 1 else 0)
  }

  /** `a & b` */
  function And(a: nat, b: nat): nat
    decreases a
  {
    if a == 0 || b == 0 then 0
    else 2 * And(a / 2, b / 2) + (if a % 2 == 1 && b % 2 == 1 then 1 else 0)
  }

  /** `a ^ b` */
  function Xor(a: nat, b: nat): nat
    decreases a + b
  {
    if a == 0 then b
    else if b == 0 then a
    else 2 * Xor(a / 2, b / 2) + (if a % 2 != b % 2 then 1 else 0)
  }

  /** Bit 0 of `a | b` is set iff it is set in `a` or in `b`. */
  lemma OrBit0(a: nat, b: nat)
    ensures Or(a, b) % 2 == if a % 2 == 1 || b % 2 == 1 then 1 else 0
  {
    if a != 0 && b != 0 {
      var h, bit := Or(a / 2, b / 2), if a % 2 == 1 || b % 2 == 1 then 1 else 0;
      assert Or(a, b) == 2 * h + bit;
    }
  }

  /** `x & 1` is bit 0 of `x`. */
  lemma AndOne(x: nat)
    ensures And(x, 1) == x % 2
  {
    if x != 0 {
      assert And(x / 2, 0) == 0;
    }
  }

  /** `&` is commutative. */
  lemma {:induction false} AndComm(a: nat, b: nat)
    ensures And(a, b) == And(b, a)
    decreases a + b
  {
    if a != 0 && b != 0 {
      AndComm(a / 2, b / 2);
    }
  }

  /** A bitwise OR of operands with no common bit is their sum. */
  lemma {:induction false} OrDisjoint(a: nat, b: nat)
    requires And(a, b) == 0
    ensures Or(a, b) == a + b
    decreases a + b
  {
    if a != 0 && b != 0 {
      OrDisjoint(a / 2, b / 2);
    }
  }

  /** Masking with `k` one bits keeps a value that fits in `k` bits. */
  lemma {:induction false} AndAllOnes(y: nat, k: nat)
    requires y < Pow2(k)
    ensures And(y, Pow2(k) - 1) == y
  {
    if k > 0 && y > 0 {
      assert Pow2(k) - 1 == 2 * (Pow2(k - 1) - 1) + 1;
      AndAllOnes(y / 2, k - 1);
    }
  }

  /** Multiplying by `2^k` is doubling a multiple of `2^(k-1)`. */
  lemma MulPow2Step(a: nat, k: nat)
    requires k > 0
    ensures a * Pow2(k) == 2 * (a * Pow2(k - 1))
  {
    assert Pow2(k) == 2 * Pow2(k - 1);
  }

  /** A mask that fits in the low `k` bits sees only the low `k` bits. */
  lemma {:induction false} AndLowPart(a: nat, b: nat, m: nat, k: nat)
    requires b < Pow2(k) && m < Pow2(k)
    ensures And(a * Pow2(k) + b, m) == And(b, m)
  {
    if k > 0 {
      var h := a * Pow2(k - 1);
      MulPow2Step(a, k);
      var x := a * Pow2(k) + b;
      assert x == 2 * h + b;
      assert x / 2 == h + b / 2 && x % 2 == b % 2;
      AndLowPart(a, b / 2, m / 2, k - 1);
      if m != 0 && b == 0 {
        assert And(b / 2, m / 2) == 0;
      }
    } else {
      assert b == 0 && m == 0;
    }
  }
  /** AndLowPart for an `x` known to be `a * p + b` with `p == 2^k`: stated about `x` itself. */
  lemma AndLowPartAt(x: nat, a: nat, b: nat, m: nat, p: nat, k: nat)
    requires p == Pow2(k) && b < p && m < p && x == a * p + b
    ensures And(x, m) == And(b, m)
  {
    AndLowPart(a, b, m, k);
  }

  /** A product of naturals is a natural. */
  lemma MulNat(a: nat, b: nat)
    ensures a * b >= 0
  {
  }


  /** `a & b` peels off bit 0 the same way for every pair, zeros included. */
  lemma AndUnfold(a: nat, b: nat)
    ensures And(a, b) == 2 * And(a / 2, b / 2) + (if a % 2 == 1 && b % 2 == 1 then 1 else 0)
  {
    if a == 0 {
      assert And(a / 2, b / 2) == 0;
    } else if b == 0 {
      assert And(a / 2, b / 2) == 0;
    }
  }



  /** `&` works on the bits above `k` and the bits below `k` separately. */
  lemma AndSplit(a: nat, b: nat, m: nat, n: nat, k: nat)
    requires b < Pow2(k) && n < Pow2(k)
    ensures And(a * Pow2(k) + b, m * Pow2(k) + n) == And(a, m) * Pow2(k) + And(b, n)
  {
    AndSplitAt(a * Pow2(k) + b, m * Pow2(k) + n, a, b, m, n, Pow2(k), k);
  }

  /** AndSplit for `x == a * p + b` and `y == m * p + n`, by induction on `k` with `p == 2^k`. */
  lemma {:induction false} AndSplitAt(x: nat, y: nat, a: nat, b: nat, m: nat, n: nat, p: nat, k: nat)
    requires p == Pow2(k) && b < p && n < p && x == a * p + b && y == m * p + n
    ensures And(x, y) == And(a, m) * p + And(b, n)
    decreases k
  {
    if k > 0 {
      var p1 := Pow2(k - 1);
      HalveParts(x, a, b, p, p1);
      HalveParts(y, m, n, p, p1);
      AndSplitAt(x / 2, y / 2, a, b / 2, m, n / 2, p1, k - 1);
      MulTwice(And(a, m), p, p1);
      AndCombine(x, y, b, n, And(a, m) * p, And(a, m) * p1);
    } else {
      assert p == 1;
      MulByOne(a, p);
      MulByOne(m, p);
      MulByOne(And(a, m), p);
      assert b == 0 && n == 0;
    }
  }

  /** Multiplying by 1 changes nothing. */
  lemma MulByOne(a: nat, p: nat)
    requires p == 1
    ensures a * p == a
  {
  }

  /**
   * The step of AndSplitAt: with bit 0 of `x` and `y` that of `b` and `n`,
   * and the halves splitting into a high part `hp1` and the halved low parts,
   * the whole splits into `hp == 2 hp1` and `b & n`.
   */
  lemma AndCombine(x: nat, y: nat, b: nat, n: nat, hp: nat, hp1: nat)
    requires x % 2 == b % 2 && y % 2 == n % 2 && hp == 2 * hp1
    requires And(x / 2, y / 2) == hp1 + And(b / 2, n / 2)
    ensures And(x, y) == hp + And(b, n)
  {
    AndUnfold(x, y);
    AndUnfold(b, n);
  }

  /** Doubling one factor doubles the product. */
  lemma MulTwice(h: nat, p: nat, p1: nat)
    requires p == 2 * p1
    ensures h * p1 >= 0 && h * p == 2 * (h * p1)
  {
  }

  /** Halving `x == a * p + b`, for an even `p == 2 p1` above `b`, halves `b` and keeps its bit 0. */
  lemma HalveParts(x: nat, a: nat, b: nat, p: nat, p1: nat)
    requires p == 2 * p1 && b < p && x == a * p + b
    ensures x / 2 == a * p1 + b / 2 && x % 2 == b % 2 && b / 2 < p1
  {
    assert a * p == 2 * (a * p1);
    DivUnique(x, 2, a * p1 + b / 2, b % 2);
  }

  /** `d * t >= d` for a positive `t` */
  lemma {:induction false} MulAtLeast(d: nat, t: nat)
    requires t >= 1
    ensures d * t >= d
  {
    if t > 1 {
      MulAtLeast(d, t - 1);
      assert d * t == d * (t - 1) + d;
    }
  }

  /** The quotient and remainder of Euclidean division are unique. */
  lemma DivUnique(n: nat, d: nat, q: nat, r: nat)
    requires d > 0 && r < d && n == d * q + r
    ensures n / d == q && n % d == r
  {
    var q0, r0 := n / d, n % d;
    assert n == d * q0 + r0;
    if q > q0 {
      assert d * (q - q0) == d * q - d * q0;
      MulAtLeast(d, q - q0);
    } else if q < q0 {
      assert d * (q0 - q) == d * q0 - d * q;
      MulAtLeast(d, q0 - q);
    }
  }

  /** OR-ing a value below `2^k` into a multiple of `2^k` adds it. */
  lemma OrLowBits(a: nat, b: nat, k: nat)
    requires b < Pow2(k)
    ensures Or(a * Pow2(k), b) == a * Pow2(k) + b
    ensures Or(b, a * Pow2(k)) == a * Pow2(k) + b
  {
    AndLowPart(a, 0, b, k);
    OrDisjoint(a * Pow2(k), b);
    AndComm(a * Pow2(k), b);
    OrDisjoint(b, a * Pow2(k));
  }

  /**
   * OrLowBits for an `h` known to be the multiple `a * p` of the power of two
   * `p`: the OR is stated about `h` itself.
   */
  lemma OrAt(h: nat, a: nat, b: nat, p: nat, k: nat)
    requires p == Pow2(k) && h == a * p && b < p
    ensures Or(h, b) == h + b && Or(b, h) == h + b
  {
    OrLowBits(a, b, k);
  }

  /** Division of a natural by a positive number: the quotient is a natural. */
  lemma DivFacts(x: nat, p: nat)
    requires p > 0
    ensures x / p >= 0 && x % p < p && x == (x / p) * p + x % p
  {
  }

  /** Multiplying by `p` and dividing by it gives the number back. */
  lemma MulDivCancel(z: nat, p: nat)
    requires p > 0
    ensures (z * p) / p == z
  {
    DivUnique(z * p, p, z, 0);
  }

  /**
   * A mask `n == m * 2^k` made of bits at or above `k` ignores the low `k`
   * bits of `x == a * 2^k + b`.
   */
  lemma {:induction false} AndHighPartAt(x: nat, a: nat, b: nat, m: nat, n: nat, p: nat, k: nat)
    requires p == Pow2(k) && b < p && x == a * p + b && n == m * p
    ensures And(x, n) == And(a, m) * p
    decreases k
  {
    if k > 0 {
      var p1 := Pow2(k - 1);
      HalveParts(x, a, b, p, p1);
      MulTwice(m, p, p1);
      AndHighPartAt(x / 2, a, b / 2, m, m * p1, p1, k - 1);
      MulTwice(And(a, m), p, p1);
      AndUnfold(x, n);
    } else {
      assert p == 1;
      MulByOne(a, p);
      MulByOne(m, p);
      MulByOne(And(a, m), p);
    }
  }


  /**
   * The field of an `x` built as `hi`, then a `w`-bit field `v`, then `k`
   * low bits `lo`: the mask `mask == (2^w - 1) * 2^k` keeps `v * 2^k`.
   */
  lemma MaskFieldAt(x: nat, k: nat, w: nat, mask: nat, p: nat, q: nat, hi: nat, v: nat, lo: nat)
    requires p == Pow2(k) && q == Pow2(w) && mask == (q - 1) * p
    requires v < q && lo < p && x == p * (q * hi + v) + lo
    ensures And(x, mask) == v * p
  {
    MulNat(q, hi);
    var y: nat := q * hi + v;
    var m: nat := q - 1;
    FieldHigh(x, y, lo, m, mask, p, k);
    FieldLow(y, hi, v, m, q, w);
  }

  /** A mask `m * 2^k` over `x == 2^k * y + lo` sees `y & m`, moved up. */
  lemma FieldHigh(x: nat, y: nat, lo: nat, m: nat, mask: nat, p: nat, k: nat)
    requires p == Pow2(k) && lo < p && x == p * y + lo && mask == m * p
    ensures And(x, mask) == And(y, m) * p
  {
    MulComm(p, y);
    AndHighPartAt(x, y, lo, m, mask, p, k);
  }

  /** The all-ones mask `2^w - 1` over `y == 2^w * hi + v` keeps `v`. */
  lemma FieldLow(y: nat, hi: nat, v: nat, m: nat, q: nat, w: nat)
    requires q == Pow2(w) && v < q && m == q - 1 && y == q * hi + v
    ensures And(y, m) == v
  {
    MulComm(q, hi);
    AndLowPartAt(y, hi, v, m, q, w);
    AndAllOnes(v, w);
  }

  /** Multiplication commutes. */
  lemma MulComm(a: nat, b: nat)
    ensures a * b == b * a
  {
  }

  /** `a & b` is at most `b`. */
  lemma {:induction false} AndAtMost(a: nat, b: nat)
    ensures And(a, b) <= b
    decreases a
  {
    if a != 0 && b != 0 {
      AndAtMost(a / 2, b / 2);
    }
  }

  /**
   * The field of an `x` built as `hi`, then a `w`-bit field `v`, then
   * `k` low bits `lo`: the mask `mask == (2^w - 1) * 2^k` and shift `k`
   * yield `v`.
   */
  lemma FieldAt(x: nat, k: nat, w: nat, mask: nat, p: nat, q: nat, hi: nat, v: nat, lo: nat)
    requires p == Pow2(k) && q == Pow2(w) && mask == (q - 1) * p
    requires v < q && lo < p && x == p * (q * hi + v) + lo
    ensures Shr(And(x, mask), k) == v
  {
    MaskFieldAt(x, k, w, mask, p, q, hi, v, lo);
    MulDivCancel(v, p);
  }

  /** `a | b` peels off bit 0 the same way for every pair, zeros included. */
  lemma OrUnfold(a: nat, b: nat)
    ensures Or(a, b) / 2 == Or(a / 2, b / 2)
    ensures Or(a, b) % 2 == if a % 2 == 1 || b % 2 == 1 then 1 else 0
  {
    if a == 0 {
      assert Or(a / 2, b / 2) == b / 2;
    } else if b == 0 {
      assert Or(a / 2, b / 2) == a / 2;
    }
  }

  /** `|` is associative. */
  lemma {:induction false} OrAssoc(a: nat, b: nat, c: nat)
    ensures Or(Or(a, b), c) == Or(a, Or(b, c))
    decreases a + b + c
  {
    var ab, bc := Or(a, b), Or(b, c);
    var l, r := Or(ab, c), Or(a, bc);
    if a + b + c != 0 {
      OrUnfold(a, b);
      OrUnfold(b, c);
      OrUnfold(ab, c);
      OrUnfold(a, bc);
      OrAssoc(a / 2, b / 2, c / 2);
      assert l / 2 == r / 2 && l % 2 == r % 2;
    }
  }

  /** `x << k` has its low bit clear for `k >= 1`, and its two low bits clear for `k >= 2`. */
  lemma ShlLowBits(x: nat, k: nat)
    ensures k >= 1 ==> Shl(x, k) % 2 == 0
    ensures k >= 2 ==> Shl(x, k) % 4 == 0
  {
    if k >= 2 {
      ShlQuad(x, k);
    } else if k == 1 {
      MulTwice(x, Pow2(1), 1);
    }
  }

  /** `x << k` for `k >= 2` is four times `x << (k - 2)`. */
  lemma ShlQuad(x: nat, k: nat)
    requires k >= 2
    ensures Shl(x, k) % 4 == 0 && Shl(x, k) % 2 == 0
  {
    var q := Pow2(k - 2);
    assert Pow2(k) == 2 * Pow2(k - 1) && Pow2(k - 1) == 2 * q;
    MulFour(x, q, Pow2(k));
    FourTimes(x * q, Shl(x, k));
  }

  /** `x * (4 * q)` is four times `x * q`. */
  lemma MulFour(x: nat, q: nat, p: nat)
    requires p == 4 * q
    ensures x * q >= 0 && x * p == 4 * (x * q)
  {
  }

  /** Four times a value is a multiple of 4, and even. */
  lemma FourTimes(y: nat, z: nat)
    requires z == 4 * y
    ensures z % 4 == 0 && z % 2 == 0
  {
    DivUnique(z, 4, y, 0);
    DivUnique(z, 2, 2 * y, 0);
  }

  /** The two low bits of `x` are bit 0 and bit 0 of `x / 2`. */
  lemma Mod4Split(x: nat)
    ensures x % 4 == 2 * ((x / 2) % 2) + x % 2
  {
    var q, r := x / 4, x % 4;
    assert x == 4 * q + r;
    DivUnique(x, 2, 2 * q + r / 2, r % 2);
    DivUnique(x / 2, 2, q, r / 2);
  }

  /** OR-ing in a multiple of 4 keeps the two low bits. */
  lemma OrKeepsLow2(a: nat, b: nat)
    requires b % 4 == 0
    ensures Or(a, b) % 4 == a % 4
  {
    Mod4Split(b);
    Mod4Split(a);
    Mod4Split(Or(a, b));
    OrUnfold(a, b);
    OrBit0(a / 2, b / 2);
  }

  /** Masking with `m` keeps the two low bits of `c` that `m` has. */
  lemma AndLow2(c: nat, m: nat)
    ensures And(c, m) % 4 == And(c % 4, m % 4)
  {
    assert Pow2(2) == 4;
    DivFacts(c, 4);
    DivFacts(m, 4);
    AndSplitAt(c, m, c / 4, c % 4, m / 4, m % 4, 4, 2);
    MulNat(And(c / 4, m / 4), 4);
    AndAtMost(c % 4, m % 4);
    DivUnique(And(c, m), 4, And(c / 4, m / 4), And(c % 4, m % 4));
  }

  /** Products keep the order of their left factors. */
  lemma MulMonotone(a: nat, b: nat, p: nat)
    requires a <= b
    ensures a * p <= b * p
  {
    MulNat(b - a, p);
    assert b * p == a * p + (b - a) * p;
  }

  /** Shifting a value below `(b + 1) * 2^k` right by `k` gives at most `b`. */
  lemma ShrAtMost(y: nat, k: nat, b: nat)
    requires y < (b + 1) * Pow2(k)
    ensures Shr(y, k) <= b
  {
    var p := Pow2(k);
    DivFacts(y, p);
    if y / p > b {
      MulMonotone(b + 1, y / p, p);
    }
  }

  /** A value below 2^16 is its low byte OR-ed with its high byte shifted back up. */
  lemma ByteSplit(c: nat)
    ensures And(c, 255) == c % 256
    ensures Or(And(c, 255), Shl(Shr(c, 8), 8)) == c
  {
    assert Pow2(8) == 256;
    DivFacts(c, 256);
    AndLowPartAt(c, c / 256, c % 256, 255, 256, 8);
    AndAllOnes(c % 256, 8);
    OrLowBits(c / 256, c % 256, 8);
  }
}
