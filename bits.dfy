/** Python integer bit operations on unbounded `int`s. Python's `&` with a
    mask `2^k - 1` keeps the low `k` bits of the two's-complement value, which
    is `x mod 2^k` (Dafny's `%` is Euclidean, so never negative); `<<` is
    multiplication by `2^k` and `>>` is floor division, which Dafny's `/`
    by a positive divisor is. Only `|` needs a definition of its own. */
module Bits {

  function Pow2(k: nat): (r: nat)
    ensures r >= 1
  {
    if k == 0 then 1 else 2 * Pow2(k - 1)
  }

  /** `x & (2^k - 1)` */
  function Mask(x: int, k: nat): (r: int)
    ensures 0 <= r < Pow2(k)
  {
    x % Pow2(k)
  }

  /** `x << k` */
  function Shl(x: int, k: nat): int
  {
    x * Pow2(k)
  }

  /** `x >> k`: arithmetic shift, rounding towards minus infinity. */
  function Shr(x: int, k: nat): int
  {
    x / Pow2(k)
  }

  /** `x & (2^hi - 2^lo)`: bits `hi-1` down to `lo` of `x`, in place. */
  function MaskRange(x: int, lo: nat, hi: nat): int
  {
    Mask(x, hi) - Mask(x, lo)
  }

  /** The `width` bits of `w` starting at bit `lo`: `(w >> lo) & (2^width - 1)`. */
  function Field(w: int, lo: nat, width: nat): int
  {
    Mask(Shr(w, lo), width)
  }

  /** Reads a `width`-bit pattern as a two's-complement number. */
  function SignExtend(v: int, width: nat): int
    requires width > 0
  {
    if v >= Pow2(width - 1) then v - Pow2(width) else v
  }

  /** Python's `a | b` on two's-complement integers of any sign: the lowest
      bit is `a % 2`, the rest is `a / 2`, and 0 and -1 are the two fixed
      points of the arithmetic shift. */
  function Or(a: int, b: int): int
    decreases (if a < 0 then -a else a) + (if b < 0 then -b else b)
  {
    if (a == 0 || a == -1) && (b == 0 || b == -1) then
      (if a == -1 || b == -1 then -1 else 0)
    else
      2 * Or(a / 2, b / 2) + (if a % 2 == 1 || b % 2 == 1 then 1 else 0)
  }

  lemma {:induction false} OrZeroLeft(b: int)
    ensures Or(0, b) == b
    decreases if b < 0 then -b else b
  {
    if b != 0 && b != -1 {
      OrZeroLeft(b / 2);
    }
  }

  /** OR-ing a value into bits that are all zero adds it:
      `(c << k) | b == (c << k) + b` when `0 <= b < 2^k`. */
  lemma {:induction false} OrDisjoint(c: int, b: int, k: nat)
    requires 0 <= b < Pow2(k)
    ensures Or(Shl(c, k), b) == Shl(c, k) + b
  {
    if k == 0 {
      assert b == 0 && Shl(c, k) == c;
      OrZeroRight(c);
    } else if c == 0 {
      OrZeroLeft(b);
    } else {
      var p := Pow2(k - 1);
      var a := Shl(c, k);
      assert a == 2 * (c * p);
      assert a / 2 == Shl(c, k - 1) && a % 2 == 0;
      OrDisjoint(c, b / 2, k - 1);
    }
  }

  lemma {:induction false} OrZeroRight(a: int)
    ensures Or(a, 0) == a
    decreases if a < 0 then -a else a
  {
    if a != 0 && a != -1 {
      OrZeroRight(a / 2);
    }
  }

  /** OR-ing a value into the part of a word above bit `k` leaves the bits
      below `k` alone: `((h << k) + l) | (c << k) == ((h | c) << k) + l`. */
  lemma {:induction false} OrHigh(h: int, c: int, l: int, k: nat)
    requires 0 <= l < Pow2(k)
    ensures Or(Shl(h, k) + l, Shl(c, k)) == Shl(Or(h, c), k) + l
  {
    if c == 0 {
      OrZeroRight(Shl(h, k) + l);
      OrZeroRight(h);
    } else if k == 0 {
    } else {
      var x, y := Shl(h, k) + l, Shl(c, k);
      Halves(h, c, l, k);
      OrHigh(h, c, l / 2, k - 1);
      OrStep(x, y);
      assert Shl(Or(h, c), k) == 2 * Shl(Or(h, c), k - 1) by { Halves(Or(h, c), 1, 0, k); }
    }
  }

  /** OR-ing a field into the zero bits below a shifted value extends it:
      `(t << k) | (x << j) == u << j` with `u == (t << (k - j)) + x`, when
      `x` fits in `k - j` bits; `p` is `2^(k - j)`. */
  lemma OrAppend(t: int, x: int, k: nat, j: nat, p: int, u: int)
    requires j <= k && p == Pow2(k - j) && 0 <= x < p && u == t * p + x
    ensures Or(Shl(t, k), Shl(x, j)) == Shl(u, j)
  {
    var tp := t * p;
    ShlShl(t, k - j, j, tp);
    OrHigh(tp, x, 0, j);
    OrDisjoint(t, x, k - j);
  }

  /** `(t << a) << b == t << (a + b)`, with `tp` naming `t << a`. */
  lemma ShlShl(t: int, a: nat, b: nat, tp: int)
    requires tp == t * Pow2(a)
    ensures Shl(t, a + b) == Shl(tp, b)
  {
    Pow2Add(a, b);
    MulAssoc(t, Pow2(a), Pow2(b));
  }

  lemma MulAssoc(x: int, y: int, z: int)
    ensures x * (y * z) == (x * y) * z
  {
  }

  lemma {:induction false} Pow2Add(a: nat, b: nat)
    ensures Pow2(a + b) == Pow2(a) * Pow2(b)
  {
    if a > 0 {
      Pow2Add(a - 1, b);
      Double(Pow2(a - 1), Pow2(b), Pow2(a - 1 + b));
    }
  }

  lemma Double(r: int, q: int, v: int)
    requires v == r * q
    ensures 2 * v == (2 * r) * q
  {
  }

  /** One step of `Or`'s recursion, for arguments that are not both 0 or -1. */
  lemma OrStep(a: int, b: int)
    requires !((a == 0 || a == -1) && (b == 0 || b == -1))
    ensures Or(a, b) == 2 * Or(a / 2, b / 2) + (if a % 2 == 1 || b % 2 == 1 then 1 else 0)
  {
  }

  /** Halving `(h << k) + l` and `c << k` for `k > 0`. */
  lemma Halves(h: int, c: int, l: int, k: nat)
    requires k > 0 && 0 <= l < Pow2(k) && c != 0
    ensures (Shl(h, k) + l) / 2 == Shl(h, k - 1) + l / 2 && (Shl(h, k) + l) % 2 == l % 2
    ensures Shl(h, k) == 2 * Shl(h, k - 1)
    ensures Shl(c, k) / 2 == Shl(c, k - 1) && Shl(c, k) % 2 == 0 && Shl(c, k) != 0 && Shl(c, k) != -1
    ensures 0 <= l / 2 < Pow2(k - 1)
  {
    var p := Pow2(k - 1);
    assert Shl(h, k) == 2 * (h * p);
    assert Shl(c, k) == 2 * (c * p);
    if c > 0 { MulAtLeast(p, c); } else { MulAtLeast(p, -c); }
  }

  /** `2^k | v` sets bit `k` of `v` and leaves every other bit alone. */
  lemma {:induction false} OrPow2(k: nat, v: int)
    ensures Or(Pow2(k), v) == if Field(v, k, 1) == 1 then v else v + Pow2(k)
  {
    if k == 0 {
      assert Field(v, 0, 1) == v % 2;
      if v != 0 && v != -1 {
        OrZeroLeft(v / 2);
      }
    } else {
      ShrHalf(v, k - 1);
      OrPow2(k - 1, v / 2);
    }
  }

  /** Shifting right by one and then by `k` is shifting right by `k + 1`. */
  lemma ShrHalf(v: int, k: nat)
    ensures Shr(v / 2, k) == Shr(v, k + 1)
  {
    var p := Pow2(k);
    var q := (v / 2) / p;
    var r := (v / 2) % p;
    assert v / 2 == p * q + r;
    assert v == (2 * p) * q + (2 * r + v % 2);
    DivUnique(v, 2 * p, q, 2 * r + v % 2);
  }

  /** Shifting right by `a` and then by `b` is shifting right by `a + b`. */
  lemma ShrShr(v: int, a: nat, b: nat)
    ensures Shr(Shr(v, a), b) == Shr(v, a + b)
  {
    Pow2Add(a, b);
    DivDiv(v, Pow2(a), Pow2(b));
  }

  /** Dividing by `p` and then by `q` is dividing by `p * q`. */
  lemma DivDiv(v: int, p: int, q: int)
    requires p > 0 && q > 0
    ensures (v / p) / q == v / (p * q)
  {
    var x := v / p;
    var y := x / q;
    var r1, r2 := v % p, x % q;
    assert v == p * x + r1;
    assert x == q * y + r2;
    assert v == (p * q) * y + (p * r2 + r1) by {
      assert p * (q * y + r2) == (p * q) * y + p * r2;
    }
    assert p * r2 <= p * (q - 1) by {
      assert p * (q - 1) - p * r2 == p * (q - 1 - r2);
      MulNonNegative(p, q - 1 - r2);
    }
    assert p * (q - 1) == p * q - p;
    DivUnique(v, p * q, y, p * r2 + r1);
  }

  /** Splitting `v >> a` into its low `b` bits and `v >> (a + b)`. */
  lemma ShrSplit(v: int, a: nat, b: nat)
    ensures Shr(v, a) == Shr(v, a + b) * Pow2(b) + Mask(Shr(v, a), b)
  {
    ShrShr(v, a, b);
  }

  lemma MulNonNegative(p: int, t: int)
    requires p >= 0 && t >= 0
    ensures p * t >= 0
  {
  }

  /** Reading back a field of a word whose bits above and below it are
      known; `p` and `q` are `2^width` and `2^k`. */
  lemma FieldOf(w: int, hi: int, mid: int, lo: int, k: nat, width: nat, p: int, q: int)
    requires p == Pow2(width) && q == Pow2(k)
    requires 0 <= mid < p && 0 <= lo < q
    requires w == (hi * p + mid) * q + lo
    ensures Field(w, k, width) == mid
  {
    var above := hi * p + mid;
    assert w == q * above + lo;
    DivUnique(w, q, above, lo);
    assert above == p * hi + mid;
    DivUnique(above, p, hi, mid);
  }

  /** Bit `k` of `x` is the parity of `x / 2^k`. */
  lemma FieldBit(x: int, k: nat, p: int)
    requires p == Pow2(k)
    ensures Field(x, k, 1) == (x / p) % 2
  {
    assert Pow2(1) == 2 * Pow2(0);
  }

  /** `p | v` with `p == 2^k` has bit `k` set, whatever `v` is. */
  lemma OrSetsBit(k: nat, p: int, v: int)
    requires p == Pow2(k)
    ensures Field(Or(p, v), k, 1) == 1
  {
    OrPow2(k, v);
    if Field(v, k, 1) != 1 {
      AddSetsBit(k, p, v);
    }
  }

  /** Adding `2^k` to a value whose bit `k` is clear sets that bit. */
  lemma AddSetsBit(k: nat, p: int, v: int)
    requires p == Pow2(k) && Field(v, k, 1) != 1
    ensures Field(v + p, k, 1) == 1
  {
    FieldBit(v, k, p);
    FieldBit(v + p, k, p);
    var y := v / p;
    assert v == p * y + v % p;
    DivUnique(v + p, p, y + 1, v % p);
    DivUnique(y + 1, 2, y / 2, 1);
  }

  /** Masking `x` to `n` bits keeps every bit below `n`. */
  lemma MaskKeepsBit(x: int, k: nat, n: nat)
    requires k < n
    ensures Field(Mask(x, n), k, 1) == Field(x, k, 1)
  {
    var p, q, big := Pow2(k), Pow2(n - k - 1), Pow2(n);
    var m := Mask(x, n);
    var t := Shr(x, n);
    var h := q * t;
    assert x == big * t + m;
    assert big == (2 * p) * q by {
      Pow2Add(k + 1, n - k - 1);
      assert Pow2(k + 1) == 2 * p;
    }
    assert big * t == p * (2 * h) by {
      MulAssoc(2 * p, q, t);
      MulAssoc(p, 2, q * t);
    }
    var y := m / p;
    assert m == p * y + m % p;
    assert x == p * (2 * h + y) + m % p;
    DivUnique(x, p, 2 * h + y, m % p);
    DivUnique(2 * h + y, 2, h + y / 2, y % 2);
    FieldBit(x, k, p);
    FieldBit(m, k, p);
  }

  /** Bit `k` of the `n`-bit field at `a` is bit `a + k` of the word. */
  lemma FieldOfField(w: int, a: nat, n: nat, k: nat)
    requires k < n
    ensures Field(Field(w, a, n), k, 1) == Field(w, a + k, 1)
  {
    MaskKeepsBit(Shr(w, a), k, n);
    ShrShr(w, a, k);
  }

  /** Masking to at least one bit keeps the parity of `x`. */
  lemma MaskParity(x: int, k: nat)
    requires k > 0
    ensures Mask(x, k) % 2 == x % 2
  {
    var p := Pow2(k - 1);
    var q := x / Pow2(k);
    assert x == Pow2(k) * q + Mask(x, k);
    assert Pow2(k) * q == 2 * (p * q);
    DivUnique(x, 2, p * q + Mask(x, k) / 2, Mask(x, k) % 2);
  }

  /** Clearing bit 0 before masking clears bit 0 of the mask. */
  lemma MaskClearBit0(x: int, k: nat)
    requires k > 0
    ensures Mask(x - x % 2, k) == Mask(x, k) - Mask(x, k) % 2
  {
    MaskParity(x, k);
    var q := x / Pow2(k);
    DivUnique(x - x % 2, Pow2(k), q, Mask(x, k) - Mask(x, k) % 2);
  }

  /** Bit 0 does not survive a shift right by at least one. */
  lemma ShrClearBit0(m: int, k: nat)
    requires k > 0
    ensures Shr(m - m % 2, k) == Shr(m, k)
  {
    MaskParity(m, k);
    var q := m / Pow2(k);
    DivUnique(m - m % 2, Pow2(k), q, Mask(m, k) - Mask(m, k) % 2);
  }

  lemma DivUnique(v: int, d: int, q: int, r: int)
    requires d > 0 && v == d * q + r && 0 <= r < d
    ensures v / d == q && v % d == r
  {
    var q' := v / d;
    var r' := v % d;
    assert d * (q' - q) == r - r';
    if q' - q >= 1 {
      MulAtLeast(d, q' - q);
    } else if q - q' >= 1 {
      MulAtLeast(d, q - q');
    }
  }

  lemma MulAtLeast(d: int, t: int)
    requires d > 0 && t >= 1
    ensures d * t >= d
  {
    assert d * t == d + d * (t - 1);
  }

  /** The powers of two the instruction formats use, as literals. */
  lemma Pow2Table()
    ensures Pow2(0) == 0x1 && Pow2(1) == 0x2 && Pow2(2) == 0x4 && Pow2(3) == 0x8 && Pow2(4) == 0x10 && Pow2(5) == 0x20
      && Pow2(6) == 0x40 && Pow2(7) == 0x80 && Pow2(8) == 0x100 && Pow2(9) == 0x200
      && Pow2(10) == 0x400 && Pow2(11) == 0x800 && Pow2(12) == 0x1000 && Pow2(13) == 0x2000
      && Pow2(14) == 0x4000 && Pow2(15) == 0x8000 && Pow2(16) == 0x10000 && Pow2(17) == 0x20000
      && Pow2(18) == 0x40000 && Pow2(19) == 0x80000 && Pow2(20) == 0x100000 && Pow2(21) == 0x200000
      && Pow2(22) == 0x400000 && Pow2(23) == 0x800000 && Pow2(24) == 0x1000000 && Pow2(25) == 0x2000000
      && Pow2(26) == 0x4000000 && Pow2(27) == 0x8000000 && Pow2(28) == 0x10000000 && Pow2(29) == 0x20000000
      && Pow2(30) == 0x40000000 && Pow2(31) == 0x80000000 && Pow2(32) == 0x100000000
  {
    assert Pow2(1) == 2 * Pow2(0);
    assert Pow2(2) == 2 * Pow2(1);
    assert Pow2(3) == 2 * Pow2(2);
    assert Pow2(4) == 2 * Pow2(3);
    assert Pow2(5) == 2 * Pow2(4);
    assert Pow2(6) == 2 * Pow2(5);
    assert Pow2(7) == 2 * Pow2(6);
    assert Pow2(8) == 2 * Pow2(7);
    assert Pow2(9) == 2 * Pow2(8);
    assert Pow2(10) == 2 * Pow2(9);
    assert Pow2(11) == 2 * Pow2(10);
    assert Pow2(12) == 2 * Pow2(11);
    assert Pow2(13) == 2 * Pow2(12);
    assert Pow2(14) == 2 * Pow2(13);
    assert Pow2(15) == 2 * Pow2(14);
    assert Pow2(16) == 2 * Pow2(15);
    assert Pow2(17) == 2 * Pow2(16);
    assert Pow2(18) == 2 * Pow2(17);
    assert Pow2(19) == 2 * Pow2(18);
    assert Pow2(20) == 2 * Pow2(19);
    assert Pow2(21) == 2 * Pow2(20);
    assert Pow2(22) == 2 * Pow2(21);
    assert Pow2(23) == 2 * Pow2(22);
    assert Pow2(24) == 2 * Pow2(23);
    assert Pow2(25) == 2 * Pow2(24);
    assert Pow2(26) == 2 * Pow2(25);
    assert Pow2(27) == 2 * Pow2(26);
    assert Pow2(28) == 2 * Pow2(27);
    assert Pow2(29) == 2 * Pow2(28);
    assert Pow2(30) == 2 * Pow2(29);
    assert Pow2(31) == 2 * Pow2(30);
    assert Pow2(32) == 2 * Pow2(31);
  }
}
