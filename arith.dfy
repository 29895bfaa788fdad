/** Small facts about multiplication and Euclidean division that the
    pixel-index and averaging proofs use. */
module Arith {

  lemma MulLe(a: int, b: int, c: int)
    ensures a <= b && c >= 0 ==> a * c <= b * c
  {
    assert b * c == a * c + (b - a) * c;
  }

  lemma MulSucc(a: int, n: int)
    ensures a * (n + 1) == a * n + a
  {
  }

  /** The row after row y starts one width further on. */
  lemma NextRow(y: int, width: int)
    ensures (y + 1) * width == y * width + width
  {
  }

  lemma MulAtLeast(d: int, n: int)
    ensures d >= 1 && n >= 0 ==> d * n >= n
  {
    if d >= 1 && n >= 0 {
      assert d * n == n + (d - 1) * n;
    }
  }

  /** Only a multiple of n of size below n is zero. */
  lemma MultipleBelow(n: int, d: int, e: int)
    requires n > 0 && d * n == e && -n < e < n
    ensures d == 0
  {
    MulAtLeast(d, n);
    MulAtLeast(-d, n);
  }

  /** Quotient and remainder are unique: i == q * n + r with 0 <= r < n fixes both. */
  lemma DivMod(i: int, n: int, q: int, r: int)
    requires n > 0 && 0 <= r < n && i == q * n + r
    ensures i / n == q && i % n == r
  {
    var q', r' := i / n, i % n;
    assert (q' - q) * n == r - r';
    MultipleBelow(n, q' - q, r - r');
  }

  /** If 0 <= s <= k * n then s / n <= k. */
  lemma QuotientAtMost(s: int, n: int, k: int)
    requires n > 0 && 0 <= s <= k * n
    ensures 0 <= s / n <= k
  {
    var q := s / n;
    assert q * n <= s;
    assert (k - q) * n >= 0;
    MulAtLeast(-q, n);
  }

  /** If k * n <= s then k <= s / n. */
  lemma QuotientAtLeast(s: int, n: int, k: int)
    requires n > 0 && k * n <= s
    ensures k <= s / n
  {
    var q := s / n;
    assert s < q * n + n;
    assert (q + 1 - k) * n > 0;
    MulAtLeast(k - q, n);
  }

  /** Dividing both sides of an inequality by a positive factor. */
  lemma MulCancelLe(a: int, b: int, c: int)
    ensures c > 0 && c * a <= c * b ==> a <= b
  {
    MulLe(b + 1, a, c);
    assert (b + 1) * c == b * c + c;
  }

  /** Squaring is monotone on naturals, so it can be undone in an inequality. */
  lemma SquareLe(x: int, y: int)
    ensures 0 <= x && 0 <= y && x * x <= y * y ==> x <= y
  {
    MulLe(y + 1, x, x);
    MulLe(y + 1, x, y + 1);
    assert (y + 1) * (y + 1) == y * y + 2 * y + 1;
  }

  /** If a * a * h <= c * w and b * b * w <= c * h, then a * b <= c: the
      product of the two scaled sides is bounded by the pixel limit. */
  lemma ProductOfRoots(a: nat, b: nat, c: nat, w: nat, h: nat)
    requires w > 0 && h > 0
    requires a * a * h <= c * w && b * b * w <= c * h
    ensures a * b <= c
  {
    var x, y := a * a * h, b * b * w;
    MulLe(x, c * w, y);
    MulLe(y, c * h, c * w);
    var p, q, n := a * b, c * c, w * h;
    assert x * y == p * p * n by { assert x * y == (a * a) * (b * b) * (h * w); }
    assert c * h * (c * w) == q * n;
    assert n * (p * p) <= n * q;
    MulCancelLe(p * p, q, n);
    SquareLe(p, c);
  }

  /** A side s of a bitmap with more than c pixels does not itself fit: s * s * o > c * s. */
  lemma SquareOverLimit(s: nat, o: nat, c: nat)
    requires s * o > c
    ensures s * s * o > c * s
  {
    MulLe(c + 1, s * o, s);
    assert (c + 1) * s == c * s + s;
    assert (s * o) * s == s * s * o;
    MulAtLeast(o, s);
  }
}
