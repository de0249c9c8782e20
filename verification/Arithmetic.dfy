/** Division facts for positions in lines, blocks and pages, and the bits of a byte. */
module Arithmetic {

  lemma MulAtLeast(q: nat, p: nat)
    requires q >= 1
    ensures q * p >= p
  {}

  lemma MulMono(x: nat, y: nat, b: nat)
    requires x >= y
    ensures x * b >= y * b
  {}

  /** Quotient and remainder are unique. */
  lemma DivUnique(v: nat, p: nat, k: nat, d: nat)
    requires v == k * p + d && d < p
    ensures v / p == k && v % p == d
  {
    var k', d' := v / p, v % p;
    assert v == k' * p + d';
    assert (k - k') * p == d' - d;
    if k > k' { MulAtLeast(k - k', p); }
    if k < k' {
      assert (k' - k) * p == d - d';
      MulAtLeast(k' - k, p);
    }
  }

  lemma DivMono(a: nat, b: nat, p: nat)
    requires p > 0 && a <= b
    ensures a / p <= b / p
  {
    if a / p > b / p { MulMono(a / p, b / p + 1, p); }
  }

  /** Within one block length the block number grows by at most one. */
  lemma DivNear(a: nat, b: nat, p: nat)
    requires p > 0 && a <= b <= a + p
    ensures b / p == a / p || b / p == a / p + 1
  {
    var q, r := a / p, a % p;
    var m := q * p;
    assert a == m + r;
    MulNext(q, p);
    if b < m + p { DivUnique(b, p, q, b - m); } else { DivUnique(b, p, q + 1, b - m - p); }
  }

  lemma MulNext(q: nat, p: nat)
    ensures (q + 1) * p == q * p + p
  {}

  lemma Commute(a: nat, b: nat)
    ensures a * b == b * a
  {}

  lemma Distribute(a: nat, b: nat, p: nat)
    ensures (a + b) * p == a * p + b * p
  {}

  lemma QuotientRest(v: nat, p: nat)
    requires p > 0
    ensures v == v / p * p + v % p && v % p < p
  {}

  lemma PageBelow(at: nat, width: nat, lines: nat)
    requires at < width * lines
    ensures width > 0 && at / width < lines
  {
    Commute(width, lines);
    DivBelow(at, lines, width);
  }

  /** Position `i` is in block `b` exactly when it lies in its range. */
  lemma DivRange(i: nat, b: nat, p: nat)
    requires p > 0
    ensures i / p == b <==> b * p <= i < b * p + p
  {
    if b * p <= i < b * p + p { DivUnique(i, p, b, i - b * p); }
  }

  /** Numbers below `a * b` have a quotient below `a`. */
  lemma DivBelow(i: nat, a: nat, b: nat)
    requires i < a * b
    ensures b > 0 && i / b < a && i % b < b && i / b * b + i % b == i
  {
    var q := i / b;
    if q >= a { MulMono(q, a, b); }
  }

  lemma SubsetSize(a: set<nat>, b: set<nat>)
    requires a <= b
    ensures |a| <= |b|
  {
    assert b == a + (b - a);
  }

  function Pow256(n: nat): (p: nat)
    ensures p > 0
  {
    if n == 0 then 1 else 0x100 * Pow256(n - 1)
  }

  /** Dividing by 256 first. */
  lemma DivDiv256(v: nat, p: nat)
    requires p > 0
    ensures v / 0x100 / p == v / (0x100 * p)
  {
    var q, r := v / 0x100, v % 0x100;
    var k, m := q / p, q % p;
    assert q == k * p + m;
    assert 0x100 * (k * p) == k * (0x100 * p);
    DivUnique(v, 0x100 * p, k, 0x100 * m + r);
  }

  /** The lowest bytes of a number, one more of them. */
  lemma DivMod256(v: nat, p: nat)
    requires p > 0
    ensures v % (0x100 * p) == v / 0x100 % p * 0x100 + v % 0x100
  {
    var q, r := v / 0x100, v % 0x100;
    var k, m := q / p, q % p;
    assert q == k * p + m;
    assert 0x100 * (k * p) == k * (0x100 * p);
    DivUnique(v, 0x100 * p, k, 0x100 * m + r);
  }

  function Bit(i: nat): bv8
    requires i < 8
  {
    (1 as bv8) << i
  }

  /** Different bits of a byte have nothing in common. */
  lemma BitsApart(i: nat, j: nat)
    requires i < 8 && j < 8
    ensures Bit(i) != 0
    ensures i != j ==> Bit(i) & Bit(j) == 0
  {
    assert i == 0 || i == 1 || i == 2 || i == 3 || i == 4 || i == 5 || i == 6 || i == 7;
    assert j == 0 || j == 1 || j == 2 || j == 3 || j == 4 || j == 5 || j == 6 || j == 7;
  }
}
