/** Types and small arithmetic that several of the models share. */
module Common {

  datatype Option<+T> = None | Some(value: T)

  type s16 = n: int | -0x8000 <= n < 0x8000

  function Clamp16(x: int): s16 {
    if x < -0x8000 then -0x8000 else if x > 0x7FFF then 0x7FFF else x
  }

  function Min(a: nat, b: nat): nat {
    if a < b then a else b
  }

  function Pow2(n: nat): (p: nat)
    ensures p > 0
  {
    if n == 0 then 1 else 2 * Pow2(n - 1)
  }

  lemma {:induction false} Pow2Sum(a: nat, b: nat)
    ensures Pow2(a + b) == Pow2(a) * Pow2(b)
  {
    if a > 0 {
      Pow2Sum(a - 1, b);
      Scales(2, Pow2(a - 1), Pow2(b), Pow2(a - 1) * Pow2(b));
    }
  }

  lemma Scales(k: int, a: int, b: int, ab: int)
    requires ab == a * b
    ensures (k * a) * b == k * ab && a * (k * b) == k * ab
  {
  }

  lemma {:induction false} AtLeastOne(d: nat, w: nat)
    requires d >= 1
    ensures d * w >= w
  {
    if d > 1 {
      AtLeastOne(d - 1, w);
      assert d * w == (d - 1) * w + w;
    }
  }

  lemma QuotientIs(n: nat, d: nat, q: nat, r: nat)
    requires 0 <= r < d && n == q * d + r
    ensures n / d == q
  {
    EuclidIsUnique(q, n / d, d, r, n % d, q * d, n / d * d);
  }

  lemma EuclidIsUnique(q: nat, q': nat, d: nat, r: nat, r': nat, qd: nat, q'd: nat)
    requires qd == q * d && q'd == q' * d && qd + r == q'd + r' && r < d && r' < d
    ensures q == q'
  {
    if q > q' {
      MultipleAbove(q', q, d);
    } else if q < q' {
      MultipleAbove(q, q', d);
    }
  }

  lemma MultipleAbove(q: nat, q': nat, d: nat)
    requires q < q'
    ensures q' * d >= q * d + d
  {
    AtLeastOne(q' - q, d);
    assert (q' - q) * d == q' * d - q * d;
  }
}
