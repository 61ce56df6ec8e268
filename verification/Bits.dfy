/** Bitwise operations of unsigned integers, on natural numbers. */
module Bits {

  function Pow2(n: nat): (r: nat)
    ensures r > 0
  {
    if n == 0 then 1 else 2 * Pow2(n - 1)
  }

  function Or(a: nat, b: nat): nat {
    if a == 0 then b
    else if b == 0 then a
    else (if a % 2 == 1 || b % 2 == 1 then 1 else 0) + 2 * Or(a / 2, b / 2)
  }

  function And(a: nat, b: nat): nat {
    if a == 0 || b == 0 then 0
    else (if a % 2 == 1 && b % 2 == 1 then 1 else 0) + 2 * And(a / 2, b / 2)
  }

  function Shl(a: nat, n: nat): nat {
    a * Pow2(n)
  }

  function Shr(a: nat, n: nat): nat {
    var p := Pow2(n);
    QuotientIsNatural(a, p);
    a / p
  }

  lemma QuotientIsNatural(a: nat, p: nat)
    requires p > 0
    ensures a / p >= 0
  {
  }

  lemma {:induction false} Pow2Add(a: nat, b: nat)
    ensures Pow2(a + b) == Pow2(a) * Pow2(b)
  {
    if a > 0 {
      var p, q := Pow2(a - 1), Pow2(b);
      Pow2Add(a - 1, b);
      assert Pow2(a + b) == 2 * (p * q);
      MulAssociates(2, p, q);
    }
  }

  lemma {:induction false} Pow2Monotone(a: nat, b: nat)
    requires a <= b
    ensures Pow2(a) <= Pow2(b)
  {
    if a < b {
      Pow2Monotone(a, b - 1);
    }
  }

  lemma Pow2Values()
    ensures Pow2(1) == 2 && Pow2(5) == 32 && Pow2(8) == 0x100 && Pow2(10) == 0x400 && Pow2(13) == 0x2000
    ensures Pow2(14) == 0x4000 && Pow2(15) == 0x8000 && Pow2(16) == 0x10000 && Pow2(23) == 0x80_0000
    ensures Pow2(24) == 0x100_0000 && Pow2(31) == 0x8000_0000 && Pow2(32) == 0x1_0000_0000
  {
    assert Pow2(5) == 32;
    Pow2Add(5, 5);
    Pow2Add(5, 3);
    Pow2Add(10, 3);
    Pow2Add(10, 4);
    Pow2Add(10, 5);
    Pow2Add(8, 8);
    Pow2Add(10, 13);
    Pow2Add(1, 23);
    Pow2Add(15, 16);
    Pow2Add(16, 16);
  }

  /** Masking with a run of low ones is the remainder. */
  lemma {:induction false} AndLowMask(a: nat, k: nat)
    ensures And(a, Pow2(k) - 1) == a % Pow2(k)
  {
    if k > 0 {
      var p := Pow2(k - 1);
      AndLowMask(a / 2, k - 1);
      HalfRemainder(a, p);
      AndOdd(a, p - 1);
    }
  }

  lemma AndOdd(a: nat, b: nat)
    ensures And(a, 2 * b + 1) == a % 2 + 2 * And(a / 2, b)
  {
    assert (2 * b + 1) / 2 == b;
  }

  lemma AndEven(a: nat, b: nat)
    ensures And(a, 2 * b) == 2 * And(a / 2, b)
  {
    assert (2 * b) / 2 == b;
  }

  lemma OrEven(a: nat, b: nat)
    ensures Or(2 * a, b) == b % 2 + 2 * Or(a, b / 2)
  {
    assert (2 * a) / 2 == a;
  }

  lemma HalfRemainder(a: nat, p: nat)
    requires p > 0
    ensures a % (2 * p) == a % 2 + 2 * ((a / 2) % p)
  {
    var q, r := (a / 2) / p, (a / 2) % p;
    assert a == 2 * (p * q + r) + a % 2;
    assert a == (2 * p) * q + (2 * r + a % 2);
    RemainderUnique(a, 2 * p, q, 2 * r + a % 2);
  }

  lemma MulMonotone(c: nat, a: int, b: int)
    requires a <= b
    ensures c * a <= c * b
  {
    assert c * b - c * a == c * (b - a);
  }

  lemma MulStrict(c: nat, a: nat, b: nat)
    requires a < b && c > 0
    ensures a * c < b * c
  {
    MulMonotone(c, a + 1, b);
    assert c * (a + 1) == a * c + c;
  }

  lemma MulAssociates(a: nat, b: nat, c: nat)
    ensures a * b * c == a * (b * c)
  {
  }

  lemma RemainderUnique(a: nat, d: nat, q: nat, r: nat)
    requires d > 0 && a == d * q + r && r < d
    ensures a / d == q && a % d == r
  {
    var q' := a / d;
    var below := d * q';
    assert a == below + a % d;
    assert d * (q' + 1) == below + d;
    assert d * (q + 1) == d * q + d;
    if q > q' {
      MulMonotone(d, q' + 1, q);
    } else if q < q' {
      MulMonotone(d, q + 1, q');
    }
  }

  /** Masking with a single one picks that bit. */
  lemma {:induction false} AndOneBit(a: nat, k: nat)
    ensures And(a, Pow2(k)) == (a / Pow2(k)) % 2 * Pow2(k)
  {
    if k == 0 {
      AndOdd(a, 0);
      assert And(a / 2, 0) == 0;
    } else {
      var p := Pow2(k - 1);
      AndOneBit(a / 2, k - 1);
      AndEven(a, p);
      DivDiv(a, 2, p);
      assert (a / Pow2(k)) % 2 * Pow2(k) == 2 * ((a / 2 / p) % 2 * p);
    }
  }

  lemma DivDiv(a: nat, b: nat, c: nat)
    requires b > 0 && c > 0
    ensures b * c > 0 && (a / b) / c == a / (b * c)
  {
    var q, r := (a / b) / c, (a / b) % c;
    var n, s := a / b, a % b;
    assert n == c * q + r && a == b * n + s;
    assert b * n == (b * c) * q + b * r by {
      assert b * (c * q + r) == b * (c * q) + b * r;
      assert b * (c * q) == (b * c) * q;
    }
    MulMonotone(b, r, c - 1);
    assert b * (c - 1) == b * c - b;
    MulMonotone(b, 1, c);
    RemainderUnique(a, b * c, q, b * r + s);
  }

  /** Numbers without common bits are added. */
  lemma {:induction false} OrDisjoint(q: nat, b: nat, k: nat)
    requires b < Pow2(k)
    ensures Or(q * Pow2(k), b) == q * Pow2(k) + b
  {
    if k == 0 {
      assert b == 0 && q * Pow2(k) == q;
    } else {
      var p := Pow2(k - 1);
      OrDisjoint(q, b / 2, k - 1);
      var high := q * p;
      DoubleProduct(q, p);
      OrEven(high, b);
      assert Or(2 * high, b) == 2 * high + b;
    }
  }

  lemma OrOne(q: nat)
    ensures Or(q, 1) == if q % 2 == 1 then q else q + 1
  {
    assert Or(q / 2, 0) == q / 2;
  }

  lemma OrDoubles(a: nat, b: nat)
    ensures Or(2 * a, 2 * b) == 2 * Or(a, b)
  {
    OrEven(a, 2 * b);
    assert (2 * b) / 2 == b;
  }

  lemma DoubleProduct(a: nat, p: nat)
    ensures a * (2 * p) == 2 * (a * p)
  {
  }

  /** Setting a bit twice is not adding it twice. */
  lemma {:induction false} OrSameBit(q: nat, k: nat)
    ensures Or(q * Pow2(k), Pow2(k)) == (if q % 2 == 1 then q else q + 1) * Pow2(k)
  {
    var r := if q % 2 == 1 then q else q + 1;
    if k == 0 {
      OrOne(q);
    } else {
      OrSameBit(q, k - 1);
      OrDoubles(q * Pow2(k - 1), Pow2(k - 1));
      DoubleProduct(q, Pow2(k - 1));
      DoubleProduct(r, Pow2(k - 1));
    }
  }
}
