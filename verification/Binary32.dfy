/** Binary32 numbers (section 3.4 of IEEE 754-2019), given by their bits. */
module Binary32 {

  import opened Bits

  type Float = x: nat | x < 0x1_0000_0000

  function Sign(x: Float): nat {
    x / 0x8000_0000
  }

  function Exponent(x: Float): nat {
    x / 0x80_0000 % 0x100
  }

  function Mantissa(x: Float): nat {
    x % 0x80_0000
  }

  predicate IsFinite(x: Float) {
    Exponent(x) != 255
  }

  /** The absolute value of a finite number, in units of 2^-149. */
  function Magnitude(x: Float): nat
    requires IsFinite(x)
  {
    if Exponent(x) == 0 then Mantissa(x) else (0x80_0000 + Mantissa(x)) * Pow2(Exponent(x) - 1)
  }

  /** The value of a finite number, in units of 2^-149; both zeros have value 0. */
  function Value(x: Float): int
    requires IsFinite(x)
  {
    if Sign(x) == 1 then -(Magnitude(x) as int) else Magnitude(x)
  }

  /** Sign-magnitude reading of the bits, in which finite numbers compare like integers. */
  function Key(x: Float): int {
    if x >= 0x8000_0000 then 0x8000_0000 - x else x
  }

  /** Magnitudes are ordered like the bits without sign. */
  lemma MagnitudeGrows(x: Float, y: Float)
    requires IsFinite(x) && IsFinite(y) && x % 0x8000_0000 < y % 0x8000_0000
    ensures Magnitude(x) < Magnitude(y)
  {
    var e, m, e', m' := Exponent(x), Mantissa(x), Exponent(y), Mantissa(y);
    FieldsCompose(x);
    FieldsCompose(y);
    if e == e' {
      if e > 0 { MulStrict(Pow2(e - 1), 0x80_0000 + m, 0x80_0000 + m'); }
    } else {
      BinadesAreOrdered(e, m, e', m');
    }
  }

  lemma FieldsCompose(x: Float)
    ensures x % 0x8000_0000 == Exponent(x) * 0x80_0000 + Mantissa(x)
  {
    var q, m := x / 0x80_0000, x % 0x80_0000;
    assert x == 0x80_0000 * (0x100 * (q / 0x100) + q % 0x100) + m;
    RemainderUnique(x, 0x8000_0000, q / 0x100, q % 0x100 * 0x80_0000 + m);
  }

  lemma BinadesAreOrdered(e: nat, m: nat, e': nat, m': nat)
    requires e < e' && m < 0x80_0000
    ensures (if e == 0 then m else (0x80_0000 + m) * Pow2(e - 1)) < (0x80_0000 + m') * Pow2(e' - 1)
  {
    var p, p' := Pow2(e' - 1), if e == 0 then 1 else 2 * Pow2(e - 1);
    Pow2Monotone(e, e' - 1);
    MulMonotone(0x80_0000, p', p);
    MulMonotone(p, 0x80_0000, 0x80_0000 + m');
    if e > 0 { MulStrict(Pow2(e - 1), 0x80_0000 + m, 0x100_0000); }
  }

  /** Finite floats compare like their keys. */
  lemma KeyOrdersValues(x: Float, y: Float)
    requires IsFinite(x) && IsFinite(y)
    ensures Value(x) < Value(y) <==> Key(x) < Key(y)
  {
    KeyIsSignedMagnitude(x);
    KeyIsSignedMagnitude(y);
    if x % 0x8000_0000 < y % 0x8000_0000 {
      MagnitudeGrows(x, y);
    } else if y % 0x8000_0000 < x % 0x8000_0000 {
      MagnitudeGrows(y, x);
    } else {
      FieldsCompose(x);
      FieldsCompose(y);
    }
  }

  lemma KeyIsSignedMagnitude(x: Float)
    requires IsFinite(x)
    ensures Key(x) == if Sign(x) == 1 then -(x % 0x8000_0000) else x % 0x8000_0000
    ensures Magnitude(x) == 0 <==> x % 0x8000_0000 == 0
  {
    FieldsCompose(x);
    if Exponent(x) > 0 { MulStrict(Pow2(Exponent(x) - 1), 0, 0x80_0000 + Mantissa(x)); }
  }
}
