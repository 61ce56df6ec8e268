/** `half` and `unhalf` as the procedures they are, and the round trip between them. */
module HalfCodec {

  import opened Bits
  import opened Binary32
  import opened HalfFloat

  method ToHalf(bits: Float) returns (h: nat)
    ensures h == HalfOf(bits) && RoundsTo(bits, h)
  {
    var sign := And(Shr(bits, 16), 0x8000);
    var exponent := And(Shr(bits, 23), 0xff) as int - 127 + 15;
    var mantissa := And(bits, 0x7f_ffff);
    if exponent <= 0 {
      if exponent < -10 {
        h := sign;
      } else {
        mantissa := Shr(Or(mantissa, 0x80_0000), 1 - exponent);
        h := Or(sign, Shr(mantissa + 0x1000, 13));
      }
    } else if exponent >= 31 {
      h := Or(sign, 0x7c00);
    } else {
      h := Or(Or(sign, Shl(exponent, 10)), Shr(mantissa + 0x1000, 13));
    }
    assert h == HalfOf(bits);
    assert RoundsTo(bits, h) by { HalfIsNearest(bits); }
  }

  /** `unhalf` gives the float that denotes exactly the same number; an infinity or NaN stays
      one, with its payload.  Converting back yields the same bits, except that every NaN
      becomes the infinity of its sign. */
  method FromHalf(value: Half) returns (bits: Float)
    ensures Sign(bits) == value / 0x8000
    ensures value % 0x8000 < 0x7c00 ==>
              IsFinite(bits) && Magnitude(bits) == HalfMagnitude(value % 0x8000)
    ensures value % 0x8000 >= 0x7c00 ==> !IsFinite(bits) && Mantissa(bits) == value % 0x400 * 0x2000
    ensures HalfOf(bits) == if value % 0x8000 <= 0x7c00 then value else value / 0x8000 * 0x8000 + 0x7c00
  {
    SignOfHalf(value);
    ExponentOfHalf(value);
    LowTenBits(value);
    HalfParts(value);
    ghost var s := value / 0x8000;
    var sign := Shl(And(value, 0x8000), 16);
    var exponent := And(Shr(value, 10), 0x1f);
    var mantissa := And(value, 0x3ff);
    if exponent == 0 {
      bits := FromSubnormal(sign, mantissa, s);
    } else if exponent == 31 {
      bits := PackFloat(sign, 255, mantissa, s);
    } else {
      bits := PackFloat(sign, exponent + 112, mantissa, s);
      NormalValue(bits, exponent, mantissa);
    }
    BackToHalf(bits, value);
  }

  method FromSubnormal(sign: nat, k: nat, ghost s: nat) returns (bits: Float)
    requires s <= 1 && sign == s * 0x8000_0000 && k < 0x400
    ensures Sign(bits) == s && IsFinite(bits) && Magnitude(bits) == HalfMagnitude(k)
  {
    HalfUnitsSmall(k);
    if k == 0 {
      bits := sign;
      ZeroFloat(s);
    } else {
      var mantissa, exponent := Normalize(k);
      LowTenBits(mantissa);
      bits := PackFloat(sign, exponent, And(mantissa, 0x3ff), s);
    }
  }

  /** The loop that shifts a subnormal mantissa up until its leading bit is in place; the
      number denoted does not change. */
  method Normalize(k: nat) returns (mantissa: nat, exponent: nat)
    requires 0 < k < 0x400
    ensures 0x400 <= mantissa < 0x800 && 103 <= exponent <= 113
    ensures (0x80_0000 + mantissa % 0x400 * 0x2000) * Pow2(exponent - 1) == k * Pow2(125)
  {
    mantissa, exponent := k, 113;
    BitTen(mantissa);
    while And(mantissa, 0x400) == 0
      invariant 0 < mantissa < 0x800 && 103 <= exponent <= 113
      invariant mantissa == k * Pow2(113 - exponent)
      invariant And(mantissa, 0x400) == 0 <==> mantissa < 0x400
      decreases 0x800 - mantissa
    {
      NormalizeStep(k, mantissa, exponent);
      mantissa := Shl(mantissa, 1);
      exponent := exponent - 1;
      BitTen(mantissa);
    }
    NormalizedMagnitude(k, mantissa, exponent);
  }

  /** ORs the three fields of a float together, the mantissa given by its upper ten bits. */
  method PackFloat(sign: nat, exponent: nat, top: nat, ghost s: nat) returns (bits: Float)
    requires s <= 1 && sign == s * 0x8000_0000 && exponent < 0x100 && top < 0x400
    ensures Sign(bits) == s && Exponent(bits) == exponent && Mantissa(bits) == top * 0x2000
  {
    OrFields(s, exponent, top);
    bits := Or(Or(sign, Shl(exponent, 23)), Shl(top, 13));
  }

  // ---- Fields ----

  lemma SignOfHalf(value: Half)
    ensures Shl(And(value, 0x8000), 16) == value / 0x8000 * 0x8000_0000 && value / 0x8000 <= 1
  {
    Pow2Values();
    AndOneBit(value, 15);
    var s := value / 0x8000;
    assert s <= 1 && s % 2 == s;
    assert And(value, 0x8000) == s * 0x8000;
  }

  lemma ExponentOfHalf(value: Half)
    ensures And(Shr(value, 10), 0x1f) == value / 0x400 % 0x20
  {
    Pow2Values();
    AndLowMask(value / 0x400, 5);
  }

  lemma HalfParts(value: Half)
    ensures value % 0x8000 == value / 0x400 % 0x20 * 0x400 + value % 0x400
  {
    var q, m := value / 0x400, value % 0x400;
    assert value == 0x400 * (0x20 * (q / 0x20) + q % 0x20) + m;
    RemainderUnique(value, 0x8000, q / 0x20, q % 0x20 * 0x400 + m);
  }

  lemma BitTen(a: nat)
    requires a < 0x800
    ensures And(a, 0x400) == 0 <==> a < 0x400
  {
    Pow2Values();
    AndOneBit(a, 10);
  }

  lemma LowTenBits(a: nat)
    ensures And(a, 0x3ff) == a % 0x400
  {
    Pow2Values();
    AndLowMask(a, 10);
  }

  lemma OrFields(s: nat, e: nat, top: nat)
    requires s <= 1 && e < 0x100 && top < 0x400
    ensures
      var bits := Or(Or(s * 0x8000_0000, Shl(e, 23)), Shl(top, 13));
      && bits == s * 0x8000_0000 + e * 0x80_0000 + top * 0x2000
      && bits < 0x1_0000_0000
      && Sign(bits) == s && Exponent(bits) == e && Mantissa(bits) == top * 0x2000
  {
    ShiftUp(e, top);
    Pow2Values();
    OrTwo(s, e * 0x80_0000, 31, 0x8000_0000);
    OrTwo(s * 0x100 + e, top * 0x2000, 23, 0x80_0000);
    var bits := s * 0x8000_0000 + e * 0x80_0000 + top * 0x2000;
    assert (s * 0x100 + e) * 0x80_0000 == s * 0x8000_0000 + e * 0x80_0000;
    FieldsFromSum(s, e, top * 0x2000);
  }

  lemma ShiftUp(e: nat, top: nat)
    ensures Shl(e, 23) == e * 0x80_0000 && Shl(top, 13) == top * 0x2000
  {
    Pow2Values();
  }

  lemma OrTwo(q: nat, b: nat, k: nat, p: nat)
    requires p == Pow2(k) && b < p
    ensures Or(q * p, b) == q * p + b
  {
    OrDisjoint(q, b, k);
  }

  lemma FieldsFromSum(s: nat, e: nat, m: nat)
    requires s <= 1 && e < 0x100 && m < 0x80_0000
    ensures
      var bits := s * 0x8000_0000 + e * 0x80_0000 + m;
      bits < 0x1_0000_0000 && Sign(bits) == s && Exponent(bits) == e && Mantissa(bits) == m
  {
    var bits := s * 0x8000_0000 + e * 0x80_0000 + m;
    RemainderUnique(bits, 0x80_0000, s * 0x100 + e, m);
    RemainderUnique(s * 0x100 + e, 0x100, s, e);
  }

  lemma NormalValue(bits: Float, exponent: nat, mantissa: nat)
    requires 1 <= exponent <= 30 && mantissa < 0x400
    requires Exponent(bits) == exponent + 112 && Mantissa(bits) == mantissa * 0x2000
    ensures Magnitude(bits) == HalfMagnitude(exponent * 0x400 + mantissa)
  {
    NormalMagnitude(exponent + 112, mantissa);
  }

  lemma ZeroFloat(s: nat)
    requires s <= 1
    ensures
      var bits := s * 0x8000_0000;
      Sign(bits) == s && Exponent(bits) == 0 && Mantissa(bits) == 0
  {
  }

  // ---- Normalising ----

  lemma NormalizeStep(k: nat, mantissa: nat, exponent: nat)
    requires k > 0 && mantissa < 0x400 && 103 <= exponent <= 113 && mantissa == k * Pow2(113 - exponent)
    ensures exponent > 103 && Shl(mantissa, 1) == 2 * mantissa == k * Pow2(113 - (exponent - 1))
  {
    Pow2Values();
    MulMonotone(Pow2(113 - exponent), 1, k);
  }

  lemma NormalizedMagnitude(k: nat, mantissa: nat, exponent: nat)
    requires 0x400 <= mantissa < 0x800 && 103 <= exponent <= 113 && mantissa == k * Pow2(113 - exponent)
    ensures (0x80_0000 + mantissa % 0x400 * 0x2000) * Pow2(exponent - 1) == k * Pow2(125)
  {
    var p, u := Pow2(113 - exponent), Pow2(exponent - 1);
    assert 0x80_0000 + mantissa % 0x400 * 0x2000 == mantissa * 0x2000;
    NormalizedUnit(exponent);
    Regroup(k, p, 0x2000, u);
  }

  lemma NormalizedUnit(exponent: nat)
    requires 103 <= exponent <= 113
    ensures Pow2(125) == Pow2(113 - exponent) * (0x2000 * Pow2(exponent - 1))
  {
    Pow2Values();
    Pow2Add(13, exponent - 1);
    Pow2Add(113 - exponent, exponent + 12);
  }

  lemma Regroup(a: nat, b: nat, c: nat, d: nat)
    ensures a * b * c * d == a * (b * (c * d))
  {
    MulAssociates(a * b, c, d);
    MulAssociates(a, b, c * d);
  }

  // ---- Round trip ----

  lemma ExactIsNearest(h: nat)
    requires h <= 0x7c00
    ensures NearestAway(HalfMagnitude(h), h)
  {
    if h > 0 { HalfMagnitudeGrows(h - 1, h); }
    if h < 0x7c00 { HalfMagnitudeGrows(h, h + 1); }
    BetweenMidpoints(HalfMagnitude(h), h);
  }

  lemma CarryLostIsInexact(bits: Float, h: nat)
    requires CarryLost(bits) && h <= 0x7c00
    ensures Magnitude(bits) != HalfMagnitude(h)
  {
    var e, m := Exponent(bits), Mantissa(bits);
    var h' := (e - 112) * 0x400 + 0x400;
    NormalRounds(e, m);
    NormalMagnitude(e, 0x400);
    MulStrict(Pow2(e - 1), 0x80_0000 + m, 0x100_0000);
    ExactIsNearest(h);
    if h != h' { NearestAwayUnique(HalfMagnitude(h), h, h'); }
  }

  /** A float that is exactly a binary16 number converts to that number. */
  lemma ExactRoundTrip(bits: Float, h: nat)
    requires IsFinite(bits) && h < 0x7c00 && Magnitude(bits) == HalfMagnitude(h)
    ensures HalfOf(bits) == Sign(bits) * 0x8000 + h
  {
    var magnitude := HalfOf(bits) - Sign(bits) * 0x8000;
    ExactIsNearest(h);
    HalfIsNearest(bits);
    if CarryLost(bits) { CarryLostIsInexact(bits, h); }
    assert NearestAway(Magnitude(bits), magnitude);
  }

  lemma BackToHalf(bits: Float, value: Half)
    requires Sign(bits) == value / 0x8000
    requires
      if value % 0x8000 < 0x7c00 then IsFinite(bits) && Magnitude(bits) == HalfMagnitude(value % 0x8000)
      else !IsFinite(bits)
    ensures HalfOf(bits) == if value % 0x8000 <= 0x7c00 then value else value / 0x8000 * 0x8000 + 0x7c00
  {
    if value % 0x8000 < 0x7c00 {
      ExactRoundTrip(bits, value % 0x8000);
    } else {
      HalfIsNearest(bits);
    }
  }
}
