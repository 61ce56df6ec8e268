/** The binary16 codec `half` / `unhalf` (sections 3.4 and 4.3.1 of IEEE 754-2019). */
module HalfFloat {

  import opened Bits
  import opened Binary32

  type Half = x: nat | x < 0x1_0000

  /** The bits `half` computes from the bits of a float. */
  function HalfOf(bits: Float): nat {
    Assemble(And(Shr(bits, 16), 0x8000), And(Shr(bits, 23), 0xff) as int - 127 + 15, And(bits, 0x7f_ffff))
  }

  function Assemble(sign: nat, exponent: int, mantissa: nat): nat {
    if exponent <= 0 then
      if exponent < -10 then sign
      else
        var shifted := Shr(Or(mantissa, 0x80_0000), 1 - exponent);
        Or(sign, Shr(shifted + 0x1000, 13))
    else if exponent >= 31 then Or(sign, 0x7c00)
    else Or(Or(sign, Shl(exponent, 10)), Shr(mantissa + 0x1000, 13))
  }

  // ---- Reference semantics ----

  /** The magnitude that binary16 bits without sign denote, in units of 2^-24.  The bits of
      infinity stand for 2^16, as section 4.3.1 prescribes for deciding overflow. */
  function HalfUnits(h: nat): nat
    requires h <= 0x7c00
  {
    if h < 0x400 then h else (0x400 + h % 0x400) * Pow2(h / 0x400 - 1)
  }

  /** The same magnitude in units of 2^-149. */
  function HalfMagnitude(h: nat): nat
    requires h <= 0x7c00
  {
    HalfUnits(h) * Pow2(125)
  }

  function Distance(a: nat, b: nat): nat {
    if a < b then b - a else a - b
  }

  /** `h` is the binary16 magnitude nearest to `v`, with ties away from zero. */
  ghost predicate NearestAway(v: nat, h: nat) {
    && h <= 0x7c00
    && forall h': nat :: h' <= 0x7c00 ==>
         || Distance(v, HalfMagnitude(h)) < Distance(v, HalfMagnitude(h'))
         || (Distance(v, HalfMagnitude(h)) == Distance(v, HalfMagnitude(h')) && h' <= h)
  }

  lemma NearestAwayUnique(v: nat, h: nat, h': nat)
    requires NearestAway(v, h) && h != h'
    ensures !NearestAway(v, h')
  {
    if h' <= 0x7c00 {
      var d, d' := Distance(v, HalfMagnitude(h)), Distance(v, HalfMagnitude(h'));
      assert d < d' || (d == d' && h' <= h);
      assert NearestAway(v, h') ==> d' < d || (d' == d && h <= h');
    }
  }

  // ---- The fields ----

  /** Rounding in the normal range, carry included. */
  function Rounded(mantissa: nat): nat {
    (mantissa + 0x1000) / 0x2000
  }

  /** The magnitude `half` returns, as arithmetic on the fields. */
  function HalfMagnitudeBits(e: nat, m: nat): nat {
    if e < 102 then 0
    else if e <= 112 then Rounded(Shr(0x80_0000 + m, 113 - e))
    else if e >= 143 then 0x7c00
    else if Rounded(m) < 0x400 then (e - 112) * 0x400 + Rounded(m)
    else if (e - 112) % 2 == 1 then (e - 112) * 0x400
    else (e - 112) * 0x400 + 0x400
  }

  lemma SignField(bits: Float)
    ensures And(Shr(bits, 16), 0x8000) == Sign(bits) * 0x8000 && Sign(bits) <= 1
  {
    Pow2Values();
    AndOneBit(bits / 0x1_0000, 15);
    DivDiv(bits, 0x1_0000, 0x8000);
  }

  lemma OtherFields(bits: Float)
    ensures And(Shr(bits, 23), 0xff) == Exponent(bits) && And(bits, 0x7f_ffff) == Mantissa(bits)
  {
    Pow2Values();
    AndLowMask(bits / 0x80_0000, 8);
    AndLowMask(bits, 23);
  }

  lemma SubnormalRange(e: nat, m: nat)
    requires 102 <= e <= 112 && m < 0x80_0000
    ensures HalfMagnitudeBits(e, m) <= 0x400
  {
    Pow2Values();
    var p := Pow2(113 - e);
    assert p == 2 * Pow2(112 - e);
    var s := (0x80_0000 + m) / p;
    assert s * 2 <= 0x80_0000 + m by {
      assert p >= 2;
      MulMonotone(s, 2, p);
      assert s * p <= 0x80_0000 + m;
    }
  }

  lemma HalfMagnitudeRange(e: nat, m: nat)
    requires e < 256 && m < 0x80_0000
    ensures HalfMagnitudeBits(e, m) <= 0x7c00
  {
    if 102 <= e <= 112 { SubnormalRange(e, m); }
  }

  lemma OrSign(s: nat, b: nat)
    requires s <= 1 && b < 0x8000
    ensures Or(s * 0x8000, b) == s * 0x8000 + b
  {
    Pow2Values();
    if s == 1 { OrDisjoint(1, b, 15); }
  }

  /** The implicit leading bit of a normal number. */
  lemma OrLeadingBit(m: nat)
    requires m < 0x80_0000
    ensures Or(m, 0x80_0000) == 0x80_0000 + m
  {
    Pow2Values();
    OrDisjoint(1, m, 23);
    OrCommutes(m, 0x80_0000);
  }

  /** The bit manipulation of `half` is arithmetic on sign, exponent and mantissa. */
  lemma HalfByFields(bits: Float)
    ensures HalfOf(bits) == Sign(bits) * 0x8000 + HalfMagnitudeBits(Exponent(bits), Mantissa(bits))
  {
    SignField(bits);
    OtherFields(bits);
    AssembleByFields(Sign(bits), Exponent(bits), Mantissa(bits));
  }

  lemma AssembleByFields(s: nat, e: nat, m: nat)
    requires s <= 1 && e < 0x100 && m < 0x80_0000
    ensures Assemble(s * 0x8000, e - 112, m) == s * 0x8000 + HalfMagnitudeBits(e, m)
  {
    if 102 <= e <= 112 {
      SubnormalByFields(s, e, m);
    } else if e >= 143 {
      OrSign(s, 0x7c00);
    } else if e > 112 {
      NormalByFields(s, e - 112, m);
      FieldsOfNormal(s, e - 112, m);
    }
  }

  lemma SubnormalByFields(s: nat, e: nat, m: nat)
    requires s <= 1 && 102 <= e <= 112 && m < 0x80_0000
    ensures Or(s * 0x8000, Shr(Shr(Or(m, 0x80_0000), 113 - e) + 0x1000, 13)) == s * 0x8000 + HalfMagnitudeBits(e, m)
  {
    OrLeadingBit(m);
    SubnormalRange(e, m);
    OrSign(s, HalfMagnitudeBits(e, m));
    ShiftBy13(Shr(0x80_0000 + m, 113 - e) + 0x1000);
  }

  lemma ShiftBy13(a: nat)
    ensures Shr(a, 13) == a / 0x2000
  {
    Pow2Values();
  }

  lemma {:induction false} OrCommutes(a: nat, b: nat)
    ensures Or(a, b) == Or(b, a)
    decreases a
  {
    if a > 0 && b > 0 { OrCommutes(a / 2, b / 2); }
  }

  lemma NormalByFields(s: nat, exponent: nat, m: nat)
    requires s <= 1 && 1 <= exponent <= 30 && m < 0x80_0000
    ensures Or(Or(s * 0x8000, Shl(exponent, 10)), Shr(m + 0x1000, 13)) == Carried(s * 32 + exponent, Rounded(m))
  {
    HighBits(s, exponent);
    ShiftBy13(m + 0x1000);
    LowBits(Or(s * 0x8000, Shl(exponent, 10)), s * 32 + exponent, Shr(m + 0x1000, 13));
  }

  /** What ORing the rounded mantissa `r` below the bits `q` amounts to. */
  function Carried(q: nat, r: nat): nat {
    q * 0x400 + if r < 0x400 then r else if q % 2 == 1 then 0 else 0x400
  }

  lemma FieldsOfNormal(s: nat, exponent: nat, m: nat)
    requires s <= 1 && 1 <= exponent <= 30 && m < 0x80_0000
    ensures s * 0x8000 + HalfMagnitudeBits(exponent + 112, m) == Carried(s * 32 + exponent, Rounded(m))
  {
    assert (s * 32 + exponent) % 2 == exponent % 2;
  }

  lemma HighBits(s: nat, exponent: nat)
    requires s <= 1 && exponent <= 30
    ensures Or(s * 0x8000, Shl(exponent, 10)) == (s * 32 + exponent) * 0x400
  {
    Pow2Values();
    OrSign(s, exponent * 0x400);
  }

  /** The rounded mantissa is ORed in: its carry survives only onto a clear bit. */
  lemma LowBits(high: nat, q: nat, r: nat)
    requires high == q * 0x400 && r <= 0x400
    ensures Or(high, r) == Carried(q, r)
  {
    Pow2Values();
    if r < 0x400 { OrDisjoint(q, r, 10); } else { OrSameBit(q, 10); }
  }

  // ---- Binary16 magnitudes are ordered like their bits ----

  /** The magnitude of the bits `exponent, k`, also when `k` overflows into the exponent. */
  lemma HalfUnitsNormal(exponent: nat, k: nat)
    requires 1 <= exponent <= 30 && k <= 0x400
    ensures HalfUnits(exponent * 0x400 + k) == (0x400 + k) * Pow2(exponent - 1)
  {
    var h := exponent * 0x400 + k;
    if k < 0x400 {
      assert h / 0x400 == exponent && h % 0x400 == k;
    } else {
      assert h / 0x400 == exponent + 1 && h % 0x400 == 0;
    }
  }

  lemma HalfUnitsNext(h: nat)
    requires h < 0x7c00
    ensures HalfUnits(h) < HalfUnits(h + 1)
  {
    if h >= 0x400 {
      var exponent, k := h / 0x400, h % 0x400;
      HalfUnitsNormal(exponent, k);
      HalfUnitsNormal(exponent, k + 1);
      assert h == exponent * 0x400 + k && h + 1 == exponent * 0x400 + (k + 1);
      MulStrict(Pow2(exponent - 1), 0x400 + k, 0x401 + k);
    }
  }

  lemma {:induction false} HalfUnitsGrow(h: nat, h': nat)
    requires h < h' <= 0x7c00
    ensures HalfUnits(h) < HalfUnits(h')
    decreases h'
  {
    if h + 1 < h' {
      HalfUnitsGrow(h, h' - 1);
    }
    HalfUnitsNext(h' - 1);
  }

  lemma HalfMagnitudeGrows(h: nat, h': nat)
    requires h < h' <= 0x7c00
    ensures HalfMagnitude(h) < HalfMagnitude(h')
  {
    HalfUnitsGrow(h, h');
    MulStrict(Pow2(125), HalfUnits(h), HalfUnits(h'));
  }

  /** To be nearest it suffices to lie between the midpoints to the two neighbours. */
  lemma BetweenMidpoints(v: nat, h: nat)
    requires h <= 0x7c00
    requires h > 0 ==> 2 * v >= HalfMagnitude(h - 1) + HalfMagnitude(h)
    requires h < 0x7c00 ==> 2 * v < HalfMagnitude(h) + HalfMagnitude(h + 1)
    ensures NearestAway(v, h)
  {
    forall h': nat | h' <= 0x7c00
      ensures
        || Distance(v, HalfMagnitude(h)) < Distance(v, HalfMagnitude(h'))
        || (Distance(v, HalfMagnitude(h)) == Distance(v, HalfMagnitude(h')) && h' <= h)
    {
      if h' < h {
        if h' < h - 1 { HalfMagnitudeGrows(h', h - 1); }
        HalfMagnitudeGrows(h - 1, h);
      } else if h' > h {
        if h' > h + 1 { HalfMagnitudeGrows(h + 1, h'); }
        HalfMagnitudeGrows(h, h + 1);
      }
    }
  }

  // ---- Rounding, range by range ----

  lemma TinyRoundsToZero(e: nat, m: nat)
    requires 1 <= e < 102 && m < 0x80_0000
    ensures 2 * ((0x80_0000 + m) * Pow2(e - 1)) < Pow2(125)
  {
    var p, q := Pow2(e - 1), Pow2(100);
    Pow2Monotone(e - 1, 100);
    MulMonotone(0x80_0000 + m, p, q);
    MulStrict(q, 0x80_0000 + m, 0x100_0000);
    assert 0x100_0000 * q == Pow2(124) by { Pow2Values(); Pow2Add(24, 100); }
  }

  lemma HugeRoundsToInfinity(e: nat, m: nat)
    requires 143 <= e < 255 && m < 0x80_0000
    ensures (0x80_0000 + m) * Pow2(e - 1) >= HalfMagnitude(0x7c00)
  {
    NormalMagnitude(142, 0x400);
    LargerProduct(0x80_0000 + m, Pow2(e - 1), 0x80_0000, 2 * Pow2(141)) by {
      Pow2Monotone(142, e - 1);
    }
  }

  lemma LargerProduct(a: nat, b: nat, c: nat, d: nat)
    requires c <= a && d <= b
    ensures c * d <= a * b
  {
    MulMonotone(a, d, b);
    MulMonotone(d, c, a);
  }

  lemma NormalMagnitude(e: nat, k: nat)
    requires 113 <= e <= 142 && k <= 0x400
    ensures HalfMagnitude((e - 112) * 0x400 + k) == (0x400 + k) * 0x2000 * Pow2(e - 1)
  {
    HalfUnitsNormal(e - 112, k);
    UnitShift(0x400 + k, e);
  }

  lemma UnitShift(a: nat, e: nat)
    requires 113 <= e
    ensures a * Pow2(e - 113) * Pow2(125) == a * 0x2000 * Pow2(e - 1)
  {
    Pow2Add(e - 113, 125);
    Pow2Add(13, e - 1);
    MulAssociates(a, Pow2(e - 113), Pow2(125));
    MulAssociates(a, Pow2(13), Pow2(e - 1));
    Pow2Values();
  }

  /** In the normal range the carried result is nearest. */
  lemma NormalRounds(e: nat, m: nat)
    requires 113 <= e <= 142 && m < 0x80_0000
    ensures NearestAway((0x80_0000 + m) * Pow2(e - 1), (e - 112) * 0x400 + Rounded(m))
  {
    NormalAboveMidpoint(e, m);
    NormalBelowMidpoint(e, m);
    BetweenMidpoints((0x80_0000 + m) * Pow2(e - 1), (e - 112) * 0x400 + Rounded(m));
  }

  lemma NormalAboveMidpoint(e: nat, m: nat)
    requires 113 <= e <= 142 && m < 0x80_0000
    ensures
      var h := (e - 112) * 0x400 + Rounded(m);
      2 * ((0x80_0000 + m) * Pow2(e - 1)) >= HalfMagnitude(h - 1) + HalfMagnitude(h)
  {
    var u, r := Pow2(e - 1), Rounded(m);
    var h := (e - 112) * 0x400 + r;
    if r > 0 {
      NormalMagnitude(e, r);
      NormalMagnitude(e, r - 1);
      MidpointBelow(u, m, r);
    } else {
      HalfMagnitudeGrows(h - 1, h);
      AtLeastThePower(e, m);
    }
  }

  lemma AtLeastThePower(e: nat, m: nat)
    requires 113 <= e <= 142
    ensures (0x80_0000 + m) * Pow2(e - 1) >= HalfMagnitude((e - 112) * 0x400)
  {
    NormalMagnitude(e, 0);
    MulMonotone(Pow2(e - 1), 0x80_0000, 0x80_0000 + m);
  }

  lemma NormalBelowMidpoint(e: nat, m: nat)
    requires 113 <= e <= 142 && m < 0x80_0000
    ensures
      var h := (e - 112) * 0x400 + Rounded(m);
      h < 0x7c00 ==> 2 * ((0x80_0000 + m) * Pow2(e - 1)) < HalfMagnitude(h) + HalfMagnitude(h + 1)
  {
    var u, r := Pow2(e - 1), Rounded(m);
    var h := (e - 112) * 0x400 + r;
    NormalMagnitude(e, r);
    if r < 0x400 {
      NormalMagnitude(e, r + 1);
      MidpointAbove(u, m, r);
    } else if h < 0x7c00 {
      HalfMagnitudeGrows(h, h + 1);
      MulStrict(u, 0x80_0000 + m, 0x100_0000);
    }
  }

  lemma MidpointBelow(u: nat, m: nat, r: nat)
    requires u > 0 && r > 0 && r == Rounded(m)
    ensures 2 * ((0x80_0000 + m) * u) >= (0x400 + (r - 1)) * 0x2000 * u + (0x400 + r) * 0x2000 * u
  {
    MulMonotone(u, (0x400 + (r - 1)) * 0x2000 + (0x400 + r) * 0x2000, 2 * (0x80_0000 + m));
  }

  lemma MidpointAbove(u: nat, m: nat, r: nat)
    requires u > 0 && r == Rounded(m)
    ensures 2 * ((0x80_0000 + m) * u) < (0x400 + r) * 0x2000 * u + (0x400 + (r + 1)) * 0x2000 * u
  {
    MulStrict(u, 2 * (0x80_0000 + m), (0x400 + r) * 0x2000 + (0x400 + (r + 1)) * 0x2000);
  }

  /** A truncating shift followed by a rounding one is a single rounding. */
  lemma TwoShiftsRoundOnce(a: nat, p: nat)
    requires p > 0
    ensures
      var r := (a / p + 0x1000) / 0x2000;
      (2 * r - 1) * (0x2000 * p) <= 2 * a < (2 * r + 1) * (0x2000 * p)
  {
    var q := a / p;
    var r := (q + 0x1000) / 0x2000;
    assert a == p * q + a % p;
    assert 0x2000 * r <= q + 0x1000 < 0x2000 * (r + 1);
    MulMonotone(p, 0x2000 * r - 0x1000, q);
    MulMonotone(p, q + 1, 0x2000 * r + 0x1000);
    assert p * (q + 1) == p * q + p;
    assert 2 * (p * (0x2000 * r - 0x1000)) == (2 * r - 1) * (0x2000 * p);
    assert 2 * (p * (0x2000 * r + 0x1000)) == (2 * r + 1) * (0x2000 * p);
  }

  lemma HalfUnitsSmall(h: nat)
    requires h <= 0x800
    ensures HalfUnits(h) == h
  {
    if 0x400 <= h < 0x800 {
      assert h / 0x400 == 1 && 0x400 + h % 0x400 == h;
    } else if h == 0x800 {
      assert Pow2(1) == 2;
    }
  }

  /** In the subnormal range the two-stage result is nearest. */
  lemma SubnormalRounds(e: nat, m: nat)
    requires 102 <= e <= 112 && m < 0x80_0000
    ensures NearestAway((0x80_0000 + m) * Pow2(e - 1), HalfMagnitudeBits(e, m))
  {
    var r := HalfMagnitudeBits(e, m);
    SubnormalRange(e, m);
    SubnormalMidpoints(e, m);
    HalfUnitsSmall(r);
    HalfUnitsSmall(r + 1);
    if r > 0 { HalfUnitsSmall(r - 1); }
    BetweenMidpoints((0x80_0000 + m) * Pow2(e - 1), r);
  }

  lemma SubnormalMidpoints(e: nat, m: nat)
    requires 102 <= e <= 112 && m < 0x80_0000
    ensures
      var r, v := HalfMagnitudeBits(e, m), (0x80_0000 + m) * Pow2(e - 1);
      && (r > 0 ==> 2 * v >= (r - 1) * Pow2(125) + r * Pow2(125))
      && 2 * v < r * Pow2(125) + (r + 1) * Pow2(125)
  {
    var a, p, u, r := 0x80_0000 + m, Pow2(113 - e), Pow2(e - 1), HalfMagnitudeBits(e, m);
    TwoShiftsRoundOnce(a, p);
    SubnormalUnit(e);
    var d := 0x2000 * p;
    assert r == (a / p + 0x1000) / 0x2000;
    assert (2 * r - 1) * d <= 2 * a < (2 * r + 1) * d;
    ScaleMidpoints(a, d, u, r, Pow2(125));
  }

  lemma SubnormalUnit(e: nat)
    requires 102 <= e <= 112
    ensures Pow2(125) == 0x2000 * Pow2(113 - e) * Pow2(e - 1)
  {
    Pow2Values();
    Pow2Add(13, 113 - e);
    Pow2Add(126 - e, e - 1);
  }

  lemma ScaleMidpoints(a: nat, d: nat, u: nat, r: nat, w: nat)
    requires u > 0 && w == d * u && (2 * r - 1) * d <= 2 * a < (2 * r + 1) * d
    ensures r > 0 ==> 2 * (a * u) >= (r - 1) * w + r * w
    ensures 2 * (a * u) < r * w + (r + 1) * w
  {
    SumOfNeighbours(r, w);
    MulAssociates(2, a, u);
    MulAssociates(2 * r + 1, d, u);
    MulStrict(u, 2 * a, (2 * r + 1) * d);
    if r > 0 {
      MulAssociates(2 * r - 1, d, u);
      MulMonotone(u, (2 * r - 1) * d, 2 * a);
      assert u * ((2 * r - 1) * d) == (2 * r - 1) * w;
    }
  }

  lemma SumOfNeighbours(r: nat, w: nat)
    ensures r * w + (r + 1) * w == (2 * r + 1) * w
    ensures r > 0 ==> (r - 1) * w + r * w == (2 * r - 1) * w
  {
  }

  // ---- The codec ----

  /** The inputs on which `half` loses the carry of its rounding: the mantissa rounds up to
      the next power of two and the rebased exponent is odd, so ORing the carry adds nothing. */
  predicate CarryLost(bits: Float) {
    113 <= Exponent(bits) <= 142 && Exponent(bits) % 2 == 1 && Mantissa(bits) >= 0x7f_f000
  }

  lemma TinyIsNearest(bits: Float)
    requires Exponent(bits) < 102
    ensures NearestAway(Magnitude(bits), 0)
  {
    var e, m := Exponent(bits), Mantissa(bits);
    if e > 0 {
      TinyRoundsToZero(e, m);
    } else {
      assert 2 * m < Pow2(125) by { Pow2Values(); Pow2Monotone(24, 125); }
    }
    HalfUnitsSmall(1);
    assert HalfMagnitude(0) == 0 && HalfMagnitude(1) == Pow2(125);
    BetweenMidpoints(Magnitude(bits), 0);
  }

  lemma HugeIsNearest(bits: Float)
    requires 143 <= Exponent(bits) < 255
    ensures NearestAway(Magnitude(bits), 0x7c00)
  {
    HugeRoundsToInfinity(Exponent(bits), Mantissa(bits));
    HalfMagnitudeGrows(0x7bff, 0x7c00);
    BetweenMidpoints(Magnitude(bits), 0x7c00);
  }

  lemma NormalIsNearest(bits: Float)
    requires 113 <= Exponent(bits) <= 142 && !CarryLost(bits)
    ensures NearestAway(Magnitude(bits), HalfMagnitudeBits(Exponent(bits), Mantissa(bits)))
  {
    var e, m := Exponent(bits), Mantissa(bits);
    NormalRounds(e, m);
    assert Magnitude(bits) == (0x80_0000 + m) * Pow2(e - 1);
    assert HalfMagnitudeBits(e, m) == (e - 112) * 0x400 + Rounded(m);
  }

  /** Outside the exception the computed magnitude is nearest. */
  lemma MagnitudeIsNearest(bits: Float)
    requires IsFinite(bits) && !CarryLost(bits)
    ensures NearestAway(Magnitude(bits), HalfMagnitudeBits(Exponent(bits), Mantissa(bits)))
  {
    var e, m := Exponent(bits), Mantissa(bits);
    if e < 102 {
      TinyIsNearest(bits);
    } else if e <= 112 {
      SubnormalRounds(e, m);
      assert Magnitude(bits) == (0x80_0000 + m) * Pow2(e - 1);
    } else if e >= 143 {
      HugeIsNearest(bits);
    } else {
      NormalIsNearest(bits);
    }
  }

  /** In the exception the computed magnitude is half of the nearest one. */
  lemma CarryHalves(bits: Float)
    requires CarryLost(bits)
    ensures
      var h := HalfMagnitudeBits(Exponent(bits), Mantissa(bits));
      && h + 0x400 <= 0x7c00
      && NearestAway(Magnitude(bits), h + 0x400)
      && HalfMagnitude(h + 0x400) == 2 * HalfMagnitude(h)
  {
    var e, m := Exponent(bits), Mantissa(bits);
    assert Rounded(m) == 0x400 && (e - 112) % 2 == 1;
    NormalRounds(e, m);
    NextPowerIsDouble(e);
  }

  lemma NextPowerIsDouble(e: nat)
    requires 113 <= e <= 142
    ensures HalfMagnitude((e - 112) * 0x400 + 0x400) == 2 * HalfMagnitude((e - 112) * 0x400)
  {
    NormalMagnitude(e, 0);
    NormalMagnitude(e, 0x400);
  }

  /** What becomes of a float: `h` has its sign and is the nearest binary16 number, ties away
      from zero, for every finite float, if and only if the carry is not lost; if it is, `h` is
      half of what it should be.  Infinities and NaNs become infinities of the same sign. */
  ghost predicate RoundsTo(bits: Float, h: nat) {
    var magnitude := h - Sign(bits) * 0x8000;
    && 0 <= magnitude <= 0x7c00
    && (IsFinite(bits) ==> (NearestAway(Magnitude(bits), magnitude) <==> !CarryLost(bits)))
    && (CarryLost(bits) ==>
          && magnitude + 0x400 <= 0x7c00
          && NearestAway(Magnitude(bits), magnitude + 0x400)
          && HalfMagnitude(magnitude + 0x400) == 2 * HalfMagnitude(magnitude))
    && (!IsFinite(bits) ==> magnitude == 0x7c00)
  }

  lemma HalfIsNearest(bits: Float)
    ensures RoundsTo(bits, HalfOf(bits))
  {
    var magnitude := HalfMagnitudeBits(Exponent(bits), Mantissa(bits));
    HalfByFields(bits);
    HalfMagnitudeRange(Exponent(bits), Mantissa(bits));
    if CarryLost(bits) {
      CarryHalves(bits);
      NearestAwayUnique(Magnitude(bits), magnitude + 0x400, magnitude);
    } else if IsFinite(bits) {
      MagnitudeIsNearest(bits);
    }
  }

  /** The value of `half` on every input whose carry is lost: the power of two it had to pass. */
  lemma CarryLostValue(bits: Float)
    requires CarryLost(bits)
    ensures HalfOf(bits) == Sign(bits) * 0x8000 + (Exponent(bits) - 112) * 0x400
  {
    HalfByFields(bits);
  }

  /** The smallest such input is just below 2^-13. */
  lemma CarryLostExample()
    ensures CarryLost(0x38ff_f000) && Sign(0x38ff_f000) == 0 && (Exponent(0x38ff_f000) - 112) * 0x400 == 0x400
    ensures forall bits: Float :: CarryLost(bits) ==> bits >= 0x38ff_f000
  {
    forall bits: Float | CarryLost(bits)
      ensures bits >= 0x38ff_f000
    {
      FieldsCompose(bits);
    }
  }

  /** Its value is 0x400, the bits of 2^-14. */
  lemma CarryLostEvaluated(bits: Float)
    requires bits == 0x38ff_f000
    ensures HalfOf(bits) == 0x400
  {
    CarryLostExample();
    CarryLostValue(bits);
  }
}
