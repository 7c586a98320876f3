/**
 The floating-point fields of the MessagePack coder, over exact reals: `frexp`/`ldexp`, the
 binary32 and binary64 packers, and what survives a pack followed by an unpack.
 */
module Floats {
  import opened Bytes

  /** A Lua number. Finite ones are exact reals, so the two zeros are one value, as under Lua's `==`. */
  datatype Number = Real(x: real) | Inf(negative: bool) | NaN

  // ---- ldexp and frexp ----

  /** x * 2^e */
  function Ldexp(x: real, e: int): (y: real)
    decreases if e < 0 then -e else e
  {
    if e == 0 then x else if e > 0 then Ldexp(2.0 * x, e - 1) else Ldexp(x / 2.0, e + 1)
  }

  lemma LdexpStep(x: real, e: int)
    ensures Ldexp(2.0 * x, e - 1) == Ldexp(x, e)
  {
  }

  lemma LdexpShift4(x: real, e: int)
    ensures Ldexp(16.0 * x, e - 4) == Ldexp(x, e)
  {
    LdexpStep(x, e); LdexpStep(2.0 * x, e - 1); LdexpStep(4.0 * x, e - 2); LdexpStep(8.0 * x, e - 3);
  }

  lemma LdexpShift23(x: real, e: int)
    ensures Ldexp(8388608.0 * x, e - 23) == Ldexp(x, e)
  {
    LdexpShift4(x, e); LdexpShift4(16.0 * x, e - 4); LdexpShift4(256.0 * x, e - 8);
    LdexpShift4(4096.0 * x, e - 12); LdexpShift4(65536.0 * x, e - 16);
    LdexpStep(1048576.0 * x, e - 20); LdexpStep(2097152.0 * x, e - 21); LdexpStep(4194304.0 * x, e - 22);
  }

  lemma LdexpShift52(x: real, e: int)
    ensures Ldexp(4503599627370496.0 * x, e - 52) == Ldexp(x, e)
  {
    LdexpShift23(x, e);
    LdexpShift23(8388608.0 * x, e - 23);
    LdexpShift4(70368744177664.0 * x, e - 46);
    LdexpStep(1125899906842624.0 * x, e - 50);
    LdexpStep(2251799813685248.0 * x, e - 51);
  }

  lemma {:induction false} LdexpAdd(x: real, y: real, e: int)
    ensures Ldexp(x + y, e) == Ldexp(x, e) + Ldexp(y, e)
    decreases if e < 0 then -e else e
  {
    if e > 0 {
      LdexpAdd(2.0 * x, 2.0 * y, e - 1);
      assert 2.0 * (x + y) == 2.0 * x + 2.0 * y;
    } else if e < 0 {
      LdexpAdd(x / 2.0, y / 2.0, e + 1);
      assert (x + y) / 2.0 == x / 2.0 + y / 2.0;
    }
  }

  lemma {:induction false} LdexpOrder(x: real, y: real, e: int)
    ensures x < y <==> Ldexp(x, e) < Ldexp(y, e)
    ensures Ldexp(0.0, e) == 0.0
    decreases if e < 0 then -e else e
  {
    if e > 0 {
      LdexpOrder(2.0 * x, 2.0 * y, e - 1);
    } else if e < 0 {
      LdexpOrder(x / 2.0, y / 2.0, e + 1);
    }
  }

  lemma LdexpInjective(x: real, y: real, e: int)
    requires Ldexp(x, e) == Ldexp(y, e)
    ensures x == y
  {
    LdexpOrder(x, y, e);
    LdexpOrder(y, x, e);
  }

  lemma {:induction false} LdexpGrows(x: real, d: int, e: int)
    requires x > 0.0 && d <= e
    ensures Ldexp(x, d) <= Ldexp(x, e)
    decreases e - d
  {
    if d < e {
      LdexpGrows(x, d, e - 1);
      LdexpStep(x, e);
      LdexpOrder(x, 2.0 * x, e - 1);
    }
  }

  /** How many times a positive number must be halved or doubled to land in [1/2, 1). */
  function Scalings(a: real): (n: nat)
    requires a > 0.0
    decreases if a >= 1.0 then a.Floor + 2 else if a < 0.5 then (1.0 / a).Floor else 0
  {
    if a >= 1.0 then
      1 + Scalings(a / 2.0)
    else if a < 0.5 then
      InverseHalves(a);
      1 + Scalings(2.0 * a)
    else
      0
  }

  lemma InverseHalves(a: real)
    requires 0.0 < a < 0.5
    ensures (1.0 / (2.0 * a)).Floor < (1.0 / a).Floor && (1.0 / a).Floor >= 2
  {
    var i := 1.0 / a;
    assert i * a == 1.0;
    NonPositiveProduct(i - 2.0, a);
    assert (i - 2.0) * a == 1.0 - 2.0 * a;
    assert (i / 2.0) * (2.0 * a) == 1.0;
    assert 1.0 / (2.0 * a) == i / 2.0;
  }

  lemma NonPositiveProduct(x: real, a: real)
    requires a > 0.0
    ensures x <= 0.0 ==> x * a <= 0.0
  {
  }

  /** `frexp` of a positive number: a mantissa in [1/2, 1) and a binary exponent. */
  function Frexp(a: real): (r: (real, int))
    requires a > 0.0
    ensures 0.5 <= r.0 < 1.0
    decreases Scalings(a)
  {
    if a >= 1.0 then
      var r := Frexp(a / 2.0);
      (r.0, r.1 + 1)
    else if a < 0.5 then
      var r := Frexp(2.0 * a);
      (r.0, r.1 - 1)
    else
      (a, 0)
  }

  /** `frexp` and `ldexp` are inverse to each other. */
  lemma {:induction false} FrexpValue(a: real) returns (m: real, e: int)
    requires a > 0.0
    ensures (m, e) == Frexp(a) && Ldexp(m, e) == a
    decreases Scalings(a)
  {
    if a >= 1.0 {
      m, e := FrexpValue(a / 2.0);
      DoubleLdexp(m, e);
      e := e + 1;
    } else if a < 0.5 {
      m, e := FrexpValue(2.0 * a);
      DoubleLdexp(m, e - 1);
      e := e - 1;
    } else {
      m, e := a, 0;
    }
  }

  lemma DoubleLdexp(x: real, e: int)
    ensures Ldexp(x, e + 1) == 2.0 * Ldexp(x, e)
  {
    LdexpStep(x, e + 1);
    LdexpAdd(x, x, e);
  }

  lemma FrexpUnique(a: real, m: real, e: int)
    requires a > 0.0 && 0.5 <= m < 1.0 && Ldexp(m, e) == a
    ensures Frexp(a) == (m, e)
  {
    var n, f := FrexpValue(a);
    if e < f {
      BinadesDisjoint(m, e, n, f);
    } else if f < e {
      BinadesDisjoint(n, f, m, e);
    } else {
      LdexpInjective(m, n, e);
    }
  }

  lemma BinadesDisjoint(m: real, e: int, n: real, f: int)
    requires 0.5 <= m < 1.0 && 0.5 <= n < 1.0 && e < f
    ensures Ldexp(m, e) < Ldexp(n, f)
  {
    LdexpOrder(m, 1.0, e);
    LdexpStep(0.5, e + 1);
    LdexpGrows(0.5, e + 1, f);
    LdexpOrder(n, 0.5, f);
  }

  // ---- the two formats ----

  /** 2^(bits-1), the number of significant bits, and the `frexp` exponents packed as finite. */
  datatype Format = Format(half: real, bits: nat, eMin: int, eMax: int)
  const SINGLE := Format(8388608.0, 24, -0x7E, 0x80)
  const DOUBLE := Format(4503599627370496.0, 53, -0x3FE, 0x400)

  predicate Known(f: Format) {
    f == SINGLE || f == DOUBLE
  }

  /** The integer stored after the implicit leading one. */
  function Mantissa(m: real, f: Format): (k: int) {
    ((m * 2.0 - 1.0) * f.half).Floor
  }

  /** The number the unpackers build from a stored mantissa; `e` is the frexp exponent. */
  function FromFields(k: int, f: Format, e: int): (t: real)
    requires f.half > 0.0
  {
    Ldexp(1.0 + k as real / f.half, e - 1)
  }

  /** All the significant bits of a mantissa, as a number in [2^(bits-1), 2^bits). */
  function Significand(m: real, f: Format): (z: real) {
    m * (2.0 * f.half)
  }

  lemma MantissaBounds(m: real, f: Format)
    requires Known(f) && 0.5 <= m < 1.0
    ensures Mantissa(m, f) as real == Significand(m, f).Floor as real - f.half
    ensures 0 <= Mantissa(m, f) && Mantissa(m, f) as real < f.half
  {
    if f == SINGLE {
      assert (m * 16777216.0 - 8388608.0).Floor == (m * 16777216.0).Floor - 8388608;
    } else {
      assert (m * 9007199254740992.0 - 4503599627370496.0).Floor == (m * 9007199254740992.0).Floor - 4503599627370496;
    }
  }

  /** Unpacking the packed fields keeps the whole part of the significand, at the same scale. */
  lemma FieldsKeepFloor(m: real, e: int, f: Format)
    requires Known(f) && 0.5 <= m < 1.0
    ensures FromFields(Mantissa(m, f), f, e) == Ldexp(Significand(m, f).Floor as real, e - f.bits)
  {
    MantissaBounds(m, f);
    if f == SINGLE {
      LdexpShift23((m * 16777216.0).Floor as real / 8388608.0, e - 1);
    } else {
      LdexpShift52((m * 9007199254740992.0).Floor as real / 4503599627370496.0, e - 1);
    }
  }

  lemma ValueInUnits(m: real, e: int, f: Format)
    requires Known(f)
    ensures Ldexp(m, e) == Ldexp(Significand(m, f), e - f.bits)
  {
    LdexpStep(m, e);
    if f == SINGLE {
      LdexpShift23(2.0 * m, e - 1);
    } else {
      LdexpShift52(2.0 * m, e - 1);
    }
  }

  // ---- packed bytes ----

  function FloatBytes(sign: int, expo: int, mant: int): (b: bytes)
    requires sign == 0 || sign == 0x80
    requires 0 <= expo <= 0xFE && 0 <= mant < 0x80_0000
  {
    [0xCA, sign + expo / 0x2, expo % 0x2 * 0x80 + mant / 0x10000, mant / 0x100 % 0x100, mant % 0x100]
  }

  function PackFloat(n: Number): (b: bytes) {
    match n
    case NaN => [0xCA, 0xFF, 0x88, 0x00, 0x00]
    case Inf(negative) => [0xCA, if negative then 0xFF else 0x7F, 0x80, 0x00, 0x00]
    case Real(x) =>
      if x == 0.0 then [0xCA, 0x00, 0x00, 0x00, 0x00] else
      var (m, e) := Frexp(Signed(x < 0.0, x));
      PackFloatParts(x < 0.0, m, e)
  }

  function PackFloatParts(negative: bool, m: real, e: int): (b: bytes)
    requires 0.5 <= m < 1.0
  {
    var sign := if negative then 0x80 else 0;
    if e > 0x80 then
      [0xCA, if negative then 0xFF else 0x7F, 0x80, 0x00, 0x00]
    else if e < -0x7E then
      [0xCA, sign, 0x00, 0x00, 0x00]
    else
      MantissaBounds(m, SINGLE);
      FloatBytes(sign, e + 0x7E, Mantissa(m, SINGLE))
  }

  function UnpackFloat(b: bytes): (n: Number)
    requires |b| == 4
  {
    var b1: int, b2: int, b3: int, b4: int := b[0], b[1], b[2], b[3];
    var expo := b1 % 0x80 * 0x2 + b2 / 0x80;
    var mant := (b2 % 0x80 * 0x100 + b3) * 0x100 + b4;
    FromParts(b1 > 0x7F, expo, mant, 0xFF, expo - 0x7E, SINGLE)
  }

  function DoubleBytes(sign: int, expo: int, mant: int): (b: bytes)
    requires sign == 0 || sign == 0x80
    requires 0 <= expo <= 0x7FE && 0 <= mant < 0x10_0000_0000_0000
  {
    [0xCB, sign + expo / 0x10, expo % 0x10 * 0x10 + mant / 0x1_0000_0000_0000,
     mant / 0x100_0000_0000 % 0x100, mant / 0x1_0000_0000 % 0x100, mant / 0x100_0000 % 0x100,
     mant / 0x1_0000 % 0x100, mant / 0x100 % 0x100, mant % 0x100]
  }

  function PackDouble(n: Number): (b: bytes) {
    match n
    case NaN => [0xCB, 0xFF, 0xF8, 0x00, 0x00, 0x00, 0x00, 0x00, 0x00]
    case Inf(negative) => [0xCB, if negative then 0xFF else 0x7F, 0xF0, 0x00, 0x00, 0x00, 0x00, 0x00, 0x00]
    case Real(x) =>
      if x == 0.0 then [0xCB, 0x00, 0x00, 0x00, 0x00, 0x00, 0x00, 0x00, 0x00] else
      var (m, e) := Frexp(Signed(x < 0.0, x));
      PackDoubleParts(x < 0.0, m, e)
  }

  function PackDoubleParts(negative: bool, m: real, e: int): (b: bytes)
    requires 0.5 <= m < 1.0
  {
    var sign := if negative then 0x80 else 0;
    if e > 0x400 then
      [0xCB, if negative then 0xFF else 0x7F, 0xF0, 0x00, 0x00, 0x00, 0x00, 0x00, 0x00]
    else if e < -0x3FE then
      [0xCB, sign, 0x00, 0x00, 0x00, 0x00, 0x00, 0x00, 0x00]
    else
      MantissaBounds(m, DOUBLE);
      DoubleBytes(sign, e + 0x3FE, Mantissa(m, DOUBLE))
  }

  function UnpackDouble(b: bytes): (n: Number)
    requires |b| == 8
  {
    var b1: int, b2: int := b[0], b[1];
    var expo := b1 % 0x80 * 0x10 + b2 / 0x10;
    var mant := b2 % 0x10 * 0x1_0000_0000_0000 + FromBe(b[2..]);
    FromParts(b1 > 0x7F, expo, mant, 0x7FF, expo - 0x3FE, DOUBLE)
  }

  /** The branches both unpackers share; `top` is the exponent field of infinities and NaN. */
  function FromParts(negative: bool, expo: int, mant: int, top: int, e: int, f: Format): (n: Number)
    requires f.half > 0.0
  {
    if mant == 0 && expo == 0 then Real(0.0)
    else if expo == top then if mant == 0 then Inf(negative) else NaN
    else Real(Signed(negative, FromFields(mant, f, e)))
  }

  function Signed(negative: bool, a: real): (x: real) {
    if negative then -a else a
  }

  // ---- what a pack followed by an unpack keeps ----

  /** The number left after packing and unpacking: truncated toward zero, or flushed at the ends of the range. */
  function Kept(n: Number, f: Format): (k: Number) {
    if !n.Real? || n.x == 0.0 then n else
    var (m, e) := Frexp(Signed(n.x < 0.0, n.x));
    KeptParts(n.x < 0.0, m, e, f)
  }

  function KeptParts(negative: bool, m: real, e: int, f: Format): (k: Number) {
    if e > f.eMax then Inf(negative)
    else if e < f.eMin || (e == f.eMin && Mantissa(m, f) == 0) then Real(0.0)
    else Real(Signed(negative, Ldexp(Significand(m, f).Floor as real, e - f.bits)))
  }

  lemma FloatRoundTrip(n: Number)
    ensures |PackFloat(n)| == 5 && PackFloat(n)[0] == 0xCA
    ensures UnpackFloat(PackFloat(n)[1..]) == Kept(n, SINGLE)
  {
    if n.Real? && n.x != 0.0 {
      var (m, e) := Frexp(Signed(n.x < 0.0, n.x));
      FloatPartsRoundTrip(n.x < 0.0, m, e);
    }
  }

  lemma FloatPartsRoundTrip(negative: bool, m: real, e: int)
    requires 0.5 <= m < 1.0
    ensures |PackFloatParts(negative, m, e)| == 5 && PackFloatParts(negative, m, e)[0] == 0xCA
    ensures UnpackFloat(PackFloatParts(negative, m, e)[1..]) == KeptParts(negative, m, e, SINGLE)
  {
    if -0x7E <= e <= 0x80 {
      MantissaBounds(m, SINGLE);
      FieldsKeepFloor(m, e, SINGLE);
      FloatFields(if negative then 0x80 else 0, e + 0x7E, Mantissa(m, SINGLE));
    }
  }

  lemma FloatFields(sign: int, expo: int, mant: int)
    requires sign == 0 || sign == 0x80
    requires 0 <= expo <= 0xFE && 0 <= mant < 0x80_0000
    ensures UnpackFloat(FloatBytes(sign, expo, mant)[1..])
         == FromParts(sign == 0x80, expo, mant, 0xFF, expo - 0x7E, SINGLE)
  {
    var b := FloatBytes(sign, expo, mant)[1..];
    assert b[0] % 0x80 == expo / 0x2 && b[1] / 0x80 == expo % 0x2;
    assert b[1] % 0x80 == mant / 0x10000 && mant / 0x100 / 0x100 == mant / 0x10000;
  }

  lemma DoubleRoundTrip(n: Number)
    ensures |PackDouble(n)| == 9 && PackDouble(n)[0] == 0xCB
    ensures UnpackDouble(PackDouble(n)[1..]) == Kept(n, DOUBLE)
  {
    if n.Inf? {
      EmptyFraction(if n.negative then 0xFF else 0x7F, 0xF0);
    } else if n == Real(0.0) {
      EmptyFraction(0x00, 0x00);
    } else if n.Real? {
      var (m, e) := Frexp(Signed(n.x < 0.0, n.x));
      DoublePartsRoundTrip(n.x < 0.0, m, e);
    }
  }

  lemma DoublePartsRoundTrip(negative: bool, m: real, e: int)
    requires 0.5 <= m < 1.0
    ensures |PackDoubleParts(negative, m, e)| == 9 && PackDoubleParts(negative, m, e)[0] == 0xCB
    ensures UnpackDouble(PackDoubleParts(negative, m, e)[1..]) == KeptParts(negative, m, e, DOUBLE)
  {
    if e > 0x400 {
      EmptyFraction(if negative then 0xFF else 0x7F, 0xF0);
    } else if e < -0x3FE {
      EmptyFraction(if negative then 0x80 else 0, 0x00);
    } else {
      MantissaBounds(m, DOUBLE);
      FieldsKeepFloor(m, e, DOUBLE);
      DoubleFields(if negative then 0x80 else 0, e + 0x3FE, Mantissa(m, DOUBLE));
    }
  }

  lemma EmptyFraction(b1: byte, b2: byte)
    requires b2 == 0x00 || b2 == 0xF0
    ensures UnpackDouble([0xCB, b1, b2, 0x00, 0x00, 0x00, 0x00, 0x00, 0x00][1..])
         == FromParts(b1 as int > 0x7F, (b1 as int) % 0x80 * 0x10 + b2 as int / 0x10, 0, 0x7FF,
                      (b1 as int) % 0x80 * 0x10 + b2 as int / 0x10 - 0x3FE, DOUBLE)
  {
    LowBytesValue(0);
    assert [0xCB, b1, b2, 0x00, 0x00, 0x00, 0x00, 0x00, 0x00][1..][2..] == Be6(0);
  }

  lemma DoubleFields(sign: int, expo: int, mant: int)
    requires sign == 0 || sign == 0x80
    requires 0 <= expo <= 0x7FE && 0 <= mant < 0x10_0000_0000_0000
    ensures UnpackDouble(DoubleBytes(sign, expo, mant)[1..])
         == FromParts(sign == 0x80, expo, mant, 0x7FF, expo - 0x3FE, DOUBLE)
  {
    var b, high := DoubleBytes(sign, expo, mant)[1..], mant / 0x1_0000_0000_0000;
    assert b[2..] == Be6(mant);
    LowBytesValue(mant);
    DoubleFieldsOf(b, sign, expo, high, FromBe(b[2..]));
  }

  lemma DoubleFieldsOf(b: bytes, sign: int, expo: int, high: int, low: int)
    requires sign == 0 || sign == 0x80
    requires 0 <= expo <= 0x7FE && 0 <= high < 0x10 && |b| == 8
    requires b[0] == sign + expo / 0x10 && b[1] == expo % 0x10 * 0x10 + high && FromBe(b[2..]) == low
    ensures UnpackDouble(b)
         == FromParts(sign == 0x80, expo, high * 0x1_0000_0000_0000 + low, 0x7FF, expo - 0x3FE, DOUBLE)
  {
    HighBytes(sign, expo, high);
  }

  lemma HighBytes(sign: int, expo: int, high: int)
    requires sign == 0 || sign == 0x80
    requires 0 <= expo <= 0x7FE && 0 <= high < 0x10
    ensures (sign + expo / 0x10) % 0x80 * 0x10 + (expo % 0x10 * 0x10 + high) / 0x10 == expo
    ensures (expo % 0x10 * 0x10 + high) % 0x10 == high
    ensures sign + expo / 0x10 > 0x7F <==> sign == 0x80
  {
  }

  lemma LowBytesValue(mant: int)
    ensures mant / 0x1_0000_0000_0000 * 0x1_0000_0000_0000 + FromBe(Be6(mant)) == mant
  {
    Be7IsToBe(mant);
    FromToBeMod(mant, 6);
    Powers();
  }

  // ---- what survives ----

  /** The exponent lies in the packed range and the number is not the one that reads back as zero. */
  predicate InRange(n: Number, f: Format) {
    n.Real? && n.x != 0.0 &&
    var (m, e) := Frexp(Signed(n.x < 0.0, n.x));
    f.eMin <= e <= f.eMax && !(e == f.eMin && Mantissa(m, f) == 0)
  }

  /** No significant bit lies below the last one the format stores. */
  predicate FitsBits(n: Number, f: Format) {
    n.Real? && n.x != 0.0 &&
    var (m, _) := Frexp(Signed(n.x < 0.0, n.x));
    Significand(m, f).Floor as real == Significand(m, f)
  }

  /** One unit in the last place of a nonzero finite number. */
  function Ulp(n: Number, f: Format): (u: real)
    requires n.Real? && n.x != 0.0
  {
    Ldexp(1.0, Frexp(Signed(n.x < 0.0, n.x)).1 - f.bits)
  }

  /**
   In range, packing truncates toward zero: the sign is kept, the magnitude does not grow, less than
   one unit in the last place is lost, and nothing is lost exactly when the number fits.
   */
  lemma TruncatesTowardZero(n: Number, f: Format)
    requires Known(f) && InRange(n, f)
    ensures Kept(n, f).Real?
    ensures n.x > 0.0 ==> 0.0 < Kept(n, f).x <= n.x < Kept(n, f).x + Ulp(n, f)
    ensures n.x < 0.0 ==> 0.0 > Kept(n, f).x >= n.x > Kept(n, f).x - Ulp(n, f)
    ensures Kept(n, f) == n <==> FitsBits(n, f)
  {
    var m, e := FrexpValue(Signed(n.x < 0.0, n.x));
    FloorInUnits(m, e, f);
  }

  lemma FloorInUnits(m: real, e: int, f: Format)
    requires Known(f) && 0.5 <= m < 1.0
    ensures var z, u := Significand(m, f), e - f.bits;
      && 0.0 < Ldexp(z.Floor as real, u) <= Ldexp(m, e) < Ldexp(z.Floor as real, u) + Ldexp(1.0, u)
      && (Ldexp(z.Floor as real, u) == Ldexp(m, e) <==> z.Floor as real == z)
  {
    var z, u := Significand(m, f), e - f.bits;
    MantissaBounds(m, f);
    ValueInUnits(m, e, f);
    LdexpOrder(0.0, z.Floor as real, u);
    LdexpOrder(z.Floor as real, z, u);
    LdexpOrder(z, z.Floor as real + 1.0, u);
    LdexpOrder(z, z.Floor as real, u);
    LdexpAdd(z.Floor as real, 1.0, u);
  }

  /** Exactly which finite numbers survive a pack and an unpack unchanged. */
  lemma KeptExactly(n: Number, f: Format)
    requires Known(f) && n.Real?
    ensures Kept(n, f) == n <==> n.x == 0.0 || (InRange(n, f) && FitsBits(n, f))
  {
    if InRange(n, f) {
      TruncatesTowardZero(n, f);
    }
  }

  /** A second pass changes nothing. */
  lemma KeptIdempotent(n: Number, f: Format)
    requires Known(f)
    ensures Kept(Kept(n, f), f) == Kept(n, f)
  {
    if InRange(n, f) {
      var m, e := FrexpValue(Signed(n.x < 0.0, n.x));
      var z := Significand(m, f).Floor as real;
      var k := z / (2.0 * f.half);
      MantissaBounds(m, f);
      FloorInUnits(m, e, f);
      WholeOverScale(m, k, f);
      ValueInUnits(k, e, f);
      FrexpUnique(Ldexp(z, e - f.bits), k, e);
    }
  }

  lemma WholeOverScale(m: real, k: real, f: Format)
    requires Known(f) && 0.5 <= m < 1.0 && k == Significand(m, f).Floor as real / (2.0 * f.half)
    ensures 0.5 <= k < 1.0 && Significand(k, f) == Significand(m, f).Floor as real
    ensures Mantissa(k, f) == Mantissa(m, f)
  {
    MantissaBounds(m, f);
    if f == SINGLE {
      assert (k * 2.0 - 1.0) * 8388608.0 == (m * 16777216.0).Floor as real - 8388608.0;
    } else {
      assert (k * 2.0 - 1.0) * 4503599627370496.0 == (m * 9007199254740992.0).Floor as real - 4503599627370496.0;
    }
  }

  // ---- doubles ----

  /** Every positive number of at most 53 significant bits is k * 2^j with a `k` of just 53 bits. */
  lemma {:induction false} Normalized(k: int, j: int) returns (k': int, j': int)
    requires 0 < k < 0x20_0000_0000_0000
    ensures 0x10_0000_0000_0000 <= k' < 0x20_0000_0000_0000 && j' <= j
    ensures Ldexp(k' as real, j') == Ldexp(k as real, j)
    decreases 0x20_0000_0000_0000 - k
  {
    if k >= 0x10_0000_0000_0000 {
      k', j' := k, j;
    } else {
      LdexpStep(k as real, j);
      k', j' := Normalized(2 * k, j - 1);
    }
  }

  lemma DoubleParts(k: int, j: int)
    requires 0x10_0000_0000_0000 <= k < 0x20_0000_0000_0000
    ensures Ldexp(k as real, j) > 0.0
    ensures var (m, e) := Frexp(Ldexp(k as real, j));
      e == j + 53 && Significand(m, DOUBLE) == k as real && Mantissa(m, DOUBLE) == k - 0x10_0000_0000_0000
  {
    var m := k as real / 9007199254740992.0;
    LdexpOrder(0.0, k as real, j);
    ValueInUnits(m, j + 53, DOUBLE);
    FrexpUnique(Ldexp(k as real, j), m, j + 53);
    MantissaBounds(m, DOUBLE);
  }

  /**
   What the double packer keeps of such a number: all of it from above 2^-1023 up to the largest double, so of
   every normal double; 2^-1023 and less become zero, and more infinite.
   */
  lemma DoubleKeptExactly(k: int, j: int, negative: bool)
    requires 0x10_0000_0000_0000 <= k < 0x20_0000_0000_0000
    ensures var n := Real(Signed(negative, Ldexp(k as real, j)));
      n.x != 0.0 && Kept(n, DOUBLE) ==
        if j > 971 then Inf(negative)
        else if j < -1075 || (j == -1075 && k == 0x10_0000_0000_0000) then Real(0.0)
        else n
  {
    DoubleParts(k, j);
  }

  /**
   What the single packer keeps of k * 2^j with a `k` of 24 bits: all of it from above 2^-127 up to the largest
   single; 2^-127 and less become zero, and more infinite.
   */
  lemma SingleKeptExactly(k: int, j: int, negative: bool)
    requires 0x80_0000 <= k < 0x100_0000
    ensures var n := Real(Signed(negative, Ldexp(k as real, j)));
      n.x != 0.0 && Kept(n, SINGLE) ==
        if j > 104 then Inf(negative)
        else if j < -150 || (j == -150 && k == 0x80_0000) then Real(0.0)
        else n
  {
    var m := k as real / 16777216.0;
    LdexpOrder(0.0, k as real, j);
    ValueInUnits(m, j + 24, SINGLE);
    FrexpUnique(Ldexp(k as real, j), m, j + 24);
    MantissaBounds(m, SINGLE);
  }

  /**
   The subnormal doubles of other writers are misread, every one: an exponent field of zero with the fraction
   `k` means k * 2^-1074, and is read as (2^52 + k) * 2^-1075.
   */
  lemma SubnormalMisread(k: int)
    requires 0 < k < 0x10_0000_0000_0000
    ensures var n := UnpackDouble(DoubleBytes(0, 0, k)[1..]);
      n == Real(Ldexp((0x10_0000_0000_0000 + k) as real, -1075)) && n != Real(Ldexp(k as real, -1074))
  {
    DoubleFields(0, 0, k);
    HiddenBit(k, -1022);
    NotSubnormal(k, -1074);
  }

  /** A stored fraction is read with a leading one. */
  lemma HiddenBit(k: int, e: int)
    ensures FromFields(k, DOUBLE, e) == Ldexp((0x10_0000_0000_0000 + k) as real, e - 53)
  {
    LdexpShift52(1.0 + k as real / 4503599627370496.0, e - 1);
  }

  lemma NotSubnormal(k: int, e: int)
    requires 0 < k < 0x10_0000_0000_0000
    ensures Ldexp((0x10_0000_0000_0000 + k) as real, e - 1) != Ldexp(k as real, e)
  {
    LdexpStep(k as real, e);
    LdexpOrder(2.0 * k as real, (0x10_0000_0000_0000 + k) as real, e - 1);
  }
}
