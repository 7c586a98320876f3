/** The limits and the formats of the MessagePack coder in plain numbers, and that the packers waste no byte. */
module MsgPackFormats {
  import opened Bytes
  import opened Floats
  import opened MsgPack
  import opened MsgPackLaws
  import opened MsgPackRoundTrip

  // ---- which numbers are packed as integers ----

  /** In every setting such a number reads back exactly, before any suffix. */
  lemma IntegersSurvive(cfg: Settings, n: int, t: bytes)
    requires -9007199254740991 < n < 9007199254740991
    ensures Decode(PackNumber(cfg, Real(n as real)) + t) == Ok(Index(n), t)
  {
    assert (n as real).Floor == n;
    IntegerRoundTrip(n, t);
  }

  /** The others, and only they, go to the float packer. */
  lemma FloatPackerExactly(cfg: Settings, n: Number)
    requires Known(cfg.numbers)
    ensures PackNumber(cfg, n) != []
    ensures PackNumber(cfg, n)[0] == (if cfg.numbers == SINGLE then 0xCA else 0xCB) <==> !Whole53(n)
    ensures !Whole53(n) ==> PackNumber(cfg, n) == if cfg.numbers == SINGLE then PackFloat(n) else PackDouble(n)
  {
    FloatRoundTrip(n);
    DoubleRoundTrip(n);
    if Whole53(n) {
      IntegerTagged(cfg, n.x.Floor);
    }
  }

  lemma IntegerTagged(cfg: Settings, n: int)
    requires -9007199254740991 < n < 9007199254740991
    ensures var b := if cfg.integers.Unsigned? then PackUnsigned(n) else PackSigned(n);
      b != [] && b[0] != 0xCA && b[0] != 0xCB
  {
  }

  lemma ByteInteger(cfg: Settings, n: int)
    requires cfg.integers.Unsigned? && 0x80 <= n <= 0xFF
    ensures PackNumber(cfg, Real(n as real)) == [0xCC, n]
  {
    assert (n as real).Floor == n;
  }

  /** The number at the limit is whole, and single precision loses it. */
  lemma LimitIsLost(cfg: Settings)
    requires cfg.numbers == SINGLE
    ensures var n := Real(9007199254740991.0);
      n.x.Floor as real == n.x && PackNumber(cfg, n) == PackFloat(n) && KeptNumber(cfg, n) != n
  {
    var n, m := Real(9007199254740991.0), 9007199254740991.0 / 9007199254740992.0;
    FloatPackerExactly(cfg, n);
    DoubleParts(9007199254740991, 0);
    assert Ldexp(9007199254740991 as real, 0) == n.x;
    KeptExactly(n, SINGLE);
    assert m * 9007199254740992.0 == 9007199254740991.0;
    assert 16777215.0 < m * 16777216.0 < 16777216.0;
  }

  // ---- when packing fails ----

  /** A string, or a table, of more than 2^32 - 1, anywhere in what is packed. */
  predicate TooBig(v: Value)
    decreases Size(v), 1, 0
  {
    match v
    case Str(s) => |s| > 4294967295
    case Table(st) =>
      Length(st) > 4294967295 || if ArrayForm(st) then ItemTooBig(st, 1, Length(st)) else PairTooBig(st)
    case _ => false
  }

  predicate PairTooBig(st: Stores)
    decreases StoresSize(st), 0, 0
  {
    match st
    case Empty => false
    case Store(k, v, rest) => TooBig(k) || TooBig(v) || PairTooBig(rest)
  }

  predicate ItemTooBig(st: Stores, i: nat, n: nat)
    decreases StoresSize(st), 0, n + 1 - i
  {
    i <= n && (TooBig(Lookup(st, Index(i))) || ItemTooBig(st, i + 1, n))
  }

  /** Packing fails on those and on nothing else. */
  lemma {:induction false} PackFailsExactly(cfg: Settings, v: Value)
    ensures Pack(cfg, v).None? <==> TooBig(v)
    decreases Size(v), 1, 0
  {
    if v.Table? {
      SurveyCounts(NO_KEYS, v.stores);
      PairsFailExactly(cfg, v.stores);
      ItemsFailExactly(cfg, v.stores, 1, Length(v.stores));
    }
  }

  lemma {:induction false} PairsFailExactly(cfg: Settings, st: Stores)
    ensures PackPairs(cfg, st).None? <==> PairTooBig(st)
    decreases StoresSize(st), 0, 0
  {
    match st
    case Empty =>
    case Store(k, v, rest) =>
      PackFailsExactly(cfg, k);
      PackFailsExactly(cfg, v);
      PairsFailExactly(cfg, rest);
  }

  lemma {:induction false} ItemsFailExactly(cfg: Settings, st: Stores, i: nat, n: nat)
    ensures PackItems(cfg, st, i, n).None? <==> ItemTooBig(st, i, n)
    decreases StoresSize(st), 0, n + 1 - i
  {
    if i <= n {
      PackFailsExactly(cfg, Lookup(st, Index(i)));
      ItemsFailExactly(cfg, st, i + 1, n);
    }
  }

  // ---- no shorter form ----

  /** The tags of signed integers. */
  predicate SignedTag(tag: byte) {
    tag < 0x80 || tag >= 0xE0 || 0xD0 <= tag <= 0xD3
  }

  lemma SignedTagShape(tag: byte)
    requires SignedTag(tag)
    ensures ShapeOf(tag).Immediate? || (ShapeOf(tag).IntOf? && ShapeOf(tag).width in {1, 2, 4, 8})
  {
  }

  /** The signed packer uses one of them. */
  lemma SignedUsed(n: int)
    requires -9007199254740991 < n < 9007199254740991
    ensures PackSigned(n) != [] && SignedTag(PackSigned(n)[0])
  {
  }

  /** No encoding of a number with such a tag is shorter than the signed packer's. */
  lemma SignedIsShortest(n: int, e: bytes)
    requires -9007199254740991 < n < 9007199254740991
    requires Decode(e) == Ok(Index(n), []) && SignedTag(e[0])
    ensures |PackSigned(n)| <= |e|
  {
    SignedTagRange(e, n);
    SignedLength(n, |e|);
  }

  /** The numbers that so many bytes with such a tag may stand for. */
  predicate SignedReach(n: int, size: nat) {
    || (size > 0 && -0x20 <= n <= 0x7F)
    || (size - 1 in {1, 2, 4, 8} && 0 <= 2 * n + Pow256(size - 1) < 2 * Pow256(size - 1))
  }

  lemma SignedTagRange(e: bytes, n: int)
    requires Decode(e) == Ok(Index(n), []) && SignedTag(e[0])
    ensures SignedReach(n, |e|)
  {
    var shape := ShapeOf(e[0]);
    SignedTagShape(e[0]);
    if shape.Immediate? {
      ImmediateRange(e[0], n);
    } else {
      FieldRange(shape, e[0], e[1..], n);
    }
  }

  lemma SignedLength(n: int, size: nat)
    requires SignedReach(n, size)
    ensures |PackSigned(n)| <= size
  {
    Powers();
  }

  /** The tags each string setting uses. */
  predicate StringTag(f: StringFormat, tag: byte) {
    match f
    case Compat => 0xA0 <= tag <= 0xBF || tag == 0xDA || tag == 0xDB
    case Plain => 0xA0 <= tag <= 0xBF || 0xD9 <= tag <= 0xDB
    case Binary => 0xC4 <= tag <= 0xC6
  }

  /** A header that announces `n` of a kind: its tag, and the field behind it. */
  predicate Announces(tag: byte, field: bytes, kind: Kind, n: nat) {
    var s := ShapeOf(tag);
    s.Counted? && s.kind == kind && |field| == s.width && n == if s.width == 0 then s.fixed else FromBe(field)
  }

  /** No header with a tag of the setting announces a string in fewer bytes than the packer's. */
  lemma StringShortest(f: StringFormat, s: bytes, tag: byte, field: bytes)
    requires |s| <= 4294967295 && StringTag(f, tag) && Announces(tag, field, OfString, |s|)
    ensures PackString(f, s).Some? && StringTag(f, PackString(f, s).value[0])
    ensures |PackString(f, s).value| <= 1 + |field| + |s|
  {
    FieldBound(field);
  }

  lemma FieldBound(field: bytes)
    ensures FromBe(field) < Pow256(|field|)
    ensures Pow256(1) == 0x100 && Pow256(2) == 0x1_0000
  {
    ToFromBe(field);
    Powers();
  }

  /** Nor a table. */
  lemma MapHeaderShortest(n: nat, tag: byte, field: bytes)
    requires n <= 4294967295 && Announces(tag, field, OfMap, n)
    ensures |MapHeader(n)| <= 1 + |field|
  {
    FieldBound(field);
  }

  lemma ArrayHeaderShortest(n: nat, tag: byte, field: bytes)
    requires n <= 4294967295 && Announces(tag, field, OfArray, n)
    ensures |ArrayHeader(n)| <= 1 + |field|
  {
    FieldBound(field);
  }

  // ---- the formats, byte for byte ----

  /** The formats of one byte, the one that is none, and what is too long or too short. */
  lemma OneByteFormats()
    ensures Unpack([0x7F]) == Ok(Index(127), []) && Unpack([0xE0]) == Ok(Index(-32), [])
    ensures Unpack([0xC0]) == Ok(Nil, [])
    ensures Unpack([0xC2]) == Ok(Bool(false), []) && Unpack([0xC3]) == Ok(Bool(true), [])
    ensures Unpack([0xC1]) == Fail(Unimplemented(0xC1))
    ensures Unpack([0xC0, 0xC0]) == Fail(ExtraBytes) && Unpack([]) == Fail(MissingBytes)
    ensures Unpack([0x80]) == Ok(Table(Empty), []) && Unpack([0x90]) == Ok(Table(Empty), [])
  {
    Alone(0x7F); Alone(0xE0); Alone(0xC0); Alone(0xC2); Alone(0xC3); Alone(0xC1); Alone(0x80); Alone(0x90);
    assert [0xC0, 0xC0][1..] == [0xC0];
  }

  lemma Alone(tag: byte)
    ensures Decode([tag]) == DecodeShape(ShapeOf(tag), tag, [])
  {
    assert [tag][1..] == [];
  }

  /** The integer formats, with an unsigned or a two's complement field behind the tag, most significant byte first. */
  lemma IntegerFormats(b: bytes, t: bytes)
    ensures |b| == 1 ==> IntegerFormat(0xCC, 0xD0, b, t)
    ensures |b| == 2 ==> IntegerFormat(0xCD, 0xD1, b, t)
    ensures |b| == 4 ==> IntegerFormat(0xCE, 0xD2, b, t)
    ensures |b| == 8 ==> IntegerFormat(0xCF, 0xD3, b, t)
  {
    if |b| == 1 {
      IntegerFields(0xCC, 0xD0, b, t);
    } else if |b| == 2 {
      IntegerFields(0xCD, 0xD1, b, t);
    } else if |b| == 4 {
      IntegerFields(0xCE, 0xD2, b, t);
    } else if |b| == 8 {
      IntegerFields(0xCF, 0xD3, b, t);
    }
  }

  lemma IntegerFields(unsigned: byte, signed: byte, b: bytes, t: bytes)
    requires b != [] && ShapeOf(unsigned) == UintOf(|b|) && ShapeOf(signed) == IntOf(|b|)
    ensures IntegerFormat(unsigned, signed, b, t)
  {
    SignedValue(b);
    assert ([unsigned] + b + t)[1..] == b + t && ([signed] + b + t)[1..] == b + t;
    assert (b + t)[..|b|] == b && (b + t)[|b|..] == t;
  }

  predicate IntegerFormat(unsigned: byte, signed: byte, b: bytes, t: bytes) {
    && b != [] && Decode([unsigned] + b + t) == Ok(Index(FromBe(b)), t)
    && Decode([signed] + b + t) == Ok(Index(if b[0] < 0x80 then FromBe(b) else FromBe(b) - Pow256(|b|)), t)
  }

  /** The string formats: the length in the tag, or in one, two or four bytes, as a string or as bytes. */
  lemma StringFormats(s: bytes, t: bytes)
    ensures |s| <= 0x1F ==> Decode([0xA0 + |s|] + (s + t)) == Ok(Str(s), t)
    ensures |s| <= 0xFF ==> StringFormat(0xD9, [|s|], s, t) && StringFormat(0xC4, [|s|], s, t)
    ensures |s| <= 0xFFFF ==> StringFormat(0xDA, Be2(|s|), s, t) && StringFormat(0xC5, Be2(|s|), s, t)
    ensures |s| <= 0xFFFF_FFFF ==> StringFormat(0xDB, Be4(|s|), s, t) && StringFormat(0xC6, Be4(|s|), s, t)
  {
    if |s| <= 0xFFFF_FFFF {
      CountFields(|s|);
      StringFields(0xDB, 0xC6, Be4(|s|), s, t);
    }
    if |s| <= 0xFFFF {
      StringFields(0xDA, 0xC5, Be2(|s|), s, t);
    }
    if |s| <= 0xFF {
      StringFields(0xD9, 0xC4, [|s|], s, t);
    }
    if |s| <= 0x1F {
      CountedString(s, t);
      FixedHeader(0xA0 + |s|, OfString, |s|, s + t);
    }
  }

  lemma StringFields(str: byte, bin: byte, field: bytes, s: bytes, t: bytes)
    requires field != [] && ShapeOf(str) == ShapeOf(bin) == Counted(OfString, |field|, 0) && FromBe(field) == |s|
    ensures StringFormat(str, field, s, t) && StringFormat(bin, field, s, t)
  {
    CountedString(s, t);
    FieldHeader(str, OfString, field, |s|, s + t);
    FieldHeader(bin, OfString, field, |s|, s + t);
  }

  predicate StringFormat(tag: byte, field: bytes, s: bytes, t: bytes) {
    Decode([tag] + field + (s + t)) == Ok(Str(s), t)
  }

  /** The headers of arrays and maps. */
  lemma TableFormats()
    ensures Announces(0x9F, [], OfArray, 15) && Announces(0x8F, [], OfMap, 15)
    ensures Announces(0xDC, [1, 2], OfArray, 0x102) && Announces(0xDE, [1, 2], OfMap, 0x102)
    ensures Announces(0xDD, [1, 2, 3, 4], OfArray, 0x1020304) && Announces(0xDF, [1, 2, 3, 4], OfMap, 0x1020304)
  {
    BigEndian();
  }

  /** An array and a map of one. */
  lemma SmallTables()
    ensures Unpack([0x91, 0x05]) == Ok(Table(Store(Index(1), Index(5), Empty)), [])
    ensures Unpack([0x81, 0x05, 0x06]) == Ok(Table(Store(Index(5), Index(6), Empty)), [])
  {
    Alone(0x05); Alone(0x06);
    assert [0x91, 0x05][1..] == [0x05] && [0x81, 0x05, 0x06][1..] == [0x05, 0x06] && [0x05, 0x06][1..] == [0x06];
    assert DecodeItems([0x05], 1, 1) == Stored(Index(1), Index(5), DecodeItems([], 2, 1));
    assert DecodePairs([0x05, 0x06], 1) == Stored(Index(5), Index(6), DecodePairs([], 0));
  }

  /** A key that is nil or not a number is dropped with its value. */
  lemma DroppedKeys()
    ensures Unpack([0x81, 0xC0, 0x05]) == Ok(Table(Empty), [])
    ensures Unpack([0x81, 0xCA, 0xFF, 0x88, 0x00, 0x00, 0x05]) == Ok(Table(Empty), [])
  {
    assert Unpack([0x81, 0xC0, 0x05]) == Ok(Table(Empty), []) by {
      Alone(0x05);
      assert [0xC0, 0x05][1..] == [0x05];
      OnePairMap([0xC0, 0x05], Nil, Index(5));
      assert [0x81] + [0xC0, 0x05] == [0x81, 0xC0, 0x05];
    }
    assert Unpack([0x81, 0xCA, 0xFF, 0x88, 0x00, 0x00, 0x05]) == Ok(Table(Empty), []) by {
      NotANumberKey([0xCA, 0xFF, 0x88, 0x00, 0x00, 0x05]);
      assert [0x81] + [0xCA, 0xFF, 0x88, 0x00, 0x00, 0x05] == [0x81, 0xCA, 0xFF, 0x88, 0x00, 0x00, 0x05];
    }
  }

  lemma NotANumberKey(b: bytes)
    requires b == [0xCA, 0xFF, 0x88, 0x00, 0x00] + [0x05]
    ensures Unpack([0x81] + b) == Ok(Table(Empty), [])
  {
    NotANumber([0x05]);
    Alone(0x05);
    OnePairMap(b, Num(NaN), Index(5));
  }

  lemma OnePairMap(b: bytes, k: Value, v: Value)
    requires Decode(b).Ok? && Decode(b).value == k && Decode(Decode(b).rest) == Ok(v, []) && Droppable(k)
    ensures Unpack([0x81] + b) == Ok(Table(Empty), [])
  {
    FixedHeader(0x81, OfMap, 1, b);
    assert DecodePairs(b, 1) == Stored(k, v, DecodePairs([], 0));
  }

  lemma NotANumber(t: bytes)
    ensures Decode([0xCA, 0xFF, 0x88, 0x00, 0x00] + t) == Ok(Num(NaN), t)
  {
    var b: bytes := [0xFF, 0x88, 0x00, 0x00];
    assert ([0xCA, 0xFF, 0x88, 0x00, 0x00] + t)[1..] == b + t && (b + t)[..4] == b && (b + t)[4..] == t;
  }

  /** Extensions, which have no unpacker of their own here, are read as nil. */
  lemma ExtensionsAreNil()
    ensures Unpack([0xD4, 0x07, 0x09]) == Ok(Nil, []) && Unpack([0xC7, 0x01, 0x07, 0x09]) == Ok(Nil, [])
  {
    assert [0xD4, 0x07, 0x09][1..] == [0x07, 0x09] && [0x07, 0x09][2..] == [];
    assert [0xC7, 0x01, 0x07, 0x09][1..] == [0x01, 0x07, 0x09] && [0x01, 0x07, 0x09][1..] == [0x07, 0x09];
    assert [0x01, 0x07, 0x09][..1] == [0x01] && [0x01][..0] == [] && FromBe([0x01]) == 0x100 * FromBe([]) + 1;
  }

  /** Numbers as floats: 1/2 and -5/2 in both precisions. */
  lemma FloatFormats()
    ensures PackFloat(Real(0.5)) == [0xCA, 0x3F, 0x00, 0x00, 0x00]
    ensures PackFloat(Real(-2.5)) == [0xCA, 0xC0, 0x20, 0x00, 0x00]
    ensures PackDouble(Real(0.5)) == [0xCB, 0x3F, 0xE0, 0x00, 0x00, 0x00, 0x00, 0x00, 0x00]
    ensures PackDouble(Real(-2.5)) == [0xCB, 0xC0, 0x04, 0x00, 0x00, 0x00, 0x00, 0x00, 0x00]
  {
    Frexps();
    MantissaOf(0.5, 0x00);
    MantissaOf(0.625, 0x20);
  }

  lemma Frexps()
    ensures Frexp(0.5) == (0.5, 0) && Frexp(2.5) == (0.625, 2)
  {
    assert Frexp(0.625) == (0.625, 0) && Frexp(1.25) == (0.625, 1);
  }

  lemma MantissaOf(m: real, k: int)
    requires (m * 2.0 - 1.0) * 128.0 == k as real
    ensures Mantissa(m, SINGLE) == k * 0x1_0000 && Mantissa(m, DOUBLE) == k * 0x2000_0000_0000
  {
    assert (m * 2.0 - 1.0) * 8388608.0 == (k * 0x1_0000) as real;
    assert (m * 2.0 - 1.0) * 4503599627370496.0 == (k * 0x2000_0000_0000) as real;
  }
}
