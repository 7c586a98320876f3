/** Laws of the MessagePack format: locality, the integer codec, the array test and the round trip. */
module MsgPackLaws {
  import opened Bytes
  import opened Floats
  import opened MsgPack

  // ---- the decoder is local ----

  /** What the decoder must do when `t` is appended to its input. */
  predicate Extends(d: Decoded, d': Decoded, t: bytes) {
    match d
    case Ok(v, rest) => d' == Ok(v, rest + t)
    case Fail(e) => e == MissingBytes || d' == d
  }

  predicate StoresExtend(d: DecodedStores, d': DecodedStores, t: bytes) {
    match d
    case Filled(st, rest) => d' == Filled(st, rest + t)
    case Broken(e) => e == MissingBytes || d' == d
  }

  lemma {:induction false} DecodeLocal(s: bytes, t: bytes)
    ensures Extends(Decode(s), Decode(s + t), t)
    decreases |s|, 0, 0
  {
    if s != [] {
      assert (s + t)[0] == s[0] && (s + t)[1..] == s[1..] + t;
      ShapeLocal(ShapeOf(s[0]), s[0], s[1..], t);
    }
  }

  lemma {:induction false} ShapeLocal(shape: Shape, tag: byte, s: bytes, t: bytes)
    ensures Extends(DecodeShape(shape, tag, s), DecodeShape(shape, tag, s + t), t)
    decreases |s|, 2, 0
  {
    forall k: nat | k <= |s| ensures (s + t)[..k] == s[..k] && (s + t)[k..] == s[k..] + t {
    }
    if shape.Counted? && CountField(shape.width, shape.fixed, s).Some? {
      var (n, body) := CountField(shape.width, shape.fixed, s).value;
      CountedLocal(shape.kind, n, body, t);
    }
  }

  lemma {:induction false} CountedLocal(kind: Kind, n: nat, s: bytes, t: bytes)
    ensures Extends(DecodeCounted(kind, n, s), DecodeCounted(kind, n, s + t), t)
    decreases |s|, 1, n + 1
  {
    match kind
    case OfString | OfExt =>
      forall k: nat | k <= |s| ensures (s + t)[..k] == s[..k] && (s + t)[k..] == s[k..] + t {
      }
    case OfArray => ItemsLocal(s, 1, n, t);
    case OfMap => PairsLocal(s, n, t);
  }

  lemma {:induction false} ItemsLocal(s: bytes, i: nat, n: nat, t: bytes)
    ensures StoresExtend(DecodeItems(s, i, n), DecodeItems(s + t, i, n), t)
    decreases |s|, 1, if i <= n then n + 1 - i else 0
  {
    if i <= n {
      DecodeLocal(s, t);
      if Decode(s).Ok? {
        ItemsLocal(Decode(s).rest, i + 1, n, t);
      }
    }
  }

  lemma {:induction false} PairsLocal(s: bytes, n: nat, t: bytes)
    ensures StoresExtend(DecodePairs(s, n), DecodePairs(s + t, n), t)
    decreases |s|, 1, n
  {
    if n > 0 {
      DecodeLocal(s, t);
      if Decode(s).Ok? {
        var s1 := Decode(s).rest;
        DecodeLocal(s1, t);
        if Decode(s1).Ok? {
          PairsLocal(Decode(s1).rest, n - 1, t);
        }
      }
    }
  }

  // The other direction: an input that was read within its first |s| bytes needs no more than those.

  lemma {:induction false} DecodeCut(s: bytes, t: bytes)
    requires Decode(s + t).Ok? && |Decode(s + t).rest| >= |t|
    ensures Decode(s).Ok?
    decreases |s|, 0, 0
  {
    assert s == [] ==> s + t == t;
    if s != [] {
      assert (s + t)[0] == s[0] && (s + t)[1..] == s[1..] + t;
      ShapeCut(ShapeOf(s[0]), s[0], s[1..], t);
    }
  }

  lemma {:induction false} ShapeCut(shape: Shape, tag: byte, s: bytes, t: bytes)
    requires DecodeShape(shape, tag, s + t).Ok? && |DecodeShape(shape, tag, s + t).rest| >= |t|
    ensures DecodeShape(shape, tag, s).Ok?
    decreases |s|, 2, 0
  {
    if shape.Counted? {
      var (n, whole) := CountField(shape.width, shape.fixed, s + t).value;
      var body := CountFieldCut(shape.width, shape.fixed, s, t);
      CountedCut(shape.kind, n, body, t);
    }
  }

  /** A count that is read with room for `t` behind it is read without. */
  lemma CountFieldCut(width: nat, fixed: nat, s: bytes, t: bytes) returns (body: bytes)
    requires var r := CountField(width, fixed, s + t); r.Some? && |r.value.1| >= |t|
    ensures |body| <= |s| && CountField(width, fixed, s + t).value.1 == body + t
    ensures CountField(width, fixed, s) == Some((CountField(width, fixed, s + t).value.0, body))
  {
    body := s[width..];
    assert (s + t)[..width] == s[..width] && (s + t)[width..] == body + t;
  }

  lemma {:induction false} CountedCut(kind: Kind, n: nat, s: bytes, t: bytes)
    requires DecodeCounted(kind, n, s + t).Ok? && |DecodeCounted(kind, n, s + t).rest| >= |t|
    ensures DecodeCounted(kind, n, s).Ok?
    decreases |s|, 1, n + 1
  {
    match kind
    case OfString | OfExt =>
    case OfArray => ItemsCut(s, 1, n, t);
    case OfMap => PairsCut(s, n, t);
  }

  lemma {:induction false} ItemsCut(s: bytes, i: nat, n: nat, t: bytes)
    requires DecodeItems(s + t, i, n).Filled? && |DecodeItems(s + t, i, n).rest| >= |t|
    ensures DecodeItems(s, i, n).Filled?
    decreases |s|, 1, if i <= n then n + 1 - i else 0
  {
    if i <= n {
      DecodeCut(s, t);
      DecodeLocal(s, t);
      ItemsCut(Decode(s).rest, i + 1, n, t);
    }
  }

  lemma {:induction false} PairsCut(s: bytes, n: nat, t: bytes)
    requires DecodePairs(s + t, n).Filled? && |DecodePairs(s + t, n).rest| >= |t|
    ensures DecodePairs(s, n).Filled?
    decreases |s|, 1, n
  {
    if n > 0 {
      DecodeCut(s, t);
      DecodeLocal(s, t);
      var s1 := Decode(s).rest;
      DecodeCut(s1, t);
      DecodeLocal(s1, t);
      PairsCut(Decode(s1).rest, n - 1, t);
    }
  }

  /** A successful read is decided by the bytes it consumes, which are a nonempty prefix of the input. */
  lemma DecodeConsumes(s: bytes) returns (used: bytes)
    requires Decode(s).Ok?
    ensures s == used + Decode(s).rest && used != []
    ensures Decode(used) == Ok(Decode(s).value, [])
  {
    used := s[..|s| - |Decode(s).rest|];
    var t := s[|s| - |Decode(s).rest|..];
    assert s == used + t;
    DecodeCut(used, t);
    DecodeLocal(used, t);
  }

  /** No valid encoding is a proper prefix of another, and a truncated one is reported as such. */
  lemma PrefixFree(s: bytes, t: bytes)
    requires Unpack(s + t).Ok? && t != []
    ensures Unpack(s) == Fail(MissingBytes)
  {
    DecodeLocal(s, t);
  }

  // ---- integers ----

  lemma {:induction false} ComplementValue(b: bytes)
    ensures FromComplement(b) == FromBe(b) - Pow256(|b|) + 1
  {
    if b != [] {
      ComplementValue(b[..|b| - 1]);
    }
  }

  lemma {:induction false} FromBeCons(h: byte, b: bytes)
    ensures FromBe([h] + b) == h as int * Pow256(|b|) + FromBe(b)
  {
    if b == [] {
      assert [h] + b == [h];
      assert FromBe([h]) == 0x100 * FromBe([]) + h as int;
    } else {
      var init := b[..|b| - 1];
      FromBeCons(h, init);
      assert ([h] + b)[..|b|] == [h] + init;
      assert 0x100 * (h as int * Pow256(|init|)) == h as int * Pow256(|b|);
    }
  }

  /** The signed reading is the unsigned one, less 256^width when the top bit is set. */
  lemma SignedValue(b: bytes)
    requires b != []
    ensures FromSigned(b) == if b[0] < 0x80 then FromBe(b) else FromBe(b) - Pow256(|b|)
    ensures 0 <= 2 * FromSigned(b) + Pow256(|b|) < 2 * Pow256(|b|)
  {
    ComplementValue(b);
    TopBit(b);
  }

  lemma TopBit(b: bytes)
    requires b != []
    ensures FromBe(b) < Pow256(|b|)
    ensures b[0] < 0x80 <==> 2 * FromBe(b) < Pow256(|b|)
  {
    assert FromBe(b) < Pow256(|b|) by { ToFromBe(b); }
    assert FromBe(b[1..]) < Pow256(|b| - 1) by { ToFromBe(b[1..]); }
    assert FromBe(b) == b[0] as int * Pow256(|b| - 1) + FromBe(b[1..]) by {
      assert [b[0]] + b[1..] == b;
      FromBeCons(b[0], b[1..]);
    }
    HalfOfRange(b[0], Pow256(|b| - 1), FromBe(b[1..]));
  }

  lemma HalfOfRange(h: byte, p: int, r: int)
    requires 0 <= r < p
    ensures h < 0x80 ==> 2 * (h as int * p + r) < 0x100 * p
    ensures h >= 0x80 ==> 2 * (h as int * p + r) >= 0x100 * p
  {
    if h < 0x80 {
      assert (0x7F - h as int) * p >= 0;
    } else {
      assert (h as int - 0x80) * p >= 0;
    }
  }

  /** A tag followed by a fixed-width field, as the integer unpackers read it. */
  lemma DecodeField(tag: byte, b: bytes, t: bytes)
    requires ShapeOf(tag) == UintOf(|b|) || (b != [] && ShapeOf(tag) == IntOf(|b|))
    ensures Decode([tag] + b + t)
         == Ok(Index(if ShapeOf(tag).UintOf? then FromBe(b) else FromSigned(b)), t)
  {
    var s := [tag] + b + t;
    assert s[1..] == b + t && (b + t)[..|b|] == b && (b + t)[|b|..] == t;
  }

  /** A signed field of w bytes holds the number modulo 256^w and reads back as the number. */
  lemma SignedRoundTrip(n: int, w: nat)
    requires w > 0 && 0 <= 2 * n + Pow256(w) < 2 * Pow256(w)
    ensures FromSigned(ToBe(n, w)) == n
  {
    var b := ToBe(n, w);
    FromToBeMod(n, w);
    RemainderUnique(n, Pow256(w), if n < 0 then -1 else 0, if n < 0 then n + Pow256(w) else n);
    SignedValue(b);
    ToFromBe(b[1..]);
    assert [b[0]] + b[1..] == b;
    FromBeCons(b[0], b[1..]);
    HalfOfRange(b[0], Pow256(w - 1), FromBe(b[1..]));
  }

  lemma UnsignedRoundTrip(n: int, w: nat)
    requires 0 <= n < Pow256(w)
    ensures FromBe(ToBe(n, w)) == n
  {
    FromToBeMod(n, w);
    RemainderUnique(n, Pow256(w), 0, n);
  }

  /** The low bytes of a number do not change when a multiple of 256^w is added. */
  lemma {:induction false} ToBeShift(n: int, w: nat, k: int)
    ensures ToBe(n + k * Pow256(w), w) == ToBe(n, w)
    decreases w
  {
    if w > 0 {
      var m := n + k * Pow256(w);
      assert m == n + 0x100 * (k * Pow256(w - 1));
      assert m / 0x100 == n / 0x100 + k * Pow256(w - 1) && m % 0x100 == n % 0x100;
      ToBeShift(n / 0x100, w - 1, k);
    }
  }

  lemma SignedField(tag: byte, n: int, w: nat, b: bytes, t: bytes)
    requires w > 0 && 0 <= 2 * n + Pow256(w) < 2 * Pow256(w) && b == ToBe(n, w)
    requires ShapeOf(tag) == IntOf(w)
    ensures Decode([tag] + b + t) == Ok(Index(n), t)
  {
    SignedRoundTrip(n, w);
    DecodeField(tag, b, t);
  }

  lemma UnsignedField(tag: byte, n: int, w: nat, b: bytes, t: bytes)
    requires 0 <= n < Pow256(w) && b == ToBe(n, w)
    requires ShapeOf(tag) == UintOf(w)
    ensures Decode([tag] + b + t) == Ok(Index(n), t)
  {
    UnsignedRoundTrip(n, w);
    DecodeField(tag, b, t);
  }

  lemma TagAlone(tag: byte, n: int, t: bytes)
    requires ShapeOf(tag) == Immediate(Index(n))
    ensures Decode([tag] + t) == Ok(Index(n), t)
  {
    assert ([tag] + t)[1..] == t;
  }

  /** The negative forms spell the two's complement of the number. */
  lemma NegativeBytes(n: int)
    requires -MAX_INTEGER < n < 0
    ensures ToBe(n, 1) == [n % 0x100]
    ensures Be2(0x10000 + n) == ToBe(n, 2)
    ensures Be4(0x1_0000_0000 + n) == ToBe(n, 4)
    ensures [0xFF] + Be7(n) == ToBe(n, 8)
  {
    Powers();
    assert ToBe(n / 0x100, 0) == [];
    ToBeShift(n, 2, 1);
    Be2IsToBe(0x10000 + n);
    ToBeShift(n, 4, 1);
    Be4IsToBe(0x1_0000_0000 + n);
    TopByte(n, 0xFF);
  }

  /** The tag, the width and the field of a negative number that does not fit its tag. */
  lemma NegativeForm(n: int) returns (tag: byte, w: nat, b: bytes)
    requires -MAX_INTEGER < n < -0x20
    ensures PackNegative(n) == [tag] + b && b == ToBe(n, w) && ShapeOf(tag) == IntOf(w)
    ensures w == 1 || w == 2 || w == 4 || w == 8
    ensures (w == 1 ==> n >= -0x80) && (w == 2 ==> n >= -0x8000) && (w == 4 ==> n >= -0x8000_0000)
  {
    NegativeBytes(n);
    if n >= -0x80 {
      tag, w, b := 0xD0, 1, [0x100 + n];
    } else if n >= -0x8000 {
      tag, w, b := 0xD1, 2, Be2(0x10000 + n);
    } else if n >= -0x8000_0000 {
      tag, w, b := 0xD2, 4, Be4(0x1_0000_0000 + n);
    } else {
      tag, w, b := 0xD3, 8, [0xFF] + Be7(n);
    }
  }

  lemma NegativeField(tag: byte, n: int, w: nat, b: bytes, t: bytes)
    requires w == 1 || w == 2 || w == 4 || w == 8
    requires n < 0 && (w == 1 ==> n >= -0x80) && (w == 2 ==> n >= -0x8000) && (w == 4 ==> n >= -0x8000_0000)
    requires -MAX_INTEGER < n && b == ToBe(n, w) && ShapeOf(tag) == IntOf(w)
    ensures Decode([tag] + b + t) == Ok(Index(n), t)
  {
    assert 0 <= 2 * n + Pow256(w) < 2 * Pow256(w) by { Powers(); }
    SignedField(tag, n, w, b, t);
  }

  lemma NegativeRoundTrip(n: int, t: bytes)
    requires -MAX_INTEGER < n < 0
    ensures Decode(PackNegative(n) + t) == Ok(Index(n), t)
  {
    if n >= -0x20 {
      TagAlone(0x100 + n, n, t);
    } else {
      var tag, w, b := NegativeForm(n);
      NegativeField(tag, n, w, b, t);
    }
  }

  /** Seven low bytes under a constant top byte are all eight bytes of a small enough number. */
  lemma TopQuotient(n: int)
    requires -MAX_INTEGER < n < MAX_INTEGER
    ensures n / Pow256(7) % 0x100 == if n < 0 then 0xFF else 0
  {
    Powers();
    var q, r := if n < 0 then -1 else 0, if n < 0 then n + Pow256(7) else n;
    RemainderUnique(n, Pow256(7), q, r);
  }

  lemma TopByte(n: int, top: byte)
    requires -MAX_INTEGER < n < MAX_INTEGER && top as int == if n < 0 then 0xFF else 0
    ensures [top] + Be7(n) == ToBe(n, 8)
  {
    Be7IsToBe(n);
    ToBePrefix(n, 7);
    TopQuotient(n);
  }

  lemma {:induction false} ToBePrefix(n: int, w: nat)
    ensures ToBe(n, w + 1) == [n / Pow256(w) % 0x100] + ToBe(n, w)
    decreases w
  {
    if w == 0 {
      assert ToBe(n / 0x100, 0) == [];
    } else {
      ToBePrefix(n / 0x100, w - 1);
      NestedQuotient(n, Pow256(w - 1));
    }
  }

  lemma NestedQuotient(n: int, p: int)
    requires p > 0
    ensures n / 0x100 / p == n / (0x100 * p)
  {
    var q := n / 0x100;
    assert n == (q / p) * (0x100 * p) + (0x100 * (q % p) + n % 0x100) by {
      assert q == q / p * p + q % p;
      assert q / p * (0x100 * p) == 0x100 * (q / p * p);
    }
    RemainderUnique(n, 0x100 * p, q / p, 0x100 * (q % p) + n % 0x100);
  }

  /** Both integer packers are inverted by the unpackers, before any suffix. */
  lemma IntegerRoundTrip(n: int, t: bytes)
    requires -9007199254740991 < n < 9007199254740991
    ensures Decode(PackUnsigned(n) + t) == Ok(Index(n), t)
    ensures Decode(PackSigned(n) + t) == Ok(Index(n), t)
  {
    if n < 0 {
      NegativeRoundTrip(n, t);
    } else {
      UnsignedForms(n, t);
      SignedForms(n, t);
    }
  }

  lemma UnsignedForms(n: int, t: bytes)
    requires 0 <= n < MAX_INTEGER
    ensures Decode(PackUnsigned(n) + t) == Ok(Index(n), t)
  {
    Powers();
    PositiveBytes(n);
    if n <= 0x7F {
      TagAlone(n, n, t);
    } else if n <= 0xFF {
      UnsignedField(0xCC, n, 1, [n], t);
      assert [0xCC] + [n] == [0xCC, n];
    } else if n <= 0xFFFF {
      UnsignedField(0xCD, n, 2, Be2(n), t);
    } else if n <= 0xFFFF_FFFF {
      UnsignedField(0xCE, n, 4, Be4(n), t);
    } else {
      UnsignedField(0xCF, n, 8, [0] + Be7(n), t);
      assert [0xCF] + ([0] + Be7(n)) == [0xCF, 0] + Be7(n);
    }
  }

  lemma PositiveBytes(n: int)
    requires 0 <= n < MAX_INTEGER
    ensures ToBe(n, 1) == [n % 0x100]
    ensures Be2(n) == ToBe(n, 2) && Be4(n) == ToBe(n, 4)
    ensures [0] + Be7(n) == ToBe(n, 8)
  {
    assert ToBe(n / 0x100, 0) == [];
    Be2IsToBe(n);
    Be4IsToBe(n);
    TopByte(n, 0);
  }

  lemma SignedForms(n: int, t: bytes)
    requires 0 <= n < MAX_INTEGER
    ensures Decode(PackSigned(n) + t) == Ok(Index(n), t)
  {
    Powers();
    PositiveBytes(n);
    if n <= 0x7F {
      TagAlone(n, n, t);
    } else if n <= 0x7FFF {
      SignedField(0xD1, n, 2, Be2(n), t);
    } else if n <= 0x7FFF_FFFF {
      SignedField(0xD2, n, 4, Be4(n), t);
    } else {
      SignedField(0xD3, n, 8, [0] + Be7(n), t);
      assert [0xD3] + ([0] + Be7(n)) == [0xD3, 0] + Be7(n);
    }
  }

  /** Is this an encoding by one of the integer tags? */
  predicate IntegerTag(tag: byte) {
    var s := ShapeOf(tag);
    s.UintOf? || s.IntOf? || (s.Immediate? && s.value.Num?)
  }

  lemma IntegerTagWidths(tag: byte)
    ensures ShapeOf(tag).UintOf? || ShapeOf(tag).IntOf? ==> ShapeOf(tag).width in {1, 2, 4, 8}
    ensures ShapeOf(tag).Immediate? && ShapeOf(tag).value.Num? ==>
      exists k: int :: -0x20 <= k <= 0x7F && ShapeOf(tag).value == Index(k)
  {
    if ShapeOf(tag).Immediate? && ShapeOf(tag).value.Num? {
      var k: int := if tag < 0x80 then tag as int else tag as int - 0x100;
      assert ShapeOf(tag).value == Index(k);
    }
  }

  /** The range an integer field of the given width can hold. */
  lemma FieldRange(shape: Shape, tag: byte, b: bytes, n: int)
    requires shape.UintOf? || shape.IntOf?
    requires DecodeShape(shape, tag, b) == Ok(Index(n), [])
    ensures |b| == shape.width
    ensures if shape.UintOf? then 0 <= n < Pow256(|b|) else 0 <= 2 * n + Pow256(|b|) < 2 * Pow256(|b|)
  {
    assert |b[shape.width..]| == 0;
    assert b[..|b|] == b;
    ToFromBe(b);
    if shape.IntOf? {
      SignedValue(b);
      assert n as real == FromSigned(b) as real;
    } else {
      assert n as real == FromBe(b) as real;
    }
  }

  lemma UnsignedLength(n: int, w: nat)
    requires w in {1, 2, 4, 8} && -MAX_INTEGER < n < MAX_INTEGER
    requires 0 <= n < Pow256(w) || 0 <= 2 * n + Pow256(w) < 2 * Pow256(w)
    ensures |PackUnsigned(n)| <= 1 + w
  {
    Powers();
  }

  /** No integer encoding that decodes to the number is shorter than the unsigned packer's. */
  lemma UnsignedIsShortest(n: int, e: bytes)
    requires -9007199254740991 < n < 9007199254740991
    requires Decode(e) == Ok(Index(n), []) && IntegerTag(e[0])
    ensures |PackUnsigned(n)| <= |e|
  {
    var shape := ShapeOf(e[0]);
    if shape.Immediate? {
      ImmediateRange(e[0], n);
    } else {
      IntegerTagWidths(e[0]);
      FieldRange(shape, e[0], e[1..], n);
      UnsignedLength(n, shape.width);
    }
  }

  lemma ImmediateRange(tag: byte, n: int)
    requires ShapeOf(tag) == Immediate(Index(n))
    ensures -0x20 <= n <= 0x7F
  {
    IntegerTagWidths(tag);
    var k: int :| -0x20 <= k <= 0x7F && ShapeOf(tag).value == Index(k);
    SameIndex(k, n);
  }

  lemma SameIndex(k: int, n: int)
    requires Index(k) == Index(n)
    ensures k == n
  {
    assert k as real == n as real;
  }
}
