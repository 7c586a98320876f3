/**
 What a value becomes when it is packed and unpacked, and exactly when its meaning survives:
 for every setting and every order in which `pairs` visits every table.
 */
module MsgPackRoundTrip {
  import opened Bytes
  import opened Floats
  import opened MsgPack
  import opened MsgPackLaws

  // ---- scalars and headers ----

  function KeptNumber(cfg: Settings, n: Number): (k: Number) {
    if SmallInteger(n) then n else Kept(n, cfg.numbers)
  }

  lemma NumberRoundTrip(cfg: Settings, n: Number, t: bytes)
    requires Known(cfg.numbers)
    ensures Decode(PackNumber(cfg, n) + t) == Ok(Num(KeptNumber(cfg, n)), t)
  {
    var b := PackNumber(cfg, n);
    if SmallInteger(n) {
      IntegerRoundTrip(n.x.Floor, t);
      assert Index(n.x.Floor) == Num(n);
    } else if cfg.numbers == SINGLE {
      FloatRoundTrip(n);
      FloatTag(b, t);
    } else {
      DoubleRoundTrip(n);
      DoubleTag(b, t);
    }
  }

  lemma FloatTag(b: bytes, t: bytes)
    requires |b| == 5 && b[0] == 0xCA
    ensures Decode(b + t) == Ok(Num(UnpackFloat(b[1..])), t)
  {
    var s := (b + t)[1..];
    assert s == b[1..] + t && s[..4] == b[1..] && s[4..] == t;
  }

  lemma DoubleTag(b: bytes, t: bytes)
    requires |b| == 9 && b[0] == 0xCB
    ensures Decode(b + t) == Ok(Num(UnpackDouble(b[1..])), t)
  {
    var s := (b + t)[1..];
    assert s == b[1..] + t && s[..8] == b[1..] && s[8..] == t;
  }

  lemma FixedHeader(tag: byte, kind: Kind, n: nat, body: bytes)
    requires ShapeOf(tag) == Counted(kind, 0, n)
    ensures Decode([tag] + body) == DecodeCounted(kind, n, body)
  {
    assert ([tag] + body)[1..] == body;
  }

  lemma FieldHeader(tag: byte, kind: Kind, field: bytes, n: nat, body: bytes)
    requires field != [] && ShapeOf(tag) == Counted(kind, |field|, 0) && FromBe(field) == n
    ensures Decode([tag] + field + body) == DecodeCounted(kind, n, body)
  {
    var s := [tag] + field + body;
    assert s[1..] == field + body && s[1..][..|field|] == field && s[1..][|field|..] == body;
  }

  lemma CountFields(n: nat)
    requires n <= MAX_COUNT
    ensures n <= 0xFF ==> FromBe([n]) == n
    ensures n <= 0xFFFF ==> FromBe(Be2(n)) == n
    ensures FromBe(Be4(n)) == n
  {
    Powers();
    Be4RoundTrip(n);
    if n <= 0xFF {
      assert FromBe([n]) == 0x100 * FromBe([]) + n;
    }
    if n <= 0xFFFF {
      Be2IsToBe(n);
      UnsignedRoundTrip(n, 2);
    }
  }

  lemma MapHeaderDecodes(n: nat, body: bytes)
    requires n <= MAX_COUNT
    ensures Decode(MapHeader(n) + body) == DecodeCounted(OfMap, n, body)
  {
    CountFields(n);
    if n <= 0x0F {
      FixedHeader(0x80 + n, OfMap, n, body);
    } else if n <= 0xFFFF {
      FieldHeader(0xDE, OfMap, Be2(n), n, body);
    } else {
      FieldHeader(0xDF, OfMap, Be4(n), n, body);
    }
  }

  lemma ArrayHeaderDecodes(n: nat, body: bytes)
    requires n <= MAX_COUNT
    ensures Decode(ArrayHeader(n) + body) == DecodeCounted(OfArray, n, body)
  {
    CountFields(n);
    if n <= 0x0F {
      FixedHeader(0x90 + n, OfArray, n, body);
    } else if n <= 0xFFFF {
      FieldHeader(0xDC, OfArray, Be2(n), n, body);
    } else {
      FieldHeader(0xDD, OfArray, Be4(n), n, body);
    }
  }

  lemma StringRoundTrip(f: StringFormat, s: bytes, t: bytes)
    requires |s| <= MAX_COUNT
    ensures Decode(PackString(f, s).value + t) == Ok(Str(s), t)
  {
    var h := StringHeaderDecodes(f, s, s + t);
    Assoc(h, s, t);
    CountedString(s, t);
  }

  lemma CountedString(s: bytes, t: bytes)
    ensures DecodeCounted(OfString, |s|, s + t) == Ok(Str(s), t)
  {
    assert (s + t)[..|s|] == s && (s + t)[|s|..] == t;
  }

  lemma StringHeaderDecodes(f: StringFormat, s: bytes, body: bytes) returns (h: bytes)
    requires |s| <= MAX_COUNT
    ensures PackString(f, s) == Some(h + s)
    ensures Decode(h + body) == DecodeCounted(OfString, |s|, body)
  {
    var n := |s|;
    CountFields(n);
    if n <= 0x1F && !f.Binary? {
      h := [0xA0 + n];
      FixedHeader(0xA0 + n, OfString, n, body);
    } else if n <= 0xFF && !f.Compat? {
      h := [if f.Binary? then 0xC4 else 0xD9] + [n];
      FieldHeader(h[0], OfString, [n], n, body);
      assert h == [if f.Binary? then 0xC4 else 0xD9, n];
    } else if n <= 0xFFFF {
      h := [if f.Binary? then 0xC5 else 0xDA] + Be2(n);
      FieldHeader(h[0], OfString, Be2(n), n, body);
    } else {
      h := [if f.Binary? then 0xC6 else 0xDB] + Be4(n);
      FieldHeader(h[0], OfString, Be4(n), n, body);
    }
  }

  // ---- tables ----

  /** A table key Lua allows and the format can carry: neither nil, nor NaN, nor a table. */
  predicate ScalarKey(k: Value) {
    !k.Table? && !Droppable(k)
  }

  function Keys(st: Stores): (ks: set<Value>) {
    match st
    case Empty => {}
    case Store(k, _, rest) => {k} + Keys(rest)
  }

  /** A value as `pairs` shows it: scalar keys, each visited once, and no nil stored. */
  predicate WellFormed(v: Value)
    decreases Size(v)
  {
    v.Table? ==> WellFormedStores(v.stores)
  }

  predicate WellFormedStores(st: Stores)
    decreases StoresSize(st)
  {
    match st
    case Empty => true
    case Store(k, v, rest) =>
      ScalarKey(k) && k !in Keys(rest) && v != Nil && WellFormed(v) && WellFormedStores(rest)
  }

  /** The value the unpacker builds from the packed bytes. */
  function Unpacked(cfg: Settings, v: Value): (w: Value)
    decreases Size(v), 1, 0
  {
    match v
    case Num(n) => Num(KeptNumber(cfg, n))
    case Table(st) =>
      Table(if ArrayForm(st) then UnpackedItems(cfg, st, 1, SurveyAll(NO_KEYS, st).n) else UnpackedPairs(cfg, st))
    case _ => v
  }

  function UnpackedPairs(cfg: Settings, st: Stores): (r: Stores)
    decreases StoresSize(st), 0, 0
  {
    match st
    case Empty => Empty
    case Store(k, v, rest) => Store(Unpacked(cfg, k), Unpacked(cfg, v), UnpackedPairs(cfg, rest))
  }

  function UnpackedItems(cfg: Settings, st: Stores, i: nat, n: nat): (r: Stores)
    decreases StoresSize(st), 0, n + 1 - i
  {
    if i > n then Empty
    else Store(Index(i), Unpacked(cfg, Lookup(st, Index(i))), UnpackedItems(cfg, st, i + 1, n))
  }

  function Length(st: Stores): (n: nat) {
    match st
    case Empty => 0
    case Store(_, _, rest) => 1 + Length(rest)
  }

  lemma {:induction false} SurveyCounts(s: Survey, st: Stores)
    ensures SurveyAll(s, st).n == s.n + Length(st)
    decreases st
  {
    match st
    case Empty =>
    case Store(k, _, rest) => SurveyCounts(Surveyed(s, k), rest);
  }

  lemma {:induction false} LookupWellFormed(st: Stores, key: Value)
    requires WellFormedStores(st)
    ensures WellFormed(Lookup(st, key))
    ensures Lookup(st, key) == Nil <==> key !in Keys(st)
    decreases st
  {
    match st
    case Empty =>
    case Store(_, _, rest) => LookupWellFormed(rest, key);
  }

  /** Unpacking what was packed, before any suffix, gives exactly `Unpacked`. */
  lemma {:induction false} DecodePacked(cfg: Settings, v: Value, t: bytes)
    requires Known(cfg.numbers) && WellFormed(v) && Pack(cfg, v).Some?
    ensures Decode(Pack(cfg, v).value + t) == Ok(Unpacked(cfg, v), t)
    decreases Size(v), 1, 0
  {
    match v
    case Nil => assert ([0xC0] + t)[1..] == t;
    case Bool(b) => assert ([if b then 0xC3 else 0xC2] + t)[1..] == t;
    case Num(n) => NumberRoundTrip(cfg, n, t);
    case Str(s) => StringRoundTrip(cfg.strings, s, t);
    case Table(st) => DecodePackedTable(cfg, st, t);
  }

  lemma {:induction false} DecodePackedTable(cfg: Settings, st: Stores, t: bytes)
    requires Known(cfg.numbers) && WellFormedStores(st) && PackTable(cfg, st).Some?
    ensures Decode(PackTable(cfg, st).value + t) == Ok(Unpacked(cfg, Table(st)), t)
    decreases StoresSize(st), 1, 0
  {
    var n := SurveyAll(NO_KEYS, st).n;
    SurveyCounts(NO_KEYS, st);
    if ArrayForm(st) {
      DecodePackedItems(cfg, st, 1, n, t);
      ArrayDecodes(n, PackItems(cfg, st, 1, n).value, t, UnpackedItems(cfg, st, 1, n));
    } else {
      DecodePackedPairs(cfg, st, t);
      MapDecodes(n, PackPairs(cfg, st).value, t, UnpackedPairs(cfg, st));
    }
  }

  lemma ArrayDecodes(n: nat, body: bytes, t: bytes, items: Stores)
    requires n <= MAX_COUNT && DecodeItems(body + t, 1, n) == Filled(items, t)
    ensures Decode(ArrayHeader(n) + body + t) == Ok(Table(items), t)
  {
    Assoc(ArrayHeader(n), body, t);
    ArrayHeaderDecodes(n, body + t);
  }

  lemma MapDecodes(n: nat, body: bytes, t: bytes, pairs: Stores)
    requires n <= MAX_COUNT && DecodePairs(body + t, n) == Filled(pairs, t)
    ensures Decode(MapHeader(n) + body + t) == Ok(Table(pairs), t)
  {
    Assoc(MapHeader(n), body, t);
    MapHeaderDecodes(n, body + t);
  }

  lemma {:induction false} DecodePackedPairs(cfg: Settings, st: Stores, t: bytes)
    requires Known(cfg.numbers) && WellFormedStores(st) && PackPairs(cfg, st).Some?
    ensures DecodePairs(PackPairs(cfg, st).value + t, Length(st)) == Filled(UnpackedPairs(cfg, st), t)
    decreases StoresSize(st), 0, 0
  {
    match st
    case Empty =>
      assert [] + t == t;
    case Store(k, v, rest) =>
      var a, b, c := Pack(cfg, k).value, Pack(cfg, v).value, PackPairs(cfg, rest).value;
      assert PackPairs(cfg, st).value + t == a + (b + (c + t));
      DecodePacked(cfg, k, b + (c + t));
      DecodePacked(cfg, v, c + t);
      DecodePackedPairs(cfg, rest, t);
      KeptKey(cfg, k);
  }

  lemma KeptKey(cfg: Settings, k: Value)
    requires ScalarKey(k)
    ensures ScalarKey(Unpacked(cfg, k))
  {
  }

  lemma {:induction false} DecodePackedItems(cfg: Settings, st: Stores, i: nat, n: nat, t: bytes)
    requires Known(cfg.numbers) && WellFormedStores(st) && PackItems(cfg, st, i, n).Some?
    ensures DecodeItems(PackItems(cfg, st, i, n).value + t, i, n) == Filled(UnpackedItems(cfg, st, i, n), t)
    decreases StoresSize(st), 0, n + 1 - i
  {
    if i > n {
      assert [] + t == t;
    } else {
      var v := Lookup(st, Index(i));
      var a, b := Pack(cfg, v).value, PackItems(cfg, st, i + 1, n).value;
      assert PackItems(cfg, st, i, n).value + t == a + (b + t);
      LookupWellFormed(st, Index(i));
      DecodePacked(cfg, v, b + t);
      DecodePackedItems(cfg, st, i + 1, n, t);
    }
  }

  // ---- the array test ----

  predicate PositiveKey(k: Value) {
    k.Num? && Above(k.n, Real(0.0))
  }

  predicate WholeKey(k: Value) {
    k.Num? ==> k.n.Real? && k.n.x.Floor as real == k.n.x
  }

  /** The keys 1, ..., n. */
  function Range(n: nat): (ks: set<Value>) {
    set i: int | 1 <= i <= n :: Index(i)
  }

  lemma {:induction false} RangeSize(n: nat)
    ensures |Range(n)| == n
  {
    if n > 0 {
      RangeSize(n - 1);
      assert Range(n) == Range(n - 1) + {Index(n)};
      assert Index(n) !in Range(n - 1);
    }
  }

  /** The keys of a table are distinct and no value stored is nil. */
  predicate Distinct(st: Stores) {
    match st
    case Empty => true
    case Store(k, v, rest) => k !in Keys(rest) && v != Nil && Distinct(rest)
  }

  lemma {:induction false} KeyCount(st: Stores)
    requires Distinct(st)
    ensures |Keys(st)| == Length(st)
  {
    match st
    case Empty =>
    case Store(_, _, rest) => KeyCount(rest);
  }

  /** What the counting loop knows when it ends. */
  lemma {:induction false} SurveyKnows(s: Survey, st: Stores)
    requires s.max == Real(0.0) || Above(s.max, Real(0.0))
    ensures var r := SurveyAll(s, st);
      && (r.isMap <==> s.isMap || exists k :: k in Keys(st) && !PositiveKey(k))
      && !Above(s.max, r.max)
      && (forall k :: k in Keys(st) && PositiveKey(k) ==> !Above(k.n, r.max))
      && (r.max == s.max || exists k :: k in Keys(st) && PositiveKey(k) && k.n == r.max)
    decreases st
  {
    match st
    case Empty =>
    case Store(key, _, rest) =>
      SurveyKnows(Surveyed(s, key), rest);
      assert key in Keys(st);
      assert forall k :: k in Keys(rest) ==> k in Keys(st);
  }

  /**
   For integer keys the test `max ~= n` is exact: the array form is picked just for the keys 1..n.
   Conversely, when the array form is picked, those are the keys unless one of them is not whole.
   */
  lemma ArrayTestExact(st: Stores)
    requires Distinct(st)
    ensures Keys(st) == Range(Length(st)) ==> ArrayForm(st)
    ensures ArrayForm(st) ==> (Keys(st) == Range(Length(st)) <==> forall k :: k in Keys(st) ==> WholeKey(k))
  {
    if Keys(st) == Range(Length(st)) {
      RangeTakesArrayForm(st);
    }
    if ArrayForm(st) {
      if forall k :: k in Keys(st) ==> WholeKey(k) {
        ArrayFormOfWhole(st);
      } else {
        assert forall k :: k in Range(Length(st)) ==> WholeKey(k);
      }
    }
  }

  lemma RangeTakesArrayForm(st: Stores)
    requires Distinct(st) && Keys(st) == Range(Length(st))
    ensures ArrayForm(st)
  {
    var n := Length(st);
    SurveyCounts(NO_KEYS, st);
    SurveyKnows(NO_KEYS, st);
    assert forall k :: k in Range(n) ==> PositiveKey(k) && k.n.x <= n as real;
    if n > 0 {
      assert Index(n) in Keys(st);
    }
  }

  /** Pigeonhole: n distinct whole keys between 1 and n. */
  lemma ArrayFormOfWhole(st: Stores)
    requires Distinct(st) && ArrayForm(st) && forall k :: k in Keys(st) ==> WholeKey(k)
    ensures Keys(st) == Range(Length(st))
  {
    var n := Length(st);
    SurveyCounts(NO_KEYS, st);
    SurveyKnows(NO_KEYS, st);
    KeyCount(st);
    RangeSize(n);
    forall k | k in Keys(st) ensures k in Range(n) {
      assert k == Index(k.n.x.Floor);
    }
    SubsetOfSameSize(Keys(st), Range(n));
  }

  lemma SubsetOfSameSize<T>(a: set<T>, b: set<T>)
    requires a <= b && |a| == |b|
    ensures a == b
  {
    assert |b - a| == |b| - |a|;
  }

  // ---- meaning ----

  /** What a Lua program can observe: a scalar, or the fields of a table whatever order filled it. */
  datatype Lua = Scalar(v: Value) | Record(fields: map<Value, Lua>)

  function Meaning(v: Value): (m: Lua)
    decreases Size(v)
  {
    match v
    case Table(st) => Record(Fields(st, map[]))
    case _ => Scalar(v)
  }

  /** Assigning nil removes a field. */
  function Fields(st: Stores, m: map<Value, Lua>): (r: map<Value, Lua>)
    decreases StoresSize(st)
  {
    match st
    case Empty => m
    case Store(k, v, rest) => Fields(rest, if v == Nil then m - {k} else m[k := Meaning(v)])
  }

  lemma {:induction false} FieldsWithin(st: Stores, m: map<Value, Lua>)
    ensures Fields(st, m).Keys <= m.Keys + Keys(st)
    decreases StoresSize(st)
  {
    match st
    case Empty =>
    case Store(k, v, rest) => FieldsWithin(rest, if v == Nil then m - {k} else m[k := Meaning(v)]);
  }

  lemma {:induction false} FieldsOfDistinct(st: Stores, m: map<Value, Lua>)
    requires Distinct(st)
    ensures Fields(st, m).Keys == m.Keys + Keys(st)
    ensures forall k :: k in Fields(st, m) ==>
      Fields(st, m)[k] == if k in Keys(st) then Meaning(Lookup(st, k)) else m[k]
    decreases StoresSize(st)
  {
    match st
    case Empty =>
    case Store(k, v, rest) => FieldsOfDistinct(rest, m[k := Meaning(v)]);
  }

  /** Two tables mean the same exactly if they have the same keys, and under each a value that means the same. */
  lemma SameTables(a: Stores, b: Stores)
    requires Distinct(a) && Distinct(b)
    ensures Meaning(Table(a)) == Meaning(Table(b)) <==>
      Keys(a) == Keys(b) && forall k :: k in Keys(a) ==> Meaning(Lookup(a, k)) == Meaning(Lookup(b, k))
  {
    FieldsOfDistinct(a, map[]);
    FieldsOfDistinct(b, map[]);
    var f, g := Fields(a, map[]), Fields(b, map[]);
    if f == g {
      assert forall k :: k in Keys(a) ==> f[k] == g[k];
    } else if Keys(a) == Keys(b) {
      assert exists k :: k in Keys(a) && f[k] != g[k];
    }
  }

  /** Any other value means what it is, and no table. */
  lemma SameScalars(a: Value, b: Value)
    requires !a.Table?
    ensures Meaning(a) == Meaning(b) <==> a == b
  {
  }

  /** Whole, and below 2^53 - 1 in magnitude. */
  predicate Whole53(n: Number) {
    n.Real? && n.x.Floor as real == n.x && -9007199254740991 < n.x.Floor < 9007199254740991
  }

  /** A number the settings can hold: a small integer, zero, not finite, or in range with bits that fit. */
  predicate NumberFits(cfg: Settings, n: Number) {
    || Whole53(n) || !n.Real? || n.x == 0.0
    || (InRange(n, cfg.numbers) && FitsBits(n, cfg.numbers))
  }

  lemma NumberFitsExactly(cfg: Settings, n: Number)
    requires Known(cfg.numbers)
    ensures KeptNumber(cfg, n) == n <==> NumberFits(cfg, n)
  {
    if n.Real? {
      KeptExactly(n, cfg.numbers);
    }
  }

  predicate KeyFits(cfg: Settings, k: Value) {
    k.Num? ==> NumberFits(cfg, k.n)
  }

  lemma KeyFitsExactly(cfg: Settings, k: Value)
    requires Known(cfg.numbers) && ScalarKey(k)
    ensures Unpacked(cfg, k) == k <==> KeyFits(cfg, k)
  {
    if k.Num? {
      NumberFitsExactly(cfg, k.n);
    }
  }

  /**
   Exactly when a value keeps its meaning: every number fits the settings; in a table packed as a map every
   key fits them; a table packed as an array has no fractional key.
   */
  predicate Faithful(cfg: Settings, v: Value)
    decreases Size(v)
  {
    match v
    case Num(n) => NumberFits(cfg, n)
    case Table(st) =>
      && (forall k :: k in Keys(st) ==> if ArrayForm(st) then WholeKey(k) else KeyFits(cfg, k))
      && (forall k :: k in Keys(st) ==> Faithful(cfg, Lookup(st, k)))
    case _ => true
  }

  lemma {:induction false} WellFormedIsDistinct(st: Stores)
    requires WellFormedStores(st)
    ensures Distinct(st) && forall k :: k in Keys(st) ==> ScalarKey(k)
    decreases st
  {
    match st
    case Empty =>
    case Store(_, _, rest) => WellFormedIsDistinct(rest);
  }

  /** A map form whose keys are all kept has the same keys, over the unpacked values. */
  lemma {:induction false} PairsLookup(cfg: Settings, st: Stores)
    requires Distinct(st) && forall k :: k in Keys(st) ==> Unpacked(cfg, k) == k
    ensures Keys(UnpackedPairs(cfg, st)) == Keys(st) && Distinct(UnpackedPairs(cfg, st))
    ensures forall k :: k in Keys(st) ==> Lookup(UnpackedPairs(cfg, st), k) == Unpacked(cfg, Lookup(st, k))
    decreases st
  {
    match st
    case Empty =>
    case Store(k, v, rest) =>
      assert k in Keys(st) && forall j :: j in Keys(rest) ==> j in Keys(st);
      PairsLookup(cfg, rest);
  }

  lemma {:induction false} PairsKeysKept(cfg: Settings, st: Stores)
    requires Known(cfg.numbers) && forall k :: k in Keys(st) ==> ScalarKey(k)
    ensures forall k :: k in Keys(UnpackedPairs(cfg, st)) ==> Unpacked(cfg, k) == k
    decreases st
  {
    match st
    case Empty =>
    case Store(k, v, rest) =>
      assert k in Keys(st) && forall j :: j in Keys(rest) ==> j in Keys(st);
      PairsKeysKept(cfg, rest);
      if k.Num? {
        KeptIdempotent(k.n, cfg.numbers);
      }
  }

  lemma {:induction false} ItemsKeys(cfg: Settings, st: Stores, i: nat, n: nat)
    requires 1 <= i <= n + 1
    ensures Keys(UnpackedItems(cfg, st, i, n)) == set j: int | i <= j <= n :: Index(j)
    ensures forall j: int :: i <= j <= n ==>
      Lookup(UnpackedItems(cfg, st, i, n), Index(j)) == Unpacked(cfg, Lookup(st, Index(j)))
    ensures (forall j: int :: i <= j <= n ==> Index(j) in Keys(st)) && Distinct(st) ==>
      Distinct(UnpackedItems(cfg, st, i, n))
    decreases n + 1 - i
  {
    if i <= n {
      ItemsKeys(cfg, st, i + 1, n);
      forall j: int | i + 1 <= j ensures Index(j) != Index(i) {
      }
      if (forall j: int :: i <= j <= n ==> Index(j) in Keys(st)) && Distinct(st) {
        DistinctLookup(st, Index(i));
      }
    }
  }

  lemma {:induction false} DistinctLookup(st: Stores, k: Value)
    requires Distinct(st) && k in Keys(st)
    ensures Lookup(st, k) != Nil
    decreases st
  {
    match st
    case Store(key, _, rest) => if key != k { DistinctLookup(rest, k); }
  }

  /** A value keeps its meaning through packing and unpacking exactly when it is faithful. */
  lemma {:induction false} MeaningSurvives(cfg: Settings, v: Value)
    requires Known(cfg.numbers) && WellFormed(v)
    ensures Meaning(Unpacked(cfg, v)) == Meaning(v) <==> Faithful(cfg, v)
    decreases Size(v)
  {
    if v.Table? {
      var st := v.stores;
      forall k | k in Keys(st)
        ensures Meaning(Unpacked(cfg, Lookup(st, k))) == Meaning(Lookup(st, k)) <==> Faithful(cfg, Lookup(st, k))
      {
        LookupWellFormed(st, k);
        MeaningSurvives(cfg, Lookup(st, k));
      }
      WellFormedIsDistinct(st);
      FieldsOfDistinct(st, map[]);
      if ArrayForm(st) {
        ItemsMeaning(cfg, st);
      } else {
        PairsMeaning(cfg, st);
        forall k | k in Keys(st) ensures Unpacked(cfg, k) == k <==> KeyFits(cfg, k) {
          KeyFitsExactly(cfg, k);
        }
      }
    } else if v.Num? {
      NumberFitsExactly(cfg, v.n);
    }
  }

  /** The fields agree when the keys are kept and every field keeps its meaning, and only then. */
  predicate FieldsKept(cfg: Settings, st: Stores) {
    forall k :: k in Keys(st) ==> Meaning(Unpacked(cfg, Lookup(st, k))) == Meaning(Lookup(st, k))
  }

  lemma PairsMeaning(cfg: Settings, st: Stores)
    requires Known(cfg.numbers) && Distinct(st) && forall k :: k in Keys(st) ==> ScalarKey(k)
    ensures Fields(UnpackedPairs(cfg, st), map[]) == Fields(st, map[])
       <==> FieldsKept(cfg, st) && forall k :: k in Keys(st) ==> Unpacked(cfg, k) == k
  {
    var u := UnpackedPairs(cfg, st);
    FieldsOfDistinct(st, map[]);
    if forall k :: k in Keys(st) ==> Unpacked(cfg, k) == k {
      PairsLookup(cfg, st);
      FieldsOfDistinct(u, map[]);
      SameFields(cfg, st, u);
    } else {
      var k :| k in Keys(st) && Unpacked(cfg, k) != k;
      PairsKeysKept(cfg, st);
      FieldsWithin(u, map[]);
      assert k in Fields(st, map[]) && k !in Fields(u, map[]);
    }
  }

  lemma SameFields(cfg: Settings, st: Stores, u: Stores)
    requires Fields(st, map[]).Keys == Keys(st) && Fields(u, map[]).Keys == Keys(st)
    requires forall k :: k in Fields(st, map[]) ==> Fields(st, map[])[k] == Meaning(Lookup(st, k))
    requires forall k :: k in Fields(u, map[]) ==> Fields(u, map[])[k] == Meaning(Unpacked(cfg, Lookup(st, k)))
    ensures Fields(u, map[]) == Fields(st, map[]) <==> FieldsKept(cfg, st)
  {
    if Fields(u, map[]) == Fields(st, map[]) {
      forall k | k in Keys(st) ensures Meaning(Unpacked(cfg, Lookup(st, k))) == Meaning(Lookup(st, k)) {
        assert k in Fields(st, map[]) && k in Fields(u, map[]);
      }
    }
  }

  lemma FractionDropped(cfg: Settings, st: Stores, k: Value)
    requires k.Num? && !WholeKey(k)
    ensures k !in Fields(UnpackedItems(cfg, st, 1, Length(st)), map[])
  {
    FieldsWithin(UnpackedItems(cfg, st, 1, Length(st)), map[]);
    ItemsKeys(cfg, st, 1, Length(st));
  }

  lemma ItemsMeaning(cfg: Settings, st: Stores)
    requires Known(cfg.numbers) && Distinct(st) && ArrayForm(st)
    ensures Fields(UnpackedItems(cfg, st, 1, SurveyAll(NO_KEYS, st).n), map[]) == Fields(st, map[])
       <==> FieldsKept(cfg, st) && forall k :: k in Keys(st) ==> WholeKey(k)
  {
    var u := UnpackedItems(cfg, st, 1, Length(st));
    SurveyCounts(NO_KEYS, st);
    FieldsOfDistinct(st, map[]);
    if k :| k in Keys(st) && !WholeKey(k) {
      assert k in Fields(st, map[]);
      FractionDropped(cfg, st, k);
    } else {
      ArrayTestExact(st);
      WholeItems(cfg, st);
      SameFields(cfg, st, u);
    }
  }

  /** An array form with the keys 1..n has the same keys, over the unpacked values. */
  lemma WholeItems(cfg: Settings, st: Stores)
    requires Known(cfg.numbers) && Distinct(st) && Keys(st) == Range(Length(st))
    ensures var u := UnpackedItems(cfg, st, 1, Length(st));
      && Fields(u, map[]).Keys == Keys(st)
      && forall k :: k in Fields(u, map[]) ==> Fields(u, map[])[k] == Meaning(Unpacked(cfg, Lookup(st, k)))
  {
    var u := UnpackedItems(cfg, st, 1, Length(st));
    ItemsKeys(cfg, st, 1, Length(st));
    FieldsOfDistinct(u, map[]);
  }

  /** The whole pipeline: packing then unpacking succeeds and preserves exactly the faithful values. */
  lemma RoundTrip(cfg: Settings, v: Value)
    requires Known(cfg.numbers) && WellFormed(v) && Pack(cfg, v).Some?
    ensures Unpack(Pack(cfg, v).value).Ok?
    ensures Meaning(Unpack(Pack(cfg, v).value).value) == Meaning(v) <==> Faithful(cfg, v)
  {
    DecodePacked(cfg, v, []);
    assert Pack(cfg, v).value + [] == Pack(cfg, v).value;
    MeaningSurvives(cfg, v);
  }

  /** Values built from nil, booleans, strings and such numbers, in keys and values alike. */
  predicate IntegerValued(v: Value)
    decreases Size(v)
  {
    match v
    case Num(n) => Whole53(n)
    case Table(st) =>
      && (forall k :: k in Keys(st) && k.Num? ==> Whole53(k.n))
      && (forall k :: k in Keys(st) ==> IntegerValued(Lookup(st, k)))
    case _ => true
  }

  /** Such values always survive, in every setting. */
  lemma {:induction false} IntegersAreFaithful(cfg: Settings, v: Value)
    requires WellFormed(v) && IntegerValued(v)
    ensures Faithful(cfg, v)
    decreases Size(v)
  {
    if v.Table? {
      WellFormedIsDistinct(v.stores);
      forall k | k in Keys(v.stores) ensures Faithful(cfg, Lookup(v.stores, k)) {
        LookupWellFormed(v.stores, k);
        IntegersAreFaithful(cfg, Lookup(v.stores, k));
      }
    }
  }

  /** The keys 0.5 and 2 pass the array test, and the table does not survive. */
  lemma FractionalKeysFail(cfg: Settings) returns (v: Value)
    requires Known(cfg.numbers)
    ensures WellFormed(v) && Pack(cfg, v).Some? && Unpack(Pack(cfg, v).value).Ok?
    ensures Meaning(Unpack(Pack(cfg, v).value).value) != Meaning(v)
  {
    var half := Num(Real(0.5));
    var inner := Store(Index(2), Bool(true), Empty);
    var st := Store(half, Bool(true), inner);
    v := Table(st);
    assert Keys(inner) == {Index(2)};
    assert SurveyAll(NO_KEYS, st) == SurveyAll(Surveyed(Surveyed(NO_KEYS, half), Index(2)), Empty);
    assert ArrayForm(st);
    assert half in Keys(st) && !WholeKey(half);
    assert Lookup(st, Index(1)) == Nil && Lookup(st, Index(2)) == Bool(true);
    assert PackItems(cfg, st, 3, 2) == Some([]);
    assert PackItems(cfg, st, 2, 2).Some?;
    RoundTrip(cfg, v);
  }
}
