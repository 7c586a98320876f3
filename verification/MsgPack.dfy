/**
 The MessagePack coder as functions on byte strings: what the packers append and what the
 unpackers read. The classes in MsgPackCodec are proved against these functions.
 */
module MsgPack {
  import opened Bytes
  import opened Floats

  /**
   A Lua value. A table is the sequence of stores that fills it: for a table to be packed, its pairs
   in the order `pairs` visits them, each key once; for an unpacked one, the assignments made, in order.
   */
  datatype Value = Nil | Bool(b: bool) | Num(n: Number) | Str(s: bytes) | Table(stores: Stores)
  datatype Stores = Empty | Store(key: Value, value: Value, rest: Stores)

  datatype StringFormat = Compat | Plain | Binary
  datatype IntegerFormat = Unsigned | Signed

  /** `set_string`, `set_integer` and `set_number`; arrays are 'without_hole', the library's choice. */
  datatype Settings = Settings(strings: StringFormat, integers: IntegerFormat, numbers: Format)

  const MAX_INTEGER := 9007199254740991
  const MAX_COUNT := 0xFFFF_FFFF

  function Size(v: Value): (n: nat)
    ensures n > 0
  {
    match v
    case Table(stores) => 1 + StoresSize(stores)
    case _ => 1
  }

  function StoresSize(st: Stores): (n: nat)
    ensures n > 1
  {
    match st
    case Empty => 2
    case Store(k, v, rest) => Size(k) + Size(v) + StoresSize(rest)
  }

  // ---- packers ----

  function PackString(f: StringFormat, s: bytes): (r: Option<bytes>) {
    var n := |s|;
    if n > MAX_COUNT then None else
    match f
    case Compat =>
      Some((if n <= 0x1F then [0xA0 + n] else if n <= 0xFFFF then [0xDA] + Be2(n) else [0xDB] + Be4(n)) + s)
    case Plain =>
      Some((if n <= 0x1F then [0xA0 + n] else if n <= 0xFF then [0xD9, n]
            else if n <= 0xFFFF then [0xDA] + Be2(n) else [0xDB] + Be4(n)) + s)
    case Binary =>
      Some((if n <= 0xFF then [0xC4, n] else if n <= 0xFFFF then [0xC5] + Be2(n) else [0xC6] + Be4(n)) + s)
  }

  function MapHeader(n: nat): (b: bytes)
    requires n <= MAX_COUNT
  {
    if n <= 0x0F then [0x80 + n] else if n <= 0xFFFF then [0xDE] + Be2(n) else [0xDF] + Be4(n)
  }

  function ArrayHeader(n: nat): (b: bytes)
    requires n <= MAX_COUNT
  {
    if n <= 0x0F then [0x90 + n] else if n <= 0xFFFF then [0xDC] + Be2(n) else [0xDD] + Be4(n)
  }

  function PackUnsigned(n: int): (b: bytes) {
    if n >= 0 then
      if n <= 0x7F then [n]
      else if n <= 0xFF then [0xCC, n]
      else if n <= 0xFFFF then [0xCD] + Be2(n)
      else if n <= 0xFFFF_FFFF then [0xCE] + Be4(n)
      else [0xCF, 0] + Be7(n)
    else
      PackNegative(n)
  }

  function PackSigned(n: int): (b: bytes) {
    if n >= 0 then
      if n <= 0x7F then [n]
      else if n <= 0x7FFF then [0xD1] + Be2(n)
      else if n <= 0x7FFF_FFFF then [0xD2] + Be4(n)
      else [0xD3, 0] + Be7(n)
    else
      PackNegative(n)
  }

  /** Negative integers, alike in both integer settings. */
  function PackNegative(n: int): (b: bytes)
    requires n < 0
  {
    if n >= -0x20 then [0x100 + n]
    else if n >= -0x80 then [0xD0, 0x100 + n]
    else if n >= -0x8000 then [0xD1] + Be2(0x10000 + n)
    else if n >= -0x8000_0000 then [0xD2] + Be4(0x1_0000_0000 + n)
    else [0xD3, 0xFF] + Be7(n)
  }

  /** The numbers the integer packers take: whole and strictly between the limits. */
  predicate SmallInteger(n: Number) {
    n.Real? && n.x.Floor as real == n.x && -MAX_INTEGER < n.x.Floor < MAX_INTEGER
  }

  function PackNumber(cfg: Settings, n: Number): (b: bytes) {
    if SmallInteger(n) then
      if cfg.integers.Unsigned? then PackUnsigned(n.x.Floor) else PackSigned(n.x.Floor)
    else if cfg.numbers == SINGLE then PackFloat(n)
    else PackDouble(n)
  }

  predicate Above(a: Number, b: Number) {
    match (a, b)
    case (Real(x), Real(y)) => x > y
    case (Inf(neg), Real(_)) => !neg
    case (Real(_), Inf(neg)) => neg
    case (Inf(p), Inf(q)) => !p && q
    case _ => false
  }

  datatype Survey = Survey(isMap: bool, n: nat, max: Number)

  /** One round of the key-counting loop. */
  function Surveyed(s: Survey, key: Value): (r: Survey) {
    var counted := s.(n := s.n + 1);
    if key.Num? && Above(key.n, Real(0.0)) then
      if Above(key.n, s.max) then counted.(max := key.n) else counted
    else
      counted.(isMap := true)
  }

  function SurveyAll(s: Survey, st: Stores): (r: Survey)
    decreases st
  {
    match st
    case Empty => s
    case Store(k, _, rest) => SurveyAll(Surveyed(s, k), rest)
  }

  const NO_KEYS := Survey(false, 0, Real(0.0))

  /** Does `_table` pick the array form? */
  predicate ArrayForm(st: Stores) {
    var s := SurveyAll(NO_KEYS, st);
    !s.isMap && s.max == Real(s.n as real)
  }

  function Index(i: int): (v: Value) {
    Num(Real(i as real))
  }

  /** `tbl[key]` for a table whose keys are distinct. */
  function Lookup(st: Stores, key: Value): (v: Value)
    ensures Size(v) < StoresSize(st)
  {
    match st
    case Empty => Nil
    case Store(k, v, rest) => if k == key then v else Lookup(rest, key)
  }

  function Pack(cfg: Settings, v: Value): (r: Option<bytes>)
    decreases Size(v), 1, 0
  {
    match v
    case Nil => Some([0xC0])
    case Bool(b) => Some(if b then [0xC3] else [0xC2])
    case Num(n) => Some(PackNumber(cfg, n))
    case Str(s) => PackString(cfg.strings, s)
    case Table(st) => PackTable(cfg, st)
  }

  function PackTable(cfg: Settings, st: Stores): (r: Option<bytes>)
    decreases StoresSize(st), 1, 0
  {
    var n := SurveyAll(NO_KEYS, st).n;
    if n > MAX_COUNT then None
    else if ArrayForm(st) then Prepend(ArrayHeader(n), PackItems(cfg, st, 1, n))
    else Prepend(MapHeader(n), PackPairs(cfg, st))
  }

  function Prepend(a: bytes, b: Option<bytes>): (r: Option<bytes>) {
    if b.None? then None else Some(a + b.value)
  }

  function Join(a: Option<bytes>, b: Option<bytes>): (r: Option<bytes>) {
    if a.None? then None else Prepend(a.value, b)
  }

  function PackPairs(cfg: Settings, st: Stores): (r: Option<bytes>)
    decreases StoresSize(st), 0, 0
  {
    match st
    case Empty => Some([])
    case Store(k, v, rest) => Join(Pack(cfg, k), Join(Pack(cfg, v), PackPairs(cfg, rest)))
  }

  function PackItems(cfg: Settings, st: Stores, i: nat, n: nat): (r: Option<bytes>)
    decreases StoresSize(st), 0, n + 1 - i
  {
    if i > n then Some([]) else Join(Pack(cfg, Lookup(st, Index(i))), PackItems(cfg, st, i + 1, n))
  }

  // ---- unpackers ----

  datatype Error = MissingBytes | ExtraBytes | Unimplemented(tag: byte)
  datatype Decoded = Ok(value: Value, rest: bytes) | Fail(error: Error)
  datatype DecodedStores = Filled(stores: Stores, rest: bytes) | Broken(error: Error)

  datatype Kind = OfString | OfMap | OfArray | OfExt

  /**
   What the `unpackers` table does with a tag. A counted value has its length in the tag, when
   `width` is 0, or in the next `width` bytes; an extension has one more byte for its type.
   */
  datatype Shape =
    | Immediate(value: Value)
    | UintOf(width: nat)
    | IntOf(width: nat)
    | SingleFloat
    | DoubleFloat
    | Counted(kind: Kind, width: nat, fixed: nat)
    | NoShape

  function ShapeOf(tag: byte): (s: Shape) {
    var k: int := tag;
    if k < 0x80 then Immediate(Index(k))
    else if k < 0x90 then Counted(OfMap, 0, k % 0x10)
    else if k < 0xA0 then Counted(OfArray, 0, k % 0x10)
    else if k < 0xC0 then Counted(OfString, 0, k % 0x20)
    else if k > 0xDF then Immediate(Index(k - 0x100))
    else match k
      case 0xC0 => Immediate(Nil)
      case 0xC2 => Immediate(Bool(false))
      case 0xC3 => Immediate(Bool(true))
      case 0xC4 => Counted(OfString, 1, 0)
      case 0xC5 => Counted(OfString, 2, 0)
      case 0xC6 => Counted(OfString, 4, 0)
      case 0xC7 => Counted(OfExt, 1, 0)
      case 0xC8 => Counted(OfExt, 2, 0)
      case 0xC9 => Counted(OfExt, 4, 0)
      case 0xCA => SingleFloat
      case 0xCB => DoubleFloat
      case 0xCC => UintOf(1)
      case 0xCD => UintOf(2)
      case 0xCE => UintOf(4)
      case 0xCF => UintOf(8)
      case 0xD0 => IntOf(1)
      case 0xD1 => IntOf(2)
      case 0xD2 => IntOf(4)
      case 0xD3 => IntOf(8)
      case 0xD4 => Counted(OfExt, 0, 1)
      case 0xD5 => Counted(OfExt, 0, 2)
      case 0xD6 => Counted(OfExt, 0, 4)
      case 0xD7 => Counted(OfExt, 0, 8)
      case 0xD8 => Counted(OfExt, 0, 16)
      case 0xD9 => Counted(OfString, 1, 0)
      case 0xDA => Counted(OfString, 2, 0)
      case 0xDB => Counted(OfString, 4, 0)
      case 0xDC => Counted(OfArray, 2, 0)
      case 0xDD => Counted(OfArray, 4, 0)
      case 0xDE => Counted(OfMap, 2, 0)
      case 0xDF => Counted(OfMap, 4, 0)
      case _ => NoShape
  }

  /** The signed unpackers' sum of byte-minus-0xFF terms, for a leading byte of 0x80 or more. */
  function FromComplement(b: bytes): (n: int) {
    if b == [] then 0 else 0x100 * FromComplement(b[..|b| - 1]) + (b[|b| - 1] as int - 0xFF)
  }

  function FromSigned(b: bytes): (n: int)
    requires b != []
  {
    if b[0] < 0x80 then FromBe(b) else FromComplement(b) - 1
  }

  /** The length of a counted value and the bytes after it. */
  function CountField(width: nat, fixed: nat, s: bytes): (r: Option<(nat, bytes)>)
    ensures r.Some? ==> |r.value.1| <= |s|
  {
    if width == 0 then Some((fixed, s))
    else if |s| < width then None
    else Some((FromBe(s[..width]), s[width..]))
  }

  function Decode(s: bytes): (r: Decoded)
    ensures r.Ok? ==> |r.rest| < |s|
    decreases |s|, 0, 0
  {
    if s == [] then Fail(MissingBytes) else DecodeShape(ShapeOf(s[0]), s[0], s[1..])
  }

  function DecodeShape(shape: Shape, tag: byte, s: bytes): (r: Decoded)
    ensures r.Ok? ==> |r.rest| <= |s|
    decreases |s|, 2, 0
  {
    match shape
    case Immediate(v) => Ok(v, s)
    case UintOf(k) => if |s| < k then Fail(MissingBytes) else Ok(Index(FromBe(s[..k])), s[k..])
    case IntOf(k) =>
      if k == 0 || |s| < k then Fail(MissingBytes) else Ok(Index(FromSigned(s[..k])), s[k..])
    case SingleFloat => if |s| < 4 then Fail(MissingBytes) else Ok(Num(UnpackFloat(s[..4])), s[4..])
    case DoubleFloat => if |s| < 8 then Fail(MissingBytes) else Ok(Num(UnpackDouble(s[..8])), s[8..])
    case Counted(kind, width, fixed) =>
      (match CountField(width, fixed, s)
       case None => Fail(MissingBytes)
       case Some((n, body)) => DecodeCounted(kind, n, body))
    case NoShape => Fail(Unimplemented(tag))
  }

  function DecodeCounted(kind: Kind, n: nat, s: bytes): (r: Decoded)
    ensures r.Ok? ==> |r.rest| <= |s|
    decreases |s|, 1, n + 1
  {
    match kind
    case OfString => if |s| < n then Fail(MissingBytes) else Ok(Str(s[..n]), s[n..])
    case OfExt => if |s| < 1 + n then Fail(MissingBytes) else Ok(Nil, s[1 + n..])
    case OfArray => AsTable(DecodeItems(s, 1, n))
    case OfMap => AsTable(DecodePairs(s, n))
  }

  function AsTable(d: DecodedStores): (r: Decoded) {
    match d
    case Filled(st, rest) => Ok(Table(st), rest)
    case Broken(e) => Fail(e)
  }

  /** `t[i], ..., t[n]`, one value after the other. */
  function DecodeItems(s: bytes, i: nat, n: nat): (r: DecodedStores)
    ensures r.Filled? ==> |r.rest| <= |s|
    decreases |s|, 1, if i <= n then n + 1 - i else 0
  {
    if i > n then Filled(Empty, s) else
    match Decode(s)
    case Fail(e) => Broken(e)
    case Ok(v, s1) => Stored(Index(i), v, DecodeItems(s1, i + 1, n))
  }

  /** `n` key-value pairs; a key that is nil or NaN is read and dropped with its value. */
  function DecodePairs(s: bytes, n: nat): (r: DecodedStores)
    ensures r.Filled? ==> |r.rest| <= |s|
    decreases |s|, 1, n
  {
    if n == 0 then Filled(Empty, s) else
    match Decode(s)
    case Fail(e) => Broken(e)
    case Ok(k, s1) =>
      match Decode(s1)
      case Fail(e) => Broken(e)
      case Ok(v, s2) => Stored(k, v, DecodePairs(s2, n - 1))
  }

  predicate Droppable(key: Value) {
    key == Nil || key == Num(NaN)
  }

  function Stored(k: Value, v: Value, d: DecodedStores): (r: DecodedStores) {
    if d.Broken? || Droppable(k) then d else Filled(Store(k, v, d.stores), d.rest)
  }

  /** `m.unpack`: one value and nothing after it. */
  function Unpack(s: bytes): (r: Decoded) {
    match Decode(s)
    case Fail(e) => Fail(e)
    case Ok(v, rest) => if rest == [] then Ok(v, []) else Fail(ExtraBytes)
  }

  /** All the values an iterator over `s` produces, and the error that ends it, if any. */
  function DecodeAll(s: bytes): (r: (seq<Value>, Option<Error>))
    decreases |s|
  {
    if s == [] then ([], None) else
    match Decode(s)
    case Fail(e) => ([], Some(e))
    case Ok(v, rest) => var (vs, e) := DecodeAll(rest); ([v] + vs, e)
  }
}
