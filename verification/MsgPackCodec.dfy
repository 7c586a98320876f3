/**
 The coder's mutable parts: the buffer the packers append to, and the cursor the unpackers advance,
 over a whole string or over a loader that hands out chunks on demand.
 */
module MsgPackCodec {
  import opened Bytes
  import opened Floats
  import opened MsgPack

  /** The table of strings the packers append to, as the text `table.concat` makes of it. */
  class PackBuffer {
    var text: bytes

    constructor ()
      ensures text == []
    {
      text := [];
    }

    method Append(b: bytes)
      modifies this
      ensures text == old(text) + b
    {
      text := text + b;
    }

    /** `packers[type(v)](buffer, v)`; `ok` is false when the source raises an overflow error. */
    method Add(cfg: Settings, v: Value) returns (ok: bool)
      modifies this
      ensures ok <==> Pack(cfg, v).Some?
      ensures ok ==> text == old(text) + Pack(cfg, v).value
      decreases Size(v), 1
    {
      match v
      case Nil => Append([0xC0]); ok := true;
      case Bool(b) => Append(if b then [0xC3] else [0xC2]); ok := true;
      case Num(n) => Append(PackNumber(cfg, n)); ok := true;
      case Str(s) =>
        var r := PackString(cfg.strings, s);
        ok := r.Some?;
        if ok { Append(r.value); }
      case Table(st) => ok := AddTable(cfg, st);
    }

    method AddTable(cfg: Settings, st: Stores) returns (ok: bool)
      modifies this
      ensures ok <==> PackTable(cfg, st).Some?
      ensures ok ==> text == old(text) + PackTable(cfg, st).value
      decreases StoresSize(st), 1
    {
      var survey := Count(st);
      var isMap, n := survey.isMap, survey.n;
      if survey.max != Real(n as real) { isMap := true; }
      if n > MAX_COUNT { return false; }
      if isMap {
        PrependJoin(text, MapHeader(n), PackPairs(cfg, st));
        Append(MapHeader(n));
        ok := AddPairs(cfg, st);
      } else {
        PrependJoin(text, ArrayHeader(n), PackItems(cfg, st, 1, n));
        Append(ArrayHeader(n));
        ok := AddItems(cfg, st, n);
      }
    }

    /** The first loop over `pairs(tbl)`. */
    method Count(st: Stores) returns (r: Survey)
      ensures r == SurveyAll(NO_KEYS, st)
    {
      var isMap, n: nat, max := false, 0, Real(0.0);
      var it := st;
      while it.Store?
        invariant SurveyAll(NO_KEYS, st) == SurveyAll(Survey(isMap, n, max), it)
        decreases it
      {
        var k := it.key;
        if k.Num? && Above(k.n, Real(0.0)) {
          if Above(k.n, max) { max := k.n; }
        } else {
          isMap := true;
        }
        n := n + 1;
        it := it.rest;
      }
      r := Survey(isMap, n, max);
    }

    method AddPairs(cfg: Settings, st: Stores) returns (ok: bool)
      modifies this
      ensures ok <==> PackPairs(cfg, st).Some?
      ensures ok ==> text == old(text) + PackPairs(cfg, st).value
      decreases StoresSize(st), 0
    {
      var it := st;
      ghost var done: bytes := [];
      ghost var all := PackPairs(cfg, st);
      PrependNothing(all);
      while it.Store?
        invariant StoresSize(it) <= StoresSize(st)
        invariant all == Prepend(done, PackPairs(cfg, it))
        invariant text == old(text) + done
        decreases it
      {
        PairsStep(cfg, done, it);
        ok := AddPair(cfg, it.key, it.value);
        if !ok { return; }
        Assoc(old(text), done, PairText(cfg, it.key, it.value).value);
        done := done + PairText(cfg, it.key, it.value).value;
        it := it.rest;
      }
      assert all == Some(done + []) && done + [] == done;
      ok := true;
    }

    method AddPair(cfg: Settings, k: Value, v: Value) returns (ok: bool)
      modifies this
      ensures ok <==> PairText(cfg, k, v).Some?
      ensures ok ==> text == old(text) + PairText(cfg, k, v).value
      decreases Size(k) + Size(v), 2
    {
      ghost var start, a, b := text, Pack(cfg, k), Pack(cfg, v);
      ok := Add(cfg, k);
      if ok {
        ok := Add(cfg, v);
        PrependJoin(start, a.value, b);
      }
    }

    method AddItems(cfg: Settings, st: Stores, n: nat) returns (ok: bool)
      modifies this
      ensures ok <==> PackItems(cfg, st, 1, n).Some?
      ensures ok ==> text == old(text) + PackItems(cfg, st, 1, n).value
      decreases StoresSize(st), 0
    {
      ghost var done: bytes := [];
      ghost var all := PackItems(cfg, st, 1, n);
      PrependNothing(all);
      for i := 1 to n + 1
        invariant all == Prepend(done, PackItems(cfg, st, i, n))
        invariant text == old(text) + done
      {
        ItemsStep(cfg, done, st, i, n);
        var v := Lookup(st, Index(i));
        ok := Add(cfg, v);
        if !ok { return; }
        Assoc(old(text), done, Pack(cfg, v).value);
        done := done + Pack(cfg, v).value;
      }
      assert all == Some(done + []) && done + [] == done;
      ok := true;
    }
  }

  /** The first `n` bytes of a suffix that holds them, before whatever follows. */
  lemma CutFront(s: bytes, k: nat, n: nat, t: bytes)
    requires k + n <= |s|
    ensures (s[k..] + t)[..n] == s[k..k + n] && (s[k..] + t)[n..] == s[k + n..] + t
  {
  }

  lemma PrependNothing(b: Option<bytes>)
    ensures Prepend([], b) == b
  {
    if b.Some? {
      assert [] + b.value == b.value;
    }
  }

  lemma PrependJoin(a: bytes, b: bytes, c: Option<bytes>)
    ensures Prepend(a, Join(Some(b), c)) == Prepend(a + b, c)
  {
    if c.Some? {
      assert a + (b + c.value) == a + b + c.value;
    }
  }

  function PairText(cfg: Settings, k: Value, v: Value): (t: Option<bytes>) {
    Join(Pack(cfg, k), Pack(cfg, v))
  }

  lemma PairsStep(cfg: Settings, done: bytes, st: Stores)
    requires st.Store?
    ensures var t := PairText(cfg, st.key, st.value);
      if t.None? then PackPairs(cfg, st) == None
      else Prepend(done, PackPairs(cfg, st)) == Prepend(done + t.value, PackPairs(cfg, st.rest))
  {
    var k, v := Pack(cfg, st.key), Pack(cfg, st.value);
    if k.Some? && v.Some? {
      PrependJoin(done, k.value, Join(v, PackPairs(cfg, st.rest)));
      PrependJoin(done + k.value, v.value, PackPairs(cfg, st.rest));
      assert done + k.value + v.value == done + (k.value + v.value);
    }
  }

  lemma ItemsStep(cfg: Settings, done: bytes, st: Stores, i: nat, n: nat)
    requires i <= n
    ensures var v := Pack(cfg, Lookup(st, Index(i)));
      if v.None? then PackItems(cfg, st, i, n) == None
      else Prepend(done, PackItems(cfg, st, i, n)) == Prepend(done + v.value, PackItems(cfg, st, i + 1, n))
  {
    var v := Pack(cfg, Lookup(st, Index(i)));
    if v.Some? {
      PrependJoin(done, v.value, PackItems(cfg, st, i + 1, n));
    }
  }

  /** `m.pack` */
  method PackToString(cfg: Settings, v: Value) returns (r: Option<bytes>)
    ensures r == Pack(cfg, v)
  {
    var buffer := new PackBuffer();
    var ok := buffer.Add(cfg, v);
    r := if ok then Some(buffer.text) else None;
    if ok {
      assert [] + Pack(cfg, v).value == Pack(cfg, v).value;
    }
  }

  /** What a call of `unpack_cursor` does: return a value or raise an error. */
  datatype Outcome = Got(value: Value) | Raised(error: Error)

  class Cursor {
    var s: bytes
    var i: nat
    var j: nat
    const streaming: bool
    /** What the loader will still return, before it returns nil for good. */
    var chunks: seq<bytes>

    ghost predicate Valid()
      reads this
    {
      1 <= i <= j + 1 && j == |s| && (!streaming ==> chunks == [])
    }

    ghost function Unread(): bytes
      requires Valid()
      reads this
    {
      s[i - 1..] + Flatten(chunks)
    }

    constructor OfString(str: bytes)
      ensures Valid() && Unread() == str && !streaming
    {
      s, i, j, streaming, chunks := str, 1, |str|, false, [];
    }

    constructor OfLoader(chunks: seq<bytes>)
      ensures Valid() && Unread() == Flatten(chunks) && streaming
    {
      s, i, j, streaming, this.chunks := [], 1, 0, true, chunks;
    }

    method Load() returns (chunk: Option<bytes>)
      modifies `chunks
      ensures if old(chunks) == [] then chunk == None && chunks == []
              else chunk == Some(old(chunks)[0]) && chunks == old(chunks)[1..]
    {
      if chunks == [] { return None; }
      chunk := Some(chunks[0]);
      chunks := chunks[1..];
    }

    /**
     Make byte `e` available. The loader's version drops what was read, rebases the positions and loads
     until there is enough; what is unread, loaded or not, does not change. `ok` is false when the
     source raises "missing bytes".
     */
    method Underflow(e: nat) returns (ok: bool)
      requires Valid() && j < e
      modifies this
      ensures ok <==> e - old(i) < |old(Unread())|
      ensures ok ==> Valid() && Unread() == old(Unread()) && e - old(i) < j - i + 1
      ensures !ok && old(Unread()) == [] ==> Valid() && Unread() == []
    {
      if !streaming { return false; }
      s := s[i - 1..];
      var need := e - i + 1;
      i := 1;
      j := 0;
      while need > j
        invariant i == 1 && (j == |s| || (j == 0 && |s| < need))
        invariant s + Flatten(chunks) == old(Unread())
        decreases |chunks|
      {
        var chunk := Load();
        if chunk.None? {
          return false;
        }
        s := s + chunk.value;
        j := |s|;
      }
      ok := true;
    }

    /** The common opening of the fixed-width unpackers and `unpack_str`: take `n` bytes. */
    method Take(n: nat) returns (b: Option<bytes>)
      requires Valid()
      modifies this
      ensures b.Some? <==> n <= |old(Unread())|
      ensures b.Some? ==> Valid() && b.value == old(Unread())[..n] && Unread() == old(Unread())[n..]
    {
      if i + n - 1 > j {
        var ok := Underflow(i + n - 1);
        if !ok { return None; }
      }
      CutFront(s, i - 1, n, Flatten(chunks));
      b := Some(s[i - 1..i + n - 1]);
      i := i + n;
    }

    method UnpackCursor() returns (r: Outcome)
      requires Valid()
      modifies this
      ensures Decode(old(Unread())).Ok? ==>
        r == Got(Decode(old(Unread())).value) && Valid() && Unread() == Decode(old(Unread())).rest
      ensures Decode(old(Unread())).Fail? ==> r == Raised(Decode(old(Unread())).error)
      decreases |Unread()|, 0, 0
    {
      if i > j {
        var ok := Underflow(i);
        if !ok { return Raised(MissingBytes); }
      }
      var val := s[i - 1];
      assert Unread()[0] == val && Unread()[1..] == s[i..] + Flatten(chunks);
      i := i + 1;
      r := UnpackShape(ShapeOf(val), val);
    }

    method UnpackShape(shape: Shape, tag: byte) returns (r: Outcome)
      requires Valid()
      modifies this
      ensures var d := DecodeShape(shape, tag, old(Unread()));
        && (d.Ok? ==> r == Got(d.value) && Valid() && Unread() == d.rest)
        && (d.Fail? ==> r == Raised(d.error))
      decreases |Unread()|, 2, 0
    {
      match shape
      case Immediate(v) => r := Got(v);
      case NoShape => r := Raised(Unimplemented(tag));
      case UintOf(k) =>
        var b := Take(k);
        r := if b.Some? then Got(Index(FromBe(b.value))) else Raised(MissingBytes);
      case IntOf(k) =>
        var b := Take(k);
        r := if b.Some? && k > 0 then Got(Index(FromSigned(b.value))) else Raised(MissingBytes);
      case SingleFloat =>
        var b := Take(4);
        r := if b.Some? then Got(Num(UnpackFloat(b.value))) else Raised(MissingBytes);
      case DoubleFloat =>
        var b := Take(8);
        r := if b.Some? then Got(Num(UnpackDouble(b.value))) else Raised(MissingBytes);
      case Counted(kind, width, fixed) =>
        var n := fixed;
        if width > 0 {
          var b := Take(width);
          if b.None? { return Raised(MissingBytes); }
          n := FromBe(b.value);
        }
        r := UnpackCounted(kind, n);
    }

    method UnpackCounted(kind: Kind, n: nat) returns (r: Outcome)
      requires Valid()
      modifies this
      ensures var d := DecodeCounted(kind, n, old(Unread()));
        && (d.Ok? ==> r == Got(d.value) && Valid() && Unread() == d.rest)
        && (d.Fail? ==> r == Raised(d.error))
      decreases |Unread()|, 1, n + 1
    {
      match kind
      case OfString =>
        var b := Take(n);
        r := if b.Some? then Got(Str(b.value)) else Raised(MissingBytes);
      case OfExt =>
        var tag := Take(1);
        if tag.None? { return Raised(MissingBytes); }
        var b := Take(n);
        r := if b.Some? then Got(Nil) else Raised(MissingBytes);
      case OfArray => r := UnpackArray(n);
      case OfMap => r := UnpackMap(n);
    }

    method UnpackArray(n: nat) returns (r: Outcome)
      requires Valid()
      modifies this
      ensures var d := DecodeItems(old(Unread()), 1, n);
        && (d.Filled? ==> r == Got(Table(d.stores)) && Valid() && Unread() == d.rest)
        && (d.Broken? ==> r == Raised(d.error))
      decreases |Unread()|, 1, n
    {
      var t := Empty;
      for k := 1 to n + 1
        invariant Valid() && |Unread()| <= |old(Unread())|
        invariant DecodeItems(old(Unread()), 1, n) == After(t, DecodeItems(Unread(), k, n))
      {
        var v := UnpackCursor();
        if v.Raised? { return v; }
        AppendStore(t, Index(k), v.value, DecodeItems(Unread(), k + 1, n));
        t := AppendStores(t, Store(Index(k), v.value, Empty));
      }
      AppendNothing(t);
      r := Got(Table(t));
    }

    method UnpackMap(n: nat) returns (r: Outcome)
      requires Valid()
      modifies this
      ensures var d := DecodePairs(old(Unread()), n);
        && (d.Filled? ==> r == Got(Table(d.stores)) && Valid() && Unread() == d.rest)
        && (d.Broken? ==> r == Raised(d.error))
      decreases |Unread()|, 1, n
    {
      var t := Empty;
      for left := n downto 0
        invariant Valid() && |Unread()| <= |old(Unread())|
        invariant DecodePairs(old(Unread()), n) == After(t, DecodePairs(Unread(), left))
      {
        var k := UnpackCursor();
        if k.Raised? { return k; }
        var v := UnpackCursor();
        if v.Raised? { return v; }
        if !Droppable(k.value) {
          AppendStore(t, k.value, v.value, DecodePairs(Unread(), left));
          t := AppendStores(t, Store(k.value, v.value, Empty));
        }
      }
      AppendNothing(t);
      r := Got(Table(t));
    }

    /** One step of the iterator `m.unpacker` returns; `None` ends the iteration. */
    method Next() returns (r: Option<Outcome>)
      requires Valid()
      modifies this
      ensures old(Unread()) == [] ==> r == None && Valid() && Unread() == []
      ensures old(Unread()) != [] ==> r.Some? && var d := Decode(old(Unread()));
        if d.Ok? then r.value == Got(d.value) && Valid() && Unread() == d.rest else r.value == Raised(d.error)
    {
      if streaming && i > j {
        var loaded := Underflow(i);
      }
      if i <= j {
        var v := UnpackCursor();
        r := Some(v);
      } else {
        r := None;
      }
    }

    /** Iterating until the end or the first error. */
    method Drain() returns (values: seq<Value>, error: Option<Error>)
      requires Valid()
      modifies this
      ensures (values, error) == DecodeAll(old(Unread()))
    {
      values := [];
      assert [] + DecodeAll(Unread()).0 == DecodeAll(Unread()).0;
      while true
        invariant Valid()
        invariant DecodeAll(old(Unread())) == (values + DecodeAll(Unread()).0, DecodeAll(Unread()).1)
        decreases |Unread()|
      {
        ghost var before := Unread();
        var r := Next();
        assert values + [] == values;
        if r.None? { return values, None; }
        if r.value.Raised? {
          return values, Some(r.value.error);
        }
        assert values + DecodeAll(before).0 == values + [r.value.value] + DecodeAll(Unread()).0;
        values := values + [r.value.value];
      }
    }
  }

  function AppendStores(a: Stores, b: Stores): (r: Stores) {
    match a
    case Empty => b
    case Store(k, v, rest) => Store(k, v, AppendStores(rest, b))
  }

  function After(t: Stores, d: DecodedStores): (r: DecodedStores) {
    match d
    case Filled(st, rest) => Filled(AppendStores(t, st), rest)
    case Broken(e) => d
  }

  lemma {:induction false} AppendStoreStores(t: Stores, k: Value, v: Value, st: Stores)
    ensures AppendStores(AppendStores(t, Store(k, v, Empty)), st) == AppendStores(t, Store(k, v, st))
    decreases t
  {
    match t
    case Empty =>
    case Store(_, _, rest) => AppendStoreStores(rest, k, v, st);
  }

  lemma AppendStore(t: Stores, k: Value, v: Value, d: DecodedStores)
    requires !Droppable(k)
    ensures After(AppendStores(t, Store(k, v, Empty)), d) == After(t, Stored(k, v, d))
  {
    if d.Filled? {
      AppendStoreStores(t, k, v, d.stores);
    }
  }

  lemma {:induction false} AppendNothing(t: Stores)
    ensures AppendStores(t, Empty) == t
    decreases t
  {
    match t
    case Empty =>
    case Store(_, _, rest) => AppendNothing(rest);
  }

  /** `m.unpack` */
  method UnpackString(s: bytes) returns (r: Outcome)
    ensures Unpack(s).Ok? ==> r == Got(Unpack(s).value)
    ensures Unpack(s).Fail? ==> r == Raised(Unpack(s).error)
  {
    var cursor := new Cursor.OfString(s);
    r := cursor.UnpackCursor();
    if r.Got? && cursor.i <= cursor.j {
      r := Raised(ExtraBytes);
    }
  }

  /** `m.unpacker` over a string, iterated to its end. */
  method UnpackerOverString(s: bytes) returns (values: seq<Value>, error: Option<Error>)
    ensures (values, error) == DecodeAll(s)
  {
    var cursor := new Cursor.OfString(s);
    values, error := cursor.Drain();
  }

  /**
   `m.unpacker` over a loader, iterated to its end: for every way of cutting a byte string into chunks,
   empty ones included, the same values and the same final outcome as over the whole string.
   */
  method UnpackerOverLoader(chunks: seq<bytes>) returns (values: seq<Value>, error: Option<Error>)
    ensures (values, error) == DecodeAll(Flatten(chunks))
  {
    var cursor := new Cursor.OfLoader(chunks);
    values, error := cursor.Drain();
  }
}
