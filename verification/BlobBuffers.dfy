/** The growable blob writer and the blob reader, over the byte functions they implement. */
module BlobBuffers {
  import opened Bytes
  import opened BlobVarint

  datatype Order = Little | Big

  /** `_orderBytes`: the low part first on little-endian. */
  function Ordered<T>(order: Order, low: T, high: T): (r: (T, T)) {
    if order.Little? then (low, high) else (high, low)
  }

  function Reversed(b: bytes): (r: bytes) {
    if b == [] then [] else Reversed(b[1..]) + [b[0]]
  }

  function U16(order: Order, v: int): (b: bytes) {
    if order.Big? then Be2(v) else Reversed(Be2(v))
  }

  function U32(order: Order, v: int): (b: bytes) {
    if order.Big? then Be4(v) else Reversed(Be4(v))
  }

  /** A field of `n` bytes, by value. */
  function FieldValue(order: Order, b: bytes): (v: nat) {
    FromBe(if order.Big? then b else Reversed(b))
  }

  lemma Reverse2(b: bytes)
    requires |b| == 2
    ensures Reversed(b) == [b[1], b[0]]
  {
    assert b[1..] == [b[1]] && [b[1]][1..] == [];
    assert Reversed([b[1]]) == Reversed([]) + [b[1]];
  }

  lemma Reverse4(b: bytes)
    requires |b| == 4
    ensures Reversed(b) == [b[3], b[2], b[1], b[0]]
  {
    assert b[1..][1..] == b[2..];
    Reverse2(b[2..]);
    assert Reversed(b[1..]) == [b[3], b[2]] + [b[1]];
  }

  lemma U32RoundTrip(order: Order, v: nat)
    requires v < TWO32
    ensures |U32(order, v)| == 4 && FieldValue(order, U32(order, v)) == v
  {
    Be4RoundTrip(v);
    Reverse4(Be4(v));
    Reverse4(Reversed(Be4(v)));
  }

  /** Most, or least, significant byte first. */
  lemma FieldBytes()
    ensures U16(Big, 0x102) == [1, 2] && U16(Little, 0x102) == [2, 1]
    ensures U32(Big, 0x1020304) == [1, 2, 3, 4] && U32(Little, 0x1020304) == [4, 3, 2, 1]
    ensures FieldValue(Big, [1, 2]) == 0x102 && FieldValue(Little, [2, 1]) == 0x102
    ensures FieldValue(Big, [1, 2, 3, 4]) == 0x1020304 && FieldValue(Little, [4, 3, 2, 1]) == 0x1020304
  {
    BigEndian();
    Reverse2([1, 2]);
    Reverse2([2, 1]);
    Reverse4([1, 2, 3, 4]);
    Reverse4([4, 3, 2, 1]);
  }

  lemma U16RoundTrip(order: Order, v: nat)
    requires v < 0x1_0000
    ensures |U16(order, v)| == 2 && FieldValue(order, U16(order, v)) == v
  {
    Be2IsToBe(v);
    Powers();
    FromToBeMod(v, 2);
    Reverse2(Be2(v));
    Reverse2(Reversed(Be2(v)));
  }

  // ---- the writer ----

  datatype WriteOp =
    | PutU8(b: byte)
    | PutU16(h: int)
    | PutU32(w: int)
    | PutVu32(n: int)
    | PutVs32(i: int)
    | PutRaw(s: bytes)
    | ClearAll(newSize: Option<nat>)

  /** The variable-length writers raise an error outside their limits; the others cut their argument. */
  predicate Fits(op: WriteOp) {
    match op
    case PutVu32(n) => n < TWO32
    case PutVs32(i) => -TWO31 <= i < TWO31
    case _ => true
  }

  function OpBytes(order: Order, op: WriteOp): (b: bytes)
    requires Fits(op)
  {
    match op
    case PutU8(b) => [b]
    case PutU16(h) => U16(order, h)
    case PutU32(w) => U32(order, w)
    case PutVu32(n) => Vu32(n)
    case PutVs32(i) => Vs32(i)
    case PutRaw(s) => s
    case ClearAll(_) => []
  }

  predicate AllFit(ops: seq<WriteOp>) {
    forall i :: 0 <= i < |ops| ==> Fits(ops[i])
  }

  /** What a list of calls leaves in the buffer: everything since the last clear, in order. */
  function Written(order: Order, ops: seq<WriteOp>): (b: bytes)
    requires AllFit(ops)
  {
    if ops == [] then [] else
    WrittenThen(Written(order, ops[..|ops| - 1]), order, ops[|ops| - 1])
  }

  function WrittenThen(b: bytes, order: Order, op: WriteOp): (r: bytes)
    requires Fits(op)
  {
    if op.ClearAll? then [] else b + OpBytes(order, op)
  }

  lemma WrittenPush(order: Order, ops: seq<WriteOp>, op: WriteOp)
    requires AllFit(ops) && Fits(op)
    ensures AllFit(ops + [op]) && Written(order, ops + [op]) == WrittenThen(Written(order, ops), order, op)
  {
    assert (ops + [op])[..|ops|] == ops;
  }

  lemma {:induction false} WrittenSinceClear(order: Order, before: seq<WriteOp>, size: Option<nat>, after: seq<WriteOp>)
    requires AllFit(before) && AllFit(after)
    ensures AllFit(before + [ClearAll(size)] + after)
    ensures Written(order, before + [ClearAll(size)] + after) == Written(order, after)
    decreases |after|
  {
    var start := before + [ClearAll(size)];
    if after == [] {
      WrittenPush(order, before, ClearAll(size));
      assert start + after == start;
    } else {
      var init, last := after[..|after| - 1], after[|after| - 1];
      WrittenSinceClear(order, before, size, init);
      WrittenPush(order, start + init, last);
      WrittenPush(order, init, last);
      assert start + init + [last] == start + after && init + [last] == after;
    }
  }

  /** Does a call raise an error, given whether the writer has a buffer? */
  predicate Raises(had: bool, op: WriteOp) {
    !Fits(op) || (op == PutRaw([]) && !had)
  }

  /** Does the writer have a buffer after a call? */
  predicate HasBuffer(had: bool, op: WriteOp) {
    match op
    case PutRaw(s) => had || s != []
    case ClearAll(size) => if size.Some? then size.value > 0 else had
    case _ => true
  }

  /** How many calls are made before one raises an error. */
  function Carried(had: bool, ops: seq<WriteOp>): (n: nat)
    ensures n <= |ops|
    decreases |ops|
  {
    if ops == [] || Raises(had, ops[0]) then 0 else 1 + Carried(HasBuffer(had, ops[0]), ops[1..])
  }

  lemma CarriedStep(had: bool, ops: seq<WriteOp>, n: nat)
    requires n < |ops|
    ensures Carried(had, ops[n..]) ==
      if Raises(had, ops[n]) then 0 else 1 + Carried(HasBuffer(had, ops[n]), ops[n + 1..])
  {
    assert ops[n..][1..] == ops[n + 1..];
  }

  lemma WrittenStep(order: Order, ops: seq<WriteOp>, n: nat)
    requires n < |ops| && AllFit(ops[..n]) && Fits(ops[n])
    ensures AllFit(ops[..n + 1])
    ensures Written(order, ops[..n + 1]) == WrittenThen(Written(order, ops[..n]), order, ops[n])
  {
    assert ops[..n + 1] == ops[..n] + [ops[n]];
    WrittenPush(order, ops[..n], ops[n]);
  }

  /** `_grow`: half as much again, rounded, and at least what is asked for. */
  function GrownSize(size: nat, minimum: nat): (n: nat)
    ensures n >= size + minimum && n > 0 && 2 * n >= 3 * size
  {
    var half := if size as real * 1.5 > 1.0 then size as real * 1.5 else 1.0;
    var rounded := (half + 0.5).Floor;
    if size + minimum > rounded then size + minimum else rounded
  }

  /** Just what is asked for, or half as much again, rounded up; at least one byte. */
  lemma GrownSizeExactly(size: nat, minimum: nat)
    ensures GrownSize(size, minimum) ==
      if size + minimum > 0 && 2 * minimum >= size then size + minimum
      else if size == 0 then 1 else (3 * size + 1) / 2
  {
    HalfAgain(size);
  }

  lemma HalfAgain(size: nat)
    ensures (size as real * 1.5 + 0.5).Floor == (3 * size + 1) / 2
  {
    var q := (3 * size + 1) / 2;
    assert 2 * q <= 3 * size + 1 < 2 * q + 2;
    assert q as real <= size as real * 1.5 + 0.5 < q as real + 1.0;
  }

  class Writer {
    var data: array<byte>
    var length: nat
    var order: Order

    ghost predicate Valid()
      reads this
    {
      length <= data.Length
    }

    /** The bytes written; `tostring`. */
    function Contents(): (b: bytes)
      reads this, data
      requires Valid()
    {
      data[..length]
    }

    constructor (order: Order, size: nat := 1024)
      ensures Valid() && Contents() == [] && fresh(data) && data.Length == size && this.order == order
    {
      data := new byte[size](_ => 0);
      length := 0;
      this.order := order;
    }

    method Allocate(size: nat)
      requires Valid()
      modifies this`data, this`length
      ensures Valid() && fresh(data) && data.Length == size
      ensures length == if size < old(length) then size else old(length)
      ensures Contents() == old(Contents())[..length]
    {
      var copy := new byte[size](_ => 0);
      var keep := if size < length then size else length;
      for i := 0 to keep
        invariant data == old(data) && length == old(length) && copy[..i] == data[..i]
      {
        copy[i] := data[i];
      }
      data, length := copy, keep;
    }

    method Grow(minimum: nat)
      requires Valid()
      modifies this`data, this`length
      ensures Valid() && fresh(data) && data.Length == GrownSize(old(data.Length), minimum)
      ensures length == old(length) && Contents() == old(Contents())
    {
      Allocate(GrownSize(data.Length, minimum));
    }

    method PutByte(b: byte)
      requires Valid()
      modifies this, data
      ensures Valid() && (data == old(data) || fresh(data)) && order == old(order) && data.Length > 0
      ensures Contents() == old(Contents()) + [b]
    {
      if length + 1 > data.Length {
        Grow(1);
      }
      data[length] := b;
      length := length + 1;
    }

    /** The bit operations and the stores cut any whole number to its low bytes. */
    method PutHalf(v: int)
      requires Valid()
      modifies this, data
      ensures Valid() && (data == old(data) || fresh(data)) && order == old(order)
      ensures Contents() == old(Contents()) + U16(order, v)
    {
      if length + 2 > data.Length {
        Grow(2);
      }
      Reverse2(Be2(v));
      var (b1, b2) := Ordered(order, v % 0x100, v / 0x100 % 0x100);
      data[length], data[length + 1] := b1, b2;
      length := length + 2;
    }

    method PutWord(v: int)
      requires Valid()
      modifies this, data
      ensures Valid() && (data == old(data) || fresh(data)) && order == old(order)
      ensures Contents() == old(Contents()) + U32(order, v)
    {
      if length + 4 > data.Length {
        Grow(4);
      }
      Reverse4(Be4(v));
      HalvesAgree(v);
      var (w1, w2) := Ordered(order, v % 0x1_0000, v / 0x1_0000 % 0x1_0000);
      var (b1, b2) := Ordered(order, w1 % 0x100, w1 / 0x100);
      var (b3, b4) := Ordered(order, w2 % 0x100, w2 / 0x100);
      data[length], data[length + 1], data[length + 2], data[length + 3] := b1, b2, b3, b4;
      length := length + 4;
    }

    method PutVu32(v: int)
      requires Valid() && v < TWO32
      modifies this, data
      ensures Valid() && (data == old(data) || fresh(data)) && order == old(order)
      ensures Contents() == old(Contents()) + Vu32(v)
    {
      Powers128();
      PutGroups(v, 4);
    }

    method PutVs32(v: int)
      requires Valid() && -TWO31 <= v < TWO31
      modifies this, data
      ensures Valid() && (data == old(data) || fresh(data)) && order == old(order)
      ensures Contents() == old(Contents()) + Vs32(v)
    {
      Powers128();
      var signBit, a := if v < 0 then 1 else 0, Abs(v);
      if a < 0x40 {
        PutByte(a * 2 + signBit);
        return;
      }
      Assoc(Contents(), [a % 0x40 * 2 + signBit + 0x80], Groups(a / 0x40, 3));
      PutByte(a % 0x40 * 2 + signBit + 0x80);
      PutGroups(a / 0x40, 3);
    }

    /** The loop over shifts that both variable-length writers end in; `rest` is the number shifted so far. */
    method PutGroups(v: int, groups: nat)
      requires Valid() && 0 < groups && v < 0x80 * Pow128(groups)
      modifies this, data
      ensures Valid() && (data == old(data) || fresh(data)) && order == old(order)
      ensures Contents() == old(Contents()) + Groups(v, groups)
    {
      var rest, more := v, groups;
      while more > 0
        invariant 0 <= more <= groups && rest < 0x80 * Pow128(more) && (more < groups ==> rest >= 0)
        invariant Valid() && (data == old(data) || fresh(data)) && order == old(order)
        invariant Contents() + Groups(rest, more) == old(Contents()) + Groups(v, groups)
      {
        if rest < 0x80 {
          PutByte(rest % 0x80);
          return;
        }
        Assoc(Contents(), [rest % 0x80 + 0x80], Groups(rest / 0x80, more - 1));
        PutByte(rest % 0x80 + 0x80);
        rest, more := rest / 0x80, more - 1;
      }
      PutByte(rest);
    }

    /** Copying nothing into a writer that has no buffer at all is an error. */
    method PutRaw(value: bytes) returns (ok: bool)
      requires Valid()
      modifies this, data
      ensures Valid() && (data == old(data) || fresh(data)) && order == old(order)
      ensures ok <==> old(data.Length) > 0 || value != []
      ensures ok ==> data.Length > 0
      ensures Contents() == old(Contents()) + value
    {
      var makeRoom := (data.Length - length) - |value|;
      if makeRoom < 0 {
        Grow(-makeRoom);
      }
      if data.Length == 0 {
        assert Contents() == [] && value == [];
        return false;
      }
      CopyIn(value);
      length := length + |value|;
      ok := true;
    }

    /** `ffi.copy` behind the contents. */
    method CopyIn(value: bytes)
      requires Valid() && length + |value| <= data.Length
      modifies data
      ensures data[..length + |value|] == old(Contents()) + value
    {
      for i := 0 to |value|
        invariant data[..length] == old(Contents()) && data[length..length + i] == value[..i]
      {
        data[length + i] := value[i];
      }
      assert data[..length + |value|] == data[..length] + data[length..length + |value|];
    }

    method PutString(value: bytes)
      requires Valid() && |value| < TWO32
      modifies this, data
      ensures Valid() && (data == old(data) || fresh(data)) && order == old(order)
      ensures Contents() == old(Contents()) + (Vu32(|value|) + value)
    {
      Assoc(Contents(), Vu32(|value|), value);
      PutVu32(|value|);
      var ok := PutRaw(value);
      assert ok;
    }

    /** With a size the buffer is replaced, otherwise it is kept. */
    method Clear(size: Option<nat>)
      requires Valid()
      modifies this
      ensures Valid() && Contents() == [] && order == old(order)
      ensures if size.Some? then fresh(data) && data.Length == size.value else data == old(data)
    {
      length := 0;
      if size.Some? {
        Allocate(size.value);
      }
    }

    /**
     A list of calls on a writer, up to the first that raises an error: the contents are the concatenation
     of what the `n` calls before it wrote since the last clear.
     */
    method Perform(ops: seq<WriteOp>) returns (n: nat)
      requires Valid() && Contents() == []
      modifies this, data
      ensures Valid() && order == old(order) && (data == old(data) || fresh(data))
      ensures n == Carried(old(data.Length) > 0, ops) && AllFit(ops[..n])
      ensures Contents() == Written(order, ops[..n])
    {
      n := 0;
      while n < |ops|
        invariant n <= |ops| && Valid() && (data == old(data) || fresh(data)) && order == old(order)
        invariant AllFit(ops[..n]) && Contents() == Written(order, ops[..n])
        invariant Carried(old(data.Length) > 0, ops) == n + Carried(data.Length > 0, ops[n..])
      {
        CarriedStep(data.Length > 0, ops, n);
        if Raises(data.Length > 0, ops[n]) {
          return;
        }
        WrittenStep(order, ops, n);
        PerformOne(ops[n]);
        n := n + 1;
      }
    }

    method PerformOne(op: WriteOp)
      requires Valid() && !Raises(data.Length > 0, op)
      modifies this, data
      ensures Valid() && order == old(order) && (data == old(data) || fresh(data))
      ensures Contents() == WrittenThen(old(Contents()), order, op)
      ensures data.Length > 0 <==> HasBuffer(old(data.Length) > 0, op)
    {
      match op
      case PutU8(b) => PutByte(b);
      case PutU16(h) => PutHalf(h); Reverse2(Be2(h));
      case PutU32(w) => PutWord(w); Reverse4(Be4(w));
      case PutVu32(v) => PutVu32(v);
      case PutVs32(v) => PutVs32(v);
      case PutRaw(s) => var ok := PutRaw(s);
      case ClearAll(size) => Clear(size);
    }
  }

  lemma HalvesAgree(v: int)
    ensures var low, high := v % 0x1_0000, v / 0x1_0000 % 0x1_0000;
      && low % 0x100 == v % 0x100 && low / 0x100 == v / 0x100 % 0x100
      && high % 0x100 == v / 0x1_0000 % 0x100 && high / 0x100 == v / 0x100_0000 % 0x100
  {
    LowHalf(v);
    LowHalf(v / 0x1_0000);
    assert v / 0x1_0000 / 0x100 == v / 0x100_0000;
  }

  lemma LowHalf(v: int)
    ensures v % 0x1_0000 % 0x100 == v % 0x100 && v % 0x1_0000 / 0x100 == v / 0x100 % 0x100
  {
    var q, r := v / 0x1_0000, v % 0x1_0000;
    var h, b := r / 0x100, r % 0x100;
    RemainderUnique(v, 0x100, 0x100 * q + h, b);
    RemainderUnique(0x100 * q + h, 0x100, q, h);
  }

  // ---- the reader ----

  /** A length and then that many bytes. */
  function ReadString(b: bytes): (r: Reading<bytes>)
    ensures r.Got? ==> 0 < r.used <= |b|
  {
    match ReadVu32(b)
    case OutOfData => OutOfData
    case Got(len, n) => if |b| - n < len then OutOfData else Got(b[n..n + len], n + len)
  }

  lemma StringRoundTrip(s: bytes, after: bytes)
    requires |s| < TWO32
    ensures ReadString(Vu32(|s|) + s + after) == Got(s, |Vu32(|s|) + s|)
  {
    Vu32RoundTrip(|s|, s + after);
    assert Vu32(|s|) + s + after == Vu32(|s|) + (s + after);
  }

  class Reader {
    var data: bytes
    var readPtr: nat
    const order: Order

    ghost predicate Valid()
      reads this
    {
      readPtr <= |data|
    }

    /** The bytes not read yet. */
    function Rest(): (b: bytes)
      reads this
      requires Valid()
    {
      data[readPtr..]
    }

    constructor (data: bytes, order: Order)
      ensures Valid() && Rest() == data && this.order == order
    {
      this.data, readPtr, this.order := data, 0, order;
    }

    method Reset(s: bytes)
      modifies this
      ensures Valid() && Rest() == s
    {
      data, readPtr := s, 0;
    }

    /** `None` is the error "Out of data". */
    method GetByte() returns (r: Option<byte>)
      requires Valid()
      modifies this`readPtr
      ensures Valid() && readPtr >= old(readPtr)
      ensures if old(Rest()) == [] then r == None && Rest() == []
              else r == Some(old(Rest())[0]) && Rest() == old(Rest())[1..]
    {
      if |data| <= readPtr {
        return None;
      }
      r := Some(data[readPtr]);
      readPtr := readPtr + 1;
    }

    method GetHalf() returns (r: Option<nat>)
      requires Valid()
      modifies this`readPtr
      ensures Valid() && readPtr >= old(readPtr) && (r.Some? <==> |old(Rest())| >= 2)
      ensures r.Some? ==> r.value == FieldValue(order, old(Rest())[..2]) && Rest() == old(Rest())[2..]
      ensures r.None? ==> Rest() == old(Rest())
    {
      if |data| <= readPtr + 1 {
        return None;
      }
      var b := data[readPtr..readPtr + 2];
      assert b == Rest()[..2];
      r := Some(FieldValue(order, b));
      readPtr := readPtr + 2;
    }

    method GetWord() returns (r: Option<nat>)
      requires Valid()
      modifies this`readPtr
      ensures Valid() && readPtr >= old(readPtr) && (r.Some? <==> |old(Rest())| >= 4)
      ensures r.Some? ==> r.value == FieldValue(order, old(Rest())[..4]) && Rest() == old(Rest())[4..]
      ensures r.None? ==> Rest() == old(Rest())
    {
      if |data| <= readPtr + 3 {
        return None;
      }
      var b := data[readPtr..readPtr + 4];
      assert b == Rest()[..4];
      r := Some(FieldValue(order, b));
      readPtr := readPtr + 4;
    }

    /** A reader of no data has no buffer, so that even reading no bytes of it is an error. */
    method GetRaw(len: nat) returns (r: Option<bytes>)
      requires Valid()
      modifies this`readPtr
      ensures Valid() && readPtr >= old(readPtr) && (r.Some? <==> |old(Rest())| >= len && data != [])
      ensures r.Some? ==> r.value == old(Rest())[..len] && Rest() == old(Rest())[len..]
      ensures r.None? ==> Rest() == old(Rest())
    {
      if |data| <= readPtr + len - 1 || data == [] {
        return None;
      }
      r := Some(data[readPtr..readPtr + len]);
      readPtr := readPtr + len;
    }

    method GetString() returns (r: Option<bytes>)
      requires Valid()
      modifies this`readPtr
      ensures Valid() && readPtr >= old(readPtr)
      ensures match ReadString(old(Rest()))
              case OutOfData => r == None
              case Got(s, n) => r == Some(s) && Rest() == old(Rest())[n..]
    {
      ghost var b := Rest();
      var len := GetVu32();
      if len.None? { return None; }
      ghost var n := ReadVu32(b).used;
      r := GetRaw(len.value);
      if r.Some? {
        assert b[n..][..len.value] == b[n..n + len.value] && b[n..][len.value..] == b[n + len.value..];
      }
    }

    /** Cut the top bit off `v` and put the next byte above the rest. */
    method NextByte(v: nat, p: nat, ghost more: nat, ghost used: nat) returns (r: Option<nat>)
      requires Valid() && p > 0 && more > 0 && Bit(v, p)
      modifies this`readPtr
      ensures Valid() && readPtr >= old(readPtr) && (r.Some? ==> readPtr == old(readPtr) + 1)
      ensures Collect(v, old(Rest()), p, more, used) ==
              if r.None? then OutOfData else Collect(r.value, Rest(), p * 0x80, more - 1, used + 1)
    {
      var b := GetByte();
      if b.None? { return None; }
      var b0: nat := b.value;
      assert p * b0 >= 0;
      return Some(v % p + p * b0);
    }

    /** Byte by byte; each test looks at the bit its byte brought in. */
    method ScanVu32(v: nat) returns (r: Option<nat>)
      requires Valid()
      modifies this`readPtr
      ensures Valid() && readPtr >= old(readPtr) && Scanned(r, Collect(v, old(Rest()), 0x80, 4, 1), old(readPtr))
    {
      if !Bit(v, 0x80) { return Some(v); }
      var v1 := NextByte(v, 0x80, 4, 1);
      if v1.None? { return None; }
      if !Bit(v1.value, 0x4000) { return Some(v1.value); }
      var v2 := NextByte(v1.value, 0x4000, 3, 2);
      if v2.None? { return None; }
      if !Bit(v2.value, 0x20_0000) { return Some(v2.value); }
      var v3 := NextByte(v2.value, 0x20_0000, 2, 3);
      if v3.None? { return None; }
      if !Bit(v3.value, 0x1000_0000) { return Some(v3.value); }
      var v4 := NextByte(v3.value, 0x1000_0000, 1, 4);
      if v4.None? { return None; }
      return v4;
    }

    method ScanVs32(v: nat) returns (r: Option<nat>)
      requires Valid()
      modifies this`readPtr
      ensures Valid() && readPtr >= old(readPtr) && Scanned(r, Collect(v, old(Rest()), 0x40, 4, 1), old(readPtr))
    {
      if !Bit(v, 0x40) { return Some(v); }
      var v1 := NextByte(v, 0x40, 4, 1);
      if v1.None? { return None; }
      if !Bit(v1.value, 0x2000) { return Some(v1.value); }
      var v2 := NextByte(v1.value, 0x2000, 3, 2);
      if v2.None? { return None; }
      if !Bit(v2.value, 0x10_0000) { return Some(v2.value); }
      var v3 := NextByte(v2.value, 0x10_0000, 2, 3);
      if v3.None? { return None; }
      if !Bit(v3.value, 0x800_0000) { return Some(v3.value); }
      var v4 := NextByte(v3.value, 0x800_0000, 1, 4);
      if v4.None? { return None; }
      return v4;
    }

    /** A scan that began behind the first byte, at `start`, ends where the reading does. */
    ghost predicate Scanned(r: Option<nat>, goal: Reading<nat>, start: nat)
      reads this
    {
      match goal
      case OutOfData => r == None
      case Got(v, n) => r == Some(v) && readPtr + 1 == start + n
    }

    method GetVu32() returns (r: Option<nat>)
      requires Valid()
      modifies this`readPtr
      ensures Valid() && readPtr >= old(readPtr)
      ensures match ReadVu32(old(Rest()))
              case OutOfData => r == None
              case Got(v, n) => r == Some(v) && Rest() == old(Rest())[n..]
    {
      ghost var b := Rest();
      var b0 := GetByte();
      if b0.None? { return None; }
      CollectVu32(b);
      r := ScanVu32(b0.value);
      assert Rest() == b[readPtr - old(readPtr)..];
    }

    method GetVs32() returns (r: Option<int>)
      requires Valid()
      modifies this`readPtr
      ensures Valid() && readPtr >= old(readPtr)
      ensures match ReadVs32(old(Rest()))
              case OutOfData => r == None
              case Got(v, n) => r == Some(v) && Rest() == old(Rest())[n..]
    {
      ghost var b := Rest();
      var b0 := GetByte();
      if b0.None? { return None; }
      CollectVs32(b);
      var v := ScanVs32(b0.value / 2);
      if v.None? { return None; }
      assert Rest() == b[readPtr - old(readPtr)..];
      r := Some(WithSign(if b0.value % 2 == 0 then 1 else -1, v.value));
    }
  }

  function WithSign(sign: int, v: nat): (r: int) {
    sign * v
  }

  function Signed(sign: int, r: Reading<nat>): (s: Reading<int>) {
    match r
    case OutOfData => OutOfData
    case Got(v, n) => Got(WithSign(sign, v), n)
  }

  /** What the readers do: while the top bit of `v` is set, cut it off and put the next byte above the rest. */
  function Collect(v: nat, b: bytes, p: nat, more: nat, used: nat): (r: Reading<nat>)
    requires p > 0
    decreases more
  {
    if more == 0 || !Bit(v, p) then Got(v, used)
    else if b == [] then OutOfData
    else
      assert AddedByte(v % p, p, b[0]) >= 0 by { AddedBits(v % p, p, b[0]); }
      Collect(AddedByte(v % p, p, b[0]), b[1..], p * 0x80, more - 1, used + 1)
  }

  lemma {:induction false} CollectIs(low: nat, b: bytes, p: nat, more: nat, used: nat)
    requires b != [] && low < p && used > 0
    ensures AddedByte(low, p, b[0]) >= 0
    ensures Collect(AddedByte(low, p, b[0]), b[1..], p * 0x80, more, used) == Above(Ungroup(b, more), low, p, used - 1)
    decreases more
  {
    var b0: int := b[0];
    AddedBits(low, p, b0);
    var v, p' := AddedByte(low, p, b0), p * 0x80;
    if more == 0 || b0 < 0x80 || b[1..] == [] {
      CollectEnds(b, v, low, p, p', more, used);
    } else {
      var low' := NextBits(low, p, b, p');
      CollectIs(low', b[1..], p', more - 1, used + 1);
      CollectGoesOn(b, v, low, p, more, used, low', p');
    }
  }

  lemma NextBits(low: nat, p: nat, b: bytes, p': nat) returns (low': nat)
    requires |b| > 1 && low < p && b[0] >= 0x80 && AddedByte(low, p, b[0]) >= 0 && p' == p * 0x80
    ensures low' == AddedByte(low, p, b[0] - 0x80) && low' < p' && AddedByte(low', p', b[1..][0]) >= 0
    ensures var v: nat := AddedByte(low, p, b[0]); p' > 0 && Bit(v, p') && v % p' == low'
  {
    low' := TopBitOff(low, p, b[0], p');
    var b1: int := b[1];
    assert AddedByte(low', p', b1) >= 0 by { AddedBits(low', p', b1); }
  }

  lemma TopBitOff(low: nat, p: nat, b0: int, p': nat) returns (low': nat)
    requires low < p && 0x80 <= b0 < 0x100 && p' == p * 0x80
    ensures AddedByte(low, p, b0) >= 0 && low' == AddedByte(low, p, b0 - 0x80) && low' < p'
    ensures var v: nat := AddedByte(low, p, b0); Bit(v, p') && v % p' == low'
  {
    var b': int := b0 - 0x80;
    AddedBits(low, p, b');
    low' := AddedByte(low, p, b');
    AddedBits(low, p, b0);
  }

  lemma CollectGoesOn(b: bytes, v: nat, low: nat, p: nat, more: nat, used: nat, low': nat, p': nat)
    requires |b| > 1 && b[0] >= 0x80 && more > 0 && used > 0 && p' > 0
    requires Bit(v, p') && v % p' == low' && low' == AddedByte(low, p, b[0] - 0x80) && p' == p * 0x80
    requires AddedByte(low', p', b[1..][0]) >= 0
    requires Collect(AddedByte(low', p', b[1..][0]), b[1..][1..], p' * 0x80, more - 1, used + 1)
          == Above(Ungroup(b[1..], more - 1), low', p', used)
    ensures Collect(v, b[1..], p', more, used) == Above(Ungroup(b, more), low, p, used - 1)
  {
    CollectStep(v, b[1..], p', more, used, low');
    AboveStep(b, more, low, p, used - 1);
  }

  lemma CollectEnds(b: bytes, v: nat, low: nat, p: nat, p': nat, more: nat, used: nat)
    requires b != [] && p' > 0 && used > 0 && v == AddedByte(low, p, b[0]) && (Bit(v, p') <==> b[0] >= 0x80)
    requires more == 0 || b[0] < 0x80 || b[1..] == []
    ensures Collect(v, b[1..], p', more, used) == Above(Ungroup(b, more), low, p, used - 1)
  {
  }

  lemma CollectStep(v: nat, b: bytes, p: nat, more: nat, used: nat, low: nat)
    requires p > 0 && more > 0 && Bit(v, p) && b != [] && v % p == low && AddedByte(low, p, b[0]) >= 0
    ensures Collect(v, b, p, more, used) == Collect(AddedByte(low, p, b[0]), b[1..], p * 0x80, more - 1, used + 1)
  {
  }

  function AddedByte(low: nat, p: nat, b0: int): (v: int) {
    low + p * b0
  }

  lemma CollectVu32(b: bytes)
    requires b != []
    ensures ReadVu32(b) == Collect(b[0] as int, b[1..], 0x80, 4, 1)
  {
    CollectIs(0, b, 1, 4, 1);
  }

  lemma CollectVs32(b: bytes)
    requires b != []
    ensures ReadVs32(b) == Signed(if b[0] % 2 == 0 then 1 else -1, Collect(b[0] / 2, b[1..], 0x40, 4, 1))
  {
    var b0: int := b[0];
    var rest := b[1..];
    var v := b0 / 2;
    assert Bit(v, 0x40) <==> b0 >= 0x80;
    if b0 >= 0x80 && rest != [] {
      CollectIs(v % 0x40, rest, 0x40, 3, 2);
      assert Collect(v, rest, 0x40, 4, 1) == Above(Ungroup(rest, 3), v % 0x40, 0x40, 1);
    }
  }

  lemma AddedBits(low: nat, p: nat, b0: int)
    requires low < p && 0 <= b0 < 0x100
    ensures var v := AddedByte(low, p, b0);
      && 0 <= v && (Bit(v, p * 0x80) <==> b0 >= 0x80)
      && v % (p * 0x80) == AddedByte(low, p, b0 % 0x80) && (b0 < 0x80 ==> v < p * 0x80)
  {
    SplitProduct(p, b0);
    RemainderUnique(low + p * b0, p * 0x80, b0 / 0x80, low + p * (b0 % 0x80));
  }

  lemma SplitProduct(p: nat, b0: int)
    requires 0 <= b0 < 0x100
    ensures p * b0 == b0 / 0x80 * (p * 0x80) + p * (b0 % 0x80)
    ensures 0 <= p * (b0 % 0x80) <= p * 0x7F
  {
    var r := if b0 < 0x80 then b0 else b0 - 0x80;
    assert b0 % 0x80 == r && b0 / 0x80 == if b0 < 0x80 then 0 else 1;
    SumOfProducts(p, r, 0x7F - r);
    SumOfProducts(p, r, 0x80);
  }

  lemma SumOfProducts(p: nat, a: nat, b: nat)
    ensures p * (a + b) == p * a + p * b && p * a >= 0 && p * b >= 0
  {
  }

  /** `band(v, p) ~= 0` for a power of two `p`. */
  predicate Bit(v: nat, p: nat)
    requires p > 0
  {
    v / p % 2 == 1
  }

  /** The rest of a number, `k` bytes and `p == 128^k` further on, over the low part `low`. */
  function Above(r: Reading<nat>, low: nat, p: nat, k: nat): (s: Reading<int>) {
    match r
    case OutOfData => OutOfData
    case Got(v, n) => Got(low + p * v, n + k)
  }

  lemma AboveStep(b: bytes, more: nat, low: nat, p: nat, k: nat)
    requires b != [] && b[0] >= 0x80 && more > 0 && AddedByte(low, p, b[0] - 0x80) >= 0
    ensures Above(Ungroup(b, more), low, p, k)
         == Above(Ungroup(b[1..], more - 1), AddedByte(low, p, b[0] - 0x80), p * 0x80, k + 1)
  {
    match Ungroup(b[1..], more - 1)
    case OutOfData =>
    case Got(v, n) =>
      var b0: int := b[0];
      assert p * (b0 - 0x80 + 0x80 * v) == p * (b0 - 0x80) + p * 0x80 * v;
  }
}
