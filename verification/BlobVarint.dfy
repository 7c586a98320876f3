/** Variable-length integers of the blob format: seven bits a byte, least significant first. */
module BlobVarint {
  import opened Bytes

  const TWO31 := 0x8000_0000

  datatype Reading<+T> = Got(value: T, used: nat) | OutOfData

  // ---- unsigned ----

  /**
   The bytes of `v`, of which `more` may carry a continuation bit. Numbers below zero pass the writer's
   limit check and leave as their low seven bits.
   */
  function Groups(v: int, more: nat): (b: bytes)
    requires more > 0 ==> v < 0x80 * Pow128(more)
    requires more == 0 ==> 0 <= v < 0x100
    ensures b != []
    decreases more
  {
    if more == 0 then [v]
    else if v < 0x80 then [v % 0x80]
    else [v % 0x80 + 0x80] + Groups(v / 0x80, more - 1)
  }

  function Pow128(k: nat): (p: nat)
    ensures p > 0
  {
    if k == 0 then 1 else 0x80 * Pow128(k - 1)
  }

  lemma Powers128()
    ensures Pow128(1) == 0x80 && Pow128(2) == 0x4000 && Pow128(3) == 0x20_0000 && Pow128(4) == 0x1000_0000
  {
    assert Pow128(3) == 0x80 * Pow128(2);
  }

  function Vu32(v: int): (b: bytes)
    requires v < TWO32
  {
    Powers128();
    Groups(v, 4)
  }

  /** Reading stops at the first byte without its high bit, or takes all eight bits of the last one. */
  function Ungroup(b: bytes, more: nat): (r: Reading<nat>)
    ensures r.Got? ==> 0 < r.used <= |b|
    decreases more
  {
    if b == [] then OutOfData else
    var b0: int := b[0];
    if more == 0 || b0 < 0x80 then Got(b0, 1) else
    match Ungroup(b[1..], more - 1)
    case OutOfData => OutOfData
    case Got(v, n) => Got(b0 - 0x80 + 0x80 * v, n + 1)
  }

  function ReadVu32(b: bytes): (r: Reading<nat>)
    ensures r.Got? ==> 0 < r.used <= |b|
  {
    Ungroup(b, 4)
  }

  lemma {:induction false} GroupsRoundTrip(v: int, more: nat, t: bytes)
    requires 0 <= v && (more > 0 ==> v < 0x80 * Pow128(more)) && (more == 0 ==> v < 0x100)
    ensures Ungroup(Groups(v, more) + t, more) == Got(v, |Groups(v, more)|)
    ensures forall k :: 0 <= k < |Groups(v, more)| ==> Ungroup(Groups(v, more)[..k], more) == OutOfData
    decreases more
  {
    var b := Groups(v, more);
    if more > 0 && v >= 0x80 {
      GroupsRoundTrip(v / 0x80, more - 1, t);
      var b' := Groups(v / 0x80, more - 1);
      assert (b + t)[1..] == b' + t;
      forall k | 0 <= k < |b| ensures Ungroup(b[..k], more) == OutOfData {
        if k > 0 {
          assert b[..k][1..] == b'[..k - 1];
        }
      }
    }
  }

  /** Every number from 0 to 2^32 - 1, and no other, comes back, from exactly the bytes written. */
  lemma Vu32RoundTrip(v: int, t: bytes)
    requires v < TWO32
    ensures ReadVu32(Vu32(v) + t) == Got(v, |Vu32(v)|) <==> v >= 0
    ensures v >= 0 ==> forall k :: 0 <= k < |Vu32(v)| ==> ReadVu32(Vu32(v)[..k]) == OutOfData
  {
    Powers128();
    if v >= 0 {
      GroupsRoundTrip(v, 4, t);
    } else {
      assert (Vu32(v) + t)[0] == v % 0x80;
    }
  }

  function Vu32Size(v: int): (n: nat)
    requires v < TWO32
  {
    if v < 0x80 then 1 else if v < 0x4000 then 2 else if v < 0x20_0000 then 3 else if v < 0x1000_0000 then 4 else 5
  }

  lemma Vu32SizeRight(v: int)
    requires v < TWO32
    ensures Vu32Size(v) == |Vu32(v)|
  {
    Powers128();
    var a, c, d := v / 0x80, v / 0x4000, v / 0x20_0000;
    assert a / 0x80 == c && c / 0x80 == d;
    assert |Groups(v, 4)| == if v < 0x80 then 1 else 1 + |Groups(a, 3)|;
    if v >= 0x80 {
      assert |Groups(a, 3)| == if a < 0x80 then 1 else 1 + |Groups(c, 2)|;
      if a >= 0x80 {
        assert |Groups(c, 2)| == if c < 0x80 then 1 else 1 + |Groups(d, 1)|;
      }
    }
  }

  // ---- signed: the lowest bit of the first byte is the sign ----

  function Abs(v: int): (a: nat) {
    if v < 0 then -v else v
  }

  function Vs32(v: int): (b: bytes)
    requires -TWO31 <= v < TWO31
  {
    Powers128();
    var a, sign := Abs(v), if v < 0 then 1 else 0;
    if a < 0x40 then [a * 2 + sign] else [a % 0x40 * 2 + sign + 0x80] + Groups(a / 0x40, 3)
  }

  function ReadVs32(b: bytes): (r: Reading<int>)
    ensures r.Got? ==> 0 < r.used <= |b|
  {
    if b == [] then OutOfData else
    var b0: int := b[0];
    var sign := if b0 % 2 == 0 then 1 else -1;
    if b0 < 0x80 then Got(sign * (b0 / 2), 1) else
    match Ungroup(b[1..], 3)
    case OutOfData => OutOfData
    case Got(v, n) => Got(sign * (b0 / 2 % 0x40 + 0x40 * v), n + 1)
  }

  lemma Vs32RoundTrip(v: int, t: bytes)
    requires -TWO31 <= v < TWO31
    ensures ReadVs32(Vs32(v) + t) == Got(v, |Vs32(v)|)
    ensures forall k :: 0 <= k < |Vs32(v)| ==> ReadVs32(Vs32(v)[..k]) == OutOfData
  {
    Powers128();
    var a, b := Abs(v), Vs32(v);
    if a >= 0x40 {
      GroupsRoundTrip(a / 0x40, 3, t);
      assert (b + t)[1..] == Groups(a / 0x40, 3) + t;
      forall k | 0 <= k < |b| ensures ReadVs32(b[..k]) == OutOfData {
        Vs32Cut(b, Groups(a / 0x40, 3), k);
      }
    }
  }

  lemma Vs32Cut(b: bytes, more: bytes, k: nat)
    requires k < |b| && b[0] >= 0x80 && b[1..] == more
    requires forall j :: 0 <= j < |more| ==> Ungroup(more[..j], 3) == OutOfData
    ensures ReadVs32(b[..k]) == OutOfData
  {
    if k > 0 {
      assert b[..k][1..] == more[..k - 1];
    }
  }

  function Vs32Size(v: int): (n: nat)
    requires -TWO31 <= v < TWO31
  {
    var a := Abs(v) + 1;
    if a < 0x80 then 1 else if a < 0x4000 then 2 else if a < 0x20_0000 then 3 else if a < 0x1000_0000 then 4 else 5
  }

  predicate Between(lo: int, a: int, hi: int) {
    lo <= a < hi
  }

  /** The announced size of a signed number is its size except in four ranges, where it is one too small. */
  lemma Vs32SizeExactly(v: int)
    requires -TWO31 <= v < TWO31
    ensures var a := Abs(v);
      var off := || Between(0x40, a, 0x7F) || Between(0x2000, a, 0x3FFF)
                 || Between(0x10_0000, a, 0x1F_FFFF) || Between(0x800_0000, a, 0xFFF_FFFF);
      |Vs32(v)| == Vs32Size(v) + if off then 1 else 0
  {
    Powers128();
    var a := Abs(v);
    var b, c, d := a / 0x40, a / 0x2000, a / 0x10_0000;
    assert b / 0x80 == c && c / 0x80 == d;
    if a >= 0x40 {
      assert |Groups(b, 3)| == if b < 0x80 then 1 else 1 + |Groups(c, 2)|;
      if b >= 0x80 {
        assert |Groups(c, 2)| == if c < 0x80 then 1 else 1 + |Groups(d, 1)|;
      }
    }
  }

  // ---- in plain numbers ----

  lemma VarintBytes()
    ensures Vu32(0x7F) == [0x7F] && Vu32(300) == [0xAC, 0x02]
    ensures Vu32(0xFFFF_FFFF) == [0xFF, 0xFF, 0xFF, 0xFF, 0x0F]
    ensures Vs32(-1) == [0x03] && Vs32(300) == [0xD8, 0x04] && Vs32(-300) == [0xD9, 0x04]
  {
    assert Groups(300, 4) == [0xAC] + Groups(2, 3);
    assert Groups(0xFFFF_FFFF, 4) == [0xFF] + Groups(0x1FF_FFFF, 3);
    assert Groups(0x1FF_FFFF, 3) == [0xFF] + Groups(0x3_FFFF, 2);
    assert Groups(0x3_FFFF, 2) == [0xFF] + Groups(0x7FF, 1) && Groups(0x7FF, 1) == [0xFF] + Groups(0x0F, 0);
    assert Groups(4, 3) == [4];
  }
}
