/** Bytes, byte strings and the fixed-width big-endian fields shared by every wire format. */
module Bytes {
  type byte = x: int | 0 <= x < 0x100
  type bytes = seq<byte>

  const TWO32 := 0x1_0000_0000

  datatype Option<+T> = None | Some(value: T)

  // The field writers of the sources, spelled out byte by byte.

  function Be2(n: int): (b: bytes) {
    [n / 0x100 % 0x100, n % 0x100]
  }

  function Be4(n: int): (b: bytes) {
    [n / 0x1000000 % 0x100, n / 0x10000 % 0x100, n / 0x100 % 0x100, n % 0x100]
  }

  function Pow256(k: nat): (p: nat)
    ensures p > 0
  {
    if k == 0 then 1 else 0x100 * Pow256(k - 1)
  }

  /** The low `k` bytes of `n`, most significant first, in two's complement when `n` is negative. */
  function ToBe(n: int, k: nat): (b: bytes)
    ensures |b| == k
    decreases k
  {
    if k == 0 then [] else ToBe(n / 0x100, k - 1) + [n % 0x100]
  }

  /** The unsigned value of a byte string, accumulated from the left. */
  function FromBe(b: bytes): (n: nat) {
    if b == [] then 0 else 0x100 * FromBe(b[..|b| - 1]) + b[|b| - 1]
  }

  lemma Be2IsToBe(n: int)
    ensures Be2(n) == ToBe(n, 2)
  {
    assert ToBe(n, 2) == ToBe(n / 0x100 / 0x100, 0) + [n / 0x100 % 0x100] + [n % 0x100];
  }

  lemma Be4IsToBe(n: int)
    ensures Be4(n) == ToBe(n, 4)
  {
    var a := n / 0x100;
    Be2IsToBe(a / 0x100);
    assert a / 0x100 == n / 0x10000 && a / 0x100 / 0x100 == n / 0x1000000;
    assert ToBe(n, 4) == ToBe(a / 0x100, 2) + [a % 0x100] + [n % 0x100];
  }

  /** Most significant byte first. */
  lemma BigEndian()
    ensures Be2(0x102) == [1, 2] && FromBe([1, 2]) == 0x102
    ensures Be4(0x1020304) == [1, 2, 3, 4] && FromBe([1, 2, 3, 4]) == 0x1020304
  {
    var b: bytes := [1, 2, 3, 4];
    assert b[..3] == [1, 2, 3] && b[..3][..2] == [1, 2] && b[..3][..2][..1] == [1] && b[..3][..2][..1][..0] == [];
    assert FromBe(b) == 0x100 * FromBe(b[..3]) + 4 && FromBe(b[..3]) == 0x100 * FromBe(b[..3][..2]) + 3;
    assert FromBe([1, 2]) == 0x100 * FromBe([1]) + 2 && FromBe([1]) == 0x100 * FromBe([]) + 1;
  }

  /** Reading back `k` bytes gives the number modulo 256^k. */
  lemma {:induction false} FromToBe(n: int, k: nat)
    ensures 0 <= FromBe(ToBe(n, k)) < Pow256(k)
    ensures exists q: int :: n == q * Pow256(k) + FromBe(ToBe(n, k))
    decreases k
  {
    if k == 0 {
      assert n == n * Pow256(0) + FromBe(ToBe(n, 0));
    } else {
      var m := n / 0x100;
      FromToBe(m, k - 1);
      var q :| m == q * Pow256(k - 1) + FromBe(ToBe(m, k - 1));
      assert FromBe(ToBe(n, k)) == 0x100 * FromBe(ToBe(m, k - 1)) + n % 0x100 by {
        assert ToBe(n, k)[..k - 1] == ToBe(m, k - 1);
      }
      OneByteMore(m, q, Pow256(k - 1), FromBe(ToBe(m, k - 1)), n % 0x100);
      assert n == q * Pow256(k) + FromBe(ToBe(n, k));
    }
  }

  lemma OneByteMore(m: int, q: int, p: int, r: int, d: int)
    requires m == q * p + r
    ensures 0x100 * m + d == q * (0x100 * p) + (0x100 * r + d)
  {
  }

  lemma FromToBeMod(n: int, k: nat)
    ensures FromBe(ToBe(n, k)) == n % Pow256(k)
  {
    FromToBe(n, k);
    var q :| n == q * Pow256(k) + FromBe(ToBe(n, k));
    RemainderUnique(n, Pow256(k), q, FromBe(ToBe(n, k)));
  }

  lemma RemainderUnique(n: int, p: int, q: int, r: int)
    requires p > 0 && 0 <= r < p && n == q * p + r
    ensures n / p == q && n % p == r
  {
    assert n == n / p * p + n % p;
    assert (q - n / p) * p == n % p - r;
    MultipleBounds(q - n / p, p);
  }

  lemma MultipleBounds(q: int, p: int)
    requires p > 0
    ensures q >= 1 ==> q * p >= p
    ensures q <= -1 ==> q * p <= -p
  {
    if q >= 1 {
      assert (q - 1) * p >= 0;
    } else {
      assert q <= -1 ==> (q + 1) * p <= 0;
    }
  }

  /** A byte string is determined by its length and its value. */
  lemma {:induction false} ToFromBe(b: bytes)
    ensures FromBe(b) < Pow256(|b|)
    ensures ToBe(FromBe(b), |b|) == b
  {
    if b != [] {
      var init, last := b[..|b| - 1], b[|b| - 1];
      ToFromBe(init);
      assert FromBe(b) == 0x100 * FromBe(init) + last;
      assert FromBe(b) / 0x100 == FromBe(init) && FromBe(b) % 0x100 == last;
      assert b == init + [last];
    }
  }

  /** Six and seven low bytes, as the double and 64-bit integer packers spell them. */
  function Be6(n: int): (b: bytes) {
    [n / 0x100_0000_0000 % 0x100, n / 0x1_0000_0000 % 0x100, n / 0x100_0000 % 0x100,
     n / 0x1_0000 % 0x100, n / 0x100 % 0x100, n % 0x100]
  }

  function Be7(n: int): (b: bytes) {
    [n / 0x1_0000_0000_0000 % 0x100] + Be6(n)
  }

  lemma Be7IsToBe(n: int)
    ensures Be6(n) == ToBe(n, 6) && Be7(n) == ToBe(n, 7)
  {
    var a, c, d, e := n / 0x100, n / 0x1_0000, n / 0x100_0000, n / 0x1_0000_0000;
    var f, g := n / 0x100_0000_0000, n / 0x1_0000_0000_0000;
    assert a / 0x100 == c && c / 0x100 == d && d / 0x100 == e && e / 0x100 == f && f / 0x100 == g;
    assert ToBe(f, 1) == [f % 0x100] && ToBe(f, 2) == [g % 0x100, f % 0x100] by {
      assert ToBe(g, 1) == [g % 0x100];
    }
    assert ToBe(e, 2) == [f % 0x100, e % 0x100] && ToBe(e, 3) == [g % 0x100, f % 0x100, e % 0x100];
    assert ToBe(d, 3) == ToBe(e, 2) + [d % 0x100] && ToBe(d, 4) == ToBe(e, 3) + [d % 0x100];
    assert ToBe(c, 4) == ToBe(d, 3) + [c % 0x100] && ToBe(c, 5) == ToBe(d, 4) + [c % 0x100];
    assert ToBe(a, 5) == ToBe(c, 4) + [a % 0x100] && ToBe(a, 6) == ToBe(c, 5) + [a % 0x100];
    assert ToBe(n, 6) == ToBe(a, 5) + [n % 0x100] && ToBe(n, 7) == ToBe(a, 6) + [n % 0x100];
  }

  lemma Powers()
    ensures Pow256(1) == 0x100 && Pow256(2) == 0x1_0000 && Pow256(4) == 0x1_0000_0000
    ensures Pow256(6) == 0x1_0000_0000_0000 && Pow256(7) == 0x100_0000_0000_0000
    ensures Pow256(8) == 0x1_0000_0000_0000_0000
  {
    assert Pow256(3) == 0x100_0000;
    assert Pow256(5) == 0x100 * Pow256(4) && Pow256(6) == 0x100 * Pow256(5) && Pow256(7) == 0x100 * Pow256(6);
  }

  lemma Be4RoundTrip(n: int)
    requires 0 <= n < 0x1_0000_0000
    ensures FromBe(Be4(n)) == n
  {
    Be4IsToBe(n);
    Powers();
    FromToBeMod(n, 4);
  }

  lemma Be4OfFromBe(b: bytes)
    requires |b| == 4
    ensures FromBe(b) < 0x1_0000_0000 && Be4(FromBe(b)) == b
  {
    Powers();
    ToFromBe(b);
    Be4IsToBe(FromBe(b));
  }

  lemma Assoc<T>(a: seq<T>, b: seq<T>, c: seq<T>)
    ensures a + b + c == a + (b + c)
  {
  }

  function Flatten(chunks: seq<bytes>): (b: bytes) {
    if chunks == [] then [] else chunks[0] + Flatten(chunks[1..])
  }

  lemma {:induction false} FlattenAppend(a: seq<bytes>, b: seq<bytes>)
    ensures Flatten(a + b) == Flatten(a) + Flatten(b)
  {
    if a == [] {
      assert a + b == b;
    } else {
      assert (a + b)[1..] == a[1..] + b;
      FlattenAppend(a[1..], b);
    }
  }

  lemma FlattenCons(c: bytes, rest: seq<bytes>)
    ensures Flatten([c] + rest) == c + Flatten(rest)
  {
    assert ([c] + rest)[1..] == rest;
  }

  lemma FlattenPush(a: seq<bytes>, c: bytes)
    ensures Flatten(a + [c]) == Flatten(a) + c
  {
    FlattenAppend(a, [c]);
    assert Flatten([c]) == c;
  }
}
