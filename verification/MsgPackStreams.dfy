/** What iterating over a byte string yields: the values of the encodings it consists of, in their order. */
module MsgPackStreams {
  import opened Bytes
  import opened Floats
  import opened MsgPack
  import opened MsgPackLaws
  import opened MsgPackRoundTrip

  /** Byte strings that are one encoding each, of the values `vs`. */
  predicate Encodings(us: seq<bytes>, vs: seq<Value>) {
    |us| == |vs| && forall i :: 0 <= i < |us| ==> Unpack(us[i]) == Ok(vs[i], [])
  }

  /** What no value can be read from: nothing, or an error. */
  predicate Unreadable(tail: bytes) {
    tail == [] || Decode(tail).Fail?
  }

  function EndOf(tail: bytes): (e: Option<Error>)
    requires Unreadable(tail)
  {
    if tail == [] then None else Some(Decode(tail).error)
  }

  /** One encoding in front of anything is read first, and the rest is left. */
  lemma FirstIsRead(u: bytes, v: Value, t: bytes)
    requires Unpack(u) == Ok(v, [])
    ensures u != [] && Decode(u + t) == Ok(v, t)
  {
    DecodeLocal(u, t);
    assert [] + t == t;
  }

  /** Encodings one after the other, and what cannot be read: their values in order, and the error at the end. */
  lemma {:induction false} YieldsInOrder(us: seq<bytes>, vs: seq<Value>, tail: bytes)
    requires Encodings(us, vs) && Unreadable(tail)
    ensures DecodeAll(Flatten(us) + tail) == (vs, EndOf(tail))
    decreases |us|
  {
    if us == [] {
      assert Flatten(us) + tail == tail;
    } else {
      var b := Flatten(us[1..]) + tail;
      assert Unpack(us[0]) == Ok(vs[0], []);
      forall i | 0 <= i < |us[1..]| ensures Unpack(us[1..][i]) == Ok(vs[1..][i], []) {
        assert us[1..][i] == us[i + 1];
      }
      YieldsInOrder(us[1..], vs[1..], tail);
      FirstIsRead(us[0], vs[0], b);
      Assoc(us[0], Flatten(us[1..]), tail);
      assert vs == [vs[0]] + vs[1..];
    }
  }

  /** Every byte string is made up so: encodings, and what cannot be read. */
  lemma {:induction false} Splits(s: bytes) returns (us: seq<bytes>, vs: seq<Value>, tail: bytes)
    ensures Encodings(us, vs) && Unreadable(tail) && s == Flatten(us) + tail
    ensures DecodeAll(s) == (vs, EndOf(tail))
    decreases |s|
  {
    if Unreadable(s) {
      us, vs, tail := [], [], s;
      assert Flatten(us) + tail == s;
    } else {
      var v, rest := Decode(s).value, Decode(s).rest;
      var u := DecodeConsumes(s);
      var us', vs', left := Splits(rest);
      tail := left;
      us, vs := [u] + us', [v] + vs';
      FlattenCons(u, us');
      Assoc(u, Flatten(us'), tail);
    }
    YieldsInOrder(us, vs, tail);
  }

  // ---- packed values ----

  function PackedAll(cfg: Settings, vs: seq<Value>): (us: seq<bytes>)
    requires forall i :: 0 <= i < |vs| ==> Pack(cfg, vs[i]).Some?
    ensures |us| == |vs| && forall i :: 0 <= i < |us| ==> us[i] == Pack(cfg, vs[i]).value
  {
    seq(|vs|, i requires 0 <= i < |vs| => Pack(cfg, vs[i]).value)
  }

  /** Packed values one after the other come back one by one, in order, and each means what it did if faithful. */
  lemma PackedInOrder(cfg: Settings, vs: seq<Value>)
    requires Known(cfg.numbers)
    requires forall i :: 0 <= i < |vs| ==> WellFormed(vs[i]) && Pack(cfg, vs[i]).Some?
    ensures var (ws, e) := DecodeAll(Flatten(PackedAll(cfg, vs)));
      && e == None && |ws| == |vs|
      && forall i :: 0 <= i < |vs| ==> (Meaning(ws[i]) == Meaning(vs[i]) <==> Faithful(cfg, vs[i]))
  {
    var us := PackedAll(cfg, vs);
    var ws := seq(|vs|, i requires 0 <= i < |vs| => Unpacked(cfg, vs[i]));
    forall i | 0 <= i < |vs|
      ensures Unpack(us[i]) == Ok(ws[i], [])
      ensures Meaning(ws[i]) == Meaning(vs[i]) <==> Faithful(cfg, vs[i])
    {
      DecodePacked(cfg, vs[i], []);
      assert Pack(cfg, vs[i]).value + [] == Pack(cfg, vs[i]).value;
      MeaningSurvives(cfg, vs[i]);
    }
    YieldsInOrder(us, ws, []);
    assert Flatten(us) + [] == Flatten(us);
  }
}
