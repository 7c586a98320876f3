/**
 Serialising tables that may share and contain each other: the writer unfolds a graph of tables into a
 tree and fails on cycles; the reader rebuilds that tree.
 */
module BlobTables {
  import opened Bytes
  import opened BlobVarint
  import opened BlobBuffers

  type Ref = nat

  /** Integers that take a 32-bit tag. */
  type Int32 = n: int | -TWO31 <= n < TWO32

  datatype Val = Bool(b: bool) | Num(n: Int32) | Str(s: bytes) | Tab(ref: Ref) | Func | Other

  datatype Pair = Pair(key: Val, value: Val)

  /** The tables of a heap, each as the pairs `pairs` visits, in that order. */
  type Graph = map<Ref, seq<Pair>>

  predicate InGraph(g: Graph, v: Val) {
    v.Tab? ==> v.ref in g
  }

  predicate Closed(g: Graph) {
    forall r, i :: r in g && 0 <= i < |g[r]| ==> InGraph(g, g[r][i].key) && InGraph(g, g[r][i].value)
  }

  datatype Tree = TBool(b: bool) | TNum(n: int) | TStr(s: bytes) | TTable(stores: Stores)

  /** What is stored in a table, in the order it is stored. */
  datatype Stores = Empty | Store(key: Tree, value: Tree, rest: Stores)

  datatype Failure = Cycle | Unsupported | TooLong

  datatype Result<+T> = Ok(value: T) | Fail(failure: Failure)

  // ---- the tree a value unfolds to, as the writer walks it ----

  function Unfold(g: Graph, v: Val, stack: set<Ref>): (t: Result<Tree>)
    requires Closed(g) && InGraph(g, v)
    decreases g.Keys - stack, 0, 1
  {
    match v
    case Bool(b) => Ok(TBool(b))
    case Num(n) => Ok(TNum(n))
    case Str(s) => if |s| < TWO32 then Ok(TStr(s)) else Fail(TooLong)
    case Tab(r) => UnfoldTable(g, r, stack)
    case Func => Fail(Unsupported)
    case Other => Fail(Unsupported)
  }

  /** `stack` holds the tables on the way here. */
  function UnfoldTable(g: Graph, r: Ref, stack: set<Ref>): (t: Result<Tree>)
    requires Closed(g) && r in g
    ensures t.Ok? ==> t.value.TTable?
    decreases g.Keys - stack, 0, 0
  {
    if r in stack then Fail(Cycle) else
    assert g.Keys - (stack + {r}) < g.Keys - stack by { assert r in g.Keys - stack; }
    match UnfoldPairs(g, g[r], stack + {r})
    case Fail(f) => Fail(f)
    case Ok(ss) => Ok(TTable(ss))
  }

  /** Pairs whose value is a function are skipped. */
  function UnfoldPairs(g: Graph, ps: seq<Pair>, stack: set<Ref>): (ss: Result<Stores>)
    requires Closed(g) && forall i :: 0 <= i < |ps| ==> InGraph(g, ps[i].key) && InGraph(g, ps[i].value)
    decreases g.Keys - stack, |ps| + 1, 0
  {
    if ps == [] then Ok(Empty)
    else if ps[0].value.Func? then UnfoldPairs(g, ps[1..], stack)
    else match UnfoldPair(g, ps[0], stack)
    case Fail(f) => Fail(f)
    case Ok((k, v)) => Prepended(k, v, UnfoldPairs(g, ps[1..], stack))
  }

  function Prepended(k: Tree, v: Tree, r: Result<Stores>): (ss: Result<Stores>) {
    match r
    case Fail(f) => Fail(f)
    case Ok(rest) => Ok(Store(k, v, rest))
  }

  function UnfoldPair(g: Graph, p: Pair, stack: set<Ref>): (s: Result<(Tree, Tree)>)
    requires Closed(g) && InGraph(g, p.key) && InGraph(g, p.value)
    decreases g.Keys - stack, 0, 2
  {
    match Unfold(g, p.key, stack)
    case Fail(f) => Fail(f)
    case Ok(k) =>
      match Unfold(g, p.value, stack)
      case Fail(f) => Fail(f)
      case Ok(v) => Ok((k, v))
  }

  // ---- what the tree shows ----

  /**
   A tree stands for a value of the graph: a boolean, a number and a string for itself, and a table for one whose
   stores are, in order, its pairs whose value is no function.
   */
  predicate Shows(g: Graph, v: Val, t: Tree)
    decreases t
  {
    match t
    case TBool(b) => v == Bool(b)
    case TNum(n) => v.Num? && v.n == n
    case TStr(s) => v == Str(s)
    case TTable(ss) => v.Tab? && v.ref in g && ShowsPairs(g, g[v.ref], ss)
  }

  predicate ShowsPairs(g: Graph, ps: seq<Pair>, ss: Stores)
    decreases ss, |ps|
  {
    if ps == [] then ss == Empty
    else if ps[0].value == Func then ShowsPairs(g, ps[1..], ss)
    else ss.Store? && Shows(g, ps[0].key, ss.key) && Shows(g, ps[0].value, ss.value) && ShowsPairs(g, ps[1..], ss.rest)
  }

  /** What is unfolded stands for the value. */
  lemma {:induction false} UnfoldShows(g: Graph, v: Val, stack: set<Ref>)
    requires Closed(g) && InGraph(g, v) && Unfold(g, v, stack).Ok?
    ensures Shows(g, v, Unfold(g, v, stack).value)
    decreases g.Keys - stack, 0, 0
  {
    if v.Tab? {
      assert g.Keys - (stack + {v.ref}) < g.Keys - stack by { assert v.ref in g.Keys - stack; }
      UnfoldPairsShow(g, g[v.ref], stack + {v.ref});
    }
  }

  lemma {:induction false} UnfoldPairsShow(g: Graph, ps: seq<Pair>, stack: set<Ref>)
    requires Closed(g) && forall i :: 0 <= i < |ps| ==> InGraph(g, ps[i].key) && InGraph(g, ps[i].value)
    requires UnfoldPairs(g, ps, stack).Ok?
    ensures ShowsPairs(g, ps, UnfoldPairs(g, ps, stack).value)
    decreases g.Keys - stack, |ps| + 1, 0
  {
    if ps != [] {
      UnfoldPairsShow(g, ps[1..], stack);
      if !ps[0].value.Func? {
        UnfoldShows(g, ps[0].key, stack);
        UnfoldShows(g, ps[0].value, stack);
      }
    }
  }

  /** Only one tree stands for a value. */
  lemma {:induction false} ShownOnce(g: Graph, v: Val, t: Tree, u: Tree)
    requires Shows(g, v, t) && Shows(g, v, u)
    ensures t == u
    decreases t
  {
    if v.Tab? {
      PairsShownOnce(g, g[v.ref], t.stores, u.stores);
    }
  }

  lemma {:induction false} PairsShownOnce(g: Graph, ps: seq<Pair>, ss: Stores, us: Stores)
    requires ShowsPairs(g, ps, ss) && ShowsPairs(g, ps, us)
    ensures ss == us
    decreases ss, |ps|
  {
    if ps != [] {
      if ps[0].value == Func {
        PairsShownOnce(g, ps[1..], ss, us);
      } else {
        ShownOnce(g, ps[0].key, ss.key, us.key);
        ShownOnce(g, ps[0].value, ss.value, us.value);
        PairsShownOnce(g, ps[1..], ss.rest, us.rest);
      }
    }
  }

  // ---- when unfolding fails ----

  /** A pair that is written leads to the tables in it. */
  predicate LeadsTo(p: Pair, b: Ref) {
    !p.value.Func? && (p.key == Tab(b) || p.value == Tab(b))
  }

  predicate Edge(g: Graph, a: Ref, b: Ref)
    requires a in g
  {
    exists i :: 0 <= i < |g[a]| && LeadsTo(g[a][i], b)
  }

  predicate IsPath(g: Graph, p: seq<Ref>) {
    && p != [] && (forall i :: 0 <= i < |p| ==> p[i] in g)
    && forall i :: 0 <= i < |p| - 1 ==> Edge(g, p[i], p[i + 1])
  }

  predicate Repeats(p: seq<Ref>) {
    exists i, j :: 0 <= i < j < |p| && p[i] == p[j]
  }

  predicate Bad(v: Val) {
    v.Func? || v.Other? || (v.Str? && |v.s| >= TWO32)
  }

  /** A table with a written pair that has no encoding of its own. */
  predicate BadAt(g: Graph, a: Ref)
    requires a in g
  {
    exists i :: 0 <= i < |g[a]| && !g[a][i].value.Func? && (Bad(g[a][i].key) || Bad(g[a][i].value))
  }

  ghost predicate CycleReachable(g: Graph, r: Ref) {
    exists p :: IsPath(g, p) && p[0] == r && Repeats(p)
  }

  ghost predicate BadReachable(g: Graph, r: Ref) {
    exists p :: IsPath(g, p) && p[0] == r && BadAt(g, p[|p| - 1])
  }

  lemma {:induction false} PairsFail(g: Graph, ps: seq<Pair>, stack: set<Ref>) returns (i: nat)
    requires Closed(g) && forall i :: 0 <= i < |ps| ==> InGraph(g, ps[i].key) && InGraph(g, ps[i].value)
    requires UnfoldPairs(g, ps, stack).Fail?
    ensures i < |ps| && !ps[i].value.Func? && UnfoldPair(g, ps[i], stack) == Fail(UnfoldPairs(g, ps, stack).failure)
    decreases |ps|
  {
    if ps[0].value.Func? || UnfoldPair(g, ps[0], stack).Ok? {
      var j := PairsFail(g, ps[1..], stack);
      i := j + 1;
    } else {
      i := 0;
    }
  }

  lemma {:induction false} PairsSucceed(g: Graph, ps: seq<Pair>, stack: set<Ref>, i: nat)
    requires Closed(g) && forall i :: 0 <= i < |ps| ==> InGraph(g, ps[i].key) && InGraph(g, ps[i].value)
    requires UnfoldPairs(g, ps, stack).Ok? && i < |ps| && !ps[i].value.Func?
    ensures UnfoldPair(g, ps[i], stack).Ok?
    decreases |ps|
  {
    if i > 0 {
      PairsSucceed(g, ps[1..], stack, i - 1);
    }
  }

  /** A failure comes with a path to its reason: back into the stack or into itself, or to a bad table. */
  lemma {:induction false} FailureFound(g: Graph, r: Ref, stack: set<Ref>) returns (p: seq<Ref>)
    requires Closed(g) && r in g && UnfoldTable(g, r, stack).Fail?
    ensures IsPath(g, p) && p[0] == r
    ensures if UnfoldTable(g, r, stack).failure == Cycle then Repeats(p) || p[|p| - 1] in stack
            else BadAt(g, p[|p| - 1])
    decreases g.Keys - stack
  {
    p := [r];
    if r !in stack {
      var i := PairsFail(g, g[r], stack + {r});
      var pair := g[r][i];
      var v := if Unfold(g, pair.key, stack + {r}).Fail? then pair.key else pair.value;
      if v.Tab? {
        assert g.Keys - (stack + {r}) < g.Keys - stack by { assert r in g.Keys - stack; }
        var q := FailureFound(g, v.ref, stack + {r});
        assert LeadsTo(g[r][i], v.ref) && Edge(g, r, v.ref);
        p := [r] + q;
        PathCons(g, r, q);
        if UnfoldTable(g, r, stack).failure == Cycle {
          RepeatsOnward(r, q);
          if !Repeats(q) && q[|q| - 1] == r {
            assert p[0] == p[|p| - 1];
          }
        }
      }
    }
  }

  lemma PathCons(g: Graph, r: Ref, q: seq<Ref>)
    requires r in g && IsPath(g, q) && Edge(g, r, q[0])
    ensures IsPath(g, [r] + q)
  {
    var p := [r] + q;
    assert forall i :: 0 < i < |p| ==> p[i] == q[i - 1];
    forall i | 0 <= i < |p| - 1 ensures Edge(g, p[i], p[i + 1]) {
      assert i > 0 ==> Edge(g, q[i - 1], q[i - 1 + 1]);
    }
  }

  lemma RepeatsOnward(r: Ref, q: seq<Ref>)
    ensures Repeats(q) ==> Repeats([r] + q)
  {
    if Repeats(q) {
      var i, j :| 0 <= i < j < |q| && q[i] == q[j];
      var p := [r] + q;
      assert p[i + 1] == p[j + 1];
    }
  }

  /** What unfolds has no path with a repetition, back into the stack, or to a bad table. */
  lemma {:induction false} NothingMissed(g: Graph, r: Ref, stack: set<Ref>, p: seq<Ref>)
    requires Closed(g) && r in g && UnfoldTable(g, r, stack).Ok? && IsPath(g, p) && p[0] == r
    ensures !Repeats(p) && (forall i :: 0 <= i < |p| ==> p[i] !in stack) && !BadAt(g, p[|p| - 1])
    decreases |p|
  {
    if |p| == 1 {
      forall i | 0 <= i < |g[r]| && !g[r][i].value.Func? ensures !Bad(g[r][i].key) && !Bad(g[r][i].value) {
        PairsSucceed(g, g[r], stack + {r}, i);
      }
    } else {
      var q := p[1..];
      assert Edge(g, p[0], p[1]);
      var i :| 0 <= i < |g[r]| && LeadsTo(g[r][i], p[1]);
      PairsSucceed(g, g[r], stack + {r}, i);
      forall k | 0 <= k < |q| - 1 ensures Edge(g, q[k], q[k + 1]) {
        assert Edge(g, p[k + 1], p[k + 1 + 1]);
      }
      NothingMissed(g, p[1], stack + {r}, q);
      assert forall k :: 0 < k < |p| ==> p[k] == q[k - 1];
    }
  }

  /** A table is written exactly when no cycle and nothing unsupported can be reached from it. */
  lemma WritesExactly(g: Graph, r: Ref)
    requires Closed(g) && r in g
    ensures UnfoldTable(g, r, {}).Ok? <==> !CycleReachable(g, r) && !BadReachable(g, r)
    ensures UnfoldTable(g, r, {}) == Fail(Cycle) ==> CycleReachable(g, r)
  {
    if UnfoldTable(g, r, {}).Fail? {
      var p := FailureFound(g, r, {});
    } else {
      forall p | IsPath(g, p) && p[0] == r ensures !Repeats(p) && !BadAt(g, p[|p| - 1]) {
        NothingMissed(g, r, {}, p);
      }
    }
  }

  /** Where everything reachable has an encoding, "Cycle detected" is raised exactly when a cycle is reachable. */
  lemma CycleExactly(g: Graph, r: Ref)
    requires Closed(g) && r in g && !BadReachable(g, r)
    ensures UnfoldTable(g, r, {}) == Fail(Cycle) <==> CycleReachable(g, r)
  {
    WritesExactly(g, r);
    if UnfoldTable(g, r, {}).Fail? {
      var p := FailureFound(g, r, {});
    }
  }

  // ---- the encoding of a tree ----

  predicate Writable(t: Tree) {
    match t
    case TBool(_) => true
    case TNum(n) => -TWO31 <= n < TWO32
    case TStr(s) => |s| < TWO32
    case TTable(ss) => AllWritable(ss)
  }

  predicate AllWritable(ss: Stores) {
    ss.Store? ==> Writable(ss.key) && Writable(ss.value) && AllWritable(ss.rest)
  }

  const STOP: byte := 0
  const STRING: byte := 2
  const TABLE: byte := 3
  const TRUE: byte := 4
  const FALSE: byte := 5
  const ZERO: byte := 6
  const VS32: byte := 7
  const VU32: byte := 8

  function Encode(t: Tree): (b: bytes)
    requires Writable(t)
  {
    match t
    case TBool(b) => [if b then TRUE else FALSE]
    case TNum(n) => if n == 0 then [ZERO] else if n > 0 then [VU32] + Vu32(n) else [VS32] + Vs32(n)
    case TStr(s) => [STRING] + (Vu32(|s|) + s)
    case TTable(ss) => [TABLE] + (EncodeStores(ss) + [STOP])
  }

  function EncodeStores(ss: Stores): (b: bytes)
    requires AllWritable(ss)
  {
    match ss
    case Empty => []
    case Store(k, v, rest) => Encode(k) + (Encode(v) + EncodeStores(rest))
  }

  lemma {:induction false} UnfoldedWritable(g: Graph, v: Val, stack: set<Ref>)
    requires Closed(g) && InGraph(g, v) && Unfold(g, v, stack).Ok?
    ensures Writable(Unfold(g, v, stack).value)
    decreases g.Keys - stack, 0, 0
  {
    if v.Tab? {
      assert g.Keys - (stack + {v.ref}) < g.Keys - stack by { assert v.ref in g.Keys - stack; }
      StoresWritable(g, g[v.ref], stack + {v.ref});
    }
  }

  lemma {:induction false} StoresWritable(g: Graph, ps: seq<Pair>, stack: set<Ref>)
    requires Closed(g) && forall i :: 0 <= i < |ps| ==> InGraph(g, ps[i].key) && InGraph(g, ps[i].value)
    requires UnfoldPairs(g, ps, stack).Ok?
    ensures AllWritable(UnfoldPairs(g, ps, stack).value)
    decreases g.Keys - stack, |ps| + 1, 0
  {
    if ps != [] {
      StoresWritable(g, ps[1..], stack);
      if !ps[0].value.Func? {
        UnfoldedWritable(g, ps[0].key, stack);
        UnfoldedWritable(g, ps[0].value, stack);
      }
    }
  }

  // ---- reading ----

  /** `NotModelled` stands for the number and 64-bit tags; an unknown tag calls a nil reader. */
  datatype Trouble = Short | UnknownTag | NotModelled

  datatype Tagged = Tagged(tag: byte, value: Tree, rest: bytes) | TaggedFails(why: Trouble)

  datatype TableRead = TableRead(stores: Stores, rest: bytes) | TableFails(why: Trouble)

  /** A stop tag reads as false. */
  function ReadTagged(b: bytes): (r: Tagged)
    ensures r.Tagged? ==> |r.rest| < |b|
    decreases |b|, 0
  {
    if b == [] then TaggedFails(Short) else
    var tag, rest := b[0], b[1..];
    if tag == STOP then Tagged(tag, TBool(false), rest)
    else if tag == STRING then
      match ReadString(rest)
      case OutOfData => TaggedFails(Short)
      case Got(s, n) => Tagged(tag, TStr(s), rest[n..])
    else if tag == TABLE then
      match ReadTable(rest)
      case TableFails(why) => TaggedFails(why)
      case TableRead(ss, after) => Tagged(tag, TTable(ss), after)
    else if tag == TRUE || tag == FALSE then Tagged(tag, TBool(tag == TRUE), rest)
    else if tag == ZERO then Tagged(tag, TNum(0), rest)
    else if tag == VS32 then
      match ReadVs32(rest)
      case OutOfData => TaggedFails(Short)
      case Got(n, k) => Tagged(tag, TNum(n), rest[k..])
    else if tag == VU32 then
      match ReadVu32(rest)
      case OutOfData => TaggedFails(Short)
      case Got(n, k) => Tagged(tag, TNum(n), rest[k..])
    else if tag == 1 || tag == 9 || tag == 10 then TaggedFails(NotModelled)
    else TaggedFails(UnknownTag)
  }

  /** Keys and values up to a stop tag in the place of a key; the stores in the order they are made. */
  function ReadTable(b: bytes): (r: TableRead)
    ensures r.TableRead? ==> |r.rest| < |b|
    decreases |b|, 1
  {
    match ReadTagged(b)
    case TaggedFails(why) => TableFails(why)
    case Tagged(tag, key, rest) => AfterKey(tag, key, rest)
  }

  function AfterKey(tag: byte, key: Tree, b: bytes): (r: TableRead)
    ensures r.TableRead? ==> |r.rest| <= |b|
    decreases |b|, 2
  {
    if tag == STOP then TableRead(Empty, b) else
    match ReadTagged(b)
    case TaggedFails(why) => TableFails(why)
    case Tagged(_, value, rest) => Stored(key, value, ReadTable(rest))
  }

  function Stored(key: Tree, value: Tree, r: TableRead): (s: TableRead) {
    match r
    case TableFails(why) => TableFails(why)
    case TableRead(ss, after) => TableRead(Store(key, value, ss), after)
  }

  predicate ReadsAs(b: bytes, t: Tree, after: bytes) {
    var r := ReadTagged(b);
    r.Tagged? && r.tag != STOP && r.value == t && r.rest == after
  }

  lemma NumberReadsBack(n: int, after: bytes)
    requires -TWO31 <= n < TWO32
    ensures ReadsAs(Encode(TNum(n)) + after, TNum(n), after)
  {
    var b := Encode(TNum(n)) + after;
    if n > 0 {
      Vu32RoundTrip(n, after);
      assert b[1..] == Vu32(n) + after;
    } else if n < 0 {
      Vs32RoundTrip(n, after);
      assert b[1..] == Vs32(n) + after;
    } else {
      assert b[1..] == after;
    }
  }

  lemma StringReadsBack(s: bytes, after: bytes)
    requires |s| < TWO32
    ensures ReadsAs(Encode(TStr(s)) + after, TStr(s), after)
  {
    var b, rest := Encode(TStr(s)) + after, Vu32(|s|) + s + after;
    StringRoundTrip(s, after);
    assert b[1..] == rest && rest[|Vu32(|s|) + s|..] == after;
  }

  lemma {:induction false} ReadsBack(t: Tree, after: bytes)
    requires Writable(t)
    ensures ReadsAs(Encode(t) + after, t, after)
    decreases t
  {
    match t
    case TBool(b) => BoolReadsBack(b, after);
    case TNum(n) => NumberReadsBack(n, after);
    case TStr(s) => StringReadsBack(s, after);
    case TTable(ss) =>
      StoresBack(ss, after);
      TableReadsBack(ss, after);
  }

  lemma BoolReadsBack(b: bool, after: bytes)
    ensures ReadsAs(Encode(TBool(b)) + after, TBool(b), after)
  {
    TagSplits(if b then TRUE else FALSE, [], after);
  }

  lemma TableReadsBack(ss: Stores, after: bytes)
    requires AllWritable(ss) && ReadTable(EncodeStores(ss) + ([STOP] + after)) == TableRead(ss, after)
    ensures ReadsAs(Encode(TTable(ss)) + after, TTable(ss), after)
  {
    TagSplits(TABLE, EncodeStores(ss) + [STOP], after);
    Assoc(EncodeStores(ss), [STOP], after);
  }

  /** A tag in front of a body. */
  lemma TagSplits(tag: byte, body: bytes, after: bytes)
    ensures var b := [tag] + body + after; b[0] == tag && b[1..] == body + after
    ensures body == [] ==> [tag] + after == [tag] + body + after && body + after == after
  {
  }

  lemma Joined(a: bytes, b: bytes, c: bytes, d: bytes)
    ensures a + (b + c) + d == a + (b + (c + d))
  {
  }

  lemma {:induction false} StoresBack(ss: Stores, after: bytes)
    requires AllWritable(ss)
    ensures ReadTable(EncodeStores(ss) + ([STOP] + after)) == TableRead(ss, after)
    decreases ss
  {
    var tail := [STOP] + after;
    match ss
    case Empty =>
      assert EncodeStores(ss) + tail == tail && tail[1..] == after;
    case Store(k, v, rest) =>
      var more := EncodeStores(rest) + tail;
      Joined(Encode(k), Encode(v), EncodeStores(rest), tail);
      ReadsBack(k, Encode(v) + more);
      ReadsBack(v, more);
      StoresBack(rest, after);
  }

  /** Reading what was written for an acyclic graph gives a tree that stands for the table, and stops at its end. */
  lemma TableRoundTrip(g: Graph, r: Ref, after: bytes)
    requires Closed(g) && r in g && !CycleReachable(g, r) && !BadReachable(g, r)
    ensures UnfoldTable(g, r, {}).Ok? && Writable(UnfoldTable(g, r, {}).value)
    ensures var ss := UnfoldTable(g, r, {}).value.stores;
      ReadTable(EncodeStores(ss) + ([STOP] + after)) == TableRead(ss, after) && Shows(g, Tab(r), TTable(ss))
  {
    WritesExactly(g, r);
    UnfoldedWritable(g, Tab(r), {});
    UnfoldShows(g, Tab(r), {});
    StoresBack(UnfoldTable(g, r, {}).value.stores, after);
  }

  /** The tags in plain numbers; a table is its tag, its stores and a stop tag. */
  lemma TagBytes(n: Int32, s: bytes, k: Tree, v: Tree)
    requires |s| < TWO32 && Writable(k) && Writable(v)
    ensures Encode(TBool(true)) == [4] && Encode(TBool(false)) == [5] && Encode(TNum(0)) == [6]
    ensures n < 0 ==> Encode(TNum(n)) == [7] + Vs32(n)
    ensures n > 0 ==> Encode(TNum(n)) == [8] + Vu32(n)
    ensures Encode(TStr(s)) == [2] + (Vu32(|s|) + s)
    ensures Encode(TTable(Empty)) == [3, 0]
    ensures Encode(TTable(Store(k, v, Empty))) == [3] + (Encode(k) + Encode(v)) + [0]
  {
    assert [3] + ([] + [0]) == [3, 0];
    assert Encode(k) + (Encode(v) + []) == Encode(k) + Encode(v);
    Assoc([3], Encode(k) + Encode(v), [0]);
  }

  // ---- the writer's and the reader's own code ----

  /** The table `stack[t] == true` of the tables being written. */
  class Marks {
    var marked: set<Ref>

    constructor ()
      ensures marked == {}
    {
      marked := {};
    }
  }

  method WriteTable(w: Writer, g: Graph, t: Ref, stack: Marks) returns (failed: Option<Failure>)
    requires w.Valid() && Closed(g) && t in g
    modifies w, w.data, stack
    ensures w.Valid() && (failed.None? ==> w.data.Length > 0) && (w.data == old(w.data) || fresh(w.data))
    ensures match UnfoldTable(g, t, old(stack.marked))
            case Fail(f) => failed == Some(f) && old(w.Contents()) <= w.Contents()
            case Ok(tree) =>
              && failed == None && stack.marked == old(stack.marked) && Writable(tree)
              && w.Contents() == old(w.Contents()) + (EncodeStores(tree.stores) + [STOP])
    decreases g.Keys - stack.marked, 0, 0
  {
    if t in stack.marked {
      return Some(Cycle);
    }
    ghost var path := stack.marked;
    assert g.Keys - (path + {t}) < g.Keys - path by { assert t in g.Keys - path; }
    stack.marked := stack.marked + {t};
    failed := WritePairs(w, g, g[t], stack);
    if failed.None? {
      stack.marked := stack.marked - {t};
      w.PutByte(STOP);
      assert path + {t} - {t} == path;
    }
  }

  /** The loop over `pairs`. */
  method WritePairs(w: Writer, g: Graph, ps: seq<Pair>, stack: Marks) returns (failed: Option<Failure>)
    requires w.Valid() && Closed(g)
    requires forall i :: 0 <= i < |ps| ==> InGraph(g, ps[i].key) && InGraph(g, ps[i].value)
    modifies w, w.data, stack
    ensures w.Valid() && (w.data == old(w.data) || fresh(w.data))
    ensures match UnfoldPairs(g, ps, old(stack.marked))
            case Fail(f) => failed == Some(f) && old(w.Contents()) <= w.Contents()
            case Ok(ss) =>
              && failed == None && stack.marked == old(stack.marked)
              && AllWritable(ss) && w.Contents() == old(w.Contents()) + EncodeStores(ss)
    decreases g.Keys - stack.marked, 1, 1
  {
    ghost var path, done := stack.marked, [];
    ghost var all := UnfoldPairs(g, ps, path);
    failed := None;
    for n := 0 to |ps|
      invariant w.Valid() && (w.data == old(w.data) || fresh(w.data))
      invariant failed == None && stack.marked == path
      invariant FollowsFrom(all, done, UnfoldPairs(g, ps[n..], path))
      invariant w.Contents() == old(w.Contents()) + done
    {
      ghost var before := w.Contents();
      failed := WriteTaggedPair(w, g, ps[n], stack);
      assert ps[n..][0] == ps[n] && ps[n..][1..] == ps[n + 1..];
      if failed.Some? {
        PrefixOn(old(w.Contents()), done, w.Contents());
        return;
      }
      if !ps[n].value.Func? {
        ghost var (k, v) := UnfoldPair(g, ps[n], path).value;
        FollowsOn(all, done, k, v, UnfoldPairs(g, ps[n + 1..], path));
        Assoc(old(w.Contents()), done, Encode(k) + Encode(v));
        done := done + (Encode(k) + Encode(v));
      }
    }
  }

  lemma PrefixOn(a: bytes, b: bytes, c: bytes)
    requires a + b <= c
    ensures a <= c
  {
  }

  method WriteTaggedPair(w: Writer, g: Graph, p: Pair, stack: Marks) returns (failed: Option<Failure>)
    requires w.Valid() && Closed(g) && InGraph(g, p.key) && InGraph(g, p.value)
    modifies w, w.data, stack
    ensures w.Valid() && (w.data == old(w.data) || fresh(w.data))
    ensures p.value.Func? ==> failed == None && stack.marked == old(stack.marked) && w.Contents() == old(w.Contents())
    ensures !p.value.Func? ==>
            match UnfoldPair(g, p, old(stack.marked))
            case Fail(f) => failed == Some(f) && old(w.Contents()) <= w.Contents()
            case Ok((k, v)) =>
              && failed == None && stack.marked == old(stack.marked) && Writable(k) && Writable(v)
              && w.Contents() == old(w.Contents()) + (Encode(k) + Encode(v))
    decreases g.Keys - stack.marked, 1, 0
  {
    if p.value.Func? {
      return None;
    }
    ghost var start, k := w.Contents(), Unfold(g, p.key, stack.marked);
    failed := WriteTagged(w, g, p.key, stack);
    if failed.None? {
      ghost var v := Unfold(g, p.value, stack.marked);
      failed := WriteTagged(w, g, p.value, stack);
      if failed.None? {
        Assoc(start, Encode(k.value), Encode(v.value));
      } else {
        PrefixOn(start, Encode(k.value), w.Contents());
      }
    }
  }

  /** The encoding of all pairs is what is done so far, and then that of the pairs to come. */
  predicate FollowsFrom(all: Result<Stores>, done: bytes, left: Result<Stores>) {
    match left
    case Fail(f) => all == Fail(f)
    case Ok(ss) =>
      && all.Ok? && (AllWritable(ss) ==> AllWritable(all.value))
      && (AllWritable(ss) ==> EncodeStores(all.value) == done + EncodeStores(ss))
  }

  lemma FollowsOn(all: Result<Stores>, done: bytes, k: Tree, v: Tree, left: Result<Stores>)
    requires Writable(k) && Writable(v)
    requires FollowsFrom(all, done, Prepended(k, v, left))
    ensures FollowsFrom(all, done + (Encode(k) + Encode(v)), left)
  {
    if left.Ok? && AllWritable(left.value) {
      Joined(done, Encode(k), Encode(v), EncodeStores(left.value));
    }
  }

  /** The tag of a number and the number, by its sign. */
  method WriteNumber(w: Writer, n: Int32)
    requires w.Valid()
    modifies w, w.data
    ensures w.Valid() && w.data.Length > 0 && (w.data == old(w.data) || fresh(w.data))
    ensures w.Contents() == old(w.Contents()) + Encode(TNum(n))
  {
    if n == 0 {
      w.PutByte(ZERO);
    } else if n > 0 {
      w.PutByte(VU32);
      w.PutVu32(n);
    } else {
      w.PutByte(VS32);
      w.PutVs32(n);
    }
  }

  method WriteTagged(w: Writer, g: Graph, v: Val, stack: Marks) returns (failed: Option<Failure>)
    requires w.Valid() && Closed(g) && InGraph(g, v)
    modifies w, w.data, stack
    ensures w.Valid() && (failed.None? ==> w.data.Length > 0) && (w.data == old(w.data) || fresh(w.data))
    ensures match Unfold(g, v, old(stack.marked))
            case Fail(f) => failed == Some(f) && old(w.Contents()) <= w.Contents()
            case Ok(tree) =>
              && failed == None && stack.marked == old(stack.marked) && Writable(tree)
              && w.Contents() == old(w.Contents()) + Encode(tree)
    decreases g.Keys - stack.marked, 0, 1
  {
    failed := None;
    match v
    case Bool(b) => w.PutByte(if b then TRUE else FALSE);
    case Num(n) => WriteNumber(w, n);
    case Str(s) =>
      w.PutByte(STRING);
      if |s| >= TWO32 {
        return Some(TooLong);
      }
      w.PutString(s);
    case Tab(r) =>
      w.PutByte(TABLE);
      failed := WriteTable(w, g, r, stack);
    case Func => failed := Some(Unsupported);
    case Other => failed := Some(Unsupported);
  }

  /** `_readTagged`; false goes with the stop tag. */
  method GetTagged(rd: Reader) returns (r: Result<(byte, Tree)>, ghost why: Trouble)
    requires rd.Valid()
    modifies rd`readPtr
    ensures rd.Valid()
    ensures match ReadTagged(old(rd.Rest()))
            case TaggedFails(w) => r.Fail? && why == w
            case Tagged(tag, value, rest) => r == Ok((tag, value)) && rd.Rest() == rest
    decreases |rd.Rest()|, 0
  {
    r, why := Fail(Unsupported), Short;
    var first := rd.GetByte();
    if first.None? { return; }
    var tag := first.value;
    if tag == STOP {
      r := Ok((tag, TBool(false)));
    } else if tag == STRING {
      var s := rd.GetString();
      if s.Some? { r := Ok((tag, TStr(s.value))); }
    } else if tag == TABLE {
      var t, w := GetTable(rd);
      why := w;
      if t.Ok? { r := Ok((tag, TTable(t.value))); }
    } else if tag == TRUE || tag == FALSE {
      r := Ok((tag, TBool(tag == TRUE)));
    } else if tag == ZERO {
      r := Ok((tag, TNum(0)));
    } else if tag == VS32 {
      var n := rd.GetVs32();
      if n.Some? { r := Ok((tag, TNum(n.value))); }
    } else if tag == VU32 {
      var n := rd.GetVu32();
      if n.Some? { r := Ok((tag, TNum(n.value))); }
    } else {
      why := if tag == 1 || tag == 9 || tag == 10 then NotModelled else UnknownTag;
    }
  }

  /** What is read after some stores have been made. */
  function Continued(log: seq<(Tree, Tree)>, r: TableRead): (s: TableRead) {
    if log == [] then r else
    Continued(log[..|log| - 1], Stored(log[|log| - 1].0, log[|log| - 1].1, r))
  }

  lemma {:induction false} ContinuedFails(log: seq<(Tree, Tree)>, why: Trouble)
    ensures Continued(log, TableFails(why)) == TableFails(why)
  {
    if log != [] {
      ContinuedFails(log[..|log| - 1], why);
    }
  }

  lemma {:induction false} ContinuedEnds(log: seq<(Tree, Tree)>, ss: Stores, rest: bytes)
    ensures Continued(log, TableRead(ss, rest)).TableRead? && Continued(log, TableRead(ss, rest)).rest == rest
  {
    if log != [] {
      ContinuedEnds(log[..|log| - 1], Store(log[|log| - 1].0, log[|log| - 1].1, ss), rest);
    }
  }

  /** The loop that stores pairs until a stop tag comes where a key should. */
  method GetTable(rd: Reader) returns (r: Result<Stores>, ghost why: Trouble)
    requires rd.Valid()
    modifies rd`readPtr
    ensures rd.Valid()
    ensures match ReadTable(old(rd.Rest()))
            case TableFails(w) => r.Fail? && why == w
            case TableRead(ss, rest) => r == Ok(ss) && rd.Rest() == rest
    decreases |rd.Rest()|, 1
  {
    ghost var goal := ReadTable(rd.Rest());
    var log := [];
    var k, w := GetTagged(rd);
    r, why := Fail(Unsupported), w;
    if k.Fail? { return; }
    var (tag, key) := k.value;
    while tag != STOP
      invariant rd.Valid() && |rd.Rest()| < |old(rd.Rest())|
      invariant goal == Continued(log, AfterKey(tag, key, rd.Rest()))
      decreases |rd.Rest()|
    {
      ghost var b := rd.Rest();
      var v, w' := GetTagged(rd);
      if v.Fail? {
        ContinuedFails(log, w');
        return Fail(Unsupported), w';
      }
      assert (log + [(key, v.value.1)])[..|log|] == log;
      log := log + [(key, v.value.1)];
      assert goal == Continued(log, ReadTable(rd.Rest()));
      k, w := GetTagged(rd);
      if k.Fail? {
        ContinuedFails(log, w);
        return Fail(Unsupported), w;
      }
      tag, key := k.value.0, k.value.1;
    }
    ContinuedEnds(log, Empty, rd.Rest());
    ContinuedEnds(log, Empty, []);
    r := Ok(Continued(log, TableRead(Empty, [])).stores);
    ContinuedSame(log, Empty, rd.Rest(), []);
  }

  lemma {:induction false} ContinuedSame(log: seq<(Tree, Tree)>, ss: Stores, a: bytes, b: bytes)
    ensures Continued(log, TableRead(ss, a)).TableRead? && Continued(log, TableRead(ss, b)).TableRead?
    ensures Continued(log, TableRead(ss, a)).stores == Continued(log, TableRead(ss, b)).stores
  {
    if log != [] {
      ContinuedSame(log[..|log| - 1], Store(log[|log| - 1].0, log[|log| - 1].1, ss), a, b);
    }
  }

  /**
   The writer and then the reader, on a table of any graph: it is written if and only if neither a cycle nor an
   unsupported value can be reached, and what is read back stands for it.
   */
  method WriteAndRead(g: Graph, t: Ref, size: nat, order: Order) returns (r: Result<Stores>)
    requires Closed(g) && t in g
    ensures r.Ok? <==> !CycleReachable(g, t) && !BadReachable(g, t)
    ensures r.Ok? ==> Shows(g, Tab(t), TTable(r.value))
    ensures r == Fail(Cycle) ==> CycleReachable(g, t)
  {
    var w := new Writer(order, size);
    var stack := new Marks();
    WritesExactly(g, t);
    var failed := WriteTable(w, g, t, stack);
    if failed.Some? {
      return Fail(failed.value);
    }
    TableRoundTrip(g, t, []);
    var rd := new Reader(w.Contents(), order);
    assert rd.Rest() == EncodeStores(UnfoldTable(g, t, {}).value.stores) + ([STOP] + []);
    ghost var why;
    r, why := GetTable(rd);
  }
}
