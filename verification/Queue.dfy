/** The client's double-ended queue over a table indexed from `front` to `back`. */
module Queues {
  import opened Bytes

  function Slot<T>(data: map<int, T>, k: int): (v: Option<T>) {
    if k in data then Some(data[k]) else None
  }

  /** The `n` slots of a table from index `front` on. */
  function SlotsFrom<T>(data: map<int, T>, front: int, n: nat): (s: seq<Option<T>>)
    ensures |s| == n && forall i :: 0 <= i < n ==> s[i] == Slot(data, front + i)
  {
    seq(n, i requires 0 <= i => Slot(data, front + i))
  }

  class Queue<T> {
    var data: map<int, T>
    var front: int
    var back: int

    ghost predicate Valid()
      reads this
    {
      front <= back + 1 && forall k :: k in data ==> front <= k <= back
    }

    /** What successive pops would return; None is a nil. */
    ghost function Slots(): (s: seq<Option<T>>)
      reads this
      requires Valid()
    {
      SlotsFrom(data, front, back - front + 1)
    }

    constructor ()
      ensures Valid() && Slots() == []
    {
      data, front, back := map[], 1, 0;
    }

    method Push(val: T)
      requires Valid()
      modifies this
      ensures Valid() && Slots() == old(Slots()) + [Some(val)]
    {
      back := back + 1;
      data := data[back := val];
      assert forall i :: 0 <= i < back - front ==> Slots()[i] == old(Slots())[i];
    }

    method PushFront(val: T)
      requires Valid()
      modifies this
      ensures Valid() && Slots() == [Some(val)] + old(Slots())
    {
      front := front - 1;
      data := data[front := val];
      assert forall i :: 1 <= i < back - front + 1 ==> Slots()[i] == old(Slots())[i - 1];
    }

    method Peek(offset: int) returns (v: Option<T>)
      requires Valid()
      ensures v == if 0 <= offset < |Slots()| then Slots()[offset] else None
    {
      v := Slot(data, front + offset);
    }

    method PeekBack(offset: int) returns (v: Option<T>)
      requires Valid()
      ensures v == if 0 <= offset < |Slots()| then Slots()[|Slots()| - 1 - offset] else None
    {
      v := Slot(data, back - offset);
    }

    /** An error, here `ok` false, exactly on an empty queue. */
    method Pop() returns (ok: bool, v: Option<T>)
      requires Valid()
      modifies this
      ensures Valid() && (ok <==> old(Slots()) != [])
      ensures ok ==> old(Slots()) == [v] + Slots()
      ensures !ok ==> v == None && Slots() == old(Slots())
    {
      if front > back {
        return false, None;
      }
      ok, v := true, Slot(data, front);
      data := data - {front};
      front := front + 1;
      assert forall i :: 0 <= i < back - front + 1 ==> Slots()[i] == old(Slots())[i + 1];
    }

    method PopBack() returns (ok: bool, v: Option<T>)
      requires Valid()
      modifies this
      ensures Valid() && (ok <==> old(Slots()) != [])
      ensures ok ==> old(Slots()) == Slots() + [v]
      ensures !ok ==> v == None && Slots() == old(Slots())
    {
      if front > back {
        return false, None;
      }
      ok, v := true, Slot(data, back);
      data := data - {back};
      back := back - 1;
      assert forall i :: 0 <= i < back - front + 1 ==> Slots()[i] == old(Slots())[i];
    }

    /** As written; the number of slots is `back - front + 1`, so this is right only for one slot. */
    function Size(): (n: int)
      reads this
      requires Valid()
      ensures n == 2 - |Slots()|
      ensures n == |Slots()| <==> |Slots()| == 1
    {
      front - back + 1
    }

    /** The size as intended. */
    function Count(): (n: nat)
      reads this
      requires Valid()
      ensures n == |Slots()|
    {
      back - front + 1
    }

    predicate Empty()
      reads this
      requires Valid()
      ensures Empty() <==> Slots() == []
    {
      front > back
    }

    /** Clearing does not empty the queue: it leaves two nil slots, whatever was there. */
    method Clear()
      requires Valid()
      modifies this
      ensures Valid() && Slots() == [None, None]
    {
      data, back, front := map[], 0, -1;
    }
  }
}
