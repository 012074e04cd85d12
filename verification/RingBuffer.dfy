/** The ring buffer behind every queue of the test driver (test/queue_util.c), as a refinement of a
    bounded first-in-first-out sequence. */
module RingBuffer {
  import opened Octets

  // ---------------------------------------------------------------------------------------
  // An arc of a ring of slots
  // ---------------------------------------------------------------------------------------

  /** The slot `k` places after `head` on a ring of `size` slots. */
  function Slot(size: nat, head: nat, k: nat): (slot: nat)
    requires head < size && k <= size
    ensures slot < size
  {
    if head + k < size then head + k else head + k - size
  }

  /** The `n` elements from slot `head` on, around the end of the memory if need be. */
  function Arc<T>(mem: seq<T>, head: nat, n: nat): (arc: seq<T>)
    requires n <= |mem| && (head < |mem| || n == 0)
    ensures |arc| == n
  {
    if n == 0 then []
    else if head + n <= |mem| then mem[head..head + n]
    else mem[head..] + mem[..head + n - |mem|]
  }

  lemma ArcAt<T>(mem: seq<T>, head: nat, n: nat, k: nat)
    requires n <= |mem| && head < |mem| && k < n
    ensures Arc(mem, head, n)[k] == mem[Slot(|mem|, head, k)]
  {
  }

  lemma ArcGrows<T>(mem: seq<T>, head: nat, n: nat, x: T)
    requires n < |mem| && head < |mem|
    ensures Arc(mem[Slot(|mem|, head, n) := x], head, n + 1) == Arc(mem, head, n) + [x]
  {
    var longer := mem[Slot(|mem|, head, n) := x];
    forall k | 0 <= k <= n ensures Arc(longer, head, n + 1)[k] == (Arc(mem, head, n) + [x])[k] {
      ArcAt(longer, head, n + 1, k);
      if k < n {
        ArcAt(mem, head, n, k);
        assert Slot(|mem|, head, k) != Slot(|mem|, head, n);
      }
    }
  }

  lemma ArcShrinks<T>(mem: seq<T>, head: nat, n: nat)
    requires 0 < n <= |mem| && head < |mem|
    ensures Arc(mem, head, n) == [mem[head]] + Arc(mem, Slot(|mem|, head, 1), n - 1)
  {
    var next := Slot(|mem|, head, 1);
    forall k | 0 <= k < n ensures Arc(mem, head, n)[k] == ([mem[head]] + Arc(mem, next, n - 1))[k] {
      ArcAt(mem, head, n, k);
      hide Arc;
      if k > 0 {
        ArcAt(mem, next, n - 1, k - 1);
        assert Slot(|mem|, next, k - 1) == Slot(|mem|, head, k);
      }
    }
  }

  /** On a full ring the slot after the last element is the slot of the first one. */
  lemma FullArcWraps<T>(mem: seq<T>, head: nat, x: T)
    requires head < |mem|
    ensures Slot(|mem|, head, |mem|) == head
    ensures Arc(mem[head := x], head, |mem|) == [x] + Arc(mem, head, |mem|)[1..]
  {
    forall k | 0 <= k < |mem| ensures Arc(mem[head := x], head, |mem|)[k] == ([x] + Arc(mem, head, |mem|)[1..])[k] {
      ArcAt(mem[head := x], head, |mem|, k);
      ArcAt(mem, head, |mem|, k);
    }
  }

  // ---------------------------------------------------------------------------------------
  // The queue
  // ---------------------------------------------------------------------------------------

  class Queue<T(0)> {
    const mem: array<T>
    var head: nat
    var tail: nat
    var inqueue: nat

    ghost predicate Valid()
      reads this
    {
      && inqueue <= mem.Length
      && (mem.Length == 0 ==> head == tail == 0)
      && (mem.Length > 0 ==> head < mem.Length && tail == Slot(mem.Length, head, inqueue))
    }

    ghost function Contents(): (s: seq<T>)
      requires Valid()
      reads this, mem
      ensures |s| == inqueue
    {
      Arc(mem[..], head, inqueue)
    }

    constructor (capacity: nat)
      ensures Valid() && fresh(mem) && mem.Length == capacity && Contents() == []
    {
      mem := new T[capacity];
      head, tail, inqueue := 0, 0, 0;
    }

    method Enqueue(x: T) returns (ok: bool)
      requires Valid()
      modifies this, mem
      ensures Valid() && ok == (|old(Contents())| < mem.Length)
      ensures Contents() == if ok then old(Contents()) + [x] else old(Contents())
    {
      ok := inqueue < mem.Length;
      if ok {
        ArcGrows(mem[..], head, inqueue, x);
        mem[tail] := x;
        assert mem[..] == old(mem[..])[old(tail) := x];
        tail := tail + 1;
        if tail >= mem.Length {
          tail := 0;
        }
        inqueue := inqueue + 1;
      }
    }

    /** On a full queue it is the oldest element that is overwritten, not the newest. */
    method EnqueueNow(x: T)
      requires Valid() && mem.Length > 0
      modifies this, mem
      ensures Valid()
      ensures var before := old(Contents());
              Contents() == if |before| < mem.Length then before + [x] else [x] + before[1..]
    {
      if inqueue < mem.Length {
        var _ := Enqueue(x);
      } else {
        FullArcWraps(mem[..], head, x);
        mem[tail] := x;
        assert mem[..] == old(mem[..])[old(head) := x];
      }
    }

    method Dequeue() returns (r: Option<T>)
      requires Valid()
      modifies this
      ensures Valid()
      ensures var before := old(Contents());
              if before == [] then r == None && Contents() == [] else r == Some(before[0]) && Contents() == before[1..]
    {
      if inqueue > 0 {
        ArcShrinks(mem[..], head, inqueue);
        r := Some(mem[head]);
        head := head + 1;
        if head >= mem.Length {
          head := 0;
        }
        inqueue := inqueue - 1;
      } else {
        r := None;
      }
    }

    method Reset()
      requires Valid()
      modifies this
      ensures Valid() && Contents() == []
    {
      tail := 0;
      head := 0;
      inqueue := 0;
    }

    method Full() returns (r: bool)
      requires Valid()
      ensures r <==> |Contents()| == mem.Length
    {
      r := mem.Length - inqueue == 0;
    }

    /** The oldest element. The test for an empty queue is also true of a full one, which then shows
        no front. */
    method Front() returns (r: Option<T>)
      requires Valid()
      ensures r == if 0 < |Contents()| < mem.Length then Some(Contents()[0]) else None
    {
      if tail == head {
        return None;
      }
      ArcAt(mem[..], head, inqueue, 0);
      r := Some(mem[head]);
    }

    /** The newest element, with the same exception. */
    method Back() returns (r: Option<T>)
      requires Valid()
      ensures r == if 0 < |Contents()| < mem.Length then Some(Contents()[|Contents()| - 1]) else None
    {
      if tail == head {
        return None;
      }
      ArcAt(mem[..], head, inqueue, inqueue - 1);
      r := Some(mem[if tail > 0 then tail - 1 else mem.Length - 1]);
    }

    method GetElement(pos: nat) returns (r: Option<T>)
      requires Valid()
      ensures r == if pos < |Contents()| then Some(Contents()[pos]) else None
    {
      if pos >= mem.Length || pos >= inqueue {
        return None;
      }
      ArcAt(mem[..], head, inqueue, pos);
      r := Some(mem[if head + pos < mem.Length then head + pos else head + pos - mem.Length]);
    }
  }
}
