/**
  SpscRingBuffer of spsc.hpp: the masked indices, the buffer updated in place, and what whole
  calls of push, pop and size do to its contents.
 */
module Ring {
  import opened Wrappers
  import opened Bitwise

  /** The static_assert on the capacity. */
  predicate PowerOfTwo(c: nat) {
    c > 0 && And(c, c - 1) == 0
  }

  /** Under the static_assert, masking with capacity - 1 is reduction modulo the capacity. */
  lemma {:induction false} MaskIsMod(x: nat, c: nat)
    requires PowerOfTwo(c)
    ensures And(x, c - 1) == x % c
    decreases c
  {
    if c == 1 {
    } else if c % 2 == 1 {
      assert (c - 1) / 2 == c / 2;
      AndSelf(c / 2);
    } else {
      var d := c / 2;
      assert c == 2 * d && (c - 1) / 2 == d - 1 && (c - 1) % 2 == 1;
      assert And(c, c - 1) == 2 * And(d, d - 1);
      MaskIsMod(x / 2, d);
      ModDouble(x, d);
      assert x == 0 || And(x, c - 1) == 2 * And(x / 2, d - 1) + x % 2;
    }
  }

  lemma ModDouble(x: nat, d: nat)
    requires d > 0
    ensures x % (2 * d) == 2 * ((x / 2) % d) + x % 2
  {
    var q, r := (x / 2) / d, (x / 2) % d;
    assert x == 2 * (q * d + r) + x % 2;
    assert 0 <= 2 * r + x % 2 < 2 * d;
    ModIs(x, q, 2 * d, 2 * r + x % 2);
  }

  lemma ModIs(x: int, q: int, m: int, r: int)
    requires 0 <= r < m && x == q * m + r
    ensures x % m == r
  {
    MulGap(q - x / m, m);
    assert (q - x / m) * m == x % m - r;
  }

  lemma MulGap(k: int, m: int)
    requires m > 0
    ensures k == 0 || k * m >= m || k * m <= -m
  {}

  // ---------------------------------------------------------------- a window of the buffer

  function Next(i: nat, capacity: nat): (n: nat)
    requires i < capacity
    ensures n < capacity
  {
    if i + 1 == capacity then 0 else i + 1
  }

  lemma NextIsMasked(i: nat, capacity: nat)
    requires PowerOfTwo(capacity) && i < capacity
    ensures And(i + 1, capacity - 1) == Next(i, capacity)
  {
    MaskIsMod(i + 1, capacity);
    ModIs(i + 1, if i + 1 == capacity then 1 else 0, capacity, Next(i, capacity));
  }

  /** Slots in use between tail and head, going round the end of the buffer. */
  function Used(head: nat, tail: nat, capacity: nat): (n: nat)
    requires head < capacity && tail < capacity
    ensures n < capacity
  {
    if head >= tail then head - tail else capacity + head - tail
  }

  function Slot(tail: nat, i: nat, capacity: nat): (s: nat)
    requires tail < capacity && i < capacity
    ensures s < capacity
  {
    if tail + i < capacity then tail + i else tail + i - capacity
  }

  /** The items in the slots from tail up to, and without, head. */
  function Window<T>(buffer: seq<T>, head: nat, tail: nat): (w: seq<T>)
    requires head < |buffer| && tail < |buffer|
    ensures |w| == Used(head, tail, |buffer|)
  {
    seq(Used(head, tail, |buffer|), i requires 0 <= i < Used(head, tail, |buffer|) => buffer[Slot(tail, i, |buffer|)])
  }

  lemma WriteOutside<T>(buffer: seq<T>, head: nat, tail: nat, item: T)
    requires head < |buffer| && tail < |buffer|
    ensures Window(buffer[head := item], head, tail) == Window(buffer, head, tail)
  {}

  lemma AdvanceHead<T>(buffer: seq<T>, head: nat, tail: nat)
    requires head < |buffer| && tail < |buffer| && Next(head, |buffer|) != tail
    ensures Window(buffer, Next(head, |buffer|), tail) == Window(buffer, head, tail) + [buffer[head]]
  {}

  lemma AdvanceTail<T>(buffer: seq<T>, head: nat, tail: nat)
    requires head < |buffer| && tail < |buffer| && head != tail
    ensures Window(buffer, head, tail) != [] && buffer[tail] == Window(buffer, head, tail)[0]
    ensures Window(buffer, head, Next(tail, |buffer|)) == Window(buffer, head, tail)[1..]
  {
    assert Slot(tail, 0, |buffer|) == tail;
  }

  class RingBuffer<T(0)> {
    const capacity: nat
    const buffer: array<T>
    var head: nat
    var tail: nat

    ghost predicate Valid()
      reads this
    {
      && PowerOfTwo(capacity) && buffer.Length == capacity
      && head < capacity && tail < capacity
    }

    ghost function Contents(): seq<T>
      reads this, buffer
      requires Valid()
    {
      Window(buffer[..], head, tail)
    }

    constructor (capacity: nat)
      requires PowerOfTwo(capacity)
      ensures Valid() && fresh(buffer) && this.capacity == capacity && Contents() == []
    {
      this.capacity := capacity;
      buffer := new T[capacity];
      head, tail := 0, 0;
    }

    /** One slot always stays empty, so the ring holds capacity - 1 items at most. */
    method Push(item: T) returns (ok: bool)
      requires Valid()
      modifies this`head, buffer
      ensures Valid()
      ensures ok <==> |old(Contents())| < capacity - 1
      ensures Contents() == if ok then old(Contents()) + [item] else old(Contents())
    {
      NextIsMasked(head, capacity);
      var next := And(head + 1, capacity - 1);
      if next == tail {
        return false;
      }
      WriteOutside(buffer[..], head, tail, item);
      buffer[head] := item;
      assert buffer[..] == old(buffer[..])[head := item];
      AdvanceHead(buffer[..], head, tail);
      head := next;
      ok := true;
    }

    method Pop() returns (item: Option<T>)
      requires Valid()
      modifies this`tail
      ensures Valid()
      ensures item.Some? <==> old(Contents()) != []
      ensures item.Some? ==> [item.value] + Contents() == old(Contents())
      ensures item.None? ==> Contents() == old(Contents())
    {
      if tail == head {
        return None;
      }
      AdvanceTail(buffer[..], head, tail);
      item := Some(buffer[tail]);
      NextIsMasked(tail, capacity);
      tail := And(tail + 1, capacity - 1);
    }

    method Size() returns (n: nat)
      requires Valid()
      ensures n == |Contents()| < capacity
    {
      n := if head >= tail then head - tail else capacity + head - tail;
    }
  }
}
