/** p3-concurrent-channels/buffer.c: the ring buffer, updated in place. */
module RingBuffers {
  import opened Fifo

  /** The size cells from next on, with wrap-around. */
  ghost function Ring(cells: seq<Message>, next: nat, size: nat): (s: seq<Message>)
    requires size <= |cells| && (if |cells| == 0 then next == 0 else next < |cells|)
    ensures |s| == size
  {
    if next + size <= |cells| then cells[next..next + size]
    else cells[next..] + cells[..next + size - |cells|]
  }

  /** The cell after the last one, and the cell after the first one. */
  function Wrapped(pos: nat, capacity: nat): nat { if pos >= capacity then pos - capacity else pos }

  lemma RingAdd(cells: seq<Message>, next: nat, size: nat, x: Message)
    requires size < |cells| && next < |cells|
    ensures Wrapped(next + size, |cells|) < |cells|
    ensures Ring(cells[Wrapped(next + size, |cells|) := x], next, size + 1) == Ring(cells, next, size) + [x]
  {
  }

  lemma RingRemove(cells: seq<Message>, next: nat, size: nat)
    requires 0 < size <= |cells| && next < |cells|
    ensures [cells[next]] + Ring(cells, Wrapped(next + 1, |cells|), size - 1) == Ring(cells, next, size)
  {
  }

  class Buffer {
    var size: nat
    var next: nat
    var capacity: nat
    var data: array<Message>

    ghost predicate Valid()
      reads this, data
    {
      capacity == data.Length && size <= capacity && (if capacity == 0 then next == 0 else next < capacity)
    }

    /** The messages in the buffer, oldest first. */
    ghost function Contents(): (s: seq<Message>)
      reads this, data
      requires Valid()
      ensures |s| == size
    {
      Ring(data[..], next, size)
    }

    /** buffer_create */
    constructor (capacity: nat)
      ensures Valid() && fresh(data) && this.capacity == capacity && Contents() == []
    {
      size := 0;
      next := 0;
      this.capacity := capacity;
      data := new Message[capacity](_ => 0);
    }

    /** buffer_add */
    method Add(x: Message) returns (ok: bool)
      requires Valid()
      modifies this`size, data
      ensures Valid()
      ensures (ok, Contents()) == Fifo.Add(old(Contents()), capacity, x)
    {
      if size >= capacity { return false; }
      var pos := next + size;
      if pos >= capacity { pos := pos - capacity; }
      RingAdd(data[..], next, size, x);
      data[pos] := x;
      size := size + 1;
      ok := true;
      assert data[..] == old(data[..])[pos := x];
    }

    /** buffer_remove */
    method Remove() returns (x: Message)
      requires Valid()
      modifies this`size, this`next
      ensures Valid()
      ensures (x, Contents()) == Fifo.Remove(old(Contents()))
      ensures old(Contents()) == [] ==> x == -1
    {
      if size > 0 {
        RingRemove(data[..], next, size);
        x := data[next];
        size := size - 1;
        next := next + 1;
        if next >= capacity { next := next - capacity; }
      } else {
        x := BUFFER_EMPTY;
      }
    }
  }
}
