/** `struct ofp_queue` of `lib/queue.c`: a singly linked list with a tail pointer.

    The ghost field `buffers` lists the queued buffers from first to last.  `Valid`
    ties it to the links: the buffers are distinct, each points to the next one and
    the last to nothing, and `head`, `tail` and `n` agree with the list, also when
    it is empty.  The two ways to take the first buffer, with the successor read
    before or after the buffer was handed on, leave the same list. */
module PacketQueue {
  class Buffer<T> {
    var next: Buffer?<T>
    const value: T

    constructor (value: T)
      ensures this.value == value && next == null
    {
      this.value, next := value, null;
    }
  }

  class Queue<T> {
    var n: nat
    var head: Buffer?<T>
    var tail: Buffer?<T>
    /** The queued buffers, first to last. */
    ghost var buffers: seq<Buffer<T>>

    ghost predicate Valid()
      reads this, buffers
    {
      && n == |buffers|
      && (forall i, j :: 0 <= i < j < n ==> buffers[i] != buffers[j])
      && (forall i {:trigger buffers[i]} :: 0 <= i < n ==>
            buffers[i].next == if i + 1 < n then buffers[i + 1] else null)
      && head == (if n == 0 then null else buffers[0])
      && tail == (if n == 0 then null else buffers[n - 1])
    }

    /** `queue_init`. */
    constructor ()
      ensures Valid() && buffers == []
    {
      n, head, tail, buffers := 0, null, null, [];
    }

    /** `queue_push_tail`. */
    method PushTail(b: Buffer<T>)
      requires Valid() && b !in buffers
      modifies this, b, tail
      ensures Valid() && buffers == old(buffers) + [b]
    {
      b.next := null;
      if n != 0 {
        tail.next := b;
      } else {
        head := b;
      }
      n := n + 1;
      tail := b;
      buffers := buffers + [b];
    }

    /** `queue_advance_head`: `next` was read before the first buffer was handed on. */
    method AdvanceHead(next: Buffer?<T>)
      requires Valid() && n > 0 && next == head.next
      modifies this
      ensures Valid() && buffers == old(buffers)[1..]
    {
      ghost var was := buffers;
      assert was[0].next == if 1 < n then was[1] else null;
      head := next;
      if head == null {
        tail := null;
      }
      n := n - 1;
      buffers := buffers[1..];
      forall i | 0 <= i < n ensures buffers[i].next == if i + 1 < n then buffers[i + 1] else null {
        assert buffers[i] == was[i + 1];
      }
    }

    /** `queue_pop_head`. */
    method PopHead() returns (b: Buffer<T>)
      requires Valid() && n > 0
      modifies this
      ensures Valid() && old(buffers) == [b] + buffers
    {
      b := head;
      AdvanceHead(head.next);
    }
  }
}
