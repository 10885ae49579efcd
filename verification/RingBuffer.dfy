/** The ring buffer as one thread sees it: a byte array with a read and a write position. */
module RingBuffer {
  import opened Common
  import opened RingIndex

  class TcpRingBuffer {
    const capacity: nat
    const buffer: array<byte>
    var writePos: nat
    var readPos: nat

    ghost predicate Valid()
      reads this
    {
      capacity >= 2 && buffer.Length == capacity && writePos < capacity && readPos < capacity
    }

    /** The bytes held, oldest first. */
    ghost function Queue(): (q: seq<byte>)
      requires Valid()
      reads this, buffer
      ensures |q| < capacity
    {
      Contents(buffer[..], readPos, writePos)
    }

    constructor (requested: nat)
      ensures Valid() && fresh(buffer)
      ensures capacity == Max(requested, 2) && Queue() == []
    {
      capacity := Max(requested, 2);
      buffer := new byte[Max(requested, 2)](_ => 0);
      writePos := 0;
      readPos := 0;
    }

    method Len() returns (n: nat)
      requires Valid()
      ensures n == |Queue()|
    {
      n := Held(capacity, readPos, writePos);
    }

    /** `capacity - len - 1` never goes below zero. */
    method RemainingCapacity() returns (n: nat)
      requires Valid()
      ensures n + |Queue()| + 1 == capacity
    {
      var len := Len();
      n := capacity - len - 1;
    }

    method EnqueueSlice(data: seq<byte>) returns (n: nat)
      requires Valid()
      modifies this`writePos, buffer
      ensures Valid()
      ensures n == Min(|data|, capacity - 1 - |old(Queue())|)
      ensures Queue() == old(Queue()) + data[..n]
    {
      var w := writePos;
      var room := RemainingCapacity();
      n := Min(|data|, room);
      if n == 0 {
        return;
      }
      ghost var before := Queue();
      var first := Min(n, capacity - w);
      forall i | 0 <= i < first {
        buffer[w + i] := data[i];
      }
      var second := n - first;
      if second > 0 {
        forall i | 0 <= i < second {
          buffer[i] := data[first + i];
        }
      }
      assert Contents(buffer[..], readPos, w) == before;
      PushBack(buffer[..], readPos, w, data[..n]);
      writePos := (w + n) % capacity;
    }

    /** The split copy out of the ring: a run up to the end of the buffer and one from its start. */
    method CopyOut(dst: array<byte>, n: nat)
      requires Valid() && dst != buffer && 0 < n <= dst.Length && n <= |Queue()|
      modifies dst
      ensures dst[..n] == Queue()[..n] && dst[n..] == old(dst[n..])
      ensures buffer[..] == old(buffer[..])
    {
      var r := readPos;
      var first := Min(n, capacity - r);
      forall i | 0 <= i < first {
        dst[i] := buffer[r + i];
      }
      var second := n - first;
      if second > 0 {
        forall i | 0 <= i < second {
          dst[first + i] := buffer[i];
        }
      }
    }

    /** Copies held bytes to the front of `dst` without removing them. */
    method PeekCopy(dst: array<byte>) returns (n: nat)
      requires Valid() && dst != buffer
      modifies dst
      ensures n == Min(dst.Length, |Queue()|)
      ensures dst[..n] == Queue()[..n] && dst[n..] == old(dst[n..])
      ensures Queue() == old(Queue())
    {
      var available := Len();
      n := Min(dst.Length, available);
      if n == 0 {
        return;
      }
      CopyOut(dst, n);
    }

    /** Removes up to `count` of the oldest bytes. */
    method Consume(count: nat)
      requires Valid()
      modifies this`readPos
      ensures Valid()
      ensures Queue() == old(Queue())[Min(count, |old(Queue())|)..]
    {
      var available := Len();
      var n := Min(count, available);
      DropFront(buffer[..], readPos, writePos, n);
      if n == 0 {
        return;
      }
      readPos := (readPos + n) % capacity;
    }

    method DequeueSlice(dst: array<byte>) returns (n: nat)
      requires Valid() && dst != buffer
      modifies this`readPos, dst
      ensures Valid()
      ensures n == Min(dst.Length, |old(Queue())|)
      ensures dst[..n] == old(Queue())[..n] && dst[n..] == old(dst[n..])
      ensures Queue() == old(Queue())[n..]
    {
      var available := Len();
      n := Min(dst.Length, available);
      if n == 0 {
        return;
      }
      CopyOut(dst, n);
      DropFront(buffer[..], readPos, writePos, n);
      readPos := (readPos + n) % capacity;
    }
  }
}
