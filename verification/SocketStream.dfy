/** Both ends of a TCP stream over its two rings, each call run as one step: the client's polls
    (src/net/tunnel/manager/stream.rs) and the manager's loops (src/net/tunnel/manager/phases.rs).
    What the stack does with a slice is a parameter; the interleaved calls are the subject of BytePath. */
module SocketStream {
  import opened Common
  import opened RingBuffer

  datatype Poll = Pending | Ready(count: nat) | BrokenPipe

  class Stream {
    const send: TcpRingBuffer
    const recv: TcpRingBuffer
    var socketClosed: bool
    var readClosed: bool
    var writeClosed: bool
    var writeShutdown: bool
    var dropped: bool
    var readEvents: nat            // notifications asked for, coalesced or not
    var writeEvents: nat
    var closeEvents: nat
    var incoming: seq<byte>        // bytes the stack holds for the client
    var outgoing: seq<byte>        // bytes the stack was given

    ghost predicate Valid()
      reads this, send, recv
    {
      send.Valid() && recv.Valid() && send != recv && send.buffer != recv.buffer
    }

    constructor (sendCapacity: nat, recvCapacity: nat)
      ensures Valid() && fresh(send) && fresh(recv) && fresh(send.buffer) && fresh(recv.buffer)
      ensures send.Queue() == [] && recv.Queue() == [] && incoming == [] && outgoing == []
      ensures send.capacity == Max(sendCapacity, 1) + 1 && recv.capacity == Max(recvCapacity, 1) + 1
    {
      send := new TcpRingBuffer(sendCapacity + 1);
      recv := new TcpRingBuffer(recvCapacity + 1);
      socketClosed, readClosed, writeClosed, writeShutdown, dropped := false, false, false, false, false;
      readEvents, writeEvents, closeEvents := 0, 0, 0;
      incoming, outgoing := [], [];
    }

    // -------------------------------------------------------------- the client

    /** Bytes are delivered in order; the end of the stream is reported only for an empty ring; freed
        space is always announced. */
    method PollRead(dst: array<byte>) returns (r: Poll)
      requires Valid() && dst != recv.buffer && dst != send.buffer
      modifies this`readEvents, recv`readPos, dst
      ensures Valid() && send.Queue() == old(send.Queue())
      ensures r.Pending? <==> old(recv.Queue()) == [] && !socketClosed && !readClosed
      ensures r.Ready? ==> r.count == Min(dst.Length, |old(recv.Queue())|)
      ensures r.Ready? ==> old(recv.Queue()) == dst[..r.count] + recv.Queue()
      ensures r.Ready? && r.count == 0 && dst.Length > 0 ==> old(recv.Queue()) == [] && (socketClosed || readClosed)
      ensures !r.Ready? ==> recv.Queue() == old(recv.Queue()) && dst[..] == old(dst[..])
      ensures |recv.Queue()| < |old(recv.Queue())| ==> readEvents == old(readEvents) + 1
    {
      var len := recv.Len();
      if len == 0 {
        if socketClosed || readClosed {
          return Ready(0);
        }
        return Pending;
      }
      var n := recv.DequeueSlice(dst);
      if n > 0 {
        readEvents := readEvents + 1;
      }
      return Ready(n);
    }

    /** Accepted bytes are a prefix of the buffer, behind what the ring holds; bytes entering an empty
        ring are always announced. */
    method PollWrite(buf: seq<byte>) returns (r: Poll)
      requires Valid()
      modifies this`writeEvents, send`writePos, send.buffer
      ensures Valid() && recv.Queue() == old(recv.Queue())
      ensures r.BrokenPipe? <==> writeClosed || writeShutdown
      ensures r.Pending? <==> !writeClosed && !writeShutdown && |old(send.Queue())| + 1 == send.capacity
      ensures r.Ready? ==> r.count <= |buf| && send.Queue() == old(send.Queue()) + buf[..r.count]
      ensures r.Ready? && buf != [] ==> r.count > 0
      ensures !r.Ready? ==> send.Queue() == old(send.Queue())
      ensures old(send.Queue()) == [] && send.Queue() != [] ==> writeEvents == old(writeEvents) + 1
    {
      if writeClosed || writeShutdown {
        return BrokenPipe;
      }
      var room := send.RemainingCapacity();
      if room == 0 {
        return Pending;
      }
      var held := send.Len();
      var n := send.EnqueueSlice(buf);
      if held == 0 && n > 0 {
        writeEvents := writeEvents + 1;
      }
      return Ready(n);
    }

    /** Flushed means that the ring is empty; otherwise the manager is told. */
    method PollFlush() returns (r: Poll)
      requires Valid()
      modifies this`writeEvents
      ensures Valid() && (r == Ready(0) || r == Pending) && (r.Ready? <==> send.Queue() == [])
      ensures writeEvents == old(writeEvents) + if r.Pending? then 1 else 0
    {
      var held := send.Len();
      if held != 0 {
        writeEvents := writeEvents + 1;
        return Pending;
      }
      return Ready(0);
    }

    /** The write half closes only once everything accepted has left the ring. */
    method PollShutdown() returns (r: Poll)
      requires Valid()
      modifies this`writeEvents, this`writeShutdown
      ensures Valid() && (r == Ready(0) || r == Pending) && (r.Ready? <==> send.Queue() == [])
      ensures writeShutdown <==> old(writeShutdown) || r.Ready?
      ensures writeEvents == old(writeEvents) + if r.Pending? || !old(writeShutdown) then 1 else 0
    {
      r := PollFlush();
      if r.Ready? && !writeShutdown {
        writeShutdown := true;
        writeEvents := writeEvents + 1;
      }
    }

    method Drop()
      requires Valid()
      modifies this`dropped, this`readClosed, this`writeClosed, this`closeEvents
      ensures Valid() && dropped && readClosed && writeClosed && closeEvents == old(closeEvents) + 1
    {
      dropped, readClosed, writeClosed := true, true, true;
      closeEvents := closeEvents + 1;
    }

    // -------------------------------------------------------------- the manager

    /** `mayRecv(k)` and `gives(k)` are what the stack says before and in the k-th `tcp_recv`. Every byte
        taken from the stack enters the ring: the branch for a saturated ring is never taken. The loop
        stops only when it must: closing, the stack is done or gives nothing, or the ring is full. */
    method FillRecvBuffer(closeRequested: bool, chunk: nat, mayRecv: nat -> bool, gives: nat -> nat)
      returns (saturated: bool, rounds: nat)
      requires Valid()
      modifies this`incoming, recv`writePos, recv.buffer
      ensures Valid() && send.Queue() == old(send.Queue())
      ensures !saturated
      ensures recv.Queue() + incoming == old(recv.Queue() + incoming)
      ensures |recv.Queue()| >= |old(recv.Queue())|
      ensures closeRequested ==> incoming == old(incoming)
      ensures !closeRequested && chunk > 0 && incoming != [] && |recv.Queue()| + 1 < recv.capacity ==>
                !mayRecv(rounds) || gives(rounds) == 0
    {
      saturated, rounds := false, 0;
      if closeRequested || !mayRecv(0) {
        return;
      }
      while true
        invariant Valid() && send.Queue() == old(send.Queue()) && !saturated
        invariant recv.Queue() + incoming == old(recv.Queue() + incoming) && |recv.Queue()| >= |old(recv.Queue())|
        decreases recv.capacity - |recv.Queue()|
      {
        var room := recv.RemainingCapacity();
        if room == 0 || !mayRecv(rounds) {
          break;
        }
        var n := Min(Min(room, chunk), Min(gives(rounds), |incoming|));
        if n == 0 {
          break;
        }
        var written := Take(n, chunk);
        if written < n {
          saturated := true;
          break;
        }
        rounds := rounds + 1;
      }
    }

    /** Takes at most one chunk from the stack. */
    method Take(n: nat, ghost chunk: nat) returns (written: nat)
      requires n <= chunk && Valid() && 0 < n <= |incoming| && n + |recv.Queue()| + 1 <= recv.capacity
      modifies this`incoming, recv`writePos, recv.buffer
      ensures Valid() && send.Queue() == old(send.Queue()) && written == n
      ensures recv.Queue() + incoming == old(recv.Queue() + incoming) && |recv.Queue()| == |old(recv.Queue())| + n
    {
      var data := incoming[..n];
      ghost var held, all := recv.Queue(), incoming;
      incoming := incoming[n..];
      written := recv.EnqueueSlice(data);
      assert recv.Queue() == held + data && held + data + all[n..] == held + all;
    }

    /** `maySend(k)` and `takes(k)` are what the stack says before and in the k-th `tcp_send`. The bytes
        handed over and the bytes still held are the bytes that were there, in order. The loop stops only
        on an empty ring, or when the stack cannot send or took less than it was offered. */
    method FlushPendingToStack(chunk: nat, maySend: nat -> bool, takes: nat -> nat) returns (rounds: nat)
      requires Valid()
      modifies this`outgoing, send`readPos
      ensures Valid() && recv.Queue() == old(recv.Queue())
      ensures outgoing + send.Queue() == old(outgoing + send.Queue())
      ensures |outgoing| >= |old(outgoing)|
      ensures || send.Queue() == [] || chunk == 0 || !maySend(rounds) || takes(rounds) == 0
              || (rounds > 0 && takes(rounds - 1) < chunk)
    {
      rounds := 0;
      var buf := new byte[chunk](_ => 0);
      while maySend(rounds)
        invariant Valid() && recv.Queue() == old(recv.Queue())
        invariant outgoing + send.Queue() == old(outgoing + send.Queue()) && |outgoing| >= |old(outgoing)|
        invariant fresh(buf)
        decreases |send.Queue()|
      {
        var len := send.PeekCopy(buf);
        if len == 0 {
          break;
        }
        var sent := Min(takes(rounds), len);
        if sent == 0 {
          break;
        }
        Hand(buf[..sent], chunk);
        rounds := rounds + 1;
        if sent < len {
          break;
        }
      }
    }

    /** Hands at most one chunk to the stack. */
    method Hand(bytes: seq<byte>, ghost chunk: nat)
      requires |bytes| <= chunk && Valid() && 0 < |bytes| <= |send.Queue()| && bytes == send.Queue()[..|bytes|]
      modifies this`outgoing, send`readPos
      ensures Valid() && recv.Queue() == old(recv.Queue())
      ensures outgoing + send.Queue() == old(outgoing + send.Queue())
      ensures |outgoing| == |old(outgoing)| + |bytes| && |send.Queue()| == |old(send.Queue())| - |bytes|
    {
      ghost var held := send.Queue();
      outgoing := outgoing + bytes;
      send.Consume(|bytes|);
      assert held == bytes + held[|bytes|..];
    }
  }
}
