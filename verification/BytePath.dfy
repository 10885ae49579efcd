/** One proxied TCP connection: the client task on `SocketStream`
    (src/net/tunnel/manager/stream.rs) and the manager's `fill_recv_buffer`,
    `flush_pending_to_stack` and FIN check (src/net/tunnel/manager/phases.rs) over two shared rings.
    A ring call looks at the other side in one step and takes effect in another, as module RingSpec
    says and module Spsc refines; every load or store of a shared flag is a step of its own. The TCP
    stack is an oracle: `tcp_send` takes any non-empty prefix of what it is given or fails, `tcp_recv`
    gives any non-empty slice that fits or fails. */
module BytePath {
  import opened Common
  import S = RingSpec

  /** The client task. The rings hold the finer state of a ring call in progress. */
  datatype Client =
    | Ready
    | WriteCheckClosed(buf: seq<byte>)      // before loading write_closed
    | WriteCheckShutdown(buf: seq<byte>)    // before loading write_shutdown
    | WriteFull(buf: seq<byte>)             // first is_full
    | WriteFullAgain(buf: seq<byte>)        // second is_full, after registering the waker
    | WriteEmpty(buf: seq<byte>)            // is_empty, for was_empty
    | WriteEnqueue(buf: seq<byte>)
    | ReadEmpty(max: nat)                   // first is_empty
    | ReadEmptyAgain(max: nat, mark: nat)   // second is_empty; `mark` bytes were published when it began
    | ReadCheckSocketClosed(mark: nat)      // before loading socket_closed
    | ReadCheckReadClosed(mark: nat)        // before loading read_closed
    | ReadDequeue(max: nat)
    | Flush(shutdown: bool)                 // first is_empty of poll_flush
    | FlushAgain(shutdown: bool)            // second is_empty of poll_flush
    | ShutdownSwap                          // before setting write_shutdown
    | DropReadClosed                        // Drop: socket_dropped is stored
    | DropWriteClosed                       // Drop: read_closed is stored
    | Gone

  datatype Manager =
    | Idle
    | FlushMaySend | FlushPeek(chunkSize: nat) | FlushSend(chunk: seq<byte>) | FlushConsume(sent: nat, whole: bool)
    | FillRoom | FillRoomAgain | FillRecv(len: nat, readLen: nat) | FillEnqueue(data: seq<byte>, len: nat)
    | FinLen(mark: nat) | FinMaySend(mark: nat)   // `mark` bytes were published when the FIN check began
    | CloseReadClosed | CloseWriteClosed    // removal: socket_closed is stored
    | Removed

  /** The atomics of SocketStreamHandle that both sides share. */
  datatype Flags = Flags(dropped: bool, closed: bool, readClosed: bool, writeClosed: bool, writeShutdown: bool)

  /** Client to stack: the send ring and what belongs to it. `accepted` and `handed` record what
      poll_write accepted and what tcp_send took over the whole run; `flushed` is what had been
      accepted when poll_flush last answered Ready; `close` is what is known of closing. */
  datatype Up = Up(ring: S.Queue, accepted: seq<byte>, handed: seq<byte>, flushed: Option<seq<byte>>, close: Close)

  /** `fins` counts calls of tcp_close and `finMark` is how many bytes had been published when the FIN
      check of that call began. `early`: a Close command was handled before the stream was dropped.
      `caught`: the buffer of a poll_write that such a command met past its load of write_shutdown. */
  datatype Close = Close(
    requested: bool, early: bool, caught: Option<seq<byte>>, finSent: bool, fins: nat, finMark: Option<nat>)

  /** Stack to client: the receive ring, what tcp_recv gave, what poll_read gave, and the number of
      end-of-file answers. */
  datatype Down = Down(ring: S.Queue, pulled: seq<byte>, delivered: seq<byte>, eofs: nat)

  datatype Conn = Conn(up: Up, down: Down, client: Client, manager: Manager, flags: Flags)

  function Fresh(sendCap: nat, recvCap: nat): Conn {
    Conn(Up(S.Fresh(sendCap), [], [], None, Close(false, false, None, false, 0, None)),
         Down(S.Fresh(recvCap), [], [], 0),
         Ready, Idle, Flags(false, false, false, false, false))
  }

  // ---------------------------------------------------------------- client steps

  /** A ring call of the client is over and another `len()` begins. */
  ghost predicate ReAsks(q: S.Queue, q': S.Queue) {
    q.producer.PAnswer? && q' == q.(producer := S.PAsking)
  }

  ghost predicate Answered(q: S.Queue, q': S.Queue) {
    q.producer.PAnswer? && q' == q.(producer := S.PIdle)
  }

  /** poll_write and poll_flush where they use the send ring. */
  ghost predicate SendStep(c: Conn, c': Conn) {
    match c.client
    case WriteCheckShutdown(buf) =>
      && !c.flags.writeShutdown && c.up.ring.producer.PIdle?
      && c' == c.(client := WriteFull(buf), up := c.up.(ring := c.up.ring.(producer := S.PAsking)))
    case WriteFull(buf) =>
      && ReAsks(c.up.ring, c'.up.ring)
      && c' == c.(client := if c.up.ring.cap - c.up.ring.producer.len - 1 == 0 then WriteFullAgain(buf)
                            else WriteEmpty(buf),
                  up := c.up.(ring := c'.up.ring))
    case WriteFullAgain(buf) =>
      if c.up.ring.producer.PAnswer? && c.up.ring.cap - c.up.ring.producer.len - 1 == 0
      then Answered(c.up.ring, c'.up.ring) && c' == c.(client := Ready, up := c.up.(ring := c'.up.ring))
      else ReAsks(c.up.ring, c'.up.ring) && c' == c.(client := WriteEmpty(buf), up := c.up.(ring := c'.up.ring))
    case WriteEmpty(buf) =>
      && c.up.ring.producer.PAnswer?
      && c' == c.(client := WriteEnqueue(buf), up := c.up.(ring := c.up.ring.(producer := S.Enqueuing(buf))))
    case WriteEnqueue(buf) =>
      && c.up.ring.producer.PReturned? && c.up.ring.producer.count <= |buf|
      && c' == c.(client := Ready, up := c.up.(ring := c.up.ring.(producer := S.PIdle),
                                               accepted := c.up.accepted + buf[..c.up.ring.producer.count]))
    case Flush(shutdown) =>
      if c.up.ring.producer.PAnswer? && c.up.ring.producer.len == 0 then FlushDone(c, c', shutdown)
      else ReAsks(c.up.ring, c'.up.ring) && c' == c.(client := FlushAgain(shutdown), up := c.up.(ring := c'.up.ring))
    case FlushAgain(shutdown) =>
      if c.up.ring.producer.PAnswer? && c.up.ring.producer.len == 0 then FlushDone(c, c', shutdown)
      else Answered(c.up.ring, c'.up.ring) && c' == c.(client := Ready, up := c.up.(ring := c'.up.ring))
    case Ready =>                                      // poll_flush begins
      && c'.client.Flush? && c.up.ring.producer.PIdle?
      && c' == c.(client := c'.client, up := c.up.(ring := c.up.ring.(producer := S.PAsking)))
    case _ => false
  }

  /** poll_flush saw the send ring empty; poll_shutdown goes on to set write_shutdown. */
  ghost predicate FlushDone(c: Conn, c': Conn, shutdown: bool) {
    && Answered(c.up.ring, c'.up.ring)
    && c' == c.(client := if shutdown then ShutdownSwap else Ready,
                up := c.up.(ring := c'.up.ring, flushed := Some(c.up.accepted)))
  }

  /** poll_read where it uses the receive ring. */
  ghost predicate RecvStep(c: Conn, c': Conn) {
    match c.client
    case Ready =>                                      // poll_read begins
      && c'.client.ReadEmpty? && c.down.ring.consumer.CIdle?
      && c' == c.(client := c'.client, down := c.down.(ring := c.down.ring.(consumer := S.CAsking)))
    case ReadEmpty(max) =>
      && c.down.ring.consumer.CAnswer?
      && (if c.down.ring.consumer.len == 0
          then c' == c.(client := ReadEmptyAgain(max, |c.down.ring.published|),
                        down := c.down.(ring := c.down.ring.(consumer := S.CAsking)))
          else c' == c.(client := ReadDequeue(max),
                        down := c.down.(ring := c.down.ring.(consumer := S.Working(S.Take(max))))))
    case ReadEmptyAgain(max, mark) =>
      && c.down.ring.consumer.CAnswer?
      && (if c.down.ring.consumer.len == 0
          then c' == c.(client := ReadCheckSocketClosed(mark),
                        down := c.down.(ring := c.down.ring.(consumer := S.CIdle)))
          else c' == c.(client := ReadDequeue(max),
                        down := c.down.(ring := c.down.ring.(consumer := S.Working(S.Take(max))))))
    case ReadDequeue(_) =>
      && c.down.ring.consumer.CReturned?
      && c' == c.(client := Ready, down := c.down.(ring := c.down.ring.(consumer := S.CIdle),
                                                   delivered := c.down.delivered + c.down.ring.consumer.out))
    case _ => false
  }

  /** Loads and stores of shared flags, and the start of poll_write. */
  ghost predicate FlagStep(c: Conn, c': Conn) {
    match c.client
    case Ready => c'.client.WriteCheckClosed? && c' == c.(client := c'.client)
    case WriteCheckClosed(buf) => c' == c.(client := if c.flags.writeClosed then Ready else WriteCheckShutdown(buf))
    case WriteCheckShutdown(_) => c.flags.writeShutdown && c' == c.(client := Ready)
    case ReadCheckSocketClosed(mark) =>
      c' == if c.flags.closed then c.(client := Ready, down := c.down.(eofs := c.down.eofs + 1))
            else c.(client := ReadCheckReadClosed(mark))
    case ReadCheckReadClosed(_) =>
      c' == c.(client := Ready, down := c.down.(eofs := if c.flags.readClosed then c.down.eofs + 1 else c.down.eofs))
    case ShutdownSwap => c' == c.(client := Ready, flags := c.flags.(writeShutdown := true))
    case _ => false
  }

  /** Drop for SocketStream: the stream is owned, so nothing else is in progress. */
  ghost predicate DropStep(c: Conn, c': Conn) {
    match c.client
    case Ready => c' == c.(client := DropReadClosed, flags := c.flags.(dropped := true))
    case DropReadClosed => c' == c.(client := DropWriteClosed, flags := c.flags.(readClosed := true))
    case DropWriteClosed => c' == c.(client := Gone, flags := c.flags.(writeClosed := true))
    case _ => false
  }

  ghost predicate RingStep(q: S.Queue, q': S.Queue, a: S.Step) { S.Enabled(q, a) && q' == S.Next(q, a) }

  // ---------------------------------------------------------------- manager steps

  /** flush_pending_to_stack. */
  ghost predicate FlushStep(c: Conn, c': Conn) {
    match c.manager
    case Idle => c' == c.(manager := FlushMaySend)
    case FlushMaySend =>
      || c' == c.(manager := Idle)
      || (&& c'.manager.FlushPeek? && c.up.ring.consumer.CIdle?
          && var wish := S.Peek(c'.manager.chunkSize);
             c' == c.(manager := c'.manager, up := c.up.(ring := c.up.ring.(consumer := S.Working(wish)))))
    case FlushPeek(_) =>
      && c.up.ring.consumer.CReturned?
      && c' == c.(manager := if c.up.ring.consumer.count == 0 then Idle else FlushSend(c.up.ring.consumer.out),
                  up := c.up.(ring := c.up.ring.(consumer := S.CIdle)))
    case FlushSend(chunk) =>
      || c' == c.(manager := Idle)                     // Ok(0) or Err
      || (&& c'.manager.FlushConsume? && 0 < c'.manager.sent <= |chunk| && c.up.ring.consumer.CIdle?
          && c'.manager.whole == (c'.manager.sent == |chunk|)
          && var wish := S.Drop(c'.manager.sent);
             c' == c.(manager := c'.manager,
                      up := c.up.(handed := c.up.handed + chunk[..c'.manager.sent],
                                  ring := c.up.ring.(consumer := S.Working(wish)))))
    case FlushConsume(_, whole) =>
      && c.up.ring.consumer.CReturned?
      && c' == c.(manager := if whole then FlushMaySend else Idle, up := c.up.(ring := c.up.ring.(consumer := S.CIdle)))
    case _ => false
  }

  /** fill_recv_buffer. */
  ghost predicate FillStep(c: Conn, c': Conn) {
    match c.manager
    case Idle =>
      && !c.up.close.requested && c.down.ring.producer.PIdle?
      && c' == c.(manager := FillRoom, down := c.down.(ring := c.down.ring.(producer := S.PAsking)))
    case FillRoom =>
      && c.down.ring.producer.PAnswer?
      && (|| c' == c.(manager := Idle, down := c.down.(ring := c.down.ring.(producer := S.PIdle)))
          || (c.down.ring.cap - c.down.ring.producer.len - 1 > 0
              && c' == c.(manager := FillRoomAgain, down := c.down.(ring := c.down.ring.(producer := S.PAsking)))))
    case FillRoomAgain =>
      && c.down.ring.producer.PAnswer? && c'.manager.FillRecv?
      && c'.manager.len == c.down.ring.producer.len
      && c'.manager.readLen <= Max(0, c.down.ring.cap - c.down.ring.producer.len - 1)
      && c' == c.(manager := c'.manager, down := c.down.(ring := c.down.ring.(producer := S.PIdle)))
    case FillRecv(len, readLen) =>
      || c' == c.(manager := Idle)                     // Ok(0) or Err
      || (&& c'.manager.FillEnqueue? && c'.manager.len == len && 0 < |c'.manager.data| <= readLen
          && c.down.ring.producer.PIdle?
          && var data := c'.manager.data;
             c' == c.(manager := c'.manager,
                      down := c.down.(pulled := c.down.pulled + data,
                                      ring := c.down.ring.(producer := S.Enqueuing(data)))))
    case FillEnqueue(data, _) =>
      && c.down.ring.producer.PReturned?
      && (if c.down.ring.producer.count < |data|
          then c' == c.(manager := Idle, down := c.down.(ring := c.down.ring.(producer := S.PIdle)))
          else c' == c.(manager := FillRoom, down := c.down.(ring := c.down.ring.(producer := S.PAsking))))
    case _ => false
  }

  /** The FIN check at the end of servicing a socket. */
  ghost predicate FinStep(c: Conn, c': Conn) {
    match c.manager
    case Idle =>
      && c.up.close.requested && !c.up.close.finSent && c.up.ring.consumer.CIdle?
      && c' == c.(manager := FinLen(|c.up.ring.published|), up := c.up.(ring := c.up.ring.(consumer := S.CAsking)))
    case FinLen(mark) =>
      && c.up.ring.consumer.CAnswer?
      && c' == c.(manager := if c.up.ring.consumer.len == 0 then FinMaySend(mark) else Idle,
                  up := c.up.(ring := c.up.ring.(consumer := S.CIdle)))
    case FinMaySend(mark) =>
      || c' == c.(manager := Idle)
      || c' == c.(manager := Idle,
                  up := c.up.(close := c.up.close.(finSent := true, fins := c.up.close.fins + 1,
                                                   finMark := Some(mark))))
    case _ => false
  }

  /** poll_write is past its load of write_shutdown. */
  ghost predicate MidWrite(client: Client) {
    client.WriteFull? || client.WriteFullAgain? || client.WriteEmpty? || client.WriteEnqueue?
  }

  /** What a Close command makes of the closing state. */
  ghost function Commanded(close: Close, client: Client, dropped: bool): Close {
    close.(requested := true, early := close.early || !dropped,
           caught := if close.caught.None? && MidWrite(client) then Some(client.buf) else close.caught)
  }

  /** The stream was seen dropped, or a Close command. */
  ghost predicate RequestStep(c: Conn, c': Conn) {
    && c.manager.Idle?
    && (|| (c.flags.dropped && c' == c.(up := c.up.(close := c.up.close.(requested := true))))
        || c' == c.(up := c.up.(close := Commanded(c.up.close, c.client, c.flags.dropped)),
                    flags := c.flags.(writeShutdown := true)))
  }

  /** What the stack says about the peer, and removal of a socket that is no longer active. */
  ghost predicate PeerStep(c: Conn, c': Conn) {
    match c.manager
    case Idle =>
      || c' == c.(flags := c.flags.(readClosed := true))
      || c' == c.(flags := c.flags.(writeClosed := true))
      || c' == c.(manager := CloseReadClosed, flags := c.flags.(closed := true))
    case CloseReadClosed => c' == c.(manager := CloseWriteClosed, flags := c.flags.(readClosed := true))
    case CloseWriteClosed => c' == c.(manager := Removed, flags := c.flags.(writeClosed := true))
    case _ => false
  }

  // ---------------------------------------------------------------- all steps

  /** One look at the other side, or one effect, of a ring call in progress on either side. */
  ghost predicate OnRing(q: S.Queue, q': S.Queue) {
    || RingStep(q, q', S.Look) || RingStep(q, q', S.Publish)
    || RingStep(q, q', S.Inspect) || RingStep(q, q', S.Finish)
  }

  ghost predicate SendRingStep(c: Conn, c': Conn) {
    c' == c.(up := c.up.(ring := c'.up.ring)) && OnRing(c.up.ring, c'.up.ring)
  }

  ghost predicate RecvRingStep(c: Conn, c': Conn) {
    c' == c.(down := c.down.(ring := c'.down.ring)) && OnRing(c.down.ring, c'.down.ring)
  }

  ghost predicate Next(c: Conn, c': Conn) {
    || SendStep(c, c') || RecvStep(c, c') || FlagStep(c, c') || DropStep(c, c')
    || FlushStep(c, c') || FillStep(c, c') || FinStep(c, c') || RequestStep(c, c') || PeerStep(c, c')
    || SendRingStep(c, c') || RecvRingStep(c, c')
  }

  // ---------------------------------------------------------------- invariant

  /** A side is inside a call of `len()`. */
  ghost predicate ProducerAsks(p: S.Producer) { p.PAsking? || p.PAnswer? }

  ghost predicate ConsumerAsks(k: S.Consumer) { k.CAsking? || k.CAnswer? }

  /** A side is inside `enqueue_slice(data)`. */
  ghost predicate Enqueues(p: S.Producer, data: seq<byte>) {
    (p.Enqueuing? || p.Copying? || p.PReturned?) && p.data == data
  }

  /** A side is inside a call that takes, peeks at or drops bytes. */
  ghost predicate Works(k: S.Consumer, wish: S.Wish) {
    (k.Working? || k.Copying? || k.CReturned?) && k.wish == wish
  }

  /** The pending ring call of each side is the one its task is waiting for. */
  ghost predicate SendAligned(c: Conn) {
    && (match c.client
        case WriteFull(_) => ProducerAsks(c.up.ring.producer)
        case WriteFullAgain(_) => ProducerAsks(c.up.ring.producer)
        case WriteEmpty(_) => ProducerAsks(c.up.ring.producer)
        case Flush(_) => ProducerAsks(c.up.ring.producer)
        case FlushAgain(_) => ProducerAsks(c.up.ring.producer)
        case WriteEnqueue(buf) => Enqueues(c.up.ring.producer, buf)
        case _ => c.up.ring.producer.PIdle?)
    && (match c.manager
        case FlushPeek(chunkSize) => Works(c.up.ring.consumer, S.Peek(chunkSize))
        case FlushConsume(sent, _) => Works(c.up.ring.consumer, S.Drop(sent))
        case FinLen(_) => ConsumerAsks(c.up.ring.consumer)
        case _ => c.up.ring.consumer.CIdle?)
  }

  ghost predicate RecvAligned(c: Conn) {
    && (match c.client
        case ReadEmpty(_) => ConsumerAsks(c.down.ring.consumer)
        case ReadEmptyAgain(_, _) => ConsumerAsks(c.down.ring.consumer)
        case ReadDequeue(max) => Works(c.down.ring.consumer, S.Take(max))
        case _ => c.down.ring.consumer.CIdle?)
    && (match c.manager
        case FillRoom => ProducerAsks(c.down.ring.producer)
        case FillRoomAgain => ProducerAsks(c.down.ring.producer)
        case FillEnqueue(data, _) => Enqueues(c.down.ring.producer, data)
        case _ => c.down.ring.producer.PIdle?)
  }

  /** Bytes published to the send ring are those reported to the writer, plus the ones whose report
      is still on its way back. */
  ghost function Unreported(c: Conn): seq<byte> {
    if c.client.WriteEnqueue? && c.up.ring.producer.PReturned? && c.up.ring.producer.count <= |c.client.buf|
    then c.client.buf[..c.up.ring.producer.count] else []
  }

  /** Bytes the stack took that are still in the send ring. */
  ghost function Unconsumed(c: Conn): seq<byte>
  {
    if c.manager.FlushConsume? && !c.up.ring.consumer.CReturned? && c.manager.sent <= |c.up.ring.held|
    then c.up.ring.held[..c.manager.sent] else []
  }

  /** Bytes the stack gave that are not yet in the receive ring. */
  ghost function Unpublished(c: Conn): seq<byte> {
    if c.manager.FillEnqueue? && !c.down.ring.producer.PReturned? then c.manager.data else []
  }

  /** Bytes taken from the receive ring whose delivery is still on its way back. */
  ghost function Undelivered(c: Conn): seq<byte> {
    if c.client.ReadDequeue? && c.down.ring.consumer.CReturned? then c.down.ring.consumer.out else []
  }

  ghost predicate SendInv(c: Conn)
  {
    && c.up.ring.published == c.up.accepted + Unreported(c)
    && c.up.handed == c.up.ring.taken + Unconsumed(c)
    && (c.manager.FlushSend? ==> c.manager.chunk <= c.up.ring.held && c.manager.chunk != [])
    && (c.manager.FlushConsume? ==>
          && (!c.up.ring.consumer.CReturned? ==> c.manager.sent <= |c.up.ring.held|)
          && (c.up.ring.consumer.Copying? || c.up.ring.consumer.CReturned? ==>
                c.up.ring.consumer.count == c.manager.sent)
          && c.manager.sent > 0)
  }

  /** The room seen before `tcp_recv` is still there when its bytes are enqueued. */
  ghost predicate RecvInv(c: Conn)
  {
    && c.down.pulled == c.down.ring.published + Unpublished(c)
    && c.down.ring.taken == c.down.delivered + Undelivered(c)
    && (c.client.ReadEmptyAgain? ==>
          && |c.down.ring.taken| <= c.client.mark <= |c.down.ring.published|
          && (c.down.ring.consumer.CAnswer? && c.down.ring.consumer.len == 0 ==> c.client.mark == |c.down.ring.taken|))
    && (c.client.ReadCheckSocketClosed? || c.client.ReadCheckReadClosed? ==>
          c.client.mark == |c.down.ring.taken|)
    && (c.manager.FillRecv? ==>
          |c.down.ring.held| <= c.manager.len && c.manager.len + c.manager.readLen < c.down.ring.cap)
    && (c.manager.FillEnqueue? ==>
          && c.manager.len + |c.manager.data| < c.down.ring.cap && c.manager.data != []
          && (match c.down.ring.producer
              case Enqueuing(_) => |c.down.ring.held| <= c.manager.len
              case Copying(_, count) => count == |c.manager.data|
              case PReturned(_, count) => count == |c.manager.data|
              case _ => true))
  }

  ghost predicate DropBegun(client: Client) {
    client.DropReadClosed? || client.DropWriteClosed? || client.Gone?
  }

  /** Once closing is asked for, only a write that a Close command caught can still publish. */
  ghost predicate CloseInv(c: Conn)
  {
    && (c.flags.dropped <==> DropBegun(c.client))
    && (c.up.close.requested ==> c.flags.dropped || (c.up.close.early && c.flags.writeShutdown))
    && (c.up.close.caught.Some? ==> c.up.close.early && c.flags.writeShutdown)
    && (c.flags.writeShutdown && MidWrite(c.client) ==> c.up.close.caught == Some(c.client.buf))
  }

  /** The bytes published since a FIN check began. */
  ghost predicate Since(c: Conn, mark: nat) {
    && mark <= |c.up.ring.published|
    && (mark < |c.up.ring.published| ==>
          && c.up.close.caught.Some? && c.up.ring.published[mark..] <= c.up.close.caught.value
          && (MidWrite(c.client) ==> c.up.ring.producer.PReturned?))
  }

  ghost predicate FinInv(c: Conn)
  {
    && ((c.manager.FinLen? || c.manager.FinMaySend?) ==>
          c.up.close.requested && !c.up.close.finSent && Since(c, c.manager.mark))
    && (c.manager.FinLen? ==> |c.up.ring.taken| <= c.manager.mark)
    && (c.manager.FinLen? && c.up.ring.consumer.CAnswer? && c.up.ring.consumer.len == 0 ==>
          |c.up.ring.taken| == c.manager.mark)
    && (c.manager.FinMaySend? ==> |c.up.ring.taken| == c.manager.mark)
    && c.up.close.fins == (if c.up.close.finSent then 1 else 0)
    && (c.up.close.finSent <==> c.up.close.finMark.Some?)
    && (c.up.close.finSent ==>
          && c.up.close.requested && Since(c, c.up.close.finMark.value)
          && c.up.close.finMark.value <= |c.up.ring.taken|)
  }

  ghost predicate FlushInv(c: Conn)
  {
    && (c.up.flushed.Some? ==> c.up.flushed.value <= c.up.handed)
    && (c.client.Flush? || c.client.FlushAgain? ==>
          (c.up.ring.producer.PAnswer? && c.up.ring.producer.len == 0 ==> c.up.ring.held == []))
    && (c.client.ShutdownSwap? ==> c.up.ring.held == [])
  }

  ghost predicate SendHalf(c: Conn) {
    SendCore(c) && CloseHalf(c)
  }

  /** The bytes, and what is known of closing. */
  ghost predicate SendCore(c: Conn) {
    S.Inv(c.up.ring) && SendAligned(c) && SendInv(c) && FlushInv(c)
  }

  ghost predicate CloseHalf(c: Conn) {
    CloseInv(c) && FinInv(c)
  }

  ghost predicate RecvHalf(c: Conn) {
    S.Inv(c.down.ring) && RecvAligned(c) && RecvInv(c)
  }

  ghost predicate Inv(c: Conn) {
    SendHalf(c) && RecvHalf(c)
  }

  lemma FreshInv(sendCap: nat, recvCap: nat)
    requires sendCap >= 2 && recvCap >= 2
    ensures Inv(Fresh(sendCap, recvCap))
  {
  }

  // ---------------------------------------------------------------- steps that leave a half alone

  ghost predicate UsesSend(client: Client) {
    client.WriteFull? || client.WriteFullAgain? || client.WriteEmpty? || client.WriteEnqueue?
    || client.Flush? || client.FlushAgain? || client.ShutdownSwap? || DropBegun(client)
  }

  ghost predicate UsesSendManager(m: Manager) {
    m.FlushPeek? || m.FlushSend? || m.FlushConsume? || m.FinLen? || m.FinMaySend?
  }

  ghost predicate UsesRecv(client: Client) {
    client.ReadEmpty? || client.ReadEmptyAgain? || client.ReadDequeue?
    || client.ReadCheckSocketClosed? || client.ReadCheckReadClosed?
  }

  ghost predicate UsesRecvManager(m: Manager) {
    m.FillRoom? || m.FillRoomAgain? || m.FillRecv? || m.FillEnqueue?
  }

  ghost predicate SendFrame(c: Conn, c': Conn) {
    && c'.up == c.up && c'.flags.dropped == c.flags.dropped
    && (c.flags.writeShutdown ==> c'.flags.writeShutdown)
    && (c'.flags.writeShutdown == c.flags.writeShutdown || !MidWrite(c.client))
    && (c'.client == c.client || ((!UsesSend(c.client) || c.client.ShutdownSwap?) && !UsesSend(c'.client)))
    && (c'.manager == c.manager || (!UsesSendManager(c.manager) && !UsesSendManager(c'.manager)))
  }

  ghost predicate RecvFrame(c: Conn, c': Conn) {
    && c'.down.ring == c.down.ring && c'.down.pulled == c.down.pulled && c'.down.delivered == c.down.delivered
    && (c'.client == c.client || (!UsesRecv(c.client) && !UsesRecv(c'.client)))
    && (c'.manager == c.manager || (!UsesRecvManager(c.manager) && !UsesRecvManager(c'.manager)))
  }

  lemma SendUntouched(c: Conn, c': Conn)
    requires SendHalf(c) && SendFrame(c, c')
    ensures SendHalf(c')
  {
  }

  lemma RecvUntouched(c: Conn, c': Conn)
    requires RecvHalf(c) && RecvFrame(c, c')
    ensures RecvHalf(c')
  {
  }

  // ---------------------------------------------------------------- the send half, client steps

  lemma AskKeeps(c: Conn, c': Conn)
    requires SendHalf(c) && SendStep(c, c') && (c.client.WriteCheckShutdown? || c.client.Ready?)
    ensures SendHalf(c')
  {
  }

  lemma WriteKeepsBytes(c: Conn, c': Conn)
    requires SendCore(c) && SendStep(c, c') && MidWrite(c.client)
    ensures SendCore(c')
  {
  }

  lemma WriteKeepsClose(c: Conn, c': Conn)
    requires SendHalf(c) && SendStep(c, c') && MidWrite(c.client)
    ensures CloseHalf(c')
  {
  }

  lemma WriteKeeps(c: Conn, c': Conn)
    requires SendHalf(c) && SendStep(c, c') && MidWrite(c.client)
    ensures SendHalf(c')
  {
    WriteKeepsBytes(c, c');
    WriteKeepsClose(c, c');
  }

  /** When the ring was seen empty, everything accepted has been handed to the stack. */
  lemma FlushDoneKeeps(c: Conn, c': Conn)
    requires SendHalf(c) && (c.client.Flush? || c.client.FlushAgain?)
    requires c.up.ring.producer.PAnswer? && c.up.ring.producer.len == 0 && FlushDone(c, c', c.client.shutdown)
    ensures SendHalf(c') && c'.up.accepted == c'.up.handed
  {
    assert c.up.ring.held == [] && c.up.handed == c.up.ring.taken == c.up.accepted;
  }

  /** The ring was seen non-empty: poll_flush asks again or gives up. */
  lemma FlushWaitKeeps(c: Conn, c': Conn)
    requires SendHalf(c) && SendStep(c, c') && (c.client.Flush? || c.client.FlushAgain?)
    requires c.up.ring.producer.PAnswer? && c.up.ring.producer.len != 0
    ensures SendHalf(c')
  {
    FlushWaitKeepsBytes(c, c');
    FlushWaitKeepsClose(c, c');
  }

  lemma FlushWaitKeepsBytes(c: Conn, c': Conn)
    requires SendCore(c) && SendStep(c, c') && (c.client.Flush? || c.client.FlushAgain?)
    requires c.up.ring.producer.PAnswer? && c.up.ring.producer.len != 0
    ensures SendCore(c')
  {
  }

  lemma FlushWaitKeepsClose(c: Conn, c': Conn)
    requires CloseHalf(c) && SendStep(c, c') && (c.client.Flush? || c.client.FlushAgain?)
    requires c.up.ring.producer.PAnswer? && c.up.ring.producer.len != 0
    ensures CloseHalf(c')
  {
    assert c'.manager == c.manager && c'.flags == c.flags && c'.up.close == c.up.close;
    assert c'.up.ring == c.up.ring.(producer := c'.up.ring.producer);
  }

  lemma FlushKeeps(c: Conn, c': Conn)
    requires SendHalf(c) && SendStep(c, c') && (c.client.Flush? || c.client.FlushAgain?)
    ensures SendHalf(c')
  {
    if c.up.ring.producer.len == 0 { FlushDoneKeeps(c, c'); } else { FlushWaitKeeps(c, c'); }
  }

  lemma SendStepKeeps(c: Conn, c': Conn)
    requires SendHalf(c) && SendStep(c, c')
    ensures SendHalf(c')
  {
    if c.client.Flush? || c.client.FlushAgain? { FlushKeeps(c, c'); }
    else if c.client.Ready? || c.client.WriteCheckShutdown? { AskKeeps(c, c'); }
    else { WriteKeeps(c, c'); }
  }

  lemma DropKeepsBytes(c: Conn, c': Conn)
    requires SendCore(c) && DropStep(c, c')
    ensures SendCore(c')
  {
  }

  lemma DropKeeps(c: Conn, c': Conn)
    requires SendHalf(c) && DropStep(c, c')
    ensures SendHalf(c')
  {
    DropKeepsBytes(c, c');
    assert c'.up == c.up && c'.manager == c.manager && !MidWrite(c'.client);
  }

  lemma LookKeepsBytes(c: Conn, c': Conn)
    requires SendCore(c) && RingStep(c.up.ring, c'.up.ring, S.Look) && c' == c.(up := c.up.(ring := c'.up.ring))
    ensures SendCore(c')
  {
  }

  lemma LookKeeps(c: Conn, c': Conn)
    requires SendHalf(c) && RingStep(c.up.ring, c'.up.ring, S.Look) && c' == c.(up := c.up.(ring := c'.up.ring))
    ensures SendHalf(c')
  {
    LookKeepsBytes(c, c');
    assert c'.up.ring.published == c.up.ring.published && c'.up.ring.consumer == c.up.ring.consumer;
  }

  lemma PublishKeeps(c: Conn, c': Conn)
    requires SendHalf(c) && RingStep(c.up.ring, c'.up.ring, S.Publish) && c' == c.(up := c.up.(ring := c'.up.ring))
    ensures SendHalf(c')
  {
    S.StepInv(c.up.ring, S.Publish);
    assert c.client.WriteEnqueue? && !DropBegun(c.client);
    assert c.up.ring.held <= c'.up.ring.held;
    assert SendInv(c');
  }

  // ---------------------------------------------------------------- the send half, manager steps

  lemma InspectKeeps(c: Conn, c': Conn)
    requires SendHalf(c) && RingStep(c.up.ring, c'.up.ring, S.Inspect) && c' == c.(up := c.up.(ring := c'.up.ring))
    ensures SendHalf(c')
  {
  }

  lemma FinishKeeps(c: Conn, c': Conn)
    requires SendHalf(c) && RingStep(c.up.ring, c'.up.ring, S.Finish) && c' == c.(up := c.up.(ring := c'.up.ring))
    ensures SendHalf(c')
  {
    S.StepInv(c.up.ring, S.Finish);
    assert SendInv(c');
  }

  lemma TcpSendKeeps(c: Conn, c': Conn)
    requires SendHalf(c) && FlushStep(c, c') && c.manager.FlushSend?
    ensures SendHalf(c')
  {
  }

  lemma PeekKeeps(c: Conn, c': Conn)
    requires SendHalf(c) && FlushStep(c, c') && (c.manager.FlushPeek? || c.manager.FlushMaySend?)
    ensures SendHalf(c')
  {
  }

  lemma FlushStepKeeps(c: Conn, c': Conn)
    requires SendHalf(c) && FlushStep(c, c')
    ensures SendHalf(c')
  {
    if c.manager.FlushSend? { TcpSendKeeps(c, c'); }
    else if c.manager.FlushPeek? || c.manager.FlushMaySend? { PeekKeeps(c, c'); }
  }

  lemma FinKeeps(c: Conn, c': Conn)
    requires SendHalf(c) && FinStep(c, c')
    ensures SendHalf(c')
  {
  }

  lemma RequestKeeps(c: Conn, c': Conn)
    requires SendHalf(c) && RequestStep(c, c')
    ensures SendHalf(c')
  {
  }

  // ---------------------------------------------------------------- the receive half

  lemma RecvStepKeeps(c: Conn, c': Conn)
    requires RecvHalf(c) && RecvStep(c, c')
    ensures RecvHalf(c')
  {
  }

  lemma TcpRecvKeeps(c: Conn, c': Conn)
    requires RecvHalf(c) && FillStep(c, c') && (c.manager.FillRecv? || c.manager.FillEnqueue?)
    ensures RecvHalf(c')
  {
  }

  lemma FillStepKeeps(c: Conn, c': Conn)
    requires RecvHalf(c) && FillStep(c, c')
    ensures RecvHalf(c')
  {
    if c.manager.FillRecv? || c.manager.FillEnqueue? { TcpRecvKeeps(c, c'); }
  }

  lemma RecvRingKeeps(c: Conn, c': Conn, a: S.Step)
    requires RecvHalf(c) && RingStep(c.down.ring, c'.down.ring, a) && c' == c.(down := c.down.(ring := c'.down.ring))
    requires a.Look? || a.Publish? || a.Inspect? || a.Finish?
    ensures RecvHalf(c')
  {
    S.StepInv(c.down.ring, a);
    assert c.manager.FillEnqueue? ==> c.manager.data[..|c.manager.data|] == c.manager.data;
  }

  // ---------------------------------------------------------------- every step keeps the invariant

  lemma SendStepInv(c: Conn, c': Conn)
    requires Inv(c) && SendStep(c, c')
    ensures Inv(c')
  {
    SendStepKeeps(c, c');
    SendFrames(c, c');
    RecvUntouched(c, c');
  }

  lemma SendFrames(c: Conn, c': Conn)
    requires SendStep(c, c')
    ensures RecvFrame(c, c')
  {
  }

  lemma RecvStepInv(c: Conn, c': Conn)
    requires Inv(c) && RecvStep(c, c')
    ensures Inv(c')
  {
    RecvStepKeeps(c, c');
    SendUntouched(c, c');
  }

  lemma CheckKeeps(c: Conn, c': Conn)
    requires RecvHalf(c) && FlagStep(c, c') && (c.client.ReadCheckSocketClosed? || c.client.ReadCheckReadClosed?)
    ensures RecvHalf(c')
  {
  }

  lemma FlagFrames(c: Conn, c': Conn)
    requires CloseInv(c) && FlagStep(c, c')
    ensures SendFrame(c, c')
    ensures c.client.ReadCheckSocketClosed? || c.client.ReadCheckReadClosed? || RecvFrame(c, c')
  {
  }

  lemma FlagStepInv(c: Conn, c': Conn)
    requires Inv(c) && FlagStep(c, c')
    ensures Inv(c')
  {
    FlagFrames(c, c');
    SendUntouched(c, c');
    if c.client.ReadCheckSocketClosed? || c.client.ReadCheckReadClosed? {
      CheckKeeps(c, c');
    } else {
      RecvUntouched(c, c');
    }
  }

  lemma DropStepInv(c: Conn, c': Conn)
    requires Inv(c) && DropStep(c, c')
    ensures Inv(c')
  {
    DropKeeps(c, c');
    RecvUntouched(c, c');
  }

  lemma FlushStepInv(c: Conn, c': Conn)
    requires Inv(c) && FlushStep(c, c')
    ensures Inv(c')
  {
    FlushStepKeeps(c, c');
    RecvUntouched(c, c');
  }

  lemma FillStepInv(c: Conn, c': Conn)
    requires Inv(c) && FillStep(c, c')
    ensures Inv(c')
  {
    SendUntouched(c, c');
    FillStepKeeps(c, c');
  }

  lemma FinStepInv(c: Conn, c': Conn)
    requires Inv(c) && FinStep(c, c')
    ensures Inv(c')
  {
    FinKeeps(c, c');
    RecvUntouched(c, c');
  }

  lemma RequestStepInv(c: Conn, c': Conn)
    requires Inv(c) && RequestStep(c, c')
    ensures Inv(c')
  {
    RequestKeeps(c, c');
    RecvUntouched(c, c');
  }

  lemma PeerFrames(c: Conn, c': Conn)
    requires PeerStep(c, c')
    ensures SendFrame(c, c') && RecvFrame(c, c')
  {
  }

  lemma PeerStepInv(c: Conn, c': Conn)
    requires Inv(c) && PeerStep(c, c')
    ensures Inv(c')
  {
    PeerFrames(c, c');
    SendUntouched(c, c');
    RecvUntouched(c, c');
  }

  lemma SendRingInv(c: Conn, c': Conn)
    requires Inv(c) && c' == c.(up := c.up.(ring := c'.up.ring)) && OnRing(c.up.ring, c'.up.ring)
    ensures Inv(c')
  {
    RecvUntouched(c, c');
    if RingStep(c.up.ring, c'.up.ring, S.Look) {
      LookKeeps(c, c');
    } else if RingStep(c.up.ring, c'.up.ring, S.Publish) {
      PublishKeeps(c, c');
    } else if RingStep(c.up.ring, c'.up.ring, S.Inspect) {
      InspectKeeps(c, c');
    } else {
      FinishKeeps(c, c');
    }
  }

  lemma RecvRingInv(c: Conn, c': Conn)
    requires Inv(c) && c' == c.(down := c.down.(ring := c'.down.ring)) && OnRing(c.down.ring, c'.down.ring)
    ensures Inv(c')
  {
    SendUntouched(c, c');
    var a :| a in [S.Look, S.Publish, S.Inspect, S.Finish] && RingStep(c.down.ring, c'.down.ring, a);
    RecvRingKeeps(c, c', a);
  }

  lemma StepInv(c: Conn, c': Conn)
    requires Inv(c) && Next(c, c')
    ensures Inv(c')
  {
    if SendStep(c, c') { SendStepInv(c, c'); }
    else if RecvStep(c, c') { RecvStepInv(c, c'); }
    else if FlagStep(c, c') { FlagStepInv(c, c'); }
    else if DropStep(c, c') { DropStepInv(c, c'); }
    else if FlushStep(c, c') { FlushStepInv(c, c'); }
    else if FillStep(c, c') { FillStepInv(c, c'); }
    else if FinStep(c, c') { FinStepInv(c, c'); }
    else if RequestStep(c, c') { RequestStepInv(c, c'); }
    else if PeerStep(c, c') { PeerStepInv(c, c'); }
    else if SendRingStep(c, c') { SendRingInv(c, c'); }
    else { RecvRingInv(c, c'); }
  }

  // ---------------------------------------------------------------- whole runs

  ghost predicate IsRun(sendCap: nat, recvCap: nat, states: seq<Conn>) {
    && sendCap >= 2 && recvCap >= 2
    && |states| > 0 && states[0] == Fresh(sendCap, recvCap)
    && forall i :: 0 <= i < |states| - 1 ==> Next(states[i], states[i + 1])
  }

  lemma {:induction false} RunInv(sendCap: nat, recvCap: nat, states: seq<Conn>, i: nat)
    requires IsRun(sendCap, recvCap, states) && i < |states|
    ensures Inv(states[i])
  {
    if i == 0 {
      FreshInv(sendCap, recvCap);
    } else {
      RunInv(sendCap, recvCap, states, i - 1);
      StepInv(states[i - 1], states[i]);
    }
  }

  /** Client to stack: what the stack took, then what the ring still holds, is what poll_write
      accepted, exactly when neither side is in the middle of a call and up to the bytes of that
      call otherwise. Flushed bytes have all been handed over. */
  ghost predicate UpConserved(c: Conn) {
    && c.up.ring.taken + c.up.ring.held == c.up.accepted + Unreported(c)
    && c.up.handed == c.up.ring.taken + Unconsumed(c)
    && (!c.manager.FlushConsume? && !c.client.WriteEnqueue? ==> c.up.handed + c.up.ring.held == c.up.accepted)
    && c.up.handed <= c.up.accepted + Unreported(c)
    && (c.up.flushed.Some? ==> c.up.flushed.value <= c.up.handed)
  }

  /** Stack to client: what poll_read gave, then what the ring holds, is what tcp_recv gave. */
  ghost predicate DownConserved(c: Conn) {
    && c.down.delivered + Undelivered(c) + c.down.ring.held + Unpublished(c) == c.down.pulled
    && (!c.manager.FillEnqueue? && !c.client.ReadDequeue? ==> c.down.delivered + c.down.ring.held == c.down.pulled)
  }

  /** The branch of fill_recv_buffer for `written < n` is never taken. */
  ghost predicate NothingSaturates(c: Conn) {
    c.manager.FillEnqueue? && c.down.ring.producer.PReturned? ==> c.down.ring.producer.count == |c.manager.data|
  }

  /** FIN is issued at most once, after a drop or a Close command. It comes after every accepted byte
      unless a Close command caught a write in flight; then it passes exactly what that write
      published since the FIN check began. */
  ghost predicate FinIsLast(c: Conn) {
    && c.up.close.fins <= 1
    && (c.up.close.fins == 1 && !c.up.close.early ==> c.flags.dropped)
    && (c.up.close.fins == 1 && c.up.close.caught.None? ==> c.up.handed == c.up.accepted)
    && (c.up.close.fins == 1 ==>
          && c.up.close.finMark.Some?
          && var mark := c.up.close.finMark.value;
             && mark <= |c.up.ring.published| && c.up.ring.published[..mark] <= c.up.handed
             && (|c.up.ring.published| > mark ==>
                   c.up.close.caught.Some? && c.up.ring.published[mark..] <= c.up.close.caught.value))
  }

  /** End-of-file is reported only on a closed stream. */
  ghost predicate EofMeansClosed(c: Conn) {
    c.down.eofs > 0 ==> c.flags.closed || c.flags.readClosed
  }

  lemma StepEof(c: Conn, c': Conn)
    requires EofMeansClosed(c) && Next(c, c')
    ensures EofMeansClosed(c')
  {
  }

  lemma {:induction false} RunEof(sendCap: nat, recvCap: nat, states: seq<Conn>, i: nat)
    requires IsRun(sendCap, recvCap, states) && i < |states|
    ensures EofMeansClosed(states[i])
  {
    if i > 0 {
      RunEof(sendCap, recvCap, states, i - 1);
      StepEof(states[i - 1], states[i]);
    }
  }

  lemma InvConserves(c: Conn)
    requires Inv(c)
    ensures UpConserved(c) && FinIsLast(c)
  {
    assert c.up.ring.taken + c.up.ring.held == c.up.ring.published;
    assert c.up.ring.taken + [] == c.up.ring.taken && c.up.accepted + [] == c.up.accepted;
    if Unconsumed(c) != [] {
      assert c.up.ring.held == c.up.ring.held[..c.manager.sent] + c.up.ring.held[c.manager.sent..];
      assert c.up.handed + c.up.ring.held[c.manager.sent..] == c.up.ring.published;
    }
  }

  lemma InvConservesDown(c: Conn)
    requires RecvHalf(c)
    ensures DownConserved(c) && NothingSaturates(c)
  {
    assert c.down.ring.taken + c.down.ring.held == c.down.ring.published;
    assert c.down.ring.published + [] == c.down.ring.published;
    assert c.down.delivered + [] == c.down.delivered;
  }

  /** No byte is lost, duplicated or reordered between client and stack, in any run. */
  lemma EveryRunConserves(sendCap: nat, recvCap: nat, states: seq<Conn>)
    requires IsRun(sendCap, recvCap, states)
    ensures forall i :: 0 <= i < |states| ==>
              && UpConserved(states[i]) && DownConserved(states[i]) && NothingSaturates(states[i])
              && FinIsLast(states[i]) && EofMeansClosed(states[i])
  {
    forall i | 0 <= i < |states|
      ensures && UpConserved(states[i]) && DownConserved(states[i]) && NothingSaturates(states[i])
              && FinIsLast(states[i]) && EofMeansClosed(states[i])
    {
      RunEof(sendCap, recvCap, states, i);
      RunInv(sendCap, recvCap, states, i);
      InvConserves(states[i]);
      InvConservesDown(states[i]);
    }
  }

  /** At the FIN step: the bytes handed over are those published when the FIN check began, and those
      left in the ring, which FIN passes, are the ones published since. */
  lemma FinPassesWhatCameSince(c: Conn, c': Conn)
    requires Inv(c) && FinStep(c, c') && c'.up.close.fins == c.up.close.fins + 1
    ensures c.manager.FinMaySend? && c'.up.close.finMark == Some(c.manager.mark)
    ensures c.manager.mark <= |c.up.ring.published|
    ensures c'.up.handed == c.up.ring.published[..c.manager.mark]
    ensures c'.up.ring.held == c.up.ring.published[c.manager.mark..]
    ensures c'.up.handed == c.up.ring.published <==> |c.up.ring.published| == c.manager.mark
  {
    assert c.up.ring.taken + c.up.ring.held == c.up.ring.published;
    assert c.up.handed == c.up.ring.taken + [] == c.up.ring.taken;
  }

  /** FIN passes an accepted byte exactly when a write that a Close command caught published after the
      FIN check began: what it passed by then, and what that write publishes later. */
  lemma FinPassesExactly(sendCap: nat, recvCap: nat, states: seq<Conn>, f: nat, i: nat)
    requires IsRun(sendCap, recvCap, states) && f < i < |states|
    requires FinStep(states[f], states[f + 1]) && states[f + 1].up.close.fins == states[f].up.close.fins + 1
    ensures var mark, published := states[f].manager.mark, states[i].up.ring.published;
            && mark <= |published|
            && states[f + 1].up.handed == published[..mark]
            && (states[f + 1].up.handed != published <==> |published| > mark)
            && (|published| > mark ==>
                  states[i].up.close.caught.Some? && published[mark..] <= states[i].up.close.caught.value)
  {
    RunInv(sendCap, recvCap, states, f);
    FinPassesWhatCameSince(states[f], states[f + 1]);
    RunInv(sendCap, recvCap, states, i);
    AfterFin(sendCap, recvCap, states, f + 1, i);
  }

  /** FIN's mark stays, and so do published bytes. */
  ghost predicate Later(c: Conn, c': Conn) {
    && (c.up.close.finSent ==> c'.up.close.finSent && c'.up.close.finMark == c.up.close.finMark)
    && c.up.ring.published <= c'.up.ring.published
  }

  lemma {:induction false} LaterChain(states: seq<Conn>, f: nat, i: nat)
    requires f <= i < |states| && forall k :: f <= k < i ==> Later(states[k], states[k + 1])
    ensures Later(states[f], states[i])
    decreases i
  {
    if f < i {
      LaterChain(states, f, i - 1);
      assert Later(states[i - 1], states[i - 1 + 1]);
    }
  }

  lemma AfterFin(sendCap: nat, recvCap: nat, states: seq<Conn>, f: nat, i: nat)
    requires IsRun(sendCap, recvCap, states) && f <= i < |states|
    ensures Later(states[f], states[i])
  {
    forall k | f <= k < i
      ensures Later(states[k], states[k + 1])
    {
      RunLater(sendCap, recvCap, states, k);
    }
    LaterChain(states, f, i);
  }

  lemma RunLater(sendCap: nat, recvCap: nat, states: seq<Conn>, i: nat)
    requires IsRun(sendCap, recvCap, states) && i + 1 < |states|
    ensures Later(states[i], states[i + 1])
  {
    RunInv(sendCap, recvCap, states, i);
    StepLater(states[i], states[i + 1]);
  }

  lemma StepLater(c: Conn, c': Conn)
    requires CloseHalf(c) && Next(c, c')
    ensures Later(c, c')
  {
    if SendRingStep(c, c') {
      assert c'.up.close == c.up.close;
    }
  }

  /** When poll_read answers end-of-file, the bytes it leaves behind are those published since its
      second emptiness test began: none exactly when nothing was published since. */
  lemma EofLeavesWhatCameSince(c: Conn, c': Conn)
    requires Inv(c) && FlagStep(c, c') && c'.down.eofs == c.down.eofs + 1
    ensures c.client.ReadCheckSocketClosed? || c.client.ReadCheckReadClosed?
    ensures c.client.mark <= |c.down.ring.published|
    ensures c'.down.ring.held == c.down.ring.published[c.client.mark..]
    ensures c'.down.delivered == c.down.ring.published <==> |c.down.ring.published| == c.client.mark
  {
    assert c.down.ring.taken + c.down.ring.held == c.down.ring.published;
  }
}
